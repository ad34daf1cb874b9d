/**
 The per-stream line reassembler of the restart monitor: chunks arrive on two streams in
 any order, lines are cut at `\r?\n`, and an unfinished line is carried over.
 */
module OutputLines {
  import opened Text

  // ----- Splitting on \r?\n -----

  /** `(piece + rest).split(/\r?\n/)` when `piece` was already scanned without a match. */
  function SplitFrom(piece: string, rest: string): (r: seq<string>)
    ensures |r| >= 1
    decreases |rest|
  {
    if rest == "" then [piece]
    else if "\r\n" <= rest then [piece] + SplitFrom("", rest[2..])
    else if rest[0] == '\n' then [piece] + SplitFrom("", rest[1..])
    else SplitFrom(piece + [rest[0]], rest[1..])
  }

  function SplitLines(s: string): seq<string> {
    SplitFrom("", s)
  }

  function StripCr(line: string): string {
    if line != "" && line[|line| - 1] == '\r' then line[..|line| - 1] else line
  }

  /** Every piece but the last loses one trailing carriage return. */
  function StripFinished(pieces: seq<string>): seq<string>
    requires |pieces| >= 1
  {
    if |pieces| == 1 then pieces else [StripCr(pieces[0])] + StripFinished(pieces[1..])
  }

  /** `piece` holds no line feed and does not end in the first half of a CR LF. */
  predicate Clean(piece: string, rest: string) {
    '\n' !in piece && !(piece != "" && piece[|piece| - 1] == '\r' && rest != "" && rest[0] == '\n')
  }

  lemma EmptyPieceFirst(t: seq<string>)
    requires |t| >= 1
    ensures ["" + t[0]] + t[1..] == t
  {
    assert "" + t[0] == t[0];
  }

  lemma {:induction false} SplitFromIsStrippedSplit(piece: string, rest: string)
    requires Clean(piece, rest)
    ensures var parts := Split(rest, '\n');
            SplitFrom(piece, rest) == StripFinished([piece + parts[0]] + parts[1..])
    decreases |rest|
  {
    var parts := Split(rest, '\n');
    if rest == "" {
      assert piece + "" == piece;
    } else if "\r\n" <= rest {
      var t := Split(rest[2..], '\n');
      SplitFromIsStrippedSplit("", rest[2..]);
      EmptyPieceFirst(t);
      assert rest[1..][1..] == rest[2..];
      assert Split(rest[1..], '\n') == [""] + t;
      assert parts[0] == ['\r'] + "" && parts[1..] == t;
      assert StripCr(piece + parts[0]) == piece;
      assert ([piece + parts[0]] + t)[1..] == t;
    } else if rest[0] == '\n' {
      var t := Split(rest[1..], '\n');
      SplitFromIsStrippedSplit("", rest[1..]);
      EmptyPieceFirst(t);
      assert parts == [""] + t;
      assert piece + "" == piece;
      assert ([piece] + t)[1..] == t;
    } else {
      SplitFromIsStrippedSplit(piece + [rest[0]], rest[1..]);
      var t := Split(rest[1..], '\n');
      assert parts == [[rest[0]] + t[0]] + t[1..];
      assert (piece + [rest[0]]) + t[0] == piece + ([rest[0]] + t[0]);
    }
  }

  /** The regular-expression split is: cut at line feeds, then strip one CR before each. */
  lemma LinesAreStrippedSplit(s: string)
    ensures SplitLines(s) == StripFinished(Split(s, '\n'))
  {
    SplitFromIsStrippedSplit("", s);
    var parts := Split(s, '\n');
    EmptyPieceFirst(parts);
  }

  lemma {:induction false} Rescan(done: string, piece: string, rest: string)
    requires Clean(piece, rest)
    ensures SplitFrom(done, piece + rest) == SplitFrom(done + piece, rest)
    decreases |piece|
  {
    var s := piece + rest;
    if piece == "" {
      assert s == rest && done + piece == done;
    } else {
      assert s[0] == piece[0] && s[1..] == piece[1..] + rest;
      if |piece| > 1 {
        assert s[1] == piece[1];
      } else if rest != "" {
        assert s[1] == rest[0];
      }
      assert done + piece == done + [piece[0]] + piece[1..];
      Rescan(done + [piece[0]], piece[1..], rest);
    }
  }

  /** What resuming after `a` has to give. */
  predicate Resumes(piece: string, a: string, b: string) {
    var cut := SplitFrom(piece, a);
    SplitFrom(piece, a + b) == cut[..|cut| - 1] + SplitLines(cut[|cut| - 1] + b)
  }

  lemma ResumesAfterBreak(piece: string, a: string, rest: string, b: string)
    requires SplitFrom(piece, a) == [piece] + SplitFrom("", rest)
    requires SplitFrom(piece, a + b) == [piece] + SplitFrom("", rest + b)
    requires Resumes("", rest, b)
    ensures Resumes(piece, a, b)
  {
    var short, cut := SplitFrom("", rest), SplitFrom(piece, a);
    var n := |short| - 1;
    var tail := SplitLines(short[n] + b);
    assert cut[..n + 1] == [piece] + short[..n] && cut[n + 1] == short[n];
    PrependIsAssociative(piece, short[..n], tail);
    assert SplitFrom("", rest + b) == short[..n] + tail;
  }

  lemma PrependIsAssociative(x: string, a: seq<string>, b: seq<string>)
    ensures [x] + (a + b) == ([x] + a) + b
  {}

  lemma ResumesWithNothing(piece: string, b: string)
    requires Clean(piece, b)
    ensures Resumes(piece, "", b)
  {
    Rescan("", piece, b);
    assert "" + b == b && "" + piece == piece;
  }

  /** The cut falls inside a CR LF. */
  lemma ResumesInsideCrLf(piece: string, b: string)
    requires '\n' !in piece && b != "" && b[0] == '\n'
    ensures Resumes(piece, "\r", b)
  {
    Rescan("", piece, "\r" + b);
    assert "" + piece == piece && piece + ("\r" + b) == (piece + "\r") + b;
    assert SplitFrom(piece, "\r") == SplitFrom(piece + "\r", "");
  }

  /** Neither scan can stop at the first character of `a`: there is no break at it. */
  predicate StartsPlain(a: string, b: string) {
    && a != "" && a[0] != '\n' && !("\r\n" <= a)
    && !(a == "\r" && b != "" && b[0] == '\n')
  }

  lemma PlainStep(piece: string, a: string, b: string)
    requires StartsPlain(a, b)
    ensures SplitFrom(piece, a + b) == SplitFrom(piece + [a[0]], a[1..] + b)
  {
    var s := a + b;
    assert s[1..] == a[1..] + b && s[0] == a[0];
    if |a| > 1 {
      assert s[1] == a[1];
    } else if b != "" {
      assert s[1] == b[0];
    }
  }

  lemma StaysClean(piece: string, a: string, b: string)
    requires Clean(piece, a + b) && StartsPlain(a, b)
    ensures Clean(piece + [a[0]], a[1..] + b)
  {
    var rest := a[1..] + b;
    if rest != "" {
      assert rest[0] == if |a| > 1 then a[1] else b[0];
    }
  }

  lemma ResumesAfterPlain(piece: string, a: string, b: string)
    requires StartsPlain(a, b) && Resumes(piece + [a[0]], a[1..], b)
    ensures Resumes(piece, a, b)
  {
    PlainStep(piece, a, b);
    assert SplitFrom(piece, a) == SplitFrom(piece + [a[0]], a[1..]);
  }

  lemma CrLfStep(piece: string, a: string, b: string)
    requires "\r\n" <= a
    ensures SplitFrom(piece, a + b) == [piece] + SplitFrom("", a[2..] + b)
  {
    var s := a + b;
    assert s[0] == a[0] && s[1] == a[1] && s[2..] == a[2..] + b;
  }

  lemma LfStep(piece: string, a: string, b: string)
    requires a != "" && a[0] == '\n'
    ensures SplitFrom(piece, a + b) == [piece] + SplitFrom("", a[1..] + b)
  {
    var s := a + b;
    assert s[0] == a[0] && s[1..] == a[1..] + b;
  }

  lemma {:induction false} SplitResumesFrom(piece: string, a: string, b: string)
    requires Clean(piece, a + b)
    ensures Resumes(piece, a, b)
    decreases |a|
  {
    if a == "" {
      assert a + b == b;
      ResumesWithNothing(piece, b);
    } else if "\r\n" <= a {
      SplitResumesFrom("", a[2..], b);
      CrLfStep(piece, a, b);
      ResumesAfterBreak(piece, a, a[2..], b);
    } else if a[0] == '\n' {
      SplitResumesFrom("", a[1..], b);
      LfStep(piece, a, b);
      ResumesAfterBreak(piece, a, a[1..], b);
    } else if !StartsPlain(a, b) {
      ResumesInsideCrLf(piece, b);
    } else {
      StaysClean(piece, a, b);
      SplitResumesFrom(piece + [a[0]], a[1..], b);
      ResumesAfterPlain(piece, a, b);
    }
  }

  /** Splitting may stop anywhere, even inside a CR LF, and resume from the carried piece. */
  lemma SplitResumes(a: string, b: string)
    ensures var cut := SplitLines(a);
            SplitLines(a + b) == cut[..|cut| - 1] + SplitLines(cut[|cut| - 1] + b)
  {
    SplitResumesFrom("", a, b);
  }

  // ----- The two stream buffers -----

  datatype Stream = Stdout | Stderr {
    function Other(): Stream {
      if this == Stdout then Stderr else Stdout
    }
  }

  datatype Collected = Collected(carry: string, lines: seq<string>)

  function CollectOutputLines(carry: string, chunk: string): Collected {
    var parts := SplitLines(carry + chunk);
    Collected(parts[|parts| - 1], parts[..|parts| - 1])
  }

  /** Collecting one chunk keeps "lines so far plus carry" equal to the split of the whole. */
  lemma OneMoreChunk(lines: seq<string>, carry: string, whole: string, chunk: string)
    requires lines + [carry] == SplitLines(whole)
    ensures var c := CollectOutputLines(carry, chunk);
            (lines + c.lines) + [c.carry] == SplitLines(whole + chunk)
  {
    var c := CollectOutputLines(carry, chunk);
    assert (lines + [carry])[..|lines|] == lines && (lines + [carry])[|lines|] == carry;
    SplitResumes(whole, chunk);
    assert c.lines + [c.carry] == SplitLines(carry + chunk);
    assert (lines + c.lines) + [c.carry] == lines + (c.lines + [c.carry]);
  }

  function On(stream: Stream, deliveries: seq<(Stream, string)>): seq<string> {
    if deliveries == [] then []
    else
      var last := deliveries[|deliveries| - 1];
      On(stream, deliveries[..|deliveries| - 1]) + (if last.0 == stream then [last.1] else [])
  }

  /** The lines of a finished text: its split, without a last piece that is empty. */
  function FinishedLines(text: string): seq<string> {
    var parts := SplitLines(text);
    if parts[|parts| - 1] == "" then parts[..|parts| - 1] else parts
  }

  lemma FinishedFromCarry(lines: seq<string>, carry: string, text: string)
    requires lines + [carry] == SplitLines(text)
    ensures FinishedLines(text) == if carry == "" then lines else lines + [carry]
  {
    assert (lines + [carry])[|lines|] == carry && (lines + [carry])[..|lines|] == lines;
  }

  lemma OnAppend(stream: Stream, deliveries: seq<(Stream, string)>, s: Stream, line: string)
    ensures On(stream, deliveries + [(s, line)]) == On(stream, deliveries) + (if s == stream then [line] else [])
  {
    assert (deliveries + [(s, line)])[..|deliveries|] == deliveries;
  }

  /** The output buffers of one gateway process and the lines handed to `onLine`. */
  class OutputBuffers {
    var carry: map<Stream, string>
    var delivered: seq<(Stream, string)>
    ghost var received: map<Stream, string>

    /** Delivered lines plus carry are the split of everything received. */
    ghost predicate Settled(s: Stream)
      reads this
    {
      s in carry && s in received && On(s, delivered) + [carry[s]] == SplitLines(received[s])
    }

    ghost predicate Valid()
      reads this
    {
      Settled(Stdout) && Settled(Stderr)
    }

    constructor ()
      ensures Valid()
      ensures delivered == [] && received == map[Stdout := "", Stderr := ""]
    {
      carry, delivered := map[Stdout := "", Stderr := ""], [];
      received := map[Stdout := "", Stderr := ""];
    }

    method OnLine(stream: Stream, line: string)
      modifies `delivered
      ensures delivered == old(delivered) + [(stream, line)]
      ensures On(stream, delivered) == On(stream, old(delivered)) + [line]
      ensures On(stream.Other(), delivered) == On(stream.Other(), old(delivered))
    {
      OnAppend(stream, delivered, stream, line);
      OnAppend(stream.Other(), delivered, stream, line);
      delivered := delivered + [(stream, line)];
    }

    method OnLines(stream: Stream, lines: seq<string>)
      modifies `delivered
      ensures old(delivered) <= delivered
      ensures On(stream, delivered) == On(stream, old(delivered)) + lines
      ensures On(stream.Other(), delivered) == On(stream.Other(), old(delivered))
    {
      for i := 0 to |lines|
        invariant old(delivered) <= delivered
        invariant On(stream, delivered) == On(stream, old(delivered)) + lines[..i]
        invariant On(stream.Other(), delivered) == On(stream.Other(), old(delivered))
      {
        OnLine(stream, lines[i]);
      }
    }

    method OnChunk(stream: Stream, text: string)
      requires Valid()
      modifies this
      ensures Valid()
      ensures received == old(received)[stream := old(received)[stream] + text]
      ensures old(delivered) <= delivered
    {
      assert Settled(stream) && Settled(stream.Other());
      var parsed := CollectOutputLines(carry[stream], text);
      OneMoreChunk(On(stream, delivered), carry[stream], received[stream], text);
      carry := carry[stream := parsed.carry];
      received := received[stream := received[stream] + text];
      OnLines(stream, parsed.lines);
      assert Settled(stream) && Settled(stream.Other());
    }

    /**
     The flush: a no-op before the end; at the end each non-empty carry becomes a last
     line, so what was delivered are exactly the lines of the whole stream.
     */
    method Flush(flushPartial: bool)
      requires Valid()
      modifies `carry, `delivered
      ensures !flushPartial ==> Valid() && delivered == old(delivered)
      ensures flushPartial ==>
                && (Stdout in carry && carry[Stdout] == "" && Stderr in carry && carry[Stderr] == "")
                && On(Stdout, delivered) == FinishedLines(received[Stdout])
                && On(Stderr, delivered) == FinishedLines(received[Stderr])
    {
      if !flushPartial {
        return;
      }
      FlushStream(Stdout);
      FlushStream(Stderr);
    }

    method FlushStream(stream: Stream)
      requires Settled(stream)
      modifies `carry, `delivered
      ensures carry == old(carry)[stream := ""]
      ensures On(stream, delivered) == FinishedLines(received[stream])
      ensures On(stream.Other(), delivered) == On(stream.Other(), old(delivered))
    {
      FinishedFromCarry(On(stream, delivered), carry[stream], received[stream]);
      var line := carry[stream];
      carry := carry[stream := ""];
      if line == "" {
        return;
      }
      OnLine(stream, line);
    }
  }

  /** Everything received on one stream. */
  function TextOn(stream: Stream, chunks: seq<(Stream, string)>): string {
    if chunks == [] then ""
    else
      var last := chunks[|chunks| - 1];
      TextOn(stream, chunks[..|chunks| - 1]) + (if last.0 == stream then last.1 else "")
  }

  /**
   For every interleaving of chunks on the two streams: feed them all, flush at the end,
   and each stream has delivered exactly the lines of its whole text.
   */
  method DrainStreams(chunks: seq<(Stream, string)>) returns (delivered: seq<(Stream, string)>)
    ensures On(Stdout, delivered) == FinishedLines(TextOn(Stdout, chunks))
    ensures On(Stderr, delivered) == FinishedLines(TextOn(Stderr, chunks))
  {
    var buffers := new OutputBuffers();
    for i := 0 to |chunks|
      invariant fresh(buffers) && buffers.Valid()
      invariant buffers.received[Stdout] == TextOn(Stdout, chunks[..i])
      invariant buffers.received[Stderr] == TextOn(Stderr, chunks[..i])
    {
      assert chunks[..i + 1][..i] == chunks[..i];
      buffers.OnChunk(chunks[i].0, chunks[i].1);
      buffers.Flush(false);
    }
    assert chunks[..|chunks|] == chunks;
    buffers.Flush(true);
    delivered := buffers.delivered;
  }
}
