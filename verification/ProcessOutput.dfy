/** The bounded output capture of `runProcess`, over already decoded chunks. */
module ProcessOutput {

  datatype Capture = Capture(text: string, truncatedChars: nat)

  const EMPTY := Capture("", 0)

  function Append(capture: Capture, chunk: string, maxChars: nat): Capture {
    var nextText := capture.text + chunk;
    if |nextText| <= maxChars then Capture(nextText, capture.truncatedChars)
    else Capture(SliceFromEnd(nextText, maxChars), capture.truncatedChars + |nextText| - maxChars)
  }

  /** `text.slice(-n)`: a zero is no offset from the end, it slices from the start. */
  function SliceFromEnd(text: string, n: nat): string
    requires n <= |text|
  {
    if n == 0 then text else text[|text| - n..]
  }

  function Concat(chunks: seq<string>): string {
    if chunks == [] then "" else Concat(chunks[..|chunks| - 1]) + chunks[|chunks| - 1]
  }

  function AppendAll(chunks: seq<string>, maxChars: nat): Capture {
    if chunks == [] then EMPTY
    else Append(AppendAll(chunks[..|chunks| - 1], maxChars), chunks[|chunks| - 1], maxChars)
  }

  function Tail(text: string, n: nat): string {
    if |text| <= n then text else text[|text| - n..]
  }

  lemma TailOfTail(before: string, last: string, n: nat)
    ensures Tail(Tail(before, n) + last, n) == Tail(before + last, n)
  {
    if |before| > n {
      var kept := before[|before| - n..];
      assert (kept + last)[|last|..] == (before + last)[|before| + |last| - n..];
    }
  }

  /** The capture is the tail of this output and counts what is missing. */
  ghost predicate Captures(c: Capture, output: string, maxChars: nat) {
    c.text == Tail(output, maxChars) && |c.text| + c.truncatedChars == |output|
  }

  lemma AppendKeepsTail(c: Capture, output: string, chunk: string, maxChars: nat)
    requires maxChars > 0 && Captures(c, output, maxChars)
    ensures Captures(Append(c, chunk, maxChars), output + chunk, maxChars)
  {
    TailOfTail(output, chunk, maxChars);
  }

  /**
   However the output was cut into chunks, the capture is its last `maxChars` characters
   and the count of what was dropped.
   */
  lemma {:induction false} CaptureIsTail(chunks: seq<string>, maxChars: nat)
    requires maxChars > 0
    ensures var c := AppendAll(chunks, maxChars);
            && c.text == Tail(Concat(chunks), maxChars)
            && |c.text| + c.truncatedChars == |Concat(chunks)|
  {
    if chunks != [] {
      var n := |chunks| - 1;
      CaptureIsTail(chunks[..n], maxChars);
      AppendKeepsTail(AppendAll(chunks[..n], maxChars), Concat(chunks[..n]), chunks[n], maxChars);
    }
  }

  /** Nothing was truncated exactly when the capture is the whole output. */
  lemma UntruncatedIsExact(chunks: seq<string>, maxChars: nat)
    requires maxChars > 0
    ensures AppendAll(chunks, maxChars).truncatedChars == 0 <==> AppendAll(chunks, maxChars).text == Concat(chunks)
  {
    CaptureIsTail(chunks, maxChars);
  }

  /**
   The exported function takes any limit, but keeps its promise for positive ones only: with a
   limit of zero every character is kept and also counted as dropped.
   */
  lemma TailIsKeptIffLimitIsPositive(maxChars: nat)
    ensures maxChars > 0 <==> forall chunks :: AppendAll(chunks, maxChars).text == Tail(Concat(chunks), maxChars)
  {
    if maxChars > 0 {
      forall chunks ensures AppendAll(chunks, maxChars).text == Tail(Concat(chunks), maxChars) {
        CaptureIsTail(chunks, maxChars);
      }
    } else {
      var chunks := ["a"];
      assert Concat(chunks) == Concat([]) + "a" == "a";
      assert AppendAll(chunks, 0) == Append(EMPTY, "a", 0) == Capture("a", 1);
      assert Tail("a", 0) == "";
    }
  }
}
