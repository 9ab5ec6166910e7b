/**
 * Splitting a lookup reply into messages of at most 4096 characters, the
 * per-message limit of the chat platform. A reply longer than the limit is cut
 * into consecutive slices `text[i:i+4096]` for `i` in `range(0, len(text), 4096)`;
 * a shorter one is sent as it is.
 */
module Chunking {

  const MESSAGE_LIMIT := 4096

  /** Number of slices `range(0, n, 4096)` yields: the ceiling of n / 4096. */
  function CeilDiv(n: nat): nat
  {
    (n + MESSAGE_LIMIT - 1) / MESSAGE_LIMIT
  }

  function Concat(parts: seq<string>): string
  {
    if parts == [] then [] else parts[0] + Concat(parts[1..])
  }

  /** The slices of the comprehension, in order. */
  function Slices(text: string): (parts: seq<string>)
    ensures Concat(parts) == text
    ensures |parts| == CeilDiv(|text|)
    ensures forall i :: 0 <= i < |parts| ==> 0 < |parts[i]| <= MESSAGE_LIMIT
    ensures forall i :: 0 <= i < |parts| - 1 ==> |parts[i]| == MESSAGE_LIMIT
    decreases |text|
  {
    if text == [] then []
    else if |text| <= MESSAGE_LIMIT then [text]
    else
      var rest := Slices(text[MESSAGE_LIMIT..]);
      assert text == text[..MESSAGE_LIMIT] + text[MESSAGE_LIMIT..];
      [text[..MESSAGE_LIMIT]] + rest
  }

  /** The messages one reply is sent as. */
  function Messages(text: string): (parts: seq<string>)
    ensures Concat(parts) == text
    ensures forall i :: 0 <= i < |parts| ==> |parts[i]| <= MESSAGE_LIMIT
    ensures forall i :: 0 <= i < |parts| - 1 ==> |parts[i]| == MESSAGE_LIMIT
    ensures |text| > 0 ==> |parts| == CeilDiv(|text|)
    ensures |text| <= MESSAGE_LIMIT ==> parts == [text]
  {
    if |text| > MESSAGE_LIMIT then Slices(text) else [text]
  }

  /** The end of slice k: `min(4096 * k + 4096, n)`. */
  function SliceEnd(n: nat, k: nat): nat
  {
    if MESSAGE_LIMIT * k + MESSAGE_LIMIT <= n then MESSAGE_LIMIT * k + MESSAGE_LIMIT else n
  }

  /** A slice of a suffix is a slice of the whole, shifted by the suffix's start. */
  lemma SliceOfSuffix(s: string, m: nat, a: nat, b: nat)
    requires m <= |s| && a <= b <= |s| - m
    ensures s[m..][a..b] == s[m + a .. m + b]
  {
    assert forall i :: 0 <= i < b - a ==> s[m..][a..b][i] == s[m + a + i];
  }

  /** Slice k of the reply starts at offset 4096 * k, as `range` steps it. */
  lemma {:induction false} SliceAt(text: string, k: nat)
    requires k < |Slices(text)|
    ensures MESSAGE_LIMIT * k < |text|
    ensures Slices(text)[k] == text[MESSAGE_LIMIT * k .. SliceEnd(|text|, k)]
  {
    if k > 0 {
      assert |text| > MESSAGE_LIMIT;
      var rest := text[MESSAGE_LIMIT..];
      assert Slices(text) == [text[..MESSAGE_LIMIT]] + Slices(rest);
      SliceAt(rest, k - 1);
      var lo := MESSAGE_LIMIT * (k - 1);
      assert MESSAGE_LIMIT * k == lo + MESSAGE_LIMIT;
      assert SliceEnd(|text|, k) == SliceEnd(|rest|, k - 1) + MESSAGE_LIMIT;
      SliceOfSuffix(text, MESSAGE_LIMIT, lo, SliceEnd(|rest|, k - 1));
    }
  }
}
