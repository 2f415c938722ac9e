/** Fitting a row of token ids to a fixed length, the way both the inference
    encoder and the training loader do it: keep the first `n` ids of a longer
    row, append zeros (the padding id) to a shorter one. */
module Padding {

  /** `s[:n]` when `len(s) > n`, otherwise `s + [0] * (n - len(s))`. */
  function Fit(s: seq<int>, n: nat): (r: seq<int>)
    ensures |r| == n
    ensures forall k :: 0 <= k < n && k < |s| ==> r[k] == s[k]
    ensures forall k :: |s| <= k < n ==> r[k] == 0
  {
    if |s| > n then s[..n] else s + seq(n - |s|, _ => 0)
  }
}
