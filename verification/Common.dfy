/** Definitions that several components share. */
module Common {
  datatype Option<T> = None | Some(value: T)

  /** One past the largest 32-bit `int`. */
  const INT_LIMIT := 0x8000_0000

  /** The list without its element `k`. */
  function Omit<T>(s: seq<T>, k: nat): (r: seq<T>)
    requires k < |s|
    ensures |r| == |s| - 1 && forall m :: 0 <= m < |r| ==> r[m] == s[if m < k then m else m + 1]
  {
    s[..k] + s[k + 1..]
  }

  /** `n` copies of `x`. */
  function Repeat<T>(x: T, n: nat): (s: seq<T>)
    ensures |s| == n && forall i :: 0 <= i < n ==> s[i] == x
  {
    seq(n, _ => x)
  }
}
