/** Sequence helpers shared by every part of the model: an Option for
    JavaScript's optional values, reversal, and the clamping rules of
    JavaScript's `Array.prototype.slice`. */
module Seqs {

  datatype Option<T> = None | Some(value: T) {
    /** `x ?? fallback` */
    function GetOr(fallback: T): T {
      match this
      case Some(v) => v
      case None => fallback
    }
  }

  function Min(a: int, b: int): int { if a <= b then a else b }

  function Max(a: int, b: int): int { if a <= b then b else a }

  /** No element occurs twice. */
  predicate Distinct<T(==)>(s: seq<T>) {
    forall i, j | 0 <= i < j < |s| :: s[i] != s[j]
  }

  /** `Array.prototype.reverse` */
  function Reverse<T>(s: seq<T>): (r: seq<T>)
    ensures |r| == |s|
    ensures forall k | 0 <= k < |s| :: r[k] == s[|s| - 1 - k]
  {
    if s == [] then [] else Reverse(s[1..]) + [s[0]]
  }

  lemma ReverseReverse<T>(s: seq<T>)
    ensures Reverse(Reverse(s)) == s
  {
    var r := Reverse(Reverse(s));
    assert |r| == |s|;
    forall k | 0 <= k < |s| ensures r[k] == s[k] {
      assert r[k] == Reverse(s)[|s| - 1 - k];
    }
  }

  /** `s.slice(start)`: a negative start counts back from the end; both
      ends are clamped to the sequence. */
  function SliceFrom<T>(s: seq<T>, start: int): (r: seq<T>)
    ensures |r| == if start < 0 then Min(-start, |s|) else |s| - Min(start, |s|)
    ensures r == s[|s| - |r|..]
  {
    var from := if start < 0 then Max(|s| + start, 0) else Min(start, |s|);
    s[from..]
  }

  /** `s.slice(0, end)` for a non-negative end, which is clamped to the
      sequence. */
  function SliceTo<T>(s: seq<T>, end: nat): (r: seq<T>)
    ensures |r| == Min(end, |s|)
    ensures r == s[..|r|]
  {
    s[..Min(end, |s|)]
  }

  /** The newest `n` elements of an insertion-ordered sequence, oldest
      first. */
  function Newest<T>(s: seq<T>, n: nat): (r: seq<T>)
    ensures |r| == Min(n, |s|)
    ensures r == s[|s| - |r|..]
  {
    s[|s| - Min(n, |s|)..]
  }

  /** `s.slice(-n)` is the newest-n window, for a positive n. */
  lemma SliceFromNegativeIsNewest<T>(s: seq<T>, n: nat)
    requires n > 0
    ensures SliceFrom(s, -(n as int)) == Newest(s, n)
  {
  }

  /** The window is a suffix of the sequence and at most n long; it keeps
      every element when the sequence is short enough. */
  lemma NewestBounds<T>(s: seq<T>, n: nat)
    ensures |Newest(s, n)| == Min(n, |s|)
    ensures |s| <= n ==> Newest(s, n) == s
    ensures forall k | 0 <= k < |Newest(s, n)| :: Newest(s, n)[k] == s[|s| - Min(n, |s|) + k]
  {
  }

  /** Lists the selection of the newest n rows, newest first, the way a
      `ORDER BY … DESC LIMIT n` query returns them, then reversed back:
      the result is the newest-n window in insertion order. */
  lemma {:induction false} ReverseTakeReverse<T>(s: seq<T>, n: nat)
    ensures Reverse(Reverse(s)[..Min(n, |s|)]) == Newest(s, n)
  {
    var m := Min(n, |s|);
    var top := Reverse(s)[..m];
    var r := Reverse(top);
    assert |r| == m;
    forall k | 0 <= k < m ensures r[k] == Newest(s, n)[k] {
      calc {
        r[k];
        top[m - 1 - k];
        Reverse(s)[m - 1 - k];
        s[|s| - 1 - (m - 1 - k)];
        s[|s| - m + k];
      }
    }
  }
}
