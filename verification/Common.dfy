/** Small vocabulary shared by the other modules. */
module Common {
  datatype Option<+T> = None | Some(value: T) {
    function GetOr(default: T): (r: T) {
      if Some? then value else default
    }
  }

  datatype Result<+T> = Ok(value: T) | Err(reason: string)

  /** How one remote call ends: it may succeed, fail before taking effect, or take
      effect while its reply is lost. The caller sees only success or failure. */
  datatype Fate = Succeeds | FailsBefore | ReplyLost

  function Max(a: int, b: int): (m: int) { if a < b then b else a }

  lemma SubsetSize<T>(a: set<T>, b: set<T>)
    requires a <= b
    ensures |a| <= |b|
    ensures |a| == |b| ==> a == b
  {
    assert b == a + (b - a);
    assert |b| == |a| + |b - a|;
  }

  /** Go's int is 64 bits wide and wraps. */
  function Wrap64(n: int): (r: int)
    ensures -0x8000_0000_0000_0000 <= r < 0x8000_0000_0000_0000
    ensures (r - n) % 0x1_0000_0000_0000_0000 == 0
  {
    (n + 0x8000_0000_0000_0000) % 0x1_0000_0000_0000_0000 - 0x8000_0000_0000_0000
  }

  /** A strictly increasing sequence is determined by its elements. */
  ghost predicate Increasing<T(!new)>(s: seq<T>, less: (T, T) -> bool) {
    forall i, j :: 0 <= i < j < |s| ==> less(s[i], s[j])
  }

  lemma HeadIsLeast<T(!new)>(s: seq<T>, x: T, less: (T, T) -> bool)
    requires Increasing(s, less) && x in s
    ensures x == s[0] || less(s[0], x)
  {}

  lemma SameEmptiness<T(!new)>(a: seq<T>, b: seq<T>)
    requires forall x :: x in a <==> x in b
    ensures a == [] <==> b == []
  {
    if |a| > 0 { assert a[0] in a; }
    if |b| > 0 { assert b[0] in b; }
  }

  lemma {:induction false} IncreasingUnique<T(!new)>(a: seq<T>, b: seq<T>, less: (T, T) -> bool)
    requires forall x, y :: less(x, y) ==> !less(y, x)
    requires Increasing(a, less) && Increasing(b, less)
    requires forall x :: x in a <==> x in b
    ensures a == b
  {
    SameEmptiness(a, b);
    if a != [] {
      HeadIsLeast(a, b[0], less);
      HeadIsLeast(b, a[0], less);
      assert a == [a[0]] + a[1..] && b == [b[0]] + b[1..];
      forall x ensures x in a[1..] <==> x in b[1..] {
        assert x in a <==> x == a[0] || x in a[1..];
        assert x in b <==> x == b[0] || x in b[1..];
      }
      IncreasingUnique(a[1..], b[1..], less);
    }
  }
}
