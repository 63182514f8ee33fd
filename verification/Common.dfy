/** Small datatypes and sequence vocabulary shared by the whole model. */
module Common {

  datatype Option<+T> = None | Some(value: T)

  type Byte = bv8

  /** What calls return. */
  const OK: int := 0
  const ERR: int := -1

  const PAGE_SIZE: nat := 4096

  /** One more than the largest 32-bit word. */
  const WRAP: nat := 0x1_0000_0000

  ghost predicate NoDup<T>(s: seq<T>) {
    forall i, j :: 0 <= i < j < |s| ==> s[i] != s[j]
  }

  /** Everything of `s` but the element at `k`. */
  function Without<T>(s: seq<T>, k: nat): seq<T>
    requires k < |s|
  {
    s[..k] + s[k + 1..]
  }

  /** The least index at which `x` stands in `s`, or `|s|`. */
  function IndexOf<T(==)>(s: seq<T>, x: T): (i: nat)
    ensures i <= |s|
    ensures i < |s| ==> s[i] == x
    ensures forall j :: 0 <= j < i ==> s[j] != x
    ensures i == |s| <==> x !in s
  {
    if s == [] then 0
    else if s[0] == x then 0
    else
      1 + IndexOf(s[1..], x)
  }

  lemma WithoutMembers<T>(s: seq<T>, k: nat)
    requires k < |s|
    ensures forall x :: x in Without(s, k) ==> x in s
    ensures forall x :: x in s && x != s[k] ==> x in Without(s, k)
    ensures NoDup(s) ==> NoDup(Without(s, k)) && s[k] !in Without(s, k)
  {
    var w := Without(s, k);
    forall x | x in s && x != s[k]
      ensures x in w
    {
      var i :| 0 <= i < |s| && s[i] == x;
      assert w[if i < k then i else i - 1] == x;
    }
  }

  /** A duplicate-free sequence of numbers below `n` has at most `n` elements. */
  lemma {:induction false} PigeonHole(s: seq<nat>, n: nat)
    requires NoDup(s)
    requires forall x :: x in s ==> x < n
    ensures |s| <= n
    decreases n
  {
    if s != [] {
      assert s[0] in s && s[0] < n;
      if n - 1 in s {
        var k := IndexOf(s, n - 1);
        WithoutMembers(s, k);
        PigeonHole(Without(s, k), n - 1);
      } else {
        PigeonHole(s, n - 1);
      }
    }
  }

  /** Where a linked list through `s` leads from its `i`-th link: to element `i`, or nil at the end. */
  function LinkAt<T>(s: seq<T>, i: nat): Option<T> {
    if i < |s| then Some(s[i]) else None
  }

  lemma {:induction false} BoundedSet(s: set<nat>, n: nat)
    requires forall x :: x in s ==> x < n
    ensures |s| <= n
    decreases n
  {
    if s != {} {
      var x :| x in s;
      assert x < n;
      if n - 1 in s {
        BoundedSet(s - {n - 1}, n - 1);
      } else {
        BoundedSet(s, n - 1);
      }
    }
  }
}
