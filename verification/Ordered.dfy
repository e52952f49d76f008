/** Ordered views of finite sets and maps keyed by numbers: what iterating a BTreeMap, or
    sorting the entries of a hash map by key, yields. */
module Ordered {

  ghost predicate StrictlySorted(s: seq<nat>) {
    forall i, j :: 0 <= i < j < |s| ==> s[i] < s[j]
  }

  ghost function Least(s: set<nat>): (m: nat)
    requires s != {}
    ensures m in s && forall k :: k in s ==> m <= k
  {
    var x :| x in s;
    if s == {x} then x else
      var y := Least(s - {x});
      assert forall k :: k in s ==> k == x || k in s - {x};
      if x < y then x else y
  }

  function Min(s: set<nat>): (m: nat)
    requires s != {}
    ensures m in s && forall k :: k in s ==> m <= k
  {
    assert Least(s) in s;
    var m :| m in s && forall k :: k in s ==> m <= k;
    m
  }

  /** The members of `s` in increasing order. */
  function SortedKeys(s: set<nat>): (r: seq<nat>)
    ensures StrictlySorted(r)
    ensures forall k :: k in r <==> k in s
    ensures |r| == |s|
  {
    if s == {} then [] else
      var m := Min(s);
      var rest := SortedKeys(s - {m});
      [m] + rest
  }

  /** A strictly sorted sequence is determined by its members. */
  lemma {:induction false} SortedUnique(a: seq<nat>, b: seq<nat>)
    requires StrictlySorted(a) && StrictlySorted(b)
    requires forall k :: k in a <==> k in b
    ensures a == b
  {
    if |a| > 0 { assert a[0] in b; }
    if |b| > 0 { assert b[0] in a; }
    if |a| == 0 {
    } else {
      assert a[0] in b;
      assert b[0] in a;
      assert a[0] == b[0];
      forall k ensures k in a[1..] <==> k in b[1..] {
        assert k in a[1..] <==> k in a && k != a[0];
        assert k in b[1..] <==> k in b && k != b[0];
      }
      SortedUnique(a[1..], b[1..]);
      assert a == [a[0]] + a[1..] && b == [b[0]] + b[1..];
    }
  }

  /** The position of a member among the sorted keys. */
  function RankOf(s: set<nat>, k: nat): (i: nat)
    requires k in s
    ensures i < |s| && SortedKeys(s)[i] == k
  {
    var r := SortedKeys(s);
    assert k in r;
    var i :| 0 <= i < |r| && r[i] == k;
    i
  }
}
