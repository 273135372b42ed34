/** Sequences without repetition. */
module Sequences {

  ghost predicate NoDup(l: seq<nat>) {
    forall i, j :: 0 <= i < j < |l| ==> l[i] != l[j]
  }

  /** First position of x, or |l| when absent. */
  function IndexOf(l: seq<nat>, x: nat): (k: nat)
    ensures k <= |l|
    ensures k < |l| <==> x in l
    ensures k < |l| ==> l[k] == x
    ensures forall j :: 0 <= j < k ==> l[j] != x
  {
    if l == [] then 0
    else if l[0] == x then 0
    else
      assert l == [l[0]] + l[1..];
      1 + IndexOf(l[1..], x)
  }

  /** l without the element at position k. */
  function DelAt(l: seq<nat>, k: nat): (r: seq<nat>)
    requires k < |l|
    ensures |r| == |l| - 1
    ensures forall j :: 0 <= j < |r| ==> r[j] == if j < k then l[j] else l[j + 1]
  {
    l[..k] + l[k + 1..]
  }

  /** l without x. */
  function Del(l: seq<nat>, x: nat): (r: seq<nat>) {
    if x in l then DelAt(l, IndexOf(l, x)) else l
  }

  /** l with x replaced by y. */
  function Replace(l: seq<nat>, x: nat, y: nat): (r: seq<nat>)
    ensures |r| == |l|
  {
    if x in l then l[IndexOf(l, x) := y] else l
  }

  lemma PositionUnique(l: seq<nat>, k: nat)
    requires NoDup(l) && k < |l|
    ensures IndexOf(l, l[k]) == k
  {
    var j := IndexOf(l, l[k]);
    assert l[j] == l[k];
  }

  lemma DelElements(l: seq<nat>, x: nat)
    requires NoDup(l)
    ensures NoDup(Del(l, x))
    ensures forall y :: y in Del(l, x) <==> y in l && y != x
  {
    if x in l {
      var k, r := IndexOf(l, x), Del(l, x);
      assert x !in r;
      forall y | y in l && y != x
        ensures y in r
      {
        var j := IndexOf(l, y);
        assert r[if j < k then j else j - 1] == y;
      }
    }
  }

  lemma ReplaceElements(l: seq<nat>, x: nat, y: nat)
    requires NoDup(l) && x in l && y !in l
    ensures NoDup(Replace(l, x, y))
    ensures forall z :: z in Replace(l, x, y) <==> z == y || (z in l && z != x)
  {
    var k, r := IndexOf(l, x), Replace(l, x, y);
    assert r[k] == y;
    forall z | z in l && z != x
      ensures z in r
    {
      assert r[IndexOf(l, z)] == z;
    }
  }

  lemma PushElements(l: seq<nat>, x: nat)
    requires NoDup(l) && x !in l
    ensures NoDup([x] + l)
    ensures forall y :: y in [x] + l <==> y == x || y in l
  {
  }

  predicate Ascending(l: seq<nat>) {
    forall i, j :: 0 <= i < j < |l| ==> l[i] < l[j]
  }

  lemma PushAscends(l: seq<nat>, x: nat)
    requires Ascending(l)
    ensures Ascending([x] + l) <==> l == [] || x < l[0]
  {
    var r := [x] + l;
    if l != [] && x < l[0] {
      forall i, j | 0 <= i < j < |r|
        ensures r[i] < r[j]
      {
        assert r[j] == l[j - 1] && (i > 0 ==> r[i] == l[i - 1]);
      }
    } else if l != [] {
      assert !(r[0] < r[1]);
    }
  }

  lemma DelAbsent(l: seq<nat>, x: nat)
    requires x !in l
    ensures Del(l, x) == l
  {
  }

  /** Deleting passes over a different head. */
  lemma DelBehind(l: seq<nat>, h: nat, x: nat)
    requires h != x
    ensures Del([h] + l, x) == [h] + Del(l, x)
  {
    var r := [h] + l;
    assert r[0] == h && r[1..] == l;
    if x in l {
      assert r[1 + IndexOf(l, x)] == x;
      assert IndexOf(r, x) == 1 + IndexOf(l, x);
      DelAtBehind(l, h, IndexOf(l, x));
    }
  }

  lemma DelAtBehind(l: seq<nat>, h: nat, k: nat)
    requires k < |l|
    ensures DelAt([h] + l, 1 + k) == [h] + DelAt(l, k)
  {
    hide IndexOf;
    assert ([h] + l)[..1 + k] == [h] + l[..k];
    assert ([h] + l)[2 + k..] == l[k + 1..];
  }

  /** Replacing an element and deleting the replacement deletes the element. */
  lemma DelReplaced(l: seq<nat>, x: nat, y: nat)
    requires x in l && y !in l
    ensures Del(Replace(l, x, y), y) == Del(l, x)
  {
    var k, r := IndexOf(l, x), Replace(l, x, y);
    assert r[k] == y;
    var j := IndexOf(r, y);
    assert j == k;
    assert DelAt(r, k) == DelAt(l, k);
  }
}
