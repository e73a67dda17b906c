/** The order in which a std::map is walked: ascending keys. */
module SortedKeys {

  /** Identifiers (strings in the source) are only compared and used as keys. */
  type Id = int

  ghost predicate Ascending(s: seq<Id>) {
    forall i, j :: 0 <= i < j < |s| ==> s[i] < s[j]
  }

  ghost predicate IsLeast(s: set<Id>, m: Id) {
    m in s && forall x :: x in s ==> m <= x
  }

  lemma {:induction false} HasMin(s: set<Id>) returns (m: Id)
    requires s != {}
    ensures IsLeast(s, m)
  {
    assert (forall x :: x !in s) ==> s == {};
    var e :| e in s;
    m := e;
    var t := s - {e};
    assert forall x :: x in s ==> x == e || x in t;
    if t != {} {
      var n := HasMin(t);
      if n < m {
        m := n;
      }
    }
  }

  function MinKey(s: set<Id>): (m: Id)
    requires s != {}
    ensures m in s && forall x :: x in s ==> m <= x
  {
    assert exists m :: IsLeast(s, m) by {
      var least := HasMin(s);
    }
    var m :| m in s && forall x :: x in s ==> m <= x;
    m
  }

  function Sorted(s: set<Id>): (r: seq<Id>)
    ensures Ascending(r)
    ensures forall x :: x in r <==> x in s
  {
    if s == {} then []
    else
      var m := MinKey(s);
      var rest := Sorted(s - {m});
      assert forall i :: 0 <= i < |rest| ==> rest[i] in rest;
      [m] + rest
  }

  lemma SmallestIsFirst(s: seq<Id>, x: Id)
    requires Ascending(s) && x in s
    ensures s[0] <= x
    ensures x in s[1..] <==> x != s[0]
  {
    var i :| 0 <= i < |s| && s[i] == x;
    assert i > 0 ==> s[1..][i - 1] == x;
  }

  /** There is one ascending sequence of given elements. */
  lemma {:induction false} AscendingIsUnique(s: seq<Id>, t: seq<Id>)
    requires Ascending(s) && Ascending(t)
    requires forall x :: x in s <==> x in t
    ensures s == t
  {
    if s == [] || t == [] {
      EmptyTogether(s, t);
      EmptyTogether(t, s);
    } else {
      assert s[0] in s && t[0] in t;
      SmallestIsFirst(t, s[0]);
      SmallestIsFirst(s, t[0]);
      SameRest(s, t);
      AscendingIsUnique(s[1..], t[1..]);
      assert s == [s[0]] + s[1..] && t == [t[0]] + t[1..];
    }
  }

  lemma SameRest(s: seq<Id>, t: seq<Id>)
    requires Ascending(s) && Ascending(t) && s != [] && t != [] && s[0] == t[0]
    requires forall x :: x in s <==> x in t
    ensures forall x :: x in s[1..] <==> x in t[1..]
  {
    forall x
      ensures x in s[1..] <==> x in t[1..]
    {
      if x in s {
        SmallestIsFirst(s, x);
        SmallestIsFirst(t, x);
      }
    }
  }

  lemma EmptyTogether(s: seq<Id>, t: seq<Id>)
    requires forall x :: x in s ==> x in t
    ensures t == [] ==> s == []
  {
    if |s| > 0 {
      var x := s[0];
      assert x in s;
      assert x in t;
    }
  }

  lemma MembersAt(ids: seq<Id>, s: set<Id>)
    requires forall x :: x in ids ==> x in s
    ensures forall i :: 0 <= i < |ids| ==> ids[i] in s
  {
    forall i | 0 <= i < |ids|
      ensures ids[i] in s
    {
      var x := ids[i];
      assert x in ids;
    }
  }

  /** The first key of an ascending walk that is wanted is the least one wanted. */
  lemma FirstWanted(keys: seq<Id>, k: nat, wanted: set<Id>)
    requires Ascending(keys) && k < |keys| && keys[k] in wanted
    requires forall x :: x in wanted ==> x in keys
    requires forall j :: 0 <= j < k ==> keys[j] !in wanted
    ensures keys[k] == MinKey(wanted)
  {
    var m := MinKey(wanted);
    assert m in keys;
    var j :| 0 <= j < |keys| && keys[j] == m;
  }

  lemma NobodyWanted(keys: seq<Id>, wanted: set<Id>)
    requires forall x :: x in wanted ==> x in keys
    requires forall j :: 0 <= j < |keys| ==> keys[j] !in wanted
    ensures wanted == {}
  {
    assert forall x :: x in keys ==> x !in wanted;
    assert (forall x :: x !in wanted) ==> wanted == {};
  }
}
