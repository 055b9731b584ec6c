/** `ORDER BY` on ids: a total order on text, and the one strictly sorted listing of a set. */
module Ordering {
  import opened Text

  predicate Leq(a: Id, b: Id) {
    a == "" || (b != "" && (a[0] < b[0] || (a[0] == b[0] && Leq(a[1..], b[1..]))))
  }

  lemma {:induction false} LeqTotal(a: Id, b: Id)
    ensures Leq(a, b) || Leq(b, a)
    ensures Leq(a, b) && Leq(b, a) ==> a == b
  {
    if a != "" && b != "" {
      LeqTotal(a[1..], b[1..]);
      assert a == [a[0]] + a[1..] && b == [b[0]] + b[1..];
    }
  }

  lemma SameStart(a: Id, b: Id, i: nat)
    requires i <= |a| && i <= |b| && a[..i] == b[..i]
    ensures i > 0 ==> a[0] == b[0]
  {
    if i > 0 {
      assert a[0] == a[..i][0] && b[0] == b[..i][0];
    }
  }

  /** Ascending by code point: a prefix comes first, and else the first difference decides. */
  lemma {:induction false} LeqByFirstDifference(a: Id, b: Id)
    ensures Leq(a, b) <==> a <= b || exists i: nat :: i < |a| && i < |b| && a[..i] == b[..i] && a[i] < b[i]
  {
    if a != "" && b != "" && a[0] == b[0] {
      LeqByFirstDifference(a[1..], b[1..]);
      assert a == [a[0]] + a[1..] && b == [b[0]] + b[1..];
      if i: nat :| i < |a| - 1 && i < |b| - 1 && a[1..][..i] == b[1..][..i] && a[1..][i] < b[1..][i] {
        assert a[..i + 1] == [a[0]] + a[1..][..i] && b[..i + 1] == [b[0]] + b[1..][..i];
      }
      if i: nat :| i < |a| && i < |b| && a[..i] == b[..i] && a[i] < b[i] {
        assert a[1..][..i - 1] == a[..i][1..] && b[1..][..i - 1] == b[..i][1..];
        assert a[1..][i - 1] < b[1..][i - 1];
      }
      assert a[1..] <= b[1..] <==> a <= b;
    } else if a != "" && b != "" {
      if i: nat :| i < |a| && i < |b| && a[..i] == b[..i] && a[i] < b[i] {
        SameStart(a, b, i);
      }
      if a[0] < b[0] {
        assert a[..0] == b[..0];
      }
    }
  }

  lemma {:induction false} LeqTransitive(a: Id, b: Id, c: Id)
    requires Leq(a, b) && Leq(b, c)
    ensures Leq(a, c)
  {
    if a != "" {
      if a[0] == b[0] && b[0] == c[0] {
        LeqTransitive(a[1..], b[1..], c[1..]);
      }
    }
  }

  predicate Below(a: Id, s: set<Id>) {
    forall x :: x in s ==> Leq(a, x)
  }

  lemma {:induction false} LeastExists(s: set<Id>)
    requires s != {}
    ensures exists m :: m in s && Below(m, s)
  {
    var x :| x in s;
    var rest := s - {x};
    if rest == {} {
      LeqTotal(x, x);
      assert s == {x};
    } else {
      LeastExists(rest);
      var m :| m in rest && Below(m, rest);
      LeqTotal(x, m);
      LeqTotal(x, x);
      if Leq(m, x) {
        assert Below(m, s);
      } else {
        forall y | y in s
          ensures Leq(x, y)
        {
          if y != x {
            LeqTransitive(x, m, y);
          }
        }
        assert Below(x, s);
      }
    }
  }

  lemma LeastUnique(s: set<Id>, m: Id, n: Id)
    requires m in s && n in s && Below(m, s) && Below(n, s)
    ensures m == n
  {
    LeqTotal(m, n);
  }

  ghost function Least(s: set<Id>): (m: Id)
    requires s != {}
    ensures m in s && Below(m, s)
  {
    LeastExists(s);
    var m :| m in s && Below(m, s);
    m
  }

  /** The members of a set in increasing order. */
  ghost function Ordered(s: set<Id>): seq<Id>
    decreases s
  {
    if s == {} then [] else [Least(s)] + Ordered(s - {Least(s)})
  }

  predicate StrictlySorted(ids: seq<Id>) {
    forall i, j :: 0 <= i < j < |ids| ==> Leq(ids[i], ids[j]) && ids[i] != ids[j]
  }

  function Members(ids: seq<Id>): set<Id> {
    set x | x in ids
  }

  lemma {:induction false} OrderedMembers(s: set<Id>)
    ensures |Ordered(s)| == |s| && forall x :: x in Ordered(s) <==> x in s
    decreases s
  {
    if s != {} {
      OrderedMembers(s - {Least(s)});
    }
  }

  lemma {:induction false} OrderedSorted(s: set<Id>)
    ensures StrictlySorted(Ordered(s))
    decreases s
  {
    if s != {} {
      var m := Least(s);
      var rest := Ordered(s - {m});
      OrderedMembers(s - {m});
      OrderedSorted(s - {m});
      forall i, j | 0 <= i < j < |rest| + 1
        ensures Leq(([m] + rest)[i], ([m] + rest)[j]) && ([m] + rest)[i] != ([m] + rest)[j]
      {
        assert rest[j - 1] in rest;
      }
    }
  }

  lemma OrderedSpec(s: set<Id>)
    ensures Members(Ordered(s)) == s && |Ordered(s)| == |s| && StrictlySorted(Ordered(s))
  {
    OrderedMembers(s);
    OrderedSorted(s);
  }

  /** Two strictly sorted listings of the same set are the same list, so comparing lists compares sets. */
  lemma SameListSameSet(a: set<Id>, b: set<Id>)
    ensures Ordered(a) == Ordered(b) <==> a == b
  {
    OrderedSpec(a);
    OrderedSpec(b);
  }

  /** Any strictly sorted list is the ordered listing of its members. */
  lemma {:induction false} SortedIsOrdered(ids: seq<Id>)
    requires StrictlySorted(ids)
    ensures ids == Ordered(Members(ids))
  {
    if ids != [] {
      var m, rest := ids[0], ids[1..];
      assert forall i :: 0 <= i < |rest| ==> rest[i] == ids[i + 1];
      SortedIsOrdered(rest);
      LeqTotal(m, m);
      assert m in Members(ids) && Below(m, Members(ids));
      LeastUnique(Members(ids), m, Least(Members(ids)));
      assert m !in rest;
      assert Members(ids) - {m} == Members(rest);
    }
  }

  /** `LIMIT n` of an ordered listing: the n least members, and so everything once there are no more than n. */
  ghost function FirstOf(s: set<Id>, n: nat): seq<Id> {
    if n <= |Ordered(s)| then Ordered(s)[..n] else Ordered(s)
  }

  lemma FirstOfAll(s: set<Id>)
    ensures FirstOf(s, |s|) == Ordered(s)
  {
  }

  lemma FirstOfSpec(s: set<Id>, n: nat)
    ensures var ids := FirstOf(s, n);
      && StrictlySorted(ids) && ids == Ordered(Members(ids))
      && Members(ids) <= s && |ids| == (if n <= |s| then n else |s|)
      && (forall x, y :: x in ids && y in s && y !in ids ==> Leq(x, y))
      && (Members(ids) == s <==> |s| <= n)
  {
    OrderedSpec(s);
    var all, ids := Ordered(s), FirstOf(s, n);
    assert forall i :: 0 <= i < |ids| ==> ids[i] == all[i];
    SortedIsOrdered(ids);
    assert forall x :: x in ids ==> x in Members(all);
    forall x, y | x in ids && y in s && y !in ids
      ensures Leq(x, y)
    {
      assert y in Members(all);
      var i :| 0 <= i < |ids| && ids[i] == x;
      var j :| 0 <= j < |all| && all[j] == y;
      assert j >= |ids|;
    }
    OrderedSpec(Members(ids));
    assert |Members(ids)| == |ids|;
    if Members(ids) == s {
      assert |ids| == |s|;
    }
  }

  /** What the database does for `ORDER BY id LIMIT n`. */
  method SelectFirst(s: set<Id>, n: nat) returns (ids: seq<Id>)
    ensures ids == FirstOf(s, n)
  {
    ids := [];
    var rest := s;
    while rest != {} && |ids| < n
      invariant rest <= s && |ids| <= n
      invariant ids + Ordered(rest) == Ordered(s)
    {
      var m := FindLeast(rest);
      LeastUnique(rest, m, Least(rest));
      ids := ids + [m];
      rest := rest - {m};
    }
    assert ids == Ordered(s)[..|ids|];
  }

  method FindLeast(s: set<Id>) returns (m: Id)
    requires s != {}
    ensures m in s && Below(m, s)
  {
    m :| m in s;
    LeqTotal(m, m);
    var rest := s - {m};
    while rest != {}
      invariant m in s && rest <= s
      invariant forall x :: x in s && x !in rest ==> Leq(m, x)
    {
      var y :| y in rest;
      LeqTotal(m, y);
      LeqTotal(y, y);
      if Leq(y, m) {
        forall x | x in s && x !in rest
          ensures Leq(y, x)
        {
          LeqTransitive(y, m, x);
        }
        m := y;
      }
      rest := rest - {y};
    }
  }
}
