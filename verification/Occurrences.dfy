/** The counted list of checksums kept per sector, and the two ways of finding its most
    common element. */
module Occurrences {
  import opened Votes

  datatype Occurrence<T> = Occurrence(count: nat, value: T)

  ghost predicate Lists<T>(m: seq<Occurrence<T>>, x: T) {
    exists i :: 0 <= i < |m| && m[i].value == x
  }

  /** m counts every value of h once, in the order in which the values first appeared. */
  ghost predicate Tallies<T(!new)>(m: seq<Occurrence<T>>, h: seq<T>) {
    && (forall i | 0 <= i < |m| :: m[i].value in h && m[i].count == Count(h, m[i].value))
    && (forall x {:trigger Lists(m, x)} | x in h :: Lists(m, x))
    && (forall i, j | 0 <= i < j < |m| :: FirstIndex(h, m[i].value) < FirstIndex(h, m[j].value))
  }

  /** w has maximal count and, among the values that do, was inserted first. */
  ghost predicate IsFirstTop<T(!new)>(h: seq<T>, w: T) {
    && w in h
    && Count(h, w) == TopCount(h)
    && forall y | y in h && Count(h, y) == TopCount(h) :: FirstIndex(h, w) <= FirstIndex(h, y)
  }

  lemma {:induction false} FirstTopLeadsFromTwo<T(!new)>(h: seq<T>, w: T)
    requires IsFirstTop(h, w)
    ensures TopCount(h) > 1 ==> w == Leader(h)
  {
    TopCountIsMaximum(h);
    if TopCount(h) > 1 {
      LeaderIsUnique(h, w, Leader(h));
    }
  }

  /** The database's copy rule: after vote y, w being the first-inserted maximum and v the
      winner so far, the new winner is y if y is alone or w differs from v, and v otherwise. */
  lemma {:induction false} CopyRuleFindsTheLeader<T(!new)>(h: seq<T>, y: T, w: T)
    requires IsFirstTop(h + [y], w)
    ensures TopCount(h + [y]) <= 1 || (h != [] && w != Leader(h)) ==> Leader(h + [y]) == y
    ensures TopCount(h + [y]) > 1 && h != [] && w == Leader(h) ==> Leader(h + [y]) == Leader(h)
    ensures TopCount(h + [y]) > 1 ==> h != []
  {
    var g := h + [y];
    TopCountIsMaximum(g);
    FirstTopLeadsFromTwo(g, w);
    if h == [] {
      TopCountAppend(h, y);
    } else {
      OnlyTheNewVoteCanTakeTheLead(h, y);
    }
  }

  lemma {:induction false} TallyBump<T(!new)>(m: seq<Occurrence<T>>, h: seq<T>, k: nat)
    requires Tallies(m, h) && k < |m|
    ensures Tallies(m[k := Occurrence(m[k].count + 1, m[k].value)], h + [m[k].value])
  {
    var y := m[k].value;
    var n := m[k := Occurrence(m[k].count + 1, y)];
    CountAppend(h, y);
    forall i | 0 <= i < |m|
      ensures n[i].value == m[i].value
      ensures FirstIndex(h + [y], m[i].value) == FirstIndex(h, m[i].value)
      ensures m[i].value == y ==> i == k
    {
      FirstIndexAppend(h, y, m[i].value);
    }
    forall x | x in h + [y]
      ensures Lists(n, x)
    {
      assert x in h && Lists(m, x);
      var i :| 0 <= i < |m| && m[i].value == x;
      assert n[i].value == x;
    }
  }

  lemma {:induction false} TallyNew<T(!new)>(m: seq<Occurrence<T>>, h: seq<T>, y: T)
    requires Tallies(m, h) && y !in h
    ensures Tallies(m + [Occurrence(1, y)], h + [y])
  {
    var n := m + [Occurrence(1, y)];
    CountAppend(h, y);
    assert y !in multiset(h);
    FirstIndexAppend(h, y, y);
    forall i | 0 <= i < |m|
      ensures FirstIndex(h + [y], m[i].value) == FirstIndex(h, m[i].value) < |h|
    {
      FirstIndexAppend(h, y, m[i].value);
    }
    forall x | x in h + [y]
      ensures Lists(n, x)
    {
      if x in h {
        assert Lists(m, x);
        var i :| 0 <= i < |m| && m[i].value == x;
        assert n[i].value == x;
      } else {
        assert n[|m|].value == x;
      }
    }
  }

  /** A list of values with the number of times each was pushed. */
  class OccurenceList<T(==,!new)> {
    var m: seq<Occurrence<T>>
    ghost var pushed: seq<T>

    ghost predicate Valid()
      reads this
    {
      Tallies(m, pushed)
    }

    constructor ()
      ensures Valid() && pushed == []
    {
      m, pushed := [], [];
    }

    method PushBack(v: T)
      requires Valid()
      modifies this
      ensures Valid() && pushed == old(pushed) + [v]
    {
      var i := 0;
      while i < |m| && m[i].value != v
        invariant i <= |m|
        invariant forall j | 0 <= j < i :: m[j].value != v
      {
        i := i + 1;
      }
      if i == |m| {
        assert !Lists(m, v);
        TallyNew(m, pushed, v);
        m := m + [Occurrence(1, v)];
      } else {
        TallyBump(m, pushed, i);
        m := m[i := Occurrence(m[i].count + 1, v)];
      }
      pushed := pushed + [v];
    }

    /** The number of values pushed. */
    method Sum() returns (s: nat)
      requires Valid()
      ensures s == |pushed|
    {
      s := 0;
      var i := 0;
      ghost var rest := multiset(pushed);
      while i < |m|
        invariant i <= |m|
        invariant s + |rest| == |pushed|
        invariant forall j | 0 <= j < i :: rest[m[j].value] == 0
        invariant forall j | i <= j < |m| :: rest[m[j].value] == m[j].count
        invariant forall x | x in rest :: x in pushed
      {
        assert forall j | i < j < |m| :: m[j].value != m[i].value;
        assert |rest[m[i].value := 0]| == |rest| - m[i].count;
        rest := rest[m[i].value := 0];
        s := s + m[i].count;
        i := i + 1;
      }
      assert forall x | x in rest :: Lists(m, x);
      assert rest == multiset{};
    }
  }

  /** Most common value of a counted list: the first maximal element. */
  class MostCommonOccurence<T(==,!new)> {
    var count: nat
    var value: T

    constructor (blank: T)
      ensures count == 0 && value == blank
    {
      count, value := 0, blank;
    }

    method Compute(v: OccurenceList<T>, blank: T)
      requires v.Valid()
      modifies this
      ensures count == TopCount(v.pushed)
      ensures v.pushed == [] ==> value == blank
      ensures v.pushed != [] ==> IsFirstTop(v.pushed, value)
    {
      var occ := v.m;
      if |occ| == 0 {
        assert v.pushed != [] ==> Lists(occ, v.pushed[0]);
        count, value := 0, blank;
        return;
      }
      var it, i := 0, 1;
      while i < |occ|
        invariant it < i <= |occ|
        invariant forall j | 0 <= j < i :: occ[j].count <= occ[it].count
        invariant forall j | 0 <= j < it :: occ[j].count < occ[it].count
      {
        if occ[it].count < occ[i].count {
          it := i;
        }
        i := i + 1;
      }
      count, value := occ[it].count, occ[it].value;
      FirstMaximumOfTally(occ, v.pushed, it);
    }
  }

  lemma {:induction false} FirstMaximumOfTally<T(!new)>(m: seq<Occurrence<T>>, h: seq<T>, k: nat)
    requires Tallies(m, h) && k < |m|
    requires forall j | 0 <= j < |m| :: m[j].count <= m[k].count
    requires forall j | 0 <= j < k :: m[j].count < m[k].count
    ensures m[k].count == TopCount(h)
    ensures IsFirstTop(h, m[k].value)
  {
    TopCountIsMaximum(h);
    assert m[k].value in h;
    var x :| x in h && Count(h, x) == TopCount(h);
    assert Lists(m, x);
    assert Count(h, m[k].value) <= TopCount(h);
    forall y | y in h && Count(h, y) == TopCount(h)
      ensures FirstIndex(h, m[k].value) <= FirstIndex(h, y)
    {
      assert Lists(m, y);
      var j :| 0 <= j < |m| && m[j].value == y;
      assert k <= j;
    }
  }
}
