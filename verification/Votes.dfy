/** Voting on the checksums that successive reads of one sector produced.

  A history is the sequence of votes in the order they were cast. Everything here is
  defined on the whole history, from scratch; the incremental bookkeeping of the sector
  database is proved against these definitions.
  */
module Votes {

  /** The number of votes for x. */
  function Count<T(==)>(h: seq<T>, x: T): nat {
    multiset(h)[x]
  }

  /** The number of votes of the most voted value; 0 when nothing was cast. */
  ghost function TopCount<T(!new)>(h: seq<T>): nat {
    if h == [] then 0
    else
      var n := |h| - 1;
      if TopCount(h[..n]) < Count(h, h[n]) then Count(h, h[n]) else TopCount(h[..n])
  }

  /** The position of the first vote for x; |h| when there is none. */
  function FirstIndex<T(==)>(h: seq<T>, x: T): (i: nat)
    ensures i <= |h|
    ensures forall j | 0 <= j < i :: h[j] != x
    ensures i < |h| ==> h[i] == x
    ensures i == |h| <==> x !in h
  {
    if h == [] then 0
    else if h[0] == x then 0
    else 1 + FirstIndex(h[1..], x)
  }

  /** The winner of a history: the latest vote while all votes differ, and otherwise
      the value of maximal count that was voted for first. */
  ghost predicate IsLeader<T(!new)>(h: seq<T>, w: T) {
    && w in h
    && Count(h, w) == TopCount(h)
    && (TopCount(h) == 1 ==> w == h[|h| - 1])
    && (TopCount(h) > 1 ==>
          forall y | y in h && Count(h, y) == TopCount(h) :: FirstIndex(h, w) <= FirstIndex(h, y))
  }

  ghost function Leader<T(!new)>(h: seq<T>): (w: T)
    requires h != []
    ensures IsLeader(h, w)
  {
    LeaderExists(h);
    var w :| IsLeader(h, w);
    w
  }

  lemma {:induction false} CountAppend<T>(h: seq<T>, y: T)
    ensures forall x :: Count(h + [y], x) == Count(h, x) + if x == y then 1 else 0
  {
    assert multiset(h + [y]) == multiset(h) + multiset{y};
  }

  lemma {:induction false} TopCountAppend<T(!new)>(h: seq<T>, y: T)
    ensures TopCount(h + [y]) == if TopCount(h) < Count(h, y) + 1 then Count(h, y) + 1 else TopCount(h)
  {
    CountAppend(h, y);
    assert (h + [y])[..|h|] == h;
  }

  lemma {:induction false} TopCountIsMaximum<T(!new)>(h: seq<T>)
    ensures forall x :: Count(h, x) <= TopCount(h)
    ensures h != [] ==> TopCount(h) > 0 && exists x :: x in h && Count(h, x) == TopCount(h)
  {
    if h != [] {
      var n := |h| - 1;
      TopCountIsMaximum(h[..n]);
      CountAppend(h[..n], h[n]);
      assert h == h[..n] + [h[n]];
      TopCountAppend(h[..n], h[n]);
      if TopCount(h[..n]) < Count(h, h[n]) {
        assert h[n] in h;
      } else {
        var x :| x in h[..n] && Count(h[..n], x) == TopCount(h[..n]);
        assert x in h && Count(h, x) == TopCount(h);
      }
    }
  }

  lemma {:induction false} FirstIndexAppend<T>(h: seq<T>, y: T, x: T)
    ensures FirstIndex(h + [y], x) == if x in h then FirstIndex(h, x) else if x == y then |h| else |h| + 1
  {
    var i, j := FirstIndex(h, x), FirstIndex(h + [y], x);
    if x in h {
      assert (h + [y])[i] == x && (j < |h| ==> h[j] == x);
    } else if x == y {
      assert (h + [y])[|h|] == x;
    }
  }

  lemma {:induction false} LeaderExists<T(!new)>(h: seq<T>)
    requires h != []
    ensures exists w :: IsLeader(h, w)
  {
    TopCountIsMaximum(h);
    if TopCount(h) == 1 {
      assert h[|h| - 1] in multiset(h);
      assert IsLeader(h, h[|h| - 1]);
    } else {
      var i := 0;
      var v :| v in h && Count(h, v) == TopCount(h);
      while Count(h, h[i]) != TopCount(h)
        invariant i <= FirstIndex(h, v)
        invariant forall j | 0 <= j < i :: Count(h, h[j]) != TopCount(h)
        decreases |h| - i
      {
        i := i + 1;
      }
      assert IsLeader(h, h[i]);
    }
  }

  /** A history has one winner. */
  lemma {:induction false} LeaderIsUnique<T(!new)>(h: seq<T>, v: T, w: T)
    requires IsLeader(h, v) && IsLeader(h, w)
    ensures v == w
  {
    TopCountIsMaximum(h);
    assert FirstIndex(h, v) == FirstIndex(h, w) ==> h[FirstIndex(h, v)] == h[FirstIndex(h, w)];
  }

  /** One more vote either keeps the winner or makes the new vote win; nothing else can
      take the lead. This is what lets the database keep a single copy of the audio. */
  lemma {:induction false} OnlyTheNewVoteCanTakeTheLead<T(!new)>(h: seq<T>, y: T)
    requires h != []
    ensures Leader(h + [y]) == Leader(h) || Leader(h + [y]) == y
  {
    var w := Leader(h + [y]);
    if w != y {
      LeadSurvivesRemoval(h, y, w);
      LeaderIsUnique(h, w, Leader(h));
    }
  }

  lemma {:induction false} LeadSurvivesRemoval<T(!new)>(h: seq<T>, y: T, w: T)
    requires IsLeader(h + [y], w) && w != y
    ensures IsLeader(h, w)
  {
    var g := h + [y];
    CountAppend(h, y);
    TopCountAppend(h, y);
    TopCountIsMaximum(h);
    TopCountIsMaximum(g);
    forall u | u in h && Count(h, u) == TopCount(h)
      ensures FirstIndex(h, w) <= FirstIndex(h, u)
    {
      FirstIndexAppend(h, y, u);
      FirstIndexAppend(h, y, w);
      assert u in g && Count(g, u) <= TopCount(g);
    }
  }

  /** The position of the vote at which the present winner last took the lead. */
  ghost function ReignStart<T(!new)>(h: seq<T>): (i: nat)
    requires h != []
    ensures i < |h|
  {
    var n := |h| - 1;
    if n > 0 && Leader(h[..n]) == Leader(h) then ReignStart(h[..n]) else n
  }

  /** The vote at the start of the reign is for the winner, who has led ever since
      and did not lead just before. */
  lemma {:induction false} ReignStartCharacterised<T(!new)>(h: seq<T>)
    requires h != []
    ensures var i := ReignStart(h);
      && h[i] == Leader(h)
      && (forall j | i < j <= |h| :: Leader(h[..j]) == Leader(h))
      && (i == 0 || Leader(h[..i]) != Leader(h))
  {
    var n := |h| - 1;
    assert h == h[..n] + [h[n]];
    if n > 0 {
      OnlyTheNewVoteCanTakeTheLead(h[..n], h[n]);
      if Leader(h[..n]) == Leader(h) {
        ReignStartCharacterised(h[..n]);
        forall j | ReignStart(h) < j <= |h|
          ensures Leader(h[..j]) == Leader(h)
        {
          assert j <= n ==> h[..n][..j] == h[..j];
          assert j == |h| ==> h[..j] == h;
        }
        assert h[..n][..ReignStart(h)] == h[..ReignStart(h)];
      } else {
        assert h[..|h|] == h;
      }
    } else {
      assert Leader(h) in h;
      assert h[..1] == h;
    }
  }

  /** Pigeonhole: votes for k candidates, none with more than TopCount votes. */
  lemma {:induction false} Pigeonhole<T(!new)>(h: seq<T>, candidates: set<T>)
    requires forall x | x in h :: x in candidates
    ensures |h| <= |candidates| * TopCount(h)
  {
    TopCountIsMaximum(h);
    forall x | x in multiset(h)
      ensures x in candidates && multiset(h)[x] <= TopCount(h)
    {
      assert Count(h, x) <= TopCount(h);
    }
    MultisetPigeonhole(multiset(h), candidates, TopCount(h));
  }

  lemma {:induction false} MultisetPigeonhole<T>(m: multiset<T>, candidates: set<T>, bound: nat)
    requires forall x | x in m :: x in candidates && m[x] <= bound
    ensures |m| <= |candidates| * bound
  {
    if candidates == {} {
      assert m == multiset{};
    } else {
      var x :| x in candidates;
      var rest := m[x := 0];
      MultisetPigeonhole(rest, candidates - {x}, bound);
      var k := |candidates - {x}|;
      assert |candidates| == k + 1 && (k + 1) * bound == k * bound + bound;
    }
  }
}
