/** The checksum of one read of a sector, its order, and the plain vote over a whole
    history of checksums. */
module SectorChecksums {
  import opened Bytes
  import opened Votes
  import opened Occurrences

  datatype Checksums = Checksums(crc: U32, blockErrorMask: U8)

  const NO_CHECKSUM := Checksums(0, 0)

  predicate Less(a: Checksums, b: Checksums) {
    if a.crc != b.crc then a.crc < b.crc else a.blockErrorMask < b.blockErrorMask
  }

  ghost predicate Ascending(vs: seq<Checksums>) {
    forall i, j | 0 <= i < j < |vs| :: Less(vs[i], vs[j])
  }

  /** Insertion into an ordered set. */
  function Insert(vs: seq<Checksums>, x: Checksums): (r: seq<Checksums>)
    requires Ascending(vs)
    ensures Ascending(r)
    ensures forall y :: y in r <==> y == x || y in vs
  {
    if vs == [] then [x]
    else if vs[0] == x then vs
    else if Less(x, vs[0]) then
      [x] + vs
    else
      assert vs == [vs[0]] + vs[1..];
      var rest := Insert(vs[1..], x);
      assert forall i | 0 <= i < |rest| :: rest[i] in rest;
      [vs[0]] + rest
  }

  /** w has maximal count and is the least of the values that do. */
  ghost predicate IsLeastTop(h: seq<Checksums>, w: Checksums) {
    && w in h
    && Count(h, w) == TopCount(h)
    && forall y | y in h && Count(h, y) == TopCount(h) :: y == w || Less(w, y)
  }

  /** Most common checksum of a plain list, by sorting the distinct values and counting. */
  class MostCommon {
    var count: nat
    var value: Checksums
    var vs: seq<Checksums>
    var counts: seq<nat>

    constructor ()
    {
      count, value, vs, counts := 0, NO_CHECKSUM, [], [];
    }

    method Compute(v: seq<Checksums>)
      modifies this
      ensures count == TopCount(v)
      ensures v == [] ==> value == NO_CHECKSUM
      ensures v != [] ==> IsLeastTop(v, value)
    {
      if |v| == 0 {
        count, value := 0, NO_CHECKSUM;
        return;
      }
      AssignDistinct(v);
      CountEach(v);
      var idx, i := 0, 1;
      while i < |counts|
        invariant idx < i <= |counts|
        invariant forall j | 0 <= j < i :: counts[j] <= counts[idx]
        invariant forall j | 0 <= j < idx :: counts[j] < counts[idx]
      {
        if counts[idx] < counts[i] {
          idx := i;
        }
        i := i + 1;
      }
      count, value := counts[idx], vs[idx];
      FirstMaximumIsLeastTop(v, vs, counts, idx);
    }

    method AssignDistinct(v: seq<Checksums>)
      requires v != []
      modifies `vs
      ensures Ascending(vs) && vs != []
      ensures forall y :: y in vs <==> y in v
    {
      vs := [];
      var i := 0;
      while i < |v|
        invariant i <= |v|
        invariant Ascending(vs)
        invariant forall y :: y in vs <==> y in v[..i]
      {
        vs := Insert(vs, v[i]);
        assert v[..i + 1] == v[..i] + [v[i]];
        i := i + 1;
      }
      assert v[..i] == v && v[0] in v;
    }

    method CountEach(v: seq<Checksums>)
      requires Ascending(vs)
      requires forall y :: y in vs <==> y in v
      modifies `counts
      ensures |counts| == |vs| && forall k | 0 <= k < |vs| :: counts[k] == Count(v, vs[k])
    {
      counts := seq(|vs|, _ => 0);
      var i := 0;
      while i < |v|
        invariant i <= |v| && |counts| == |vs|
        invariant forall k | 0 <= k < |vs| :: counts[k] == Count(v[..i], vs[k])
      {
        assert v[i] in vs;
        var idx := 0;
        while vs[idx] != v[i]
          invariant idx < |vs| && v[i] !in vs[..idx]
          decreases |vs| - idx
        {
          idx := idx + 1;
        }
        CountAppend(v[..i], v[i]);
        assert v[..i + 1] == v[..i] + [v[i]];
        counts := counts[idx := counts[idx] + 1];
        i := i + 1;
      }
      assert v[..i] == v;
    }
  }

  lemma {:induction false} FirstMaximumIsLeastTop(h: seq<Checksums>, vs: seq<Checksums>, counts: seq<nat>, idx: nat)
    requires h != [] && Ascending(vs) && idx < |vs| == |counts|
    requires forall y :: y in vs <==> y in h
    requires forall k | 0 <= k < |vs| :: counts[k] == Count(h, vs[k])
    requires forall j | 0 <= j < |counts| :: counts[j] <= counts[idx]
    requires forall j | 0 <= j < idx :: counts[j] < counts[idx]
    ensures counts[idx] == TopCount(h) && IsLeastTop(h, vs[idx])
  {
    TopCountIsMaximum(h);
    assert Count(h, vs[idx]) <= TopCount(h) && vs[idx] in h;
    var x :| x in h && Count(h, x) == TopCount(h);
    assert x in vs;
  }

  /** Every value of maximal count is w or greater. */
  ghost predicate NoLesserTop(h: seq<Checksums>, w: Checksums) {
    forall y | y in h && Count(h, y) == TopCount(h) :: !Less(y, w)
  }

  /** The winner of the same votes found both ways, from the counted list and from the plain
      one. They agree on the count always, and on the value exactly when the first-inserted maximum is
      also the least one; in particular whenever the maximum is unique. */
  method BothVotes(votes: seq<Checksums>, checks: OccurenceList<Checksums>)
    returns (fastCount: nat, fast: Checksums, simpleCount: nat, simple: Checksums)
    requires checks.Valid() && checks.pushed == votes
    ensures fastCount == simpleCount == TopCount(votes)
    ensures votes == [] ==> fast == simple == NO_CHECKSUM
    ensures votes != [] ==> IsFirstTop(votes, fast) && IsLeastTop(votes, simple)
    ensures votes != [] ==> (fast == simple <==> NoLesserTop(votes, fast))
    ensures (forall x, y | x in votes && y in votes && Count(votes, x) == Count(votes, y) == TopCount(votes) :: x == y)
      ==> fast == simple
  {
    var mco := new MostCommonOccurence<Checksums>(NO_CHECKSUM);
    mco.Compute(checks, NO_CHECKSUM);
    var mc := new MostCommon();
    mc.Compute(votes);
    fastCount, fast, simpleCount, simple := mco.count, mco.value, mc.count, mc.value;
  }

  /** On a tie the two votes can differ: the checksum read first against the smaller one. */
  lemma {:induction false} VotesDifferOnATie(a: Checksums, b: Checksums)
    requires a.crc < b.crc || (a.crc == b.crc && a.blockErrorMask < b.blockErrorMask)
    ensures IsFirstTop([b, a], b) && IsLeastTop([b, a], a)
  {
    var h := [b, a];
    TopCountAppend([b], a);
    TopCountAppend([], b);
    assert [] + [b] == [b] && [b] + [a] == h;
    CountAppend([], b);
    CountAppend([b], a);
    assert FirstIndex(h, b) == 0;
  }
}
