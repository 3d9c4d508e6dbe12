/** What the passes over the disc do to the reads of every sector, as a relation between
    histories, and what follows for whole runs of passes. */
module Passes {
  import opened Bytes
  import opened Votes
  import opened SectorChecksums
  import opened Audio

  type Crc32 = AudioFrame -> U32
  type History = seq<seq<AudioFrame>>

  /** The checksum stored for one read; the block errors are not available. */
  function Sum(crc32: Crc32, audio: AudioFrame): Checksums {
    Checksums(crc32(audio), 0)
  }

  function Sums(crc32: Crc32, frames: seq<AudioFrame>): (h: seq<Checksums>)
    ensures |h| == |frames|
    ensures forall i | 0 <= i < |frames| :: h[i] == Sum(crc32, frames[i])
  {
    seq(|frames|, i requires 0 <= i < |frames| => Sum(crc32, frames[i]))
  }

  lemma SumsAppend(crc32: Crc32, frames: seq<AudioFrame>, audio: AudioFrame)
    ensures Sums(crc32, frames + [audio]) == Sums(crc32, frames) + [Sum(crc32, audio)]
  {
  }

  /** The sector has been read often enough with the same result. */
  ghost predicate Settled(crc32: Crc32, frames: seq<AudioFrame>, min: int) {
    TopCount(Sums(crc32, frames)) >= min
  }

  /** The unsettled sectors below upto, in ascending order. */
  ghost function Targets(crc32: Crc32, H: History, min: int, upto: nat): (ts: seq<nat>)
    requires upto <= |H|
    ensures |ts| <= upto
  {
    if upto == 0 then []
    else if Settled(crc32, H[upto - 1], min) then Targets(crc32, H, min, upto - 1)
    else Targets(crc32, H, min, upto - 1) + [upto - 1]
  }

  lemma {:induction false} TargetsAreTheUnsettled(crc32: Crc32, H: History, min: int, upto: nat)
    requires upto <= |H|
    ensures var ts := Targets(crc32, H, min, upto);
      && (forall i, j | 0 <= i < j < |ts| :: ts[i] < ts[j])
      && (forall k | 0 <= k < |ts| :: ts[k] < upto)
      && (forall lba: nat | lba < upto :: lba in ts <==> !Settled(crc32, H[lba], min))
  {
    if upto > 0 {
      TargetsAreTheUnsettled(crc32, H, min, upto - 1);
    }
  }

  /** The read r was added to the reads of one sector. */
  ghost predicate OneMore(before: seq<AudioFrame>, after: seq<AudioFrame>) {
    |after| == |before| + 1 && after[..|before|] == before
  }

  /** One pass that got as far as sector upto: every unsettled sector before it was read
      once, every other sector is as it was. */
  ghost predicate PassTo(crc32: Crc32, H: History, H': History, min: int, upto: nat) {
    && |H'| == |H| && upto <= |H|
    && forall i | 0 <= i < |H| ::
         if i < upto && !Settled(crc32, H[i], min) then OneMore(H[i], H'[i]) else H'[i] == H[i]
  }

  /** The database grown to n sectors by never-read ones. */
  function Resized(H: History, n: nat): (r: History)
    ensures |r| == if |H| < n then n else |H|
    ensures r[..|H|] == H
    ensures forall i | |H| <= i < |r| :: r[i] == []
  {
    if |H| < n then H + seq(n - |H|, _ => []) else H
  }

  /** Only read on while unsettled. */
  ghost predicate Grown(crc32: Crc32, frames: seq<AudioFrame>, min: int) {
    frames != [] ==> !Settled(crc32, frames[..|frames| - 1], min)
  }

  ghost predicate AllGrown(crc32: Crc32, H: History, min: int) {
    forall i | 0 <= i < |H| :: Grown(crc32, H[i], min)
  }

  lemma {:induction false} GrownTopCount(crc32: Crc32, frames: seq<AudioFrame>, min: int)
    requires Grown(crc32, frames, min) && frames != []
    ensures 1 <= min && TopCount(Sums(crc32, frames)) <= min
    ensures TopCount(Sums(crc32, frames[..|frames| - 1])) <= min - 1
  {
    var n := |frames| - 1;
    var h := Sums(crc32, frames[..n]);
    assert frames == frames[..n] + [frames[n]];
    SumsAppend(crc32, frames[..n], frames[n]);
    TopCountAppend(h, Sum(crc32, frames[n]));
    TopCountIsMaximum(h);
    assert Count(h, Sum(crc32, frames[n])) <= TopCount(h);
  }

  /** State after p complete passes over never-read sectors. */
  ghost predicate AfterPasses(crc32: Crc32, H: History, min: int, p: nat) {
    forall i | 0 <= i < |H| ::
      && Grown(crc32, H[i], min)
      && |H[i]| <= p
      && (!Settled(crc32, H[i], min) ==> |H[i]| == p)
  }

  lemma {:induction false} CompletePassAdvances(crc32: Crc32, H: History, H': History, min: int, p: nat)
    requires AfterPasses(crc32, H, min, p) && PassTo(crc32, H, H', min, |H|)
    ensures AfterPasses(crc32, H', min, p + 1)
  {
    forall i | 0 <= i < |H'|
      ensures
        && Grown(crc32, H'[i], min)
        && |H'[i]| <= p + 1
        && (!Settled(crc32, H'[i], min) ==> |H'[i]| == p + 1)
    {
      assert if !Settled(crc32, H[i], min) then OneMore(H[i], H'[i]) else H'[i] == H[i];
    }
  }

  /** Any pass, complete or cancelled, keeps every sector Grown. */
  lemma {:induction false} PassKeepsGrown(crc32: Crc32, H: History, H': History, min: int, upto: nat)
    requires PassTo(crc32, H, H', min, upto) && AllGrown(crc32, H, min)
    ensures AllGrown(crc32, H', min)
  {
    forall i | 0 <= i < |H'|
      ensures Grown(crc32, H'[i], min)
    {
      assert if i < upto && !Settled(crc32, H[i], min) then OneMore(H[i], H'[i]) else H'[i] == H[i];
    }
  }

  /** A drive that only ever returns |candidates| different checksums for a sector is not
      asked for it more than |candidates| * (min - 1) + 1 times. */
  lemma {:induction false} ReadsAreBounded(crc32: Crc32, frames: seq<AudioFrame>, min: int, candidates: set<Checksums>)
    requires Grown(crc32, frames, min)
    requires forall c | c in Sums(crc32, frames) :: c in candidates
    ensures frames == [] || |frames| <= |candidates| * (min - 1) + 1
  {
    if frames != [] {
      var n := |frames| - 1;
      var h := Sums(crc32, frames[..n]);
      GrownTopCount(crc32, frames, min);
      forall c | c in h
        ensures c in candidates
      {
        var j :| 0 <= j < |h| && h[j] == c;
        assert Sums(crc32, frames)[j] == c;
      }
      Pigeonhole(h, candidates);
      MultiplyMonotone(|candidates|, TopCount(h), min - 1);
    }
  }

  lemma MultiplyMonotone(k: nat, a: int, b: int)
    requires a <= b
    ensures k * a <= k * b
  {
  }

  const CHECKSUM_SPACE: nat := 0x1_0000_0000

  ghost function ChecksumsBelow(n: nat): (s: set<Checksums>)
    requires n <= CHECKSUM_SPACE
    ensures |s| == n
    ensures forall c: Checksums :: c in s <==> c.crc < n && c.blockErrorMask == 0
  {
    if n == 0 then {} else ChecksumsBelow(n - 1) + {Checksums(n - 1, 0)}
  }

  function ReadBudget(min: int): nat {
    if min <= 0 then 0 else CHECKSUM_SPACE * (min - 1) + 1
  }

  /** Whatever the drive returns, a sector is not read more often than its budget. */
  lemma {:induction false} ReadsFitBudget(crc32: Crc32, frames: seq<AudioFrame>, min: int)
    requires Grown(crc32, frames, min)
    ensures |frames| <= ReadBudget(min)
  {
    if frames != [] {
      GrownTopCount(crc32, frames, min);
      ReadsAreBounded(crc32, frames, min, ChecksumsBelow(CHECKSUM_SPACE));
    }
  }

  /** At most e reads differ from the truth, no wrong checksum came up min times, and no
      wrong read has the checksum of the truth. */
  ghost predicate Recoverable(crc32: Crc32, frames: seq<AudioFrame>, truth: AudioFrame, e: nat, min: int) {
    && |frames| - Count(frames, truth) <= e
    && (forall c | c != Sum(crc32, truth) :: Count(Sums(crc32, frames), c) < min)
    && (forall r | r in frames && crc32(r) == crc32(truth) :: r == truth)
  }

  /** The frame the database keeps for a sector with these reads. */
  ghost function Kept(crc32: Crc32, frames: seq<AudioFrame>): AudioFrame {
    if frames == [] then Silence() else frames[ReignStart(Sums(crc32, frames))]
  }

  lemma {:induction false} CountThroughChecksum(crc32: Crc32, frames: seq<AudioFrame>, truth: AudioFrame)
    requires forall r | r in frames && crc32(r) == crc32(truth) :: r == truth
    ensures Count(Sums(crc32, frames), Sum(crc32, truth)) == Count(frames, truth)
  {
    if frames != [] {
      var n := |frames| - 1;
      assert frames == frames[..n] + [frames[n]];
      CountThroughChecksum(crc32, frames[..n], truth);
      SumsAppend(crc32, frames[..n], frames[n]);
      CountAppend(Sums(crc32, frames[..n]), Sum(crc32, frames[n]));
      CountAppend(frames[..n], frames[n]);
      assert frames[n] in frames;
    }
  }

  /** Fewer errors than the threshold cannot make a wrong checksum reach it. */
  lemma {:induction false} FewErrorsAreRecoverable(crc32: Crc32, frames: seq<AudioFrame>, truth: AudioFrame, e: nat,
                                                  min: int)
    requires e < min
    requires |frames| - Count(frames, truth) <= e
    requires forall r | r in frames && crc32(r) == crc32(truth) :: r == truth
    ensures Recoverable(crc32, frames, truth, e, min)
  {
    CountThroughChecksum(crc32, frames, truth);
    forall c | c != Sum(crc32, truth)
      ensures Count(Sums(crc32, frames), c) < min
    {
      TwoCounts(Sums(crc32, frames), c, Sum(crc32, truth));
    }
  }

  lemma {:induction false} TwoCounts<T>(h: seq<T>, x: T, y: T)
    requires x != y
    ensures Count(h, x) + Count(h, y) <= |h|
  {
    if h != [] {
      var n := |h| - 1;
      TwoCounts(h[..n], x, y);
      CountAppend(h[..n], h[n]);
      assert h == h[..n] + [h[n]];
    }
  }

  /** Recovery: a sector that was read until settled holds the true audio, after at most
      min + e reads. */
  lemma {:induction false} TruthIsRecovered(crc32: Crc32, frames: seq<AudioFrame>, truth: AudioFrame, e: nat, min: int)
    requires 1 <= min
    requires Grown(crc32, frames, min) && Settled(crc32, frames, min)
    requires Recoverable(crc32, frames, truth, e, min)
    ensures Kept(crc32, frames) == truth
    ensures |frames| <= min + e
  {
    var h := Sums(crc32, frames);
    var n := |frames| - 1;
    TopCountIsMaximum(h);
    var w := Leader(h);
    assert Count(h, w) >= min;
    assert w == Sum(crc32, truth);
    ReignStartCharacterised(h);
    assert frames[ReignStart(h)] in frames;
    assert crc32(frames[ReignStart(h)]) == crc32(truth);
    // all but the last read left the truth below the threshold
    CountThroughChecksum(crc32, frames, truth);
    GrownTopCount(crc32, frames, min);
    assert Count(h, Sum(crc32, truth)) <= TopCount(h);
  }

  /** With threshold 2, p complete passes leave a sector either settled by a checksum seen
      exactly twice, or with p different checksums and the last read kept. */
  lemma {:induction false} SettledOrAllDistinct(crc32: Crc32, frames: seq<AudioFrame>, p: nat)
    requires Grown(crc32, frames, 2)
    requires !Settled(crc32, frames, 2) ==> |frames| == p
    ensures var h := Sums(crc32, frames);
      || (Settled(crc32, frames, 2) && Count(h, Leader(h)) == 2 && Sum(crc32, Kept(crc32, frames)) == Leader(h))
      || (|frames| == p && (forall i, j | 0 <= i < j < p :: h[i] != h[j])
          && Kept(crc32, frames) == if p == 0 then Silence() else frames[p - 1])
  {
    var h := Sums(crc32, frames);
    TopCountIsMaximum(h);
    if frames != [] {
      GrownTopCount(crc32, frames, 2);
      ReignStartCharacterised(h);
    }
    if !Settled(crc32, frames, 2) {
      NoRepeatedVote(h);
      if frames != [] {
        DistinctKeepsLatest(h);
      }
    }
  }

  lemma {:induction false} NoRepeatedVote<T(!new)>(h: seq<T>)
    requires TopCount(h) <= 1
    ensures forall i, j | 0 <= i < j < |h| :: h[i] != h[j]
  {
    TopCountIsMaximum(h);
    forall i, j | 0 <= i < j < |h| && h[i] == h[j]
      ensures Count(h, h[j]) >= 2
    {
      RepeatCountsTwice(h, i, j);
    }
  }

  lemma RepeatCountsTwice<T>(h: seq<T>, i: nat, j: nat)
    requires i < j < |h| && h[i] == h[j]
    ensures Count(h, h[j]) >= 2
  {
    assert h == h[..j] + h[j..];
    assert h[i] in multiset(h[..j]) && h[j] in multiset(h[j..]);
  }

  /** While all votes differ, the latest one leads, having just taken the lead. */
  lemma {:induction false} DistinctKeepsLatest(h: seq<Checksums>)
    requires h != [] && TopCount(h) <= 1
    requires forall i, j | 0 <= i < j < |h| :: h[i] != h[j]
    ensures ReignStart(h) == |h| - 1
  {
    TopCountIsMaximum(h);
    ReignStartCharacterised(h);
  }

  ghost predicate NeverRead(H: History) {
    forall i | 0 <= i < |H| :: H[i] == []
  }

  /** All reads made so far. */
  ghost function TotalReads(H: History): nat {
    if H == [] then 0 else TotalReads(H[..|H| - 1]) + |H[|H| - 1]|
  }

  lemma {:induction false} TotalReadsResized(H: History, n: nat)
    ensures TotalReads(Resized(H, n)) == TotalReads(H)
  {
    var R := Resized(H, n);
    var k := |H|;
    assert R[..k] == H;
    while k < |R|
      invariant |H| <= k <= |R| && TotalReads(R[..k]) == TotalReads(H)
    {
      assert R[..k + 1][..k] == R[..k];
      k := k + 1;
    }
    assert R[..k] == R;
  }

  lemma TotalReadsStep(H: History, k: nat)
    requires k < |H|
    ensures TotalReads(H[..k + 1]) == TotalReads(H[..k]) + |H[k]|
  {
    assert H[..k + 1][..k] == H[..k];
  }

  /** A pass adds exactly the reads it made. */
  lemma {:induction false} PassCountsItsReads(crc32: Crc32, H: History, H': History, min: int, upto: nat)
    requires PassTo(crc32, H, H', min, upto)
    ensures TotalReads(H') == TotalReads(H) + |Targets(crc32, H, min, upto)|
  {
    PassCountsPrefix(crc32, H, H', min, upto, upto);
    var k := upto;
    while k < |H|
      invariant upto <= k <= |H|
      invariant TotalReads(H'[..k]) - TotalReads(H[..k]) == |Targets(crc32, H, min, upto)|
    {
      TotalReadsStep(H, k);
      TotalReadsStep(H', k);
      k := k + 1;
    }
    assert H[..k] == H && H'[..k] == H';
  }

  lemma {:induction false} PassCountsPrefix(crc32: Crc32, H: History, H': History, min: int, upto: nat, k: nat)
    requires PassTo(crc32, H, H', min, upto) && k <= upto
    ensures TotalReads(H'[..k]) == TotalReads(H[..k]) + |Targets(crc32, H, min, k)|
  {
    if k > 0 {
      PassCountsPrefix(crc32, H, H', min, upto, k - 1);
      TotalReadsStep(H, k - 1);
      TotalReadsStep(H', k - 1);
      assert Settled(crc32, H[k - 1], min) || OneMore(H[k - 1], H'[k - 1]);
    }
  }

  /** What is left of the read budgets of all sectors. */
  ghost function Remaining(H: History, min: int): nat {
    if H == [] then 0
    else
      var n := |H| - 1;
      Remaining(H[..n], min) + if |H[n]| < ReadBudget(min) then ReadBudget(min) - |H[n]| else 0
  }

  lemma RemainingStep(H: History, min: int, k: nat)
    requires k < |H|
    ensures Remaining(H[..k + 1], min)
         == Remaining(H[..k], min) + if |H[k]| < ReadBudget(min) then ReadBudget(min) - |H[k]| else 0
  {
    assert H[..k + 1][..k] == H[..k];
  }

  /** Every read a pass makes comes out of the budget, wherever the database came from. */
  lemma {:induction false} PassSpendsBudget(crc32: Crc32, H: History, H': History, min: int, upto: nat)
    requires PassTo(crc32, H, H', min, upto)
    ensures Remaining(H', min) + |Targets(crc32, H, min, upto)| == Remaining(H, min)
  {
    PassSpendsPrefix(crc32, H, H', min, upto, upto);
    var k := upto;
    while k < |H|
      invariant upto <= k <= |H|
      invariant Remaining(H'[..k], min) + |Targets(crc32, H, min, upto)| == Remaining(H[..k], min)
    {
      RemainingStep(H, min, k);
      RemainingStep(H', min, k);
      k := k + 1;
    }
    assert H[..k] == H && H'[..k] == H';
  }

  lemma {:induction false} PassSpendsPrefix(crc32: Crc32, H: History, H': History, min: int, upto: nat, k: nat)
    requires PassTo(crc32, H, H', min, upto) && k <= upto
    ensures Remaining(H'[..k], min) + |Targets(crc32, H, min, k)| == Remaining(H[..k], min)
  {
    if k > 0 {
      PassSpendsPrefix(crc32, H, H', min, upto, k - 1);
      RemainingStep(H, min, k - 1);
      RemainingStep(H', min, k - 1);
      assert Settled(crc32, H[k - 1], min) || OneMore(H[k - 1], H'[k - 1]);
      if !Settled(crc32, H[k - 1], min) {
        UnsettledHasBudget(crc32, H[k - 1], min);
      }
    }
  }

  lemma {:induction false} UnsettledHasBudget(crc32: Crc32, frames: seq<AudioFrame>, min: int)
    requires !Settled(crc32, frames, min)
    ensures |frames| < ReadBudget(min)
  {
    var h := Sums(crc32, frames);
    Pigeonhole(h, ChecksumsBelow(CHECKSUM_SPACE));
    MultiplyMonotone(CHECKSUM_SPACE, TopCount(h), min - 1);
  }

  /** A pass that went through and read nothing found every sector settled. */
  lemma {:induction false} EmptyPass(crc32: Crc32, H: History, H': History, min: int)
    requires PassTo(crc32, H, H', min, |H|) && Targets(crc32, H, min, |H|) == []
    ensures H' == H
    ensures forall i | 0 <= i < |H| :: Settled(crc32, H[i], min)
  {
    TargetsAreTheUnsettled(crc32, H, min, |H|);
    forall i: nat | i < |H|
      ensures Settled(crc32, H[i], min)
    {
      assert i !in Targets(crc32, H, min, |H|);
    }
  }

  /** After a complete pass that read something, the sectors it read are the most read. */
  lemma {:induction false} PassReachesItsNumber(crc32: Crc32, H: History, H': History, min: int, p: nat)
    requires AfterPasses(crc32, H, min, p) && PassTo(crc32, H, H', min, |H|)
    requires Targets(crc32, H, min, |H|) != []
    ensures exists i :: 0 <= i < |H'| && |H'[i]| == p + 1
  {
    TargetsAreTheUnsettled(crc32, H, min, |H|);
    var i := Targets(crc32, H, min, |H|)[0];
    assert i in Targets(crc32, H, min, |H|) && OneMore(H[i], H'[i]);
  }

  /** One call of Refine with threshold min, seen from outside: the disc's size, how far the
      pass got, and the history it left. */
  datatype PassRecord = PassRecord(size: nat, upto: nat, after: History)

  /** The history the first p passes of a run left. */
  ghost function Before(H: History, run: seq<PassRecord>, p: nat): History
    requires p <= |run|
  {
    if p == 0 then H else run[p - 1].after
  }

  /** What pass p finds: the history so far, grown to the size of the disc. */
  ghost function Found(H: History, run: seq<PassRecord>, p: nat): History
    requires p < |run|
  {
    Resized(Before(H, run, p), run[p].size)
  }

  /** Consecutive passes with the same threshold, cancelled or complete in any mix. */
  ghost predicate IsRun(crc32: Crc32, H: History, run: seq<PassRecord>, min: int) {
    forall p | 0 <= p < |run| :: PassTo(crc32, Found(H, run, p), run[p].after, min, run[p].upto)
  }

  ghost function Final(H: History, run: seq<PassRecord>): History {
    Before(H, run, |run|)
  }

  /** What pass p returns. */
  ghost function ReadsIn(crc32: Crc32, H: History, run: seq<PassRecord>, min: int, p: nat): nat
    requires IsRun(crc32, H, run, min) && p < |run|
  {
    |Targets(crc32, Found(H, run, p), min, run[p].upto)|
  }

  /** The values the first n passes of the run return, added up. */
  ghost function ReadsReported(crc32: Crc32, H: History, run: seq<PassRecord>, min: int, n: nat): nat
    requires IsRun(crc32, H, run, min) && n <= |run|
  {
    if n == 0 then 0 else ReadsReported(crc32, H, run, min, n - 1) + ReadsIn(crc32, H, run, min, n - 1)
  }

  lemma RunAt(crc32: Crc32, H: History, run: seq<PassRecord>, min: int, p: nat)
    requires IsRun(crc32, H, run, min) && p < |run|
    ensures PassTo(crc32, Resized(Before(H, run, p), run[p].size), Before(H, run, p + 1), min, run[p].upto)
    ensures Before(H, run, p + 1) == run[p].after
    ensures ReadsIn(crc32, H, run, min, p)
         == |Targets(crc32, Resized(Before(H, run, p), run[p].size), min, run[p].upto)|
    ensures ReadsReported(crc32, H, run, min, p + 1)
         == ReadsReported(crc32, H, run, min, p) + ReadsIn(crc32, H, run, min, p)
  {
    hide Resized, PassTo, Targets;
  }

  lemma RunStart(crc32: Crc32, H: History, run: seq<PassRecord>, min: int)
    requires IsRun(crc32, H, run, min)
    ensures Before(H, run, 0) == H && ReadsReported(crc32, H, run, min, 0) == 0
  {
  }

  /** One more pass; the earlier ones are as they were. */
  lemma RunGrows(crc32: Crc32, H: History, run: seq<PassRecord>, min: int, next: PassRecord)
    requires IsRun(crc32, H, run, min)
    requires PassTo(crc32, Resized(Final(H, run), next.size), next.after, min, next.upto)
    ensures IsRun(crc32, H, run + [next], min) && Final(H, run + [next]) == next.after
    ensures forall p | 0 <= p <= |run| :: Before(H, run + [next], p) == Before(H, run, p)
    ensures forall p | 0 <= p < |run| ::
      ReadsIn(crc32, H, run + [next], min, p) == ReadsIn(crc32, H, run, min, p)
    ensures ReadsIn(crc32, H, run + [next], min, |run|)
         == |Targets(crc32, Resized(Final(H, run), next.size), min, next.upto)|
  {
    hide *;
    var longer := run + [next];
    forall p | 0 <= p <= |run|
      ensures Before(H, longer, p) == Before(H, run, p)
    {
      SameBefore(H, run, next, p);
    }
    LastBefore(H, run, next);
    RunFrom(crc32, H, run, min, longer, next);
    forall p | 0 <= p < |run|
      ensures ReadsIn(crc32, H, longer, min, p) == ReadsIn(crc32, H, run, min, p)
    {
      RunAt(crc32, H, run, min, p);
      RunAt(crc32, H, longer, min, p);
    }
    RunAt(crc32, H, longer, min, |run|);
  }

  lemma SameBefore(H: History, run: seq<PassRecord>, next: PassRecord, p: nat)
    requires p <= |run|
    ensures Before(H, run + [next], p) == Before(H, run, p)
  {
  }

  lemma LastBefore(H: History, run: seq<PassRecord>, next: PassRecord)
    ensures Before(H, run + [next], |run|) == Final(H, run)
    ensures Final(H, run + [next]) == next.after
  {
  }

  lemma RunFrom(crc32: Crc32, H: History, run: seq<PassRecord>, min: int, longer: seq<PassRecord>, next: PassRecord)
    requires IsRun(crc32, H, run, min) && longer == run + [next]
    requires forall p | 0 <= p <= |run| :: Before(H, longer, p) == Before(H, run, p)
    requires PassTo(crc32, Resized(Before(H, longer, |run|), next.size), next.after, min, next.upto)
    ensures IsRun(crc32, H, longer, min)
  {
    hide Resized, PassTo, Targets, Before;
  }

  /** Conservation: over any mix of passes the database gains exactly the reads reported,
      and a settled sector is never touched again. */
  lemma {:induction false} RunsConserveReads(crc32: Crc32, H: History, run: seq<PassRecord>, min: int, n: nat)
    requires IsRun(crc32, H, run, min) && n <= |run|
    ensures TotalReads(Before(H, run, n)) == TotalReads(H) + ReadsReported(crc32, H, run, min, n)
    ensures |H| <= |Before(H, run, n)|
    ensures forall i | 0 <= i < |H| && Settled(crc32, H[i], min) :: Before(H, run, n)[i] == H[i]
  {
    hide *;
    RunStart(crc32, H, run, min);
    if n > 0 {
      RunsConserveReads(crc32, H, run, min, n - 1);
      RunAt(crc32, H, run, min, n - 1);
      var B, pass := Before(H, run, n - 1), run[n - 1];
      PassCountsItsReads(crc32, Resized(B, pass.size), Before(H, run, n), min, pass.upto);
      TotalReadsResized(B, pass.size);
      PassSparesSettled(crc32, B, pass.size, Before(H, run, n), min, pass.upto);
    }
  }

  lemma PassSizes(crc32: Crc32, H: History, n: nat, H': History, min: int, upto: nat)
    requires PassTo(crc32, Resized(H, n), H', min, upto)
    ensures |H'| == if |H| < n then n else |H|
  {
  }

  lemma PassSparesSettled(crc32: Crc32, H: History, n: nat, H': History, min: int, upto: nat)
    requires PassTo(crc32, Resized(H, n), H', min, upto)
    ensures |H| <= |H'|
    ensures forall i | 0 <= i < |H| && Settled(crc32, H[i], min) :: H'[i] == H[i]
  {
    forall i | 0 <= i < |H| && Settled(crc32, H[i], min)
      ensures H'[i] == H[i]
    {
      ReadsOfResized(H, n, i);
    }
  }

  /** The reads of sector i, which may not be there yet. */
  function ReadsOf(H: History, i: nat): seq<AudioFrame> {
    if i < |H| then H[i] else []
  }

  lemma ReadsOfResized(H: History, n: nat, i: nat)
    ensures ReadsOf(Resized(H, n), i) == ReadsOf(H, i)
  {
    assert i < |H| ==> Resized(H, n)[..|H|][i] == H[i];
  }

  /** After p passes a sector was read on: at most p times more, only while unsettled, and
      exactly p times if all passes were complete and it is unsettled still. */
  ghost predicate ReadOn(crc32: Crc32, before: seq<AudioFrame>, after: seq<AudioFrame>, min: int, p: nat,
                         complete: bool) {
    && before <= after && |after| <= |before| + p
    && (after != before ==> !Settled(crc32, before, min) && !Settled(crc32, after[..|after| - 1], min))
    && (complete && !Settled(crc32, after, min) ==> |after| == |before| + p)
  }

  ghost predicate AllReadOn(crc32: Crc32, H: History, H': History, min: int, p: nat, complete: bool) {
    |H| <= |H'| && forall i | 0 <= i < |H'| :: ReadOn(crc32, ReadsOf(H, i), H'[i], min, p, complete)
  }

  lemma NoPassNoRead(crc32: Crc32, H: History, min: int, complete: bool)
    ensures AllReadOn(crc32, H, H, min, 0, complete)
  {
  }

  lemma {:induction false} PassReadsOn(crc32: Crc32, H: History, B: History, size: nat, H': History, min: int,
                                       upto: nat,
                                       p: nat, complete: bool)
    requires AllReadOn(crc32, H, B, min, p, complete)
    requires PassTo(crc32, Resized(B, size), H', min, upto)
    requires complete ==> upto == |H'| && (p > 0 ==> size <= |B|)
    ensures AllReadOn(crc32, H, H', min, p + 1, complete)
  {
    var R := Resized(B, size);
    forall i | 0 <= i < |H'|
      ensures ReadOn(crc32, ReadsOf(H, i), H'[i], min, p + 1, complete)
    {
      ReadsOfResized(B, size, i);
      assert R[i] == ReadsOf(B, i);
      assert i < |B| ==> ReadOn(crc32, ReadsOf(H, i), B[i], min, p, complete);
      if i < upto && !Settled(crc32, R[i], min) {
        assert OneMore(R[i], H'[i]) && H'[i][..|H'[i]| - 1] == R[i];
      } else {
        assert H'[i] == R[i];
      }
    }
  }

  /** Any number of passes over one disc, from any database. */
  lemma {:induction false} RunsReadOn(crc32: Crc32, H: History, run: seq<PassRecord>, min: int, size: nat, n: nat,
                                      complete: bool)
    requires IsRun(crc32, H, run, min) && n <= |run|
    requires forall p | 0 <= p < |run| :: run[p].size == size && (complete ==> run[p].upto == |run[p].after|)
    ensures AllReadOn(crc32, H, Before(H, run, n), min, n, complete)
    ensures n > 0 ==> |Before(H, run, n)| == if |H| < size then size else |H|
  {
    hide *;
    RunStart(crc32, H, run, min);
    if n == 0 {
      NoPassNoRead(crc32, H, min, complete);
    } else {
      RunsReadOn(crc32, H, run, min, size, n - 1, complete);
      RunAt(crc32, H, run, min, n - 1);
      PassSizes(crc32, Before(H, run, n - 1), size, Before(H, run, n), min, run[n - 1].upto);
      PassReadsOn(crc32, H, Before(H, run, n - 1), size, Before(H, run, n), min, run[n - 1].upto, n - 1, complete);
    }
  }

  /** With a fixed threshold no count ever passes it, however the passes were cut short. */
  lemma {:induction false} RunsNeverOvershoot(crc32: Crc32, H: History, run: seq<PassRecord>, min: int, n: nat)
    requires IsRun(crc32, H, run, min) && n <= |run|
    requires AllGrown(crc32, H, min)
    ensures forall i | 0 <= i < |Before(H, run, n)| ::
      && Grown(crc32, Before(H, run, n)[i], min)
      && |Before(H, run, n)[i]| <= ReadBudget(min)
      && TopCount(Sums(crc32, Before(H, run, n)[i])) <= if min < 0 then 0 else min
  {
    RunsKeepGrown(crc32, H, run, min, n);
    var B := Before(H, run, n);
    forall i | 0 <= i < |B|
      ensures |B[i]| <= ReadBudget(min) && TopCount(Sums(crc32, B[i])) <= if min < 0 then 0 else min
    {
      ReadsFitBudget(crc32, B[i], min);
      if B[i] != [] {
        GrownTopCount(crc32, B[i], min);
      }
    }
  }

  lemma {:induction false} RunsKeepGrown(crc32: Crc32, H: History, run: seq<PassRecord>, min: int, n: nat)
    requires IsRun(crc32, H, run, min) && n <= |run|
    requires AllGrown(crc32, H, min)
    ensures AllGrown(crc32, Before(H, run, n), min)
  {
    hide *;
    RunStart(crc32, H, run, min);
    if n > 0 {
      RunsKeepGrown(crc32, H, run, min, n - 1);
      RunAt(crc32, H, run, min, n - 1);
      var B := Before(H, run, n - 1);
      ResizedGrown(crc32, B, run[n - 1].size, min);
      PassKeepsGrown(crc32, Resized(B, run[n - 1].size), Before(H, run, n), min, run[n - 1].upto);
    }
  }

  lemma ResizedGrown(crc32: Crc32, H: History, n: nat, min: int)
    requires AllGrown(crc32, H, min)
    ensures AllGrown(crc32, Resized(H, n), min)
  {
    forall i | 0 <= i < |Resized(H, n)|
      ensures Grown(crc32, Resized(H, n)[i], min)
    {
      ReadsOfResized(H, n, i);
    }
  }
}
