/** The drive's side of the passes: what it was asked for and what it answered, and how the
    reads recorded by the database come from nowhere else. */
module Drive {
  import opened Votes
  import opened SectorChecksums
  import opened Audio
  import opened Passes

  type Source = (nat, nat) -> AudioFrame

  /** What the reads logged from position start on returned is what their sectors gained. */
  ghost predicate Served(source: Source, log: seq<nat>, start: nat, H: History, H': History)
    requires |H| == |H'|
  {
    forall k | start <= k < |log| ::
      log[k] < |H| && H'[log[k]] == H[log[k]] + [source(log[k], k)]
  }

  /** The drive's answers to the reads of sector i from number start up to number end of its
      life, in order. */
  ghost function Answers(source: Source, log: seq<nat>, start: nat, end: nat, i: nat): (frames: seq<AudioFrame>)
    requires start <= end <= |log|
    decreases end
  {
    if end == start then []
    else Answers(source, log, start, end - 1, i) + if log[end - 1] == i then [source(i, end - 1)] else []
  }

  /** How often the drive was asked for sector i since its read number start. */
  ghost function Asked(log: seq<nat>, start: nat, i: nat): nat
    requires start <= |log|
  {
    Count(log[start..], i)
  }

  lemma {:induction false} AnswersAreCounted(source: Source, log: seq<nat>, start: nat, end: nat, i: nat)
    requires start <= end <= |log|
    ensures |Answers(source, log, start, end, i)| == Count(log[start..end], i)
    decreases end
  {
    if end > start {
      AnswersAreCounted(source, log, start, end - 1, i);
      CountAppend(log[start..end - 1], log[end - 1]);
      assert log[start..end] == log[start..end - 1] + [log[end - 1]];
    }
  }

  lemma {:induction false} AnswersSplit(source: Source, log: seq<nat>, start: nat, mid: nat, end: nat, i: nat)
    requires start <= mid <= end <= |log|
    ensures Answers(source, log, start, end, i)
         == Answers(source, log, start, mid, i) + Answers(source, log, mid, end, i)
    decreases end
  {
    if end > mid {
      AnswersSplit(source, log, start, mid, end - 1, i);
    }
  }

  lemma {:induction false} AnswersExtend(source: Source, log: seq<nat>, longer: seq<nat>, start: nat, end: nat, i: nat)
    requires log <= longer && start <= end <= |log|
    ensures Answers(source, longer, start, end, i) == Answers(source, log, start, end, i)
    decreases end
  {
    if end > start {
      AnswersExtend(source, log, longer, start, end - 1, i);
    }
  }

  lemma {:induction false} AnswersNone(source: Source, log: seq<nat>, start: nat, end: nat, i: nat)
    requires start <= end <= |log|
    requires forall k | start <= k < end :: log[k] != i
    ensures Answers(source, log, start, end, i) == []
    decreases end
  {
    if end > start {
      AnswersNone(source, log, start, end - 1, i);
    }
  }

  lemma {:induction false} AnswersOnce(source: Source, log: seq<nat>, start: nat, end: nat, i: nat, k: nat)
    requires start <= k < end <= |log| && log[k] == i
    requires forall j | start <= j < end && j != k :: log[j] != i
    ensures Answers(source, log, start, end, i) == [source(i, k)]
  {
    AnswersSplit(source, log, start, k, end, i);
    AnswersSplit(source, log, k, k + 1, end, i);
    AnswersNone(source, log, start, k, i);
    AnswersNone(source, log, k + 1, end, i);
  }

  /** Everything the sectors gained between H and H' is the drive's answers, in the order in
      which they were given, and every answer is there. */
  ghost predicate Records(source: Source, log: seq<nat>, start: nat, H: History, H': History) {
    && start <= |log| && |H| <= |H'|
    && (forall k | start <= k < |log| :: log[k] < |H'|)
    && (forall i | 0 <= i < |H'| :: H'[i] == ReadsOf(H, i) + Answers(source, log, start, |log|, i))
    && TotalReads(H') == TotalReads(H) + |log| - start
  }

  lemma NothingRecorded(source: Source, log: seq<nat>, H: History)
    ensures Records(source, log, |log|, H, H)
  {
  }

  /** One pass records what it was answered. */
  lemma {:induction false} PassRecords(source: Source, earlier: seq<nat>, log: seq<nat>, crc32: Crc32,
                                       H: History, n: nat, H': History, min: int, upto: nat)
    requires PassTo(crc32, Resized(H, n), H', min, upto)
    requires log == earlier + Targets(crc32, Resized(H, n), min, upto)
    requires Served(source, log, |earlier|, Resized(H, n), H')
    ensures Records(source, log, |earlier|, H, H')
  {
    var R := Resized(H, n);
    TargetsAreTheUnsettled(crc32, R, min, upto);
    var ts := Targets(crc32, R, min, upto);
    forall i: nat | i < |H'|
      ensures H'[i] == ReadsOf(H, i) + Answers(source, log, |earlier|, |log|, i)
    {
      ReadsOfResized(H, n, i);
      GainIsAnswered(source, earlier, ts, crc32, R, H', min, upto, i);
    }
    PassCountsItsReads(crc32, R, H', min, upto);
    TotalReadsResized(H, n);
  }

  lemma {:induction false} GainIsAnswered(source: Source, earlier: seq<nat>, ts: seq<nat>, crc32: Crc32,
                                          R: History, H': History, min: int, upto: nat, i: nat)
    requires PassTo(crc32, R, H', min, upto) && i < |H'|
    requires forall k, j | 0 <= k < j < |ts| :: ts[k] < ts[j]
    requires i in ts <==> i < upto && !Settled(crc32, R[i], min)
    requires Served(source, earlier + ts, |earlier|, R, H')
    ensures H'[i] == R[i] + Answers(source, earlier + ts, |earlier|, |earlier + ts|, i)
  {
    var log := earlier + ts;
    if i in ts {
      var j :| 0 <= j < |ts| && ts[j] == i;
      var k := |earlier| + j;
      assert log[k] == i;
      AnswersOnce(source, log, |earlier|, |log|, i, k);
    } else {
      AnswersNone(source, log, |earlier|, |log|, i);
    }
  }

  lemma {:induction false} RecordsCompose(source: Source, earlier: seq<nat>, log: seq<nat>, start: nat,
                                          H: History, H': History, H'': History)
    requires earlier <= log
    requires Records(source, earlier, start, H, H') && Records(source, log, |earlier|, H', H'')
    ensures Records(source, log, start, H, H'')
  {
    forall i: nat | i < |H''|
      ensures H''[i] == ReadsOf(H, i) + Answers(source, log, start, |log|, i)
    {
      hide Records, Answers;
      ComposedSector(source, earlier, log, start, H, H', H'', i);
    }
    hide Answers, TotalReads;
    forall k | start <= k < |log|
      ensures log[k] < |H''|
    {
      assert k < |earlier| ==> log[k] == earlier[k];
    }
  }

  lemma ComposedSector(source: Source, earlier: seq<nat>, log: seq<nat>, start: nat,
                       H: History, H': History, H'': History, i: nat)
    requires earlier <= log && start <= |earlier|
    requires Records(source, earlier, start, H, H') && Records(source, log, |earlier|, H', H'')
    ensures ReadsOf(H'', i) == ReadsOf(H, i) + Answers(source, log, start, |log|, i)
  {
    hide *;
    AnswersSplit(source, log, start, |earlier|, |log|, i);
    AnswersExtend(source, earlier, log, start, |earlier|, i);
    AnswersOfSector(source, earlier, start, H, H', i);
    AnswersOfSector(source, log, |earlier|, H', H'', i);
  }

  lemma AnswersOfSector(source: Source, log: seq<nat>, start: nat, H: History, H': History, i: nat)
    requires Records(source, log, start, H, H')
    ensures start <= |log| && ReadsOf(H', i) == ReadsOf(H, i) + Answers(source, log, start, |log|, i)
  {
    if i >= |H'| {
      AnswersNone(source, log, start, |log|, i);
    }
  }

  /** So many of the reads of a sector as it gained were asked of the drive. */
  lemma RecordsAsked(source: Source, log: seq<nat>, start: nat, H: History, H': History, i: nat)
    requires Records(source, log, start, H, H') && i < |H'|
    ensures |H'[i]| == |ReadsOf(H, i)| + Asked(log, start, i)
  {
    AnswersAreCounted(source, log, start, |log|, i);
    assert log[start..] == log[start..|log|];
  }

  lemma RecordsFromNothing(source: Source, log: seq<nat>, start: nat, H: History, H': History)
    requires Records(source, log, start, H, H') && NeverRead(H)
    ensures forall i | 0 <= i < |H'| :: H'[i] == Answers(source, log, start, |log|, i)
    ensures forall i: nat | i < |H'| :: Asked(log, start, i) == |H'[i]|
    ensures TotalReads(H') == |log| - start
  {
    NeverReadTotal(H);
    forall i: nat | i < |H'|
      ensures Asked(log, start, i) == |H'[i]|
    {
      RecordsAsked(source, log, start, H, H', i);
    }
  }

  lemma {:induction false} NeverReadTotal(H: History)
    requires NeverRead(H)
    ensures TotalReads(H) == 0
  {
    if H != [] {
      NeverReadTotal(H[..|H| - 1]);
    }
  }

  /** All that the drive can ever answer for sector i has one of k checksums. */
  ghost predicate FewKinds(crc32: Crc32, source: Source, i: nat, k: nat) {
    exists kinds: set<Checksums> :: |kinds| <= k && forall n: nat :: Sum(crc32, source(i, n)) in kinds
  }

  /** The drive has at most k different answers for any one sector, told apart by checksum. */
  ghost predicate KindsAtMost(crc32: Crc32, source: Source, k: nat) {
    forall i: nat :: FewKinds(crc32, source, i, k)
  }

  /** At most k different checksums were recorded for any one sector. */
  ghost predicate KindsWithin(crc32: Crc32, H: History, k: nat) {
    forall i | 0 <= i < |H| :: |set c | c in Sums(crc32, H[i])| <= k
  }

  /** The drive gives this answer for sector i at some time of its life. */
  ghost predicate IsAnswer(source: Source, i: nat, frame: AudioFrame) {
    exists n: nat :: source(i, n) == frame
  }

  lemma {:induction false} AnswersAreSource(source: Source, log: seq<nat>, start: nat, end: nat, i: nat)
    requires start <= end <= |log|
    ensures forall r | r in Answers(source, log, start, end, i) :: IsAnswer(source, i, r)
    decreases end
  {
    if end > start {
      AnswersAreSource(source, log, start, end - 1, i);
      assert IsAnswer(source, i, source(i, end - 1));
    }
  }

  lemma {:induction false} FewKindsOfAnswers(crc32: Crc32, source: Source, i: nat, frames: seq<AudioFrame>, k: nat)
    requires FewKinds(crc32, source, i, k)
    requires forall r | r in frames :: IsAnswer(source, i, r)
    ensures |set c | c in Sums(crc32, frames)| <= k
  {
    var kinds: set<Checksums> :| |kinds| <= k && forall n: nat :: Sum(crc32, source(i, n)) in kinds;
    var sums := Sums(crc32, frames);
    forall c | c in sums
      ensures c in kinds
    {
      var j :| 0 <= j < |sums| && sums[j] == c;
      assert frames[j] in frames;
    }
    SubsetSize((set c | c in sums), kinds);
  }

  /** What the drive cannot answer is not recorded. */
  lemma {:induction false} KindsRecorded(crc32: Crc32, source: Source, log: seq<nat>, start: nat, H: History,
                                         H': History, k: nat)
    requires Records(source, log, start, H, H') && NeverRead(H)
    requires KindsAtMost(crc32, source, k)
    ensures KindsWithin(crc32, H', k)
  {
    RecordsFromNothing(source, log, start, H, H');
    forall i: nat | i < |H'|
      ensures |set c | c in Sums(crc32, H'[i])| <= k
    {
      hide Records;
      AnswersAreSource(source, log, start, |log|, i);
      FewKindsOfAnswers(crc32, source, i, H'[i], k);
    }
  }

  lemma {:induction false} SubsetSize<T>(a: set<T>, b: set<T>)
    requires a <= b
    ensures |a| <= |b|
  {
    assert b == a + (b - a);
  }

  /** Except at the positions in wrong the drive answers the truth for sector i, and no
      wrong answer has its checksum. */
  ghost predicate WrongOnlyAt(crc32: Crc32, source: Source, i: nat, truth: AudioFrame, wrong: set<nat>) {
    && (forall n: nat :: n in wrong || source(i, n) == truth)
    && (forall n: nat :: crc32(source(i, n)) == crc32(truth) ==> source(i, n) == truth)
  }

  /** The drive answers wrongly for sector i at most e times in its life. */
  ghost predicate FewErrors(crc32: Crc32, source: Source, i: nat, truth: AudioFrame, e: nat) {
    exists wrong: set<nat> :: |wrong| <= e && WrongOnlyAt(crc32, source, i, truth, wrong)
  }

  function Earlier(wrong: set<nat>, end: nat): set<nat> {
    set n | n in wrong && n < end
  }

  lemma EarlierGrows(wrong: set<nat>, end: nat)
    ensures |Earlier(wrong, end)| <= |wrong|
    ensures |Earlier(wrong, end + 1)| == |Earlier(wrong, end)| + if end in wrong then 1 else 0
  {
    SubsetSize(Earlier(wrong, end), wrong);
    assert Earlier(wrong, end + 1) == Earlier(wrong, end) + if end in wrong then {end} else {};
  }

  lemma {:induction false} ErrorsAreCounted(crc32: Crc32, source: Source, log: seq<nat>, start: nat, end: nat, i: nat,
                                            truth: AudioFrame, wrong: set<nat>)
    requires start <= end <= |log| && WrongOnlyAt(crc32, source, i, truth, wrong)
    ensures |Answers(source, log, start, end, i)| - Count(Answers(source, log, start, end, i), truth)
         <= |Earlier(wrong, end)|
    decreases end
  {
    hide *;
    if end > start {
      ErrorsAreCounted(crc32, source, log, start, end - 1, i, truth, wrong);
      EarlierGrows(wrong, end - 1);
      AnswersStep(source, log, start, end, i);
      OneMoreError(Answers(source, log, start, end - 1, i), source(i, end - 1), truth);
      RightUnlessWrong(crc32, source, i, truth, wrong, end - 1);
    } else {
      NoAnswers(source, log, start, i);
    }
  }

  lemma NoAnswers(source: Source, log: seq<nat>, start: nat, i: nat)
    requires start <= |log|
    ensures Answers(source, log, start, start, i) == []
  {
  }

  lemma AnswersStep(source: Source, log: seq<nat>, start: nat, end: nat, i: nat)
    requires start < end <= |log|
    ensures Answers(source, log, start, end, i)
         == if log[end - 1] == i then Answers(source, log, start, end - 1, i) + [source(i, end - 1)]
            else Answers(source, log, start, end - 1, i)
  {
  }

  lemma OneMoreError(frames: seq<AudioFrame>, frame: AudioFrame, truth: AudioFrame)
    ensures |frames + [frame]| - Count(frames + [frame], truth)
         == |frames| - Count(frames, truth) + if frame == truth then 0 else 1
  {
    CountAppend(frames, frame);
  }

  lemma RightUnlessWrong(crc32: Crc32, source: Source, i: nat, truth: AudioFrame, wrong: set<nat>, n: nat)
    requires WrongOnlyAt(crc32, source, i, truth, wrong)
    ensures n in wrong || source(i, n) == truth
  {
  }

  /** A drive that errs less often than the threshold leaves every sector recoverable. */
  lemma {:induction false} FewErrorsRecorded(crc32: Crc32, source: Source, log: seq<nat>, start: nat, i: nat,
                                             truth: AudioFrame, e: nat, min: int)
    requires start <= |log| && e < min && FewErrors(crc32, source, i, truth, e)
    ensures Recoverable(crc32, Answers(source, log, start, |log|, i), truth, e, min)
  {
    var wrong: set<nat> :| |wrong| <= e && WrongOnlyAt(crc32, source, i, truth, wrong);
    var frames := Answers(source, log, start, |log|, i);
    ErrorsAreCounted(crc32, source, log, start, |log|, i, truth, wrong);
    EarlierGrows(wrong, |log|);
    AnswersAreSource(source, log, start, |log|, i);
    forall r | r in frames && crc32(r) == crc32(truth)
      ensures r == truth
    {
      assert IsAnswer(source, i, r);
    }
    FewErrorsAreRecoverable(crc32, frames, truth, e, min);
  }
}
