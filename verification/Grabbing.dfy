/** The loops that drive the sector database over a disc. */
module Grabbing {
  import opened Votes
  import opened SectorChecksums
  import opened Audio
  import opened Passes
  import opened Drive
  import opened SectorDatabase
  import opened Options

  ghost predicate AllSettled(crc32: Crc32, H: History, min: int) {
    forall i | 0 <= i < |H| :: Settled(crc32, H[i], min)
  }

  lemma NeverReadStart(crc32: Crc32, H: History, n: nat, min: int)
    requires NeverRead(H)
    ensures AfterPasses(crc32, Resized(H, n), min, 0)
    ensures NeverRead(Resized(H, n))
  {
    forall i | 0 <= i < |Resized(H, n)|
      ensures Resized(H, n)[i] == []
    {
      assert i < |H| ==> Resized(H, n)[..|H|][i] == H[i];
    }
  }

  /** What one more pass does, for every driver loop. */
  lemma {:induction false} PassProgress(crc32: Crc32, H: History, n: nat, H': History, min: int, upto: nat, nrRead: nat)
    requires PassTo(crc32, Resized(H, n), H', min, upto)
    requires nrRead == |Targets(crc32, Resized(H, n), min, upto)|
    ensures Resized(H', n) == H'
    ensures Remaining(H', min) + nrRead == Remaining(Resized(H, n), min)
    ensures nrRead == 0 && upto == |H'| ==> H' == Resized(H, n) && AllSettled(crc32, H', min)
  {
    var R := Resized(H, n);
    PassSpendsBudget(crc32, R, H', min, upto);
    if upto == |H'| && nrRead == 0 {
      EmptyPass(crc32, R, H', min);
    }
  }

  lemma {:induction false} CompletePassProgress(crc32: Crc32, R: History, H': History, min: int, upto: nat, p: nat)
    requires PassTo(crc32, R, H', min, upto) && upto == |H'|
    requires AfterPasses(crc32, R, min, p)
    ensures AfterPasses(crc32, H', min, p + 1)
    ensures |Targets(crc32, R, min, upto)| > 0 ==> MostReads(H', p + 1)
    ensures |Targets(crc32, R, min, upto)| == 0 ==> H' == R
  {
    CompletePassAdvances(crc32, R, H', min, p);
    if |Targets(crc32, R, min, upto)| > 0 {
      PassReachesItsNumber(crc32, R, H', min, p);
    } else {
      EmptyPass(crc32, R, H', min);
    }
  }

  /** Some sector was read n times. */
  ghost predicate MostReads(H: History, n: nat) {
    exists i :: 0 <= i < |H| && |H[i]| == n
  }

  /** Then no sector is read more than k * (min - 1) + 1 times, and no more passes than that
      read anything. */
  lemma {:induction false} PassesAreBounded(crc32: Crc32, H: History, min: int, p: nat, k: nat)
    requires 1 <= min && AfterPasses(crc32, H, min, p) && (p > 0 ==> MostReads(H, p))
    requires KindsWithin(crc32, H, k)
    ensures forall i | 0 <= i < |H| :: |H[i]| <= k * (min - 1) + 1
    ensures p <= k * (min - 1) + 1
  {
    forall i | 0 <= i < |H|
      ensures |H[i]| <= k * (min - 1) + 1
    {
      SectorIsBounded(crc32, H[i], min, k);
    }
    MultiplyMonotone(k, 0, min - 1);
  }

  lemma {:induction false} SectorIsBounded(crc32: Crc32, frames: seq<AudioFrame>, min: int, k: nat)
    requires 1 <= min && Grown(crc32, frames, min)
    requires |set c | c in Sums(crc32, frames)| <= k
    ensures |frames| <= k * (min - 1) + 1
  {
    hide *;
    var kinds := set c | c in Sums(crc32, frames);
    ReadsAreBounded(crc32, frames, min, kinds);
    MultiplyMonotone(min - 1, |kinds|, k);
    MultiplyMonotone(k, 0, min - 1);
  }

  ghost predicate AreTops(crc32: Crc32, H: History, tops: seq<nat>) {
    |tops| == |H| && forall i | 0 <= i < |H| :: tops[i] == Top(crc32, H[i])
  }

  /** A complete pass returns 0 exactly when the statistics taken before it show that the
      minimum has reached the threshold. */
  lemma {:induction false} PassReadsNothingIffMinimumReached(crc32: Crc32, H: History, tops: seq<nat>, min: int)
    requires AreTops(crc32, H, tops) && min <= INT_MAX
    ensures |Targets(crc32, H, min, |H|)| == 0 <==> LeastOf(tops, INT_MAX) >= min
  {
    TargetsAreTheUnsettled(crc32, H, min, |H|);
    var ts := Targets(crc32, H, min, |H|);
    if |ts| > 0 {
      assert ts[0] in ts && tops[ts[0]] < min;
    } else {
      forall i: nat | i < |H|
        ensures tops[i] >= min
      {
        assert i !in ts;
      }
    }
  }

  /** Starting from never-read sectors, at the end of the loop every sector's top count is
      the threshold itself. */
  lemma {:induction false} ExactAtExit(crc32: Crc32, H: History, tops: seq<nat>, min: int, p: nat)
    requires AreTops(crc32, H, tops)
    requires AllSettled(crc32, H, min) && AfterPasses(crc32, H, min, p)
    ensures H != [] && 1 <= min <= INT_MAX ==> LeastOf(tops, INT_MAX) == GreatestOf(tops) == min
  {
    if 1 <= min {
      forall i | 0 <= i < |H|
        ensures tops[i] == min
      {
        assert Settled(crc32, H[i], min);
        GrownTopCount(crc32, H[i], min);
      }
    }
  }

  /** The sector holds the truth, after no more reads than the errors account for. */
  ghost predicate Recovered(asked: nat, data: seq<Int16>, truth: AudioFrame, e: nat, min: int) {
    data == truth && asked <= min + e
  }

  /** The drive was asked for no sector more than n times. */
  ghost predicate AskedAtMost(log: seq<nat>, start: nat, sectors: nat, n: int)
    requires start <= |log|
  {
    forall i: nat | i < sectors :: Asked(log, start, i) <= n
  }

  lemma {:induction false} NextPassRecorded(source: Source, earlier: seq<nat>, log: seq<nat>, start: nat, H0: History,
                                            crc32: Crc32, H: History, n: nat, H': History, min: int, upto: nat)
    requires Records(source, earlier, start, H0, H)
    requires PassTo(crc32, Resized(H, n), H', min, upto)
    requires log == earlier + Targets(crc32, Resized(H, n), min, upto)
    requires Served(source, log, |earlier|, Resized(H, n), H')
    ensures Records(source, log, start, H0, H')
  {
    hide *;
    PassRecords(source, earlier, log, crc32, H, n, H', min, upto);
    RecordsCompose(source, earlier, log, start, H0, H, H');
  }

  /** Refines from an empty database until a pass reads nothing. Terminates for every drive,
      since there are finitely many checksums; passes counts the calls that read something. */
  method RefineUntilDone(db: SectorDb, reader: AudioReader, min: int) returns (stat: Statistics, ghost passes: nat)
    requires db.Valid() && reader !in db.Repr
    requires NeverRead(db.history)
    modifies db, db.Repr, reader
    ensures db.Valid() && fresh(db.Repr - old(db.Repr))
    ensures |db.history| >= reader.size
    ensures AllSettled(db.crc32, db.history, min)
    ensures AfterPasses(db.crc32, db.history, min, passes)
    ensures passes > 0 ==> MostReads(db.history, passes)
    ensures db.history != [] && 1 <= min <= INT_MAX ==> stat.minMC == stat.maxMC == min
    ensures db.toc == (if old(db.toc).tracks == [] then reader.toc else old(db.toc)) && db.hw == reader.hw
    // the reads are the drive's answers
    ensures old(reader.log) <= reader.log
    ensures Records(reader.source, reader.log, |old(reader.log)|, old(db.history), db.history)
    ensures |reader.log| == |old(reader.log)| + TotalReads(db.history)
    // few different answers mean few reads and passes
    ensures forall k: nat | 1 <= min && KindsAtMost(db.crc32, reader.source, k) ::
              && passes <= k * (min - 1) + 1
              && AskedAtMost(reader.log, |old(reader.log)|, |db.history|, k * (min - 1) + 1)
    // few wrong answers mean the true audio
    ensures forall i, truth, e: nat | 0 <= i < |db.history| && 1 <= min && Recoverable(db.crc32,
                Answers(reader.source, reader.log, |old(reader.log)|, |reader.log|, i), truth, e, min) ::
              Recovered(Asked(reader.log, |old(reader.log)|, i), db.Data(i), truth, e, min)
    ensures forall i, truth, e: nat | 0 <= i < |db.history| && e < min
              && FewErrors(db.crc32, reader.source, i, truth, e) ::
              Recovered(Asked(reader.log, |old(reader.log)|, i), db.Data(i), truth, e, min)
  {
    hide *;
    passes := 0;
    ghost var H0, start := db.history, |reader.log|;
    ghost var toc := if db.toc.tracks == [] then reader.toc else db.toc;
    NeverReadStart(db.crc32, db.history, reader.size, min);
    NothingRecorded(reader.source, reader.log, H0);
    while true
      invariant db.Valid() && fresh(db.Repr - old(db.Repr)) && reader !in db.Repr
      invariant db.toc == old(db.toc) || db.toc == toc
      invariant AfterPasses(db.crc32, Resized(db.history, reader.size), min, passes)
      invariant passes > 0 ==> MostReads(db.history, passes) && Resized(db.history, reader.size) == db.history
      invariant old(reader.log) <= reader.log
      invariant Records(reader.source, reader.log, start, H0, db.history)
      decreases Remaining(Resized(db.history, reader.size), min)
    {
      ghost var H, earlier := db.history, reader.log;
      var nrRead, upto := db.Refine(reader, min, null);
      PassProgress(db.crc32, H, reader.size, db.history, min, upto, nrRead);
      CompletePassProgress(db.crc32, Resized(H, reader.size), db.history, min, upto, passes);
      NextPassRecorded(reader.source, earlier, reader.log, start, H0, db.crc32, H, reader.size, db.history, min, upto);
      if nrRead == 0 {
        break;
      }
      passes := passes + 1;
    }
    BoundedByTheDrive(db.crc32, reader.source, reader.log, start, H0, db.history, min, passes);
    RecoverAll(db, reader, start, H0, min, passes);
    stat := db.GetStatistics();
    ExactAtExit(db.crc32, db.history, db.Tops(), min, passes);
  }

  /** The pigeonhole bound, on what the drive is asked for. */
  lemma {:induction false} BoundedByTheDrive(crc32: Crc32, source: Source, log: seq<nat>, start: nat,
                                             H0: History, H: History, min: int, p: nat)
    requires Records(source, log, start, H0, H) && NeverRead(H0)
    requires AfterPasses(crc32, H, min, p) && (p > 0 ==> MostReads(H, p))
    ensures |log| == start + TotalReads(H)
    ensures forall k: nat | 1 <= min && KindsAtMost(crc32, source, k) ::
      p <= k * (min - 1) + 1 && AskedAtMost(log, start, |H|, k * (min - 1) + 1)
  {
    RecordsFromNothing(source, log, start, H0, H);
    forall k: nat | 1 <= min && KindsAtMost(crc32, source, k)
      ensures p <= k * (min - 1) + 1 && AskedAtMost(log, start, |H|, k * (min - 1) + 1)
    {
      hide KindsAtMost, KindsWithin, AfterPasses, Records, MostReads, TotalReads;
      KindsRecorded(crc32, source, log, start, H0, H, k);
      PassesAreBounded(crc32, H, min, p, k);
    }
  }

  lemma {:induction false} RecoverAll(db: SectorDb, reader: AudioReader, start: nat, H0: History, min: int, p: nat)
    requires db.Valid()
    requires Records(reader.source, reader.log, start, H0, db.history) && NeverRead(H0)
    requires AllSettled(db.crc32, db.history, min) && AfterPasses(db.crc32, db.history, min, p)
    ensures start <= |reader.log|
    ensures forall i, truth, e: nat | 0 <= i < |db.history| && 1 <= min && Recoverable(db.crc32,
                Answers(reader.source, reader.log, start, |reader.log|, i), truth, e, min) ::
              Recovered(Asked(reader.log, start, i), db.Data(i), truth, e, min)
    ensures forall i, truth, e: nat | 0 <= i < |db.history| && e < min
              && FewErrors(db.crc32, reader.source, i, truth, e) ::
              Recovered(Asked(reader.log, start, i), db.Data(i), truth, e, min)
  {
    RecordsFromNothing(reader.source, reader.log, start, H0, db.history);
    hide Records, Recoverable, FewErrors;
    forall i, truth, e: nat | 0 <= i < |db.history| && 1 <= min && Recoverable(db.crc32,
                Answers(reader.source, reader.log, start, |reader.log|, i), truth, e, min)
      ensures Recovered(Asked(reader.log, start, i), db.Data(i), truth, e, min)
    {
      TruthIsRecovered(db.crc32, db.history[i], truth, e, min);
      db.DataIsKept(i);
    }
    forall i, truth, e: nat | 0 <= i < |db.history| && e < min && FewErrors(db.crc32, reader.source, i, truth, e)
      ensures Recovered(Asked(reader.log, start, i), db.Data(i), truth, e, min)
    {
      FewErrorsRecorded(db.crc32, reader.source, reader.log, start, i, truth, e, min);
    }
  }

  /** What a sector looks like after the worker's four passes with threshold 2. */
  ghost predicate Graded(crc32: Crc32, frames: seq<AudioFrame>, data: seq<Int16>, check: Checksums) {
    var h := Sums(crc32, frames);
    || (Count(h, check) == 2 && TopCount(h) == 2 && |data| == FRAME && Sum(crc32, data) == check)
    || (|frames| == 4 && (forall i, j | 0 <= i < j < 4 :: h[i] != h[j]) && data == frames[3] && check == h[3])
  }

  lemma {:induction false} AfterFourPassesGraded(db: SectorDb, p: nat)
    requires db.Valid() && AfterPasses(db.crc32, db.history, 2, p)
    requires p == 4 || AllSettled(db.crc32, db.history, 2)
    ensures AllGraded(db)
  {
    forall i | 0 <= i < |db.history|
      ensures Graded(db.crc32, db.history[i], db.Data(i), db.Check(i))
    {
      db.DataIsKept(i);
      SettledOrAllDistinct(db.crc32, db.history[i], p);
      if db.history[i] != [] {
        GrownTopCount(db.crc32, db.history[i], 2);
        KeptIsARead(db.crc32, db.history[i]);
      }
    }
  }

  /** Four passes over never-read sectors are what the grading is about. */
  lemma {:induction false} ReadOnFromNothing(crc32: Crc32, H: History, H': History, min: int, p: nat)
    requires NeverRead(H) && AllReadOn(crc32, H, H', min, p, true)
    ensures AfterPasses(crc32, H', min, p)
  {
    forall i | 0 <= i < |H'|
      ensures Grown(crc32, H'[i], min) && |H'[i]| <= p && (!Settled(crc32, H'[i], min) ==> |H'[i]| == p)
    {
      assert ReadOn(crc32, ReadsOf(H, i), H'[i], min, p, true);
    }
  }

  ghost predicate AllGraded(db: SectorDb)
    requires db.Valid()
    reads db, db.Repr
  {
    forall i | 0 <= i < |db.history| :: Graded(db.crc32, db.history[i], db.Data(i), db.Check(i))
  }

  /** What a pass that read nrRead sectors tells the callback: its reports are the calls from
      number start on up to end. One comes before every 256th read and is answered yes; one
      more is for having finished, or is refused, before a 256th read, and ends the pass. */
  ghost predicate PassReported(callback: nat -> bool, start: nat, end: nat, nrRead: nat, cancelled: bool) {
    && end == start + (nrRead + 255) / 256 + 1
    && (forall k | start <= k < end - 1 :: callback(k))
    && (cancelled ==> nrRead % 256 == 0 && !callback(end - 1))
  }

  /** The passes of one loop over a disc: pass p makes the calls from number starts[p] on. */
  ghost predicate Reported(crc32: Crc32, H: History, run: seq<PassRecord>, min: int, size: nat,
                           starts: seq<nat>, callback: nat -> bool)
    requires IsRun(crc32, H, run, min)
  {
    && |starts| == |run| + 1
    && forall p {:trigger run[p]} | 0 <= p < |run| ::
         && run[p].size == size
         && PassReported(callback, starts[p], starts[p + 1], ReadsIn(crc32, H, run, min, p),
                         run[p].upto < |run[p].after|)
  }

  /** The first n passes read something. */
  ghost predicate FirstRead(crc32: Crc32, H: History, run: seq<PassRecord>, min: int, n: nat)
    requires IsRun(crc32, H, run, min) && n <= |run|
  {
    forall p | 0 <= p < n :: ReadsIn(crc32, H, run, min, p) > 0
  }

  /** The loop went on after every pass that read something, and after no other. */
  ghost predicate EndsEmpty(crc32: Crc32, H: History, run: seq<PassRecord>, min: int)
    requires IsRun(crc32, H, run, min)
    ensures EndsEmpty(crc32, H, run, min) ==> run != []
  {
    run != [] && FirstRead(crc32, H, run, min, |run| - 1) && ReadsIn(crc32, H, run, min, |run| - 1) == 0
  }

  lemma ToldIsReported(before: seq<bool>, after: seq<bool>, nrRead: nat, cancelled: bool, callback: nat -> bool)
    requires Told(before, after, nrRead, cancelled) && (cancelled ==> nrRead % 256 == 0)
    requires forall k | 0 <= k < |after| :: after[k] == callback(k)
    ensures PassReported(callback, |before|, |after|, nrRead, cancelled)
  {
    var reports := Reports(nrRead);
    forall k | |before| <= k < |after| - 1
      ensures callback(k)
    {
      assert after[k] == reports[k - |before|];
    }
  }

  /** One more pass of the loop. */
  lemma {:induction false} LoopStep(crc32: Crc32, H: History, run: seq<PassRecord>, min: int, size: nat,
                                    starts: seq<nat>,
                                    callback: nat -> bool, next: PassRecord, end: nat)
    requires IsRun(crc32, H, run, min)
    requires Reported(crc32, H, run, min, size, starts, callback) && FirstRead(crc32, H, run, min, |run|)
    requires next.size == size && PassTo(crc32, Resized(Final(H, run), size), next.after, min, next.upto)
    requires PassReported(callback, starts[|run|], end, |Targets(crc32, Resized(Final(H, run), size), min, next.upto)|,
                          next.upto < |next.after|)
    ensures IsRun(crc32, H, run + [next], min) && Final(H, run + [next]) == next.after
    ensures Reported(crc32, H, run + [next], min, size, starts + [end], callback)
    ensures FirstRead(crc32, H, run + [next], min, |run|)
    ensures ReadsIn(crc32, H, run + [next], min, |run|) == |Targets(crc32, Resized(Final(H, run), size), min, next.upto)|
  {
    hide Resized, PassTo, Targets, IsRun, ReadsIn, Before, PassReported;
    RunGrows(crc32, H, run, min, next);
    var longer, ends := run + [next], starts + [end];
    forall p {:trigger longer[p]} | 0 <= p < |longer|
      ensures longer[p].size == size
      ensures PassReported(callback, ends[p], ends[p + 1], ReadsIn(crc32, H, longer, min, p),
                           longer[p].upto < |longer[p].after|)
    {
      if p < |run| {
        assert longer[p] == run[p] && ends[p] == starts[p] && ends[p + 1] == starts[p + 1];
      }
    }
  }

  /** A pass that read nothing changed nothing, cancelled or not. */
  lemma {:induction false} ReadsNothingChangesNothing(crc32: Crc32, H: History, H': History, min: int, upto: nat)
    requires PassTo(crc32, H, H', min, upto) && Targets(crc32, H, min, upto) == []
    ensures H' == H
  {
    TargetsAreTheUnsettled(crc32, H, min, upto);
    forall i: nat | i < |H|
      ensures H'[i] == H[i]
    {
      assert i !in Targets(crc32, H, min, upto);
    }
  }

  /** The loop leaves a sector unsettled exactly when the callback refused the first report of
      a pass that found one, which is then the last pass and reads nothing. No other refusal
      ends the loop. */
  lemma {:induction false} OnlyAFirstReportEndsIt(crc32: Crc32, H: History, run: seq<PassRecord>, min: int, size: nat,
                                                  starts: seq<nat>, callback: nat -> bool)
    requires IsRun(crc32, H, run, min)
    requires Reported(crc32, H, run, min, size, starts, callback) && EndsEmpty(crc32, H, run, min)
    ensures AllSettled(crc32, Final(H, run), min) <==>
      forall p | 0 <= p < |run| :: AllSettled(crc32, Found(H, run, p), min) || callback(starts[p])
    ensures !AllSettled(crc32, Final(H, run), min) <==>
      !AllSettled(crc32, Found(H, run, |run| - 1), min) && !callback(starts[|run| - 1])
  {
    hide *;
    var last := |run| - 1;
    FoundAt(crc32, H, run, min, last);
    LastPass(crc32, H, run, min, size, starts, callback);
    LastReadsNothing(crc32, Found(H, run, last), Final(H, run), min, run[last].upto);
    forall p | 0 <= p < last
      ensures callback(starts[p])
    {
      ReadingNeedsConsent(crc32, H, run, min, size, starts, callback, p);
    }
  }

  /** What a callback can keep to: a refusal of one call alone does no harm, unless it is the
      very first call or the one after a pass was reported finished. */
  lemma {:induction false} LoneRefusalsDoNotEndIt(crc32: Crc32, H: History, run: seq<PassRecord>, min: int, size: nat,
                                                  starts: seq<nat>, callback: nat -> bool)
    requires IsRun(crc32, H, run, min)
    requires Reported(crc32, H, run, min, size, starts, callback) && EndsEmpty(crc32, H, run, min)
    requires callback(starts[0]) && forall k: nat :: callback(k) || callback(k + 1)
    requires forall p | 0 <= p < |run| - 1 && run[p].upto == |run[p].after| :: callback(starts[p + 1])
    ensures AllSettled(crc32, Final(H, run), min)
  {
    OnlyAFirstReportEndsIt(crc32, H, run, min, size, starts, callback);
    var last := |run| - 1;
    if last > 0 && run[last - 1].upto != |run[last - 1].after| {
      RunAt(crc32, H, run, min, last - 1);
      hide IsRun, ReadsIn, Resized, Targets, AllSettled, Found, Settled;
      assert starts[last] > 0 && !callback(starts[last] - 1);
    }
  }

  lemma FoundAt(crc32: Crc32, H: History, run: seq<PassRecord>, min: int, p: nat)
    requires IsRun(crc32, H, run, min) && p < |run|
    ensures PassTo(crc32, Found(H, run, p), run[p].after, min, run[p].upto)
    ensures |Targets(crc32, Found(H, run, p), min, run[p].upto)| == ReadsIn(crc32, H, run, min, p)
    ensures p == |run| - 1 ==> Final(H, run) == run[p].after
  {
    hide PassTo, Targets, Resized;
  }

  lemma LastPass(crc32: Crc32, H: History, run: seq<PassRecord>, min: int, size: nat,
                 starts: seq<nat>, callback: nat -> bool)
    requires IsRun(crc32, H, run, min)
    requires Reported(crc32, H, run, min, size, starts, callback) && EndsEmpty(crc32, H, run, min)
    ensures |starts| == |run| + 1
    ensures ReadsIn(crc32, H, run, min, |run| - 1) == 0
    ensures run[|run| - 1].upto < |run[|run| - 1].after| ==> !callback(starts[|run| - 1])
    ensures forall p | 0 <= p < |run| - 1 :: ReadsIn(crc32, H, run, min, p) > 0
  {
    hide IsRun, ReadsIn;
    assert run[|run| - 1].size == size;
  }

  lemma {:induction false} LastReadsNothing(crc32: Crc32, H: History, H': History, min: int, upto: nat)
    requires PassTo(crc32, H, H', min, upto) && Targets(crc32, H, min, upto) == []
    ensures H' == H && upto <= |H'|
    ensures upto == |H'| ==> AllSettled(crc32, H', min)
  {
    ReadsNothingChangesNothing(crc32, H, H', min, upto);
    if upto == |H'| {
      EmptyPass(crc32, H, H', min);
    }
  }

  lemma ReadingNeedsConsent(crc32: Crc32, H: History, run: seq<PassRecord>, min: int, size: nat,
                            starts: seq<nat>, callback: nat -> bool, p: nat)
    requires IsRun(crc32, H, run, min) && p < |run|
    requires Reported(crc32, H, run, min, size, starts, callback) && ReadsIn(crc32, H, run, min, p) > 0
    ensures starts[p + 1] >= starts[p] + 2 && callback(starts[p])
  {
    hide IsRun, ReadsIn;
    assert run[p].size == size;
  }

  /** The history a grab starts from: that of the saved database, or of a new one. */
  ghost function Start(saved: SectorDb?, size: nat): (H: History)
    reads saved
    ensures saved != null ==> H == saved.history
    ensures saved == null ==> H == Resized([], size)
  {
    if saved == null then Resized([], size) else saved.history
  }

  /** The passes of a loop over one disc only read on. */
  lemma {:induction false} RunOverOneDisc(crc32: Crc32, H: History, run: seq<PassRecord>, min: int, size: nat,
                                          starts: seq<nat>, callback: nat -> bool)
    requires IsRun(crc32, H, run, min) && Reported(crc32, H, run, min, size, starts, callback)
    ensures AllReadOn(crc32, H, Final(H, run), min, |run|, false)
    ensures run != [] ==> size <= |Final(H, run)|
  {
    hide IsRun, AllReadOn, PassReported, ReadsIn;
    RunsReadOn(crc32, H, run, min, size, |run|, false);
  }

  /** The command-line grabber. Its statistics are those of the loaded database, or zero, and
      are never computed again. */
  class Grabber {
    var sdb: SectorDb

    constructor (crc32: Crc32)
      ensures sdb.Valid() && this !in sdb.Repr && sdb.crc32 == crc32
    {
      sdb := new SectorDb(crc32, 0, None);
    }

    /** Refines until a pass reads nothing. run are the passes made, starts the numbers of
        their first calls of the callback. */
    method Grab(cdda: AudioReader, saved: SectorDb?, callback: nat -> bool)
      returns (ghost run: seq<PassRecord>, ghost starts: seq<nat>)
      requires sdb.Valid() && this !in sdb.Repr
      requires saved != null ==> saved.Valid() && this !in saved.Repr && cdda !in saved.Repr
      modifies this`sdb, cdda, saved, if saved == null then {} else saved.Repr
      ensures sdb.Valid() && (saved != null ==> sdb == saved)
      ensures sdb.crc32 == if saved == null then old(sdb.crc32) else saved.crc32
      ensures var H0 := old(Start(saved, cdda.size));
        && IsRun(sdb.crc32, H0, run, 2) && Final(H0, run) == sdb.history
        && Reported(sdb.crc32, H0, run, 2, cdda.size, starts, callback) && starts[0] == 0
        && (run == [] <==> saved != null && AllSettled(sdb.crc32, H0, 2))
        && (run != [] ==> EndsEmpty(sdb.crc32, H0, run, 2))
        && (AllSettled(sdb.crc32, sdb.history, 2) <==>
              forall p | 0 <= p < |run| :: AllSettled(sdb.crc32, Found(H0, run, p), 2) || callback(starts[p]))
        && AllReadOn(sdb.crc32, H0, sdb.history, 2, |run|, false)
        && old(cdda.log) <= cdda.log && Records(cdda.source, cdda.log, |old(cdda.log)|, H0, sdb.history)
      ensures saved == null ==>
        cdda.size <= |sdb.history| && AllGrown(sdb.crc32, sdb.history, 2) && sdb.toc == cdda.toc
      ensures run != [] ==>
        && sdb.hw == cdda.hw
        && sdb.toc == if saved == null || old(saved.toc).tracks == [] then cdda.toc else old(saved.toc)
    {
      hide *;
      ghost var H0 := Start(saved, cdda.size);
      var minMC := 0;
      if saved != null {
        sdb := saved;
        var stat := sdb.GetStatistics();
        minMC := stat.minMC;
        TwoTells(sdb.crc32, H0, sdb.Tops());
      } else {
        sdb := new SectorDb(sdb.crc32, cdda.size, Some(cdda.toc));
        NewIsNeverRead(cdda.size);
      }
      var minimumCommonCrcCount := 2;
      if minMC < minimumCommonCrcCount {
        var forward := new SectorDbProgress(Forward, callback);
        run, starts := RefineUntilNothingRead(sdb, cdda, forward);
        OnlyAFirstReportEndsIt(sdb.crc32, H0, run, 2, cdda.size, starts, callback);
        RunOverOneDisc(sdb.crc32, H0, run, 2, cdda.size, starts, callback);
        if saved == null {
          ReadOnGrown(sdb.crc32, cdda.size, sdb.history, 2, |run|);
        }
      } else {
        run, starts := [], [0];
        NoPasses(sdb.crc32, H0, 2, cdda.size, callback, 0);
        NoPassNoRead(sdb.crc32, H0, 2, false);
        NothingRecorded(cdda.source, cdda.log, H0);
      }
    }

    /** The loop of Grab: its condition never becomes false, so only a pass that reads
        nothing ends it. */
    method RefineUntilNothingRead(db: SectorDb, cdda: AudioReader, forward: SectorDbProgress)
      returns (ghost run: seq<PassRecord>, ghost starts: seq<nat>)
      requires db.Valid() && this !in db.Repr && cdda !in db.Repr && forward !in db.Repr
      requires forward.kind.Forward? && forward.Forwards()
      modifies db, db.Repr, cdda, forward
      ensures db.Valid() && fresh(db.Repr - old(db.Repr))
      ensures IsRun(db.crc32, old(db.history), run, 2) && Final(old(db.history), run) == db.history
      ensures Reported(db.crc32, old(db.history), run, 2, cdda.size, starts, forward.proceed)
      ensures starts[0] == |old(forward.verdicts)|
      ensures EndsEmpty(db.crc32, old(db.history), run, 2)
      ensures db.toc == (if old(db.toc).tracks == [] then cdda.toc else old(db.toc)) && db.hw == cdda.hw
      ensures old(cdda.log) <= cdda.log
      ensures Records(cdda.source, cdda.log, |old(cdda.log)|, old(db.history), db.history)
    {
      hide *;
      ghost var H0, toc := db.history, if db.toc.tracks == [] then cdda.toc else db.toc;
      run, starts := [], [|forward.verdicts|];
      NoPasses(db.crc32, H0, 2, cdda.size, forward.proceed, starts[0]);
      NothingRecorded(cdda.source, cdda.log, H0);
      while true
        invariant db.Valid() && fresh(db.Repr - old(db.Repr))
        invariant this !in db.Repr && cdda !in db.Repr && forward !in db.Repr
        invariant forward.Forwards()
        invariant db.toc == old(db.toc) || db.toc == toc
        invariant IsRun(db.crc32, H0, run, 2) && Final(H0, run) == db.history
        invariant Reported(db.crc32, H0, run, 2, cdda.size, starts, forward.proceed)
        invariant FirstRead(db.crc32, H0, run, 2, |run|)
        invariant |starts| == |run| + 1 && starts[0] == |old(forward.verdicts)| && starts[|run|] == |forward.verdicts|
        invariant old(cdda.log) <= cdda.log
        invariant Records(cdda.source, cdda.log, |old(cdda.log)|, H0, db.history)
        decreases Remaining(Resized(db.history, cdda.size), 2)
      {
        ghost var H, told, earlier := db.history, forward.verdicts, cdda.log;
        var nRead, upto := db.Refine(cdda, 2, forward);
        PassProgress(db.crc32, H, cdda.size, db.history, 2, upto, nRead);
        NextPassRecorded(cdda.source, earlier, cdda.log, |old(cdda.log)|, H0, db.crc32, H, cdda.size, db.history, 2,
                         upto);
        RepliesForwarded(forward);
        ToldIsReported(told, forward.verdicts, nRead, upto < |db.history|, forward.proceed);
        ghost var next := PassRecord(cdda.size, upto, db.history);
        LoopStep(db.crc32, H0, run, 2, cdda.size, starts, forward.proceed, next, |forward.verdicts|);
        run, starts := run + [next], starts + [|forward.verdicts|];
        if nRead == 0 {
          EndsHere(db.crc32, H0, run, 2);
          break;
        }
        GoesOn(db.crc32, H0, run, 2);
      }
    }
  }

  lemma NoPasses(crc32: Crc32, H: History, min: int, size: nat, callback: nat -> bool, start: nat)
    ensures IsRun(crc32, H, [], min) && Final(H, []) == H
    ensures Reported(crc32, H, [], min, size, [start], callback)
    ensures FirstRead(crc32, H, [], min, 0)
  {
  }

  lemma RepliesForwarded(forward: SectorDbProgress)
    requires forward.kind.Forward? && forward.Forwards()
    ensures forall k | 0 <= k < |forward.verdicts| :: forward.verdicts[k] == forward.proceed(k)
  {
  }

  lemma EndsHere(crc32: Crc32, H: History, run: seq<PassRecord>, min: int)
    requires IsRun(crc32, H, run, min) && run != []
    requires FirstRead(crc32, H, run, min, |run| - 1) && ReadsIn(crc32, H, run, min, |run| - 1) == 0
    ensures EndsEmpty(crc32, H, run, min)
  {
    hide IsRun, ReadsIn;
  }

  lemma GoesOn(crc32: Crc32, H: History, run: seq<PassRecord>, min: int)
    requires IsRun(crc32, H, run, min) && run != []
    requires FirstRead(crc32, H, run, min, |run| - 1) && ReadsIn(crc32, H, run, min, |run| - 1) > 0
    ensures FirstRead(crc32, H, run, min, |run|)
  {
    hide IsRun, ReadsIn;
  }

  lemma ReadOnGrown(crc32: Crc32, n: nat, H: History, min: int, p: nat)
    requires AllReadOn(crc32, Resized([], n), H, min, p, false)
    ensures AllGrown(crc32, H, min)
  {
    NewIsNeverRead(n);
    forall i | 0 <= i < |H|
      ensures Grown(crc32, H[i], min)
    {
      assert ReadOn(crc32, ReadsOf(Resized([], n), i), H[i], min, p, false);
    }
  }

  lemma {:induction false} NeverReadTargets(crc32: Crc32, H: History, min: int, upto: nat)
    requires NeverRead(H) && upto <= |H| && 1 <= min
    ensures |Targets(crc32, H, min, upto)| == upto
  {
    if upto > 0 {
      NeverReadTargets(crc32, H, min, upto - 1);
    }
  }

  /** A refusal in the middle of a pass: on a new disc of at least 257 sectors the callback
      refuses call number 1 only, the one before read 256. The pass is cut short there, the
      loop goes on, and every sector gets settled. */
  lemma {:induction false} RefusalMidwayIsPassedOver(crc32: Crc32, run: seq<PassRecord>, size: nat,
                                                     starts: seq<nat>, callback: nat -> bool)
    requires 257 <= size && forall k: nat :: callback(k) <==> k != 1
    requires IsRun(crc32, Resized([], size), run, 2) && EndsEmpty(crc32, Resized([], size), run, 2)
    requires Reported(crc32, Resized([], size), run, 2, size, starts, callback) && starts[0] == 0
    ensures |run| > 1 && ReadsIn(crc32, Resized([], size), run, 2, 0) == run[0].upto == 256
    ensures AllSettled(crc32, Final(Resized([], size), run), 2)
  {
    hide *;
    var H := Resized([], size);
    LastPass(crc32, H, run, 2, size, starts, callback);
    FirstPassOfNew(crc32, run, size, starts, callback);
    forall p | 0 <= p < |run|
      ensures callback(starts[p])
    {
      StartsApart(crc32, H, run, 2, size, starts, callback, p);
    }
    OnlyAFirstReportEndsIt(crc32, H, run, 2, size, starts, callback);
  }

  /** The same seen from outside. */
  method GrabRefusedMidway(crc32: Crc32, cdda: AudioReader) returns (grabber: Grabber, ghost run: seq<PassRecord>)
    requires 257 <= cdda.size
    modifies cdda
    ensures grabber.sdb.crc32 == crc32 && AllSettled(crc32, grabber.sdb.history, 2)
    ensures IsRun(crc32, Resized([], cdda.size), run, 2) && Final(Resized([], cdda.size), run) == grabber.sdb.history
    ensures |run| > 1 && ReadsIn(crc32, Resized([], cdda.size), run, 2, 0) == 256
  {
    hide *;
    grabber := new Grabber(crc32);
    var callback: nat -> bool := k => k != 1;
    ghost var starts;
    run, starts := grabber.Grab(cdda, null, callback);
    RefusalMidwayIsPassedOver(crc32, run, cdda.size, starts, callback);
  }

  lemma CutBeforeRead256(callback: nat -> bool, end: nat, nrRead: nat, cancelled: bool)
    requires forall k: nat :: callback(k) <==> k != 1
    requires PassReported(callback, 0, end, nrRead, cancelled) && (cancelled || nrRead >= 257)
    ensures nrRead == 256
  {
    assert !callback(1);
  }

  lemma {:induction false} FirstPassOfNew(crc32: Crc32, run: seq<PassRecord>, size: nat, starts: seq<nat>,
                                          callback: nat -> bool)
    requires 257 <= size && forall k: nat :: callback(k) <==> k != 1
    requires IsRun(crc32, Resized([], size), run, 2) && run != []
    requires Reported(crc32, Resized([], size), run, 2, size, starts, callback) && starts[0] == 0
    ensures ReadsIn(crc32, Resized([], size), run, 2, 0) == run[0].upto == 256
  {
    var H := Resized([], size);
    FoundAt(crc32, H, run, 2, 0);
    FoundFirst(run, size);
    NewIsNeverRead(size);
    assert run[0].size == size;
    hide *;
    PassSizes(crc32, [], size, run[0].after, 2, run[0].upto);
    NeverReadTargets(crc32, H, 2, run[0].upto);
    CutBeforeRead256(callback, starts[1], run[0].upto, run[0].upto < |run[0].after|);
  }

  lemma FoundFirst(run: seq<PassRecord>, size: nat)
    requires run != [] && run[0].size == size
    ensures Found(Resized([], size), run, 0) == Resized([], size)
  {
  }

  /** Every pass that read something made at least two calls. */
  lemma {:induction false} StartsApart(crc32: Crc32, H: History, run: seq<PassRecord>, min: int, size: nat,
                                       starts: seq<nat>, callback: nat -> bool, p: nat)
    requires IsRun(crc32, H, run, min) && p < |run|
    requires Reported(crc32, H, run, min, size, starts, callback) && EndsEmpty(crc32, H, run, min)
    ensures starts[0] + 2 * p <= starts[p]
  {
    hide *;
    LastPass(crc32, H, run, min, size, starts, callback);
    if p > 0 {
      StartsApart(crc32, H, run, min, size, starts, callback, p - 1);
      ReadingNeedsConsent(crc32, H, run, min, size, starts, callback, p - 1);
    }
  }

  /** The statistics' minimum against a threshold. */
  lemma {:induction false} MinimumTells(crc32: Crc32, H: History, tops: seq<nat>, min: int)
    requires AreTops(crc32, H, tops) && min <= INT_MAX
    ensures LeastOf(tops, INT_MAX) >= min <==> AllSettled(crc32, H, min)
  {
    if LeastOf(tops, INT_MAX) < min {
      var i :| 0 <= i < |tops| && tops[i] == LeastOf(tops, INT_MAX);
      assert !Settled(crc32, H[i], min);
    } else {
      forall i | 0 <= i < |H|
        ensures Settled(crc32, H[i], min)
      {
        assert tops[i] >= min;
      }
    }
  }

  lemma TwoTells(crc32: Crc32, H: History, tops: seq<nat>)
    requires AreTops(crc32, H, tops)
    ensures LeastOf(tops, INT_MAX) >= 2 <==> AllSettled(crc32, H, 2)
  {
    MinimumTells(crc32, H, tops, 2);
  }

  lemma NewIsNeverRead(n: nat)
    ensures NeverRead(Resized([], n))
  {
  }
}
