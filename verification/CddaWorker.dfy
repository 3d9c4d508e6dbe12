/** The worker behind the window: grabs a disc into its database and encodes the database.
    What the slots do that the event loop runs inside these operations is in WorkerMachine;
    here they come down to whether a Cancel was among them. */
module Worker {
  import opened Audio
  import opened Passes
  import opened Drive
  import opened SectorDatabase
  import opened Options
  import opened Grabbing
  import opened Encoding

  class CddaWorker {
    var mtx: bool
    var audioDisc: bool
    var sdb: SectorDb
    const cdda: AudioReader
    const progress: SectorDbProgress  // the worker's own progress interface; holds its cancelled flag

    constructor (cdda: AudioReader, progress: SectorDbProgress, crc32: Crc32)
      requires progress.kind.Worker?
      ensures Valid() && !mtx && sdb.history == [] && sdb.crc32 == crc32
    {
      this.cdda, this.progress, mtx, audioDisc := cdda, progress, false, false;
      sdb := new SectorDb(crc32, 0, None);
    }

    ghost predicate Valid()
      reads this, sdb, sdb.Repr
      ensures Valid() <==> progress.kind.Worker? && sdb.Valid() && Apart(sdb)
    {
      progress.kind.Worker? && sdb.Valid() && Apart(sdb)
    }

    ghost predicate Apart(db: SectorDb)
      reads db
      ensures Apart(db) <==> this !in db.Repr && cdda !in db.Repr && progress !in db.Repr
    {
      this !in db.Repr && cdda !in db.Repr && progress !in db.Repr
    }

    /** Refines up to four times, from the saved database or from a new one. */
    method Grab(saved: SectorDb?) returns (busy: bool, ghost run: seq<PassRecord>)
      requires Valid()
      requires saved != null ==> saved.Valid() && Apart(saved)
      modifies this`mtx, this`sdb, cdda, progress, saved, if saved == null then {} else saved.Repr
      ensures mtx == old(mtx) && busy == old(mtx)
      ensures busy ==> progress.cancelled == old(progress.cancelled) && progress.calls == old(progress.calls)
      ensures !busy ==>
        && old(progress.calls) <= progress.calls
        && (progress.cancelled <==> Refused(progress.proceed, old(progress.calls), progress.calls))
      ensures busy || !audioDisc ==> sdb == old(sdb) && cdda.log == old(cdda.log)
      ensures !busy && audioDisc ==>
        && sdb.Valid() && Apart(sdb) && (saved != null ==> sdb == saved)
        && UpToFourPasses(sdb.crc32, old(Start(saved, cdda.size)), run, sdb.history, cdda.size, progress.cancelled)
        && AllReadOn(sdb.crc32, old(Start(saved, cdda.size)), sdb.history, 2, 4, !progress.cancelled)
        && old(cdda.log) <= cdda.log
        && Records(cdda.source, cdda.log, |old(cdda.log)|, old(Start(saved, cdda.size)), sdb.history)
      ensures !busy && audioDisc && saved == null ==>
        && |sdb.history| == cdda.size
        && ((forall k | old(progress.calls) <= k < progress.calls :: progress.proceed(k)) ==> AllGraded(sdb))
      ensures !busy && audioDisc ==>
        && sdb.hw == cdda.hw
        && sdb.toc == if saved == null || old(saved.toc).tracks == [] then cdda.toc else old(saved.toc)
    {
      hide *;
      busy, run := mtx, [];
      if busy {
        return;
      }
      mtx := true;
      progress.Clear();
      progress.HeardNothing();
      assert progress.Heard(old(progress.calls), false);
      if audioDisc {
        if saved != null {
          sdb := saved;
        } else {
          sdb := new SectorDb(sdb.crc32, cdda.size, Some(cdda.toc));
        }
        ghost var H0 := sdb.history;
        assert progress.Heard(old(progress.calls), false);
        run := RefineFourTimes(sdb);
        if saved == null {
          NewIsNeverRead(cdda.size);
          if !progress.cancelled {
            ReadOnFromNothing(sdb.crc32, H0, sdb.history, 2, 4);
            AfterFourPassesGraded(sdb, 4);
          }
        }
      }
      assert progress.Heard(old(progress.calls), false);
      NoneRefused(progress.proceed, old(progress.calls), progress.calls);
      mtx := false;
    }

    method RefineFourTimes(db: SectorDb) returns (ghost run: seq<PassRecord>)
      requires db.Valid() && Apart(db) && progress.kind.Worker? && mtx
      modifies db, db.Repr, cdda, progress
      ensures db.Valid() && Apart(db)
      ensures forall b: nat, c: bool :: old(progress.Heard(b, c)) ==> progress.Heard(b, c)
      ensures db.toc == (if old(db.toc).tracks == [] then cdda.toc else old(db.toc)) && db.hw == cdda.hw
      ensures UpToFourPasses(db.crc32, old(db.history), run, db.history, cdda.size, progress.cancelled)
      ensures AllReadOn(db.crc32, old(db.history), db.history, 2, 4, !progress.cancelled)
      ensures old(cdda.log) <= cdda.log
      ensures Records(cdda.source, cdda.log, |old(cdda.log)|, old(db.history), db.history)
    {
      hide *;
      run := [];
      ghost var H0, toc := db.history, if db.toc.tracks == [] then cdda.toc else db.toc;
      NoPassYet(db.crc32, H0, cdda.size, progress.cancelled);
      NothingRecorded(cdda.source, cdda.log, H0);
      var minimumCommonCrcCount := 2;
      var retry := 0;
      while retry < minimumCommonCrcCount + 2
        invariant retry <= 4 && |run| == retry
        invariant db.Valid() && Apart(db) && fresh(db.Repr - old(db.Repr))
        invariant Refined(db.crc32, H0, run, db.history, cdda.size, progress.cancelled, retry)
        invariant retry > 0 ==> Refined(db.crc32, H0, run, db.history, cdda.size, progress.cancelled, retry - 1)
        invariant forall b: nat, c: bool :: old(progress.Heard(b, c)) ==> progress.Heard(b, c)
        invariant db.toc == toc || (retry == 0 && db.toc == old(db.toc))
        invariant retry > 0 ==> db.hw == cdda.hw
        invariant old(cdda.log) <= cdda.log
        invariant Records(cdda.source, cdda.log, |old(cdda.log)|, H0, db.history)
      {
        ghost var H, earlier, stopped := db.history, cdda.log, progress.cancelled;
        var nRead, upto := db.Refine(cdda, minimumCommonCrcCount, progress);
        NextPassRecorded(cdda.source, earlier, cdda.log, |old(cdda.log)|, H0, db.crc32, H, cdda.size, db.history, 2,
                         upto);
        ghost var next := PassRecord(cdda.size, upto, db.history);
        RefinedAgain(db.crc32, H0, run, H, cdda.size, stopped, progress.cancelled, next);
        run := run + [next];
        if nRead == 0 {
          EndsAfter(db.crc32, H0, run, db.history, cdda.size, progress.cancelled);
          return;
        }
        ReadSomething(db.crc32, H0, run, db.history, cdda.size, progress.cancelled);
        retry := retry + 1;
      }
      EndsAfter(db.crc32, H0, run, db.history, cdda.size, progress.cancelled);
    }

    /** Encodes the database in chunks of 64 frames. No encoder is returned when the worker is
        busy or there is no database to load. */
    method Encode(loaded: SectorDb?) returns (encoder: FlacStreamEncoder?)
      requires Valid() && (loaded != null ==> loaded.Valid() && Apart(loaded))
      modifies this`mtx, this`sdb, progress
      ensures Valid() && mtx == old(mtx)
      ensures encoder == null <==> mtx || (old(sdb.history) == [] && loaded == null)
      ensures encoder != null ==>
        && sdb == (if old(sdb.history) == [] then loaded else old(sdb))
        && (!progress.cancelled ==> Encoded(sdb.Frames(), encoder.samples))
        && (Encoded(sdb.Frames(), encoder.samples) || CutShort(sdb.Frames(), encoder.samples))
        && EncodedAsTold(sdb.Frames(), progress.proceed, old(progress.calls), encoder.samples, progress.calls)
      ensures !old(mtx) ==>
        && old(progress.calls) <= progress.calls
        && (progress.cancelled <==> Refused(progress.proceed, old(progress.calls), progress.calls))
      ensures old(mtx) ==> progress.cancelled == old(progress.cancelled) && progress.calls == old(progress.calls)
    {
      hide *;
      encoder := null;
      if mtx {
        return;
      }
      mtx := true;
      progress.Clear();
      progress.HeardNothing();
      assert progress.Heard(old(progress.calls), false);
      if |sdb.sectors| > 0 || loaded != null {
        if |sdb.sectors| == 0 {
          sdb := loaded;
        }
        encoder := new FlacStreamEncoder();
        EncodeChunks(sdb, encoder);
      }
      assert progress.Heard(old(progress.calls), false);
      mtx := false;
    }

    method EncodeChunks(db: SectorDb, encoder: FlacStreamEncoder)
      requires db.Valid() && Apart(db) && encoder !in db.Repr
      requires progress.kind.Worker? && !progress.cancelled && mtx && encoder.samples == []
      modifies encoder, progress
      ensures !progress.cancelled ==> Encoded(db.Frames(), encoder.samples)
      ensures Encoded(db.Frames(), encoder.samples) || CutShort(db.Frames(), encoder.samples)
      ensures EncodedAsTold(db.Frames(), progress.proceed, old(progress.calls), encoder.samples, progress.calls)
      ensures forall b: nat, c: bool :: old(progress.Heard(b, c)) ==> progress.Heard(b, c)
    {
      hide *;
      StreamBegins(db.Frames());
      var buf := new Int16[64 * 1176];
      var lbasize := |db.sectors|;
      var lba := 0;
      ghost var start, e := progress.calls, 0;
      UnderwayBegins(lbasize, progress.proceed, start);
      while lba < lbasize - 64 && !progress.cancelled
        invariant 0 <= lba && lba % 64 == 0 && (lba < lbasize || lba == 0)
        invariant encoder.samples == Flatten(db.Frames()[..lba])
        invariant lba > 0 ==> buf[..] == Flatten(db.Frames()[lba - 64..lba])
        invariant progress.calls == start + e
        invariant Underway(lbasize, progress.proceed, start, lba, e, progress.cancelled)
        invariant forall b: nat, c: bool :: old(progress.Heard(b, c)) ==> progress.Heard(b, c)
      {
        UnderwayStep(lbasize, progress.proceed, start, lba, e);
        UnderwayCall(progress.proceed, start, e);
        ChunkStep(db.Frames(), lba, buf[..]);
        Process(db, encoder, buf, lba, 64);
        e := if lba % 1024 == 0 then e + 1 else e;
        lba := lba + 64;
      }
      if !progress.cancelled {
        RunOut(db.Frames(), lba, buf[..]);
        Process(db, encoder, buf, lba, lbasize - lba);
        CompleteAsTold(db.Frames(), progress.proceed, start, lba, e, encoder.samples);
      } else {
        StillCutShort(db.Frames(), lba);
        CutAsTold(db.Frames(), progress.proceed, start, lba, e);
      }
    }

    /** Reads a chunk into the buffer, hands the whole buffer to the encoder, and runs the
        event loop every 1024 sectors. */
    method Process(db: SectorDb, encoder: FlacStreamEncoder, buf: array<Int16>, lba: nat, nrFrames: nat)
      requires db.Valid() && Apart(db) && buf !in db.Repr && encoder !in db.Repr
      requires progress.kind.Worker?
      requires nrFrames <= 64 && lba + nrFrames <= |db.history| && buf.Length == Samples(64)
      modifies buf, encoder, progress
      ensures buf[..] == Spliced(Flatten(Taken(db.Frames(), lba, nrFrames)), old(buf[..]))
      ensures encoder.samples == old(encoder.samples) + buf[..]
      ensures progress.calls == old(progress.calls) + if lba % 1024 == 0 then 1 else 0
      ensures progress.cancelled <==>
        old(progress.cancelled) || (lba % 1024 == 0 && !progress.proceed(old(progress.calls)))
      ensures forall b: nat, c: bool :: old(progress.Heard(b, c)) ==> progress.Heard(b, c)
    {
      var ok := db.ReadAudio(lba, buf, nrFrames);
      encoder.Append(buf);
      if lba % 1024 == 0 {
        progress.ProcessEvents();
      }
    }
  }

  lemma NoneRefused(proceed: nat -> bool, start: nat, end: nat)
    ensures !Refused(proceed, start, end) <==> forall k | start <= k < end :: proceed(k)
  {
  }

  /** Complete passes unless cancelled, over a disc of that size, of which the first n read
      something. */
  ghost predicate Refined(crc32: Crc32, H0: History, run: seq<PassRecord>, H: History, size: nat, cancelled: bool,
                          n: nat) {
    && IsRun(crc32, H0, run, 2) && Final(H0, run) == H
    && (forall p | 0 <= p < |run| :: run[p].size == size && (!cancelled ==> run[p].upto == |run[p].after|))
    && n <= |run| && FirstRead(crc32, H0, run, 2, n)
  }

  /** The passes of one Grab: a fifth is never made, and fewer than four only when the last
      read nothing. */
  ghost predicate UpToFourPasses(crc32: Crc32, H0: History, run: seq<PassRecord>, H: History, size: nat,
                                 cancelled: bool)
    ensures UpToFourPasses(crc32, H0, run, H, size, cancelled) ==> |H| == if |H0| < size then size else |H0|
  {
    && 1 <= |run| <= 4
    && Refined(crc32, H0, run, H, size, cancelled, |run| - 1)
    && (|run| < 4 ==> EndsEmpty(crc32, H0, run, 2))
    && |H| == if |H0| < size then size else |H0|
  }

  lemma NoPassYet(crc32: Crc32, H: History, size: nat, cancelled: bool)
    ensures Refined(crc32, H, [], H, size, cancelled, 0)
  {
  }

  lemma RefinedAgain(crc32: Crc32, H0: History, run: seq<PassRecord>, H: History, size: nat, before: bool, after: bool,
                     next: PassRecord)
    requires Refined(crc32, H0, run, H, size, before, |run|) && (before ==> after)
    requires next.size == size && (!after ==> next.upto == |next.after|)
    requires PassTo(crc32, Resized(H, size), next.after, 2, next.upto)
    ensures Refined(crc32, H0, run + [next], next.after, size, after, |run|)
    ensures ReadsIn(crc32, H0, run + [next], 2, |run|) == |Targets(crc32, Resized(H, size), 2, next.upto)|
  {
    hide Resized, PassTo, Targets, IsRun, ReadsIn, Before;
    RunGrows(crc32, H0, run, 2, next);
  }

  lemma ReadSomething(crc32: Crc32, H0: History, run: seq<PassRecord>, H: History, size: nat, cancelled: bool)
    requires run != [] && Refined(crc32, H0, run, H, size, cancelled, |run| - 1)
    requires ReadsIn(crc32, H0, run, 2, |run| - 1) > 0
    ensures Refined(crc32, H0, run, H, size, cancelled, |run|)
  {
    hide IsRun, ReadsIn, Before;
  }

  /** Fewer than four passes were enough, if they were not cut short. */
  lemma {:induction false} EndsAfter(crc32: Crc32, H0: History, run: seq<PassRecord>, H: History, size: nat,
                                     cancelled: bool)
    requires 1 <= |run| <= 4 && Refined(crc32, H0, run, H, size, cancelled, |run| - 1)
    requires |run| < 4 ==> ReadsIn(crc32, H0, run, 2, |run| - 1) == 0
    ensures UpToFourPasses(crc32, H0, run, H, size, cancelled)
    ensures AllReadOn(crc32, H0, H, 2, 4, !cancelled)
  {
    hide IsRun, ReadsIn, Before, PassTo, Targets, Resized, Settled;
    var last := |run| - 1;
    RunsReadOn(crc32, H0, run, 2, size, |run|, !cancelled);
    if |run| < 4 {
      FoundAt(crc32, H0, run, 2, last);
      LastReadsNothing(crc32, Found(H0, run, last), H, 2, run[last].upto);
    }
  }
}
