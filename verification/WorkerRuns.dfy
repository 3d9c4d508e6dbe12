/** What the slots of the step machine do when nothing runs inside their event loops: Grab makes
    the passes of the worker's method, Encode goes through the disc in chunks of 64 sectors, and
    Poll notes the status of the disc. */
module WorkerRuns {
  import opened Votes
  import opened SectorChecksums
  import opened Audio
  import opened Passes
  import opened SectorDatabase
  import opened Grabbing
  import opened Worker
  import opened WorkerMachine

  /** The state after n steps of the innermost slots, with no new slot delivered. */
  ghost function Alone(s: State, answers: nat -> Answer, n: nat): State {
    if n == 0 then s else Next(Alone(s, answers, n - 1), Advance(answers(n - 1)))
  }

  lemma AloneStep(s: State, answers: nat -> Answer, n: nat)
    requires Alone(s, answers, n).stack != []
    ensures Alone(s, answers, n + 1) == Run(Alone(s, answers, n), answers(n))
  {
    hide Run;
  }

  // -- Encode --

  /** The first sectors of c chunks. */
  function ChunkStarts(c: nat): (starts: seq<nat>)
    ensures |starts| == c
  {
    seq(c, i => 64 * i)
  }

  /** The slot on top of outer has handed over c chunks of the disc and is at pc. */
  ghost predicate Encodes(u: State, outer: seq<Frame>, db: seq<seq<Checksums>>, before: seq<nat>, c: nat,
                          pc: EncodePc) {
    && u.stack == outer + [Encode(true, pc)] && u.mtx && !u.cancelled
    && u.db == db && u.chunks == before + ChunkStarts(c)
  }

  lemma ChunkHanded(u: State, a: Answer, outer: seq<Frame>, db: seq<seq<Checksums>>, before: seq<nat>, c: nat)
    requires Encodes(u, outer, db, before, c, Chunk(64 * c))
    ensures var more, reports := 64 * c + 64 < |db|, (64 * c) % 1024 == 0;
      Encodes(Run(u, a), outer, db, before, c + 1,
               if more then (if reports then ChunkReport(64 * c + 64) else Chunk(64 * c + 64))
               else (if reports then RunOutReport else EncodeLeave))
  {
    assert ChunkStarts(c + 1) == ChunkStarts(c) + [64 * c];
  }

  lemma EncodeMoves(u: State, a: Answer, outer: seq<Frame>, db: seq<seq<Checksums>>, before: seq<nat>, c: nat,
                    pc: EncodePc)
    requires Encodes(u, outer, db, before, c, pc)
    ensures pc.ChunkReport? ==> Encodes(Run(u, a), outer, db, before, c, Chunk(pc.next))
    ensures pc.RunOutReport? ==> Encodes(Run(u, a), outer, db, before, c, EncodeLeave)
    ensures pc.EncodeLeave? ==>
      && Run(u, a).stack == outer && !Run(u, a).mtx && Run(u, a).db == db
      && Run(u, a).chunks == before + ChunkStarts(c)
  {
  }

  /** How many chunks n sectors take; an empty disc takes one. */
  function ChunksOf(n: nat): nat {
    if n == 0 then 1 else (n + 63) / 64
  }

  lemma LastChunk(n: nat, c: nat)
    requires 64 * c < n || c == 0
    ensures 64 * c + 64 < n ==> 64 * (c + 1) < n
    ensures !(64 * c + 64 < n) ==> c + 1 == ChunksOf(n)
  {
  }

  lemma {:induction false} ChunksFrom(s: State, answers: nat -> Answer, k: nat, outer: seq<Frame>,
                                      db: seq<seq<Checksums>>,
                                      before: seq<nat>, c: nat) returns (n: nat)
    requires 64 * c < |db| || c == 0
    requires Encodes(Alone(s, answers, k), outer, db, before, c, Chunk(64 * c))
    ensures k < n && Encodes(Alone(s, answers, n), outer, db, before, ChunksOf(|db|), EncodeLeave)
    decreases |db| - 64 * c
  {
    hide *;
    Top(Alone(s, answers, k), outer, db, before, c, Chunk(64 * c));
    AloneStep(s, answers, k);
    ChunkHanded(Alone(s, answers, k), answers(k), outer, db, before, c);
    LastChunk(|db|, c);
    n := k + 1;
    var more, reports := 64 * c + 64 < |db|, (64 * c) % 1024 == 0;
    if reports {
      var pc := if more then ChunkReport(64 * c + 64) else RunOutReport;
      Top(Alone(s, answers, n), outer, db, before, c + 1, pc);
      AloneStep(s, answers, n);
      EncodeMoves(Alone(s, answers, n), answers(n), outer, db, before, c + 1, pc);
      n := n + 1;
    }
    if more {
      n := ChunksFrom(s, answers, n, outer, db, before, c + 1);
    }
  }

  lemma Top(u: State, outer: seq<Frame>, db: seq<seq<Checksums>>, before: seq<nat>, c: nat, pc: EncodePc)
    requires Encodes(u, outer, db, before, c, pc)
    ensures u.stack != []
  {
  }

  /** From entering to the first chunk. */
  lemma EncodeStarts(u: State, a: Answer)
    requires u.stack != [] && !u.mtx && u.stack[|u.stack| - 1] == Encode(false, EncodeEnter)
    ensures var v := Run(u, a);
      v.stack == Outer(u) + [Encode(true, EncodeLocked)] && v.mtx && v.db == u.db && v.chunks == u.chunks
  {
  }

  lemma EncodeLoads(u: State, a: Answer, outer: seq<Frame>)
    requires u.stack == outer + [Encode(true, EncodeLocked)] && u.mtx
    ensures var db := if u.db != [] then u.db else a.file;
      Encodes(Run(u, a), outer, if u.db == [] && a.noFile then [] else db, u.chunks, 0,
              if u.db == [] && a.noFile then EncodeLeave else Chunk(0))
  {
    assert ChunkStarts(0) == [];
  }

  /** An undisturbed Encode that finds the lock free hands over the chunks from sector 0, 64,
      128 and so on, up to the last sector, of the database or else of the file, and frees the
      lock. It does not matter whether an earlier operation was cancelled. */
  lemma {:induction false} UndisturbedEncode(s: State, answers: nat -> Answer, m: nat) returns (n: nat)
    requires Alone(s, answers, m).stack != [] && !Alone(s, answers, m).mtx
    requires Alone(s, answers, m).stack[|Alone(s, answers, m).stack| - 1] == Encode(false, EncodeEnter)
    ensures var u, t := Alone(s, answers, m), Alone(s, answers, n);
      var file := answers(m + 1);
      && m < n && t.stack == Outer(u) && !t.mtx
      && (u.db == [] && file.noFile ==> t.chunks == u.chunks)
      && (u.db != [] || !file.noFile ==>
            && t.db == (if u.db != [] then u.db else file.file)
            && t.chunks == u.chunks + ChunkStarts(ChunksOf(|t.db|)))
  {
    hide *;
    var u, outer := Alone(s, answers, m), Outer(Alone(s, answers, m));
    AloneStep(s, answers, m);
    EncodeStarts(u, answers(m));
    var v, file := Alone(s, answers, m + 1), answers(m + 1);
    AloneStep(s, answers, m + 1);
    EncodeLoads(v, file, outer);
    n := m + 2;
    var db, count := if u.db != [] then u.db else file.file, 0;
    if u.db == [] && file.noFile {
      db := [];
    } else {
      n := ChunksFrom(s, answers, n, outer, db, u.chunks, 0);
      count := ChunksOf(|db|);
    }
    Top(Alone(s, answers, n), outer, db, u.chunks, count, EncodeLeave);
    AloneStep(s, answers, n);
    EncodeMoves(Alone(s, answers, n), answers(n), outer, db, u.chunks, count, EncodeLeave);
    n := n + 1;
  }

  // -- Poll --

  lemma PollMoves(u: State, a: Answer)
    requires u.stack != [] && u.stack[|u.stack| - 1].Poll?
    ensures var pc, v := u.stack[|u.stack| - 1].ppc, Run(u, a);
      && (pc.PollEnter? && a.audio == u.audioDisc ==> v == u.(stack := Outer(u)))
      && (pc.PollEnter? && a.audio != u.audioDisc && !a.audio ==>
            v == u.(stack := Outer(u) + [Poll(PollRefreshed(false))]))
      && (pc.PollEnter? && a.audio != u.audioDisc && a.audio ==>
            v == u.(stack := Outer(u) + [Poll(PollRefreshed(true)), RefreshToc(false, RefreshEnter)]))
      && (pc.PollRefreshed? ==> v == u.(stack := Outer(u), audioDisc := pc.audio))
  {
  }

  lemma RefreshMoves(u: State, a: Answer, outer: seq<Frame>, owns: bool, pc: RefreshPc)
    requires u.stack == outer + [RefreshToc(owns, pc)]
    ensures var v := Run(u, a);
      && (pc.RefreshEnter? ==>
            v == u.(stack := outer + [RefreshToc(!u.mtx, if u.mtx then RefreshLeave else RefreshLocked)],
                    mtx := true, epoch := if u.mtx then u.epoch else u.epoch + 1))
      && (pc.RefreshLocked? ==> v == u.(stack := outer + [RefreshToc(owns, RefreshLeave)], audioDisc := a.audio))
      && (pc.RefreshLeave? ==> v == u.(stack := outer, mtx := u.mtx && !owns))
  {
    assert Outer(u) == outer;
  }

  /** RefreshToc leaves the lock as it was, and notes the status of the disc if it was free. */
  lemma RefreshRuns(s: State, answers: nat -> Answer, m: nat, outer: seq<Frame>) returns (n: nat)
    requires Alone(s, answers, m).stack == outer + [RefreshToc(false, RefreshEnter)]
    ensures var u, t := Alone(s, answers, m), Alone(s, answers, n);
      && m < n && t == u.(stack := outer, audioDisc := t.audioDisc, epoch := t.epoch)
      && t.audioDisc == if u.mtx then u.audioDisc else answers(m + 1).audio
  {
    hide *;
    var u := Alone(s, answers, m);
    AloneStep(s, answers, m);
    RefreshMoves(u, answers(m), outer, false, RefreshEnter);
    n := m + 1;
    if !u.mtx {
      AloneStep(s, answers, n);
      RefreshMoves(Alone(s, answers, n), answers(n), outer, true, RefreshLocked);
      n := n + 1;
    }
    AloneStep(s, answers, n);
    RefreshMoves(Alone(s, answers, n), answers(n), outer, !u.mtx, RefreshLeave);
    n := n + 1;
  }

  /** A Poll notes the status it read, having refreshed the table of contents first if a disc
      has come, and changes nothing else. */
  lemma UndisturbedPoll(s: State, answers: nat -> Answer, m: nat) returns (n: nat)
    requires Alone(s, answers, m).stack != []
    requires Alone(s, answers, m).stack[|Alone(s, answers, m).stack| - 1] == Poll(PollEnter)
    ensures var u, t := Alone(s, answers, m), Alone(s, answers, n);
      && m < n && t.audioDisc == answers(m).audio
      && t == u.(stack := Outer(u), audioDisc := t.audioDisc, epoch := t.epoch)
  {
    hide *;
    var u, a := Alone(s, answers, m), answers(m);
    var outer := Outer(u);
    AloneStep(s, answers, m);
    PollMoves(u, a);
    n := m + 1;
    if a.audio != u.audioDisc {
      var pc := PollRefreshed(a.audio);
      if a.audio {
        var refresh := RefreshToc(false, RefreshEnter);
        assert outer + [Poll(pc), refresh] == (outer + [Poll(pc)]) + [refresh];
        n := RefreshRuns(s, answers, n, outer + [Poll(pc)]);
      }
      AloneStep(s, answers, n);
      PollMoves(Alone(s, answers, n), answers(n));
      OuterOf(Alone(s, answers, n), outer, Poll(pc));
      n := n + 1;
    }
  }

  lemma OuterOf(u: State, outer: seq<Frame>, f: Frame)
    requires u.stack == outer + [f]
    ensures Outer(u) == outer
  {
  }

  // -- Grab --

  /** The database of the machine keeps the checksums of these reads. */
  ghost predicate Abstracts(crc32: Crc32, H: History, db: seq<seq<Checksums>>) {
    |H| == |db| && forall i | 0 <= i < |H| :: db[i] == Sums(crc32, H[i])
  }

  /** Each answer's checksum is that of a frame, and a pass finds a disc of that size. */
  ghost predicate Plays(s: State, answers: nat -> Answer, crc32: Crc32, frames: nat -> AudioFrame, size: nat) {
    forall k: nat ::
      && answers(k).sum == Sum(crc32, frames(k))
      && (AtPassStart(Alone(s, answers, k)) ==>
            |Alone(s, answers, k).db| + answers(k).growth
              == if |Alone(s, answers, k).db| < size then size else |Alone(s, answers, k).db|)
  }

  predicate AtPassStart(u: State) {
    u.stack != [] && u.stack[|u.stack| - 1].Grab? && u.stack[|u.stack| - 1].gpc.PassStart?
  }

  /** The slot on top of outer grabs, has reads H in the database, and is at pc. */
  ghost predicate Grabs(u: State, outer: seq<Frame>, crc32: Crc32, H: History, log: seq<nat>, chunks: seq<nat>,
                        pc: GrabPc) {
    && u.stack == outer + [Grab(true, pc)] && u.mtx && !u.cancelled
    && Abstracts(crc32, H, u.db) && u.sectorsRead == log && u.chunks == chunks
  }

  lemma GrabsTop(u: State, outer: seq<Frame>, crc32: Crc32, H: History, log: seq<nat>, chunks: seq<nat>, pc: GrabPc)
    requires Grabs(u, outer, crc32, H, log, chunks, pc)
    ensures u.stack != []
  {
  }

  /** A settled sector is passed over. */
  lemma Skips(u: State, a: Answer, outer: seq<Frame>, crc32: Crc32, H: History, log: seq<nat>, chunks: seq<nat>,
              retry: nat, lba: nat, nrRead: nat)
    requires Grabs(u, outer, crc32, H, log, chunks, Scan(retry, lba, nrRead))
    requires lba < |H| && Settled(crc32, H[lba], 2)
    ensures Grabs(Run(u, a), outer, crc32, H, log, chunks, Scan(retry, lba + 1, nrRead))
  {
    hide TopCount, Sums;
  }

  /** An unsettled one is read, after a report if that is due. */
  lemma Chooses(u: State, a: Answer, outer: seq<Frame>, crc32: Crc32, H: History, log: seq<nat>, chunks: seq<nat>,
                retry: nat, lba: nat, nrRead: nat)
    requires Grabs(u, outer, crc32, H, log, chunks, Scan(retry, lba, nrRead))
    requires lba < |H| && !Settled(crc32, H[lba], 2)
    ensures Grabs(Run(u, a), outer, crc32, H, log, chunks,
                  if nrRead % 256 == 0 then Report(retry, lba, nrRead) else Read(retry, lba, nrRead))
  {
    hide TopCount, Sums;
  }

  lemma ReportsOn(u: State, a: Answer, outer: seq<Frame>, crc32: Crc32, H: History, log: seq<nat>, chunks: seq<nat>,
                retry: nat, lba: nat, nrRead: nat)
    requires Grabs(u, outer, crc32, H, log, chunks, Report(retry, lba, nrRead))
    ensures Grabs(Run(u, a), outer, crc32, H, log, chunks, Read(retry, lba, nrRead))
  {
    hide TopCount, Sums;
  }

  lemma Reads(u: State, a: Answer, outer: seq<Frame>, crc32: Crc32, H: History, log: seq<nat>, chunks: seq<nat>,
              retry: nat, lba: nat, nrRead: nat, frame: AudioFrame)
    requires Grabs(u, outer, crc32, H, log, chunks, Read(retry, lba, nrRead))
    requires lba < |H| && a.sum == Sum(crc32, frame)
    ensures Grabs(Run(u, a), outer, crc32, H[lba := H[lba] + [frame]], log + [lba], chunks,
                  Scan(retry, lba + 1, nrRead + 1))
  {
    SumsAppend(crc32, H[lba], frame);
    hide TopCount, Sums, Sum;
  }

  lemma PassMoves(u: State, a: Answer, outer: seq<Frame>, crc32: Crc32, H: History, log: seq<nat>, chunks: seq<nat>,
                  pc: GrabPc)
    requires Grabs(u, outer, crc32, H, log, chunks, pc)
    ensures pc.Scan? && pc.lba == |H| ==>
      Grabs(Run(u, a), outer, crc32, H, log, chunks, FinalReport(pc.retry, pc.nrRead))
    ensures pc.FinalReport? ==> Grabs(Run(u, a), outer, crc32, H, log, chunks, PassEnd(pc.retry, pc.nrRead))
    ensures pc.PassEnd? ==> Grabs(Run(u, a), outer, crc32, H, log, chunks,
      if pc.nrRead == 0 || pc.retry + 1 >= 4 then GrabLeave else PassStart(pc.retry + 1))
    ensures pc.GrabLeave? ==>
      && Run(u, a).stack == outer && !Run(u, a).mtx && !Run(u, a).cancelled && Abstracts(crc32, H, Run(u, a).db)
      && Run(u, a).sectorsRead == log && Run(u, a).chunks == chunks
  {
    hide TopCount, Sums, Abstracts;
    assert Abstracts(crc32, H, u.db) ==> |H| == |u.db| by {
      AbstractsSize(crc32, H, u.db);
    }
  }

  lemma AbstractsSize(crc32: Crc32, H: History, db: seq<seq<Checksums>>)
    ensures Abstracts(crc32, H, db) ==> |H| == |db|
  {
  }

  lemma PassStarts(u: State, a: Answer, outer: seq<Frame>, crc32: Crc32, H: History, log: seq<nat>, chunks: seq<nat>,
                   retry: nat, size: nat)
    requires Grabs(u, outer, crc32, H, log, chunks, PassStart(retry))
    requires |u.db| + a.growth == if |u.db| < size then size else |u.db|
    ensures Grabs(Run(u, a), outer, crc32, Resized(H, size), log, chunks, Scan(retry, 0, 0))
  {
    hide TopCount;
    var R, db := Resized(H, size), u.db + seq(a.growth, _ => []);
    forall i | 0 <= i < |R|
      ensures db[i] == Sums(crc32, R[i])
    {
      ReadsOfResized(H, size, i);
    }
  }

  /** What is known in the middle of a pass: every unsettled sector below lba was read once. */
  ghost predicate Scans(u: State, outer: seq<Frame>, crc32: Crc32, R: History, H: History, log: seq<nat>,
                        chunks: seq<nat>, retry: nat, lba: nat) {
    && lba <= |R| && PassTo(crc32, R, H, 2, lba)
    && Grabs(u, outer, crc32, H, log + Targets(crc32, R, 2, lba), chunks,
             Scan(retry, lba, |Targets(crc32, R, 2, lba)|))
  }

  /** One sector of the scan. */
  lemma ScanOn(s: State, answers: nat -> Answer, k: nat, crc32: Crc32, frames: nat -> AudioFrame, size: nat,
               outer: seq<Frame>, R: History, H: History, log: seq<nat>, chunks: seq<nat>, retry: nat, lba: nat)
    returns (n: nat, H': History)
    requires Plays(s, answers, crc32, frames, size) && lba < |R|
    requires Scans(Alone(s, answers, k), outer, crc32, R, H, log, chunks, retry, lba)
    ensures k < n && Scans(Alone(s, answers, n), outer, crc32, R, H', log, chunks, retry, lba + 1)
  {
    hide *;
    var ts := Targets(crc32, R, 2, lba);
    var now := log + ts;
    ScansIs(Alone(s, answers, k), outer, crc32, R, H, log, chunks, retry, lba);
    GrabsTop(Alone(s, answers, k), outer, crc32, H, now, chunks, Scan(retry, lba, |ts|));
    AloneStep(s, answers, k);
    n, H' := k + 1, H;
    if Settled(crc32, H[lba], 2) {
      Skips(Alone(s, answers, k), answers(k), outer, crc32, H, now, chunks, retry, lba, |ts|);
      SkipStep(crc32, R, H, 2, lba);
    } else {
      Chooses(Alone(s, answers, k), answers(k), outer, crc32, H, now, chunks, retry, lba, |ts|);
      if |ts| % 256 == 0 {
        GrabsTop(Alone(s, answers, n), outer, crc32, H, now, chunks, Report(retry, lba, |ts|));
        AloneStep(s, answers, n);
        ReportsOn(Alone(s, answers, n), answers(n), outer, crc32, H, now, chunks, retry, lba, |ts|);
        n := n + 1;
      }
      GrabsTop(Alone(s, answers, n), outer, crc32, H, now, chunks, Read(retry, lba, |ts|));
      AloneStep(s, answers, n);
      PlaysFrame(s, answers, crc32, frames, size, n);
      Reads(Alone(s, answers, n), answers(n), outer, crc32, H, now, chunks, retry, lba, |ts|, frames(n));
      H' := H[lba := H[lba] + [frames(n)]];
      ReadStep(crc32, R, H, H', 2, lba, frames(n));
      assert now + [lba] == log + (ts + [lba]);
      n := n + 1;
    }
    ScansAre(Alone(s, answers, n), outer, crc32, R, H', log, chunks, retry, lba + 1);
  }

  lemma ScansIs(u: State, outer: seq<Frame>, crc32: Crc32, R: History, H: History, log: seq<nat>,
                chunks: seq<nat>, retry: nat, lba: nat)
    requires Scans(u, outer, crc32, R, H, log, chunks, retry, lba)
    ensures lba <= |R| == |H| && PassTo(crc32, R, H, 2, lba)
    ensures Grabs(u, outer, crc32, H, log + Targets(crc32, R, 2, lba), chunks,
                  Scan(retry, lba, |Targets(crc32, R, 2, lba)|))
  {
    hide Grabs, Targets, Settled, OneMore;
  }

  lemma ScansAre(u: State, outer: seq<Frame>, crc32: Crc32, R: History, H: History, log: seq<nat>,
                 chunks: seq<nat>, retry: nat, lba: nat)
    requires lba <= |R| && PassTo(crc32, R, H, 2, lba)
    requires Grabs(u, outer, crc32, H, log + Targets(crc32, R, 2, lba), chunks,
                   Scan(retry, lba, |Targets(crc32, R, 2, lba)|))
    ensures Scans(u, outer, crc32, R, H, log, chunks, retry, lba)
  {
    hide Grabs, Targets, PassTo;
  }

  lemma PlaysFrame(s: State, answers: nat -> Answer, crc32: Crc32, frames: nat -> AudioFrame, size: nat, k: nat)
    requires Plays(s, answers, crc32, frames, size)
    ensures answers(k).sum == Sum(crc32, frames(k))
    ensures AtPassStart(Alone(s, answers, k)) ==>
      |Alone(s, answers, k).db| + answers(k).growth
        == if |Alone(s, answers, k).db| < size then size else |Alone(s, answers, k).db|
  {
    hide Alone, Sum, AtPassStart;
  }

  lemma {:induction false} ScanAll(s: State, answers: nat -> Answer, k: nat, crc32: Crc32, frames: nat -> AudioFrame,
                                   size: nat, outer: seq<Frame>, R: History, H: History, log: seq<nat>,
                                   chunks: seq<nat>, retry: nat, lba: nat) returns (n: nat, H': History)
    requires Plays(s, answers, crc32, frames, size) && lba <= |R|
    requires Scans(Alone(s, answers, k), outer, crc32, R, H, log, chunks, retry, lba)
    ensures k <= n && Scans(Alone(s, answers, n), outer, crc32, R, H', log, chunks, retry, |R|)
    decreases |R| - lba
  {
    hide *;
    n, H' := k, H;
    if lba < |R| {
      n, H' := ScanOn(s, answers, k, crc32, frames, size, outer, R, H, log, chunks, retry, lba);
      n, H' := ScanAll(s, answers, n, crc32, frames, size, outer, R, H', log, chunks, retry, lba + 1);
    }
  }

  /** One whole pass, from its start to its end. */
  lemma PassAlone(s: State, answers: nat -> Answer, k: nat, crc32: Crc32, frames: nat -> AudioFrame, size: nat,
                  outer: seq<Frame>, H: History, log: seq<nat>, chunks: seq<nat>, retry: nat)
    returns (n: nat, H': History)
    requires Plays(s, answers, crc32, frames, size)
    requires Grabs(Alone(s, answers, k), outer, crc32, H, log, chunks, PassStart(retry))
    ensures var R := Resized(H, size);
      && k < n && |H'| == |R| && PassTo(crc32, R, H', 2, |R|)
      && Grabs(Alone(s, answers, n), outer, crc32, H', log + Targets(crc32, R, 2, |R|), chunks,
               PassEnd(retry, |Targets(crc32, R, 2, |R|)|))
  {
    hide *;
    var R := Resized(H, size);
    var u := Alone(s, answers, k);
    GrabsTop(u, outer, crc32, H, log, chunks, PassStart(retry));
    AloneStep(s, answers, k);
    PlaysFrame(s, answers, crc32, frames, size, k);
    AtStart(u, outer, crc32, H, log, chunks, retry);
    PassStarts(u, answers(k), outer, crc32, H, log, chunks, retry, size);
    NothingScanned(Alone(s, answers, k + 1), outer, crc32, R, log, chunks, retry);
    n, H' := ScanAll(s, answers, k + 1, crc32, frames, size, outer, R, R, log, chunks, retry, 0);
    var ts := Targets(crc32, R, 2, |R|);
    ScansIs(Alone(s, answers, n), outer, crc32, R, H', log, chunks, retry, |R|);
    GrabsTop(Alone(s, answers, n), outer, crc32, H', log + ts, chunks, Scan(retry, |R|, |ts|));
    AloneStep(s, answers, n);
    PassMoves(Alone(s, answers, n), answers(n), outer, crc32, H', log + ts, chunks, Scan(retry, |R|, |ts|));
    n := n + 1;
    GrabsTop(Alone(s, answers, n), outer, crc32, H', log + ts, chunks, FinalReport(retry, |ts|));
    AloneStep(s, answers, n);
    PassMoves(Alone(s, answers, n), answers(n), outer, crc32, H', log + ts, chunks, FinalReport(retry, |ts|));
    n := n + 1;
  }

  lemma AtStart(u: State, outer: seq<Frame>, crc32: Crc32, H: History, log: seq<nat>, chunks: seq<nat>, retry: nat)
    requires Grabs(u, outer, crc32, H, log, chunks, PassStart(retry))
    ensures AtPassStart(u)
  {
  }

  lemma NothingScanned(u: State, outer: seq<Frame>, crc32: Crc32, R: History, log: seq<nat>, chunks: seq<nat>,
                       retry: nat)
    requires Grabs(u, outer, crc32, R, log, chunks, Scan(retry, 0, 0))
    ensures Scans(u, outer, crc32, R, R, log, chunks, retry, 0)
  {
    hide Grabs, Settled;
    assert log + [] == log;
  }

  /** The sectors the first p passes of a run read, in order. */
  ghost function SectorsRead(crc32: Crc32, H: History, run: seq<PassRecord>, p: nat): seq<nat>
    requires IsRun(crc32, H, run, 2) && p <= |run|
  {
    if p == 0 then []
    else SectorsRead(crc32, H, run, p - 1) + Targets(crc32, Found(H, run, p - 1), 2, run[p - 1].upto)
  }

  lemma {:induction false} SectorsReadBefore(crc32: Crc32, H: History, run: seq<PassRecord>, next: PassRecord, p: nat)
    requires IsRun(crc32, H, run, 2) && IsRun(crc32, H, run + [next], 2) && p <= |run|
    ensures SectorsRead(crc32, H, run + [next], p) == SectorsRead(crc32, H, run, p)
  {
    hide *;
    SectorsReadStep(crc32, H, run, p);
    SectorsReadStep(crc32, H, run + [next], p);
    if p > 0 {
      SectorsReadBefore(crc32, H, run, next, p - 1);
      SameFound(H, run, next, p - 1);
    }
  }

  lemma SectorsReadStep(crc32: Crc32, H: History, run: seq<PassRecord>, p: nat)
    requires IsRun(crc32, H, run, 2) && p <= |run|
    ensures p > 0 ==> run[p - 1].upto <= |Found(H, run, p - 1)|
    ensures SectorsRead(crc32, H, run, p)
         == if p == 0 then []
            else SectorsRead(crc32, H, run, p - 1) + Targets(crc32, Found(H, run, p - 1), 2, run[p - 1].upto)
  {
    hide Targets, Found, Settled, OneMore;
    assert p > 0 ==> PassTo(crc32, Found(H, run, p - 1), run[p - 1].after, 2, run[p - 1].upto);
  }

  lemma SameFound(H: History, run: seq<PassRecord>, next: PassRecord, p: nat)
    requires p < |run|
    ensures Found(H, run + [next], p) == Found(H, run, p) && (run + [next])[p] == run[p]
  {
    hide Resized;
  }

  lemma SectorsReadNext(crc32: Crc32, H: History, run: seq<PassRecord>, next: PassRecord)
    requires IsRun(crc32, H, run, 2) && IsRun(crc32, H, run + [next], 2)
    ensures next.upto <= |Resized(Final(H, run), next.size)|
    ensures SectorsRead(crc32, H, run + [next], |run| + 1)
         == SectorsRead(crc32, H, run, |run|) + Targets(crc32, Resized(Final(H, run), next.size), 2, next.upto)
  {
    SectorsReadBefore(crc32, H, run, next, |run|);
    var longer := run + [next];
    assert longer[|run|] == next;
    hide Targets, Resized, Settled, OneMore;
    assert Found(H, longer, |run|) == Resized(Final(H, run), next.size);
    assert PassTo(crc32, Found(H, longer, |run|), next.after, 2, next.upto);
  }

  lemma RefinedIsRun(crc32: Crc32, H0: History, run: seq<PassRecord>, H: History, size: nat, n: nat)
    requires Refined(crc32, H0, run, H, size, false, n)
    ensures IsRun(crc32, H0, run, 2) && Final(H0, run) == H
  {
    hide IsRun, Final;
  }

  lemma Appended(log: seq<nat>, a: seq<nat>, b: seq<nat>)
    ensures log + a + b == log + (a + b)
  {
  }

  /** All further passes, from the start of one. */
  lemma {:induction false} PassesAlone(s: State, answers: nat -> Answer, k: nat, crc32: Crc32,
                                       frames: nat -> AudioFrame,
                                       size: nat, outer: seq<Frame>, H0: History, run: seq<PassRecord>, H: History,
                                       log: seq<nat>, chunks: seq<nat>)
    returns (n: nat, runs: seq<PassRecord>, H': History)
    requires Plays(s, answers, crc32, frames, size) && |run| < 4
    requires Refined(crc32, H0, run, H, size, false, |run|) && IsRun(crc32, H0, run, 2)
    requires Grabs(Alone(s, answers, k), outer, crc32, H, log + SectorsRead(crc32, H0, run, |run|), chunks,
                   PassStart(|run|))
    ensures k < n && UpToFourPasses(crc32, H0, runs, H', size, false) && IsRun(crc32, H0, runs, 2)
    ensures Grabs(Alone(s, answers, n), outer, crc32, H', log + SectorsRead(crc32, H0, runs, |runs|), chunks, GrabLeave)
    decreases 4 - |run|
  {
    hide *;
    var R, read := Resized(H, size), SectorsRead(crc32, H0, run, |run|);
    n, H' := PassAlone(s, answers, k, crc32, frames, size, outer, H, log + read, chunks, |run|);
    var ts := Targets(crc32, R, 2, |R|);
    var next := PassRecord(size, |R|, H');
    runs := run + [next];
    RefinedIsRun(crc32, H0, run, H, size, |run|);
    RefinedAgain(crc32, H0, run, H, size, false, false, next);
    RefinedIsRun(crc32, H0, runs, H', size, |run|);
    SectorsReadNext(crc32, H0, run, next);
    Appended(log, read, ts);
    GrabsTop(Alone(s, answers, n), outer, crc32, H', log + read + ts, chunks, PassEnd(|run|, |ts|));
    AloneStep(s, answers, n);
    PassMoves(Alone(s, answers, n), answers(n), outer, crc32, H', log + read + ts, chunks, PassEnd(|run|, |ts|));
    n := n + 1;
    if |ts| == 0 || |runs| == 4 {
      EndsAfter(crc32, H0, runs, H', size, false);
    } else {
      ReadSomething(crc32, H0, runs, H', size, false);
      n, runs, H' := PassesAlone(s, answers, n, crc32, frames, size, outer, H0, runs, H', log, chunks);
    }
  }

  lemma GrabStarts(u: State, a: Answer)
    requires u.stack != [] && !u.mtx && u.stack[|u.stack| - 1] == Grab(false, GrabEnter)
    ensures var v := Run(u, a);
      && v.stack == Outer(u) + [Grab(true, GrabLocked)] && v.mtx && v.audioDisc == u.audioDisc
      && v.sectorsRead == u.sectorsRead && v.chunks == u.chunks
  {
  }

  lemma GrabLoads(u: State, a: Answer, outer: seq<Frame>, crc32: Crc32, H0: History)
    requires u.stack == outer + [Grab(true, GrabLocked)] && u.mtx && u.audioDisc && Abstracts(crc32, H0, a.file)
    ensures Grabs(Run(u, a), outer, crc32, H0, u.sectorsRead, u.chunks, PassStart(0))
  {
    hide Abstracts, TopCount;
  }

  lemma NothingYet(crc32: Crc32, H0: History, size: nat, log: seq<nat>)
    ensures IsRun(crc32, H0, [], 2) && Refined(crc32, H0, [], H0, size, false, 0)
    ensures log + SectorsRead(crc32, H0, [], 0) == log
  {
    NoPassYet(crc32, H0, size, false);
  }

  /** An undisturbed Grab that finds the lock free and an audio disc makes just the passes the
      worker's Grab makes when no Cancel is handled, reads the sectors of these passes in order
      and no others, and frees the lock. It does not matter whether an earlier operation was
      cancelled. */
  lemma UndisturbedGrab(s: State, answers: nat -> Answer, m: nat, crc32: Crc32, frames: nat -> AudioFrame, size: nat,
                        H0: History) returns (n: nat, run: seq<PassRecord>, H: History)
    requires Plays(s, answers, crc32, frames, size) && Abstracts(crc32, H0, answers(m + 1).file)
    requires var u := Alone(s, answers, m);
      u.stack != [] && !u.mtx && u.audioDisc && u.stack[|u.stack| - 1] == Grab(false, GrabEnter)
    ensures var u, t := Alone(s, answers, m), Alone(s, answers, n);
      && m < n && t.stack == Outer(u) && !t.mtx && !t.cancelled && t.chunks == u.chunks
      && UpToFourPasses(crc32, H0, run, H, size, false) && IsRun(crc32, H0, run, 2)
      && Abstracts(crc32, H, t.db)
      && t.sectorsRead == u.sectorsRead + SectorsRead(crc32, H0, run, |run|)
  {
    hide *;
    var u := Alone(s, answers, m);
    AloneStep(s, answers, m);
    GrabStarts(u, answers(m));
    AloneStep(s, answers, m + 1);
    GrabLoads(Alone(s, answers, m + 1), answers(m + 1), Outer(u), crc32, H0);
    NothingYet(crc32, H0, size, u.sectorsRead);
    n, run, H := PassesAlone(s, answers, m + 2, crc32, frames, size, Outer(u), H0, [], H0, u.sectorsRead, u.chunks);
    var log := u.sectorsRead + SectorsRead(crc32, H0, run, |run|);
    GrabsTop(Alone(s, answers, n), Outer(u), crc32, H, log, u.chunks, GrabLeave);
    AloneStep(s, answers, n);
    PassMoves(Alone(s, answers, n), answers(n), Outer(u), crc32, H, log, u.chunks, GrabLeave);
    n := n + 1;
  }
}
