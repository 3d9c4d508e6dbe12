/** The worker's slots as a step machine. One thread runs them, but Grab and Encode call the
    event loop while they work, and the event loop starts further slots inside them. The stack
    holds the active slots, the innermost last. */
module WorkerMachine {
  import opened Votes
  import opened SectorChecksums

  datatype GrabPc =
    | GrabEnter
    | GrabLocked
    | PassStart(retry: nat)
    | Scan(retry: nat, lba: nat, nrRead: nat)
    | Report(retry: nat, lba: nat, nrRead: nat)  // inside the event loop
    | Read(retry: nat, lba: nat, nrRead: nat)
    | FinalReport(retry: nat, nrRead: nat)       // inside the event loop
    | PassEnd(retry: nat, nrRead: nat)
    | GrabLeave

  datatype EncodePc =
    | EncodeEnter
    | EncodeLocked
    | Chunk(lba: nat)
    | ChunkReport(next: nat)                     // inside the event loop
    | RunOutReport                               // inside the event loop
    | EncodeLeave

  datatype RefreshPc = RefreshEnter | RefreshLocked | RefreshLeave

  datatype PollPc = PollEnter | PollRefreshed(audio: bool)

  datatype Frame =
    | Grab(owns: bool, gpc: GrabPc)
    | Encode(owns: bool, epc: EncodePc)
    | RefreshToc(owns: bool, rpc: RefreshPc)
    | Poll(ppc: PollPc)

  datatype Slot = GrabSlot | EncodeSlot | PollSlot | CancelSlot

  /** epoch counts how often the lock was taken; sectorsRead and chunks log the sectors read and the
      chunks handed to the encoder. */
  datatype State = State(
    mtx: bool,
    cancelled: bool,
    audioDisc: bool,
    db: seq<seq<Checksums>>,
    stack: seq<Frame>,
    epoch: nat,
    sectorsRead: seq<nat>,
    chunks: seq<nat>)

  /** What the world answers when the innermost slot takes a step. */
  datatype Answer = Answer(
    audio: bool,
    file: seq<seq<Checksums>>,
    noFile: bool,
    growth: nat,
    sum: Checksums)

  datatype Step = Deliver(slot: Slot) | Advance(answer: Answer)

  predicate Owns(f: Frame) {
    !f.Poll? && f.owns
  }

  /** The slot is inside its call of the event loop. */
  predicate Waits(f: Frame) {
    || (f.Grab? && (f.gpc.Report? || f.gpc.FinalReport?))
    || (f.Encode? && (f.epc.ChunkReport? || f.epc.RunOutReport?))
  }

  predicate EventLoopRuns(s: State) {
    s.stack == [] || Waits(s.stack[|s.stack| - 1])
  }

  ghost function Next(s: State, step: Step): State {
    match step
    case Deliver(slot) => if EventLoopRuns(s) then Start(s, slot) else s
    case Advance(answer) => if s.stack == [] then s else Run(s, answer)
  }

  function Start(s: State, slot: Slot): State {
    match slot
    case CancelSlot => s.(cancelled := true)
    case GrabSlot => s.(stack := s.stack + [Grab(false, GrabEnter)])
    case EncodeSlot => s.(stack := s.stack + [Encode(false, EncodeEnter)])
    case PollSlot => s.(stack := s.stack + [Poll(PollEnter)])
  }

  function Outer(s: State): seq<Frame>
    requires s.stack != []
  {
    s.stack[..|s.stack| - 1]
  }

  /** The innermost slot moves on. */
  function Become(s: State, f: Frame): State
    requires s.stack != []
  {
    s.(stack := Outer(s) + [f])
  }

  /** The innermost slot returns; its lock guard frees the lock if it took it. */
  function Return(s: State): State
    requires s.stack != []
  {
    s.(stack := Outer(s), mtx := s.mtx && !Owns(s.stack[|s.stack| - 1]))
  }

  /** The lock guard at the start of a slot. */
  function TryLock(s: State): State {
    if s.mtx then s else s.(mtx := true, epoch := s.epoch + 1)
  }

  ghost function Run(s: State, a: Answer): State
    requires s.stack != []
  {
    match s.stack[|s.stack| - 1]
    case Grab(owns, gpc) => RunGrab(s, owns, gpc, a)
    case Encode(owns, epc) => RunEncode(s, owns, epc, a)
    case RefreshToc(owns, rpc) => RunRefresh(s, owns, rpc, a)
    case Poll(ppc) => RunPoll(s, ppc, a)
  }

  ghost function RunGrab(s: State, owns: bool, pc: GrabPc, a: Answer): State
    requires s.stack != []
  {
    match pc
    case GrabEnter =>
      Become(TryLock(s), Grab(!s.mtx, if s.mtx then GrabLeave else GrabLocked))
    case GrabLocked =>
      if s.audioDisc then
        Become(s.(cancelled := false, db := a.file), Grab(owns, PassStart(0)))
      else
        Become(s.(cancelled := false), Grab(owns, GrabLeave))
    case PassStart(retry) =>
      Become(s.(db := s.db + seq(a.growth, _ => [])), Grab(owns, Scan(retry, 0, 0)))
    case Scan(retry, lba, nrRead) =>
      if lba >= |s.db| then Become(s, Grab(owns, FinalReport(retry, nrRead)))
      else if TopCount(s.db[lba]) >= 2 then Become(s, Grab(owns, Scan(retry, lba + 1, nrRead)))
      else if nrRead % 256 == 0 then Become(s, Grab(owns, Report(retry, lba, nrRead)))
      else Become(s, Grab(owns, Read(retry, lba, nrRead)))
    case Report(retry, lba, nrRead) =>
      Become(s, Grab(owns, if s.cancelled then PassEnd(retry, nrRead) else Read(retry, lba, nrRead)))
    case Read(retry, lba, nrRead) =>
      if lba < |s.db| then
        Become(s.(db := s.db[lba := s.db[lba] + [a.sum]], sectorsRead := s.sectorsRead + [lba]),
               Grab(owns, Scan(retry, lba + 1, nrRead + 1)))
      else s
    case FinalReport(retry, nrRead) => Become(s, Grab(owns, PassEnd(retry, nrRead)))
    case PassEnd(retry, nrRead) =>
      Become(s, Grab(owns, if nrRead == 0 || retry + 1 >= 4 then GrabLeave else PassStart(retry + 1)))
    case GrabLeave => Return(s)
  }

  function RunEncode(s: State, owns: bool, pc: EncodePc, a: Answer): State
    requires s.stack != []
  {
    match pc
    case EncodeEnter =>
      Become(TryLock(s), Encode(!s.mtx, if s.mtx then EncodeLeave else EncodeLocked))
    case EncodeLocked =>
      if s.db != [] then Become(s.(cancelled := false), Encode(owns, Chunk(0)))
      else if a.noFile then Become(s.(cancelled := false), Encode(owns, EncodeLeave))
      else Become(s.(cancelled := false, db := a.file), Encode(owns, Chunk(0)))
    case Chunk(lba) =>
      if s.cancelled then Become(s, Encode(owns, EncodeLeave))
      else if lba + 64 < |s.db| then
        Become(s.(chunks := s.chunks + [lba]),
               Encode(owns, if lba % 1024 == 0 then ChunkReport(lba + 64) else Chunk(lba + 64)))
      else
        Become(s.(chunks := s.chunks + [lba]),
               Encode(owns, if lba % 1024 == 0 then RunOutReport else EncodeLeave))
    case ChunkReport(next) => Become(s, Encode(owns, Chunk(next)))
    case RunOutReport => Become(s, Encode(owns, EncodeLeave))
    case EncodeLeave => Return(s)
  }

  function RunRefresh(s: State, owns: bool, pc: RefreshPc, a: Answer): State
    requires s.stack != []
  {
    match pc
    case RefreshEnter =>
      Become(TryLock(s), RefreshToc(!s.mtx, if s.mtx then RefreshLeave else RefreshLocked))
    case RefreshLocked => Become(s.(audioDisc := a.audio), RefreshToc(owns, RefreshLeave))
    case RefreshLeave => Return(s)
  }

  function RunPoll(s: State, pc: PollPc, a: Answer): State
    requires s.stack != []
  {
    match pc
    case PollEnter =>
      if a.audio == s.audioDisc then Return(s)
      else if a.audio then
        s.(stack := Outer(s) + [Poll(PollRefreshed(true)), RefreshToc(false, RefreshEnter)])
      else Become(s, Poll(PollRefreshed(false)))
    case PollRefreshed(audio) => Return(s.(audioDisc := audio))
  }

  // -- The lock --

  /** A slot holds the lock from taking it until it returns, and not before. */
  predicate OwnsWhileWorking(f: Frame) {
    match f
    case Grab(owns, pc) => (pc.GrabEnter? ==> !owns) && (!pc.GrabEnter? && !pc.GrabLeave? ==> owns)
    case Encode(owns, pc) => (pc.EncodeEnter? ==> !owns) && (!pc.EncodeEnter? && !pc.EncodeLeave? ==> owns)
    case RefreshToc(owns, pc) => (pc.RefreshEnter? ==> !owns) && (pc.RefreshLocked? ==> owns)
    case Poll(_) => true
  }

  /** g can run inside f: from f's call of the event loop, or as Poll's own call. */
  predicate CanNest(f: Frame, g: Frame) {
    Waits(f) || (f.Poll? && f.ppc == PollRefreshed(true) && g.RefreshToc?)
  }

  ghost predicate Nested(stack: seq<Frame>) {
    && (forall i | 0 <= i < |stack| :: OwnsWhileWorking(stack[i]))
    && (forall i, j | 0 <= i < |stack| && i < j < |stack| && j == i + 1 :: CanNest(stack[i], stack[j]))
  }

  function Owners(stack: seq<Frame>): nat {
    if stack == [] then 0
    else Owners(stack[..|stack| - 1]) + if Owns(stack[|stack| - 1]) then 1 else 0
  }

  ghost predicate Inv(s: State) {
    && Nested(s.stack)
    && Owners(s.stack) == if s.mtx then 1 else 0
  }

  predicate Initial(s: State) {
    s.stack == [] && !s.mtx
  }

  ghost function Exec(s: State, steps: seq<Step>): State {
    if steps == [] then s else Next(Exec(s, steps[..|steps| - 1]), steps[|steps| - 1])
  }

  lemma NestedTop(stack: seq<Frame>, f: Frame)
    requires Nested(stack) && OwnsWhileWorking(f)
    requires stack != [] ==> CanNest(stack[|stack| - 1], f)
    ensures Nested(stack + [f])
    ensures Owners(stack + [f]) == Owners(stack) + if Owns(f) then 1 else 0
  {
    OwnersTop(stack, f);
    hide OwnsWhileWorking, CanNest, Owners;
    var grown := stack + [f];
    assert forall i | 0 <= i < |stack| :: grown[i] == stack[i];
    forall i, j | 0 <= i < |grown| && i < j < |grown| && j == i + 1
      ensures CanNest(grown[i], grown[j])
    {
      if j < |stack| {
        Neighbours(stack, i);
      }
    }
  }

  lemma OwnersTop(stack: seq<Frame>, f: Frame)
    ensures Owners(stack + [f]) == Owners(stack) + if Owns(f) then 1 else 0
  {
    hide Owns;
    assert (stack + [f])[..|stack|] == stack;
  }

  lemma NestedOuter(s: State)
    requires Inv(s) && s.stack != []
    ensures Nested(Outer(s))
    ensures Owners(s.stack) == Owners(Outer(s)) + if Owns(s.stack[|s.stack| - 1]) then 1 else 0
    ensures Outer(s) != [] ==> CanNest(Outer(s)[|Outer(s)| - 1], s.stack[|s.stack| - 1])
  {
  }

  /** The innermost slot became f, taking the lock if it does so. */
  predicate MovesOn(s: State, s': State, f: Frame)
    requires s.stack != []
  {
    var top := s.stack[|s.stack| - 1];
    && s'.stack == Outer(s) + [f]
    && OwnsWhileWorking(f)
    && (f.RefreshToc? <==> top.RefreshToc?)
    && (if s.mtx == s'.mtx then Owns(f) == Owns(top) else s'.mtx && Owns(f) && !Owns(top))
  }

  predicate Returns(s: State, s': State)
    requires s.stack != []
  {
    s'.stack == Outer(s) && s'.mtx == (s.mtx && !Owns(s.stack[|s.stack| - 1]))
  }

  predicate PollNestsRefresh(s: State, s': State)
    requires s.stack != []
  {
    && s.stack[|s.stack| - 1].Poll? && s'.mtx == s.mtx
    && s'.stack == Outer(s) + [Poll(PollRefreshed(true)), RefreshToc(false, RefreshEnter)]
  }

  /** The lock is taken on entry and freed on return, by the same slot. */
  predicate TakesAndFrees(s: State, s': State)
    requires s.stack != []
  {
    || Returns(s, s')
    || PollNestsRefresh(s, s')
    || (s'.stack != [] && MovesOn(s, s', s'.stack[|s'.stack| - 1]))
  }

  lemma GrabTakesAndFrees(s: State, owns: bool, pc: GrabPc, a: Answer)
    requires s.stack != [] && s.stack[|s.stack| - 1] == Grab(owns, pc) && OwnsWhileWorking(Grab(owns, pc))
    ensures TakesAndFrees(s, RunGrab(s, owns, pc, a))
  {
    hide TopCount;
  }

  lemma EncodeTakesAndFrees(s: State, owns: bool, pc: EncodePc, a: Answer)
    requires s.stack != [] && s.stack[|s.stack| - 1] == Encode(owns, pc) && OwnsWhileWorking(Encode(owns, pc))
    ensures TakesAndFrees(s, RunEncode(s, owns, pc, a))
  {
  }

  lemma RefreshTakesAndFrees(s: State, owns: bool, pc: RefreshPc, a: Answer)
    requires s.stack != [] && s.stack[|s.stack| - 1] == RefreshToc(owns, pc) && OwnsWhileWorking(RefreshToc(owns, pc))
    ensures TakesAndFrees(s, RunRefresh(s, owns, pc, a))
  {
  }

  lemma RunTakesAndFrees(s: State, a: Answer)
    requires s.stack != [] && OwnsWhileWorking(s.stack[|s.stack| - 1])
    ensures TakesAndFrees(s, Run(s, a))
  {
    match s.stack[|s.stack| - 1]
    case Grab(owns, pc) =>
      hide RunGrab, TakesAndFrees;
      GrabTakesAndFrees(s, owns, pc, a);
    case Encode(owns, pc) =>
      hide RunEncode, TakesAndFrees;
      EncodeTakesAndFrees(s, owns, pc, a);
    case RefreshToc(owns, pc) =>
      hide RunRefresh, TakesAndFrees;
      RefreshTakesAndFrees(s, owns, pc, a);
    case Poll(pc) =>
  }

  lemma ReturnKeepsInv(s: State, s': State)
    requires Inv(s) && s.stack != [] && Returns(s, s')
    ensures Inv(s')
  {
    NestedOuter(s);
    hide Nested, CanNest, Owns;
  }

  lemma MoveKeepsInv(s: State, s': State, f: Frame)
    requires Inv(s) && s.stack != [] && MovesOn(s, s', f)
    ensures Inv(s')
  {
    NestedOuter(s);
    hide Nested, Owners, Waits, OwnsWhileWorking, Owns;
    NestedTop(Outer(s), f);
  }

  lemma NestingKeepsInv(s: State, s': State)
    requires Inv(s) && s.stack != [] && PollNestsRefresh(s, s')
    ensures Inv(s')
  {
    NestedOuter(s);
    var f, g := Poll(PollRefreshed(true)), RefreshToc(false, RefreshEnter);
    hide Nested, Owners, Waits;
    NestedTop(Outer(s), f);
    NestedTop(Outer(s) + [f], g);
    assert s'.stack == Outer(s) + [f] + [g];
  }

  lemma {:induction false} AdvanceKeepsInv(s: State, a: Answer)
    requires Inv(s) && s.stack != []
    ensures Inv(Run(s, a))
  {
    RunTakesAndFrees(s, a);
    hide Run, Nested, Owners, Returns, PollNestsRefresh, MovesOn;
    var s' := Run(s, a);
    if Returns(s, s') {
      ReturnKeepsInv(s, s');
    } else if PollNestsRefresh(s, s') {
      NestingKeepsInv(s, s');
    } else {
      MoveKeepsInv(s, s', s'.stack[|s'.stack| - 1]);
    }
  }

  lemma DeliverKeepsInv(s: State, slot: Slot)
    requires Inv(s) && EventLoopRuns(s)
    ensures Inv(Start(s, slot))
  {
    if !slot.CancelSlot? {
      NestedTop(s.stack, Start(s, slot).stack[|s.stack|]);
    }
  }

  lemma StepKeepsInv(s: State, step: Step)
    requires Inv(s)
    ensures Inv(Next(s, step))
  {
    match step
    case Deliver(slot) =>
      if EventLoopRuns(s) {
        DeliverKeepsInv(s, slot);
      }
    case Advance(a) =>
      if s.stack != [] {
        hide Run;
        AdvanceKeepsInv(s, a);
      }
  }

  /** Mutual exclusion under re-entrancy: in every reachable state the flag is set exactly
      when one active slot holds the lock, never two, and at most three slots are nested. */
  lemma {:induction false} OneOwnerAtMost(s: State, steps: seq<Step>)
    requires Initial(s)
    ensures var t := Exec(s, steps);
      && Inv(t)
      && (t.mtx <==> exists i :: 0 <= i < |t.stack| && Owns(t.stack[i]))
      && (forall i, j | 0 <= i < j < |t.stack| :: !(Owns(t.stack[i]) && Owns(t.stack[j])))
      && |t.stack| <= 3
  {
    if steps != [] {
      OneOwnerAtMost(s, steps[..|steps| - 1]);
      StepKeepsInv(Exec(s, steps[..|steps| - 1]), steps[|steps| - 1]);
    }
    InvMeansOneOwner(Exec(s, steps));
  }

  lemma {:induction false} InvMeansOneOwner(s: State)
    requires Inv(s)
    ensures s.mtx <==> exists i :: 0 <= i < |s.stack| && Owns(s.stack[i])
    ensures forall i, j | 0 <= i < j < |s.stack| :: !(Owns(s.stack[i]) && Owns(s.stack[j]))
    ensures |s.stack| <= 3
  {
    OwnersCounted(s.stack);
    if |s.stack| >= 3 {
      ThirdIsInnermost(s.stack);
    }
  }

  /** Only a lock owner waits in the event loop, so below it there is room for Poll and its
      RefreshToc. */
  lemma ThirdIsInnermost(stack: seq<Frame>)
    requires Nested(stack) && |stack| >= 3
    requires forall i, j | 0 <= i < j < |stack| :: !(Owns(stack[i]) && Owns(stack[j]))
    ensures |stack| == 3
  {
    assert CanNest(stack[0], stack[1]) && CanNest(stack[1], stack[2]);
    assert stack[2].RefreshToc?;
    RefreshIsInnermost(stack, 2);
  }

  lemma RefreshIsInnermost(stack: seq<Frame>, i: nat)
    requires Nested(stack) && i < |stack| && stack[i].RefreshToc?
    ensures i == |stack| - 1
  {
    if i + 1 < |stack| {
      Neighbours(stack, i);
    }
  }

  lemma Neighbours(stack: seq<Frame>, i: nat)
    requires Nested(stack) && i + 1 < |stack|
    ensures CanNest(stack[i], stack[i + 1])
  {
  }

  lemma {:induction false} OwnersCounted(stack: seq<Frame>)
    ensures Owners(stack) > 0 <==> exists i :: 0 <= i < |stack| && Owns(stack[i])
    ensures Owners(stack) <= 1 <==> forall i, j | 0 <= i < j < |stack| :: !(Owns(stack[i]) && Owns(stack[j]))
  {
    if stack != [] {
      var n := |stack| - 1;
      OwnersCounted(stack[..n]);
    }
  }

  // -- Cancellation --

  /** With the cancelled flag set, the slot reads no sector and appends no chunk any more, and
      it does not clear the flag. */
  predicate Quiet(f: Frame) {
    match f
    case Grab(_, pc) => !pc.GrabLocked? && !pc.Read? && (pc.Scan? ==> pc.nrRead == 0)
    case Encode(_, pc) => !pc.EncodeLocked?
    case _ => true
  }

  predicate Stopped(s: State) {
    s.cancelled && forall i | 0 <= i < |s.stack| :: Quiet(s.stack[i])
  }

  /** A Cancel handled inside another slot finds every active slot at a point where it will
      notice. */
  lemma CancelStopsEverySlot(s: State)
    requires Inv(s) && s.stack != [] && EventLoopRuns(s)
    ensures Stopped(Next(s, Deliver(CancelSlot)))
  {
    forall i | 0 <= i < |s.stack|
      ensures Quiet(s.stack[i])
    {
      if i + 1 < |s.stack| {
        Neighbours(s.stack, i);
      }
    }
  }

  /** Unless it took the lock anew, the step kept the flag and the logs. */
  predicate KeepsQuiet(s: State, s': State) {
    || s'.epoch > s.epoch
    || (s'.epoch == s.epoch && s'.cancelled && s'.sectorsRead == s.sectorsRead && s'.chunks == s.chunks)
  }

  lemma GrabKeepsQuiet(s: State, owns: bool, pc: GrabPc, a: Answer)
    requires s.stack != [] && Quiet(Grab(owns, pc)) && s.cancelled
    ensures var s' := RunGrab(s, owns, pc, a);
      && KeepsQuiet(s, s')
      && (s'.epoch == s.epoch && |s'.stack| == |s.stack| ==> Quiet(s'.stack[|s'.stack| - 1]))
  {
    hide TopCount;
  }

  lemma {:induction false} AdvanceKeepsQuiet(s: State, a: Answer)
    requires Inv(s) && Stopped(s) && s.stack != []
    ensures var s' := Run(s, a);
      KeepsQuiet(s, s') && (s'.epoch == s.epoch ==> Stopped(s'))
  {
    var s' := Run(s, a);
    RunTakesAndFrees(s, a);
    match s.stack[|s.stack| - 1]
    case Grab(owns, pc) =>
      hide RunGrab;
      GrabKeepsQuiet(s, owns, pc, a);
    case Encode(owns, pc) =>
    case RefreshToc(owns, pc) =>
    case Poll(pc) =>
  }

  predicate TakesIfFree(s: State, s': State) {
    s'.epoch == s.epoch || (s'.epoch == s.epoch + 1 && !s.mtx && s'.mtx)
  }

  lemma GrabTakesIfFree(s: State, owns: bool, pc: GrabPc, a: Answer)
    requires s.stack != []
    ensures TakesIfFree(s, RunGrab(s, owns, pc, a))
  {
    hide TopCount;
  }

  /** The lock is only taken while it is free. */
  lemma LockTakenOnlyWhenFree(s: State, step: Step)
    ensures TakesIfFree(s, Next(s, step))
  {
    match step
    case Deliver(slot) =>
    case Advance(a) =>
      if s.stack != [] {
        match s.stack[|s.stack| - 1]
        case Grab(owns, pc) =>
          hide RunGrab;
          GrabTakesIfFree(s, owns, pc, a);
        case _ =>
          hide RunGrab;
      }
  }

  /** Only a slot that has just taken the lock clears the flag. */
  lemma FlagClearedByNewOwnerOnly(s: State, step: Step)
    requires Inv(s) && s.cancelled && !Next(s, step).cancelled
    ensures s.stack != []
    ensures var f := s.stack[|s.stack| - 1];
      s.mtx && Owns(f) && (f == Grab(true, GrabLocked) || f == Encode(true, EncodeLocked))
  {
    hide TopCount;
    OwnersCounted(s.stack);
  }

  lemma StoppedStep(s: State, step: Step)
    requires Inv(s) && Stopped(s)
    ensures KeepsQuiet(s, Next(s, step))
    ensures Next(s, step).epoch == s.epoch ==> Stopped(Next(s, step))
  {
    if step.Advance? && s.stack != [] {
      hide Run;
      AdvanceKeepsQuiet(s, step.answer);
    }
  }

  lemma {:induction false} StoppedRun(s: State, steps: seq<Step>)
    requires Inv(s) && Stopped(s)
    ensures var t := Exec(s, steps);
      && Inv(t) && t.epoch >= s.epoch
      && (t.epoch == s.epoch ==> Stopped(t) && t.sectorsRead == s.sectorsRead && t.chunks == s.chunks)
  {
    if steps != [] {
      var u, step := Exec(s, steps[..|steps| - 1]), steps[|steps| - 1];
      StoppedRun(s, steps[..|steps| - 1]);
      hide Next, Inv;
      StepKeepsInv(u, step);
      LockTakenOnlyWhenFree(u, step);
      if Stopped(u) {
        StoppedStep(u, step);
      }
    }
  }

  /** A slot that failed to take the lock just leaves; one that needs none touches the disc
      status only. */
  lemma UnownedAdvance(s: State, a: Answer)
    requires s.stack != [] && OwnsWhileWorking(s.stack[|s.stack| - 1])
    requires !Owns(s.stack[|s.stack| - 1]) && s.mtx
    ensures var s' := Run(s, a);
      && |Outer(s)| <= |s'.stack| && s'.stack[..|Outer(s)|] == Outer(s)
      && s'.mtx && s'.epoch == s.epoch && s'.db == s.db && s'.cancelled == s.cancelled
      && s'.sectorsRead == s.sectorsRead && s'.chunks == s.chunks
  {
    hide TopCount;
  }

  /** Seen from the operation that holds the lock, whatever runs inside its event loop can do
      no more than set the flag. */
  lemma {:induction false} NestedSlotsOnlySetTheFlag(s: State, step: Step, d: nat)
    requires Inv(s) && d < |s.stack| && Owns(s.stack[d])
    requires step.Deliver? || d + 1 < |s.stack|
    ensures var s' := Next(s, step);
      && d < |s'.stack| && s'.stack[..d + 1] == s.stack[..d + 1]
      && s'.mtx && s'.epoch == s.epoch && s'.db == s.db
      && s'.sectorsRead == s.sectorsRead && s'.chunks == s.chunks
      && (s.cancelled ==> s'.cancelled)
  {
    hide Run;
    OwnersCounted(s.stack);
    if step.Advance? {
      UnownedAdvance(s, step.answer);
      var s' := Next(s, step);
      assert s'.stack[..d + 1] == s'.stack[..|Outer(s)|][..d + 1] == Outer(s)[..d + 1] == s.stack[..d + 1];
    }
  }

  /** Whoever holds the lock holds it until it returns, and nobody takes it meanwhile. */
  lemma OwnerStaysOneStep(s: State, step: Step, d: nat)
    requires Inv(s) && d < |s.stack| && Owns(s.stack[d])
    requires d < |Next(s, step).stack|
    ensures Owns(Next(s, step).stack[d]) && Next(s, step).epoch == s.epoch
  {
    hide Run;
    OwnersCounted(s.stack);
    if step.Deliver? || d + 1 < |s.stack| {
      NestedSlotsOnlySetTheFlag(s, step, d);
      assert Next(s, step).stack[..d + 1][d] == s.stack[..d + 1][d];
    } else {
      RunTakesAndFrees(s, step.answer);
      LockTakenOnlyWhenFree(s, step);
    }
  }

  /** During these steps the stack is always higher than d: the slot at d does not return. */
  ghost predicate StaysActive(s: State, steps: seq<Step>, d: nat) {
    forall k | 0 <= k <= |steps| :: d < |Exec(s, steps[..k]).stack|
  }

  lemma {:induction false} OwnerStays(s: State, steps: seq<Step>, d: nat)
    requires Inv(s) && d < |s.stack| && Owns(s.stack[d]) && StaysActive(s, steps, d)
    ensures var t := Exec(s, steps);
      Inv(t) && d < |t.stack| && Owns(t.stack[d]) && t.epoch == s.epoch
  {
    hide Next, Inv, Owns;
    assert steps[..|steps|] == steps;
    if steps != [] {
      var n := |steps| - 1;
      assert forall k | 0 <= k <= n :: steps[..n][..k] == steps[..k];
      OwnerStays(s, steps[..n], d);
      StepKeepsInv(Exec(s, steps[..n]), steps[n]);
      OwnerStaysOneStep(Exec(s, steps[..n]), steps[n], d);
    }
  }

  lemma WaitingOwns(s: State)
    requires Inv(s) && s.stack != [] && EventLoopRuns(s)
    ensures Owns(s.stack[|s.stack| - 1])
  {
  }

  /** No Cancel is lost: from any reachable state with an operation waiting in the event loop,
      once a Cancel is handled there no sector is read and no chunk encoded until the lock is
      taken anew; and while the operation has not returned, nobody takes it. */
  lemma NoCancelIsLost(s: State, before: seq<Step>, after: seq<Step>)
    requires Initial(s)
    ensures var u := Exec(s, before);
      var v := Next(u, Deliver(CancelSlot));
      var t := Exec(v, after);
      u.stack != [] && EventLoopRuns(u) ==>
        && (StaysActive(v, after, |u.stack| - 1) ==> t.epoch == u.epoch)
        && (t.epoch == u.epoch ==>
              t.cancelled && t.sectorsRead == u.sectorsRead && t.chunks == u.chunks)
  {
    var u := Exec(s, before);
    if u.stack != [] && EventLoopRuns(u) {
      var v, d := Next(u, Deliver(CancelSlot)), |u.stack| - 1;
      OneOwnerAtMost(s, before);
      CancelStopsEverySlot(u);
      WaitingOwns(u);
      StepKeepsInv(u, Deliver(CancelSlot));
      StoppedRun(v, after);
      assert v.stack == u.stack && v.epoch == u.epoch && v.sectorsRead == u.sectorsRead && v.chunks == u.chunks;
      hide Inv, Exec, Next;
      if StaysActive(v, after, d) {
        OwnerStays(v, after, d);
      }
    }
  }

  // -- A cancelled operation returns --

  /** How far the operation is from returning, once the flag is set. */
  function Phase(f: Frame): nat {
    match f
    case Grab(_, pc) =>
      (match pc
       case GrabLeave => 0
       case PassEnd(_, n) => if n == 0 then 1 else 5
       case FinalReport(_, n) => if n == 0 then 2 else 6
       case Report(_, _, n) => if n == 0 then 2 else 6
       case Scan(_, _, _) => 3
       case PassStart(_) => 4
       case _ => 7)
    case Encode(_, pc) => if pc.EncodeLeave? then 0 else if pc.ChunkReport? then 2 else 1
    case RefreshToc(_, pc) => if pc.RefreshLeave? then 0 else 1
    case Poll(_) => 0
  }

  /** Sectors still to be looked at in the present scan. */
  function Unscanned(s: State, f: Frame): nat {
    if f.Grab? && f.gpc.Scan? && f.gpc.lba < |s.db| then |s.db| - f.gpc.lba else 0
  }

  predicate Nearer(s: State, s': State)
    requires s.stack != []
  {
    && s'.stack != [] && s'.stack == Outer(s) + [s'.stack[|s'.stack| - 1]]
    && var f, g := s.stack[|s.stack| - 1], s'.stack[|s'.stack| - 1];
       && Owns(g)
       && (Phase(g) < Phase(f) || (Phase(g) == Phase(f) && Unscanned(s', g) < Unscanned(s, f)))
  }

  lemma GrabComesNearer(s: State, pc: GrabPc, a: Answer)
    requires s.stack != [] && s.stack[|s.stack| - 1] == Grab(true, pc)
    requires s.cancelled && Quiet(Grab(true, pc)) && !pc.GrabEnter?
    ensures var s' := RunGrab(s, true, pc, a);
      if pc.GrabLeave? then s'.stack == Outer(s) && !s'.mtx else Nearer(s, s')
  {
    hide TopCount;
  }

  lemma OperationComesNearer(s: State, a: Answer)
    requires Inv(s) && Stopped(s) && s.stack != [] && Owns(s.stack[|s.stack| - 1])
    ensures var s' := Run(s, a);
      (s'.stack == Outer(s) && !s'.mtx) || Nearer(s, s')
  {
    match s.stack[|s.stack| - 1]
    case Grab(owns, pc) =>
      hide RunGrab, Nearer;
      GrabComesNearer(s, pc, a);
    case Encode(owns, pc) =>
    case RefreshToc(owns, pc) =>
    case Poll(pc) =>
  }

  /** The state after the first n steps of an endless run. */
  ghost function Reached(s: State, steps: nat -> Step, n: nat): State {
    if n == 0 then s else Next(Reached(s, steps, n - 1), steps(n - 1))
  }

  /** Step n belongs to the slot at depth d of the stack, or that slot has returned. */
  ghost predicate Turn(s: State, steps: nat -> Step, d: nat, n: nat) {
    var u := Reached(s, steps, n);
    |u.stack| <= d || (|u.stack| == d + 1 && steps(n).Advance?)
  }

  ghost predicate TurnFrom(s: State, steps: nat -> Step, d: nat, m: nat) {
    exists n: nat :: m <= n && Turn(s, steps, d, n)
  }

  /** The slot at depth d gets its turn again and again. */
  ghost predicate Fair(s: State, steps: nat -> Step, d: nat) {
    forall m: nat :: TurnFrom(s, steps, d, m)
  }

  lemma ReachedStep(s: State, steps: nat -> Step, d: nat, n: nat)
    ensures Reached(s, steps, n + 1) == Next(Reached(s, steps, n), steps(n))
    ensures Turn(s, steps, d, n) <==>
      |Reached(s, steps, n).stack| <= d || (|Reached(s, steps, n).stack| == d + 1 && steps(n).Advance?)
  {
    hide Next;
  }

  /** The slot at depth d holds the lock and has been cancelled, and since s it has not moved,
      and nothing was read or encoded. */
  ghost predicate Unmoved(u: State, s: State, d: nat)
    ensures Unmoved(u, s, d) ==> d < |u.stack|
  {
    && Inv(u) && Stopped(u) && d < |u.stack| && Owns(u.stack[d])
    && d < |s.stack| && u.stack[..d] == s.stack[..d] && u.stack[d] == s.stack[d] && u.db == s.db
    && u.sectorsRead == s.sectorsRead && u.chunks == s.chunks
  }

  lemma UnmovedYet(s: State, d: nat)
    requires Inv(s) && Stopped(s) && d < |s.stack| && Owns(s.stack[d])
    ensures Unmoved(s, s, d)
  {
  }

  /** Steps of others leave the slot where it is. */
  lemma OthersStep(u: State, s: State, step: Step, d: nat)
    requires Unmoved(u, s, d)
    requires !(|u.stack| == d + 1 && step.Advance?)
    ensures Unmoved(Next(u, step), s, d)
  {
    NestedSlotsOnlySetTheFlag(u, step, d);
    StoppedStep(u, step);
    StepKeepsInv(u, step);
    hide Next, Inv, Stopped;
    var u' := Next(u, step);
    assert u'.stack[..d + 1][d] == u.stack[..d + 1][d];
    assert u'.stack[..d] == u'.stack[..d + 1][..d] == u.stack[..d + 1][..d] == u.stack[..d];
  }

  /** A step of its own brings it off the stack, or nearer to that. */
  lemma OwnStep(u: State, s: State, a: Answer, d: nat)
    requires Unmoved(u, s, d) && |u.stack| == d + 1
    ensures var s' := Next(u, Advance(a));
      && s'.sectorsRead == s.sectorsRead && s'.chunks == s.chunks && s'.stack != u.stack
      && (if |s'.stack| <= d then s'.stack == s.stack[..d] && !s'.mtx
          else
            && Inv(s') && Stopped(s') && Owns(s'.stack[d]) && s'.stack[..d] == s.stack[..d]
            && (Phase(s'.stack[d]) < Phase(s.stack[d])
                || (Phase(s'.stack[d]) == Phase(s.stack[d])
                    && Unscanned(s', s'.stack[d]) < Unscanned(s, s.stack[d]))))
  {
    OperationComesNearer(u, a);
    AdvanceKeepsQuiet(u, a);
    StepKeepsInv(u, Advance(a));
    LockTakenOnlyWhenFree(u, Advance(a));
    OwnersCounted(u.stack);
    hide Run, Inv, Stopped, Phase, Owners, Owns;
  }

  lemma SomeTurn(s: State, steps: nat -> Step, d: nat, m: nat) returns (turn: nat)
    requires TurnFrom(s, steps, d, m)
    ensures m <= turn && Turn(s, steps, d, turn)
  {
    turn :| m <= turn && Turn(s, steps, d, turn);
  }

  lemma FairTurn(s: State, steps: nat -> Step, d: nat, m: nat)
    requires Fair(s, steps, d)
    ensures TurnFrom(s, steps, d, m)
  {
  }

  /** Until its next turn others run, and leave it where it is. */
  lemma {:induction false} NextTurn(s: State, steps: nat -> Step, d: nat, m: nat) returns (k: nat)
    requires TurnFrom(s, steps, d, m) && Unmoved(Reached(s, steps, m), Reached(s, steps, m), d)
    ensures m <= k && Turn(s, steps, d, k) && Unmoved(Reached(s, steps, k), Reached(s, steps, m), d)
  {
    hide *;
    var turn := SomeTurn(s, steps, d, m);
    k := m;
    while !Turn(s, steps, d, k)
      invariant m <= k <= turn
      invariant Unmoved(Reached(s, steps, k), Reached(s, steps, m), d)
      decreases turn - k
    {
      ReachedStep(s, steps, d, k);
      OthersStep(Reached(s, steps, k), Reached(s, steps, m), steps(k), d);
      k := k + 1;
    }
  }

  /** A cancelled operation returns: whatever the disc and the files answer, and whatever slots
      run inside its event loop, as long as it gets its turn it comes off the stack and the lock
      is free, with nothing read or encoded since step m. */
  lemma {:induction false} CancelledOperationReturns(s: State, steps: nat -> Step, d: nat, m: nat) returns (n: nat)
    requires Fair(s, steps, d)
    requires Inv(Reached(s, steps, m)) && Stopped(Reached(s, steps, m))
    requires d < |Reached(s, steps, m).stack| && Owns(Reached(s, steps, m).stack[d])
    ensures m < n
    ensures Reached(s, steps, n).stack == Reached(s, steps, m).stack[..d] && !Reached(s, steps, n).mtx
    ensures Reached(s, steps, n).sectorsRead == Reached(s, steps, m).sectorsRead
    ensures Reached(s, steps, n).chunks == Reached(s, steps, m).chunks
    decreases Phase(Reached(s, steps, m).stack[d]), Unscanned(Reached(s, steps, m), Reached(s, steps, m).stack[d])
  {
    hide *;
    FairTurn(s, steps, d, m);
    var start := Reached(s, steps, m);
    UnmovedYet(start, d);
    var k := NextTurn(s, steps, d, m);
    ReachedStep(s, steps, d, k);
    OwnStep(Reached(s, steps, k), start, steps(k).answer, d);
    if |Reached(s, steps, k + 1).stack| <= d {
      n := k + 1;
    } else {
      n := CancelledOperationReturns(s, steps, d, k + 1);
    }
  }
}
