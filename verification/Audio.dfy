/** Audio frames and the interfaces the sector database talks to: the reader it reads
    from and the progress callback it reports to. */
module Audio {
  import opened TableOfContents

  newtype Int16 = x: int | -0x8000 <= x < 0x8000

  /** Samples in one sector: 2352 bytes of 16-bit samples. */
  const FRAME: nat := 1176

  type AudioFrame = s: seq<Int16> | |s| == 1176 witness seq(1176, _ => 0)

  function Silence(): (s: AudioFrame)
    ensures forall i | 0 <= i < |s| :: s[i] == 0
  {
    seq(1176, _ => 0)
  }

  datatype HardwareInfo = HardwareInfo(vendor: string, model: string, revision: string)

  /** A drive with a disc in it. What the k-th read of its life returns is arbitrary: source may depend on the
      sector and on how many reads went before. */
  class AudioReader {
    const hw: HardwareInfo
    const toc: Toc
    const size: nat
    const source: (nat, nat) -> AudioFrame
    var log: seq<nat>  // the sectors read so far, in order

    constructor (hw: HardwareInfo, toc: Toc, size: nat, source: (nat, nat) -> AudioFrame)
      ensures this.hw == hw && this.toc == toc && this.size == size && this.source == source && log == []
    {
      this.hw, this.toc, this.size, this.source, log := hw, toc, size, source, [];
    }

    method ReadAudio(lba: nat, dst: array<Int16>)
      requires dst.Length == FRAME
      modifies this, dst
      ensures dst[..] == source(lba, |old(log)|)
      ensures log == old(log) + [lba]
    {
      var frame := source(lba, |log|);
      forall i | 0 <= i < FRAME {
        dst[i] := frame[i];
      }
      log := log + [lba];
    }
  }

  /** The implementers of the progress interface: the console, which never cancels; the
      forwarder, which asks a callback every time; the worker, which runs the event loop and
      cancels for good once a Cancel was handled in it. */
  datatype ProgressKind = StdOut | Forward | Worker

  /** What a report says: the size of the disc, the sector reached, and how far that is. */
  datatype Place = Place(nrSectors: nat, lba: nat, pct: real)

  /** One of the replies number start up to end was a refusal. */
  ghost predicate Refused(proceed: nat -> bool, start: nat, end: nat) {
    exists k: nat :: start <= k < end && !proceed(k)
  }

  lemma RefusedSplit(proceed: nat -> bool, start: nat, mid: nat, end: nat)
    requires start <= mid <= end
    ensures Refused(proceed, start, end) <==> Refused(proceed, start, mid) || Refused(proceed, mid, end)
  {
  }

  lemma RefusedOnce(proceed: nat -> bool, start: nat)
    ensures !Refused(proceed, start, start)
    ensures Refused(proceed, start, start + 1) <==> !proceed(start)
  {
  }

  lemma HeardOneMore(proceed: nat -> bool, n: nat)
    ensures forall b: nat | b <= n :: Refused(proceed, b, n + 1) <==> Refused(proceed, b, n) || !proceed(n)
  {
    RefusedOnce(proceed, n);
    forall b: nat | b <= n
      ensures Refused(proceed, b, n + 1) <==> Refused(proceed, b, n) || !proceed(n)
    {
      RefusedSplit(proceed, b, n, n + 1);
    }
  }

  class SectorDbProgress {
    const kind: ProgressKind
    const proceed: nat -> bool  // for the k-th call: the callback's reply, or whether no Cancel is handled
    var calls: nat
    var cancelled: bool
    ghost var verdicts: seq<bool>
    ghost var places: seq<Place>

    constructor (kind: ProgressKind, proceed: nat -> bool)
      ensures this.kind == kind && this.proceed == proceed
      ensures calls == 0 && !cancelled && verdicts == [] && places == [] && Forwards()
    {
      this.kind, this.proceed, calls, cancelled, verdicts, places := kind, proceed, 0, false, [], [];
    }

    /** The forwarder's verdicts are the callback's replies, one for every call. */
    ghost predicate Forwards()
      reads this
    {
      kind.Forward? ==> calls == |verdicts| && forall k | 0 <= k < calls :: verdicts[k] == proceed(k)
    }

    /** Since it had made that many calls, the worker was cancelled exactly if it had been
        before or one of the calls since then handled a Cancel. */
    ghost predicate Heard(before: nat, cancelledBefore: bool)
      reads this
      ensures Heard(before, cancelledBefore) && kind.Worker? ==>
        && before <= calls
        && (cancelled <==> cancelledBefore || Refused(proceed, before, calls))
    {
      kind.Worker? ==>
        before <= calls && (cancelled <==> cancelledBefore || Refused(proceed, before, calls))
    }

    lemma HeardNothing()
      ensures Heard(calls, cancelled)
    {
    }

    /** Reports progress; false asks the database to stop. */
    method OnSectorProgress(nrSectors: nat, lba: nat, pct: real) returns (go: bool)
      modifies this
      ensures verdicts == old(verdicts) + [go]
      ensures places == old(places) + [Place(nrSectors, lba, pct)]
      ensures calls == old(calls) + 1
      ensures kind.StdOut? ==> go
      ensures kind.Forward? ==> go == proceed(old(calls))
      ensures kind.Worker? ==> go == !cancelled && cancelled == (old(cancelled) || !proceed(old(calls)))
      ensures !kind.Worker? ==> cancelled == old(cancelled)
      ensures old(Forwards()) ==> Forwards()
      ensures forall b: nat, c: bool :: old(Heard(b, c)) ==> Heard(b, c)
    {

      match kind {
        case StdOut =>
          go := true;
        case Forward =>
          go := proceed(calls);
        case Worker =>
          ProcessEvents();
          go := !cancelled;
      }
      if !kind.Worker? {
        calls := calls + 1;
      }
      verdicts := verdicts + [go];
      places := places + [Place(nrSectors, lba, pct)];
    }

    /** The worker's event loop: the slots queued so far run inside this call. */
    method ProcessEvents()
      modifies `calls, `cancelled
      ensures calls == old(calls) + 1
      ensures cancelled == (old(cancelled) || !proceed(old(calls)))
      ensures forall b: nat, c: bool :: old(Heard(b, c)) ==> Heard(b, c)
    {
      HeardOneMore(proceed, calls);
      if !proceed(calls) {
        cancelled := true;
      }
      calls := calls + 1;
    }

    /** The worker forgets earlier cancellations when an operation starts. */
    method Clear()
      modifies `cancelled
      ensures !cancelled
    {
      cancelled := false;
    }
  }
}
