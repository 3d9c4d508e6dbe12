/** Encoding the database: 64 frames at a time through one buffer, the last chunk included. */
module Encoding {
  import opened Audio
  import opened SectorDatabase

  class FlacStreamEncoder {
    var samples: seq<Int16>

    constructor ()
      ensures samples == []
    {
      samples := [];
    }

    method Append(view: array<Int16>)
      modifies this
      ensures samples == old(samples) + view[..]
    {
      samples := samples + view[..];
    }
  }

  /** The number of 64-frame buffers n frames take; an empty disc takes one. */
  function Chunks(n: nat): nat {
    if n == 0 then 1 else (n + 63) / 64
  }

  /** The stream starts with every frame once, in order, is rounded up to whole buffers, and
      beyond the last frame repeats what came one buffer earlier. */
  ghost predicate Encoded(fs: seq<AudioFrame>, samples: seq<Int16>) {
    && |samples| == Samples(64 * Chunks(|fs|))
    && Flatten(fs) <= samples
    && (|fs| > 64 ==> forall k | Samples(|fs|) <= k < |samples| :: samples[k] == samples[k - Samples(64)])
  }

  /** Whole buffers of frames from the start, and no more. */
  ghost predicate CutShort(fs: seq<AudioFrame>, samples: seq<Int16>) {
    exists c: nat :: 64 * c <= |fs| && samples == Flatten(fs[..64 * c])
  }

  lemma {:induction false} FlattenConcat(a: seq<AudioFrame>, b: seq<AudioFrame>)
    ensures Flatten(a + b) == Flatten(a) + Flatten(b)
  {
    if b == [] {
      assert a + b == a;
    } else {
      var n := |b| - 1;
      FlattenConcat(a, b[..n]);
      assert (a + b)[..|a| + n] == a + b[..n] && (a + b)[|a| + n] == b[n];
    }
  }

  /** A full buffer carries the stream 64 frames further. */
  lemma ChunkStep(fs: seq<AudioFrame>, lba: nat, buffer: seq<Int16>)
    requires lba + 64 <= |fs| && |buffer| == Samples(64)
    ensures Spliced(Flatten(Taken(fs, lba, 64)), buffer) == Flatten(fs[lba..lba + 64])
    ensures Flatten(fs[..lba]) + Flatten(fs[lba..lba + 64]) == Flatten(fs[..lba + 64])
  {
    FlattenConcat(fs[..lba], fs[lba..lba + 64]);
    assert fs[..lba] + fs[lba..lba + 64] == fs[..lba + 64];
  }

  /** Behind the front of the last buffer its predecessor shows through. */
  lemma LeftoverRepeats(before: seq<Int16>, buffer: seq<Int16>, front: seq<Int16>)
    requires |front| <= |buffer|
    ensures var out := before + buffer + Spliced(front, buffer);
      forall k | |before| + |buffer| + |front| <= k < |out| :: out[k] == out[k - |buffer|]
  {
  }

  lemma SplicedStarts(head: seq<Int16>, front: seq<Int16>, buffer: seq<Int16>)
    requires |front| <= |buffer|
    ensures head + front <= head + Spliced(front, buffer)
  {
  }

  lemma ChunksRoundUp(lba: nat, n: nat)
    requires lba % 64 == 0 && lba <= n <= lba + 64 && (lba < n || lba == 0)
    ensures 64 * Chunks(n) == lba + 64
  {
  }

  /** The command-line encoder, with the same loop, asserts that the run-out is shorter than a
      buffer. It is, unless the disc fills its last buffer exactly. */
  lemma AssertedRunOutLength(lba: nat, n: nat)
    requires lba % 64 == 0 && lba <= n <= lba + 64 && (lba < n || lba == 0)
    ensures n - lba < 64 <==> n == 0 || n % 64 != 0
  {
  }

  /** The stream when the run-out is appended. */
  function Finished(fs: seq<AudioFrame>, lba: nat, buffer: seq<Int16>): seq<Int16>
    requires lba <= |fs| && Samples(|fs| - lba) <= |buffer|
  {
    Flatten(fs[..lba]) + Spliced(Flatten(Taken(fs, lba, |fs| - lba)), buffer)
  }

  lemma TakenCompletes(fs: seq<AudioFrame>, lba: nat)
    requires lba <= |fs|
    ensures fs[..lba] + Taken(fs, lba, |fs| - lba) == fs
  {
  }

  lemma FinishedIs(fs: seq<AudioFrame>, lba: nat, buffer: seq<Int16>)
    requires lba <= |fs| && Samples(|fs| - lba) <= |buffer|
    ensures Finished(fs, lba, buffer) == Flatten(fs[..lba]) + Spliced(Flatten(Taken(fs, lba, |fs| - lba)), buffer)
  {
  }

  lemma FinishedHoldsAll(fs: seq<AudioFrame>, lba: nat, buffer: seq<Int16>)
    requires lba <= |fs| && Samples(|fs| - lba) <= |buffer|
    ensures Flatten(fs) <= Finished(fs, lba, buffer)
  {
    hide *;
    var t := Taken(fs, lba, |fs| - lba);
    TakenCompletes(fs, lba);
    FlattenConcat(fs[..lba], t);
    SplicedStarts(Flatten(fs[..lba]), Flatten(t), buffer);
    FinishedIs(fs, lba, buffer);
  }

  lemma FinishedRepeats(fs: seq<AudioFrame>, lba: nat, buffer: seq<Int16>)
    requires 64 <= lba <= |fs| && Samples(|fs| - lba) <= |buffer|
    requires buffer == Flatten(fs[lba - 64..lba])
    ensures var out := Finished(fs, lba, buffer);
      forall k | Samples(|fs|) <= k < |out| :: out[k] == out[k - Samples(64)]
  {
    var before := Flatten(fs[..lba - 64]);
    assert fs[..lba - 64] + fs[lba - 64..lba] == fs[..lba];
    FlattenConcat(fs[..lba - 64], fs[lba - 64..lba]);
    LeftoverRepeats(before, buffer, Flatten(Taken(fs, lba, |fs| - lba)));
  }

  /** The run-out completes the stream; the rest of its buffer is left from the chunk before. */
  lemma RunOut(fs: seq<AudioFrame>, lba: nat, buffer: seq<Int16>)
    requires lba % 64 == 0 && |buffer| == Samples(64)
    requires lba <= |fs| <= lba + 64 && (lba < |fs| || lba == 0)
    requires lba > 0 ==> buffer == Flatten(fs[lba - 64..lba])
    ensures Encoded(fs, Flatten(fs[..lba]) + Spliced(Flatten(Taken(fs, lba, |fs| - lba)), buffer))
  {
    var out := Finished(fs, lba, buffer);
    assert |out| == Samples(lba + 64);
    ChunksRoundUp(lba, |fs|);
    FinishedHoldsAll(fs, lba, buffer);
    if lba > 0 {
      FinishedRepeats(fs, lba, buffer);
    }
  }

  /** The j-th reply from call number start on. */
  predicate Reply(proceed: nat -> bool, start: nat, j: nat) {
    proceed(start + j)
  }

  /** The first refusal among these replies is the j-th. */
  predicate FirstRefusal(proceed: nat -> bool, start: nat, j: nat) {
    !Reply(proceed, start, j) && forall i: nat | i < j :: Reply(proceed, start, i)
  }

  /** What is encoded, told by the replies of the event loop alone. It is run once for every
      1024 frames, when the first 64 of them were handed over. If a Cancel is handled there
      and frames are left, no further buffer is. */
  ghost predicate EncodedAsTold(fs: seq<AudioFrame>, proceed: nat -> bool, start: nat, samples: seq<Int16>,
                                calls: nat) {
    && (forall j: nat | 1024 * j + 64 < |fs| && FirstRefusal(proceed, start, j) ::
          samples == Flatten(fs[..1024 * j + 64]) && calls == start + j + 1)
    && ((forall j: nat | 1024 * j + 64 < |fs| :: Reply(proceed, start, j)) ==>
          Encoded(fs, samples) && calls == start + if |fs| == 0 then 1 else (|fs| + 1023) / 1024)
  }

  /** Where the chunk loop is: e calls were made, and the last may have been a refusal. */
  ghost predicate Underway(n: nat, proceed: nat -> bool, start: nat, lba: nat, e: nat, cancelled: bool) {
    && lba % 64 == 0 && 1024 * e >= lba && (e > 0 ==> lba > 1024 * (e - 1)) && (lba < n || lba == 0)
    && (forall i: nat | i + 1 < e :: Reply(proceed, start, i))
    && (if cancelled then e > 0 && lba == 1024 * (e - 1) + 64 && !Reply(proceed, start, e - 1)
        else e > 0 ==> Reply(proceed, start, e - 1))
  }

  lemma UnderwayCall(proceed: nat -> bool, start: nat, e: nat)
    ensures Reply(proceed, start, e) <==> proceed(start + e)
  {
  }

  lemma UnderwayBegins(n: nat, proceed: nat -> bool, start: nat)
    ensures Underway(n, proceed, start, 0, 0, false)
  {
  }

  lemma UnderwayStep(n: nat, proceed: nat -> bool, start: nat, lba: nat, e: nat)
    requires Underway(n, proceed, start, lba, e, false) && lba + 64 < n
    ensures lba % 1024 == 0 ==> Underway(n, proceed, start, lba + 64, e + 1, !Reply(proceed, start, e))
    ensures lba % 1024 != 0 ==> Underway(n, proceed, start, lba + 64, e, false)
  {
    BlockOf(lba, e);
  }

  /** lba lies in the e-th block of 1024, at its end exactly if it is a multiple of 1024. */
  lemma BlockOf(lba: nat, e: nat)
    requires lba % 64 == 0 && 1024 * e >= lba && (e > 0 ==> lba > 1024 * (e - 1))
    ensures lba % 1024 == 0 <==> lba == 1024 * e
    ensures lba % 1024 != 0 ==> lba + 64 <= 1024 * e
  {
    var c := lba / 64;
    assert lba == 64 * c;
    if lba % 1024 == 0 {
      var d := lba / 1024;
      assert lba == 1024 * d;
    }
  }

  lemma CutAsTold(fs: seq<AudioFrame>, proceed: nat -> bool, start: nat, lba: nat, e: nat)
    requires Underway(|fs|, proceed, start, lba, e, true)
    ensures EncodedAsTold(fs, proceed, start, Flatten(fs[..lba]), start + e)
  {
    hide Flatten, Encoded;
    var last: nat := e - 1;
    assert 1024 * last + 64 < |fs| && !Reply(proceed, start, last);
    forall j: nat | 1024 * j + 64 < |fs| && FirstRefusal(proceed, start, j)
      ensures j == e - 1
    {
      assert j < last ==> Reply(proceed, start, j);
      assert last < j ==> Reply(proceed, start, last);
    }
  }

  lemma CompleteAsTold(fs: seq<AudioFrame>, proceed: nat -> bool, start: nat, lba: nat, e: nat, samples: seq<Int16>)
    requires Underway(|fs|, proceed, start, lba, e, false) && |fs| <= lba + 64 && Encoded(fs, samples)
    ensures EncodedAsTold(fs, proceed, start, samples, start + if lba % 1024 == 0 then e + 1 else e)
  {
    hide Flatten, Encoded;
    BlockOf(lba, e);
    forall j: nat | 1024 * j + 64 < |fs|
      ensures j < e && Reply(proceed, start, j)
    {
    }
  }

  lemma StreamBegins(fs: seq<AudioFrame>)
    ensures Flatten(fs[..0]) == [] && Samples(64) == 64 * 1176 && Samples(1) == 1176
    ensures CutShort(fs, [])
  {
    assert fs[..64 * 0] == [];
  }

  lemma StillCutShort(fs: seq<AudioFrame>, lba: nat)
    requires lba % 64 == 0 && lba <= |fs|
    ensures CutShort(fs, Flatten(fs[..lba]))
  {
    assert lba == 64 * (lba / 64);
  }
}
