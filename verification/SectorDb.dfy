/** The sector database: every checksum seen for a sector, and one copy of its audio, that
    of the most common checksum. */
module SectorDatabase {
  import opened Votes
  import opened Occurrences
  import opened SectorChecksums
  import opened Audio
  import opened Passes
  import opened Drive
  import opened Options
  import opened TableOfContents

  class Sector {
    const data: array<Int16>
    var check: Checksums
    const checks: OccurenceList<Checksums>

    constructor (crc32: Crc32)
      ensures Holds(crc32, [])
      ensures fresh(data) && fresh(checks)
    {
      var samples := new Int16[FRAME](_ => 0);
      var list := new OccurenceList<Checksums>();
      data, check, checks := samples, NO_CHECKSUM, list;
      new;
      assert data[..] == Silence();
    }

    /** The sector is exactly what its reads make of it. */
    ghost predicate Holds(crc32: Crc32, frames: seq<AudioFrame>)
      reads this, data, checks
    {
      && checks.Valid() && checks.pushed == Sums(crc32, frames)
      && data[..] == Kept(crc32, frames)
      && check == Winner(crc32, frames)
    }

    /** Adds one read: counts its checksum, and copies the audio if it takes the lead. */
    method Add(crc32: Crc32, audio: array<Int16>, ghost frames: seq<AudioFrame>)
      requires Holds(crc32, frames)
      requires audio.Length == FRAME && audio != data
      modifies this, data, checks
      ensures Holds(crc32, frames + [audio[..]])
    {
      var check := Checksums(crc32(audio[..]), 0);
      SumsAppend(crc32, frames, audio[..]);
      checks.PushBack(check);
      var copyData := TakesLead(crc32, frames, audio[..]);
      if copyData {
        this.check := check;
        Copy(audio);
      }
    }

    method TakesLead(crc32: Crc32, ghost frames: seq<AudioFrame>, ghost audio: AudioFrame) returns (copyData: bool)
      requires checks.Valid() && checks.pushed == Sums(crc32, frames + [audio])
      requires check == Winner(crc32, frames)
      ensures Winner(crc32, frames + [audio]) == if copyData then Sum(crc32, audio) else Winner(crc32, frames)
      ensures Kept(crc32, frames + [audio]) == if copyData then audio else Kept(crc32, frames)
    {
      var mc := new MostCommonOccurence<Checksums>(NO_CHECKSUM);
      mc.Compute(checks, NO_CHECKSUM);
      copyData := mc.count <= 1 || mc.value.crc != check.crc;
      CopyRule(crc32, frames, audio, mc.value, copyData);
    }

    method Copy(audio: array<Int16>)
      requires audio.Length == data.Length && audio != data
      modifies data
      ensures data[..] == audio[..]
    {
      forall i | 0 <= i < audio.Length {
        data[i] := audio[i];
      }
    }
  }

  ghost function Winner(crc32: Crc32, frames: seq<AudioFrame>): Checksums {
    if frames == [] then NO_CHECKSUM else Leader(Sums(crc32, frames))
  }

  /** The kept frame is one of the reads, and the kept checksum is its checksum. */
  lemma {:induction false} KeptIsARead(crc32: Crc32, frames: seq<AudioFrame>)
    requires frames != []
    ensures Kept(crc32, frames) in frames
    ensures Sum(crc32, Kept(crc32, frames)) == Winner(crc32, frames)
  {
    ReignStartCharacterised(Sums(crc32, frames));
  }

  /** What one more read does to the kept frame and checksum, given the most common
      checksum w found after it. */
  lemma {:induction false} CopyRule(crc32: Crc32, frames: seq<AudioFrame>, audio: AudioFrame, w: Checksums, copy: bool)
    requires IsFirstTop(Sums(crc32, frames + [audio]), w)
    requires copy <==> TopCount(Sums(crc32, frames + [audio])) <= 1 || w.crc != Winner(crc32, frames).crc
    ensures Winner(crc32, frames + [audio]) == if copy then Sum(crc32, audio) else Winner(crc32, frames)
    ensures Kept(crc32, frames + [audio]) == if copy then audio else Kept(crc32, frames)
  {
    var h, y := Sums(crc32, frames), Sum(crc32, audio);
    var g := Sums(crc32, frames + [audio]);
    SumsAppend(crc32, frames, audio);
    assert g == h + [y] && g[..|h|] == h && g[|h|] == y;
    CopyRuleFindsTheLeader(h, y, w);
    if frames != [] {
      assert Leader(h) in h && w in g;
      assert w.blockErrorMask == 0 && Leader(h).blockErrorMask == 0;
      if TopCount(g) <= 1 {
        TopCountIsMaximum(g);
        LoneVotesChangeTheLeader(h, y);
      }
    }
  }

  /** While all votes differ the lead moves with every vote. */
  lemma {:induction false} LoneVotesChangeTheLeader<T(!new)>(h: seq<T>, y: T)
    requires h != [] && TopCount(h + [y]) <= 1
    ensures Leader(h + [y]) == y != Leader(h)
  {
    TopCountIsMaximum(h + [y]);
    TopCountAppend(h, y);
    TopCountIsMaximum(h);
    CountAppend(h, y);
    assert (h + [y])[|h|] == y;
    assert Count(h + [y], Leader(h)) <= TopCount(h + [y]);
  }

  /** The means are absent for an empty database, where the division is 0/0. */
  datatype Statistics = Statistics(minMC: int, maxMC: int, meanMC: Option<real>, meanNrReads: Option<real>)

  const INT_MAX := 0x7fff_ffff

  ghost function Top(crc32: Crc32, frames: seq<AudioFrame>): nat {
    TopCount(Sums(crc32, frames))
  }

  /** The progress reports for n sectors read: one for every 256. */
  function Reports(n: nat): seq<bool> {
    seq((n + 255) / 256, _ => true)
  }

  lemma SettledByCount(crc32: Crc32, frames: seq<AudioFrame>, min: int)
    ensures Settled(crc32, frames, min) <==> Top(crc32, frames) >= min
  {
  }

  lemma ResizedUnchanged(H: History, n: nat)
    requires n <= |H|
    ensures Resized(H, n) == H
  {
  }

  lemma PassBegins(reader: AudioReader, crc32: Crc32, H: History, min: int)
    ensures PassTo(crc32, H, H, min, 0) && Targets(crc32, H, min, 0) == []
    ensures Served(reader.source, reader.log, |reader.log|, H, H)
    ensures Reports(0) == []
  {
  }

  function PlaceOf(n: nat, lba: nat): (p: Place)
    requires lba < n
    ensures p.nrSectors == n && p.lba == lba && p.pct * n as real == lba as real * 100.0
  {
    Place(n, lba, lba as real * 100.0 / n as real)
  }

  /** What the reports before these reads say: they are made before every 256th of them. */
  function Places(n: nat, ts: seq<nat>): seq<Place>
    requires forall k | 0 <= k < |ts| :: ts[k] < n
  {
    seq((|ts| + 255) / 256, k requires 0 <= k < (|ts| + 255) / 256 => PlaceOf(n, ts[256 * k]))
  }

  /** The reports made so far in a pass that has read the sectors ts. */
  ghost predicate Placed(places: seq<Place>, before: seq<Place>, n: nat, ts: seq<nat>) {
    && (forall k | 0 <= k < |ts| :: ts[k] < n)
    && places == before + Places(n, ts)
  }

  /** The reports of a whole pass: the last says where it was cancelled, or that it is done. */
  ghost predicate AllPlaced(places: seq<Place>, before: seq<Place>, n: nat, ts: seq<nat>, upto: nat) {
    && (forall k | 0 <= k < |ts| :: ts[k] < n)
    && places == before + Places(n, ts) + [if upto < n then PlaceOf(n, upto) else Place(n, n, 100.0)]
  }

  /** What a pass that has read the sectors ts has told so far. */
  ghost predicate Reporting(progress: SectorDbProgress?, told: seq<bool>, seen: seq<Place>, n: nat, ts: seq<nat>)
    reads progress
  {
    progress != null ==>
      progress.verdicts == told + Reports(|ts|) && Placed(progress.places, seen, n, ts)
  }

  lemma ReportingIs(progress: SectorDbProgress?, told: seq<bool>, seen: seq<Place>, n: nat, ts: seq<nat>)
    ensures Reporting(progress, told, seen, n, ts) <==>
      (progress != null ==> progress.verdicts == told + Reports(|ts|) && Placed(progress.places, seen, n, ts))
  {
    hide Reports, Placed;
  }

  lemma PlacedStep(places: seq<Place>, before: seq<Place>, n: nat, ts: seq<nat>, lba: nat)
    requires lba < n && Placed(places, before, n, ts)
    ensures |ts| % 256 != 0 ==> Placed(places, before, n, ts + [lba])
    ensures |ts| % 256 == 0 ==> Placed(places + [PlaceOf(n, lba)], before, n, ts + [lba])
    ensures AllPlaced(places + [PlaceOf(n, lba)], before, n, ts, lba)
    ensures PlaceOf(n, lba) == Place(n, lba, lba as real * 100.0 / n as real)
  {
    var more := ts + [lba];
    if |ts| % 256 == 0 {
      assert Places(n, more) == Places(n, ts) + [PlaceOf(n, lba)];
    } else {
      assert Places(n, more) == Places(n, ts);
    }
  }

  lemma PlacedBegins(places: seq<Place>, n: nat)
    ensures Placed(places, places, n, [])
  {
  }

  lemma PlacedFinally(places: seq<Place>, before: seq<Place>, n: nat, ts: seq<nat>)
    requires Placed(places, before, n, ts)
    ensures AllPlaced(places + [Place(n, n, 100.0)], before, n, ts, n)
  {
  }

  lemma ReportsStep(n: nat)
    ensures Reports(n + 1) == if n % 256 == 0 then Reports(n) + [true] else Reports(n)
  {
  }

  lemma SkipStep(crc32: Crc32, H: History, H': History, min: int, lba: nat)
    requires PassTo(crc32, H, H', min, lba) && lba < |H|
    requires Settled(crc32, H'[lba], min)
    ensures PassTo(crc32, H, H', min, lba + 1)
    ensures Targets(crc32, H, min, lba + 1) == Targets(crc32, H, min, lba)
  {
  }

  lemma ReadStep(crc32: Crc32, H: History, H': History, H'': History, min: int, lba: nat, audio: AudioFrame)
    requires PassTo(crc32, H, H', min, lba) && lba < |H|
    requires !Settled(crc32, H'[lba], min)
    requires H'' == H'[lba := H'[lba] + [audio]]
    ensures PassTo(crc32, H, H'', min, lba + 1)
    ensures Targets(crc32, H, min, lba + 1) == Targets(crc32, H, min, lba) + [lba]
  {
  }

  lemma ServedStep(source: (nat, nat) -> AudioFrame, earlier: seq<nat>, log: seq<nat>, H: History, H': History,
                   H'': History, lba: nat, min: int, crc32: Crc32)
    requires PassTo(crc32, H, H', min, lba) && lba < |H|
    requires log == earlier + Targets(crc32, H, min, lba)
    requires Served(source, log, |earlier|, H, H')
    requires H'' == H'[lba := H'[lba] + [source(lba, |log|)]]
    ensures Served(source, log + [lba], |earlier|, H, H'')
  {
    TargetsAreTheUnsettled(crc32, H, min, lba);
    var grown := log + [lba];
    forall k | |earlier| <= k < |grown|
      ensures grown[k] < |H| && H''[grown[k]] == H[grown[k]] + [source(grown[k], k)]
    {
      if k < |log| {
        assert grown[k] == log[k] == Targets(crc32, H, min, lba)[k - |earlier|];
      }
    }
  }

  /** The least of a list of counts, not more than limit. */
  ghost function LeastOf(t: seq<nat>, limit: int): (m: int)
    ensures m <= limit && forall i | 0 <= i < |t| :: m <= t[i]
    ensures m == limit || exists i :: 0 <= i < |t| && t[i] == m
  {
    if t == [] then limit
    else
      var m := LeastOf(t[..|t| - 1], limit);
      if t[|t| - 1] < m then t[|t| - 1] else m
  }

  ghost function GreatestOf(t: seq<nat>): (m: nat)
    ensures forall i | 0 <= i < |t| :: t[i] <= m
    ensures m == 0 || exists i :: 0 <= i < |t| && t[i] == m
  {
    if t == [] then 0
    else
      var m := GreatestOf(t[..|t| - 1]);
      if m < t[|t| - 1] then t[|t| - 1] else m
  }

  /** A pass that read nrRead sectors reported before every 256th of them, was told to go on
      each time, and reported once more: to be cancelled there, or for having finished. */
  ghost predicate Told(before: seq<bool>, after: seq<bool>, nrRead: nat, cancelled: bool) {
    && |after| > 0
    && after == before + Reports(nrRead) + [after[|after| - 1]]
    && (cancelled ==> !after[|after| - 1])
  }

  lemma ToldFinally(before: seq<bool>, nrRead: nat, final: bool)
    ensures Told(before, before + Reports(nrRead) + [final], nrRead, false)
  {
  }

  function Samples(n: nat): nat {
    1176 * n
  }

  function Flatten(frames: seq<AudioFrame>): (s: seq<Int16>)
    ensures |s| == Samples(|frames|)
  {
    if frames == [] then [] else Flatten(frames[..|frames| - 1]) + frames[|frames| - 1]
  }

  ghost function SumOf(t: seq<nat>): nat {
    if t == [] then 0 else SumOf(t[..|t| - 1]) + t[|t| - 1]
  }

  lemma StatisticsBegin(t: seq<nat>, H: History, limit: int)
    ensures LeastOf(t[..0], limit) == limit && GreatestOf(t[..0]) == 0 && SumOf(t[..0]) == 0 && TotalReads(H[..0]) == 0
  {
  }

  lemma StatisticsStep(t: seq<nat>, i: nat, limit: int)
    requires i < |t|
    ensures LeastOf(t[..i + 1], limit) == if t[i] < LeastOf(t[..i], limit) then t[i] else LeastOf(t[..i], limit)
    ensures SumOf(t[..i + 1]) == SumOf(t[..i]) + t[i]
    ensures GreatestOf(t[..i + 1]) == if GreatestOf(t[..i]) < t[i] then t[i] else GreatestOf(t[..i])
  {
    assert t[..i + 1][..i] == t[..i];
  }

  /** n frames from position lba on. */
  function Taken(fs: seq<AudioFrame>, lba: nat, n: nat): (r: seq<AudioFrame>)
    requires n == 0 || lba + n <= |fs|
    ensures |r| == n
  {
    if n == 0 then [] else fs[lba..lba + n]
  }

  /** The buffer with its front overwritten. */
  function Spliced(front: seq<Int16>, buffer: seq<Int16>): (r: seq<Int16>)
    requires |front| <= |buffer|
    ensures |r| == |buffer|
  {
    front + buffer[|front|..]
  }

  /** The buffer with its n-th frame overwritten. */
  function Overwritten(buffer: seq<Int16>, n: nat, frame: AudioFrame): seq<Int16>
    requires Samples(n + 1) <= |buffer|
  {
    buffer[..Samples(n)] + frame + buffer[Samples(n + 1)..]
  }

  lemma SamplesGrow(n: nat)
    ensures forall m: nat | m <= n :: Samples(m) <= Samples(n)
  {
  }

  lemma SpliceBegins(fs: seq<AudioFrame>, lba: nat, buffer: seq<Int16>)
    ensures Spliced(Flatten(Taken(fs, lba, 0)), buffer) == buffer
    ensures Samples(0) == 0
  {
  }

  lemma SpliceStep(fs: seq<AudioFrame>, lba: nat, n: nat, buffer: seq<Int16>)
    requires lba + n < |fs| && Samples(n) <= Samples(n + 1) <= |buffer|
    ensures Overwritten(Spliced(Flatten(Taken(fs, lba, n)), buffer), n, fs[lba + n])
         == Spliced(Flatten(Taken(fs, lba, n + 1)), buffer)
  {
    var t := Taken(fs, lba, n + 1);
    assert t[..n] == Taken(fs, lba, n) && t[n] == fs[lba + n];
    assert Flatten(t) == Flatten(t[..n]) + t[n];
  }

  /** No two sectors share anything, and all they have is in Repr. */
  ghost predicate Separate(sectors: seq<Sector>, Repr: set<object>)
    ensures Separate(sectors, Repr) ==> forall i | 0 <= i < |sectors| ::
      sectors[i] in Repr && sectors[i].data in Repr && sectors[i].checks in Repr
  {
    && (forall i | 0 <= i < |sectors| ::
          sectors[i] in Repr && sectors[i].data in Repr && sectors[i].checks in Repr)
    && (forall i, j | 0 <= i < j < |sectors| ::
          && sectors[i] != sectors[j] && sectors[i].data != sectors[j].data
          && sectors[i].checks != sectors[j].checks)
  }

  lemma OthersSeparate(sectors: seq<Sector>, Repr: set<object>, lba: nat)
    requires Separate(sectors, Repr) && lba < |sectors|
    ensures forall i | 0 <= i < |sectors| && i != lba ::
      && sectors[i] != sectors[lba] && sectors[i].data != sectors[lba].data
      && sectors[i].checks != sectors[lba].checks
  {
  }

  lemma OneMoreSeparate(sectors: seq<Sector>, Repr: set<object>, sector: Sector)
    requires Separate(sectors, Repr)
    requires sector !in Repr && sector.data !in Repr && sector.checks !in Repr
    ensures Separate(sectors + [sector], Repr + {sector, sector.data, sector.checks})
  {
  }

  class SectorDb {
    const crc32: Crc32
    var hw: HardwareInfo
    var toc: Toc
    var sectors: seq<Sector>
    ghost var history: History
    ghost var Repr: set<object>

    ghost predicate Valid()
      reads this, Repr
      ensures Valid() ==> this !in Repr && |history| == |sectors|
    {
      && this !in Repr
      && |history| == |sectors|
      && Separate(sectors, Repr)
      && forall i | 0 <= i < |sectors| :: sectors[i].Holds(crc32, history[i])
    }

    lemma Parts()
      requires Valid()
      ensures Separate(sectors, Repr)
      ensures forall i | 0 <= i < |sectors| :: sectors[i].Holds(crc32, history[i])
    {
      hide Separate, Sector.Holds;
    }

    lemma Whole()
      requires this !in Repr && |history| == |sectors| && Separate(sectors, Repr)
      requires forall i | 0 <= i < |sectors| :: sectors[i].Holds(crc32, history[i])
      ensures Valid()
    {
      hide Separate, Sector.Holds;
    }

    constructor (crc32: Crc32, nrSectors: nat, known: Option<Toc>)
      ensures Valid() && fresh(Repr)
      ensures this.crc32 == crc32
      ensures history == Resized([], nrSectors)
      ensures toc == (match known case Some(t) => t case None => Toc("", "", "", []))
    {
      this.crc32, sectors, history, Repr := crc32, [], [], {};
      hw := HardwareInfo("", "", "");
      toc := match known case Some(t) => t case None => Toc("", "", "", []);
      new;
      Resize(nrSectors);
    }

    method Resize(n: nat)
      requires Valid() && |sectors| <= n
      modifies `sectors, `history, `Repr
      ensures Valid() && fresh(Repr - old(Repr)) && old(Repr) <= Repr
      ensures old(sectors) <= sectors
      ensures history == Resized(old(history), n)
    {
      hide Sector.Holds, Separate;
      while |sectors| < n
        invariant Valid() && |sectors| <= n
        invariant fresh(Repr - old(Repr)) && old(Repr) <= Repr
        invariant old(sectors) <= sectors
        invariant history == Resized(old(history), |sectors|)
      {
        var sector := new Sector(crc32);
        OneMoreSeparate(sectors, Repr, sector);
        sectors := sectors + [sector];
        history := history + [[]];
        Repr := Repr + {sector, sector.data, sector.checks};
      }
    }

    /** Adds one read of sector lba. Not ok stands for the out-of-range exception. */
    method AddAudio(lba: int, audio: array<Int16>) returns (ok: bool)
      requires Valid()
      requires audio.Length == FRAME && audio !in Repr
      modifies this`history, Repr
      ensures Valid()
      ensures ok <==> 0 <= lba < |old(history)|
      ensures history == if ok then old(history)[lba := old(history)[lba] + [audio[..]]] else old(history)
    {
      if !(0 <= lba < |sectors|) {
        return false;
      }
      hide *;
      ghost var frame: AudioFrame := audio[..];
      Parts();
      OthersSeparate(sectors, Repr, lba);
      sectors[lba].Add(crc32, audio, history[lba]);
      history := history[lba := history[lba] + [frame]];
      Whole();
      ok := true;
    }

    /** The count of the most common checksum of a sector. */
    method MostCommonCount(lba: nat) returns (count: nat)
      requires Valid() && lba < |history|
      ensures count == Top(crc32, history[lba])
    {
      var mc := new MostCommonOccurence<Checksums>(NO_CHECKSUM);
      mc.Compute(sectors[lba].checks, NO_CHECKSUM);
      count := mc.count;
    }

    /** Reads sector lba once more, through the buffer of the pass. */
    method ReadSector(reader: AudioReader, lba: nat, buf: array<Int16>)
      requires Valid() && reader !in Repr && buf !in Repr
      requires lba < |history| && buf.Length == FRAME
      modifies this`history, Repr, reader, buf
      ensures Valid()
      ensures history == old(history)[lba := old(history)[lba] + [reader.source(lba, |old(reader.log)|)]]
      ensures reader.log == old(reader.log) + [lba]
    {
      hide *;
      reader.ReadAudio(lba, buf);
      assert Valid();
      var ok := AddAudio(lba, buf);
    }

    /** Reports progress before every 256th read of a pass; whether to go on. ts are the
        sectors the pass has read. */
    method Report(progress: SectorDbProgress?, nrRead: nat, lba: nat, ghost told: seq<bool>, ghost seen: seq<Place>,
                  ghost ts: seq<nat>) returns (go: bool)
      requires lba < |sectors| && |ts| == nrRead
      requires Reporting(progress, told, seen, |sectors|, ts)
      modifies progress
      ensures progress == null ==> go
      ensures go ==> Reporting(progress, told, seen, |sectors|, ts + [lba])
      ensures !go ==>
        && nrRead % 256 == 0 && Told(told, progress.verdicts, nrRead, true)
        && AllPlaced(progress.places, seen, |sectors|, ts, lba)
      ensures progress != null && progress.kind.Worker? ==>
        && (old(progress.cancelled) ==> progress.cancelled && (nrRead == 0 ==> !go))
        && (!progress.cancelled ==> go)
      ensures progress != null && old(progress.Forwards()) ==> progress.Forwards()
      ensures progress != null ==> forall b: nat, c: bool :: old(progress.Heard(b, c)) ==> progress.Heard(b, c)
    {
      go := true;
      if progress != null {
        PlacedStep(progress.places, seen, |sectors|, ts, lba);
      }
      hide Placed, AllPlaced, PlaceOf;
      if progress != null && nrRead % 256 == 0 {
        var pct := lba as real * 100.0 / |sectors| as real;
        go := progress.OnSectorProgress(|sectors|, lba, pct);
      }
      ReportsStep(nrRead);
    }

    /** One pass: reads every sector that has no checksum seen min times, once, in order.
        upto is the sector at which the pass was cancelled, or the number of sectors. */
    method Refine(reader: AudioReader, min: int, progress: SectorDbProgress?) returns (nrRead: nat, ghost upto: nat)
      requires Valid() && reader !in Repr && progress !in Repr
      modifies this, Repr, reader, progress
      ensures Valid() && fresh(Repr - old(Repr)) && upto <= |history|
      ensures toc == (if old(toc).tracks == [] then reader.toc else old(toc)) && hw == reader.hw
      ensures PassTo(crc32, Resized(old(history), reader.size), history, min, upto)
      ensures reader.log == old(reader.log) + Targets(crc32, Resized(old(history), reader.size), min, upto)
      ensures nrRead == |Targets(crc32, Resized(old(history), reader.size), min, upto)|
      ensures Served(reader.source, reader.log, |old(reader.log)|, Resized(old(history), reader.size), history)
      ensures upto < |history| ==> progress != null && !Settled(crc32, history[upto], min) && nrRead % 256 == 0
      ensures progress != null ==>
        && Told(old(progress.verdicts), progress.verdicts, nrRead, upto < |history|)
        && AllPlaced(progress.places, old(progress.places), |history|,
                     Targets(crc32, Resized(old(history), reader.size), min, upto), upto)
      ensures progress != null && progress.kind.Worker? ==>
        && (old(progress.cancelled) ==> nrRead == 0 && progress.cancelled)
        && (!progress.cancelled ==> upto == |history|)
      ensures progress != null && old(progress.Forwards()) ==> progress.Forwards()
      ensures progress != null ==> forall b: nat, c: bool :: old(progress.Heard(b, c)) ==> progress.Heard(b, c)
    {
      hide *;
      Identify(reader);
      if |sectors| < reader.size {
        Resize(reader.size);
      } else {
        ResizedUnchanged(history, reader.size);
      }
      ghost var H, told := history, if progress == null then [] else progress.verdicts;
      ghost var seen := if progress == null then [] else progress.places;
      var reached;
      nrRead, reached := Pass(reader, min, progress);
      upto := reached;
      if reached == |sectors| && progress != null {
        ReportingIs(progress, told, seen, |sectors|, Targets(crc32, H, min, upto));
        PlacedFinally(progress.places, seen, |sectors|, Targets(crc32, H, min, upto));
        var final := progress.OnSectorProgress(|sectors|, |sectors|, 100.0);
        ToldFinally(told, nrRead, final);
      }
    }

    /** The table of contents is read once, the hardware every time. */
    method Identify(reader: AudioReader)
      requires Valid()
      modifies `toc, `hw
      ensures Valid()
      ensures toc == (if old(toc).tracks == [] then reader.toc else old(toc)) && hw == reader.hw
    {
      if |toc.tracks| == 0 {
        toc := reader.toc;
      }
      hw := reader.hw;
    }

    /** The loop over the sectors. */
    method Pass(reader: AudioReader, min: int, progress: SectorDbProgress?) returns (nrRead: nat, upto: nat)
      requires Valid() && reader !in Repr && progress !in Repr
      modifies this`history, Repr, reader, progress
      ensures Valid() && |history| == |old(history)| && upto <= |history|
      ensures PassTo(crc32, old(history), history, min, upto)
      ensures reader.log == old(reader.log) + Targets(crc32, old(history), min, upto)
      ensures nrRead == |Targets(crc32, old(history), min, upto)|
      ensures Served(reader.source, reader.log, |old(reader.log)|, old(history), history)
      ensures upto < |history| ==>
        && progress != null && !Settled(crc32, history[upto], min) && nrRead % 256 == 0
        && Told(old(progress.verdicts), progress.verdicts, nrRead, true)
        && AllPlaced(progress.places, old(progress.places), |history|, Targets(crc32, old(history), min, upto), upto)
      ensures progress != null && upto == |history| ==>
        Reporting(progress, old(progress.verdicts), old(progress.places), |history|,
                  Targets(crc32, old(history), min, upto))
      ensures progress != null && progress.kind.Worker? ==>
        && (old(progress.cancelled) ==> nrRead == 0 && progress.cancelled)
        && (!progress.cancelled ==> upto == |history|)
      ensures progress != null && old(progress.Forwards()) ==> progress.Forwards()
      ensures progress != null ==> forall b: nat, c: bool :: old(progress.Heard(b, c)) ==> progress.Heard(b, c)
    {
      hide *;
      ghost var H := history;
      PassBegins(reader, crc32, H, min);
      var buf := new Int16[FRAME];
      ghost var earlier := reader.log;
      ghost var told := if progress == null then [] else progress.verdicts;
      ghost var seen := if progress == null then [] else progress.places;
      PlacedBegins(seen, |sectors|);
      ReportingIs(progress, told, seen, |sectors|, []);
      nrRead, upto := 0, 0;
      while upto < |sectors|
        invariant Valid() && |sectors| == |H|
        invariant buf !in Repr && fresh(buf)
        invariant upto <= |H|
        invariant PassTo(crc32, H, history, min, upto)
        invariant reader.log == earlier + Targets(crc32, H, min, upto)
        invariant nrRead == |Targets(crc32, H, min, upto)|
        invariant Served(reader.source, reader.log, |earlier|, H, history)
        invariant Reporting(progress, told, seen, |H|, Targets(crc32, H, min, upto))
        invariant progress != null && progress.kind.Worker? && old(progress.cancelled) ==>
          nrRead == 0 && progress.cancelled
        invariant progress != null && old(progress.Forwards()) ==> progress.Forwards()
        invariant progress != null ==> forall b: nat, c: bool :: old(progress.Heard(b, c)) ==> progress.Heard(b, c)
      {
        var count := MostCommonCount(upto);
        SettledByCount(crc32, history[upto], min);
        if count >= min {
          SkipStep(crc32, H, history, min, upto);
          upto := upto + 1;
          continue;
        }
        var go := Report(progress, nrRead, upto, told, seen, Targets(crc32, H, min, upto));
        if !go {
          return;
        }
        ghost var before, log := history, reader.log;
        ReadSector(reader, upto, buf);
        ReadStep(crc32, H, before, history, min, upto, reader.source(upto, |log|));
        ServedStep(reader.source, earlier, log, H, before, history, upto, min, crc32);
        nrRead := nrRead + 1;
        upto := upto + 1;
      }
    }

    method GetStatistics() returns (s: Statistics)
      requires Valid()
      ensures s.minMC == LeastOf(Tops(), INT_MAX)
      ensures s.maxMC == GreatestOf(Tops())
      ensures s.meanMC == if history == [] then None else Some(SumOf(Tops()) as real / |history| as real)
      ensures s.meanNrReads == if history == [] then None else Some(TotalReads(history) as real / |history| as real)
    {
      hide *;
      var minMC, maxMC, sumMC, sumReads := INT_MAX, 0, 0, 0;
      var i := 0;
      StatisticsBegin(Tops(), history, INT_MAX);
      while i < |sectors|
        invariant i <= |sectors| == |history|
        invariant minMC == LeastOf(Tops()[..i], INT_MAX)
        invariant maxMC == GreatestOf(Tops()[..i])
        invariant sumMC == SumOf(Tops()[..i])
        invariant sumReads == TotalReads(history[..i])
      {
        var count := MostCommonCount(i);
        StatisticsStep(Tops(), i, INT_MAX);
        minMC := if count < minMC then count else minMC;
        maxMC := if maxMC < count then count else maxMC;
        sumMC := sumMC + count;
        var n := NrReads(i);
        sumReads := sumReads + n;
        TotalReadsStep(history, i);
        i := i + 1;
      }
      assert history[..i] == history && Tops()[..i] == Tops();
      var nr := |sectors|;
      s := Statistics(minMC, maxMC,
                      if nr == 0 then None else Some(sumMC as real / nr as real),
                      if nr == 0 then None else Some(sumReads as real / nr as real));
    }

    ghost function Tops(): (t: seq<nat>)
      reads this
      ensures |t| == |history|
      ensures forall i | 0 <= i < |t| :: t[i] == Top(crc32, history[i])
    {
      seq(|history|, i requires 0 <= i < |history| reads this => Top(crc32, history[i]))
    }

    method NrReads(lba: nat) returns (n: nat)
      requires Valid() && lba < |history|
      ensures n == |history[lba]|
    {
      n := sectors[lba].checks.Sum();
    }

    /** The audio stored for a sector. */
    ghost function Data(lba: nat): seq<Int16>
      requires Valid() && lba < |history|
      reads this, Repr
    {
      sectors[lba].data[..]
    }

    ghost function Check(lba: nat): Checksums
      requires Valid() && lba < |history|
      reads this, Repr
    {
      sectors[lba].check
    }

    /** The stored audio and checksum are the ones the history calls for. */
    lemma DataIsKept(lba: nat)
      requires Valid() && lba < |history|
      ensures Data(lba) == Kept(crc32, history[lba])
      ensures Check(lba) == Winner(crc32, history[lba])
    {
    }

    /** The frames the database would play back. */
    ghost function Frames(): (fs: seq<AudioFrame>)
      reads this
      ensures |fs| == |history|
      ensures forall i | 0 <= i < |fs| :: fs[i] == Kept(crc32, history[i])
    {
      seq(|history|, i requires 0 <= i < |history| reads this => Kept(crc32, history[i]))
    }

    /** Copies nrFrames kept frames to the front of dst. Not ok stands for the out-of-range
        exception, which leaves the frames before it copied. */
    method ReadAudio(lba: nat, dst: array<Int16>, nrFrames: nat) returns (ok: bool)
      requires Valid() && dst !in Repr
      requires Samples(nrFrames) <= dst.Length
      modifies dst
      ensures ok <==> nrFrames == 0 || lba + nrFrames <= |history|
      ensures var n := if ok then nrFrames else if lba < |history| then |history| - lba else 0;
        && n <= nrFrames && (n > 0 ==> lba + n <= |history|)
        && dst[..] == Spliced(Flatten(Taken(Frames(), lba, n)), old(dst[..]))
    {
      hide *;
      var n := 0;
      SpliceBegins(Frames(), lba, dst[..]);
      SamplesGrow(nrFrames);
      while n < nrFrames
        invariant n <= nrFrames && (n > 0 ==> lba + n <= |history|)
        invariant dst[..] == Spliced(Flatten(Taken(Frames(), lba, n)), old(dst[..]))
      {
        if lba + n >= |sectors| {
          return false;
        }
        SamplesGrow(n + 1);
        CopyOut(lba + n, dst, n);
        SpliceStep(Frames(), lba, n, old(dst[..]));
        n := n + 1;
      }
      ok := true;
    }

    /** Copies the frame of one sector to the n-th frame of dst. */
    method CopyOut(lba: nat, dst: array<Int16>, n: nat)
      requires Valid() && dst !in Repr && lba < |history|
      requires Samples(n + 1) <= dst.Length
      modifies dst
      ensures dst[..] == Overwritten(old(dst[..]), n, Kept(crc32, history[lba]))
    {
      var src := sectors[lba].data;
      forall i | 0 <= i < FRAME {
        dst[Samples(n) + i] := src[i];
      }
      assert src[..] == Kept(crc32, history[lba]);
    }
  }
}
