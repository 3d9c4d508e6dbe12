/** The local cache of disc information, keyed by a hash of the track times. A disc is looked
    up by the hash of its table of contents and stored under the hash of its record. */
module DiscCache {
  import opened TableOfContents
  import opened Bytes
  import opened Options

  datatype TrackInfo = TrackInfo(start: MSF, artist: string, songName: string, isrc: string)

  datatype DiscInfo = DiscInfo(artist: string, title: string, year: int, upc: string, leadout: MSF, track: seq<TrackInfo>)

  /** The hash library: the value of a size, the hash of a number, and the combining step. */
  datatype Hasher<!H> = Hasher(size: nat -> H, number: nat -> H, combine: (H, H) -> H)

  function HashMsf<H>(k: Hasher<H>, t: MSF): H {
    k.combine(k.combine(k.combine(k.size(0), k.number(t.frame)), k.number(t.minute)), k.number(t.second))
  }

  function HashTimes<H>(k: Hasher<H>, seed: H, ts: seq<MSF>): H {
    if ts == [] then seed
    else k.combine(HashTimes(k, seed, ts[..|ts| - 1]), HashMsf(k, ts[|ts| - 1]))
  }

  function HashToc<H>(k: Hasher<H>, tracks: seq<TocEntry>): H {
    HashTimes(k, k.size(|tracks|), Times(tracks))
  }

  function Starts(track: seq<TrackInfo>): (ts: seq<MSF>)
    ensures |ts| == |track|
    ensures forall i | 0 <= i < |track| :: ts[i] == track[i].start
  {
    seq(|track|, i requires 0 <= i < |track| => track[i].start)
  }

  function HashDiscInfo<H>(k: Hasher<H>, di: DiscInfo): H {
    HashTimes(k, k.size(|di.track| + 1), Starts(di.track) + [di.leadout])
  }

  // -- Which records hash like their table of contents --

  /** Every entry but the last is numbered below 99, and the last, the lead-out, is not. */
  predicate LeadOutIsLast(tracks: seq<TocEntry>) {
    && tracks != []
    && tracks[|tracks| - 1].track >= 99
    && forall i | 0 <= i < |tracks| - 1 :: tracks[i].track < 99
  }

  function ToTrackInfo(e: TocEntry): TrackInfo {
    TrackInfo(e.start, e.performer, e.title, e.isrc)
  }

  /** The entries that are not taken for the lead-out. */
  function KeptTracks(tracks: seq<TocEntry>): (r: seq<TrackInfo>)
    ensures |r| <= |tracks|
  {
    if tracks == [] then []
    else
      var n := |tracks| - 1;
      if tracks[n].track < 99 then KeptTracks(tracks[..n]) + [ToTrackInfo(tracks[n])] else KeptTracks(tracks[..n])
  }

  function Created(toc: Toc): DiscInfo
    requires toc.tracks != []
  {
    DiscInfo(toc.performer, toc.title, 0, toc.upc, toc.tracks[|toc.tracks| - 1].start, KeptTracks(toc.tracks))
  }

  /** How many of the first i entries are not taken for the lead-out. */
  function Rank(tracks: seq<TocEntry>, i: nat): (k: nat)
    requires i <= |tracks|
    ensures k <= i
  {
    if i == 0 then 0 else Rank(tracks, i - 1) + if tracks[i - 1].track < 99 then 1 else 0
  }

  /** The track information is that of the entry. */
  predicate Describes(t: TrackInfo, e: TocEntry) {
    t.start == e.start && t.artist == e.performer && t.songName == e.title && t.isrc == e.isrc
  }

  /** Entry i, if it is not taken for the lead-out, is among these tracks, in its place. */
  predicate Listed(track: seq<TrackInfo>, tracks: seq<TocEntry>, i: nat)
    requires i < |tracks|
  {
    tracks[i].track < 99 ==> Rank(tracks, i) < |track| && Describes(track[Rank(tracks, i)], tracks[i])
  }

  /** The record says what the table says: each entry numbered below 99 is a track, in order. */
  ghost predicate Transcribes(r: DiscInfo, toc: Toc) {
    && r.artist == toc.performer && r.title == toc.title && r.year == 0 && r.upc == toc.upc
    && toc.tracks != [] && r.leadout == toc.tracks[|toc.tracks| - 1].start
    && |r.track| == Rank(toc.tracks, |toc.tracks|)
    && (forall i | 0 <= i < |toc.tracks| :: Listed(r.track, toc.tracks, i))
    && (LeadOutIsLast(toc.tracks) ==>
          && |r.track| == |toc.tracks| - 1
          && forall i | 0 <= i < |r.track| :: Describes(r.track[i], toc.tracks[i]))
  }

  lemma KeptStep(tracks: seq<TocEntry>, n: nat)
    requires n < |tracks|
    ensures KeptTracks(tracks[..n + 1])
         == if tracks[n].track < 99 then KeptTracks(tracks[..n]) + [ToTrackInfo(tracks[n])] else KeptTracks(tracks[..n])
  {
    assert tracks[..n + 1][..n] == tracks[..n];
  }

  lemma {:induction false} KeptIsListed(tracks: seq<TocEntry>, n: nat)
    requires n <= |tracks|
    ensures |KeptTracks(tracks[..n])| == Rank(tracks, n)
    ensures forall i | 0 <= i < n :: Listed(KeptTracks(tracks[..n]), tracks, i)
  {
    if n > 0 {
      KeptIsListed(tracks, n - 1);
      KeptStep(tracks, n - 1);
      hide KeptTracks;
      forall i: nat | i < n
        ensures Listed(KeptTracks(tracks[..n]), tracks, i)
      {
        assert i < n - 1 ==> Listed(KeptTracks(tracks[..n - 1]), tracks, i);
      }
    }
  }

  lemma {:induction false} RankIsIndex(tracks: seq<TocEntry>, n: nat)
    requires n <= |tracks| && forall i | 0 <= i < n :: tracks[i].track < 99
    ensures Rank(tracks, n) == n
  {
    if n > 0 {
      RankIsIndex(tracks, n - 1);
    }
  }

  lemma {:induction false} CreatedTranscribes(toc: Toc)
    requires toc.tracks != []
    ensures Transcribes(Created(toc), toc)
  {
    var ts, n := toc.tracks, |toc.tracks|;
    KeptIsListed(ts, n);
    assert ts[..n] == ts;
    hide KeptTracks, ToTrackInfo, Describes;
    if LeadOutIsLast(ts) {
      RankIsIndex(ts, n - 1);
      forall i: nat | i < n - 1
        ensures Describes(Created(toc).track[i], ts[i])
      {
        RankIsIndex(ts, i);
        assert Listed(Created(toc).track, ts, i);
      }
    }
  }

  method CreateDiscInfo(toc: Toc) returns (r: DiscInfo)
    requires toc.tracks != []
    ensures Transcribes(r, toc)
    ensures r == Created(toc)
  {
    var track := [];
    var i := 0;
    while i < |toc.tracks|
      invariant i <= |toc.tracks|
      invariant track == KeptTracks(toc.tracks[..i])
    {
      var tr := toc.tracks[i];
      assert toc.tracks[..i + 1][..i] == toc.tracks[..i];
      if tr.track < 99 {
        track := track + [ToTrackInfo(tr)];
      }
      i := i + 1;
    }
    assert toc.tracks[..i] == toc.tracks;
    r := DiscInfo(toc.performer, toc.title, 0, toc.upc, toc.tracks[|toc.tracks| - 1].start, track);
    CreatedTranscribes(toc);
  }

  function Relabelled(t: TrackInfo, e: TocEntry): TrackInfo {
    t.(start := e.start, isrc := e.isrc)
  }

  /** The times and label data of the disc written over a record found elsewhere. */
  function Merged(toc: Toc, di: DiscInfo): DiscInfo
    requires toc.tracks != []
  {
    di.(upc := toc.upc,
        leadout := toc.tracks[|toc.tracks| - 1].start,
        track := seq(|di.track|, i requires 0 <= i < |di.track| =>
                   if i < |toc.tracks| then Relabelled(di.track[i], toc.tracks[i]) else di.track[i]))
  }

  /** The names are those found, the times and codes those of the disc, as far as it goes. */
  ghost predicate Relabels(di: DiscInfo, toc: Toc, found: DiscInfo) {
    && di.artist == found.artist && di.title == found.title && di.year == found.year
    && toc.tracks != [] && di.upc == toc.upc && di.leadout == toc.tracks[|toc.tracks| - 1].start
    && |di.track| == |found.track|
    && (forall i | 0 <= i < |di.track| ::
          di.track[i].artist == found.track[i].artist && di.track[i].songName == found.track[i].songName)
    && (forall i | 0 <= i < |di.track| && i < |toc.tracks| ::
          di.track[i].start == toc.tracks[i].start && di.track[i].isrc == toc.tracks[i].isrc)
    && (forall i | |toc.tracks| <= i < |di.track| :: di.track[i] == found.track[i])
  }

  method Merge(toc: Toc, found: DiscInfo) returns (di: DiscInfo)
    requires toc.tracks != []
    ensures Relabels(di, toc, found)
    ensures di == Merged(toc, found)
  {
    di := found.(upc := toc.upc);
    var t := 0;
    while t < |toc.tracks| && t < |di.track|
      invariant 0 <= t && |di.track| == |found.track|
      invariant di == found.(upc := toc.upc, track := di.track)
      invariant forall i | 0 <= i < |found.track| ::
        di.track[i] == if i < t && i < |toc.tracks| then Relabelled(found.track[i], toc.tracks[i]) else found.track[i]
    {
      di := di.(track := di.track[t := Relabelled(di.track[t], toc.tracks[t])]);
      t := t + 1;
    }
    di := di.(leadout := toc.tracks[|toc.tracks| - 1].start);
    assert di.track == Merged(toc, found).track;
  }

  method HashTocLoop<H>(k: Hasher<H>, toc: Toc) returns (seed: H)
    ensures seed == HashToc(k, toc.tracks)
  {
    seed := k.size(|toc.tracks|);
    var i := 0;
    ghost var ts := Times(toc.tracks);
    while i < |toc.tracks|
      invariant i <= |toc.tracks|
      invariant seed == HashTimes(k, k.size(|toc.tracks|), ts[..i])
    {
      assert ts[..i + 1][..i] == ts[..i];
      seed := k.combine(seed, HashMsf(k, toc.tracks[i].start));
      i := i + 1;
    }
    assert ts[..i] == ts;
  }

  method HashDiscInfoLoop<H>(k: Hasher<H>, di: DiscInfo) returns (seed: H)
    ensures seed == HashDiscInfo(k, di)
  {
    seed := k.size(|di.track| + 1);
    var i := 0;
    ghost var ts := Starts(di.track) + [di.leadout];
    while i < |di.track|
      invariant i <= |di.track|
      invariant seed == HashTimes(k, k.size(|di.track| + 1), ts[..i])
    {
      assert ts[..i + 1][..i] == ts[..i];
      seed := k.combine(seed, HashMsf(k, di.track[i].start));
      i := i + 1;
    }
    assert ts[..i + 1][..i] == ts[..i] && ts[..i + 1] == ts;
    seed := k.combine(seed, HashMsf(k, di.leadout));
  }

  lemma {:induction false} KeptTracksCount(tracks: seq<TocEntry>)
    ensures |KeptTracks(tracks)| == |tracks| <==> forall i | 0 <= i < |tracks| :: tracks[i].track < 99
    ensures |KeptTracks(tracks)| == |tracks| ==> Starts(KeptTracks(tracks)) == Times(tracks)
  {
    if tracks != [] {
      KeptTracksCount(tracks[..|tracks| - 1]);
    }
  }

  /** With the lead-out last, the record made from a table of contents hashes like it,
      whatever the hash function. */
  lemma {:induction false} CreatedHashesAlike<H>(k: Hasher<H>, toc: Toc)
    requires LeadOutIsLast(toc.tracks)
    ensures HashDiscInfo(k, Created(toc)) == HashToc(k, toc.tracks)
  {
    var n := |toc.tracks| - 1;
    KeptTracksCount(toc.tracks[..n]);
    assert Starts(Created(toc).track) + [Created(toc).leadout] == Times(toc.tracks);
  }

  /** Likewise for a merged record with one track less than the table has entries. */
  lemma {:induction false} MergedHashesAlike<H>(k: Hasher<H>, toc: Toc, di: DiscInfo)
    requires toc.tracks != [] && |di.track| + 1 == |toc.tracks|
    ensures HashDiscInfo(k, Merged(toc, di)) == HashToc(k, toc.tracks)
  {
    assert Starts(Merged(toc, di).track) + [Merged(toc, di).leadout] == Times(toc.tracks);
  }

  /** The hash of one entry, written out: first the frame, then the minute and the second. */
  lemma HashOfOneEntry<H>(k: Hasher<H>, e: TocEntry)
    ensures HashToc(k, [e]) == k.combine(k.size(1),
      k.combine(k.combine(k.combine(k.size(0), k.number(e.start.frame)), k.number(e.start.minute)),
                k.number(e.start.second)))
  {
    var ts := Times([e]);
    assert ts == [e.start] && ts[..0] == [];
    assert HashTimes(k, k.size(1), ts[..0]) == k.size(1);
  }

  // -- Exactly which --

  /** The hash function that forgets nothing: it keeps the expression. */
  datatype Term = Size(n: nat) | Number(n: nat) | Combine(left: Term, right: Term)

  function FreeHasher(): Hasher<Term> {
    Hasher(n => Size(n), n => Number(n), (a, b) => Combine(a, b))
  }

  function Evaluate<H>(k: Hasher<H>, t: Term): H {
    match t
    case Size(n) => k.size(n)
    case Number(n) => k.number(n)
    case Combine(a, b) => k.combine(Evaluate(k, a), Evaluate(k, b))
  }

  lemma EvaluateMsf<H>(k: Hasher<H>, t: MSF)
    ensures Evaluate(k, HashMsf(FreeHasher(), t)) == HashMsf(k, t)
  {
    var a := Combine(Size(0), Number(t.frame));
    var b := Combine(a, Number(t.minute));
    assert Evaluate(k, a) == k.combine(k.size(0), k.number(t.frame));
    assert Evaluate(k, b) == k.combine(Evaluate(k, a), k.number(t.minute));
  }

  lemma {:induction false} EvaluateTimes<H>(k: Hasher<H>, seed: Term, ts: seq<MSF>)
    ensures Evaluate(k, HashTimes(FreeHasher(), seed, ts)) == HashTimes(k, Evaluate(k, seed), ts)
  {
    if ts != [] {
      EvaluateTimes(k, seed, ts[..|ts| - 1]);
      var t := ts[|ts| - 1];
      EvaluateMsf(k, t);
    }
  }

  /** A record and a table that agree under the free hash agree under every hash. */
  lemma FreeAgreementIsAgreement<H>(k: Hasher<H>, di: DiscInfo, tracks: seq<TocEntry>)
    requires HashDiscInfo(FreeHasher(), di) == HashToc(FreeHasher(), tracks)
    ensures HashDiscInfo(k, di) == HashToc(k, tracks)
  {
    EvaluateTimes(k, Size(|di.track| + 1), Starts(di.track) + [di.leadout]);
    EvaluateTimes(k, Size(|tracks|), Times(tracks));
  }

  lemma {:induction false} FreeHashIsInjective(m: nat, ts: seq<MSF>, n: nat, us: seq<MSF>)
    requires HashTimes(FreeHasher(), Size(m), ts) == HashTimes(FreeHasher(), Size(n), us)
    ensures m == n && ts == us
  {
    if ts != [] && us != [] {
      FreeHashIsInjective(m, ts[..|ts| - 1], n, us[..|us| - 1]);
      assert ts == ts[..|ts| - 1] + [ts[|ts| - 1]] && us == us[..|us| - 1] + [us[|us| - 1]];
    }
  }

  /** Entry j alone is numbered 99 or more, and it and all entries after it start together. */
  predicate DropsLeadOutTime(tracks: seq<TocEntry>, j: nat) {
    && j < |tracks|
    && (forall i | 0 <= i < |tracks| :: tracks[i].track >= 99 <==> i == j)
    && (forall i | j <= i < |tracks| :: tracks[i].start == tracks[j].start)
  }

  /** When j alone is dropped, the entries behind it move up. */
  lemma {:induction false} DropMovesUp(tracks: seq<TocEntry>, j: nat)
    requires j < |tracks| && forall i | 0 <= i < |tracks| :: tracks[i].track >= 99 <==> i == j
    ensures Starts(KeptTracks(tracks)) == Times(tracks)[..j] + Times(tracks)[j + 1..]
  {
    var n := |tracks| - 1;
    if j == n {
      KeptTracksCount(tracks[..n]);
    } else {
      DropMovesUp(tracks[..n], j);
      assert Times(tracks[..n])[j + 1..] + [tracks[n].start] == Times(tracks)[j + 1..];
    }
  }

  lemma {:induction false} OneDropped(tracks: seq<TocEntry>) returns (j: nat)
    requires |KeptTracks(tracks)| + 1 == |tracks|
    ensures j < |tracks| && forall i | 0 <= i < |tracks| :: tracks[i].track >= 99 <==> i == j
  {
    var n := |tracks| - 1;
    if tracks[n].track < 99 {
      j := OneDropped(tracks[..n]);
    } else {
      KeptTracksCount(tracks[..n]);
      j := n;
    }
  }

  lemma {:induction false} MovedUpUnchanged(ts: seq<MSF>, j: nat)
    requires j < |ts|
    ensures ts[..j] + ts[j + 1..] + [ts[|ts| - 1]] == ts <==> forall i | j <= i < |ts| :: ts[i] == ts[j]
  {
    var us := ts[..j] + ts[j + 1..] + [ts[|ts| - 1]];
    if us == ts {
      var k := j;
      while k < |ts| - 1
        invariant j <= k < |ts| && forall i | j <= i <= k :: ts[i] == ts[j]
      {
        assert us[k] == ts[k + 1];
        k := k + 1;
      }
    }
  }

  /** The record made from a table of contents agrees with it under every hash exactly when
      one entry is numbered 99 or more and no later one starts at another time. So the lead-out
      must be that entry, unless the last entries coincide: a 99th track is mistaken for it. */
  lemma {:induction false} CreatedAgreesIff(toc: Toc)
    requires toc.tracks != []
    ensures HashDiscInfo(FreeHasher(), Created(toc)) == HashToc(FreeHasher(), toc.tracks)
       <==> exists j :: DropsLeadOutTime(toc.tracks, j)
  {
    hide HashDiscInfo, HashToc, Created;
    if HashDiscInfo(FreeHasher(), Created(toc)) == HashToc(FreeHasher(), toc.tracks) {
      AgreesAsSequences(toc);
      var j := OneDropped(toc.tracks);
      AgreesWhenMovedUp(toc, j);
    }
    if j :| DropsLeadOutTime(toc.tracks, j) {
      AgreesWhenMovedUp(toc, j);
    }
  }

  lemma AgreesAsSequences(toc: Toc)
    requires toc.tracks != []
    ensures HashDiscInfo(FreeHasher(), Created(toc)) == HashToc(FreeHasher(), toc.tracks)
       <==> Starts(KeptTracks(toc.tracks)) + [toc.tracks[|toc.tracks| - 1].start] == Times(toc.tracks)
  {
    hide KeptTracks, HashTimes, Times, Starts;
    var kept, ts := KeptTracks(toc.tracks), Times(toc.tracks);
    if HashDiscInfo(FreeHasher(), Created(toc)) == HashToc(FreeHasher(), toc.tracks) {
      FreeHashIsInjective(|kept| + 1, Starts(kept) + [Created(toc).leadout], |ts|, ts);
    }
  }

  lemma AgreesWhenMovedUp(toc: Toc, j: nat)
    requires j < |toc.tracks| && forall i | 0 <= i < |toc.tracks| :: toc.tracks[i].track >= 99 <==> i == j
    ensures HashDiscInfo(FreeHasher(), Created(toc)) == HashToc(FreeHasher(), toc.tracks)
       <==> DropsLeadOutTime(toc.tracks, j)
  {
    hide HashDiscInfo, HashToc, Created, KeptTracks;
    AgreesAsSequences(toc);
    DropMovesUp(toc.tracks, j);
    MovedUpUnchanged(Times(toc.tracks), j);
  }

  /** A disc of one track, number 99, and its lead-out is never found again. */
  lemma NinetyNinthTrackIsLost(a: TocEntry, b: TocEntry)
    requires a.track == 99 && b.track == 170
    ensures HashDiscInfo(FreeHasher(), Created(Toc("", "", "", [a, b]))) != HashToc(FreeHasher(), [a, b])
  {
    var toc := Toc("", "", "", [a, b]);
    assert toc.tracks[..1] == [a];
    assert KeptTracks(toc.tracks) == [];
    if HashDiscInfo(FreeHasher(), Created(toc)) == HashToc(FreeHasher(), toc.tracks) {
      FreeHashIsInjective(1, Starts([]) + [b.start], 2, Times(toc.tracks));
    }
  }

  /** A merged record agrees exactly when it has one track less than the table has entries. */
  lemma {:induction false} MergedAgreesIff(toc: Toc, di: DiscInfo)
    requires toc.tracks != []
    ensures HashDiscInfo(FreeHasher(), Merged(toc, di)) == HashToc(FreeHasher(), toc.tracks)
       <==> |di.track| + 1 == |toc.tracks|
  {
    if |di.track| + 1 == |toc.tracks| {
      MergedHashesAlike(FreeHasher(), toc, di);
    } else if HashDiscInfo(FreeHasher(), Merged(toc, di)) == HashToc(FreeHasher(), toc.tracks) {
      var m := Merged(toc, di);
      FreeHashIsInjective(|m.track| + 1, Starts(m.track) + [m.leadout], |toc.tracks|, Times(toc.tracks));
    }
  }

  // -- The cache --

  class DiscInfoDatabase<H> {
    const hasher: Hasher<H>
    const low32: H -> U32
    var cache: map<U32, DiscInfo>

    constructor (hasher: Hasher<H>, low32: H -> U32, cache: map<U32, DiscInfo>)
      ensures this.hasher == hasher && this.low32 == low32 && this.cache == cache
    {
      this.hasher, this.low32, this.cache := hasher, low32, cache;
    }

    method Has(toc: Toc) returns (r: bool)
      ensures r <==> TocKey(hasher, low32, toc) in cache
    {
      var seed := HashTocLoop(hasher, toc);
      r := low32(seed) in cache;
    }

    method Get(toc: Toc) returns (r: Option<DiscInfo>)
      ensures r == Lookup(cache, TocKey(hasher, low32, toc))
    {
      var seed := HashTocLoop(hasher, toc);
      r := if low32(seed) in cache then Some(cache[low32(seed)]) else None;
    }

    method Store(di: DiscInfo)
      modifies `cache
      ensures cache == old(cache)[Key(hasher, low32, di) := di]
    {
      var hash := HashDiscInfoLoop(hasher, di);
      cache := cache[low32(hash) := di];
    }

    /** found is CDDB's first answer. agrees is what the program asserts about the two hashes. */
    method Query(toc: Toc, found: Option<DiscInfo>) returns (di: DiscInfo, agrees: bool)
      requires toc.tracks != []
      modifies `cache
      ensures found == None ==> di == UNKNOWN && agrees && cache == old(cache)
      ensures found != None ==>
        && Relabels(di, toc, found.value) && di == Merged(toc, found.value)
        && cache == old(cache)[Key(hasher, low32, di) := di]
        && (agrees <==> Key(hasher, low32, di) == TocKey(hasher, low32, toc))
      ensures found != None && |found.value.track| + 1 == |toc.tracks| ==> agrees
    {
      if found == None {
        return UNKNOWN, true;
      }
      di := Merge(toc, found.value);
      var hash := HashDiscInfoLoop(hasher, di);
      var hash2 := HashTocLoop(hasher, toc);
      agrees := low32(hash) == low32(hash2);
      cache := cache[low32(hash) := di];
      if |found.value.track| + 1 == |toc.tracks| {
        MergedHashesAlike(hasher, toc, found.value);
      }
    }
  }

  const UNKNOWN := DiscInfo("", "", 0, "", MSF(0, 0, 0), [])

  function TocKey<H>(k: Hasher<H>, low32: H -> U32, toc: Toc): U32 {
    low32(HashToc(k, toc.tracks))
  }

  function Key<H>(k: Hasher<H>, low32: H -> U32, di: DiscInfo): U32 {
    low32(HashDiscInfo(k, di))
  }

  function Lookup(cache: map<U32, DiscInfo>, key: U32): Option<DiscInfo> {
    if key in cache then Some(cache[key]) else None
  }

  /** One disc put in the drive: its quickly read table of contents, the table read in full,
      and what CDDB would answer. */
  datatype Visit = Visit(quick: Toc, full: Toc, found: Option<DiscInfo>)

  /** The record a first visit stores: made from CD-Text if there is any, or else from CDDB. */
  function NewRecord(v: Visit): Option<DiscInfo>
    requires v.full.tracks != []
  {
    if v.full.performer != "" && v.full.title != "" then Some(Created(v.full))
    else if v.found == None then None
    else Some(Merged(v.full, v.found.value))
  }

  /** The information on the disc, from the cache if its times were seen before. */
  method GetInfo<H>(db: DiscInfoDatabase<H>, v: Visit) returns (di: DiscInfo)
    requires v.full.tracks != []
    modifies db`cache
    ensures var hit := Lookup(old(db.cache), TocKey(db.hasher, db.low32, v.quick));
      && (hit != None ==> di == hit.value && db.cache == old(db.cache))
      && (hit == None ==> di == (if NewRecord(v) == None then UNKNOWN else NewRecord(v).value))
      && db.cache == After(db.hasher, db.low32, old(db.cache), v)
    ensures Lookup(old(db.cache), TocKey(db.hasher, db.low32, v.quick)) == None ==>
      if v.full.performer != "" && v.full.title != "" then Transcribes(di, v.full)
      else if v.found != None then Relabels(di, v.full, v.found.value)
      else di == DiscInfo("", "", 0, "", MSF(0, 0, 0), [])
  {
    var has := db.Has(v.quick);
    if !has {
      if v.full.performer != "" && v.full.title != "" {
        di := CreateDiscInfo(v.full);
        db.Store(di);
      } else {
        var agrees;
        di, agrees := db.Query(v.full, v.found);
      }
    } else {
      var r := db.Get(v.quick);
      di := r.value;
    }
  }

  function After<H>(k: Hasher<H>, low32: H -> U32, cache: map<U32, DiscInfo>, v: Visit): map<U32, DiscInfo>
    requires v.full.tracks != []
  {
    if TocKey(k, low32, v.quick) in cache || NewRecord(v) == None then cache
    else cache[Key(k, low32, NewRecord(v).value) := NewRecord(v).value]
  }

  function AfterAll<H>(k: Hasher<H>, low32: H -> U32, cache: map<U32, DiscInfo>, vs: seq<Visit>): map<U32, DiscInfo>
    requires forall v | v in vs :: v.full.tracks != []
  {
    if vs == [] then cache else After(k, low32, AfterAll(k, low32, cache, vs[..|vs| - 1]), vs[|vs| - 1])
  }

  /** The record of this visit carries the table's own key. */
  predicate Agrees(v: Visit) {
    && v.full.tracks != [] && Times(v.full.tracks) == Times(v.quick.tracks)
    && (v.full.performer != "" && v.full.title != "" ==> LeadOutIsLast(v.full.tracks))
    && (!(v.full.performer != "" && v.full.title != "") ==>
          v.found != None && |v.found.value.track| + 1 == |v.full.tracks|)
  }

  /** A disc seen once is recognised by its times: after any other visits that store nothing
      under the same key, a table with the same times finds the record stored for it. */
  lemma {:induction false} LaterVisitHits<H>(k: Hasher<H>, low32: H -> U32, cache: map<U32, DiscInfo>, v: Visit,
                                             others: seq<Visit>, again: Toc)
    requires Agrees(v) && TocKey(k, low32, v.quick) !in cache
    requires Times(again.tracks) == Times(v.quick.tracks)
    requires forall o | o in others ::
      o.full.tracks != [] && (NewRecord(o) != None ==> Key(k, low32, NewRecord(o).value) != TocKey(k, low32, again))
    ensures Lookup(AfterAll(k, low32, After(k, low32, cache, v), others), TocKey(k, low32, again)) == NewRecord(v)
  {
    if others == [] {
      if v.full.performer != "" && v.full.title != "" {
        CreatedHashesAlike(k, v.full);
      } else {
        MergedHashesAlike(k, v.full, v.found.value);
      }
    } else {
      assert others[|others| - 1] in others;
      LaterVisitHits(k, low32, cache, v, others[..|others| - 1], again);
    }
  }
}
