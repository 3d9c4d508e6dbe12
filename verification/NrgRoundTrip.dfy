/** Nero images written down chunk by chunk, and what the walker makes of them. */
module NrgRoundTrip {
  import opened Bytes
  import opened Options
  import opened Nrg

  /** The bytes of an identifier. */
  function Ascii(s: string): (b: seq<U8>)
    requires forall i | 0 <= i < |s| :: s[i] < 128 as char
    ensures |b| == |s|
  {
    seq(|s|, i requires 0 <= i < |s| => s[i] as int)
  }

  /** The reader looks for the right ones. */
  lemma Spelled()
    ensures Ascii("CUEX") == CUEX() && Ascii("DAOX") == DAOX() && Ascii("CDTX") == CDTX()
    ensures Ascii("SINF") == SINF() && Ascii("END!") == END()
    ensures Ascii("NERO") == NERO() && Ascii("NER5") == NER5()
  {
  }

  function EncodeCue(c: CuePoint): (b: seq<U8>)
    ensures |b| == 8
  {
    [c.mode, c.trackNumber, c.indexNumber, 0] + ToBytes(c.lba, 4)
  }

  function EncodeTrack(t: DaoTrack): (b: seq<U8>)
    ensures |b| == 42
  {
    t.isrc + ToBytes(t.sectorSize, 2) + ToBytes(t.dataMode, 2) + [0, 0]
    + ToBytes(t.index0, 8) + ToBytes(t.index1, 8) + ToBytes(t.indexEnd, 8)
  }

  function EncodeEntry(e: CdTextEntry): (b: seq<U8>)
    ensures |b| == 18
  {
    [e.packType, e.packTypeTrack, e.packNumber, e.blockNumber] + e.text + ToBytes(e.crc, 2)
  }

  function CueTable(cs: seq<CuePoint>): (b: seq<U8>)
    ensures |b| == 8 * |cs|
  {
    if cs == [] then [] else CueTable(cs[..|cs| - 1]) + EncodeCue(cs[|cs| - 1])
  }

  function TrackTable(ts: seq<DaoTrack>): (b: seq<U8>)
    ensures |b| == 42 * |ts|
  {
    if ts == [] then [] else TrackTable(ts[..|ts| - 1]) + EncodeTrack(ts[|ts| - 1])
  }

  function EntryTable(es: seq<CdTextEntry>): (b: seq<U8>)
    ensures |b| == 18 * |es|
  {
    if es == [] then [] else EntryTable(es[..|es| - 1]) + EncodeEntry(es[|es| - 1])
  }

  datatype Chunk =
    | CueChunk(points: seq<CuePoint>)
    | DaoChunk(size2: U32, upc: Upc, toc: U16, firstTrack: U8, lastTrack: U8, tracks: seq<DaoTrack>)
    | CdTextChunk(entries: seq<CdTextEntry>)
    | OtherChunk(id: Id, payload: seq<U8>)

  function IdOf(c: Chunk): Id {
    match c
    case CueChunk(_) => Ascii("CUEX")
    case DaoChunk(_, _, _, _, _, _) => Ascii("DAOX")
    case CdTextChunk(_) => Ascii("CDTX")
    case OtherChunk(id, _) => id
  }

  function Payload(c: Chunk): seq<U8> {
    match c
    case CueChunk(points) => CueTable(points)
    case DaoChunk(size2, upc, toc, first, last, tracks) =>
      ToBytes(size2, 4) + upc + [0] + ToBytes(toc, 2) + [first, last] + TrackTable(tracks)
    case CdTextChunk(entries) => EntryTable(entries)
    case OtherChunk(_, payload) => payload
  }

  /** The payload's length fits its field; for a chunk the walker does not know, also with the
      8 bytes of the header added. */
  predicate WellFormed(c: Chunk) {
    && |Payload(c)| < 0x1_0000_0000
    && (c.OtherChunk? ==>
          && c.id != Ascii("CUEX") && c.id != Ascii("DAOX") && c.id != Ascii("CDTX") && c.id != Ascii("END!")
          && (c.id != Ascii("SINF") ==> |Payload(c)| < 0x1_0000_0000 - 8))
  }

  function Encode(c: Chunk): (b: seq<U8>)
    ensures |b| == 8 + |Payload(c)|
  {
    IdOf(c) + ToBytes(|Payload(c)|, 4) + Payload(c)
  }

  function EncodeAll(cs: seq<Chunk>): seq<U8> {
    if cs == [] then [] else Encode(cs[0]) + EncodeAll(cs[1..])
  }

  // -- Records --

  /** b stands at position p of f. */
  predicate At(f: seq<U8>, p: nat, b: seq<U8>) {
    p + |b| <= |f| && f[p..p + |b|] == b
  }

  lemma AtParts(f: seq<U8>, p: nat, a: seq<U8>, b: seq<U8>)
    requires At(f, p, a + b)
    ensures At(f, p, a) && At(f, p + |a|, b)
  {
    var all := f[p..p + |a + b|];
    assert a == all[..|a|] && b == all[|a|..];
    assert all[..|a|] == f[p..p + |a|] && all[|a|..] == f[p + |a|..p + |a| + |b|];
  }

  lemma AtByte(f: seq<U8>, p: nat, b: seq<U8>, i: nat)
    requires At(f, p, b) && i < |b|
    ensures f[p + i] == b[i]
  {
    assert f[p..p + |b|][i] == f[p + i];
  }

  lemma NumberAt(f: seq<U8>, p: nat, x: nat, n: nat)
    requires At(f, p, ToBytes(x, n)) && x < Pow256(n)
    ensures Read(f, p, n) == x
  {
    BytesRoundTrip(x, n);
  }

  lemma CueReadBack(f: seq<U8>, p: nat, c: CuePoint)
    requires At(f, p, EncodeCue(c))
    ensures p + 8 <= |f| && CueAt(f, p) == c
  {
    var head: seq<U8> := [c.mode, c.trackNumber, c.indexNumber, 0];
    AtParts(f, p, head, ToBytes(c.lba, 4));
    Pow256Values();
    NumberAt(f, p + 4, c.lba, 4);
    AtByte(f, p, head, 0);
    AtByte(f, p, head, 1);
    AtByte(f, p, head, 2);
  }

  lemma EntryReadBack(f: seq<U8>, p: nat, e: CdTextEntry)
    requires At(f, p, EncodeEntry(e))
    ensures p + 18 <= |f| && EntryAt(f, p) == e
  {
    var head: seq<U8> := [e.packType, e.packTypeTrack, e.packNumber, e.blockNumber];
    AtParts(f, p, head + e.text, ToBytes(e.crc, 2));
    AtParts(f, p, head, e.text);
    Pow256Values();
    NumberAt(f, p + 16, e.crc, 2);
    AtByte(f, p, head, 0);
    AtByte(f, p, head, 1);
    AtByte(f, p, head, 2);
    AtByte(f, p, head, 3);
  }

  lemma TrackReadBack(f: seq<U8>, p: nat, t: DaoTrack)
    requires At(f, p, EncodeTrack(t))
    ensures p + 42 <= |f| && TrackAt(f, p) == t
  {
    var b1 := t.isrc + ToBytes(t.sectorSize, 2);
    var b2 := b1 + ToBytes(t.dataMode, 2);
    var b3 := b2 + [0, 0];
    var b4 := b3 + ToBytes(t.index0, 8);
    var b5 := b4 + ToBytes(t.index1, 8);
    AtParts(f, p, b5, ToBytes(t.indexEnd, 8));
    AtParts(f, p, b4, ToBytes(t.index1, 8));
    AtParts(f, p, b3, ToBytes(t.index0, 8));
    AtParts(f, p, b2, [0, 0]);
    AtParts(f, p, b1, ToBytes(t.dataMode, 2));
    AtParts(f, p, t.isrc, ToBytes(t.sectorSize, 2));
    Pow256Values();
    NumberAt(f, p + 12, t.sectorSize, 2);
    NumberAt(f, p + 14, t.dataMode, 2);
    NumberAt(f, p + 18, t.index0, 8);
    NumberAt(f, p + 26, t.index1, 8);
    NumberAt(f, p + 34, t.indexEnd, 8);
  }

  lemma {:induction false} CuesReadBack(f: seq<U8>, p: nat, cs: seq<CuePoint>, n: nat)
    requires At(f, p, CueTable(cs)) && n <= |cs|
    ensures p + 8 * n <= |f| && Cues(f, p, n) == cs[..n]
    decreases |cs|
  {
    if cs != [] {
      var k := |cs| - 1;
      AtParts(f, p, CueTable(cs[..k]), EncodeCue(cs[k]));
      CuesReadBack(f, p, cs[..k], if n <= k then n else k);
      CueReadBack(f, p + 8 * k, cs[k]);
      assert n == k + 1 ==> Cues(f, p, n) == Cues(f, p, k) + [CueAt(f, p + 8 * k)];
    }
  }

  lemma {:induction false} TracksReadBack(f: seq<U8>, p: nat, ts: seq<DaoTrack>)
    requires At(f, p, TrackTable(ts))
    ensures p + 42 * |ts| <= |f| && Tracks(f, p, |ts|) == ts
  {
    if ts != [] {
      var k := |ts| - 1;
      AtParts(f, p, TrackTable(ts[..k]), EncodeTrack(ts[k]));
      TracksReadBack(f, p, ts[..k]);
      TrackReadBack(f, p + 42 * k, ts[k]);
      assert Tracks(f, p, k + 1) == Tracks(f, p, k) + [TrackAt(f, p + 42 * k)];
    }
  }

  lemma {:induction false} EntriesReadBack(f: seq<U8>, p: nat, es: seq<CdTextEntry>)
    requires At(f, p, EntryTable(es))
    ensures p + 18 * |es| <= |f| && Entries(f, p, |es|) == es
  {
    if es != [] {
      var k := |es| - 1;
      AtParts(f, p, EntryTable(es[..k]), EncodeEntry(es[k]));
      EntriesReadBack(f, p, es[..k]);
      EntryReadBack(f, p + 18 * k, es[k]);
      assert Entries(f, p, k + 1) == Entries(f, p, k) + [EntryAt(f, p + 18 * k)];
    }
  }

  // -- Chunks --

  /** The reader's loop stops one record early in a CUEX table. */
  function WithoutLast(points: seq<CuePoint>): seq<CuePoint> {
    if points == [] then [] else points[..|points| - 1]
  }

  /** What one chunk at position p contributes. */
  function Effect(c: Chunk, p: nat, st: Parsed): Parsed {
    var st' := st.(visited := st.visited + [p]);
    match c
    case CueChunk(points) => st'.(cues := WithoutLast(points))
    case DaoChunk(size2, upc, toc, first, last, tracks) =>
      st'.(dao := Dao(22 + 42 * |tracks|, size2, upc, toc, first, last, st.dao.tracks + tracks))
    case CdTextChunk(entries) => st'.(cdText := entries)
    case OtherChunk(_, _) => st'
  }

  lemma HeaderReadBack(f: seq<U8>, p: nat, c: Chunk)
    requires At(f, p, Encode(c)) && |Payload(c)| < 0x1_0000_0000
    ensures p + 8 + |Payload(c)| <= |f|
    ensures IdAt(f, p) == IdOf(c) && SizeAt(f, p) == |Payload(c)|
    ensures At(f, p + 8, Payload(c))
  {
    AtParts(f, p, IdOf(c) + ToBytes(|Payload(c)|, 4), Payload(c));
    AtParts(f, p, IdOf(c), ToBytes(|Payload(c)|, 4));
    Pow256Values();
    NumberAt(f, p + 4, |Payload(c)|, 4);
  }

  lemma CueChunkReadBack(f: seq<U8>, p: nat, c: Chunk, st: Parsed)
    requires c.CueChunk? && At(f, p, Encode(c)) && WellFormed(c)
    ensures p + 8 <= |f| && Fits(f, p) && Visit(f, p, st) == Effect(c, p, st)
  {
    Spelled();
    HeaderReadBack(f, p, c);
    var n := |c.points|;
    assert RecordCount(8, 8, 8 * n) == if n == 0 then 0 else n - 1;
    CuesReadBack(f, p + 8, c.points, RecordCount(8, 8, 8 * n));
  }

  lemma CdTextChunkReadBack(f: seq<U8>, p: nat, c: Chunk, st: Parsed)
    requires c.CdTextChunk? && At(f, p, Encode(c)) && WellFormed(c)
    ensures p + 8 <= |f| && Fits(f, p) && Visit(f, p, st) == Effect(c, p, st)
  {
    Spelled();
    HeaderReadBack(f, p, c);
    var n := |c.entries|;
    assert RecordCount(8, 18, 18 * n) == n;
    EntriesReadBack(f, p + 8, c.entries);
  }

  lemma DaoHeaderReadBack(f: seq<U8>, p: nat, c: Chunk)
    requires c.DaoChunk? && At(f, p, Payload(c))
    ensures p + 22 + 42 * |c.tracks| <= |f| && At(f, p + 22, TrackTable(c.tracks))
    ensures Read4(f, p) == c.size2 && f[p + 4..p + 17] == c.upc && Read2(f, p + 18) == c.toc
    ensures f[p + 20] == c.firstTrack && f[p + 21] == c.lastTrack
  {
    var b1 := ToBytes(c.size2, 4) + c.upc;
    var b2 := b1 + [0];
    var b3 := b2 + ToBytes(c.toc, 2);
    var ends: seq<U8> := [c.firstTrack, c.lastTrack];
    AtParts(f, p, b3 + ends, TrackTable(c.tracks));
    AtParts(f, p, b3, ends);
    AtParts(f, p, b2, ToBytes(c.toc, 2));
    AtParts(f, p, b1, [0]);
    AtParts(f, p, ToBytes(c.size2, 4), c.upc);
    Pow256Values();
    NumberAt(f, p, c.size2, 4);
    NumberAt(f, p + 18, c.toc, 2);
    AtByte(f, p + 20, ends, 0);
    AtByte(f, p + 20, ends, 1);
  }

  lemma DaoChunkReadBack(f: seq<U8>, p: nat, c: Chunk, st: Parsed)
    requires c.DaoChunk? && At(f, p, Encode(c)) && WellFormed(c)
    ensures p + 8 <= |f| && Fits(f, p) && Visit(f, p, st) == Effect(c, p, st)
  {
    Spelled();
    HeaderReadBack(f, p, c);
    DaoHeaderReadBack(f, p + 8, c);
    var n := |c.tracks|;
    assert |Payload(c)| == 22 + 42 * n;
    assert RecordCount(30, 42, 22 + 42 * n) == n;
    TracksReadBack(f, p + 30, c.tracks);
  }

  lemma ChunkReadBack(f: seq<U8>, p: nat, c: Chunk, st: Parsed)
    requires At(f, p, Encode(c)) && WellFormed(c)
    ensures p + 8 <= |f| && Fits(f, p) && IdAt(f, p) != END()
    ensures NextAt(f, p) == p + |Encode(c)|
    ensures Visit(f, p, st) == Effect(c, p, st)
  {
    Spelled();
    HeaderReadBack(f, p, c);
    match c
    case CueChunk(_) => CueChunkReadBack(f, p, c, st);
    case DaoChunk(_, _, _, _, _, _) => DaoChunkReadBack(f, p, c, st);
    case CdTextChunk(_) => CdTextChunkReadBack(f, p, c, st);
    case OtherChunk(_, _) =>
  }

  /** The size of an unknown chunk and of its header are added in 32 bits. From 2^32 - 8 on
      the sum is less than 8: then the walker stays where it is, or goes on inside the header. */
  lemma UnknownChunkAdvances(f: seq<U8>, p: nat)
    requires p + 8 < |f|
    requires IdAt(f, p) !in [CUEX(), DAOX(), CDTX(), SINF(), END()]
    ensures NextAt(f, p) == p + 8 + SizeAt(f, p) <==> SizeAt(f, p) < 0x1_0000_0000 - 8
    ensures NextAt(f, p) == p <==> SizeAt(f, p) == 0x1_0000_0000 - 8
    ensures SizeAt(f, p) >= 0x1_0000_0000 - 8 ==> NextAt(f, p) == p + SizeAt(f, p) - (0x1_0000_0000 - 8) < p + 8
    ensures Ending(f, p) == NeverEnds <== SizeAt(f, p) == 0x1_0000_0000 - 8
  {
  }

  // -- Images --

  function EffectAll(cs: seq<Chunk>, p: nat, st: Parsed): Parsed {
    if cs == [] then st else EffectAll(cs[1..], p + |Encode(cs[0])|, Effect(cs[0], p, st))
  }

  function EndChunk(): seq<U8> {
    Ascii("END!") + [0, 0, 0, 0]
  }

  predicate AllWellFormed(cs: seq<Chunk>) {
    forall i | 0 <= i < |cs| :: WellFormed(cs[i])
  }

  lemma WalkStep(f: seq<U8>, p: nat, st: Parsed)
    requires p + 8 < |f| && IdAt(f, p) != END() && Fits(f, p) && NextAt(f, p) > p
    ensures Walk(f, p, st) == Walk(f, NextAt(f, p), Visit(f, p, st))
    ensures Ending(f, p) == Ending(f, NextAt(f, p))
  {
  }

  /** All that follows from a list of chunks having a first one. */
  lemma FirstOfAll(cs: seq<Chunk>, p: nat, st: Parsed)
    requires cs != [] && AllWellFormed(cs)
    ensures WellFormed(cs[0]) && AllWellFormed(cs[1..])
    ensures EncodeAll(cs) == Encode(cs[0]) + EncodeAll(cs[1..])
    ensures |EncodeAll(cs)| == |Encode(cs[0])| + |EncodeAll(cs[1..])|
    ensures EffectAll(cs, p, st) == EffectAll(cs[1..], p + |Encode(cs[0])|, Effect(cs[0], p, st))
  {
  }

  lemma EndIsRead(f: seq<U8>, p: nat, st: Parsed)
    requires At(f, p, EndChunk()) && p + 16 <= |f|
    ensures Ending(f, p) == Finished && Walk(f, p, st) == st.(visited := st.visited + [p])
  {
    Spelled();
    AtParts(f, p, END(), [0, 0, 0, 0]);
  }

  /** The walk gets through well-formed chunks, whatever follows them. */
  lemma {:induction false} WalkGetsThrough(f: seq<U8>, p: nat, cs: seq<Chunk>, st: Parsed)
    requires AllWellFormed(cs)
    requires At(f, p, EncodeAll(cs)) && p + |EncodeAll(cs)| + 8 < |f|
    ensures Walk(f, p, st) == Walk(f, p + |EncodeAll(cs)|, EffectAll(cs, p, st))
    ensures Ending(f, p) == Ending(f, p + |EncodeAll(cs)|)
    decreases |cs|
  {
    hide *;
    if cs == [] {
      NothingEncoded(p, st);
    } else {
      FirstOfAll(cs, p, st);
      AtParts(f, p, Encode(cs[0]), EncodeAll(cs[1..]));
      ChunkReadBack(f, p, cs[0], st);
      WalkStep(f, p, st);
      WalkGetsThrough(f, p + |Encode(cs[0])|, cs[1..], Effect(cs[0], p, st));
    }
  }

  /** The walk visits every chunk once, in order, and takes from each what it holds. */
  lemma {:induction false} WalkReadsAll(f: seq<U8>, p: nat, cs: seq<Chunk>, st: Parsed)
    requires AllWellFormed(cs)
    requires At(f, p, EncodeAll(cs) + EndChunk())
    requires p + |EncodeAll(cs)| + 16 <= |f|
    ensures Ending(f, p) == Finished
    ensures var done := EffectAll(cs, p, st);
      Walk(f, p, st) == done.(visited := done.visited + [p + |EncodeAll(cs)|])
  {
    hide *;
    AtParts(f, p, EncodeAll(cs), EndChunk());
    WalkGetsThrough(f, p, cs, st);
    EndIsRead(f, p + |EncodeAll(cs)|, EffectAll(cs, p, st));
  }

  lemma NothingEncoded(p: nat, st: Parsed)
    ensures EncodeAll([]) == [] && EffectAll([], p, st) == st
  {
  }

  /** Where the chunks start. */
  function Starts(cs: seq<Chunk>, p: nat): seq<nat> {
    if cs == [] then [] else [p] + Starts(cs[1..], p + |Encode(cs[0])|)
  }

  function AllTracks(cs: seq<Chunk>): seq<DaoTrack> {
    if cs == [] then []
    else (if cs[0].DaoChunk? then cs[0].tracks else []) + AllTracks(cs[1..])
  }

  lemma EffectOfOne(c: Chunk, p: nat, st: Parsed)
    ensures var st' := Effect(c, p, st);
      && st'.visited == st.visited + [p]
      && st'.dao.tracks == st.dao.tracks + (if c.DaoChunk? then c.tracks else [])
      && st'.cues == (if c.CueChunk? then WithoutLast(c.points) else st.cues)
      && st'.cdText == (if c.CdTextChunk? then c.entries else st.cdText)
  {
  }

  /** All tracks of all DAOX chunks, in order, are kept. */
  lemma {:induction false} TracksAccumulate(cs: seq<Chunk>, p: nat, st: Parsed)
    ensures EffectAll(cs, p, st).dao.tracks == st.dao.tracks + AllTracks(cs)
    decreases |cs|
  {
    hide *;
    EffectFirst(cs, p, st);
    ListsFirst(cs, p);
    if cs != [] {
      var st', own := Effect(cs[0], p, st), if cs[0].DaoChunk? then cs[0].tracks else [];
      EffectOfOne(cs[0], p, st);
      TracksAccumulate(cs[1..], p + |Encode(cs[0])|, st');
      Associates(st.dao.tracks, own, AllTracks(cs[1..]));
    }
  }

  lemma ListsFirst(cs: seq<Chunk>, p: nat)
    ensures AllTracks(cs) == if cs == [] then [] else (if cs[0].DaoChunk? then cs[0].tracks else []) + AllTracks(cs[1..])
    ensures Starts(cs, p) == if cs == [] then [] else [p] + Starts(cs[1..], p + |Encode(cs[0])|)
  {
    hide Encode;
  }

  lemma Associates<T>(a: seq<T>, b: seq<T>, c: seq<T>)
    ensures a + (b + c) == (a + b) + c
  {
  }

  /** All chunks are seen, in order. */
  lemma {:induction false} VisitsAll(cs: seq<Chunk>, p: nat, st: Parsed)
    ensures EffectAll(cs, p, st).visited == st.visited + Starts(cs, p)
    decreases |cs|
  {
    hide *;
    EffectFirst(cs, p, st);
    ListsFirst(cs, p);
    if cs != [] {
      var st', q := Effect(cs[0], p, st), p + |Encode(cs[0])|;
      EffectOfOne(cs[0], p, st);
      VisitsAll(cs[1..], q, st');
      Associates(st.visited, [p], Starts(cs[1..], q));
    }
  }

  lemma EffectFirst(cs: seq<Chunk>, p: nat, st: Parsed)
    ensures EffectAll(cs, p, st)
         == if cs == [] then st else EffectAll(cs[1..], p + |Encode(cs[0])|, Effect(cs[0], p, st))
  {
  }

  /** Of several CUEX chunks the last one counts, without its last point. */
  lemma {:induction false} LastCuesCount(cs: seq<Chunk>, p: nat, st: Parsed, k: nat)
    requires k < |cs|
    requires cs[k].CueChunk? && forall j | k < j < |cs| :: !cs[j].CueChunk?
    ensures EffectAll(cs, p, st).cues == WithoutLast(cs[k].points)
    decreases |cs|
  {
    hide *;
    EffectOfOne(cs[0], p, st);
    EffectFirst(cs, p, st);
    var st', q := Effect(cs[0], p, st), p + |Encode(cs[0])|;
    if k > 0 {
      LastCuesCount(cs[1..], q, st', k - 1);
    } else {
      OthersKeepTables(cs[1..], q, st');
    }
  }

  /** Of several CDTX chunks the last one counts. */
  lemma {:induction false} LastCdTextCounts(cs: seq<Chunk>, p: nat, st: Parsed, k: nat)
    requires k < |cs|
    requires cs[k].CdTextChunk? && forall j | k < j < |cs| :: !cs[j].CdTextChunk?
    ensures EffectAll(cs, p, st).cdText == cs[k].entries
    decreases |cs|
  {
    hide *;
    EffectOfOne(cs[0], p, st);
    EffectFirst(cs, p, st);
    var st', q := Effect(cs[0], p, st), p + |Encode(cs[0])|;
    if k > 0 {
      LastCdTextCounts(cs[1..], q, st', k - 1);
    } else {
      OthersKeepTables(cs[1..], q, st');
    }
  }

  lemma {:induction false} OthersKeepTables(cs: seq<Chunk>, p: nat, st: Parsed)
    ensures (forall j | 0 <= j < |cs| :: !cs[j].CueChunk?) ==> EffectAll(cs, p, st).cues == st.cues
    ensures (forall j | 0 <= j < |cs| :: !cs[j].CdTextChunk?) ==> EffectAll(cs, p, st).cdText == st.cdText
    decreases |cs|
  {
    hide *;
    EffectFirst(cs, p, st);
    if cs != [] {
      EffectOfOne(cs[0], p, st);
      OthersKeepTables(cs[1..], p + |Encode(cs[0])|, Effect(cs[0], p, st));
    }
  }

  /** The footer of either version, pointing at the first chunk. */
  function EncodeFooter(version5: bool, offset: nat): seq<U8> {
    if version5 then Ascii("NER5") + ToBytes(offset, 8) else Ascii("NERO") + ToBytes(offset, 4)
  }

  function Image(data: seq<U8>, cs: seq<Chunk>, version5: bool): seq<U8> {
    data + (EncodeAll(cs) + EndChunk()) + EncodeFooter(version5, |data|)
  }

  /** The offset fits its field, and the version 5 footer does not read as the older one. */
  predicate OffsetFits(offset: nat, version5: bool) {
    if version5 then offset < Pow256(8) && ToBytes(offset, 8)[..4] != Ascii("NERO") else offset < Pow256(4)
  }

  lemma FooterEncoded(version5: bool, offset: nat)
    ensures EncodeFooter(version5, offset)
         == if version5 then NER5() + ToBytes(offset, 8) else NERO() + ToBytes(offset, 4)
    ensures OffsetFits(offset, version5) ==>
      if version5 then offset < Pow256(8) && ToBytes(offset, 8)[..4] != NERO() else offset < Pow256(4)
  {
    Spelled();
    hide Ascii, ToBytes, Pow256, NERO, NER5;
  }

  lemma FooterReadBack(f: seq<U8>, body: seq<U8>, version5: bool, offset: nat)
    requires OffsetFits(offset, version5) && |body| >= 8
    requires f == body + EncodeFooter(version5, offset)
    ensures Footer(f) == Some((version5, offset))
  {
    FooterEncoded(version5, offset);
    hide Ascii, EncodeFooter, OffsetFits, NERO, NER5, Pow256, ToBytes;
    if version5 {
      FooterBytes(body, NER5(), ToBytes(offset, 8));
      NumberAt(f, |f| - 8, offset, 8);
    } else {
      FooterBytes(body, NERO(), ToBytes(offset, 4));
      NumberAt(f, |f| - 4, offset, 4);
    }
  }

  lemma FooterBytes(body: seq<U8>, id: Id, number: seq<U8>)
    requires |number| >= 4
    ensures var f, e := body + (id + number), |body| + 4 + |number|;
      && |f| == e && f[e - |number| - 4..e - |number|] == id && f[e - |number|..] == number
      && f[e - |number|..e] == number && f[e - |number|..e - |number| + 4] == number[..4]
  {
  }

  /** Round trip: from an image made of sector data, well-formed chunks, END! and a footer, the
      reader finds the footer, visits every chunk header once and in order up to END!, and
      collects the tracks of all DAOX chunks. */
  lemma ImageRoundTrip(data: seq<U8>, cs: seq<Chunk>, version5: bool, blank: Dao)
    requires AllWellFormed(cs) && OffsetFits(|data|, version5) && blank.tracks == []
    ensures var f, p, start := Image(data, cs, version5), |data|, Parsed([], blank, [], []);
      && Footer(f) == Some((version5, p))
      && Ending(f, p) == Finished
      && Walk(f, p, start).visited == Starts(cs, p) + [p + |EncodeAll(cs)|]
      && Walk(f, p, start).dao.tracks == AllTracks(cs)
      && Walk(f, p, start).cues == EffectAll(cs, p, start).cues
      && Walk(f, p, start).cdText == EffectAll(cs, p, start).cdText
  {
    var f, p, start := Image(data, cs, version5), |data|, Parsed([], blank, [], []);
    var chunks := EncodeAll(cs) + EndChunk();
    ImageIs(data, cs, version5);
    hide *;
    FooterReadBack(f, data + chunks, version5, p);
    WalkReadsAll(f, p, cs, start);
    TracksAccumulate(cs, p, start);
    VisitsAll(cs, p, start);
  }

  lemma ImageIs(data: seq<U8>, cs: seq<Chunk>, version5: bool)
    ensures var f, chunks := Image(data, cs, version5), EncodeAll(cs) + EndChunk();
      && f == data + chunks + EncodeFooter(version5, |data|)
      && At(f, |data|, chunks)
      && |data| + |EncodeAll(cs)| + 16 <= |f|
      && |data + chunks| >= 8
  {
  }

  lemma {:induction false} EncodeAllSplit(cs: seq<Chunk>, ds: seq<Chunk>)
    ensures EncodeAll(cs + ds) == EncodeAll(cs) + EncodeAll(ds)
    decreases |cs|
  {
    hide *;
    EncodeFirst(cs + ds);
    EncodeFirst(cs);
    if cs == [] {
      assert cs + ds == ds;
    } else {
      EncodeAllSplit(cs[1..], ds);
      assert (cs + ds)[1..] == cs[1..] + ds && (cs + ds)[0] == cs[0];
      Associates(Encode(cs[0]), EncodeAll(cs[1..]), EncodeAll(ds));
    }
  }

  lemma EncodeFirst(cs: seq<Chunk>)
    ensures EncodeAll(cs) == if cs == [] then [] else Encode(cs[0]) + EncodeAll(cs[1..])
  {
  }

  predicate Oversize(c: Chunk)
    ensures Oversize(c) ==> c.OtherChunk? && 0x1_0000_0000 - 8 <= |c.payload| < 0x1_0000_0000
  {
    && c.OtherChunk? && c.id !in [Ascii("CUEX"), Ascii("DAOX"), Ascii("CDTX"), Ascii("SINF"), Ascii("END!")]
    && 0x1_0000_0000 - 8 <= |c.payload| < 0x1_0000_0000
  }

  lemma OversizeAt(f: seq<U8>, q: nat, bad: Chunk, st: Parsed)
    requires Oversize(bad) && At(f, q, Encode(bad))
    ensures q + 8 < |f| && NextAt(f, q) == q + |bad.payload| - (0x1_0000_0000 - 8) < q + 8
    ensures |bad.payload| == 0x1_0000_0000 - 8 ==> Ending(f, q) == NeverEnds && Walk(f, q, st) == st
  {
    HeaderReadBack(f, q, bad);
    OversizeIs(bad);
    hide *;
    UnknownChunkAdvances(f, q);
    if |bad.payload| == 0x1_0000_0000 - 8 {
      Stays(f, q, st);
    }
  }

  lemma OversizeIs(c: Chunk)
    requires Oversize(c)
    ensures Payload(c) == c.payload && IdOf(c) == c.id
    ensures IdOf(c) !in [CUEX(), DAOX(), CDTX(), SINF(), END()] && 8 < |c.payload|
  {
    Spelled();
  }

  lemma Stays(f: seq<U8>, q: nat, st: Parsed)
    requires q + 8 < |f| && IdAt(f, q) != END() && NextAt(f, q) == q
    ensures Walk(f, q, st) == st
  {
    hide IdAt, NextAt, Fits, Visit;
  }

  lemma MiddleAt(f: seq<U8>, p: nat, cs: seq<Chunk>, c: Chunk, rest: seq<Chunk>, end: seq<U8>)
    requires At(f, p, EncodeAll(cs + [c] + rest) + end)
    ensures At(f, p, EncodeAll(cs)) && At(f, p + |EncodeAll(cs)|, Encode(c))
  {
    hide *;
    EncodeAllSplit(cs + [c], rest);
    EncodeAllSplit(cs, [c]);
    EncodeOne(c);
    AtParts(f, p, EncodeAll(cs + [c] + rest), end);
    AtParts(f, p, EncodeAll(cs) + Encode(c), EncodeAll(rest));
    AtParts(f, p, EncodeAll(cs), Encode(c));
  }

  lemma EncodeOne(c: Chunk)
    ensures EncodeAll([c]) == Encode(c)
  {
    hide Encode;
    assert EncodeAll([]) == [] && [c][1..] == [];
    assert Encode(c) + [] == Encode(c);
  }

  /** A chunk of unknown kind that is too long by the 8 bytes of its header, or more, is where
      the reading of an image goes wrong: everything up to it is read, and there the walker
      stays for ever, or takes bytes of the chunk's own header for the next chunk. */
  lemma {:induction false} OversizeChunkDerails(data: seq<U8>, cs: seq<Chunk>, bad: Chunk, rest: seq<Chunk>,
                                                version5: bool, st: Parsed)
    requires AllWellFormed(cs) && Oversize(bad)
    ensures var f, p := Image(data, cs + [bad] + rest, version5), |data|;
      var q, excess := p + |EncodeAll(cs)|, |bad.payload| - (0x1_0000_0000 - 8);
      && q + 8 < |f| && NextAt(f, q) == q + excess < q + 8
      && Ending(f, p) == Ending(f, q) && Walk(f, p, st) == Walk(f, q, EffectAll(cs, p, st))
      && (excess == 0 ==> Ending(f, p) == NeverEnds && Walk(f, p, st) == EffectAll(cs, p, st))
  {
    hide *;
    var f, p := Image(data, cs + [bad] + rest, version5), |data|;
    ImageIs(data, cs + [bad] + rest, version5);
    MiddleAt(f, p, cs, bad, rest, EndChunk());
    OversizeAt(f, p + |EncodeAll(cs)|, bad, EffectAll(cs, p, st));
    WalkGetsThrough(f, p, cs, st);
  }
}
