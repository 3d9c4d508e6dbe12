/** Nero's image format: a list of chunks after the sector data, found through a footer. */
module Nrg {
  import opened Bytes
  import opened Options

  type Text = s: seq<U8> | |s| == 12 witness seq(12, _ => 0)
  type Upc = s: seq<U8> | |s| == 13 witness seq(13, _ => 0)
  type Id = s: seq<U8> | |s| == 4 witness seq(4, _ => 0)

  datatype CuePoint = CuePoint(mode: U8, trackNumber: U8, indexNumber: U8, lba: U32)

  datatype DaoTrack = DaoTrack(isrc: Text, sectorSize: U16, dataMode: U16, index0: U64, index1: U64, indexEnd: U64)

  datatype Dao = Dao(size: nat, size2: U32, upc: Upc, toc: U16, firstTrack: U8, lastTrack: U8, tracks: seq<DaoTrack>)

  datatype CdTextEntry = CdTextEntry(packType: U8, packTypeTrack: U8, packNumber: U8, blockNumber: U8, text: Text, crc: U16)

  function CUEX(): Id { [0x43, 0x55, 0x45, 0x58] }
  function DAOX(): Id { [0x44, 0x41, 0x4f, 0x58] }
  function CDTX(): Id { [0x43, 0x44, 0x54, 0x58] }
  function SINF(): Id { [0x53, 0x49, 0x4e, 0x46] }
  function END(): Id { [0x45, 0x4e, 0x44, 0x21] }
  function NERO(): Id { [0x4e, 0x45, 0x52, 0x4f] }
  function NER5(): Id { [0x4e, 0x45, 0x52, 0x35] }

  /** A big-endian number of n bytes at position p. */
  function Read(f: seq<U8>, p: nat, n: nat): nat
    requires p + n <= |f|
  {
    BigEndian(f[p..p + n])
  }

  function Read2(f: seq<U8>, p: nat): U16
    requires p + 2 <= |f|
  {
    BigEndianBound(f[p..p + 2]);
    Pow256Values();
    Read(f, p, 2)
  }

  function Read4(f: seq<U8>, p: nat): U32
    requires p + 4 <= |f|
  {
    BigEndianBound(f[p..p + 4]);
    Pow256Values();
    Read(f, p, 4)
  }

  function Read8(f: seq<U8>, p: nat): U64
    requires p + 8 <= |f|
  {
    BigEndianBound(f[p..p + 8]);
    Pow256Values();
    Read(f, p, 8)
  }

  function CueAt(f: seq<U8>, p: nat): CuePoint
    requires p + 8 <= |f|
  {
    CuePoint(f[p], f[p + 1], f[p + 2], Read4(f, p + 4))
  }

  function TrackAt(f: seq<U8>, p: nat): DaoTrack
    requires p + 42 <= |f|
  {
    DaoTrack(f[p..p + 12], Read2(f, p + 12), Read2(f, p + 14), Read8(f, p + 18), Read8(f, p + 26), Read8(f, p + 34))
  }

  function EntryAt(f: seq<U8>, p: nat): CdTextEntry
    requires p + 18 <= |f|
  {
    CdTextEntry(f[p], f[p + 1], f[p + 2], f[p + 3], f[p + 4..p + 16], Read2(f, p + 16))
  }

  /** How many records of a stride start, from offset first on, before offset size. */
  function RecordCount(first: nat, stride: nat, size: nat): nat
    requires stride > 0
  {
    if size <= first then 0 else (size - first + stride - 1) / stride
  }

  function Cues(f: seq<U8>, p: nat, n: nat): (r: seq<CuePoint>)
    requires p + 8 * n <= |f|
  {
    seq(n, i requires 0 <= i < n => CueAt(f, p + 8 * i))
  }

  function Tracks(f: seq<U8>, p: nat, n: nat): (r: seq<DaoTrack>)
    requires p + 42 * n <= |f|
  {
    seq(n, i requires 0 <= i < n => TrackAt(f, p + 42 * i))
  }

  function Entries(f: seq<U8>, p: nat, n: nat): (r: seq<CdTextEntry>)
    requires p + 18 * n <= |f|
  {
    seq(n, i requires 0 <= i < n => EntryAt(f, p + 18 * i))
  }

  // -- The walk --

  datatype Parsed = Parsed(cues: seq<CuePoint>, dao: Dao, cdText: seq<CdTextEntry>, visited: seq<nat>)

  function IdAt(f: seq<U8>, p: nat): Id
    requires p + 8 <= |f|
  {
    f[p..p + 4]
  }

  function SizeAt(f: seq<U8>, p: nat): U32
    requires p + 8 <= |f|
  {
    Read4(f, p + 4)
  }

  /** Everything the chunk's parser touches lies in the file. */
  predicate Fits(f: seq<U8>, p: nat)
    requires p + 8 <= |f|
  {
    var id, size := IdAt(f, p), SizeAt(f, p);
    if id == CUEX() then p + 8 + 8 * RecordCount(8, 8, size) <= |f|
    else if id == DAOX() then p + 30 + 42 * RecordCount(30, 42, size) <= |f|
    else if id == CDTX() then p + 8 + 18 * RecordCount(8, 18, size) <= |f|
    else true
  }

  /** Where the walker goes next. The size of an unknown chunk is added in 32 bits. */
  function NextAt(f: seq<U8>, p: nat): nat
    requires p + 8 <= |f|
  {
    var id, size := IdAt(f, p), SizeAt(f, p);
    if id == CUEX() || id == DAOX() || id == CDTX() || id == SINF() then p + 8 + size
    else p + (8 + size) % 0x1_0000_0000
  }

  function DaoAt(f: seq<U8>, p: nat, tracks: seq<DaoTrack>): Dao
    requires p + 30 <= |f|
  {
    Dao(Read4(f, p + 4), Read4(f, p + 8), f[p + 12..p + 25], Read2(f, p + 26), f[p + 28], f[p + 29], tracks)
  }

  function Visit(f: seq<U8>, p: nat, st: Parsed): Parsed
    requires p + 8 <= |f| && Fits(f, p)
  {
    var id, size := IdAt(f, p), SizeAt(f, p);
    var st' := st.(visited := st.visited + [p]);
    if id == CUEX() then st'.(cues := Cues(f, p + 8, RecordCount(8, 8, size)))
    else if id == DAOX() then
      st'.(dao := DaoAt(f, p, st.dao.tracks + Tracks(f, p + 30, RecordCount(30, 42, size))))
    else if id == CDTX() then st'.(cdText := Entries(f, p + 8, RecordCount(8, 18, size)))
    else st'
  }

  /** How reading a file ends. The program returns true for Finished and false for NoFooter;
      otherwise it reads outside its memory map, or goes round at one chunk for ever. */
  datatype Outcome = Finished | NoFooter | LeavesFile | NeverEnds

  /** How the walk from p ends. */
  function Ending(f: seq<U8>, p: nat): Outcome
    decreases |f| - p
  {
    if p + 8 >= |f| || IdAt(f, p) == END() then Finished
    else if !Fits(f, p) then LeavesFile
    else if NextAt(f, p) <= p then NeverEnds
    else Ending(f, NextAt(f, p))
  }

  /** What the walk from p has read when it ends. */
  function Walk(f: seq<U8>, p: nat, st: Parsed): Parsed
    decreases |f| - p
  {
    if p + 8 >= |f| then st
    else if IdAt(f, p) == END() then st.(visited := st.visited + [p])
    else if !Fits(f, p) || NextAt(f, p) <= p then st
    else Walk(f, NextAt(f, p), Visit(f, p, st))
  }

  /** The footer: the format version and the position of the first chunk. */
  function Footer(f: seq<U8>): Option<(bool, nat)> {
    var end := |f|;
    if end >= 8 && f[end - 8..end - 4] == NERO() then Some((false, Read4(f, end - 4)))
    else if end >= 12 && f[end - 12..end - 8] == NER5() then Some((true, Read8(f, end - 8)))
    else None
  }

  class NrgFile {
    const file: seq<U8>
    var version5: bool
    var offset: nat
    var cues: seq<CuePoint>
    var dao: Dao
    var cdText: seq<CdTextEntry>
    ghost var visited: seq<nat>

    constructor (file: seq<U8>, blank: Dao)
      requires blank.tracks == []
      ensures this.file == file && State() == Parsed([], blank, [], [])
    {
      this.file, version5, offset, cues, dao, cdText, visited := file, false, 0, [], blank, [], [];
    }

    ghost function State(): (st: Parsed)
      reads this
      ensures st.cues == cues && st.dao == dao && st.cdText == cdText && st.visited == visited
    {
      Parsed(cues, dao, cdText, visited)
    }

    method ParseHeader() returns (r: Outcome)
      modifies this
      ensures Footer(file) != None ==>
        && (version5, offset) == Footer(file).value
        && r == Ending(file, offset) && State() == Walk(file, offset, old(State()))
      ensures Footer(file) == None ==>
        r == (if |file| >= 12 then NoFooter else LeavesFile) && State() == old(State())
    {
      var end := |file|;
      if end < 8 {
        return LeavesFile;
      }
      if file[end - 8..end - 4] == NERO() {
        version5, offset := false, Read4(file, end - 4);
      } else if end < 12 {
        return LeavesFile;
      } else if file[end - 12..end - 8] == NER5() {
        version5, offset := true, Read8(file, end - 8);
      } else {
        return NoFooter;
      }
      r := ParseChunk();
    }

    /** The loop over the chunks. Where the program would leave the file or not come to an end,
        it stops with what was read so far. */
    method ParseChunk() returns (r: Outcome)
      modifies `cues, `dao, `cdText, `visited
      ensures r == Ending(file, offset)
      ensures State() == Walk(file, offset, old(State()))
    {
      var pChunk := offset;
      while pChunk + 8 < |file|
        invariant Ending(file, pChunk) == Ending(file, offset)
        invariant Walk(file, pChunk, State()) == Walk(file, offset, old(State()))
        decreases |file| - pChunk
      {
        var id := IdAt(file, pChunk);
        ghost var st := State();
        if id == END() {
          visited := visited + [pChunk];
          break;
        }
        if !Fits(file, pChunk) {
          return LeavesFile;
        }
        if NextAt(file, pChunk) <= pChunk {
          return NeverEnds;
        }
        if id == CUEX() {
          cues := ParseCue(pChunk);
        } else if id == DAOX() {
          ParseDao(pChunk);
        } else if id == CDTX() {
          cdText := ParseCdText(pChunk);
        }
        visited := visited + [pChunk];
        assert State() == Visit(file, pChunk, st);
        pChunk := NextAt(file, pChunk);
      }
      r := Finished;
    }

    method ParseCue(pChunk: nat) returns (points: seq<CuePoint>)
      requires pChunk + 8 <= |file| && pChunk + 8 + 8 * RecordCount(8, 8, SizeAt(file, pChunk)) <= |file|
      ensures points == Cues(file, pChunk + 8, RecordCount(8, 8, SizeAt(file, pChunk)))
    {
      points := [];
      var size := SizeAt(file, pChunk);
      var pCue := pChunk + 8;
      while pCue < pChunk + size
        invariant pCue == pChunk + 8 + 8 * |points| && |points| <= RecordCount(8, 8, size)
        invariant points == Cues(file, pChunk + 8, |points|)
      {
        points := points + [CueAt(file, pCue)];
        pCue := pCue + 8;
      }
    }

    method ParseDao(pChunk: nat)
      requires pChunk + 8 <= |file| && pChunk + 30 + 42 * RecordCount(30, 42, SizeAt(file, pChunk)) <= |file|
      modifies `dao
      ensures var n := RecordCount(30, 42, SizeAt(file, pChunk));
        dao == DaoAt(file, pChunk, old(dao.tracks) + Tracks(file, pChunk + 30, n))
    {
      var size := SizeAt(file, pChunk);
      dao := DaoAt(file, pChunk, dao.tracks);
      ghost var k := 0;
      var pTrack := pChunk + 30;
      while pTrack < pChunk + size
        invariant pTrack == pChunk + 30 + 42 * k && k <= RecordCount(30, 42, size)
        invariant dao == DaoAt(file, pChunk, old(dao.tracks) + Tracks(file, pChunk + 30, k))
      {
        assert Tracks(file, pChunk + 30, k + 1) == Tracks(file, pChunk + 30, k) + [TrackAt(file, pTrack)];
        dao := dao.(tracks := dao.tracks + [TrackAt(file, pTrack)]);
        pTrack := pTrack + 42;
        k := k + 1;
      }
    }

    method ParseCdText(pChunk: nat) returns (entries: seq<CdTextEntry>)
      requires pChunk + 8 <= |file| && pChunk + 8 + 18 * RecordCount(8, 18, SizeAt(file, pChunk)) <= |file|
      ensures entries == Entries(file, pChunk + 8, RecordCount(8, 18, SizeAt(file, pChunk)))
    {
      entries := [];
      var size := SizeAt(file, pChunk);
      var pText := pChunk + 8;
      while pText < pChunk + size
        invariant pText == pChunk + 8 + 18 * |entries| && |entries| <= RecordCount(8, 18, size)
        invariant entries == Entries(file, pChunk + 8, |entries|)
      {
        entries := entries + [EntryAt(file, pText)];
        pText := pText + 18;
      }
    }
  }
}
