/** CD-Text: the packs read from the lead-in, split into one string per track. */
module CdText {
  import opened Bytes

  /** Table 496 of SFF-8090i: 18 bytes, 12 of them text. */
  datatype CdTextPackData = CdTextPackData(
    packType: U8,
    trackNr: nat,
    seqNr: U8,
    blockNr: nat,
    characterPosition: nat,
    text: seq<U8>,
    crc: nat)

  const TITLE: U8 := 0x80
  const PERFORMER: U8 := 0x81

  function GetBits(shift: nat, nrBits: nat, src: U8): nat
    requires shift + nrBits <= 8
  {
    (src / Pow2(shift)) % Pow2(nrBits)
  }

  function Pow2(n: nat): (p: nat)
    ensures p > 0
  {
    if n == 0 then 1 else 2 * Pow2(n - 1)
  }

  function ParsePack(p: seq<U8>): (r: CdTextPackData)
    requires |p| == 18
    ensures |r.text| == 12
  {
    CdTextPackData(p[0], GetBits(0, 7, p[1]), p[2], GetBits(4, 3, p[3]), GetBits(0, 4, p[3]), p[4..16], BigEndian(p[16..18]))
  }

  predicate FitsPack(r: CdTextPackData) {
    r.trackNr < 128 && r.blockNr < 8 && r.characterPosition < 16 && |r.text| == 12 && r.crc < 0x1_0000
  }

  function EncodePack(r: CdTextPackData): (p: seq<U8>)
    requires FitsPack(r)
    ensures |p| == 18
  {
    [r.packType, r.trackNr, r.seqNr, r.blockNr * 16 + r.characterPosition] + r.text + ToBytes(r.crc, 2)
  }

  lemma PackRoundTrip(r: CdTextPackData)
    requires FitsPack(r)
    ensures ParsePack(EncodePack(r)) == r
  {
    var p := EncodePack(r);
    assert p[4..16] == r.text;
    assert p[16..18] == ToBytes(r.crc, 2);
    Pow256Values();
    BytesRoundTrip(r.crc, 2);
    assert Pow2(3) == 8 && Pow2(4) == 16 && Pow2(7) == 128;
  }

  // -- Splitting --

  datatype Collected = Collected(track: nat, perTrack: map<nat, seq<U8>>)

  /** One character: a NUL ends the track, anything else is part of its string. */
  function Feed(c: Collected, ch: U8): Collected {
    if ch == 0 then c.(track := c.track + 1)
    else c.(perTrack := c.perTrack[c.track := (if c.track in c.perTrack then c.perTrack[c.track] else []) + [ch]])
  }

  function Collect(c: Collected, text: seq<U8>): Collected {
    if text == [] then c else Feed(Collect(c, text[..|text| - 1]), text[|text| - 1])
  }

  class CdTextPacketCollectorSimple {
    var perTrack: map<nat, seq<U8>>
    var track: nat

    constructor ()
      ensures State() == Collected(0, map[])
    {
      perTrack, track := map[], 0;
    }

    function State(): (c: Collected)
      reads this
      ensures c.track == track && c.perTrack == perTrack
    {
      Collected(track, perTrack)
    }

    method Add(text: seq<U8>)
      modifies this
      ensures State() == Collect(old(State()), text)
    {
      var n := 0;
      while n < |text|
        invariant n <= |text|
        invariant State() == Collect(old(State()), text[..n])
      {
        assert text[..n + 1][..n] == text[..n];
        if text[n] == 0 {
          track := track + 1;
        } else {
          perTrack := perTrack[track := (if track in perTrack then perTrack[track] else []) + [text[n]]];
        }
        n := n + 1;
      }
      assert text[..n] == text;
    }
  }

  lemma {:induction false} CollectConcat(c: Collected, a: seq<U8>, b: seq<U8>)
    ensures Collect(c, a + b) == Collect(Collect(c, a), b)
  {
    if b == [] {
      assert a + b == a;
    } else {
      CollectConcat(c, a, b[..|b| - 1]);
      assert (a + b)[..|a + b| - 1] == a + b[..|b| - 1];
    }
  }

  /** The strings one after the other, each ended by a NUL. */
  function Terminated(strings: seq<seq<U8>>): seq<U8> {
    if strings == [] then [] else Terminated(strings[..|strings| - 1]) + strings[|strings| - 1] + [0]
  }

  function Zeros(n: nat): seq<U8> {
    seq(n, _ => 0)
  }

  predicate NulFree(strings: seq<seq<U8>>) {
    forall i | 0 <= i < |strings| :: 0 !in strings[i]
  }

  /** What the disc says: each non-empty string under its number. */
  function NonEmpties(strings: seq<seq<U8>>): map<nat, seq<U8>> {
    map i: nat | i < |strings| && strings[i] != [] :: strings[i]
  }

  lemma {:induction false} CollectOne(c: Collected, s: seq<U8>)
    requires 0 !in s && c.track !in c.perTrack
    ensures Collect(c, s) == if s == [] then c else c.(perTrack := c.perTrack[c.track := s])
  {
    if s != [] {
      var n := |s| - 1;
      assert s == s[..n] + [s[n]];
      assert s[n] != 0;
      CollectOne(c, s[..n]);
      CollectLetter(c, s[..n], s[n]);
    }
  }

  lemma CollectLetter(c: Collected, s: seq<U8>, letter: U8)
    requires letter != 0 && c.track !in c.perTrack
    requires Collect(c, s) == if s == [] then c else c.(perTrack := c.perTrack[c.track := s])
    ensures Collect(c, s + [letter]) == c.(perTrack := c.perTrack[c.track := s + [letter]])
  {
    var longer := s + [letter];
    assert longer[..|longer| - 1] == s && longer[|longer| - 1] == letter;
    var d := Collect(c, s);
    assert d.perTrack[c.track := s + [letter]] == c.perTrack[c.track := s + [letter]];
  }

  lemma NonEmptiesStep(strings: seq<seq<U8>>, n: nat)
    requires |strings| == n + 1
    ensures NonEmpties(strings) ==
      if strings[n] == [] then NonEmpties(strings[..n]) else NonEmpties(strings[..n])[n := strings[n]]
  {
  }

  lemma CollectString(start: Collected, before: seq<U8>, s: seq<U8>)
    requires 0 !in s && Collect(start, before).track !in Collect(start, before).perTrack
    ensures var c := Collect(start, before);
      Collect(start, before + s + [0])
        == Collected(c.track + 1, if s == [] then c.perTrack else c.perTrack[c.track := s])
  {
    CollectConcat(start, before, s);
    CollectOne(Collect(start, before), s);
    var t := before + s + [0];
    assert t[..|t| - 1] == before + s && t[|t| - 1] == 0;
  }

  lemma {:induction false} CollectTerminated(strings: seq<seq<U8>>)
    requires NulFree(strings)
    ensures Collect(Collected(0, map[]), Terminated(strings)) == Collected(|strings|, NonEmpties(strings))
  {
    if strings != [] {
      var n := |strings| - 1;
      CollectTerminated(strings[..n]);
      NonEmptiesStep(strings, n);
      hide Collect;
      CollectString(Collected(0, map[]), Terminated(strings[..n]), strings[n]);
    }
  }

  lemma {:induction false} CollectZeros(c: Collected, n: nat)
    ensures Collect(c, Zeros(n)) == c.(track := c.track + n)
  {
    if n > 0 {
      CollectZeros(c, n - 1);
      assert Zeros(n)[..n - 1] == Zeros(n - 1);
    }
  }

  /** Splitting undoes terminating, whatever padding follows. */
  lemma SplitTerminated(strings: seq<seq<U8>>, padding: nat)
    requires NulFree(strings)
    ensures Collect(Collected(0, map[]), Terminated(strings) + Zeros(padding)).perTrack == NonEmpties(strings)
  {
    CollectConcat(Collected(0, map[]), Terminated(strings), Zeros(padding));
    CollectTerminated(strings);
    CollectZeros(Collected(|strings|, NonEmpties(strings)), padding);
  }

  // -- The buffer --

  /** The texts of the packs of one type, in order. */
  function Texts(packs: seq<CdTextPackData>, packType: U8): seq<U8> {
    if packs == [] then []
    else
      var last := packs[|packs| - 1];
      Texts(packs[..|packs| - 1], packType) + if last.packType == packType then last.text else []
  }

  function PackAt(buf: seq<U8>, i: nat): CdTextPackData
    requires 4 + 18 * (i + 1) <= |buf|
  {
    ParsePack(buf[4 + 18 * i..4 + 18 * (i + 1)])
  }

  function Packs(buf: seq<U8>, n: nat): (ps: seq<CdTextPackData>)
    requires 4 + 18 * n <= |buf|
    ensures |ps| == n
  {
    if n == 0 then [] else Packs(buf, n - 1) + [PackAt(buf, n - 1)]
  }

  /** The number of whole 18-byte packs behind the length field, which counts from its end. */
  function WholePacks(buf: seq<U8>): (n: nat)
    requires |buf| == 9216
    ensures 4 + 18 * n <= 9216
  {
    var high: int := buf[0];
    var length := 256 * high + buf[1];
    if length <= 2 then 0 else ((if length < 9216 then length else 9216) - 2) / 18
  }

  /** The text bytes of the first n packs whose first byte is packType. */
  function TextBytes(buf: seq<U8>, n: nat, packType: U8): seq<U8>
    requires 4 + 18 * n <= |buf|
  {
    if n == 0 then []
    else
      var p := 4 + 18 * (n - 1);
      TextBytes(buf, n - 1, packType) + if buf[p] == packType then buf[p + 4..p + 16] else []
  }

  /** The packs of this type spell out these strings, each ended by a NUL, and padding. */
  ghost predicate Carries(buf: seq<U8>, packType: U8, strings: seq<seq<U8>>) {
    && |buf| == 9216 && NulFree(strings)
    && exists padding :: TextBytes(buf, WholePacks(buf), packType) == Terminated(strings) + Zeros(padding)
  }

  /** Splits the titles and the performers in what the drive put in the buffer. */
  method GetCdText(buf: seq<U8>) returns (titles: map<nat, seq<U8>>, performer: map<nat, seq<U8>>)
    requires |buf| == 9216
    ensures titles == Collect(Collected(0, map[]), TextBytes(buf, WholePacks(buf), 0x80)).perTrack
    ensures performer == Collect(Collected(0, map[]), TextBytes(buf, WholePacks(buf), 0x81)).perTrack
    ensures forall strings | Carries(buf, 0x80, strings) :: titles == NonEmpties(strings)
    ensures forall strings | Carries(buf, 0x81, strings) :: performer == NonEmpties(strings)
  {
    hide *;
    var length := BigEndian(buf[..2]);
    var size := if length < 9216 then length else 9216;
    CollectingBegins(buf);
    CarriedIsCollected(buf);
    if size <= 2 {
      return map[], map[];
    }
    var nrPackets := (size - 2) / 18;
    var titlesCollector := new CdTextPacketCollectorSimple();
    var performerCollector := new CdTextPacketCollectorSimple();
    var ipack := 0;
    while ipack < nrPackets
      invariant ipack <= nrPackets == WholePacks(buf)
      invariant titlesCollector.State() == Collect(Collected(0, map[]), TextBytes(buf, ipack, 0x80))
      invariant performerCollector.State() == Collect(Collected(0, map[]), TextBytes(buf, ipack, 0x81))
    {
      var cdp := PackAt(buf, ipack);
      PackCollected(buf, ipack, 0x80);
      PackCollected(buf, ipack, 0x81);
      if cdp.packType == TITLE {
        titlesCollector.Add(cdp.text);
      } else if cdp.packType == PERFORMER {
        performerCollector.Add(cdp.text);
      }
      ipack := ipack + 1;
    }
    titles, performer := titlesCollector.perTrack, performerCollector.perTrack;
  }

  lemma CarriedIsCollected(buf: seq<U8>)
    requires |buf| == 9216
    ensures forall packType, strings | Carries(buf, packType, strings) ::
      Collect(Collected(0, map[]), TextBytes(buf, WholePacks(buf), packType)).perTrack == NonEmpties(strings)
  {
    hide WholePacks, TextBytes, Terminated, Zeros, NonEmpties, Collect, NulFree;
    forall packType, strings | Carries(buf, packType, strings)
      ensures Collect(Collected(0, map[]), TextBytes(buf, WholePacks(buf), packType)).perTrack == NonEmpties(strings)
    {
      var padding :| TextBytes(buf, WholePacks(buf), packType) == Terminated(strings) + Zeros(padding);
      SplitTerminated(strings, padding);
    }
  }

  lemma CollectingBegins(buf: seq<U8>)
    requires |buf| == 9216
    ensures var length := BigEndian(buf[..2]);
      var size := if length < 9216 then length else 9216;
      WholePacks(buf) == if size <= 2 then 0 else (size - 2) / 18
    ensures forall packType :: Collect(Collected(0, map[]), TextBytes(buf, 0, packType)) == Collected(0, map[])
    ensures TITLE == 0x80 && PERFORMER == 0x81
  {
    assert buf[..2][..1] == [buf[0]] && buf[..1][..0] == [];
    assert BigEndian([buf[0]]) == buf[0];
  }

  lemma PackSlice(buf: seq<U8>, p: nat)
    requires p + 18 <= |buf|
    ensures buf[p..p + 18][0] == buf[p] && buf[p..p + 18][4..16] == buf[p + 4..p + 16]
  {
    var slice := buf[p..p + 18];
    assert forall k | 4 <= k < 16 :: slice[k] == buf[p + k];
    assert forall k | 0 <= k < 12 :: slice[4..16][k] == slice[4 + k] == buf[p + 4 + k];
  }

  lemma PackParts(r: CdTextPackData)
    requires FitsPack(r)
    ensures EncodePack(r)[0] == r.packType && EncodePack(r)[4..16] == r.text
  {
  }

  lemma PackCollected(buf: seq<U8>, i: nat, packType: U8)
    requires 4 + 18 * (i + 1) <= |buf|
    ensures var start, cdp := Collected(0, map[]), PackAt(buf, i);
      Collect(start, TextBytes(buf, i + 1, packType))
        == if cdp.packType == packType then Collect(Collect(start, TextBytes(buf, i, packType)), cdp.text)
           else Collect(start, TextBytes(buf, i, packType))
  {
    var p := 4 + 18 * i;
    PackSlice(buf, p);
    CollectConcat(Collected(0, map[]), TextBytes(buf, i, packType), PackAt(buf, i).text);
    assert TextBytes(buf, i, packType) + [] == TextBytes(buf, i, packType);
  }

  predicate AllFit(packs: seq<CdTextPackData>) {
    forall i | 0 <= i < |packs| :: FitsPack(packs[i])
  }

  /** The packs one after the other. */
  function EncodePacks(packs: seq<CdTextPackData>): (b: seq<U8>)
    requires AllFit(packs)
    ensures |b| == 18 * |packs|
  {
    if packs == [] then [] else EncodePacks(packs[..|packs| - 1]) + EncodePack(packs[|packs| - 1])
  }

  /** What a drive transfers: the length, two reserved bytes and the packs; the rest of the
      buffer holds anything. */
  predicate Transfers(buf: seq<U8>, packs: seq<CdTextPackData>)
    requires AllFit(packs)
  {
    && |buf| == 9216 && |packs| <= 511
    && buf[..2] == ToBytes(2 + 18 * |packs|, 2)
    && EncodePacks(packs) <= buf[4..]
  }

  lemma {:induction false} PacksAreRead(buf: seq<U8>, packs: seq<CdTextPackData>)
    requires AllFit(packs) && 4 + 18 * |packs| <= |buf| && EncodePacks(packs) <= buf[4..]
    ensures Packs(buf, |packs|) == packs
  {
    hide *;
    PacksStep(buf, packs);
    if packs != [] {
      var n := |packs| - 1;
      LastSlice(buf, EncodePacks(packs[..n]), EncodePack(packs[n]), n);
      PacksAreRead(buf, packs[..n]);
      PackRoundTrip(packs[n]);
    }
  }

  lemma PacksStep(buf: seq<U8>, packs: seq<CdTextPackData>)
    requires AllFit(packs) && 4 + 18 * |packs| <= |buf|
    ensures packs == [] ==> Packs(buf, 0) == []
    ensures packs != [] ==> var n := |packs| - 1;
      && AllFit(packs[..n]) && FitsPack(packs[n]) && packs == packs[..n] + [packs[n]]
      && EncodePacks(packs) == EncodePacks(packs[..n]) + EncodePack(packs[n])
      && Packs(buf, n + 1) == Packs(buf, n) + [ParsePack(buf[4 + 18 * n..4 + 18 * (n + 1)])]
  {
    hide EncodePack, ParsePack, FitsPack;
  }

  lemma LastSlice(buf: seq<U8>, front: seq<U8>, last: seq<U8>, n: nat)
    requires |front| == 18 * n && |last| == 18 && 4 <= |buf| && front + last <= buf[4..]
    ensures 4 + 18 * (n + 1) <= |buf| && front <= buf[4..]
    ensures buf[4 + 18 * n..4 + 18 * (n + 1)] == last
  {
    var both := front + last;
    assert both == buf[4..][..|both|];
    assert forall i | 0 <= i < 18 :: last[i] == both[18 * n + i] == buf[4 + 18 * n + i];
    assert front == buf[4..][..|front|];
  }

  /** What the packs of one type hold is what the bytes behind their type hold. */
  lemma {:induction false} PacksHoldTheTexts(buf: seq<U8>, packs: seq<CdTextPackData>, packType: U8)
    requires AllFit(packs) && 4 + 18 * |packs| <= |buf| && EncodePacks(packs) <= buf[4..]
    ensures TextBytes(buf, |packs|, packType) == Texts(packs, packType)
  {
    if packs != [] {
      var n := |packs| - 1;
      var p := 4 + 18 * n;
      LastSlice(buf, EncodePacks(packs[..n]), EncodePack(packs[n]), n);
      hide EncodePacks;
      PacksHoldTheTexts(buf, packs[..n], packType);
      PackSlice(buf, p);
      PackParts(packs[n]);
      hide EncodePack, FitsPack;
    }
  }

  /** Round trip: titles and performers, terminated by NUL, padded, cut into packs and
      interleaved in any way with each other and with packs of other types, come back as the
      maps of their non-empty strings. */
  method CdTextRoundTrip(buf: seq<U8>, ghost packs: seq<CdTextPackData>, ghost strings: seq<seq<U8>>,
                         ghost names: seq<seq<U8>>, ghost stringPadding: nat, ghost namePadding: nat)
    returns (titles: map<nat, seq<U8>>, performer: map<nat, seq<U8>>)
    requires AllFit(packs) && Transfers(buf, packs)
    requires NulFree(strings) && NulFree(names)
    requires Texts(packs, 0x80) == Terminated(strings) + Zeros(stringPadding)
    requires Texts(packs, 0x81) == Terminated(names) + Zeros(namePadding)
    ensures titles == NonEmpties(strings) && performer == NonEmpties(names)
  {
    TransferCarries(buf, packs, 0x80, strings, stringPadding);
    TransferCarries(buf, packs, 0x81, names, namePadding);
    hide *;
    titles, performer := GetCdText(buf);
  }

  lemma TransferCarries(buf: seq<U8>, packs: seq<CdTextPackData>, packType: U8, strings: seq<seq<U8>>, padding: nat)
    requires AllFit(packs) && Transfers(buf, packs)
    requires NulFree(strings) && Texts(packs, packType) == Terminated(strings) + Zeros(padding)
    ensures Carries(buf, packType, strings)
  {
    hide EncodePacks, Terminated, Zeros, Texts, TextBytes, NulFree;
    LengthReadBack(buf, |packs|);
    PacksHoldTheTexts(buf, packs, packType);
  }

  lemma LengthReadBack(buf: seq<U8>, n: nat)
    requires |buf| == 9216 && n <= 511 && buf[..2] == ToBytes(2 + 18 * n, 2)
    ensures WholePacks(buf) == n
  {
    var x := 2 + 18 * n;
    assert ToBytes(x, 2) == [x / 256, x % 256];
    assert buf[0] == buf[..2][0] && buf[1] == buf[..2][1];
  }
}
