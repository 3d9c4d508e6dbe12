/** The disc identification sent to CDDB: a checksum of the track starts, the playing time
    and the number of tracks, packed into 32 bits. */
module Cddb {
  import opened TableOfContents

  function DigitSum(n: nat): nat {
    if n == 0 then 0 else n % 10 + DigitSum(n / 10)
  }

  predicate AreDigits(ds: seq<nat>) {
    forall i | 0 <= i < |ds| :: ds[i] < 10
  }

  /** The number written with these decimal digits. */
  function Value(ds: seq<nat>): nat {
    if ds == [] then 0 else 10 * Value(ds[..|ds| - 1]) + ds[|ds| - 1]
  }

  function Total(ds: seq<nat>): nat {
    if ds == [] then 0 else Total(ds[..|ds| - 1]) + ds[|ds| - 1]
  }

  /** The digit sum is the sum of the digits, however many zeros lead. */
  lemma {:induction false} DigitSumIsTotal(ds: seq<nat>)
    requires AreDigits(ds)
    ensures DigitSum(Value(ds)) == Total(ds)
  {
    if ds != [] {
      var front, last := ds[..|ds| - 1], ds[|ds| - 1];
      DigitSumIsTotal(front);
      assert Value(ds) / 10 == Value(front) && Value(ds) % 10 == last;
    }
  }

  lemma DigitsOf(n: nat)
    ensures forall ds | AreDigits(ds) && Value(ds) == n :: DigitSum(n) == Total(ds)
  {
    forall ds | AreDigits(ds) && Value(ds) == n
      ensures DigitSum(n) == Total(ds)
    {
      DigitSumIsTotal(ds);
    }
  }

  /** Digit sums of the start seconds, added up. */
  function StartSum(offsets: seq<nat>): nat {
    if offsets == [] then 0
    else StartSum(offsets[..|offsets| - 1]) + DigitSum(offsets[|offsets| - 1] / 75)
  }

  function Offsets(tracks: seq<TocEntry>): (offsets: seq<nat>)
    ensures |offsets| == |tracks|
    ensures forall i | 0 <= i < |tracks| :: offsets[i] == ToFrame(tracks[i].start)
  {
    seq(|tracks|, i requires 0 <= i < |tracks| => ToFrame(tracks[i].start))
  }

  /** The low 32 bits of an integer. */
  function Low32(x: int): bv32 {
    (x % 0x1_0000_0000) as bv32
  }

  /** Seconds from the first track to the lead-out. */
  function TotalTime(offsets: seq<nat>): int
    requires offsets != []
  {
    var end: int := offsets[|offsets| - 1] / 75;
    end - offsets[0] / 75
  }

  /** The checksum as accumulated in 32 bits; the lead-out does not take part. */
  function Checksum(offsets: seq<nat>): nat
    requires offsets != []
  {
    StartSum(offsets[..|offsets| - 1]) % 0x1_0000_0000
  }

  function Bits(c: bv32, t: bv32, n: bv32): bv32 {
    (c << 24) | (t << 8) | n
  }

  function Pack(checksum: nat, totalTime: int, last: nat): bv32 {
    Bits(Low32(checksum % 0xff), Low32(totalTime), Low32(last))
  }

  function DiscId(offsets: seq<nat>): bv32
    requires offsets != []
  {
    Pack(Checksum(offsets), TotalTime(offsets), |offsets| - 1)
  }

  lemma ChecksumBegins(starts: seq<nat>)
    ensures StartSum(starts[..0]) % 0x1_0000_0000 == 0
  {
  }

  lemma ChecksumStep(starts: seq<nat>, i: nat, checksum: nat)
    requires i < |starts| && checksum == StartSum(starts[..i]) % 0x1_0000_0000
    ensures StartSum(starts[..i + 1]) % 0x1_0000_0000 == (checksum + DigitSum(starts[i] / 75)) % 0x1_0000_0000
  {
    assert starts[..i + 1][..i] == starts[..i];
  }

  lemma IdIsPacked(offsets: seq<nat>)
    requires offsets != []
    ensures DiscId(offsets)
         == Pack(StartSum(offsets[..|offsets| - 1]) % 0x1_0000_0000, TotalTime(offsets), |offsets| - 1)
    ensures var end: int := offsets[|offsets| - 1] / 75; TotalTime(offsets) == end - offsets[0] / 75
  {
  }

  class CddbQuery {
    var discId: bv32
    var frameOffsets: seq<nat>
    var totalTime: int

    constructor (toc: Toc)
      requires toc.tracks != []
      ensures frameOffsets == Offsets(toc.tracks)
      ensures totalTime == TotalTime(frameOffsets)
      ensures discId == DiscId(frameOffsets)
    {
      frameOffsets := [];
      discId, totalTime := 0, 0;
      new;
      hide *;
      var checksum := 0;
      var tracks := toc.tracks;
      ghost var starts := Offsets(tracks)[..|tracks| - 1];
      ChecksumBegins(starts);
      var i := 0;
      while i < |tracks|
        invariant i <= |tracks|
        invariant frameOffsets == Offsets(tracks)[..i]
        invariant checksum == StartSum(starts[..if i < |tracks| then i else |tracks| - 1]) % 0x1_0000_0000
      {
        var off := ToFrame(tracks[i].start);
        if i < |tracks| - 1 {
          var d := Sum(off / 75);
          ChecksumStep(starts, i, checksum);
          checksum := (checksum + d) % 0x1_0000_0000;
        }
        frameOffsets := frameOffsets + [off];
        i := i + 1;
      }
      assert frameOffsets == Offsets(tracks);
      assert starts[..|tracks| - 1] == starts;
      var end: int := frameOffsets[|frameOffsets| - 1] / 75;
      totalTime := end - frameOffsets[0] / 75;
      var last := |tracks| - 1;
      discId := Pack(checksum, totalTime, last);
      IdIsPacked(frameOffsets);
    }

    static method Sum(n: nat) returns (r: nat)
      ensures r == DigitSum(n)
      ensures forall ds | AreDigits(ds) && Value(ds) == n :: r == Total(ds)
    {
      DigitsOf(n);
      r := 0;
      var m := n;
      while m > 0
        invariant r + DigitSum(m) == DigitSum(n)
      {
        r := r + m % 10;
        m := m / 10;
      }
    }
  }

  /** The ID taken apart again. */
  function FieldsOf(id: bv32): (bv32, bv32, bv32) {
    (id >> 24, (id >> 8) & 0xffff, id & 0xff)
  }

  lemma PackBits(c: bv32, t: bv32, n: bv32)
    requires c < 0x100 && t < 0x1_0000 && n < 0x100
    ensures FieldsOf(Bits(c, t, n)) == (c, t, n)
    ensures (c << 24) & (t << 8) == 0 && (c << 24) & n == 0 && (t << 8) & n == 0
  {
  }

  lemma MasksBound(id: bv32)
    ensures FieldsOf(id).1 < 0x1_0000 && FieldsOf(id).2 < 0x100
  {
  }

  lemma FitsByte(x: nat)
    requires x < 0x100
    ensures Low32(x) < 0x100
  {
    assert x % 0x1_0000_0000 == x;
  }

  lemma FitsTwoBytes(x: nat)
    requires x < 0x1_0000
    ensures Low32(x) < 0x1_0000
  {
    assert x % 0x1_0000_0000 == x;
  }

  /** For a disc of at most 256 entries and less than 65536 seconds the three fields of the ID
      do not overlap: they can be read back. */
  lemma FieldsDecode(offsets: seq<nat>)
    requires 0 < |offsets| <= 256
    requires 0 <= TotalTime(offsets) < 0x1_0000
    ensures FieldsOf(DiscId(offsets))
         == (Low32(Checksum(offsets) % 0xff), Low32(TotalTime(offsets)), Low32(|offsets| - 1))
  {
    FitsByte(Checksum(offsets) % 0xff);
    FitsTwoBytes(TotalTime(offsets));
    FitsByte(|offsets| - 1);
    hide Low32, Checksum, TotalTime, FieldsOf, Bits;
    PackBits(Low32(Checksum(offsets) % 0xff), Low32(TotalTime(offsets)), Low32(|offsets| - 1));
  }

  /** The masks give back no more than they hold: the fields can be read back exactly when the
      time fits two bytes and the track count one. */
  lemma FieldsDecodeIffTheyFit(offsets: seq<nat>)
    requires offsets != []
    ensures FieldsOf(DiscId(offsets))
         == (Low32(Checksum(offsets) % 0xff), Low32(TotalTime(offsets)), Low32(|offsets| - 1))
       <==> Low32(TotalTime(offsets)) < 0x1_0000 && Low32(|offsets| - 1) < 0x100
  {
    FitsByte(Checksum(offsets) % 0xff);
    hide Low32, Checksum, TotalTime, FieldsOf, Bits;
    var c, t, n := Low32(Checksum(offsets) % 0xff), Low32(TotalTime(offsets)), Low32(|offsets| - 1);
    if t < 0x1_0000 && n < 0x100 {
      PackBits(c, t, n);
    } else {
      MasksBound(DiscId(offsets));
    }
  }

  lemma SampleOffsets(tracks: seq<TocEntry>)
    requires |tracks| == 3
    requires tracks[0].start == MSF(0, 2, 0) && tracks[1].start == MSF(3, 19, 0) && tracks[2].start == MSF(6, 40, 0)
    ensures Offsets(tracks) == [150, 14925, 30000]
  {
  }

  lemma SampleSums()
    ensures StartSum([150, 14925]) == 21
  {
    assert DigitSum(2) == 2;
    assert DigitSum(1) == 1 && DigitSum(19) == 10 && DigitSum(199) == 19;
    StartSumOne([], 150);
    StartSumOne([150], 14925);
    assert [] + [150] == [150] && [150] + [14925] == [150, 14925];
  }

  lemma SampleFields()
    ensures StartSum([150, 14925, 30000][..2]) % 0x1_0000_0000 == 21
    ensures TotalTime([150, 14925, 30000]) == 398
  {
    hide StartSum;
    SampleSums();
    assert [150, 14925, 30000][..2] == [150, 14925];
  }

  lemma Low32Small(x: nat)
    requires x < 0x1_0000_0000
    ensures Low32(x) == x as bv32
  {
  }

  lemma SampleChecksum()
    ensures Low32(21) == 0x15
  {
    hide Low32;
    Low32Small(21);
  }

  lemma SampleTime()
    ensures Low32(398) == 0x18e
  {
    hide Low32;
    Low32Small(398);
  }

  lemma SampleCount()
    ensures Low32(2) == 2
  {
    hide Low32;
    Low32Small(2);
  }

  lemma PackedSample()
    ensures Pack(21, 398, 2) == 0x15018e02
  {
    SampleChecksum();
    SampleTime();
    SampleCount();
    hide Low32;
  }

  /** For example two tracks at 0:02 and 3:19 with the lead-out at 6:40: the digits of 2 and
      199 add up to 21, and there are 398 seconds of play. */
  lemma SampleId(tracks: seq<TocEntry>)
    requires |tracks| == 3
    requires tracks[0].start == MSF(0, 2, 0) && tracks[1].start == MSF(3, 19, 0) && tracks[2].start == MSF(6, 40, 0)
    ensures DiscId(Offsets(tracks)) == 0x15018e02
  {
    hide *;
    SampleOffsets(tracks);
    SampleFields();
    PackedSample();
    IdIsPacked([150, 14925, 30000]);
  }

  lemma NinesCastOut(q: nat, r: nat, s: nat)
    requires s % 9 == q % 9
    ensures (s + r) % 9 == (10 * q + r) % 9
  {
    SameRemainder(s + r, 10 * q + r, s / 9 - q / 9 - q, 9);
  }

  lemma {:induction false} DigitSumModulo9(n: nat)
    ensures DigitSum(n) % 9 == n % 9
  {
    if n > 0 {
      DigitSumModulo9(n / 10);
      NinesCastOut(n / 10, n % 10, DigitSum(n / 10));
    }
  }

  /** Without its bound of eight decimal digits the checksum could wrap. */
  lemma {:induction false} DigitSumBound(n: nat, digits: nat)
    requires n < Pow10(digits)
    ensures DigitSum(n) <= 9 * digits
  {
    if n > 0 && digits > 0 {
      DigitSumBound(n / 10, digits - 1);
    }
  }

  function Pow10(d: nat): nat {
    if d == 0 then 1 else 10 * Pow10(d - 1)
  }

  function StartSeconds(offsets: seq<nat>): nat {
    if offsets == [] then 0
    else StartSeconds(offsets[..|offsets| - 1]) + offsets[|offsets| - 1] / 75
  }

  lemma {:induction false} StartSumModulo9(offsets: seq<nat>)
    ensures StartSum(offsets) % 9 == StartSeconds(offsets) % 9
  {
    if offsets != [] {
      var n := |offsets| - 1;
      StartSumModulo9(offsets[..n]);
      DigitSumModulo9(offsets[n] / 75);
      AddRemainders(StartSum(offsets[..n]), StartSeconds(offsets[..n]), DigitSum(offsets[n] / 75), offsets[n] / 75);
    }
  }

  lemma {:induction false} StartSumBound(offsets: seq<nat>)
    requires forall i | 0 <= i < |offsets| :: offsets[i] < 0x8000_0000
    ensures StartSum(offsets) <= 72 * |offsets|
  {
    if offsets != [] {
      StartSumBound(offsets[..|offsets| - 1]);
      assert Pow10(8) == 100000000;
      DigitSumBound(offsets[|offsets| - 1] / 75, 8);
    }
  }

  lemma ChecksumModulo3(starts: seq<nat>)
    requires |starts| <= 256
    requires forall i | 0 <= i < |starts| :: starts[i] < 0x8000_0000
    ensures ((StartSum(starts) % 0x1_0000_0000) % 0xff) % 3 == StartSeconds(starts) % 3
  {
    StartSumBound(starts);
    StartSumModulo9(starts);
    Remainders(StartSum(starts), StartSeconds(starts));
  }

  lemma ChecksumIs(offsets: seq<nat>)
    requires offsets != []
    ensures Checksum(offsets) == StartSum(offsets[..|offsets| - 1]) % 0x1_0000_0000
  {
  }

  /** The top byte of the ID tells the sum of the start seconds modulo 3: digit sums keep the
      remainder by 9, and reducing by 255 keeps the one by 3. */
  lemma {:induction false} TopByteModulo3(offsets: seq<nat>)
    requires 0 < |offsets| <= 256
    requires 0 <= TotalTime(offsets) < 0x1_0000
    requires forall i | 0 <= i < |offsets| :: offsets[i] < 0x8000_0000
    ensures FieldsOf(DiscId(offsets)).0 == Low32(Checksum(offsets) % 0xff)
    ensures (Checksum(offsets) % 0xff) % 3 == StartSeconds(offsets[..|offsets| - 1]) % 3
  {
    var starts := offsets[..|offsets| - 1];
    hide *;
    FieldsDecode(offsets);
    ChecksumModulo3(starts);
    ChecksumIs(offsets);
  }

  lemma AddRemainders(a: nat, b: nat, c: nat, d: nat)
    requires a % 9 == b % 9 && c % 9 == d % 9
    ensures (a + c) % 9 == (b + d) % 9
  {
    var p, q := a / 9 - b / 9, c / 9 - d / 9;
    assert a - b == 9 * p && c - d == 9 * q;
    assert (a + c) - (b + d) == 9 * (p + q);
    SameRemainder(a + c, b + d, p + q, 9);
  }

  lemma SameRemainder(a: nat, b: nat, k: int, m: nat)
    requires m > 0 && a - b == m * k
    ensures a % m == b % m
  {
    var r := b % m;
    assert a == m * (b / m + k) + r;
    QuotientIsUnique(a, b / m + k, r, m);
  }

  lemma QuotientIsUnique(a: nat, q: int, r: nat, m: nat)
    requires a == m * q + r && r < m
    ensures a % m == r
  {
    var d := a / m - q;
    assert m * d == r - a % m;
    assert d == 0;
  }

  lemma Remainders(a: nat, b: nat)
    requires a % 9 == b % 9
    ensures (a % 0xff) % 3 == b % 3
  {
    var p := a / 9 - b / 9;
    assert a - b == 9 * p == 3 * (3 * p);
    SameRemainder(a, b, 3 * p, 3);
    assert a - a % 255 == 3 * (85 * (a / 255));
    SameRemainder(a, a % 255, 85 * (a / 255), 3);
  }

  lemma {:induction false} StartSumSplit(a: seq<nat>, b: seq<nat>)
    ensures StartSum(a + b) == StartSum(a) + StartSum(b)
  {
    if b == [] {
      assert a + b == a;
    } else {
      StartSumSplit(a, b[..|b| - 1]);
      assert (a + b)[..|a + b| - 1] == a + b[..|b| - 1];
    }
  }

  lemma StartSumOne(a: seq<nat>, x: nat)
    ensures StartSum(a + [x]) == StartSum(a) + DigitSum(x / 75)
  {
    hide DigitSum;
    assert (a + [x])[..|a|] == a;
  }

  lemma TakenApart(b: seq<nat>, j: nat)
    requires j < |b|
    ensures b == (b[..j] + [b[j]]) + b[j + 1..]
  {
  }

  lemma StartSumWithout(b: seq<nat>, j: nat)
    requires j < |b|
    ensures StartSum(b) == StartSum(b[..j] + b[j + 1..]) + DigitSum(b[j] / 75)
  {
    hide *;
    StartSumOne(b[..j], b[j]);
    TakenApart(b, j);
    StartSumSplit(b[..j] + [b[j]], b[j + 1..]);
    StartSumSplit(b[..j], b[j + 1..]);
  }

  lemma MultisetWithout(b: seq<nat>, j: nat)
    requires j < |b|
    ensures multiset(b) == multiset(b[..j] + b[j + 1..]) + multiset{b[j]}
  {
    assert b == b[..j] + [b[j]] + b[j + 1..];
  }

  lemma MultisetCancel(a: multiset<nat>, b: multiset<nat>, x: nat)
    requires a + multiset{x} == b + multiset{x}
    ensures a == b
  {
    assert a == (a + multiset{x}) - multiset{x};
    assert b == (b + multiset{x}) - multiset{x};
  }

  lemma {:induction false} StartSumPermutes(a: seq<nat>, b: seq<nat>)
    requires multiset(a) == multiset(b)
    ensures StartSum(a) == StartSum(b)
    decreases |a|
  {
    assert |multiset(a)| == |a| && |multiset(b)| == |b|;
    if a != [] {
      assert a[0] in multiset(b);
      var j :| 0 <= j < |b| && b[j] == a[0];
      var c, d := a[..0] + a[1..], b[..j] + b[j + 1..];
      MultisetWithout(a, 0);
      MultisetWithout(b, j);
      MultisetCancel(multiset(c), multiset(d), a[0]);
      StartSumPermutes(c, d);
      StartSumWithout(a, 0);
      StartSumWithout(b, j);
    }
  }

  /** The ID does not depend on the order of the tracks between the first and the lead-out. */
  lemma {:induction false} IdIgnoresInnerOrder(first: nat, a: seq<nat>, b: seq<nat>, leadOut: nat)
    requires multiset(a) == multiset(b)
    ensures DiscId([first] + a + [leadOut]) == DiscId([first] + b + [leadOut])
  {
    var x, y := [first] + a + [leadOut], [first] + b + [leadOut];
    assert |multiset(a)| == |a| && |multiset(b)| == |b|;
    assert x[..|x| - 1] == [first] + a && y[..|y| - 1] == [first] + b;
    assert multiset([first] + a) == multiset([first] + b);
    StartSumPermutes([first] + a, [first] + b);
  }
}
