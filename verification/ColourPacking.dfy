/** The 9-bit colour format of led_keyboard.c: channels quantised to three bits, two to a
    byte, spread over four packets, and read back. */
module ColourPacking {

  type Byte = b: int | 0 <= b < 256

  const N_KEYS_HW := 152
  const MSG_SIZE := 64
  const SENT := 144      // LEDs that fit the four payloads

  type Plane = p: seq<Byte> | |p| == N_KEYS_HW witness seq(N_KEYS_HW, _ => 0)

  datatype Lighting = Lighting(r: Plane, g: Plane, b: Plane)

  // ----- quantising

  /** quantize8to3: `>> 5`. */
  function Quantize(v: Byte): (q: nat)
    ensures q < 8
  {
    v / 32
  }

  /** ordered8to3 with the threshold `t` of the LED's place in the dithering table. */
  function Ordered(t: Byte, v: Byte): (q: nat)
    ensures q < 8
  {
    var m: int := (v as int) * 7;
    m / 255 + if m % 255 > t then 1 else 0
  }

  /** Dithered or not: one threshold for each LED, or none. */
  datatype Dither = Plain | Thresholds(table: Plane)

  function Level(d: Dither, i: nat, v: Byte): (q: nat)
    requires i < N_KEYS_HW
    ensures q < 8
  {
    match d case Plain => Quantize(v) case Thresholds(t) => Ordered(t[i], v)
  }

  /** Bitwise or of the lowest `n` bits. */
  function Or(n: nat, a: nat, b: nat): nat {
    if n == 0 then 0 else 2 * Or(n - 1, a / 2, b / 2) + if a % 2 == 1 || b % 2 == 1 then 1 else 0
  }

  /** `q << 5 | q << 2 | q >> 1` on a byte.  The shifts of a three-bit level do not overlap,
      and spread it over the whole range. */
  function Expand(q: Byte): Byte {
    if q < 8 then 32 * (q as int) + 4 * (q as int) + q / 2
    else Merged(32 * (q as int) % 256, 4 * (q as int) % 256, q / 2)
  }

  /** Bitwise or of three bytes. */
  function Merged(a: Byte, b: Byte, c: Byte): Byte {
    Or(8, Or(8, a, b), c) % 256
  }

  /** Without dithering a level is the share of eight, rounded down. */
  lemma QuantizedRounds(v: Byte)
    ensures 32 * Quantize(v) <= v as int < 32 * (Quantize(v) + 1)
  {}

  /** The eight levels, spread evenly over the bytes, and what the eight values become that no
      level has. */
  lemma ExpandValues()
    ensures Expand(0) == 0 && Expand(1) == 36 && Expand(2) == 73 && Expand(3) == 109
    ensures Expand(4) == 146 && Expand(5) == 182 && Expand(6) == 219 && Expand(7) == 255
  {}

  function Power(n: nat): (p: nat)
    ensures p > 0
  {
    if n == 0 then 1 else 2 * Power(n - 1)
  }

  lemma {:induction false} OrRange(n: nat, a: nat, b: nat)
    requires a < Power(n) && b < Power(n)
    ensures b <= Or(n, a, b) < Power(n)
  {
    if n > 0 { OrRange(n - 1, a / 2, b / 2); }
  }

  lemma {:induction false} OrOnes(n: nat, u: nat)
    requires Power(n) <= u < 2 * Power(n)
    ensures Or(n + 1, u, Power(n) - 1) == 2 * Power(n) - 1
  {
    if n > 0 { OrOnes(n - 1, u / 2); }
  }

  /** Two steps: the lowest two bits of a multiple of four are those of the other. */
  lemma OrQuarter(n: nat, u: nat, w: nat, v: nat)
    requires v < 4
    ensures Or(n + 2, 4 * u, 4 * w + v) == 4 * Or(n, u, w) + v
  {
    assert (4 * w + v) / 2 / 2 == w && 4 * u / 2 / 2 == u;
    assert Or(n + 1, 4 * u / 2, (4 * w + v) / 2) == 2 * Or(n, u, w) + if (4 * w + v) / 2 % 2 == 1 then 1 else 0;
  }

  lemma OverBits(r: nat)
    requires r < 8
    ensures Or(8, Or(8, 32 * r, 224 + 4 * r), 124 + r / 2) == 252 + r / 2
  {
    var u := Or(6, 8 * r, 56 + r);
    assert Power(5) == 32 && Power(6) == 64 by { assert Power(3) == 8; }
    OrRange(6, 8 * r, 56 + r);
    OrQuarter(6, 8 * r, 56 + r, 0);
    OrQuarter(6, u, 31, r / 2);
    OrOnes(5, u);
  }

  /** A half byte that is no level at all comes out nearly full. */
  lemma ExpandOver(q: Byte)
    requires q >= 248
    ensures Expand(q) as int == 252 + (q - 248) / 2
  {
    Shifts(q);
    OverSum(32 * (q as int) % 256, 4 * (q as int) % 256, q / 2, q - 248);
    assert Expand(q) == Merged(32 * (q as int) % 256, 4 * (q as int) % 256, q / 2);
  }

  lemma Shifts(q: Byte)
    requires q >= 248
    ensures 32 * (q as int) % 256 == 32 * (q - 248) && 4 * (q as int) % 256 == 224 + 4 * (q - 248)
    ensures q / 2 == 124 + (q - 248) / 2
  {}

  lemma OverSum(a: Byte, b: Byte, c: Byte, r: nat)
    requires r < 8 && a == 32 * r && b == 224 + 4 * r && c == 124 + r / 2
    ensures Merged(a, b, c) as int == 252 + r / 2
  {
    OverBits(r);
  }

  lemma ExpandQuantized(q: nat)
    requires q < 8
    ensures Quantize(Expand(q)) == q
  {
    assert q == 0 || q == 1 || q == 2 || q == 3 || q == 4 || q == 5 || q == 6 || q == 7;
  }

  /** With a threshold, three bits survive being expanded and dithered again exactly if the
      threshold is not in the way of the rounding. */
  lemma ExpandOrderedExactly(t: Byte, q: nat)
    requires q < 8
    ensures Ordered(t, Expand(q)) == q
            <==> q == 7 || (if q % 2 == 1 then t < 252 + q / 2 else t >= q / 2)
  {
    assert q == 0 || q == 1 || q == 2 || q == 3 || q == 4 || q == 5 || q == 6 || q == 7;
  }

  /** Dithering rounds one way or the other: the level is the exact share of seven, rounded
      down, or one above it when the threshold is below the remainder. */
  lemma OrderedRounds(t: Byte, v: Byte)
    ensures 255 * (Ordered(t, v) - 1) < 7 * (v as int) < 255 * (Ordered(t, v) + 1)
    ensures v == 0 ==> Ordered(t, v) == 0
    ensures v == 255 ==> Ordered(t, v) == 7
  {}

  /** BR4: the bits of a byte in reverse order. */
  function BitReverse(x: Byte): Byte {
    128 * (x % 2) as int + 64 * (x / 2 % 2) as int + 32 * (x / 4 % 2) as int + 16 * (x / 8 % 2) as int
    + 8 * (x / 16 % 2) as int + 4 * (x / 32 % 2) as int + 2 * (x / 64 % 2) as int + (x / 128) as int
  }

  /** bit_reverse_table: its second half starts from 127, not 128. */
  function TableEntry(i: Byte): Byte { BitReverse(if i < 128 then i else i - 1) }

  /** The table is the bit reversal of its index in the first half only. */
  lemma TableExactly(i: Byte)
    ensures TableEntry(i) == BitReverse(i) <==> i < 128
  {
    if i >= 128 {
      assert (i % 2 == 1) != ((i - 1) % 2 == 1);
    }
  }

  // ----- packing

  /** Two levels, inverted, in one byte: the even LED in the low half. */
  function Pair(q1: nat, q2: nat): Byte
    requires q1 < 8 && q2 < 8
  {
    16 * (7 - q2) + (7 - q1)
  }

  /** One half of a byte, inverted again, as a uint8_t. */
  function Half(b: Byte, odd: bool): Byte {
    (if odd then 7 - (b as int) / 16 else 7 - (b as int) % 16) % 256
  }

  function Packed(d: Dither, p: Plane): (s: seq<Byte>)
    ensures |s| == N_KEYS_HW / 2
  {
    seq(N_KEYS_HW / 2, i requires 0 <= i < N_KEYS_HW / 2 => Pair(Level(d, 2 * i, p[2 * i]), Level(d, 2 * i + 1, p[2 * i + 1])))
  }

  lemma PackedHalves(d: Dither, p: Plane, i: nat)
    requires i < N_KEYS_HW
    ensures Half(Packed(d, p)[i / 2], i % 2 == 1) == Level(d, i, p[i])
  {
    var j := i / 2;
    assert Packed(d, p)[j] == Pair(Level(d, 2 * j, p[2 * j]), Level(d, 2 * j + 1, p[2 * j + 1]));
    HalvesOfPair(Level(d, 2 * j, p[2 * j]), Level(d, 2 * j + 1, p[2 * j + 1]));
    assert i == if i % 2 == 1 then 2 * j + 1 else 2 * j;
  }

  lemma HalvesOfPair(q1: nat, q2: nat)
    requires q1 < 8 && q2 < 8
    ensures Half(Pair(q1, q2), false) == q1 && Half(Pair(q1, q2), true) == q2
  {}

  /** The even LED is in the low half of its byte, the odd one in the high half, both inverted. */
  lemma PackedLayout(d: Dither, p: Plane, j: nat)
    requires j < N_KEYS_HW / 2
    ensures Packed(d, p)[j] as int % 16 == 7 - Level(d, 2 * j, p[2 * j])
    ensures Packed(d, p)[j] as int / 16 == 7 - Level(d, 2 * j + 1, p[2 * j + 1])
  {}

  /** What the packets carry behind their four header bytes. */
  function Payload(pkt: seq<seq<Byte>>): seq<Byte>
    requires |pkt| >= 4 && forall k :: 0 <= k < 4 ==> |pkt[k]| == MSG_SIZE
  {
    pkt[0][4..64] + pkt[1][4..64] + pkt[2][4..64] + pkt[3][4..40]
  }

  function PackedAll(d: Dither, l: Lighting): (s: seq<Byte>)
    ensures |s| == 3 * 72
  {
    Packed(d, l.r)[..72] + Packed(d, l.g)[..72] + Packed(d, l.b)[..72]
  }

  method PackPlane(d: Dither, p: Plane) returns (s: array<Byte>)
    ensures fresh(s) && s[..] == Packed(d, p)
  {
    s := new Byte[N_KEYS_HW / 2](_ => 0);
    var i := 0;
    while i < N_KEYS_HW
      invariant 0 <= i <= N_KEYS_HW && i % 2 == 0
      invariant forall j :: 0 <= j < i / 2 ==> s[j] == Packed(d, p)[j]
    {
      var q1, q2 := Level(d, i, p[i]), Level(d, i + 1, p[i + 1]);
      s[i / 2] := (7 - q2) * 16 + (7 - q1);
      i := i + 2;
    }
  }

  /** makergb_512: the payloads of the four packets are the three planes, one after the other;
      headers stay as they were. */
  method MakeRgb512(d: Dither, light: Lighting, pkt: array<seq<Byte>>)
    requires pkt.Length == 5 && forall k :: 0 <= k < 5 ==> |pkt[k]| == MSG_SIZE
    modifies pkt
    ensures forall k :: 0 <= k < 5 ==> |pkt[k]| == MSG_SIZE && pkt[k][..4] == old(pkt[k][..4])
    ensures Payload(pkt[..]) == PackedAll(d, light)
  {
    var r := PackPlane(d, light.r);
    var g := PackPlane(d, light.g);
    var b := PackPlane(d, light.b);
    pkt[0] := pkt[0][..4] + r[..60];
    pkt[1] := pkt[1][..4] + r[60..72] + g[..48];
    pkt[2] := pkt[2][..4] + g[48..72] + b[..36];
    pkt[3] := pkt[3][..4] + b[36..72] + pkt[3][40..];
    Spread(pkt[..], r[..], g[..], b[..]);
  }

  lemma Spread(pkt: seq<seq<Byte>>, r: seq<Byte>, g: seq<Byte>, b: seq<Byte>)
    requires |pkt| >= 4 && (forall k :: 0 <= k < 4 ==> |pkt[k]| == MSG_SIZE) && |r| == |g| == |b| == 76
    requires pkt[0][4..64] == r[..60] && pkt[1][4..64] == r[60..72] + g[..48]
    requires pkt[2][4..64] == g[48..72] + b[..36] && pkt[3][4..40] == b[36..72]
    ensures Payload(pkt) == r[..72] + g[..72] + b[..72]
  {
    assert r[..60] + r[60..72] == r[..72];
    assert g[..48] + g[48..72] == g[..72];
    assert b[..36] + b[36..72] == b[..72];
  }

  // ----- unpacking

  /** What the four packets say about LED `i` of the plane that starts at payload byte `from`. */
  function Read(payload: seq<Byte>, from: nat, i: nat): Byte
    requires i < SENT && from + 72 <= |payload|
  {
    Expand(Half(payload[from + i / 2], i % 2 == 1))
  }

  /** The planes as far as they were sent. */
  ghost predicate Loaded(payload: seq<Byte>, l: Lighting)
    requires |payload| == 3 * 72
  {
    forall i :: 0 <= i < SENT ==>
      l.r[i] == Read(payload, 0, i) && l.g[i] == Read(payload, 72, i) && l.b[i] == Read(payload, 144, i)
  }

  method UnpackPlane(m: seq<Byte>) returns (p: Plane)
    requires |m| == N_KEYS_HW / 2
    ensures forall i :: 0 <= i < N_KEYS_HW ==> p[i] == Expand(Half(m[i / 2], i % 2 == 1))
  {
    var a := new Byte[N_KEYS_HW](_ => 0);
    var i := 0;
    while i < N_KEYS_HW
      invariant 0 <= i <= N_KEYS_HW
      invariant forall j :: 0 <= j < i ==> a[j] == Expand(Half(m[j / 2], j % 2 == 1))
    {
      a[i] := Expand(Half(m[i / 2], i % 2 == 1));
      i := i + 1;
    }
    p := a[..];
  }

  /** loadrgb_kb for old firmware.  The last four bytes of each local array are never written
      (`stale`), so the LEDs from 144 on are whatever was there. */
  method LoadRgb(pkt: seq<seq<Byte>>, stale: seq<Byte>) returns (light: Lighting)
    requires |pkt| >= 4 && forall k :: 0 <= k < |pkt| ==> |pkt[k]| == MSG_SIZE
    requires |stale| == 4
    ensures Loaded(Payload(pkt), light)
  {
    var payload := Payload(pkt);
    var mr := pkt[0][4..64] + pkt[1][4..16] + stale;
    var mg := pkt[1][16..64] + pkt[2][4..28] + stale;
    var mb := pkt[2][28..64] + pkt[3][4..40] + stale;
    Gather(pkt, mr, mg, mb);
    var r := UnpackPlane(mr);
    var g := UnpackPlane(mg);
    var b := UnpackPlane(mb);
    light := Lighting(r, g, b);
  }

  lemma Gather(pkt: seq<seq<Byte>>, mr: seq<Byte>, mg: seq<Byte>, mb: seq<Byte>)
    requires |pkt| >= 4 && forall k :: 0 <= k < |pkt| ==> |pkt[k]| == MSG_SIZE
    requires |mr| == |mg| == |mb| == 76
    requires mr[..72] == pkt[0][4..64] + pkt[1][4..16]
    requires mg[..72] == pkt[1][16..64] + pkt[2][4..28]
    requires mb[..72] == pkt[2][28..64] + pkt[3][4..40]
    ensures Payload(pkt) == mr[..72] + mg[..72] + mb[..72]
    ensures forall i :: 0 <= i < 72 ==>
      Payload(pkt)[i] == mr[i] && Payload(pkt)[72 + i] == mg[i] && Payload(pkt)[144 + i] == mb[i]
  {
    assert pkt[1][4..64] == pkt[1][4..16] + pkt[1][16..64];
    assert pkt[2][4..64] == pkt[2][4..28] + pkt[2][28..64];
  }

  // ----- there and back

  lemma PlaneReads(d: Dither, p: Plane, payload: seq<Byte>, from: nat, i: nat)
    requires i < SENT && from + 72 <= |payload| && payload[from..from + 72] == Packed(d, p)[..72]
    ensures Read(payload, from, i) == Expand(Level(d, i, p[i]))
  {
    PackedHalves(d, p, i);
    assert payload[from + i / 2] == payload[from..from + 72][i / 2] == Packed(d, p)[..72][i / 2];
  }

  /** Whatever is loaded from a packed lighting shows, on all 144 LEDs that were sent and on
      every channel, the expanded level of the original. */
  lemma LoadedLevels(d: Dither, l: Lighting, l': Lighting, i: nat)
    requires Loaded(PackedAll(d, l), l') && i < SENT
    ensures l'.r[i] == Expand(Level(d, i, l.r[i]))
    ensures l'.g[i] == Expand(Level(d, i, l.g[i]))
    ensures l'.b[i] == Expand(Level(d, i, l.b[i]))
  {
    var payload := PackedAll(d, l);
    assert payload[0..72] == Packed(d, l.r)[..72];
    assert payload[72..144] == Packed(d, l.g)[..72];
    assert payload[144..216] == Packed(d, l.b)[..72];
    PlaneReads(d, l.r, payload, 0, i);
    PlaneReads(d, l.g, payload, 72, i);
    PlaneReads(d, l.b, payload, 144, i);
  }

  /** LED `i` keeps its levels when it is expanded and quantised again. */
  predicate Settled(d: Dither, i: nat, v: Byte)
    requires i < N_KEYS_HW
  {
    Level(d, i, Expand(Level(d, i, v))) == Level(d, i, v)
  }

  lemma ExpandInjective(a: nat, b: nat)
    requires a < 8 && b < 8
    ensures Expand(a) == Expand(b) <==> a == b
  {
    ExpandQuantized(a);
    ExpandQuantized(b);
  }

  /** Saving and loading a second time changes an LED exactly if its level does not survive
      expansion. */
  lemma SecondRoundExactly(d: Dither, l: Lighting, l1: Lighting, l2: Lighting, i: nat)
    requires Loaded(PackedAll(d, l), l1) && Loaded(PackedAll(d, l1), l2) && i < SENT
    ensures l2.r[i] == l1.r[i] <==> Settled(d, i, l.r[i])
    ensures l2.g[i] == l1.g[i] <==> Settled(d, i, l.g[i])
    ensures l2.b[i] == l1.b[i] <==> Settled(d, i, l.b[i])
  {
    LoadedLevels(d, l, l1, i);
    LoadedLevels(d, l1, l2, i);
    ExpandInjective(Level(d, i, l.r[i]), Level(d, i, l1.r[i]));
    ExpandInjective(Level(d, i, l.g[i]), Level(d, i, l1.g[i]));
    ExpandInjective(Level(d, i, l.b[i]), Level(d, i, l1.b[i]));
  }

  /** The thresholds of the source: the table at the LED's own index. */
  function SourceThresholds(): (t: Plane)
    ensures forall i :: 0 <= i < N_KEYS_HW ==> t[i] == TableEntry(i)
  {
    seq(N_KEYS_HW, i requires 0 <= i < N_KEYS_HW => TableEntry(i))
  }

  /** The levels that do not survive expansion and dithering with the source's table: six LEDs
      have a threshold low or high enough to be in the way. */
  predicate Drifts(i: nat, q: nat) {
    || (i == 0 && q in {2, 4, 6})
    || (i == 63 && q == 1)
    || (i == 64 && q == 6)
    || (i in {127, 128} && q in {1, 3, 5})
    || (i == 129 && q in {4, 6})
  }

  /** A byte and its reversal, bit by bit. */
  lemma Halved(x: Byte)
    ensures x / 4 == x / 2 / 2 && x / 8 == x / 4 / 2 && x / 16 == x / 8 / 2 && x / 32 == x / 16 / 2
    ensures x / 64 == x / 32 / 2 && x / 128 == x / 64 / 2 && x / 128 < 2
  {}

  lemma LowDigits(b0: nat, b1: nat, b2: nat, b3: nat, b4: nat, b5: nat, b6: nat, b7: nat, x: nat, r: nat)
    requires b0 < 2 && b1 < 2 && b2 < 2 && b3 < 2 && b4 < 2 && b5 < 2 && b6 < 2 && b7 < 2
    requires x == b0 + 2 * b1 + 4 * b2 + 8 * b3 + 16 * b4 + 32 * b5 + 64 * b6 + 128 * b7
    requires r == 128 * b0 + 64 * b1 + 32 * b2 + 16 * b3 + 8 * b4 + 4 * b5 + 2 * b6 + b7
    ensures r == 0 <==> x == 0
    ensures r == 1 <==> x == 128
    ensures r == 2 <==> x == 64
  {}

  lemma HighDigits(b0: nat, b1: nat, b2: nat, b3: nat, b4: nat, b5: nat, b6: nat, b7: nat, x: nat, r: nat)
    requires b0 < 2 && b1 < 2 && b2 < 2 && b3 < 2 && b4 < 2 && b5 < 2 && b6 < 2 && b7 < 2
    requires x == b0 + 2 * b1 + 4 * b2 + 8 * b3 + 16 * b4 + 32 * b5 + 64 * b6 + 128 * b7
    requires r == 128 * b0 + 64 * b1 + 32 * b2 + 16 * b3 + 8 * b4 + 4 * b5 + 2 * b6 + b7
    ensures r == 252 <==> x == 63
    ensures r == 253 <==> x == 191
    ensures r == 254 <==> x == 127
    ensures r == 255 <==> x == 255
  {
    LowDigits(1 - b0, 1 - b1, 1 - b2, 1 - b3, 1 - b4, 1 - b5, 1 - b6, 1 - b7, 255 - x, 255 - r);
    if r == 252 { assert b6 == 0 && b7 == 0 && b0 == 1 && b1 == 1 && b2 == 1 && b3 == 1 && b4 == 1 && b5 == 1; }
  }

  lemma ReverseExtremes(x: Byte)
    ensures BitReverse(x) == 252 <==> x == 63
    ensures BitReverse(x) == 253 <==> x == 191
    ensures BitReverse(x) == 254 <==> x == 127
    ensures BitReverse(x) == 255 <==> x == 255
    ensures BitReverse(x) == 0 <==> x == 0
    ensures BitReverse(x) == 1 <==> x == 128
    ensures BitReverse(x) == 2 <==> x == 64
  {
    Halved(x);
    LowDigits(x % 2, x / 2 % 2, x / 4 % 2, x / 8 % 2, x / 16 % 2, x / 32 % 2, x / 64 % 2, x / 128, x, BitReverse(x));
    HighDigits(x % 2, x / 2 % 2, x / 4 % 2, x / 8 % 2, x / 16 % 2, x / 32 % 2, x / 64 % 2, x / 128, x, BitReverse(x));
  }

  lemma DriftsExactly(i: nat, q: nat)
    requires i < SENT && q < 8
    ensures Ordered(TableEntry(i), Expand(q)) == q <==> !Drifts(i, q)
  {
    ReverseExtremes(if i < 128 then i else i - 1);
    ExpandOrderedExactly(TableEntry(i), q);
    InTheWay(i, TableEntry(i), q);
  }

  lemma InTheWay(i: nat, t: Byte, q: nat)
    requires i < SENT && q < 8
    requires t < 252 || t == 252 || t == 254
    requires (t == 252 <==> i == 63) && (t == 254 <==> i == 127 || i == 128)
    requires (t == 0 <==> i == 0) && (t == 1 <==> i == 129) && (t == 2 <==> i == 64)
    ensures q == 7 || (if q % 2 == 1 then t < 252 + q / 2 else t >= q / 2) <==> !Drifts(i, q)
  {
    assert q == 0 || q == 1 || q == 2 || q == 3 || q == 4 || q == 5 || q == 6 || q == 7;
  }

  /** With the source's dithering a second save and load changes exactly these LEDs, on the
      channels that have exactly these levels. */
  lemma SecondRoundDithered(l: Lighting, l1: Lighting, l2: Lighting, i: nat)
    requires Loaded(PackedAll(Thresholds(SourceThresholds()), l), l1)
    requires Loaded(PackedAll(Thresholds(SourceThresholds()), l1), l2) && i < SENT
    ensures l2.r[i] == l1.r[i] <==> !Drifts(i, Ordered(TableEntry(i), l.r[i]))
    ensures l2.g[i] == l1.g[i] <==> !Drifts(i, Ordered(TableEntry(i), l.g[i]))
    ensures l2.b[i] == l1.b[i] <==> !Drifts(i, Ordered(TableEntry(i), l.b[i]))
  {
    SecondRoundExactly(Thresholds(SourceThresholds()), l, l1, l2, i);
    DriftsExactly(i, Ordered(TableEntry(i), l.r[i]));
    DriftsExactly(i, Ordered(TableEntry(i), l.g[i]));
    DriftsExactly(i, Ordered(TableEntry(i), l.b[i]));
  }

  /** Without dithering a second save and load is the identity on everything that is sent. */
  lemma SecondRoundPlain(l: Lighting, l1: Lighting, l2: Lighting)
    requires Loaded(PackedAll(Plain, l), l1) && Loaded(PackedAll(Plain, l1), l2)
    ensures l2.r[..SENT] == l1.r[..SENT] && l2.g[..SENT] == l1.g[..SENT] && l2.b[..SENT] == l1.b[..SENT]
  {
    forall i | 0 <= i < SENT ensures l2.r[i] == l1.r[i] && l2.g[i] == l1.g[i] && l2.b[i] == l1.b[i] {
      SecondRoundExactly(Plain, l, l1, l2, i);
      ExpandQuantized(Quantize(l.r[i]));
      ExpandQuantized(Quantize(l.g[i]));
      ExpandQuantized(Quantize(l.b[i]));
    }
  }

  /** Save and load through actual packets. */
  method SaveAndLoad(d: Dither, light: Lighting, stale: seq<Byte>) returns (back: Lighting)
    requires |stale| == 4
    ensures Loaded(PackedAll(d, light), back)
    ensures forall i :: 0 <= i < SENT ==>
      && back.r[i] == Expand(Level(d, i, light.r[i]))
      && back.g[i] == Expand(Level(d, i, light.g[i]))
      && back.b[i] == Expand(Level(d, i, light.b[i]))
  {
    var pkt: array<seq<Byte>> := new seq<Byte>[5](_ => seq(MSG_SIZE, _ => 0));
    MakeRgb512(d, light, pkt);
    back := LoadRgb(pkt[..], stale);
    forall i | 0 <= i < SENT
      ensures back.r[i] == Expand(Level(d, i, light.r[i]))
      ensures back.g[i] == Expand(Level(d, i, light.g[i]))
      ensures back.b[i] == Expand(Level(d, i, light.b[i]))
    {
      LoadedLevels(d, light, back, i);
    }
  }
}
