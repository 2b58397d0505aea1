/** Handle transfers of bragi_common.c: writing a buffer in packets whose headers are put over
    bytes already sent, and reading a handle back. */
module Bragi {
  import opened Division

  type Byte = b: int | 0 <= b < 256

  const MAGIC: Byte := 0x08
  const WRITE_DATA: Byte := 0x06
  const CONTINUE_WRITE: Byte := 0x07
  const LIGHTING_HANDLE: Byte := 0x00
  const HEADER := 7
  const MAX_LEN := 100 * 1024 * 1024

  // ----- sizes

  /** bragi_calculate_buffer_size: `ps` is the packet size. */
  function BufferSize(dataLen: nat, ps: nat): nat
    requires ps >= HEADER
  {
    var rest := dataLen - ps + HEADER;
    if rest >= 0 then (1 + rest / (ps - 3) + (if rest % (ps - 3) != 0 then 1 else 0)) * ps else ps
  }

  /** How many pieces of `d` bytes it takes to cover `rest` bytes. */
  function Ceil(rest: nat, d: nat): nat
    requires d > 0
  {
    rest / d + if rest % d != 0 then 1 else 0
  }

  lemma CeilStep(rest: nat, d: nat)
    requires d > 0 && rest > 0
    ensures Ceil(rest, d) == 1 + if rest > d then Ceil(rest - d, d) else 0
  {
    if rest > d {
      var q, m := (rest - d) / d, (rest - d) % d;
      assert rest == (q + 1) * d + m;
      DivUnique(rest, d, q + 1, m);
    } else if rest == d {
      DivUnique(rest, d, 1, 0);
    } else {
      DivUnique(rest, d, 0, rest);
    }
  }

  // ----- the packets of one write

  function Word(n: nat): (w: seq<Byte>)
    requires n < 0x1_0000_0000
    ensures |w| == 4
  {
    [n % 256, n / 0x100 % 256, n / 0x1_0000 % 256, n / 0x100_0000 % 256]
  }

  function FromWord(w: seq<Byte>): nat
    requires |w| == 4
  {
    (w[0] as int) + 0x100 * (w[1] as int) + 0x1_0000 * (w[2] as int) + 0x100_0000 * (w[3] as int)
  }

  lemma WordRoundTrip(n: nat)
    requires n < 0x1_0000_0000
    ensures FromWord(Word(n)) == n
  {
    assert n / 0x1_0000 == n / 0x100 / 256 && n / 0x100_0000 == n / 0x1_0000 / 256;
  }

  function WriteHeader(handle: Byte, dataLen: nat): (h: seq<Byte>)
    requires dataLen < 0x1_0000_0000
    ensures |h| == HEADER
  {
    [MAGIC, WRITE_DATA, handle] + Word(dataLen)
  }

  const ContinueHeader: seq<Byte> := [MAGIC, CONTINUE_WRITE, LIGHTING_HANDLE]

  /** The buffer is long enough for a packet at `pos` and all that follow it. */
  predicate Fits(size: nat, total: nat, ps: nat, pos: nat)
    requires ps >= HEADER
  {
    pos + ps + (if total > pos + ps then Ceil(total - pos - ps, ps - 3) * (ps - 3) else 0) <= size
  }

  /** The continuation packets after the packet at `pos`: each steps back three bytes, over
      the end of what was sent, and carries `ps - 3` bytes of the original buffer. */
  function Continuations(b: seq<Byte>, total: nat, ps: nat, pos: nat): (p: seq<seq<Byte>>)
    requires ps >= HEADER && Fits(|b|, total, ps, pos)
    ensures forall k :: 0 <= k < |p| ==> |p[k]| == ps
    decreases total - pos
  {
    if pos + ps < total then
      FitsNext(|b|, total, ps, pos);
      [ContinueHeader + b[pos + ps..pos + 2 * ps - 3]] + Continuations(b, total, ps, pos + ps - 3)
    else []
  }

  lemma FitsNext(size: nat, total: nat, ps: nat, pos: nat)
    requires ps >= HEADER && Fits(size, total, ps, pos) && pos + ps < total
    ensures pos + 2 * ps - 3 <= size && Fits(size, total, ps, pos + ps - 3)
  {
    var d, rest := ps - 3, total - pos - ps;
    CeilStep(rest, d);
    var c := if rest > d then Ceil(rest - d, d) else 0;
    assert (1 + c) * d == d + c * d;
    if rest > d { assert total - (pos + ps - 3) - ps == rest - d; }
  }

  function Packets(b: seq<Byte>, total: nat, ps: nat): seq<seq<Byte>>
    requires ps >= HEADER && Fits(|b|, total, ps, 0)
  {
    assert ps <= |b|;
    [b[..ps]] + Continuations(b, total, ps, 0)
  }

  lemma {:induction false} ContinuationCount(b: seq<Byte>, total: nat, ps: nat, pos: nat)
    requires ps >= HEADER && Fits(|b|, total, ps, pos)
    ensures |Continuations(b, total, ps, pos)| == if total > pos + ps then Ceil(total - pos - ps, ps - 3) else 0
    decreases total - pos
  {
    if pos + ps < total {
      FitsNext(|b|, total, ps, pos);
      CeilStep(total - pos - ps, ps - 3);
      ContinuationCount(b, total, ps, pos + ps - 3);
    }
  }

  lemma BufferFits(dataLen: nat, ps: nat)
    requires ps >= HEADER
    ensures Fits(BufferSize(dataLen, ps), dataLen + HEADER, ps, 0)
  {
    var rest := dataLen - ps + HEADER;
    if rest > 0 {
      var c := Ceil(rest, ps - 3);
      assert (1 + c) * ps == ps + c * (ps - 3) + 3 * c;
    } else if rest == 0 {
      DivUnique(0, ps - 3, 0, 0);
    }
  }

  /** The number of packets sent is the calculated buffer size divided by the packet size. */
  lemma PacketCount(b: seq<Byte>, dataLen: nat, ps: nat)
    requires ps >= HEADER && |b| >= BufferSize(dataLen, ps)
    ensures Fits(|b|, dataLen + HEADER, ps, 0)
    ensures |Packets(b, dataLen + HEADER, ps)| * ps == BufferSize(dataLen, ps)
  {
    BufferFits(dataLen, ps);
    ContinuationCount(b, dataLen + HEADER, ps, 0);
    if dataLen + HEADER == ps { DivUnique(0, ps - 3, 0, 0); }
  }

  /** The bytes of the headers. */
  lemma HeaderLayout(handle: Byte, dataLen: nat)
    requires dataLen < 0x1_0000_0000
    ensures var h := WriteHeader(handle, dataLen);
      && h[0] == 0x08 && h[1] == 0x06 && h[2] == handle
      && h[3..] == Word(dataLen)
    ensures ContinueHeader == [0x08, 0x07, 0x00]
  {}

  lemma WordLayout(n: nat)
    requires n < 0x1_0000_0000
    ensures Word(n)[0] as int == n % 256 && Word(n)[1] as int == n / 256 % 256
    ensures Word(n)[2] as int == n / 0x1_0000 % 256 && Word(n)[3] as int == n / 0x100_0000
  {}

  // ----- putting the packets together again

  /** The bytes of the continuation packets without their headers. */
  function Payloads(ps: seq<seq<Byte>>): seq<Byte>
    requires forall k :: 0 <= k < |ps| ==> |ps[k]| >= 3
  {
    if ps == [] then [] else ps[0][3..] + Payloads(ps[1..])
  }

  /** The first packet and the continuation payloads are the original buffer, as far as they
      go; and they go at least to the end of the data. */
  lemma {:induction false} PayloadsRestore(b: seq<Byte>, total: nat, ps: nat, pos: nat)
    requires ps >= HEADER && Fits(|b|, total, ps, pos)
    ensures var r := Payloads(Continuations(b, total, ps, pos));
      pos + ps + |r| <= |b| && total <= pos + ps + |r| && r == b[pos + ps..pos + ps + |r|]
    decreases total - pos
  {
    if pos + ps < total {
      FitsNext(|b|, total, ps, pos);
      PayloadsRestore(b, total, ps, pos + ps - 3);
      var c := Continuations(b, total, ps, pos);
      PayloadsCons(c[0], Continuations(b, total, ps, pos + ps - 3), b[pos + ps..pos + 2 * ps - 3]);
    }
  }

  lemma PayloadsCons(p: seq<Byte>, rest: seq<seq<Byte>>, payload: seq<Byte>)
    requires p == ContinueHeader + payload && forall k :: 0 <= k < |rest| ==> |rest[k]| >= 3
    ensures Payloads([p] + rest) == payload + Payloads(rest)
  {
    assert p[3..] == payload;
    assert ([p] + rest)[1..] == rest;
  }

  // ----- what the device keeps

  /** A handle as a byte store: a write starts it over, a continuation appends. */
  datatype Store = Store(len: nat, bytes: seq<Byte>)
  {
    function Contents(): seq<Byte> {
      if len <= |bytes| then bytes[..len] else bytes
    }
  }

  /** A device with one store per handle. */
  function Accept(dev: map<Byte, Store>, p: seq<Byte>): map<Byte, Store> {
    if |p| >= HEADER && p[0] == MAGIC && p[1] == WRITE_DATA then dev[p[2] := Store(FromWord(p[3..7]), p[HEADER..])]
    else if |p| >= 3 && p[0] == MAGIC && p[1] == CONTINUE_WRITE && p[2] in dev then
      dev[p[2] := dev[p[2]].(bytes := dev[p[2]].bytes + p[3..])]
    else dev
  }

  function AcceptAll(dev: map<Byte, Store>, ps: seq<seq<Byte>>): map<Byte, Store>
    decreases |ps|
  {
    if ps == [] then dev else AcceptAll(Accept(dev, ps[0]), ps[1..])
  }

  lemma AcceptOne(dev: map<Byte, Store>, p: seq<Byte>, payload: seq<Byte>)
    requires LIGHTING_HANDLE in dev && p == ContinueHeader + payload
    ensures p[3..] == payload
    ensures var s := dev[LIGHTING_HANDLE]; Accept(dev, p) == dev[LIGHTING_HANDLE := Store(s.len, s.bytes + payload)]
  {
    assert p[3..] == payload;
  }

  lemma AppendTwice(dev: map<Byte, Store>, s: Store, x: seq<Byte>, y: seq<Byte>)
    ensures dev[LIGHTING_HANDLE := Store(s.len, s.bytes + x)][LIGHTING_HANDLE := Store(s.len, s.bytes + x + y)]
            == dev[LIGHTING_HANDLE := Store(s.len, s.bytes + (x + y))]
  {
    assert s.bytes + x + y == s.bytes + (x + y);
  }

  lemma {:induction false} AcceptContinuations(dev: map<Byte, Store>, b: seq<Byte>, total: nat, ps: nat, pos: nat)
    requires ps >= HEADER && Fits(|b|, total, ps, pos) && LIGHTING_HANDLE in dev
    ensures var c := Continuations(b, total, ps, pos); var s := dev[LIGHTING_HANDLE];
      AcceptAll(dev, c) == dev[LIGHTING_HANDLE := Store(s.len, s.bytes + Payloads(c))]
    decreases total - pos
  {
    var c := Continuations(b, total, ps, pos);
    var s := dev[LIGHTING_HANDLE];
    if pos + ps < total {
      FitsNext(|b|, total, ps, pos);
      var rest := Continuations(b, total, ps, pos + ps - 3);
      assert c[1..] == rest;
      AcceptOne(dev, c[0], b[pos + ps..pos + 2 * ps - 3]);
      AcceptContinuations(Accept(dev, c[0]), b, total, ps, pos + ps - 3);
      PayloadsCons(c[0], rest, b[pos + ps..pos + 2 * ps - 3]);
      AppendTwice(dev, s, b[pos + ps..pos + 2 * ps - 3], Payloads(rest));
    } else {
      assert s.bytes + Payloads(c) == s.bytes;
    }
  }

  /** What a write puts into the buffer: header, data, and whatever is behind. */
  ghost predicate Carries(b: seq<Byte>, handle: Byte, data: seq<Byte>) {
    |data| < 0x1_0000_0000 && HEADER + |data| <= |b| && b[..HEADER + |data|] == WriteHeader(handle, |data|) + data
  }

  /** The first packet starts the handle's store over. */
  lemma FirstPacket(dev: map<Byte, Store>, b: seq<Byte>, handle: Byte, data: seq<Byte>, ps: nat)
    requires HEADER <= ps <= |b| && Carries(b, handle, data)
    ensures Accept(dev, b[..ps]) == dev[handle := Store(|data|, b[HEADER..ps])]
    ensures b[HEADER..HEADER + |data|] == data
  {
    HeaderBytes(b, handle, data, ps);
    assert b[..ps][HEADER..] == b[HEADER..ps];
  }

  lemma AcceptPackets(dev: map<Byte, Store>, b: seq<Byte>, data: seq<Byte>, ps: nat)
    requires ps >= HEADER && Fits(|b|, |data| + HEADER, ps, 0) && Carries(b, LIGHTING_HANDLE, data)
    ensures AcceptAll(dev, Packets(b, |data| + HEADER, ps))
            == dev[LIGHTING_HANDLE := Store(|data|, b[HEADER..ps] + Payloads(Continuations(b, |data| + HEADER, ps, 0)))]
  {
    var packets := Packets(b, |data| + HEADER, ps);
    assert packets[1..] == Continuations(b, |data| + HEADER, ps, 0);
    FirstPacket(dev, b, LIGHTING_HANDLE, data, ps);
    var dev1 := Accept(dev, packets[0]);
    AcceptContinuations(dev1, b, |data| + HEADER, ps, 0);
  }

  /** For every length and packet size: a write to the lighting handle stores exactly the data. */
  lemma WriteStores(dev: map<Byte, Store>, b: seq<Byte>, data: seq<Byte>, ps: nat)
    requires ps >= HEADER && |b| >= BufferSize(|data|, ps) && Carries(b, LIGHTING_HANDLE, data)
    ensures Fits(|b|, |data| + HEADER, ps, 0)
    ensures var dev' := AcceptAll(dev, Packets(b, |data| + HEADER, ps));
      LIGHTING_HANDLE in dev' && dev'[LIGHTING_HANDLE].Contents() == data
  {
    BufferFits(|data|, ps);
    FitsLonger(BufferSize(|data|, ps), |b|, |data| + HEADER, ps);
    AcceptPackets(dev, b, data, ps);
    FirstPacket(dev, b, LIGHTING_HANDLE, data, ps);
    AllPayloads(b, |data| + HEADER, ps);
    StoredWhole(b, data, ps, Payloads(Continuations(b, |data| + HEADER, ps, 0)));
  }

  lemma AllPayloads(b: seq<Byte>, total: nat, ps: nat)
    requires ps >= HEADER && Fits(|b|, total, ps, 0)
    ensures var r := Payloads(Continuations(b, total, ps, 0));
      ps + |r| <= |b| && total <= ps + |r| && r == b[ps..ps + |r|]
  {
    PayloadsRestore(b, total, ps, 0);
  }

  lemma StoredWhole(b: seq<Byte>, data: seq<Byte>, ps: nat, r: seq<Byte>)
    requires HEADER <= ps && ps + |r| <= |b| && HEADER + |data| <= ps + |r|
    requires b[HEADER..HEADER + |data|] == data && r == b[ps..ps + |r|]
    ensures Store(|data|, b[HEADER..ps] + r).Contents() == data
  {
    Joined(b, data, ps, |r|);
  }

  /** On another handle the data is stored exactly when it fits the first packet: the
      continuations name the lighting handle and go elsewhere. */
  lemma OtherHandleExactly(dev: map<Byte, Store>, b: seq<Byte>, handle: Byte, data: seq<Byte>, ps: nat)
    requires ps >= HEADER && |b| >= BufferSize(|data|, ps) && Carries(b, handle, data) && handle != LIGHTING_HANDLE
    ensures Fits(|b|, |data| + HEADER, ps, 0)
    ensures var dev' := AcceptAll(dev, Packets(b, |data| + HEADER, ps));
      handle in dev' && (dev'[handle].Contents() == data <==> HEADER + |data| <= ps)
  {
    PacketCount(b, |data|, ps);
    FirstPacket(dev, b, handle, data, ps);
    var packets := Packets(b, |data| + HEADER, ps);
    var c := Continuations(b, |data| + HEADER, ps, 0);
    assert packets[1..] == c;
    ContinuationsElsewhere(Accept(dev, packets[0]), b, |data| + HEADER, ps, 0, handle);
    if HEADER + |data| <= ps {
      assert b[HEADER..ps][..|data|] == b[HEADER..HEADER + |data|];
    } else {
      assert |b[HEADER..ps]| < |data|;
    }
  }

  lemma {:induction false} ContinuationsElsewhere(dev: map<Byte, Store>, b: seq<Byte>, total: nat, ps: nat, pos: nat, handle: Byte)
    requires ps >= HEADER && Fits(|b|, total, ps, pos) && handle in dev && handle != LIGHTING_HANDLE
    ensures var dev' := AcceptAll(dev, Continuations(b, total, ps, pos));
      handle in dev' && dev'[handle] == dev[handle]
    decreases total - pos
  {
    var c := Continuations(b, total, ps, pos);
    if pos + ps < total {
      FitsNext(|b|, total, ps, pos);
      assert c[1..] == Continuations(b, total, ps, pos + ps - 3);
      ContinuationsElsewhere(Accept(dev, c[0]), b, total, ps, pos + ps - 3, handle);
    }
  }

  lemma Joined(b: seq<Byte>, data: seq<Byte>, ps: nat, n: nat)
    requires HEADER <= ps && ps + n <= |b| && HEADER + |data| <= ps + n
    requires b[HEADER..HEADER + |data|] == data
    ensures (b[HEADER..ps] + b[ps..ps + n])[..|data|] == data
  {
    assert b[HEADER..ps] + b[ps..ps + n] == b[HEADER..ps + n];
    assert b[HEADER..ps + n][..|data|] == b[HEADER..HEADER + |data|];
  }

  lemma HeaderBytes(b: seq<Byte>, handle: Byte, data: seq<Byte>, ps: nat)
    requires HEADER <= ps <= |b| && Carries(b, handle, data)
    ensures b[..ps][0] == MAGIC && b[..ps][1] == WRITE_DATA && b[..ps][2] == handle
    ensures FromWord(b[..ps][3..7]) == |data|
    ensures b[HEADER..HEADER + |data|] == data
  {
    var h := WriteHeader(handle, |data|);
    var whole := b[..HEADER + |data|];
    assert whole[0] == h[0] && whole[1] == h[1] && whole[2] == h[2];
    assert b[..ps][3..7] == whole[3..7] == h[3..7] == Word(|data|);
    assert whole[HEADER..] == data;
    WordRoundTrip(|data|);
  }

  // ----- the sending loop

  /** The wire: packets that got through, and how many more will. */
  class Wire {
    var sent: seq<seq<Byte>>
    var budget: nat

    constructor (budget: nat)
      ensures sent == [] && this.budget == budget
    {
      sent, this.budget := [], budget;
    }

    method Send(p: seq<Byte>) returns (ok: bool)
      modifies this
      ensures ok == (old(budget) > 0)
      ensures if ok then sent == old(sent) + [p] && budget == old(budget) - 1
              else sent == old(sent) && budget == old(budget)
    {
      if budget == 0 { return false; }
      sent, budget := sent + [p], budget - 1;
      ok := true;
    }
  }

  function Min(a: nat, b: nat): nat { if a < b then a else b }

  /** The buffer as it goes out: the header over its first bytes. */
  function WithHeader(b: seq<Byte>, handle: Byte, dataLen: nat): seq<Byte>
    requires |b| >= HEADER && dataLen < 0x1_0000_0000
  {
    WriteHeader(handle, dataLen) + b[HEADER..]
  }

  /** bragi_write_to_handle.  A buffer shorter than the calculated size is refused; otherwise
      exactly the packets of `Packets` go out, up to the first that fails, and nothing beyond
      the calculated size is touched. */
  method WriteToHandle(wire: Wire, pkt: array<Byte>, ps: nat, handle: Byte, dataLen: nat) returns (r: int)
    requires ps >= HEADER && dataLen < 0x1_0000_0000
    modifies wire, pkt
    ensures pkt.Length < BufferSize(dataLen, ps) ==> r == 0 && wire.sent == old(wire.sent) && pkt[..] == old(pkt[..])
    ensures pkt.Length >= BufferSize(dataLen, ps) ==>
      && HEADER <= BufferSize(dataLen, ps) && Fits(pkt.Length, dataLen + HEADER, ps, 0)
      && var p := Packets(WithHeader(old(pkt[..]), handle, dataLen), dataLen + HEADER, ps);
      && wire.sent == old(wire.sent) + p[..Min(old(wire.budget), |p|)]
      && r == (if |p| <= old(wire.budget) then 0 else 1)
      && pkt[BufferSize(dataLen, ps)..] == old(pkt[BufferSize(dataLen, ps)..])
  {
    if BufferSize(dataLen, ps) > pkt.Length { return 0; }
    BufferFits(dataLen, ps);
    FitsLonger(BufferSize(dataLen, ps), pkt.Length, dataLen + HEADER, ps);
    ghost var before := pkt[..];
    var header := WriteHeader(handle, dataLen);
    forall i | 0 <= i < HEADER { pkt[i] := header[i]; }
    ghost var b := pkt[..];
    assert b == WithHeader(before, handle, dataLen);
    r := SendAll(wire, pkt, ps, dataLen + HEADER, BufferSize(dataLen, ps));
    assert pkt[BufferSize(dataLen, ps)..] == before[BufferSize(dataLen, ps)..];
  }

  lemma FitsLonger(size: nat, size': nat, total: nat, ps: nat)
    requires ps >= HEADER && Fits(size, total, ps, 0) && size <= size'
    ensures Fits(size', total, ps, 0) && ps <= size
  {}

  lemma NextPacket(p: seq<seq<Byte>>, k: nat)
    ensures k < |p| ==> p[k..][0] == p[k] && p[k..][1..] == p[k + 1..] && p[..k + 1] == p[..k] + [p[k]]
  {}

  /** One continuation: its header goes over bytes that were sent before. */
  method Continue(wire: Wire, pkt: array<Byte>, pos: nat, ps: nat) returns (ok: bool)
    requires ps >= HEADER && pos + ps <= pkt.Length
    modifies wire, pkt
    ensures ok == (old(wire.budget) > 0)
    ensures if ok
      then wire.sent == old(wire.sent) + [ContinueHeader + old(pkt[pos + 3..pos + ps])] && wire.budget == old(wire.budget) - 1
      else wire.sent == old(wire.sent)
    ensures forall i :: pos + 3 <= i < pkt.Length ==> pkt[i] == old(pkt[i])
  {
    pkt[pos], pkt[pos + 1], pkt[pos + 2] := MAGIC, CONTINUE_WRITE, LIGHTING_HANDLE;
    assert pkt[pos..pos + ps] == ContinueHeader + old(pkt[pos + 3..pos + ps]);
    ok := wire.Send(pkt[pos..pos + ps]);
  }

  /** `k` packets have gone out, and what is left of the buffer makes the others. */
  ghost predicate Sending(b: seq<Byte>, pkt: seq<Byte>, total: nat, ps: nat, pos: nat, p: seq<seq<Byte>>, k: nat) {
    && ps >= HEADER && Fits(|b|, total, ps, pos) && |pkt| == |b|
    && 1 <= k <= |p| && p[k..] == Continuations(b, total, ps, pos)
    && forall i :: pos + ps <= i < |b| ==> pkt[i] == b[i]
  }

  /** One turn of the loop: at the new position stands the next packet. */
  lemma SendingNext(b: seq<Byte>, pkt: seq<Byte>, total: nat, ps: nat, pos: nat, p: seq<seq<Byte>>, k: nat)
    requires Sending(b, pkt, total, ps, pos, p, k) && pos + ps < total
    ensures k < |p| && p[..k + 1] == p[..k] + [p[k]]
    ensures var pos' := pos + ps - 3;
      && pos' + ps <= |b| && Fits(|b|, total, ps, pos')
      && p[k] == ContinueHeader + pkt[pos' + 3..pos' + ps]
      && p[k + 1..] == Continuations(b, total, ps, pos')
  {
    FitsNext(|b|, total, ps, pos);
    NextPacket(p, k);
    assert pkt[pos + ps..pos + 2 * ps - 3] == b[pos + ps..pos + 2 * ps - 3];
  }

  lemma MoreSent(sent0: seq<seq<Byte>>, p: seq<seq<Byte>>, k: nat)
    requires k < |p|
    ensures sent0 + p[..k] + [p[k]] == sent0 + p[..k + 1]
  {}

  /** The loop of bragi_write_to_handle_common. */
  method SendAll(wire: Wire, pkt: array<Byte>, ps: nat, total: nat, size: nat) returns (r: int)
    requires ps >= HEADER && size <= pkt.Length && Fits(size, total, ps, 0) && Fits(pkt.Length, total, ps, 0)
    modifies wire, pkt
    ensures var p := Packets(old(pkt[..]), total, ps);
      && wire.sent == old(wire.sent) + p[..Min(old(wire.budget), |p|)]
      && r == (if |p| <= old(wire.budget) then 0 else 1)
    ensures forall i :: size <= i < pkt.Length ==> pkt[i] == old(pkt[i])
  {
    ghost var b, sent0, budget0 := pkt[..], wire.sent, wire.budget;
    ghost var p := Packets(b, total, ps);
    var ok := wire.Send(pkt[..ps]);
    if !ok { return 1; }
    assert pkt[..ps] == b[..ps];
    assert p[..1] == [b[..ps]];
    r := SendContinuations(wire, pkt, ps, total, size, b, p, sent0, budget0);
  }

  method SendContinuations(wire: Wire, pkt: array<Byte>, ps: nat, total: nat, size: nat,
                           ghost b: seq<Byte>, ghost p: seq<seq<Byte>>, ghost sent0: seq<seq<Byte>>, ghost budget0: nat)
    returns (r: int)
    requires ps >= HEADER && ps <= size <= pkt.Length && Fits(size, total, ps, 0) && Sending(b, pkt[..], total, ps, 0, p, 1)
    requires 1 <= budget0 && wire.budget == budget0 - 1 && wire.sent == sent0 + p[..1]
    modifies wire, pkt
    ensures wire.sent == sent0 + p[..Min(budget0, |p|)] && r == (if |p| <= budget0 then 0 else 1)
    ensures forall i :: size <= i < pkt.Length ==> pkt[i] == b[i]
  {
    var pos: nat := 0;
    ghost var k: nat := 1;
    while pos + ps < total
      invariant pos + ps <= size && Fits(size, total, ps, pos)
      invariant Sending(b, pkt[..], total, ps, pos, p, k)
      invariant k <= budget0 && wire.budget == budget0 - k && wire.sent == sent0 + p[..k]
      decreases total - pos
    {
      FitsNext(size, total, ps, pos);
      SendingNext(b, pkt[..], total, ps, pos, p, k);
      MoreSent(sent0, p, k);
      pos := pos + ps - 3;
      var ok := Continue(wire, pkt, pos, ps);
      if !ok { return 1; }
      k := k + 1;
    }
    assert p[..k] == p;
    r := 0;
  }

  // ----- reading a handle back

  /** A device being read: the stream behind the handle, and how often it was asked.  Reads
      past the end of the stream bring zeroes. */
  class Source {
    const stream: seq<Byte>
    const len: nat              // what probing the handle answers
    var asked: nat
    var budget: nat             // reads that still succeed

    constructor (stream: seq<Byte>, len: nat, budget: nat)
      ensures this.stream == stream && this.len == len && this.budget == budget && asked == 0
    {
      this.stream, this.len, this.budget, asked := stream, len, budget, 0;
    }

    /** The payload of read number `asked`: the next `n` bytes. */
    method Read(n: nat) returns (ok: bool, payload: seq<Byte>)
      modifies this
      ensures ok == (old(budget) > 0) && (ok ==> asked == old(asked) + 1 && budget == old(budget) - 1)
      ensures ok ==> payload == Stretch(stream, old(asked) * n, n)
      ensures !ok ==> asked == old(asked) && budget == old(budget)
    {
      if budget == 0 { return false, []; }
      payload := Stretch(stream, asked * n, n);
      asked, budget, ok := asked + 1, budget - 1, true;
    }
  }

  function Stretch(stream: seq<Byte>, at: nat, n: nat): (r: seq<Byte>)
    ensures |r| == n
  {
    seq(n, i requires 0 <= i < n => if at + i < |stream| then stream[at + i] else 0)
  }

  /** All but the last `remaining` bytes have been read. */
  ghost predicate Reading(dev: Source, got: seq<Byte>, len: nat, remaining: nat, d: nat, budget: nat)
    requires d > 0
    reads dev
  {
    && remaining <= len == |got|
    && (remaining > 0 ==> len - remaining == dev.asked * d)
    && dev.asked + Ceil(remaining, d) == Ceil(len, d)
    && dev.budget + dev.asked == budget
    && forall i :: 0 <= i < len - remaining ==> got[i] == Stretch(dev.stream, 0, len)[i]
  }

  /** Read number `k` brings what belongs at `done`. */
  lemma NextStretch(stream: seq<Byte>, k: nat, d: nat, len: nat, done: nat)
    requires done == k * d
    ensures forall i :: 0 <= i < d && done + i < len ==> Stretch(stream, k * d, d)[i] == Stretch(stream, 0, len)[done + i]
    ensures (k + 1) * d == done + d
  {}

  /** One turn of the loop of bragi_read_from_handle. */
  method ReadSome(dev: Source, buf: array<Byte>, remaining: nat, d: nat, ghost budget: nat) returns (ok: bool, rest: nat)
    requires d > 0 && remaining > 0 && Reading(dev, buf[..], buf.Length, remaining, d, budget)
    modifies dev, buf
    ensures ok == (old(dev.budget) > 0)
    ensures ok ==> rest < remaining && Reading(dev, buf[..], buf.Length, rest, d, budget)
  {
    CeilStep(remaining, d);
    var payload;
    ok, payload := dev.Read(d);
    rest := remaining;
    if !ok { return; }
    var actual := if d > remaining then remaining else d;
    NextStretch(dev.stream, old(dev.asked), d, buf.Length, buf.Length - remaining);
    forall i | 0 <= i < actual { buf[buf.Length - remaining + i] := payload[i]; }
    rest := remaining - actual;
  }

  /** bragi_read_from_handle, for a handle that has not been read from.  It either fails, with
      nothing returned, or makes exactly as many reads as the length takes and returns
      exactly that many bytes of the stream. */
  method ReadFromHandle(dev: Source, ps: nat) returns (len: nat, data: array?<Byte>)
    requires ps >= HEADER && dev.asked == 0
    modifies dev
    ensures var good := 0 < dev.len <= MAX_LEN && Ceil(dev.len, ps - 3) <= old(dev.budget);
      && (data != null <==> good)
      && (good ==> len == dev.len && data[..] == Stretch(dev.stream, 0, len) && dev.asked == Ceil(len, ps - 3))
      && (!good ==> len == 0)
    ensures data != null ==> fresh(data)
  {
    len, data := dev.len, null;
    if len == 0 { return 0, null; }
    if len > MAX_LEN { return 0, null; }
    var d := ps - 3;
    var buf: array<Byte> := new Byte[len](_ => 0);
    var remaining: nat := len;
    DivUnique(0, d, 0, 0);
    while remaining > 0
      invariant Reading(dev, buf[..], len, remaining, d, old(dev.budget))
    {
      CeilStep(remaining, d);
      var ok;
      ok, remaining := ReadSome(dev, buf, remaining, d, old(dev.budget));
      if !ok { return 0, null; }
    }
    data := buf;
    assert data[..] == Stretch(dev.stream, 0, len);
  }

  /** Write data to the lighting handle of an empty byte store, with a buffer of exactly the
      calculated size. */
  method WriteData(data: array<Byte>, ps: nat) returns (dev: map<Byte, Store>)
    requires ps >= HEADER && data.Length < 0x1_0000_0000
    ensures LIGHTING_HANDLE in dev && dev[LIGHTING_HANDLE].Contents() == data[..]
  {
    var size := BufferSize(data.Length, ps);
    EnoughRoom(data.Length, ps);
    var pkt: array<Byte> := new Byte[size](_ => 0);
    forall i | 0 <= i < data.Length { pkt[HEADER + i] := data[i]; }
    assert pkt[HEADER..HEADER + data.Length] == data[..];
    dev := WriteBuffer(pkt, ps, data[..]);
  }

  method WriteBuffer(pkt: array<Byte>, ps: nat, data: seq<Byte>) returns (dev: map<Byte, Store>)
    requires ps >= HEADER && |data| < 0x1_0000_0000 && HEADER + |data| <= pkt.Length == BufferSize(|data|, ps)
    requires pkt[HEADER..HEADER + |data|] == data
    modifies pkt
    ensures LIGHTING_HANDLE in dev && dev[LIGHTING_HANDLE].Contents() == data
  {
    ghost var b := WithHeader(pkt[..], LIGHTING_HANDLE, |data|);
    var wire := new Wire(pkt.Length);
    PacketsFew(b, |data|, ps);
    ghost var p := Packets(b, |data| + HEADER, ps);
    assert p[..|p|] == p;
    Placed(pkt[..], LIGHTING_HANDLE, data);
    var r := WriteToHandle(wire, pkt, ps, LIGHTING_HANDLE, |data|);
    assert wire.sent == p;
    dev := AcceptAll(map[], wire.sent);
    WriteStores(map[], b, data, ps);
  }

  lemma Placed(b: seq<Byte>, handle: Byte, data: seq<Byte>)
    requires |data| < 0x1_0000_0000 && HEADER + |data| <= |b| && b[HEADER..HEADER + |data|] == data
    ensures Carries(WithHeader(b, handle, |data|), handle, data)
  {
    var w := WithHeader(b, handle, |data|);
    assert w[HEADER..] == b[HEADER..];
    assert w[..HEADER + |data|] == WriteHeader(handle, |data|) + b[HEADER..][..|data|];
  }

  lemma PacketsFew(b: seq<Byte>, dataLen: nat, ps: nat)
    requires ps >= HEADER && |b| >= BufferSize(dataLen, ps)
    ensures Fits(|b|, dataLen + HEADER, ps, 0)
    ensures |Packets(b, dataLen + HEADER, ps)| <= BufferSize(dataLen, ps)
  {
    PacketCount(b, dataLen, ps);
    var n := |Packets(b, dataLen + HEADER, ps)|;
    assert n * ps >= n;
  }

  /** Writing data to the lighting handle of a byte store and reading the handle back gives
      the data, for every length the reader accepts: 1 byte to 100 MiB.  For any other length
      nothing is read. */
  method WriteThenRead(data: array<Byte>, ps: nat) returns (back: array?<Byte>)
    requires ps >= HEADER && data.Length < 0x1_0000_0000
    ensures back != null <==> 0 < data.Length <= 104857600
    ensures back != null ==> back[..] == data[..]
  {
    var dev := WriteData(data, ps);
    var source := new Source(dev[LIGHTING_HANDLE].Contents(), data.Length, Ceil(data.Length, ps - 3));
    var len;
    len, back := ReadFromHandle(source, ps);
    assert Stretch(data[..], 0, data.Length) == data[..];
  }

  /** Header and data always fit the calculated size. */
  lemma EnoughRoom(dataLen: nat, ps: nat)
    requires ps >= HEADER
    ensures HEADER + dataLen <= BufferSize(dataLen, ps)
  {
    BufferFits(dataLen, ps);
    var rest := dataLen - ps + HEADER;
    if rest > 0 {
      var d := ps - 3;
      var q, m := rest / d, rest % d;
      assert rest == q * d + m;
      assert Ceil(rest, d) * d >= rest by {
        assert (q + 1) * d == q * d + d;
      }
    }
  }
}
