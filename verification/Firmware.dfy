/** Firmware fragmentation of firmware.c: a file cut into blocks of 256 bytes, each sent as
    up to five bulk packets of 60, 60, 60, 60 and 16 bytes. */
module Firmware {

  type Byte = b: int | 0 <= b < 256

  const MSG_SIZE := 64

  type Msg = m: seq<Byte> | |m| == MSG_SIZE witness seq(MSG_SIZE, _ => 0)

  const CMD_SET: Byte := 0x07
  const CMD_WRITE_BULK: Byte := 0x7f
  const FIELD_RESET: Byte := 0x02
  const FIELD_FW_START: Byte := 0x0c
  const FIELD_FW_DATA: Byte := 0x0d
  const RESET_SLOW: Byte := 0xf0
  const FW_MAXSIZE := 255 * 256

  datatype Status = FwOk | FwNoFile | FwWrongDev | FwUsbFail

  predicate Accepted(file: seq<Byte>) { 0x108 < |file| <= FW_MAXSIZE }

  function Zeros(n: nat): (z: seq<Byte>)
    ensures |z| == n
  {
    seq(n, _ => 0)
  }

  /** A message: its first bytes, the rest zero. */
  function Message(head: seq<Byte>): (m: Msg)
    requires |head| <= MSG_SIZE
    ensures forall i :: 0 <= i < |head| ==> m[i] == head[i]
    ensures forall i :: |head| <= i < MSG_SIZE ==> m[i] == 0
  {
    head + Zeros(MSG_SIZE - |head|)
  }

  /** The file in its zeroed buffer. */
  function Buffer(file: seq<Byte>): (b: seq<Byte>)
    requires |file| <= FW_MAXSIZE
    ensures |b| == FW_MAXSIZE + 256 && file <= b && forall i :: |file| <= i < |b| ==> b[i] == 0
  {
    file + Zeros(FW_MAXSIZE + 256 - |file|)
  }

  // ----- what is sent

  function ChunkStart(k: nat, c: nat): nat { 256 * k + 60 * c }

  function ChunkSize(c: nat): nat { if c < 4 then 60 else 16 }

  /** Chunks of block `k`: five, or as many as start inside the file. */
  function ChunksIn(k: nat, len: nat): (n: nat)
    ensures n <= 5
    ensures forall c :: 0 <= c < 5 ==> (c < n <==> ChunkStart(k, c) < len)
  {
    if len <= 256 * k then 0 else if len <= 256 * k + 60 then 1 else if len <= 256 * k + 120 then 2
    else if len <= 256 * k + 180 then 3 else if len <= 256 * k + 240 then 4 else 5
  }

  function Blocks(len: nat): nat { (len + 255) / 256 }

  /** The length byte: cut short only where the file ends. */
  function Declared(len: nat, k: nat, c: nat): Byte {
    if c < 5 && ChunkStart(k, c) < len < ChunkStart(k, c) + ChunkSize(c) then len - ChunkStart(k, c) else ChunkSize(c)
  }

  /** A bulk packet for chunk `c` of block `k` that declares `n` bytes. */
  function Bulk(file: seq<Byte>, k: nat, c: nat, n: Byte): Msg
    requires |file| <= FW_MAXSIZE && c < 5 && ChunkStart(k, c) < |file|
  {
    var at := ChunkStart(k, c);
    Message([CMD_WRITE_BULK, c + 1, n, 0] + Buffer(file)[at..at + ChunkSize(c)])
  }

  function Chunk(file: seq<Byte>, k: nat, c: nat): Msg
    requires |file| <= FW_MAXSIZE && c < 5 && ChunkStart(k, c) < |file|
  {
    Bulk(file, k, c, Declared(|file|, k, c))
  }

  function Chunks(file: seq<Byte>, k: nat, n: nat): (ms: seq<Msg>)
    requires |file| <= FW_MAXSIZE && n <= ChunksIn(k, |file|)
    ensures |ms| == n
  {
    if n == 0 then [] else Chunks(file, k, n - 1) + [Chunk(file, k, n - 1)]
  }

  function Position(k: Byte): Msg { Message([CMD_SET, FIELD_FW_DATA, 0xf0, 0, 0, 0, k]) }

  const StartMessage := Message([CMD_SET, FIELD_FW_START, 0xf0, 0x01])
  const ResetMessage := Message([CMD_SET, FIELD_RESET, RESET_SLOW, 0])

  /** Block 0 is announced by the start message, every other one by its position. */
  function Block(file: seq<Byte>, k: nat): seq<Msg>
    requires |file| <= FW_MAXSIZE && k < 256
  {
    [if k == 0 then StartMessage else Position(k)] + Chunks(file, k, ChunksIn(k, |file|))
  }

  function BlocksTo(file: seq<Byte>, n: nat): seq<Msg>
    requires |file| <= FW_MAXSIZE && 0 < n <= 256
  {
    if n == 1 then Block(file, 0) else BlocksTo(file, n - 1) + Block(file, n - 1)
  }

  function Stream(file: seq<Byte>): seq<Msg>
    requires Accepted(file)
  {
    BlocksTo(file, Blocks(|file|)) + [Position(Blocks(|file|)), ResetMessage]
  }

  /** The bytes of the messages. */
  lemma MessageLayout(k: Byte)
    ensures StartMessage[..4] == [0x07, 0x0c, 0xf0, 0x01] && ResetMessage[..4] == [0x07, 0x02, 0xf0, 0x00]
    ensures Position(k)[..7] == [0x07, 0x0d, 0xf0, 0x00, 0x00, 0x00, k]
    ensures forall i :: 4 <= i < MSG_SIZE ==> StartMessage[i] == ResetMessage[i] == 0
    ensures forall i :: 7 <= i < MSG_SIZE ==> Position(k)[i] == 0
  {}

  lemma ChunkLayout(file: seq<Byte>, k: nat, c: nat)
    requires |file| <= FW_MAXSIZE && c < 5 && ChunkStart(k, c) < |file|
    ensures var m, at := Chunk(file, k, c), 256 * k + 60 * c; var n := if c < 4 then 60 else 16;
      && m[0] == 0x7f && m[1] == c + 1 && m[3] == 0
      && m[2] as int == (if |file| < at + n then |file| - at else n)
      && forall j :: 4 <= j < 4 + n ==> m[j] == if at + j - 4 < |file| then file[at + j - 4] else 0
  {
    var at, n := 256 * k + 60 * c, ChunkSize(c);
    var head: seq<Byte> := [CMD_WRITE_BULK, c + 1, Declared(|file|, k, c), 0];
    var body := head + Buffer(file)[at..at + n];
    var data := Buffer(file)[at..at + n];
    forall j | 4 <= j < 4 + n ensures Message(body)[j] == if at + j - 4 < |file| then file[at + j - 4] else 0 {
      assert Message(body)[j] == body[j] == data[j - 4];
      assert data[j - 4] == Buffer(file)[at + j - 4];
    }
    assert Message(body)[0] == body[0] && Message(body)[1] == body[1] && Message(body)[2] == body[2] && Message(body)[3] == body[3];
  }

  // ----- the device

  /** Program memory, filled from the address that block and chunk number say, and the block
      count announced at the end. */
  datatype Device = Device(memory: seq<Byte>, block: nat, done: bool)

  /** A gap before the address is left zero; what was behind it is dropped. */
  function Store(memory: seq<Byte>, at: nat, data: seq<Byte>): seq<Byte> {
    (if at <= |memory| then memory[..at] else memory + Zeros(at - |memory|)) + data
  }

  function Receive(d: Device, m: Msg): Device {
    if m[0] == CMD_WRITE_BULK && 1 <= m[1] <= 5 && m[2] <= 60 then
      d.(memory := Store(d.memory, 256 * d.block + 60 * (m[1] as int - 1), m[4..4 + m[2] as int]))
    else if m[0] == CMD_SET && m[1] == FIELD_FW_START then Device([], 0, false)
    else if m[0] == CMD_SET && m[1] == FIELD_FW_DATA then d.(block := m[6])
    else if m[0] == CMD_SET && m[1] == FIELD_RESET then d.(done := true)
    else d
  }

  function ReceiveAll(d: Device, ms: seq<Msg>): Device
  {
    if ms == [] then d else Receive(ReceiveAll(d, ms[..|ms| - 1]), ms[|ms| - 1])
  }

  /** The file's bytes below address `n`. */
  function Image(file: seq<Byte>, n: nat): seq<Byte> {
    if n < |file| then file[..n] else file
  }

  lemma {:induction false} ReceiveConcat(d: Device, a: seq<Msg>, b: seq<Msg>)
    ensures ReceiveAll(d, a + b) == ReceiveAll(ReceiveAll(d, a), b)
  {
    if b == [] {
      assert a + b == a;
    } else {
      assert (a + b)[..|a + b| - 1] == a + b[..|b| - 1];
      ReceiveConcat(d, a, b[..|b| - 1]);
    }
  }

  lemma ChunkHead(file: seq<Byte>, k: nat, c: nat)
    requires |file| <= FW_MAXSIZE && c < 5 && ChunkStart(k, c) < |file|
    ensures var m := Chunk(file, k, c);
      var at, n := ChunkStart(k, c), Declared(|file|, k, c);
      && m[0] == CMD_WRITE_BULK && m[1] == c + 1 && m[2] == n <= 60
      && at + n <= |file| && m[4..4 + n] == file[at..at + n]
  {
    var m := Chunk(file, k, c);
    var at, n := ChunkStart(k, c), Declared(|file|, k, c);
    var data := Buffer(file)[at..at + ChunkSize(c)];
    var head: seq<Byte> := [CMD_WRITE_BULK, c + 1, n, 0] + data;
    forall j | 4 <= j < 4 + n ensures m[j] == file[at + j - 4] {
      assert m[j] == head[j] == data[j - 4];
    }
  }

  lemma BulkArrives(d: Device, m: Msg, c: nat)
    requires m[0] == CMD_WRITE_BULK && m[1] == c + 1 <= 5 && m[2] <= 60
    ensures Receive(d, m) == d.(memory := Store(d.memory, ChunkStart(d.block, c), m[4..4 + m[2]]))
  {}

  lemma ImageGrows(file: seq<Byte>, at: nat, n: nat)
    requires at + n <= |file|
    ensures Store(Image(file, at), at, file[at..at + n]) == file[..at + n]
  {
    assert file[..at] + file[at..at + n] == file[..at + n];
    if at == |file| { assert file[..at] == file; }
  }

  /** One chunk puts its part of the file where it belongs. */
  lemma ChunkArrives(file: seq<Byte>, k: nat, c: nat, d: Device)
    requires |file| <= FW_MAXSIZE && c < 5 && ChunkStart(k, c) < |file|
    requires d.memory == Image(file, ChunkStart(k, c)) && d.block == k
    ensures Receive(d, Chunk(file, k, c)) == d.(memory := Image(file, ChunkStart(k, c) + ChunkSize(c)))
  {
    ChunkHead(file, k, c);
    BulkArrives(d, Chunk(file, k, c), c);
    ImageGrows(file, ChunkStart(k, c), Declared(|file|, k, c));
    DeclaredEnd(file, k, c);
  }

  lemma DeclaredEnd(file: seq<Byte>, k: nat, c: nat)
    requires c < 5 && ChunkStart(k, c) < |file|
    ensures var at := ChunkStart(k, c);
      at + Declared(|file|, k, c) <= |file| && file[..at + Declared(|file|, k, c)] == Image(file, at + ChunkSize(c))
  {
    if |file| <= ChunkStart(k, c) + ChunkSize(c) { assert file[..|file|] == file; }
  }

  lemma ReceiveSnoc(d: Device, ms: seq<Msg>, m: Msg)
    ensures ReceiveAll(d, ms + [m]) == Receive(ReceiveAll(d, ms), m)
  {
    assert (ms + [m])[..|ms|] == ms;
  }

  lemma ReachNext(k: nat, c: nat)
    requires c < 5
    ensures Reach(k, c) == ChunkStart(k, c) && Reach(k, c + 1) == ChunkStart(k, c) + ChunkSize(c)
  {}

  lemma ChunksSnoc(file: seq<Byte>, k: nat, n: nat)
    requires |file| <= FW_MAXSIZE && 0 < n <= ChunksIn(k, |file|)
    ensures Chunks(file, k, n) == Chunks(file, k, n - 1) + [Chunk(file, k, n - 1)]
  {}

  /** One more chunk, wherever the chunks before it have come to. */
  lemma ChunkAfter(file: seq<Byte>, k: nat, c: nat, d: Device)
    requires |file| <= FW_MAXSIZE && c < ChunksIn(k, |file|) && d.block == k
    ensures Receive(d.(memory := Image(file, Reach(k, c))), Chunk(file, k, c)) == d.(memory := Image(file, Reach(k, c + 1)))
  {
    ReachNext(k, c);
    ChunkArrives(file, k, c, d.(memory := Image(file, Reach(k, c))));
  }

  lemma {:induction false} ChunksArrive(file: seq<Byte>, k: nat, n: nat, d: Device)
    requires |file| <= FW_MAXSIZE && n <= ChunksIn(k, |file|)
    requires d.memory == Image(file, 256 * k) && d.block == k
    ensures ReceiveAll(d, Chunks(file, k, n)) == d.(memory := Image(file, Reach(k, n)))
  {
    if n > 0 {
      ChunksArrive(file, k, n - 1, d);
      ChunksSnoc(file, k, n);
      ReceiveSnoc(d, Chunks(file, k, n - 1), Chunk(file, k, n - 1));
      ChunkAfter(file, k, n - 1, d);
    }
  }

  /** How far `n` chunks of block `k` reach. */
  function Reach(k: nat, n: nat): nat {
    if n < 5 then ChunkStart(k, n) else 256 * (k + 1)
  }

  lemma ControlArrives(d: Device, k: Byte)
    ensures Receive(d, StartMessage) == Device([], 0, false)
    ensures Receive(d, Position(k)) == d.(block := k)
    ensures Receive(d, ResetMessage) == d.(done := true)
  {}

  lemma BlockArrives(file: seq<Byte>, k: nat, d: Device)
    requires |file| <= FW_MAXSIZE && k < 256
    requires k > 0 ==> d.memory == Image(file, 256 * k)
    ensures var r := ReceiveAll(d, Block(file, k)); r.memory == Image(file, 256 * (k + 1)) && r.block == k
  {
    ControlArrives(d, k);
    AnnouncedArrives(file, k, d, if k == 0 then StartMessage else Position(k));
  }

  lemma AnnouncedArrives(file: seq<Byte>, k: nat, d: Device, first: Msg)
    requires |file| <= FW_MAXSIZE && k < 256
    requires Receive(d, first).memory == Image(file, 256 * k) && Receive(d, first).block == k
    ensures var r := ReceiveAll(d, [first] + Chunks(file, k, ChunksIn(k, |file|)));
      r.memory == Image(file, 256 * (k + 1)) && r.block == k
  {
    var n := ChunksIn(k, |file|);
    One(d, first);
    ChunksArrive(file, k, n, Receive(d, first));
    ReceiveConcat(d, [first], Chunks(file, k, n));
  }

  lemma {:induction false} BlocksArrive(file: seq<Byte>, n: nat, d: Device)
    requires |file| <= FW_MAXSIZE && 0 < n <= 256
    ensures var r := ReceiveAll(d, BlocksTo(file, n)); r.memory == Image(file, 256 * n) && r.block == n - 1
  {
    if n == 1 {
      BlockArrives(file, 0, d);
    } else {
      BlocksArrive(file, n - 1, d);
      BlockArrives(file, n - 1, ReceiveAll(d, BlocksTo(file, n - 1)));
      ReceiveConcat(d, BlocksTo(file, n - 1), Block(file, n - 1));
    }
  }

  lemma BlockCount(len: nat)
    requires 0x108 < len <= FW_MAXSIZE
    ensures 2 <= Blocks(len) <= 255
    ensures 256 * (Blocks(len) - 1) < len <= 256 * Blocks(len)
  {}

  /** From any device state, every accepted file arrives byte for byte; the final message
      announces the number of blocks, which fits its byte; and the first block is full, so
      that nothing is missing where the length bytes are not adjusted. */
  lemma FileArrives(file: seq<Byte>, d: Device)
    requires Accepted(file)
    ensures ReceiveAll(d, Stream(file)) == Device(file, Blocks(|file|), true)
    ensures 256 < |file| && ChunksIn(0, |file|) == 5 && Blocks(|file|) <= 255
    ensures forall c :: 0 <= c < 5 ==> Declared(|file|, 0, c) == ChunkSize(c)
  {
    var n := Blocks(|file|);
    BlockCount(|file|);
    BlocksArrive(file, n, d);
    var d1 := ReceiveAll(d, BlocksTo(file, n));
    LastTwo(d1, Position(n), ResetMessage);
    ControlArrives(d1, n);
    ControlArrives(d1.(block := n), n);
    ReceiveConcat(d, BlocksTo(file, n), [Position(n), ResetMessage]);
  }

  lemma LastTwo(d: Device, a: Msg, b: Msg)
    ensures ReceiveAll(d, [a, b]) == Receive(Receive(d, a), b)
  {
    assert [a, b][..1] == [a];
    One(d, a);
  }

  lemma One(d: Device, a: Msg)
    ensures ReceiveAll(d, [a]) == Receive(d, a)
  {
    var ms: seq<Msg> := [a];
    assert ms[..0] == [];
  }

  // ----- the loops

  /** usbsend on a link that fails after `budget` more messages. */
  class Link {
    var sent: seq<Msg>
    var budget: nat

    constructor (budget: nat)
      ensures sent == [] && this.budget == budget
    {
      sent, this.budget := [], budget;
    }

    method Send(ms: seq<Msg>) returns (ok: bool)
      modifies this
      ensures ok == (|ms| <= old(budget))
      ensures var n := if ok then |ms| else old(budget);
        sent == old(sent) + ms[..n] && budget == old(budget) - n
    {
      var i := 0;
      while i < |ms|
        invariant 0 <= i <= |ms| && i <= old(budget)
        invariant sent == old(sent) + ms[..i] && budget == old(budget) - i
      {
        if budget == 0 { return false; }
        assert ms[..i + 1] == ms[..i] + [ms[i]];
        sent, budget, i := sent + [ms[i]], budget - 1, i + 1;
      }
      ok := true;
    }
  }

  /** Packet number `p` may be filled with a chunk: its header is that of a full one, and
      what a chunk does not reach is zero. */
  ghost predicate Blank(m: Msg, p: nat) {
    && 2 <= p < 7 && m[0] == CMD_WRITE_BULK && m[1] == p - 1 && m[2] == ChunkSize(p - 2) && m[3] == 0
    && forall j :: 4 + ChunkSize(p - 2) <= j < MSG_SIZE ==> m[j] == 0
  }

  ghost predicate AllBlank(pkt: seq<Msg>) {
    |pkt| == 7 && forall p :: 2 <= p < 7 ==> Blank(pkt[p], p)
  }

  /** memcpy of a chunk into its packet. */
  method Fill(pkt: array<Msg>, p: nat, buffer: seq<Byte>, output: nat, ghost file: seq<Byte>, ghost k: nat)
    requires pkt.Length == 7 && 2 <= p < 7 && Blank(pkt[p], p)
    requires |file| <= FW_MAXSIZE && buffer == Buffer(file) && output == ChunkStart(k, p - 2) < |file|
    modifies pkt
    ensures pkt[..] == old(pkt[..])[p := Bulk(file, k, p - 2, ChunkSize(p - 2))]
    ensures Blank(pkt[p], p)
  {
    ghost var m := pkt[p];
    var size := if p != 6 then 60 else 16;
    pkt[p] := pkt[p][..4] + buffer[output..output + size] + pkt[p][4 + size..];
    var data := buffer[output..output + size];
    assert m[..4] + data + m[4 + size..] == [CMD_WRITE_BULK, p - 1, size, 0] + data + Zeros(MSG_SIZE - 4 - size);
  }

  /** The inner loop: fill the packets of block `k`.  Of the last packet the length byte may
      still be too large. */
  method FillBlock(pkt: array<Msg>, file: seq<Byte>, buffer: seq<Byte>, k: nat) returns (npackets: nat, last: nat, output: nat)
    requires AllBlank(pkt[..]) && |file| <= FW_MAXSIZE && buffer == Buffer(file) && 256 * k < |file|
    modifies pkt
    ensures npackets == 1 + ChunksIn(k, |file|) >= 2
    ensures last == ChunkStart(k, npackets - 2) && output == Reach(k, npackets - 1)
    ensures AllBlank(pkt[..]) && pkt[0] == old(pkt[0]) && pkt[1] == old(pkt[1])
    ensures forall p :: 2 <= p <= npackets ==> pkt[p] == Bulk(file, k, p - 2, ChunkSize(p - 2))
  {
    npackets, last, output := 1, 0, 256 * k;
    while output < |file|
      invariant 1 <= npackets <= 5 && npackets - 1 <= ChunksIn(k, |file|)
      invariant output == ChunkStart(k, npackets - 1) && (npackets > 1 ==> last == ChunkStart(k, npackets - 2))
      invariant AllBlank(pkt[..]) && pkt[0] == old(pkt[0]) && pkt[1] == old(pkt[1])
      invariant forall p :: 2 <= p <= npackets ==> pkt[p] == Bulk(file, k, p - 2, ChunkSize(p - 2))
      decreases |file| - output
    {
      npackets := npackets + 1;
      ghost var before := pkt[..];
      Fill(pkt, npackets, buffer, output, file, k);
      BlankStays(before, npackets, pkt[npackets]);
      last := output;
      if npackets != 6 {
        output := output + 60;
      } else {
        output := output + 16;
        break;
      }
    }
  }

  lemma BlankStays(pkt: seq<Msg>, p: nat, m: Msg)
    requires AllBlank(pkt) && Blank(m, p)
    ensures AllBlank(pkt[p := m])
  {}

  lemma {:induction false} ChunksMatch(file: seq<Byte>, k: nat, rows: seq<Msg>, n: nat)
    requires |file| <= FW_MAXSIZE && n <= ChunksIn(k, |file|) && n <= |rows|
    requires forall c :: 0 <= c < n ==> rows[c] == Chunk(file, k, c)
    ensures rows[..n] == Chunks(file, k, n)
  {
    if n > 0 {
      ChunksMatch(file, k, rows, n - 1);
      assert rows[..n] == rows[..n - 1] + [rows[n - 1]];
    }
  }

  /** Adjust the last length byte where the file ends: then the packets are those of the block. */
  method FinishBlock(pkt: array<Msg>, file: seq<Byte>, k: nat, npackets: nat, last: nat, output: nat)
    requires AllBlank(pkt[..]) && 0 < k && |file| <= FW_MAXSIZE && 256 * k < |file|
    requires npackets == 1 + ChunksIn(k, |file|) >= 2
    requires last == ChunkStart(k, npackets - 2) && output == Reach(k, npackets - 1)
    requires forall p :: 2 <= p <= npackets ==> pkt[p] == Bulk(file, k, p - 2, ChunkSize(p - 2))
    modifies pkt
    ensures pkt[0] == old(pkt[0]) && pkt[1] == old(pkt[1]) && (output < |file| ==> pkt[..] == old(pkt[..]))
    ensures pkt[2..npackets + 1] == Chunks(file, k, ChunksIn(k, |file|))
  {
    if output >= |file| {
      LengthByte(file, k, npackets - 2);
      pkt[npackets] := pkt[npackets][2 := |file| - last];
    }
    forall c | 0 <= c < npackets - 1 ensures pkt[2..npackets + 1][c] == Chunk(file, k, c) {
      assert pkt[c + 2] == pkt[2..npackets + 1][c];
    }
    ChunksMatch(file, k, pkt[2..npackets + 1], npackets - 1);
  }

  lemma LengthByte(file: seq<Byte>, k: nat, c: nat)
    requires |file| <= FW_MAXSIZE && c < 5 && ChunkStart(k, c) < |file| <= Reach(k, c + 1)
    ensures |file| - ChunkStart(k, c) == Declared(|file|, k, c)
    ensures Bulk(file, k, c, ChunkSize(c))[2 := Declared(|file|, k, c)] == Chunk(file, k, c)
  {}

  function Pair(file: seq<Byte>, at: nat): nat
    requires at + 1 < |file|
  {
    (file[at] as nat) + 256 * (file[at + 1] as nat)
  }

  /** Two bytes of the file copied into a `short`. */
  function Short(file: seq<Byte>, at: nat): int
    requires at + 1 < |file|
  {
    if Pair(file, at) < 0x8000 then Pair(file, at) else Pair(file, at) - 0x1_0000
  }

  /** The file's ids are signed and the device's are not: they match exactly if the bytes do
      and the id is below 0x8000.  No file fits a device with a larger one. */
  lemma IdMatchesExactly(file: seq<Byte>, at: nat, id: nat)
    requires at + 1 < |file| && id < 0x1_0000
    ensures Short(file, at) == id <==> id < 0x8000 && file[at] == id % 256 && file[at + 1] == id / 256
  {}

  /** `all` is what is to be sent in the end; `before` and then a part of `ms` went out. */
  ghost predicate Prefix<T>(all: seq<T>, sent0: seq<T>, budget0: nat, sent: seq<T>, budget: nat) {
    budget <= budget0 && budget0 - budget <= |all| && sent == sent0 + all[..budget0 - budget]
  }

  lemma PrefixGrows<T>(all: seq<T>, sent0: seq<T>, budget0: nat, sent: seq<T>, budget: nat, ms: seq<T>, n: nat)
    requires Prefix(all, sent0, budget0, sent, budget)
    requires budget0 - budget + |ms| <= |all| && all[budget0 - budget..budget0 - budget + |ms|] == ms
    requires n <= |ms| && n <= budget
    ensures Prefix(all, sent0, budget0, sent + ms[..n], budget - n)
  {
    var i := budget0 - budget;
    assert ms[..n] == all[i..i + n];
    assert all[..i] + all[i..i + n] == all[..i + n];
  }

  lemma {:induction false} BlocksPrefix(file: seq<Byte>, n: nat, m: nat)
    requires |file| <= FW_MAXSIZE && 0 < n <= m <= 256
    ensures BlocksTo(file, n) <= BlocksTo(file, m)
    decreases m
  {
    if n < m { BlocksPrefix(file, n, m - 1); }
  }

  /** What has been sent before block `k`. */
  function Before(file: seq<Byte>, k: nat): seq<Msg>
    requires |file| <= FW_MAXSIZE && k <= 256
  {
    if k == 0 then [] else BlocksTo(file, k)
  }

  lemma BeforeNext(file: seq<Byte>, k: nat)
    requires |file| <= FW_MAXSIZE && k < 256
    ensures Before(file, k + 1) == Before(file, k) + Block(file, k)
  {}

  lemma Slice<T>(all: seq<T>, a: seq<T>, b: seq<T>)
    requires a + b <= all
    ensures all[|a|..|a| + |b|] == b
  {
    assert all[|a|..|a| + |b|] == (a + b)[|a|..];
  }

  lemma StreamHas(file: seq<Byte>, n: nat)
    requires Accepted(file) && 0 < n <= Blocks(|file|) <= 255
    ensures Before(file, n) <= Stream(file)
  {
    BlocksPrefix(file, n, Blocks(|file|));
  }

  /** Where block `k` stands in the stream. */
  lemma BlockInStream(file: seq<Byte>, k: nat)
    requires Accepted(file) && k < Blocks(|file|)
    ensures k + 1 <= 255 && |Before(file, k + 1)| == |Before(file, k)| + |Block(file, k)| <= |Stream(file)|
    ensures Stream(file)[|Before(file, k)|..|Before(file, k)| + |Block(file, k)|] == Block(file, k)
  {
    BlockCount(|file|);
    BeforeNext(file, k);
    StreamHas(file, k + 1);
    Slice(Stream(file), Before(file, k), Block(file, k));
  }

  /** The position message, up to the index it carries. */
  ghost predicate Positional(m: Msg) {
    forall j :: 0 <= j < MSG_SIZE && j != 6 ==> m[j] == Position(0)[j]
  }

  lemma PositionSet(m: Msg, k: Byte)
    requires Positional(m)
    ensures m[6 := k] == Position(k)
  {}

  /** One turn of the outer loop: fill the packets of block `k` and send the block. */
  method SendBlock(link: Link, file: seq<Byte>, buffer: seq<Byte>, pkt: array<Msg>, k: nat) returns (ok: bool, output: nat)
    requires Accepted(file) && buffer == Buffer(file) && AllBlank(pkt[..]) && k < 255 && 256 * k < |file|
    requires pkt[0] == StartMessage && Positional(pkt[1])
    modifies link, pkt
    ensures output == Reach(k, ChunksIn(k, |file|))
    ensures pkt.Length == 7 && pkt[0] == StartMessage && Positional(pkt[1]) && (output < |file| ==> AllBlank(pkt[..]))
    ensures var b := Block(file, k); var n := if ok then |b| else old(link.budget);
      && ok == (|b| <= old(link.budget))
      && link.sent == old(link.sent) + b[..n] && link.budget == old(link.budget) - n
  {
    PositionSet(pkt[1], k);
    pkt[1] := pkt[1][6 := k];
    var npackets, last;
    npackets, last, output := FillBlock(pkt, file, buffer, k);
    ghost var chunks := Chunks(file, k, ChunksIn(k, |file|));
    if k == 0 {
      FirstBlockFull(file, pkt[2..npackets + 1]);
      ok := link.Send([pkt[0]]);
      if ok {
        ok := link.Send(pkt[2..npackets + 1]);
      }
    } else {
      FinishBlock(pkt, file, k, npackets, last, output);
      assert pkt[1..npackets + 1] == [Position(k)] + chunks;
      ok := link.Send(pkt[1..npackets + 1]);
    }
  }

  lemma FirstBlockFull(file: seq<Byte>, rows: seq<Msg>)
    requires Accepted(file) && |rows| == 5
    requires forall c :: 0 <= c < 5 ==> rows[c] == Bulk(file, 0, c, ChunkSize(c))
    ensures ChunksIn(0, |file|) == 5 && rows == Chunks(file, 0, 5)
  {
    ChunksMatch(file, 0, rows, 5);
    assert rows[..5] == rows;
  }

  /** The blocks go out one after the other, until the file is used up or a send fails. */
  method SendBlocks(link: Link, file: seq<Byte>, buffer: seq<Byte>, pkt: array<Msg>) returns (ok: bool, index: nat)
    requires Accepted(file) && buffer == Buffer(file) && AllBlank(pkt[..])
    requires pkt[0] == StartMessage && Positional(pkt[1])
    modifies link, pkt
    ensures Prefix(Stream(file), old(link.sent), old(link.budget), link.sent, link.budget)
    ensures if ok then index == Blocks(|file|) <= 255 && old(link.budget) - link.budget == |Before(file, index)|
            else link.budget == 0 && old(link.budget) < |Stream(file)|
  {
    BlockCount(|file|);
    ghost var all, sent0, budget0 := Stream(file), link.sent, link.budget;
    var output: nat := 0;
    index := 0;
    while output < |file|
      invariant 0 <= index <= Blocks(|file|)
      invariant if index == Blocks(|file|) then output >= |file| else output == 256 * index < |file|
      invariant pkt.Length == 7 && pkt[0] == StartMessage && Positional(pkt[1])
      invariant output < |file| ==> AllBlank(pkt[..])
      invariant Prefix(all, sent0, budget0, link.sent, link.budget)
      invariant budget0 - link.budget == |Before(file, index)|
      decreases Blocks(|file|) - index
    {
      BlockInStream(file, index);
      ghost var sent1, budget1, block := link.sent, link.budget, Block(file, index);
      ok, output := SendBlock(link, file, buffer, pkt, index);
      PrefixGrows(all, sent0, budget0, sent1, budget1, block, if ok then |block| else budget1);
      if !ok { return; }
      index := index + 1;
    }
    ok := true;
  }

  /** fwupdate.  On success exactly the stream of the file went out; if the link fails, as much
      of it as got through; files of the wrong size or for another device send nothing. */
  method Update(link: Link, file: seq<Byte>, vendor: nat, product: nat) returns (status: Status)
    requires vendor < 0x1_0000 && product < 0x1_0000
    modifies link
    ensures status == FwNoFile <==> !(265 <= |file| <= 65280)
    ensures status == FwWrongDev <==> Accepted(file) && (Short(file, 0x102) != vendor || Short(file, 0x104) != product)
    ensures vendor >= 0x8000 || product >= 0x8000 ==> status == FwNoFile || status == FwWrongDev
    ensures Accepted(file) ==> (status != FwWrongDev <==>
      && vendor < 0x8000 && file[0x102] == vendor % 256 && file[0x103] == vendor / 256
      && product < 0x8000 && file[0x104] == product % 256 && file[0x105] == product / 256)
    ensures status == FwNoFile || status == FwWrongDev ==> link.sent == old(link.sent)
    ensures status == FwOk ==> Accepted(file) && link.sent == old(link.sent) + Stream(file)
    ensures status == FwUsbFail <==> Accepted(file) && Short(file, 0x102) == vendor && Short(file, 0x104) == product
                                     && old(link.budget) < |Stream(file)|
    ensures status == FwUsbFail ==> link.sent == old(link.sent) + Stream(file)[..old(link.budget)]
  {
    if |file| <= 0x108 || |file| > FW_MAXSIZE { return FwNoFile; }
    IdMatchesExactly(file, 0x102, vendor);
    IdMatchesExactly(file, 0x104, product);
    if Short(file, 0x102) != vendor || Short(file, 0x104) != product { return FwWrongDev; }
    var pkt := NewPackets();
    var ok, index := SendBlocks(link, file, Buffer(file), pkt);
    ghost var all := Stream(file);
    if !ok { return FwUsbFail; }
    var last: seq<Msg> := [Position(index), ResetMessage];
    ghost var n := |Before(file, index)|;
    assert all[n..n + 2] == last;
    ghost var sent1, budget1 := link.sent, link.budget;
    ok := link.Send(last);
    PrefixGrows(all, old(link.sent), old(link.budget), sent1, budget1, last, if ok then 2 else budget1);
    assert all[..|all|] == all;
    status := if ok then FwOk else FwUsbFail;
  }

  method NewPackets() returns (pkt: array<Msg>)
    ensures fresh(pkt) && AllBlank(pkt[..]) && pkt[0] == StartMessage && Positional(pkt[1])
  {
    pkt := new Msg[7](_ => ResetMessage);
    pkt[0], pkt[1] := StartMessage, Position(0);
    var c := 0;
    while c < 5
      invariant 0 <= c <= 5 && pkt[0] == StartMessage && pkt[1] == Position(0)
      invariant forall p :: 2 <= p < c + 2 ==> Blank(pkt[p], p)
    {
      pkt[c + 2] := Message([CMD_WRITE_BULK, c + 1, ChunkSize(c), 0]);
      c := c + 1;
    }
  }
}
