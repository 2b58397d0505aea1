/** The event array of inputupdate_keys: modifier-downs, other events and modifier-ups kept
    in one array by shifting, and the object around it. */
module InputArray {
  import opened InputEvents
  import opened InputScrolls

  const EVENTS_SIZE := N_KEYS_INPUT + 2 + 128 * 2 * 2

  // ----- order and length

  datatype Region = ModDown | Regular | ModUp

  /** Where the event of a changed visible key belongs. */
  predicate Belongs(cfg: Config, k: nat, down: bool, region: Region)
    requires k < |cfg.scans| && k < |cfg.base|
  {
    cfg.Visible(k) && match region
      case ModDown => cfg.Code(k) in cfg.mods && down
      case Regular => cfg.Code(k) !in cfg.mods
      case ModUp => cfg.Code(k) in cfg.mods && !down
  }

  /** The events of one region, in key order. */
  function Select(cfg: Config, prev: seq<bool>, now: seq<bool>, region: Region, n: nat): seq<int>
    requires cfg.Valid() && |prev| == |now| == N_KEYS_INPUT && n <= N_KEYS_INPUT
  {
    if n == 0 then []
    else
      var s := Select(cfg, prev, now, region, n - 1);
      if prev[n - 1] != now[n - 1] && Belongs(cfg, n - 1, now[n - 1], region)
      then s + [Event(cfg.Code(n - 1), now[n - 1])] else s
  }

  /** When no wheel is pressed the events are the modifier-downs, then the other keys, then
      the modifier-ups, each in key order, one for every changed visible key. */
  lemma {:induction false} Ordered(cfg: Config, prev: seq<bool>, now: seq<bool>, relY: int, n: nat)
    requires cfg.Valid() && |prev| == |now| == N_KEYS_INPUT && n <= N_KEYS_INPUT
    requires forall k :: 0 <= k < n && prev[k] != now[k] && cfg.Wheel(k) ==> !now[k]
    ensures Fold(cfg, prev, now, relY, n).Events()
            == Select(cfg, prev, now, ModDown, n) + Select(cfg, prev, now, Regular, n) + Select(cfg, prev, now, ModUp, n)
  {
    OrderedRegions(cfg, prev, now, relY, n);
  }

  lemma {:induction false} OrderedRegions(cfg: Config, prev: seq<bool>, now: seq<bool>, relY: int, n: nat)
    requires cfg.Valid() && |prev| == |now| == N_KEYS_INPUT && n <= N_KEYS_INPUT
    requires forall k :: 0 <= k < n && prev[k] != now[k] && cfg.Wheel(k) ==> !now[k]
    ensures var st := Fold(cfg, prev, now, relY, n);
      && st.mods == Select(cfg, prev, now, ModDown, n)
      && st.keys == Select(cfg, prev, now, Regular, n)
      && st.rmods == Select(cfg, prev, now, ModUp, n)
  {
    if n > 0 { OrderedRegions(cfg, prev, now, relY, n - 1); }
  }

  /** The most events a key can add: one for itself, one more for a volume or control wheel,
      255 more for a scroll wheel. */
  function Cost(cfg: Config, k: nat): nat
    requires k < |cfg.scans|
  {
    1 + if cfg.VolOrCtrl(k) then 1 else if ScrollV(cfg.scans[k]) then 255 else 0
  }

  function CostTo(cfg: Config, n: nat): nat
    requires n <= |cfg.scans|
  {
    if n == 0 then 0 else CostTo(cfg, n - 1) + Cost(cfg, n - 1)
  }

  function VolumeWheels(cfg: Config, n: nat): nat
    requires n <= |cfg.scans|
  {
    if n == 0 then 0 else VolumeWheels(cfg, n - 1) + if cfg.scans[n - 1] in cfg.volumes then 1 else 0
  }

  function ScrollWheels(cfg: Config, n: nat): nat
    requires n <= |cfg.scans|
  {
    if n == 0 then 0 else ScrollWheels(cfg, n - 1) + if ScrollV(cfg.scans[n - 1]) then 1 else 0
  }

  lemma {:induction false} CostSplit(cfg: Config, n: nat)
    requires n <= |cfg.scans|
    ensures CostTo(cfg, n) <= n + VolumeWheels(cfg, n) + 255 * ScrollWheels(cfg, n)
            + (if n > 116 then 1 else 0) + (if n > 130 then 1 else 0)
  {
    if n > 0 { CostSplit(cfg, n - 1); }
  }

  /** A key map with at most one volume wheel and one scroll wheel, two directions each. */
  ghost predicate Sized(cfg: Config) {
    cfg.Valid() && VolumeWheels(cfg, N_KEYS_INPUT) <= 2 && ScrollWheels(cfg, N_KEYS_INPUT) <= 2
  }

  lemma {:induction false} CostRises(cfg: Config, n: nat, m: nat)
    requires n <= m <= |cfg.scans|
    ensures CostTo(cfg, n) <= CostTo(cfg, m)
  {
    if n < m { CostRises(cfg, n, m - 1); }
  }

  lemma CostFits(cfg: Config, n: nat)
    requires Sized(cfg) && n <= N_KEYS_INPUT
    ensures CostTo(cfg, n) <= EVENTS_SIZE
  {
    CostSplit(cfg, N_KEYS_INPUT);
    CostRises(cfg, n, N_KEYS_INPUT);
  }

  lemma {:induction false} TimesLength(pair: seq<int>, n: nat)
    ensures |Times(pair, n)| == |pair| * n
  {
    if n > 0 {
      TimesLength(pair, n - 1);
      assert |pair| * n == |pair| * (n - 1) + |pair|;
    }
  }

  lemma HandleLength(cfg: Config, st: Lists, k: nat, down: bool)
    requires cfg.Valid() && k < N_KEYS_INPUT == |st.bits|
    requires -128 <= st.relY < 128
    ensures |Handle(cfg, st, k, down).Events()| <= |st.Events()| + Cost(cfg, k)
  {
    EchoLength(cfg, st, k, down);
    if down { FinishLength(cfg, Echo(cfg, st, k, down), k); }
  }

  lemma EchoLength(cfg: Config, st: Lists, k: nat, down: bool)
    requires cfg.Valid() && k < N_KEYS_INPUT && -128 <= st.relY < 128
    ensures |Echo(cfg, st, k, down).Events()| <= |st.Events()| + 1 && -128 <= Echo(cfg, st, k, down).relY < 128
  {}

  lemma FinishLength(cfg: Config, st: Lists, k: nat)
    requires cfg.Valid() && k < N_KEYS_INPUT == |st.bits| && -128 <= st.relY < 128
    ensures |Finish(cfg, st, k).Events()| <= |st.Events()| + Cost(cfg, k) - 1
  {
    PulsesLength(st.mods, st.keys, Event(cfg.Code(k), false), Abs(if st.relY == 0 then 1 else st.relY));
  }

  lemma PulsesLength(mods: seq<int>, keys: seq<int>, up: int, n: nat)
    requires n >= 1
    ensures |Pulses(mods, keys, up, n)| == |keys| + 2 * n - 1
  {
    if n > 1 { TimesLength(LastTwo(mods, keys + [up]), n - 1); }
  }

  /** The array of the source is long enough for every report. */
  lemma EventsFit(cfg: Config, prev: seq<bool>, now: seq<bool>, relY: int, n: nat)
    requires Sized(cfg) && |prev| == |now| == N_KEYS_INPUT && n <= N_KEYS_INPUT && -128 <= relY < 128
    ensures |Fold(cfg, prev, now, relY, n).Events()| <= CostTo(cfg, n) <= N_KEYS_INPUT + 514
  {
    CostFits(cfg, n);
    EventsCost(cfg, prev, now, relY, n);
  }

  lemma {:induction false} EventsCost(cfg: Config, prev: seq<bool>, now: seq<bool>, relY: int, n: nat)
    requires cfg.Valid() && |prev| == |now| == N_KEYS_INPUT && n <= N_KEYS_INPUT && -128 <= relY < 128
    ensures |Fold(cfg, prev, now, relY, n).Events()| <= CostTo(cfg, n)
  {
    if n > 0 {
      EventsCost(cfg, prev, now, relY, n - 1);
      if prev[n - 1] != now[n - 1] {
        RelYBound(cfg, prev, now, relY, n - 1);
        HandleLength(cfg, Fold(cfg, prev, now, relY, n - 1), n - 1, now[n - 1]);
      }
    }
  }

  // ----- the array

  /** Shift the events from `at` up by one and put `e` there. */
  method Insert(events: array<int>, at: nat, total: nat, e: int)
    requires at <= total < events.Length
    modifies events
    ensures events[..total + 1] == old(events[..at]) + [e] + old(events[at..total])
  {
    var i := total;
    while i > at
      invariant at <= i <= total
      invariant forall j :: 0 <= j <= i && j < total ==> events[j] == old(events[j])
      invariant forall j :: i < j <= total ==> events[j] == old(events[j - 1])
    {
      events[i] := events[i - 1];
      i := i - 1;
    }
    events[at] := e;
  }

  /** memmove of the tail, `by` places up. */
  method MoveTail(events: array<int>, at: nat, total: nat, gap: nat)
    requires at <= total && total + gap <= events.Length
    modifies events
    ensures events[..at] == old(events[..at])
    ensures events[at + gap..total + gap] == old(events[at..total])
  {
    ghost var before := events[..];
    var i: nat := total;
    while i > at
      invariant at <= i <= total
      invariant events[..i] == before[..i]
      invariant events[i + gap..total + gap] == before[i..total]
    {
      i := i - 1;
      MoveOne(events, i, total, gap, before);
    }
    assert events[..at] == before[..at] && events[at + gap..total + gap] == before[at..total];
  }

  method MoveOne(events: array<int>, i: nat, total: nat, gap: nat, ghost before: seq<int>)
    requires i < total && total + gap <= events.Length == |before|
    requires events[..i + 1] == before[..i + 1] && events[i + 1 + gap..total + gap] == before[i + 1..total]
    modifies events
    ensures events[..i] == before[..i] && events[i + gap..total + gap] == before[i..total]
  {
    assert events[i] == events[..i + 1][i] == before[i];
    events[i + gap] := events[i];
    assert before[i..total] == [before[i]] + before[i + 1..total];
    assert events[i + gap..total + gap] == [events[i + gap]] + events[i + 1 + gap..total + gap];
  }

  /** What stands before the modifier-ups when a scroll wheel has been added. */
  ghost function Front(head: seq<int>, up: int, n: nat): seq<int>
    requires n > 1 ==> |head| >= 1
  {
    Repeated(head + [up], if n <= 1 then 0 else n - 1)
  }

  ghost function Repeated(filled: seq<int>, n: nat): seq<int>
    requires n > 0 ==> |filled| >= 2
  {
    if n == 0 then filled else filled + Times(filled[|filled| - 2..], n)
  }

  lemma FrontIsPulses(st: Lists, up: int, n: nat)
    requires n >= 1 && (n > 1 ==> |st.mods| + |st.keys| >= 1)
    ensures Front(st.mods + st.keys, up, n) == st.mods + Pulses(st.mods, st.keys, up, n)
    ensures |Front(st.mods + st.keys, up, n)| == |st.mods| + |st.keys| + 2 * n - 1
  {
    var filled := st.mods + st.keys + [up];
    assert filled == st.mods + (st.keys + [up]);
    if n > 1 {
      var pair := LastTwo(st.mods, st.keys + [up]);
      TimesLength(pair, n - 1);
      assert pair == filled[|filled| - 2..];
    }
  }

  /** Move the modifier-ups out of the way and add one key-up. */
  method MakeRoom(events: array<int>, front: nat, rmodcount: nat, up: int, end: nat,
                  ghost head: seq<int>, ghost tail: seq<int>)
    requires front < end && end + rmodcount <= events.Length
    requires |head| == front && |tail| == rmodcount && events[..front + rmodcount] == head + tail
    modifies events
    ensures events[..front + 1] == head + [up]
    ensures events[end..end + rmodcount] == tail
  {
    assert events[front..front + rmodcount] == tail;
    assert events[..front] == head;
    MoveTail(events, front, front + rmodcount, end - front);
    events[front] := up;
  }

  /** A scroll wheel's key-up, then its last two events again `n - 1` times. */
  method AddPulses(events: array<int>, front: nat, rmodcount: nat, up: int, n: nat, end: nat,
                   ghost head: seq<int>, ghost tail: seq<int>)
    requires n >= 1 && (n > 1 ==> front >= 1) && end == front + 2 * n - 1
    requires front == |head| && rmodcount == |tail| && end + rmodcount <= events.Length
    requires events[..front + rmodcount] == head + tail
    modifies events
    ensures events[..end] == Front(head, up, n)
    ensures events[end..end + rmodcount] == tail
  {
    MakeRoom(events, front, rmodcount, up, end, head, tail);
    Repeat(events, front + 1, n - 1, head + [up], end, rmodcount);
  }

  lemma Glue(s: seq<int>, i: nat, n: nat, a: seq<int>, b: seq<int>)
    requires i + n <= |s| && s[..i] == a && s[i..i + n] == b
    ensures s[..i + n] == a + b
  {}

  /** Copy the two events before `len` behind themselves, `n` times, short of the tail. */
  method Repeat(events: array<int>, len: nat, n: nat, ghost filled: seq<int>, ghost tail: nat, ghost tailLen: nat)
    requires n > 0 ==> len >= 2
    requires len == |filled| && len + 2 * n == tail && tail + tailLen <= events.Length
    requires events[..len] == filled
    modifies events
    ensures events[..tail] == Repeated(filled, n)
    ensures events[tail..tail + tailLen] == old(events[tail..tail + tailLen])
  {
    if n == 0 { return; }
    ghost var pair := filled[len - 2..];
    assert filled + Times(pair, 0) == filled;
    var i: nat, end: nat := 0, len;
    while i < n
      invariant i <= n && end == len + 2 * i
      invariant events[..end] == filled + Times(pair, i)
      invariant events[end - 2..end] == pair
      invariant events[tail..tail + tailLen] == old(events[tail..tail + tailLen])
    {
      CopyPair(events, end, tail, tailLen);
      assert filled + Times(pair, i + 1) == filled + Times(pair, i) + pair;
      i, end := i + 1, end + 2;
    }
  }

  /** Copy the two events before `end` to it; the tail stays. */
  method CopyPair(events: array<int>, end: nat, ghost tail: nat, ghost tailLen: nat)
    requires 2 <= end && end + 2 <= tail && tail + tailLen <= events.Length
    modifies events
    ensures events[..end + 2] == old(events[..end]) + old(events[end - 2..end])
    ensures events[end..end + 2] == old(events[end - 2..end])
    ensures events[tail..tail + tailLen] == old(events[tail..tail + tailLen])
  {
    ghost var before := events[..end];
    events[end], events[end + 1] := events[end - 2], events[end - 1];
    assert events[..end] == before;
  }

  ghost predicate Laid(events: seq<int>, modcount: nat, keycount: nat, rmodcount: nat, st: Lists) {
    && modcount == |st.mods| && keycount == |st.keys| && rmodcount == |st.rmods|
    && modcount + keycount + rmodcount <= |events|
    && events[..modcount + keycount + rmodcount] == st.Events()
  }

  lemma LaidParts(events: seq<int>, modcount: nat, keycount: nat, rmodcount: nat, st: Lists)
    requires Laid(events, modcount, keycount, rmodcount, st)
    ensures events[..modcount] == st.mods
    ensures events[modcount..modcount + keycount + rmodcount] == st.keys + st.rmods
    ensures events[..modcount + keycount] == st.mods + st.keys
    ensures events[modcount + keycount..modcount + keycount + rmodcount] == st.rmods
  {
    var all := events[..modcount + keycount + rmodcount];
    assert events[..modcount] == all[..modcount] == st.mods;
    assert events[..modcount + keycount] == all[..modcount + keycount] == st.mods + st.keys;
    assert events[modcount..modcount + keycount + rmodcount] == all[modcount..];
    assert events[modcount + keycount..modcount + keycount + rmodcount] == all[modcount + keycount..];
  }

  lemma Regroup(a: seq<int>, e: int, b: seq<int>, c: seq<int>)
    ensures a + [e] + (b + c) == (a + [e]) + b + c
  {}

  method AddModDown(events: array<int>, modcount: nat, keycount: nat, rmodcount: nat, e: int, ghost st: Lists)
    requires Laid(events[..], modcount, keycount, rmodcount, st) && modcount + keycount + rmodcount < events.Length
    modifies events
    ensures Laid(events[..], modcount + 1, keycount, rmodcount, st.(mods := st.mods + [e]))
  {
    LaidParts(events[..], modcount, keycount, rmodcount, st);
    Insert(events, modcount, modcount + keycount + rmodcount, e);
    Regroup(st.mods, e, st.keys, st.rmods);
  }

  method AddKey(events: array<int>, modcount: nat, keycount: nat, rmodcount: nat, e: int, ghost st: Lists)
    requires Laid(events[..], modcount, keycount, rmodcount, st) && modcount + keycount + rmodcount < events.Length
    modifies events
    ensures Laid(events[..], modcount, keycount + 1, rmodcount, st.(keys := st.keys + [e]))
  {
    LaidParts(events[..], modcount, keycount, rmodcount, st);
    Insert(events, modcount + keycount, modcount + keycount + rmodcount, e);
    RegroupBehind(st.mods, st.keys, e, st.rmods);
  }

  lemma RegroupBehind(a: seq<int>, b: seq<int>, e: int, c: seq<int>)
    ensures a + b + [e] + c == a + (b + [e]) + c
  {}

  method AddModUp(events: array<int>, modcount: nat, keycount: nat, rmodcount: nat, e: int, ghost st: Lists)
    requires Laid(events[..], modcount, keycount, rmodcount, st) && modcount + keycount + rmodcount < events.Length
    modifies events
    ensures Laid(events[..], modcount, keycount, rmodcount + 1, st.(rmods := st.rmods + [e]))
  {
    events[modcount + keycount + rmodcount] := e;
  }

  method AddWheel(events: array<int>, modcount: nat, keycount: nat, rmodcount: nat, up: int, n: nat, ghost st: Lists)
    requires Laid(events[..], modcount, keycount, rmodcount, st)
    requires n >= 1 && (n > 1 ==> modcount + keycount >= 1)
    requires modcount + keycount + rmodcount + 2 * n - 1 <= events.Length
    modifies events
    ensures Laid(events[..], modcount, keycount + 2 * n - 1, rmodcount, st.(keys := Pulses(st.mods, st.keys, up, n)))
  {
    var end := modcount + keycount + 2 * n - 1;
    AddPulses(events, modcount + keycount, rmodcount, up, n, end, st.mods + st.keys, st.rmods);
    FrontIsPulses(st, up, n);
    Glue(events[..], end, rmodcount, Front(st.mods + st.keys, up, n), st.rmods);
  }

  // ----- the object

  /** usbinput with the device it belongs to, and the virtual device the events go to. */
  class Input {
    const cfg: Config
    const keys: array<bool>
    const prevkeys: array<bool>
    var relX: int
    var relY: int
    var scrolled: seq<(int, int)>
    var held: set<int>

    constructor (cfg: Config)
      requires cfg.Valid()
      ensures Valid() && this.cfg == cfg && fresh(keys) && fresh(prevkeys) && relY == 0 && held == {}
      ensures forall k :: 0 <= k < N_KEYS_INPUT ==> !prevkeys[k]
    {
      this.cfg := cfg;
      keys := new bool[N_KEYS_INPUT](_ => false);
      prevkeys := new bool[N_KEYS_INPUT](_ => false);
      relX, relY, scrolled, held := 0, 0, [], {};
    }

    predicate Valid()
      reads this
    {
      cfg.Valid() && keys != prevkeys && keys.Length == prevkeys.Length == N_KEYS_INPUT && relX == 0
    }

    ghost predicate Matches(st: Lists)
      reads this
    {
      relX == st.relX && relY == st.relY && scrolled == st.scrolled
    }

    method EchoKey(events: array<int>, modcount: nat, keycount: nat, rmodcount: nat, k: nat, down: bool, ghost st: Lists)
      returns (m: nat, n: nat, r: nat)
      requires cfg.Valid() && k < N_KEYS_INPUT && Matches(st)
      requires Laid(events[..], modcount, keycount, rmodcount, st)
      requires modcount + keycount + rmodcount < events.Length
      modifies this`relX, this`relY, this`scrolled, events
      ensures Laid(events[..], m, n, r, Echo(cfg, st, k, down)) && Matches(Echo(cfg, st, k, down))
    {
      var code := cfg.Code(k);
      m, n, r := modcount, keycount, rmodcount;
      if !Silent(code) {
        if code in cfg.mods {
          if down {
            AddModDown(events, modcount, keycount, rmodcount, code + 1, st);
            m := modcount + 1;
          } else {
            AddModUp(events, modcount, keycount, rmodcount, -(code + 1), st);
            r := rmodcount + 1;
          }
        } else if ScrollV(code) {
          if relY == 0 { relY := if code == BTN_WHEELUP then 1 else -1; }
          scrolled := scrolled + [(0, relY)];
        } else if ScrollH(code) {
          if ScrollV(cfg.scans[k]) { relX := relY; }
          else { relX := if code == BTN_WHEELLEFT then -1 else 1; }
          scrolled := scrolled + [(relX, 0)];
        } else {
          AddKey(events, modcount, keycount, rmodcount, if down then code + 1 else -(code + 1), st);
          n := keycount + 1;
        }
      }
    }

    method PulseKey(events: array<int>, modcount: nat, keycount: nat, rmodcount: nat, k: nat, ghost st: Lists)
      returns (n: nat)
      requires cfg.Valid() && k < N_KEYS_INPUT && Matches(st)
      requires Laid(events[..], modcount, keycount, rmodcount, st)
      requires |Pulse(cfg, st, k).Events()| <= events.Length && InArray(cfg, st, k)
      modifies this`relY, events
      ensures Laid(events[..], modcount, n, rmodcount, Pulse(cfg, st, k)) && Matches(Pulse(cfg, st, k))
    {
      var code := cfg.Code(k);
      n := keycount;
      CodeSign(cfg, k);
      if code != KEY_UNBOUND {
        if cfg.VolOrCtrl(k) {
          AddKey(events, modcount, keycount, rmodcount, -(code + 1), st);
          n := keycount + 1;
        } else if ScrollV(cfg.scans[k]) && !ScrollV(code) {
          n := PulseWheel(events, modcount, keycount, rmodcount, -(code + 1), st);
        }
      }
    }

    /** Lines 407-424: a scroll wheel bound to a key or button, once for every notch. */
    method PulseWheel(events: array<int>, modcount: nat, keycount: nat, rmodcount: nat, up: int, ghost st: Lists)
      returns (n: nat)
      requires Matches(st) && Laid(events[..], modcount, keycount, rmodcount, st)
      requires var y := if st.relY == 0 then 1 else st.relY;
        (Abs(y) > 1 ==> |st.mods| + |st.keys| >= 1)
        && |st.mods| + |Pulses(st.mods, st.keys, up, Abs(y))| + |st.rmods| <= events.Length
      modifies this`relY, events
      ensures relY == if st.relY == 0 then 1 else st.relY
      ensures Laid(events[..], modcount, n, rmodcount, st.(keys := Pulses(st.mods, st.keys, up, Abs(relY))))
    {
      if relY == 0 { relY := 1; }
      FrontIsPulses(st, up, Abs(relY));
      AddWheel(events, modcount, keycount, rmodcount, up, Abs(relY), st);
      n := keycount + 2 * Abs(relY) - 1;
    }

    method FinishKey(events: array<int>, modcount: nat, keycount: nat, rmodcount: nat, k: nat, ghost st: Lists)
      returns (n: nat)
      requires cfg.Valid() && k < N_KEYS_INPUT == |st.bits| && Matches(st) && keys.Length == N_KEYS_INPUT
      requires Laid(events[..], modcount, keycount, rmodcount, st) && keys[..] == st.bits
      requires |Finish(cfg, st, k).Events()| <= events.Length && InArray(cfg, st, k)
      modifies this`relY, events, keys
      ensures Laid(events[..], modcount, n, rmodcount, Finish(cfg, st, k)) && Matches(Finish(cfg, st, k))
      ensures keys[..] == Finish(cfg, st, k).bits
    {
      n := PulseKey(events, modcount, keycount, rmodcount, k, st);
      if cfg.Wheel(k) { keys[k] := false; }
    }

    method HandleKey(events: array<int>, modcount: nat, keycount: nat, rmodcount: nat, k: nat, down: bool, ghost st: Lists)
      returns (m: nat, n: nat, r: nat)
      requires cfg.Valid() && k < N_KEYS_INPUT == |st.bits| == keys.Length && Matches(st)
      requires Laid(events[..], modcount, keycount, rmodcount, st) && keys[..] == st.bits
      requires |st.Events()| < events.Length && |Handle(cfg, st, k, down).Events()| <= events.Length
      requires down ==> InArray(cfg, Echo(cfg, st, k, true), k)
      modifies this`relX, this`relY, this`scrolled, events, keys
      ensures Laid(events[..], m, n, r, Handle(cfg, st, k, down)) && Matches(Handle(cfg, st, k, down))
      ensures keys[..] == Handle(cfg, st, k, down).bits
    {
      m, n, r := EchoKey(events, modcount, keycount, rmodcount, k, down, st);
      if down {
        n := FinishKey(events, m, n, r, k, Echo(cfg, st, k, true));
      }
    }

    /** Lines 454-473: replay the queue. */
    method Emit(events: array<int>, total: nat)
      requires total <= events.Length
      modifies this`held
      ensures held == Replay(old(held), events[..total])
    {
      var i := 0;
      while i < total
        invariant 0 <= i <= total
        invariant held == Replay(old(held), events[..i])
      {
        assert events[..i + 1][..i] == events[..i];
        var scancode := events[i];
        var absscan: int := Abs(scancode);
        held := if scancode > 0 then held + {absscan - 1} else held - {absscan - 1};
        i := i + 1;
      }
    }

    /** The scan has come to key `k`. */
    ghost predicate Scanning(prev: seq<bool>, now: seq<bool>, y: int, k: nat, events: seq<int>,
                             modcount: nat, keycount: nat, rmodcount: nat)
      reads this, keys, prevkeys
    {
      && cfg.Valid() && |prev| == |now| == N_KEYS_INPUT && k <= N_KEYS_INPUT && prevkeys[..] == prev
      && Laid(events, modcount, keycount, rmodcount, Fold(cfg, prev, now, y, k))
      && Matches(Fold(cfg, prev, now, y, k)) && keys[..] == Fold(cfg, prev, now, y, k).bits
    }

    /** One key of the scan. */
    method ScanKey(events: array<int>, k: nat, modcount: nat, keycount: nat, rmodcount: nat,
                   ghost prev: seq<bool>, ghost now: seq<bool>, ghost y: int) returns (m: nat, n: nat, r: nat)
      requires Sized(cfg) && -128 <= y < 128 && events.Length == EVENTS_SIZE && keys != prevkeys
      requires Scanning(prev, now, y, k, events[..], modcount, keycount, rmodcount) && k < N_KEYS_INPUT
      requires Within(cfg, prev, now, y)
      modifies this`relX, this`relY, this`scrolled, events, keys
      ensures Scanning(prev, now, y, k + 1, events[..], m, n, r)
    {
      ghost var st := Fold(cfg, prev, now, y, k);
      FoldBits(cfg, prev, now, y, k, k);
      assert keys[k] == st.bits[k] == now[k] && prevkeys[k] == prev[k];
      EventsFit(cfg, prev, now, y, k);
      EventsFit(cfg, prev, now, y, k + 1);
      CostStep(cfg, k);
      m, n, r := modcount, keycount, rmodcount;
      if prevkeys[k] != keys[k] {
        m, n, r := HandleKey(events, modcount, keycount, rmodcount, k, keys[k], st);
      }
    }

    /** inputupdate_keys without its macro loop. */
    method UpdateKeys()
      requires Valid() && Sized(cfg) && -128 <= relY < 128 && Within(cfg, prevkeys[..], keys[..], relY)
      modifies this, keys
      ensures Valid()
      ensures var before := Desk(old(prevkeys[..]), old(held));
        var now := old(keys[..]);
        var st := Fold(cfg, before.keys, now, old(relY), N_KEYS_INPUT);
        && scrolled == Scrolls(cfg, before.keys, now, old(relY), N_KEYS_INPUT)
        && if now == before.keys then keys[..] == now && held == before.held
        else keys[..] == st.bits && held == Replay(before.held, st.Events())
    {
      scrolled := [];
      ghost var prev, now, y := prevkeys[..], keys[..], relY;
      ReportScrolls(cfg, prev, now, y);
      if prevkeys[..] == keys[..] { return; }
      var events := new int[EVENTS_SIZE];
      var modcount: nat, keycount: nat, rmodcount: nat := 0, 0, 0;
      assert events[..0] == [];
      var k: nat := 0;
      while k < N_KEYS_INPUT
        invariant fresh(events) && held == old(held) && Scanning(prev, now, y, k, events[..], modcount, keycount, rmodcount)
      {
        modcount, keycount, rmodcount := ScanKey(events, k, modcount, keycount, rmodcount, prev, now, y);
        k := k + 1;
      }
      Emit(events, modcount + keycount + rmodcount);
      relX := 0;
    }

    /** inputupdate: one report from the device. */
    method Update(report: Report)
      requires Valid() && Sized(cfg) && |report.keys| == N_KEYS_INPUT && -128 <= report.relY < 128
      requires Within(cfg, prevkeys[..], WithWheel(report), report.relY)
      modifies this, keys, prevkeys
      ensures Valid() && relY == 0
      ensures Desk(prevkeys[..], held) == InputEvents.Update(cfg, Desk(old(prevkeys[..]), old(held)), report)
      ensures scrolled == Scrolls(cfg, old(prevkeys[..]), WithWheel(report), report.relY, N_KEYS_INPUT)
    {
      ghost var desk := Desk(prevkeys[..], held);
      forall k | 0 <= k < N_KEYS_INPUT { keys[k] := report.keys[k]; }
      relY := report.relY;
      keys[MOUSE_EXTRA_FIRST] := relY > 0;
      keys[MOUSE_EXTRA_FIRST + 1] := relY < 0;
      assert keys[..] == WithWheel(report);
      assert prevkeys[..] == desk.keys;
      UpdateKeys();
      ghost var after := keys[..];
      assert Desk(after, held) == InputEvents.Update(cfg, desk, report);
      forall k | 0 <= k < N_KEYS_INPUT { prevkeys[k] := keys[k]; }
      assert prevkeys[..] == after;
      relX, relY := 0, 0;
    }
  }

  lemma CostStep(cfg: Config, k: nat)
    requires k < |cfg.scans|
    ensures CostTo(cfg, k) < CostTo(cfg, k + 1)
  {}
}
