/** Key translation of input.c: what one input report makes of the changed keys.

    Key bitfields are sequences of booleans, one per key.  Codes are the `short` scan codes
    of the key map.  An event is a code plus one, negated for a key-up. */
module InputEvents {

  const KEY_NONE := -1
  const KEY_UNBOUND := -3
  const BTN_WHEELUP := 0x1f01
  const BTN_WHEELDOWN := 0x1f02
  const BTN_WHEELLEFT := 0x1f03
  const BTN_WHEELRIGHT := 0x1f04
  const SCAN_SILENT := 0x8000
  const N_KEYS_INPUT := 257
  const MOUSE_EXTRA_FIRST := 250

  /** A keyboard or mouse in one mode.  `volumes` holds the volume codes if the device has a
      volume wheel, `mods` the codes of IS_MOD. */
  datatype Config = Config(scans: seq<int>, base: seq<int>, active: bool, bragi: bool,
                           volumes: set<int>, mods: set<int>)
  {
    predicate Valid() {
      && |scans| == |base| == N_KEYS_INPUT
      && (forall k :: 0 <= k < N_KEYS_INPUT ==> -0x8000 <= Code(k) < 0x8000)
      && forall c :: c in mods ==> c >= 0 && !Silent(c) && !ScrollV(c) && !ScrollH(c)
    }

    function Code(k: nat): int
      requires k < |scans| && k < |base|
    {
      if active then base[k] else scans[k]
    }

    predicate VolOrCtrl(k: nat)
      requires k < |scans|
    {
      scans[k] in volumes || (bragi && (k == 116 || k == 130))
    }

    predicate Wheel(k: nat)
      requires k < |scans|
    {
      VolOrCtrl(k) || ScrollV(scans[k])
    }

    /** Its code goes to the operating system as a key or button. */
    predicate Visible(k: nat)
      requires k < |scans| && k < |base|
    {
      !Silent(Code(k)) && !ScrollV(Code(k)) && !ScrollH(Code(k))
    }
  }

  predicate Silent(code: int) { (code / SCAN_SILENT) % 2 == 1 }
  predicate ScrollV(code: int) { code == BTN_WHEELUP || code == BTN_WHEELDOWN }
  predicate ScrollH(code: int) { code == BTN_WHEELLEFT || code == BTN_WHEELRIGHT }

  function Abs(x: int): nat { if x < 0 then -x else x }

  function Event(code: int, down: bool): int { if down then code + 1 else -(code + 1) }

  /** The three regions of the event array, the wheel registers, what went out as scrolling,
      and the key bits left behind. */
  datatype Lists = Lists(mods: seq<int>, keys: seq<int>, rmods: seq<int>,
                         relX: int, relY: int, scrolled: seq<(int, int)>, bits: seq<bool>)
  {
    function Events(): seq<int> { mods + keys + rmods }
  }

  /** Lines 353-392: echo the change itself. */
  function Echo(cfg: Config, st: Lists, k: nat, down: bool): Lists
    requires k < |cfg.scans| && k < |cfg.base|
  {
    var code := cfg.Code(k);
    if Silent(code) then st
    else if code in cfg.mods then
      if down then st.(mods := st.mods + [Event(code, true)]) else st.(rmods := st.rmods + [Event(code, false)])
    else if ScrollV(code) then
      var y := if st.relY == 0 then (if code == BTN_WHEELUP then 1 else -1) else st.relY;
      st.(relY := y, scrolled := st.scrolled + [(0, y)])
    else if ScrollH(code) then
      var x := if ScrollV(cfg.scans[k]) then st.relY else if code == BTN_WHEELLEFT then -1 else 1;
      st.(relX := x, scrolled := st.scrolled + [(x, 0)])
    else st.(keys := st.keys + [Event(code, down)])
  }

  function Times(pair: seq<int>, n: nat): seq<int> {
    if n == 0 then [] else Times(pair, n - 1) + pair
  }

  /** The last two events before the modifier-ups.  If there is one only, 0 stands for what
      would be read before the array. */
  function LastTwo(mods: seq<int>, keys: seq<int>): (pair: seq<int>)
    requires |mods| + |keys| >= 1
    ensures |pair| == 2
  {
    var all := [0] + mods + keys;
    all[|all| - 2..]
  }

  /** A key-up for a scroll wheel, and the last two events again for every further notch. */
  function Pulses(mods: seq<int>, keys: seq<int>, up: int, n: nat): seq<int> {
    var keys' := keys + [up];
    if n <= 1 then keys' else keys' + Times(LastTwo(mods, keys'), n - 1)
  }

  /** Lines 395-424: wheels get their key-ups. */
  function Pulse(cfg: Config, st: Lists, k: nat): Lists
    requires k < |cfg.scans| && k < |cfg.base|
  {
    var code := cfg.Code(k);
    var up := Event(code, false);
    if code == KEY_UNBOUND then st
    else if cfg.VolOrCtrl(k) then st.(keys := st.keys + [up])
    else if ScrollV(cfg.scans[k]) && !ScrollV(code) then
      var y := if st.relY == 0 then 1 else st.relY;
      st.(relY := y, keys := Pulses(st.mods, st.keys, up, Abs(y)))
    else st
  }

  /** After the key-ups the bit of a wheel is cleared. */
  function Finish(cfg: Config, st: Lists, k: nat): Lists
    requires k < |cfg.scans| && k < |cfg.base| && k < |st.bits|
  {
    var st' := Pulse(cfg, st, k);
    if cfg.Wheel(k) then st'.(bits := st'.bits[k := false]) else st'
  }

  function Handle(cfg: Config, st: Lists, k: nat, down: bool): Lists
    requires k < |cfg.scans| && k < |cfg.base| && k < |st.bits|
  {
    var st' := Echo(cfg, st, k, down);
    if down then Finish(cfg, st', k) else st'
  }

  function Start(now: seq<bool>, relY: int): Lists {
    Lists([], [], [], 0, relY, [], now)
  }

  /** All keys below `n` have been looked at. */
  function Fold(cfg: Config, prev: seq<bool>, now: seq<bool>, relY: int, n: nat): (st: Lists)
    requires cfg.Valid() && |prev| == |now| == N_KEYS_INPUT && n <= N_KEYS_INPUT
    ensures |st.bits| == N_KEYS_INPUT
  {
    if n == 0 then Start(now, relY)
    else
      var st := Fold(cfg, prev, now, relY, n - 1);
      if prev[n - 1] == now[n - 1] then st else Handle(cfg, st, n - 1, now[n - 1])
  }

  // ----- what a report must not do

  /** If the source makes a key-up for it, that event does not read as a key-down: the code of
      a wheel is sent, or is one of the two silent codes for which this comes out right. */
  predicate Harmless(cfg: Config, k: nat)
    requires k < |cfg.scans| && k < |cfg.base|
  {
    cfg.Wheel(k) && Silent(cfg.Code(k)) ==> cfg.Code(k) == KEY_UNBOUND || cfg.Code(k) == KEY_NONE
  }

  ghost predicate AllHarmless(cfg: Config)
    requires cfg.Valid()
  {
    forall k :: 0 <= k < N_KEYS_INPUT ==> Harmless(cfg, k)
  }

  /** Lines 418-421 copy the last two events. */
  predicate Repeats(cfg: Config, relY: int, k: nat)
    requires k < |cfg.scans| && k < |cfg.base|
  {
    && cfg.Code(k) != KEY_UNBOUND && !cfg.VolOrCtrl(k)
    && ScrollV(cfg.scans[k]) && !ScrollV(cfg.Code(k)) && Abs(relY) > 1
  }

  /** There are two events to copy, the key-up and one before it.  Otherwise line 419 copies
      what stands before the array. */
  predicate InArray(cfg: Config, st: Lists, k: nat)
    requires k < |cfg.scans| && k < |cfg.base|
  {
    Repeats(cfg, st.relY, k) ==> |st.mods| + |st.keys| >= 1
  }

  /** A report that keeps line 419 inside the array. */
  ghost predicate Within(cfg: Config, prev: seq<bool>, now: seq<bool>, relY: int)
    requires cfg.Valid() && |prev| == |now| == N_KEYS_INPUT
  {
    forall k :: 0 <= k < N_KEYS_INPUT && !prev[k] && now[k] ==>
      InArray(cfg, Echo(cfg, Fold(cfg, prev, now, relY, k), k, true), k)
  }

  // ----- replaying events

  /** os_keypress on a set of held codes. */
  function Press(held: set<int>, event: int): set<int> {
    if event > 0 then held + {Abs(event) - 1} else held - {Abs(event) - 1}
  }

  function Replay(held: set<int>, events: seq<int>): set<int> {
    if events == [] then held else Press(Replay(held, events[..|events| - 1]), events[|events| - 1])
  }

  datatype Verdict = Silence | Up | Down

  /** What the events say last about a code. */
  function Last(events: seq<int>, code: int): Verdict {
    if events == [] then Silence
    else
      var e := events[|events| - 1];
      if Abs(e) - 1 == code then (if e > 0 then Down else Up) else Last(events[..|events| - 1], code)
  }

  lemma {:induction false} ReplayByLast(held: set<int>, events: seq<int>, code: int)
    ensures code in Replay(held, events) <==>
      match Last(events, code) case Down => true case Up => false case Silence => code in held
  {
    if events != [] { ReplayByLast(held, events[..|events| - 1], code); }
  }

  function Then(a: Verdict, b: Verdict): Verdict { if b.Silence? then a else b }

  lemma {:induction false} LastConcat(a: seq<int>, b: seq<int>, code: int)
    ensures Last(a + b, code) == Then(Last(a, code), Last(b, code))
  {
    if b == [] {
      assert a + b == a;
    } else {
      assert (a + b)[..|a + b| - 1] == a + b[..|b| - 1];
      LastConcat(a, b[..|b| - 1], code);
    }
  }

  lemma LastOne(e: int, code: int)
    ensures Last([e], code) == if Abs(e) - 1 == code then (if e > 0 then Down else Up) else Silence
  {
    assert [e][..0] == [];
  }

  lemma {:induction false} LastTimes(e: int, up: int, n: nat, code: int)
    ensures Last(Times([e, up], n), code) == if n == 0 then Silence else Then(Last([e], code), Last([up], code))
  {
    if n > 0 {
      LastTimes(e, up, n - 1, code);
      LastConcat(Times([e, up], n - 1), [e, up], code);
      assert [e, up] == [e] + [up];
      LastConcat([e], [up], code);
    }
  }

  /** The pulses of a wheel end on its key-up, and say nothing new about any other code:
      the event they repeat was already the last one about its own. */
  lemma PulsesLast(mods: seq<int>, keys: seq<int>, up: int, n: nat, code: int)
    requires n > 1 ==> |mods| + |keys| >= 1
    ensures Last(mods + Pulses(mods, keys, up, n), code)
            == if code == Abs(up) - 1 then (if up > 0 then Down else Up) else Last(mods + keys, code)
  {
    var all := mods + keys;
    PulsesShape(mods, keys, up, n);
    LastConcat(all, [up], code);
    LastOne(up, code);
    if n > 1 {
      var e := all[|all| - 1];
      LastConcat(all + [up], Times([e, up], n - 1), code);
      LastTimes(e, up, n - 1, code);
      LastOne(e, code);
    }
  }

  lemma PulsesShape(mods: seq<int>, keys: seq<int>, up: int, n: nat)
    requires n > 1 ==> |mods| + |keys| >= 1
    ensures var all := mods + keys;
      mods + Pulses(mods, keys, up, n) == if n <= 1 then all + [up] else all + [up] + Times([all[|all| - 1], up], n - 1)
  {
    var all := mods + keys;
    assert mods + (keys + [up]) == all + [up];
    if n > 1 {
      var pair := LastTwo(mods, keys + [up]);
      assert pair == [all[|all| - 1], up];
      Assoc(mods, keys + [up], Times(pair, n - 1));
    }
  }

  lemma Assoc(a: seq<int>, b: seq<int>, c: seq<int>)
    ensures a + (b + c) == a + b + c
  {}

  // ----- what one key adds

  lemma EventsLast(st: Lists, code: int)
    ensures Last(st.Events(), code) == Then(Then(Last(st.mods, code), Last(st.keys, code)), Last(st.rmods, code))
  {
    LastConcat(st.mods + st.keys, st.rmods, code);
    LastConcat(st.mods, st.keys, code);
  }

  lemma CodeSign(cfg: Config, k: nat)
    requires cfg.Valid() && k < N_KEYS_INPUT
    ensures Silent(cfg.Code(k)) <==> cfg.Code(k) < 0
  {
    assert -0x8000 <= cfg.Code(k) < 0x8000;
  }

  lemma AddedOne(st: Lists, st': Lists, e: int, code: int)
    requires st'.mods == st.mods + [e] || st'.mods == st.mods
    requires st'.keys == st.keys + [e] || st'.keys == st.keys
    requires st'.rmods == st.rmods + [e] || st'.rmods == st.rmods
    ensures Abs(e) - 1 != code ==> Last(st'.Events(), code) == Last(st.Events(), code)
    ensures Abs(e) - 1 == code && Last(st.Events(), code).Silence? && st'.Events() != st.Events() ==>
              Last(st'.Events(), code) == if e > 0 then Down else Up
  {
    EventsLast(st, code);
    EventsLast(st', code);
    LastOne(e, code);
    LastConcat(st.mods, [e], code);
    LastConcat(st.keys, [e], code);
    LastConcat(st.rmods, [e], code);
  }

  lemma EchoLast(cfg: Config, st: Lists, k: nat, down: bool, code: int)
    requires cfg.Valid() && k < N_KEYS_INPUT
    ensures var st' := Echo(cfg, st, k, down);
      && (code == cfg.Code(k) && cfg.Visible(k) && Last(st.Events(), code).Silence? ==>
            Last(st'.Events(), code) == if down then Down else Up)
      && (code != cfg.Code(k) || !cfg.Visible(k) ==> Last(st'.Events(), code) == Last(st.Events(), code))
  {
    CodeSign(cfg, k);
    var st' := Echo(cfg, st, k, down);
    if cfg.Visible(k) {
      assert |st'.Events()| == |st.Events()| + 1;
      AddedOne(st, st', Event(cfg.Code(k), down), code);
    } else {
      assert st'.Events() == st.Events();
    }
  }

  lemma FinishLast(cfg: Config, st: Lists, k: nat, code: int)
    requires cfg.Valid() && k < N_KEYS_INPUT == |st.bits|
    requires Harmless(cfg, k) && InArray(cfg, st, k)
    requires code == cfg.Code(k) && cfg.Visible(k) ==> !Last(st.rmods, code).Down?
    ensures var st' := Finish(cfg, st, k);
      && (code == cfg.Code(k) && cfg.Visible(k) && cfg.Wheel(k) ==> Last(st'.Events(), code) == Up)
      && (code != cfg.Code(k) || (cfg.Visible(k) && !cfg.Wheel(k)) ==> Last(st'.Events(), code) == Last(st.Events(), code))
      && (!cfg.Visible(k) && !Last(st.Events(), code).Down? ==> !Last(st'.Events(), code).Down?)
  {
    CodeSign(cfg, k);
    var st' := Finish(cfg, st, k);
    var up := Event(cfg.Code(k), false);
    LastConcat(st.mods + st.keys, st.rmods, code);
    LastConcat(st'.mods + st'.keys, st'.rmods, code);
    if cfg.Code(k) == KEY_UNBOUND {
    } else if cfg.VolOrCtrl(k) {
      assert st'.keys == Pulses(st.mods, st.keys, up, 1);
      PulsesLast(st.mods, st.keys, up, 1, code);
    } else if ScrollV(cfg.scans[k]) && !ScrollV(cfg.Code(k)) {
      PulsesLast(st.mods, st.keys, up, Abs(if st.relY == 0 then 1 else st.relY), code);
    }
  }

  // ----- the verdict on every key

  /** Different visible keys send different codes. */
  ghost predicate Injective(cfg: Config)
    requires cfg.Valid()
  {
    forall j, k :: 0 <= j < k < N_KEYS_INPUT && cfg.Visible(j) && cfg.Visible(k) ==> cfg.Code(j) != cfg.Code(k)
  }

  /** What the events should say about key `k` when the keys below `n` are done. */
  function Expected(cfg: Config, prev: seq<bool>, now: seq<bool>, n: nat, k: nat): Verdict
    requires cfg.Valid() && |prev| == |now| == N_KEYS_INPUT && k < N_KEYS_INPUT
  {
    if k >= n || prev[k] == now[k] then Silence
    else if now[k] && !cfg.Wheel(k) then Down
    else Up
  }

  ghost predicate WheelsUp(cfg: Config, keys: seq<bool>)
    requires cfg.Valid() && |keys| == N_KEYS_INPUT
  {
    forall k :: 0 <= k < N_KEYS_INPUT && cfg.Wheel(k) ==> !keys[k]
  }

  ghost predicate Sayable(cfg: Config, prev: seq<bool>, now: seq<bool>, relY: int) {
    && cfg.Valid() && |prev| == |now| == N_KEYS_INPUT
    && Injective(cfg) && AllHarmless(cfg) && WheelsUp(cfg, prev) && Within(cfg, prev, now, relY)
  }

  lemma {:induction false} RelYBound(cfg: Config, prev: seq<bool>, now: seq<bool>, relY: int, n: nat)
    requires cfg.Valid() && |prev| == |now| == N_KEYS_INPUT && n <= N_KEYS_INPUT
    ensures var y := Fold(cfg, prev, now, relY, n).relY; y == relY || Abs(y) <= 1
  {
    if n > 0 { RelYBound(cfg, prev, now, relY, n - 1); }
  }

  lemma {:induction false} FoldSays(cfg: Config, prev: seq<bool>, now: seq<bool>, relY: int, n: nat, k: nat)
    requires Sayable(cfg, prev, now, relY) && n <= N_KEYS_INPUT && k < N_KEYS_INPUT && cfg.Visible(k)
    ensures Last(Fold(cfg, prev, now, relY, n).Events(), cfg.Code(k)) == Expected(cfg, prev, now, n, k)
  {
    if n > 0 {
      FoldSays(cfg, prev, now, relY, n - 1, k);
      if prev[n - 1] != now[n - 1] {
        HandleSays(cfg, Fold(cfg, prev, now, relY, n - 1), n - 1, now[n - 1], k);
      }
    }
  }

  /** One changed key decides its own code, and for wheels the key-up comes last. */
  lemma HandleSays(cfg: Config, st: Lists, j: nat, down: bool, k: nat)
    requires cfg.Valid() && Injective(cfg) && j < N_KEYS_INPUT && k < N_KEYS_INPUT && cfg.Visible(k)
    requires |st.bits| == N_KEYS_INPUT && Harmless(cfg, j) && (down ==> InArray(cfg, Echo(cfg, st, j, true), j))
    requires j == k ==> Last(st.Events(), cfg.Code(k)).Silence?
    ensures Last(Handle(cfg, st, j, down).Events(), cfg.Code(k)) ==
            if j != k then Last(st.Events(), cfg.Code(k)) else if down && !cfg.Wheel(k) then Down else Up
  {
    var code := cfg.Code(k);
    var st' := Echo(cfg, st, j, down);
    EchoLast(cfg, st, j, down, code);
    if cfg.Visible(j) && j != k { assert cfg.Code(j) != code; }
    if down {
      EventsLast(st, code);
      if j == k { assert st'.rmods == st.rmods; }
      FinishLast(cfg, st', j, code);
    }
  }

  /** A code that no visible key sends is never left pressed. */
  lemma {:induction false} FoldNotDown(cfg: Config, prev: seq<bool>, now: seq<bool>, relY: int, n: nat, code: int)
    requires Sayable(cfg, prev, now, relY) && n <= N_KEYS_INPUT
    requires forall k :: 0 <= k < N_KEYS_INPUT && cfg.Visible(k) ==> cfg.Code(k) != code
    ensures !Last(Fold(cfg, prev, now, relY, n).Events(), code).Down?
  {
    if n > 0 {
      FoldNotDown(cfg, prev, now, relY, n - 1, code);
      if prev[n - 1] != now[n - 1] {
        HandleNotDown(cfg, Fold(cfg, prev, now, relY, n - 1), n - 1, now[n - 1], code);
      }
    }
  }

  lemma HandleNotDown(cfg: Config, st: Lists, j: nat, down: bool, code: int)
    requires cfg.Valid() && j < N_KEYS_INPUT == |st.bits|
    requires Harmless(cfg, j) && (down ==> InArray(cfg, Echo(cfg, st, j, true), j))
    requires cfg.Visible(j) ==> cfg.Code(j) != code
    requires !Last(st.Events(), code).Down?
    ensures !Last(Handle(cfg, st, j, down).Events(), code).Down?
  {
    var st' := Echo(cfg, st, j, down);
    EchoLast(cfg, st, j, down, code);
    if down {
      FinishLast(cfg, st', j, code);
    }
  }

  // ----- the virtual device follows the keys

  ghost predicate Shown(cfg: Config, keys: seq<bool>, code: int)
    requires cfg.Valid() && |keys| == N_KEYS_INPUT
  {
    exists k :: 0 <= k < N_KEYS_INPUT && cfg.Visible(k) && keys[k] && cfg.Code(k) == code
  }

  /** The virtual device holds exactly the codes of the keys that are down. */
  ghost predicate Mirrors(cfg: Config, keys: seq<bool>, held: set<int>)
    requires cfg.Valid() && |keys| == N_KEYS_INPUT
  {
    forall code :: code in held <==> Shown(cfg, keys, code)
  }

  lemma HandleBits(cfg: Config, st: Lists, j: nat, down: bool, k: nat)
    requires cfg.Valid() && |st.bits| == N_KEYS_INPUT && j < N_KEYS_INPUT && k < N_KEYS_INPUT
    ensures Handle(cfg, st, j, down).bits == if down && cfg.Wheel(j) then st.bits[j := false] else st.bits
  {
    EchoBits(cfg, st, j, down);
  }

  lemma EchoBits(cfg: Config, st: Lists, j: nat, down: bool)
    requires cfg.Valid() && j < N_KEYS_INPUT
    ensures Echo(cfg, st, j, down).bits == st.bits
  {}

  lemma {:induction false} FoldBits(cfg: Config, prev: seq<bool>, now: seq<bool>, relY: int, n: nat, k: nat)
    requires cfg.Valid() && |prev| == |now| == N_KEYS_INPUT && n <= N_KEYS_INPUT && k < N_KEYS_INPUT
    ensures Fold(cfg, prev, now, relY, n).bits[k] == (now[k] && !(k < n && cfg.Wheel(k) && !prev[k]))
  {
    if n > 0 {
      FoldBits(cfg, prev, now, relY, n - 1, k);
      HandleBits(cfg, Fold(cfg, prev, now, relY, n - 1), n - 1, now[n - 1], k);
    }
  }

  /** One report: what is emitted carries the virtual device from the old keys to the new
      ones, with every wheel released again. */
  lemma FoldMirrors(cfg: Config, prev: seq<bool>, now: seq<bool>, relY: int, held: set<int>)
    requires Sayable(cfg, prev, now, relY) && Mirrors(cfg, prev, held)
    ensures var st := Fold(cfg, prev, now, relY, N_KEYS_INPUT);
      WheelsUp(cfg, st.bits) && Mirrors(cfg, st.bits, Replay(held, st.Events()))
  {
    var st := Fold(cfg, prev, now, relY, N_KEYS_INPUT);
    forall k | 0 <= k < N_KEYS_INPUT
      ensures st.bits[k] == (now[k] && !(cfg.Wheel(k) && !prev[k]))
    {
      FoldBits(cfg, prev, now, relY, N_KEYS_INPUT, k);
    }
    forall code ensures code in Replay(held, st.Events()) <==> Shown(cfg, st.bits, code) {
      ReplayByLast(held, st.Events(), code);
      if k :| 0 <= k < N_KEYS_INPUT && cfg.Visible(k) && cfg.Code(k) == code {
        FoldSays(cfg, prev, now, relY, N_KEYS_INPUT, k);
        OnlyKey(cfg, prev, k);
        OnlyKey(cfg, st.bits, k);
      } else {
        FoldNotDown(cfg, prev, now, relY, N_KEYS_INPUT, code);
      }
    }
  }

  lemma OnlyKey(cfg: Config, keys: seq<bool>, k: nat)
    requires cfg.Valid() && Injective(cfg) && |keys| == N_KEYS_INPUT && k < N_KEYS_INPUT && cfg.Visible(k)
    ensures Shown(cfg, keys, cfg.Code(k)) <==> keys[k]
  {
    if Shown(cfg, keys, cfg.Code(k)) {
      var j :| 0 <= j < N_KEYS_INPUT && cfg.Visible(j) && keys[j] && cfg.Code(j) == cfg.Code(k);
      assert j == k;
    }
  }

  // ----- runs of reports

  /** What a device sends: its keys and how far the wheel went. */
  datatype Report = Report(keys: seq<bool>, relY: int)

  /** inputupdate turns the wheel's direction into two key bits. */
  function WithWheel(report: Report): (now: seq<bool>)
    requires |report.keys| == N_KEYS_INPUT
    ensures |now| == N_KEYS_INPUT
  {
    report.keys[MOUSE_EXTRA_FIRST := report.relY > 0][MOUSE_EXTRA_FIRST + 1 := report.relY < 0]
  }

  datatype Desk = Desk(keys: seq<bool>, held: set<int>)

  function Update(cfg: Config, desk: Desk, report: Report): (r: Desk)
    requires cfg.Valid() && |desk.keys| == |report.keys| == N_KEYS_INPUT
    ensures |r.keys| == N_KEYS_INPUT
  {
    var now := WithWheel(report);
    if now == desk.keys then desk
    else var st := Fold(cfg, desk.keys, now, report.relY, N_KEYS_INPUT);
         Desk(st.bits, Replay(desk.held, st.Events()))
  }

  function Updates(cfg: Config, desk: Desk, reports: seq<Report>): (r: Desk)
    requires cfg.Valid() && |desk.keys| == N_KEYS_INPUT
    requires forall i :: 0 <= i < |reports| ==> |reports[i].keys| == N_KEYS_INPUT
    ensures |r.keys| == N_KEYS_INPUT
  {
    if reports == [] then desk
    else Update(cfg, Updates(cfg, desk, reports[..|reports| - 1]), reports[|reports| - 1])
  }

  /** No report of the sequence makes line 419 leave the array. */
  ghost predicate AllWithin(cfg: Config, desk: Desk, reports: seq<Report>)
    requires cfg.Valid() && |desk.keys| == N_KEYS_INPUT
    requires forall i :: 0 <= i < |reports| ==> |reports[i].keys| == N_KEYS_INPUT
  {
    forall n :: 0 <= n < |reports| ==>
      Within(cfg, Updates(cfg, desk, reports[..n]).keys, WithWheel(reports[n]), reports[n].relY)
  }

  /** After any sequence of reports the virtual device holds exactly the codes of the keys
      that are down, and no wheel is. */
  lemma {:induction false} DeviceFollowsKeys(cfg: Config, desk: Desk, reports: seq<Report>)
    requires cfg.Valid() && |desk.keys| == N_KEYS_INPUT && Injective(cfg) && AllHarmless(cfg)
    requires WheelsUp(cfg, desk.keys) && Mirrors(cfg, desk.keys, desk.held)
    requires forall i :: 0 <= i < |reports| ==> |reports[i].keys| == N_KEYS_INPUT
    requires AllWithin(cfg, desk, reports)
    ensures var r := Updates(cfg, desk, reports);
      WheelsUp(cfg, r.keys) && Mirrors(cfg, r.keys, r.held)
  {
    if reports != [] {
      var n := |reports| - 1;
      assert forall i :: 0 <= i < n ==> reports[..n][..i] == reports[..i];
      DeviceFollowsKeys(cfg, desk, reports[..n]);
      var d := Updates(cfg, desk, reports[..n]);
      FoldMirrors(cfg, d.keys, WithWheel(reports[n]), reports[n].relY, d.held);
    }
  }

  // ----- exactly which bindings it takes

  lemma {:induction false} FoldIdle(cfg: Config, prev: seq<bool>, now: seq<bool>, relY: int, m: nat, n: nat)
    requires cfg.Valid() && |prev| == |now| == N_KEYS_INPUT && m <= n <= N_KEYS_INPUT
    requires forall i :: m <= i < n ==> prev[i] == now[i]
    ensures Fold(cfg, prev, now, relY, n) == Fold(cfg, prev, now, relY, m)
  {
    if m < n { FoldIdle(cfg, prev, now, relY, m, n - 1); }
  }

  function AllUp(): (keys: seq<bool>)
    ensures |keys| == N_KEYS_INPUT && forall k :: 0 <= k < N_KEYS_INPUT ==> !keys[k]
  {
    seq(N_KEYS_INPUT, _ => false)
  }

  /** A single key is pressed. */
  lemma FoldSingle(cfg: Config, k: nat, relY: int)
    requires cfg.Valid() && k < N_KEYS_INPUT
    ensures var now := AllUp()[k := true];
      && Fold(cfg, AllUp(), now, relY, k) == Start(now, relY)
      && Fold(cfg, AllUp(), now, relY, N_KEYS_INPUT) == Handle(cfg, Start(now, relY), k, true)
  {
    var now := AllUp()[k := true];
    FoldIdle(cfg, AllUp(), now, relY, 0, k);
    FoldIdle(cfg, AllUp(), now, relY, k + 1, N_KEYS_INPUT);
  }

  lemma FoldOne(cfg: Config, prev: seq<bool>, k: nat, relY: int)
    requires cfg.Valid() && |prev| == N_KEYS_INPUT && k < N_KEYS_INPUT
    ensures var now := prev[k := !prev[k]];
      Fold(cfg, prev, now, relY, N_KEYS_INPUT) == Handle(cfg, Start(now, relY), k, now[k])
  {
    var now := prev[k := !prev[k]];
    FoldIdle(cfg, prev, now, relY, 0, k);
    FoldIdle(cfg, prev, now, relY, k + 1, N_KEYS_INPUT);
  }

  /** `n` times a key-down and a key-up of one code. */
  ghost predicate Clicks(events: seq<int>, code: int, n: nat) {
    |events| == 2 * n && forall i :: 0 <= i < |events| ==> events[i] == if i % 2 == 0 then code + 1 else -(code + 1)
  }

  lemma {:induction false} TimesClicks(code: int, n: nat)
    ensures Clicks(Times([code + 1, -(code + 1)], n), code, n)
  {
    if n > 0 { TimesClicks(code, n - 1); }
  }

  lemma {:induction false} TimesFirst(pair: seq<int>, n: nat)
    ensures Times(pair, n + 1) == pair + Times(pair, n)
  {
    if n > 0 {
      TimesFirst(pair, n - 1);
      Assoc(pair, Times(pair, n - 1), pair);
    }
  }

  lemma OneEcho(cfg: Config, now: seq<bool>, k: nat, relY: int)
    requires cfg.Valid() && |now| == N_KEYS_INPUT && k < N_KEYS_INPUT && cfg.Visible(k)
    ensures var st := Echo(cfg, Start(now, relY), k, now[k]);
      && st.Events() == [Event(cfg.Code(k), now[k])] && st.relY == relY && st.bits == now
      && (now[k] ==> st.rmods == [] && st.mods + st.keys == [cfg.Code(k) + 1])
  {}

  lemma OneRelease(cfg: Config, prev: seq<bool>, k: nat, relY: int)
    requires cfg.Valid() && |prev| == N_KEYS_INPUT && k < N_KEYS_INPUT && cfg.Visible(k) && prev[k]
    ensures var st := Fold(cfg, prev, prev[k := false], relY, N_KEYS_INPUT);
      st.Events() == [-(cfg.Code(k) + 1)] && st.bits == prev[k := false]
  {
    FoldOne(cfg, prev, k, relY);
    OneEcho(cfg, prev[k := false], k, relY);
  }

  lemma OnePress(cfg: Config, prev: seq<bool>, k: nat, relY: int)
    requires cfg.Valid() && |prev| == N_KEYS_INPUT && k < N_KEYS_INPUT && cfg.Visible(k) && !prev[k]
    ensures var st := Echo(cfg, Start(prev[k := true], relY), k, true);
      && Fold(cfg, prev, prev[k := true], relY, N_KEYS_INPUT) == Finish(cfg, st, k)
      && st.bits == prev[k := true] && st.relY == relY && st.rmods == [] && st.mods + st.keys == [cfg.Code(k) + 1]
  {
    FoldOne(cfg, prev, k, relY);
    OneEcho(cfg, prev[k := true], k, relY);
  }

  lemma OneVolume(cfg: Config, prev: seq<bool>, k: nat, relY: int)
    requires cfg.Valid() && |prev| == N_KEYS_INPUT && k < N_KEYS_INPUT && cfg.Visible(k) && !prev[k] && cfg.VolOrCtrl(k)
    ensures var st := Fold(cfg, prev, prev[k := true], relY, N_KEYS_INPUT);
      st.Events() == [cfg.Code(k) + 1, -(cfg.Code(k) + 1)] && st.bits == prev
  {
    OnePress(cfg, prev, k, relY);
    CodeSign(cfg, k);
    var st := Echo(cfg, Start(prev[k := true], relY), k, true);
    assert st.mods + (st.keys + [-(cfg.Code(k) + 1)]) == st.mods + st.keys + [-(cfg.Code(k) + 1)];
  }

  lemma FinishVertical(cfg: Config, st: Lists, k: nat)
    requires cfg.Valid() && k < N_KEYS_INPUT == |st.bits| && cfg.Visible(k) && st.rmods == []
    requires !cfg.VolOrCtrl(k) && ScrollV(cfg.scans[k])
    ensures var r := Finish(cfg, st, k);
      && r.Events() == st.mods + Pulses(st.mods, st.keys, -(cfg.Code(k) + 1), if st.relY == 0 then 1 else Abs(st.relY))
      && r.bits == st.bits[k := false]
  {
    CodeSign(cfg, k);
  }

  lemma OneVertical(cfg: Config, prev: seq<bool>, k: nat, relY: int)
    requires cfg.Valid() && |prev| == N_KEYS_INPUT && k < N_KEYS_INPUT && cfg.Visible(k) && !prev[k]
    requires !cfg.VolOrCtrl(k) && ScrollV(cfg.scans[k])
    ensures var st := Fold(cfg, prev, prev[k := true], relY, N_KEYS_INPUT);
      Clicks(st.Events(), cfg.Code(k), if relY == 0 then 1 else Abs(relY)) && st.bits == prev
  {
    OnePress(cfg, prev, k, relY);
    VerticalClicks(cfg, prev, Echo(cfg, Start(prev[k := true], relY), k, true), k);
  }

  lemma VerticalClicks(cfg: Config, prev: seq<bool>, st: Lists, k: nat)
    requires cfg.Valid() && |prev| == N_KEYS_INPUT && k < N_KEYS_INPUT && cfg.Visible(k) && !prev[k]
    requires !cfg.VolOrCtrl(k) && ScrollV(cfg.scans[k])
    requires st.bits == prev[k := true] && st.rmods == [] && st.mods + st.keys == [cfg.Code(k) + 1]
    ensures var r := Finish(cfg, st, k);
      Clicks(r.Events(), cfg.Code(k), if st.relY == 0 then 1 else Abs(st.relY)) && r.bits == prev
  {
    FinishVertical(cfg, st, k);
    assert prev[k := true][k := false] == prev;
    WheelClicks(st.mods, st.keys, cfg.Code(k), if st.relY == 0 then 1 else Abs(st.relY));
  }

  /** One visible key changes.  A release sends a key-up and a press a key-down; a press of a
      volume or control wheel sends both, and a press of a vertical wheel both for every notch. */
  lemma OneKeyEvents(cfg: Config, prev: seq<bool>, k: nat, relY: int)
    requires cfg.Valid() && |prev| == N_KEYS_INPUT && k < N_KEYS_INPUT && cfg.Visible(k)
    ensures var c := if cfg.active then cfg.base[k] else cfg.scans[k];
      var st := Fold(cfg, prev, prev[k := !prev[k]], relY, N_KEYS_INPUT);
      if prev[k] then st.Events() == [-(c + 1)] && st.bits == prev[k := false]
      else if cfg.scans[k] in cfg.volumes || (cfg.bragi && (k == 116 || k == 130)) then st.Events() == [c + 1, -(c + 1)] && st.bits == prev
      else if cfg.scans[k] == 0x1f01 || cfg.scans[k] == 0x1f02 then
        Clicks(st.Events(), c, if relY == 0 then 1 else Abs(relY)) && st.bits == prev
      else st.Events() == [c + 1] && st.bits == prev[k := true]
  {
    if prev[k] { OneRelease(cfg, prev, k, relY); }
    else if cfg.VolOrCtrl(k) { OneVolume(cfg, prev, k, relY); }
    else if ScrollV(cfg.scans[k]) { OneVertical(cfg, prev, k, relY); }
    else { OnePress(cfg, prev, k, relY); }
  }

  lemma WheelClicks(mods: seq<int>, keys: seq<int>, code: int, n: nat)
    requires n >= 1 && mods + keys == [code + 1]
    ensures Clicks(mods + Pulses(mods, keys, -(code + 1), n), code, n)
  {
    var pair := [code + 1, -(code + 1)];
    PulsesShape(mods, keys, -(code + 1), n);
    assert [code + 1] + [-(code + 1)] == pair;
    TimesFirst(pair, n - 1);
    TimesClicks(code, n);
    assert Times(pair, 0) == [] && pair + [] == pair;
  }

  /** A key bound to -3 sends nothing, pressed or released, wheel or not; a wheel bound to -1
      sends an event 0 for every notch, which is none for any code. */
  lemma SilentKeys(cfg: Config, prev: seq<bool>, k: nat, relY: int)
    requires cfg.Valid() && |prev| == N_KEYS_INPUT && k < N_KEYS_INPUT
    ensures var c := if cfg.active then cfg.base[k] else cfg.scans[k];
      var st := Fold(cfg, prev, prev[k := !prev[k]], relY, N_KEYS_INPUT);
      && (c == -3 ==> st.Events() == [] && st.scrolled == [])
      && (c == -1 && !cfg.Wheel(k) ==> st.Events() == [] && st.scrolled == [])
      && (c == -1 && cfg.Wheel(k) && !prev[k] && Abs(relY) <= 1 ==> st.Events() == [0] && st.scrolled == [])
  {
    FoldOne(cfg, prev, k, relY);
    CodeSign(cfg, k);
  }

  /** A turned wheel presses key 250 or 251. */
  lemma WheelKeys(y: int)
    ensures |AllUp()| == 257
    ensures WithWheel(Report(AllUp(), y)) == if y > 0 then AllUp()[250 := true] else if y < 0 then AllUp()[251 := true] else AllUp()
  {}

  /** One notch, or one report of the key if it is not the mouse's own wheel. */
  function Notch(k: nat): (report: Report)
    requires k < N_KEYS_INPUT
    ensures |report.keys| == N_KEYS_INPUT && Abs(report.relY) <= 1
  {
    Report(AllUp()[k := true], if k == MOUSE_EXTRA_FIRST then 1 else if k == MOUSE_EXTRA_FIRST + 1 then -1 else 0)
  }

  /** Any wheel bound to any other silent code sends no key-down, and its key-up reads as the
      key-down of some code: one notch leaves that code pressed with no key down. */
  lemma SilentWheelSticks(cfg: Config, k: nat)
    requires cfg.Valid() && k < N_KEYS_INPUT && !Harmless(cfg, k)
    ensures WithWheel(Notch(k)) == AllUp()[k := true] && Within(cfg, AllUp(), AllUp()[k := true], Notch(k).relY)
    ensures Update(cfg, Desk(AllUp(), {}), Notch(k)) == Desk(AllUp(), {-cfg.Code(k) - 2})
  {
    CodeSign(cfg, k);
    var now, y := AllUp()[k := true], Notch(k).relY;
    assert WithWheel(Notch(k)) == now;
    FoldSingle(cfg, k, y);
    var st := Handle(cfg, Start(now, y), k, true);
    var up := Event(cfg.Code(k), false);
    assert st.Events() == [up];
    assert [up][..0] == [];
    assert Replay({}, []) == {};
    assert st.bits == AllUp();
    assert now[k] && !AllUp()[k];
  }

  /** One report leaves the virtual device as the keys are, if that is how it was. */
  ghost predicate Follows(cfg: Config, desk: Desk, report: Report)
    requires cfg.Valid() && |desk.keys| == |report.keys| == N_KEYS_INPUT
  {
    WheelsUp(cfg, desk.keys) && Mirrors(cfg, desk.keys, desk.held)
    && Within(cfg, desk.keys, WithWheel(report), report.relY) ==>
      WheelsUp(cfg, Update(cfg, desk, report).keys)
      && Mirrors(cfg, Update(cfg, desk, report).keys, Update(cfg, desk, report).held)
  }

  lemma NothingHeld(cfg: Config, held: set<int>)
    requires cfg.Valid()
    ensures WheelsUp(cfg, AllUp()) && (Mirrors(cfg, AllUp(), held) <==> held == {})
  {
    assert forall code :: !Shown(cfg, AllUp(), code);
    if Mirrors(cfg, AllUp(), held) {
      forall code ensures code !in held { assert code in held <==> Shown(cfg, AllUp(), code); }
      assert held == {};
    }
  }

  /** The virtual device follows the keys through every report if and only if no wheel is
      bound to a silent code other than the two. */
  lemma FollowsExactly(cfg: Config)
    requires cfg.Valid() && Injective(cfg)
    ensures AllHarmless(cfg) <==> forall desk: Desk, report: Report ::
      |desk.keys| == |report.keys| == N_KEYS_INPUT ==> Follows(cfg, desk, report)
  {
    if AllHarmless(cfg) {
      forall desk: Desk, report: Report | |desk.keys| == |report.keys| == N_KEYS_INPUT
        ensures Follows(cfg, desk, report)
      {
        if WheelsUp(cfg, desk.keys) && Mirrors(cfg, desk.keys, desk.held)
           && Within(cfg, desk.keys, WithWheel(report), report.relY) {
          FoldMirrors(cfg, desk.keys, WithWheel(report), report.relY, desk.held);
        }
      }
    } else {
      var k :| 0 <= k < N_KEYS_INPUT && !Harmless(cfg, k);
      SilentWheelSticks(cfg, k);
      NothingHeld(cfg, {});
      NothingHeld(cfg, {-cfg.Code(k) - 2});
      assert !Follows(cfg, Desk(AllUp(), {}), Notch(k));
    }
  }

  /** A vertical wheel that always has an event of its own to repeat, or repeats none. */
  predicate Speaks(cfg: Config, k: nat)
    requires k < |cfg.scans| && k < |cfg.base|
  {
    ScrollV(cfg.scans[k]) && !cfg.VolOrCtrl(k) ==> cfg.Visible(k) || ScrollV(cfg.Code(k)) || cfg.Code(k) == KEY_UNBOUND
  }

  /** Line 419 stays inside the array if the wheel moved by at most one notch, or if every
      vertical wheel that is newly pressed speaks. */
  lemma SpeakingWithin(cfg: Config, prev: seq<bool>, now: seq<bool>, relY: int)
    requires cfg.Valid() && |prev| == |now| == N_KEYS_INPUT
    requires Abs(relY) <= 1 || forall k :: 0 <= k < N_KEYS_INPUT && !prev[k] && now[k] ==> Speaks(cfg, k)
    ensures Within(cfg, prev, now, relY)
  {
    forall k | 0 <= k < N_KEYS_INPUT && !prev[k] && now[k]
      ensures InArray(cfg, Echo(cfg, Fold(cfg, prev, now, relY, k), k, true), k)
    {
      RelYBound(cfg, prev, now, relY, k);
      SpeaksInArray(cfg, Fold(cfg, prev, now, relY, k), k, relY);
    }
  }

  lemma SpeaksInArray(cfg: Config, st: Lists, k: nat, relY: int)
    requires cfg.Valid() && k < N_KEYS_INPUT && (st.relY == relY || Abs(st.relY) <= 1)
    requires Abs(relY) <= 1 || Speaks(cfg, k)
    ensures InArray(cfg, Echo(cfg, st, k, true), k)
  {}

  /** The key that a moved wheel presses. */
  function MovedWheel(relY: int): nat {
    if relY > 0 then MOUSE_EXTRA_FIRST else MOUSE_EXTRA_FIRST + 1
  }

  /** Only the mouse's own two wheel keys scroll vertically, as in every key map. */
  predicate OwnWheels(cfg: Config) {
    forall k :: 0 <= k < |cfg.scans| && ScrollV(cfg.scans[k]) ==> k == MOUSE_EXTRA_FIRST || k == MOUSE_EXTRA_FIRST + 1
  }

  /** A wheel that does not speak, turned by several notches with nothing else, makes line 419
      read before the array. */
  lemma MuteWheelOutside(cfg: Config, relY: int)
    requires cfg.Valid() && Abs(relY) > 1 && !Speaks(cfg, MovedWheel(relY))
    ensures !Within(cfg, AllUp(), WithWheel(Report(AllUp(), relY)), relY)
  {
    var k := MovedWheel(relY);
    var now := AllUp()[k := true];
    assert WithWheel(Report(AllUp(), relY)) == now;
    FoldSingle(cfg, k, relY);
    assert !AllUp()[k] && now[k];
    assert !InArray(cfg, Echo(cfg, Start(now, relY), k, true), k);
  }

  /** A report of this turn of the wheel, from any keys with the wheels up. */
  ghost predicate TurnWithin(cfg: Config, prev: seq<bool>, report: Report)
    requires cfg.Valid() && |prev| == |report.keys| == N_KEYS_INPUT
  {
    WheelsUp(cfg, prev) ==> Within(cfg, prev, WithWheel(report), report.relY)
  }

  lemma TurnsWithin(cfg: Config, prev: seq<bool>, report: Report)
    requires cfg.Valid() && OwnWheels(cfg) && |prev| == |report.keys| == N_KEYS_INPUT
    requires Abs(report.relY) <= 1 || Speaks(cfg, MovedWheel(report.relY))
    ensures TurnWithin(cfg, prev, report)
  {
    var now := WithWheel(report);
    forall k | 0 <= k < N_KEYS_INPUT && !prev[k] && now[k] && Abs(report.relY) > 1 ensures Speaks(cfg, k) {
      assert k == MOUSE_EXTRA_FIRST ==> report.relY > 0;
      assert k == MOUSE_EXTRA_FIRST + 1 ==> report.relY < 0;
    }
    SpeakingWithin(cfg, prev, now, report.relY);
  }

  /** Over all reports with this turn of the wheel, line 419 stays inside the array if and only
      if the turn is at most one notch or the wheel key it presses speaks. */
  lemma WithinExactly(cfg: Config, relY: int)
    requires cfg.Valid() && OwnWheels(cfg)
    ensures (forall prev: seq<bool>, report: Report ::
               |prev| == |report.keys| == N_KEYS_INPUT && report.relY == relY ==> TurnWithin(cfg, prev, report))
            <==> Abs(relY) <= 1 || Speaks(cfg, MovedWheel(relY))
  {
    if Abs(relY) <= 1 || Speaks(cfg, MovedWheel(relY)) {
      forall prev: seq<bool>, report: Report | |prev| == |report.keys| == N_KEYS_INPUT && report.relY == relY
        ensures TurnWithin(cfg, prev, report)
      {
        TurnsWithin(cfg, prev, report);
      }
    } else {
      MuteWheelOutside(cfg, relY);
      NothingHeld(cfg, {});
      assert !TurnWithin(cfg, AllUp(), Report(AllUp(), relY));
    }
  }
}
