/** The scrolling that a report sends out: codes of the four wheel directions do not become
    events but movements of the wheel axes. */
module InputScrolls {
  import opened InputEvents

  predicate ScrollCoded(cfg: Config, k: nat)
    requires k < |cfg.scans| && k < |cfg.base|
  {
    cfg.Code(k) in {BTN_WHEELUP, BTN_WHEELDOWN, BTN_WHEELLEFT, BTN_WHEELRIGHT}
  }

  /** Changed keys below `n` that scroll, in key order.  A release scrolls as well as a press. */
  function ScrollKeys(cfg: Config, prev: seq<bool>, now: seq<bool>, n: nat): (ks: seq<nat>)
    requires cfg.Valid() && |prev| == |now| == N_KEYS_INPUT && n <= N_KEYS_INPUT
    ensures forall i :: 0 <= i < |ks| ==> ks[i] < n
  {
    if n == 0 then []
    else
      var ks := ScrollKeys(cfg, prev, now, n - 1);
      if prev[n - 1] != now[n - 1] && ScrollCoded(cfg, n - 1) then ks + [n - 1] else ks
  }

  ghost predicate Rising(ks: seq<nat>) {
    forall i, j :: 0 <= i < j < |ks| ==> ks[i] < ks[j]
  }

  lemma {:induction false} ScrollKeysOrdered(cfg: Config, prev: seq<bool>, now: seq<bool>, n: nat)
    requires cfg.Valid() && |prev| == |now| == N_KEYS_INPUT && n <= N_KEYS_INPUT
    ensures Rising(ScrollKeys(cfg, prev, now, n))
  {
    if n > 0 {
      ScrollKeysOrdered(cfg, prev, now, n - 1);
      RisingSnoc(ScrollKeys(cfg, prev, now, n - 1), n - 1);
    }
  }

  lemma RisingSnoc(ks: seq<nat>, k: nat)
    requires Rising(ks) && forall i :: 0 <= i < |ks| ==> ks[i] < k
    ensures Rising(ks + [k])
  {}

  lemma {:induction false} ScrollKeysAll(cfg: Config, prev: seq<bool>, now: seq<bool>, n: nat, k: nat)
    requires cfg.Valid() && |prev| == |now| == N_KEYS_INPUT && n <= N_KEYS_INPUT && k < N_KEYS_INPUT
    ensures k in ScrollKeys(cfg, prev, now, n) <==> k < n && prev[k] != now[k] && ScrollCoded(cfg, k)
  {
    if n > 0 { ScrollKeysAll(cfg, prev, now, n - 1, k); }
  }

  /** The direction that a changed key gives to a vertical axis that has none. */
  function Direction(cfg: Config, k: nat, down: bool): int
    requires k < |cfg.scans| && k < |cfg.base|
  {
    if cfg.Code(k) == BTN_WHEELUP then 1
    else if cfg.Code(k) == BTN_WHEELDOWN then -1
    else if down && ScrollV(cfg.scans[k]) && !cfg.VolOrCtrl(k) && cfg.Code(k) != KEY_UNBOUND then 1
    else 0
  }

  /** The vertical axis when the keys below `n` are done: as reported, or by the first of them
      that gives it a direction. */
  function AxisAt(cfg: Config, prev: seq<bool>, now: seq<bool>, y: int, n: nat): int
    requires cfg.Valid() && |prev| == |now| == N_KEYS_INPUT && n <= N_KEYS_INPUT
  {
    if n == 0 then y
    else
      var a := AxisAt(cfg, prev, now, y, n - 1);
      if a != 0 || prev[n - 1] == now[n - 1] then a else Direction(cfg, n - 1, now[n - 1])
  }

  /** What key `k` scrolls when the vertical axis is `a`: horizontally and vertically. */
  function Turn(cfg: Config, k: nat, a: int): (int, int)
    requires k < |cfg.scans| && k < |cfg.base|
  {
    if cfg.Code(k) == BTN_WHEELUP then (0, if a == 0 then 1 else a)
    else if cfg.Code(k) == BTN_WHEELDOWN then (0, if a == 0 then -1 else a)
    else if ScrollV(cfg.scans[k]) then (a, 0)
    else if cfg.Code(k) == BTN_WHEELLEFT then (-1, 0)
    else (1, 0)
  }

  /** One movement for each of those keys. */
  function Scrolls(cfg: Config, prev: seq<bool>, now: seq<bool>, y: int, n: nat): (r: seq<(int, int)>)
    requires cfg.Valid() && |prev| == |now| == N_KEYS_INPUT && n <= N_KEYS_INPUT
  {
    var ks := ScrollKeys(cfg, prev, now, n);
    seq(|ks|, j requires 0 <= j < |ks| => Turn(cfg, ks[j], AxisAt(cfg, prev, now, y, ks[j])))
  }

  lemma ScrollsNext(cfg: Config, prev: seq<bool>, now: seq<bool>, y: int, n: nat)
    requires cfg.Valid() && |prev| == |now| == N_KEYS_INPUT && n < N_KEYS_INPUT
    ensures Scrolls(cfg, prev, now, y, n + 1)
            == if prev[n] != now[n] && ScrollCoded(cfg, n)
               then Scrolls(cfg, prev, now, y, n) + [Turn(cfg, n, AxisAt(cfg, prev, now, y, n))]
               else Scrolls(cfg, prev, now, y, n)
  {}

  lemma ScrollCodes(code: int)
    ensures ScrollV(code) <==> code == BTN_WHEELUP || code == BTN_WHEELDOWN
    ensures ScrollH(code) <==> code == BTN_WHEELLEFT || code == BTN_WHEELRIGHT
    ensures ScrollV(code) || ScrollH(code) ==> !Silent(code)
  {}

  /** One key that changes. */
  lemma HandleScrolls(cfg: Config, st: Lists, k: nat, down: bool)
    requires cfg.Valid() && k < N_KEYS_INPUT == |st.bits|
    ensures var r := Handle(cfg, st, k, down);
      && r.relY == (if st.relY != 0 then st.relY else Direction(cfg, k, down))
      && r.scrolled == (if ScrollCoded(cfg, k) then st.scrolled + [Turn(cfg, k, st.relY)] else st.scrolled)
  {
    ScrollCodes(cfg.Code(k));
    assert cfg.Code(k) in cfg.mods ==> !ScrollV(cfg.Code(k)) && !ScrollH(cfg.Code(k));
  }

  /** For every report, wheel and key map: there is one movement for every changed key that is
      bound to scrolling, in key order, with its direction and length. */
  lemma {:induction false} ScrollsExactly(cfg: Config, prev: seq<bool>, now: seq<bool>, y: int, n: nat)
    requires cfg.Valid() && |prev| == |now| == N_KEYS_INPUT && n <= N_KEYS_INPUT
    ensures Fold(cfg, prev, now, y, n).relY == AxisAt(cfg, prev, now, y, n)
    ensures Fold(cfg, prev, now, y, n).scrolled == Scrolls(cfg, prev, now, y, n)
  {
    if n > 0 {
      ScrollsExactly(cfg, prev, now, y, n - 1);
      ScrollsNext(cfg, prev, now, y, n - 1);
      if prev[n - 1] != now[n - 1] {
        HandleScrolls(cfg, Fold(cfg, prev, now, y, n - 1), n - 1, now[n - 1]);
      }
    }
  }

  /** A turn that the mouse reports is the same for all keys. */
  lemma {:induction false} AxisKept(cfg: Config, prev: seq<bool>, now: seq<bool>, y: int, n: nat)
    requires cfg.Valid() && |prev| == |now| == N_KEYS_INPUT && n <= N_KEYS_INPUT && y != 0
    ensures AxisAt(cfg, prev, now, y, n) == y
  {
    if n > 0 { AxisKept(cfg, prev, now, y, n - 1); }
  }

  /** One key changes and nothing else. */
  lemma ScrollsSingle(cfg: Config, prev: seq<bool>, k: nat, y: int)
    requires cfg.Valid() && |prev| == N_KEYS_INPUT && k < N_KEYS_INPUT
    ensures Scrolls(cfg, prev, prev[k := !prev[k]], y, N_KEYS_INPUT) == if ScrollCoded(cfg, k) then [Turn(cfg, k, y)] else []
  {
    var now := prev[k := !prev[k]];
    ScrollsQuiet(cfg, prev, now, y, 0, k);
    ScrollsNext(cfg, prev, now, y, k);
    ScrollsQuiet(cfg, prev, now, y, k + 1, N_KEYS_INPUT);
  }

  lemma {:induction false} ScrollsQuiet(cfg: Config, prev: seq<bool>, now: seq<bool>, y: int, m: nat, n: nat)
    requires cfg.Valid() && |prev| == |now| == N_KEYS_INPUT && m <= n <= N_KEYS_INPUT
    requires forall i :: m <= i < n ==> prev[i] == now[i]
    ensures Scrolls(cfg, prev, now, y, n) == Scrolls(cfg, prev, now, y, m)
    ensures AxisAt(cfg, prev, now, y, n) == AxisAt(cfg, prev, now, y, m)
  {
    if m < n {
      ScrollsQuiet(cfg, prev, now, y, m, n - 1);
      ScrollsNext(cfg, prev, now, y, n - 1);
    }
  }

  /** What the whole scan sends out; nothing if no key changed. */
  lemma ReportScrolls(cfg: Config, prev: seq<bool>, now: seq<bool>, y: int)
    requires cfg.Valid() && |prev| == |now| == N_KEYS_INPUT
    ensures Fold(cfg, prev, now, y, N_KEYS_INPUT).scrolled == Scrolls(cfg, prev, now, y, N_KEYS_INPUT)
    ensures prev == now ==> Scrolls(cfg, prev, now, y, N_KEYS_INPUT) == []
  {
    ScrollsExactly(cfg, prev, now, y, N_KEYS_INPUT);
    if prev == now { ScrollsQuiet(cfg, prev, now, y, 0, N_KEYS_INPUT); }
  }

  /** A key of a device without a turned wheel scrolls one notch in its direction, when pressed
      and again when released; a vertical wheel turned by `y` scrolls by `y`, vertically or, bound
      to a horizontal direction, horizontally. */
  lemma OneKeyScrolls(cfg: Config, prev: seq<bool>, k: nat, y: int)
    requires cfg.Valid() && |prev| == N_KEYS_INPUT && k < N_KEYS_INPUT
    ensures var s := Fold(cfg, prev, prev[k := !prev[k]], y, N_KEYS_INPUT).scrolled;
      && (cfg.Code(k) == 0x1f01 && y == 0 ==> s == [(0, 1)])
      && (cfg.Code(k) == 0x1f02 && y == 0 ==> s == [(0, -1)])
      && (cfg.Code(k) == 0x1f03 && !ScrollV(cfg.scans[k]) ==> s == [(-1, 0)])
      && (cfg.Code(k) == 0x1f04 && !ScrollV(cfg.scans[k]) ==> s == [(1, 0)])
      && (cfg.Code(k) in {0x1f01, 0x1f02} && y != 0 ==> s == [(0, y)])
      && (cfg.Code(k) in {0x1f03, 0x1f04} && cfg.scans[k] in {0x1f01, 0x1f02} ==> s == [(y, 0)])
      && (cfg.Code(k) !in {0x1f01, 0x1f02, 0x1f03, 0x1f04} ==> s == [])
  {
    ScrollsExactly(cfg, prev, prev[k := !prev[k]], y, N_KEYS_INPUT);
    ScrollsSingle(cfg, prev, k, y);
  }

  lemma FirstTurns(cfg: Config, prev: seq<bool>, now: seq<bool>, j: nat)
    requires cfg.Valid() && |prev| == |now| == N_KEYS_INPUT && j < N_KEYS_INPUT
    requires (forall i :: 0 <= i < j ==> prev[i] == now[i]) && prev[j] != now[j] && cfg.Code(j) == BTN_WHEELUP
    ensures Scrolls(cfg, prev, now, 0, j + 1) == [(0, 1)] && AxisAt(cfg, prev, now, 0, j + 1) == 1
  {
    ScrollsQuiet(cfg, prev, now, 0, 0, j);
    ScrollsNext(cfg, prev, now, 0, j);
  }

  /** Two keys bound to opposite directions that change in one report both scroll in the
      direction of the first: it has turned the axis. */
  lemma OppositeKeys(cfg: Config, prev: seq<bool>, now: seq<bool>, j: nat, k: nat)
    requires cfg.Valid() && |prev| == |now| == N_KEYS_INPUT && j < k < N_KEYS_INPUT
    requires forall i :: 0 <= i < N_KEYS_INPUT ==> (prev[i] != now[i] <==> i == j || i == k)
    requires cfg.Code(j) == BTN_WHEELUP && cfg.Code(k) == BTN_WHEELDOWN
    ensures Fold(cfg, prev, now, 0, N_KEYS_INPUT).scrolled == [(0, 1), (0, 1)]
  {
    FirstTurns(cfg, prev, now, j);
    ScrollsQuiet(cfg, prev, now, 0, j + 1, k);
    ScrollsNext(cfg, prev, now, 0, k);
    ScrollsQuiet(cfg, prev, now, 0, k + 1, N_KEYS_INPUT);
    ScrollsExactly(cfg, prev, now, 0, N_KEYS_INPUT);
  }
}
