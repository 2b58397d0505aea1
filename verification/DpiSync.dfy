/** The DPI synchroniser of dpi.c: a cache of what the mouse was told last, and the packets
    that take mouse and cache to what the current mode asks for.

    Bit fields of stages are sets of stage numbers. */
module DpiSync {

  const DPI_COUNT := 6

  datatype Dpi = Dpi(x: seq<int>, y: seq<int>, current: nat, enabled: set<nat>, lift: int, snap: int,
                     forceupdate: bool)
  {
    predicate Valid() {
      && |x| == |y| == DPI_COUNT
      && forall i :: 0 <= i < DPI_COUNT ==> 0 <= x[i] < 0x10000 && 0 <= y[i] < 0x10000
    }
  }

  /** The device, as far as these packets reach. */
  datatype Mouse = Mouse(x: seq<int>, y: seq<int>, current: nat, enabled: set<nat>, lift: int, snap: int)

  datatype Packet =
    | Mask(stages: set<nat>)
    | Profile(stage: nat, independent: bool, xlo: int, xhi: int, ylo: int, yhi: int)
    | Current(stage: nat)
    | Lift(height: int)
    | Snap(on: int)

  /** The mouse takes Y from the packet only if the packet says that the axes are independent. */
  function Receive(m: Mouse, p: Packet): Mouse {
    match p
    case Mask(stages) => m.(enabled := stages)
    case Profile(i, ind, xlo, xhi, ylo, yhi) =>
      if i < |m.x| && i < |m.y| then
        var x := xlo + 256 * xhi;
        m.(x := m.x[i := x], y := m.y[i := if ind then ylo + 256 * yhi else x])
      else m
    case Current(i) => m.(current := i)
    case Lift(h) => m.(lift := h)
    case Snap(s) => m.(snap := s)
  }

  function After(m: Mouse, ps: seq<Packet>): Mouse {
    if ps == [] then m else Receive(After(m, ps[..|ps| - 1]), ps[|ps| - 1])
  }

  function ProfilePacket(d: Dpi, i: nat): Packet
    requires i < |d.x| && i < |d.y|
  {
    Profile(i, d.x[i] != d.y[i], d.x[i] % 256, (d.x[i] / 256) % 256, d.y[i] % 256, (d.y[i] / 256) % 256)
  }

  // ----- the packets of one update

  function If(b: bool, p: Packet): seq<Packet> { if b then [p] else [] }

  predicate Switching(last: Dpi, new_: Dpi, force: bool) { new_.current != last.current || force }

  /** Enabling the new stage is needed before switching to it. */
  predicate Enabling(last: Dpi, new_: Dpi, force: bool) {
    Switching(last, new_, force) && (new_.current !in last.enabled || force)
  }

  /** Both stages stay enabled until the switch has happened. */
  function Interim(last: Dpi, new_: Dpi): set<nat> {
    if new_.current in new_.enabled && last.current in new_.enabled then new_.enabled
    else last.enabled + {new_.current}
  }

  predicate Differs(last: Dpi, new_: Dpi, force: bool, i: nat)
    requires last.Valid() && new_.Valid() && i < DPI_COUNT
  {
    new_.x[i] != last.x[i] || new_.y[i] != last.y[i] || force
  }

  predicate Presetting(last: Dpi, new_: Dpi, force: bool)
    requires last.Valid() && new_.Valid() && new_.current < DPI_COUNT
  {
    Switching(last, new_, force) && Differs(last, new_, force, new_.current)
  }

  /** The cache once the stage is ready to be switched to. */
  function Prepared(last: Dpi, new_: Dpi, force: bool): (d: Dpi)
    requires last.Valid() && new_.Valid() && new_.current < DPI_COUNT
    ensures d.Valid()
  {
    var d := if Enabling(last, new_, force) then last.(enabled := Interim(last, new_)) else last;
    var c := new_.current;
    if Presetting(last, new_, force) then d.(x := d.x[c := new_.x[c]], y := d.y[c := new_.y[c]]) else d
  }

  function Prepare(last: Dpi, new_: Dpi, force: bool): seq<Packet>
    requires last.Valid() && new_.Valid() && new_.current < DPI_COUNT
  {
    If(Enabling(last, new_, force), Mask(Interim(last, new_)))
    + If(Presetting(last, new_, force), ProfilePacket(new_, new_.current))
  }

  function Profiles(last: Dpi, new_: Dpi, force: bool, n: nat): seq<Packet>
    requires last.Valid() && new_.Valid() && n <= DPI_COUNT
  {
    if n == 0 then []
    else Profiles(last, new_, force, n - 1) + If(Differs(last, new_, force, n - 1), ProfilePacket(new_, n - 1))
  }

  function Settings(last: Dpi, new_: Dpi, force: bool): seq<Packet> {
    If(new_.enabled != last.enabled || force, Mask(new_.enabled))
    + If(new_.lift != last.lift || force, Lift(new_.lift))
    + If(new_.snap != last.snap || force, Snap(new_.snap))
  }

  /** What follows the preparation: the switch and everything after it. */
  function Rest(last: Dpi, new_: Dpi, force: bool): seq<Packet>
    requires last.Valid() && new_.Valid() && new_.current < DPI_COUNT
  {
    var d := Prepared(last, new_, force);
    If(Switching(last, new_, force), Current(new_.current)) + Profiles(d, new_, force, DPI_COUNT) + Settings(d, new_, force)
  }

  function Plan(last: Dpi, new_: Dpi, force: bool): seq<Packet>
    requires last.Valid() && new_.Valid() && new_.current < DPI_COUNT
  {
    Prepare(last, new_, force) + Rest(last, new_, force)
  }

  /** The cache after the first `n` packets of an update that goes no further. */
  function CacheAt(last: Dpi, new_: Dpi, force: bool, n: nat): (d: Dpi)
    requires last.Valid() && new_.Valid() && new_.current < DPI_COUNT
    ensures d.Valid()
  {
    var e := |If(Enabling(last, new_, force), Mask(Interim(last, new_)))|;
    if n >= |Prepare(last, new_, force)| then Prepared(last, new_, force)
    else if n >= e && Enabling(last, new_, force) then last.(enabled := Interim(last, new_))
    else last
  }

  // ----- meaning

  ghost predicate Mirrors(d: Dpi, m: Mouse) {
    m == Mouse(d.x, d.y, d.current, d.enabled, d.lift, d.snap)
  }

  ghost predicate Safe(m: Mouse) { m.current in m.enabled }

  lemma {:induction false} AfterConcat(m: Mouse, a: seq<Packet>, b: seq<Packet>)
    ensures After(m, a + b) == After(After(m, a), b)
  {
    if b == [] {
      assert a + b == a;
    } else {
      assert (a + b)[..|a + b| - 1] == a + b[..|b| - 1];
      AfterConcat(m, a, b[..|b| - 1]);
    }
  }

  lemma AfterIf(m: Mouse, b: bool, p: Packet)
    ensures After(m, If(b, p)) == if b then Receive(m, p) else m
  {
    assert [p][..0] == [];
  }

  /** The two bytes of each axis carry it whole, and with equal axes one is enough. */
  lemma ProfileArrives(m: Mouse, d: Dpi, i: nat)
    requires d.Valid() && i < DPI_COUNT == |m.x| == |m.y|
    ensures Receive(m, ProfilePacket(d, i)) == m.(x := m.x[i := d.x[i]], y := m.y[i := d.y[i]])
  {
    assert d.x[i] / 256 < 256 && d.y[i] / 256 < 256;
  }

  /** The bytes of the packet: both axes low byte first, and a flag that they differ. */
  lemma ProfileBytes(d: Dpi, i: nat)
    requires d.Valid() && i < DPI_COUNT
    ensures var p := ProfilePacket(d, i);
      && p.stage == i && (p.independent <==> d.x[i] != d.y[i])
      && 0 <= p.xlo < 256 && 0 <= p.xhi < 256 && p.xlo + 256 * p.xhi == d.x[i]
      && 0 <= p.ylo < 256 && 0 <= p.yhi < 256 && p.ylo + 256 * p.yhi == d.y[i]
  {}

  /** A forced update sends everything, and in this order. */
  lemma ForcedPlan(last: Dpi, d: Dpi)
    requires last.Valid() && d.Valid() && d.current < DPI_COUNT
    ensures Plan(last, d, true) ==
      [Mask(if d.current in d.enabled && last.current in d.enabled then d.enabled else last.enabled + {d.current}),
       ProfilePacket(d, d.current), Current(d.current),
       ProfilePacket(d, 0), ProfilePacket(d, 1), ProfilePacket(d, 2), ProfilePacket(d, 3), ProfilePacket(d, 4), ProfilePacket(d, 5),
       Mask(d.enabled), Lift(d.lift), Snap(d.snap)]
  {
    AllProfiles(Prepared(last, d, true), d);
  }

  lemma AllProfiles(last: Dpi, d: Dpi)
    requires last.Valid() && d.Valid()
    ensures Profiles(last, d, true, 6) ==
      [ProfilePacket(d, 0), ProfilePacket(d, 1), ProfilePacket(d, 2), ProfilePacket(d, 3), ProfilePacket(d, 4), ProfilePacket(d, 5)]
  {
    assert Profiles(last, d, true, 0) == [];
    assert Profiles(last, d, true, 1) == [ProfilePacket(d, 0)];
    assert Profiles(last, d, true, 2) == [ProfilePacket(d, 0), ProfilePacket(d, 1)];
    assert Profiles(last, d, true, 3) == [ProfilePacket(d, 0), ProfilePacket(d, 1), ProfilePacket(d, 2)];
    assert Profiles(last, d, true, 4) == [ProfilePacket(d, 0), ProfilePacket(d, 1), ProfilePacket(d, 2), ProfilePacket(d, 3)];
    assert Profiles(last, d, true, 5) == Profiles(last, d, true, 4) + [ProfilePacket(d, 4)];
  }

  function Masks(ps: seq<Packet>): seq<Packet> {
    if ps == [] then [] else (if ps[0].Mask? then [ps[0]] else []) + Masks(ps[1..])
  }

  /** How often stage `i` is sent. */
  function Times(ps: seq<Packet>, i: nat): nat {
    if ps == [] then 0 else (if ps[0].Profile? && ps[0].stage == i then 1 else 0) + Times(ps[1..], i)
  }

  lemma {:induction false} MasksConcat(a: seq<Packet>, b: seq<Packet>)
    ensures Masks(a + b) == Masks(a) + Masks(b)
  {
    if a == [] {
      assert a + b == b;
    } else {
      assert (a + b)[1..] == a[1..] + b;
      MasksConcat(a[1..], b);
      Associative(if a[0].Mask? then [a[0]] else [], Masks(a[1..]), Masks(b));
    }
  }

  lemma Associative(a: seq<Packet>, b: seq<Packet>, c: seq<Packet>)
    ensures a + (b + c) == a + b + c
  {}

  lemma {:induction false} TimesConcat(a: seq<Packet>, b: seq<Packet>, i: nat)
    ensures Times(a + b, i) == Times(a, i) + Times(b, i)
  {
    if a == [] {
      assert a + b == b;
    } else {
      assert (a + b)[1..] == a[1..] + b;
      TimesConcat(a[1..], b, i);
    }
  }

  lemma OnePacket(p: Packet, i: nat)
    ensures Masks([p]) == (if p.Mask? then [p] else [])
    ensures Times([p], i) == if p.Profile? && p.stage == i then 1 else 0
  {
    assert [p][1..] == [];
  }

  lemma OneProfilePacket(b: bool, d: Dpi, k: nat, i: nat)
    requires d.Valid() && k < DPI_COUNT
    ensures Masks(If(b, ProfilePacket(d, k))) == [] && Times(If(b, ProfilePacket(d, k)), i) == if b && k == i then 1 else 0
  {
    OnePacket(ProfilePacket(d, k), i);
  }

  lemma {:induction false} ProfilesCount(d: Dpi, new_: Dpi, n: nat, i: nat)
    requires d.Valid() && new_.Valid() && n <= DPI_COUNT && i < DPI_COUNT
    ensures Masks(Profiles(d, new_, false, n)) == []
    ensures Times(Profiles(d, new_, false, n), i) == if i < n && Differs(d, new_, false, i) then 1 else 0
  {
    if n > 0 {
      ProfilesCount(d, new_, n - 1, i);
      CountBehind(Profiles(d, new_, false, n - 1), Differs(d, new_, false, n - 1), new_, n - 1, i);
    }
  }

  lemma CountBehind(ps: seq<Packet>, b: bool, d: Dpi, k: nat, i: nat)
    requires d.Valid() && k < DPI_COUNT
    ensures Masks(ps + If(b, ProfilePacket(d, k))) == Masks(ps)
    ensures Times(ps + If(b, ProfilePacket(d, k)), i) == Times(ps, i) + if b && k == i then 1 else 0
  {
    MasksConcat(ps, If(b, ProfilePacket(d, k)));
    TimesConcat(ps, If(b, ProfilePacket(d, k)), i);
    OneProfilePacket(b, d, k, i);
  }

  lemma SettingsCount(d: Dpi, new_: Dpi, i: nat)
    ensures Masks(Settings(d, new_, false)) == If(new_.enabled != d.enabled, Mask(new_.enabled)) && Times(Settings(d, new_, false), i) == 0
  {
    var a, b, c := If(new_.enabled != d.enabled, Mask(new_.enabled)), If(new_.lift != d.lift, Lift(new_.lift)), If(new_.snap != d.snap, Snap(new_.snap));
    MasksConcat(a + b, c);
    MasksConcat(a, b);
    TimesConcat(a + b, c, i);
    TimesConcat(a, b, i);
    OnePacket(Mask(new_.enabled), i);
    OnePacket(Lift(new_.lift), i);
    OnePacket(Snap(new_.snap), i);
  }

  lemma PrepareCount(last: Dpi, new_: Dpi, i: nat)
    requires last.Valid() && new_.Valid() && new_.current < DPI_COUNT && i < DPI_COUNT
    ensures Masks(Prepare(last, new_, false)) == If(Enabling(last, new_, false), Mask(Interim(last, new_)))
    ensures Times(Prepare(last, new_, false), i) == if i == new_.current && Presetting(last, new_, false) then 1 else 0
  {
    var a, b := If(Enabling(last, new_, false), Mask(Interim(last, new_))), If(Presetting(last, new_, false), ProfilePacket(new_, new_.current));
    MasksConcat(a, b);
    TimesConcat(a, b, i);
    OnePacket(Mask(Interim(last, new_)), i);
    OnePacket(ProfilePacket(new_, new_.current), i);
  }

  lemma RestCount(last: Dpi, new_: Dpi, i: nat)
    requires last.Valid() && new_.Valid() && new_.current < DPI_COUNT && i < DPI_COUNT
    ensures var d := Prepared(last, new_, false);
      && Masks(Rest(last, new_, false)) == If(new_.enabled != d.enabled, Mask(new_.enabled))
      && Times(Rest(last, new_, false), i) == if Differs(d, new_, false, i) then 1 else 0
  {
    var d := Prepared(last, new_, false);
    var a, b, c := If(Switching(last, new_, false), Current(new_.current)), Profiles(d, new_, false, DPI_COUNT), Settings(d, new_, false);
    MasksConcat(a + b, c);
    MasksConcat(a, b);
    TimesConcat(a + b, c, i);
    TimesConcat(a, b, i);
    OnePacket(Current(new_.current), i);
    ProfilesCount(d, new_, DPI_COUNT, i);
    SettingsCount(d, new_, i);
  }

  /** An unforced update sends every stage that differs once and no other.  It changes the enabled
      stages at most once, unless a disabled stage has to be enabled before the switch and the old
      one is to be disabled after it. */
  lemma NothingTwice(last: Dpi, new_: Dpi, i: nat)
    requires last.Valid() && new_.Valid() && new_.current < DPI_COUNT && i < DPI_COUNT
    ensures Times(Plan(last, new_, false), i) == if new_.x[i] != last.x[i] || new_.y[i] != last.y[i] then 1 else 0
    ensures var c := new_.current;
      Masks(Plan(last, new_, false)) ==
        if c == last.current || c in last.enabled then (if new_.enabled != last.enabled then [Mask(new_.enabled)] else [])
        else if c in new_.enabled && last.current in new_.enabled then [Mask(new_.enabled)]
        else if new_.enabled == last.enabled + {c} then [Mask(new_.enabled)]
        else [Mask(last.enabled + {c}), Mask(new_.enabled)]
  {
    TimesConcat(Prepare(last, new_, false), Rest(last, new_, false), i);
    MasksConcat(Prepare(last, new_, false), Rest(last, new_, false));
    PrepareCount(last, new_, i);
    RestCount(last, new_, i);
  }

  lemma PrepareMirrors(last: Dpi, new_: Dpi, force: bool, m: Mouse)
    requires last.Valid() && new_.Valid() && new_.current < DPI_COUNT && Mirrors(last, m)
    ensures Mirrors(Prepared(last, new_, force), After(m, Prepare(last, new_, force)))
  {
    var a := If(Enabling(last, new_, force), Mask(Interim(last, new_)));
    var b := If(Presetting(last, new_, force), ProfilePacket(new_, new_.current));
    AfterConcat(m, a, b);
    AfterIf(m, Enabling(last, new_, force), Mask(Interim(last, new_)));
    var m1 := After(m, a);
    AfterIf(m1, Presetting(last, new_, force), ProfilePacket(new_, new_.current));
    ProfileArrives(m1, new_, new_.current);
  }

  // ----- where an update ends

  /** `m'` is `m` with the stages below `n` brought up to date. */
  ghost predicate Reached(d: Dpi, new_: Dpi, force: bool, m: Mouse, m': Mouse, n: nat)
    requires d.Valid() && new_.Valid()
  {
    && |m.x| == |m.y| == |m'.x| == |m'.y| == DPI_COUNT
    && m' == m.(x := m'.x, y := m'.y)
    && forall i :: 0 <= i < DPI_COUNT ==>
         (m'.x[i], m'.y[i]) == if i < n && Differs(d, new_, force, i) then (new_.x[i], new_.y[i]) else (m.x[i], m.y[i])
  }

  lemma OneProfile(d: Dpi, new_: Dpi, force: bool, m: Mouse, i: nat)
    requires d.Valid() && new_.Valid() && i < DPI_COUNT == |m.x| == |m.y|
    ensures After(m, If(Differs(d, new_, force, i), ProfilePacket(new_, i)))
            == if Differs(d, new_, force, i) then m.(x := m.x[i := new_.x[i]], y := m.y[i := new_.y[i]]) else m
  {
    AfterIf(m, Differs(d, new_, force, i), ProfilePacket(new_, i));
    ProfileArrives(m, new_, i);
  }

  lemma ReachedNext(d: Dpi, new_: Dpi, force: bool, m: Mouse, m1: Mouse, n: nat)
    requires d.Valid() && new_.Valid() && n < DPI_COUNT && Reached(d, new_, force, m, m1, n)
    ensures Reached(d, new_, force, m,
      if Differs(d, new_, force, n) then m1.(x := m1.x[n := new_.x[n]], y := m1.y[n := new_.y[n]]) else m1, n + 1)
  {}

  lemma {:induction false} ProfilesArrive(d: Dpi, new_: Dpi, force: bool, m: Mouse, n: nat)
    requires d.Valid() && new_.Valid() && n <= DPI_COUNT == |m.x| == |m.y|
    ensures Reached(d, new_, force, m, After(m, Profiles(d, new_, force, n)), n)
  {
    if n > 0 {
      ProfilesArrive(d, new_, force, m, n - 1);
      var ps := Profiles(d, new_, force, n - 1);
      AfterConcat(m, ps, If(Differs(d, new_, force, n - 1), ProfilePacket(new_, n - 1)));
      OneProfile(d, new_, force, After(m, ps), n - 1);
      ReachedNext(d, new_, force, m, After(m, ps), n - 1);
    }
  }

  lemma SettingsArrive(d: Dpi, new_: Dpi, force: bool, m: Mouse)
    ensures After(m, Settings(d, new_, force)) ==
      m.(enabled := if new_.enabled != d.enabled || force then new_.enabled else m.enabled,
         lift := if new_.lift != d.lift || force then new_.lift else m.lift,
         snap := if new_.snap != d.snap || force then new_.snap else m.snap)
  {
    var a := If(new_.enabled != d.enabled || force, Mask(new_.enabled));
    var b := If(new_.lift != d.lift || force, Lift(new_.lift));
    var c := If(new_.snap != d.snap || force, Snap(new_.snap));
    AfterConcat(m, a + b, c);
    AfterConcat(m, a, b);
    AfterIf(m, new_.enabled != d.enabled || force, Mask(new_.enabled));
    AfterIf(After(m, a), new_.lift != d.lift || force, Lift(new_.lift));
    AfterIf(After(m, a + b), new_.snap != d.snap || force, Snap(new_.snap));
  }

  lemma ProfilesFinal(d: Dpi, new_: Dpi, force: bool, m: Mouse)
    requires d.Valid() && new_.Valid() && |m.x| == |m.y| == DPI_COUNT
    requires force || (m.x == d.x && m.y == d.y)
    ensures After(m, Profiles(d, new_, force, DPI_COUNT)) == m.(x := new_.x, y := new_.y)
  {
    ProfilesArrive(d, new_, force, m, DPI_COUNT);
    var m' := After(m, Profiles(d, new_, force, DPI_COUNT));
    assert m'.x == new_.x && m'.y == new_.y;
  }

  lemma RestArrives(d: Dpi, new_: Dpi, force: bool, switching: bool, m: Mouse)
    requires d.Valid() && new_.Valid() && |m.x| == |m.y| == DPI_COUNT
    requires force || (Mirrors(d, m) && (switching <==> d.current != new_.current))
    requires force ==> switching
    ensures Mirrors(new_, After(m, If(switching, Current(new_.current)) + Profiles(d, new_, force, DPI_COUNT) + Settings(d, new_, force)))
  {
    var a := If(switching, Current(new_.current));
    var b := Profiles(d, new_, force, DPI_COUNT);
    var c := Settings(d, new_, force);
    AfterConcat(m, a + b, c);
    AfterConcat(m, a, b);
    AfterIf(m, switching, Current(new_.current));
    var m1 := After(m, a);
    var m2 := After(m1, b);
    ProfilesFinal(d, new_, force, m1);
    SettingsArrive(d, new_, force, m2);
  }

  lemma {:induction false} AfterShape(m: Mouse, ps: seq<Packet>)
    ensures |After(m, ps).x| == |m.x| && |After(m, ps).y| == |m.y|
  {
    if ps != [] { AfterShape(m, ps[..|ps| - 1]); }
  }

  /** An update from a mirroring cache, or a forced one from any cache and any device state,
      leaves the mouse with exactly what was requested. */
  lemma UpdateArrives(last: Dpi, new_: Dpi, force: bool, m: Mouse)
    requires last.Valid() && new_.Valid() && new_.current < DPI_COUNT && |m.x| == |m.y| == DPI_COUNT
    requires force || Mirrors(last, m)
    ensures Mirrors(new_, After(m, Plan(last, new_, force)))
  {
    var d := Prepared(last, new_, force);
    AfterConcat(m, Prepare(last, new_, force), Rest(last, new_, force));
    AfterShape(m, Prepare(last, new_, force));
    if !force { PrepareMirrors(last, new_, force, m); }
    RestArrives(d, new_, force, Switching(last, new_, force), After(m, Prepare(last, new_, force)));
  }

  // ----- every state on the way

  ghost predicate AlwaysSafe(m: Mouse, ps: seq<Packet>) {
    forall n :: 0 <= n <= |ps| ==> Safe(After(m, ps[..n]))
  }

  lemma SafeConcat(m: Mouse, a: seq<Packet>, b: seq<Packet>)
    requires AlwaysSafe(m, a) && AlwaysSafe(After(m, a), b)
    ensures AlwaysSafe(m, a + b)
  {
    forall n | 0 <= n <= |a + b| ensures Safe(After(m, (a + b)[..n])) {
      if n <= |a| {
        assert (a + b)[..n] == a[..n];
      } else {
        assert (a + b)[..n] == a + b[..n - |a|];
        AfterConcat(m, a, b[..n - |a|]);
      }
    }
  }

  lemma SafeIf(m: Mouse, b: bool, p: Packet)
    requires Safe(m) && (b ==> Safe(Receive(m, p)))
    ensures AlwaysSafe(m, If(b, p))
  {
    AfterIf(m, b, p);
    assert If(b, p)[..|If(b, p)|] == If(b, p);
    forall n | 0 <= n <= |If(b, p)| ensures Safe(After(m, If(b, p)[..n])) {
      if n == 0 { assert If(b, p)[..0] == []; }
    }
  }

  lemma {:induction false} SafeProfiles(d: Dpi, new_: Dpi, force: bool, m: Mouse, n: nat)
    requires d.Valid() && new_.Valid() && n <= DPI_COUNT == |m.x| == |m.y| && Safe(m)
    ensures AlwaysSafe(m, Profiles(d, new_, force, n))
  {
    if n > 0 {
      SafeProfiles(d, new_, force, m, n - 1);
      var ps := Profiles(d, new_, force, n - 1);
      ProfilesArrive(d, new_, force, m, n - 1);
      SafeIf(After(m, ps), Differs(d, new_, force, n - 1), ProfilePacket(new_, n - 1));
      SafeConcat(m, ps, If(Differs(d, new_, force, n - 1), ProfilePacket(new_, n - 1)));
    }
  }

  lemma SafeSettings(d: Dpi, new_: Dpi, force: bool, m: Mouse)
    requires Safe(m) && m.current in new_.enabled
    ensures AlwaysSafe(m, Settings(d, new_, force))
  {
    var a := If(new_.enabled != d.enabled || force, Mask(new_.enabled));
    var b := If(new_.lift != d.lift || force, Lift(new_.lift));
    var c := If(new_.snap != d.snap || force, Snap(new_.snap));
    AfterIf(m, new_.enabled != d.enabled || force, Mask(new_.enabled));
    AfterIf(After(m, a), new_.lift != d.lift || force, Lift(new_.lift));
    SafeIf(m, new_.enabled != d.enabled || force, Mask(new_.enabled));
    SafeIf(After(m, a), new_.lift != d.lift || force, Lift(new_.lift));
    SafeConcat(m, a, b);
    AfterConcat(m, a, b);
    SafeIf(After(m, a + b), new_.snap != d.snap || force, Snap(new_.snap));
    SafeConcat(m, a + b, c);
  }

  lemma SafePrepare(last: Dpi, new_: Dpi, force: bool, m: Mouse)
    requires last.Valid() && new_.Valid() && new_.current < DPI_COUNT && Mirrors(last, m) && Safe(m)
    ensures AlwaysSafe(m, Prepare(last, new_, force))
    ensures new_.current in After(m, Prepare(last, new_, force)).enabled
    ensures After(m, Prepare(last, new_, force)).current == last.current
  {
    SafeIf(m, Enabling(last, new_, force), Mask(Interim(last, new_)));
    AfterIf(m, Enabling(last, new_, force), Mask(Interim(last, new_)));
    var m1 := After(m, If(Enabling(last, new_, force), Mask(Interim(last, new_))));
    SafeIf(m1, Presetting(last, new_, force), ProfilePacket(new_, new_.current));
    SafeConcat(m, If(Enabling(last, new_, force), Mask(Interim(last, new_))),
               If(Presetting(last, new_, force), ProfilePacket(new_, new_.current)));
    PrepareMirrors(last, new_, force, m);
  }

  lemma SafeRest(d: Dpi, new_: Dpi, force: bool, switching: bool, m: Mouse)
    requires d.Valid() && new_.Valid() && |m.x| == |m.y| == DPI_COUNT
    requires Safe(m) && new_.current in m.enabled && new_.current in new_.enabled
    requires !switching ==> m.current == new_.current
    ensures AlwaysSafe(m, If(switching, Current(new_.current)) + Profiles(d, new_, force, DPI_COUNT) + Settings(d, new_, force))
  {
    var a := If(switching, Current(new_.current));
    var b := Profiles(d, new_, force, DPI_COUNT);
    SafeIf(m, switching, Current(new_.current));
    AfterIf(m, switching, Current(new_.current));
    var m1 := After(m, a);
    SafeProfiles(d, new_, force, m1, DPI_COUNT);
    ProfilesArrive(d, new_, force, m1, DPI_COUNT);
    SafeConcat(m, a, b);
    AfterConcat(m, a, b);
    SafeSettings(d, new_, force, After(m, a + b));
    SafeConcat(m, a + b, Settings(d, new_, force));
  }

  /** From a mirroring cache and an enabled stage, after every single packet the mouse's
      current stage is enabled if and only if the request enables the stage it selects. */
  lemma SafeExactly(last: Dpi, new_: Dpi, force: bool, m: Mouse)
    requires last.Valid() && new_.Valid() && new_.current < DPI_COUNT && Mirrors(last, m) && Safe(m)
    ensures AlwaysSafe(m, Plan(last, new_, force)) <==> new_.current in new_.enabled
  {
    var a, b := Prepare(last, new_, force), Rest(last, new_, force);
    if new_.current in new_.enabled {
      SafePrepare(last, new_, force, m);
      PrepareMirrors(last, new_, force, m);
      SafeRest(Prepared(last, new_, force), new_, force, Switching(last, new_, force), After(m, a));
      SafeConcat(m, a, b);
    } else {
      UpdateArrives(last, new_, force, m);
      var ps := Plan(last, new_, force);
      assert ps[..|ps|] == ps;
    }
  }

  /** Right before the switch, forced or not, the new stage already has its requested values. */
  lemma ReadyAtSwitch(last: Dpi, new_: Dpi, force: bool, m: Mouse)
    requires last.Valid() && new_.Valid() && new_.current < DPI_COUNT && |m.x| == |m.y| == DPI_COUNT
    requires Switching(last, new_, force) && (force || Mirrors(last, m))
    ensures var ready := After(m, Prepare(last, new_, force));
      && Rest(last, new_, force) != [] && Rest(last, new_, force)[0] == Current(new_.current)
      && |ready.x| == |ready.y| == DPI_COUNT
      && ready.x[new_.current] == new_.x[new_.current] && ready.y[new_.current] == new_.y[new_.current]
      && new_.current in ready.enabled
  {
    var a := If(Enabling(last, new_, force), Mask(Interim(last, new_)));
    var b := If(Presetting(last, new_, force), ProfilePacket(new_, new_.current));
    AfterConcat(m, a, b);
    AfterIf(m, Enabling(last, new_, force), Mask(Interim(last, new_)));
    var m1 := After(m, a);
    AfterIf(m1, Presetting(last, new_, force), ProfilePacket(new_, new_.current));
    ProfileArrives(m1, new_, new_.current);
  }

  // ----- where an unforced update ends, whatever the cache and the mouse say

  /** Settings that differ from the cache, and the enabled stages if they had to be changed for
      the switch, are what is requested; the others are what they were. */
  function Final(last: Dpi, new_: Dpi, m: Mouse): Mouse
    requires last.Valid() && new_.Valid() && |m.x| == |m.y| == DPI_COUNT
  {
    Mouse(seq(DPI_COUNT, i requires 0 <= i < DPI_COUNT => if Differs(last, new_, false, i) then new_.x[i] else m.x[i]),
          seq(DPI_COUNT, i requires 0 <= i < DPI_COUNT => if Differs(last, new_, false, i) then new_.y[i] else m.y[i]),
          if last.current != new_.current then new_.current else m.current,
          if last.enabled != new_.enabled || Enabling(last, new_, false) then new_.enabled else m.enabled,
          if last.lift != new_.lift then new_.lift else m.lift,
          if last.snap != new_.snap then new_.snap else m.snap)
  }

  lemma AfterPrepare(last: Dpi, new_: Dpi, m: Mouse)
    requires last.Valid() && new_.Valid() && new_.current < DPI_COUNT == |m.x| == |m.y|
    ensures var c, preset := new_.current, Presetting(last, new_, false);
      After(m, Prepare(last, new_, false)) ==
        m.(enabled := if Enabling(last, new_, false) then Interim(last, new_) else m.enabled,
           x := if preset then m.x[c := new_.x[c]] else m.x, y := if preset then m.y[c := new_.y[c]] else m.y)
  {
    var mask, profile := Mask(Interim(last, new_)), ProfilePacket(new_, new_.current);
    AfterConcat(m, If(Enabling(last, new_, false), mask), If(Presetting(last, new_, false), profile));
    AfterIf(m, Enabling(last, new_, false), mask);
    var m1 := After(m, If(Enabling(last, new_, false), mask));
    AfterIf(m1, Presetting(last, new_, false), profile);
    ProfileArrives(m1, new_, new_.current);
  }

  /** The rest of an update as three steps. */
  lemma AfterRest(last: Dpi, new_: Dpi, m: Mouse)
    requires last.Valid() && new_.Valid() && new_.current < DPI_COUNT == |m.x| == |m.y|
    ensures var d := Prepared(last, new_, false);
      var r := After(m, Rest(last, new_, false));
      && Reached(d, new_, false, m, m.(x := r.x, y := r.y), DPI_COUNT)
      && r.current == (if last.current != new_.current then new_.current else m.current)
      && r.enabled == (if d.enabled != new_.enabled then new_.enabled else m.enabled)
      && r.lift == (if last.lift != new_.lift then new_.lift else m.lift)
      && r.snap == (if last.snap != new_.snap then new_.snap else m.snap)
  {
    var d := Prepared(last, new_, false);
    var a := If(Switching(last, new_, false), Current(new_.current));
    var b := Profiles(d, new_, false, DPI_COUNT);
    AfterConcat(m, a + b, Settings(d, new_, false));
    AfterConcat(m, a, b);
    AfterIf(m, Switching(last, new_, false), Current(new_.current));
    ProfilesArrive(d, new_, false, After(m, a), DPI_COUNT);
    SettingsArrive(d, new_, false, After(m, a + b));
  }

  lemma FinalStage(last: Dpi, new_: Dpi, m: Mouse, i: nat)
    requires last.Valid() && new_.Valid() && new_.current < DPI_COUNT == |m.x| == |m.y| && i < DPI_COUNT
    ensures var r := After(m, Plan(last, new_, false));
      |r.x| == |r.y| == DPI_COUNT && r.x[i] == Final(last, new_, m).x[i] && r.y[i] == Final(last, new_, m).y[i]
  {
    AfterConcat(m, Prepare(last, new_, false), Rest(last, new_, false));
    AfterPrepare(last, new_, m);
    var m0 := After(m, Prepare(last, new_, false));
    AfterRest(last, new_, m0);
    var r := After(m0, Rest(last, new_, false));
    StageReached(last, new_, m, m0, m0.(x := r.x, y := r.y), i);
  }

  lemma StageReached(last: Dpi, new_: Dpi, m: Mouse, m0: Mouse, r: Mouse, i: nat)
    requires last.Valid() && new_.Valid() && new_.current < DPI_COUNT == |m.x| == |m.y| && i < DPI_COUNT
    requires var c, preset := new_.current, Presetting(last, new_, false);
      && m0.x == (if preset then m.x[c := new_.x[c]] else m.x)
      && m0.y == (if preset then m.y[c := new_.y[c]] else m.y)
    requires Reached(Prepared(last, new_, false), new_, false, m0, r, DPI_COUNT)
    ensures (r.x[i], r.y[i]) == if Differs(last, new_, false, i) then (new_.x[i], new_.y[i]) else (m.x[i], m.y[i])
  {
    assert (r.x[i], r.y[i]) == if Differs(Prepared(last, new_, false), new_, false, i) then (new_.x[i], new_.y[i]) else (m0.x[i], m0.y[i]);
  }

  lemma FinalSettings(last: Dpi, new_: Dpi, m: Mouse)
    requires last.Valid() && new_.Valid() && new_.current < DPI_COUNT == |m.x| == |m.y|
    ensures var r, f := After(m, Plan(last, new_, false)), Final(last, new_, m);
      r.current == f.current && r.enabled == f.enabled && r.lift == f.lift && r.snap == f.snap
  {
    AfterConcat(m, Prepare(last, new_, false), Rest(last, new_, false));
    AfterPrepare(last, new_, m);
    AfterRest(last, new_, After(m, Prepare(last, new_, false)));
  }

  /** For any cache, any request and any device state: the state an unforced update leads to. */
  lemma EndsAtFinal(last: Dpi, new_: Dpi, m: Mouse)
    requires last.Valid() && new_.Valid() && new_.current < DPI_COUNT == |m.x| == |m.y|
    ensures After(m, Plan(last, new_, false)) == Final(last, new_, m)
  {
    var r, f := After(m, Plan(last, new_, false)), Final(last, new_, m);
    AfterShape(m, Plan(last, new_, false));
    forall i | 0 <= i < DPI_COUNT ensures r.x[i] == f.x[i] && r.y[i] == f.y[i] {
      FinalStage(last, new_, m, i);
    }
    assert r.x == f.x && r.y == f.y;
    FinalSettings(last, new_, m);
  }

  /** Every setting is sent, because it differs from the cache or because the switch needs it, or
      is there already. */
  ghost predicate Covered(last: Dpi, new_: Dpi, m: Mouse)
    requires last.Valid() && new_.Valid() && |m.x| == |m.y| == DPI_COUNT
  {
    && (forall i :: 0 <= i < DPI_COUNT ==> Differs(last, new_, false, i) || (m.x[i] == new_.x[i] && m.y[i] == new_.y[i]))
    && (last.current != new_.current || m.current == new_.current)
    && (last.enabled != new_.enabled || Enabling(last, new_, false) || m.enabled == new_.enabled)
    && (last.lift != new_.lift || m.lift == new_.lift)
    && (last.snap != new_.snap || m.snap == new_.snap)
  }

  /** An update brings what is requested, from any cache and any device state, if and only if it
      is forced or every setting is covered. */
  lemma ArrivesExactly(last: Dpi, new_: Dpi, force: bool, m: Mouse)
    requires last.Valid() && new_.Valid() && new_.current < DPI_COUNT == |m.x| == |m.y|
    ensures Mirrors(new_, After(m, Plan(last, new_, force))) <==> force || Covered(last, new_, m)
  {
    if force {
      UpdateArrives(last, new_, true, m);
    } else {
      EndsAtFinal(last, new_, m);
      CoveredExactly(last, new_, m);
    }
  }

  lemma CoveredExactly(last: Dpi, new_: Dpi, m: Mouse)
    requires last.Valid() && new_.Valid() && new_.current < DPI_COUNT == |m.x| == |m.y|
    ensures Mirrors(new_, Final(last, new_, m)) <==> Covered(last, new_, m)
  {
    var f := Final(last, new_, m);
    forall i | 0 <= i < DPI_COUNT
      ensures f.x[i] == new_.x[i] && f.y[i] == new_.y[i]
              <==> Differs(last, new_, false, i) || (m.x[i] == new_.x[i] && m.y[i] == new_.y[i])
    {}
    if Covered(last, new_, m) { assert f.x == new_.x && f.y == new_.y; }
  }

  // ----- updates that fail half way

  /** A packet that carries some setting of the request. */
  ghost predicate Sets(new_: Dpi, p: Packet)
    requires new_.Valid()
  {
    match p
    case Mask(s) => s == new_.enabled
    case Profile(i, _, _, _, _, _) => i < DPI_COUNT && p == ProfilePacket(new_, i)
    case Current(c) => c == new_.current
    case Lift(h) => h == new_.lift
    case Snap(s) => s == new_.snap
  }

  /** It changes the setting in a mouse that has what the cache `d` says. */
  ghost predicate Moves(d: Dpi, new_: Dpi, p: Packet)
    requires d.Valid() && new_.Valid()
  {
    match p
    case Mask(_) => d.enabled != new_.enabled
    case Profile(i, _, _, _, _, _) => i < DPI_COUNT && Differs(d, new_, false, i)
    case Current(_) => d.current != new_.current
    case Lift(_) => d.lift != new_.lift
    case Snap(_) => d.snap != new_.snap
  }

  lemma {:induction false} ProfileSets(d: Dpi, new_: Dpi, force: bool, n: nat, p: Packet)
    requires d.Valid() && new_.Valid() && n <= DPI_COUNT && p in Profiles(d, new_, force, n)
    ensures Sets(new_, p) && (force || Moves(d, new_, p))
  {
    if p in Profiles(d, new_, force, n - 1) { ProfileSets(d, new_, force, n - 1, p); }
  }

  lemma ProfilesSet(d: Dpi, new_: Dpi, force: bool, n: nat)
    requires d.Valid() && new_.Valid() && n <= DPI_COUNT
    ensures forall p :: p in Profiles(d, new_, force, n) ==> Sets(new_, p) && (force || Moves(d, new_, p))
  {
    forall p | p in Profiles(d, new_, force, n) ensures Sets(new_, p) && (force || Moves(d, new_, p)) {
      ProfileSets(d, new_, force, n, p);
    }
  }

  lemma RestSets(last: Dpi, new_: Dpi, force: bool)
    requires last.Valid() && new_.Valid() && new_.current < DPI_COUNT
    ensures forall p :: p in Rest(last, new_, force) ==>
      Sets(new_, p) && (force || Moves(Prepared(last, new_, force), new_, p))
  {
    ProfilesSet(Prepared(last, new_, force), new_, force, DPI_COUNT);
  }

  /** The setting that `p` carries has arrived. */
  ghost predicate Arrived(new_: Dpi, m: Mouse, p: Packet)
    requires new_.Valid()
  {
    match p
    case Mask(_) => m.enabled == new_.enabled
    case Profile(i, _, _, _, _, _) => i < |m.x| && i < |m.y| && i < DPI_COUNT && m.x[i] == new_.x[i] && m.y[i] == new_.y[i]
    case Current(_) => m.current == new_.current
    case Lift(_) => m.lift == new_.lift
    case Snap(_) => m.snap == new_.snap
  }

  lemma OneArrives(new_: Dpi, m: Mouse, p: Packet, q: Packet)
    requires new_.Valid() && |m.x| == |m.y| == DPI_COUNT
    requires Sets(new_, p) && Sets(new_, q) && (p == q || Arrived(new_, m, p))
    ensures Arrived(new_, Receive(m, q), p)
  {
    if q.Profile? { ProfileArrives(m, new_, q.stage); }
  }

  /** What has arrived stays, whatever part of the request follows. */
  lemma {:induction false} AnyArrives(new_: Dpi, m: Mouse, ps: seq<Packet>, p: Packet)
    requires new_.Valid() && |m.x| == |m.y| == DPI_COUNT && p in ps
    requires forall q :: q in ps ==> Sets(new_, q)
    ensures Arrived(new_, After(m, ps), p)
  {
    var n := |ps| - 1;
    AfterShape(m, ps[..n]);
    if p in ps[..n] { AnyArrives(new_, m, ps[..n], p); }
    OneArrives(new_, After(m, ps[..n]), p, ps[n]);
  }

  lemma OneUnmoved(d: Dpi, new_: Dpi, m: Mouse, p: Packet)
    requires d.Valid() && new_.Valid() && Mirrors(d, m) && Sets(new_, p) && !Moves(d, new_, p)
    ensures Receive(m, p) == m
  {
    if p.Profile? { ProfileArrives(m, new_, p.stage); }
  }

  lemma {:induction false} NoneMove(d: Dpi, new_: Dpi, m: Mouse, ps: seq<Packet>)
    requires d.Valid() && new_.Valid() && Mirrors(d, m)
    requires forall p :: p in ps ==> Sets(new_, p) && !Moves(d, new_, p)
    ensures After(m, ps) == m
  {
    if ps != [] {
      NoneMove(d, new_, m, ps[..|ps| - 1]);
      OneUnmoved(d, new_, m, ps[|ps| - 1]);
    }
  }

  /** A mirrored mouse is still mirrored after some packets of the request exactly if none of
      them moves a setting. */
  lemma MirrorsExactly(d: Dpi, new_: Dpi, m: Mouse, ps: seq<Packet>)
    requires d.Valid() && new_.Valid() && Mirrors(d, m)
    requires forall p :: p in ps ==> Sets(new_, p)
    ensures Mirrors(d, After(m, ps)) <==> forall p :: p in ps ==> !Moves(d, new_, p)
  {
    if p :| p in ps && Moves(d, new_, p) {
      AnyArrives(new_, m, ps, p);
    } else {
      NoneMove(d, new_, m, ps);
    }
  }

  lemma PrepareCached(last: Dpi, new_: Dpi, force: bool, m: Mouse, n: nat)
    requires last.Valid() && new_.Valid() && new_.current < DPI_COUNT && Mirrors(last, m)
    requires n <= |Prepare(last, new_, force)|
    ensures Mirrors(CacheAt(last, new_, force, n), After(m, Prepare(last, new_, force)[..n]))
  {
    var ps := Prepare(last, new_, force);
    if n == |ps| {
      assert ps[..n] == ps;
      PrepareMirrors(last, new_, force, m);
    } else if n == 0 {
      assert ps[..0] == [];
    } else {
      assert ps[..1] == [Mask(Interim(last, new_))];
      AfterIf(m, true, Mask(Interim(last, new_)));
    }
  }

  /** What was sent after the preparation when an update stops after `n` packets. */
  function SentOfRest(last: Dpi, new_: Dpi, force: bool, n: nat): seq<Packet>
    requires last.Valid() && new_.Valid() && new_.current < DPI_COUNT && n <= |Plan(last, new_, force)|
  {
    if n <= |Prepare(last, new_, force)| then [] else Rest(last, new_, force)[..n - |Prepare(last, new_, force)|]
  }

  lemma PlanCut(last: Dpi, new_: Dpi, force: bool, m: Mouse, n: nat)
    requires last.Valid() && new_.Valid() && new_.current < DPI_COUNT
    requires |Prepare(last, new_, force)| <= n <= |Plan(last, new_, force)|
    ensures After(m, Plan(last, new_, force)[..n])
            == After(After(m, Prepare(last, new_, force)), SentOfRest(last, new_, force, n))
  {
    var a, b := Prepare(last, new_, force), Rest(last, new_, force);
    CutBehind(a, b, n);
    AfterConcat(m, a, b[..n - |a|]);
  }

  lemma CutBehind(a: seq<Packet>, b: seq<Packet>, n: nat)
    requires |a| <= n <= |a + b|
    ensures (a + b)[..n] == a + b[..n - |a|] && b[..0] == []
  {}

  /** If an update, forced or not, fails after `n` packets, the cache still mirrors the mouse
      if and only if no packet sent after the preparation of the new stage changed a setting:
      neither the switch nor anything after it is recorded before the end. */
  lemma FailureExactly(last: Dpi, new_: Dpi, force: bool, m: Mouse, n: nat)
    requires last.Valid() && new_.Valid() && new_.current < DPI_COUNT && Mirrors(last, m)
    requires n < |Plan(last, new_, force)|
    ensures Mirrors(CacheAt(last, new_, force, n), After(m, Plan(last, new_, force)[..n]))
            <==> forall p :: p in SentOfRest(last, new_, force, n) ==> !Moves(Prepared(last, new_, force), new_, p)
  {
    var a := Prepare(last, new_, force);
    if n <= |a| {
      assert (a + Rest(last, new_, force))[..n] == a[..n];
      PrepareCached(last, new_, force, m, n);
    } else {
      PlanCut(last, new_, force, m, n);
      PrepareMirrors(last, new_, force, m);
      RestSets(last, new_, force);
      MirrorsExactly(Prepared(last, new_, force), new_, After(m, a), SentOfRest(last, new_, force, n));
    }
  }

  /** An unforced update sends nothing that does not change a setting, so that there the cache
      is right exactly if the failure came no later than the switch. */
  lemma UnforcedFailureExactly(last: Dpi, new_: Dpi, m: Mouse, n: nat)
    requires last.Valid() && new_.Valid() && new_.current < DPI_COUNT && Mirrors(last, m)
    requires n < |Plan(last, new_, false)|
    ensures Mirrors(CacheAt(last, new_, false, n), After(m, Plan(last, new_, false)[..n]))
            <==> n <= |Prepare(last, new_, false)|
  {
    FailureExactly(last, new_, false, m, n);
    var sent := SentOfRest(last, new_, false, n);
    RestSets(last, new_, false);
    if sent != [] { assert sent[0] in sent && sent[0] in Rest(last, new_, false); }
  }

  // ----- trying again

  /** Every setting of the mouse is what the cache says or what is requested. */
  ghost predicate Between(d: Dpi, new_: Dpi, m: Mouse)
    requires d.Valid() && new_.Valid()
  {
    && |m.x| == |m.y| == DPI_COUNT
    && (forall i :: 0 <= i < DPI_COUNT ==> (m.x[i] == d.x[i] && m.y[i] == d.y[i]) || (m.x[i] == new_.x[i] && m.y[i] == new_.y[i]))
    && m.current in {d.current, new_.current}
    && m.enabled in {d.enabled, new_.enabled}
    && m.lift in {d.lift, new_.lift}
    && m.snap in {d.snap, new_.snap}
  }

  lemma OneBetween(d: Dpi, new_: Dpi, m: Mouse, p: Packet)
    requires d.Valid() && new_.Valid() && Between(d, new_, m) && Sets(new_, p)
    ensures Between(d, new_, Receive(m, p))
  {
    if p.Profile? { ProfileArrives(m, new_, p.stage); }
  }

  lemma {:induction false} SomeBetween(d: Dpi, new_: Dpi, m: Mouse, ps: seq<Packet>)
    requires d.Valid() && new_.Valid() && Between(d, new_, m)
    requires forall p :: p in ps ==> Sets(new_, p)
    ensures Between(d, new_, After(m, ps))
  {
    if ps != [] {
      SomeBetween(d, new_, m, ps[..|ps| - 1]);
      OneBetween(d, new_, After(m, ps[..|ps| - 1]), ps[|ps| - 1]);
    }
  }

  lemma MaskBetween(last: Dpi, new_: Dpi, m: Mouse)
    requires last.Valid() && new_.Valid() && Between(last, new_, m)
    ensures Between(last.(enabled := Interim(last, new_)), new_, Receive(m, Mask(Interim(last, new_))))
  {}

  lemma PresetBetween(d: Dpi, new_: Dpi, m: Mouse, c: nat)
    requires d.Valid() && new_.Valid() && Between(d, new_, m) && c < DPI_COUNT
    ensures Between(d.(x := d.x[c := new_.x[c]], y := d.y[c := new_.y[c]]), new_, Receive(m, ProfilePacket(new_, c)))
  {
    ProfileArrives(m, new_, c);
  }

  lemma PreparedBetween(last: Dpi, new_: Dpi, m: Mouse)
    requires last.Valid() && new_.Valid() && new_.current < DPI_COUNT && Between(last, new_, m)
    ensures Between(Prepared(last, new_, false), new_, After(m, Prepare(last, new_, false)))
  {
    var b, c := Enabling(last, new_, false), Presetting(last, new_, false);
    var mask, profile := Mask(Interim(last, new_)), ProfilePacket(new_, new_.current);
    AfterConcat(m, If(b, mask), If(c, profile));
    AfterIf(m, b, mask);
    AfterIf(After(m, If(b, mask)), c, profile);
    MaskBetween(last, new_, m);
    PresetBetween(if b then last.(enabled := Interim(last, new_)) else last, new_, After(m, If(b, mask)), new_.current);
  }

  /** The preparation takes mouse and cache on together. */
  lemma PrepareBetween(last: Dpi, new_: Dpi, m: Mouse, n: nat)
    requires last.Valid() && new_.Valid() && new_.current < DPI_COUNT && Between(last, new_, m)
    requires n <= |Prepare(last, new_, false)|
    ensures Between(CacheAt(last, new_, false, n), new_, After(m, Prepare(last, new_, false)[..n]))
  {
    var ps := Prepare(last, new_, false);
    if n == |ps| {
      assert ps[..n] == ps;
      PreparedBetween(last, new_, m);
    } else if n == 0 {
      assert ps[..0] == [];
    } else {
      assert ps[..1] == [Mask(Interim(last, new_))];
      AfterIf(m, true, Mask(Interim(last, new_)));
      MaskBetween(last, new_, m);
    }
  }

  /** An unforced update that fails anywhere leaves mouse and cache in that relation. */
  lemma FailureBetween(last: Dpi, new_: Dpi, m: Mouse, n: nat)
    requires last.Valid() && new_.Valid() && new_.current < DPI_COUNT && Between(last, new_, m)
    requires n <= |Plan(last, new_, false)|
    ensures Between(CacheAt(last, new_, false, n), new_, After(m, Plan(last, new_, false)[..n]))
  {
    var a := Prepare(last, new_, false);
    if n <= |a| {
      assert (a + Rest(last, new_, false))[..n] == a[..n];
      PrepareBetween(last, new_, m, n);
    } else {
      PlanCut(last, new_, false, m, n);
      PreparedBetween(last, new_, m);
      RestSets(last, new_, false);
      SomeBetween(Prepared(last, new_, false), new_, After(m, a), SentOfRest(last, new_, false, n));
    }
  }

  /** From there an update that gets through brings everything requested. */
  lemma BetweenArrives(last: Dpi, new_: Dpi, m: Mouse)
    requires last.Valid() && new_.Valid() && new_.current < DPI_COUNT && Between(last, new_, m)
    ensures Mirrors(new_, After(m, Plan(last, new_, false)))
  {
    ArrivesExactly(last, new_, false, m);
  }

  lemma FailurePending(last: Dpi, new_: Dpi, n: nat)
    requires last.Valid() && new_.Valid() && new_.current < DPI_COUNT && n < |Plan(last, new_, false)|
    ensures CacheAt(last, new_, false, n) != new_
  {
    RestSets(last, new_, false);
    var rest := Rest(last, new_, false);
    if rest != [] { assert rest[0] in rest; }
  }

  /** Cache and mouse after unforced updates for one request that failed after `ns[0]`,
      `ns[1]`, ... packets. */
  function Failed(last: Dpi, new_: Dpi, m: Mouse, ns: seq<nat>): (r: (Dpi, Mouse))
    requires last.Valid() && new_.Valid() && new_.current < DPI_COUNT
    ensures r.0.Valid()
  {
    if ns == [] then (last, m)
    else
      var (d, m') := Failed(last, new_, m, ns[..|ns| - 1]);
      var n := Min(ns[|ns| - 1], |Plan(d, new_, false)|);
      (CacheAt(d, new_, false, n), After(m', Plan(d, new_, false)[..n]))
  }

  /** However often and wherever unforced updates fail, as long as the request stays the same
      the first that gets through leaves the mouse with exactly what was requested. */
  lemma {:induction false} RetryArrives(last: Dpi, new_: Dpi, m: Mouse, ns: seq<nat>)
    requires last.Valid() && new_.Valid() && new_.current < DPI_COUNT && Mirrors(last, m)
    ensures var r := Failed(last, new_, m, ns);
      Between(r.0, new_, r.1) && Mirrors(new_, After(r.1, Plan(r.0, new_, false)))
  {
    if ns != [] {
      var r := Failed(last, new_, m, ns[..|ns| - 1]);
      RetryArrives(last, new_, m, ns[..|ns| - 1]);
      FailureBetween(r.0, new_, r.1, Min(ns[|ns| - 1], |Plan(r.0, new_, false)|));
    }
    var r := Failed(last, new_, m, ns);
    BetweenArrives(r.0, new_, r.1);
  }

  /** A failed update is not forgotten: the next one with the same request goes ahead. */
  lemma RetryHappens(w: World, n: nat)
    requires w.Valid() && n < |Plan(w.last, w.modes[w.cur], false)|
    ensures var d := CacheAt(w.last, w.modes[w.cur], false, n);
      Needed(w.(last := d), false)
  {
    FailurePending(w.last, w.modes[w.cur], n);
  }

  /** The same for a whole update, with its test whether anything changed at all. */
  lemma UpdateArrivesExactly(w: World, force: bool)
    requires w.Valid()
    ensures var r := UpdateStep(w, force);
      r.Valid() && (Mirrors(r.modes[r.cur], r.mouse) <==> force || Covered(w.last, w.modes[w.cur], w.mouse))
  {
    if Needed(w, force) {
      var last, new_ := w.last.(forceupdate := false), w.modes[w.cur].(forceupdate := false);
      ArrivesExactly(last, new_, force, w.mouse);
      AfterShape(w.mouse, Plan(last, new_, force));
      FlagsAside(w.last, w.modes[w.cur], w.mouse);
    } else {
      SameCovered(w.last, w.mouse);
    }
  }

  lemma FlagsAside(last: Dpi, new_: Dpi, m: Mouse)
    requires last.Valid() && new_.Valid() && |m.x| == |m.y| == DPI_COUNT
    ensures Covered(last.(forceupdate := false), new_.(forceupdate := false), m) <==> Covered(last, new_, m)
  {
    assert forall i :: 0 <= i < DPI_COUNT ==>
      Differs(last.(forceupdate := false), new_.(forceupdate := false), false, i) == Differs(last, new_, false, i);
  }

  lemma SameCovered(d: Dpi, m: Mouse)
    requires d.Valid() && |m.x| == |m.y| == DPI_COUNT
    ensures Covered(d, d, m) <==> Mirrors(d, m)
  {
    if Covered(d, d, m) {
      forall i | 0 <= i < DPI_COUNT ensures m.x[i] == d.x[i] && m.y[i] == d.y[i] {
        assert !Differs(d, d, false, i);
      }
      assert m.x == d.x && m.y == d.y;
    }
  }

  /** What a later request `e` has to do about a packet for the request `new_` that got through
      unrecorded: ask for the same, or differ from the cache `d` in that setting, so that it is
      sent. */
  ghost predicate Settles(d: Dpi, e: Dpi, new_: Dpi, p: Packet)
    requires d.Valid() && e.Valid() && new_.Valid()
  {
    match p
    case Mask(_) => e.enabled == new_.enabled || d.enabled != e.enabled || Enabling(d, e, false)
    case Profile(i, _, _, _, _, _) => i < DPI_COUNT ==> (e.x[i] == new_.x[i] && e.y[i] == new_.y[i]) || Differs(d, e, false, i)
    case Current(_) => e.current == new_.current || d.current != e.current
    case Lift(_) => e.lift == new_.lift || d.lift != e.lift
    case Snap(_) => e.snap == new_.snap || d.snap != e.snap
  }

  /** What no packet carries stays. */
  lemma {:induction false} Untouched(m: Mouse, ps: seq<Packet>)
    requires |m.x| == |m.y| == DPI_COUNT
    ensures var r := After(m, ps);
      && |r.x| == |r.y| == DPI_COUNT
      && ((forall p :: p in ps ==> !p.Mask?) ==> r.enabled == m.enabled)
      && ((forall p :: p in ps ==> !p.Current?) ==> r.current == m.current)
      && ((forall p :: p in ps ==> !p.Lift?) ==> r.lift == m.lift)
      && ((forall p :: p in ps ==> !p.Snap?) ==> r.snap == m.snap)
  {
    if ps != [] { Untouched(m, ps[..|ps| - 1]); }
  }

  lemma {:induction false} UntouchedStage(m: Mouse, ps: seq<Packet>, i: nat)
    requires |m.x| == |m.y| == DPI_COUNT && i < DPI_COUNT
    requires forall p :: p in ps ==> !(p.Profile? && p.stage == i)
    ensures var r := After(m, ps); |r.x| == |r.y| == DPI_COUNT && r.x[i] == m.x[i] && r.y[i] == m.y[i]
  {
    if ps != [] {
      AfterShape(m, ps[..|ps| - 1]);
      UntouchedStage(m, ps[..|ps| - 1], i);
    }
  }

  lemma CoveredAfter(d: Dpi, e: Dpi, new_: Dpi, m: Mouse, ps: seq<Packet>)
    requires d.Valid() && e.Valid() && new_.Valid() && Mirrors(d, m)
    requires forall p :: p in ps ==> Sets(new_, p)
    ensures |After(m, ps).x| == |After(m, ps).y| == DPI_COUNT
    ensures Covered(d, e, After(m, ps)) <==> forall p :: p in ps ==> Settles(d, e, new_, p)
  {
    var r := After(m, ps);
    AfterShape(m, ps);
    Untouched(m, ps);
    forall i | 0 <= i < DPI_COUNT
      ensures (forall p :: p in ps && p.Profile? && p.stage == i ==> Settles(d, e, new_, p))
              <==> Differs(d, e, false, i) || (r.x[i] == e.x[i] && r.y[i] == e.y[i])
    {
      if p :| p in ps && p.Profile? && p.stage == i {
        AnyArrives(new_, m, ps, p);
      } else {
        UntouchedStage(m, ps, i);
      }
    }
    forall p | p in ps && !p.Profile? ensures Arrived(new_, r, p) { AnyArrives(new_, m, ps, p); }
  }

  /** After an unforced update for `new_` that failed after `n` packets, from a mirroring cache:
      an update for any other request `e` brings what `e` asks for if and only if `e` settles
      every packet that got through unrecorded. */
  lemma EditArrivesExactly(last: Dpi, new_: Dpi, m: Mouse, n: nat, e: Dpi)
    requires last.Valid() && new_.Valid() && new_.current < DPI_COUNT && last.current < DPI_COUNT && Mirrors(last, m)
    requires n < |Plan(last, new_, false)| && e.Valid() && e.current < DPI_COUNT
    ensures var d := CacheAt(last, new_, false, n);
      var w := World(d, [e], 0, After(m, Plan(last, new_, false)[..n]));
      w.Valid() && (Mirrors(e, UpdateStep(w, false).mouse)
                    <==> forall p :: p in SentOfRest(last, new_, false, n) ==> Settles(d, e, new_, p))
  {
    var d := CacheAt(last, new_, false, n);
    var w := World(d, [e], 0, After(m, Plan(last, new_, false)[..n]));
    AfterShape(m, Plan(last, new_, false)[..n]);
    UpdateArrivesExactly(w, false);
    CacheCovered(last, new_, m, n, e);
  }

  lemma CacheCovered(last: Dpi, new_: Dpi, m: Mouse, n: nat, e: Dpi)
    requires last.Valid() && new_.Valid() && new_.current < DPI_COUNT && Mirrors(last, m)
    requires n < |Plan(last, new_, false)| && e.Valid()
    ensures var m' := After(m, Plan(last, new_, false)[..n]);
      && |m'.x| == |m'.y| == DPI_COUNT
      && (Covered(CacheAt(last, new_, false, n), e, m')
          <==> forall p :: p in SentOfRest(last, new_, false, n) ==> Settles(CacheAt(last, new_, false, n), e, new_, p))
  {
    if n <= |Prepare(last, new_, false)| {
      PrepareCovered(last, new_, m, n, e);
    } else {
      RestCovered(last, new_, m, n, e);
    }
  }

  lemma PrepareCovered(last: Dpi, new_: Dpi, m: Mouse, n: nat, e: Dpi)
    requires last.Valid() && new_.Valid() && new_.current < DPI_COUNT && Mirrors(last, m)
    requires n <= |Prepare(last, new_, false)| && n < |Plan(last, new_, false)| && e.Valid()
    ensures var m' := After(m, Plan(last, new_, false)[..n]);
      |m'.x| == |m'.y| == DPI_COUNT && Covered(CacheAt(last, new_, false, n), e, m')
  {
    var a := Prepare(last, new_, false);
    assert (a + Rest(last, new_, false))[..n] == a[..n];
    PrepareCached(last, new_, false, m, n);
    MirrorsCovered(CacheAt(last, new_, false, n), e, After(m, a[..n]));
  }

  lemma MirrorsCovered(d: Dpi, e: Dpi, m: Mouse)
    requires d.Valid() && e.Valid() && Mirrors(d, m)
    ensures Covered(d, e, m)
  {}

  lemma RestCovered(last: Dpi, new_: Dpi, m: Mouse, n: nat, e: Dpi)
    requires last.Valid() && new_.Valid() && new_.current < DPI_COUNT && Mirrors(last, m)
    requires |Prepare(last, new_, false)| < n < |Plan(last, new_, false)| && e.Valid()
    ensures var m' := After(m, Plan(last, new_, false)[..n]);
      && |m'.x| == |m'.y| == DPI_COUNT
      && (Covered(Prepared(last, new_, false), e, m')
          <==> forall p :: p in SentOfRest(last, new_, false, n) ==> Settles(Prepared(last, new_, false), e, new_, p))
  {
    PlanCut(last, new_, false, m, n);
    PrepareMirrors(last, new_, false, m);
    RestSets(last, new_, false);
    CoveredAfter(Prepared(last, new_, false), e, new_, After(m, Prepare(last, new_, false)), SentOfRest(last, new_, false, n));
  }

  /** In particular, editing the request to what the cache says brings nothing once the switch
      went out: no packet is sent, and the mouse keeps what it has. */
  lemma EditForgets(last: Dpi, new_: Dpi, m: Mouse, n: nat)
    requires last.Valid() && new_.Valid() && new_.current < DPI_COUNT && last.current < DPI_COUNT
    requires Mirrors(last, m) && !last.forceupdate
    requires |Prepare(last, new_, false)| < n < |Plan(last, new_, false)|
    ensures var d := CacheAt(last, new_, false, n);
      var w := World(d, [d], 0, After(m, Plan(last, new_, false)[..n]));
      w.Valid() && UpdateStep(w, false) == w && !Mirrors(w.modes[w.cur], w.mouse)
  {
    var d, sent := CacheAt(last, new_, false, n), SentOfRest(last, new_, false, n);
    EditArrivesExactly(last, new_, m, n, d);
    RestSets(last, new_, false);
    assert sent[0] in sent && sent[0] in Rest(last, new_, false);
    assert !Settles(d, d, new_, sent[0]);
  }

  // ----- runs of edits, mode switches and updates

  datatype World = World(last: Dpi, modes: seq<Dpi>, cur: nat, mouse: Mouse)
  {
    predicate Valid() {
      && last.Valid() && cur < |modes| && |mouse.x| == |mouse.y| == DPI_COUNT
      && forall i :: 0 <= i < |modes| ==> modes[i].Valid() && modes[i].current < DPI_COUNT
    }
  }

  datatype Action = Edit(mode: nat, dpi: Dpi) | Select(mode: nat) | Update(force: bool)

  predicate Allowed(w: World, a: Action) {
    match a
    case Edit(i, d) => i < |w.modes| && d.Valid() && d.current < DPI_COUNT
    case Select(i) => i < |w.modes|
    case Update(_) => true
  }

  predicate Needed(w: World, force: bool)
    requires w.Valid()
  {
    force || w.last.forceupdate || w.modes[w.cur].forceupdate || w.last != w.modes[w.cur]
  }

  /** An update none of whose packets is lost. */
  function UpdateStep(w: World, force: bool): (r: World)
    requires w.Valid()
  {
    if !Needed(w, force) then w
    else
      var last, new_ := w.last.(forceupdate := false), w.modes[w.cur].(forceupdate := false);
      World(new_, w.modes[w.cur := new_], w.cur, After(w.mouse, Plan(last, new_, force)))
  }

  function Step(w: World, a: Action): World
    requires w.Valid() && Allowed(w, a)
  {
    match a
    case Edit(i, d) => w.(modes := w.modes[i := d])
    case Select(i) => w.(cur := i)
    case Update(force) => UpdateStep(w, force)
  }

  predicate Runnable(w: World, acts: seq<Action>)
    decreases |acts|
  {
    acts == [] || (w.Valid() && Allowed(w, acts[0]) && Runnable(Step(w, acts[0]), acts[1..]))
  }

  function Run(w: World, acts: seq<Action>): World
    requires Runnable(w, acts)
    decreases |acts|
  {
    if acts == [] then w else Run(Step(w, acts[0]), acts[1..])
  }

  lemma StepMirrors(w: World, a: Action)
    requires w.Valid() && Allowed(w, a)
    requires Mirrors(w.last, w.mouse) || a == Update(true)
    ensures Step(w, a).Valid() && Mirrors(Step(w, a).last, Step(w, a).mouse)
    ensures a.Update? ==> Mirrors(Step(w, a).modes[Step(w, a).cur], Step(w, a).mouse)
  {
    if a.Update? && Needed(w, a.force) {
      var last, new_ := w.last.(forceupdate := false), w.modes[w.cur].(forceupdate := false);
      UpdateArrives(last, new_, a.force, w.mouse);
      AfterShape(w.mouse, Plan(last, new_, a.force));
    }
  }

  /** An update always leaves both force flags down and, if it was needed, cache and request the
      same. */
  lemma FlagsDown(w: World, force: bool)
    requires w.Valid()
    ensures var r := UpdateStep(w, force);
      && r.cur == w.cur && |r.modes| == |w.modes| && !r.last.forceupdate && !r.modes[r.cur].forceupdate
      && r.last == r.modes[r.cur] == w.modes[w.cur].(forceupdate := false)
      && forall i :: 0 <= i < |w.modes| && i != w.cur ==> r.modes[i] == w.modes[i]
  {}

  /** The mirror is an invariant of every run of edits, mode switches and updates, and a
      forced update establishes it from nothing; right after any update the mouse does what
      the current mode asks for. */
  lemma {:induction false} MirrorOverRuns(w: World, acts: seq<Action>)
    requires Runnable(w, acts) && w.Valid()
    requires Mirrors(w.last, w.mouse) || (acts != [] && acts[0] == Update(true))
    ensures var r := Run(w, acts);
      && r.Valid() && Mirrors(r.last, r.mouse)
      && (acts != [] && acts[|acts| - 1].Update? ==> Mirrors(r.modes[r.cur], r.mouse))
    decreases |acts|
  {
    if acts != [] {
      StepMirrors(w, acts[0]);
      MirrorOverRuns(Step(w, acts[0]), acts[1..]);
    }
  }

  // ----- the object

  function Min(a: nat, b: nat): nat { if a < b then a else b }

  /** The return value when the first `n` packets get through. */
  function Result(plan: seq<Packet>, n: nat): int {
    if |plan| <= n then 0 else if plan[n].Profile? then -1 else -2
  }

  /** A send of `plan` with `s0` packets left to get through. */
  ghost predicate Sent(plan: seq<Packet>, m0: Mouse, s0: nat, l0: seq<Packet>, m: Mouse, s: nat, l: seq<Packet>) {
    var n := Min(s0, |plan|);
    m == After(m0, plan[..n]) && s == s0 - n && l == l0 + plan[..n]
  }

  lemma SentConcat(a: seq<Packet>, b: seq<Packet>, m0: Mouse, s0: nat, l0: seq<Packet>,
                   m1: Mouse, s1: nat, l1: seq<Packet>, m: Mouse, s: nat, l: seq<Packet>)
    requires Sent(a, m0, s0, l0, m1, s1, l1)
    requires if |a| <= s0 then Sent(b, m1, s1, l1, m, s, l) else m == m1 && s == s1 && l == l1
    ensures Sent(a + b, m0, s0, l0, m, s, l)
    ensures Result(a + b, s0) == if |a| <= s0 then Result(b, s1) else Result(a, s0)
  {
    var n := Min(s0, |a + b|);
    if |a| <= s0 {
      assert a[..|a|] == a;
      assert (a + b)[..n] == a + b[..n - |a|];
      AfterConcat(m0, a, b[..n - |a|]);
    } else {
      assert (a + b)[..n] == a[..n];
    }
  }

  lemma SentPrefix(a: seq<Packet>, b: seq<Packet>, m0: Mouse, s0: nat, l0: seq<Packet>, m: Mouse, s: nat, l: seq<Packet>)
    requires Sent(a, m0, s0, l0, m, s, l) && s0 < |a| && a <= b
    ensures Sent(b, m0, s0, l0, m, s, l) && Result(b, s0) == Result(a, s0)
  {
    assert a[..s0] == b[..s0];
  }

  /** What an update does to everything when `s0` more packets get through: exactly these
      packets reach the mouse, and the cache records what it may. */
  ghost predicate Updated(w: World, force: bool, s0: nat, l0: seq<Packet>, w': World, s: nat, l: seq<Packet>, r: int)
    requires w.Valid()
  {
    var last, new_ := w.last.(forceupdate := false), w.modes[w.cur].(forceupdate := false);
    var plan := Plan(last, new_, force);
    && Sent(plan, w.mouse, s0, l0, w'.mouse, s, l) && r == Result(plan, s0)
    && w'.modes == w.modes[w.cur := new_] && w'.cur == w.cur
    && w'.last == if |plan| <= s0 then new_ else CacheAt(last, new_, force, s0)
  }

  lemma UpdatedWell(w: World, force: bool, s0: nat, l0: seq<Packet>, w': World, s: nat, l: seq<Packet>, r: int)
    requires w.Valid() && Needed(w, force) && Updated(w, force, s0, l0, w', s, l, r)
    ensures w'.Valid() && (r == 0 ==> w' == UpdateStep(w, force))
  {
    var plan := Plan(w.last.(forceupdate := false), w.modes[w.cur].(forceupdate := false), force);
    assert plan[..|plan|] == plan;
    AfterShape(w.mouse, plan[..Min(s0, |plan|)]);
  }

  /** The return value: zero exactly if everything got through, else it says what was lost. */
  lemma ResultMeans(plan: seq<Packet>, n: nat)
    ensures Result(plan, n) == 0 <==> |plan| <= n
    ensures Result(plan, n) == -1 <==> n < |plan| && plan[n].Profile?
    ensures Result(plan, n) == -2 <==> n < |plan| && !plan[n].Profile?
  {}

  class Syncer {
    var active: bool
    var last: Dpi
    var modes: seq<Dpi>
    var cur: nat
    var mouse: Mouse
    var sends: nat           // packets that still get through
    var log: seq<Packet>     // packets that did

    function View(): World
      reads this
    {
      World(last, modes, cur, mouse)
    }

    constructor (mouse: Mouse, modes: seq<Dpi>, last: Dpi, sends: nat)
      requires World(last, modes, 0, mouse).Valid()
      ensures View() == World(last, modes, 0, mouse) && this.sends == sends && active && log == []
    {
      active, this.last, this.modes, cur, this.mouse, this.sends, log := true, last, modes, 0, mouse, sends, [];
    }

    /** usbsend of one packet, if it is wanted at all. */
    method SendIf(b: bool, p: Packet) returns (ok: bool)
      modifies this`mouse, this`sends, this`log
      ensures Sent(If(b, p), old(mouse), old(sends), old(log), mouse, sends, log)
      ensures ok == (|If(b, p)| <= old(sends))
    {
      if !b { return true; }
      assert [p][..0] == [] && [p][..1] == [p];
      if sends == 0 { return false; }
      mouse, sends, log := Receive(mouse, p), sends - 1, log + [p];
      ok := true;
    }

    method PrepareStage(new_: Dpi, force: bool) returns (r: int)
      requires last.Valid() && new_.Valid() && new_.current < DPI_COUNT
      modifies this`mouse, this`sends, this`log, this`last
      ensures var plan := Prepare(old(last), new_, force);
        && Sent(plan, old(mouse), old(sends), old(log), mouse, sends, log)
        && r == Result(plan, old(sends))
        && last == CacheAt(old(last), new_, force, Min(old(sends), |plan|))
    {
      ghost var before := last;
      ghost var a := If(Enabling(last, new_, force), Mask(Interim(last, new_)));
      ghost var b := If(Presetting(last, new_, force), ProfilePacket(new_, new_.current));
      ghost var m0, s0, l0 := mouse, sends, log;
      var ok := SendIf(Enabling(last, new_, force), Mask(Interim(last, new_)));
      ghost var m1, s1, l1 := mouse, sends, log;
      if !ok {
        SentConcat(a, b, m0, s0, l0, m1, s1, l1, mouse, sends, log);
        return -2;
      }
      var preset := Presetting(last, new_, force);
      if Enabling(last, new_, force) { last := last.(enabled := Interim(last, new_)); }
      ok := SendIf(preset, ProfilePacket(new_, new_.current));
      SentConcat(a, b, m0, s0, l0, m1, s1, l1, mouse, sends, log);
      if !ok { return -1; }
      var c := new_.current;
      if preset { last := last.(x := last.x[c := new_.x[c]], y := last.y[c := new_.y[c]]); }
      r := 0;
    }

    method SendProfiles(new_: Dpi, force: bool) returns (r: int)
      requires last.Valid() && new_.Valid()
      modifies this`mouse, this`sends, this`log
      ensures Sent(Profiles(last, new_, force, DPI_COUNT), old(mouse), old(sends), old(log), mouse, sends, log)
      ensures r == Result(Profiles(last, new_, force, DPI_COUNT), old(sends))
    {
      ghost var m0, s0, l0 := mouse, sends, log;
      var i: nat := 0;
      while i < DPI_COUNT
        invariant i <= DPI_COUNT && last.Valid()
        invariant Sent(Profiles(last, new_, force, i), m0, s0, l0, mouse, sends, log)
        invariant |Profiles(last, new_, force, i)| <= s0
      {
        var step := SendProfile(new_, force, i, m0, s0, l0);
        i := i + 1;
        if !step {
          ProfilesGrow(last, new_, force, i, DPI_COUNT);
          SentPrefix(Profiles(last, new_, force, i), Profiles(last, new_, force, DPI_COUNT), m0, s0, l0, mouse, sends, log);
          return -1;
        }
      }
      r := 0;
    }

    /** One stage. */
    method SendProfile(new_: Dpi, force: bool, i: nat, ghost m0: Mouse, ghost s0: nat, ghost l0: seq<Packet>) returns (ok: bool)
      requires last.Valid() && new_.Valid() && i < DPI_COUNT
      requires Sent(Profiles(last, new_, force, i), m0, s0, l0, mouse, sends, log) && |Profiles(last, new_, force, i)| <= s0
      modifies this`mouse, this`sends, this`log
      ensures Sent(Profiles(last, new_, force, i + 1), m0, s0, l0, mouse, sends, log)
      ensures ok == (|Profiles(last, new_, force, i + 1)| <= s0)
      ensures !ok ==> Result(Profiles(last, new_, force, i + 1), s0) == -1
    {
      ghost var m1, s1, l1 := mouse, sends, log;
      ok := SendIf(Differs(last, new_, force, i), ProfilePacket(new_, i));
      SentConcat(Profiles(last, new_, force, i), If(Differs(last, new_, force, i), ProfilePacket(new_, i)),
                 m0, s0, l0, m1, s1, l1, mouse, sends, log);
    }

    /** Two packets, each if wanted, the second only after the first got through. */
    method SendTwo(first: bool, p: Packet, second: bool, q: Packet) returns (ok: bool)
      modifies this`mouse, this`sends, this`log
      ensures Sent(If(first, p) + If(second, q), old(mouse), old(sends), old(log), mouse, sends, log)
      ensures ok == (|If(first, p) + If(second, q)| <= old(sends))
    {
      ghost var m0, s0, l0 := mouse, sends, log;
      ok := SendIf(first, p);
      ghost var m1, s1, l1 := mouse, sends, log;
      if ok { ok := SendIf(second, q); }
      SentConcat(If(first, p), If(second, q), m0, s0, l0, m1, s1, l1, mouse, sends, log);
    }

    method SendSettings(new_: Dpi, force: bool) returns (r: int)
      modifies this`mouse, this`sends, this`log
      ensures Sent(Settings(last, new_, force), old(mouse), old(sends), old(log), mouse, sends, log)
      ensures r == Result(Settings(last, new_, force), old(sends))
    {
      ghost var ab := If(new_.enabled != last.enabled || force, Mask(new_.enabled))
                      + If(new_.lift != last.lift || force, Lift(new_.lift));
      ghost var m0, s0, l0 := mouse, sends, log;
      var ok := SendTwo(new_.enabled != last.enabled || force, Mask(new_.enabled),
                        new_.lift != last.lift || force, Lift(new_.lift));
      ghost var m1, s1, l1 := mouse, sends, log;
      if ok { ok := SendIf(new_.snap != last.snap || force, Snap(new_.snap)); }
      SentConcat(ab, If(new_.snap != last.snap || force, Snap(new_.snap)), m0, s0, l0, m1, s1, l1, mouse, sends, log);
      r := if ok then 0 else -2;
    }

    /** Lines 164-213: the switch and everything after it. */
    method SendRest(new_: Dpi, force: bool, switching: bool) returns (r: int)
      requires last.Valid() && new_.Valid()
      modifies this`mouse, this`sends, this`log
      ensures var plan := If(switching, Current(new_.current)) + Profiles(last, new_, force, DPI_COUNT) + Settings(last, new_, force);
        Sent(plan, old(mouse), old(sends), old(log), mouse, sends, log) && r == Result(plan, old(sends))
    {
      ghost var a := If(switching, Current(new_.current));
      ghost var b := Profiles(last, new_, force, DPI_COUNT);
      ghost var m0, s0, l0 := mouse, sends, log;
      var ok := SendIf(switching, Current(new_.current));
      r := if ok then 0 else -2;
      ghost var m1, s1, l1 := mouse, sends, log;
      if ok { r := SendProfiles(new_, force); }
      SentConcat(a, b, m0, s0, l0, m1, s1, l1, mouse, sends, log);
      ghost var m2, s2, l2 := mouse, sends, log;
      if r == 0 { r := SendSettings(new_, force); }
      SentConcat(a + b, Settings(last, new_, force), m0, s0, l0, m2, s2, l2, mouse, sends, log);
    }

    /** The switch and everything after it, from the cache that the preparation left. */
    method SendPrepared(new_: Dpi, force: bool, switching: bool, ghost before: Dpi) returns (r: int)
      requires before.Valid() && new_.Valid() && new_.current < DPI_COUNT
      requires last == Prepared(before, new_, force) && switching == Switching(before, new_, force)
      modifies this`mouse, this`sends, this`log
      ensures Sent(Rest(before, new_, force), old(mouse), old(sends), old(log), mouse, sends, log)
      ensures r == Result(Rest(before, new_, force), old(sends))
    {
      r := SendRest(new_, force, switching);
    }

    /** Lines 122-216: all packets, then the cache takes the request over. */
    method Push(new_: Dpi, force: bool) returns (r: int)
      requires last.Valid() && new_.Valid() && new_.current < DPI_COUNT
      modifies this`mouse, this`sends, this`log, this`last
      ensures var plan := Plan(old(last), new_, force);
        && Sent(plan, old(mouse), old(sends), old(log), mouse, sends, log)
        && r == Result(plan, old(sends))
        && last == if |plan| <= old(sends) then new_ else CacheAt(old(last), new_, force, old(sends))
    {
      ghost var l, m0, s0, l0 := last, mouse, sends, log;
      var switching := Switching(last, new_, force);
      r := PrepareStage(new_, force);
      ghost var m1, s1, l1 := mouse, sends, log;
      CacheEnds(l, new_, force, s0);
      if r == 0 {
        r := SendPrepared(new_, force, switching, l);
        if r == 0 { last := new_; }
      }
      SentConcat(Prepare(l, new_, force), Rest(l, new_, force), m0, s0, l0, m1, s1, l1, mouse, sends, log);
    }

    /** updatedpi, once it is clear that an update is needed. */
    method UpdateNow(force: bool) returns (r: int)
      requires View().Valid() && Needed(View(), force)
      modifies this`last, this`modes, this`mouse, this`sends, this`log
      ensures Updated(old(View()), force, old(sends), old(log), View(), sends, log, r)
    {
      last := last.(forceupdate := false);
      modes := modes[cur := modes[cur].(forceupdate := false)];
      ghost var l, s0 := last, sends;
      r := Push(modes[cur], force);
      CacheEnds(l, modes[cur], force, s0);
    }

    /** updatedpi. */
    method Update(force: bool) returns (r: int)
      requires View().Valid()
      modifies this
      ensures View().Valid() && active == old(active)
      ensures !active || !Needed(old(View()), force) ==>
        r == 0 && View() == old(View()) && sends == old(sends) && log == old(log)
      ensures active && Needed(old(View()), force) ==>
        && Updated(old(View()), force, old(sends), old(log), View(), sends, log, r)
        && (r == 0 ==> View() == UpdateStep(old(View()), force))
    {
      if !active { return 0; }
      if !(force || last.forceupdate || modes[cur].forceupdate || last != modes[cur]) { return 0; }
      ghost var w, s0, l0 := View(), sends, log;
      r := UpdateNow(force);
      UpdatedWell(w, force, s0, l0, View(), sends, log, r);
    }

    /** cmd_dpi, cmd_dpisel, cmd_lift and cmd_snap put some other request into a mode. */
    method Edit(mode: nat, dpi: Dpi)
      requires View().Valid() && Allowed(View(), Action.Edit(mode, dpi))
      modifies this`modes
      ensures View() == Step(old(View()), Action.Edit(mode, dpi)) && modes == old(modes)[mode := dpi]
    {
      modes := modes[mode := dpi];
    }

    method Select(mode: nat)
      requires View().Valid() && Allowed(View(), Action.Select(mode))
      modifies this`cur
      ensures View() == Step(old(View()), Action.Select(mode)) && cur == mode
    {
      cur := mode;
    }
  }

  /** Nothing is cached after the preparation until the end. */
  lemma CacheEnds(last: Dpi, new_: Dpi, force: bool, n: nat)
    requires last.Valid() && new_.Valid() && new_.current < DPI_COUNT
    ensures CacheAt(last, new_, force, Min(n, |Prepare(last, new_, force)|)) == CacheAt(last, new_, force, n)
  {}

  lemma {:induction false} ProfilesGrow(d: Dpi, new_: Dpi, force: bool, i: nat, n: nat)
    requires d.Valid() && new_.Valid() && i <= n <= DPI_COUNT
    ensures Profiles(d, new_, force, i) <= Profiles(d, new_, force, n)
  {
    if i < n { ProfilesGrow(d, new_, force, i, n - 1); }
  }
}
