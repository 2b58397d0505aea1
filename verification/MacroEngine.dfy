/** Macro triggering and playback of input.c: the press/release counter that the input
    thread and one player thread per macro share.

    A step is one critical section of the input mutex (the scan of `inputupdate_keys`, the
    SWITCH command, the two decisions of `play_macro`) or of the list mutex.  Sleeps end at
    any time, by time out or by signal.  Slots of all modes are numbered together; macro
    tables are not edited while players are alive. */
module MacroEngine {

  type Tid = nat

  datatype Option<T> = None | Some(value: T)

  /** What does not change: whose mode a macro is in, its keys, and which keys of the device
      are wheels. */
  datatype Slot = Slot(mode: nat, combo: set<nat>, wheels: set<nat>)
  {
    /** is_wheel_keybit: does the combo contain any wheel? */
    predicate HasWheel() {
      exists k :: k in combo && k in wheels
    }
  }

  datatype Macro = Macro(triggered: int, param: Option<Tid>)

  datatype Phase =
    | Started    // thread created
    | Queued     // in the thread list, waiting to become its head
    | Playing    // a pass over the actions is under way
    | Sleeping   // in queued_cond_nanosleep
    | Exiting    // has given up `param`, still in the list

  datatype Player = Player(slot: nat, phase: Phase, first: bool)

  datatype State = State(mode: nat, macros: seq<Macro>, players: map<Tid, Player>, list: seq<Tid>, next: Tid)

  /** malloc may fail, and so may pthread_create: the source treats them differently. */
  datatype Outcome = Created | NoThread | NoMemory

  datatype Action =
    | Scan(keys: set<nat>, outcomes: seq<Outcome>)
    | Switch(mode: nat)
    | Enqueue(t: Tid)
    | Begin(t: Tid)
    | Decide(t: Tid)
    | Wake(t: Tid)
    | Leave(t: Tid)
  {
    predicate ByPlayer() { !Scan? && !Switch? }
  }

  /** Conversion of an int to the `char triggered`, signed and eight bits wide. */
  function Char(x: int): int {
    if x > 127 then x - 256 else if x < -128 then x + 256 else x
  }

  predicate Odd(x: int) { x % 2 == 1 }

  // ----- the scan

  /** The counter after a press. */
  function Pressed(slot: Slot, triggered: int): int {
    if slot.HasWheel() then Char(Char(triggered + 1) + 1) else Char(triggered + 1)
  }

  /** A press counts when the combo is held and the counter says "up". */
  predicate Activates(slot: Slot, keys: set<nat>, triggered: int) {
    slot.combo <= keys && !Odd(triggered)
  }

  predicate Starts(slot: Slot, keys: set<nat>, macro: Macro) {
    Activates(slot, keys, macro.triggered) && Pressed(slot, macro.triggered) <= 3 && macro.param.None?
  }

  /** One turn of the macro loop in inputupdate_keys. */
  function ScanOne(slots: seq<Slot>, s: State, keys: set<nat>, outcome: Outcome, i: nat): State
    requires |s.macros| == |slots| && i < |slots|
  {
    var macro := s.macros[i];
    if slots[i].mode != s.mode then s
    else if Activates(slots[i], keys, macro.triggered) then
      var n := Pressed(slots[i], macro.triggered);
      if !Starts(slots[i], keys, macro) then s.(macros := s.macros[i := macro.(triggered := n)])
      else match outcome
        case Created => s.(macros := s.macros[i := Macro(n, Some(s.next))],
                           players := s.players[s.next := Player(i, Started, true)],
                           next := s.next + 1)
        case NoThread => s.(macros := s.macros[i := Macro(0, None)])
        case NoMemory => s.(macros := s.macros[i := macro.(triggered := n)])
    else if !(slots[i].combo <= keys) && Odd(macro.triggered) then
      s.(macros := s.macros[i := macro.(triggered := Char(macro.triggered + 1))])
    else s
  }

  function ScanTo(slots: seq<Slot>, s: State, keys: set<nat>, outcomes: seq<Outcome>, n: nat): (r: State)
    requires |s.macros| == |slots| == |outcomes| && n <= |slots|
    ensures |r.macros| == |slots| && r.mode == s.mode
  {
    if n == 0 then s else ScanOne(slots, ScanTo(slots, s, keys, outcomes, n - 1), keys, outcomes[n - 1], n - 1)
  }

  // ----- the player

  function SetPhase(s: State, t: Tid, phase: Phase): State
    requires t in s.players
  {
    s.(players := s.players[t := s.players[t].(phase := phase)])
  }

  /** Lines 219-221: the player gives up its macro with the counter at zero. */
  function Finish(s: State, t: Tid): State
    requires t in s.players && s.players[t].slot < |s.macros|
  {
    SetPhase(s, t, Exiting).(macros := s.macros[s.players[t].slot := Macro(0, None)])
  }

  /** After a pass: lines 183-205. */
  function DecideStep(s: State, t: Tid): State
    requires t in s.players && s.players[t].slot < |s.macros|
  {
    var p := s.players[t];
    var macro := s.macros[p.slot];
    if macro.triggered > 1 then
      if macro.triggered == 2 then Finish(s, t)
      else s.(macros := s.macros[p.slot := macro.(triggered := macro.triggered - 2)],
              players := s.players[t := Player(p.slot, Playing, true)])
    else if macro.triggered == 0 then Finish(s, t)
    else SetPhase(s, t, Sleeping)
  }

  /** After the sleep: lines 207-217. */
  function WakeStep(s: State, t: Tid): State
    requires t in s.players && s.players[t].slot < |s.macros|
  {
    var p := s.players[t];
    var triggered := s.macros[p.slot].triggered;
    if triggered == 2 then Finish(s, t)
    else s.(players := s.players[t := Player(p.slot, Playing, if triggered == 1 then false else p.first)])
  }

  predicate Enabled(slots: seq<Slot>, s: State, a: Action) {
    match a
    case Scan(_, outcomes) => |outcomes| == |slots|
    case Switch(_) => true
    case Enqueue(t) => t in s.players && s.players[t].phase.Started?
    case Begin(t) => t in s.players && s.players[t].phase.Queued? && s.list != [] && s.list[0] == t
    case Decide(t) => t in s.players && s.players[t].phase.Playing?
    case Wake(t) => t in s.players && s.players[t].phase.Sleeping?
    case Leave(t) => t in s.players && s.players[t].phase.Exiting?
  }

  predicate WellFormed(slots: seq<Slot>, s: State) {
    && |s.macros| == |slots|
    && forall t :: t in s.players ==> s.players[t].slot < |slots|
  }

  /** command.c's SWITCH: the counters of the mode that is left are reset. */
  function SwitchStep(slots: seq<Slot>, s: State, mode: nat): State
    requires |s.macros| == |slots|
  {
    if mode == s.mode then s
    else s.(mode := mode,
            macros := seq(|slots|, i requires 0 <= i < |slots| =>
              if slots[i].mode == s.mode then s.macros[i].(triggered := 0) else s.macros[i]))
  }

  function Step(slots: seq<Slot>, s: State, a: Action): State
    requires WellFormed(slots, s) && Enabled(slots, s, a)
  {
    match a
    case Scan(keys, outcomes) => ScanTo(slots, s, keys, outcomes, |slots|)
    case Switch(mode) => SwitchStep(slots, s, mode)
    case Enqueue(t) => SetPhase(s, t, Queued).(list := s.list + [t])
    case Begin(t) => s.(players := s.players[t := Player(s.players[t].slot, Playing, true)])
    case Decide(t) => DecideStep(s, t)
    case Wake(t) => WakeStep(s, t)
    case Leave(t) => s.(players := s.players - {t}, list := if s.list == [] then [] else s.list[1..])
  }

  function Initial(slots: seq<Slot>, mode: nat): State {
    State(mode, seq(|slots|, _ => Macro(0, None)), map[], [], 0)
  }

  // ----- the invariant

  /** `param` and the players that have not given up agree, one to one. */
  ghost predicate Owned(slots: seq<Slot>, s: State) {
    && WellFormed(slots, s)
    && (forall t :: t in s.players ==> t < s.next)
    && (forall i :: 0 <= i < |s.macros| && s.macros[i].param.Some? ==>
          && s.macros[i].param.value in s.players
          && s.players[s.macros[i].param.value].slot == i
          && !s.players[s.macros[i].param.value].phase.Exiting?)
    && (forall t :: t in s.players && !s.players[t].phase.Exiting? ==>
          s.macros[s.players[t].slot].param == Some(t))
  }

  /** Every macro with a non-zero counter has a live player. */
  ghost predicate Live(s: State) {
    forall i :: 0 <= i < |s.macros| && s.macros[i].triggered != 0 ==> s.macros[i].param.Some?
  }

  ghost predicate WheelsEven(slots: seq<Slot>, s: State)
    requires |s.macros| == |slots|
  {
    forall i :: 0 <= i < |slots| && slots[i].HasWheel() ==> !Odd(s.macros[i].triggered)
  }

  /** Only the head of the list is past waiting. */
  ghost predicate Listed(s: State) {
    && (forall j :: 0 <= j < |s.list| ==> s.list[j] in s.players && !s.players[s.list[j]].phase.Started?)
    && (forall j :: 0 < j < |s.list| ==> s.players[s.list[j]].phase.Queued?)
    && (forall j, k :: 0 <= j < k < |s.list| ==> s.list[j] != s.list[k])
    && (forall t :: t in s.players && !s.players[t].phase.Started? ==> t in s.list)
  }

  ghost predicate InRange(s: State) {
    forall i :: 0 <= i < |s.macros| ==> -128 <= s.macros[i].triggered < 128
  }

  ghost predicate Inv(slots: seq<Slot>, s: State) {
    Owned(slots, s) && Live(s) && WheelsEven(slots, s) && Listed(s) && InRange(s)
  }

  // ----- every step keeps the invariant

  lemma CharFacts(x: int)
    requires -256 <= x < 256
    ensures -128 <= Char(x) < 128
    ensures Odd(Char(x)) == Odd(x)
  {}

  lemma PressedFacts(slot: Slot, triggered: int)
    requires -128 <= triggered < 128 && !Odd(triggered)
    ensures -128 <= Pressed(slot, triggered) < 128
    ensures Odd(Pressed(slot, triggered)) == !slot.HasWheel()
    ensures triggered == 0 ==> Pressed(slot, triggered) != 0
  {
    CharFacts(triggered + 1);
    CharFacts(Char(triggered + 1) + 1);
  }

  /** Slot `i` would start a player in this scan and there is no memory for one. */
  predicate Starved(slots: seq<Slot>, s: State, keys: set<nat>, outcome: Outcome, i: nat)
    requires |s.macros| == |slots| && i < |slots|
  {
    slots[i].mode == s.mode && Starts(slots[i], keys, s.macros[i]) && outcome == NoMemory
  }

  /** Apart from the counter range and the wheels, everything survives changing one
      counter, provided a non-zero one has its player. */
  lemma CounterKeeps(slots: seq<Slot>, s: State, i: nat, n: int)
    requires Inv(slots, s) && i < |slots| && -128 <= n < 128
    requires n != 0 ==> s.macros[i].param.Some?
    requires slots[i].HasWheel() ==> !Odd(n)
    ensures Inv(slots, s.(macros := s.macros[i := s.macros[i].(triggered := n)]))
  {}

  lemma CreateKeeps(slots: seq<Slot>, s: State, i: nat, n: int)
    requires Inv(slots, s) && i < |slots| && -128 <= n < 128
    requires s.macros[i].param.None?
    requires slots[i].HasWheel() ==> !Odd(n)
    ensures Inv(slots, s.(macros := s.macros[i := Macro(n, Some(s.next))],
                          players := s.players[s.next := Player(i, Started, true)],
                          next := s.next + 1))
  {
    assert s.next !in s.players;
  }

  lemma ScanOneKeeps(slots: seq<Slot>, s: State, keys: set<nat>, outcome: Outcome, i: nat)
    requires Inv(slots, s) && i < |slots| && !Starved(slots, s, keys, outcome, i)
    ensures Inv(slots, ScanOne(slots, s, keys, outcome, i))
  {
    var macro := s.macros[i];
    if slots[i].mode != s.mode {
    } else if Activates(slots[i], keys, macro.triggered) {
      PressedFacts(slots[i], macro.triggered);
      var n := Pressed(slots[i], macro.triggered);
      if !Starts(slots[i], keys, macro) {
        CounterKeeps(slots, s, i, n);
      } else if outcome == Created {
        CreateKeeps(slots, s, i, n);
      } else {
        assert s.macros[i] == Macro(0, None);
        assert s.macros[i := Macro(0, None)] == s.macros;
      }
    } else if !(slots[i].combo <= keys) && Odd(macro.triggered) {
      CharFacts(macro.triggered + 1);
      CounterKeeps(slots, s, i, Char(macro.triggered + 1));
    }
  }

  lemma {:induction false} ScanUntouched(slots: seq<Slot>, s: State, keys: set<nat>, outcomes: seq<Outcome>, n: nat, i: nat)
    requires |s.macros| == |slots| == |outcomes| && n <= i < |slots|
    ensures ScanTo(slots, s, keys, outcomes, n).macros[i] == s.macros[i]
  {
    if n > 0 { ScanUntouched(slots, s, keys, outcomes, n - 1, i); }
  }

  lemma {:induction false} ScanKeeps(slots: seq<Slot>, s: State, keys: set<nat>, outcomes: seq<Outcome>, n: nat)
    requires Inv(slots, s) && |outcomes| == |slots| && n <= |slots|
    requires forall i :: 0 <= i < n ==> !Starved(slots, s, keys, outcomes[i], i)
    ensures Inv(slots, ScanTo(slots, s, keys, outcomes, n))
  {
    if n > 0 {
      ScanKeeps(slots, s, keys, outcomes, n - 1);
      ScanUntouched(slots, s, keys, outcomes, n - 1, n - 1);
      assert !Starved(slots, s, keys, outcomes[n - 1], n - 1);
      ScanOneKeeps(slots, ScanTo(slots, s, keys, outcomes, n - 1), keys, outcomes[n - 1], n - 1);
    }
  }

  lemma EnqueueKeeps(slots: seq<Slot>, s: State, t: Tid)
    requires Inv(slots, s) && Enabled(slots, s, Enqueue(t))
    ensures Inv(slots, Step(slots, s, Enqueue(t)))
  {
    var s' := Step(slots, s, Enqueue(t));
    assert t !in s.list;
    forall u | u in s'.players && !s'.players[u].phase.Started? ensures u in s'.list {
      if u != t { assert u in s.list; }
      assert s'.list[|s.list|] == t;
    }
  }

  /** Among the players that are past waiting there is only the head of the list. */
  lemma RunnerIsHead(s: State, t: Tid)
    requires Listed(s) && t in s.players
    requires !s.players[t].phase.Started? && !s.players[t].phase.Queued?
    ensures s.list != [] && s.list[0] == t
  {
    var j :| 0 <= j < |s.list| && s.list[j] == t;
  }

  lemma PhaseKeeps(slots: seq<Slot>, s: State, t: Tid, p: Player)
    requires Inv(slots, s) && s.list != [] && s.list[0] == t && t in s.players
    requires !s.players[t].phase.Exiting? && !p.phase.Exiting? && !p.phase.Started?
    requires p.slot == s.players[t].slot
    ensures Inv(slots, s.(players := s.players[t := p]))
  {}

  lemma FinishKeeps(slots: seq<Slot>, s: State, t: Tid)
    requires Inv(slots, s) && s.list != [] && s.list[0] == t && t in s.players && !s.players[t].phase.Exiting?
    ensures Inv(slots, Finish(s, t))
  {
    FinishKeepsOwners(slots, s, t);
    FinishKeepsList(s, t);
  }

  lemma FinishKeepsList(s: State, t: Tid)
    requires Listed(s) && s.list != [] && s.list[0] == t && t in s.players && s.players[t].slot < |s.macros|
    ensures Listed(Finish(s, t))
  {}

  lemma FinishKeepsOwners(slots: seq<Slot>, s: State, t: Tid)
    requires Owned(slots, s) && t in s.players && !s.players[t].phase.Exiting?
    ensures Owned(slots, Finish(s, t))
  {
    var s' := Finish(s, t);
    forall u | u in s'.players && !s'.players[u].phase.Exiting?
      ensures s'.macros[s'.players[u].slot].param == Some(u)
    {
      assert u != t;
      assert s.macros[s.players[u].slot].param == Some(u);
      assert s.macros[s.players[t].slot].param == Some(t);
    }
    forall i | 0 <= i < |s'.macros| && s'.macros[i].param.Some?
      ensures var u := s'.macros[i].param.value;
              u in s'.players && s'.players[u].slot == i && !s'.players[u].phase.Exiting?
    {
      assert s'.macros[i] == s.macros[i];
    }
  }

  lemma DecideKeeps(slots: seq<Slot>, s: State, t: Tid)
    requires Inv(slots, s) && t in s.players && s.players[t].phase.Playing?
    ensures Inv(slots, DecideStep(s, t))
  {
    RunnerIsHead(s, t);
    var p := s.players[t];
    var macro := s.macros[p.slot];
    assert macro.param == Some(t);
    if macro.triggered == 2 || macro.triggered == 0 {
      FinishKeeps(slots, s, t);
    } else if macro.triggered > 1 {
      var s1 := s.(players := s.players[t := Player(p.slot, Playing, true)]);
      PhaseKeeps(slots, s, t, Player(p.slot, Playing, true));
      CounterKeeps(slots, s1, p.slot, macro.triggered - 2);
      assert DecideStep(s, t) == s1.(macros := s1.macros[p.slot := s1.macros[p.slot].(triggered := macro.triggered - 2)]);
    } else {
      PhaseKeeps(slots, s, t, p.(phase := Sleeping));
    }
  }

  lemma WakeKeeps(slots: seq<Slot>, s: State, t: Tid)
    requires Inv(slots, s) && t in s.players && s.players[t].phase.Sleeping?
    ensures Inv(slots, WakeStep(s, t))
  {
    RunnerIsHead(s, t);
    var p := s.players[t];
    var triggered := s.macros[p.slot].triggered;
    if triggered == 2 {
      FinishKeeps(slots, s, t);
    } else {
      PhaseKeeps(slots, s, t, Player(p.slot, Playing, if triggered == 1 then false else p.first));
    }
  }

  lemma LeaveKeepsList(slots: seq<Slot>, s: State, t: Tid)
    requires Owned(slots, s) && Listed(s) && Enabled(slots, s, Leave(t)) && s.list != [] && s.list[0] == t
    ensures Listed(Step(slots, s, Leave(t)))
  {
    var s' := Step(slots, s, Leave(t));
    forall j | 0 <= j < |s'.list|
      ensures s'.list[j] == s.list[j + 1] && s'.list[j] in s'.players && s'.players[s'.list[j]].phase.Queued?
    {}
    forall u | u in s'.players && !s'.players[u].phase.Started? ensures u in s'.list {
      var j :| 0 <= j < |s.list| && s.list[j] == u;
      assert s'.list[j - 1] == u;
    }
  }

  lemma LeaveKeeps(slots: seq<Slot>, s: State, t: Tid)
    requires Inv(slots, s) && Enabled(slots, s, Leave(t))
    ensures Inv(slots, Step(slots, s, Leave(t)))
  {
    RunnerIsHead(s, t);
    LeaveKeepsList(slots, s, t);
  }

  lemma SwitchKeeps(slots: seq<Slot>, s: State, mode: nat)
    requires Inv(slots, s)
    ensures Inv(slots, SwitchStep(slots, s, mode))
  {
    var s' := SwitchStep(slots, s, mode);
    forall i | 0 <= i < |slots|
      ensures s'.macros[i].param == s.macros[i].param && s'.macros[i].triggered in {0, s.macros[i].triggered}
    {}
  }

  /** A scan runs out of memory if some slot is starved in it. */
  ghost predicate OutOfMemory(slots: seq<Slot>, s: State, a: Action)
    requires |s.macros| == |slots| && Enabled(slots, s, a)
  {
    a.Scan? && exists i :: 0 <= i < |slots| && Starved(slots, s, a.keys, a.outcomes[i], i)
  }

  lemma Kept(slots: seq<Slot>, s: State, a: Action)
    requires Inv(slots, s) && Enabled(slots, s, a) && !OutOfMemory(slots, s, a)
    ensures Inv(slots, Step(slots, s, a))
  {
    match a
    case Scan(keys, outcomes) => ScanKeeps(slots, s, keys, outcomes, |slots|);
    case Switch(mode) => SwitchKeeps(slots, s, mode);
    case Enqueue(t) => EnqueueKeeps(slots, s, t);
    case Leave(t) => LeaveKeeps(slots, s, t);
    case Begin(t) => PhaseKeeps(slots, s, t, Player(s.players[t].slot, Playing, true));
    case Decide(t) => DecideKeeps(slots, s, t);
    case Wake(t) => WakeKeeps(slots, s, t);
  }

  predicate Runnable(slots: seq<Slot>, s: State, acts: seq<Action>)
    decreases |acts|
  {
    acts == [] || (WellFormed(slots, s) && Enabled(slots, s, acts[0]) && Runnable(slots, Step(slots, s, acts[0]), acts[1..]))
  }

  function Run(slots: seq<Slot>, s: State, acts: seq<Action>): State
    requires Runnable(slots, s, acts)
    decreases |acts|
  {
    if acts == [] then s else Run(slots, Step(slots, s, acts[0]), acts[1..])
  }

  ghost predicate NeverOutOfMemory(slots: seq<Slot>, s: State, acts: seq<Action>)
    requires Runnable(slots, s, acts)
    decreases |acts|
  {
    acts == [] || (!OutOfMemory(slots, s, acts[0]) && NeverOutOfMemory(slots, Step(slots, s, acts[0]), acts[1..]))
  }

  lemma InitialHolds(slots: seq<Slot>, mode: nat)
    ensures Inv(slots, Initial(slots, mode))
  {}

  /** Over every run in which malloc does not fail for a starting player, threads failing
      to start included: every macro with a non-zero counter has exactly one live player,
      wheel counters stay even, and only the head of the thread list plays. */
  lemma {:induction false} LiveOverRuns(slots: seq<Slot>, s: State, acts: seq<Action>)
    requires Inv(slots, s) && Runnable(slots, s, acts) && NeverOutOfMemory(slots, s, acts)
    ensures Inv(slots, Run(slots, s, acts))
    decreases |acts|
  {
    if acts != [] {
      Kept(slots, s, acts[0]);
      LiveOverRuns(slots, Step(slots, s, acts[0]), acts[1..]);
    }
  }

  // ----- what a scan does to one counter

  /** The counter of a slot of the current mode after a scan. */
  function Scanned(slot: Slot, keys: set<nat>, macro: Macro, outcome: Outcome): int {
    if Activates(slot, keys, macro.triggered) then
      if Starts(slot, keys, macro) && outcome == NoThread then 0 else Pressed(slot, macro.triggered)
    else if !(slot.combo <= keys) && Odd(macro.triggered) then Char(macro.triggered + 1)
    else macro.triggered
  }

  lemma {:induction false} ScanEffect(slots: seq<Slot>, s: State, keys: set<nat>, outcomes: seq<Outcome>, n: nat, i: nat)
    requires |s.macros| == |slots| == |outcomes| && i < n <= |slots|
    ensures var s' := ScanTo(slots, s, keys, outcomes, n);
      if slots[i].mode != s.mode then s'.macros[i] == s.macros[i]
      else && s'.macros[i].triggered == Scanned(slots[i], keys, s.macros[i], outcomes[i])
           && (s'.macros[i].param != s.macros[i].param ==> Starts(slots[i], keys, s.macros[i]) && outcomes[i] == Created)
           && (Starts(slots[i], keys, s.macros[i]) && outcomes[i] == Created ==> s'.macros[i].param.Some?)
  {
    if i == n - 1 {
      ScanUntouched(slots, s, keys, outcomes, n - 1, i);
    } else {
      ScanEffect(slots, s, keys, outcomes, n - 1, i);
    }
  }

  /** Right after a scan a macro of the current mode without wheels has an odd counter
      exactly when its combo is held, unless its thread could not be started in this very
      scan; one with a wheel has an even counter in any case. */
  lemma ParityAfterScan(slots: seq<Slot>, s: State, keys: set<nat>, outcomes: seq<Outcome>, i: nat)
    requires Inv(slots, s) && |outcomes| == |slots| && i < |slots| && slots[i].mode == s.mode
    ensures var t := Step(slots, s, Scan(keys, outcomes)).macros[i].triggered;
      if slots[i].HasWheel() then !Odd(t)
      else (Odd(t) == (slots[i].combo <= keys)) <==> !(Starts(slots[i], keys, s.macros[i]) && outcomes[i] == NoThread)
  {
    ScanEffect(slots, s, keys, outcomes, |slots|, i);
    var macro := s.macros[i];
    if Activates(slots[i], keys, macro.triggered) {
      PressedFacts(slots[i], macro.triggered);
    } else {
      CharFacts(macro.triggered + 1);
    }
  }

  /** A player is started for a macro without one exactly if the combo is held, the counter says
      "up" and stays at three or less.  After a lack of memory the counter is raised without a
      player: a macro without wheels is tried once more, one with a wheel never before it wraps. */
  lemma StartsExactly(slot: Slot, keys: set<nat>, macro: Macro)
    requires -128 <= macro.triggered < 128
    ensures Starts(slot, keys, macro) <==>
      && slot.combo <= keys && macro.param.None? && macro.triggered % 2 == 0
      && (if slot.HasWheel() then macro.triggered <= 0 || macro.triggered == 126 else macro.triggered <= 2)
  {}

  /** SWITCH to another mode sets the counters of the mode that is left to zero, and leaves all
      other counters and all players alone; SWITCH to the current mode does nothing. */
  lemma SwitchExactly(slots: seq<Slot>, s: State, mode: nat)
    requires WellFormed(slots, s)
    ensures var r := Step(slots, s, Switch(mode));
      && r.mode == mode && |r.macros| == |s.macros| && r.players == s.players && r.list == s.list && r.next == s.next
      && forall i :: 0 <= i < |slots| ==>
           && r.macros[i].param == s.macros[i].param
           && r.macros[i].triggered == if mode != s.mode && slots[i].mode == s.mode then 0 else s.macros[i].triggered
  {}

  /** A scan leaves a live system live if and only if no slot is starved in it. */
  lemma LiveExactly(slots: seq<Slot>, s: State, keys: set<nat>, outcomes: seq<Outcome>)
    requires Inv(slots, s) && |outcomes| == |slots|
    ensures Live(Step(slots, s, Scan(keys, outcomes))) <==> !OutOfMemory(slots, s, Scan(keys, outcomes))
  {
    if OutOfMemory(slots, s, Scan(keys, outcomes)) {
      var i :| 0 <= i < |slots| && Starved(slots, s, keys, outcomes[i], i);
      ScanEffect(slots, s, keys, outcomes, |slots|, i);
      PressedFacts(slots[i], s.macros[i].triggered);
      assert s.macros[i].triggered == 0;
    } else {
      Kept(slots, s, Scan(keys, outcomes));
    }
  }

  lemma PlayerStepParity(slots: seq<Slot>, s: State, a: Action, i: nat)
    requires WellFormed(slots, s) && Enabled(slots, s, a) && a.ByPlayer() && i < |slots|
    ensures WellFormed(slots, Step(slots, s, a))
    ensures Odd(Step(slots, s, a).macros[i].triggered) == Odd(s.macros[i].triggered)
  {}

  /** Between scans no player changes the parity of any counter. */
  lemma {:induction false} PlayersKeepParity(slots: seq<Slot>, s: State, acts: seq<Action>, i: nat)
    requires WellFormed(slots, s) && Runnable(slots, s, acts) && i < |slots|
    requires forall a :: a in acts ==> a.ByPlayer()
    ensures WellFormed(slots, Run(slots, s, acts))
    ensures Odd(Run(slots, s, acts).macros[i].triggered) == Odd(s.macros[i].triggered)
    decreases |acts|
  {
    if acts != [] {
      assert acts[0] in acts;
      PlayerStepParity(slots, s, acts[0], i);
      PlayersKeepParity(slots, Step(slots, s, acts[0]), acts[1..], i);
    }
  }
}
