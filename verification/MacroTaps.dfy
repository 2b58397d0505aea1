/** Macros without wheels: the counter against the presses and releases of their keys. */
module MacroTaps {
  import opened MacroEngine
  import opened MacroWheels

  /** The combo goes down or up in this scan, by the keys before and now. */
  predicate Edge(slots: seq<Slot>, a: Action, i: nat, held: bool)
    requires i < |slots|
  {
    a.Scan? && (slots[i].combo <= a.keys) != held
  }

  /** Is the combo held after this step? */
  predicate HeldAfter(slots: seq<Slot>, a: Action, i: nat, held: bool)
    requires i < |slots|
  {
    if a.Scan? then slots[i].combo <= a.keys else held
  }

  /** The player takes a press and a release off the counter: after a pass, or when it wakes up
      to find the keys released. */
  predicate Settled(slots: seq<Slot>, s: State, a: Action, i: nat)
    requires WellFormed(slots, s) && Enabled(slots, s, a) && i < |slots|
  {
    (a.Decide? && s.players[a.t].slot == i && s.macros[i].triggered > 1)
    || (a.Wake? && s.players[a.t].slot == i && s.macros[i].triggered == 2)
  }

  /** The player wakes up and plays again, because the keys are held or were pressed again. */
  predicate Repeated(slots: seq<Slot>, s: State, a: Action, i: nat)
    requires WellFormed(slots, s) && Enabled(slots, s, a) && i < |slots|
  {
    a.Wake? && s.players[a.t].slot == i && s.macros[i].triggered != 2
  }

  /** A release that finds the counter at 127 has no room: 128 wraps to -128. */
  predicate Overruns(slots: seq<Slot>, s: State, a: Action, i: nat, held: bool)
    requires WellFormed(slots, s) && i < |slots|
  {
    Edge(slots, a, i, held) && s.macros[i].triggered == 127
  }

  /** A macro of the current mode without wheels: its counter says whether it is held, and as
      long as it has a player there is something to play. */
  ghost predicate Tapped(slots: seq<Slot>, s: State, i: nat, held: bool)
    requires Owned(slots, s)
  {
    && i < |slots| && !slots[i].HasWheel() && slots[i].mode == s.mode
    && 0 <= s.macros[i].triggered && (Odd(s.macros[i].triggered) <==> held)
    && (s.macros[i].param.Some? <==> s.macros[i].triggered > 0)
  }

  /** A pass that was begun and is not settled: being played, or played and slept after. */
  ghost function Open(slots: seq<Slot>, s: State, i: nat): nat
    requires Owned(slots, s) && i < |slots|
  {
    Count(s.macros[i].param.Some? && (s.players[s.macros[i].param.value].phase.Playing? || s.players[s.macros[i].param.value].phase.Sleeping?))
  }

  // ----- one step

  /** A scan moves the counter by one for an edge, and by nothing otherwise. */
  lemma ScanTaps(slots: seq<Slot>, s: State, a: Action, i: nat, held: bool)
    requires Inv(slots, s) && Enabled(slots, s, a) && Calm(a) && a.Scan? && i < |slots| && Tapped(slots, s, i, held)
    ensures Inv(slots, Step(slots, s, a))
    ensures Step(slots, s, a).macros[i].triggered - s.macros[i].triggered
            == if Overruns(slots, s, a, i, held) then -255 else Count(Edge(slots, a, i, held))
    ensures !Overruns(slots, s, a, i, held) ==>
      && Tapped(slots, Step(slots, s, a), i, HeldAfter(slots, a, i, held))
      && Open(slots, Step(slots, s, a), i) == Open(slots, s, i)
  {
    UndisturbedKeeps(slots, s, a);
    assert a.outcomes[i] == Created;
    ScanEffect(slots, s, a.keys, a.outcomes, |slots|, i);
    ScanPlayers(slots, s, a.keys, a.outcomes, |slots|);
    ScanOwner(slots, s, a, i, held);
  }

  lemma ScanOwner(slots: seq<Slot>, s: State, a: Action, i: nat, held: bool)
    requires Inv(slots, s) && Enabled(slots, s, a) && Calm(a) && a.Scan? && i < |slots| && Tapped(slots, s, i, held)
    requires Owned(slots, Step(slots, s, a))
    ensures s.macros[i].param.Some? ==> Step(slots, s, a).macros[i].param == s.macros[i].param
    ensures Open(slots, Step(slots, s, a), i) == Open(slots, s, i)
  {
    assert a.outcomes[i] == Created;
    ScanEffect(slots, s, a.keys, a.outcomes, |slots|, i);
    ScanPlayers(slots, s, a.keys, a.outcomes, |slots|);
  }

  lemma DecideTaps(slots: seq<Slot>, s: State, t: Tid, i: nat, held: bool)
    requires Owned(slots, s) && Enabled(slots, s, Decide(t)) && Owned(slots, DecideStep(s, t))
    requires i < |slots| && Tapped(slots, s, i, held) && s.players[t].slot == i
    ensures var s' := DecideStep(s, t);
      && Tapped(slots, s', i, held)
      && s'.macros[i].triggered == s.macros[i].triggered - 2 * Count(Settled(slots, s, Decide(t), i))
      && Open(slots, s', i) == Open(slots, s, i) + Count(StartsPass(slots, s, Decide(t), i)) - Count(Settled(slots, s, Decide(t), i))
  {
    OwnPlayer(slots, s, t, i);
  }

  lemma WakeTaps(slots: seq<Slot>, s: State, t: Tid, i: nat, held: bool)
    requires Owned(slots, s) && Enabled(slots, s, Wake(t)) && Owned(slots, WakeStep(s, t))
    requires i < |slots| && Tapped(slots, s, i, held) && s.players[t].slot == i
    ensures var s' := WakeStep(s, t);
      && Tapped(slots, s', i, held)
      && s'.macros[i].triggered == s.macros[i].triggered - 2 * Count(Settled(slots, s, Wake(t), i))
      && Open(slots, s', i) == Open(slots, s, i) - Count(Settled(slots, s, Wake(t), i))
      && Count(StartsPass(slots, s, Wake(t), i)) == Count(Repeated(slots, s, Wake(t), i))
  {
    OwnPlayer(slots, s, t, i);
  }

  lemma BeginTaps(slots: seq<Slot>, s: State, t: Tid, i: nat, held: bool)
    requires Owned(slots, s) && Enabled(slots, s, Begin(t)) && Owned(slots, Step(slots, s, Begin(t)))
    requires i < |slots| && Tapped(slots, s, i, held) && s.players[t].slot == i
    ensures var s' := Step(slots, s, Begin(t));
      Tapped(slots, s', i, held) && s'.macros == s.macros && Open(slots, s', i) == Open(slots, s, i) + 1 == 1
  {
    OwnPlayer(slots, s, t, i);
  }

  lemma OthersTap(slots: seq<Slot>, s: State, a: Action, i: nat, held: bool)
    requires Owned(slots, s) && Enabled(slots, s, a) && a.ByPlayer() && Owned(slots, Step(slots, s, a))
    requires i < |slots| && Tapped(slots, s, i, held)
    requires s.players[a.t].slot != i || a.Enqueue? || a.Leave?
    ensures var s' := Step(slots, s, a);
      Tapped(slots, s', i, held) && s'.macros[i] == s.macros[i] && Open(slots, s', i) == Open(slots, s, i)
  {
    if s.macros[i].param.Some? { OwnPlayer(slots, s, s.macros[i].param.value, i); }
  }

  lemma PlayerTaps(slots: seq<Slot>, s: State, a: Action, i: nat, held: bool)
    requires Inv(slots, s) && Enabled(slots, s, a) && a.ByPlayer() && i < |slots| && Tapped(slots, s, i, held)
    ensures var s' := Step(slots, s, a);
      && Inv(slots, s') && Tapped(slots, s', i, held)
      && s'.macros[i].triggered == s.macros[i].triggered - 2 * Count(Settled(slots, s, a, i))
      && Open(slots, s', i) == Open(slots, s, i) + Count(StartsPass(slots, s, a, i))
           - Count(Repeated(slots, s, a, i)) - Count(Settled(slots, s, a, i))
  {
    Kept(slots, s, a);
    if s.players[a.t].slot != i || a.Enqueue? || a.Leave? { OthersTap(slots, s, a, i, held); }
    else if a.Begin? { BeginTaps(slots, s, a.t, i, held); }
    else if a.Decide? { DecideTaps(slots, s, a.t, i, held); }
    else { WakeTaps(slots, s, a.t, i, held); }
  }

  lemma StepTaps(slots: seq<Slot>, s: State, a: Action, i: nat, held: bool)
    requires Inv(slots, s) && Enabled(slots, s, a) && Calm(a) && i < |slots| && Tapped(slots, s, i, held)
    requires !Overruns(slots, s, a, i, held)
    ensures var s' := Step(slots, s, a);
      && Inv(slots, s') && Tapped(slots, s', i, HeldAfter(slots, a, i, held))
      && s'.macros[i].triggered == s.macros[i].triggered + Count(Edge(slots, a, i, held)) - 2 * Count(Settled(slots, s, a, i))
      && Open(slots, s', i) == Open(slots, s, i) + Count(StartsPass(slots, s, a, i))
           - Count(Repeated(slots, s, a, i)) - Count(Settled(slots, s, a, i))
  {
    if a.Scan? { ScanTaps(slots, s, a, i, held); } else { PlayerTaps(slots, s, a, i, held); }
  }

  // ----- runs

  /** `edges`: presses and releases so far, less two for every settled pass.  In every state of
      the run it is the counter. */
  ghost predicate AlwaysCounted(slots: seq<Slot>, s: State, acts: seq<Action>, i: nat, held: bool, edges: int)
    requires Runnable(slots, s, acts) && WellFormed(slots, s) && i < |slots|
    decreases |acts|
  {
    && s.macros[i].triggered == edges
    && (acts == [] ||
        var s' := Step(slots, s, acts[0]);
        WellFormed(slots, s') && AlwaysCounted(slots, s', acts[1..], i, HeldAfter(slots, acts[0], i, held),
          edges + Count(Edge(slots, acts[0], i, held)) - 2 * Count(Settled(slots, s, acts[0], i))))
  }

  ghost predicate EverOverruns(slots: seq<Slot>, s: State, acts: seq<Action>, i: nat, held: bool)
    requires Runnable(slots, s, acts) && WellFormed(slots, s) && i < |slots|
    decreases |acts|
  {
    acts != [] && (Overruns(slots, s, acts[0], i, held)
                   || (WellFormed(slots, Step(slots, s, acts[0]))
                       && EverOverruns(slots, Step(slots, s, acts[0]), acts[1..], i, HeldAfter(slots, acts[0], i, held))))
  }

  lemma OverrunBreaks(slots: seq<Slot>, s: State, acts: seq<Action>, i: nat, held: bool, edges: int)
    requires Inv(slots, s) && Runnable(slots, s, acts) && acts != [] && Calm(acts[0]) && i < |slots| && Tapped(slots, s, i, held)
    requires Overruns(slots, s, acts[0], i, held) && s.macros[i].triggered == edges
    ensures !AlwaysCounted(slots, s, acts, i, held, edges)
  {
    ScanTaps(slots, s, acts[0], i, held);
  }

  lemma CountedNext(slots: seq<Slot>, s: State, acts: seq<Action>, i: nat, held: bool, edges: int) returns (edges': int)
    requires Inv(slots, s) && Runnable(slots, s, acts) && acts != [] && Calm(acts[0]) && i < |slots| && Tapped(slots, s, i, held)
    requires !Overruns(slots, s, acts[0], i, held) && s.macros[i].triggered == edges
    ensures var s', held' := Step(slots, s, acts[0]), HeldAfter(slots, acts[0], i, held);
      && Inv(slots, s') && Tapped(slots, s', i, held') && s'.macros[i].triggered == edges'
      && (AlwaysCounted(slots, s, acts, i, held, edges) <==> AlwaysCounted(slots, s', acts[1..], i, held', edges'))
  {
    StepTaps(slots, s, acts[0], i, held);
    edges' := edges + Count(Edge(slots, acts[0], i, held)) - 2 * Count(Settled(slots, s, acts[0], i));
    CountedUnfolds(slots, s, acts, i, held, edges);
  }

  lemma CountedUnfolds(slots: seq<Slot>, s: State, acts: seq<Action>, i: nat, held: bool, edges: int)
    requires WellFormed(slots, s) && Runnable(slots, s, acts) && acts != [] && i < |slots| && s.macros[i].triggered == edges
    requires WellFormed(slots, Step(slots, s, acts[0]))
    ensures AlwaysCounted(slots, s, acts, i, held, edges)
            <==> AlwaysCounted(slots, Step(slots, s, acts[0]), acts[1..], i, HeldAfter(slots, acts[0], i, held),
                   edges + Count(Edge(slots, acts[0], i, held)) - 2 * Count(Settled(slots, s, acts[0], i)))
  {}

  /** Over every undisturbed run the counter is the number of presses and releases less two for
      every settled pass, in every state, if and only if no release finds it at 127. */
  lemma {:induction false} CountedExactly(slots: seq<Slot>, s: State, acts: seq<Action>, i: nat, held: bool, edges: int)
    requires Inv(slots, s) && Runnable(slots, s, acts) && Undisturbed(acts) && i < |slots| && Tapped(slots, s, i, held)
    requires s.macros[i].triggered == edges
    ensures AlwaysCounted(slots, s, acts, i, held, edges) <==> !EverOverruns(slots, s, acts, i, held)
    decreases |acts|
  {
    if acts != [] {
      assert acts[0] in acts;
      if Overruns(slots, s, acts[0], i, held) {
        OverrunBreaks(slots, s, acts, i, held, edges);
      } else {
        var edges' := CountedNext(slots, s, acts, i, held, edges);
        CountedExactly(slots, Step(slots, s, acts[0]), acts[1..], i, HeldAfter(slots, acts[0], i, held), edges');
      }
    }
  }

  /** Presses and releases of the combo, by the keys of the scans alone. */
  function Edges(slots: seq<Slot>, acts: seq<Action>, i: nat, held: bool): nat
    requires i < |slots|
  {
    if acts == [] then 0
    else Count(Edge(slots, acts[0], i, held)) + Edges(slots, acts[1..], i, HeldAfter(slots, acts[0], i, held))
  }

  /** Passes that a player played again after its sleep. */
  function Repeats(slots: seq<Slot>, s: State, acts: seq<Action>, i: nat): nat
    requires Runnable(slots, s, acts) && WellFormed(slots, s) && i < |slots|
    decreases |acts|
  {
    if acts == [] || !WellFormed(slots, Step(slots, s, acts[0])) then 0
    else Count(Repeated(slots, s, acts[0], i)) + Repeats(slots, Step(slots, s, acts[0]), acts[1..], i)
  }

  predicate HeldAtEnd(slots: seq<Slot>, acts: seq<Action>, i: nat, held: bool)
    requires i < |slots|
  {
    if acts == [] then held else HeldAtEnd(slots, acts[1..], i, HeldAfter(slots, acts[0], i, held))
  }

  /** Twice the passes that are not repeats, less what is open, are the presses and releases less
      what the counter still holds. */
  lemma {:induction false} TapLedger(slots: seq<Slot>, s: State, acts: seq<Action>, i: nat, held: bool)
    requires Inv(slots, s) && Runnable(slots, s, acts) && Undisturbed(acts) && i < |slots| && Tapped(slots, s, i, held)
    requires !EverOverruns(slots, s, acts, i, held)
    ensures var s' := Run(slots, s, acts);
      && Inv(slots, s') && Tapped(slots, s', i, HeldAtEnd(slots, acts, i, held))
      && 2 * (Passes(slots, s, acts, i) - Repeats(slots, s, acts, i) - Open(slots, s', i) + Open(slots, s, i))
         == Edges(slots, acts, i, held) - s'.macros[i].triggered + s.macros[i].triggered
    decreases |acts|
  {
    if acts != [] {
      assert acts[0] in acts;
      StepTaps(slots, s, acts[0], i, held);
      TapLedger(slots, Step(slots, s, acts[0]), acts[1..], i, HeldAfter(slots, acts[0], i, held));
    }
  }

  /** From the start, when the player has exited again: every press and release was played
      exactly once, repeats apart. */
  lemma TapsPlayed(slots: seq<Slot>, mode: nat, acts: seq<Action>, i: nat)
    requires Runnable(slots, Initial(slots, mode), acts) && Undisturbed(acts)
    requires i < |slots| && slots[i].mode == mode && !slots[i].HasWheel()
    requires !EverOverruns(slots, Initial(slots, mode), acts, i, false)
    ensures var s, s' := Initial(slots, mode), Run(slots, Initial(slots, mode), acts);
      && Inv(slots, s') && s'.macros[i].triggered >= 0
      && (s'.macros[i].param.None? ==>
            2 * Passes(slots, s, acts, i) == Edges(slots, acts, i, false) + 2 * Repeats(slots, s, acts, i))
  {
    TapLedger(slots, Initial(slots, mode), acts, i, false);
  }

  /** One tap of an idle macro that is over before the player wakes up plays exactly one pass. */
  lemma OneTapOnePass(slots: seq<Slot>, mode: nat, acts: seq<Action>, i: nat)
    requires Runnable(slots, Initial(slots, mode), acts) && Undisturbed(acts)
    requires i < |slots| && slots[i].mode == mode && !slots[i].HasWheel()
    requires Edges(slots, acts, i, false) == 2
    requires Repeats(slots, Initial(slots, mode), acts, i) == 0
    requires WellFormed(slots, Run(slots, Initial(slots, mode), acts))
    requires Run(slots, Initial(slots, mode), acts).macros[i].param.None?
    ensures Passes(slots, Initial(slots, mode), acts, i) == 1
  {
    FewEdges(slots, Initial(slots, mode), acts, i, false);
    TapsPlayed(slots, mode, acts, i);
  }

  /** While the keys stay down a player goes round: it sleeps for the first time with the delay of
      a first repeat, and every later time with the other one. */
  lemma {:induction false} HeldRepeats(slots: seq<Slot>, s: State, t: Tid, n: nat)
    requires WellFormed(slots, s) && t in s.players && s.players[t].phase.Playing? && s.macros[s.players[t].slot].triggered == 1
    ensures Runnable(slots, s, Rounds(t, n))
    ensures Run(slots, s, Rounds(t, n)) == if n == 0 then s else s.(players := s.players[t := s.players[t].(first := false)])
    ensures t in Step(slots, s, Decide(t)).players && Step(slots, s, Decide(t)).players[t] == s.players[t].(phase := Sleeping)
    decreases n
  {
    if n > 0 {
      OneRound(slots, s, t);
      HeldRepeats(slots, WakeStep(DecideStep(s, t), t), t, n - 1);
      RunTwoMore(slots, s, t, n - 1);
    }
  }

  lemma OneRound(slots: seq<Slot>, s: State, t: Tid)
    requires WellFormed(slots, s) && t in s.players && s.players[t].phase.Playing? && s.macros[s.players[t].slot].triggered == 1
    ensures var s1 := DecideStep(s, t);
      && WellFormed(slots, s1) && Enabled(slots, s1, Wake(t))
      && WakeStep(s1, t) == s.(players := s.players[t := s.players[t].(first := false)])
      && WellFormed(slots, WakeStep(s1, t))
  {}

  lemma RunTwoMore(slots: seq<Slot>, s: State, t: Tid, n: nat)
    requires WellFormed(slots, s) && Enabled(slots, s, Decide(t))
    requires WellFormed(slots, DecideStep(s, t)) && Enabled(slots, DecideStep(s, t), Wake(t))
    requires Runnable(slots, WakeStep(DecideStep(s, t), t), Rounds(t, n))
    ensures Runnable(slots, s, Rounds(t, n + 1))
    ensures Run(slots, s, Rounds(t, n + 1)) == Run(slots, WakeStep(DecideStep(s, t), t), Rounds(t, n))
  {
    var acts := Rounds(t, n + 1);
    assert acts[0] == Decide(t) && acts[1..][0] == Wake(t) && acts[1..][1..] == Rounds(t, n);
    assert Runnable(slots, DecideStep(s, t), acts[1..]);
  }

  function Rounds(t: Tid, n: nat): seq<Action> {
    if n == 0 then [] else [Decide(t), Wake(t)] + Rounds(t, n - 1)
  }

  /** A pass that settles a press and a release, and the first pass of all, start that over. */
  lemma FirstAgain(slots: seq<Slot>, s: State, t: Tid)
    requires WellFormed(slots, s) && t in s.players
    ensures Enabled(slots, s, Begin(t)) ==> Step(slots, s, Begin(t)).players[t].first
    ensures Enabled(slots, s, Decide(t)) && s.macros[s.players[t].slot].triggered > 2 ==> Step(slots, s, Decide(t)).players[t].first
    ensures Enabled(slots, s, Wake(t)) && s.macros[s.players[t].slot].triggered !in {1, 2} ==>
      Step(slots, s, Wake(t)).players[t].first == s.players[t].first
  {}

  /** With so few presses nothing can run over. */
  lemma {:induction false} FewEdges(slots: seq<Slot>, s: State, acts: seq<Action>, i: nat, held: bool)
    requires Inv(slots, s) && Runnable(slots, s, acts) && Undisturbed(acts) && i < |slots| && Tapped(slots, s, i, held)
    requires s.macros[i].triggered + Edges(slots, acts, i, held) <= 127
    ensures !EverOverruns(slots, s, acts, i, held)
    decreases |acts|
  {
    if acts != [] {
      assert acts[0] in acts;
      StepTaps(slots, s, acts[0], i, held);
      FewEdges(slots, Step(slots, s, acts[0]), acts[1..], i, HeldAfter(slots, acts[0], i, held));
    }
  }
}
