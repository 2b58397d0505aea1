/** Wheel macros: every activation is played exactly once. */
module MacroWheels {
  import opened MacroEngine

  /** A scan in which slot `i` is pressed. */
  predicate Activation(slots: seq<Slot>, s: State, a: Action, i: nat)
    requires WellFormed(slots, s) && i < |slots|
  {
    a.Scan? && slots[i].mode == s.mode && Activates(slots[i], a.keys, s.macros[i].triggered)
  }

  /** A decision that takes two off the counter of slot `i`: one pass is accounted for. */
  predicate Accounts(slots: seq<Slot>, s: State, a: Action, i: nat)
    requires WellFormed(slots, s) && Enabled(slots, s, a) && i < |slots|
  {
    a.Decide? && s.players[a.t].slot == i && s.macros[i].triggered > 1
  }

  /** A pass over the actions of slot `i` begins. */
  predicate StartsPass(slots: seq<Slot>, s: State, a: Action, i: nat)
    requires WellFormed(slots, s) && Enabled(slots, s, a) && i < |slots|
  {
    (a.Begin? || a.Decide? || a.Wake?) && s.players[a.t].slot == i && Step(slots, s, a).players[a.t].phase.Playing?
  }

  /** The counter has no room for another press of a wheel macro: 126 + 2 wraps to -128. */
  predicate Full(slots: seq<Slot>, s: State, a: Action, i: nat)
    requires WellFormed(slots, s) && i < |slots|
  {
    Activation(slots, s, a, i) && s.macros[i].triggered >= 126
  }

  function Count(b: bool): nat { if b then 1 else 0 }

  /** No SWITCH, and every player that is wanted is created. */
  predicate Calm(a: Action) {
    !a.Switch? && (a.Scan? ==> forall k :: 0 <= k < |a.outcomes| ==> a.outcomes[k] == Created)
  }

  predicate Undisturbed(acts: seq<Action>) {
    forall a :: a in acts ==> Calm(a)
  }

  /** `owed`: activations minus accounted passes so far.  In every state of the run it is
      half the counter. */
  ghost predicate AlwaysBalanced(slots: seq<Slot>, s: State, acts: seq<Action>, i: nat, owed: int)
    requires Runnable(slots, s, acts) && WellFormed(slots, s) && i < |slots|
    decreases |acts|
  {
    && s.macros[i].triggered == 2 * owed
    && (acts == [] ||
        var s' := Step(slots, s, acts[0]);
        WellFormed(slots, s') && AlwaysBalanced(slots, s', acts[1..], i, Owed(slots, s, acts[0], i, owed)))
  }

  function Owed(slots: seq<Slot>, s: State, a: Action, i: nat, owed: int): int
    requires WellFormed(slots, s) && Enabled(slots, s, a) && i < |slots|
  {
    owed + Count(Activation(slots, s, a, i)) - Count(Accounts(slots, s, a, i))
  }

  ghost predicate EverFull(slots: seq<Slot>, s: State, acts: seq<Action>, i: nat)
    requires Runnable(slots, s, acts) && WellFormed(slots, s) && i < |slots|
    decreases |acts|
  {
    acts != [] && (Full(slots, s, acts[0], i)
                   || (WellFormed(slots, Step(slots, s, acts[0])) && EverFull(slots, Step(slots, s, acts[0]), acts[1..], i)))
  }

  /** A wheel macro's player has something to play until it exits, and never sleeps. */
  ghost predicate Ready(slots: seq<Slot>, s: State, i: nat)
    requires Owned(slots, s)
  {
    && i < |slots| && slots[i].HasWheel()
    && 0 <= s.macros[i].triggered
    && (s.macros[i].param.Some? ==>
          && s.macros[i].triggered >= 2
          && !s.players[s.macros[i].param.value].phase.Sleeping?)
  }

  /** Passes begun but not yet accounted for: none or one. */
  ghost function Current(slots: seq<Slot>, s: State, i: nat): nat
    requires Owned(slots, s) && i < |slots|
  {
    Count(s.macros[i].param.Some? && s.players[s.macros[i].param.value].phase.Playing?)
  }

  lemma UndisturbedKeeps(slots: seq<Slot>, s: State, a: Action)
    requires Inv(slots, s) && Enabled(slots, s, a) && Calm(a)
    ensures !OutOfMemory(slots, s, a) && Inv(slots, Step(slots, s, a))
  {
    assert !OutOfMemory(slots, s, a);
    Kept(slots, s, a);
  }

  lemma ScanBalances(slots: seq<Slot>, s: State, a: Action, i: nat)
    requires Inv(slots, s) && Enabled(slots, s, a) && Calm(a) && a.Scan?
    requires i < |slots| && Ready(slots, s, i)
    ensures Inv(slots, Step(slots, s, a))
    ensures var d := Step(slots, s, a).macros[i].triggered - s.macros[i].triggered;
      d == if Full(slots, s, a, i) then -254 else 2 * Count(Activation(slots, s, a, i))
    ensures !Full(slots, s, a, i) ==>
      Ready(slots, Step(slots, s, a), i) && Current(slots, Step(slots, s, a), i) == Current(slots, s, i)
  {
    UndisturbedKeeps(slots, s, a);
    assert a.outcomes[i] == Created;
    ScanEffect(slots, s, a.keys, a.outcomes, |slots|, i);
    ScanPlayers(slots, s, a.keys, a.outcomes, |slots|);
  }

  /** A scan creates players, all of them Started, and touches no other. */
  lemma {:induction false} ScanPlayers(slots: seq<Slot>, s: State, keys: set<nat>, outcomes: seq<Outcome>, n: nat)
    requires Owned(slots, s) && |outcomes| == |slots| && n <= |slots|
    ensures var s' := ScanTo(slots, s, keys, outcomes, n);
      && s.next <= s'.next
      && (forall t :: t in s.players ==> t in s'.players && s'.players[t] == s.players[t])
      && (forall t :: t in s'.players && t !in s.players ==> t >= s.next && s'.players[t].phase.Started?)
  {
    if n > 0 { ScanPlayers(slots, s, keys, outcomes, n - 1); }
  }

  lemma OwnPlayer(slots: seq<Slot>, s: State, t: Tid, i: nat)
    requires Owned(slots, s) && i < |slots| && t in s.players && !s.players[t].phase.Exiting?
    ensures s.macros[i].param == Some(t) <==> s.players[t].slot == i
  {}

  lemma DecideBalances(slots: seq<Slot>, s: State, t: Tid, i: nat)
    requires Owned(slots, s) && Enabled(slots, s, Decide(t)) && Owned(slots, DecideStep(s, t))
    requires i < |slots| && Ready(slots, s, i) && !Odd(s.macros[i].triggered) && s.players[t].slot == i
    ensures Ready(slots, DecideStep(s, t), i)
    ensures Accounts(slots, s, Decide(t), i)
    ensures DecideStep(s, t).macros[i].triggered == s.macros[i].triggered - 2
    ensures Current(slots, s, i) == 1
    ensures Current(slots, DecideStep(s, t), i) == Count(StartsPass(slots, s, Decide(t), i))
  {
    OwnPlayer(slots, s, t, i);
  }

  lemma BeginBalances(slots: seq<Slot>, s: State, t: Tid, i: nat)
    requires Owned(slots, s) && Enabled(slots, s, Begin(t)) && Owned(slots, Step(slots, s, Begin(t)))
    requires i < |slots| && Ready(slots, s, i) && s.players[t].slot == i
    ensures var s' := Step(slots, s, Begin(t));
      && Ready(slots, s', i)
      && s'.macros == s.macros
      && Current(slots, s, i) == 0 && Current(slots, s', i) == 1
  {
    OwnPlayer(slots, s, t, i);
  }

  /** Steps of other players, and the list bookkeeping, leave the slot alone. */
  lemma OthersBalance(slots: seq<Slot>, s: State, a: Action, i: nat)
    requires Owned(slots, s) && Enabled(slots, s, a) && a.ByPlayer() && Owned(slots, Step(slots, s, a))
    requires i < |slots| && Ready(slots, s, i)
    requires s.players[a.t].slot != i || a.Enqueue? || a.Leave?
    ensures var s' := Step(slots, s, a);
      && Ready(slots, s', i)
      && s'.macros[i] == s.macros[i]
      && Current(slots, s', i) == Current(slots, s, i)
  {
    if s.macros[i].param.Some? {
      var u := s.macros[i].param.value;
      OwnPlayer(slots, s, u, i);
    }
  }

  lemma PlayerBalances(slots: seq<Slot>, s: State, a: Action, i: nat)
    requires Inv(slots, s) && Enabled(slots, s, a) && a.ByPlayer()
    requires i < |slots| && Ready(slots, s, i)
    ensures Inv(slots, Step(slots, s, a)) && Ready(slots, Step(slots, s, a), i)
    ensures Step(slots, s, a).macros[i].triggered == s.macros[i].triggered - 2 * Count(Accounts(slots, s, a, i))
    ensures Current(slots, Step(slots, s, a), i)
            == Current(slots, s, i) + Count(StartsPass(slots, s, a, i)) - Count(Accounts(slots, s, a, i))
  {
    Kept(slots, s, a);
    if s.players[a.t].slot != i || a.Enqueue? || a.Leave? {
      OthersBalance(slots, s, a, i);
    } else {
      OwnPlayer(slots, s, a.t, i);
      if a.Decide? {
        DecideBalances(slots, s, a.t, i);
      } else {
        BeginBalances(slots, s, a.t, i);
      }
    }
  }

  lemma StepBalances(slots: seq<Slot>, s: State, a: Action, i: nat)
    requires Inv(slots, s) && Enabled(slots, s, a) && Calm(a)
    requires i < |slots| && Ready(slots, s, i) && !Full(slots, s, a, i)
    ensures Inv(slots, Step(slots, s, a)) && Ready(slots, Step(slots, s, a), i)
    ensures Step(slots, s, a).macros[i].triggered == s.macros[i].triggered
            + 2 * Count(Activation(slots, s, a, i)) - 2 * Count(Accounts(slots, s, a, i))
    ensures Current(slots, Step(slots, s, a), i)
            == Current(slots, s, i) + Count(StartsPass(slots, s, a, i)) - Count(Accounts(slots, s, a, i))
  {
    if a.Scan? { ScanBalances(slots, s, a, i); } else { PlayerBalances(slots, s, a, i); }
  }

  lemma Balance(slots: seq<Slot>, s: State, a: Action, i: nat, owed: int) returns (s': State, owed': int)
    requires Inv(slots, s) && Enabled(slots, s, a) && Calm(a)
    requires i < |slots| && Ready(slots, s, i) && !Full(slots, s, a, i)
    requires s.macros[i].triggered == 2 * owed
    ensures s' == Step(slots, s, a) && owed' == Owed(slots, s, a, i, owed)
    ensures Inv(slots, s') && Ready(slots, s', i) && s'.macros[i].triggered == 2 * owed'
  {
    StepBalances(slots, s, a, i);
    s', owed' := Step(slots, s, a), Owed(slots, s, a, i, owed);
  }

  lemma FullBreaks(slots: seq<Slot>, s: State, acts: seq<Action>, i: nat, owed: int)
    requires Inv(slots, s) && Runnable(slots, s, acts) && acts != [] && Calm(acts[0])
    requires i < |slots| && Ready(slots, s, i) && s.macros[i].triggered == 2 * owed
    requires Full(slots, s, acts[0], i)
    ensures !AlwaysBalanced(slots, s, acts, i, owed)
  {
    ScanBalances(slots, s, acts[0], i);
  }

  /** Over every undisturbed run, activations equal accounted passes plus half the counter in
      every state if and only if no press finds the counter full. */
  lemma {:induction false} BalancedExactly(slots: seq<Slot>, s: State, acts: seq<Action>, i: nat, owed: int)
    requires Inv(slots, s) && Runnable(slots, s, acts) && Undisturbed(acts)
    requires i < |slots| && Ready(slots, s, i) && s.macros[i].triggered == 2 * owed
    ensures AlwaysBalanced(slots, s, acts, i, owed) <==> !EverFull(slots, s, acts, i)
    decreases |acts|
  {
    if acts != [] {
      var a := acts[0];
      assert a in acts;
      if Full(slots, s, a, i) {
        FullBreaks(slots, s, acts, i, owed);
      } else {
        var s', owed' := Balance(slots, s, a, i, owed);
        BalancedExactly(slots, s', acts[1..], i, owed');
      }
    }
  }

  function Activations(slots: seq<Slot>, s: State, acts: seq<Action>, i: nat): nat
    requires Runnable(slots, s, acts) && WellFormed(slots, s) && i < |slots|
    decreases |acts|
  {
    if acts == [] || !WellFormed(slots, Step(slots, s, acts[0])) then 0
    else Count(Activation(slots, s, acts[0], i)) + Activations(slots, Step(slots, s, acts[0]), acts[1..], i)
  }

  function Passes(slots: seq<Slot>, s: State, acts: seq<Action>, i: nat): nat
    requires Runnable(slots, s, acts) && WellFormed(slots, s) && i < |slots|
    decreases |acts|
  {
    if acts == [] || !WellFormed(slots, Step(slots, s, acts[0])) then 0
    else Count(StartsPass(slots, s, acts[0], i)) + Passes(slots, Step(slots, s, acts[0]), acts[1..], i)
  }

  /** Passes begun, plus half the counter, less the pass under way: what activations add up to. */
  lemma {:induction false} Ledger(slots: seq<Slot>, s: State, acts: seq<Action>, i: nat)
    requires Inv(slots, s) && Runnable(slots, s, acts) && Undisturbed(acts)
    requires i < |slots| && Ready(slots, s, i) && !EverFull(slots, s, acts, i)
    ensures var s' := Run(slots, s, acts);
      && Inv(slots, s') && Ready(slots, s', i)
      && 2 * Activations(slots, s, acts, i) - 2 * Passes(slots, s, acts, i)
         == s'.macros[i].triggered - 2 * Current(slots, s', i) - s.macros[i].triggered + 2 * Current(slots, s, i)
    decreases |acts|
  {
    if acts != [] {
      assert acts[0] in acts;
      StepBalances(slots, s, acts[0], i);
      Ledger(slots, Step(slots, s, acts[0]), acts[1..], i);
    }
  }

  /** From the start, along any interleaving of wheel events and player steps: the player
      never sleeps, and once it has given the macro up there were exactly as many passes as
      activations. */
  lemma PlayedExactlyOnce(slots: seq<Slot>, mode: nat, acts: seq<Action>, i: nat)
    requires Runnable(slots, Initial(slots, mode), acts) && Undisturbed(acts)
    requires i < |slots| && slots[i].HasWheel() && !EverFull(slots, Initial(slots, mode), acts, i)
    ensures var s' := Run(slots, Initial(slots, mode), acts);
      var n := Activations(slots, Initial(slots, mode), acts, i);
      var played := Passes(slots, Initial(slots, mode), acts, i);
      && Inv(slots, s')
      && (s'.macros[i].param.Some? ==> !s'.players[s'.macros[i].param.value].phase.Sleeping?)
      && played <= n
      && (s'.macros[i].param.None? ==> played == n)
  {
    Ledger(slots, Initial(slots, mode), acts, i);
  }
}
