/** What is left to do once no further press arrives: how many passes a player still starts,
    and that all players finish. */
module MacroDrain {
  import opened MacroEngine
  import opened MacroWheels

  function Max(a: int, b: int): int { if a < b then b else a }

  /** Passes a player in this phase still starts, with `k` press/release pairs on the counter. */
  function StillToStart(phase: Phase, k: int): int {
    match phase
    case Started => Max(1, k)
    case Queued => Max(1, k)
    case Playing => Max(k - 1, 0)
    case Sleeping => if k == 1 then 0 else Max(1, k)
    case Exiting => 0
  }

  ghost function Left(slots: seq<Slot>, s: State, i: nat): int
    requires Owned(slots, s) && i < |slots|
  {
    if s.macros[i].param.None? then 0
    else StillToStart(s.players[s.macros[i].param.value].phase, s.macros[i].triggered / 2)
  }

  /** The slot's keys are up, and its counter has not run over. */
  predicate Released(s: State, i: nat)
    requires i < |s.macros|
  {
    !Odd(s.macros[i].triggered) && s.macros[i].triggered >= 0
  }

  lemma LeftIs(slots: seq<Slot>, s: State, t: Tid, i: nat)
    requires Owned(slots, s) && i < |slots| && t in s.players && s.players[t].slot == i && !s.players[t].phase.Exiting?
    ensures Left(slots, s, i) == StillToStart(s.players[t].phase, s.macros[i].triggered / 2)
  {}

  /** Steps of other players, and the list bookkeeping, leave the macro alone, and its player
      before its first pass or where it was. */
  lemma OtherMacro(slots: seq<Slot>, s: State, a: Action, i: nat)
    requires Owned(slots, s) && Enabled(slots, s, a) && a.ByPlayer() && i < |slots|
    requires s.players[a.t].slot != i || a.Enqueue? || a.Leave?
    ensures Step(slots, s, a).macros[i] == s.macros[i]
    ensures s.macros[i].param.Some? ==>
      var u := s.macros[i].param.value; var s' := Step(slots, s, a);
      u in s'.players && (s'.players[u] == s.players[u] || (s.players[u].phase.Started? && s'.players[u].phase.Queued?))
  {
    if s.macros[i].param.Some? { OwnPlayer(slots, s, s.macros[i].param.value, i); }
  }

  lemma OtherSlot(slots: seq<Slot>, s: State, a: Action, i: nat)
    requires Owned(slots, s) && Enabled(slots, s, a) && a.ByPlayer() && i < |slots| && Owned(slots, Step(slots, s, a))
    requires s.players[a.t].slot != i || a.Enqueue? || a.Leave?
    ensures Step(slots, s, a).macros[i] == s.macros[i]
    ensures Left(slots, Step(slots, s, a), i) == Left(slots, s, i)
  {
    OtherMacro(slots, s, a, i);
  }

  lemma BeginLeft(slots: seq<Slot>, s: State, t: Tid, i: nat)
    requires Owned(slots, s) && Enabled(slots, s, Begin(t)) && Owned(slots, Step(slots, s, Begin(t)))
    requires i < |slots| && s.players[t].slot == i && Released(s, i)
    ensures var s' := Step(slots, s, Begin(t));
      Released(s', i) && Left(slots, s, i) == Left(slots, s', i) + 1
  {
    OwnPlayer(slots, s, t, i);
  }

  lemma DecideLeft(slots: seq<Slot>, s: State, t: Tid, i: nat)
    requires Owned(slots, s) && Enabled(slots, s, Decide(t)) && Owned(slots, DecideStep(s, t))
    requires i < |slots| && s.players[t].slot == i && Released(s, i)
    ensures var s' := DecideStep(s, t);
      Released(s', i)
      && Left(slots, s, i) == Left(slots, s', i) + Count(StartsPass(slots, s, Decide(t), i))
  {
    LeftIs(slots, s, t, i);
    if s.macros[i].triggered > 2 { LeftIs(slots, DecideStep(s, t), t, i); }
  }

  lemma WakeLeft(slots: seq<Slot>, s: State, t: Tid, i: nat)
    requires Owned(slots, s) && Enabled(slots, s, Wake(t)) && Owned(slots, WakeStep(s, t))
    requires i < |slots| && s.players[t].slot == i && Released(s, i)
    ensures var s' := WakeStep(s, t);
      Released(s', i)
      && Left(slots, s, i) == Left(slots, s', i) + Count(StartsPass(slots, s, Wake(t), i))
  {
    LeftIs(slots, s, t, i);
    if s.macros[i].triggered != 2 { LeftIs(slots, WakeStep(s, t), t, i); }
  }

  lemma PlayerLeft(slots: seq<Slot>, s: State, a: Action, i: nat)
    requires Inv(slots, s) && Enabled(slots, s, a) && a.ByPlayer() && i < |slots| && Released(s, i)
    ensures var s' := Step(slots, s, a);
      Inv(slots, s') && Released(s', i)
      && Left(slots, s, i) == Left(slots, s', i) + Count(StartsPass(slots, s, a, i))
  {
    Kept(slots, s, a);
    if s.players[a.t].slot != i || a.Enqueue? || a.Leave? { OtherSlot(slots, s, a, i); }
    else if a.Begin? { BeginLeft(slots, s, a.t, i); }
    else if a.Decide? { DecideLeft(slots, s, a.t, i); }
    else { WakeLeft(slots, s, a.t, i); }
  }

  /** A bound that SWITCH cannot raise. */
  ghost function Bound(slots: seq<Slot>, s: State, i: nat): int
    requires Owned(slots, s) && i < |slots|
  {
    if s.macros[i].param.None? then 0
    else match s.players[s.macros[i].param.value].phase
      case Playing => Max(s.macros[i].triggered / 2 - 1, 0)
      case _ => Max(1, s.macros[i].triggered / 2)
  }

  lemma SwitchBound(slots: seq<Slot>, s: State, mode: nat, i: nat)
    requires Inv(slots, s) && i < |slots| && Released(s, i)
    ensures var s' := SwitchStep(slots, s, mode);
      Inv(slots, s') && Released(s', i) && Bound(slots, s', i) <= Bound(slots, s, i)
  {
    SwitchKeeps(slots, s, mode);
    assert SwitchStep(slots, s, mode).macros[i].param == s.macros[i].param;
  }

  lemma BoundIsLeft(slots: seq<Slot>, s: State, i: nat)
    requires Inv(slots, s) && i < |slots| && Released(s, i)
    ensures Left(slots, s, i) <= Bound(slots, s, i)
    ensures !Sleeps(s, i) ==> Left(slots, s, i) == Bound(slots, s, i)
  {
    if s.macros[i].param.Some? { OwnPlayer(slots, s, s.macros[i].param.value, i); }
  }

  ghost predicate Sleeps(s: State, i: nat) {
    && i < |s.macros| && s.macros[i].param.Some? && s.macros[i].param.value in s.players
    && s.players[s.macros[i].param.value].phase.Sleeping?
  }

  /** With the keys up nobody goes to sleep, so a sleeper was one before and was not moved. */
  lemma NoNewSleeper(slots: seq<Slot>, s: State, a: Action, i: nat)
    requires Inv(slots, s) && Enabled(slots, s, a) && a.ByPlayer() && i < |slots| && Released(s, i)
    requires WellFormed(slots, Step(slots, s, a)) && Sleeps(Step(slots, s, a), i)
    ensures Sleeps(s, i) && Step(slots, s, a).macros[i] == s.macros[i] && !StartsPass(slots, s, a, i)
  {
    if s.macros[i].param.Some? { OwnPlayer(slots, s, s.macros[i].param.value, i); }
    if !s.players[a.t].phase.Exiting? { OwnPlayer(slots, s, a.t, i); }
  }

  lemma PlayerBound(slots: seq<Slot>, s: State, a: Action, i: nat)
    requires Inv(slots, s) && Enabled(slots, s, a) && a.ByPlayer() && i < |slots| && Released(s, i)
    ensures var s' := Step(slots, s, a);
      Inv(slots, s') && Released(s', i)
      && Bound(slots, s', i) + Count(StartsPass(slots, s, a, i)) <= Bound(slots, s, i)
  {
    var s' := Step(slots, s, a);
    PlayerLeft(slots, s, a, i);
    if Sleeps(s', i) {
      NoNewSleeper(slots, s, a, i);
    } else {
      BoundIsLeft(slots, s, i);
      BoundIsLeft(slots, s', i);
    }
  }

  lemma StepBound(slots: seq<Slot>, s: State, a: Action, i: nat)
    requires Inv(slots, s) && Enabled(slots, s, a) && (a.ByPlayer() || a.Switch?) && i < |slots| && Released(s, i)
    ensures var s' := Step(slots, s, a);
      Inv(slots, s') && Released(s', i)
      && Bound(slots, s', i) + Count(StartsPass(slots, s, a, i)) <= Bound(slots, s, i)
  {
    if a.Switch? { SwitchBound(slots, s, a.mode, i); } else { PlayerBound(slots, s, a, i); }
  }

  lemma {:induction false} BoundFalls(slots: seq<Slot>, s: State, acts: seq<Action>, i: nat)
    requires Inv(slots, s) && Runnable(slots, s, acts) && i < |slots| && Released(s, i)
    requires forall k :: 0 <= k < |acts| ==> acts[k].ByPlayer() || acts[k].Switch?
    ensures Inv(slots, Run(slots, s, acts))
    ensures Passes(slots, s, acts, i) + Bound(slots, Run(slots, s, acts), i) <= Bound(slots, s, i)
    decreases |acts|
  {
    if acts != [] {
      StepBound(slots, s, acts[0], i);
      BoundFalls(slots, Step(slots, s, acts[0]), acts[1..], i);
    }
  }

  lemma BoundRange(slots: seq<Slot>, s: State, i: nat)
    requires Owned(slots, s) && i < |slots|
    ensures 0 <= Bound(slots, s, i) <= Max(1, s.macros[i].triggered / 2)
  {}

  /** With the keys up and no further press, however often the mode is switched on the way
      and in whatever state the player was: at most max(1, triggered/2) further passes. */
  lemma PassesBounded(slots: seq<Slot>, s: State, acts: seq<Action>, i: nat)
    requires Inv(slots, s) && Runnable(slots, s, acts) && i < |slots| && Released(s, i)
    requires forall k :: 0 <= k < |acts| ==> acts[k].ByPlayer() || acts[k].Switch?
    ensures Inv(slots, Run(slots, s, acts))
    ensures Passes(slots, s, acts, i) <= Max(1, s.macros[i].triggered / 2)
  {
    BoundFalls(slots, s, acts, i);
    BoundRange(slots, s, i);
    BoundRange(slots, Run(slots, s, acts), i);
  }

  /** Without a SWITCH the number is exact: it is fixed by the phase and the counter. */
  lemma {:induction false} PassesExact(slots: seq<Slot>, s: State, acts: seq<Action>, i: nat)
    requires Inv(slots, s) && Runnable(slots, s, acts) && i < |slots| && Released(s, i)
    requires forall a :: a in acts ==> a.ByPlayer()
    ensures Inv(slots, Run(slots, s, acts))
    ensures Passes(slots, s, acts, i) == Left(slots, s, i) - Left(slots, Run(slots, s, acts), i)
    decreases |acts|
  {
    if acts != [] {
      assert acts[0] in acts;
      PlayerLeft(slots, s, acts[0], i);
      PassesExact(slots, Step(slots, s, acts[0]), acts[1..], i);
    }
  }

  // ----- everybody finishes

  /** Steps a player still takes. */
  function StepsLeft(phase: Phase, k: int): nat
    requires k >= 0
  {
    match phase
    case Started => Max(k, 1) + 3
    case Queued => Max(k, 1) + 2
    case Playing => Max(k, 1) + 1
    case Sleeping => if k == 1 then 2 else Max(k, 1) + 2
    case Exiting => 1
  }

  predicate AllReleased(s: State) {
    forall i :: 0 <= i < |s.macros| ==> Released(s, i)
  }

  ghost function RankOf(slots: seq<Slot>, s: State, t: Tid): nat
    requires WellFormed(slots, s) && AllReleased(s)
  {
    if t !in s.players then 0
    else assert Released(s, s.players[t].slot);
         StepsLeft(s.players[t].phase, if s.players[t].phase.Exiting? then 0 else s.macros[s.players[t].slot].triggered / 2)
  }

  ghost function Rank(slots: seq<Slot>, s: State, n: nat): nat
    requires WellFormed(slots, s) && AllReleased(s)
  {
    if n == 0 then 0 else Rank(slots, s, n - 1) + RankOf(slots, s, n - 1)
  }

  lemma StepReleases(slots: seq<Slot>, s: State, a: Action)
    requires Inv(slots, s) && Enabled(slots, s, a) && a.ByPlayer() && AllReleased(s)
    ensures Inv(slots, Step(slots, s, a)) && AllReleased(Step(slots, s, a))
  {
    Kept(slots, s, a);
    forall i | 0 <= i < |s.macros| ensures Released(Step(slots, s, a), i) {
      assert Released(s, i);
      PlayerLeft(slots, s, a, i);
    }
  }

  lemma NobodyCreated(slots: seq<Slot>, s: State, a: Action)
    requires WellFormed(slots, s) && Enabled(slots, s, a) && a.ByPlayer()
    ensures Step(slots, s, a).next == s.next
  {}

  lemma OwnRank(slots: seq<Slot>, s: State, a: Action)
    requires WellFormed(slots, s) && Enabled(slots, s, a) && a.ByPlayer() && AllReleased(s)
    requires WellFormed(slots, Step(slots, s, a)) && AllReleased(Step(slots, s, a))
    ensures RankOf(slots, Step(slots, s, a), a.t) == RankOf(slots, s, a.t) - 1
  {
    assert Released(s, s.players[a.t].slot);
  }

  lemma OtherRank(slots: seq<Slot>, s: State, a: Action, u: Tid)
    requires Owned(slots, s) && Enabled(slots, s, a) && a.ByPlayer() && AllReleased(s) && u != a.t
    requires WellFormed(slots, Step(slots, s, a)) && AllReleased(Step(slots, s, a))
    ensures RankOf(slots, Step(slots, s, a), u) == RankOf(slots, s, u)
  {
    if u in s.players && !s.players[u].phase.Exiting? && !s.players[a.t].phase.Exiting? {
      OwnPlayer(slots, s, u, s.players[u].slot);
      OwnPlayer(slots, s, a.t, s.players[u].slot);
    }
  }

  lemma RankOfFalls(slots: seq<Slot>, s: State, a: Action, u: Tid)
    requires Inv(slots, s) && Enabled(slots, s, a) && a.ByPlayer() && AllReleased(s)
    ensures WellFormed(slots, Step(slots, s, a)) && AllReleased(Step(slots, s, a))
    ensures RankOf(slots, Step(slots, s, a), u) == RankOf(slots, s, u) - Count(u == a.t)
  {
    StepReleases(slots, s, a);
    if u == a.t { OwnRank(slots, s, a); } else { OtherRank(slots, s, a, u); }
  }

  lemma {:induction false} RankFalls(slots: seq<Slot>, s: State, s': State, t: Tid, n: nat)
    requires WellFormed(slots, s) && AllReleased(s) && WellFormed(slots, s') && AllReleased(s')
    requires forall u: Tid :: RankOf(slots, s', u) == RankOf(slots, s, u) - Count(u == t)
    ensures Rank(slots, s', n) == Rank(slots, s, n) - Count(t < n)
  {
    if n > 0 { RankFalls(slots, s, s', t, n - 1); }
  }

  lemma {:induction false} RankPositive(slots: seq<Slot>, s: State, t: Tid, n: nat)
    requires WellFormed(slots, s) && AllReleased(s) && t in s.players && t < n
    ensures Rank(slots, s, n) > 0
  {
    if t != n - 1 { RankPositive(slots, s, t, n - 1); }
  }

  /** Some player can always move: the queue of players never gets stuck. */
  lemma SomeoneCanMove(slots: seq<Slot>, s: State) returns (a: Action)
    requires Inv(slots, s) && s.players != map[]
    ensures a.ByPlayer() && Enabled(slots, s, a)
  {
    var t :| t in s.players;
    if s.players[t].phase.Started? {
      a := Enqueue(t);
    } else {
      var h := s.list[0];
      match s.players[h].phase
      case Started => assert false;
      case Queued => a := Begin(h);
      case Playing => a := Decide(h);
      case Sleeping => a := Wake(h);
      case Exiting => a := Leave(h);
    }
  }

  /** Once all keys are released every run of the players takes at most Rank steps; one that
      takes them all leaves no player, and every counter at zero. */
  lemma {:induction false} AllPlayersFinish(slots: seq<Slot>, s: State, acts: seq<Action>)
    requires Inv(slots, s) && Runnable(slots, s, acts) && AllReleased(s) && OnlyPlayers(acts)
    ensures var s' := Run(slots, s, acts);
      && |acts| <= Rank(slots, s, s.next)
      && Inv(slots, s')
      && (|acts| == Rank(slots, s, s.next) <==> s'.players == map[])
      && (s'.players == map[] ==> forall i :: 0 <= i < |s'.macros| ==> s'.macros[i] == Macro(0, None))
    decreases |acts|
  {
    if acts == [] {
      if s.players != map[] {
        var t :| t in s.players;
        RankPositive(slots, s, t, s.next);
      } else {
        NoRank(slots, s, s.next);
      }
    } else {
      var a := acts[0];
      StepReleases(slots, s, a);
      NobodyCreated(slots, s, a);
      forall u: Tid ensures RankOf(slots, Step(slots, s, a), u) == RankOf(slots, s, u) - Count(u == a.t) {
        RankOfFalls(slots, s, a, u);
      }
      RankFalls(slots, s, Step(slots, s, a), a.t, s.next);
      AllPlayersFinish(slots, Step(slots, s, a), acts[1..]);
    }
  }

  lemma {:induction false} NoRank(slots: seq<Slot>, s: State, n: nat)
    requires WellFormed(slots, s) && AllReleased(s) && s.players == map[]
    ensures Rank(slots, s, n) == 0
  {
    if n > 0 { NoRank(slots, s, n - 1); }
  }

  // ----- exactly when it ends

  ghost predicate OnlyPlayers(acts: seq<Action>) {
    forall k :: 0 <= k < |acts| ==> acts[k].ByPlayer()
  }

  /** No run of player steps is longer than `n`. */
  ghost predicate StepsBounded(slots: seq<Slot>, s: State, n: nat) {
    forall acts :: Runnable(slots, s, acts) && OnlyPlayers(acts) ==> |acts| <= n
  }

  /** A counter that is odd or negative stays so, whatever the players do. */
  lemma StaysUnreleased(slots: seq<Slot>, s: State, a: Action, i: nat)
    requires WellFormed(slots, s) && Enabled(slots, s, a) && a.ByPlayer() && i < |slots| && !Released(s, i)
    ensures WellFormed(slots, Step(slots, s, a)) && !Released(Step(slots, s, a), i)
  {}

  lemma Prepend(slots: seq<Slot>, s: State, a: Action, rest: seq<Action>)
    requires WellFormed(slots, s) && Enabled(slots, s, a) && Runnable(slots, Step(slots, s, a), rest)
    requires a.ByPlayer() && OnlyPlayers(rest)
    ensures Runnable(slots, s, [a] + rest) && OnlyPlayers([a] + rest)
  {
    assert ([a] + rest)[1..] == rest;
  }

  /** As long as a counter is odd or negative there is always a next step. */
  lemma {:induction false} LongRun(slots: seq<Slot>, s: State, i: nat, n: nat) returns (acts: seq<Action>)
    requires Inv(slots, s) && i < |slots| && !Released(s, i)
    ensures |acts| == n && Runnable(slots, s, acts) && OnlyPlayers(acts)
    decreases n
  {
    acts := [];
    if n > 0 {
      assert s.macros[i].param.value in s.players;
      var a := SomeoneCanMove(slots, s);
      StepUnreleased(slots, s, a, i);
      var rest := LongRun(slots, Step(slots, s, a), i, n - 1);
      Prepend(slots, s, a, rest);
      acts := [a] + rest;
    }
  }

  /** The players all finish, within some number of steps, if and only if every counter is
      even and not negative. */
  lemma FinishesExactly(slots: seq<Slot>, s: State)
    requires Inv(slots, s)
    ensures (exists n: nat :: StepsBounded(slots, s, n)) <==> AllReleased(s)
  {
    if AllReleased(s) {
      forall acts | Runnable(slots, s, acts) && OnlyPlayers(acts) ensures |acts| <= Rank(slots, s, s.next) {
        AllPlayersFinish(slots, s, acts);
      }
      assert StepsBounded(slots, s, Rank(slots, s, s.next));
    } else {
      var i :| 0 <= i < |s.macros| && !Released(s, i);
      forall n: nat ensures !StepsBounded(slots, s, n) {
        var acts := LongRun(slots, s, i, n + 1);
      }
    }
  }

  // ----- one macro whose turn it is

  /** In no run of player steps does the macro begin more than `n` passes. */
  ghost predicate PassesAtMost(slots: seq<Slot>, s: State, i: nat, n: nat)
    requires WellFormed(slots, s) && i < |slots|
  {
    forall acts :: Runnable(slots, s, acts) && OnlyPlayers(acts) ==> Passes(slots, s, acts, i) <= n
  }

  /** The player of slot `i` is at the head of the list. */
  ghost predicate HasTurn(s: State, i: nat) {
    i < |s.macros| && s.list != [] && s.macros[i].param == Some(s.list[0])
  }

  /** Its next step, and what that leads to while the counter is odd or negative. */
  lemma NextOwnStep(slots: seq<Slot>, s: State, i: nat) returns (a: Action)
    requires Owned(slots, s) && Listed(s) && i < |slots| && HasTurn(s, i) && !Released(s, i)
    ensures a.ByPlayer() && Enabled(slots, s, a)
    ensures HasTurn(Step(slots, s, a), i) && Step(slots, s, a).list == s.list
    ensures StartsPass(slots, s, a, i) || (s.players[s.list[0]].phase.Playing? && Step(slots, s, a).players[s.list[0]].phase.Sleeping?)
  {
    var t := s.list[0];
    match s.players[t].phase
    case Queued => a := Begin(t);
    case Playing => a := Decide(t);
    case Sleeping => a := Wake(t);
  }

  lemma StepUnreleased(slots: seq<Slot>, s: State, a: Action, i: nat)
    requires Inv(slots, s) && Enabled(slots, s, a) && a.ByPlayer() && i < |slots| && !Released(s, i)
    ensures Inv(slots, Step(slots, s, a)) && !Released(Step(slots, s, a), i)
  {
    Kept(slots, s, a);
    StaysUnreleased(slots, s, a, i);
  }

  lemma {:induction false} ManyPasses(slots: seq<Slot>, s: State, i: nat, n: nat) returns (acts: seq<Action>)
    requires Inv(slots, s) && i < |slots| && HasTurn(s, i) && !Released(s, i)
    ensures Runnable(slots, s, acts) && OnlyPlayers(acts) && Passes(slots, s, acts, i) >= n
    decreases n, if s.players[s.list[0]].phase.Playing? then 1 else 0
  {
    acts := [];
    if n > 0 {
      var a := NextOwnStep(slots, s, i);
      StepUnreleased(slots, s, a, i);
      var rest := ManyPasses(slots, Step(slots, s, a), i, n - Count(StartsPass(slots, s, a, i)));
      Prepend(slots, s, a, rest);
      acts := [a] + rest;
      assert acts[1..] == rest;
    }
  }

  /** A macro whose player is at the head of the list has a bound on its further passes if and
      only if its counter is even and not negative. */
  lemma PassesBoundedExactly(slots: seq<Slot>, s: State, i: nat)
    requires Inv(slots, s) && i < |slots| && HasTurn(s, i)
    ensures (exists n: nat :: PassesAtMost(slots, s, i, n)) <==> Released(s, i)
  {
    if Released(s, i) {
      forall acts | Runnable(slots, s, acts) && OnlyPlayers(acts)
        ensures Passes(slots, s, acts, i) <= Max(1, s.macros[i].triggered / 2)
      {
        PassesBounded(slots, s, acts, i);
      }
      assert PassesAtMost(slots, s, i, Max(1, s.macros[i].triggered / 2));
    } else {
      forall n: nat ensures !PassesAtMost(slots, s, i, n) {
        var acts := ManyPasses(slots, s, i, n + 1);
      }
    }
  }

  // ----- the counter running over

  /** With a negative counter and the keys up a player never finishes: a pass, a sleep and a
      wake-up bring it back to where it was, any number of times. */
  lemma RunsForever(slots: seq<Slot>, s: State, t: Tid)
    requires Inv(slots, s) && t in s.players && s.players[t].phase.Playing?
    requires s.macros[s.players[t].slot].triggered < 0
    ensures Runnable(slots, s, [Decide(t), Wake(t)]) && Run(slots, s, [Decide(t), Wake(t)]) == s
    ensures WellFormed(slots, s) && Passes(slots, s, [Decide(t), Wake(t)], s.players[t].slot) == 1
  {
    var i := s.players[t].slot;
    var s1 := DecideStep(s, t);
    var s2 := WakeStep(s1, t);
    assert s2.players == s.players;
    TwoSteps(slots, s, Decide(t), Wake(t), i);
  }

  lemma TwoSteps(slots: seq<Slot>, s: State, a: Action, b: Action, i: nat)
    requires WellFormed(slots, s) && Enabled(slots, s, a) && i < |slots|
    requires WellFormed(slots, Step(slots, s, a)) && Enabled(slots, Step(slots, s, a), b)
    requires WellFormed(slots, Step(slots, Step(slots, s, a), b))
    ensures var s1 := Step(slots, s, a);
      && Runnable(slots, s, [a, b]) && Run(slots, s, [a, b]) == Step(slots, s1, b)
      && Passes(slots, s, [a, b], i) == Count(StartsPass(slots, s, a, i)) + Count(StartsPass(slots, s1, b, i))
  {
    var acts, s1 := [a, b], Step(slots, s, a);
    assert acts[1..] == [b] && acts[1..][1..] == [];
    assert Run(slots, s1, acts[1..]) == Run(slots, Step(slots, s1, b), []);
    assert Passes(slots, s1, acts[1..], i) == Count(StartsPass(slots, s1, b, i)) + Passes(slots, Step(slots, s1, b), [], i);
  }

  function Repeat(a: Action, n: nat): seq<Action> {
    if n == 0 then [] else [a] + Repeat(a, n - 1)
  }

  const WheelSlot := [Slot(0, {0}, {0})]
  const WheelTurn := Scan({0}, [Created])

  lemma OneTurn(s: State)
    requires WellFormed(WheelSlot, s) && s.mode == 0 && s.macros[0].param.Some? && !Odd(s.macros[0].triggered)
    ensures Step(WheelSlot, s, WheelTurn)
            == s.(macros := [Macro(Char(Char(s.macros[0].triggered + 1) + 1), s.macros[0].param)])
  {
    assert WheelSlot[0].combo <= {0};
    assert ScanTo(WheelSlot, s, {0}, [Created], 1) == ScanOne(WheelSlot, s, {0}, Created, 0);
  }

  lemma {:induction false} TurnsAddUp(s: State, n: nat)
    requires WellFormed(WheelSlot, s) && s.mode == 0 && s.macros[0].param.Some?
    requires n <= 63 && s.macros[0].triggered == 2 * (64 - n)
    ensures Runnable(WheelSlot, s, Repeat(WheelTurn, n))
    ensures n > 0 ==> Run(WheelSlot, s, Repeat(WheelTurn, n)).macros == [Macro(-128, s.macros[0].param)]
    decreases n
  {
    if n > 0 {
      OneTurn(s);
      assert Repeat(WheelTurn, n)[1..] == Repeat(WheelTurn, n - 1);
      var s' := Step(WheelSlot, s, WheelTurn);
      if n > 1 {
        TurnsAddUp(s', n - 1);
      }
    }
  }

  /** Such a counter is reached: sixty-four turns of a wheel before the first pass is over
      leave 64 activations as -64 pairs. */
  lemma SixtyFourTurns()
    ensures var s := Initial(WheelSlot, 0);
      && Runnable(WheelSlot, s, Repeat(WheelTurn, 64))
      && Run(WheelSlot, s, Repeat(WheelTurn, 64)).macros == [Macro(-128, Some(0))]
  {
    var s := Initial(WheelSlot, 0);
    assert WheelSlot[0].combo <= {0};
    var s1 := Step(WheelSlot, s, WheelTurn);
    assert ScanTo(WheelSlot, s, {0}, [Created], 1) == ScanOne(WheelSlot, s, {0}, Created, 0);
    assert s1.macros == [Macro(2, Some(0))];
    TurnsAddUp(s1, 63);
    assert Repeat(WheelTurn, 64)[1..] == Repeat(WheelTurn, 63);
  }

  lemma {:induction false} TurnsFindMemory(s: State, n: nat)
    requires Runnable(WheelSlot, s, Repeat(WheelTurn, n))
    ensures NeverOutOfMemory(WheelSlot, s, Repeat(WheelTurn, n))
    decreases n
  {
    if n > 0 {
      assert Repeat(WheelTurn, n)[1..] == Repeat(WheelTurn, n - 1);
      TurnsFindMemory(Step(WheelSlot, s, WheelTurn), n - 1);
    }
  }

  /** After those turns no number of steps is enough, although no key is down. */
  lemma SixtyFourTurnsNeverFinish()
    ensures var s := Initial(WheelSlot, 0);
      && Runnable(WheelSlot, s, Repeat(WheelTurn, 64))
      && !exists n: nat :: StepsBounded(WheelSlot, Run(WheelSlot, s, Repeat(WheelTurn, 64)), n)
  {
    var s := Initial(WheelSlot, 0);
    SixtyFourTurns();
    InitialHolds(WheelSlot, 0);
    TurnsFindMemory(s, 64);
    LiveOverRuns(WheelSlot, s, Repeat(WheelTurn, 64));
    var r := Run(WheelSlot, s, Repeat(WheelTurn, 64));
    assert !Released(r, 0);
    FinishesExactly(WheelSlot, r);
  }
}
