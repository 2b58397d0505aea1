/** The mutable side of input.c's macro engine: the linked list of player threads with its
    head and tail pointers, and the object whose methods are the critical sections. */
module MacroThreads {
  import opened MacroEngine

  class PtNode {
    const threadId: Tid
    var next: PtNode?

    constructor (id: Tid)
      ensures threadId == id && next == null
    {
      threadId, next := id, null;
    }
  }

  class ThreadList {
    var head: PtNode?
    var tail: PtNode?
    ghost var nodes: seq<PtNode>

    ghost predicate Valid()
      reads this, nodes
    {
      && (nodes == [] ==> head == null && tail == null)
      && (nodes != [] ==> head == nodes[0] && tail == nodes[|nodes| - 1] && nodes[|nodes| - 1].next == null)
      && (forall i {:trigger nodes[i].next} :: 0 <= i < |nodes| - 1 ==> nodes[i].next == nodes[i + 1])
      && (forall i, j :: 0 <= i < j < |nodes| ==> nodes[i] != nodes[j])
    }

    ghost function Ids(): seq<Tid>
      reads this
    {
      seq(|nodes|, i requires 0 <= i < |nodes| reads this => nodes[i].threadId)
    }

    constructor ()
      ensures Valid() && nodes == [] && Ids() == []
    {
      head, tail, nodes := null, null, [];
    }

    method Enqueue(id: Tid)
      requires Valid()
      modifies this, nodes
      ensures Valid() && Ids() == old(Ids()) + [id]
      ensures exists n :: fresh(n) && nodes == old(nodes) + [n]
    {
      var elem := new PtNode(id);
      if head == null {
        head, tail := elem, elem;
      } else {
        tail.next := elem;
        tail := elem;
      }
      nodes := nodes + [elem];
    }

    method Dequeue() returns (id: Tid)
      requires Valid()
      modifies this
      ensures Valid() && (forall n :: n in nodes ==> n in old(nodes))
      ensures if old(Ids()) == [] then id == 0 && Ids() == [] else id == old(Ids())[0] && Ids() == old(Ids())[1..]
    {
      if head == null && tail == null {
        return 0;
      }
      id := head.threadId;
      head := head.next;
      if head == null { tail := null; }
      nodes := nodes[1..];
    }

    method First() returns (id: Tid)
      requires Valid()
      ensures id == if Ids() == [] then 0 else Ids()[0]
    {
      id := if head != null then head.threadId else 0;
    }
  }

  class Engine {
    const slots: seq<Slot>
    const macros: array<Macro>
    const list: ThreadList
    var mode: nat
    var players: map<Tid, Player>
    var next: Tid

    constructor (slots: seq<Slot>, mode: nat)
      ensures Valid() && View() == Initial(slots, mode) && fresh(macros) && fresh(list)
      ensures this.slots == slots && list.nodes == []
    {
      this.slots, this.mode, players, next := slots, mode, map[], 0;
      macros := new Macro[|slots|](_ => Macro(0, None));
      list := new ThreadList();
      new;
      assert macros[..] == Initial(slots, mode).macros;
    }

    ghost predicate Valid()
      reads this, macros, list, list.nodes
    {
      macros.Length == |slots| && list.Valid()
    }

    ghost function View(): State
      reads this, macros, list
    {
      State(mode, macros[..], players, list.Ids(), next)
    }

    ghost predicate Can(a: Action)
      reads this, macros, list, list.nodes
    {
      Valid() && WellFormed(slots, View()) && Enabled(slots, View(), a)
    }

    /** The macro loop of inputupdate_keys. */
    method Scan(keys: set<nat>, outcomes: seq<Outcome>)
      requires Can(Action.Scan(keys, outcomes))
      modifies this, macros
      ensures Valid() && View() == Step(slots, old(View()), Action.Scan(keys, outcomes))
    {
      ghost var s0 := View();
      var i := 0;
      while i < macros.Length
        invariant 0 <= i <= macros.Length == |slots|
        invariant list.Valid()
        invariant View() == ScanTo(slots, s0, keys, outcomes, i)
      {
        ScanSlot(keys, outcomes[i], i);
        i := i + 1;
      }
    }

    /** is_wheel_keybit: the combo's keys one after the other. */
    static method IsWheelKeybit(slot: Slot) returns (r: bool)
      ensures r == slot.HasWheel()
    {
      var left := slot.combo;
      while left != {}
        invariant left <= slot.combo && forall k :: k in slot.combo && k in slot.wheels ==> k in left
      {
        var k :| k in left;
        if k in slot.wheels { return true; }
        left := left - {k};
      }
      r := false;
    }

    method ScanSlot(keys: set<nat>, outcome: Outcome, i: nat)
      requires Valid() && i < |slots|
      modifies this, macros
      ensures Valid() && View() == ScanOne(slots, old(View()), keys, outcome, i)
    {
      if slots[i].mode != mode { return; }
      ghost var before := macros[..];
      if slots[i].combo <= keys {
        if Odd(macros[i].triggered) { return; }
        macros[i] := macros[i].(triggered := Char(macros[i].triggered + 1));
        var wheel := IsWheelKeybit(slots[i]);
        if wheel {
          macros[i] := macros[i].(triggered := Char(macros[i].triggered + 1));
        }
      } else {
        if Odd(macros[i].triggered) {
          macros[i] := macros[i].(triggered := Char(macros[i].triggered + 1));
          assert macros[..] == before[i := macros[i]];
        }
        return;
      }
      assert macros[i].triggered == Pressed(slots[i], before[i].triggered);
      if macros[i].triggered <= 3 && macros[i].param.None? {
        match outcome
        case NoMemory =>
        case NoThread => macros[i] := Macro(0, None);
        case Created =>
          macros[i] := macros[i].(param := Some(next));
          players := players[next := Player(i, Started, true)];
          next := next + 1;
      }
      assert macros[..] == before[i := macros[i]];
    }

    method Switch(m: nat)
      requires Can(Action.Switch(m))
      modifies this, macros
      ensures Valid() && View() == Step(slots, old(View()), Action.Switch(m))
    {
      if mode == m { return; }
      ghost var s0 := View();
      var i := 0;
      while i < macros.Length
        invariant 0 <= i <= macros.Length
        invariant list.Valid() && View() == s0.(macros := macros[..])
        invariant forall j :: 0 <= j < i ==> macros[j] == SwitchStep(slots, s0, m).macros[j]
        invariant forall j :: i <= j < macros.Length ==> macros[j] == s0.macros[j]
      {
        if slots[i].mode == mode { macros[i] := macros[i].(triggered := 0); }
        i := i + 1;
      }
      mode := m;
      assert macros[..] == SwitchStep(slots, s0, m).macros;
    }

    method Enqueue(t: Tid)
      requires Can(Action.Enqueue(t))
      modifies this, list, list.nodes
      ensures Valid() && View() == Step(slots, old(View()), Action.Enqueue(t))
    {
      list.Enqueue(t);
      players := players[t := players[t].(phase := Queued)];
    }

    /** Tests whether `t` is first in the list, and goes on to play if it is. */
    method Begin(t: Tid) returns (mine: bool)
      requires Valid() && WellFormed(slots, View()) && t in players && players[t].phase.Queued? && list.nodes != []
      modifies this
      ensures Valid() && mine == old(Enabled(slots, View(), Action.Begin(t)))
      ensures View() == if mine then Step(slots, old(View()), Action.Begin(t)) else old(View())
    {
      var first := list.First();
      mine := first == t;
      if mine { players := players[t := Player(players[t].slot, Playing, true)]; }
    }

    method Decide(t: Tid)
      requires Can(Action.Decide(t))
      modifies this, macros
      ensures Valid() && View() == Step(slots, old(View()), Action.Decide(t))
    {
      var i, first, delay := players[t].slot, players[t].first, true;
      ghost var before := macros[..];
      if macros[i].triggered > 1 {
        macros[i] := macros[i].(triggered := macros[i].triggered - 2);
        delay, first := false, true;
      }
      if macros[i].triggered == 0 {
        GiveUp(t);
      } else {
        players := players[t := Player(i, if delay then Sleeping else Playing, first)];
      }
      assert macros[..] == before[i := macros[i]];
    }

    method Wake(t: Tid)
      requires Can(Action.Wake(t))
      modifies this, macros
      ensures Valid() && View() == Step(slots, old(View()), Action.Wake(t))
    {
      var i, first := players[t].slot, players[t].first;
      ghost var before := macros[..];
      if macros[i].triggered == 2 {
        macros[i] := macros[i].(triggered := 0);
        GiveUp(t);
      } else {
        if macros[i].triggered == 1 { first := false; }
        players := players[t := Player(i, Playing, first)];
      }
      assert macros[..] == before[i := macros[i]];
    }

    method GiveUp(t: Tid)
      requires Valid() && t in players && players[t].slot < macros.Length && macros[players[t].slot].triggered == 0
      modifies this, macros
      ensures Valid() && View() == Finish(old(View()), t)
    {
      var i := players[t].slot;
      ghost var before := macros[..];
      macros[i] := macros[i].(param := None);
      players := players[t := players[t].(phase := Exiting)];
      assert macros[..] == before[i := Macro(0, None)];
    }

    method Leave(t: Tid)
      requires Can(Action.Leave(t))
      modifies this, list
      ensures Valid() && View() == Step(slots, old(View()), Action.Leave(t))
    {
      var id := list.Dequeue();
      players := players - {t};
    }
  }
}
