// Timers kept in order of deadline: whole runs of adding, deleting and firing against a clock read
// afresh at each use.  Callbacks add and delete timers too.
module TimerRuns {

  // A callback, by name.  One that adds itself again adds a timer of the same name.
  type Task = nat

  // What a callback does to the timer, in order.
  datatype Command = Add(msec: int, task: Task) | Del(expireTime: int, id: int)

  datatype TimerNode = TimerNode(expireTime: int, id: int, callback: Task)

  // The order of the set: by deadline, then by id.
  predicate Before(t0: int, id0: int, t1: int, id1: int)
  {
    if t0 < t1 then true else if t0 > t1 then false else id0 < id1
  }

  predicate Earlier(a: TimerNode, b: TimerNode) { Before(a.expireTime, a.id, b.expireTime, b.id) }

  predicate Sorted(q: seq<TimerNode>)
  {
    forall i, j | 0 <= i < j < |q| :: Earlier(q[i], q[j])
  }

  // What the timer does not decide: the `r`-th reading of the clock, and what a callback does that
  // starts after `r` readings.  No two start after as many, so it may do something else every time.
  type Clock = nat -> int
  datatype World = World(clock: Clock, script: (Task, nat) -> seq<Command>)

  ghost predicate Monotone(clock: Clock)
  {
    forall r: nat, r': nat | r <= r' :: clock(r) <= clock(r')
  }

  datatype State = State(
    timers: seq<TimerNode>,    // the set, in order
    gid: int,
    readings: nat,             // how often the clock has been read
    fault: bool,               // a callback deleted its own node
    // History: nodes fired, in order, the ticks at which they fired, and ids deleted.
    fired: seq<TimerNode>,
    ticks: seq<int>,
    deleted: set<int>)

  function Insert(q: seq<TimerNode>, n: TimerNode): (r: seq<TimerNode>)
  {
    if q == [] || Earlier(n, q[0]) then [n] + q else [q[0]] + Insert(q[1..], n)
  }

  // The set without the node of this deadline and id.
  function Erase(q: seq<TimerNode>, t: int, id: int): (r: seq<TimerNode>)
  {
    if q == [] then []
    else if q[0].expireTime == t && q[0].id == id then q[1..]
    else [q[0]] + Erase(q[1..], t, id)
  }

  predicate Has(q: seq<TimerNode>, t: int, id: int)
  {
    exists i | 0 <= i < |q| :: q[i].expireTime == t && q[i].id == id
  }

  function AddTimer(s: State, w: World, msec: int, task: Task): State
  {
    var n := TimerNode(w.clock(s.readings) + msec, s.gid + 1, task);
    s.(timers := Insert(s.timers, n), gid := s.gid + 1, readings := s.readings + 1)
  }

  function DelTimer(s: State, t: int, id: int): State
  {
    if Has(s.timers, t, id) then s.(timers := Erase(s.timers, t, id), deleted := s.deleted + {id}) else s
  }

  // The callback of `running`, which is still in the set.
  function RunCallback(s: State, w: World, running: TimerNode, commands: seq<Command>): State
    decreases |commands|
  {
    if commands == [] || s.fault then s
    else
      var s' := match commands[0]
                case Add(msec, task) => AddTimer(s, w, msec, task)
                case Del(t, id) =>
                  if t == running.expireTime && id == running.id then s.(fault := true) else DelTimer(s, t, id);
      RunCallback(s', w, running, commands[1..])
  }

  function CommandsOf(s: State, w: World, it: TimerNode): seq<Command> { w.script(it.callback, s.readings) }

  // Fires the earliest timer if it is due.  An empty set is found without reading the clock.
  function CheckTimer(s: State, w: World): (State, bool)
  {
    if s.timers == [] then (s, false)
    else
      var it := s.timers[0];
      var tick := w.clock(s.readings);
      var s0 := s.(readings := s.readings + 1);
      if it.expireTime > tick then (s0, false)
      else
        var s1 := RunCallback(s0, w, it, CommandsOf(s0, w, it));
        // Erasing the node a second time has no meaning: the run stops before it.
        if s1.fault then (s1, true)
        else (s1.(timers := Erase(s1.timers, it.expireTime, it.id), fired := s1.fired + [it],
            ticks := s1.ticks + [tick]), true)
  }

  datatype Event = AddCall(msec: int, task: Task) | DelCall(expireTime: int, id: int) | CheckCall

  function StepTimer(s: State, w: World, e: Event): State
  {
    if s.fault then s
    else
      match e
      case AddCall(msec, task) => AddTimer(s, w, msec, task)
      case DelCall(t, id) => DelTimer(s, t, id)
      case CheckCall => CheckTimer(s, w).0
  }

  function RunTimer(s: State, w: World, events: seq<Event>): State
    decreases |events|
  {
    if events == [] then s else RunTimer(StepTimer(s, w, events[0]), w, events[1..])
  }

  function NoTimers(): State { State([], 0, 0, false, [], [], {}) }

  // ---------- Delays ----------

  // Every delay asked for, by callbacks and by calls, is at least `d`.
  ghost predicate ScriptAtLeast(w: World, d: int)
  {
    forall task: Task, r: nat :: CommandsAtLeast(w.script(task, r), d)
  }

  ghost predicate CommandsAtLeast(commands: seq<Command>, d: int)
  {
    forall i | 0 <= i < |commands| :: commands[i].Add? ==> commands[i].msec >= d
  }

  ghost predicate EventsAtLeast(events: seq<Event>, d: int)
  {
    forall i | 0 <= i < |events| :: events[i].AddCall? ==> events[i].msec >= d
  }

  // ---------- Sets as sorted sequences ----------

  lemma {:induction false} InsertSorted(q: seq<TimerNode>, n: TimerNode)
    requires Sorted(q) && forall m | m in q :: m.id != n.id
    ensures Sorted(Insert(q, n)) && forall m :: m in Insert(q, n) <==> m in q || m == n
    decreases |q|
  {
    if q == [] || Earlier(n, q[0]) {
      assert [n] + q == Insert(q, n);
    } else {
      assert q == [q[0]] + q[1..];
      InsertSorted(q[1..], n);
      forall m | m in Insert(q[1..], n) ensures Earlier(q[0], m) {
      }
    }
  }

  lemma {:induction false} EraseSorted(q: seq<TimerNode>, n: TimerNode)
    requires Sorted(q) && n in q
    ensures Sorted(Erase(q, n.expireTime, n.id)) && forall m :: m in Erase(q, n.expireTime, n.id) <==> m in q && m != n
    decreases |q|
  {
    assert q == [q[0]] + q[1..];
    if q[0].expireTime == n.expireTime && q[0].id == n.id {
      assert q[0] == n;
    } else {
      EraseSorted(q[1..], n);
      forall m | m in Erase(q[1..], n.expireTime, n.id) ensures Earlier(q[0], m) {
      }
    }
  }

  // ---------- Every timer is pending, fired or deleted ----------

  ghost predicate UniqueIds(q: seq<TimerNode>)
  {
    forall m, n | m in q && n in q && m.id == n.id :: m == n
  }

  ghost predicate Pending(s: State, id: int) { exists n :: n in s.timers && n.id == id }

  ghost predicate Fired(s: State, id: int) { exists n :: n in s.fired && n.id == id }

  ghost predicate Accounted(s: State)
  {
    && s.gid >= 0 && Sorted(s.timers) && UniqueIds(s.timers)
    && (forall i, j | 0 <= i < j < |s.fired| :: s.fired[i].id != s.fired[j].id)
    && (forall id :: (if Pending(s, id) then 1 else 0) + (if Fired(s, id) then 1 else 0)
                     + (if id in s.deleted then 1 else 0)
                     == if 1 <= id <= s.gid then 1 else 0)
    && |s.ticks| == |s.fired| && (forall i | 0 <= i < |s.fired| :: s.fired[i].expireTime <= s.ticks[i])
  }

  lemma AddAccounted(s: State, w: World, msec: int, task: Task)
    requires Accounted(s)
    ensures var r := AddTimer(s, w, msec, task);
            && Accounted(r) && r.fired == s.fired && r.ticks == s.ticks
            && forall m :: m in r.timers <==>
                 m in s.timers || m == TimerNode(w.clock(s.readings) + msec, s.gid + 1, task)
  {
    var n := TimerNode(w.clock(s.readings) + msec, s.gid + 1, task);
    var r := AddTimer(s, w, msec, task);
    forall m | m in s.timers ensures m.id != n.id { assert Pending(s, m.id); }
    InsertSorted(s.timers, n);
    forall id ensures Pending(r, id) <==> Pending(s, id) || id == n.id {
      if m :| m in s.timers && m.id == id { assert m in r.timers; }
      assert n in r.timers;
    }
  }

  lemma DelAccounted(s: State, t: int, id: int)
    requires Accounted(s)
    ensures var r := DelTimer(s, t, id);
            && Accounted(r) && r.fired == s.fired && r.ticks == s.ticks
            && forall m :: m in r.timers <==> m in s.timers && !(m.expireTime == t && m.id == id)
  {
    if i :| 0 <= i < |s.timers| && s.timers[i].expireTime == t && s.timers[i].id == id {
      var n := s.timers[i];
      EraseSorted(s.timers, n);
      var r := DelTimer(s, t, id);
      assert Pending(s, id) by { assert n in s.timers; }
      forall j ensures Pending(r, j) <==> Pending(s, j) && j != id {
        if m :| m in s.timers && m.id == j && j != id { assert m in r.timers; }
        if m :| m in r.timers && m.id == j { assert m in s.timers; }
      }
    }
  }

  // The books do not depend on the clock readings or the fault.
  lemma SameBooks(s: State, r: State)
    requires Accounted(s) && r == s.(readings := r.readings, fault := r.fault)
    ensures Accounted(r)
  {
    forall id ensures (Pending(r, id) <==> Pending(s, id)) && (Fired(r, id) <==> Fired(s, id)) {}
  }

  lemma {:induction false} CallbackAccounted(s: State, w: World, running: TimerNode, commands: seq<Command>)
    requires Accounted(s) && running in s.timers
    ensures var r := RunCallback(s, w, running, commands);
            Accounted(r) && running in r.timers && r.fired == s.fired && r.ticks == s.ticks
    decreases |commands|
  {
    hide Accounted;
    if commands != [] && !s.fault {
      match commands[0]
      case Add(msec, task) =>
        AddAccounted(s, w, msec, task);
        CallbackAccounted(AddTimer(s, w, msec, task), w, running, commands[1..]);
      case Del(t, id) =>
        if t != running.expireTime || id != running.id {
          DelAccounted(s, t, id);
          CallbackAccounted(DelTimer(s, t, id), w, running, commands[1..]);
        } else {
          SameBooks(s, s.(fault := true));
          CallbackAccounted(s.(fault := true), w, running, commands[1..]);
        }
    }
  }

  // ---------- What a callback leaves ----------

  // Some command from the `i`-th on deletes this node.
  ghost predicate Names(commands: seq<Command>, i: nat, n: TimerNode)
  {
    exists j | i <= j < |commands| :: commands[j] == Del(n.expireTime, n.id)
  }

  function Adds(commands: seq<Command>): nat
  {
    if commands == [] then 0 else (if commands[0].Add? then 1 else 0) + Adds(commands[1..])
  }

  // The `i`-th command adds this node: its deadline from the clock as it then reads, the next id, its task.
  ghost predicate AddedBy(s: State, w: World, commands: seq<Command>, i: nat, n: TimerNode)
  {
    && i < |commands| && commands[i].Add? && n.callback == commands[i].task
    && n.expireTime == w.clock(s.readings + Adds(commands[..i])) + commands[i].msec
    && n.id == s.gid + Adds(commands[..i]) + 1
  }

  // Pending before or added by the callback, and named by a later deletion.
  ghost predicate Dropped(s: State, w: World, commands: seq<Command>, n: TimerNode)
  {
    || (n in s.timers && Names(commands, 0, n))
    || exists i: nat :: AddedBy(s, w, commands, i, n) && Names(commands, i + 1, n)
  }

  ghost predicate Kept(s: State, w: World, commands: seq<Command>, n: TimerNode)
  {
    || (n in s.timers && !Names(commands, 0, n))
    || exists i: nat :: AddedBy(s, w, commands, i, n) && !Names(commands, i + 1, n)
  }

  lemma NamesShift(commands: seq<Command>, i: nat, n: TimerNode)
    requires commands != []
    ensures Names(commands[1..], i, n) <==> Names(commands, i + 1, n)
    ensures Names(commands, 0, n) <==> commands[0] == Del(n.expireTime, n.id) || Names(commands, 1, n)
  {
    if j :| i <= j < |commands[1..]| && commands[1..][j] == Del(n.expireTime, n.id) {
      assert commands[j + 1] == commands[1..][j];
    }
    if j :| i + 1 <= j < |commands| && commands[j] == Del(n.expireTime, n.id) {
      assert commands[1..][j - 1] == commands[j];
    }
  }

  // The state after the first command.
  ghost predicate AfterFirst(s: State, s': State, w: World, commands: seq<Command>)
    requires commands != []
  {
    && s'.gid == s.gid + Adds(commands[..1]) && s'.readings == s.readings + Adds(commands[..1])
    && forall n :: n in s'.timers <==>
         (n in s.timers && commands[0] != Del(n.expireTime, n.id)) || AddedBy(s, w, commands, 0, n)
  }

  lemma AddedShift(s: State, s': State, w: World, commands: seq<Command>, i: nat, n: TimerNode)
    requires commands != [] && AfterFirst(s, s', w, commands)
    ensures AddedBy(s', w, commands[1..], i, n) <==> AddedBy(s, w, commands, i + 1, n)
  {
    if i < |commands[1..]| {
      assert commands[..i + 1][1..] == commands[1..][..i];
      assert commands[..1][1..] == [];
      assert Adds(commands[..1][1..]) == 0;
      assert Adds(commands[..i + 1]) == Adds(commands[..1]) + Adds(commands[1..][..i]);
      assert commands[1..][i] == commands[i + 1];
    }
  }

  lemma KeptShift(s: State, s': State, w: World, commands: seq<Command>, n: TimerNode)
    requires commands != [] && AfterFirst(s, s', w, commands)
    ensures Kept(s, w, commands, n) <==> Kept(s', w, commands[1..], n)
    ensures Dropped(s, w, commands, n) <==>
              Dropped(s', w, commands[1..], n) || (n in s.timers && commands[0] == Del(n.expireTime, n.id))
  {
    hide AddedBy, Names;
    var rest := commands[1..];
    NamesShift(commands, 0, n);
    forall i: nat
      ensures AddedBy(s', w, rest, i, n) <==> AddedBy(s, w, commands, i + 1, n)
      ensures Names(rest, i, n) <==> Names(commands, i + 1, n)
    {
      AddedShift(s, s', w, commands, i, n);
      NamesShift(commands, i, n);
    }
    forall i: nat ensures AddedBy(s, w, commands, i, n) ==> i == 0 || AddedBy(s', w, rest, i - 1, n) {
      if i > 0 { AddedShift(s, s', w, commands, i - 1, n); }
    }
  }

  lemma AddsFirst(commands: seq<Command>)
    requires commands != []
    ensures Adds(commands) == Adds(commands[..1]) + Adds(commands[1..])
  {
    assert commands[..1][1..] == [];
  }

  lemma NoCommands(s: State, w: World, running: TimerNode)
    ensures RunCallback(s, w, running, []) == s && Adds([]) == 0 && !Names([], 0, running)
  {
  }

  lemma NothingDone(s: State, w: World)
    ensures forall n :: (Kept(s, w, [], n) <==> n in s.timers) && !Dropped(s, w, [], n)
  {
  }

  lemma {:induction false} FaultStays(s: State, w: World, running: TimerNode, commands: seq<Command>)
    requires s.fault
    ensures RunCallback(s, w, running, commands) == s
  {
  }

  lemma FirstCommand(s: State, w: World, running: TimerNode, commands: seq<Command>) returns (s': State)
    requires Accounted(s) && running in s.timers && !s.fault
    requires commands != [] && commands[0] != Del(running.expireTime, running.id)
    ensures RunCallback(s, w, running, commands) == RunCallback(s', w, running, commands[1..])
    ensures Accounted(s') && running in s'.timers && !s'.fault && AfterFirst(s, s', w, commands)
    ensures forall id :: id in s'.deleted <==>
              id in s.deleted || exists n :: n in s.timers && n.id == id && commands[0] == Del(n.expireTime, n.id)
  {
    hide Accounted;
    assert commands[..1][1..] == [] && commands[..0] == [];
    assert Adds(commands[..1][1..]) == 0 && Adds(commands[..0]) == 0;
    match commands[0]
    case Add(msec, task) =>
      AddAccounted(s, w, msec, task);
      s' := AddTimer(s, w, msec, task);
    case Del(t, id) =>
      DelAccounted(s, t, id);
      s' := DelTimer(s, t, id);
      assert forall n :: !AddedBy(s, w, commands, 0, n);
      HasMeans(s.timers, t, id);
  }

  lemma HasMeans(q: seq<TimerNode>, t: int, id: int)
    ensures Has(q, t, id) <==> exists n :: n in q && n.expireTime == t && n.id == id
  {
    if i :| 0 <= i < |q| && q[i].expireTime == t && q[i].id == id { assert q[i] in q; }
    if n :| n in q && n.expireTime == t && n.id == id {
      var i :| 0 <= i < |q| && q[i] == n;
    }
  }

  // Unless it deletes its own node, after a callback exactly those nodes are pending that were before
  // or that it added, and that it did not delete since; and those it did delete are deleted.
  lemma {:induction false} CallbackExact(s: State, w: World, running: TimerNode, commands: seq<Command>)
    requires Accounted(s) && running in s.timers && !s.fault
    ensures var r := RunCallback(s, w, running, commands);
            && (r.fault <==> Names(commands, 0, running))
            && (!r.fault ==>
                  && r.gid == s.gid + Adds(commands) && r.readings == s.readings + Adds(commands)
                  && (forall n :: n in r.timers <==> Kept(s, w, commands, n))
                  && (forall id :: id in r.deleted <==>
                       id in s.deleted || exists n :: Dropped(s, w, commands, n) && n.id == id))
    decreases |commands|
  {
    hide Accounted, Kept, Dropped, Adds, Names;
    if commands == [] {
      NoCommands(s, w, running);
      NothingDone(s, w);
    } else if commands[0] == Del(running.expireTime, running.id) {
      NamesShift(commands, 0, running);
      FaultStays(s.(fault := true), w, running, commands[1..]);
    } else {
      var s' := FirstCommand(s, w, running, commands);
      CallbackExact(s', w, running, commands[1..]);
      AddsFirst(commands);
      NamesShift(commands, 0, running);
      var r := RunCallback(s, w, running, commands);
      forall n
        ensures Kept(s, w, commands, n) <==> Kept(s', w, commands[1..], n)
        ensures Dropped(s, w, commands, n) <==>
                  Dropped(s', w, commands[1..], n) || (n in s.timers && commands[0] == Del(n.expireTime, n.id))
      {
        KeptShift(s, s', w, commands, n);
      }
      assert r.fault <==> Names(commands, 0, running);
      if !r.fault {
        forall id ensures id in r.deleted <==> id in s.deleted || exists n :: Dropped(s, w, commands, n) && n.id == id {
          if id in s'.deleted && id !in s.deleted {
            var n :| n in s.timers && n.id == id && commands[0] == Del(n.expireTime, n.id);
            assert Dropped(s, w, commands, n);
          }
          if n :| Dropped(s', w, commands[1..], n) && n.id == id { assert Dropped(s, w, commands, n); }
        }
      }
    }
  }

  // The node that ran goes from pending to fired.
  lemma FireAccounted(s: State, n: TimerNode, tick: int)
    requires Accounted(s) && n in s.timers && n.expireTime <= tick
    ensures Accounted(s.(timers := Erase(s.timers, n.expireTime, n.id), fired := s.fired + [n],
            ticks := s.ticks + [tick]))
  {
    var r := s.(timers := Erase(s.timers, n.expireTime, n.id), fired := s.fired + [n], ticks := s.ticks + [tick]);
    EraseSorted(s.timers, n);
    assert Pending(s, n.id);
    forall i | 0 <= i < |s.fired| ensures s.fired[i].id != n.id { assert Fired(s, s.fired[i].id); }
    forall j ensures Pending(r, j) <==> Pending(s, j) && j != n.id {
      if m :| m in s.timers && m.id == j && j != n.id { assert m in r.timers; }
      if m :| m in r.timers && m.id == j { assert m in s.timers; }
    }
    forall j ensures Fired(r, j) <==> Fired(s, j) || j == n.id {
      if m :| m in s.fired && m.id == j { assert m in r.fired; }
      assert n in r.fired;
    }
  }

  lemma CheckAccounted(s: State, w: World)
    requires Accounted(s)
    ensures Accounted(CheckTimer(s, w).0)
  {
    hide Accounted;
    var s0 := s.(readings := s.readings + 1);
    SameBooks(s, s0);
    if s.timers != [] && s.timers[0].expireTime <= w.clock(s.readings) {
      var it := s.timers[0];
      CallbackAccounted(s0, w, it, CommandsOf(s0, w, it));
      var s1 := RunCallback(s0, w, it, CommandsOf(s0, w, it));
      if !s1.fault { FireAccounted(s1, it, w.clock(s.readings)); }
    }
  }

  lemma StepAccounted(s: State, w: World, e: Event)
    requires Accounted(s)
    ensures Accounted(StepTimer(s, w, e))
  {
    hide Accounted;
    if !s.fault {
      match e
      case AddCall(msec, task) => AddAccounted(s, w, msec, task);
      case DelCall(t, id) => DelAccounted(s, t, id);
      case CheckCall => CheckAccounted(s, w);
    }
  }

  lemma {:induction false} RunAccounted(s: State, w: World, events: seq<Event>)
    requires Accounted(s)
    ensures Accounted(RunTimer(s, w, events))
    decreases |events|
  {
    hide Accounted, StepTimer;
    if events != [] {
      StepAccounted(s, w, events[0]);
      RunAccounted(StepTimer(s, w, events[0]), w, events[1..]);
    }
  }

  // ---------- What a check does, and what a run never revises ----------

  // A check fires the earliest timer if it is due: it alone leaves the set, beside what its callback
  // deletes, and it goes to the end of those fired.  It does nothing else.
  lemma CheckExact(s: State, w: World)
    requires Accounted(s) && !s.fault
    ensures var (r, more) := CheckTimer(s, w);
            && (!more ==> r == s.(readings := r.readings))
            && (more ==>
                  var (it, s0) := (s.timers[0], s.(readings := s.readings + 1));
                  var commands := CommandsOf(s0, w, it);
                  && it in s.timers && (forall n | n in s.timers && n != it :: Earlier(it, n))
                  && (r.fault <==> Names(commands, 0, it))
                  && (!r.fault ==>
                        && r.fired == s.fired + [it] && r.ticks == s.ticks + [w.clock(s.readings)]
                        && (forall n :: n in r.timers <==> n != it && Kept(s0, w, commands, n))
                        && (forall id :: id in r.deleted <==>
                              id in s.deleted || exists n :: Dropped(s0, w, commands, n) && n.id == id)))
  {
    hide Accounted, Kept, Dropped, Names;
    if s.timers != [] && s.timers[0].expireTime <= w.clock(s.readings) {
      var it := s.timers[0];
      var s0 := s.(readings := s.readings + 1);
      FirstIsEarliest(s);
      SameBooks(s, s0);
      CallbackAccounted(s0, w, it, CommandsOf(s0, w, it));
      CallbackExact(s0, w, it, CommandsOf(s0, w, it));
      SortedSet(RunCallback(s0, w, it, CommandsOf(s0, w, it)), it);
    }
  }

  lemma FirstIsEarliest(s: State)
    requires Accounted(s) && s.timers != []
    ensures s.timers[0] in s.timers && forall n | n in s.timers && n != s.timers[0] :: Earlier(s.timers[0], n)
  {
  }

  lemma SortedSet(s: State, n: TimerNode)
    requires Accounted(s) && n in s.timers
    ensures forall m :: m in Erase(s.timers, n.expireTime, n.id) <==> m in s.timers && m != n
  {
    EraseSorted(s.timers, n);
  }

  // Nothing fired or deleted is ever revised, and no pending timer is lost.
  ghost predicate Continues(s: State, r: State)
  {
    && s.gid <= r.gid && s.readings <= r.readings && s.fired <= r.fired && s.ticks <= r.ticks && s.deleted <= r.deleted
    && forall n | n in s.timers :: n in r.timers || n in r.fired || n.id in r.deleted
  }

  lemma {:induction false} CallbackContinues(s: State, w: World, running: TimerNode, commands: seq<Command>)
    requires Accounted(s) && running in s.timers
    ensures Continues(s, RunCallback(s, w, running, commands))
    decreases |commands|
  {
    hide Accounted;
    if commands != [] && !s.fault {
      match commands[0]
      case Add(msec, task) =>
        AddAccounted(s, w, msec, task);
        CallbackContinues(AddTimer(s, w, msec, task), w, running, commands[1..]);
      case Del(t, id) =>
        if t != running.expireTime || id != running.id {
          DelAccounted(s, t, id);
          HasMeans(s.timers, t, id);
          CallbackContinues(DelTimer(s, t, id), w, running, commands[1..]);
        } else {
          FaultStays(s.(fault := true), w, running, commands[1..]);
        }
    }
  }

  lemma StepContinues(s: State, w: World, e: Event)
    requires Accounted(s)
    ensures Continues(s, StepTimer(s, w, e))
  {
    hide Accounted;
    if !s.fault {
      match e
      case AddCall(msec, task) => AddAccounted(s, w, msec, task);
      case DelCall(t, id) =>
        DelAccounted(s, t, id);
        HasMeans(s.timers, t, id);
      case CheckCall =>
        if s.timers != [] && s.timers[0].expireTime <= w.clock(s.readings) {
          var it := s.timers[0];
          var s0 := s.(readings := s.readings + 1);
          SameBooks(s, s0);
          CallbackAccounted(s0, w, it, CommandsOf(s0, w, it));
          CallbackContinues(s0, w, it, CommandsOf(s0, w, it));
          SortedSet(RunCallback(s0, w, it, CommandsOf(s0, w, it)), it);
        }
    }
  }

  lemma {:induction false} RunContinues(s: State, w: World, events: seq<Event>)
    requires Accounted(s)
    ensures Continues(s, RunTimer(s, w, events))
    decreases |events|
  {
    hide Accounted, StepTimer;
    if events != [] {
      var s' := StepTimer(s, w, events[0]);
      StepContinues(s, w, events[0]);
      StepAccounted(s, w, events[0]);
      RunContinues(s', w, events[1..]);
    }
  }

  // A timer deleted, by a call or by a callback, never fires afterwards.
  lemma DeletedNeverFires(s: State, w: World, events: seq<Event>, id: int)
    requires Accounted(s) && id in s.deleted
    ensures var r := RunTimer(s, w, events); id in r.deleted && !Fired(r, id) && !Pending(r, id)
  {
    RunContinues(s, w, events);
    RunAccounted(s, w, events);
  }

  // What the calls of a run do: an addition makes one new timer, a deletion removes the one it names.
  lemma CallsAreExact(s: State, w: World, msec: int, task: Task, t: int, id: int)
    requires Accounted(s) && !s.fault
    ensures var r := StepTimer(s, w, AddCall(msec, task));
            && r.gid == s.gid + 1 && r.readings == s.readings + 1 && r.fired == s.fired && r.deleted == s.deleted
            && forall n :: n in r.timers <==>
                 n in s.timers || n == TimerNode(w.clock(s.readings) + msec, s.gid + 1, task)
    ensures var r := StepTimer(s, w, DelCall(t, id));
            && r.gid == s.gid && r.readings == s.readings && r.fired == s.fired
            && (forall n :: n in r.timers <==> n in s.timers && !(n.expireTime == t && n.id == id))
            && (forall j :: j in r.deleted <==>
                  j in s.deleted || exists n :: n in s.timers && n.id == j == id && n.expireTime == t)
  {
    hide Accounted;
    AddAccounted(s, w, msec, task);
    DelAccounted(s, t, id);
    HasMeans(s.timers, t, id);
  }

  // Whatever the clock, the delays and the callbacks: every timer added is pending, fired or deleted,
  // and only one of these; none fires twice, none fires before its deadline.
  lemma EveryTimerAccounted(w: World, events: seq<Event>)
    ensures Accounted(RunTimer(NoTimers(), w, events))
  {
    RunAccounted(NoTimers(), w, events);
  }

  // ---------- Timers fire in order ----------

  // The pending timers all come after the last one fired, and so will all timers added later.
  ghost predicate InOrder(s: State, w: World)
  {
    && Accounted(s) && Sorted(s.fired)
    && (s.fired != [] ==>
          var last := s.fired[|s.fired| - 1];
          last.expireTime <= w.clock(s.readings) && last.id <= s.gid && forall n | n in s.timers :: Earlier(last, n))
  }

  // While the callback of `running` runs, all other pending timers come after it.
  ghost predicate BehindRunning(s: State, w: World, running: TimerNode)
  {
    && Accounted(s) && running in s.timers
    && running.expireTime <= w.clock(s.readings) && running.id <= s.gid
    && forall n | n in s.timers && n != running :: Earlier(running, n)
  }

  lemma {:induction false} CallbackBehind(s: State, w: World, running: TimerNode, commands: seq<Command>)
    requires Monotone(w.clock)
    requires BehindRunning(s, w, running)
    requires CommandsAtLeast(commands, 0)
    ensures var r := RunCallback(s, w, running, commands);
            BehindRunning(r, w, running) && r.fired == s.fired && r.ticks == s.ticks
    decreases |commands|
  {
    hide Accounted;
    if commands != [] && !s.fault {
      assert commands[0].Add? ==> commands[0].msec >= 0;
      match commands[0]
      case Add(msec, task) =>
        AddAccounted(s, w, msec, task);
        assert w.clock(s.readings) <= w.clock(s.readings + 1);
        CallbackBehind(AddTimer(s, w, msec, task), w, running, commands[1..]);
      case Del(t, id) =>
        if t != running.expireTime || id != running.id {
          DelAccounted(s, t, id);
          CallbackBehind(DelTimer(s, t, id), w, running, commands[1..]);
        } else {
          SameBooks(s, s.(fault := true));
          CallbackBehind(s.(fault := true), w, running, commands[1..]);
        }
    }
  }

  lemma CheckInOrder(s: State, w: World)
    requires Monotone(w.clock) && ScriptAtLeast(w, 0) && InOrder(s, w)
    ensures InOrder(CheckTimer(s, w).0, w)
  {
    hide Accounted;
    CheckAccounted(s, w);
    assert w.clock(s.readings) <= w.clock(s.readings + 1);
    if s.timers != [] && s.timers[0].expireTime <= w.clock(s.readings) {
      var it := s.timers[0];
      var s0 := s.(readings := s.readings + 1);
      FirstIsBehind(s, w);
      CallbackBehind(s0, w, it, CommandsOf(s0, w, it));
      var s1 := RunCallback(s0, w, it, CommandsOf(s0, w, it));
      if s1.fault { BehindKeepsOrder(s1, it, w); } else { FireInOrder(s1, it, w.clock(s.readings), w); }
    }
  }

  lemma FirstIsBehind(s: State, w: World)
    requires Monotone(w.clock) && InOrder(s, w) && s.timers != [] && s.timers[0].expireTime <= w.clock(s.readings)
    ensures BehindRunning(s.(readings := s.readings + 1), w, s.timers[0])
    ensures s.fired != [] ==> Earlier(s.fired[|s.fired| - 1], s.timers[0])
  {
    var s0 := s.(readings := s.readings + 1);
    assert s.timers[0] in s.timers;
    SameBooks(s, s0);
    assert Pending(s, s.timers[0].id);
    assert w.clock(s.readings) <= w.clock(s.readings + 1);
  }

  lemma BehindKeepsOrder(s: State, n: TimerNode, w: World)
    requires BehindRunning(s, w, n) && Sorted(s.fired)
    requires s.fired != [] ==> Earlier(s.fired[|s.fired| - 1], n)
    ensures InOrder(s, w)
  {
    assert Pending(s, n.id);
    if s.fired != [] { assert Fired(s, s.fired[|s.fired| - 1].id); }
  }

  lemma FireInOrder(s: State, n: TimerNode, tick: int, w: World)
    requires BehindRunning(s, w, n) && n.expireTime <= tick && Sorted(s.fired)
    requires s.fired != [] ==> Earlier(s.fired[|s.fired| - 1], n)
    ensures InOrder(s.(timers := Erase(s.timers, n.expireTime, n.id), fired := s.fired + [n],
            ticks := s.ticks + [tick]), w)
  {
    FireAccounted(s, n, tick);
    EraseSorted(s.timers, n);
  }

  lemma {:induction false} RunInOrder(s: State, w: World, events: seq<Event>)
    requires Monotone(w.clock) && ScriptAtLeast(w, 0) && EventsAtLeast(events, 0)
    requires InOrder(s, w)
    ensures InOrder(RunTimer(s, w, events), w)
    decreases |events|
  {
    hide Accounted;
    if events != [] {
      if !s.fault {
        match events[0]
        case AddCall(msec, task) =>
          AddAccounted(s, w, msec, task);
          assert w.clock(s.readings) <= w.clock(s.readings + 1);
        case DelCall(t, id) => DelAccounted(s, t, id);
        case CheckCall => CheckInOrder(s, w);
      }
      RunInOrder(StepTimer(s, w, events[0]), w, events[1..]);
    }
  }

  // With a clock that never goes back, timers fire in strictly increasing order of deadline and id
  // in every run whose delays are at least `d` exactly when `d` is not negative.
  lemma {:induction false} FiresInOrderIffPatient(d: int)
    ensures (forall w: World, events: seq<Event> |
               Monotone(w.clock) && ScriptAtLeast(w, d) && EventsAtLeast(events, d) ::
               Sorted(RunTimer(NoTimers(), w, events).fired)) <==> d >= 0
  {
    if d >= 0 {
      forall w: World, events: seq<Event> | Monotone(w.clock) && ScriptAtLeast(w, d) && EventsAtLeast(events, d)
        ensures Sorted(RunTimer(NoTimers(), w, events).fired)
      {
        assert ScriptAtLeast(w, 0) by {
          forall task: Task, r: nat ensures CommandsAtLeast(w.script(task, r), 0)
          {
            assert CommandsAtLeast(w.script(task, r), d);
          }
        }
        RunInOrder(NoTimers(), w, events);
      }
    } else {
      Impatient(d);
    }
  }

  // One timer due at once fires; then one is added with a deadline in the past.
  lemma {:induction false} Impatient(d: int)
    requires d < 0
    ensures exists w: World, events: seq<Event> ::
              Monotone(w.clock) && ScriptAtLeast(w, d) && EventsAtLeast(events, d) &&
              !Sorted(RunTimer(NoTimers(), w, events).fired)
  {
    var w := World((r: nat) => 0, (task: Task, r: nat) => []);
    var s0 := NoTimers();
    AddAndFire(s0, w, 0);
    var s2 := StepTimer(StepTimer(s0, w, AddCall(0, 0)), w, CheckCall);
    AddAndFire(s2, w, d);
    var s4 := StepTimer(StepTimer(s2, w, AddCall(d, 0)), w, CheckCall);
    var last := [AddCall(d, 0), CheckCall];
    var events := [AddCall(0, 0), CheckCall] + last;
    RunTwo(s0, w, AddCall(0, 0), CheckCall, last);
    RunTwo(s2, w, AddCall(d, 0), CheckCall, []);
    assert last == [AddCall(d, 0), CheckCall] + [];
    hide StepTimer, RunTimer;
    assert RunTimer(s0, w, events) == s4;
    assert !Earlier(s4.fired[0], s4.fired[1]);
  }

  lemma {:induction false} RunTwo(s: State, w: World, a: Event, b: Event, rest: seq<Event>)
    ensures RunTimer(s, w, [a, b] + rest) == RunTimer(StepTimer(StepTimer(s, w, a), w, b), w, rest)
  {
    hide StepTimer;
    assert ([a, b] + rest)[1..] == [b] + rest;
    assert ([b] + rest)[1..] == rest;
  }

  lemma {:induction false} AddAndFire(s: State, w: World, d: int)
    requires s.timers == [] && !s.fault && d <= 0 && forall r: nat :: w.clock(r) == 0 && w.script(0, r) == []
    ensures var r := StepTimer(StepTimer(s, w, AddCall(d, 0)), w, CheckCall);
            && r.timers == [] && !r.fault && r.fired == s.fired + [TimerNode(d, s.gid + 1, 0)]
  {
    var n := TimerNode(d, s.gid + 1, 0);
    var s1 := StepTimer(s, w, AddCall(d, 0));
    assert s1.timers == [n];
    assert RunCallback(s1.(readings := s1.readings + 1), w, n, []) == s1.(readings := s1.readings + 1);
  }

  // ---------- Draining ----------

  // When a check answers false, every timer left expires after the tick it read, if it read one.
  lemma DrainedLeavesFuture(s: State, w: World)
    requires Accounted(s)
    ensures var (r, more) := CheckTimer(s, w);
            && (more <==> exists n :: n in s.timers && n.expireTime <= w.clock(s.readings))
            && (!more ==> r.timers == s.timers && forall n | n in r.timers :: n.expireTime > w.clock(s.readings))
            && (!more && r.timers != [] ==> r.readings == s.readings + 1)
  {
    if s.timers != [] { assert s.timers[0] in s.timers; }
  }

  // The milliseconds to wait: none pending, something due, or the time to the earliest deadline.
  function TimeToSleep(s: State, w: World): int
  {
    if s.timers == [] then -1
    else
      var diff := s.timers[0].expireTime - w.clock(s.readings);
      if diff > 0 then diff else 0
  }

  ghost predicate DueBy(s: State, tick: int) { exists n :: n in s.timers && n.expireTime <= tick }

  // Waiting that long, and no less, makes a timer due.
  lemma SleepIsExact(s: State, w: World)
    requires Accounted(s)
    ensures var (z, now) := (TimeToSleep(s, w), w.clock(s.readings));
            && (s.timers == [] ==> z == -1)
            && (s.timers != [] ==> z >= 0 && DueBy(s, now + z) && (z == 0 <==> DueBy(s, now)))
            && (z > 0 ==> forall tick | tick < now + z :: !DueBy(s, tick))
  {
    if s.timers != [] {
      var first := s.timers[0];
      assert first in s.timers;
      forall n | n in s.timers ensures n.expireTime >= first.expireTime {
        var i :| 0 <= i < |s.timers| && s.timers[i] == n;
        assert i == 0 || Earlier(s.timers[0], s.timers[i]);
      }
    }
  }
}
