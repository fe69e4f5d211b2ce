// When the loop that drains the timer ends, with callbacks that may add themselves again for ever: a
// question of delays and clocks, or of what callbacks cost.
module TimerDrain {
  import opened TimerRuns

  // ---------- Draining ends ----------

  // The drain loop cut off after `n` checks, and whether it would check again.
  function DrainFor(s: State, w: World, n: nat): (State, bool)
    decreases n
  {
    if n == 0 then (s, true)
    else
      var (r, more) := CheckTimer(s, w);
      if !more || r.fault then (r, false) else DrainFor(r, w, n - 1)
  }

  ghost predicate DrainEnds(s: State, w: World) { exists n: nat :: !DrainFor(s, w, n).1 }

  ghost predicate NeverBeyond(clock: Clock, b: int) { forall r: nat :: clock(r) <= b }

  ghost predicate Bounded(clock: Clock) { exists b: int :: NeverBeyond(clock, b) }

  // A check that fires leads on to the rest of the loop.
  lemma DrainGoesOn(s: State, w: World)
    requires var (r, more) := CheckTimer(s, w); !more || r.fault || DrainEnds(r, w)
    ensures DrainEnds(s, w)
  {
    var (r, more) := CheckTimer(s, w);
    if !more || r.fault {
      assert !DrainFor(s, w, 1).1;
    } else {
      var n: nat :| !DrainFor(r, w, n).1;
      assert !DrainFor(s, w, n + 1).1;
    }
  }

  // How many timers are due at `tick`.
  function Due(q: seq<TimerNode>, tick: int): nat
  {
    if q == [] then 0 else (if q[0].expireTime <= tick then 1 else 0) + Due(q[1..], tick)
  }

  lemma {:induction false} InsertDue(q: seq<TimerNode>, n: TimerNode, tick: int)
    ensures Due(Insert(q, n), tick) == Due(q, tick) + if n.expireTime <= tick then 1 else 0
    decreases |q|
  {
    if q == [] || Earlier(n, q[0]) {
      assert ([n] + q)[1..] == q;
    } else {
      InsertDue(q[1..], n, tick);
    }
  }

  lemma {:induction false} EraseDue(q: seq<TimerNode>, t: int, id: int, tick: int)
    ensures Due(Erase(q, t, id), tick) <= Due(q, tick)
    ensures Has(q, t, id) && t <= tick ==> Due(Erase(q, t, id), tick) + 1 == Due(q, tick)
    decreases |q|
  {
    if q != [] && !(q[0].expireTime == t && q[0].id == id) {
      EraseDue(q[1..], t, id, tick);
      if i :| 0 <= i < |q| && q[i].expireTime == t && q[i].id == id { assert q[1..][i - 1] == q[i]; }
      assert ([q[0]] + Erase(q[1..], t, id))[1..] == Erase(q[1..], t, id);
    }
  }

  // While the clock stands at `tick` a callback with positive delays adds nothing due.
  lemma {:induction false} CallbackDue(s: State, w: World, running: TimerNode, commands: seq<Command>, tick: int)
    requires Monotone(w.clock) && CommandsAtLeast(commands, 1) && tick <= w.clock(s.readings)
    ensures var r := RunCallback(s, w, running, commands);
            s.readings <= r.readings && Due(r.timers, tick) <= Due(s.timers, tick)
    decreases |commands|
  {
    if commands != [] && !s.fault {
      assert w.clock(s.readings) <= w.clock(s.readings + 1);
      assert commands[0].Add? ==> commands[0].msec >= 1;
      match commands[0]
      case Add(msec, task) =>
        InsertDue(s.timers, TimerNode(w.clock(s.readings) + msec, s.gid + 1, task), tick);
        CallbackDue(AddTimer(s, w, msec, task), w, running, commands[1..], tick);
      case Del(t, id) =>
        if t != running.expireTime || id != running.id {
          EraseDue(s.timers, t, id, tick);
          CallbackDue(DelTimer(s, t, id), w, running, commands[1..], tick);
        }
    }
  }

  // So a check that fires leaves fewer timers due at the tick it read.
  lemma CheckDue(s: State, w: World)
    requires Accounted(s) && Monotone(w.clock) && ScriptAtLeast(w, 1)
    ensures var (r, more) := CheckTimer(s, w);
            && s.readings <= r.readings
            && (more && !r.fault ==> Due(r.timers, w.clock(s.readings)) < Due(s.timers, w.clock(s.readings)))
  {
    if s.timers != [] && s.timers[0].expireTime <= w.clock(s.readings) {
      var it := s.timers[0];
      var s0 := s.(readings := s.readings + 1);
      var tick := w.clock(s.readings);
      assert tick <= w.clock(s0.readings);
      SameBooks(s, s0);
      CallbackAccounted(s0, w, it, CommandsOf(s0, w, it));
      CallbackDue(s0, w, it, CommandsOf(s0, w, it), tick);
      var s1 := RunCallback(s0, w, it, CommandsOf(s0, w, it));
      assert Has(s1.timers, it.expireTime, it.id);
      EraseDue(s1.timers, it.expireTime, it.id, tick);
    }
  }

  lemma {:induction false} BoundedDrains(s: State, w: World, b: int)
    requires Accounted(s) && Monotone(w.clock) && ScriptAtLeast(w, 1) && NeverBeyond(w.clock, b)
    ensures DrainEnds(s, w)
    decreases b - w.clock(s.readings), Due(s.timers, w.clock(s.readings))
  {
    hide Accounted, CheckTimer;
    var (r, more) := CheckTimer(s, w);
    if more && !r.fault {
      CheckDue(s, w);
      CheckAccounted(s, w);
      assert w.clock(s.readings) <= w.clock(r.readings) <= b;
      BoundedDrains(r, w, b);
    }
    DrainGoesOn(s, w);
  }

  // ---------- Draining for ever ----------

  // Some number of readings after the `r`-th, one at least, the clock has moved by `e`.
  ghost predicate Reaches(clock: Clock, r: nat, e: nat, m: nat) { m > 0 && clock(r + m) >= clock(r) + e }

  ghost predicate Gains(clock: Clock, r: nat, e: nat) { exists m: nat :: Reaches(clock, r, e, m) }

  ghost predicate AlwaysGains(clock: Clock, e: nat) { forall r: nat :: Gains(clock, r, e) }

  ghost function Hop(clock: Clock, e: nat, r: nat): (m: nat)
    requires AlwaysGains(clock, e)
    ensures Reaches(clock, r, e, m)
  {
    assert Gains(clock, r, e);
    var m: nat :| Reaches(clock, r, e, m); m
  }

  function Again(e: nat, m: nat): (r: seq<Command>)
    ensures |r| == m && forall i | 0 <= i < m :: r[i] == Add(e, 0)
  {
    seq(m, _ => Add(e, 0))
  }

  // A callback that only adds timers runs to its end and keeps what is pending.
  lemma {:induction false} RunAgain(s: State, w: World, running: TimerNode, e: nat, m: nat)
    requires Accounted(s) && !s.fault
    ensures var r := RunCallback(s, w, running, Again(e, m));
            && !r.fault && r.readings == s.readings + m && forall n | n in s.timers :: n in r.timers
    ensures var r := RunCallback(s, w, running, Again(e, m));
            m > 0 ==> TimerNode(w.clock(s.readings) + e, s.gid + 1, 0) in r.timers
    decreases m
  {
    hide Accounted;
    if m > 0 {
      AddAccounted(s, w, e, 0);
      assert Again(e, m)[1..] == Again(e, m - 1);
      RunAgain(AddTimer(s, w, e, 0), w, running, e, m - 1);
    }
  }

  // The callback that adds itself until the first of the new timers is due.
  ghost predicate Rearms(w: World, e: nat)
  {
    AlwaysGains(w.clock, e) && forall task: Task, r: nat :: w.script(task, r) == Again(e, Hop(w.clock, e, r))
  }

  lemma CheckRearms(s: State, w: World, e: nat)
    requires Accounted(s) && !s.fault && Rearms(w, e) && DueBy(s, w.clock(s.readings))
    ensures var (r, more) := CheckTimer(s, w);
            more && Accounted(r) && !r.fault && DueBy(r, w.clock(r.readings))
  {
    hide Accounted;
    CheckAccounted(s, w);
    DrainedLeavesFuture(s, w);
    var it := s.timers[0];
    var s0 := s.(readings := s.readings + 1);
    SameBooks(s, s0);
    var m := Hop(w.clock, e, s0.readings);
    CallbackAccounted(s0, w, it, Again(e, m));
    RunAgain(s0, w, it, e, m);
    var s1 := RunCallback(s0, w, it, Again(e, m));
    var n := TimerNode(w.clock(s0.readings) + e, s.gid + 1, 0);
    NextIdIsNew(s, it);
    ErasesOnly(s1, it);
    assert n in CheckTimer(s, w).0.timers;
  }

  lemma NextIdIsNew(s: State, n: TimerNode)
    requires Accounted(s) && n in s.timers
    ensures n.id != s.gid + 1
  {
    assert Pending(s, n.id);
  }

  lemma ErasesOnly(s: State, n: TimerNode)
    requires Accounted(s) && n in s.timers
    ensures forall m :: m in Erase(s.timers, n.expireTime, n.id) <==> m in s.timers && m != n
  {
    EraseSorted(s.timers, n);
  }

  lemma {:induction false} NeverDrains(s: State, w: World, e: nat, n: nat)
    requires Accounted(s) && !s.fault && Rearms(w, e) && DueBy(s, w.clock(s.readings))
    ensures DrainFor(s, w, n).1
    decreases n
  {
    hide Accounted, Rearms, DueBy, CheckTimer;
    if n > 0 {
      CheckRearms(s, w, e);
      NeverDrains(CheckTimer(s, w).0, w, e, n - 1);
    }
  }

  // ---------- When draining ends ----------

  // With delays of at least `d`, whatever the callbacks do and add again, the drain loop ends after
  // every run, exactly when delays are positive and the clock does not run on for ever.
  lemma {:induction false} DrainEndsIff(clock: Clock, d: int)
    requires Monotone(clock)
    ensures (forall w: World, events: seq<Event> |
               w.clock == clock && ScriptAtLeast(w, d) && EventsAtLeast(events, d) ::
               DrainEnds(RunTimer(NoTimers(), w, events), w)) <==> d > 0 && Bounded(clock)
  {
    if d > 0 && Bounded(clock) {
      var b: int :| NeverBeyond(clock, b);
      forall w: World, events: seq<Event> | w.clock == clock && ScriptAtLeast(w, d) && EventsAtLeast(events, d)
        ensures DrainEnds(RunTimer(NoTimers(), w, events), w)
      {
        assert ScriptAtLeast(w, 1) by {
          forall task: Task, r: nat ensures CommandsAtLeast(w.script(task, r), 1)
          {
            assert CommandsAtLeast(w.script(task, r), d);
          }
        }
        EveryTimerAccounted(w, events);
        BoundedDrains(RunTimer(NoTimers(), w, events), w, b);
      }
    } else {
      DrainsForEver(clock, d);
    }
  }

  lemma ClockGains(clock: Clock, e: nat)
    requires Monotone(clock) && (e > 0 ==> !Bounded(clock))
    ensures AlwaysGains(clock, e)
  {
    forall r: nat ensures Gains(clock, r, e) {
      if e == 0 {
        assert Reaches(clock, r, e, 1);
      } else {
        assert !NeverBeyond(clock, clock(r) + e);
        var r': nat :| clock(r') > clock(r) + e;
        assert clock(r') <= clock(r + (r' + 1));
        assert Reaches(clock, r, e, r' + 1);
      }
    }
  }

  lemma {:induction false} DrainsForEver(clock: Clock, d: int)
    requires Monotone(clock) && !(d > 0 && Bounded(clock))
    ensures exists w: World, events: seq<Event> ::
              w.clock == clock && ScriptAtLeast(w, d) && EventsAtLeast(events, d) &&
              !DrainEnds(RunTimer(NoTimers(), w, events), w)
  {
    var e: nat := if d > 0 then d else 0;
    ClockGains(clock, e);
    var w := World(clock, (task: Task, r: nat) => Again(e, Hop(clock, e, r)));
    // Calls of `addTimer` until the first of the timers added is due.
    var m := Hop(clock, e, 0);
    var events := seq(m, _ => AddCall(e, 0));
    var s := RunTimer(NoTimers(), w, events);
    RunAdds(NoTimers(), w, e, m);
    EveryTimerAccounted(w, events);
    forall n: nat ensures DrainFor(s, w, n).1 { NeverDrains(s, w, e, n); }
    assert !DrainEnds(s, w);
  }

  lemma {:induction false} RunAdds(s: State, w: World, e: nat, m: nat)
    requires Accounted(s) && !s.fault
    ensures var r := RunTimer(s, w, seq(m, _ => AddCall(e, 0)));
            && !r.fault && r.readings == s.readings + m && (forall n | n in s.timers :: n in r.timers)
            && (m > 0 ==> TimerNode(w.clock(s.readings) + e, s.gid + 1, 0) in r.timers)
    decreases m
  {
    hide Accounted;
    if m > 0 {
      AddAccounted(s, w, e, 0);
      assert seq(m, _ => AddCall(e, 0))[1..] == seq(m - 1, _ => AddCall(e, 0));
      RunAdds(AddTimer(s, w, e, 0), w, e, m - 1);
    }
  }

  // ---------- Callbacks that stop adding timers ----------

  // What timers are still going to cost, when running one of `task` costs `cost(task)`.
  function Total(q: seq<TimerNode>, cost: Task -> nat): nat
  {
    if q == [] then 0 else cost(q[0].callback) + Total(q[1..], cost)
  }

  function Added(commands: seq<Command>, cost: Task -> nat): nat
  {
    if commands == [] then 0 else (if commands[0].Add? then cost(commands[0].task) else 0) + Added(commands[1..], cost)
  }

  // Every callback costs more than the timers it adds.
  ghost predicate Affords(w: World, cost: Task -> nat)
  {
    forall task: Task, r: nat :: Added(w.script(task, r), cost) < cost(task)
  }

  lemma {:induction false} InsertTotal(q: seq<TimerNode>, n: TimerNode, cost: Task -> nat)
    ensures Total(Insert(q, n), cost) == Total(q, cost) + cost(n.callback)
    decreases |q|
  {
    if q == [] || Earlier(n, q[0]) {
      assert ([n] + q)[1..] == q;
    } else {
      InsertTotal(q[1..], n, cost);
    }
  }

  lemma {:induction false} EraseTotal(q: seq<TimerNode>, n: TimerNode, cost: Task -> nat)
    ensures Total(Erase(q, n.expireTime, n.id), cost) <= Total(q, cost)
    ensures Sorted(q) && n in q ==> Total(Erase(q, n.expireTime, n.id), cost) + cost(n.callback) == Total(q, cost)
    decreases |q|
  {
    if q != [] {
      EraseTotal(q[1..], n, cost);
      if q[0].expireTime == n.expireTime && q[0].id == n.id {
        if Sorted(q) && n in q { assert q[0] == n; }
      } else {
        assert ([q[0]] + Erase(q[1..], n.expireTime, n.id))[1..] == Erase(q[1..], n.expireTime, n.id);
      }
    }
  }

  lemma {:induction false} CallbackTotal(s: State, w: World, running: TimerNode, commands: seq<Command>,
                                         cost: Task -> nat)
    ensures Total(RunCallback(s, w, running, commands).timers, cost) <= Total(s.timers, cost) + Added(commands, cost)
    decreases |commands|
  {
    if commands != [] && !s.fault {
      match commands[0]
      case Add(msec, task) =>
        InsertTotal(s.timers, TimerNode(w.clock(s.readings) + msec, s.gid + 1, task), cost);
        CallbackTotal(AddTimer(s, w, msec, task), w, running, commands[1..], cost);
      case Del(t, id) =>
        if t != running.expireTime || id != running.id {
          EraseTotal(s.timers, TimerNode(t, id, 0), cost);
          CallbackTotal(DelTimer(s, t, id), w, running, commands[1..], cost);
        }
    }
  }

  // A timer that fires takes more away than its callback adds.
  lemma CheckTotal(s: State, w: World, cost: Task -> nat)
    requires Accounted(s) && Affords(w, cost)
    ensures var (r, more) := CheckTimer(s, w); more ==> r.fault || Total(r.timers, cost) < Total(s.timers, cost)
  {
    if s.timers != [] && s.timers[0].expireTime <= w.clock(s.readings) {
      var it := s.timers[0];
      var s0 := s.(readings := s.readings + 1);
      SameBooks(s, s0);
      CallbackAccounted(s0, w, it, CommandsOf(s0, w, it));
      CallbackTotal(s0, w, it, CommandsOf(s0, w, it), cost);
      var s1 := RunCallback(s0, w, it, CommandsOf(s0, w, it));
      if !s1.fault { EraseTotal(s1.timers, it, cost); }
    }
  }

  // So with callbacks that can afford what they add the loop ends whatever the clock does.
  lemma {:induction false} AffordedDrains(s: State, w: World, cost: Task -> nat)
    requires Accounted(s) && Affords(w, cost)
    ensures DrainEnds(s, w)
    decreases Total(s.timers, cost)
  {
    hide Accounted, Affords, CheckTimer;
    CheckTotal(s, w, cost);
    CheckAccounted(s, w);
    var (r, more) := CheckTimer(s, w);
    if more && !r.fault { AffordedDrains(r, w, cost); }
    DrainGoesOn(s, w);
  }
}
