// The timer object: the ordered set and the id counter, changed in place.
module Timers {
  import opened TimerRuns
  import opened TimerDrain

  class Timer {
    const world: World
    var timers: seq<TimerNode>   // the set, in order
    var gid: int
    var readings: nat
    var fault: bool
    ghost var fired: seq<TimerNode>
    ghost var ticks: seq<int>
    ghost var deleted: set<int>

    ghost function Now(): State
      reads this
    {
      State(timers, gid, readings, fault, fired, ticks, deleted)
    }

    ghost predicate Valid()
      reads this
    {
      Accounted(Now())
    }

    constructor (world: World)
      ensures Valid() && Now() == NoTimers() && this.world == world
    {
      this.world := world;
      timers, gid, readings, fault := [], 0, 0, false;
      fired, ticks, deleted := [], [], {};
    }

    method GetTick() returns (tick: int)
      modifies this`readings
      ensures tick == world.clock(old(readings)) && readings == old(readings) + 1
    {
      tick := world.clock(readings);
      readings := readings + 1;
    }

    method AddTimer(msec: int, task: Task) returns (expireTime: int, id: int)
      requires Valid()
      modifies this
      ensures Valid() && Now() == TimerRuns.AddTimer(old(Now()), world, msec, task)
      ensures expireTime == world.clock(old(readings)) + msec && id == old(gid) + 1
      ensures TimerNode(expireTime, id, task) in timers && !Pending(old(Now()), id) && !Fired(old(Now()), id)
    {
      AddAccounted(Now(), world, msec, task);
      assert !Pending(Now(), gid + 1) && !Fired(Now(), gid + 1);
      var tick := GetTick();
      gid := gid + 1;
      expireTime, id := tick + msec, gid;
      timers := Insert(timers, TimerNode(expireTime, id, task));
    }

    method DelTimer(expireTime: int, id: int) returns (ok: bool)
      requires Valid()
      modifies this
      ensures Valid() && Now() == TimerRuns.DelTimer(old(Now()), expireTime, id)
      ensures ok <==> Has(old(timers), expireTime, id)
      ensures ok ==> !Pending(Now(), id) && !Fired(Now(), id)
    {
      DelAccounted(Now(), expireTime, id);
      ok := Has(timers, expireTime, id);
      if ok {
        timers := Erase(timers, expireTime, id);
        deleted := deleted + {id};
      }
    }

    // The commands of the callback, one by one; `it` stays in the set meanwhile.
    method RunCallback(it: TimerNode)
      requires Valid() && it in timers && !fault
      modifies this
      ensures Now() == TimerRuns.RunCallback(old(Now()), world, it, CommandsOf(old(Now()), world, it))
      ensures Valid() && it in timers && fired == old(fired)
      ensures fault <==> Names(CommandsOf(old(Now()), world, it), 0, it)
      ensures !fault ==> forall n :: n in timers <==> Kept(old(Now()), world, CommandsOf(old(Now()), world, it), n)
    {
      hide Names, Kept, Accounted;
      var i, commands := 0, world.script(it.callback, readings);
      CallbackAccounted(Now(), world, it, commands);
      CallbackExact(Now(), world, it, commands);
      while i < |commands| && !fault
        invariant i <= |commands|
        invariant Valid() && it in timers
        invariant TimerRuns.RunCallback(Now(), world, it, commands[i..]) ==
                  TimerRuns.RunCallback(old(Now()), world, it, commands)
      {
        match commands[i] {
          case Add(msec, task) =>
            AddAccounted(Now(), world, msec, task);
            var _, _ := AddTimer(msec, task);
          case Del(t, id) =>
            if t == it.expireTime && id == it.id {
              SameBooks(Now(), Now().(fault := true));
              fault := true;
            } else {
              DelAccounted(Now(), t, id);
              var _ := DelTimer(t, id);
            }
        }
        i := i + 1;
      }
    }

    method CheckTimer() returns (more: bool)
      requires Valid() && !fault
      modifies this
      ensures Now() == TimerRuns.CheckTimer(old(Now()), world).0 && more == TimerRuns.CheckTimer(old(Now()), world).1
      ensures Valid() && (!more ==> timers == old(timers) && fired == old(fired))
      ensures more && !fault ==>
                && old(timers) != [] && fired == old(fired) + [old(timers)[0]]
                && var s := old(Now()).(readings := old(readings) + 1);
                   forall n :: n in timers <==>
                       n != old(timers)[0] && Kept(s, world, CommandsOf(s, world, old(timers)[0]), n)
    {
      hide Names, Kept, Dropped, Accounted;
      CheckAccounted(Now(), world);
      CheckExact(Now(), world);
      if timers == [] { return false; }
      var it := timers[0];
      ghost var s := Now();
      var tick := GetTick();
      if it.expireTime > tick { return false; }
      SameBooks(s, Now());
      RunCallback(it);
      if fault { return true; }
      timers := Erase(timers, it.expireTime, it.id);
      fired, ticks := fired + [it], ticks + [tick];
      return true;
    }

    // The inner loop of `main`, where it ends; `DrainEndsIff` and `AffordedDrains` say when it does.
    // No timer left was due at the last tick read.
    method Drain(ghost order: bool) returns (ghost checks: nat)
      requires Valid() && !fault && DrainEnds(Now(), world)
      requires order ==> Monotone(world.clock) && ScriptAtLeast(world, 0) && InOrder(Now(), world)
      modifies this
      ensures Valid() && DrainFor(old(Now()), world, checks) == (Now(), false)
      ensures !fault && timers != [] ==>
              readings > 0 && forall n | n in timers :: n.expireTime > world.clock(readings - 1)
      ensures order ==> InOrder(Now(), world)
    {
      hide Accounted, InOrder, TimerRuns.CheckTimer, ScriptAtLeast, Monotone;
      var more := true;
      checks :| !DrainFor(Now(), world, checks).1;
      ghost var left := checks;
      while more && !fault
        invariant Valid()
        invariant order ==> InOrder(Now(), world)
        invariant !more && timers != [] ==>
                  readings > 0 && forall n | n in timers :: n.expireTime > world.clock(readings - 1)
        invariant DrainFor(old(Now()), world, checks) ==
                  if more && !fault then DrainFor(Now(), world, left) else (Now(), false)
        invariant !DrainFor(old(Now()), world, checks).1
        decreases if more && !fault then left + 1 else 0
      {
        DrainedLeavesFuture(Now(), world);
        if order { CheckInOrder(Now(), world); }
        more := CheckTimer();
        left := left - 1;
      }
    }

    method TimeToSleep() returns (z: int)
      requires Valid()
      modifies this`readings
      ensures z == TimerRuns.TimeToSleep(old(Now()), world)
      ensures Valid() && (timers == [] ==> z == -1)
      ensures var now := world.clock(old(readings));
              timers != [] ==> z >= 0 && DueBy(Now(), now + z) && (z == 0 <==> DueBy(Now(), now))
      ensures z > 0 ==> forall tick | tick < world.clock(old(readings)) + z :: !DueBy(Now(), tick)
    {
      SleepIsExact(Now(), world);
      SameBooks(Now(), Now().(readings := readings + 1));
      if timers == [] { return -1; }
      var tick := GetTick();
      var diff := timers[0].expireTime - tick;
      return if diff > 0 then diff else 0;
    }
  }
}
