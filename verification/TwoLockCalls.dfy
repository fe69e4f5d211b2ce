// What the calls of the two-mutex queue answer, whatever the other threads do.
module TwoLockCalls {
  import opened Wrappers
  import opened Claims
  import opened TwoLockQueue
  import opened TwoLockGuarantees

  // Thread `t` goes on with what it is at and calls nothing new.
  ghost predicate NoCalls<T>(schedule: seq<(nat, Action<T>)>, t: nat)
  {
    forall i | 0 <= i < |schedule| :: schedule[i].0 == t ==> schedule[i].1 == Proceed
  }

  // Thread `t` took the item of ticket `k` and has answered with it.
  ghost predicate Got<T>(r: Queue<T>, t: nat, k: nat)
  {
    && k < |r.takers| && r.takers[k] == t && k < |r.pushed| && t < |r.threads|
    && k in r.returned && r.returned[k] == r.pushed[k] && r.threads[t] == Idle(Popped(Some(r.pushed[k])))
  }

  // From `s` to `r` thread `t` took one item and answered with it.
  ghost predicate TookOne<T>(s: Queue<T>, r: Queue<T>, t: nat)
  {
    exists k :: ClaimsOnly(s.takers, r.takers, t, k) && Got(r, t, k)
  }

  // From `s` to `r` thread `t` took nothing and has answered `outcome`.
  ghost predicate Answered<T>(s: Queue<T>, r: Queue<T>, t: nat, outcome: Outcome<T>)
  {
    ClaimsNothing(s.takers, r.takers, t) && t < |r.threads| && r.threads[t] == Idle(outcome)
  }

  // How a call ends that has found the queue empty, or has not.
  ghost predicate EndsAs<T>(s: Queue<T>, r: Queue<T>, t: nat, how: How, none: bool)
  {
    if how.TestEmpty? then Answered(s, r, t, Emptiness(none))
    else if none && !how.Waits() then Answered(s, r, t, Popped(None))
    else TookOne(s, r, t)
  }

  // How the call ends that thread `t` is in, as far as it is decided in `s`.
  ghost predicate Ends<T>(s: Queue<T>, r: Queue<T>, t: nat)
    requires t < |s.threads|
  {
    match s.threads[t]
    case Idle(outcome) => Answered(s, r, t, outcome)
    case PopUnlockTail(how, h, e) => EndsAs(s, r, t, how, h == e)
    case PopCompare(how, h, e) => EndsAs(s, r, t, how, h == e)
    case PopReport(how, b) => EndsAs(s, r, t, how, b)
    case PopCopy(_) => TookOne(s, r, t)
    case PopUnlink(_, _) => TookOne(s, r, t)
    case PopAdvance(_, _, _) => TookOne(s, r, t)
    case PopSetHead(_, _, _, k, _) => ClaimsNothing(s.takers, r.takers, t) && Got(r, t, k)
    case PopUnlock(_, _, _, k) => ClaimsNothing(s.takers, r.takers, t) && Got(r, t, k)
    case PopRead(_, _, _, k) => ClaimsNothing(s.takers, r.takers, t) && Got(r, t, k)
    case PopFree(_, _, k) => ClaimsNothing(s.takers, r.takers, t) && Got(r, t, k)
    case PopLock(how) => how.Waits() ==> TookOne(s, r, t)
    case PopHead(how) => how.Waits() ==> TookOne(s, r, t)
    case PopLockTail(how, _) => how.Waits() ==> TookOne(s, r, t)
    case PopTail(how, _) => how.Waits() ==> TookOne(s, r, t)
    case _ => true
  }

  // ---------- Histories grow ----------

  // From `s` to `r`, one step of thread `u` apart.
  ghost predicate Grows<T>(s: Queue<T>, r: Queue<T>, u: nat)
  {
    && s.pushed <= r.pushed && |r.threads| == |s.threads|
    && (r.takers == s.takers || (r.takers == s.takers + [u] && u < |s.threads| && s.threads[u].PopAdvance?))
  }

  lemma {:induction false} PushGrows<T>(s: Queue<T>, u: nat)
    requires u < |s.threads| && s.threads[u].Adds()
    ensures Grows(s, StepPush(s, u), u)
  {
    var p := s.threads[u];
    if p.PushLock? || p.PushData? || p.PushNext? {
    } else if p.PushTail? {
    } else {
    }
  }

  lemma {:induction false} LookGrows<T>(s: Queue<T>, u: nat)
    requires u < |s.threads|
    ensures Grows(s, StepLook(s, u), u)
  {
    var p := s.threads[u];
    if p.PopLock? || p.PopHead? || p.PopLockTail? {
    } else if p.PopTail? || p.PopUnlockTail? {
    } else {
    }
  }

  lemma {:induction false} TakeGrows<T>(s: Queue<T>, u: nat)
    requires u < |s.threads|
    ensures Grows(s, StepTake(s, u), u)
  {
    var p := s.threads[u];
    if p.PopCopy? || p.PopUnlink? {
    } else if p.PopAdvance? {
    } else if p.PopSetHead? || p.PopUnlock? {
    } else {
    }
  }

  lemma StepGrows<T>(s: Queue<T>, u: nat, a: Action<T>)
    ensures Grows(s, Step(s, u, a), u)
  {
    hide StepPush, StepLook, StepTake;
    if u < |s.threads| {
      if s.threads[u].Adds() { PushGrows(s, u); }
      LookGrows(s, u);
      TakeGrows(s, u);
    }
  }

  lemma {:induction false} PushedGrows<T>(s: Queue<T>, schedule: seq<(nat, Action<T>)>)
    ensures s.pushed <= Run(s, schedule).pushed
    decreases |schedule|
  {
    hide Step;
    if schedule != [] {
      StepGrows(s, schedule[0].0, schedule[0].1);
      PushedGrows(Step(s, schedule[0].0, schedule[0].1), schedule[1..]);
    }
  }

  // Claims counted from a later moment, seen from an earlier one.
  lemma ClaimsSince(a: seq<nat>, b: seq<nat>, c: seq<nat>, t: nat)
    requires a <= b && forall j | |a| <= j < |b| :: b[j] != t
    ensures ClaimsNothing(b, c, t) ==> ClaimsNothing(a, c, t)
    ensures forall k :: ClaimsOnly(b, c, t, k) ==> ClaimsOnly(a, c, t, k)
  {
  }

  // ---------- How a call ends ----------

  lemma {:induction false} OtherKeepsEnd<T>(s: Queue<T>, u: nat, a: Action<T>, r: Queue<T>, t: nat)
    requires t < |s.threads| && u != t && Ends(Step(s, u, a), r, t)
    ensures Ends(s, r, t)
  {
    hide Step, Got;
    var s' := Step(s, u, a);
    OtherMoves(s, u, a, t);
    StepGrows(s, u, a);
    ClaimsSince(s.takers, s'.takers, r.takers, t);
  }

  lemma {:induction false} LookKeepsEnd<T>(s: Queue<T>, t: nat, r: Queue<T>)
    requires Inv(s) && t < |s.threads| && !s.threads[t].Idle? && !s.threads[t].Adds() && !s.threads[t].Takes()
    requires Ends(StepLook(s, t), r, t)
    ensures Ends(s, r, t)
  {
    hide Got, Apart, Placed, TailOk, HeadOk, TicketOk, LinkOk, ClaimsOnly, ClaimsNothing;
    assert ThreadOk(s, t);
    var p := s.threads[t];
    if p.PopLock? || p.PopHead? || p.PopLockTail? {
    } else if p.PopTail? || p.PopUnlockTail? {
    } else if p.PopCompare? {
    } else {
    }
  }

  // What was pushed, taken and returned in `s` is so in `r`.
  ghost predicate Final<T>(s: Queue<T>, r: Queue<T>)
  {
    && s.pushed <= r.pushed && s.takers <= r.takers
    && forall k :: k in s.returned ==> k in r.returned && r.returned[k] == s.returned[k]
  }

  lemma {:induction false} StepFinal<T>(s: Queue<T>, u: nat, a: Action<T>)
    requires Inv(s)
    ensures Final(s, Step(s, u, a))
  {
    hide StepPush, StepLook, Apart, Placed, TailOk, HeadOk, LinkOk, TicketOk, Locked, MutexesHeld;
    StepGrows(s, u, a);
    if u < |s.threads| {
      assert ThreadOk(s, u);
      if s.threads[u].Adds() {
        PushReturns(s, u);
      } else if s.threads[u].PopFree? {
      } else if s.threads[u].Takes() {
      } else {
        LookReturns(s, u);
      }
    }
  }

  lemma {:induction false} PushReturns<T>(s: Queue<T>, u: nat)
    requires u < |s.threads|
    ensures StepPush(s, u).returned == s.returned
  {
    var p := s.threads[u];
    if p.PushLock? || p.PushData? || p.PushNext? {
    } else if p.PushTail? {
    } else {
    }
  }

  lemma {:induction false} LookReturns<T>(s: Queue<T>, u: nat)
    requires u < |s.threads|
    ensures StepLook(s, u).returned == s.returned
  {
    var p := s.threads[u];
    if p.PopLock? || p.PopHead? || p.PopLockTail? {
    } else if p.PopTail? || p.PopUnlockTail? {
    } else {
    }
  }

  lemma {:induction false} RunFinal<T>(s: Queue<T>, schedule: seq<(nat, Action<T>)>)
    requires Inv(s)
    ensures Final(s, Run(s, schedule))
    decreases |schedule|
  {
    hide Inv, Step;
    if schedule != [] {
      var (u, a) := schedule[0];
      StepInv(s, u, a);
      StepFinal(s, u, a);
      RunFinal(Step(s, u, a), schedule[1..]);
    }
  }

  lemma {:induction false} TakeKeepsEnd<T>(s: Queue<T>, t: nat, s': Queue<T>, r: Queue<T>)
    requires Inv(s) && t < |s.threads| == |s'.threads| && s.threads[t].Takes() && s' == StepTake(s, t) && !s'.fault
    requires Ends(s', r, t) && Final(s', r)
    ensures Ends(s, r, t)
  {
    hide Inv, Got, ClaimsNothing, ClaimsOnly, Final, Ends, StepTake;
    var p := s.threads[t];
    if p.PopCopy? || p.PopUnlink? {
      UnlinkKeepsEnd(s, t, s', r);
    } else if p.PopAdvance? {
      AdvanceKeepsEnd(s, t, s', r);
    } else if p.PopFree? {
      FreeKeepsEnd(s, t, s', r);
    } else {
      CarryKeepsEnd(s, t, s', r);
    }
  }

  lemma {:induction false} UnlinkKeepsEnd<T>(s: Queue<T>, t: nat, s': Queue<T>, r: Queue<T>)
    requires t < |s.threads| == |s'.threads| && s' == StepTake(s, t) && !s'.fault
    requires (s.threads[t].PopCopy? || s.threads[t].PopUnlink?) && Ends(s', r, t)
    ensures Ends(s, r, t)
  {
    hide Got, ClaimsNothing, ClaimsOnly;
    if s.threads[t].PopCopy? {
    } else {
    }
  }

  lemma {:induction false} CarryKeepsEnd<T>(s: Queue<T>, t: nat, s': Queue<T>, r: Queue<T>)
    requires t < |s.threads| == |s'.threads| && s' == StepTake(s, t) && !s'.fault
    requires (s.threads[t].PopSetHead? || s.threads[t].PopUnlock? || s.threads[t].PopRead?) && Ends(s', r, t)
    ensures Ends(s, r, t)
  {
    hide Got, ClaimsNothing, ClaimsOnly;
    if s.threads[t].PopSetHead? {
    } else if s.threads[t].PopUnlock? {
    } else {
    }
  }

  lemma {:induction false} FreeKeepsEnd<T>(s: Queue<T>, t: nat, s': Queue<T>, r: Queue<T>)
    requires Inv(s) && t < |s.threads| == |s'.threads| && s.threads[t].PopFree? && s' == StepTake(s, t) && !s'.fault
    requires Ends(s', r, t) && Final(s', r)
    ensures Ends(s, r, t)
  {
    hide Apart, Placed, TailOk, HeadOk, LinkOk, TicketOk, Locked, MutexesHeld;
    assert ThreadOk(s, t);
    assert Got(r, t, s.threads[t].ticket);
  }

  lemma {:induction false} AdvanceKeepsEnd<T>(s: Queue<T>, t: nat, s': Queue<T>, r: Queue<T>)
    requires t < |s.threads| == |s'.threads| && s.threads[t].PopAdvance? && s' == StepTake(s, t) && !s'.fault
    requires Ends(s', r, t)
    ensures Ends(s, r, t)
  {
    hide Got;
    assert s'.takers == s.takers + [t];
    assert ClaimsOnly(s.takers, r.takers, t, |s.takers|);
  }

  // However the others move: a call under way ends as what it has seen so far says.
  lemma {:induction false} CallEnds<T>(s: Queue<T>, t: nat, schedule: seq<(nat, Action<T>)>)
    requires Inv(s) && t < |s.threads| && !s.threads[t].Adds() && NoCalls(schedule, t)
    requires Run(s, schedule).threads[t].Idle?
    ensures Ends(s, Run(s, schedule), t)
    decreases |schedule|
  {
    hide Inv, Step, StepTake, StepLook, Ends, Final;
    if schedule == [] {
      AtRest(s, t);
    } else {
      var (u, a) := schedule[0];
      var s' := Step(s, u, a);
      var r := Run(s', schedule[1..]);
      StepInv(s, u, a);
      NoFault(s');
      StepGrows(s, u, a);
      RunFinal(s', schedule[1..]);
      assert forall i | 0 <= i < |schedule[1..]| :: schedule[1..][i] == schedule[i + 1];
      if u != t {
        OtherMoves(s, u, a, t);
        CallEnds(s', t, schedule[1..]);
        OtherKeepsEnd(s, u, a, r, t);
      } else {
        assert schedule[0].1 == Proceed;
        OwnStep(s, t);
        CallEnds(s', t, schedule[1..]);
        if s.threads[t].Takes() {
          TakeKeepsEnd(s, t, s', r);
        } else if !s.threads[t].Idle? {
          LookKeepsEnd(s, t, r);
        }
      }
    }
  }

  lemma AtRest<T>(s: Queue<T>, t: nat)
    requires t < |s.threads| && s.threads[t].Idle?
    ensures Ends(s, s, t)
  {
  }

  lemma OwnStep<T>(s: Queue<T>, t: nat)
    requires t < |s.threads| && !s.threads[t].Adds()
    ensures var s' := Step(s, t, Proceed);
            && |s'.threads| == |s.threads| && !s'.threads[t].Adds()
            && (s.threads[t].Idle? ==> s' == s)
            && (s.threads[t].Takes() ==> s' == StepTake(s, t))
            && (!s.threads[t].Idle? && !s.threads[t].Takes() ==> s' == StepLook(s, t))
  {
    hide StepPush, StepLook, StepTake;
    if s.threads[t].Takes() { TakesOn(s, t); } else { LooksOn(s, t); }
  }

  lemma {:induction false} TakesOn<T>(s: Queue<T>, t: nat)
    requires t < |s.threads| && s.threads[t].Takes()
    ensures |StepTake(s, t).threads| == |s.threads| && !StepTake(s, t).threads[t].Adds()
  {
    var p := s.threads[t];
    if p.PopCopy? || p.PopUnlink? || p.PopAdvance? {
    } else if p.PopSetHead? || p.PopUnlock? {
    } else {
    }
  }

  lemma {:induction false} LooksOn<T>(s: Queue<T>, t: nat)
    requires t < |s.threads| && !s.threads[t].Adds()
    ensures |StepLook(s, t).threads| == |s.threads| && !StepLook(s, t).threads[t].Adds()
  {
    var p := s.threads[t];
    if p.PopReport? || p.PopCompare? {
    } else if p.PopLock? || p.PopHead? || p.PopLockTail? {
    } else {
    }
  }

  // ---------- The answers ----------

  // A call of `try_pop` or `empty`, from its beginning to its end: at the moment it read the tail
  // under its mutex the queue was empty or not, and it ends accordingly.
  ghost predicate SawThen<T>(s: Queue<T>, schedule: seq<(nat, Action<T>)>, i: nat, t: nat, how: How)
  {
    i < |schedule| && schedule[i].0 == t &&
    var m := Run(s, schedule[..i]);
    && t < |m.threads| && m.threads[t].PopTail? && m.threads[t].how == how && |m.takers| <= |m.pushed|
    && EndsAs(s, Run(s, schedule), t, how, Contents(m) == [])
  }

  lemma {:induction false} LookAnswers<T>(s: Queue<T>, t: nat, how: How, schedule: seq<(nat, Action<T>)>)
    returns (i: nat)
    requires Inv(s) && t < |s.threads| && NoCalls(schedule, t) && Run(s, schedule).threads[t].Idle?
    requires var p := s.threads[t]; (p.PopLock? || p.PopHead? || p.PopLockTail? || p.PopTail?) && p.how == how
    ensures SawThen(s, schedule, i, t, how)
    decreases |schedule|
  {
    hide Inv, Step, StepTake, StepLook, EndsAs, Contents;
    var (u, a) := schedule[0];
    var s' := Step(s, u, a);
    var r := Run(s', schedule[1..]);
    StepInv(s, u, a);
    StepGrows(s, u, a);
    assert forall i | 0 <= i < |schedule[1..]| :: schedule[1..][i] == schedule[i + 1];
    if u == t && s.threads[t].PopTail? {
      i := 0;
      TailRead(s, t);
      CallEnds(s', t, schedule[1..]);
      assert schedule[..0] == [];
      assert Ends(s', r, t);
      EndsSince(s, s', r, t, how, Contents(s) == []);
    } else {
      if u == t { LookMoves(s, t); } else { OtherMoves(s, u, a, t); }
      var j := LookAnswers(s', t, how, schedule[1..]);
      i := j + 1;
      assert schedule[..i][1..] == schedule[1..][..j];
      assert Run(s, schedule[..i]) == Run(s', schedule[1..][..j]);
      EndsSince(s, s', r, t, how, Contents(Run(s, schedule[..i])) == []);
    }
  }

  // What the step that reads the tail decides.
  lemma TailRead<T>(s: Queue<T>, t: nat)
    requires Inv(s) && t < |s.threads| && s.threads[t].PopTail?
    ensures var (p, s') := (s.threads[t], Step(s, t, Proceed));
            && |s'.threads| == |s.threads| && s'.takers == s.takers && |s.takers| <= |s.pushed|
            && s'.threads[t] == PopUnlockTail(p.how, p.first, s.tail)
            && (p.first == s.tail <==> Contents(s) == [])
  {
    hide TicketOk, Placed, TailOk, LinkOk, Locked, HeadOk, MutexesHeld;
    assert ThreadOk(s, t);
  }

  lemma {:induction false} LookMoves<T>(s: Queue<T>, t: nat)
    requires Inv(s) && t < |s.threads|
    requires s.threads[t].PopLock? || s.threads[t].PopHead? || s.threads[t].PopLockTail?
    ensures var (p, s') := (s.threads[t], Step(s, t, Proceed));
            && |s'.threads| == |s.threads|
            && var q := s'.threads[t]; (q.PopLock? || q.PopHead? || q.PopLockTail? || q.PopTail?) && q.how == p.how
  {
    hide Inv;
    if s.threads[t].PopLock? {
    } else if s.threads[t].PopHead? {
    } else {
    }
  }

  lemma EndsSince<T>(s: Queue<T>, s': Queue<T>, r: Queue<T>, t: nat, how: How, none: bool)
    requires s.takers <= s'.takers && forall j | |s.takers| <= j < |s'.takers| :: s'.takers[j] != t
    requires EndsAs(s', r, t, how, none)
    ensures EndsAs(s, r, t, how, none)
  {
    hide Got;
    ClaimsSince(s.takers, s'.takers, r.takers, t);
  }

  // `try_pop`, with all that happens from its call to its answer: it answers nothing exactly when the
  // queue was empty at the moment it read the tail under its mutex, and then it took nothing;
  // otherwise it took one item, in its turn, and answers that.
  lemma {:induction false} TryPopAnswers<T>(s: Queue<T>, t: nat, how: How, schedule: seq<(nat, Action<T>)>)
    returns (i: nat)
    requires Inv(s) && t < |s.threads| && s.threads[t].Idle? && (how.TryPop? || how.TryPopInto?)
    requires NoCalls(schedule, t) && Run(Step(s, t, CallPop(how)), schedule).threads[t].Idle?
    ensures var s' := Step(s, t, CallPop(how));
            var r := Run(s', schedule);
            i < |schedule| && schedule[i].0 == t &&
            var m := Run(s', schedule[..i]);
            && t < |m.threads| && m.threads[t].PopTail? && |m.takers| <= |m.pushed|
            && if Contents(m) == [] then r.threads[t] == Idle(Popped(None)) && ClaimsNothing(s.takers, r.takers, t)
               else exists k: nat :: && ClaimsOnly(s.takers, r.takers, t, k) && k < |r.pushed|
                                          && r.threads[t] == Idle(Popped(Some(r.pushed[k])))
  {
    hide Inv, Run;
    StepInv(s, t, CallPop(how));
    i := LookAnswers(Step(s, t, CallPop(how)), t, how, schedule);
  }

  // `wait_and_pop` answers, if it does, with the one item it took, and never with nothing.
  lemma {:induction false} WaitAndPopAnswers<T>(s: Queue<T>, t: nat, how: How, schedule: seq<(nat, Action<T>)>)
    requires Inv(s) && t < |s.threads| && s.threads[t].Idle? && how.Waits()
    requires NoCalls(schedule, t) && Run(Step(s, t, CallPop(how)), schedule).threads[t].Idle?
    ensures var r := Run(Step(s, t, CallPop(how)), schedule);
            exists k: nat :: && ClaimsOnly(s.takers, r.takers, t, k) && k < |r.pushed|
                             && r.threads[t] == Idle(Popped(Some(r.pushed[k])))
  {
    hide Inv, Run;
    StepInv(s, t, CallPop(how));
    CallEnds(Step(s, t, CallPop(how)), t, schedule);
  }

  // `empty` answers what was so at the moment it read the tail under its mutex.
  lemma {:induction false} EmptyAnswers<T>(s: Queue<T>, t: nat, schedule: seq<(nat, Action<T>)>) returns (i: nat)
    requires Inv(s) && t < |s.threads| && s.threads[t].Idle?
    requires NoCalls(schedule, t) && Run(Step(s, t, CallPop(TestEmpty)), schedule).threads[t].Idle?
    ensures var s' := Step(s, t, CallPop(TestEmpty));
            var r := Run(s', schedule);
            i < |schedule| && schedule[i].0 == t &&
            var m := Run(s', schedule[..i]);
            && t < |m.threads| && m.threads[t].PopTail? && |m.takers| <= |m.pushed|
            && r.threads[t] == Idle(Emptiness(Contents(m) == [])) && ClaimsNothing(s.takers, r.takers, t)
  {
    hide Inv, Run;
    StepInv(s, t, CallPop(TestEmpty));
    i := LookAnswers(Step(s, t, CallPop(TestEmpty)), t, TestEmpty, schedule);
  }

  // ---------- Pushes ----------

  // `push` with a fresh node: it returns after the one step at which its item became the last.
  lemma {:induction false} PushAnswers<T>(s: Queue<T>, t: nat, x: T, node: nat, schedule: seq<(nat, Action<T>)>)
    returns (i: nat)
    requires Inv(s) && t < |s.threads| && s.threads[t].Idle? && node !in s.heap
    requires NoCalls(schedule, t) && Run(Step(s, t, CallPush(x, node)), schedule).threads[t].Idle?
    ensures var s' := Step(s, t, CallPush(x, node));
            var r := Run(s', schedule);
            i < |schedule| && schedule[i].0 == t &&
            var m := Run(s', schedule[..i]);
            && t < |m.threads| && m.threads[t] == PushTail(x, node) && s.pushed <= m.pushed
                 && m.pushed + [x] <= r.pushed
            && r.threads[t] == Idle(Pushed)
  {
    hide Inv, Run;
    StepInv(s, t, CallPush(x, node));
    i := PushEnds(Step(s, t, CallPush(x, node)), t, x, node, schedule);
  }

  lemma {:induction false} PushEnds<T>(s: Queue<T>, t: nat, x: T, node: nat, schedule: seq<(nat, Action<T>)>)
    returns (i: nat)
    requires Inv(s) && t < |s.threads| && NoCalls(schedule, t) && Run(s, schedule).threads[t].Idle?
    requires var p := s.threads[t];
             (p.PushLock? || p.PushData? || p.PushNext? || p.PushTail?) && p.item == x && p.node == node
    ensures var r := Run(s, schedule);
            i < |schedule| && schedule[i].0 == t &&
            var m := Run(s, schedule[..i]);
            && t < |m.threads| && m.threads[t] == PushTail(x, node) && s.pushed <= m.pushed
                 && m.pushed + [x] <= r.pushed
            && r.threads[t] == Idle(Pushed)
    decreases |schedule|
  {
    hide Inv, Step;
    var (u, a) := schedule[0];
    var s' := Step(s, u, a);
    StepInv(s, u, a);
    StepGrows(s, u, a);
    assert forall i | 0 <= i < |schedule[1..]| :: schedule[1..][i] == schedule[i + 1];
    if u == t && s.threads[t].PushTail? {
      i := 0;
      assert schedule[..0] == [];
      TailMoved(s, t);
      PushedGrows(s', schedule[1..]);
      UnlockEnds(s', t, schedule[1..]);
    } else {
      if u == t { AddMoves(s, t); } else { OtherMoves(s, u, a, t); }
      var j := PushEnds(s', t, x, node, schedule[1..]);
      i := j + 1;
      assert schedule[..i][1..] == schedule[1..][..j];
      assert Run(s, schedule[..i]) == Run(s', schedule[1..][..j]);
    }
  }

  lemma TailMoved<T>(s: Queue<T>, t: nat)
    requires t < |s.threads| && s.threads[t].PushTail?
    ensures var s' := Step(s, t, Proceed);
            |s'.threads| == |s.threads| && s'.threads[t] == PushUnlock && s'.pushed == s.pushed + [s.threads[t].item]
  {
  }

  lemma {:induction false} AddMoves<T>(s: Queue<T>, t: nat)
    requires Inv(s) && t < |s.threads| && (s.threads[t].PushLock? || s.threads[t].PushData? || s.threads[t].PushNext?)
    ensures var (p, s') := (s.threads[t], Step(s, t, Proceed));
            && |s'.threads| == |s.threads|
            && var q := s'.threads[t];
               (q.PushLock? || q.PushData? || q.PushNext? || q.PushTail?) && q.item == p.item && q.node == p.node
  {
    hide Inv;
    if s.threads[t].PushLock? {
    } else if s.threads[t].PushData? {
    } else {
    }
  }

  lemma {:induction false} UnlockEnds<T>(s: Queue<T>, t: nat, schedule: seq<(nat, Action<T>)>)
    requires t < |s.threads| && NoCalls(schedule, t)
    requires s.threads[t] == PushUnlock || s.threads[t] == Idle(Pushed)
    requires Run(s, schedule).threads[t].Idle?
    ensures Run(s, schedule).threads[t] == Idle(Pushed)
    decreases |schedule|
  {
    hide Step;
    if schedule != [] {
      var (u, a) := schedule[0];
      assert forall i | 0 <= i < |schedule[1..]| :: schedule[1..][i] == schedule[i + 1];
      if u == t { Unlocks(s, t); } else { OtherMoves(s, u, a, t); }
      UnlockEnds(Step(s, u, a), t, schedule[1..]);
    }
  }

  lemma Unlocks<T>(s: Queue<T>, t: nat)
    requires t < |s.threads| && (s.threads[t] == PushUnlock || s.threads[t] == Idle(Pushed))
    ensures Step(s, t, Proceed).threads[t] == Idle(Pushed)
  {
  }
}
