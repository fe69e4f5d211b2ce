// The retry loops of the ticket ring are lock-free: every retry is paid for by a ticket claimed.
module TicketProgress {
  import opened Claims
  import opened Slots
  import opened TicketRing
  import opened TicketGuarantees
  import opened WordRing
  import opened WordOrder

  // ---------- Why a compare-and-swap fails ----------

  lemma {:induction false} OthersOnly<T>(s: Ring<T>, schedule: seq<(nat, Action<T>)>, t: nat)
    requires Counters(s) && Inv(s) && t < |s.threads|
    requires forall i | 0 <= i < |schedule| :: schedule[i].0 != t
    ensures var r := Run(s, schedule);
            && Inv(r) && r.threads[t] == s.threads[t] && s.tail <= r.tail && s.head <= r.head
            && ClaimsNothing(s.pushers, r.pushers, t) && ClaimsNothing(s.poppers, r.poppers, t)
    decreases |schedule|
  {
    hide Inv, Step;
    if schedule != [] {
      var (u, a) := schedule[0];
      assert u != t;
      StepInv(s, u, a);
      OtherClaims(s, u, a, t);
      OthersOnly(Step(s, u, a), schedule[1..], t);
    }
  }

  lemma {:induction false} OtherClaims<T>(s: Ring<T>, u: nat, a: Action<T>, t: nat)
    requires Inv(s) && t < |s.threads| && u != t
    ensures var r := Step(s, u, a);
            && Counters(r) && r.threads[t] == s.threads[t] && s.tail <= r.tail && s.head <= r.head
            && ClaimsNothing(s.pushers, r.pushers, t) && ClaimsNothing(s.poppers, r.poppers, t)
  {
    hide Slot, SlotOk, ThreadOk, TicketOk;
    StepInv(s, u, a);
    if u < |s.threads| {
      var p := s.threads[u];
      if p.CasTail? {
      } else if p.CasHead? {
      } else if p.Owns() {
      } else {
      }
    }
  }

  // A push reads the counter, others move, it tests the stamp, others move, it compares and swaps.
  // Unless it fails for no reason the swap fails exactly when tickets were claimed since the
  // counter was read, and all of those by other threads.
  lemma {:induction false} PushRetryMeansClaim<T>(s: Ring<T>, t: nat, before: seq<(nat, Action<T>)>,
                                                  after: seq<(nat, Action<T>)>)
    requires Inv(s) && t < |s.threads| && s.threads[t].LoadTail?
    requires forall i | 0 <= i < |before| :: before[i].0 != t
    requires forall i | 0 <= i < |after| :: after[i].0 != t
    ensures var m := Run(Step(s, t, Proceed), before);
            var r := Run(Step(m, t, Proceed), after);
            Step(m, t, Proceed).threads[t].CasTail? ==>
              && (Step(r, t, Proceed).threads[t].TestTail? <==> r.tail > s.tail)
              && (Step(r, t, Proceed).threads[t].Construct? <==> r.tail == s.tail)
              && ClaimsNothing(s.pushers, r.pushers, t)
  {
    hide Inv, Run;
    CountersOf(s);
    var s1 := Step(s, t, Proceed);
    StepInv(s, t, Proceed);
    OthersOnly(s1, before, t);
    var m := Run(s1, before);
    CountersOf(m);
    StepInv(m, t, Proceed);
    OthersOnly(Step(m, t, Proceed), after, t);
  }

  lemma {:induction false} PopRetryMeansClaim<T>(s: Ring<T>, t: nat, before: seq<(nat, Action<T>)>,
                                                 after: seq<(nat, Action<T>)>)
    requires Inv(s) && t < |s.threads| && s.threads[t].LoadHead?
    requires forall i | 0 <= i < |before| :: before[i].0 != t
    requires forall i | 0 <= i < |after| :: after[i].0 != t
    ensures var m := Run(Step(s, t, Proceed), before);
            var r := Run(Step(m, t, Proceed), after);
            Step(m, t, Proceed).threads[t].CasHead? ==>
              && (Step(r, t, Proceed).threads[t].TestHead? <==> r.head > s.head)
              && (Step(r, t, Proceed).threads[t].ReadItem? <==> r.head == s.head)
              && ClaimsNothing(s.poppers, r.poppers, t)
  {
    hide Inv, Run;
    CountersOf(s);
    var s1 := Step(s, t, Proceed);
    StepInv(s, t, Proceed);
    OthersOnly(s1, before, t);
    var m := Run(s1, before);
    CountersOf(m);
    StepInv(m, t, Proceed);
    OthersOnly(Step(m, t, Proceed), after, t);
  }

  // ---------- How many steps a run can take ----------

  // How many steps a thread has to go if nobody claims a ticket meanwhile.  An old copy costs the
  // failing compare-and-swap and a second test.
  function ToGo<T>(p: Phase<T>, tail: nat, head: nat): nat
  {
    match p
    case Idle(_) => 0
    case LoadTail(_) => 5
    case TestTail(_, k) => if k == tail then 4 else 6
    case CasTail(_, k) => if k == tail then 3 else 5
    case Construct(_, _) => 2
    case Publish(_, _) => 1
    case LoadHead => 6
    case TestHead(k) => if k == head then 5 else 7
    case CasHead(k) => if k == head then 4 else 6
    case ReadItem(_) => 3
    case Destroy(_, _) => 2
    case Release(_, _) => 1
  }

  function Work<T>(q: seq<Phase<T>>, tail: nat, head: nat): nat
  {
    if q == [] then 0 else ToGo(q[|q| - 1], tail, head) + Work(q[..|q| - 1], tail, head)
  }

  function WorkOf<T>(s: Ring<T>): nat { Work(s.threads, s.tail, s.head) }

  function Claimed<T>(s: Ring<T>): nat { s.tail + s.head }

  // Threads that may still claim a ticket.
  function Seeks<T>(p: Phase<T>): nat
  {
    if p.Idle? || p.Owns() then 0 else 1
  }

  function Seekers<T>(q: seq<Phase<T>>): nat
  {
    if q == [] then 0 else Seeks(q[|q| - 1]) + Seekers(q[..|q| - 1])
  }

  lemma {:induction false} SeekersUpdate<T>(q: seq<Phase<T>>, t: nat, p: Phase<T>)
    requires t < |q|
    ensures Seekers(q[t := p]) == Seekers(q) - Seeks(q[t]) + Seeks(p)
  {
    var n := |q| - 1;
    if t < n {
      assert q[t := p][..n] == q[..n][t := p];
      SeekersUpdate(q[..n], t, p);
    } else {
      assert q[t := p][..n] == q[..n];
    }
  }

  lemma {:induction false} WorkUpdate<T>(q: seq<Phase<T>>, t: nat, p: Phase<T>, tail: nat, head: nat)
    requires t < |q|
    ensures Work(q[t := p], tail, head) == Work(q, tail, head) - ToGo(q[t], tail, head) + ToGo(p, tail, head)
  {
    var n := |q| - 1;
    if t < n {
      assert q[t := p][..n] == q[..n][t := p];
      WorkUpdate(q[..n], t, p, tail, head);
    } else {
      assert q[t := p][..n] == q[..n];
    }
  }

  // Moving the counters makes copies old, at two steps a thread.
  lemma {:induction false} WorkOutdated<T>(q: seq<Phase<T>>, tail: nat, head: nat, tail': nat, head': nat)
    requires tail' == tail || head' == head
    ensures Work(q, tail', head') <= Work(q, tail, head) + 2 * |q|
  {
    if q != [] { WorkOutdated(q[..|q| - 1], tail, head, tail', head'); }
  }

  // What `claims` tickets claimed may so add to the work of `n` threads.
  function Outdating(n: nat, claims: nat): nat { 2 * n * claims }

  lemma OutdatingNone(n: nat)
    ensures Outdating(n, 0) == 0 && Outdating(n, 1) == 2 * n
  {
  }

  lemma OutdatingAdds(n: nat, a: nat, b: nat)
    ensures Outdating(n, a) + Outdating(n, b) == Outdating(n, a + b)
  {
    assert 2 * n * (a + b) == 2 * n * a + 2 * n * b;
  }

  lemma {:induction false} WorkAtMost<T>(q: seq<Phase<T>>, tail: nat, head: nat)
    ensures Work(q, tail, head) <= 7 * |q|
  {
    if q != [] { WorkAtMost(q[..|q| - 1], tail, head); }
  }

  // Every step is one: an operation's, or the beginning of one.
  predicate Moves<T>(s: Ring<T>, t: nat, a: Action<T>)
  {
    t < |s.threads| && (s.threads[t].Idle? ==> a.CallPush? || a.CallPop?)
  }

  // 1 for the beginning of an operation, and for a compare-and-swap that fails for no reason.
  function Call<T>(s: Ring<T>, t: nat): nat
  {
    if t < |s.threads| && s.threads[t].Idle? then 1 else 0
  }

  function Spurious<T>(s: Ring<T>, t: nat, a: Action<T>): nat
  {
    if t < |s.threads| && (s.threads[t].CasTail? || s.threads[t].CasHead?) && a.FailSpuriously? then 1 else 0
  }

  lemma {:induction false} PushPays<T>(s: Ring<T>, t: nat, a: Action<T>)
    requires Shaped(s) && Moves(s, t, a)
    requires var p := s.threads[t]; p.LoadTail? || p.TestTail? || p.CasTail? || p.Writes()
    ensures var r := Step(s, t, a);
            && r.threads == s.threads[t := r.threads[t]] && r.head == s.head
                 && (r.tail == s.tail || r.tail == s.tail + 1)
            && 1 + ToGo(r.threads[t], s.tail, s.head) <= ToGo(s.threads[t], s.tail, s.head) + 2 * Spurious(s, t, a)
            && r.tail - s.tail + Seeks(r.threads[t]) <= Seeks(s.threads[t])
  {
    hide Slot;
    var p := s.threads[t];
    if p.Writes() {
    } else if p.CasTail? {
    } else {
    }
  }

  lemma {:induction false} PopPays<T>(s: Ring<T>, t: nat, a: Action<T>)
    requires Shaped(s) && Moves(s, t, a)
    requires var p := s.threads[t]; p.LoadHead? || p.TestHead? || p.CasHead? || p.Reads()
    requires s.threads[t].ReadItem? ==> Step(s, t, a).threads[t].Destroy?
    ensures var r := Step(s, t, a);
            && r.threads == s.threads[t := r.threads[t]] && r.tail == s.tail
                 && (r.head == s.head || r.head == s.head + 1)
            && 1 + ToGo(r.threads[t], s.tail, s.head) <= ToGo(s.threads[t], s.tail, s.head) + 2 * Spurious(s, t, a)
            && r.head - s.head + Seeks(r.threads[t]) <= Seeks(s.threads[t])
  {
    hide Slot;
    var p := s.threads[t];
    if p.ReadItem? {
    } else if p.Destroy? {
    } else if p.Release? {
    } else if p.CasHead? {
    } else if p.TestHead? {
    } else {
    }
  }

  // What a step from `s` to `r` costs, and what pays for it.
  ghost predicate Paid<T>(s: Ring<T>, r: Ring<T>, t: nat, a: Action<T>)
  {
    && |r.threads| == |s.threads| && s.tail <= r.tail && s.head <= r.head
    && 1 + WorkOf(r) <= WorkOf(s) + 7 * Call(s, t) + 2 * Spurious(s, t, a)
                         + Outdating(|s.threads|, Claimed(r) - Claimed(s))
    && Claimed(r) + Seekers(r.threads) <= Claimed(s) + Seekers(s.threads) + Call(s, t)
  }

  lemma {:induction false} StepPays<T>(s: Ring<T>, t: nat, a: Action<T>)
    requires Inv(s) && Moves(s, t, a)
    ensures Paid(s, Step(s, t, a), t, a)
  {
    hide Inv, Slot, Work, Seekers, ToGo, Step;
    CountersOf(s);
    var r := Step(s, t, a);
    var p := s.threads[t];
    if p.Idle? {
      CallPays(s, t, a);
    } else if p.LoadTail? || p.TestTail? || p.CasTail? || p.Writes() {
      PushPays(s, t, a);
    } else {
      if p.ReadItem? { ReadItemGoes(s, t, a); }
      PopPays(s, t, a);
    }
    Settle(s, r, t, a);
  }

  // The whole work changes by that of the thread that moves, and by copies that become old.
  lemma {:induction false} Settle<T>(s: Ring<T>, r: Ring<T>, t: nat, a: Action<T>)
    requires t < |s.threads| == |r.threads| && r.threads == s.threads[t := r.threads[t]]
    requires s.tail <= r.tail && s.head <= r.head && Claimed(r) <= Claimed(s) + 1
    requires 1 + ToGo(r.threads[t], s.tail, s.head) <=
             ToGo(s.threads[t], s.tail, s.head) + 7 * Call(s, t) + 2 * Spurious(s, t, a)
    requires Claimed(r) - Claimed(s) + Seeks(r.threads[t]) <= Seeks(s.threads[t]) + Call(s, t)
    ensures Paid(s, r, t, a)
  {
    hide Work, Seekers, ToGo, Seeks, Call, Spurious, Outdating;
    OutdatingNone(|s.threads|);
    WorkUpdate(s.threads, t, r.threads[t], s.tail, s.head);
    SeekersUpdate(s.threads, t, r.threads[t]);
    if Claimed(r) > Claimed(s) {
      WorkOutdated(r.threads, s.tail, s.head, r.tail, r.head);
    }
  }

  lemma {:induction false} CallPays<T>(s: Ring<T>, t: nat, a: Action<T>)
    requires Shaped(s) && Moves(s, t, a) && s.threads[t].Idle?
    ensures var r := Step(s, t, a);
            && r.threads == s.threads[t := r.threads[t]] && r.tail == s.tail && r.head == s.head
            && 1 + ToGo(r.threads[t], s.tail, s.head) <= 7 && ToGo(s.threads[t], s.tail, s.head) == 0
  {
  }

  lemma ReadItemGoes<T>(s: Ring<T>, t: nat, a: Action<T>)
    requires Inv(s) && t < |s.threads| && s.threads[t].ReadItem?
    ensures Step(s, t, a).threads[t].Destroy?
  {
    hide Inv;
    CountersOf(s);
    ReadItemInv(s, t);
  }

  // A test that passes on words alone leads to a failing compare-and-swap, and is paid for likewise.
  lemma {:induction false} LoosePays<T>(s: Ring<T>, t: nat, a: Action<T>)
    requires Inv(s) && GoodCapacity(s.capacity) && Moves(s, t, a)
    ensures Paid(s, LooseStep(s, t, a), t, a)
  {
    hide Inv, Slot, Work, Seekers, Step, LooseStep;
    CountersOf(s);
    LooseOnlyWhenStale(s, t, a);
    var r := LooseStep(s, t, a);
    if r == Step(s, t, a) {
      StepPays(s, t, a);
    } else {
      StaleKeepsTicket(s, t, a);
      Settle(s, r, t, a);
    }
  }

  lemma StaleKeepsTicket<T>(s: Ring<T>, t: nat, a: Action<T>)
    requires Shaped(s) && t < |s.threads| && (s.threads[t].TestTail? || s.threads[t].TestHead?)
    ensures var p := LooseStep(s, t, a).threads[t]; p.CasTail? || p.CasHead? ==> p.ticket == s.threads[t].ticket
  {
    hide Slot;
  }

  // ---------- Whole runs, on tickets or with tests made on words ----------

  function Next<T>(s: Ring<T>, t: nat, a: Action<T>, words: bool): (r: Ring<T>)
    requires Shaped(s)
    ensures Shaped(r) && r.capacity == s.capacity && |r.threads| == |s.threads|
  {
    if words then LooseStep(s, t, a) else Step(s, t, a)
  }

  function Path<T>(s: Ring<T>, schedule: seq<(nat, Action<T>)>, words: bool): (r: Ring<T>)
    requires Shaped(s)
    ensures Shaped(r) && r.capacity == s.capacity && |r.threads| == |s.threads|
    decreases |schedule|
  {
    if schedule == [] then s else Path(Next(s, schedule[0].0, schedule[0].1, words), schedule[1..], words)
  }

  lemma {:induction false} PathIsRun<T>(s: Ring<T>, schedule: seq<(nat, Action<T>)>)
    requires Shaped(s)
    ensures Path(s, schedule, false) == Run(s, schedule) && Path(s, schedule, true) == LooseRun(s, schedule)
    decreases |schedule|
  {
    hide Step, LooseStep;
    if schedule != [] {
      PathIsRun(Step(s, schedule[0].0, schedule[0].1), schedule[1..]);
      PathIsRun(LooseStep(s, schedule[0].0, schedule[0].1), schedule[1..]);
    }
  }

  predicate AllMove<T>(s: Ring<T>, schedule: seq<(nat, Action<T>)>, words: bool)
    requires Shaped(s)
    decreases |schedule|
  {
    schedule != [] ==>
      var (t, a) := schedule[0];
      Moves(s, t, a) && AllMove(Next(s, t, a, words), schedule[1..], words)
  }

  // How many operations a run begins, and how many of its compare-and-swaps fail for no reason.
  function Calls<T>(s: Ring<T>, schedule: seq<(nat, Action<T>)>, words: bool): nat
    requires Shaped(s)
    decreases |schedule|
  {
    if schedule == [] then 0
    else var (t, a) := schedule[0]; Call(s, t) + Calls(Next(s, t, a, words), schedule[1..], words)
  }

  function Failures<T>(s: Ring<T>, schedule: seq<(nat, Action<T>)>, words: bool): nat
    requires Shaped(s)
    decreases |schedule|
  {
    if schedule == [] then 0
    else var (t, a) := schedule[0]; Spurious(s, t, a) + Failures(Next(s, t, a, words), schedule[1..], words)
  }

  // Only claims make retries: a run in which no ticket is claimed is short.
  lemma {:induction false} StepsArePaid<T>(s: Ring<T>, schedule: seq<(nat, Action<T>)>, words: bool)
    requires Inv(s) && AllMove(s, schedule, words) && (words ==> GoodCapacity(s.capacity))
    ensures var r := Path(s, schedule, words);
            && Claimed(s) <= Claimed(r)
            && |schedule| + WorkOf(r) <= WorkOf(s) + 7 * Calls(s, schedule, words) + 2 * Failures(s, schedule, words)
                                         + Outdating(|s.threads|, Claimed(r) - Claimed(s))
            && Claimed(r) + Seekers(r.threads) <= Claimed(s) + Seekers(s.threads) + Calls(s, schedule, words)
    decreases |schedule|
  {
    hide Inv, Step, LooseStep, Moves, Work, Seekers, Call, Spurious, Outdating;
    CountersOf(s);
    OutdatingNone(|s.threads|);
    if schedule != [] {
      var (t, a) := schedule[0];
      var m := Next(s, t, a, words);
      if words {
        LoosePays(s, t, a);
        LooseInv(s, t, a);
      } else {
        StepPays(s, t, a);
        StepInv(s, t, a);
      }
      StepsArePaid(m, schedule[1..], words);
      var r := Path(m, schedule[1..], words);
      OutdatingAdds(|s.threads|, Claimed(m) - Claimed(s), Claimed(r) - Claimed(m));
    }
  }

  // However the threads are scheduled, `n` threads that call the operations `m` times take at most
  // (2n + 7) m steps, and two more for each compare-and-swap that fails for no reason.
  lemma {:induction false} RetriesAreBounded<T>(c: nat, n: nat, schedule: seq<(nat, Action<T>)>, words: bool)
    requires c > 0 && (words ==> GoodCapacity(c)) && AllMove(Init<T>(c, n), schedule, words)
    ensures var s := Init<T>(c, n);
            |schedule| <= (2 * n + 7) * Calls(s, schedule, words) + 2 * Failures(s, schedule, words)
  {
    hide Inv, Path, AllMove, Calls, Failures, Work, Seekers, Outdating;
    var s := Init<T>(c, n);
    var (r, k) := (Path(s, schedule, words), Calls(s, schedule, words));
    InitInv<T>(c, n);
    StepsArePaid(s, schedule, words);
    NoWork(s.threads);
    AtMostCalls(n, Claimed(r), k);
  }

  // At most every call claims a ticket.
  lemma AtMostCalls(n: nat, claimed: nat, calls: nat)
    requires claimed <= calls
    ensures 7 * calls + Outdating(n, claimed) <= (2 * n + 7) * calls
  {
    OutdatingAdds(n, claimed, calls - claimed);
  }

  lemma {:induction false} NoWork<T>(q: seq<Phase<T>>)
    requires forall t | 0 <= t < |q| :: q[t].Idle?
    ensures Work(q, 0, 0) == 0 && Seekers(q) == 0
  {
    if q != [] { NoWork(q[..|q| - 1]); }
  }

  // Lock freedom: in any 7n + 1 steps of operations already begun some ticket is claimed, or some
  // compare-and-swap fails for no reason.
  lemma {:induction false} SomeoneClaims<T>(s: Ring<T>, schedule: seq<(nat, Action<T>)>, words: bool)
    requires Inv(s) && AllMove(s, schedule, words) && (words ==> GoodCapacity(s.capacity))
    requires Calls(s, schedule, words) == 0 && Failures(s, schedule, words) == 0 && |schedule| > 7 * |s.threads|
    ensures Claimed(Path(s, schedule, words)) > Claimed(s)
  {
    hide Inv, AllMove, Calls, Failures, Work, Seekers, Outdating, Step, LooseStep;
    CountersOf(s);
    StepsArePaid(s, schedule, words);
    WorkAtMost(s.threads, s.tail, s.head);
    OutdatingNone(|s.threads|);
  }
}
