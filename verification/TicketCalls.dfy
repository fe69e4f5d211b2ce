// What the calls of the ticket ring answer, with stamp tests made on words.
module TicketCalls {
  import opened Wrappers
  import opened Slots
  import opened TicketGuarantees
  import opened TicketRing
  import opened WordRing
  import opened WordOrder

  predicate GoesOn<T>(a: Action<T>) { a.Proceed? || a.FailSpuriously? }

  // Thread `t` goes on with its call and makes no other.
  ghost predicate NoCalls<T>(schedule: seq<(nat, Action<T>)>, t: nat)
  {
    forall i | 0 <= i < |schedule| :: schedule[i].0 == t ==> GoesOn(schedule[i].1)
  }

  // In state `m` thread `t` tests for ticket `k`, which it read since the tail was `low`, and the stamp
  // of the slot is another: the ticket has been pushed and popped, or the one a lap before has not.
  ghost predicate FindsFull<T>(m: Ring<T>, t: nat, item: T, low: nat, k: nat)
  {
    && Shaped(m) && t < |m.threads| && m.threads[t] == TestTail(item, k) && low <= k <= m.tail
    && AsWord(m.tailStamp[Slot(k, m.capacity)]) != AsWord(k)
    && (k in m.popped || (k >= m.capacity && k - m.capacity !in m.popped))
  }

  // In state `m` thread `t` tests for ticket `k`, which it read since the head was `low`, and the stamp
  // of the slot is another: the push of the ticket is not over, or that of the one a lap later is.
  ghost predicate FindsEmpty<T>(m: Ring<T>, t: nat, low: nat, k: nat)
  {
    && Shaped(m) && t < |m.threads| && m.threads[t] == TestHead(k) && low <= k <= m.head
    && AsWord(m.headStamp[Slot(k, m.capacity)]) != AsWord(k)
    && (!PushOver(m, k) || PushOver(m, k + m.capacity))
  }

  // ---------- The steps of one call ----------

  lemma OtherStays<T>(s: Ring<T>, u: nat, a: Action<T>, t: nat)
    requires Inv(s) && t < |s.threads| && u != t
    ensures var r := LooseStep(s, u, a);
            t < |r.threads| && r.threads[t] == s.threads[t] && s.tail <= r.tail && s.head <= r.head
  {
    hide SlotOk, ThreadOk, TicketOk, Slot;
    if u < |s.threads| {
      var p := s.threads[u];
      if p.CasTail? || p.CasHead? {
      } else if p.TestTail? || p.TestHead? {
      } else if p.Owns() {
      } else {
      }
    }
  }

  // How the push goes on.
  lemma {:induction false} PushGoesOn<T>(s: Ring<T>, t: nat, a: Action<T>)
    requires Inv(s) && GoodCapacity(s.capacity) && t < |s.threads| && GoesOn(a)
    ensures var (p, r) := (s.threads[t], LooseStep(s, t, a));
            && t < |r.threads| && s.tail <= r.tail
            && var q := r.threads[t];
            && (p.LoadTail? ==> q == TestTail(p.item, s.tail))
            && (p.TestTail? ==>
                  if AsWord(s.tailStamp[Slot(p.ticket, s.capacity)]) == AsWord(p.ticket)
                      then q == CasTail(p.item, p.ticket)
                  else q == Idle(Pushed(false)) && FindsFull(s, t, p.item, p.ticket, p.ticket))
            && (p.CasTail? ==> q.Construct? || q == TestTail(p.item, s.tail))
            && (p.Writes() ==> q.Writes() || q == Idle(Pushed(true)))
            && (p.Idle? ==> q == p)
  {
    hide SlotOk, TicketOk;
    assert ThreadOk(s, t);
    if s.threads[t].TestTail? {
      PushRefusal(s, t);
    } else if s.threads[t].CasTail? {
    } else if s.threads[t].Writes() {
    } else {
    }
  }

  lemma {:induction false} PopGoesOn<T>(s: Ring<T>, t: nat, a: Action<T>)
    requires Inv(s) && GoodCapacity(s.capacity) && t < |s.threads| && GoesOn(a)
    ensures var (p, r) := (s.threads[t], LooseStep(s, t, a));
            && t < |r.threads| && s.head <= r.head
            && var q := r.threads[t];
            && (p.LoadHead? ==> q == TestHead(s.head))
            && (p.TestHead? ==>
                  if AsWord(s.headStamp[Slot(p.ticket, s.capacity)]) == AsWord(p.ticket) then q == CasHead(p.ticket)
                  else q == Idle(Popped(None)) && FindsEmpty(s, t, p.ticket, p.ticket))
            && (p.CasHead? ==> q.ReadItem? || q == TestHead(s.head))
            && (p.Reads() ==> q.Reads() || (q.Idle? && q.last.Popped? && q.last.result.Some?))
            && (p.Idle? ==> q == p)
  {
    hide SlotOk, TicketOk;
    assert ThreadOk(s, t);
    if s.threads[t].TestHead? {
      PopRefusal(s, t);
    } else if s.threads[t].CasHead? {
    } else if s.threads[t].Reads() {
    } else {
    }
  }

  // ---------- A refusal ----------

  ghost predicate Pushing<T>(p: Phase<T>, item: T)
  {
    (p.LoadTail? || p.TestTail? || p.CasTail?) && p.item == item
  }

  lemma {:induction false} AcceptedStays<T>(s: Ring<T>, t: nat, schedule: seq<(nat, Action<T>)>)
    requires Inv(s) && GoodCapacity(s.capacity) && t < |s.threads| && NoCalls(schedule, t)
    requires s.threads[t].Writes() || s.threads[t] == Idle(Pushed(true))
    ensures var r := LooseRun(s, schedule); r.threads[t].Writes() || r.threads[t] == Idle(Pushed(true))
    decreases |schedule|
  {
    hide Inv, LooseStep;
    CountersOf(s);
    if schedule != [] {
      var (u, a) := schedule[0];
      LooseInv(s, u, a);
      if u == t { PushGoesOn(s, t, a); } else { OtherStays(s, u, a, t); }
      TailOfNoCalls(schedule, t);
      AcceptedStays(LooseStep(s, u, a), t, schedule[1..]);
    }
  }

  lemma TailOfNoCalls<T>(schedule: seq<(nat, Action<T>)>, t: nat)
    requires schedule != [] && NoCalls(schedule, t)
    ensures NoCalls(schedule[1..], t) && (schedule[0].0 == t ==> GoesOn(schedule[0].1))
  {
    forall i | 0 <= i < |schedule[1..]| ensures schedule[1..][i].0 == t ==> GoesOn(schedule[1..][i].1) {
      assert schedule[1..][i] == schedule[i + 1];
    }
  }

  lemma {:induction false} RefusedStays<T>(s: Ring<T>, t: nat, schedule: seq<(nat, Action<T>)>)
    requires Inv(s) && GoodCapacity(s.capacity) && t < |s.threads| && NoCalls(schedule, t) && s.threads[t].Idle?
    ensures LooseRun(s, schedule).threads[t] == s.threads[t]
    decreases |schedule|
  {
    hide Inv, LooseStep;
    CountersOf(s);
    if schedule != [] {
      var (u, a) := schedule[0];
      LooseInv(s, u, a);
      TailOfNoCalls(schedule, t);
      if u == t { PushGoesOn(s, t, a); } else { OtherStays(s, u, a, t); }
      RefusedStays(LooseStep(s, u, a), t, schedule[1..]);
    }
  }

  // A push answers false only from a stamp test on a counter read during the call.
  lemma {:induction false} RefusedPush<T>(s: Ring<T>, t: nat, item: T, low: nat, schedule: seq<(nat, Action<T>)>)
    returns (i: nat, k: nat)
    requires Inv(s) && GoodCapacity(s.capacity) && t < |s.threads| && NoCalls(schedule, t) && low <= s.tail
    requires Pushing(s.threads[t], item) && (!s.threads[t].LoadTail? ==> low <= s.threads[t].ticket)
    requires LooseRun(s, schedule).threads[t] == Idle(Pushed(false))
    ensures i < |schedule| && schedule[i].0 == t && FindsFull(LooseRun(s, schedule[..i]), t, item, low, k)
    decreases |schedule|
  {
    hide Inv, LooseStep, FindsFull;
    CountersOf(s);
    var (u, a) := schedule[0];
    var s' := LooseStep(s, u, a);
    LooseInv(s, u, a);
    TailOfNoCalls(schedule, t);
    if u == t { PushGoesOn(s, t, a); } else { OtherStays(s, u, a, t); }
    assert schedule[..0] == [];
    if u == t && s.threads[t].TestTail? && s'.threads[t].Idle? {
      i, k := 0, s.threads[t].ticket;
      LowerFull(s, t, item, low, k);
    } else if Pushing(s'.threads[t], item) {
      var j;
      j, k := RefusedPush(s', t, item, low, schedule[1..]);
      i := j + 1;
      assert schedule[..i][1..] == schedule[1..][..j];
    } else {
      AcceptedStays(s', t, schedule[1..]);
    }
  }

  lemma LowerFull<T>(m: Ring<T>, t: nat, item: T, low: nat, k: nat)
    requires FindsFull(m, t, item, k, k) && low <= k
    ensures FindsFull(m, t, item, low, k)
  {
  }

  lemma LowerEmpty<T>(m: Ring<T>, t: nat, low: nat, k: nat)
    requires FindsEmpty(m, t, k, k) && low <= k
    ensures FindsEmpty(m, t, low, k)
  {
  }

  predicate Popping<T>(p: Phase<T>) { p.LoadHead? || p.TestHead? || p.CasHead? }

  predicate PopDone<T>(p: Phase<T>) { p.Reads() || (p.Idle? && p.last.Popped? && p.last.result.Some?) }

  lemma {:induction false} TakenStays<T>(s: Ring<T>, t: nat, schedule: seq<(nat, Action<T>)>)
    requires Inv(s) && GoodCapacity(s.capacity) && t < |s.threads| && NoCalls(schedule, t) && PopDone(s.threads[t])
    ensures PopDone(LooseRun(s, schedule).threads[t])
    decreases |schedule|
  {
    hide Inv, LooseStep;
    CountersOf(s);
    if schedule != [] {
      var (u, a) := schedule[0];
      LooseInv(s, u, a);
      TailOfNoCalls(schedule, t);
      if u == t { PopGoesOn(s, t, a); } else { OtherStays(s, u, a, t); }
      TakenStays(LooseStep(s, u, a), t, schedule[1..]);
    }
  }

  // A pop answers nothing only from a stamp test on a counter read during the call.
  lemma {:induction false} RefusedPop<T>(s: Ring<T>, t: nat, low: nat, schedule: seq<(nat, Action<T>)>)
    returns (i: nat, k: nat)
    requires Inv(s) && GoodCapacity(s.capacity) && t < |s.threads| && NoCalls(schedule, t) && low <= s.head
    requires Popping(s.threads[t]) && (!s.threads[t].LoadHead? ==> low <= s.threads[t].ticket)
    requires LooseRun(s, schedule).threads[t] == Idle(Popped(None))
    ensures i < |schedule| && schedule[i].0 == t && FindsEmpty(LooseRun(s, schedule[..i]), t, low, k)
    decreases |schedule|
  {
    hide Inv, LooseStep, FindsEmpty;
    CountersOf(s);
    var (u, a) := schedule[0];
    var s' := LooseStep(s, u, a);
    LooseInv(s, u, a);
    TailOfNoCalls(schedule, t);
    if u == t { PopGoesOn(s, t, a); } else { OtherStays(s, u, a, t); }
    assert schedule[..0] == [];
    if u == t && s.threads[t].TestHead? && s'.threads[t].Idle? {
      i, k := 0, s.threads[t].ticket;
      LowerEmpty(s, t, low, k);
    } else if Popping(s'.threads[t]) {
      var j;
      j, k := RefusedPop(s', t, low, schedule[1..]);
      i := j + 1;
      assert schedule[..i][1..] == schedule[1..][..j];
    } else {
      TakenStays(s', t, schedule[1..]);
    }
  }

  // ---------- A call alone ----------

  // With no operation between its compare-and-swap and its release, a push alone is accepted exactly
  // when there is room, and a pop alone finds an item exactly when there is one.
  lemma {:induction false} PushAlone<T>(s: Ring<T>, t: nat, item: T, schedule: seq<(nat, Action<T>)>)
    requires Inv(s) && GoodCapacity(s.capacity) && TicketGuarantees.Settled(s) && t < |s.threads|
    requires forall i | 0 <= i < |schedule| :: schedule[i].0 == t && GoesOn(schedule[i].1)
    requires Pushing(s.threads[t], item) && (!s.threads[t].LoadTail? ==> s.threads[t].ticket == s.tail)
    requires s.threads[t].CasTail? ==> s.tail < s.head + s.capacity
    requires LooseRun(s, schedule).threads[t].Idle?
    ensures LooseRun(s, schedule).threads[t] == Idle(Pushed(s.tail < s.head + s.capacity))
    decreases |schedule|
  {
    hide Inv, LooseStep, FindsFull;
    CountersOf(s);
    var a := schedule[0].1;
    var s' := LooseStep(s, t, a);
    LooseInv(s, t, a);
    PushGoesOn(s, t, a);
    CurrentTests(s);
    if s'.threads[t].Idle? {
      RefusedStays(s', t, schedule[1..]);
    } else if Pushing(s'.threads[t], item) {
      OwnTests(s, t, a);
      PushAlone(s', t, item, schedule[1..]);
    } else {
      AcceptedStays(s', t, schedule[1..]);
    }
  }

  // The stamps of the two ends, at rest.
  lemma CurrentTests<T>(s: Ring<T>)
    requires Inv(s) && GoodCapacity(s.capacity) && TicketGuarantees.Settled(s)
    ensures Shaped(s)
    ensures AsWord(s.tailStamp[Slot(s.tail, s.capacity)]) == AsWord(s.tail) <==> s.tail < s.head + s.capacity
    ensures AsWord(s.headStamp[Slot(s.head, s.capacity)]) == AsWord(s.head) <==> s.head < s.tail
  {
    hide Slot, TicketOk;
    var (i, j) := (Slot(s.tail, s.capacity), Slot(s.head, s.capacity));
    assert SlotOk(s, i) && SlotOk(s, j);
    Serves(s, s.tail);
    Serves(s, s.head);
    assert s.tailStamp[i] == if s.tail < s.head + s.capacity then s.tail else s.tail - s.capacity;
    SameWord(s.tail, s.tailStamp[i]);
    assert s.headStamp[j] == if s.head < s.tail then s.head else Before(s.head, s.capacity);
    SameWord(s.head, s.headStamp[j]);
  }

  // Until it wins, a call moves no one but itself.
  lemma OwnTests<T>(s: Ring<T>, t: nat, a: Action<T>)
    requires Inv(s) && t < |s.threads| && !LooseStep(s, t, a).threads[t].Owns()
    requires var p := s.threads[t];
             p.LoadTail? || p.TestTail? || p.CasTail? || p.LoadHead? || p.TestHead? || p.CasHead?
    ensures LooseStep(s, t, a) == At(s, t, LooseStep(s, t, a).threads[t])
  {
    hide Slot, SlotOk, ThreadOk, TicketOk;
  }

  lemma {:induction false} PopAlone<T>(s: Ring<T>, t: nat, schedule: seq<(nat, Action<T>)>)
    requires Inv(s) && GoodCapacity(s.capacity) && TicketGuarantees.Settled(s) && t < |s.threads|
    requires forall i | 0 <= i < |schedule| :: schedule[i].0 == t && GoesOn(schedule[i].1)
    requires Popping(s.threads[t]) && (!s.threads[t].LoadHead? ==> s.threads[t].ticket == s.head)
    requires s.threads[t].CasHead? ==> s.head < s.tail
    requires var p := LooseRun(s, schedule).threads[t]; p.Idle?
    ensures var p := LooseRun(s, schedule).threads[t]; p.last.Popped? && (p.last.result.Some? <==> s.head < s.tail)
    decreases |schedule|
  {
    hide Inv, LooseStep, FindsEmpty;
    CountersOf(s);
    var a := schedule[0].1;
    var s' := LooseStep(s, t, a);
    LooseInv(s, t, a);
    PopGoesOn(s, t, a);
    CurrentTests(s);
    if s'.threads[t].Idle? {
      RefusedStays(s', t, schedule[1..]);
    } else if Popping(s'.threads[t]) {
      OwnTests(s, t, a);
      PopAlone(s', t, schedule[1..]);
    } else {
      TakenStays(s', t, schedule[1..]);
    }
  }
}
