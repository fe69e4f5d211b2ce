// What the ring of tickets and stamps guarantees in every run.
module TicketGuarantees {
  import opened Wrappers
  import opened Slots
  import opened TicketRing

  // ---------- Every run keeps the invariant ----------

  lemma StepInv<T>(s: Ring<T>, t: nat, a: Action<T>)
    requires Inv(s)
    ensures Inv(Step(s, t, a))
  {
    if t < |s.threads| {
      match s.threads[t]
      case Idle(_) =>
        match a {
          case CallPush(x) => LocalInv(s, t, LoadTail(x));
          case CallPop => LocalInv(s, t, LoadHead);
          case _ =>
        }
      case LoadTail(x) => LocalInv(s, t, TestTail(x, s.tail));
      case LoadHead => LocalInv(s, t, TestHead(s.head));
      case TestTail(_, _) => TestInv(s, t);
      case TestHead(_) => TestInv(s, t);
      case CasTail(_, _) => RetryInv(s, t, a.FailSpuriously?);
      case CasHead(_) => RetryInv(s, t, a.FailSpuriously?);
      case Construct(_, _) => ConstructInv(s, t);
      case Publish(_, _) => PublishInv(s, t);
      case ReadItem(_) => ReadItemInv(s, t);
      case Destroy(_, _) => DestroyInv(s, t);
      case Release(_, _) => ReleaseInv(s, t);
    }
  }

  lemma {:induction false} RunInv<T>(s: Ring<T>, schedule: seq<(nat, Action<T>)>)
    requires Inv(s)
    ensures Inv(Run(s, schedule))
    decreases |schedule|
  {
    if schedule != [] {
      StepInv(s, schedule[0].0, schedule[0].1);
      RunInv(Step(s, schedule[0].0, schedule[0].1), schedule[1..]);
    }
  }

  lemma {:induction false} RunAppend<T>(s: Ring<T>, schedule: seq<(nat, Action<T>)>, t: nat, a: Action<T>)
    requires Shaped(s)
    ensures Run(s, schedule + [(t, a)]) == Step(Run(s, schedule), t, a)
    decreases |schedule|
  {
    var longer := schedule + [(t, a)];
    if schedule == [] {
      assert longer[1..] == [];
    } else {
      assert longer[1..] == schedule[1..] + [(t, a)];
      RunAppend(Step(s, schedule[0].0, schedule[0].1), schedule[1..], t, a);
    }
  }

  lemma {:induction false} RunConcat<T>(s: Ring<T>, a: seq<(nat, Action<T>)>, b: seq<(nat, Action<T>)>)
    requires Shaped(s)
    ensures Run(s, a + b) == Run(Run(s, a), b)
    decreases |a|
  {
    if a == [] {
      assert a + b == b;
    } else {
      assert (a + b)[1..] == a[1..] + b;
      RunConcat(Step(s, a[0].0, a[0].1), a[1..], b);
    }
  }

  // ---------- What every run keeps ----------

  // First in, first out: whatever the interleaving, a completed pop of ticket `k` returned
  // the item of the push of ticket `k`, and every claimed push or pop is either completed
  // or in the hands of the one thread that claimed it.
  lemma FirstInFirstOut<T>(capacity: nat, n: nat, schedule: seq<(nat, Action<T>)>)
    requires capacity > 0
    ensures var s := Run(Init<T>(capacity, n), schedule);
            && s.head <= s.tail <= s.head + capacity
            && |s.pushed| == |s.pushers| == s.tail && |s.poppers| == s.head
            && (forall k :: k in s.popped ==> k < s.head && s.popped[k] == s.pushed[k])
            && (forall k: nat | k < s.head ::
                  k in s.popped <==>
                    !(s.poppers[k] < n && s.threads[s.poppers[k]].Reads() && s.threads[s.poppers[k]].ticket == k))
            && (forall t | 0 <= t < n && s.threads[t].Reads() ::
                  s.threads[t].ticket < s.head && s.poppers[s.threads[t].ticket] == t)
            && (forall k: nat | k < s.tail :: Announced(s, k) <==> !PushUnderWay(s, k))
            && (forall t | 0 <= t < n && s.threads[t].Writes() ::
                  s.threads[t].ticket < s.tail && s.pushers[s.threads[t].ticket] == t)
  {
    var s0 := Init<T>(capacity, n);
    InitInv<T>(capacity, n);
    RunInv(s0, schedule);
    var s := Run(s0, schedule);
    forall k | k in s.popped ensures k < s.head && s.popped[k] == s.pushed[k] {
      assert TicketOk(s, k);
    }
    forall k: nat | k < s.head
      ensures k in s.popped <==>
              !(s.poppers[k] < n && s.threads[s.poppers[k]].Reads() && s.threads[s.poppers[k]].ticket == k)
    {
      ClaimedPop(s, k);
    }
    forall t | 0 <= t < n
      ensures s.threads[t].Reads() ==> s.threads[t].ticket < s.head && s.poppers[s.threads[t].ticket] == t
      ensures s.threads[t].Writes() ==> s.threads[t].ticket < s.tail && s.pushers[s.threads[t].ticket] == t
    {
      assert ThreadOk(s, t);
    }
    forall k: nat | k < s.tail ensures Announced(s, k) <==> !PushUnderWay(s, k) { ClaimedPush(s, k); }
  }

  // The stamp for poppers has reached the ticket.
  ghost predicate Announced<T>(s: Ring<T>, k: nat)
    requires Shaped(s)
  {
    s.headStamp[Slot(k, s.capacity)] >= k
  }

  // The push of ticket `k` is claimed and its claimer has not published it yet.
  ghost predicate PushUnderWay<T>(s: Ring<T>, k: nat)
  {
    k < |s.pushers| && s.pushers[k] < |s.threads|
    && s.threads[s.pushers[k]].Writes() && s.threads[s.pushers[k]].ticket == k
  }

  ghost predicate PushOver<T>(s: Ring<T>, k: nat) { k < |s.pushers| && !PushUnderWay(s, k) }

  lemma ClaimedPush<T>(s: Ring<T>, k: nat)
    requires Inv(s) && k < s.tail
    ensures Announced(s, k) <==> PushOver(s, k)
  {
    assert SlotOk(s, Slot(k, s.capacity));
    Serves(s, k);
    if s.pushers[k] < |s.threads| { assert ThreadOk(s, s.pushers[k]); }
  }

  lemma ClaimedPop<T>(s: Ring<T>, k: nat)
    requires Inv(s) && k < s.head
    ensures k in s.popped <==>
            !(s.poppers[k] < |s.threads| && s.threads[s.poppers[k]].Reads() && s.threads[s.poppers[k]].ticket == k)
  {
    assert TicketOk(s, k) && SlotOk(s, Slot(k, s.capacity));
    Serves(s, k);
    if s.poppers[k] < |s.threads| {
      assert ThreadOk(s, s.poppers[k]);
    }
  }

  // The histories only grow, so what a run established stays true.
  lemma {:induction false} HistoryGrows<T>(s: Ring<T>, schedule: seq<(nat, Action<T>)>)
    requires Inv(s)
    ensures var r := Run(s, schedule);
            && s.pushed <= r.pushed && s.pushers <= r.pushers && s.poppers <= r.poppers
            && s.constructed <= r.constructed && s.destroyed <= r.destroyed
            && forall k :: k in s.popped ==> k in r.popped && r.popped[k] == s.popped[k]
    decreases |schedule|
  {
    if schedule != [] {
      var (t, a) := schedule[0];
      var s1 := Step(s, t, a);
      StepInv(s, t, a);
      StepHistory(s, t, a);
      HistoryGrows(s1, schedule[1..]);
    }
  }

  lemma StepHistory<T>(s: Ring<T>, t: nat, a: Action<T>)
    requires Inv(s)
    ensures var r := Step(s, t, a);
            && s.pushed <= r.pushed && s.pushers <= r.pushers && s.poppers <= r.poppers
            && s.constructed <= r.constructed && s.destroyed <= r.destroyed
            && forall k :: k in s.popped ==> k in r.popped && r.popped[k] == s.popped[k]
  {
    hide SlotOk, Slot, StepConstruct, StepDestroy, StepCasTail, StepCasHead;
    ObjectsGrow(s, t, a);
    if t < |s.threads| && s.threads[t].Release? {
      assert ThreadOk(s, t) && TicketOk(s, s.threads[t].ticket);
    } else {
      OtherHistory(s, t, a);
    }
  }

  lemma {:induction false} OtherHistory<T>(s: Ring<T>, t: nat, a: Action<T>)
    requires Shaped(s) && (t < |s.threads| ==> !s.threads[t].Release?)
    ensures var r := Step(s, t, a);
            && s.pushed <= r.pushed && s.pushers <= r.pushers && s.poppers <= r.poppers && r.popped == s.popped
  {
    hide Slot;
    if t < |s.threads| {
      var p := s.threads[t];
      if p.CasTail? {
      } else if p.CasHead? {
      } else if p.Owns() {
      } else {
      }
    }
  }

  lemma {:induction false} ObjectsGrow<T>(s: Ring<T>, t: nat, a: Action<T>)
    requires Shaped(s)
    ensures var r := Step(s, t, a); s.constructed <= r.constructed && s.destroyed <= r.destroyed
  {
    hide Slot, StepCasTail, StepCasHead;
    if t < |s.threads| {
      var p := s.threads[t];
      if p.CasTail? || p.CasHead? {
        ClaimsMakeNothing(s, t, a);
      } else if p.Construct? {
      } else if p.Destroy? {
      } else if p.Owns() {
      } else {
      }
    }
  }

  lemma {:induction false} ClaimsMakeNothing<T>(s: Ring<T>, t: nat, a: Action<T>)
    requires Shaped(s) && t < |s.threads| && (s.threads[t].CasTail? || s.threads[t].CasHead?)
    ensures var r := Step(s, t, a); r.constructed == s.constructed && r.destroyed == s.destroyed
  {
    if s.threads[t].CasTail? {
    } else {
    }
  }

  // However stale a stamp test was, in every run a compare-and-swap wins only while the stamp still
  // holds: a winning push finds room and raw memory, a winning pop the item pushed under its ticket.
  lemma WinnersHoldStamps<T>(capacity: nat, n: nat, schedule: seq<(nat, Action<T>)>, t: nat)
    requires capacity > 0 && t < n
    ensures var s := Run(Init<T>(capacity, n), schedule);
            && (s.threads[t].CasTail? && s.threads[t].ticket == s.tail ==>
                  var i := Slot(s.tail, capacity);
                  s.tailStamp[i] == s.tail < s.head + capacity && s.cell[i] == None)
            && (s.threads[t] == CasHead(s.head) ==>
                  var i := Slot(s.head, capacity);
                  s.headStamp[i] == s.tailStamp[i] == s.head < |s.pushed| && s.cell[i] == Some(s.pushed[s.head]))
  {
    InitInv<T>(capacity, n);
    RunInv(Init<T>(capacity, n), schedule);
    var s := Run(Init<T>(capacity, n), schedule);
    if s.threads[t].CasTail? && s.threads[t].ticket == s.tail { PushWinsUnderStamp(s, t); }
    if s.threads[t].CasHead? && s.threads[t].ticket == s.head { PopWinsUnderStamp(s, t); }
  }

  // At most one thread is between its compare-and-swap and its release in any slot.
  lemma SlotsAreExclusive<T>(capacity: nat, n: nat, schedule: seq<(nat, Action<T>)>, t: nat, u: nat)
    requires capacity > 0 && t < n && u < n && t != u
    ensures var s := Run(Init<T>(capacity, n), schedule);
            s.threads[t].Owns() && s.threads[u].Owns() ==>
              Slot(s.threads[t].ticket, capacity) != Slot(s.threads[u].ticket, capacity)
  {
    InitInv<T>(capacity, n);
    RunInv(Init<T>(capacity, n), schedule);
    var s := Run(Init<T>(capacity, n), schedule);
    if s.threads[t].Owns() && s.threads[u].Owns() {
      OwnersApart(s, t, u);
    }
  }

  // Objects: no ticket is constructed twice or destroyed twice, none destroyed unless constructed,
  // and the constructed but not yet destroyed ones are exactly those sitting in cells.
  // A thread about to construct finds raw memory, one about to read or destroy finds its object.
  lemma ObjectLifetimes<T>(capacity: nat, n: nat, schedule: seq<(nat, Action<T>)>)
    requires capacity > 0
    ensures var s := Run(Init<T>(capacity, n), schedule);
            && (forall k: nat :: s.destroyed[k] <= s.constructed[k] <= 1)
            && (forall k: nat :: s.constructed[k] > s.destroyed[k] <==>
                  s.cell[Slot(k, capacity)].Some? && s.tailStamp[Slot(k, capacity)] == k)
            && (forall t | 0 <= t < n && s.threads[t].Construct? :: s.cell[Slot(s.threads[t].ticket, capacity)].None?)
            && (forall t | 0 <= t < n && (s.threads[t].ReadItem? || s.threads[t].Destroy?) ::
                  s.cell[Slot(s.threads[t].ticket, capacity)].Some?)
  {
    var s0 := Init<T>(capacity, n);
    InitInv<T>(capacity, n);
    RunInv(s0, schedule);
    var s := Run(s0, schedule);
    forall k: nat
      ensures s.destroyed[k] <= s.constructed[k] <= 1
      ensures s.constructed[k] > s.destroyed[k] <==>
              s.cell[Slot(k, capacity)].Some? && s.tailStamp[Slot(k, capacity)] == k
    {
      assert TicketOk(s, k) && SlotOk(s, Slot(k, capacity));
    }
    forall t | 0 <= t < n
      ensures s.threads[t].Construct? ==> s.cell[Slot(s.threads[t].ticket, capacity)].None?
      ensures s.threads[t].ReadItem? || s.threads[t].Destroy? ==> s.cell[Slot(s.threads[t].ticket, capacity)].Some?
    {
      assert ThreadOk(s, t);
    }
  }

  // ---------- What a refusal means ----------

  // `push` refuses exactly when its ticket has been pushed and popped already, or the ticket one
  // lap earlier has not: its slot is full, or its push or pop is under way.
  lemma PushRefusal<T>(s: Ring<T>, t: nat)
    requires Inv(s) && t < |s.threads| && s.threads[t].TestTail?
    ensures var k := s.threads[t].ticket;
            StepTestTail(s, t).threads[t] == Idle(Pushed(false)) <==>
              k in s.popped || (k >= s.capacity && k - s.capacity !in s.popped)
  {
    var k := s.threads[t].ticket;
    assert ThreadOk(s, t) && SlotOk(s, Slot(k, s.capacity)) && TicketOk(s, k);
    Serves(s, k);
    if k >= s.capacity {
      SlotShift(k - s.capacity, s.capacity);
      assert TicketOk(s, k - s.capacity);
    }
  }

  // `pop` refuses exactly when its ticket has not been published, or the ticket one lap later has.
  lemma PopRefusal<T>(s: Ring<T>, t: nat)
    requires Inv(s) && t < |s.threads| && s.threads[t].TestHead?
    ensures var k := s.threads[t].ticket;
            StepTestHead(s, t).threads[t] == Idle(Popped(None)) <==> !PushOver(s, k) || PushOver(s, k + s.capacity)
  {
    var (k, c) := (s.threads[t].ticket, s.capacity);
    assert ThreadOk(s, t) && SlotOk(s, Slot(k, c));
    Serves(s, k);
    SlotShift(k, c);
    Serves(s, k + c);
    if k < s.tail { ClaimedPush(s, k); }
    if k + c < s.tail { ClaimedPush(s, k + c); }
    if s.headStamp[Slot(k, c)] > k { LaterStamp(s, k); }
  }

  // A stamp beyond the ticket is at least a lap beyond.
  lemma LaterStamp<T>(s: Ring<T>, k: nat)
    requires Inv(s) && s.headStamp[Slot(k, s.capacity)] > k
    ensures s.headStamp[Slot(k, s.capacity)] >= k + s.capacity && k + s.capacity < s.tail
  {
    var i := Slot(k, s.capacity);
    var h := s.headStamp[i];
    assert SlotOk(s, i);
    if s.tailStamp[i] != h { SlotShift(h, s.capacity); }
    SlotApart(k, h, s.capacity);
  }

  // ---------- When no operation is between its compare-and-swap and its release ----------

  ghost predicate Settled<T>(s: Ring<T>)
  {
    forall t | 0 <= t < |s.threads| :: !s.threads[t].Owns()
  }

  // The cells hold exactly the pushed items not yet claimed by a pop, in ticket order,
  // and the pops have returned exactly the others.
  lemma SettledContents<T>(s: Ring<T>)
    requires Inv(s) && Settled(s)
    ensures forall k: nat | k < s.head :: k in s.popped && s.popped[k] == s.pushed[k]
    ensures forall k: nat | s.head <= k < s.tail ::
              s.cell[Slot(k, s.capacity)] == Some(s.pushed[k]) && s.tailStamp[Slot(k, s.capacity)] == k
    ensures forall i | 0 <= i < s.capacity ::
              s.cell[i].Some? <==> s.head <= s.tailStamp[i] < s.tail
  {
    forall k: nat | k < s.head ensures k in s.popped && s.popped[k] == s.pushed[k] {
      ClaimedPop(s, k);
      assert TicketOk(s, k);
    }
    forall k: nat | s.head <= k < s.tail
      ensures s.cell[Slot(k, s.capacity)] == Some(s.pushed[k]) && s.tailStamp[Slot(k, s.capacity)] == k
    {
      assert SlotOk(s, Slot(k, s.capacity));
      Serves(s, k);
    }
    forall i | 0 <= i < s.capacity ensures s.cell[i].Some? <==> s.head <= s.tailStamp[i] < s.tail {
      assert SlotOk(s, i);
    }
  }

  // With a current copy of the counter, a refusal is then exact: full for `push`, empty for `pop`.
  lemma SettledRefusal<T>(s: Ring<T>, t: nat)
    requires Inv(s) && Settled(s) && t < |s.threads|
    ensures s.threads[t].TestTail? && s.threads[t].ticket == s.tail ==>
              (StepTestTail(s, t).threads[t] == Idle(Pushed(false)) <==> s.tail == s.head + s.capacity)
    ensures s.threads[t].TestHead? && s.threads[t].ticket == s.head ==>
              (StepTestHead(s, t).threads[t] == Idle(Popped(None)) <==> s.tail == s.head)
  {
    if s.threads[t].TestTail? && s.threads[t].ticket == s.tail {
      PushRefusal(s, t);
      assert TicketOk(s, s.tail);
      if s.tail >= s.capacity && s.tail - s.capacity < s.head { ClaimedPop(s, s.tail - s.capacity); }
      if s.tail >= s.capacity { assert TicketOk(s, s.tail - s.capacity); }
    }
    if s.threads[t].TestHead? && s.threads[t].ticket == s.head {
      PopRefusal(s, t);
    }
  }

  // The tickets from `a` up to, not including, `b`.
  function Between(a: nat, b: nat): (r: multiset<nat>)
    ensures forall k: nat :: r[k] == if a <= k < b then 1 else 0
    decreases b
  {
    if a >= b then multiset{} else Between(a, b - 1) + multiset{b - 1}
  }

  ghost predicate DestroyedOnce(made: multiset<nat>, gone: multiset<nat>, k: nat)
  {
    gone[k] == made[k] <= 1
  }

  // Destroying what is left, each ticket from head to tail once, leaves every object ever
  // constructed destroyed exactly once.
  lemma TeardownBalances<T>(s: Ring<T>)
    requires Inv(s) && Settled(s)
    ensures forall k: nat :: DestroyedOnce(s.constructed, s.destroyed + Between(s.head, s.tail), k)
  {
    forall k: nat ensures DestroyedOnce(s.constructed, s.destroyed + Between(s.head, s.tail), k) {
      var i := Slot(k, s.capacity);
      assert TicketOk(s, k) && SlotOk(s, i);
      Serves(s, k);
      if k < s.head { ClaimedPop(s, k); }
    }
  }
}
