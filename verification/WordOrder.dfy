// The wrapped ring keeps its order as long as no compare-and-swap is 2^64 tickets late.
module WordOrder {
  import opened Wrappers
  import opened Bits
  import opened Slots
  import opened TicketGuarantees
  import opened TicketRing
  import opened WordRing

  // The ring on unbounded tickets with its two stamp tests made on words.  A stale test may pass
  // here that fails on tickets, but the compare-and-swap behind it then fails.
  function LooseStep<T>(s: Ring<T>, t: nat, a: Action<T>): (r: Ring<T>)
    requires Shaped(s)
    ensures Shaped(r) && r.capacity == s.capacity && |r.threads| == |s.threads|
  {
    if t < |s.threads| && s.threads[t].TestTail? then LooseTestTail(s, t)
    else if t < |s.threads| && s.threads[t].TestHead? then LooseTestHead(s, t)
    else Step(s, t, a)
  }

  function LooseTestTail<T>(s: Ring<T>, t: nat): Ring<T>
    requires Shaped(s) && t < |s.threads| && s.threads[t].TestTail?
  {
    var p := s.threads[t];
    if AsWord(s.tailStamp[Slot(p.ticket, s.capacity)]) != AsWord(p.ticket) then At(s, t, Idle(Pushed(false)))
    else At(s, t, CasTail(p.item, p.ticket))
  }

  function LooseTestHead<T>(s: Ring<T>, t: nat): Ring<T>
    requires Shaped(s) && t < |s.threads| && s.threads[t].TestHead?
  {
    var p := s.threads[t];
    if AsWord(s.headStamp[Slot(p.ticket, s.capacity)]) != AsWord(p.ticket) then At(s, t, Idle(Popped(None)))
    else At(s, t, CasHead(p.ticket))
  }

  function LooseRun<T>(s: Ring<T>, schedule: seq<(nat, Action<T>)>): (r: Ring<T>)
    requires Shaped(s)
    ensures Shaped(r) && r.capacity == s.capacity && |r.threads| == |s.threads|
    decreases |schedule|
  {
    if schedule == [] then s else LooseRun(LooseStep(s, schedule[0].0, schedule[0].1), schedule[1..])
  }

  lemma {:induction false} LooseConcat<T>(s: Ring<T>, a: seq<(nat, Action<T>)>, b: seq<(nat, Action<T>)>)
    requires Shaped(s)
    ensures LooseRun(s, a + b) == LooseRun(LooseRun(s, a), b)
    decreases |a|
  {
    if a == [] {
      assert a + b == b;
    } else {
      assert (a + b)[1..] == a[1..] + b;
      LooseConcat(LooseStep(s, a[0].0, a[0].1), a[1..], b);
    }
  }

  lemma LooseOne<T>(s: Ring<T>, t: nat, a: Action<T>)
    requires Shaped(s)
    ensures LooseRun(s, [(t, a)]) == LooseStep(s, t, a)
  {
    assert [(t, a)][1..] == [];
  }

  // A stamp equal to the ticket on words is never an earlier one.
  lemma StampsReachTicket<T>(s: Ring<T>, t: nat)
    requires Inv(s) && GoodCapacity(s.capacity) && t < |s.threads|
    ensures var p := s.threads[t];
            && (p.TestTail? && AsWord(s.tailStamp[Slot(p.ticket, s.capacity)]) == AsWord(p.ticket) ==>
                  p.ticket <= s.tailStamp[Slot(p.ticket, s.capacity)])
            && (p.TestHead? && AsWord(s.headStamp[Slot(p.ticket, s.capacity)]) == AsWord(p.ticket) ==>
                  p.ticket <= s.headStamp[Slot(p.ticket, s.capacity)])
  {
    hide Slot, TicketOk;
    assert ThreadOk(s, t);
    var p := s.threads[t];
    if p.TestTail? {
      var i := Slot(p.ticket, s.capacity);
      assert SlotOk(s, i);
      if s.tailStamp[i] < p.ticket { SameWord(p.ticket, s.tailStamp[i]); }
    } else if p.TestHead? {
      var i := Slot(p.ticket, s.capacity);
      assert SlotOk(s, i);
      if s.headStamp[i] < p.ticket { SameWord(p.ticket, s.headStamp[i]); }
    }
  }

  lemma LooseInv<T>(s: Ring<T>, t: nat, a: Action<T>)
    requires Inv(s) && GoodCapacity(s.capacity)
    ensures Inv(LooseStep(s, t, a))
  {
    hide Slot, SlotOk, TicketOk;
    if t < |s.threads| && (s.threads[t].TestTail? || s.threads[t].TestHead?) {
      assert ThreadOk(s, t);
      StampsReachTicket(s, t);
      LocalInv(s, t, LooseStep(s, t, a).threads[t]);
    } else {
      StepInv(s, t, a);
    }
  }

  // The two machines part only where a test behind the counter passes.
  lemma LooseOnlyWhenStale<T>(s: Ring<T>, t: nat, a: Action<T>)
    requires Inv(s) && GoodCapacity(s.capacity)
    ensures LooseStep(s, t, a) == Step(s, t, a)
            || (t < |s.threads| && LooseStep(s, t, a) == At(s, t, LooseStep(s, t, a).threads[t])
                && ((s.threads[t].TestTail? && s.threads[t].ticket < s.tail && LooseStep(s, t, a).threads[t].CasTail?)
                    || (s.threads[t].TestHead? && s.threads[t].ticket < s.head
                       && LooseStep(s, t, a).threads[t].CasHead?)))
  {
    hide Slot, TicketOk;
    if t < |s.threads| && (s.threads[t].TestTail? || s.threads[t].TestHead?) {
      var i := Slot(s.threads[t].ticket, s.capacity);
      assert ThreadOk(s, t) && SlotOk(s, i);
      StampsReachTicket(s, t);
      Serves(s, s.threads[t].ticket);
      if s.threads[t].TestHead? && s.headStamp[i] > s.threads[t].ticket { LaterStamp(s, s.threads[t].ticket); }
    }
  }

  // ---------- Words ----------

  // No compare-and-swap of the run is more than `bound` tickets late.
  ghost predicate CasWithin<T>(s: Ring<T>, schedule: seq<(nat, Action<T>)>, bound: nat)
    requires Shaped(s)
    decreases |schedule|
  {
    schedule != [] ==>
      var (t, a) := schedule[0];
      && (t < |s.threads| && (s.threads[t].CasTail? || s.threads[t].CasHead?) ==> Lag(s, s.threads[t]) <= bound)
      && CasWithin(LooseStep(s, t, a), schedule[1..], bound)
  }

  lemma LooseAgrees<T>(s: Ring<T>, t: nat, a: Action<T>)
    requires Inv(s) && GoodCapacity(s.capacity)
    requires t < |s.threads| && (s.threads[t].CasTail? || s.threads[t].CasHead?) ==> Lag(s, s.threads[t]) < WORD
    ensures WordStep(Wrap(s), t, a) == Wrap(LooseStep(s, t, a))
  {
    hide Inv, Slot, Words, WrapPhases;
    CountersOf(s);
    if t < |s.threads| {
      var p := s.threads[t];
      assert Wrap(s).threads[t] == WrapPhase(p);
      if p.TouchesData() {
        DataAgrees(s, t, a);
      } else if p.Publish? || p.Release? {
        StampAgrees(s, t, a);
      } else if p.CasTail? {
        CasAgrees(s, t);
        CasTailAgrees(s, t, a);
      } else if p.CasHead? {
        CasAgrees(s, t);
        CasHeadAgrees(s, t, a);
      } else if p.TestTail? {
        LooseTestTailAgrees(s, t, a);
      } else if p.TestHead? {
        LooseTestHeadAgrees(s, t, a);
      } else {
        PhasesUpdate(s.threads, t, Step(s, t, a).threads[t]);
      }
    }
  }

  lemma CountersOf<T>(s: Ring<T>)
    requires Inv(s)
    ensures Shaped(s)
  {
  }

  lemma CasAgrees<T>(s: Ring<T>, t: nat)
    requires Inv(s) && t < |s.threads| && Lag(s, s.threads[t]) < WORD
    ensures s.threads[t].CasTail? ==> (AsWord(s.tail) == AsWord(s.threads[t].ticket) <==> s.tail == s.threads[t].ticket)
    ensures s.threads[t].CasHead? ==> (AsWord(s.head) == AsWord(s.threads[t].ticket) <==> s.head == s.threads[t].ticket)
  {
    hide Slot, SlotOk, TicketOk;
    assert ThreadOk(s, t);
    if s.threads[t].CasTail? { SameWord(s.tail, s.threads[t].ticket); }
    if s.threads[t].CasHead? { SameWord(s.head, s.threads[t].ticket); }
  }

  lemma LooseTestTailAgrees<T>(s: Ring<T>, t: nat, a: Action<T>)
    requires Shaped(s) && GoodCapacity(s.capacity) && t < |s.threads| && s.threads[t].TestTail?
    ensures WordStep(Wrap(s), t, a) == Wrap(LooseStep(s, t, a))
  {
    hide Words, WrapPhases, Slot, Pow2, Step;
    IndexIsSlot(s.threads[t].ticket, s.capacity);
    PhasesUpdate(s.threads, t, LooseStep(s, t, a).threads[t]);
    assert Wrap(s).threads[t] == WrapPhase(s.threads[t]);
  }

  lemma LooseTestHeadAgrees<T>(s: Ring<T>, t: nat, a: Action<T>)
    requires Shaped(s) && GoodCapacity(s.capacity) && t < |s.threads| && s.threads[t].TestHead?
    ensures WordStep(Wrap(s), t, a) == Wrap(LooseStep(s, t, a))
  {
    hide Words, WrapPhases, Slot, Pow2, Step;
    IndexIsSlot(s.threads[t].ticket, s.capacity);
    PhasesUpdate(s.threads, t, LooseStep(s, t, a).threads[t]);
    assert Wrap(s).threads[t] == WrapPhase(s.threads[t]);
  }

  lemma {:induction false} LooseRunAgrees<T>(s: Ring<T>, schedule: seq<(nat, Action<T>)>)
    requires Inv(s) && GoodCapacity(s.capacity) && CasWithin(s, schedule, WORD - 1)
    ensures Inv(LooseRun(s, schedule)) && WordRun(Wrap(s), schedule) == Wrap(LooseRun(s, schedule))
    decreases |schedule|
  {
    hide Inv, LooseStep, WordStep, Wrap;
    CountersOf(s);
    if schedule != [] {
      var (t, a) := schedule[0];
      LooseAgrees(s, t, a);
      LooseInv(s, t, a);
      LooseRunAgrees(LooseStep(s, t, a), schedule[1..]);
    }
  }

  // In every run of the ring on 64-bit words whose compare-and-swaps are less than 2^64 tickets late,
  // the words are those of a run of tickets in which every pop returned the item pushed under its
  // ticket, the queue never held more than its capacity, and no slot had two owners.
  lemma WordsKeepOrder<T>(c: nat, n: nat, schedule: seq<(nat, Action<T>)>)
    requires GoodCapacity(c) && CasWithin(Init<T>(c, n), schedule, WORD - 1)
    ensures var s := LooseRun(Init<T>(c, n), schedule);
            && WordRun(Wrap(Init<T>(c, n)), schedule) == Wrap(s)
            && s.head <= s.tail <= s.head + c && |s.pushed| == s.tail && |s.poppers| == s.head
            && (forall k :: k in s.popped ==> k < s.head && s.popped[k] == s.pushed[k])
            && (forall k: nat | k < s.head ::
                  k in s.popped <==>
                    !(s.poppers[k] < n && s.threads[s.poppers[k]].Reads() && s.threads[s.poppers[k]].ticket == k))
            && (forall k: nat | k < s.tail :: Announced(s, k) <==> !PushUnderWay(s, k))
            && (forall t: nat, u: nat | t < n && u < n && t != u && s.threads[t].Owns() && s.threads[u].Owns() ::
                  Slot(s.threads[t].ticket, c) != Slot(s.threads[u].ticket, c))
  {
    hide Slot, SlotOk, ThreadOk, Wrap, WordRun;
    InitInv<T>(c, n);
    LooseRunAgrees(Init<T>(c, n), schedule);
    var s := LooseRun(Init<T>(c, n), schedule);
    forall k | k in s.popped ensures k < s.head && s.popped[k] == s.pushed[k] { assert TicketOk(s, k); }
    forall k: nat | k < s.head
      ensures k in s.popped <==>
              !(s.poppers[k] < n && s.threads[s.poppers[k]].Reads() && s.threads[s.poppers[k]].ticket == k)
    {
      ClaimedPop(s, k);
    }
    forall k: nat | k < s.tail ensures Announced(s, k) <==> !PushUnderWay(s, k) { ClaimedPush(s, k); }
    forall t: nat, u: nat | t < n && u < n && t != u && s.threads[t].Owns() && s.threads[u].Owns()
      ensures Slot(s.threads[t].ticket, c) != Slot(s.threads[u].ticket, c)
    {
      OwnersApart(s, t, u);
    }
  }
}
