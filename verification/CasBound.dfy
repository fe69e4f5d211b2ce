// How late a compare-and-swap of the wrapped ring may be before a pop reads raw memory: the bound
// of 2^64 tickets is exact.
module CasBound {
  import opened Wrappers
  import opened Slots
  import opened TicketGuarantees
  import opened TicketRing
  import opened WordRing
  import opened WrapAround
  import opened WordOrder

  // A thread about to construct finds raw memory, one about to copy or destroy finds an object.
  ghost predicate MindsObjects<T>(w: WordState<T>)
    requires Fits(w)
  {
    forall t: nat | t < |w.threads| && w.threads[t].TouchesData() ::
      w.cell[Index(w.threads[t].ticket, w.mask)].None? <==> w.threads[t].Construct?
  }

  lemma ObjectsMinded<T>(s: Ring<T>)
    requires Inv(s) && GoodCapacity(s.capacity)
    ensures MindsObjects(Wrap(s))
  {
    hide Slot, SlotOk, TicketOk, Words;
    forall t: nat | t < |s.threads| && Wrap(s).threads[t].TouchesData()
      ensures Wrap(s).cell[Index(Wrap(s).threads[t].ticket, s.capacity - 1)].None? <==> Wrap(s).threads[t].Construct?
    {
      assert Wrap(s).threads[t] == WrapPhase(s.threads[t]);
      assert ThreadOk(s, t);
      IndexIsSlot(s.threads[t].ticket, s.capacity);
    }
  }

  // ---------- A compare-and-swap 2^64 tickets late ----------

  lemma {:induction false} CasAppend<T>(s: Ring<T>, schedule: seq<(nat, Action<T>)>, t: nat, a: Action<T>, bound: nat)
    requires Shaped(s) && CasWithin(s, schedule, bound)
    requires var r := LooseRun(s, schedule); t < |r.threads| ==> Lag(r, r.threads[t]) <= bound
    ensures CasWithin(s, schedule + [(t, a)], bound)
    decreases |schedule|
  {
    var longer := schedule + [(t, a)];
    if schedule == [] {
      assert longer[1..] == [];
      assert CasWithin(LooseStep(s, t, a), longer[1..], bound);
    } else {
      assert longer[1..] == schedule[1..] + [(t, a)];
      CasAppend(LooseStep(s, schedule[0].0, schedule[0].1), schedule[1..], t, a, bound);
    }
  }

  // While movers have current copies the loose tests are the exact ones.
  lemma {:induction false} CurrentIsExact<T>(s: Ring<T>, schedule: seq<(nat, Action<T>)>, bound: nat)
    requires Inv(s) && GoodCapacity(s.capacity) && MovesWithin(s, schedule, 0)
    ensures LooseRun(s, schedule) == Run(s, schedule) && CasWithin(s, schedule, bound)
    decreases |schedule|
  {
    hide Inv, Step, LooseStep;
    CountersOf(s);
    if schedule != [] {
      var (t, a) := schedule[0];
      LooseOnlyWhenStale(s, t, a);
      StepInv(s, t, a);
      CurrentIsExact(Step(s, t, a), schedule[1..], bound);
    }
  }

  // Thread 1 has tested ticket 0 for a pop, and thread 0 has pushed and popped it since.
  lemma StalePop<T>(c: nat, x: T) returns (schedule: seq<(nat, Action<T>)>, last: Outcome<T>)
    requires c > 0
    ensures Leads(c, schedule, 1, 1, Idle(last), CasHead(0))
  {
    hide SlotOk, ThreadOk, TicketOk, MovesWithin, Run;
    var (p, q) := (Idle(Pushed(true)), Idle(NoCall));
    Start<T>(c);
    schedule := PushLap(c, [], 0, x, q, NoCall);
    schedule := AdvanceOther(c, schedule, 1, 0, p, q, CallPop, LoadHead);
    schedule := AdvanceOther(c, schedule, 1, 0, p, LoadHead, Proceed, TestHead(0));
    FirstPublished(Run(Init<T>(c, 2), schedule));
    schedule := AdvanceOther(c, schedule, 1, 0, p, TestHead(0), Proceed, CasHead(0));
    schedule := ClaimLap(c, schedule, 0, CasHead(0), Pushed(true));
    schedule, last := FinishLap(c, schedule, 1, CasHead(0));
  }

  lemma FirstPublished<T>(s: Ring<T>)
    requires Inv(s) && TicketGuarantees.Settled(s) && s.tail == 1 && s.head == 0
    ensures s.headStamp[Slot(0, s.capacity)] == 0
  {
    assert SlotOk(s, Slot(0, s.capacity));
    Serves(s, 0);
  }

  // 2^64 laps later the head reads 0 again: the queue is empty, and thread 1 claims an item.
  lemma LateCas<T>(c: nat, x: T) returns (schedule: seq<(nat, Action<T>)>)
    requires GoodCapacity(c)
    ensures CasWithin(Init<T>(c, 2), schedule, WORD)
    ensures !MindsObjects(WordRun(Wrap(Init<T>(c, 2)), schedule))
  {
    hide Run, WordRun, LooseRun, MovesWithin, CasWithin, Inv, Step, WordStep, MindsObjects;
    var s0 := Init<T>(c, 2);
    var last;
    schedule, last := StalePop(c, x);
    schedule, last := Laps(c, schedule, 1, WORD, x, CasHead(0), last);
    var s := Run(s0, schedule);
    InitInv<T>(c, 2);
    MovesWithinWider(s0, schedule, 0, WORD - c);
    RunAgrees(s0, schedule);
    CurrentIsExact(s0, schedule, WORD);
    CasAppend(s0, schedule, 1, Proceed, WORD);
    WordRunAppend(Wrap(s0), schedule, 1, Proceed);
    LateCasWins(s);
    schedule := schedule + [(1, Proceed)];
  }

  lemma LateCasWins<T>(s: Ring<T>)
    requires Inv(s) && GoodCapacity(s.capacity) && s.head == s.tail == WORD
    requires |s.threads| == 2 && s.threads[0].Idle? && s.threads[1] == CasHead(0)
    ensures !MindsObjects(WordStep(Wrap(s), 1, Proceed))
  {
    hide SlotOk, TicketOk, ThreadOk, Slot, Words;
    IndexIsSlot(0, s.capacity);
    FreeStamp(s, Slot(0, s.capacity));
    assert Wrap(s).threads[1] == CasHead(0);
    var r := WordStep(Wrap(s), 1, Proceed);
    assert r.threads[1] == ReadItem(0) && r.cell[Index(0, r.mask)] == None;
  }

  // In all runs on words whose compare-and-swaps are at most `bound` tickets late no thread constructs
  // over an object or reads raw memory, if and only if `bound` is below 2^64.
  lemma {:induction false} CasBoundIsExact<T(!new)>(c: nat, bound: nat, x: T)
    requires GoodCapacity(c)
    ensures (forall n: nat, schedule: seq<(nat, Action<T>)> | CasWithin(Init<T>(c, n), schedule, bound) ::
               MindsObjects(WordRun(Wrap(Init<T>(c, n)), schedule)))
            <==> bound < WORD
  {
    if bound < WORD {
      forall n: nat, schedule: seq<(nat, Action<T>)> | CasWithin(Init<T>(c, n), schedule, bound)
        ensures MindsObjects(WordRun(Wrap(Init<T>(c, n)), schedule))
      {
        InitInv<T>(c, n);
        CasWithinWider(Init<T>(c, n), schedule, bound, WORD - 1);
        LooseRunAgrees(Init<T>(c, n), schedule);
        ObjectsMinded(LooseRun(Init<T>(c, n), schedule));
      }
    } else {
      var schedule := LateCas(c, x);
      CasWithinWider(Init<T>(c, 2), schedule, WORD, bound);
    }
  }

  lemma {:induction false} CasWithinWider<T>(s: Ring<T>, schedule: seq<(nat, Action<T>)>, b: nat, b': nat)
    requires Shaped(s) && CasWithin(s, schedule, b) && b <= b'
    ensures CasWithin(s, schedule, b')
    decreases |schedule|
  {
    if schedule != [] {
      CasWithinWider(LooseStep(s, schedule[0].0, schedule[0].1), schedule[1..], b, b');
    }
  }
}
