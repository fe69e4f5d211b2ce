// How old a thread's copy of a counter may be before the wrapped ring and the
// unbounded one part ways: the bound is exact, for every capacity, for steps and for whole runs.
module WrapAround {
  import opened Wrappers
  import opened Bits
  import opened Slots
  import opened TicketGuarantees
  import opened TicketRing
  import opened WordRing

  lemma {:induction false} MovesAppend<T>(s: Ring<T>, schedule: seq<(nat, Action<T>)>, t: nat, a: Action<T>, bound: int)
    requires Shaped(s)
    ensures MovesWithin(s, schedule + [(t, a)], bound) <==>
            MovesWithin(s, schedule, bound)
            && (t < |s.threads| ==> Lag(Run(s, schedule), Run(s, schedule).threads[t]) <= bound)
    decreases |schedule|
  {
    var longer := schedule + [(t, a)];
    if schedule == [] {
      assert longer[1..] == [];
      assert MovesWithin(Step(s, t, a), longer[1..], bound);
    } else {
      assert longer[1..] == schedule[1..] + [(t, a)];
      MovesAppend(Step(s, schedule[0].0, schedule[0].1), schedule[1..], t, a, bound);
    }
  }

  lemma {:induction false} WordRunAppend<T>(w: WordState<T>, schedule: seq<(nat, Action<T>)>, t: nat, a: Action<T>)
    requires Fits(w)
    ensures WordRun(w, schedule + [(t, a)]) == WordStep(WordRun(w, schedule), t, a)
    decreases |schedule|
  {
    var longer := schedule + [(t, a)];
    if schedule == [] {
      assert longer[1..] == [];
    } else {
      assert longer[1..] == schedule[1..] + [(t, a)];
      WordRunAppend(WordStep(w, schedule[0].0, schedule[0].1), schedule[1..], t, a);
    }
  }

  // An idle worker's ring: the stamps of all slots are those of free slots.
  lemma FreeStamp<T>(s: Ring<T>, i: nat)
    requires Inv(s) && Settled(s) && s.head == s.tail && i < s.capacity
    ensures s.tail <= s.tailStamp[i] < s.tail + s.capacity && s.cell[i] == None
  {
    assert SlotOk(s, i);
  }

  // Thread 0 works at `p`, thread 1 stands still at `q`, holding no slot.
  ghost predicate At2<T>(s: Ring<T>, m: nat, n: nat, p: Phase<T>, q: Phase<T>)
  {
    && Inv(s) && s.tail == m && s.head == n && |s.threads| == 2
    && s.threads[0] == p && s.threads[1] == q && !q.Owns()
  }

  // A schedule from the start that leads to such a state.
  ghost predicate Leads<T>(c: nat, schedule: seq<(nat, Action<T>)>, m: nat, n: nat, p: Phase<T>, q: Phase<T>)
    requires c > 0
  {
    MovesWithin(Init<T>(c, 2), schedule, 0) && At2(Run(Init<T>(c, 2), schedule), m, n, p, q)
  }

  lemma Advance<T>(c: nat, schedule: seq<(nat, Action<T>)>, m: nat, n: nat, p: Phase<T>, q: Phase<T>,
                   a: Action<T>, m': nat, n': nat, p': Phase<T>)
    returns (longer: seq<(nat, Action<T>)>)
    requires c > 0 && Leads(c, schedule, m, n, p, q)
    requires p.TestTail? || p.CasTail? ==> p.ticket == m
    requires p.TestHead? || p.CasHead? ==> p.ticket == n
    requires At2(Step(Run(Init<T>(c, 2), schedule), 0, a), m', n', p', q)
    ensures Leads(c, longer, m', n', p', q)
  {
    longer := schedule + [(0, a)];
    RunAppend(Init<T>(c, 2), schedule, 0, a);
    MovesAppend(Init<T>(c, 2), schedule, 0, a, 0);
  }

  lemma PushTurn<T>(s: Ring<T>, m: nat, x: T, q: Phase<T>, a: Action<T>)
    requires |s.threads| == 2 && At2(s, m, m, s.threads[0], q)
    requires s.threads[0].Idle? ==> a == CallPush(x)
    ensures var r := Step(s, 0, a);
            match s.threads[0]
            case Idle(_) => At2(r, m, m, LoadTail(x), q)
            case LoadTail(y) => y == x ==> At2(r, m, m, TestTail(x, m), q)
            case TestTail(y, k) => y == x && k == m ==> At2(r, m, m, CasTail(x, m), q)
            case CasTail(y, k) => y == x && k == m && a == Proceed ==> At2(r, m + 1, m, Construct(x, m), q)
            case _ => true
  {
    StepInv(s, 0, a);
    if s.threads[0].TestTail? && s.threads[0].ticket == m {
      FreeStamp(s, Slot(m, s.capacity));
      assert SlotOk(s, Slot(m, s.capacity));
      Serves(s, m);
    }
  }

  lemma PopTurn<T>(s: Ring<T>, m: nat, q: Phase<T>, a: Action<T>)
    requires |s.threads| == 2 && At2(s, m + 1, m, s.threads[0], q) && !s.threads[0].Owns()
    requires s.threads[0].Idle? ==> a == CallPop
    ensures var r := Step(s, 0, a);
            match s.threads[0]
            case Idle(_) => At2(r, m + 1, m, LoadHead, q)
            case LoadHead => At2(r, m + 1, m, TestHead(m), q)
            case TestHead(k) => k == m ==> At2(r, m + 1, m, CasHead(m), q)
            case CasHead(k) => k == m && a == Proceed ==> At2(r, m + 1, m + 1, ReadItem(m), q)
            case _ => true
  {
    StepInv(s, 0, a);
    if s.threads[0].TestHead? && s.threads[0].ticket == m {
      assert SlotOk(s, Slot(m, s.capacity));
      Serves(s, m);
    }
  }

  lemma OwnerTurn<T>(s: Ring<T>, m: nat, n: nat, q: Phase<T>)
    requires |s.threads| == 2 && At2(s, m, n, s.threads[0], q) && s.threads[0].Owns()
    ensures var r := Step(s, 0, Proceed);
            && At2(r, m, n, r.threads[0], q)
            && match s.threads[0]
               case Construct(y, k) => r.threads[0] == Publish(y, k)
               case Publish(_, _) => r.threads[0] == Idle(Pushed(true))
               case ReadItem(k) => r.threads[0].Destroy?
               case Destroy(y, k) => r.threads[0] == Release(y, k)
               case Release(y, k) => r.threads[0] == Idle(Popped(Some(y)))
  {
    StepInv(s, 0, Proceed);
    if s.threads[0].ReadItem? { ReadItemInv(s, 0); }
  }

  lemma PushMove<T>(c: nat, schedule: seq<(nat, Action<T>)>, m: nat, x: T, q: Phase<T>,
                    p: Phase<T>, a: Action<T>, n: nat, p': Phase<T>)
    returns (longer: seq<(nat, Action<T>)>)
    requires c > 0 && Leads(c, schedule, m, m, p, q)
    requires match p
             case Idle(_) => a == CallPush(x) && n == m && p' == LoadTail(x)
             case LoadTail(y) => y == x && n == m && p' == TestTail(x, m)
             case TestTail(y, k) => y == x && k == n == m && p' == CasTail(x, m)
             case CasTail(y, k) => y == x && k == m && n == m + 1 && a == Proceed && p' == Construct(x, m)
             case _ => false
    ensures Leads(c, longer, n, m, p', q)
  {
    PushTurn(Run(Init<T>(c, 2), schedule), m, x, q, a);
    longer := Advance(c, schedule, m, m, p, q, a, n, m, p');
  }

  lemma PushLap<T>(c: nat, schedule: seq<(nat, Action<T>)>, m: nat, x: T, q: Phase<T>, last: Outcome<T>)
    returns (longer: seq<(nat, Action<T>)>)
    requires c > 0 && Leads(c, schedule, m, m, Idle(last), q)
    ensures Leads(c, longer, m + 1, m, Idle(Pushed(true)), q)
  {
    var s0 := Init<T>(c, 2);
    longer := PushMove(c, schedule, m, x, q, Idle(last), CallPush(x), m, LoadTail(x));
    longer := PushMove(c, longer, m, x, q, LoadTail(x), Proceed, m, TestTail(x, m));
    longer := PushMove(c, longer, m, x, q, TestTail(x, m), Proceed, m, CasTail(x, m));
    longer := PushMove(c, longer, m, x, q, CasTail(x, m), Proceed, m + 1, Construct(x, m));
    OwnerTurn(Run(s0, longer), m + 1, m, q);
    longer := Advance(c, longer, m + 1, m, Construct(x, m), q, Proceed, m + 1, m, Publish(x, m));
    OwnerTurn(Run(s0, longer), m + 1, m, q);
    longer := Advance(c, longer, m + 1, m, Publish(x, m), q, Proceed, m + 1, m, Idle(Pushed(true)));
  }

  lemma PopMove<T>(c: nat, schedule: seq<(nat, Action<T>)>, m: nat, q: Phase<T>,
                   p: Phase<T>, a: Action<T>, n: nat, p': Phase<T>)
    returns (longer: seq<(nat, Action<T>)>)
    requires c > 0 && Leads(c, schedule, m + 1, m, p, q)
    requires match p
             case Idle(_) => a == CallPop && n == m && p' == LoadHead
             case LoadHead => n == m && p' == TestHead(m)
             case TestHead(k) => k == n == m && p' == CasHead(m)
             case CasHead(k) => k == m && n == m + 1 && a == Proceed && p' == ReadItem(m)
             case _ => false
    ensures Leads(c, longer, m + 1, n, p', q)
  {
    PopTurn(Run(Init<T>(c, 2), schedule), m, q, a);
    longer := Advance(c, schedule, m + 1, m, p, q, a, m + 1, n, p');
  }

  lemma ClaimLap<T>(c: nat, schedule: seq<(nat, Action<T>)>, m: nat, q: Phase<T>, last: Outcome<T>)
    returns (longer: seq<(nat, Action<T>)>)
    requires c > 0 && Leads(c, schedule, m + 1, m, Idle(last), q)
    ensures Leads(c, longer, m + 1, m + 1, ReadItem(m), q)
  {
    longer := PopMove(c, schedule, m, q, Idle(last), CallPop, m, LoadHead);
    longer := PopMove(c, longer, m, q, LoadHead, Proceed, m, TestHead(m));
    longer := PopMove(c, longer, m, q, TestHead(m), Proceed, m, CasHead(m));
    longer := PopMove(c, longer, m, q, CasHead(m), Proceed, m + 1, ReadItem(m));
  }

  lemma FinishLap<T>(c: nat, schedule: seq<(nat, Action<T>)>, m: nat, q: Phase<T>)
    returns (longer: seq<(nat, Action<T>)>, last: Outcome<T>)
    requires c > 0 && m > 0 && Leads(c, schedule, m, m, ReadItem(m - 1), q)
    ensures Leads(c, longer, m, m, Idle(last), q)
  {
    var s0 := Init<T>(c, 2);
    OwnerTurn(Run(s0, schedule), m, m, q);
    var p := Step(Run(s0, schedule), 0, Proceed).threads[0];
    longer := Advance(c, schedule, m, m, ReadItem(m - 1), q, Proceed, m, m, p);
    OwnerTurn(Run(s0, longer), m, m, q);
    var p2 := Release(p.item, p.ticket);
    longer := Advance(c, longer, m, m, p, q, Proceed, m, m, p2);
    OwnerTurn(Run(s0, longer), m, m, q);
    last := Popped(Some(p.item));
    longer := Advance(c, longer, m, m, p2, q, Proceed, m, m, Idle(last));
  }

  // Any number of laps can go by under a stale thread.
  lemma {:induction false} Laps<T>(c: nat, base: seq<(nat, Action<T>)>, k: nat, m: nat, x: T, q: Phase<T>,
                                   last: Outcome<T>)
    returns (schedule: seq<(nat, Action<T>)>, last': Outcome<T>)
    requires c > 0 && k <= m && Leads(c, base, k, k, Idle(last), q)
    ensures Leads(c, schedule, m, m, Idle(last'), q)
    decreases m
  {
    hide Leads;
    schedule, last' := base, last;
    if m > k {
      schedule, last' := Laps(c, base, k, m - 1, x, q, last);
      schedule := PushLap(c, schedule, m - 1, x, q, last');
      schedule := ClaimLap(c, schedule, m - 1, q, Pushed(true));
      schedule, last' := FinishLap(c, schedule, m, q);
    }
  }

  // A move of thread 1 with a current copy.
  lemma AdvanceOther<T>(c: nat, schedule: seq<(nat, Action<T>)>, m: nat, n: nat, p: Phase<T>, q: Phase<T>,
                        a: Action<T>, q': Phase<T>)
    returns (longer: seq<(nat, Action<T>)>)
    requires c > 0 && Leads(c, schedule, m, n, p, q)
    requires q.TestTail? || q.CasTail? ==> q.ticket == m
    requires q.TestHead? || q.CasHead? ==> q.ticket == n
    requires var s := Run(Init<T>(c, 2), schedule); Step(s, 1, a) == At(s, 1, q') && !q'.Owns()
    ensures Leads(c, longer, m, n, p, q')
  {
    longer := schedule + [(1, a)];
    RunAppend(Init<T>(c, 2), schedule, 1, a);
    MovesAppend(Init<T>(c, 2), schedule, 1, a, 0);
    StepInv(Run(Init<T>(c, 2), schedule), 1, a);
  }

  lemma Start<T>(c: nat)
    requires c > 0
    ensures Leads<T>(c, [], 0, 0, Idle(NoCall), Idle(NoCall))
  {
    InitInv<T>(c, 2);
  }

  lemma StalePush<T>(c: nat, x: T) returns (schedule: seq<(nat, Action<T>)>)
    requires c > 0
    ensures Leads(c, schedule, 0, 0, Idle(NoCall), TestTail(x, 0))
  {
    Start<T>(c);
    schedule := AdvanceOther(c, [], 0, 0, Idle(NoCall), Idle(NoCall), CallPush(x), LoadTail(x));
    schedule := AdvanceOther(c, schedule, 0, 0, Idle(NoCall), LoadTail(x), Proceed, TestTail(x, 0));
  }

  // One ticket too many: the stamp of slot 0 reads 2^64, the old copy reads 0.  The push that is
  // refused on tickets passes its test on words.
  lemma TooOld<T>(c: nat, x: T) returns (schedule: seq<(nat, Action<T>)>)
    requires GoodCapacity(c)
    ensures MovesWithin(Init<T>(c, 2), schedule, WORD - c + 1)
    ensures Run(Init<T>(c, 2), schedule).threads[1] == Idle(Pushed(false))
    ensures WordRun(Wrap(Init<T>(c, 2)), schedule).threads[1] == CasTail(x, 0)
  {
    hide Run, WordRun, MovesWithin, Inv, Step, WordStep;
    var s0 := Init<T>(c, 2);
    var n := WORD - c + 1;
    var last;
    schedule := StalePush(c, x);
    schedule, last := Laps(c, schedule, 0, n, x, TestTail(x, 0), NoCall);
    var s := Run(s0, schedule);
    InitInv<T>(c, 2);
    MovesWithinWider(s0, schedule, 0, WORD - c);
    RunAgrees(s0, schedule);
    MovesWithinWider(s0, schedule, 0, n);
    RunAppend(s0, schedule, 1, Proceed);
    MovesAppend(s0, schedule, 1, Proceed, n);
    WordRunAppend(Wrap(s0), schedule, 1, Proceed);
    StaleTestPasses(s, x);
    schedule := schedule + [(1, Proceed)];
  }

  lemma StaleTestPasses<T>(s: Ring<T>, x: T)
    requires Inv(s) && GoodCapacity(s.capacity) && s.head == s.tail == WORD - s.capacity + 1
    requires |s.threads| == 2 && s.threads[0].Idle? && s.threads[1] == TestTail(x, 0)
    ensures Step(s, 1, Proceed).threads[1] == Idle(Pushed(false))
    ensures WordStep(Wrap(s), 1, Proceed).threads[1] == CasTail(x, 0)
  {
    StampWraps(s);
    IndexIsSlot(0, s.capacity);
    assert Wrap(s).threads[1] == TestTail(x, 0);
    assert Wrap(s).tailStamp[0] == 0;
  }

  lemma StampWraps<T>(s: Ring<T>)
    requires Inv(s) && Settled(s) && GoodCapacity(s.capacity) && s.head == s.tail == WORD - s.capacity + 1
    ensures Slot(0, s.capacity) == 0 && s.tailStamp[0] == WORD
  {
    var c := s.capacity;
    FreeStamp(s, 0);
    assert SlotOk(s, 0);
    var p: nat :| c == Pow2(p);
    WordIsPow2();
    if p > 64 { Pow2Strict(64, p); }
    ModOfMod(WORD, p, 64);
    ModSmall(0, c);
    SlotIsRemainder(WORD, c);
    if s.tailStamp[0] < WORD { SlotApart(s.tailStamp[0], WORD, c); }
  }

  lemma {:induction false} MovesWithinWider<T>(s: Ring<T>, schedule: seq<(nat, Action<T>)>, b: int, b': int)
    requires Shaped(s) && MovesWithin(s, schedule, b) && b <= b'
    ensures MovesWithin(s, schedule, b')
    decreases |schedule|
  {
    if schedule != [] {
      MovesWithinWider(Step(s, schedule[0].0, schedule[0].1), schedule[1..], b, b');
    }
  }

  // The wrapped ring behaves as the unbounded one on every run whose steps are taken within
  // `bound` tickets of the counter, if and only if bound plus capacity is at most 2^64.
  lemma LagBoundIsExact<T(!new)>(c: nat, bound: nat, x: T)
    requires GoodCapacity(c)
    ensures (forall n: nat, schedule: seq<(nat, Action<T>)> | MovesWithin(Init<T>(c, n), schedule, bound) ::
               WordRun(Wrap(Init<T>(c, n)), schedule) == Wrap(Run(Init<T>(c, n), schedule)))
            <==> bound + c <= WORD
  {
    if bound + c <= WORD {
      forall n: nat, schedule: seq<(nat, Action<T>)> | MovesWithin(Init<T>(c, n), schedule, bound)
        ensures WordRun(Wrap(Init<T>(c, n)), schedule) == Wrap(Run(Init<T>(c, n), schedule))
      {
        InitInv<T>(c, n);
        MovesWithinWider(Init<T>(c, n), schedule, bound, WORD - c);
        RunAgrees(Init<T>(c, n), schedule);
      }
    } else {
      var schedule := TooOld(c, x);
      var s := Run(Init<T>(c, 2), schedule);
      assert Wrap(s).threads[1] == WrapPhase(s.threads[1]);
      MovesWithinWider(Init<T>(c, 2), schedule, WORD - c + 1, bound);
    }
  }
}
