// Do the spin waits of the claim-then-wait ring end?  They do for every power of two, and for
// no other size.
module TurnProgress {
  import opened Wrappers
  import opened Bits
  import opened TurnRing
  import opened TurnGuarantees

  predicate CanMove<T(==)>(s: Ring<T>, t: nat)
    requires Shaped(s)
  {
    t < |s.threads| && s.threads[t].Holds() && Step(s, t, Proceed).threads[t] != s.threads[t]
  }

  // If some thread holds a ticket, some ticket holder can move.
  ghost predicate Live<T>(s: Ring<T>)
    requires Shaped(s)
  {
    (exists t: nat :: t < |s.threads| && s.threads[t].Holds()) ==> exists t: nat :: CanMove(s, t)
  }

  // ---------- Powers of two: no deadlock ----------

  // A thread past its wait can move.
  lemma InsideMoves<T>(s: Ring<T>, t: nat)
    requires Inv(s) && t < |s.threads| && s.threads[t].Inside()
    ensures CanMove(s, t)
  {
    hide TransIndex;
    if s.threads[t].PopTake? { PopTakeInv(s, t); }
  }

  // What a waiting push still lacks is over: either its tag is in place,
  // or the pop one lap earlier is claimed and not over.
  lemma PushWaitsForPop<T>(s: Ring<T>, k: nat)
    requires Inv(s) && k < s.writeIndex && !PushOver(s.tag[TransIndex(k, s.max)], k)
    ensures s.tag[TransIndex(k, s.max)] == PushAwaits(k, s.max)
            || (k >= s.max && k - s.max < s.readIndex && TransIndex(k - s.max, s.max) == TransIndex(k, s.max)
                && !PopOver(s.tag[TransIndex(k, s.max)], k - s.max, s.max))
  {
    hide TransIndex;
    var i := TransIndex(k, s.max);
    var a := s.tag[i];
    assert SlotOk(s, i);
    if k >= s.max { IndexShift(k - s.max, s.max); }
    if a > 0 { IndexApart(a - 1, k, s.max); }
    if a < 0 { IndexApart(-a - 1, k, s.max); }
  }

  // A waiting pop lacks nothing, or the push of its ticket is not over.
  lemma PopWaitsForPush<T>(s: Ring<T>, k: nat)
    requires Inv(s) && k < s.readIndex && !PopOver(s.tag[TransIndex(k, s.max)], k, s.max)
    ensures s.tag[TransIndex(k, s.max)] == k + 1 || !PushOver(s.tag[TransIndex(k, s.max)], k)
  {
    hide TransIndex;
    var i := TransIndex(k, s.max);
    var a := s.tag[i];
    assert SlotOk(s, i);
    if a > 0 { IndexApart(a - 1, k, s.max); }
  }

  // Following who waits for whom down the tickets, push k before pop k before push k + max,
  // ends at a thread that can move.
  lemma {:induction false} SomePusherMoves<T>(s: Ring<T>, k: nat) returns (t: nat)
    requires Inv(s) && k < s.writeIndex && !PushOver(s.tag[TransIndex(k, s.max)], k)
    ensures CanMove(s, t)
    ensures if s.threads[t].Pushes() then s.threads[t].ticket <= k else s.threads[t].ticket + s.max <= k
    decreases 2 * k
  {
    hide TransIndex, SlotOk;
    assert TicketOk(s, k);
    t := s.pushers[k];
    assert ThreadOk(s, t);
    if s.threads[t].Inside() {
      InsideMoves(s, t);
    } else if s.tag[TransIndex(k, s.max)] != PushAwaits(k, s.max) {
      PushWaitsForPop(s, k);
      t := SomePopperMoves(s, k - s.max);
    }
  }

  lemma {:induction false} SomePopperMoves<T>(s: Ring<T>, k: nat) returns (t: nat)
    requires Inv(s) && k < s.readIndex && !PopOver(s.tag[TransIndex(k, s.max)], k, s.max)
    ensures CanMove(s, t) && s.threads[t].ticket <= k
    decreases 2 * k + 1
  {
    hide TransIndex, SlotOk;
    assert TicketOk(s, k);
    t := s.poppers[k];
    assert ThreadOk(s, t);
    if s.threads[t].Inside() {
      InsideMoves(s, t);
    } else if s.tag[TransIndex(k, s.max)] != k + 1 {
      PopWaitsForPush(s, k);
      t := SomePusherMoves(s, k);
    }
  }

  lemma HolderMoves<T>(s: Ring<T>, u: nat) returns (t: nat)
    requires Inv(s) && u < |s.threads| && s.threads[u].Holds()
    ensures CanMove(s, t)
    ensures var (k, m) := (s.threads[u].ticket, s.threads[t].ticket);
            if s.threads[u].Pushes() && s.threads[t].Pops() then m + s.max <= k else m <= k
  {
    hide TransIndex;
    assert ThreadOk(s, u);
    if s.threads[u].Inside() {
      InsideMoves(s, u);
      t := u;
    } else if s.threads[u].PushWait? {
      t := SomePusherMoves(s, s.threads[u].ticket);
    } else {
      t := SomePopperMoves(s, s.threads[u].ticket);
    }
  }

  lemma InvLive<T>(s: Ring<T>)
    requires Inv(s)
    ensures Live(s)
  {
    if u: nat :| u < |s.threads| && s.threads[u].Holds() {
      var t := HolderMoves(s, u);
    }
  }

  // How many steps the holders of tickets still have to take.
  function Owed<T>(q: seq<Phase<T>>): nat
  {
    if q == [] then 0 else OwedOne(q[|q| - 1]) + Owed(q[..|q| - 1])
  }

  function OwedOne<T>(p: Phase<T>): nat
  {
    if p.PushWait? || p.PopWait? then 3 else if p.PushStore? || p.PopTake? then 2 else if p.Holds() then 1 else 0
  }

  lemma {:induction false} OwedUpdate<T>(q: seq<Phase<T>>, t: nat, p: Phase<T>)
    requires t < |q|
    ensures Owed(q[t := p]) == Owed(q) - OwedOne(q[t]) + OwedOne(p)
  {
    var r := q[t := p];
    var n := |q| - 1;
    if t < n {
      assert r[..n] == q[..n][t := p];
      OwedUpdate(q[..n], t, p);
    } else {
      assert r[..n] == q[..n];
    }
  }

  ghost predicate Settled<T>(s: Ring<T>)
  {
    forall t | 0 <= t < |s.threads| :: !s.threads[t].Holds()
  }

  // A ticket holder that moves claims nothing and owes one step less.
  lemma {:induction false} HolderPays<T>(s: Ring<T>, t: nat)
    requires Shaped(s) && CanMove(s, t)
    ensures var r := Step(s, t, Proceed);
            Owed(r.threads) == Owed(s.threads) - 1 && r.pushed == s.pushed && r.poppers == s.poppers
  {
    hide TransIndex, Owed;
    var r := Step(s, t, Proceed);
    OwedUpdate(s.threads, t, r.threads[t]);
    if s.threads[t].Pushes() {
      assert r.threads == s.threads[t := r.threads[t]];
    } else {
      assert r.threads == s.threads[t := r.threads[t]];
    }
  }

  // Every step of the schedule is taken by a thread that holds a ticket.
  ghost predicate HoldersOnly<T>(s: Ring<T>, schedule: seq<(nat, Action<T>)>)
    requires Shaped(s)
    decreases |schedule|
  {
    schedule != [] ==>
      var (t, a) := schedule[0];
      t < |s.threads| && s.threads[t].Holds() && HoldersOnly(Step(s, t, a), schedule[1..])
  }

  // From every reachable state the claimed tickets can all be finished, by their holders' own
  // steps alone and in no more steps than they owe.
  lemma {:induction false} TicketsCanFinish<T>(s: Ring<T>) returns (schedule: seq<(nat, Action<T>)>)
    requires Inv(s)
    ensures Inv(Run(s, schedule)) && Settled(Run(s, schedule))
    ensures |schedule| <= Owed(s.threads) && HoldersOnly(s, schedule)
    ensures forall i | 0 <= i < |schedule| :: schedule[i].1 == Proceed
    ensures var r := Run(s, schedule); r.pushed == s.pushed && r.poppers == s.poppers
    decreases Owed(s.threads)
  {
    hide SlotOk, ThreadOk, TicketOk, TransIndex, Owed;
    if u: nat :| u < |s.threads| && s.threads[u].Holds() {
      var t := HolderMoves(s, u);
      var s1 := Step(s, t, Proceed);
      StepInv(s, t, Proceed);
      HolderPays(s, t);
      var rest := TicketsCanFinish(s1);
      schedule := [(t, Proceed)] + rest;
      assert schedule[1..] == rest;
    } else {
      schedule := [];
    }
  }

  // ---------- One thread alone ----------

  // `n` steps of thread `t`.
  function Own<T>(t: nat, n: nat): (r: seq<(nat, Action<T>)>)
    ensures |r| == n && forall i | 0 <= i < n :: r[i] == (t, Proceed)
  {
    if n == 0 then [] else [(t, Proceed)] + Own(t, n - 1)
  }

  // The call up to its compare-and-swap, and the whole call.
  function ClaimCall<T>(t: nat, a: Action<T>): (r: seq<(nat, Action<T>)>)
    ensures |r| == 4 && forall i | 0 <= i < 4 :: r[i].0 == t
  {
    [(t, a)] + Own(t, 3)
  }

  function PushCall<T>(t: nat, x: T): (r: seq<(nat, Action<T>)>)
    ensures |r| == 7 && forall i | 0 <= i < 7 :: r[i].0 == t
  {
    ClaimCall(t, CallPush(x)) + Own(t, 3)
  }

  function PopCall<T>(t: nat): (r: seq<(nat, Action<T>)>)
    ensures |r| == 7 && forall i | 0 <= i < 7 :: r[i].0 == t
  {
    ClaimCall(t, CallPop) + Own(t, 3)
  }

  lemma RunFirst<T>(s: Ring<T>, t: nat, a: Action<T>, rest: seq<(nat, Action<T>)>)
    requires Shaped(s)
    ensures Run(s, [(t, a)] + rest) == Run(Step(s, t, a), rest)
  {
    assert ([(t, a)] + rest)[1..] == rest;
  }

  lemma RunOwn<T>(s: Ring<T>, t: nat, n: nat)
    requires Shaped(s)
    ensures Run(s, Own(t, n)) == if n == 0 then s else Run(Step(s, t, Proceed), Own(t, n - 1))
  {
    if n > 0 { RunFirst(s, t, Proceed, Own(t, n - 1)); }
  }

  lemma ThreeSteps<T>(s: Ring<T>, t: nat)
    requires Shaped(s)
    ensures Run(s, Own(t, 3)) == Step(Step(Step(s, t, Proceed), t, Proceed), t, Proceed)
  {
    hide *;
    RunOwn(s, t, 3);
    var s1 := Step(s, t, Proceed);
    RunOwn(s1, t, 2);
    var s2 := Step(s1, t, Proceed);
    RunOwn(s2, t, 1);
    RunOwn(Step(s2, t, Proceed), t, 0);
  }

  // The compare-and-swap finds the index it was given: the ticket is claimed.
  lemma {:induction false} SoloClaimPush<T>(s: Ring<T>, t: nat, x: T)
    requires Shaped(s) && t < |s.threads| && s.threads[t].Idle?
    requires s.writeIndex < s.readIndex + s.max
    ensures var w := s.writeIndex;
            Run(s, ClaimCall(t, CallPush(x))) ==
              At(s, t, PushWait(x, w)).(writeIndex := w + 1, pushed := s.pushed + [x], pushers := s.pushers + [t])
  {
    hide TransIndex, PushAwaits, Run, Own;
    RunFirst(s, t, CallPush(x), Own(t, 3));
    var s1 := Step(s, t, CallPush(x));
    ThreeSteps(s1, t);
    var w := s.writeIndex;
    assert Step(s1, t, Proceed) == At(s, t, PushLoadRead(x, w));
    assert Step(At(s, t, PushLoadRead(x, w)), t, Proceed) == At(s, t, PushCas(x, w));
    assert Step(At(s, t, PushCas(x, w)), t, Proceed) ==
           At(s, t, PushWait(x, w)).(writeIndex := w + 1, pushed := s.pushed + [x], pushers := s.pushers + [t]);
  }

  lemma {:induction false} FinishPush<T>(s: Ring<T>, t: nat, x: T, k: nat)
    requires Shaped(s) && t < |s.threads| && s.threads[t] == PushWait(x, k)
    requires s.tag[TransIndex(k, s.max)] == PushAwaits(k, s.max)
    ensures var i := TransIndex(k, s.max);
            Run(s, Own(t, 3)) == At(s, t, Idle(Pushed(true))).(elem := s.elem[i := Some(x)], tag := s.tag[i := k + 1])
  {
    hide TransIndex, PushAwaits, Run, Own;
    ThreeSteps(s, t);
    assert Step(s, t, Proceed) == At(s, t, PushStore(x, k));
  }

  // A push that finds room and its tag in place: seven steps, no spinning.
  lemma {:induction false} SoloPush<T>(s: Ring<T>, t: nat, x: T)
    requires Shaped(s) && t < |s.threads| && s.threads[t].Idle?
    requires s.writeIndex < s.readIndex + s.max
    requires s.tag[TransIndex(s.writeIndex, s.max)] == PushAwaits(s.writeIndex, s.max)
    ensures var (w, i) := (s.writeIndex, TransIndex(s.writeIndex, s.max));
            Run(s, PushCall(t, x)) ==
              s.(threads := s.threads[t := Idle(Pushed(true))], elem := s.elem[i := Some(x)], tag := s.tag[i := w + 1],
                 writeIndex := w + 1, pushed := s.pushed + [x], pushers := s.pushers + [t])
  {
    hide TransIndex, PushAwaits, Run, Own, ClaimCall;
    var w := s.writeIndex;
    RunConcat(s, ClaimCall(t, CallPush(x)), Own(t, 3));
    SoloClaimPush(s, t, x);
    FinishPush(At(s, t, PushWait(x, w)).(writeIndex := w + 1, pushed := s.pushed + [x], pushers := s.pushers + [t]),
        t, x, w);
  }

  // A push alone on a full queue answers false and changes nothing.
  lemma {:induction false} SoloPushFull<T>(s: Ring<T>, t: nat, x: T)
    requires Shaped(s) && t < |s.threads| && s.threads[t].Idle?
    requires s.writeIndex >= s.readIndex + s.max
    ensures Run(s, PushCall(t, x)) == At(s, t, Idle(Pushed(false)))
  {
    hide Run, Own;
    RunConcat(s, ClaimCall(t, CallPush(x)), Own(t, 3));
    RunFirst(s, t, CallPush(x), Own(t, 3));
    var s1 := Step(s, t, CallPush(x));
    ThreeSteps(s1, t);
    var r := At(s, t, Idle(Pushed(false)));
    assert Step(s1, t, Proceed) == At(s, t, PushLoadRead(x, s.writeIndex));
    assert Step(At(s, t, PushLoadRead(x, s.writeIndex)), t, Proceed) == r;
    assert Step(r, t, Proceed) == r;
    ThreeSteps(r, t);
  }

  lemma {:induction false} SoloClaimPop<T>(s: Ring<T>, t: nat)
    requires Shaped(s) && t < |s.threads| && s.threads[t].Idle?
    requires s.readIndex < s.writeIndex
    ensures var r := s.readIndex;
            Run(s, ClaimCall(t, CallPop)) == At(s, t, PopWait(r)).(readIndex := r + 1, poppers := s.poppers + [t])
  {
    hide TransIndex, Run, Own;
    RunFirst(s, t, CallPop, Own(t, 3));
    var s1 := Step(s, t, CallPop);
    ThreeSteps(s1, t);
    var (w, r) := (s.writeIndex, s.readIndex);
    assert Step(s1, t, Proceed) == At(s, t, PopLoadRead(w));
    assert Step(At(s, t, PopLoadRead(w)), t, Proceed) == At(s, t, PopCas(r));
    assert Step(At(s, t, PopCas(r)), t, Proceed) ==
           At(s, t, PopWait(r)).(readIndex := r + 1, poppers := s.poppers + [t]);
  }

  lemma {:induction false} FinishPop<T>(s: Ring<T>, t: nat, k: nat)
    requires Shaped(s) && t < |s.threads| && s.threads[t] == PopWait(k)
    requires s.tag[TransIndex(k, s.max)] == k + 1 && s.elem[TransIndex(k, s.max)].Some?
    ensures var i := TransIndex(k, s.max);
            Run(s, Own(t, 3)) ==
            At(s, t, Idle(Popped(s.elem[i]))).(
              elem := s.elem[i := None], tag := s.tag[i := -(k + 1)], popped := s.popped[k := s.elem[i].value])
  {
    hide TransIndex, Run, Own;
    ThreeSteps(s, t);
    assert Step(s, t, Proceed) == At(s, t, PopTake(k));
  }

  lemma {:induction false} SoloPop<T>(s: Ring<T>, t: nat)
    requires Shaped(s) && t < |s.threads| && s.threads[t].Idle?
    requires s.readIndex < s.writeIndex
    requires var i := TransIndex(s.readIndex, s.max); s.tag[i] == s.readIndex + 1 && s.elem[i].Some?
    ensures var (r, i) := (s.readIndex, TransIndex(s.readIndex, s.max));
            Run(s, PopCall(t)) ==
              s.(threads := s.threads[t := Idle(Popped(s.elem[i]))], elem := s.elem[i := None],
                 tag := s.tag[i := -1 - s.readIndex],
                 readIndex := r + 1, poppers := s.poppers + [t], popped := s.popped[r := s.elem[i].value])
  {
    hide TransIndex, Run, Own, ClaimCall;
    RunConcat(s, ClaimCall(t, CallPop), Own(t, 3));
    SoloClaimPop(s, t);
    FinishPop(At(s, t, PopWait(s.readIndex)).(readIndex := s.readIndex + 1, poppers := s.poppers + [t]), t,
        s.readIndex);
  }

  lemma {:induction false} SoloPopEmpty<T>(s: Ring<T>, t: nat)
    requires Shaped(s) && t < |s.threads| && s.threads[t].Idle?
    requires s.writeIndex <= s.readIndex
    ensures Run(s, PopCall(t)) == At(s, t, Idle(Popped(None)))
  {
    hide Run, Own;
    RunConcat(s, ClaimCall(t, CallPop), Own(t, 3));
    RunFirst(s, t, CallPop, Own(t, 3));
    var s1 := Step(s, t, CallPop);
    ThreeSteps(s1, t);
    var r := At(s, t, Idle(Popped(None)));
    assert Step(s1, t, Proceed) == At(s, t, PopLoadRead(s.writeIndex));
    assert Step(At(s, t, PopLoadRead(s.writeIndex)), t, Proceed) == r;
    assert Step(r, t, Proceed) == r;
    ThreeSteps(r, t);
  }

  // ---------- Other sizes: a push that waits for ever ----------

  // A tag, once written, is never 0 again, so a first-lap push that finds one there waits for ever,
  // whatever anybody does.
  ghost predicate Hung<T>(s: Ring<T>, t: nat, k: nat)
    requires Shaped(s)
  {
    && t < |s.threads| && s.threads[t].PushWait? && s.threads[t].ticket == k
    && k < s.max && s.tag[TransIndex(k, s.max)] != 0
  }

  lemma {:induction false} HungForEver<T>(s: Ring<T>, t: nat, k: nat, schedule: seq<(nat, Action<T>)>)
    requires Shaped(s) && Hung(s, t, k)
    ensures Hung(Run(s, schedule), t, k) && Run(s, schedule).threads[t] == s.threads[t]
    decreases |schedule|
  {
    hide TransIndex;
    if schedule != [] {
      HungForEver(Step(s, schedule[0].0, schedule[0].1), t, k, schedule[1..]);
    }
  }

  // After `j` pushes by thread 0 alone, all below the lowest zero bit of the mask.
  ghost predicate Filled<T>(s: Ring<T>, max: nat, n: nat, j: nat)
  {
    && Shaped(s) && s.max == max && |s.threads| == n && s.writeIndex == j && s.readIndex == 0
    && (forall t | 0 <= t < n :: s.threads[t].Idle?)
    && (forall i | 0 <= i < max :: s.tag[i] == if i < j then i + 1 else 0)
  }

  lemma {:induction false} Fill<T>(max: nat, n: nat, j: nat, x: T) returns (schedule: seq<(nat, Action<T>)>)
    requires max > 0 && n > 0 && j <= max && j <= LowestZero(max - 1)
    ensures Filled(Run(Init<T>(max, n), schedule), max, n, j)
    ensures forall i | 0 <= i < |schedule| :: schedule[i].0 == 0
    decreases j
  {
    if j == 0 {
      schedule := [];
    } else {
      schedule := Fill(max, n, j - 1, x);
      var s := Run(Init<T>(max, n), schedule);
      MaskBelow(j - 1, max - 1);
      SoloPush(s, 0, x);
      RunConcat(Init<T>(max, n), schedule, PushCall(0, x));
      schedule := schedule + PushCall(0, x);
    }
  }

  // Unless the size is a power of two, some first-lap ticket maps to slot 0, and its push hangs.
  lemma {:induction false} OtherSizesHang<T>(max: nat, n: nat, x: T) returns (schedule: seq<(nat, Action<T>)>)
    requires max >= 2 && n > 0 && !IsPow2(max)
    ensures forall i | 0 <= i < |schedule| :: schedule[i].0 == 0
    ensures Hung(Run(Init<T>(max, n), schedule), 0, LowestZero(max - 1))
    ensures Run(Init<T>(max, n), schedule).writeIndex == LowestZero(max - 1) + 1
    ensures !exists t: nat :: CanMove(Run(Init<T>(max, n), schedule), t)
    ensures forall more {:trigger Run(Run(Init<T>(max, n), schedule), more)} ::
              Run(Run(Init<T>(max, n), schedule), more).threads[0] == PushWait(x, LowestZero(max - 1))
  {
    hide Run, ClaimCall;
    var b := LowestZero(max - 1);
    LowestZeroInside(max - 1);
    var s0 := Init<T>(max, n);
    var fill := Fill(max, n, b, x);
    var s := Run(s0, fill);
    SoloClaimPush(s, 0, x);
    RunConcat(s0, fill, ClaimCall(0, CallPush(x)));
    schedule := fill + ClaimCall(0, CallPush(x));
    var h := Run(s0, schedule);
    MaskAtZero(max - 1);
    forall more ensures Run(h, more).threads[0] == PushWait(x, b) { HungForEver(h, 0, b, more); }
  }

  // The spin waits are free of deadlock, in every run of any number of threads, exactly when the
  // size is a power of two.
  lemma {:induction false} DeadlockFreeIffPow2<T(!new)>(max: nat, x: T)
    requires max >= 2
    ensures (forall n: nat, schedule: seq<(nat, Action<T>)> :: Live(Run(Init<T>(max, n), schedule))) <==> IsPow2(max)
  {
    if IsPow2(max) {
      forall n: nat, schedule: seq<(nat, Action<T>)> ensures Live(Run(Init<T>(max, n), schedule)) {
        InitInv<T>(max, n);
        RunInv(Init<T>(max, n), schedule);
        InvLive(Run(Init<T>(max, n), schedule));
      }
    } else {
      var schedule := OtherSizesHang(max, 1, x);
      assert !Live(Run(Init<T>(max, 1), schedule));
    }
  }

  const DEFAULT_SIZE: nat := 65535

  lemma OddPow2(p: nat)
    ensures Pow2(p) % 2 == 1 ==> Pow2(p) == 1
  {
  }

  lemma DefaultSizeIsOdd()
    ensures !IsPow2(DEFAULT_SIZE)
  {
    forall p: nat ensures Pow2(p) != DEFAULT_SIZE { OddPow2(p); }
  }

  // With the default size there is a run, by one thread alone, whose second push waits for ever.
  lemma DefaultSizeHangs<T>(n: nat, x: T) returns (schedule: seq<(nat, Action<T>)>)
    requires n > 0
    ensures forall i | 0 <= i < |schedule| :: schedule[i].0 == 0
    ensures forall more :: Run(Run(Init<T>(DEFAULT_SIZE, n), schedule), more).threads[0] == PushWait(x, 1)
  {
    DefaultSizeIsOdd();
    schedule := OtherSizesHang(DEFAULT_SIZE, n, x);
  }
}
