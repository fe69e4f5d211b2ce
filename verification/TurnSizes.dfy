// For which sizes the claim-then-wait ring keeps its elements apart and its order.
module TurnSizes {
  import opened Bits
  import opened TurnRing
  import opened TurnGuarantees
  import opened TurnProgress

  // Two threads past their waits are on different elements.
  ghost predicate OnOwnElement<T>(s: Ring<T>, t: nat, u: nat)
    requires Shaped(s) && t < |s.threads| && u < |s.threads|
  {
    s.threads[t].Inside() && s.threads[u].Inside() ==>
      TransIndex(s.threads[t].ticket, s.max) != TransIndex(s.threads[u].ticket, s.max)
  }

  // What was popped under a ticket was pushed under it.
  ghost predicate InOrder<T>(s: Ring<T>)
  {
    forall k :: k in s.popped ==> k < |s.pushed| && s.popped[k] == s.pushed[k]
  }

  // ---------- Other sizes: two tickets of one lap share slot 0, and neither sees the other's tag ----------

  // Thread 0 stands past its wait with ticket 0; thread 1 has pushed tickets 1 up to `j`.
  ghost predicate Ahead<T>(s: Ring<T>, max: nat, j: nat, x: T)
  {
    && Shaped(s) && s.max == max && s.writeIndex == j && s.readIndex == 0
    && |s.threads| == 2 && s.threads[0] == PushStore(x, 0) && s.threads[1].Idle?
    && (forall i | 0 <= i < max :: s.tag[i] == if 1 <= i < j then i + 1 else 0)
    && |s.pushed| == j > 0 && s.pushed[0] == x && s.popped == map[]
  }

  lemma {:induction false} GetAhead<T>(max: nat, j: nat, x: T) returns (schedule: seq<(nat, Action<T>)>)
    requires max >= 2 && 1 <= j <= LowestZero(max - 1) < max
    ensures Ahead(Run(Init<T>(max, 2), schedule), max, j, x)
    decreases j
  {
    hide Run, ClaimCall, PushCall;
    var s0 := Init<T>(max, 2);
    if j == 1 {
      MaskBelow(0, max - 1);
      SoloClaimPush(s0, 0, x);
      var first := ClaimCall(0, CallPush(x));
      RunConcat(s0, first, [(0, Proceed)]);
      RunOne(Run(s0, first), 0, Proceed);
      schedule := first + [(0, Proceed)];
    } else {
      var before := GetAhead(max, j - 1, x);
      var s := Run(s0, before);
      MaskBelow(j - 1, max - 1);
      SoloPush(s, 1, x);
      RunConcat(s0, before, PushCall(1, x));
      schedule := before + PushCall(1, x);
    }
  }

  // Both threads past their waits on slot 0, with tickets 0 and `LowestZero(max - 1)`.
  ghost predicate Colliding<T>(s: Ring<T>, max: nat, x: T, y: T)
  {
    && Shaped(s) && s.max == max && s.readIndex == 0 < s.writeIndex == |s.pushed|
    && |s.threads| == 2 && s.threads[0] == PushStore(x, 0) && s.threads[1] == PushStore(y, LowestZero(max - 1))
    && TransIndex(0, max) == TransIndex(LowestZero(max - 1), max)
    && s.pushed[0] == x && s.popped == map[]
  }

  lemma Collide<T>(max: nat, x: T, y: T) returns (schedule: seq<(nat, Action<T>)>)
    requires max >= 2 && !IsPow2(max)
    ensures Colliding(Run(Init<T>(max, 2), schedule), max, x, y)
  {
    hide Run, ClaimCall, PushCall;
    var b := LowestZero(max - 1);
    LowestZeroInside(max - 1);
    MaskBelow(0, max - 1);
    MaskAtZero(max - 1);
    var s0 := Init<T>(max, 2);
    var before := GetAhead(max, b, x);
    var s := Run(s0, before);
    SoloClaimPush(s, 1, y);
    var claim := ClaimCall(1, CallPush(y));
    RunConcat(s0, before, claim);
    RunConcat(s0, before + claim, [(1, Proceed)]);
    RunOne(Run(s, claim), 1, Proceed);
    schedule := before + claim + [(1, Proceed)];
  }

  // Thread 0 stores its item, thread 1 stores over it, thread 0 announces its push and pops.
  lemma LoseItem<T>(max: nat, x: T, y: T) returns (schedule: seq<(nat, Action<T>)>)
    requires max >= 2 && !IsPow2(max)
    ensures var s := Run(Init<T>(max, 2), schedule);
            |s.pushed| > 0 && s.pushed[0] == x && s.popped == map[0 := y]
  {
    hide Run, PopCall, TransIndex;
    var s0 := Init<T>(max, 2);
    var before := Collide(max, x, y);
    var s := Run(s0, before);
    var stores := [(0, Proceed), (1, Proceed), (0, Proceed)];
    RunThree(s, 0, 1, 0);
    RunConcat(s0, before, stores);
    var s3 := Run(s, stores);
    assert s3 == Step(Step(Step(s, 0, Proceed), 1, Proceed), 0, Proceed);
    SoloPop(s3, 0);
    RunConcat(s0, before + stores, PopCall(0));
    schedule := before + stores + PopCall(0);
  }

  lemma RunThree<T>(s: Ring<T>, t: nat, u: nat, v: nat)
    requires Shaped(s)
    ensures Run(s, [(t, Proceed), (u, Proceed), (v, Proceed)]) ==
            Step(Step(Step(s, t, Proceed), u, Proceed), v, Proceed)
  {
    hide Step;
    var first: seq<(nat, Action<T>)> := [(t, Proceed)];
    var second: seq<(nat, Action<T>)> := [(u, Proceed)];
    var third: seq<(nat, Action<T>)> := [(v, Proceed)];
    RunConcat(s, first, second + third);
    RunConcat(Step(s, t, Proceed), second, third);
    RunOne(s, t, Proceed);
    RunOne(Step(s, t, Proceed), u, Proceed);
    RunOne(Step(Step(s, t, Proceed), u, Proceed), v, Proceed);
    assert first + (second + third) == [(t, Proceed), (u, Proceed), (v, Proceed)];
  }

  // ---------- The exact condition ----------

  // In all runs of all numbers of threads no two threads are on one element, exactly for powers of two.
  lemma {:induction false} ExclusiveIffPow2<T(!new)>(max: nat, x: T)
    requires max >= 2
    ensures (forall n: nat, schedule: seq<(nat, Action<T>)>, t: nat, u: nat | t < n && u < n && t != u ::
               OnOwnElement(Run(Init<T>(max, n), schedule), t, u)) <==> IsPow2(max)
  {
    if IsPow2(max) {
      forall n: nat, schedule: seq<(nat, Action<T>)>, t: nat, u: nat | t < n && u < n && t != u
        ensures OnOwnElement(Run(Init<T>(max, n), schedule), t, u)
      {
        ElementsAreExclusive(max, n, schedule, t, u);
      }
    } else {
      var schedule := Collide(max, x, x);
      assert !OnOwnElement(Run(Init<T>(max, 2), schedule), 0, 1);
    }
  }

  // In all runs every pop returns the item pushed under its ticket, exactly for powers of two.
  lemma {:induction false} FirstInFirstOutIffPow2<T(!new)>(max: nat, x: T, y: T)
    requires max >= 2 && x != y
    ensures (forall n: nat, schedule: seq<(nat, Action<T>)> :: InOrder(Run(Init<T>(max, n), schedule))) <==> IsPow2(max)
  {
    if IsPow2(max) {
      forall n: nat, schedule: seq<(nat, Action<T>)> ensures InOrder(Run(Init<T>(max, n), schedule)) {
        FirstInFirstOut(max, n, schedule);
      }
    } else {
      var schedule := LoseItem(max, x, y);
      assert 0 in Run(Init<T>(max, 2), schedule).popped;
      assert !InOrder(Run(Init<T>(max, 2), schedule));
    }
  }

  // The default size is no power of two: one push is accepted and its item lost, another's popped for it.
  lemma DefaultSizeLosesItem<T>(x: T, y: T) returns (schedule: seq<(nat, Action<T>)>)
    ensures var s := Run(Init<T>(DEFAULT_SIZE, 2), schedule);
            |s.pushed| > 0 && s.pushed[0] == x && s.popped == map[0 := y]
  {
    DefaultSizeIsOdd();
    schedule := LoseItem(DEFAULT_SIZE, x, y);
  }
}
