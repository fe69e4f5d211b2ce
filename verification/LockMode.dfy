// The ring's lock mode, one call at a time under the mutex, and its relation to the
// compare-and-swap mode and to a plain bounded queue.
module LockMode {
  import opened Wrappers
  import opened Bits
  import opened TurnRing
  import opened TurnGuarantees
  import opened TurnProgress

  // The fields both modes use.
  datatype Core<T> = Core(max: nat, writeIndex: nat, readIndex: nat, elem: seq<Option<T>>)

  datatype Call<T> = Push(item: T) | Pop

  ghost predicate CoreShaped<T>(c: Core<T>) { c.max > 0 && |c.elem| == c.max }

  function PushLock<T>(c: Core<T>, x: T): (Core<T>, Outcome<T>)
    requires CoreShaped(c)
  {
    if IsFull(c.writeIndex, c.readIndex, c.max) then (c, Pushed(false))
    else
      var i := TransIndex(c.writeIndex, c.max);
      (c.(elem := c.elem[i := Some(x)], writeIndex := c.writeIndex + 1), Pushed(true))
  }

  function PopLock<T>(c: Core<T>): (Core<T>, Outcome<T>)
    requires CoreShaped(c)
  {
    if IsEmpty(c.writeIndex, c.readIndex) then (c, Popped(None))
    else
      var i := TransIndex(c.readIndex, c.max);
      (c.(elem := c.elem[i := None], readIndex := c.readIndex + 1), Popped(c.elem[i]))
  }

  function LockCall<T>(c: Core<T>, call: Call<T>): (Core<T>, Outcome<T>)
    requires CoreShaped(c)
  {
    match call
    case Push(x) => PushLock(c, x)
    case Pop => PopLock(c)
  }

  function LockAnswers<T>(c: Core<T>, calls: seq<Call<T>>): (r: seq<Outcome<T>>)
    requires CoreShaped(c)
    decreases |calls|
  {
    if calls == [] then [] else
      var (c', o) := LockCall(c, calls[0]);
      [o] + LockAnswers(c', calls[1..])
  }

  function EmptyCore<T>(max: nat): Core<T>
  {
    Core(max, 0, 0, seq(max, _ => None))
  }

  // ---------- A bounded queue ----------

  function FifoCall<T>(max: nat, q: seq<T>, call: Call<T>): (seq<T>, Outcome<T>)
  {
    match call
    case Push(x) => if |q| >= max then (q, Pushed(false)) else (q + [x], Pushed(true))
    case Pop => if q == [] then (q, Popped(None)) else (q[1..], Popped(Some(q[0])))
  }

  function FifoAnswers<T>(max: nat, q: seq<T>, calls: seq<Call<T>>): seq<Outcome<T>>
    decreases |calls|
  {
    if calls == [] then [] else
      var (q', o) := FifoCall(max, q, calls[0]);
      [o] + FifoAnswers(max, q', calls[1..])
  }

  // The elements between the two indices are the queue.
  ghost predicate Holds<T>(c: Core<T>, q: seq<T>)
  {
    && CoreShaped(c)
    && c.readIndex + |q| == c.writeIndex && |q| <= c.max
    && forall j | 0 <= j < |q| :: c.elem[TransIndex(c.readIndex + j, c.max)] == Some(q[j])
  }

  lemma LockCallIsFifo<T>(c: Core<T>, q: seq<T>, call: Call<T>)
    requires Holds(c, q) && IsPow2(c.max)
    ensures LockCall(c, call).1 == FifoCall(c.max, q, call).1
    ensures Holds(LockCall(c, call).0, FifoCall(c.max, q, call).0)
    ensures LockCall(c, call).0.max == c.max
  {
    hide TransIndex;
    var c', q' := LockCall(c, call).0, FifoCall(c.max, q, call).0;
    forall j | 0 <= j < |q'| ensures c'.elem[TransIndex(c'.readIndex + j, c.max)] == Some(q'[j]) {
      var k := c'.readIndex + j;
      if call.Push? && |q| < c.max {
        if k < c.writeIndex { Distinct(k, c.writeIndex, c.max); }
      } else if call.Pop? && q != [] {
        assert c.elem[TransIndex(c.readIndex + (j + 1), c.max)] == Some(q[j + 1]);
        Distinct(c.readIndex, k, c.max);
      }
    }
    if call.Pop? && q != [] { assert c.elem[TransIndex(c.readIndex + 0, c.max)] == Some(q[0]); }
  }

  // Whatever the size, a push is accepted exactly while fewer than `max` are in, and its item is then the
  // one a pop of the same ticket finds unless a later push has used the slot; a pop takes the next ticket.
  lemma {:induction false} LockCallCounts<T>(c: Core<T>, x: T)
    requires CoreShaped(c) && c.readIndex <= c.writeIndex <= c.readIndex + c.max
    ensures var (d, o) := LockCall(c, Push(x));
            && CoreShaped(d) && d.readIndex == c.readIndex <= d.writeIndex <= d.readIndex + d.max == c.readIndex + c.max
            && (o == Pushed(true) <==> c.writeIndex < c.readIndex + c.max)
            && (o == Pushed(true) ==>
                  && d.writeIndex == c.writeIndex + 1 && d.elem[TransIndex(c.writeIndex, c.max)] == Some(x)
                  && forall i | 0 <= i < c.max && i != TransIndex(c.writeIndex, c.max) :: d.elem[i] == c.elem[i])
            && (o != Pushed(true) ==> o == Pushed(false) && d == c)
    ensures var (d, o) := LockCall(c, Pop);
            && CoreShaped(d) && d.writeIndex == c.writeIndex && d.readIndex <= d.writeIndex <= d.readIndex + d.max
            && (c.readIndex == c.writeIndex ==> o == Popped(None) && d == c)
            && (c.readIndex < c.writeIndex ==>
                  && d.readIndex == c.readIndex + 1 && o == Popped(c.elem[TransIndex(c.readIndex, c.max)])
                  && forall i | 0 <= i < c.max && i != TransIndex(c.readIndex, c.max) :: d.elem[i] == c.elem[i])
  {
    hide TransIndex;
  }

  lemma Distinct(a: nat, b: nat, max: nat)
    requires max > 0 && IsPow2(max) && a < b < a + max
    ensures TransIndex(a, max) != TransIndex(b, max)
  {
    if TransIndex(a, max) == TransIndex(b, max) { IndexApart(a, b, max); }
  }

  lemma {:induction false} LockIsFifo<T>(c: Core<T>, q: seq<T>, calls: seq<Call<T>>)
    requires Holds(c, q) && IsPow2(c.max)
    ensures LockAnswers(c, calls) == FifoAnswers(c.max, q, calls)
    decreases |calls|
  {
    if calls != [] {
      LockCallIsFifo(c, q, calls[0]);
      LockIsFifo(LockCall(c, calls[0]).0, FifoCall(c.max, q, calls[0]).0, calls[1..]);
    }
  }

  // For another size: `b` pushes of `x`, a push of `y` that lands on the first element, and a pop.
  function Pushes<T>(n: nat, x: T, rest: seq<Call<T>>): seq<Call<T>>
  {
    if n == 0 then rest else [Push(x)] + Pushes(n - 1, x, rest)
  }

  lemma {:induction false} Overwritten<T>(c: Core<T>, q: seq<T>, n: nat, x: T, y: T)
    requires CoreShaped(c) && c.max >= 2 && c.readIndex == 0 && |q| == c.writeIndex && x != y
    requires c.writeIndex + n == LowestZero(c.max - 1) < c.max
    requires (c.writeIndex == 0 && n > 0) || (c.writeIndex > 0 && q[0] == x)
    ensures LockAnswers(c, Pushes(n, x, [Push(y), Pop])) != FifoAnswers(c.max, q, Pushes(n, x, [Push(y), Pop]))
    decreases n
  {
    var calls := Pushes(n, x, [Push(y), Pop]);
    if n == 0 {
      MaskAtZero(c.max - 1);
      var c1, q1 := PushLock(c, y).0, q + [y];
      assert TransIndex(0, c.max) == 0;
      assert PopLock(c1).1 == Popped(Some(y));
      assert FifoCall(c.max, q1, Pop).1 == Popped(Some(x));
      assert calls[1..] == [Pop];
      assert LockAnswers(c, calls) == [Pushed(true)] + LockAnswers(c1, [Pop]);
      assert LockAnswers(c1, [Pop])[0] == Popped(Some(y));
      assert FifoAnswers(c.max, q, calls) == [Pushed(true)] + FifoAnswers(c.max, q1, [Pop]);
      assert FifoAnswers(c.max, q1, [Pop])[0] == Popped(Some(x));
    } else {
      assert calls[1..] == Pushes(n - 1, x, [Push(y), Pop]);
      var c1, q1 := PushLock(c, x).0, q + [x];
      Overwritten(c1, q1, n - 1, x, y);
      assert LockAnswers(c, calls)[1..] == LockAnswers(c1, calls[1..]);
      assert FifoAnswers(c.max, q, calls)[1..] == FifoAnswers(c.max, q1, calls[1..]);
    }
  }

  // Lock mode answers every sequence of calls like a bounded queue exactly when the size is a
  // power of two.
  lemma {:induction false} LockModeIsFifoIffPow2<T(!new)>(max: nat, x: T, y: T)
    requires max >= 2 && x != y
    ensures (forall calls: seq<Call<T>> :: LockAnswers(EmptyCore(max), calls) == FifoAnswers(max, [], calls)) <==>
            IsPow2(max)
  {
    if IsPow2(max) {
      forall calls: seq<Call<T>> ensures LockAnswers(EmptyCore(max), calls) == FifoAnswers(max, [], calls) {
        LockIsFifo(EmptyCore(max), [], calls);
      }
    } else {
      LowestZeroInside(max - 1);
      Overwritten(EmptyCore(max), [], LowestZero(max - 1), x, y);
    }
  }

  // ---------- One caller at a time, the two modes agree ----------

  function CoreOf<T>(s: Ring<T>): Core<T> { Core(s.max, s.writeIndex, s.readIndex, s.elem) }

  function CallSteps<T>(t: nat, call: Call<T>): seq<(nat, Action<T>)>
  {
    match call
    case Push(x) => PushCall(t, x)
    case Pop => PopCall(t)
  }

  // With every ticket finished, the tags of both ends are in place.
  lemma SettledTags<T>(s: Ring<T>)
    requires Inv(s) && Settled(s)
    ensures var i := TransIndex(s.writeIndex, s.max);
            s.writeIndex < s.readIndex + s.max ==> s.tag[i] == PushAwaits(s.writeIndex, s.max)
    ensures var i := TransIndex(s.readIndex, s.max);
            s.readIndex < s.writeIndex ==> s.tag[i] == s.readIndex + 1 && s.elem[i] == Some(s.pushed[s.readIndex])
  {
    hide TransIndex;
    var w, r := s.writeIndex, s.readIndex;
    if w < r + s.max {
      var i := TransIndex(w, s.max);
      var a := s.tag[i];
      assert SlotOk(s, i);
      if a > 0 { IndexApart(a - 1, w, s.max); }
      if a < 0 { IndexApart(-a - 1, w, s.max); }
      if w >= s.max { IndexShift(w - s.max, s.max); assert TicketOk(s, w - s.max); }
    }
    if r < w {
      var i := TransIndex(r, s.max);
      assert SlotOk(s, i) && TicketOk(s, r);
      if s.tag[i] > 0 { IndexApart(s.tag[i] - 1, r, s.max); }
    }
  }

  lemma {:induction false} AloneAgrees<T>(s: Ring<T>, t: nat, call: Call<T>)
    requires Inv(s) && Settled(s) && t < |s.threads| && s.threads[t].Idle?
    ensures var r := Run(s, CallSteps(t, call));
            && Inv(r) && Settled(r)
            && CoreOf(r) == LockCall(CoreOf(s), call).0
            && r.threads == s.threads[t := Idle(LockCall(CoreOf(s), call).1)]
  {
    hide Run, TransIndex, PushAwaits, PushCall, PopCall;
    RunInv(s, CallSteps(t, call));
    SettledTags(s);
    match call
    case Push(x) => if IsFull(s.writeIndex, s.readIndex, s.max) { SoloPushFull(s, t, x); } else { SoloPush(s, t, x); }
    case Pop => if IsEmpty(s.writeIndex, s.readIndex) { SoloPopEmpty(s, t); } else { SoloPop(s, t); }
  }

  ghost predicate CalledBy<T>(calls: seq<(nat, Call<T>)>, n: nat)
  {
    forall i | 0 <= i < |calls| :: calls[i].0 < n
  }

  // What each call answers when calls, by whatever threads, run one after the other; a call that
  // does not return has no answer.
  ghost function AloneAnswers<T>(s: Ring<T>, calls: seq<(nat, Call<T>)>): seq<Outcome<T>>
    requires Shaped(s) && CalledBy(calls, |s.threads|)
    decreases |calls|
  {
    if calls == [] then [] else
      var (t, call) := calls[0];
      assert t < |s.threads|;
      var r := Run(s, CallSteps(t, call));
      [if r.threads[t].Idle? then r.threads[t].last else NoCall] + AloneAnswers(r, calls[1..])
  }

  function CallsOf<T>(calls: seq<(nat, Call<T>)>): seq<Call<T>>
  {
    if calls == [] then [] else [calls[0].1] + CallsOf(calls[1..])
  }

  lemma InvShaped<T>(s: Ring<T>)
    requires Inv(s)
    ensures Shaped(s) && IsPow2(s.max)
  {
  }

  lemma {:induction false} AloneAnswersAgree<T>(s: Ring<T>, q: seq<T>, calls: seq<(nat, Call<T>)>)
    requires Inv(s) && (forall t | 0 <= t < |s.threads| :: s.threads[t].Idle?)
    requires CalledBy(calls, |s.threads|)
    requires Holds(CoreOf(s), q)
    ensures AloneAnswers(s, calls) == FifoAnswers(s.max, q, CallsOf(calls))
    decreases |calls|
  {
    hide Inv, TransIndex, Run, CallSteps, PushLock, PopLock, Holds;
    if calls != [] {
      var (t, call) := calls[0];
      assert t < |s.threads|;
      InvShaped(s);
      AloneAgrees(s, t, call);
      LockCallIsFifo(CoreOf(s), q, call);
      AloneAnswersAgree(Run(s, CallSteps(t, call)), FifoCall(s.max, q, call).0, calls[1..]);
    }
  }

  // Calls that do not overlap, by whatever threads, get in compare-and-swap mode the answers of a
  // bounded queue, none of them spinning, exactly when the size is a power of two.
  lemma {:induction false} AloneIsFifoIffPow2<T(!new)>(max: nat, x: T)
    requires max >= 2
    ensures (forall n: nat, calls: seq<(nat, Call<T>)> | CalledBy(calls, n) ::
               AloneAnswers(Init<T>(max, n), calls) == FifoAnswers(max, [], CallsOf(calls))) <==> IsPow2(max)
  {
    if IsPow2(max) {
      forall n: nat, calls: seq<(nat, Call<T>)> | CalledBy(calls, n)
        ensures AloneAnswers(Init<T>(max, n), calls) == FifoAnswers(max, [], CallsOf(calls))
      {
        InitInv<T>(max, n);
        AloneAnswersAgree(Init<T>(max, n), [], calls);
      }
    } else {
      LowestZeroInside(max - 1);
      var b := LowestZero(max - 1);
      NoAnswer(Init<T>(max, 1), max, 0, [], x);
      assert CalledBy(PushesBy0(b + 1, x), 1);
    }
  }

  function PushesBy0<T>(n: nat, x: T): (r: seq<(nat, Call<T>)>)
    ensures |r| == n && forall i | 0 <= i < n :: r[i].0 == 0
  {
    if n == 0 then [] else [(0, Push(x))] + PushesBy0(n - 1, x)
  }

  // The push that maps to slot 0 again does not return.
  lemma {:induction false} NoAnswer<T>(s: Ring<T>, max: nat, j: nat, q: seq<T>, x: T)
    requires Filled(s, max, 1, j) && j <= LowestZero(max - 1) < max && |q| == j
    ensures var calls := PushesBy0(LowestZero(max - 1) + 1 - j, x);
            AloneAnswers(s, calls) != FifoAnswers(max, q, CallsOf(calls))
    decreases LowestZero(max - 1) - j
  {
    hide Run, ClaimCall, PushCall, TransIndex;
    var b := LowestZero(max - 1);
    var calls := PushesBy0(b + 1 - j, x);
    var r := Run(s, CallSteps(0, Push(x)));
    assert calls[0] == (0, Push(x)) && calls[1..] == PushesBy0(b - j, x);
    if j == b {
      PushDoesNotReturn(s, max, x);
      assert AloneAnswers(s, calls)[0] == NoCall;
      assert FifoAnswers(max, q, CallsOf(calls))[0] == Pushed(true);
    } else {
      FilledNext(s, max, j, x);
      NoAnswer(r, max, j + 1, q + [x], x);
      assert AloneAnswers(s, calls)[1..] == AloneAnswers(r, calls[1..]);
      assert FifoAnswers(max, q, CallsOf(calls))[1..] == FifoAnswers(max, q + [x], CallsOf(calls[1..]));
    }
  }

  lemma {:induction false} FilledNext<T>(s: Ring<T>, max: nat, j: nat, x: T)
    requires Filled(s, max, 1, j) && j < LowestZero(max - 1) < max
    ensures Filled(Run(s, PushCall(0, x)), max, 1, j + 1)
  {
    hide Run, PushCall;
    MaskBelow(j, max - 1);
    SoloPush(s, 0, x);
  }

  lemma {:induction false} PushDoesNotReturn<T>(s: Ring<T>, max: nat, x: T)
    requires max > 0 && Filled(s, max, 1, LowestZero(max - 1)) && LowestZero(max - 1) < max
    ensures Run(s, PushCall(0, x)).threads[0].PushWait?
  {
    hide Run, ClaimCall;
    var b := LowestZero(max - 1);
    MaskAtZero(max - 1);
    SoloClaimPush(s, 0, x);
    RunConcat(s, ClaimCall(0, CallPush(x)), Own(0, 3));
    HungForEver(Run(s, ClaimCall(0, CallPush(x))), 0, b, Own(0, 3));
  }
}
