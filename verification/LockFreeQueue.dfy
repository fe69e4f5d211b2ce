// The queue object itself: 64-bit counters, arrays of stamps and cells updated in place.
// Between two accesses of one operation any other thread may take any number of steps.
module LockFreeQueue {
  import opened Wrappers
  import opened Bits
  import opened Claims
  import opened Interference
  import opened Slots
  import opened TicketCalls
  import opened TicketGuarantees
  import opened TicketRing
  import opened WordOrder
  import opened WordRing

  // `rounded` is the least power of two that holds `capacity` elements.
  ghost predicate LeastPow2AtLeast(capacity: nat, rounded: nat)
  {
    && IsPow2(rounded) && capacity <= rounded
    && forall p: nat :: capacity <= Pow2(p) ==> rounded <= Pow2(p)
  }

  // The capacity rounded up by smearing the top bit of capacity - 1 to the right.
  // It overflows to 0 exactly for a capacity of 0 or above 2^63.
  method RoundUp(capacity: Word) returns (mask: Word, rounded: Word)
    ensures rounded == 0 <==> capacity == 0 || capacity > 0x8000_0000_0000_0000
    ensures rounded == 0 ==> mask == WORD - 1
    ensures rounded != 0 ==> mask == rounded - 1 && GoodCapacity(rounded) && LeastPow2AtLeast(capacity, rounded)
  {
    hide Pow2, Width, IsPow2, Smeared, LeastPow2AtLeast;
    mask := (capacity - 1) % WORD;
    ghost var x, w := mask, Width(mask);
    RoundedIsLeast(capacity, x, w);
    SmearStarts(x);
    var i := 1;
    while i <= 32
      invariant i == 1 || i == 2 || i == 4 || i == 8 || i == 16 || i == 32 || i == 64
      invariant Smeared(mask, w, i)
      decreases 64 - i
    {
      mask := SmearStep(mask, i, w);
      i := i * 2;
    }
    SmearedFully(mask, w);
    rounded := (mask + 1) % WORD;
  }

  method SmearStep(m: Word, i: nat, ghost w: nat) returns (r: Word)
    requires Smeared(m, w, i)
    ensures Smeared(r, w, 2 * i)
  {
    WordIsPow2();
    ShrShrinks(m, i);
    OrFits(m, Shr(m, i), 64);
    SmearDoubles(m, w, i);
    r := Or(m, Shr(m, i));
  }

  lemma SmearedFully(m: nat, w: nat)
    requires Smeared(m, w, 64) && w <= 64
    ensures m == Pow2(w) - 1
  {
    forall j: nat ensures Bit(m, j) == if j < w then 1 else 0 {
    }
    OnesAre(m, w);
  }

  // Nothing above bit `w`, and the top `i` of the bits below it set.
  ghost predicate Smeared(m: nat, w: nat, i: nat)
  {
    forall j: nat :: (j >= w ==> Bit(m, j) == 0) && (w - i <= j < w ==> Bit(m, j) == 1)
  }

  lemma SmearStarts(x: nat)
    ensures Smeared(x, Width(x), 1)
  {
    forall j: nat
      ensures (j >= Width(x) ==> Bit(x, j) == 0) && (Width(x) - 1 <= j < Width(x) ==> Bit(x, j) == 1)
    {
      if j >= Width(x) { BitsAboveWidth(x, j); } else if j == Width(x) - 1 { TopBit(x); }
    }
  }

  lemma SmearDoubles(m: nat, w: nat, i: nat)
    requires Smeared(m, w, i)
    ensures Smeared(Or(m, Shr(m, i)), w, 2 * i)
  {
    forall j: nat
      ensures (j >= w ==> Bit(Or(m, Shr(m, i)), j) == 0) && (w - 2 * i <= j < w ==> Bit(Or(m, Shr(m, i)), j) == 1)
    {
      OrBit(m, Shr(m, i), j);
      ShrBit(m, i, j);
      assert i + j >= w ==> Bit(m, i + j) == 0;
      assert w - i <= i + j < w ==> Bit(m, i + j) == 1;
    }
  }

  lemma RoundedIsLeast(capacity: Word, x: nat, w: nat)
    requires x == (capacity - 1) % WORD && w == Width(x)
    ensures w <= 64
    ensures capacity == 0 || capacity > 0x8000_0000_0000_0000 ==> Pow2(w) == WORD
    ensures 0 < capacity <= 0x8000_0000_0000_0000 ==>
              Pow2(w) < WORD && GoodCapacity(Pow2(w)) && LeastPow2AtLeast(capacity, Pow2(w))
  {
    hide Pow2, Width;
    WordIsPow2();
    WidthAtMost(x, 64);
    WidthAtMost(x, 63);
    WidthBounds(x);
    if w < 64 {
      Pow2Monotone(w, 63);
      forall p: nat | capacity <= Pow2(p) ensures Pow2(w) <= Pow2(p) {
        WidthAtMost(x, p);
        if w <= p { Pow2Monotone(w, p); }
      }
    }
  }

  // What happens before one access of an operation: steps of the other threads, and
  // whether the access, if it is a weak compare-and-swap, fails spuriously.
  datatype Gap<T> = Gap(others: seq<(nat, Action<T>)>, fails: bool)

  function MovesOf<T>(gaps: seq<Gap<T>>): (r: seq<seq<(nat, Action<T>)>>)
    ensures |r| == |gaps| && forall i | 0 <= i < |gaps| :: r[i] == gaps[i].others
  {
    seq(|gaps|, i requires 0 <= i < |gaps| => gaps[i].others)
  }

  // A bound on the steps taken during the gaps from `g` on, two of the operation's own included.
  ghost function Cost<T>(gaps: seq<Gap<T>>, g: nat): nat
    decreases |gaps| - g
  {
    if g >= |gaps| then 0 else |gaps[g].others| + 2 + Cost(gaps, g + 1)
  }

  // After any `steps` further steps no thread's copy of a counter is 2^64 tickets old.
  ghost predicate Slack<T>(s: Ring<T>, steps: int)
  {
    forall t | 0 <= t < |s.threads| :: Lag(s, s.threads[t]) + steps < WORD
  }

  lemma SlackLess<T>(s: Ring<T>, more: int, less: int)
    requires Slack(s, more) && less <= more
    ensures Slack(s, less)
  {
  }

  lemma CountersMove<T>(s: Ring<T>, t: nat, a: Action<T>)
    requires Shaped(s)
    ensures var r := LooseStep(s, t, a); s.tail <= r.tail <= s.tail + 1 && s.head <= r.head <= s.head + 1
  {
  }

  lemma OthersStay<T>(s: Ring<T>, t: nat, a: Action<T>, u: nat)
    requires Shaped(s) && u < |s.threads| && u != t
    ensures LooseStep(s, t, a).threads[u] == s.threads[u]
  {
  }

  lemma OwnLag<T>(s: Ring<T>, t: nat, a: Action<T>)
    requires Shaped(s) && t < |s.threads|
    ensures var r := LooseStep(s, t, a); Lag(r, r.threads[t]) <= 0 || Lag(r, r.threads[t]) == Lag(s, s.threads[t])
  {
    hide LooseStep;
    var p := s.threads[t];
    if p.TestTail? || p.TestHead? {
      LagAtTest(s, t, a);
    } else if p.CasTail? || p.CasHead? {
      LagAtCas(s, t, a);
    } else if p.Owns() {
      LagOfOwner(s, t, a);
    } else {
      LagElsewhere(s, t, a);
    }
  }

  lemma {:induction false} LagAtTest<T>(s: Ring<T>, t: nat, a: Action<T>)
    requires Shaped(s) && t < |s.threads| && (s.threads[t].TestTail? || s.threads[t].TestHead?)
    ensures var r := LooseStep(s, t, a); Lag(r, r.threads[t]) <= 0 || Lag(r, r.threads[t]) == Lag(s, s.threads[t])
  {
    if s.threads[t].TestTail? {
    } else {
    }
  }

  lemma {:induction false} LagAtCas<T>(s: Ring<T>, t: nat, a: Action<T>)
    requires Shaped(s) && t < |s.threads| && (s.threads[t].CasTail? || s.threads[t].CasHead?)
    ensures var r := LooseStep(s, t, a); Lag(r, r.threads[t]) <= 0
  {
    if s.threads[t].CasTail? {
    } else {
    }
  }

  lemma {:induction false} LagElsewhere<T>(s: Ring<T>, t: nat, a: Action<T>)
    requires Shaped(s) && t < |s.threads|
    requires var p := s.threads[t]; p.Idle? || p.LoadTail? || p.LoadHead?
    ensures var r := LooseStep(s, t, a); Lag(r, r.threads[t]) <= 0
  {
    hide Slot, StepConstruct, StepPublish, StepReadItem, StepDestroy, StepRelease, StepCasTail, StepCasHead;
    if s.threads[t].Idle? {
    } else if s.threads[t].LoadTail? {
    } else {
    }
  }

  lemma {:induction false} LagOfOwner<T>(s: Ring<T>, t: nat, a: Action<T>)
    requires Shaped(s) && t < |s.threads| && s.threads[t].Owns()
    ensures var p := LooseStep(s, t, a).threads[t]; !p.TestTail? && !p.TestHead? && !p.CasTail? && !p.CasHead?
  {
    hide Slot, StepCasTail, StepCasHead;
    var p := s.threads[t];
    if p.Construct? {
    } else if p.Publish? {
    } else if p.ReadItem? {
    } else if p.Destroy? {
    } else {
    }
  }

  // Only a compare-and-swap and an idle thread look at the action.
  lemma ActionMatters<T>(s: Ring<T>, t: nat, a: Action<T>)
    requires Shaped(s) && t < |s.threads| && !s.threads[t].Idle?
    ensures s.threads[t].CasTail? || s.threads[t].CasHead? ==>
              LooseStep(s, t, a) == LooseStep(s, t, if a.FailSpuriously? then FailSpuriously else Proceed)
    ensures !s.threads[t].CasTail? && !s.threads[t].CasHead? ==> LooseStep(s, t, a) == LooseStep(s, t, Proceed)
  {
  }

  lemma LagIsNatural<T>(s: Ring<T>, t: nat)
    requires Inv(s) && t < |s.threads|
    ensures Lag(s, s.threads[t]) >= 0
  {
    assert ThreadOk(s, t);
  }

  lemma StepSlack<T>(s: Ring<T>, t: nat, a: Action<T>, steps: nat)
    requires Inv(s) && Slack(s, steps + 1)
    ensures Slack(LooseStep(s, t, a), steps)
  {
    var r := LooseStep(s, t, a);
    CountersMove(s, t, a);
    forall u | 0 <= u < |r.threads| ensures Lag(r, r.threads[u]) + steps < WORD {
      LagIsNatural(s, u);
      if u == t { OwnLag(s, t, a); } else { OthersStay(s, t, a, u); }
    }
  }

  function LedgerOf<T>(s: Ring<T>): Ledger<T> { Ledger(s.pushed, s.pushers, s.poppers) }

  // From `s` to `r` by some schedule that claims no ticket for `t`.
  ghost predicate Since<T(!new)>(s: Ring<T>, r: Ring<T>, t: nat)
  {
    Follows(s, r) && Untouched(LedgerOf(s), LedgerOf(r), t)
  }

  ghost predicate Follows<T(!new)>(s: Ring<T>, r: Ring<T>)
  {
    Shaped(s) && exists schedule :: r == LooseRun(s, schedule)
  }

  lemma FollowsTransitive<T(!new)>(s: Ring<T>, m: Ring<T>, r: Ring<T>)
    requires Follows(s, m) && Follows(m, r)
    ensures Follows(s, r)
  {
    var a :| m == LooseRun(s, a);
    var b :| r == LooseRun(m, b);
    LooseConcat(s, a, b);
  }

  lemma FollowsStep<T(!new)>(s: Ring<T>, t: nat, a: Action<T>)
    requires Shaped(s)
    ensures Follows(s, LooseStep(s, t, a)) && Follows(s, s)
  {
    assert LooseRun(s, []) == s;
    var one := [(t, a)];
    assert LooseRun(LooseStep(s, t, a), one[1..]) == LooseRun(s, one);
  }

  lemma SinceTransitive<T(!new)>(s: Ring<T>, m: Ring<T>, r: Ring<T>, t: nat)
    requires Since(s, m, t) && Since(m, r, t)
    ensures Since(s, r, t)
  {
    hide Follows, Untouched;
    UntouchedTransitive(LedgerOf(s), LedgerOf(m), LedgerOf(r), t);
    FollowsTransitive(s, m, r);
  }

  predicate WinsTicket<T>(s: Ring<T>, u: nat, a: Action<T>)
  {
    u < |s.threads| && !a.FailSpuriously? &&
    var p := s.threads[u];
    (p.CasTail? && p.ticket == s.tail) || (p.CasHead? && p.ticket == s.head)
  }

  lemma SinceMeans<T(!new)>(s: Ring<T>, r: Ring<T>, t: nat)
    requires Since(s, r, t)
    ensures Follows(s, r) && Untouched(LedgerOf(s), LedgerOf(r), t)
    ensures s.pushed <= r.pushed && ClaimsNothing(s.pushers, r.pushers, t) && ClaimsNothing(s.poppers, r.poppers, t)
    ensures LedgerOf(s) == Ledger(s.pushed, s.pushers, s.poppers)
            && LedgerOf(r) == Ledger(r.pushed, r.pushers, r.poppers)
  {
  }

  lemma SinceSelf<T(!new)>(s: Ring<T>, t: nat)
    requires Inv(s)
    ensures Since(s, s, t)
  {
    FollowsStep(s, t, Proceed);
  }

  lemma SinceStep<T(!new)>(s: Ring<T>, u: nat, a: Action<T>, t: nat)
    requires Inv(s) && (u != t || !WinsTicket(s, u, a))
    ensures Since(s, LooseStep(s, u, a), t)
  {
    hide LooseStep, SlotOk, ThreadOk, TicketOk, Follows;
    StepClaims(s, u, a);
    FollowsStep(s, u, a);
  }

  lemma {:induction false} StepClaims<T>(s: Ring<T>, u: nat, a: Action<T>)
    requires Shaped(s)
    ensures var r := LooseStep(s, u, a);
            && s.pushed <= r.pushed
            && (r.pushers == s.pushers || (WinsTicket(s, u, a) && r.pushers == s.pushers + [u]))
            && (r.poppers == s.poppers || (WinsTicket(s, u, a) && r.poppers == s.poppers + [u]))
  {
    hide Slot;
    if u < |s.threads| {
      var p := s.threads[u];
      if p.CasTail? {
      } else if p.CasHead? {
      } else if p.TestTail? || p.TestHead? {
      } else if p.Owns() {
      } else {
      }
    }
  }

  // Everything one access needs and keeps.
  lemma AccessKeeps<T(!new)>(s: Ring<T>, t: nat, a: Action<T>, steps: nat)
    requires Inv(s) && GoodCapacity(s.capacity) && t < |s.threads| && Slack(s, steps + 1)
    ensures var r := LooseStep(s, t, a);
            && Inv(r) && Slack(r, steps) && Follows(s, r)
            && Wrap(r) == WordStep(Wrap(s), t, a)
            && (!WinsTicket(s, t, a) ==> Since(s, r, t))
            && (WinsTicket(s, t, a) ==>
                  if s.threads[t].CasTail? then
                    && |s.pushed| == |s.pushers| && r.threads[t] == Construct(s.threads[t].item, |s.pushers|) &&
                    r.pushers == s.pushers + [t] && r.pushed == s.pushed + [s.threads[t].item] && r.poppers == s.poppers
                  else
                    && r.threads[t] == ReadItem(|s.poppers|) &&
                    r.poppers == s.poppers + [t] && r.pushed == s.pushed && r.pushers == s.pushers)
  {
    LooseAgrees(s, t, a);
    LooseInv(s, t, a);
    StepSlack(s, t, a, steps);
    FollowsStep(s, t, a);
    if !WinsTicket(s, t, a) { SinceStep(s, t, a, t); }
  }

  // A pop that completes returns the item pushed under its ticket.
  lemma Returned<T>(s: Ring<T>, t: nat)
    requires Inv(s) && t < |s.threads| && s.threads[t].Release?
    ensures var (r, k) := (LooseStep(s, t, Proceed), s.threads[t].ticket);
            k < |r.pushed| && k in r.popped && r.popped[k] == r.pushed[k] == s.threads[t].item
  {
    assert ThreadOk(s, t);
  }

  // Both compare-and-swaps see the unbounded counter.
  lemma CasSeesTicket<T>(s: Ring<T>, t: nat, steps: nat)
    requires Inv(s) && GoodCapacity(s.capacity) && t < |s.threads| && Slack(s, steps)
    requires s.threads[t].CasTail? || s.threads[t].CasHead?
    ensures s.threads[t].CasTail? ==>
              (AsWord(s.tail) == Wrap(s).threads[t].ticket <==> s.tail == s.threads[t].ticket)
    ensures s.threads[t].CasHead? ==>
              (AsWord(s.head) == Wrap(s).threads[t].ticket <==> s.head == s.threads[t].ticket)
  {
    CasAgrees(s, t);
  }

  // Between `s` and `r` thread `t` tested a stamp for a ticket it had read since `s`, and found the ring
  // full, or empty, there.
  ghost predicate SawFull<T(!new)>(s: Ring<T>, r: Ring<T>, t: nat, item: T)
  {
    exists m: Ring<T>, k: nat :: Follows(s, m) && Follows(m, r) && FindsFull(m, t, item, s.tail, k)
  }

  ghost predicate SawEmpty<T(!new)>(s: Ring<T>, r: Ring<T>, t: nat)
  {
    exists m: Ring<T>, k: nat :: Follows(s, m) && Follows(m, r) && FindsEmpty(m, t, s.head, k)
  }

  lemma GoingOn<T>()
    ensures GoesOn<T>(Proceed) && GoesOn<T>(FailSpuriously)
  {
  }

  // The state after part of a run comes between.
  lemma PartWay<T(!new)>(s: Ring<T>, schedule: seq<(nat, Action<T>)>, i: nat)
    requires Shaped(s) && i <= |schedule|
    ensures Follows(s, LooseRun(s, schedule[..i])) && Follows(LooseRun(s, schedule[..i]), LooseRun(s, schedule))
  {
    hide LooseRun, Follows;
    var (a, b) := (schedule[..i], schedule[i..]);
    assert a + b == schedule;
    LooseConcat(s, a, b);
    FollowsRun(s, a);
    FollowsRun(LooseRun(s, a), b);
  }

  lemma FollowsRun<T(!new)>(s: Ring<T>, schedule: seq<(nat, Action<T>)>)
    requires Shaped(s)
    ensures Follows(s, LooseRun(s, schedule))
  {
    hide LooseRun;
  }

  // A push that ran from `s` as its first state and was refused found the ring full on the way.
  lemma {:induction false} RefusedRun<T(!new)>(s: Ring<T>, t: nat, item: T, moves: seq<(nat, Action<T>)>)
    requires Inv(s) && GoodCapacity(s.capacity) && t < |s.threads| && s.threads[t].Idle? && NoCalls(moves, t)
    requires LooseRun(LooseStep(s, t, CallPush(item)), moves).threads[t] == Idle(Pushed(false))
    ensures SawFull(s, LooseRun(LooseStep(s, t, CallPush(item)), moves), t, item)
  {
    hide LooseRun, FindsFull, SlotOk, ThreadOk, TicketOk;
    var s' := LooseStep(s, t, CallPush(item));
    LooseInv(s, t, CallPush(item));
    FollowsStep(s, t, CallPush(item));
    var i, k := RefusedPush(s', t, item, s.tail, moves);
    PartWay(s', moves, i);
    FollowsTransitive(s, s', LooseRun(s', moves[..i]));
  }

  lemma {:induction false} EmptyRun<T(!new)>(s: Ring<T>, t: nat, moves: seq<(nat, Action<T>)>)
    requires Inv(s) && GoodCapacity(s.capacity) && t < |s.threads| && s.threads[t].Idle? && NoCalls(moves, t)
    requires LooseRun(LooseStep(s, t, CallPop), moves).threads[t] == Idle(Popped(None))
    ensures SawEmpty(s, LooseRun(LooseStep(s, t, CallPop), moves), t)
  {
    hide LooseRun, FindsEmpty, SlotOk, ThreadOk, TicketOk;
    var s' := LooseStep(s, t, CallPop);
    LooseInv(s, t, CallPop);
    FollowsStep(s, t, CallPop);
    var i, k := RefusedPop(s', t, s.head, moves);
    PartWay(s', moves, i);
    FollowsTransitive(s, s', LooseRun(s', moves[..i]));
  }

  // A call changes nothing but where its thread is.
  lemma Called<T>(s: Ring<T>, t: nat, a: Action<T>)
    requires Inv(s) && GoodCapacity(s.capacity) && t < |s.threads| && s.threads[t].Idle? && (a.CallPush? || a.CallPop?)
    ensures var s' := LooseStep(s, t, a);
            && Inv(s') && s' == At(s, t, if a.CallPush? then LoadTail(a.item) else LoadHead)
            && (Settled(s) ==> Settled(s'))
  {
    hide SlotOk, ThreadOk, TicketOk;
    LooseInv(s, t, a);
  }

  datatype Verdict = Refused | Won | Retry

  class LockFreeQueueCpp11<T(!new)> {
    const capacityMask: Word
    const capacity: Word
    const tailStamp: array<Word>
    const headStamp: array<Word>
    const data: array<Option<T>>
    var tail: Word
    var head: Word
    var threads: seq<Phase<T>>   // where each thread is, with its locals
    ghost var ring: Ring<T>      // the ring on unbounded tickets, with its histories
    ghost var trace: seq<(nat, Action<T>)>   // every access since the beginning

    ghost function Here(): WordState<T>
      reads this, tailStamp, headStamp, data
    {
      WordState(capacityMask, capacity, tail, head, tailStamp[..], headStamp[..], data[..], threads)
    }

    ghost predicate Valid()
      reads this, tailStamp, headStamp, data
    {
      && tailStamp != headStamp
      && GoodCapacity(capacity)
      && Inv(ring) && ring.capacity == capacity
      && Here() == Wrap(ring)
      && ring == LooseRun(Init<T>(capacity, |threads|), trace)
    }

    // For a request of 0 or above 2^63 the rounding overflows and the queue has no slot at all.
    constructor (requested: Word, n: nat)
      ensures fresh(tailStamp) && fresh(headStamp) && fresh(data)
      ensures tailStamp.Length == headStamp.Length == data.Length == capacity && tail == head == 0
      ensures requested == 0 || requested > 0x8000_0000_0000_0000 ==> capacity == 0 && capacityMask == WORD - 1
      ensures 0 < requested <= 0x8000_0000_0000_0000 ==>
                Valid() && LeastPow2AtLeast(requested, capacity) && ring == Init(capacity, n) && trace == []
    {
      var mask, rounded := RoundUp(requested);
      capacityMask, capacity := mask, rounded;
      var ts, hs := new Word[rounded], new Word[rounded];
      var i := 0;
      while i < rounded
        invariant i <= rounded
        invariant forall j | 0 <= j < i :: ts[j] == j && hs[j] == WORD - 1
      {
        ts[i] := i;
        hs[i] := (-1) % WORD;
        i := i + 1;
      }
      tailStamp, headStamp := ts, hs;
      data := new Option<T>[rounded](_ => None);
      tail, head := 0, 0;
      threads := seq(n, _ => Idle(NoCall));
      ring, trace := Init(if rounded > 0 then rounded else 1, n), [];
      new;
      if capacity > 0 {
        InitInv<T>(capacity, n);
        assert tailStamp[..] == Words(ring.tailStamp);
        assert headStamp[..] == Words(ring.headStamp);
        assert data[..] == ring.cell;
        assert threads == WrapPhases(ring.threads);
      }
    }

    // The next access adds to the trace.
    lemma Traced(t: nat, a: Action<T>)
      requires Valid()
      ensures LooseStep(ring, t, a) == LooseRun(Init<T>(capacity, |threads|), trace + [(t, a)])
    {
      hide LooseStep, Inv;
      LooseConcat(Init<T>(capacity, |threads|), trace, [(t, a)]);
      LooseOne(ring, t, a);
    }

    // ----- The accesses of `push`, each atomic -----

    method LoadTailCounter(t: nat, ghost steps: nat)
      requires Valid() && t < |threads| && threads[t].LoadTail?
      requires Slack(ring, steps + 1)
      modifies this, tailStamp, headStamp, data
      ensures Valid() && ring == LooseStep(old(ring), t, Proceed) && trace == old(trace) + [(t, Proceed)]
      ensures Slack(ring, steps) && |threads| == old(|threads|)
      ensures Since(old(ring), ring, t)
      ensures tail == old(tail) && threads[t] == TestTail(old(threads[t]).item, tail)
    {
      hide Inv, LooseRun, Follows, Since, Slack, LooseStep;
      AccessKeeps(ring, t, Proceed, steps);
      Traced(t, Proceed);
      var p := threads[t];
      threads := threads[t := TestTail(p.item, tail)];
      ring, trace := LooseStep(ring, t, Proceed), trace + [(t, Proceed)];
    }

    method TestTailStamp(t: nat, ghost steps: nat) returns (same: bool)
      requires Valid() && t < |threads| && threads[t].TestTail?
      requires Slack(ring, steps + 1)
      modifies this, tailStamp, headStamp, data
      ensures Valid() && ring == LooseStep(old(ring), t, Proceed) && trace == old(trace) + [(t, Proceed)]
      ensures Slack(ring, steps) && |threads| == old(|threads|)
      ensures Since(old(ring), ring, t)
      ensures threads[t] == if same then CasTail(old(threads[t]).item, old(threads[t]).ticket) else Idle(Pushed(false))
      ensures tail == old(tail)
    {
      hide Inv, LooseRun, Follows, Since, Slack, LooseStep;
      AccessKeeps(ring, t, Proceed, steps);
      Traced(t, Proceed);
      var p := threads[t];
      same := tailStamp[Index(p.ticket, capacityMask)] == p.ticket;
      threads := threads[t := if same then CasTail(p.item, p.ticket) else Idle(Pushed(false))];
      ring, trace := LooseStep(ring, t, Proceed), trace + [(t, Proceed)];
    }

    method CasTailCounter(t: nat, fails: bool, ghost steps: nat) returns (won: bool)
      requires Valid() && t < |threads| && threads[t].CasTail?
      requires Slack(ring, steps + 1)
      modifies this, tailStamp, headStamp, data
      ensures Valid() && ring == LooseStep(old(ring), t, if fails then FailSpuriously else Proceed)
      ensures trace == old(trace) + [(t, if fails then FailSpuriously else Proceed)]
      ensures Slack(ring, steps) && |threads| == old(|threads|)
      ensures !won ==> Since(old(ring), ring, t)
      ensures won ==> ring.pushers == old(ring).pushers + [t] && ring.poppers == old(ring).poppers
                      && ring.pushed == old(ring).pushed + [old(threads[t]).item] && Follows(old(ring), ring)
                      && |old(ring).pushed| == |old(ring).pushers|
                      && ring.threads[t].Construct? && ring.threads[t].ticket == |old(ring).pushers|
      ensures won <==> old(tail) == old(threads[t]).ticket && !fails
      ensures threads[t] == if won then Construct(old(threads[t]).item, old(threads[t]).ticket)
                            else TestTail(old(threads[t]).item, tail)
    {
      hide Inv, LooseRun, Follows, Since, Slack, LooseStep;
      ghost var a: Action<T> := if fails then FailSpuriously else Proceed;
      AccessKeeps(ring, t, a, steps);
      Traced(t, a);
      CasSeesTicket(ring, t, steps + 1);
      var p := threads[t];
      won := tail == p.ticket && !fails;
      if won {
        tail, threads := AsWord(p.ticket + 1), threads[t := Construct(p.item, p.ticket)];
      } else {
        threads := threads[t := TestTail(p.item, tail)];
      }
      ring, trace := LooseStep(ring, t, a), trace + [(t, a)];
    }

    method ConstructItem(t: nat, ghost steps: nat)
      requires Valid() && t < |threads| && threads[t].Construct?
      requires Slack(ring, steps + 1)
      modifies this, tailStamp, headStamp, data
      ensures Valid() && ring == LooseStep(old(ring), t, Proceed) && trace == old(trace) + [(t, Proceed)]
      ensures Slack(ring, steps) && |threads| == old(|threads|)
      ensures Since(old(ring), ring, t)
      ensures threads[t] == Publish(old(threads[t]).item, old(threads[t]).ticket)
    {
      hide Inv, LooseRun, Follows, Since, Slack, LooseStep;
      AccessKeeps(ring, t, Proceed, steps);
      Traced(t, Proceed);
      var p := threads[t];
      data[Index(p.ticket, capacityMask)] := Some(p.item);
      threads := threads[t := Publish(p.item, p.ticket)];
      ring, trace := LooseStep(ring, t, Proceed), trace + [(t, Proceed)];
    }

    method PublishHeadStamp(t: nat, ghost steps: nat)
      requires Valid() && t < |threads| && threads[t].Publish?
      requires Slack(ring, steps + 1)
      modifies this, tailStamp, headStamp, data
      ensures Valid() && ring == LooseStep(old(ring), t, Proceed) && trace == old(trace) + [(t, Proceed)]
      ensures Slack(ring, steps) && |threads| == old(|threads|)
      ensures Since(old(ring), ring, t)
      ensures threads[t] == Idle(Pushed(true))
    {
      hide Inv, LooseRun, Follows, Since, Slack, LooseStep;
      AccessKeeps(ring, t, Proceed, steps);
      Traced(t, Proceed);
      var p := threads[t];
      headStamp[Index(p.ticket, capacityMask)] := p.ticket;
      threads := threads[t := Idle(Pushed(true))];
      ring, trace := LooseStep(ring, t, Proceed), trace + [(t, Proceed)];
    }

    // ----- The accesses of `pop`, each atomic -----

    method LoadHeadCounter(t: nat, ghost steps: nat)
      requires Valid() && t < |threads| && threads[t].LoadHead?
      requires Slack(ring, steps + 1)
      modifies this, tailStamp, headStamp, data
      ensures Valid() && ring == LooseStep(old(ring), t, Proceed) && trace == old(trace) + [(t, Proceed)]
      ensures Slack(ring, steps) && |threads| == old(|threads|)
      ensures Since(old(ring), ring, t)
      ensures head == old(head) && threads[t] == TestHead(head)
    {
      hide Inv, LooseRun, Follows, Since, Slack, LooseStep;
      AccessKeeps(ring, t, Proceed, steps);
      Traced(t, Proceed);
      var p := threads[t];
      threads := threads[t := TestHead(head)];
      ring, trace := LooseStep(ring, t, Proceed), trace + [(t, Proceed)];
    }

    method TestHeadStamp(t: nat, ghost steps: nat) returns (same: bool)
      requires Valid() && t < |threads| && threads[t].TestHead?
      requires Slack(ring, steps + 1)
      modifies this, tailStamp, headStamp, data
      ensures Valid() && ring == LooseStep(old(ring), t, Proceed) && trace == old(trace) + [(t, Proceed)]
      ensures Slack(ring, steps) && |threads| == old(|threads|)
      ensures Since(old(ring), ring, t)
      ensures threads[t] == if same then CasHead(old(threads[t]).ticket) else Idle(Popped(None))
      ensures head == old(head)
    {
      hide Inv, LooseRun, Follows, Since, Slack, LooseStep;
      AccessKeeps(ring, t, Proceed, steps);
      Traced(t, Proceed);
      var p := threads[t];
      same := headStamp[Index(p.ticket, capacityMask)] == p.ticket;
      threads := threads[t := if same then CasHead(p.ticket) else Idle(Popped(None))];
      ring, trace := LooseStep(ring, t, Proceed), trace + [(t, Proceed)];
    }

    method CasHeadCounter(t: nat, fails: bool, ghost steps: nat) returns (won: bool)
      requires Valid() && t < |threads| && threads[t].CasHead?
      requires Slack(ring, steps + 1)
      modifies this, tailStamp, headStamp, data
      ensures Valid() && ring == LooseStep(old(ring), t, if fails then FailSpuriously else Proceed)
      ensures trace == old(trace) + [(t, if fails then FailSpuriously else Proceed)]
      ensures Slack(ring, steps) && |threads| == old(|threads|)
      ensures !won ==> Since(old(ring), ring, t)
      ensures won ==> ring.poppers == old(ring).poppers + [t] && ring.pushers == old(ring).pushers
                      && ring.pushed == old(ring).pushed && Follows(old(ring), ring)
                      && t < |ring.threads| && ring.threads[t].ReadItem?
                           && ring.threads[t].ticket == |old(ring).poppers|
      ensures won <==> old(head) == old(threads[t]).ticket && !fails
      ensures threads[t] == if won then ReadItem(old(threads[t]).ticket) else TestHead(head)
    {
      hide Inv, LooseRun, Follows, Since, Slack, LooseStep;
      ghost var a: Action<T> := if fails then FailSpuriously else Proceed;
      AccessKeeps(ring, t, a, steps);
      Traced(t, a);
      CasSeesTicket(ring, t, steps + 1);
      var p := threads[t];
      won := head == p.ticket && !fails;
      if won {
        head, threads := AsWord(p.ticket + 1), threads[t := ReadItem(p.ticket)];
      } else {
        threads := threads[t := TestHead(head)];
      }
      ring, trace := LooseStep(ring, t, a), trace + [(t, a)];
    }

    method CopyItem(t: nat, ghost steps: nat) returns (item: T)
      requires Valid() && t < |threads| && threads[t].ReadItem?
      requires Slack(ring, steps + 1)
      modifies this, tailStamp, headStamp, data
      ensures Valid() && ring == LooseStep(old(ring), t, Proceed) && trace == old(trace) + [(t, Proceed)]
      ensures Slack(ring, steps) && |threads| == old(|threads|)
      ensures Since(old(ring), ring, t)
      ensures threads[t] == Destroy(item, old(threads[t]).ticket)
      ensures ring.threads[t] == Destroy(item, old(ring.threads[t]).ticket)
    {
      hide Inv, LooseRun, Follows, Since, Slack;
      AccessKeeps(ring, t, Proceed, steps);
      Traced(t, Proceed);
      var p := threads[t];
      ReadItemInv(ring, t);
      item := data[Index(p.ticket, capacityMask)].value;
      threads := threads[t := Destroy(item, p.ticket)];
      ring, trace := LooseStep(ring, t, Proceed), trace + [(t, Proceed)];
    }

    method DestroyItem(t: nat, ghost steps: nat)
      requires Valid() && t < |threads| && threads[t].Destroy?
      requires Slack(ring, steps + 1)
      modifies this, tailStamp, headStamp, data
      ensures Valid() && ring == LooseStep(old(ring), t, Proceed) && trace == old(trace) + [(t, Proceed)]
      ensures Slack(ring, steps) && |threads| == old(|threads|)
      ensures Since(old(ring), ring, t)
      ensures threads[t] == Release(old(threads[t]).item, old(threads[t]).ticket)
      ensures ring.threads[t] == Release(old(ring.threads[t]).item, old(ring.threads[t]).ticket)
    {
      hide Inv, LooseRun, Follows, Since, Slack;
      AccessKeeps(ring, t, Proceed, steps);
      Traced(t, Proceed);
      var p := threads[t];
      data[Index(p.ticket, capacityMask)] := None;
      threads := threads[t := Release(p.item, p.ticket)];
      ring, trace := LooseStep(ring, t, Proceed), trace + [(t, Proceed)];
    }

    method ReleaseTailStamp(t: nat, ghost steps: nat)
      requires Valid() && t < |threads| && threads[t].Release?
      requires Slack(ring, steps + 1)
      modifies this, tailStamp, headStamp, data
      ensures Valid() && ring == LooseStep(old(ring), t, Proceed) && trace == old(trace) + [(t, Proceed)]
      ensures Slack(ring, steps) && |threads| == old(|threads|)
      ensures Since(old(ring), ring, t)
      ensures threads[t] == Idle(Popped(Some(old(threads[t]).item)))
      ensures var (x, k) := (old(ring.threads[t]).item, old(ring.threads[t]).ticket);
              k < |ring.pushed| && k in ring.popped && ring.popped[k] == ring.pushed[k] == x
    {
      hide Inv, LooseRun, Follows, Since, Slack, LooseStep;
      AccessKeeps(ring, t, Proceed, steps);
      Traced(t, Proceed);
      Returned(ring, t);
      var p := threads[t];
      tailStamp[Index(p.ticket, capacityMask)] := AsWord(p.ticket + capacity);
      threads := threads[t := Idle(Popped(Some(p.item)))];
      ring, trace := LooseStep(ring, t, Proceed), trace + [(t, Proceed)];
    }

    // Thread `t`, idle, calls an operation.
    method Begin(t: nat, a: Action<T>, ghost steps: nat)
      requires Valid() && t < |threads| && threads[t].Idle?
      requires Slack(ring, steps + 1)
      modifies this
      ensures Valid() && ring == LooseStep(old(ring), t, a) && trace == old(trace) + [(t, a)]
      ensures Slack(ring, steps) && |threads| == old(|threads|)
      ensures Since(old(ring), ring, t)
      ensures a.CallPush? ==> threads[t] == LoadTail(a.item)
      ensures a.CallPop? ==> threads[t] == LoadHead
    {
      hide LooseRun;
      StepSlack(ring, t, a, steps);
      SinceStep(ring, t, a, t);
      Traced(t, a);
      LooseAgrees(ring, t, a);
      LooseInv(ring, t, a);
      match a {
        case CallPush(x) => threads := threads[t := LoadTail(x)];
        case CallPop => threads := threads[t := LoadHead];
        case _ =>
      }
      ring, trace := LooseStep(ring, t, a), trace + [(t, a)];
    }

    // One access by thread `t`, whatever it is at.
    method Act(t: nat, a: Action<T>, ghost steps: nat)
      requires Valid() && Slack(ring, steps + 1)
      modifies this, tailStamp, headStamp, data
      ensures Valid() && ring == LooseStep(old(ring), t, a) && Slack(ring, steps)
      ensures trace == old(trace) + [(t, a)] && |threads| == old(|threads|)
    {
      hide LooseRun;
      StepSlack(ring, t, a, steps);
      Traced(t, a);
      ghost var longer := trace + [(t, a)];
      if t < |threads| {
        if threads[t].Idle? { Begin(t, a, steps); }
        else {
          ActionMatters(ring, t, a);
          if threads[t].LoadHead? || threads[t].TestHead? || threads[t].CasHead? || threads[t].Reads() {
            ActPop(t, a, steps);
          }
          else { ActPush(t, a, steps); }
        }
      }
      trace := longer;
    }

    method ActPush(t: nat, a: Action<T>, ghost steps: nat)
      requires Valid() && Slack(ring, steps + 1) && t < |threads|
      requires threads[t].LoadTail? || threads[t].TestTail? || threads[t].CasTail? || threads[t].Writes()
      modifies this, tailStamp, headStamp, data
      ensures Valid() && ring == LooseStep(old(ring), t, a) && |threads| == old(|threads|)
    {
      hide Inv, LooseRun, Since, Follows, Slack, LooseStep;
      ActionMatters(ring, t, a);
      match threads[t]
      case LoadTail(_) => LoadTailCounter(t, steps);
      case TestTail(_, _) => var _ := TestTailStamp(t, steps);
      case CasTail(_, _) => var _ := CasTailCounter(t, a.FailSpuriously?, steps);
      case Construct(_, _) => ConstructItem(t, steps);
      case Publish(_, _) => PublishHeadStamp(t, steps);
    }

    method ActPop(t: nat, a: Action<T>, ghost steps: nat)
      requires Valid() && Slack(ring, steps + 1) && t < |threads|
      requires threads[t].LoadHead? || threads[t].TestHead? || threads[t].CasHead? || threads[t].Reads()
      modifies this, tailStamp, headStamp, data
      ensures Valid() && ring == LooseStep(old(ring), t, a) && |threads| == old(|threads|)
    {
      hide Inv, LooseRun, Since, Follows, Slack, LooseStep;
      ActionMatters(ring, t, a);
      match threads[t]
      case LoadHead => LoadHeadCounter(t, steps);
      case TestHead(_) => var _ := TestHeadStamp(t, steps);
      case CasHead(_) => var _ := CasHeadCounter(t, a.FailSpuriously?, steps);
      case ReadItem(_) => var _ := CopyItem(t, steps);
      case Destroy(_, _) => DestroyItem(t, steps);
      case Release(_, _) => ReleaseTailStamp(t, steps);
    }

    // Another thread moves.
    method Nudge(t: nat, u: nat, a: Action<T>, ghost steps: nat)
      requires Valid() && t < |threads| && u != t
      requires Slack(ring, steps + 1)
      modifies this, tailStamp, headStamp, data
      ensures Valid() && |threads| == old(|threads|)
      ensures threads[t] == old(threads[t]) && ring.threads[t] == old(ring.threads[t])
      ensures Slack(ring, steps) && Since(old(ring), ring, t) && trace == old(trace) + [(u, a)]
    {
      hide LooseRun;
      SinceStep(ring, u, a, t);
      OthersStay(ring, u, a, t);
      Act(u, a, steps);
      PhasesAgree();
    }

    lemma PhasesAgree()
      requires Valid()
      ensures |threads| == |ring.threads|
      ensures forall t | 0 <= t < |threads| :: threads[t] == WrapPhase(ring.threads[t])
    {
    }

    lemma RingIsFine()
      requires Valid()
      ensures Inv(ring) && ring.capacity == capacity && |ring.threads| == |threads|
      ensures ring == LooseRun(Init<T>(capacity, |threads|), trace)
      ensures forall t | 0 <= t < |threads| && threads[t].Idle? :: ring.threads[t].Idle?
    {
      PhasesAgree();
    }

    // The other threads move while `t` is between two accesses.
    method Interfere(t: nat, gaps: seq<Gap<T>>, g: nat, ghost spare: nat) returns (fails: bool)
      requires Valid() && t < |threads|
      requires Slack(ring, Cost(gaps, g) + spare)
      modifies this, tailStamp, headStamp, data
      ensures Valid() && |threads| == old(|threads|)
      ensures threads[t] == old(threads[t]) && ring.threads[t] == old(ring.threads[t])
      ensures Slack(ring, Cost(gaps, g + 1) + spare + if g < |gaps| then 2 else 0)
      ensures Since(old(ring), ring, t)
      ensures trace == if g < |gaps| then old(trace) + OthersOf(gaps[g].others, t) else old(trace)
      ensures g >= |gaps| ==> tail == old(tail) && head == old(head)
      ensures fails <==> g < |gaps| && gaps[g].fails
    {
      hide LooseRun, OthersOf, LooseStep, Slack, Inv, Follows;
      SinceSelf(ring, t);
      fails := false;
      if g < |gaps| {
        var others := gaps[g].others;
        fails := gaps[g].fails;
        ghost var rest := 2 + Cost(gaps, g + 1) + spare;
        var i := 0;
        while i < |others|
          invariant i <= |others|
          invariant Valid() && |threads| == old(|threads|)
          invariant threads[t] == old(threads[t]) && ring.threads[t] == old(ring.threads[t])
          invariant Slack(ring, |others| - i + rest) && Since(old(ring), ring, t)
          invariant trace == old(trace) + OthersOf(others[..i], t)
        {
          var (u, a) := others[i];
          OneMore(others, i, t);
          if u != t {
            ghost var m := ring;
            Nudge(t, u, a, |others| - i - 1 + rest);
            SinceTransitive(old(ring), m, ring, t);
          } else {
            SlackLess(ring, |others| - i + rest, |others| - i - 1 + rest);
          }
          i := i + 1;
        }
        assert others[..i] == others;
      }
    }

    // One gap, then one own step: what is known since `s0` stays known.
    method Gap0(t: nat, gaps: seq<Gap<T>>, g: nat, ghost spare: nat, ghost s0: Ring<T>, ghost b: seq<(nat, Action<T>)>)
      returns (fails: bool)
      requires Valid() && t < |threads| && Since(s0, ring, t) && Ran(b, trace, t, GoesOn, MovesOf(gaps), g)
      requires Slack(ring, Cost(gaps, g) + spare)
      modifies this, tailStamp, headStamp, data
      ensures Valid() && |threads| == old(|threads|) && Since(s0, ring, t)
      ensures Ran(b, trace, t, GoesOn, MovesOf(gaps), g + 1)
      ensures threads[t] == old(threads[t]) && ring.threads[t] == old(ring.threads[t])
      ensures Slack(ring, Cost(gaps, g + 1) + spare)
      ensures g < |gaps| ==> Slack(ring, Cost(gaps, g + 1) + spare + 2)
      ensures g >= |gaps| ==> tail == old(tail) && head == old(head)
      ensures fails <==> g < |gaps| && gaps[g].fails
    {
      hide *;
      RanGap(b, trace, t, GoesOn, MovesOf(gaps), g);
      fails := Interfere(t, gaps, g, spare);
      if g < |gaps| { SlackLess(ring, Cost(gaps, g + 1) + spare + 2, Cost(gaps, g + 1) + spare); }
      SinceTransitive(s0, old(ring), ring, t);
    }

    // One pass of the loop of `push`: test the stamp, then try to move the counter.
    method TryPush(t: nat, item: T, gaps: seq<Gap<T>>, g: nat, ghost s0: Ring<T>, ghost b: seq<(nat, Action<T>)>)
      returns (verdict: Verdict, ghost before: Ring<T>, ghost used: nat)
      requires Valid() && t < |threads| && Since(s0, ring, t) && threads[t] == TestTail(item, tail)
      requires Slack(ring, Cost(gaps, g) + 4) && Ran(b, trace, t, GoesOn, MovesOf(gaps), g)
      modifies this, tailStamp, headStamp, data
      ensures Valid() && |threads| == old(|threads|) && Ran(b, trace, t, GoesOn, MovesOf(gaps), used)
      ensures verdict != Refused ==> used == g + 2
      ensures verdict == Refused ==> threads[t] == Idle(Pushed(false)) && Since(s0, ring, t)
      ensures verdict == Retry ==> g < |gaps| && threads[t] == TestTail(item, tail) && Since(s0, ring, t)
                                   && Slack(ring, Cost(gaps, g + 2) + 4)
      ensures verdict == Won ==>
                && Slack(ring, Cost(gaps, g + 2) + 2)
                && threads[t].Construct? && threads[t].item == item && ring.threads[t].Construct?
                && ring.threads[t].ticket == |before.pushers|
                && Since(s0, before, t) && Follows(before, ring) && |before.pushed| == |before.pushers|
                && ring.pushers == before.pushers + [t] && ring.poppers == before.poppers
                && ring.pushed == before.pushed + [item]
    {
      hide *;
      GoingOn<T>();
      ghost var n := 4;
      var fails := Gap0(t, gaps, g, n, s0, b);
      ghost var spare := if g < |gaps| then n + 1 else n - 1;
      before := ring;
      ghost var was := trace;
      var same := TestTailStamp(t, Cost(gaps, g + 1) + spare);
      SinceTransitive(s0, before, ring, t);
      RanStep(b, was, t, GoesOn, MovesOf(gaps), g + 1, Proceed);
      if !same { return Refused, before, g + 1; }
      var won;
      won, before := ClaimTail(t, gaps, g + 1, s0, b, spare);
      SlackLess(ring, Cost(gaps, g + 2) + spare - 1, Cost(gaps, g + 2) + n - 2);
      return if won then Won else Retry, before, g + 2;
    }

    // The compare-and-swap on the counter, after its gap.
    method ClaimTail(t: nat, gaps: seq<Gap<T>>, g: nat, ghost s0: Ring<T>, ghost b: seq<(nat, Action<T>)>,
                     ghost spare: nat)
      returns (won: bool, ghost before: Ring<T>)
      requires Valid() && t < |threads| && threads[t].CasTail? && Since(s0, ring, t)
      requires spare > 0 && Slack(ring, Cost(gaps, g) + spare) && Ran(b, trace, t, GoesOn, MovesOf(gaps), g)
      modifies this, tailStamp, headStamp, data
      ensures Valid() && |threads| == old(|threads|) && Ran(b, trace, t, GoesOn, MovesOf(gaps), g + 1)
      ensures Slack(ring, Cost(gaps, g + 1) + spare - 1)
      ensures !won ==> threads[t] == TestTail(old(threads[t]).item, tail) && Since(s0, ring, t)
      ensures won ==>
                && threads[t].Construct? && threads[t].item == old(threads[t]).item && ring.threads[t].Construct?
                && ring.threads[t].ticket == |before.pushers|
                && Since(s0, before, t) && Follows(before, ring) && |before.pushed| == |before.pushers|
                && ring.pushers == before.pushers + [t] && ring.poppers == before.poppers
                && ring.pushed == before.pushed + [old(threads[t]).item]
      ensures g >= |gaps| ==> (won <==> old(threads[t]).ticket == old(tail))
    {
      hide *;
      GoingOn<T>();
      var fails := Gap0(t, gaps, g, spare, s0, b);
      before := ring;
      ghost var was := trace;
      won := CasTailCounter(t, fails, Cost(gaps, g + 1) + spare - 1);
      RanStep(b, was, t, GoesOn, MovesOf(gaps), g + 1, if fails then FailSpuriously else Proceed);
      if !won { SinceTransitive(s0, before, ring, t); }
    }

    // After the claim: construct the object, then publish it.
    method FinishPush(t: nat, gaps: seq<Gap<T>>, g: nat, ghost b: seq<(nat, Action<T>)>)
      requires Valid() && t < |threads| && threads[t].Construct?
      requires Slack(ring, Cost(gaps, g) + 2) && Ran(b, trace, t, GoesOn, MovesOf(gaps), g)
      modifies this, tailStamp, headStamp, data
      ensures Valid() && |threads| == old(|threads|) && Since(old(ring), ring, t)
      ensures threads[t] == Idle(Pushed(true)) && Ran(b, trace, t, GoesOn, MovesOf(gaps), g + 2)
    {
      hide *;
      GoingOn<T>();
      ghost var claimed := ring;
      RingIsFine();
      SinceSelf(ring, t);
      var _ := Gap0(t, gaps, g, 2, claimed, b);
      ghost var mid, was := ring, trace;
      ConstructItem(t, Cost(gaps, g + 1) + 1);
      SinceTransitive(claimed, mid, ring, t);
      RanStep(b, was, t, GoesOn, MovesOf(gaps), g + 1, Proceed);
      var _ := Gap0(t, gaps, g + 1, 1, claimed, b);
      mid, was := ring, trace;
      PublishHeadStamp(t, Cost(gaps, g + 2));
      SinceTransitive(claimed, mid, ring, t);
      RanStep(b, was, t, GoesOn, MovesOf(gaps), g + 2, Proceed);
    }

    // `push` by thread `t`, the others moving in the gaps.  When it returns true it has claimed
    // exactly one ticket, and the item is the one pushed under it; when false, it has claimed none.
    method Push(t: nat, item: T, gaps: seq<Gap<T>>)
      returns (ok: bool, ghost mine: nat, ghost used: nat)
      requires Valid() && t < |threads| && threads[t].Idle?
      requires Slack(ring, Cost(gaps, 0) + 6)
      modifies this, tailStamp, headStamp, data
      ensures Valid() && |threads| == old(|threads|) && Follows(old(ring), ring)
      ensures threads[t] == Idle(Pushed(ok)) && old(ring).pushed <= ring.pushed
      ensures ok ==> ClaimsOnly(old(ring).pushers, ring.pushers, t, mine) && ring.pushed[mine] == item
      ensures !ok ==> ClaimsNothing(old(ring).pushers, ring.pushers, t)
      ensures ClaimsNothing(old(ring).poppers, ring.poppers, t)
      ensures Ran(old(trace) + [(t, CallPush(item))], trace, t, GoesOn, MovesOf(gaps), used)
      ensures !ok ==> SawFull(old(ring), ring, t, item)
      ensures gaps == [] && Settled(old(ring)) ==> (ok <==> old(ring).tail < old(ring).head + capacity)
    {
      hide *;
      GoingOn<T>();
      ghost var b := trace + [(t, CallPush(item))];
      ghost var s0, before := ring, ring;
      RingIsFine();
      SinceSelf(ring, t);
      Begin(t, CallPush(item), Cost(gaps, 0) + 5);
      RanNothing(b, t, GoesOn, MovesOf(gaps));
      var _ := Gap0(t, gaps, 0, 5, s0, b);
      ghost var was := trace;
      before := ring;
      LoadTailCounter(t, Cost(gaps, 1) + 4);
      SinceTransitive(s0, before, ring, t);
      RanStep(b, was, t, GoesOn, MovesOf(gaps), 1, Proceed);
      var g, verdict := 1, Retry;
      mine, used := 0, 1;
      while verdict == Retry
        invariant Valid() && |threads| == old(|threads|) && g >= 1
        invariant Ran(b, trace, t, GoesOn, MovesOf(gaps), used) && (verdict != Refused ==> used == g)
        invariant verdict == Retry ==> threads[t] == TestTail(item, tail) && Since(s0, ring, t)
                                       && Slack(ring, Cost(gaps, g) + 4)
        invariant verdict == Refused ==> threads[t] == Idle(Pushed(false)) && Since(s0, ring, t)
        invariant verdict == Won ==>
                    && Slack(ring, Cost(gaps, g) + 2) && threads[t].Construct?
                    && Since(s0, before, t) && Follows(before, ring)
                    && ring.pushers == before.pushers + [t] && ring.poppers == before.poppers
                    && ring.pushed == before.pushed + [item]
                    && |before.pushed| == |before.pushers|
        decreases verdict == Retry, if g < |gaps| then |gaps| - g else 0
      {
        verdict, before, used := TryPush(t, item, gaps, g, s0, b);
        g := g + 2;
      }
      ok := verdict == Won;
      if ok {
        ghost var claimed := ring;
        mine := |before.pushers|;
        FinishPush(t, gaps, g, b);
        used := g + 2;
        SinceMeans(s0, before, t);
        SinceMeans(claimed, ring, t);
        FollowsTransitive(s0, before, claimed);
        FollowsTransitive(s0, claimed, ring);
        ClaimsCompose(LedgerOf(s0), LedgerOf(before), LedgerOf(claimed), LedgerOf(ring), t);
      } else {
        SinceMeans(s0, ring, t);
      }
      PushMeans(s0, old(trace), t, item, gaps, used, ok);
    }

    // One pass of the loop of `pop`: test the stamp, then try to move the counter.
    method TryPop(t: nat, gaps: seq<Gap<T>>, g: nat, ghost s0: Ring<T>, ghost b: seq<(nat, Action<T>)>)
      returns (verdict: Verdict, ghost before: Ring<T>, ghost used: nat)
      requires Valid() && t < |threads| && Since(s0, ring, t) && threads[t] == TestHead(head)
      requires Slack(ring, Cost(gaps, g) + 5) && Ran(b, trace, t, GoesOn, MovesOf(gaps), g)
      modifies this, tailStamp, headStamp, data
      ensures Valid() && |threads| == old(|threads|) && Ran(b, trace, t, GoesOn, MovesOf(gaps), used)
      ensures verdict != Refused ==> used == g + 2
      ensures verdict == Refused ==> threads[t] == Idle(Popped(None)) && Since(s0, ring, t)
      ensures verdict == Retry ==> g < |gaps| && threads[t] == TestHead(head) && Since(s0, ring, t)
                                   && Slack(ring, Cost(gaps, g + 2) + 5)
      ensures verdict == Won ==>
                && Slack(ring, Cost(gaps, g + 2) + 3)
                && threads[t].ReadItem? && t < |ring.threads| && ring.threads[t].ReadItem?
                && ring.threads[t].ticket == |before.poppers|
                && Since(s0, before, t) && Follows(before, ring)
                && ring.poppers == before.poppers + [t] && ring.pushers == before.pushers
                && ring.pushed == before.pushed
    {
      hide *;
      GoingOn<T>();
      ghost var n := 5;
      var fails := Gap0(t, gaps, g, n, s0, b);
      ghost var spare := if g < |gaps| then n + 1 else n - 1;
      before := ring;
      ghost var was := trace;
      var same := TestHeadStamp(t, Cost(gaps, g + 1) + spare);
      SinceTransitive(s0, before, ring, t);
      RanStep(b, was, t, GoesOn, MovesOf(gaps), g + 1, Proceed);
      if !same { return Refused, before, g + 1; }
      var won;
      won, before := ClaimHead(t, gaps, g + 1, s0, b, spare);
      SlackLess(ring, Cost(gaps, g + 2) + spare - 1, Cost(gaps, g + 2) + n - 2);
      return if won then Won else Retry, before, g + 2;
    }

    // The compare-and-swap on the counter, after its gap.
    method ClaimHead(t: nat, gaps: seq<Gap<T>>, g: nat, ghost s0: Ring<T>, ghost b: seq<(nat, Action<T>)>,
                     ghost spare: nat)
      returns (won: bool, ghost before: Ring<T>)
      requires Valid() && t < |threads| && threads[t].CasHead? && Since(s0, ring, t)
      requires spare > 0 && Slack(ring, Cost(gaps, g) + spare) && Ran(b, trace, t, GoesOn, MovesOf(gaps), g)
      modifies this, tailStamp, headStamp, data
      ensures Valid() && |threads| == old(|threads|) && Ran(b, trace, t, GoesOn, MovesOf(gaps), g + 1)
      ensures Slack(ring, Cost(gaps, g + 1) + spare - 1)
      ensures !won ==> threads[t] == TestHead(head) && Since(s0, ring, t)
      ensures won ==>
                && threads[t].ReadItem? && t < |ring.threads| && ring.threads[t].ReadItem?
                && ring.threads[t].ticket == |before.poppers|
                && Since(s0, before, t) && Follows(before, ring)
                && ring.poppers == before.poppers + [t] && ring.pushers == before.pushers
                && ring.pushed == before.pushed
      ensures g >= |gaps| ==> (won <==> old(threads[t]).ticket == old(head))
    {
      hide *;
      GoingOn<T>();
      var fails := Gap0(t, gaps, g, spare, s0, b);
      before := ring;
      ghost var was := trace;
      won := CasHeadCounter(t, fails, Cost(gaps, g + 1) + spare - 1);
      RanStep(b, was, t, GoesOn, MovesOf(gaps), g + 1, if fails then FailSpuriously else Proceed);
      if !won { SinceTransitive(s0, before, ring, t); }
    }

    // After the claim: copy the object out, destroy it, then release the slot.
    method FinishPop(t: nat, gaps: seq<Gap<T>>, g: nat, ghost k: nat, ghost b: seq<(nat, Action<T>)>)
      returns (item: T)
      requires Valid() && t < |threads| && threads[t].ReadItem?
      requires ring.threads[t].ReadItem? && ring.threads[t].ticket == k
      requires Slack(ring, Cost(gaps, g) + 3) && Ran(b, trace, t, GoesOn, MovesOf(gaps), g)
      modifies this, tailStamp, headStamp, data
      ensures Valid() && |threads| == old(|threads|) && Since(old(ring), ring, t)
      ensures threads[t] == Idle(Popped(Some(item))) && Ran(b, trace, t, GoesOn, MovesOf(gaps), g + 3)
      ensures k < |ring.pushed| && k in ring.popped && ring.popped[k] == item == ring.pushed[k]
    {
      hide *;
      GoingOn<T>();
      ghost var claimed := ring;
      RingIsFine();
      SinceSelf(ring, t);
      var _ := Gap0(t, gaps, g, 3, claimed, b);
      ghost var mid, was := ring, trace;
      item := CopyItem(t, Cost(gaps, g + 1) + 2);
      SinceTransitive(claimed, mid, ring, t);
      RanStep(b, was, t, GoesOn, MovesOf(gaps), g + 1, Proceed);
      var _ := Gap0(t, gaps, g + 1, 2, claimed, b);
      mid, was := ring, trace;
      DestroyItem(t, Cost(gaps, g + 2) + 1);
      SinceTransitive(claimed, mid, ring, t);
      RanStep(b, was, t, GoesOn, MovesOf(gaps), g + 2, Proceed);
      var _ := Gap0(t, gaps, g + 2, 1, claimed, b);
      mid, was := ring, trace;
      ReleaseTailStamp(t, Cost(gaps, g + 3));
      SinceTransitive(claimed, mid, ring, t);
      RanStep(b, was, t, GoesOn, MovesOf(gaps), g + 3, Proceed);
    }

    // `pop` by thread `t`.  With a result it has claimed exactly one ticket and returned the
    // item of the push of the same ticket; without, it has claimed none.
    method Pop(t: nat, gaps: seq<Gap<T>>)
      returns (result: Option<T>, ghost mine: nat, ghost used: nat)
      requires Valid() && t < |threads| && threads[t].Idle?
      requires Slack(ring, Cost(gaps, 0) + 7)
      modifies this, tailStamp, headStamp, data
      ensures Valid() && |threads| == old(|threads|) && Follows(old(ring), ring)
      ensures threads[t] == Idle(Popped(result)) && old(ring).pushed <= ring.pushed
      ensures result.Some? ==> ClaimsOnly(old(ring).poppers, ring.poppers, t, mine)
      ensures result.Some? ==> mine < |ring.pushed| && result.value == ring.pushed[mine]
                               && mine in ring.popped && ring.popped[mine] == result.value
      ensures result.None? ==> ClaimsNothing(old(ring).poppers, ring.poppers, t)
      ensures ClaimsNothing(old(ring).pushers, ring.pushers, t)
      ensures Ran(old(trace) + [(t, CallPop)], trace, t, GoesOn, MovesOf(gaps), used)
      ensures result.None? ==> SawEmpty(old(ring), ring, t)
      ensures gaps == [] && Settled(old(ring)) ==> (result.Some? <==> old(ring).head < old(ring).tail)
    {
      hide *;
      GoingOn<T>();
      ghost var b := trace + [(t, CallPop)];
      ghost var s0, before := ring, ring;
      RingIsFine();
      SinceSelf(ring, t);
      Begin(t, CallPop, Cost(gaps, 0) + 6);
      RanNothing(b, t, GoesOn, MovesOf(gaps));
      var _ := Gap0(t, gaps, 0, 6, s0, b);
      ghost var was := trace;
      before := ring;
      LoadHeadCounter(t, Cost(gaps, 1) + 5);
      SinceTransitive(s0, before, ring, t);
      RanStep(b, was, t, GoesOn, MovesOf(gaps), 1, Proceed);
      var g, verdict := 1, Retry;
      mine, result, used := 0, None, 1;
      while verdict == Retry
        invariant Valid() && |threads| == old(|threads|) && g >= 1
        invariant Ran(b, trace, t, GoesOn, MovesOf(gaps), used) && (verdict != Refused ==> used == g)
        invariant verdict == Retry ==> threads[t] == TestHead(head) && Since(s0, ring, t)
                                       && Slack(ring, Cost(gaps, g) + 5)
        invariant verdict == Refused ==> threads[t] == Idle(Popped(None)) && Since(s0, ring, t)
        invariant verdict == Won ==>
                    && Slack(ring, Cost(gaps, g) + 3) && threads[t].ReadItem?
                    && t < |ring.threads| && ring.threads[t].ReadItem? && ring.threads[t].ticket == |before.poppers|
                    && Since(s0, before, t) && Follows(before, ring)
                    && ring.poppers == before.poppers + [t] && ring.pushers == before.pushers
                    && ring.pushed == before.pushed
        decreases verdict == Retry, if g < |gaps| then |gaps| - g else 0
      {
        verdict, before, used := TryPop(t, gaps, g, s0, b);
        g := g + 2;
      }
      if verdict == Won {
        ghost var claimed := ring;
        mine := |before.poppers|;
        var item := FinishPop(t, gaps, g, mine, b);
        used := g + 3;
        result := Some(item);
        SinceMeans(s0, before, t);
        SinceMeans(claimed, ring, t);
        FollowsTransitive(s0, before, claimed);
        FollowsTransitive(s0, claimed, ring);
        ClaimsCompose(LedgerOf(s0), LedgerOf(before), LedgerOf(claimed), LedgerOf(ring), t);
      } else {
        SinceMeans(s0, ring, t);
      }
      PopMeans(s0, old(trace), t, gaps, used, result);
    }

    // What the answer of a push means, from the accesses it made.
    lemma PushMeans(s: Ring<T>, b: seq<(nat, Action<T>)>, t: nat, item: T, gaps: seq<Gap<T>>, used: nat, ok: bool)
      requires Valid() && s == LooseRun(Init<T>(capacity, |threads|), b) && Inv(s) && t < |threads| == |s.threads|
      requires s.threads[t].Idle? && s.capacity == capacity && threads[t] == Idle(Pushed(ok))
      requires Ran(b + [(t, CallPush(item))], trace, t, GoesOn, MovesOf(gaps), used)
      ensures !ok ==> SawFull(s, ring, t, item)
      ensures gaps == [] && Settled(s) ==> (ok <==> s.tail < s.head + capacity)
    {
      hide LooseRun, Inv, SawFull, Settled, LooseStep;
      var c: Action<T> := CallPush(item);
      var s0 := Init<T>(capacity, |threads|);
      var moves :| RanBy(b + [(t, c)], trace, moves, t, GoesOn, MovesOf(gaps), used);
      CountersOf(s);
      LooseConcat(s0, b, [(t, c)]);
      LooseOne(s, t, c);
      LooseConcat(s0, b + [(t, c)], moves);
      assert ring == LooseRun(LooseStep(s, t, c), moves);
      if !ok { RefusedRun(s, t, item, moves); }
      if gaps == [] && Settled(s) {
        var alone := Alone(b + [(t, c)], trace, t, GoesOn, used);
        LooseConcat(s0, b + [(t, c)], alone);
        Called(s, t, c);
        PushAlone(LooseStep(s, t, c), t, item, alone);
      }
    }

    lemma PopMeans(s: Ring<T>, b: seq<(nat, Action<T>)>, t: nat, gaps: seq<Gap<T>>, used: nat, result: Option<T>)
      requires Valid() && s == LooseRun(Init<T>(capacity, |threads|), b) && Inv(s) && t < |threads| == |s.threads|
      requires s.threads[t].Idle? && s.capacity == capacity && threads[t] == Idle(Popped(result))
      requires Ran(b + [(t, CallPop)], trace, t, GoesOn, MovesOf(gaps), used)
      ensures result.None? ==> SawEmpty(s, ring, t)
      ensures gaps == [] && Settled(s) ==> (result.Some? <==> s.head < s.tail)
    {
      hide LooseRun, Inv, SawEmpty, Settled, LooseStep;
      var c: Action<T> := CallPop;
      var s0 := Init<T>(capacity, |threads|);
      var moves :| RanBy(b + [(t, c)], trace, moves, t, GoesOn, MovesOf(gaps), used);
      CountersOf(s);
      LooseConcat(s0, b, [(t, c)]);
      LooseOne(s, t, c);
      LooseConcat(s0, b + [(t, c)], moves);
      assert ring == LooseRun(LooseStep(s, t, c), moves);
      if result.None? { EmptyRun(s, t, moves); }
      if gaps == [] && Settled(s) {
        var alone := Alone(b + [(t, c)], trace, t, GoesOn, used);
        LooseConcat(s0, b + [(t, c)], alone);
        Called(s, t, c);
        PopAlone(LooseStep(s, t, c), t, alone);
      }
    }

    // The destructor, called when no operation is under way: the loop from head to tail, on
    // wrapping counters, destroys constructed objects only, each once, and leaves none.
    method Teardown()
      requires Valid() && Settled(ring)
      modifies this, data
      ensures forall i | 0 <= i < data.Length :: data[i] == None
      ensures ring.destroyed == old(ring).destroyed + Between(old(ring).head, old(ring).tail)
      ensures ring.constructed == old(ring).constructed
      ensures forall k: nat :: DestroyedOnce(ring.constructed, ring.destroyed, k)
    {
      hide *;
      ghost var s, k, gone := ring, ring.head, ring.destroyed + Between(ring.head, ring.head);
      AtRest();
      TeardownBalances(s);
      SweptNone(s);
      var i := head;
      while i != tail
        invariant s.head <= k <= s.tail && i == AsWord(k) && tail == AsWord(s.tail)
        invariant gone == s.destroyed + Between(s.head, k) && ring == s
        invariant SweptTo(s, data[..], k)
        decreases s.tail - k
      {
        ghost var was := data[..];
        SweptOne(s, was, k);
        var slot := Index(i, capacityMask);
        assert data[slot] == Some(s.pushed[k]);
        data[slot] := None;
        assert data[..] == was[slot := None];
        BetweenNext(s.head, k);
        gone := gone + multiset{k};
        WrapPlus(k, 1);
        i, k := AsWord(i as int + 1), k + 1;
      }
      StopsAtTail(s, k);
      SweptAll(s, data[..]);
      ring := s.(destroyed := gone);
    }

    lemma AtRest()
      requires Valid() && Settled(ring)
      ensures |ring.tailStamp| == |ring.cell| == data.Length == capacity == capacityMask + 1
      ensures Inv(ring) && GoodCapacity(capacity) && ring.capacity == capacity
      ensures ring.head <= ring.tail < ring.head + WORD && |ring.pushed| == ring.tail
      ensures head == AsWord(ring.head) && tail == AsWord(ring.tail)
      ensures data[..] == ring.cell
    {
      SettledContents(ring);
      assert data[..] == ring.cell;
    }
  }

  lemma BetweenNext(a: nat, k: nat)
    requires a <= k
    ensures Between(a, k + 1) == Between(a, k) + multiset{k}
  {
  }

  lemma StopsAtTail<T>(s: Ring<T>, k: nat)
    requires s.head <= k <= s.tail && s.tail < s.head + WORD && AsWord(k) == AsWord(s.tail)
    ensures k == s.tail
  {
    SameWord(s.tail, k);
  }

  // The cells once the tickets below `k` are destroyed.
  ghost predicate SweptTo<T>(s: Ring<T>, q: seq<Option<T>>, k: nat)
    requires Shaped(s)
  {
    |q| == s.capacity
    && forall j | 0 <= j < s.capacity :: q[j] == if s.head <= s.tailStamp[j] < k then None else s.cell[j]
  }

  lemma SweptNone<T>(s: Ring<T>)
    requires Inv(s)
    ensures Shaped(s) && SweptTo(s, s.cell, s.head)
  {
  }

  lemma SweptOne<T>(s: Ring<T>, q: seq<Option<T>>, k: nat)
    requires Inv(s) && Settled(s) && GoodCapacity(s.capacity) && s.head <= k < s.tail && SweptTo(s, q, k)
    ensures var i := Index(AsWord(k), s.capacity - 1);
            && i < |q| && k < |s.pushed| && q[i] == Some(s.pushed[k]) && SweptTo(s, q[i := None], k + 1)
    ensures AsWord(k) != AsWord(s.tail)
  {
    hide Inv, Settled, Index;
    var slot := LastsTo(s, k);
  }

  lemma SweptAll<T>(s: Ring<T>, q: seq<Option<T>>)
    requires Inv(s) && Settled(s) && SweptTo(s, q, s.tail)
    ensures forall i | 0 <= i < |q| :: q[i] == None
  {
    SettledContents(s);
  }

  // At rest, ticket `k` sits in the slot the wrapped loop index reaches, and in no other.
  lemma LastsTo<T>(s: Ring<T>, k: nat) returns (slot: nat)
    requires Inv(s) && Settled(s) && GoodCapacity(s.capacity) && s.head <= k < s.tail
    ensures slot == Index(AsWord(k), s.capacity - 1) < s.capacity
    ensures AsWord(k) != AsWord(s.tail)
    ensures k < |s.pushed| && s.cell[slot] == Some(s.pushed[k])
    ensures forall j | 0 <= j < s.capacity :: s.tailStamp[j] == k <==> j == slot
  {
    IndexIsSlot(k, s.capacity);
    SameWord(s.tail, k);
    slot := Slot(k, s.capacity);
    SettledContents(s);
    forall j | 0 <= j < s.capacity ensures s.tailStamp[j] == k <==> j == slot {
      assert SlotOk(s, j);
    }
  }
}
