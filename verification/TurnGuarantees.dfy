// What every run of the claim-then-wait ring keeps, for sizes that are powers of two and, where the
// masking does not matter, for all.
module TurnGuarantees {
  import opened Wrappers
  import opened Bits
  import opened TurnRing

  // ---------- Every step keeps the invariant ----------

  lemma InitInv<T>(max: nat, n: nat)
    requires max > 0 && IsPow2(max)
    ensures Inv(Init<T>(max, n))
  {
  }

  // Steps before a ticket is claimed or after it is over write nothing shared.
  lemma LocalInv<T>(s: Ring<T>, t: nat, p: Phase<T>)
    requires Inv(s) && t < |s.threads| && !s.threads[t].Holds() && !p.Holds() && ThreadOk(At(s, t, p), t)
    ensures Inv(At(s, t, p))
  {
    hide TransIndex, PushOver, PopOver, PushAwaits;
    var s' := At(s, t, p);
    forall i | 0 <= i < s.max ensures SlotOk(s', i) { assert SlotOk(s, i); }
    forall u | 0 <= u < |s.threads| ensures ThreadOk(s', u) { assert ThreadOk(s, u); }
    forall k: nat ensures TicketOk(s', k) { assert TicketOk(s, k); }
  }

  // The wait ends; the slot is the thread's.
  lemma EnterInv<T>(s: Ring<T>, t: nat, p: Phase<T>)
    requires Inv(s) && t < |s.threads|
    requires (s.threads[t].PushWait? && p == PushStore(s.threads[t].item, s.threads[t].ticket))
             || (s.threads[t].PopWait? && p == PopTake(s.threads[t].ticket))
    requires ThreadOk(At(s, t, p), t)
    ensures Inv(At(s, t, p))
  {
    hide TransIndex, PushOver, PopOver, PushAwaits;
    var s' := At(s, t, p);
    forall i | 0 <= i < s.max ensures SlotOk(s', i) { assert SlotOk(s, i); }
    forall u | 0 <= u < |s.threads| ensures ThreadOk(s', u) { assert ThreadOk(s, u); }
    forall k: nat ensures TicketOk(s', k) { assert TicketOk(s, k); }
  }

  lemma ClaimPushInv<T>(s: Ring<T>, t: nat)
    requires Inv(s) && t < |s.threads| && s.threads[t].PushCas? && s.threads[t].w == s.writeIndex
    ensures Inv(StepPush(s, t))
  {
    hide TransIndex;
    var s' := StepPush(s, t);
    var k := s.writeIndex;
    var i := TransIndex(k, s.max);
    assert SlotOk(s, i) && ThreadOk(s, t) && TicketOk(s, k);
    forall j | 0 <= j < s.max ensures SlotOk(s', j) { assert SlotOk(s, j); }
    forall u | 0 <= u < |s.threads| ensures ThreadOk(s', u) { assert ThreadOk(s, u); }
    forall j: nat ensures TicketOk(s', j) { assert TicketOk(s, j); }
  }

  lemma ClaimPopInv<T>(s: Ring<T>, t: nat)
    requires Inv(s) && t < |s.threads| && s.threads[t].PopCas? && s.threads[t].r == s.readIndex
    ensures Inv(StepPop(s, t))
  {
    hide TransIndex;
    var s' := StepPop(s, t);
    var k := s.readIndex;
    var i := TransIndex(k, s.max);
    assert SlotOk(s, i) && ThreadOk(s, t) && TicketOk(s, k);
    forall j | 0 <= j < s.max ensures SlotOk(s', j) { assert SlotOk(s, j); }
    forall u | 0 <= u < |s.threads| ensures ThreadOk(s', u) { assert ThreadOk(s, u); }
    forall j: nat ensures TicketOk(s', j) { assert TicketOk(s, j); }
  }

  // Two threads past their waits on one slot are one thread.
  lemma InsideAlone<T>(s: Ring<T>, t: nat, u: nat)
    requires Inv(s) && t < |s.threads| && u < |s.threads|
    requires s.threads[t].Inside() && s.threads[u].Inside()
    requires TransIndex(s.threads[t].ticket, s.max) == TransIndex(s.threads[u].ticket, s.max)
    ensures t == u
  {
    hide TransIndex;
    assert ThreadOk(s, t) && ThreadOk(s, u);
    IndexApart(s.threads[t].ticket, s.threads[u].ticket, s.max);
  }

  lemma PushStoreInv<T>(s: Ring<T>, t: nat)
    requires Inv(s) && t < |s.threads| && s.threads[t].PushStore?
    ensures Inv(StepPush(s, t))
  {
    hide TransIndex, PushOver, PopOver;
    var s' := StepPush(s, t);
    var i := TransIndex(s.threads[t].ticket, s.max);
    assert ThreadOk(s, t) && SlotOk(s, i);
    forall j | 0 <= j < s.max ensures SlotOk(s', j) { assert SlotOk(s, j); }
    forall u | 0 <= u < |s.threads| ensures ThreadOk(s', u) {
      assert ThreadOk(s, u);
      if s.threads[u].PushTag? && TransIndex(s.threads[u].ticket, s.max) == i { InsideAlone(s, t, u); }
    }
    forall j: nat ensures TicketOk(s', j) { assert TicketOk(s, j); }
  }

  lemma PopTakeInv<T>(s: Ring<T>, t: nat)
    requires Inv(s) && t < |s.threads| && s.threads[t].PopTake?
    ensures Inv(StepPop(s, t))
    ensures var k := s.threads[t].ticket; k < |s.pushed| && StepPop(s, t).threads[t] == PopTag(s.pushed[k], k)
  {
    hide TransIndex, PushOver, PopOver;
    var s' := StepPop(s, t);
    var i := TransIndex(s.threads[t].ticket, s.max);
    assert ThreadOk(s, t) && SlotOk(s, i);
    forall j | 0 <= j < s.max ensures SlotOk(s', j) { assert SlotOk(s, j); }
    forall u | 0 <= u < |s.threads| ensures ThreadOk(s', u) { assert ThreadOk(s, u); }
    forall j: nat ensures TicketOk(s', j) { assert TicketOk(s, j); }
  }

  // What the tag left by a push means for the other tickets of its slot.
  lemma TagAfterPush(j: nat, k: nat, max: nat)
    requires max > 0 && IsPow2(max) && TransIndex(j, max) == TransIndex(k, max) && j != k
    ensures PushOver(k + 1, j) <==> PushOver(PushAwaits(k, max), j)
    ensures PopOver(k + 1, j, max) <==> PopOver(PushAwaits(k, max), j, max)
  {
    IndexApart(j, k, max);
  }

  lemma TagAfterPop(j: nat, k: nat, max: nat)
    requires max > 0 && IsPow2(max) && TransIndex(j, max) == TransIndex(k, max) && j != k
    ensures PushOver(-(k + 1), j) <==> PushOver(k + 1, j)
    ensures PopOver(-(k + 1), j, max) <==> PopOver(k + 1, j, max)
  {
    IndexApart(j, k, max);
  }

  lemma PushTagInv<T>(s: Ring<T>, t: nat)
    requires Inv(s) && t < |s.threads| && s.threads[t].PushTag?
    ensures Inv(StepPush(s, t))
  {
    hide TransIndex, PushOver, PopOver;
    var s' := StepPush(s, t);
    var i := TransIndex(s.threads[t].ticket, s.max);
    assert ThreadOk(s, t) && SlotOk(s, i);
    forall j | 0 <= j < s.max ensures SlotOk(s', j) { assert SlotOk(s, j); }
    forall u | 0 <= u < |s.threads| ensures ThreadOk(s', u) { PushTagThread(s, t, u); }
    forall j: nat ensures TicketOk(s', j) { PushTagTicket(s, t, j); }
  }

  lemma PushTagThread<T>(s: Ring<T>, t: nat, u: nat)
    requires Inv(s) && t < |s.threads| && s.threads[t].PushTag? && u < |s.threads|
    ensures Counters(StepPush(s, t)) && ThreadOk(StepPush(s, t), u)
  {
    hide TransIndex, SlotOk, TicketOk;
    var k := s.threads[t].ticket;
    assert ThreadOk(s, t) && ThreadOk(s, u);
    if s.threads[u].Holds() && TransIndex(s.threads[u].ticket, s.max) == TransIndex(k, s.max) && u != t {
      if s.threads[u].ticket != k { TagAfterPush(s.threads[u].ticket, k, s.max); }
      if s.threads[u].Inside() { InsideAlone(s, t, u); }
    }
  }

  lemma PushTagTicket<T>(s: Ring<T>, t: nat, j: nat)
    requires Inv(s) && t < |s.threads| && s.threads[t].PushTag?
    ensures Counters(StepPush(s, t)) && TicketOk(StepPush(s, t), j)
  {
    hide TransIndex, SlotOk;
    var k := s.threads[t].ticket;
    assert ThreadOk(s, t) && TicketOk(s, k) && TicketOk(s, j);
    if TransIndex(j, s.max) == TransIndex(k, s.max) && j != k { TagAfterPush(j, k, s.max); }
  }

  lemma PopTagInv<T>(s: Ring<T>, t: nat)
    requires Inv(s) && t < |s.threads| && s.threads[t].PopTag?
    ensures Inv(StepPop(s, t))
  {
    hide TransIndex, PushOver, PopOver;
    var s' := StepPop(s, t);
    var i := TransIndex(s.threads[t].ticket, s.max);
    assert ThreadOk(s, t) && SlotOk(s, i);
    forall j | 0 <= j < s.max ensures SlotOk(s', j) { assert SlotOk(s, j); }
    forall u | 0 <= u < |s.threads| ensures ThreadOk(s', u) { PopTagThread(s, t, u); }
    forall j: nat ensures TicketOk(s', j) { PopTagTicket(s, t, j); }
  }

  lemma PopTagThread<T>(s: Ring<T>, t: nat, u: nat)
    requires Inv(s) && t < |s.threads| && s.threads[t].PopTag? && u < |s.threads|
    ensures Counters(StepPop(s, t)) && ThreadOk(StepPop(s, t), u)
  {
    hide TransIndex, SlotOk, TicketOk;
    var k := s.threads[t].ticket;
    assert ThreadOk(s, t) && ThreadOk(s, u);
    if s.threads[u].Holds() && TransIndex(s.threads[u].ticket, s.max) == TransIndex(k, s.max) && u != t {
      if s.threads[u].ticket != k { TagAfterPop(s.threads[u].ticket, k, s.max); }
      if s.threads[u].Inside() { InsideAlone(s, t, u); }
    }
  }

  lemma PopTagTicket<T>(s: Ring<T>, t: nat, j: nat)
    requires Inv(s) && t < |s.threads| && s.threads[t].PopTag?
    ensures Counters(StepPop(s, t)) && TicketOk(StepPop(s, t), j)
  {
    hide TransIndex, SlotOk;
    var k := s.threads[t].ticket;
    assert ThreadOk(s, t) && TicketOk(s, k) && TicketOk(s, j);
    if TransIndex(j, s.max) == TransIndex(k, s.max) && j != k { TagAfterPop(j, k, s.max); }
  }

  lemma StepInv<T>(s: Ring<T>, t: nat, a: Action<T>)
    requires Inv(s)
    ensures Inv(Step(s, t, a))
  {
    hide SlotOk, TicketOk, TransIndex;
    if t < |s.threads| {
      var p := s.threads[t];
      assert ThreadOk(s, t);
      match p
      case Idle(_) => LocalInv(s, t, Step(s, t, a).threads[t]);
      case PushCas(x, w) => if s.writeIndex == w { ClaimPushInv(s, t); } else { LocalInv(s, t, PushLoadWrite(x)); }
      case PopCas(r) => if s.readIndex == r { ClaimPopInv(s, t); } else { LocalInv(s, t, PopLoadWrite); }
      case PushWait(x, k) => if Step(s, t, a) != s { EnterInv(s, t, PushStore(x, k)); }
      case PopWait(k) => if Step(s, t, a) != s { EnterInv(s, t, PopTake(k)); }
      case PushStore(_, _) => PushStoreInv(s, t);
      case PushTag(_, _) => PushTagInv(s, t);
      case PopTake(_) => PopTakeInv(s, t);
      case PopTag(_, _) => PopTagInv(s, t);
      case _ => LoadInv(s, t);
    }
  }

  lemma LoadInv<T>(s: Ring<T>, t: nat)
    requires Inv(s) && t < |s.threads|
    requires s.threads[t].PushLoadWrite? || s.threads[t].PushLoadRead? || s.threads[t].PopLoadWrite?
             || s.threads[t].PopLoadRead?
    ensures Inv(Step(s, t, Proceed))
  {
    hide SlotOk, TicketOk, TransIndex;
    assert ThreadOk(s, t);
    LocalInv(s, t, Step(s, t, Proceed).threads[t]);
  }

  lemma {:induction false} RunInv<T>(s: Ring<T>, schedule: seq<(nat, Action<T>)>)
    requires Inv(s)
    ensures Inv(Run(s, schedule))
    decreases |schedule|
  {
    if schedule != [] {
      StepInv(s, schedule[0].0, schedule[0].1);
      RunInv(Step(s, schedule[0].0, schedule[0].1), schedule[1..]);
    }
  }

  lemma {:induction false} RunConcat<T>(s: Ring<T>, a: seq<(nat, Action<T>)>, b: seq<(nat, Action<T>)>)
    requires Shaped(s)
    ensures Run(s, a + b) == Run(Run(s, a), b)
    decreases |a|
  {
    if a == [] {
      assert a + b == b;
    } else {
      assert (a + b)[1..] == a[1..] + b;
      RunConcat(Step(s, a[0].0, a[0].1), a[1..], b);
    }
  }

  lemma RunOne<T>(s: Ring<T>, t: nat, a: Action<T>)
    requires Shaped(s)
    ensures Run(s, [(t, a)]) == Step(s, t, a)
  {
    var one := [(t, a)];
    assert Run(Step(s, t, a), one[1..]) == Step(s, t, a);
  }

  // ---------- The main results ----------

  // First in, first out: whatever the interleaving, a completed pop of ticket `k` returned the
  // item of the push of ticket `k`, the claims stay within one lap of each other, and a claimed
  // ticket is either completed or in the hands of the one thread that claimed it.
  lemma FirstInFirstOut<T>(max: nat, n: nat, schedule: seq<(nat, Action<T>)>)
    requires max > 0 && IsPow2(max)
    ensures var s := Run(Init<T>(max, n), schedule);
            && s.readIndex <= s.writeIndex <= s.readIndex + max
            && |s.pushed| == |s.pushers| == s.writeIndex && |s.poppers| == s.readIndex
            && (forall k :: k in s.popped ==> k < s.readIndex && s.popped[k] == s.pushed[k])
            && (forall k: nat | k < s.readIndex ::
                  k in s.popped <==>
                    !(s.poppers[k] < n && s.threads[s.poppers[k]].Pops() && s.threads[s.poppers[k]].ticket == k))
            && (forall t | 0 <= t < n && s.threads[t].Pops() ::
                  s.threads[t].ticket < s.readIndex && s.poppers[s.threads[t].ticket] == t)
            && (forall k: nat | k < s.writeIndex ::
                  PushOver(s.tag[TransIndex(k, max)], k) <==>
                    !(s.pushers[k] < n && s.threads[s.pushers[k]].Pushes() && s.threads[s.pushers[k]].ticket == k))
            && (forall t | 0 <= t < n && s.threads[t].Pushes() ::
                  s.threads[t].ticket < s.writeIndex && s.pushers[s.threads[t].ticket] == t)
  {
    hide SlotOk, TransIndex;
    var s0 := Init<T>(max, n);
    InitInv<T>(max, n);
    RunInv(s0, schedule);
    var s := Run(s0, schedule);
    forall k | k in s.popped ensures k < s.readIndex && s.popped[k] == s.pushed[k] { assert TicketOk(s, k); }
    forall k: nat | k < s.readIndex
      ensures k in s.popped <==>
              !(s.poppers[k] < n && s.threads[s.poppers[k]].Pops() && s.threads[s.poppers[k]].ticket == k)
    {
      assert TicketOk(s, k);
      if s.poppers[k] < n { assert ThreadOk(s, s.poppers[k]); }
    }
    forall k: nat | k < s.writeIndex
      ensures PushOver(s.tag[TransIndex(k, max)], k) <==>
                !(s.pushers[k] < n && s.threads[s.pushers[k]].Pushes() && s.threads[s.pushers[k]].ticket == k)
    {
      assert TicketOk(s, k);
      if s.pushers[k] < n { assert ThreadOk(s, s.pushers[k]); }
    }
    forall t | 0 <= t < n && s.threads[t].Holds()
      ensures s.threads[t].Pops() ==> s.threads[t].ticket < s.readIndex && s.poppers[s.threads[t].ticket] == t
      ensures s.threads[t].Pushes() ==> s.threads[t].ticket < s.writeIndex && s.pushers[s.threads[t].ticket] == t
    {
      assert ThreadOk(s, t);
    }
  }

  // From the end of its wait to its tag store a thread is the only one touching the element.
  lemma ElementsAreExclusive<T>(max: nat, n: nat, schedule: seq<(nat, Action<T>)>, t: nat, u: nat)
    requires max > 0 && IsPow2(max) && t < n && u < n && t != u
    ensures var s := Run(Init<T>(max, n), schedule);
            s.threads[t].Inside() && s.threads[u].Inside() ==>
              TransIndex(s.threads[t].ticket, max) != TransIndex(s.threads[u].ticket, max)
  {
    InitInv<T>(max, n);
    RunInv(Init<T>(max, n), schedule);
    var s := Run(Init<T>(max, n), schedule);
    if s.threads[t].Inside() && s.threads[u].Inside() &&
       TransIndex(s.threads[t].ticket, max) == TransIndex(s.threads[u].ticket, max) {
      InsideAlone(s, t, u);
    }
  }

  // The operations of slot `i` in the order their tags announce: push i, pop i, push i + max, ...
  function NextTag(a: int, i: nat, max: nat): int
  {
    if a == 0 then i + 1 else if a > 0 then -a else -a + max
  }

  // A slot is handed over strictly in turn, one tag at a time, whoever moves.
  lemma TagsTakeTurns<T>(s: Ring<T>, t: nat, a: Action<T>, i: nat)
    requires Inv(s) && i < s.max
    ensures Step(s, t, a).tag[i] == s.tag[i] || Step(s, t, a).tag[i] == NextTag(s.tag[i], i, s.max)
    ensures Step(s, t, a).tag[i] != s.tag[i] ==>
              t < |s.threads| && (s.threads[t].PushTag? || s.threads[t].PopTag?)
                  && TransIndex(s.threads[t].ticket, s.max) == i
  {
    hide SlotOk, TicketOk;
    if t < |s.threads| && s.threads[t].Inside() {
      assert ThreadOk(s, t);
      var k := s.threads[t].ticket;
      IndexIsSlot(k, s.max);
    }
  }

  // The histories only grow, so what a run established stays true.
  lemma {:induction false} HistoryGrows<T>(s: Ring<T>, schedule: seq<(nat, Action<T>)>)
    requires Inv(s)
    ensures var r := Run(s, schedule);
            && s.pushed <= r.pushed && s.pushers <= r.pushers && s.poppers <= r.poppers
            && s.writeIndex <= r.writeIndex && s.readIndex <= r.readIndex
            && forall k :: k in s.popped ==> k in r.popped && r.popped[k] == s.popped[k]
    decreases |schedule|
  {
    if schedule != [] {
      var (t, a) := schedule[0];
      StepInv(s, t, a);
      StepHistory(s, t, a);
      HistoryGrows(Step(s, t, a), schedule[1..]);
    }
  }

  lemma StepHistory<T>(s: Ring<T>, t: nat, a: Action<T>)
    requires Inv(s)
    ensures var r := Step(s, t, a);
            && s.pushed <= r.pushed && s.pushers <= r.pushers && s.poppers <= r.poppers
            && s.writeIndex <= r.writeIndex && s.readIndex <= r.readIndex
            && forall k :: k in s.popped ==> k in r.popped && r.popped[k] == s.popped[k]
  {
    hide TransIndex, SlotOk, PushOver, PopOver;
    if t < |s.threads| && s.threads[t].PopTag? {
      assert ThreadOk(s, t) && TicketOk(s, s.threads[t].ticket);
    } else {
      OtherHistory(s, t, a);
    }
  }

  lemma {:induction false} OtherHistory<T>(s: Ring<T>, t: nat, a: Action<T>)
    requires Shaped(s) && (t < |s.threads| ==> !s.threads[t].PopTag?)
    ensures var r := Step(s, t, a);
            && s.pushed <= r.pushed && s.pushers <= r.pushers && s.poppers <= r.poppers
            && s.writeIndex <= r.writeIndex && s.readIndex <= r.readIndex && r.popped == s.popped
  {
    if t < |s.threads| {
      var p := s.threads[t];
      if p.PushCas? {
      } else if p.PopCas? {
      } else if p.Pushes() {
      } else if p.Pops() {
      } else {
      }
    }
  }

  // ---------- What a refusal means ----------

  // Nobody but thread `t` moves thread `t`.
  lemma {:induction false} OthersMove<T>(s: Ring<T>, schedule: seq<(nat, Action<T>)>, t: nat)
    requires Shaped(s) && t < |s.threads|
    requires forall i | 0 <= i < |schedule| :: schedule[i].0 != t
    ensures Run(s, schedule).threads[t] == s.threads[t]
    decreases |schedule|
  {
    if schedule != [] {
      assert schedule[0].0 != t;
      OthersMove(Step(s, schedule[0].0, schedule[0].1), schedule[1..], t);
    }
  }

  // The two indices and the copies threads hold of them, for every size.
  ghost predicate Indexed<T>(s: Ring<T>)
  {
    && Shaped(s) && s.readIndex <= s.writeIndex <= s.readIndex + s.max
    && |s.pushed| == |s.pushers| == s.writeIndex && |s.poppers| == s.readIndex
    && forall t: nat | t < |s.threads| :: CopyOk(s, t)
  }

  ghost predicate CopyOk<T>(s: Ring<T>, t: nat)
    requires t < |s.threads|
  {
    match s.threads[t]
    case PushLoadRead(_, w) => w <= s.writeIndex
    case PushCas(_, w) => w <= s.writeIndex && w < s.readIndex + s.max
    case PopLoadRead(w) => w <= s.writeIndex
    case PopCas(r) => r < s.writeIndex
    case _ => true
  }

  lemma StepIndexed<T>(s: Ring<T>, t: nat, a: Action<T>)
    requires Indexed(s)
    ensures var r := Step(s, t, a); Indexed(r) && s.writeIndex <= r.writeIndex
  {
    hide TransIndex, CopyOk;
    var r := Step(s, t, a);
    IndicesMove(s, t, a);
    forall u: nat | u < |r.threads| ensures CopyOk(r, u) { CopyStays(s, t, a, u); }
  }

  lemma {:induction false} IndicesMove<T>(s: Ring<T>, t: nat, a: Action<T>)
    requires Indexed(s)
    ensures var r := Step(s, t, a);
            && s.writeIndex <= r.writeIndex <= r.readIndex + r.max && s.readIndex <= r.readIndex <= r.writeIndex
            && |r.pushed| == |r.pushers| == r.writeIndex && |r.poppers| == r.readIndex
  {
    hide TransIndex;
    if t < |s.threads| {
      var p := s.threads[t];
      assert CopyOk(s, t);
      if p.PushCas? {
      } else if p.PopCas? {
      } else if p.Holds() {
      } else {
      }
    }
  }

  lemma {:induction false} CopyStays<T>(s: Ring<T>, t: nat, a: Action<T>, u: nat)
    requires Indexed(s) && u < |s.threads|
    ensures CopyOk(Step(s, t, a), u)
  {
    hide TransIndex;
    assert CopyOk(s, u);
    IndicesMove(s, t, a);
    if t == u {
      var p := s.threads[t];
      if p.PushLoadWrite? || p.PushLoadRead? || p.PushCas? {
      } else if p.PopLoadWrite? || p.PopLoadRead? || p.PopCas? {
      } else if p.Holds() {
      } else {
      }
    }
  }

  lemma {:induction false} RunIndexed<T>(s: Ring<T>, schedule: seq<(nat, Action<T>)>)
    requires Indexed(s)
    ensures var r := Run(s, schedule); Indexed(r) && s.writeIndex <= r.writeIndex
    decreases |schedule|
  {
    hide Step;
    if schedule != [] {
      StepIndexed(s, schedule[0].0, schedule[0].1);
      RunIndexed(Step(s, schedule[0].0, schedule[0].1), schedule[1..]);
    }
  }

  // In every run, whatever the size: no more than `max` tickets are ever out.
  lemma IndicesWithinOneLap<T>(max: nat, n: nat, schedule: seq<(nat, Action<T>)>)
    requires max > 0
    ensures Indexed(Run(Init<T>(max, n), schedule))
  {
    RunIndexed(Init<T>(max, n), schedule);
  }

  // A push loads the write index, other threads move, then it loads the read index.
  lemma {:induction false} PushLoads<T>(s: Ring<T>, t: nat, others: seq<(nat, Action<T>)>)
    requires Indexed(s) && t < |s.threads| && s.threads[t].PushLoadWrite?
    requires forall i | 0 <= i < |others| :: others[i].0 != t
    ensures var m := Run(Step(s, t, Proceed), others);
            Indexed(m) && m.threads[t] == PushLoadRead(s.threads[t].item, s.writeIndex) && s.writeIndex <= m.writeIndex
  {
    var s1 := Step(s, t, Proceed);
    StepIndexed(s, t, Proceed);
    RunIndexed(s1, others);
    OthersMove(s1, others, t);
  }

  // `Push_CAS` answers false exactly when the queue holds `max` tickets at the moment it loads the
  // read index, and none was added since it loaded the write index.
  lemma {:induction false} PushRefusal<T>(s: Ring<T>, t: nat, others: seq<(nat, Action<T>)>)
    requires Indexed(s) && t < |s.threads| && s.threads[t].PushLoadWrite?
    requires forall i | 0 <= i < |others| :: others[i].0 != t
    ensures var m := Run(Step(s, t, Proceed), others);
            Step(m, t, Proceed).threads[t] == Idle(Pushed(false)) <==>
              m.writeIndex == m.readIndex + m.max && m.writeIndex == s.writeIndex
  {
    PushLoads(s, t, others);
  }

  // `Pop_CAS` answers false exactly when every ticket issued by the time it loaded the write index
  // is claimed by the time it loads the read index.
  lemma {:induction false} PopRefusal<T>(s: Ring<T>, t: nat, others: seq<(nat, Action<T>)>)
    requires Indexed(s) && t < |s.threads| && s.threads[t].PopLoadWrite?
    requires forall i | 0 <= i < |others| :: others[i].0 != t
    ensures var m := Run(Step(s, t, Proceed), others);
            Step(m, t, Proceed).threads[t] == Idle(Popped(None)) <==> |m.poppers| >= |s.pushed|
  {
    var s1 := Step(s, t, Proceed);
    StepIndexed(s, t, Proceed);
    RunIndexed(s1, others);
    OthersMove(s1, others, t);
  }
}
