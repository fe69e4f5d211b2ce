// The bounded multi-producer/multi-consumer ring, one atomic access per step, on
// unbounded counters.  Any number of threads run `push` and `pop`; a schedule says
// which thread moves next, what an idle thread calls, and which weak
// compare-and-swaps fail spuriously.
module TicketRing {
  import opened Wrappers
  import opened Slots

  datatype Outcome<T> =
    | NoCall
    | Pushed(accepted: bool)
    | Popped(result: Option<T>)

  // Where a thread is inside `push` or `pop`, with its locals.
  datatype Phase<T> =
    | Idle(last: Outcome<T>)
    | LoadTail(item: T)
    | TestTail(item: T, ticket: nat)
    | CasTail(item: T, ticket: nat)
    | Construct(item: T, ticket: nat)
    | Publish(item: T, ticket: nat)
    | LoadHead
    | TestHead(ticket: nat)
    | CasHead(ticket: nat)
    | ReadItem(ticket: nat)
    | Destroy(item: T, ticket: nat)
    | Release(item: T, ticket: nat)
  {
    // Between the winning compare-and-swap and the release of the slot's stamp.
    predicate Writes() { Construct? || Publish? }
    predicate Reads() { ReadItem? || Destroy? || Release? }
    predicate Owns() { Writes() || Reads() }
    // The next step touches the data of the slot.
    predicate TouchesData() { Construct? || ReadItem? || Destroy? }
  }

  datatype Action<T> = CallPush(item: T) | CallPop | Proceed | FailSpuriously

  datatype Ring<T> = Ring(
    capacity: nat,
    tail: nat,
    head: nat,
    tailStamp: seq<nat>,
    headStamp: seq<int>,
    cell: seq<Option<T>>,        // None is raw memory, Some a constructed object
    threads: seq<Phase<T>>,
    // History: by ticket, the item pushed, who claimed it, and who claims its pop;
    // by ticket, what a completed pop returned; tickets constructed and destroyed.
    pushed: seq<T>,
    pushers: seq<nat>,
    poppers: seq<nat>,
    popped: map<nat, T>,
    constructed: multiset<nat>,
    destroyed: multiset<nat>)

  ghost predicate Shaped<T>(s: Ring<T>)
  {
    && s.capacity > 0
    && |s.tailStamp| == |s.headStamp| == |s.cell| == s.capacity
  }

  function At<T>(s: Ring<T>, t: nat, p: Phase<T>): Ring<T>
    requires t < |s.threads|
  {
    s.(threads := s.threads[t := p])
  }

  // The retry loop of both operations: a failed compare-and-swap reloads the counter.
  function StepCasTail<T>(s: Ring<T>, t: nat, fails: bool): Ring<T>
    requires t < |s.threads| && s.threads[t].CasTail?
  {
    var p := s.threads[t];
    if s.tail == p.ticket && !fails then
      At(s, t, Construct(p.item, p.ticket)).(
        tail := s.tail + 1, pushed := s.pushed + [p.item], pushers := s.pushers + [t])
    else
      At(s, t, TestTail(p.item, s.tail))
  }

  function StepCasHead<T>(s: Ring<T>, t: nat, fails: bool): Ring<T>
    requires t < |s.threads| && s.threads[t].CasHead?
  {
    var p := s.threads[t];
    if s.head == p.ticket && !fails then
      At(s, t, ReadItem(p.ticket)).(head := s.head + 1, poppers := s.poppers + [t])
    else
      At(s, t, TestHead(s.head))
  }

  function StepTestTail<T>(s: Ring<T>, t: nat): Ring<T>
    requires Shaped(s) && t < |s.threads| && s.threads[t].TestTail?
  {
    var p := s.threads[t];
    if s.tailStamp[Slot(p.ticket, s.capacity)] != p.ticket then At(s, t, Idle(Pushed(false)))
    else At(s, t, CasTail(p.item, p.ticket))
  }

  function StepTestHead<T>(s: Ring<T>, t: nat): Ring<T>
    requires Shaped(s) && t < |s.threads| && s.threads[t].TestHead?
  {
    var p := s.threads[t];
    if s.headStamp[Slot(p.ticket, s.capacity)] != p.ticket then At(s, t, Idle(Popped(None)))
    else At(s, t, CasHead(p.ticket))
  }

  function StepConstruct<T>(s: Ring<T>, t: nat): Ring<T>
    requires Shaped(s) && t < |s.threads| && s.threads[t].Construct?
  {
    var p := s.threads[t];
    At(s, t, Publish(p.item, p.ticket)).(
      cell := s.cell[Slot(p.ticket, s.capacity) := Some(p.item)],
      constructed := s.constructed + multiset{p.ticket})
  }

  function StepPublish<T>(s: Ring<T>, t: nat): Ring<T>
    requires Shaped(s) && t < |s.threads| && s.threads[t].Publish?
  {
    var p := s.threads[t];
    At(s, t, Idle(Pushed(true))).(headStamp := s.headStamp[Slot(p.ticket, s.capacity) := p.ticket])
  }

  // Reading raw memory has no meaning: the step is then not enabled.
  function StepReadItem<T>(s: Ring<T>, t: nat): Ring<T>
    requires Shaped(s) && t < |s.threads| && s.threads[t].ReadItem?
  {
    var p := s.threads[t];
    var c := s.cell[Slot(p.ticket, s.capacity)];
    if c.None? then s else At(s, t, Destroy(c.value, p.ticket))
  }

  function StepDestroy<T>(s: Ring<T>, t: nat): Ring<T>
    requires Shaped(s) && t < |s.threads| && s.threads[t].Destroy?
  {
    var p := s.threads[t];
    At(s, t, Release(p.item, p.ticket)).(
      cell := s.cell[Slot(p.ticket, s.capacity) := None],
      destroyed := s.destroyed + multiset{p.ticket})
  }

  function StepRelease<T>(s: Ring<T>, t: nat): Ring<T>
    requires Shaped(s) && t < |s.threads| && s.threads[t].Release?
  {
    var p := s.threads[t];
    At(s, t, Idle(Popped(Some(p.item)))).(
      tailStamp := s.tailStamp[Slot(p.ticket, s.capacity) := p.ticket + s.capacity],
      popped := s.popped[p.ticket := p.item])
  }

  function Step<T>(s: Ring<T>, t: nat, a: Action<T>): (r: Ring<T>)
    requires Shaped(s)
    ensures Shaped(r) && r.capacity == s.capacity && |r.threads| == |s.threads|
  {
    if t >= |s.threads| then s
    else match s.threads[t]
      case Idle(_) =>
        (match a
         case CallPush(x) => At(s, t, LoadTail(x))
         case CallPop => At(s, t, LoadHead)
         case _ => s)
      case LoadTail(x) => At(s, t, TestTail(x, s.tail))
      case TestTail(_, _) => StepTestTail(s, t)
      case CasTail(_, _) => StepCasTail(s, t, a.FailSpuriously?)
      case Construct(_, _) => StepConstruct(s, t)
      case Publish(_, _) => StepPublish(s, t)
      case LoadHead => At(s, t, TestHead(s.head))
      case TestHead(_) => StepTestHead(s, t)
      case CasHead(_) => StepCasHead(s, t, a.FailSpuriously?)
      case ReadItem(_) => StepReadItem(s, t)
      case Destroy(_, _) => StepDestroy(s, t)
      case Release(_, _) => StepRelease(s, t)
  }

  function Init<T>(capacity: nat, n: nat): Ring<T>
    requires capacity > 0
  {
    Ring(capacity, 0, 0, seq(capacity, i requires 0 <= i => i), seq(capacity, _ => -1), seq(capacity, _ => None),
         seq(n, _ => Idle(NoCall)), [], [], [], map[], multiset{}, multiset{})
  }

  // A whole run: `schedule` lists who moves and how.
  function Run<T>(s: Ring<T>, schedule: seq<(nat, Action<T>)>): (r: Ring<T>)
    requires Shaped(s)
    ensures Shaped(r) && r.capacity == s.capacity && |r.threads| == |s.threads|
    decreases |schedule|
  {
    if schedule == [] then s
    else Run(Step(s, schedule[0].0, schedule[0].1), schedule[1..])
  }

  // ---------- The invariant ----------

  // The head stamp a slot carries until ticket `k` is published in it.
  function Before(k: nat, c: nat): int
  {
    if k < c then -1 else k - c
  }

  ghost predicate Counters<T>(s: Ring<T>)
  {
    && Shaped(s)
    && s.head <= s.tail <= s.head + s.capacity
    && |s.pushed| == |s.pushers| == s.tail
    && |s.poppers| == s.head
  }

  // The two stamps of slot `i` say which ticket the slot serves and how far it is.
  ghost predicate SlotOk<T>(s: Ring<T>, i: nat)
    requires Counters(s) && i < s.capacity
  {
    var k := s.tailStamp[i];
    && Slot(k, s.capacity) == i
    && k < s.head + s.capacity
    && s.tail <= k + s.capacity
    && (s.headStamp[i] == k || s.headStamp[i] == Before(k, s.capacity))
    && (s.headStamp[i] == k ==> Published(s, i, k))
    && (s.headStamp[i] != k ==> Unpublished(s, i, k))
  }

  ghost predicate Published<T>(s: Ring<T>, i: nat, k: nat)
    requires Counters(s) && i < s.capacity
  {
    && k < s.tail
    && (k >= s.head ==> s.cell[i] == Some(s.pushed[k]))
    && (k < s.head ==>
        && s.poppers[k] < |s.threads|
        && s.threads[s.poppers[k]].Reads() && s.threads[s.poppers[k]].ticket == k)
  }

  ghost predicate Unpublished<T>(s: Ring<T>, i: nat, k: nat)
    requires Counters(s) && i < s.capacity
  {
    && k >= s.head
    && (k >= s.tail ==> s.cell[i] == None)
    && (k < s.tail ==>
        && s.pushers[k] < |s.threads|
        && s.threads[s.pushers[k]].Writes() && s.threads[s.pushers[k]].ticket == k)
  }

  ghost predicate ThreadOk<T>(s: Ring<T>, t: nat)
    requires Counters(s) && t < |s.threads|
  {
    match s.threads[t]
    case TestTail(_, k) => k <= s.tail
    case CasTail(_, k) => k <= s.tail && k <= s.tailStamp[Slot(k, s.capacity)]
    case Construct(x, k) => WriterOk(s, t, x, k) && s.cell[Slot(k, s.capacity)] == None
    case Publish(x, k) => WriterOk(s, t, x, k) && s.cell[Slot(k, s.capacity)] == Some(x)
    case TestHead(k) => k <= s.head
    case CasHead(k) => k <= s.head && k <= s.headStamp[Slot(k, s.capacity)]
    case ReadItem(k) => ReaderOk(s, t, k) && s.cell[Slot(k, s.capacity)] == Some(s.pushed[k])
    case Destroy(x, k) => ReaderOk(s, t, k) && s.cell[Slot(k, s.capacity)] == Some(x) && x == s.pushed[k]
    case Release(x, k) => ReaderOk(s, t, k) && s.cell[Slot(k, s.capacity)] == None && x == s.pushed[k]
    case _ => true
  }

  ghost predicate WriterOk<T>(s: Ring<T>, t: nat, x: T, k: nat)
    requires Counters(s)
  {
    && s.head <= k < s.tail && s.pushed[k] == x && s.pushers[k] == t
    && s.tailStamp[Slot(k, s.capacity)] == k
    && s.headStamp[Slot(k, s.capacity)] == Before(k, s.capacity)
  }

  ghost predicate ReaderOk<T>(s: Ring<T>, t: nat, k: nat)
    requires Counters(s)
  {
    && k < s.head && s.poppers[k] == t
    && s.tailStamp[Slot(k, s.capacity)] == k
    && s.headStamp[Slot(k, s.capacity)] == k
  }

  // By ticket: what was constructed and destroyed, and what pops returned.
  ghost predicate TicketOk<T>(s: Ring<T>, k: nat)
    requires Counters(s)
  {
    var i := Slot(k, s.capacity);
    && s.constructed[k] ==
       (if k < s.tailStamp[i] || (k == s.tailStamp[i] && (s.headStamp[i] == k || s.cell[i].Some?)) then 1 else 0)
    && s.destroyed[k] ==
       (if k < s.tailStamp[i] || (k == s.tailStamp[i] && s.headStamp[i] == k && s.cell[i].None?) then 1 else 0)
    && (k in s.popped <==> k < s.tailStamp[i])
    && (k in s.popped ==> k < s.head && s.popped[k] == s.pushed[k])
  }

  ghost predicate Inv<T>(s: Ring<T>)
  {
    && Counters(s)
    && (forall i :: 0 <= i < s.capacity ==> SlotOk(s, i))
    && (forall t :: 0 <= t < |s.threads| ==> ThreadOk(s, t))
    && (forall k: nat :: TicketOk(s, k))
  }

  // ---------- Slots ----------

  // The ticket a slot serves is the only one of its residue in reach.
  lemma Serves<T>(s: Ring<T>, k: nat)
    requires Counters(s) && SlotOk(s, Slot(k, s.capacity))
    ensures var ts := s.tailStamp[Slot(k, s.capacity)];
            && (k < ts ==> k + s.capacity <= ts && k < s.head)
            && (ts < k ==> ts + s.capacity <= k && s.tail <= k)
  {
    var ts := s.tailStamp[Slot(k, s.capacity)];
    if k < ts {
      SlotApart(k, ts, s.capacity);
    } else if ts < k {
      SlotApart(ts, k, s.capacity);
    }
  }

  // ---------- Every step keeps the invariant ----------

  lemma InitInv<T>(capacity: nat, n: nat)
    requires capacity > 0
    ensures Inv(Init<T>(capacity, n))
  {
    var s := Init<T>(capacity, n);
    forall k: nat ensures TicketOk(s, k) {
      if k >= capacity { SlotBelow(k, capacity); }
    }
  }

  // A step that writes nothing shared.
  lemma LocalInv<T>(s: Ring<T>, t: nat, p: Phase<T>)
    requires Inv(s) && t < |s.threads| && !s.threads[t].Owns() && !p.Owns()
    requires ThreadOk(At(s, t, p), t)
    ensures Inv(At(s, t, p))
  {
    var s' := At(s, t, p);
    forall i | 0 <= i < s.capacity ensures SlotOk(s', i) {
      assert SlotOk(s, i);
    }
    forall u | 0 <= u < |s.threads| ensures ThreadOk(s', u) {
      assert ThreadOk(s, u);
    }
    forall k: nat ensures TicketOk(s', k) {
      assert TicketOk(s, k);
    }
  }

  // However old the test of the stamp is, the compare-and-swap wins only while it holds.
  lemma PushWinsUnderStamp<T>(s: Ring<T>, t: nat)
    requires Inv(s) && t < |s.threads| && s.threads[t].CasTail? && s.tail == s.threads[t].ticket
    ensures var i := Slot(s.tail, s.capacity);
            && s.tailStamp[i] == s.tail && s.headStamp[i] == Before(s.tail, s.capacity)
            && s.cell[i] == None && s.tail < s.head + s.capacity
  {
    assert ThreadOk(s, t) && SlotOk(s, Slot(s.tail, s.capacity));
    Serves(s, s.tail);
  }

  lemma PopWinsUnderStamp<T>(s: Ring<T>, t: nat)
    requires Inv(s) && t < |s.threads| && s.threads[t].CasHead? && s.head == s.threads[t].ticket
    ensures var i := Slot(s.head, s.capacity);
            && s.headStamp[i] == s.tailStamp[i] == s.head
            && s.head < s.tail && s.cell[i] == Some(s.pushed[s.head])
  {
    assert ThreadOk(s, t) && SlotOk(s, Slot(s.head, s.capacity));
    Serves(s, s.head);
  }

  lemma CasTailInv<T>(s: Ring<T>, t: nat)
    requires Inv(s) && t < |s.threads| && s.threads[t].CasTail? && s.tail == s.threads[t].ticket
    ensures Inv(StepCasTail(s, t, false))
  {
    var s' := StepCasTail(s, t, false);
    var c, n := s.capacity, s.tail;
    PushWinsUnderStamp(s, t);
    forall i | 0 <= i < c ensures SlotOk(s', i) {
      assert SlotOk(s, i);
      if i == Slot(n, c) {
        assert s.tailStamp[i] == n;
      }
    }
    forall u | 0 <= u < |s.threads| ensures ThreadOk(s', u) {
      assert ThreadOk(s, u);
    }
    forall k: nat ensures TicketOk(s', k) {
      assert TicketOk(s, k);
    }
  }

  lemma CasHeadInv<T>(s: Ring<T>, t: nat)
    requires Inv(s) && t < |s.threads| && s.threads[t] == CasHead(s.head)
    ensures Inv(StepCasHead(s, t, false))
  {
    var s' := StepCasHead(s, t, false);
    PopWinsUnderStamp(s, t);
    forall i | 0 <= i < s.capacity ensures SlotOk(s', i) {
      assert SlotOk(s, i);
    }
    forall u | 0 <= u < |s.threads| ensures ThreadOk(s', u) {
      assert ThreadOk(s, u);
    }
    forall k: nat ensures TicketOk(s', k) {
      assert TicketOk(s, k);
    }
  }

  // Two threads between their compare-and-swap and their release own different slots.
  lemma OwnersApart<T>(s: Ring<T>, t: nat, u: nat)
    requires Inv(s) && t < |s.threads| && u < |s.threads| && t != u
    requires s.threads[t].Owns() && s.threads[u].Owns()
    ensures Slot(s.threads[t].ticket, s.capacity) != Slot(s.threads[u].ticket, s.capacity)
  {
    assert ThreadOk(s, t) && ThreadOk(s, u);
  }

  // From `s` to `r` only slot, thread and tickets of the owner `t` differ, and stamps only grow.
  ghost predicate ChangesOwn<T>(s: Ring<T>, r: Ring<T>, t: nat)
    requires Shaped(s) && Shaped(r) && t < |s.threads| && s.threads[t].Owns()
  {
    var n := s.threads[t].ticket;
    var own := Slot(n, s.capacity);
    && r.capacity == s.capacity && r.tail == s.tail && r.head == s.head
    && r.pushed == s.pushed && r.pushers == s.pushers && r.poppers == s.poppers
    && |r.threads| == |s.threads| && (forall u | 0 <= u < |s.threads| && u != t :: r.threads[u] == s.threads[u])
    && (forall i | 0 <= i < s.capacity && i != own ::
          r.tailStamp[i] == s.tailStamp[i] && r.headStamp[i] == s.headStamp[i] && r.cell[i] == s.cell[i])
    && r.tailStamp[own] >= s.tailStamp[own] && r.headStamp[own] >= s.headStamp[own]
    && (forall k: nat | Slot(k, s.capacity) != own ::
          r.constructed[k] == s.constructed[k] && r.destroyed[k] == s.destroyed[k]
          && (k in r.popped <==> k in s.popped) && (k in s.popped ==> r.popped[k] == s.popped[k]))
  }

  lemma OwnerStep<T>(s: Ring<T>, s': Ring<T>, t: nat)
    requires Inv(s) && t < |s.threads| && s.threads[t].Owns()
    requires Counters(s') && ChangesOwn(s, s', t)
    requires SlotOk(s', Slot(s.threads[t].ticket, s.capacity)) && ThreadOk(s', t)
    requires forall k: nat | Slot(k, s.capacity) == Slot(s.threads[t].ticket, s.capacity) :: TicketOk(s', k)
    ensures Inv(s')
  {
    hide Slot;
    OwnerThreads(s, s', t);
    OwnerSlots(s, s', t);
    forall k: nat ensures TicketOk(s', k) {
      assert TicketOk(s, k);
    }
  }

  lemma OwnerThreads<T>(s: Ring<T>, s': Ring<T>, t: nat)
    requires Inv(s) && t < |s.threads| && s.threads[t].Owns()
    requires Counters(s') && ChangesOwn(s, s', t) && ThreadOk(s', t)
    ensures forall u | 0 <= u < |s'.threads| :: ThreadOk(s', u)
  {
    hide Slot, TicketOk;
    assert ThreadOk(s, t);
    forall u | 0 <= u < |s.threads| ensures ThreadOk(s', u) {
      assert ThreadOk(s, u);
      if u != t && s.threads[u].Owns() {
        OwnersApart(s, t, u);
      }
    }
  }

  lemma OwnerSlots<T>(s: Ring<T>, s': Ring<T>, t: nat)
    requires Inv(s) && t < |s.threads| && s.threads[t].Owns()
    requires Counters(s') && ChangesOwn(s, s', t) && SlotOk(s', Slot(s.threads[t].ticket, s.capacity))
    ensures forall i | 0 <= i < s'.capacity :: SlotOk(s', i)
  {
    hide Slot, TicketOk;
    assert ThreadOk(s, t);
    forall i | 0 <= i < s.capacity ensures SlotOk(s', i) {
      assert SlotOk(s, i);
    }
  }

  lemma ConstructInv<T>(s: Ring<T>, t: nat)
    requires Inv(s) && t < |s.threads| && s.threads[t].Construct?
    ensures Inv(StepConstruct(s, t))
  {
    hide Slot;
    var s' := StepConstruct(s, t);
    var i := Slot(s.threads[t].ticket, s.capacity);
    assert ThreadOk(s, t) && SlotOk(s, i);
    forall k: nat | Slot(k, s.capacity) == i ensures TicketOk(s', k) {
      assert TicketOk(s, k);
    }
    OwnerStep(s, s', t);
  }

  lemma PublishInv<T>(s: Ring<T>, t: nat)
    requires Inv(s) && t < |s.threads| && s.threads[t].Publish?
    ensures Inv(StepPublish(s, t))
  {
    hide Slot;
    var s' := StepPublish(s, t);
    var i := Slot(s.threads[t].ticket, s.capacity);
    assert ThreadOk(s, t) && SlotOk(s, i);
    forall k: nat | Slot(k, s.capacity) == i ensures TicketOk(s', k) {
      assert TicketOk(s, k);
    }
    OwnerStep(s, s', t);
  }

  // A reader always finds a constructed object.
  lemma ReadItemInv<T>(s: Ring<T>, t: nat)
    requires Inv(s) && t < |s.threads| && s.threads[t].ReadItem?
    ensures Inv(StepReadItem(s, t)) && StepReadItem(s, t).threads[t].Destroy?
  {
    hide Slot;
    var s' := StepReadItem(s, t);
    var i := Slot(s.threads[t].ticket, s.capacity);
    assert ThreadOk(s, t) && SlotOk(s, i);
    forall k: nat | Slot(k, s.capacity) == i ensures TicketOk(s', k) {
      assert TicketOk(s, k);
    }
    OwnerStep(s, s', t);
  }

  lemma DestroyInv<T>(s: Ring<T>, t: nat)
    requires Inv(s) && t < |s.threads| && s.threads[t].Destroy?
    ensures Inv(StepDestroy(s, t))
  {
    hide Slot;
    var s' := StepDestroy(s, t);
    var i := Slot(s.threads[t].ticket, s.capacity);
    assert ThreadOk(s, t) && SlotOk(s, i);
    forall k: nat | Slot(k, s.capacity) == i ensures TicketOk(s', k) {
      assert TicketOk(s, k);
    }
    OwnerStep(s, s', t);
  }

  lemma ReleaseInv<T>(s: Ring<T>, t: nat)
    requires Inv(s) && t < |s.threads| && s.threads[t].Release?
    ensures Inv(StepRelease(s, t))
  {
    hide Slot;
    var s' := StepRelease(s, t);
    var n := s.threads[t].ticket;
    var i := Slot(n, s.capacity);
    SlotShift(n, s.capacity);
    assert ThreadOk(s, t) && SlotOk(s, i);
    forall k: nat | Slot(k, s.capacity) == i ensures TicketOk(s', k) {
      assert TicketOk(s, k);
      if n < k {
        SlotApart(n, k, s.capacity);
      }
    }
    OwnerStep(s, s', t);
  }

  lemma RetryInv<T>(s: Ring<T>, t: nat, fails: bool)
    requires Inv(s) && t < |s.threads| && (s.threads[t].CasTail? || s.threads[t].CasHead?)
    ensures s.threads[t].CasTail? ==> Inv(StepCasTail(s, t, fails))
    ensures s.threads[t].CasHead? ==> Inv(StepCasHead(s, t, fails))
  {
    var p := s.threads[t];
    if p.CasTail? {
      if s.tail == p.ticket && !fails { CasTailInv(s, t); } else { LocalInv(s, t, TestTail(p.item, s.tail)); }
    } else {
      if s.head == p.ticket && !fails { CasHeadInv(s, t); } else { LocalInv(s, t, TestHead(s.head)); }
    }
  }

  lemma TestInv<T>(s: Ring<T>, t: nat)
    requires Inv(s) && t < |s.threads| && (s.threads[t].TestTail? || s.threads[t].TestHead?)
    ensures s.threads[t].TestTail? ==> Inv(StepTestTail(s, t))
    ensures s.threads[t].TestHead? ==> Inv(StepTestHead(s, t))
  {
    var p := s.threads[t];
    assert ThreadOk(s, t);
    if p.TestTail? {
      LocalInv(s, t, StepTestTail(s, t).threads[t]);
    } else {
      LocalInv(s, t, StepTestHead(s, t).threads[t]);
    }
  }
}
