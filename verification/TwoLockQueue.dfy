// The linked queue with one mutex at each end and an empty node at the tail.  Pushers and
// poppers run at the same time; every lock, every access to a node and every update of the
// two ends is a step of its own; taking the successor out of the node being unlinked reads and
// clears it in one.  Freed nodes may be allocated again.
module TwoLockQueue {
  import opened Wrappers

  // Which operation a popper runs: by pointer or into a variable, giving up or waiting, or `empty`.
  datatype How = TryPop | TryPopInto | WaitAndPop | WaitAndPopInto | TestEmpty
  {
    predicate Into() { TryPopInto? || WaitAndPopInto? }
    predicate Waits() { WaitAndPop? || WaitAndPopInto? }
  }

  datatype Outcome<T> = NoCall | Pushed | Popped(result: Option<T>) | Emptiness(answer: bool)

  datatype Node<T> = Node(data: Option<T>, next: Option<nat>)

  datatype Phase<T> =
    | Idle(outcome: Outcome<T>)
    | PushLock(item: T, node: nat)
    | PushData(item: T, node: nat)
    | PushNext(item: T, node: nat)
    | PushTail(item: T, node: nat)
    | PushUnlock
    | PopLock(how: How)
    | PopHead(how: How)
    | PopLockTail(how: How, first: nat)
    | PopTail(how: How, first: nat)
    | PopUnlockTail(how: How, first: nat, last: nat)
    | PopCompare(how: How, first: nat, last: nat)
    | PopCopy(how: How)
    | PopUnlink(how: How, copied: Option<T>)
    | PopAdvance(how: How, copied: Option<T>, node: nat)
    | PopSetHead(how: How, copied: Option<T>, node: nat, ticket: nat, next: Option<nat>)
    | PopUnlock(how: How, copied: Option<T>, node: nat, ticket: nat)
    | PopRead(how: How, copied: Option<T>, node: nat, ticket: nat)
    | PopFree(item: T, node: nat, ticket: nat)
    | PopReport(how: How, answer: bool)
  {
    predicate HoldsTail() { PushData? || PushNext? || PushTail? || PushUnlock? || PopTail? || PopUnlockTail? }

    predicate HoldsHead()
    {
      PopHead? || PopLockTail? || PopTail? || PopUnlockTail? || PopCompare? || PopCopy? || PopUnlink? || PopAdvance?
      || PopSetHead? || PopUnlock? || PopReport?
    }

    predicate Adds() { PushLock? || PushData? || PushNext? || PushTail? || PushUnlock? }

    predicate Takes() { PopCopy? || PopUnlink? || PopAdvance? || PopSetHead? || PopUnlock? || PopRead? || PopFree? }

    // The node is off the chain and in this thread's hands.
    predicate Carries() { PopSetHead? || PopUnlock? || PopRead? || PopFree? }

    // A node only this thread can reach.
    predicate Owns() { PushLock? || PushData? || PushNext? || PushTail? || Carries() }
  }

  datatype Action<T> = CallPush(item: T, space: nat) | CallPop(how: How) | Proceed

  datatype Queue<T> = Queue(
    heap: map<nat, Node<T>>,
    head: Option<nat>,
    tail: nat,
    headMutex: Option<nat>,
    tailMutex: Option<nat>,
    threads: seq<Phase<T>>,
    fault: bool,                // a node was used that is not allocated, or freed with its successors
    // The nodes from the first to the tail, and the histories: items pushed, who unlinked them, what was returned.
    chain: seq<nat>,
    pushed: seq<T>,
    takers: seq<nat>,
    returned: map<nat, T>)

  function At<T>(s: Queue<T>, t: nat, p: Phase<T>): Queue<T>
    requires t < |s.threads|
  {
    s.(threads := s.threads[t := p])
  }

  function StepPush<T>(s: Queue<T>, t: nat): Queue<T>
    requires t < |s.threads|
  {
    match s.threads[t]
    case PushLock(x, a) => if s.tailMutex.Some? then s else At(s, t, PushData(x, a)).(tailMutex := Some(t))
    case PushData(x, a) =>
      if s.tail !in s.heap then s.(fault := true)
      else At(s, t, PushNext(x, a)).(heap := s.heap[s.tail := s.heap[s.tail].(data := Some(x))])
    case PushNext(x, a) =>
      if s.tail !in s.heap then s.(fault := true)
      else At(s, t, PushTail(x, a)).(heap := s.heap[s.tail := s.heap[s.tail].(next := Some(a))])
    case PushTail(x, a) => At(s, t, PushUnlock).(tail := a, chain := s.chain + [a], pushed := s.pushed + [x])
    case PushUnlock => At(s, t, Idle(Pushed)).(tailMutex := None)
    case _ => s
  }

  function StepLook<T>(s: Queue<T>, t: nat): Queue<T>
    requires t < |s.threads|
  {
    match s.threads[t]
    case PopLock(how) => if s.headMutex.Some? then s else At(s, t, PopHead(how)).(headMutex := Some(t))
    case PopHead(how) => if s.head.None? then s.(fault := true) else At(s, t, PopLockTail(how, s.head.value))
    case PopLockTail(how, h) => if s.tailMutex.Some? then s else At(s, t, PopTail(how, h)).(tailMutex := Some(t))
    case PopTail(how, h) => At(s, t, PopUnlockTail(how, h, s.tail))
    case PopUnlockTail(how, h, e) => At(s, t, PopCompare(how, h, e)).(tailMutex := None)
    case PopCompare(how, h, e) =>
      if how.TestEmpty? || h == e then At(s, t, PopReport(how, h == e))
      else if how.Into() then At(s, t, PopCopy(how))
      else At(s, t, PopUnlink(how, None))
    case PopReport(how, b) =>
      // A waiting popper lets go of the mutex and tries again.
      var p := if how.TestEmpty? then Idle(Emptiness(b)) else if how.Waits() then PopLock(how) else Idle(Popped(None));
      At(s, t, p).(headMutex := None)
    case _ => s
  }

  function StepTake<T>(s: Queue<T>, t: nat): Queue<T>
    requires t < |s.threads|
  {
    match s.threads[t]
    case PopCopy(how) =>
      // Moving the item out leaves the node without one.
      if s.head.None? || s.head.value !in s.heap || s.heap[s.head.value].data.None? then s.(fault := true)
      else
        var h := s.head.value;
        At(s, t, PopUnlink(how, s.heap[h].data)).(heap := s.heap[h := s.heap[h].(data := None)])
    case PopUnlink(how, x) =>
      if s.head.None? then s.(fault := true) else At(s, t, PopAdvance(how, x, s.head.value)).(head := None)
    case PopAdvance(how, x, a) =>
      if a !in s.heap || |s.chain| < 2 then s.(fault := true)
      else
        At(s, t, PopSetHead(how, x, a, |s.takers|, s.heap[a].next)).(
          heap := s.heap[a := s.heap[a].(next := None)], chain := s.chain[1..], takers := s.takers + [t])
    case PopSetHead(how, x, a, k, next) => At(s, t, PopUnlock(how, x, a, k)).(head := next)
    case PopUnlock(how, x, a, k) => At(s, t, PopRead(how, x, a, k)).(headMutex := None)
    case PopRead(how, x, a, k) =>
      if x.Some? then At(s, t, PopFree(x.value, a, k))
      else if a !in s.heap || s.heap[a].data.None? then s.(fault := true)
      else At(s, t, PopFree(s.heap[a].data.value, a, k))
    case PopFree(x, a, k) =>
      if a !in s.heap || s.heap[a].next.Some? then s.(fault := true)
      else At(s, t, Idle(Popped(Some(x)))).(heap := s.heap - {a}, returned := s.returned[k := x])
    case _ => s
  }

  function Step<T>(s: Queue<T>, t: nat, a: Action<T>): (r: Queue<T>)
    ensures |r.threads| == |s.threads|
  {
    if t >= |s.threads| then s
    else if s.threads[t].Idle? then
      match a
      // The node is allocated before any lock is taken; an address in use cannot be handed out.
      case CallPush(x, n) => if n in s.heap then s else At(s, t, PushLock(x, n)).(heap := s.heap[n := Node(None, None)])
      case CallPop(how) => At(s, t, PopLock(how))
      case Proceed => s
    else if s.threads[t].Adds() then StepPush(s, t)
    else if s.threads[t].Takes() then StepTake(s, t)
    else StepLook(s, t)
  }

  function Run<T>(s: Queue<T>, schedule: seq<(nat, Action<T>)>): (r: Queue<T>)
    ensures |r.threads| == |s.threads|
    decreases |schedule|
  {
    if schedule == [] then s else Run(Step(s, schedule[0].0, schedule[0].1), schedule[1..])
  }

  function Init<T>(dummy: nat, n: nat): Queue<T>
  {
    Queue(map[dummy := Node(None, None)], Some(dummy), dummy, None, None, seq(n, _ => Idle(NoCall)), false, [dummy],
        [], [], map[])
  }

  // ---------- The invariant ----------

  ghost predicate Counters<T>(s: Queue<T>)
  {
    && !s.fault
    && |s.chain| >= 1 && |s.pushed| == |s.takers| + |s.chain| - 1
    && s.tail == s.chain[|s.chain| - 1]
  }

  ghost predicate Locked<T>(s: Queue<T>)
  {
    forall t: nat | t < |s.threads| ::
      && (s.threads[t].HoldsHead() <==> s.headMutex == Some(t))
      && (s.threads[t].HoldsTail() <==> s.tailMutex == Some(t))
  }

  ghost predicate MutexesHeld<T>(s: Queue<T>)
  {
    && (s.headMutex.Some? ==> s.headMutex.value < |s.threads|)
    && (s.tailMutex.Some? ==> s.tailMutex.value < |s.threads|)
  }

  // The first node may have had its item moved out, by the holder of the head mutex.
  ghost predicate Emptied<T>(s: Queue<T>)
  {
    s.headMutex.Some? && s.headMutex.value < |s.threads| &&
    var p := s.threads[s.headMutex.value];
    (p.PopUnlink? || p.PopAdvance?) && p.copied.Some?
  }

  ghost predicate LinkOk<T>(s: Queue<T>, j: nat)
    requires Counters(s) && j < |s.chain|
  {
    && s.chain[j] in s.heap
    && (j < |s.chain| - 1 ==> s.heap[s.chain[j]].next == Some(s.chain[j + 1]))
    && (j < |s.chain| - 1 && (j > 0 || !Emptied(s)) ==> s.heap[s.chain[j]].data == Some(s.pushed[|s.takers| + j]))
  }

  // The tail node is empty, up to what the pusher holding the tail mutex has written.
  ghost predicate TailOk<T>(s: Queue<T>)
    requires Counters(s)
  {
    s.tail in s.heap && s.heap[s.tail].next.Some? ==>
      s.tailMutex.Some? && s.tailMutex.value < |s.threads| && s.threads[s.tailMutex.value].PushTail?
  }

  ghost predicate ThreadOk<T>(s: Queue<T>, t: nat)
    requires Counters(s) && t < |s.threads|
  {
    var p := s.threads[t];
    && (p.Owns() ==> p.node in s.heap && p.node !in s.chain && s.heap[p.node].next == None)
    && match p
       case PushNext(x, _) => s.tail in s.heap && s.heap[s.tail].data == Some(x)
       case PushTail(x, a) => s.tail in s.heap && s.heap[s.tail] == Node(Some(x), Some(a))
       case PopLockTail(_, h) => h == s.chain[0]
       case PopTail(_, h) => h == s.chain[0]
       case PopUnlockTail(_, h, e) => h == s.chain[0] && e in s.chain
       case PopCompare(_, h, e) => h == s.chain[0] && e in s.chain
       case PopCopy(how) => |s.chain| >= 2
       case PopUnlink(how, x) => |s.chain| >= 2 && (x.Some? ==> x.value == s.pushed[|s.takers|])
       case PopAdvance(how, x, a) => |s.chain| >= 2 && a == s.chain[0] && (x.Some? ==> x.value == s.pushed[|s.takers|])
       case PopSetHead(how, x, a, k, next) =>
         Taken(s, t, k) && (if x.Some? then x.value == s.pushed[k] else s.heap[a].data == Some(s.pushed[k]))
             && next == Some(s.chain[0])
       case PopUnlock(how, x, a, k) => Taken(s, t, k)
           && (if x.Some? then x.value == s.pushed[k] else s.heap[a].data == Some(s.pushed[k]))
       case PopRead(how, x, a, k) => Taken(s, t, k)
           && (if x.Some? then x.value == s.pushed[k] else s.heap[a].data == Some(s.pushed[k]))
       case PopFree(x, a, k) => Taken(s, t, k) && x == s.pushed[k]
       case PopReport(how, b) => !b ==> how.TestEmpty?
       case _ => true
  }

  ghost predicate Taken<T>(s: Queue<T>, t: nat, k: nat)
  {
    k < |s.takers| && s.takers[k] == t && k !in s.returned
  }

  // The head pointer is empty only while a popper moves it on.
  ghost predicate HeadOk<T>(s: Queue<T>)
    requires Counters(s)
  {
    if s.headMutex.Some? && s.headMutex.value < |s.threads|
       && (s.threads[s.headMutex.value].PopAdvance? || s.threads[s.headMutex.value].PopSetHead?)
    then s.head == None else s.head == Some(s.chain[0])
  }

  ghost predicate Apart<T>(s: Queue<T>)
  {
    && (forall i, j | 0 <= i < j < |s.chain| :: s.chain[i] != s.chain[j])
    && (forall t: nat, u: nat | t < |s.threads| && u < |s.threads| && t != u && s.threads[t].Owns()
         && s.threads[u].Owns() ::
          s.threads[t].node != s.threads[u].node)
  }

  // Every allocated node is in the chain or in one thread's hands.
  ghost predicate Placed<T>(s: Queue<T>)
  {
    forall a | a in s.heap ::
      a in s.chain || exists t: nat :: t < |s.threads| && s.threads[t].Owns() && s.threads[t].node == a
  }

  // What was returned is what was pushed; a taken ticket is returned or in its taker's hands.
  ghost predicate TicketOk<T>(s: Queue<T>, k: nat)
    requires Counters(s)
  {
    && (k in s.returned ==> k < |s.takers| && s.returned[k] == s.pushed[k])
    && (k < |s.takers| && k !in s.returned ==>
          s.takers[k] < |s.threads| &&
          var p := s.threads[s.takers[k]]; p.Carries() && p.ticket == k)
  }

  ghost predicate Inv<T>(s: Queue<T>)
  {
    && Counters(s) && Locked(s) && MutexesHeld(s) && Apart(s) && Placed(s) && TailOk(s) && HeadOk(s)
    && (forall j: nat | j < |s.chain| :: LinkOk(s, j))
    && (forall t: nat | t < |s.threads| :: ThreadOk(s, t))
    && (forall k: nat :: TicketOk(s, k))
  }

  lemma InitInv<T>(dummy: nat, n: nat)
    ensures Inv(Init<T>(dummy, n))
  {
  }

  // ---------- Every step keeps the invariant ----------

  lemma ChainInHeap<T>(s: Queue<T>)
    requires Counters(s) && forall j: nat | j < |s.chain| :: LinkOk(s, j)
    ensures forall a | a in s.chain :: a in s.heap
    ensures s.tail in s.heap
  {
    forall a | a in s.chain ensures a in s.heap {
      var j: nat :| j < |s.chain| && s.chain[j] == a;
      assert LinkOk(s, j);
    }
  }

  lemma OwnedNodes<T>(s: Queue<T>)
    requires Counters(s) && forall t: nat | t < |s.threads| :: ThreadOk(s, t)
    ensures forall t: nat | t < |s.threads| && s.threads[t].Owns() ::
              s.threads[t].node in s.heap && s.threads[t].node !in s.chain
  {
    forall t: nat | t < |s.threads| && s.threads[t].Owns()
      ensures s.threads[t].node in s.heap && s.threads[t].node !in s.chain
    {
      assert ThreadOk(s, t);
    }
  }

  // The first node still has its item when its popper comes to it.
  lemma FirstNode<T>(s: Queue<T>, t: nat)
    requires Inv(s) && t < |s.threads| && s.threads[t].PopCopy?
    ensures s.head == Some(s.chain[0]) && s.chain[0] in s.heap && |s.chain| >= 2
    ensures s.heap[s.chain[0]].data == Some(s.pushed[|s.takers|])
  {
    hide Apart, Placed, TailOk, TicketOk;
    assert ThreadOk(s, t) && LinkOk(s, 0);
  }

  // A step that moves only the thread and the mutexes.
  ghost predicate Fits<T>(s: Queue<T>, t: nat, p: Phase<T>, r: Queue<T>)
    requires t < |s.threads|
  {
    var q := s.threads[t];
    && r == At(s, t, p).(headMutex := r.headMutex, tailMutex := r.tailMutex)
    && (p.Owns() <==> q.Owns()) && (p.Owns() ==> p.node == q.node)
    && !q.PushTail? && !p.PushTail? && !q.PopAdvance? && !p.PopAdvance? && !q.PopSetHead? && !p.PopSetHead?
         && !q.PopUnlink? && (p.PopUnlink? ==> p.copied == None)
    && r.headMutex == (if p.HoldsHead() then Some(t) else if q.HoldsHead() then None else s.headMutex)
    && r.tailMutex == (if p.HoldsTail() then Some(t) else if q.HoldsTail() then None else s.tailMutex)
    && (p.HoldsHead() && !q.HoldsHead() ==> s.headMutex == None)
    && (p.HoldsTail() && !q.HoldsTail() ==> s.tailMutex == None)
    && (q.Carries() ==> p.Carries() && p.ticket == q.ticket)
  }

  lemma LocalLocks<T>(s: Queue<T>, t: nat, p: Phase<T>, r: Queue<T>)
    requires Inv(s) && t < |s.threads| && Fits(s, t, p, r)
    ensures Locked(r) && MutexesHeld(r) && Counters(r) && TailOk(r) && HeadOk(r)
    ensures Emptied(r) <==> Emptied(s)
  {
    hide LinkOk, TicketOk, Apart, Placed, ThreadOk;
  }

  // Where the nodes are does not change with their contents or the locks.
  lemma SamePlaces<T>(s: Queue<T>, r: Queue<T>)
    requires Apart(s) && Placed(s) && r.chain == s.chain && r.heap.Keys == s.heap.Keys && |r.threads| == |s.threads|
    requires forall u: nat | u < |s.threads| :: SameOwner(s.threads[u], r.threads[u])
    ensures Apart(r) && Placed(r)
  {
    forall t: nat, u: nat | t < |r.threads| && u < |r.threads| && t != u && r.threads[t].Owns() && r.threads[u].Owns()
      ensures r.threads[t].node != r.threads[u].node
    {
      assert SameOwner(s.threads[t], r.threads[t]) && SameOwner(s.threads[u], r.threads[u]);
    }
    forall a | a in r.heap && a !in r.chain
      ensures exists u: nat :: u < |r.threads| && r.threads[u].Owns() && r.threads[u].node == a
    {
      assert a in s.heap;
      var u: nat :| u < |s.threads| && s.threads[u].Owns() && s.threads[u].node == a;
      assert SameOwner(s.threads[u], r.threads[u]);
    }
  }

  ghost predicate SameOwner<T>(p: Phase<T>, q: Phase<T>)
  {
    (p.Owns() <==> q.Owns()) && (p.Owns() ==> p.node == q.node)
  }

  lemma LocalPlaces<T>(s: Queue<T>, t: nat, p: Phase<T>, r: Queue<T>)
    requires Inv(s) && t < |s.threads| && Fits(s, t, p, r)
    ensures Apart(r) && Placed(r)
  {
    hide LinkOk, TicketOk, ThreadOk, HeadOk, TailOk, Locked, Counters, Apart, Placed;
    SamePlaces(s, r);
  }

  lemma LocalInv<T>(s: Queue<T>, t: nat, p: Phase<T>, r: Queue<T>)
    requires Inv(s) && t < |s.threads| && Fits(s, t, p, r)
    requires Counters(r) ==> ThreadOk(r, t)
    ensures Inv(r)
  {
    hide Apart, Placed, HeadOk, TailOk, Locked, MutexesHeld, Emptied;
    LocalLocks(s, t, p, r);
    LocalPlaces(s, t, p, r);
    forall u: nat | u < |r.threads| ensures ThreadOk(r, u) { assert ThreadOk(s, u); }
    forall j: nat | j < |r.chain| ensures LinkOk(r, j) { assert LinkOk(s, j); }
    forall k: nat ensures TicketOk(r, k) { assert TicketOk(s, k); }
  }

  lemma LookLockInv<T>(s: Queue<T>, t: nat)
    requires Inv(s) && t < |s.threads| && (s.threads[t].PopLock? || s.threads[t].PopHead? || s.threads[t].PopLockTail?)
    ensures Inv(StepLook(s, t))
  {
    hide Apart, Placed, TicketOk, LinkOk, TailOk, Emptied;
    assert ThreadOk(s, t);
    var r := StepLook(s, t);
    if r != s { LocalInv(s, t, r.threads[t], r); }
  }

  lemma LookTailInv<T>(s: Queue<T>, t: nat)
    requires Inv(s) && t < |s.threads|
    requires s.threads[t].PopTail? || s.threads[t].PopUnlockTail? || s.threads[t].PopReport?
    ensures Inv(StepLook(s, t))
  {
    hide Apart, Placed, TicketOk, LinkOk, TailOk, HeadOk, Emptied;
    assert ThreadOk(s, t);
    var r := StepLook(s, t);
    LocalInv(s, t, r.threads[t], r);
  }

  // Two different nodes of the chain: there is an element to take.
  lemma CompareInv<T>(s: Queue<T>, t: nat)
    requires Inv(s) && t < |s.threads| && s.threads[t].PopCompare?
    ensures Inv(StepLook(s, t))
  {
    hide Apart, Placed, TicketOk, LinkOk, TailOk, HeadOk, Emptied;
    assert ThreadOk(s, t);
    var r := StepLook(s, t);
    LocalInv(s, t, r.threads[t], r);
  }

  lemma PushLockInv<T>(s: Queue<T>, t: nat)
    requires Inv(s) && t < |s.threads| && (s.threads[t].PushLock? || s.threads[t].PushUnlock?)
    ensures Inv(StepPush(s, t))
  {
    hide Apart, Placed, TicketOk, LinkOk, TailOk, Emptied;
    assert ThreadOk(s, t);
    var r := StepPush(s, t);
    if r != s { LocalInv(s, t, r.threads[t], r); }
  }

  lemma UnlockInv<T>(s: Queue<T>, t: nat)
    requires Inv(s) && t < |s.threads| && (s.threads[t].PopUnlock? || s.threads[t].PopRead?)
    ensures Inv(StepTake(s, t))
  {
    hide Apart, Placed, TicketOk, LinkOk, TailOk, Emptied;
    assert ThreadOk(s, t);
    var r := StepTake(s, t);
    LocalInv(s, t, r.threads[t], r);
  }

  // The holder of the tail mutex writes into the tail node, which no popper touches.
  lemma TailWriteThreads<T>(s: Queue<T>, t: nat)
    requires Inv(s) && t < |s.threads| && (s.threads[t].PushData? || s.threads[t].PushNext?)
    ensures var r := StepPush(s, t); Counters(r) && forall u: nat | u < |r.threads| :: ThreadOk(r, u)
  {
    hide TicketOk, Placed, HeadOk, MutexesHeld, Emptied;
    ChainInHeap(s);
    assert s.tail in s.chain;
    var r := StepPush(s, t);
    forall u: nat | u < |r.threads| ensures ThreadOk(r, u) { assert ThreadOk(s, u) && ThreadOk(s, t); }
  }

  lemma TailWriteLinks<T>(s: Queue<T>, t: nat)
    requires Inv(s) && t < |s.threads| && (s.threads[t].PushData? || s.threads[t].PushNext?)
    ensures var r := StepPush(s, t);
            && Counters(r) && (forall j: nat | j < |r.chain| :: LinkOk(r, j)) && (forall k: nat :: TicketOk(r, k))
  {
    hide Placed, HeadOk, TailOk, ThreadOk;
    ChainInHeap(s);
    var r := StepPush(s, t);
    forall j: nat | j < |r.chain| ensures LinkOk(r, j) { assert LinkOk(s, j); }
    forall k: nat ensures TicketOk(r, k) { assert TicketOk(s, k); }
  }

  lemma TailWriteRest<T>(s: Queue<T>, t: nat)
    requires Inv(s) && t < |s.threads| && (s.threads[t].PushData? || s.threads[t].PushNext?)
    ensures var r := StepPush(s, t);
            Counters(r) && Locked(r) && MutexesHeld(r) && Apart(r) && Placed(r) && TailOk(r) && HeadOk(r)
  {
    hide TicketOk, ThreadOk, LinkOk, Emptied, Apart, Placed;
    TailWritePlaces(s, t);
    ChainInHeap(s);
    var r := StepPush(s, t);
    if s.threads[t].PushData? {
    } else {
    }
  }

  lemma TailWritePlaces<T>(s: Queue<T>, t: nat)
    requires Inv(s) && t < |s.threads| && (s.threads[t].PushData? || s.threads[t].PushNext?)
    ensures var r := StepPush(s, t); Apart(r) && Placed(r)
  {
    hide TicketOk, ThreadOk, LinkOk, Emptied, HeadOk, TailOk, Locked, Apart, Placed;
    ChainInHeap(s);
    SamePlaces(s, StepPush(s, t));
  }

  lemma TailWriteInv<T>(s: Queue<T>, t: nat)
    requires Inv(s) && t < |s.threads| && (s.threads[t].PushData? || s.threads[t].PushNext?)
    ensures Inv(StepPush(s, t))
  {
    hide ThreadOk, LinkOk, TicketOk, Apart, Placed, HeadOk, TailOk, Locked, Counters, StepPush;
    TailWriteThreads(s, t);
    TailWriteLinks(s, t);
    TailWriteRest(s, t);
  }

  // ----- A node is allocated -----

  lemma CallThreads<T>(s: Queue<T>, t: nat, a: Action<T>)
    requires Inv(s) && t < |s.threads| && s.threads[t].Idle?
    ensures var r := Step(s, t, a); Counters(r) && forall u: nat | u < |r.threads| :: ThreadOk(r, u)
  {
    hide TicketOk, Placed, MutexesHeld, Emptied;
    ChainInHeap(s);
    assert ThreadOk(s, t);
    var r := Step(s, t, a);
    forall u: nat | u < |r.threads| ensures ThreadOk(r, u) { assert ThreadOk(s, u); }
  }

  lemma CallLinks<T>(s: Queue<T>, t: nat, a: Action<T>)
    requires Inv(s) && t < |s.threads| && s.threads[t].Idle?
    ensures var r := Step(s, t, a);
            && Counters(r) && (forall j: nat | j < |r.chain| :: LinkOk(r, j)) && (forall k: nat :: TicketOk(r, k))
  {
    hide Placed;
    ChainInHeap(s);
    assert ThreadOk(s, t);
    var r := Step(s, t, a);
    forall j: nat | j < |r.chain| ensures LinkOk(r, j) { assert LinkOk(s, j); }
    forall k: nat ensures TicketOk(r, k) { assert TicketOk(s, k); }
  }

  lemma CallRest<T>(s: Queue<T>, t: nat, a: Action<T>)
    requires Inv(s) && t < |s.threads| && s.threads[t].Idle?
    ensures var r := Step(s, t, a); Counters(r) && Locked(r) && MutexesHeld(r) && TailOk(r) && HeadOk(r)
  {
    hide TicketOk, Placed, Apart, Emptied;
    ChainInHeap(s);
    assert ThreadOk(s, t) && LinkOk(s, 0);
    var r := Step(s, t, a);
  }

  lemma CallPlaces<T>(s: Queue<T>, t: nat, a: Action<T>)
    requires Inv(s) && t < |s.threads| && s.threads[t].Idle?
    ensures var r := Step(s, t, a); Apart(r) && Placed(r)
  {
    hide TicketOk, HeadOk, TailOk, Locked, MutexesHeld, Emptied;
    ChainInHeap(s);
    OwnedNodes(s);
    assert ThreadOk(s, t);
    var r := Step(s, t, a);
    forall a | a in r.heap && a !in r.chain
      ensures exists u: nat :: u < |r.threads| && r.threads[u].Owns() && r.threads[u].node == a
    {
      if u: nat :| u < |s.threads| && s.threads[u].Owns() && s.threads[u].node == a {
        if u != t { assert r.threads[u].Owns() && r.threads[u].node == a; }
      } else {
        assert r.threads[t].Owns() && r.threads[t].node == a;
      }
    }
  }

  lemma CallInv<T>(s: Queue<T>, t: nat, a: Action<T>)
    requires Inv(s) && t < |s.threads| && s.threads[t].Idle?
    ensures Inv(Step(s, t, a))
  {
    hide ThreadOk, LinkOk, TicketOk, Apart, Placed, HeadOk, TailOk, Locked, Counters, StepPush, StepTake, Step;
    CallThreads(s, t, a);
    CallLinks(s, t, a);
    CallRest(s, t, a);
    CallPlaces(s, t, a);
  }

  // ----- The tail moves on: the item is in the queue -----

  lemma PushTailThreads<T>(s: Queue<T>, t: nat)
    requires Inv(s) && t < |s.threads| && s.threads[t].PushTail?
    ensures var r := StepPush(s, t); Counters(r) && forall u: nat | u < |r.threads| :: ThreadOk(r, u)
  {
    hide TicketOk, Placed, MutexesHeld, Emptied;
    ChainInHeap(s);
    assert ThreadOk(s, t);
    var r := StepPush(s, t);
    forall u: nat | u < |r.threads| ensures ThreadOk(r, u) { assert ThreadOk(s, u); }
  }

  lemma PushTailLinks<T>(s: Queue<T>, t: nat)
    requires Inv(s) && t < |s.threads| && s.threads[t].PushTail?
    ensures var r := StepPush(s, t);
            && Counters(r) && (forall j: nat | j < |r.chain| :: LinkOk(r, j)) && (forall k: nat :: TicketOk(r, k))
  {
    hide Placed;
    ChainInHeap(s);
    assert ThreadOk(s, t);
    var r := StepPush(s, t);
    forall j: nat | j < |r.chain| ensures LinkOk(r, j) { if j < |s.chain| { assert LinkOk(s, j); } }
    forall k: nat ensures TicketOk(r, k) { assert TicketOk(s, k); }
  }

  lemma PushTailRest<T>(s: Queue<T>, t: nat)
    requires Inv(s) && t < |s.threads| && s.threads[t].PushTail?
    ensures var r := StepPush(s, t); Counters(r) && Locked(r) && MutexesHeld(r) && TailOk(r) && HeadOk(r)
  {
    hide TicketOk, Placed, Apart, Emptied;
    ChainInHeap(s);
    assert ThreadOk(s, t) && LinkOk(s, 0);
    var r := StepPush(s, t);
  }

  lemma PushTailPlaces<T>(s: Queue<T>, t: nat)
    requires Inv(s) && t < |s.threads| && s.threads[t].PushTail?
    ensures var r := StepPush(s, t); Apart(r) && Placed(r)
  {
    hide TicketOk, HeadOk, TailOk, Locked, MutexesHeld, Emptied;
    ChainInHeap(s);
    OwnedNodes(s);
    assert ThreadOk(s, t);
    var r := StepPush(s, t);
    forall a | a in r.heap && a !in r.chain
      ensures exists u: nat :: u < |r.threads| && r.threads[u].Owns() && r.threads[u].node == a
    {
      var u: nat :| u < |s.threads| && s.threads[u].Owns() && s.threads[u].node == a;
      assert r.threads[u].Owns() && r.threads[u].node == a;
    }
  }

  lemma PushTailInv<T>(s: Queue<T>, t: nat)
    requires Inv(s) && t < |s.threads| && s.threads[t].PushTail?
    ensures Inv(StepPush(s, t))
  {
    hide ThreadOk, LinkOk, TicketOk, Apart, Placed, HeadOk, TailOk, Locked, Counters, StepPush, StepTake, Step;
    PushTailThreads(s, t);
    PushTailLinks(s, t);
    PushTailRest(s, t);
    PushTailPlaces(s, t);
  }

  // ----- The item is moved out of the first node -----

  lemma PopCopyThreads<T>(s: Queue<T>, t: nat)
    requires Inv(s) && t < |s.threads| && s.threads[t].PopCopy?
    ensures var r := StepTake(s, t); Counters(r) && forall u: nat | u < |r.threads| :: ThreadOk(r, u)
  {
    hide TicketOk, Placed, MutexesHeld, Emptied;
    FirstNode(s, t);
    ChainInHeap(s);
    assert ThreadOk(s, t);
    var r := StepTake(s, t);
    forall u: nat | u < |r.threads| ensures ThreadOk(r, u) { assert ThreadOk(s, u); }
  }

  lemma PopCopyLinks<T>(s: Queue<T>, t: nat)
    requires Inv(s) && t < |s.threads| && s.threads[t].PopCopy?
    ensures var r := StepTake(s, t);
            && Counters(r) && (forall j: nat | j < |r.chain| :: LinkOk(r, j)) && (forall k: nat :: TicketOk(r, k))
  {
    hide Placed;
    FirstNode(s, t);
    ChainInHeap(s);
    assert ThreadOk(s, t);
    var r := StepTake(s, t);
    forall j: nat | j < |r.chain| ensures LinkOk(r, j) { assert LinkOk(s, j); }
    forall k: nat ensures TicketOk(r, k) { assert TicketOk(s, k); }
  }

  lemma PopCopyRest<T>(s: Queue<T>, t: nat)
    requires Inv(s) && t < |s.threads| && s.threads[t].PopCopy?
    ensures var r := StepTake(s, t); Counters(r) && Locked(r) && MutexesHeld(r) && TailOk(r) && HeadOk(r)
  {
    hide TicketOk, Placed, Apart, Emptied;
    FirstNode(s, t);
    ChainInHeap(s);
    assert ThreadOk(s, t) && LinkOk(s, 0);
    var r := StepTake(s, t);
  }

  lemma PopCopyPlaces<T>(s: Queue<T>, t: nat)
    requires Inv(s) && t < |s.threads| && s.threads[t].PopCopy?
    ensures var r := StepTake(s, t); Apart(r) && Placed(r)
  {
    hide TicketOk, ThreadOk, LinkOk, Emptied, HeadOk, TailOk, Locked, Apart, Placed;
    FirstNode(s, t);
    SamePlaces(s, StepTake(s, t));
  }

  lemma PopCopyInv<T>(s: Queue<T>, t: nat)
    requires Inv(s) && t < |s.threads| && s.threads[t].PopCopy?
    ensures Inv(StepTake(s, t))
  {
    hide ThreadOk, LinkOk, TicketOk, Apart, Placed, HeadOk, TailOk, Locked, Counters, StepPush, StepTake, Step;
    PopCopyThreads(s, t);
    PopCopyLinks(s, t);
    PopCopyRest(s, t);
    PopCopyPlaces(s, t);
  }

  // ----- The head pointer is emptied -----

  lemma PopUnlinkThreads<T>(s: Queue<T>, t: nat)
    requires Inv(s) && t < |s.threads| && s.threads[t].PopUnlink?
    ensures var r := StepTake(s, t); Counters(r) && forall u: nat | u < |r.threads| :: ThreadOk(r, u)
  {
    hide TicketOk, Placed, MutexesHeld, Emptied;
    ChainInHeap(s);
    assert ThreadOk(s, t);
    var r := StepTake(s, t);
    forall u: nat | u < |r.threads| ensures ThreadOk(r, u) { assert ThreadOk(s, u); }
  }

  lemma PopUnlinkLinks<T>(s: Queue<T>, t: nat)
    requires Inv(s) && t < |s.threads| && s.threads[t].PopUnlink?
    ensures var r := StepTake(s, t);
            && Counters(r) && (forall j: nat | j < |r.chain| :: LinkOk(r, j)) && (forall k: nat :: TicketOk(r, k))
  {
    hide Placed;
    ChainInHeap(s);
    assert ThreadOk(s, t);
    var r := StepTake(s, t);
    forall j: nat | j < |r.chain| ensures LinkOk(r, j) { assert LinkOk(s, j); }
    forall k: nat ensures TicketOk(r, k) { assert TicketOk(s, k); }
  }

  lemma PopUnlinkRest<T>(s: Queue<T>, t: nat)
    requires Inv(s) && t < |s.threads| && s.threads[t].PopUnlink?
    ensures var r := StepTake(s, t); Counters(r) && Locked(r) && MutexesHeld(r) && TailOk(r) && HeadOk(r)
  {
    hide TicketOk, Placed, Apart, Emptied;
    ChainInHeap(s);
    assert ThreadOk(s, t) && LinkOk(s, 0);
    var r := StepTake(s, t);
  }

  lemma PopUnlinkPlaces<T>(s: Queue<T>, t: nat)
    requires Inv(s) && t < |s.threads| && s.threads[t].PopUnlink?
    ensures var r := StepTake(s, t); Apart(r) && Placed(r)
  {
    hide TicketOk, ThreadOk, LinkOk, Emptied, HeadOk, TailOk, Locked, Apart, Placed;
    SamePlaces(s, StepTake(s, t));
  }

  lemma PopUnlinkInv<T>(s: Queue<T>, t: nat)
    requires Inv(s) && t < |s.threads| && s.threads[t].PopUnlink?
    ensures Inv(StepTake(s, t))
  {
    hide ThreadOk, LinkOk, TicketOk, Apart, Placed, HeadOk, TailOk, Locked, Counters, StepPush, StepTake, Step;
    PopUnlinkThreads(s, t);
    PopUnlinkLinks(s, t);
    PopUnlinkRest(s, t);
    PopUnlinkPlaces(s, t);
  }

  // ----- The chain moves on: the node is the popper's -----

  lemma PopAdvanceThreads<T>(s: Queue<T>, t: nat)
    requires Inv(s) && t < |s.threads| && s.threads[t].PopAdvance?
    ensures var r := StepTake(s, t); Counters(r) && forall u: nat | u < |r.threads| :: ThreadOk(r, u)
  {
    hide Placed, MutexesHeld;
    ChainInHeap(s);
    assert ThreadOk(s, t) && LinkOk(s, 0) && TicketOk(s, |s.takers|);
    var r := StepTake(s, t);
    assert s.chain[0] !in s.chain[1..];
    forall u: nat | u < |r.threads| ensures ThreadOk(r, u) { assert ThreadOk(s, u); }
  }

  lemma PopAdvanceLinks<T>(s: Queue<T>, t: nat)
    requires Inv(s) && t < |s.threads| && s.threads[t].PopAdvance?
    ensures var r := StepTake(s, t);
            && Counters(r) && (forall j: nat | j < |r.chain| :: LinkOk(r, j)) && (forall k: nat :: TicketOk(r, k))
  {
    hide Placed;
    ChainInHeap(s);
    assert ThreadOk(s, t);
    var r := StepTake(s, t);
    forall j: nat | j < |r.chain| ensures LinkOk(r, j) { assert LinkOk(s, j + 1); }
    forall k: nat ensures TicketOk(r, k) { assert TicketOk(s, k); }
  }

  lemma PopAdvanceRest<T>(s: Queue<T>, t: nat)
    requires Inv(s) && t < |s.threads| && s.threads[t].PopAdvance?
    ensures var r := StepTake(s, t); Counters(r) && Locked(r) && MutexesHeld(r) && TailOk(r) && HeadOk(r)
  {
    hide TicketOk, Placed, Apart, Emptied;
    ChainInHeap(s);
    assert ThreadOk(s, t) && LinkOk(s, 0);
    var r := StepTake(s, t);
  }

  lemma PopAdvancePlaces<T>(s: Queue<T>, t: nat)
    requires Inv(s) && t < |s.threads| && s.threads[t].PopAdvance?
    ensures var r := StepTake(s, t); Apart(r) && Placed(r)
  {
    hide TicketOk, HeadOk, TailOk, Locked, MutexesHeld, Emptied;
    ChainInHeap(s);
    OwnedNodes(s);
    assert ThreadOk(s, t);
    var r := StepTake(s, t);
    forall a | a in r.heap && a !in r.chain
      ensures exists u: nat :: u < |r.threads| && r.threads[u].Owns() && r.threads[u].node == a
    {
      if u: nat :| u < |s.threads| && s.threads[u].Owns() && s.threads[u].node == a {
        if u != t { assert r.threads[u].Owns() && r.threads[u].node == a; }
      } else {
        assert r.threads[t].Owns() && r.threads[t].node == a;
      }
    }
  }

  lemma PopAdvanceInv<T>(s: Queue<T>, t: nat)
    requires Inv(s) && t < |s.threads| && s.threads[t].PopAdvance?
    ensures Inv(StepTake(s, t))
  {
    hide ThreadOk, LinkOk, TicketOk, Apart, Placed, HeadOk, TailOk, Locked, Counters, StepPush, StepTake, Step;
    PopAdvanceThreads(s, t);
    PopAdvanceLinks(s, t);
    PopAdvanceRest(s, t);
    PopAdvancePlaces(s, t);
  }

  // ----- The head pointer is set again -----

  lemma PopSetHeadThreads<T>(s: Queue<T>, t: nat)
    requires Inv(s) && t < |s.threads| && s.threads[t].PopSetHead?
    ensures var r := StepTake(s, t); Counters(r) && forall u: nat | u < |r.threads| :: ThreadOk(r, u)
  {
    hide TicketOk, Placed, MutexesHeld, Emptied;
    ChainInHeap(s);
    assert ThreadOk(s, t);
    var r := StepTake(s, t);
    forall u: nat | u < |r.threads| ensures ThreadOk(r, u) { assert ThreadOk(s, u); }
  }

  lemma PopSetHeadLinks<T>(s: Queue<T>, t: nat)
    requires Inv(s) && t < |s.threads| && s.threads[t].PopSetHead?
    ensures var r := StepTake(s, t);
            && Counters(r) && (forall j: nat | j < |r.chain| :: LinkOk(r, j)) && (forall k: nat :: TicketOk(r, k))
  {
    hide Placed;
    ChainInHeap(s);
    assert ThreadOk(s, t);
    var r := StepTake(s, t);
    forall j: nat | j < |r.chain| ensures LinkOk(r, j) { assert LinkOk(s, j); }
    forall k: nat ensures TicketOk(r, k) { assert TicketOk(s, k); }
  }

  lemma PopSetHeadRest<T>(s: Queue<T>, t: nat)
    requires Inv(s) && t < |s.threads| && s.threads[t].PopSetHead?
    ensures var r := StepTake(s, t); Counters(r) && Locked(r) && MutexesHeld(r) && TailOk(r) && HeadOk(r)
  {
    hide TicketOk, Placed, Apart, Emptied;
    ChainInHeap(s);
    assert ThreadOk(s, t) && LinkOk(s, 0);
    var r := StepTake(s, t);
  }

  lemma PopSetHeadPlaces<T>(s: Queue<T>, t: nat)
    requires Inv(s) && t < |s.threads| && s.threads[t].PopSetHead?
    ensures var r := StepTake(s, t); Apart(r) && Placed(r)
  {
    hide TicketOk, ThreadOk, LinkOk, Emptied, HeadOk, TailOk, Locked, Apart, Placed;
    SamePlaces(s, StepTake(s, t));
  }

  lemma PopSetHeadInv<T>(s: Queue<T>, t: nat)
    requires Inv(s) && t < |s.threads| && s.threads[t].PopSetHead?
    ensures Inv(StepTake(s, t))
  {
    hide ThreadOk, LinkOk, TicketOk, Apart, Placed, HeadOk, TailOk, Locked, Counters, StepPush, StepTake, Step;
    PopSetHeadThreads(s, t);
    PopSetHeadLinks(s, t);
    PopSetHeadRest(s, t);
    PopSetHeadPlaces(s, t);
  }

  // ----- The node is freed -----

  lemma PopFreeThreads<T>(s: Queue<T>, t: nat)
    requires Inv(s) && t < |s.threads| && s.threads[t].PopFree?
    ensures var r := StepTake(s, t); Counters(r) && forall u: nat | u < |r.threads| :: ThreadOk(r, u)
  {
    hide TicketOk, Placed, MutexesHeld, Emptied;
    ChainInHeap(s);
    assert ThreadOk(s, t);
    var r := StepTake(s, t);
    forall u: nat | u < |r.threads| ensures ThreadOk(r, u) { assert ThreadOk(s, u); }
  }

  lemma PopFreeLinks<T>(s: Queue<T>, t: nat)
    requires Inv(s) && t < |s.threads| && s.threads[t].PopFree?
    ensures var r := StepTake(s, t);
            && Counters(r) && (forall j: nat | j < |r.chain| :: LinkOk(r, j)) && (forall k: nat :: TicketOk(r, k))
  {
    hide Placed;
    ChainInHeap(s);
    assert ThreadOk(s, t);
    var r := StepTake(s, t);
    forall j: nat | j < |r.chain| ensures LinkOk(r, j) { assert LinkOk(s, j); }
    forall k: nat ensures TicketOk(r, k) { assert TicketOk(s, k); }
  }

  lemma PopFreeRest<T>(s: Queue<T>, t: nat)
    requires Inv(s) && t < |s.threads| && s.threads[t].PopFree?
    ensures var r := StepTake(s, t); Counters(r) && Locked(r) && MutexesHeld(r) && TailOk(r) && HeadOk(r)
  {
    hide TicketOk, Placed, Apart, Emptied;
    ChainInHeap(s);
    assert ThreadOk(s, t) && LinkOk(s, 0);
    var r := StepTake(s, t);
  }

  lemma PopFreePlaces<T>(s: Queue<T>, t: nat)
    requires Inv(s) && t < |s.threads| && s.threads[t].PopFree?
    ensures var r := StepTake(s, t); Apart(r) && Placed(r)
  {
    hide TicketOk, HeadOk, TailOk, Locked, MutexesHeld, Emptied;
    ChainInHeap(s);
    OwnedNodes(s);
    assert ThreadOk(s, t);
    var r := StepTake(s, t);
    forall a | a in r.heap && a !in r.chain
      ensures exists u: nat :: u < |r.threads| && r.threads[u].Owns() && r.threads[u].node == a
    {
      var u: nat :| u < |s.threads| && s.threads[u].Owns() && s.threads[u].node == a;
      assert r.threads[u].Owns() && r.threads[u].node == a;
    }
  }

  lemma PopFreeInv<T>(s: Queue<T>, t: nat)
    requires Inv(s) && t < |s.threads| && s.threads[t].PopFree?
    ensures Inv(StepTake(s, t))
  {
    hide ThreadOk, LinkOk, TicketOk, Apart, Placed, HeadOk, TailOk, Locked, Counters, StepPush, StepTake, Step;
    PopFreeThreads(s, t);
    PopFreeLinks(s, t);
    PopFreeRest(s, t);
    PopFreePlaces(s, t);
  }
}
