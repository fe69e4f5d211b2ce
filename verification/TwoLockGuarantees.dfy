// What the two-mutex queue guarantees: nothing lost or reordered, threads apart on their nodes,
// nothing leaked, honest "empty" answers, no deadlock.
module TwoLockGuarantees {
  import opened Wrappers
  import opened TwoLockQueue

  lemma StepInv<T>(s: Queue<T>, t: nat, a: Action<T>)
    requires Inv(s)
    ensures Inv(Step(s, t, a))
  {
    hide Inv, StepPush, StepLook, StepTake;
    if t < |s.threads| {
      match s.threads[t]
      case Idle(_) => CallInv(s, t, a);
      case PushLock(_, _) => PushLockInv(s, t);
      case PushData(_, _) => TailWriteInv(s, t);
      case PushNext(_, _) => TailWriteInv(s, t);
      case PushTail(_, _) => PushTailInv(s, t);
      case PushUnlock => PushLockInv(s, t);
      case PopLock(_) => LookLockInv(s, t);
      case PopHead(_) => LookLockInv(s, t);
      case PopLockTail(_, _) => LookLockInv(s, t);
      case PopTail(_, _) => LookTailInv(s, t);
      case PopUnlockTail(_, _, _) => LookTailInv(s, t);
      case PopCompare(_, _, _) => CompareInv(s, t);
      case PopReport(_, _) => LookTailInv(s, t);
      case PopCopy(_) => PopCopyInv(s, t);
      case PopUnlink(_, _) => PopUnlinkInv(s, t);
      case PopAdvance(_, _, _) => PopAdvanceInv(s, t);
      case PopSetHead(_, _, _, _, _) => PopSetHeadInv(s, t);
      case PopUnlock(_, _, _, _) => UnlockInv(s, t);
      case PopRead(_, _, _, _) => UnlockInv(s, t);
      case PopFree(_, _, _) => PopFreeInv(s, t);
    }
  }

  lemma {:induction false} RunInv<T>(s: Queue<T>, schedule: seq<(nat, Action<T>)>)
    requires Inv(s)
    ensures Inv(Run(s, schedule))
    decreases |schedule|
  {
    if schedule != [] {
      StepInv(s, schedule[0].0, schedule[0].1);
      RunInv(Step(s, schedule[0].0, schedule[0].1), schedule[1..]);
    }
  }

  // ---------- The main results ----------

  // The items in the queue: those of the nodes before the tail.
  function Contents<T>(s: Queue<T>): seq<T>
    requires |s.takers| <= |s.pushed|
  {
    s.pushed[|s.takers|..]
  }

  // Reading the links from the head pointer.
  ghost predicate Walks<T>(heap: map<nat, Node<T>>, from: nat, to: nat, items: seq<T>)
    decreases |items|
  {
    if items == [] then from == to
    else from != to && from in heap && heap[from].data == Some(items[0]) && heap[from].next.Some?
         && Walks(heap, heap[from].next.value, to, items[1..])
  }

  lemma {:induction false} WalksFrom<T>(s: Queue<T>, j: nat)
    requires Inv(s) && !Emptied(s) && j < |s.chain|
    ensures Walks(s.heap, s.chain[j], s.tail, s.pushed[|s.takers| + j..])
    decreases |s.chain| - j
  {
    hide TicketOk, ThreadOk, Placed, Locked, TailOk, HeadOk;
    if j < |s.chain| - 1 {
      assert LinkOk(s, j);
      WalksFrom(s, j + 1);
      assert s.pushed[|s.takers| + j..][1..] == s.pushed[|s.takers| + (j + 1)..];
    }
  }

  // In every interleaving: nothing is lost, duplicated or reordered.  The items pushed are those
  // taken, in order, followed by what walking the nodes from the head to the tail finds; the
  // k-th node unlinked gave its taker, and nobody else, the k-th item pushed; no dead node was used.
  lemma NothingLost<T>(dummy: nat, n: nat, schedule: seq<(nat, Action<T>)>)
    ensures var s := Run(Init<T>(dummy, n), schedule);
            && !s.fault && |s.takers| <= |s.pushed|
            && (s.head.Some? && !Emptied(s) ==> Walks(s.heap, s.head.value, s.tail, Contents(s)))
            && (forall k :: k in s.returned ==> k < |s.takers| && s.returned[k] == s.pushed[k])
            && (forall k: nat | k < |s.takers| && k !in s.returned :: s.takers[k] < n &&
                  var p := s.threads[s.takers[k]]; p.Carries() && p.ticket == k)
  {
    hide ThreadOk, Placed, Locked, TailOk, Apart;
    InitInv<T>(dummy, n);
    RunInv(Init<T>(dummy, n), schedule);
    var s := Run(Init<T>(dummy, n), schedule);
    if s.head.Some? && !Emptied(s) { WalksFrom(s, 0); }
    forall k ensures k in s.returned ==> k < |s.takers| && s.returned[k] == s.pushed[k] {
      if k in s.returned { assert TicketOk(s, k); }
    }
    forall k: nat | k < |s.takers| && k !in s.returned
      ensures s.takers[k] < n && var p := s.threads[s.takers[k]]; p.Carries() && p.ticket == k
    {
      assert TicketOk(s, k);
    }
  }

  // The node a thread's next step reads or writes.
  function Touches<T>(s: Queue<T>, t: nat): Option<nat>
    requires t < |s.threads|
  {
    match s.threads[t]
    case PushData(_, _) => Some(s.tail)
    case PushNext(_, _) => Some(s.tail)
    case PopCopy(_) => s.head
    case PopAdvance(_, _, a) => Some(a)
    case PopRead(_, x, a, _) => if x.None? then Some(a) else None
    case PopFree(_, a, _) => Some(a)
    case _ => None
  }

  // Pushers and poppers run in parallel and never meet on a node; every node touched is allocated.
  lemma ThreadsNeverMeet<T>(dummy: nat, n: nat, schedule: seq<(nat, Action<T>)>, t: nat, u: nat)
    requires t < n && u < n && t != u
    ensures var s := Run(Init<T>(dummy, n), schedule);
            Touches(s, t).Some? ==> Touches(s, t).value in s.heap && Touches(s, t) != Touches(s, u)
  {
    InitInv<T>(dummy, n);
    RunInv(Init<T>(dummy, n), schedule);
    TouchApart(Run(Init<T>(dummy, n), schedule), t, u);
  }

  lemma TouchApart<T>(s: Queue<T>, t: nat, u: nat)
    requires Inv(s) && t < |s.threads| && u < |s.threads| && t != u
    ensures Touches(s, t).Some? ==> Touches(s, t).value in s.heap && Touches(s, t) != Touches(s, u)
  {
    hide TicketOk, Placed, TailOk, LinkOk;
    ChainInHeap(s);
    assert ThreadOk(s, t) && ThreadOk(s, u);
  }

  // ---------- Destruction ----------

  // Destroying a node destroys the node it owns, and so on down the chain.
  function Destroyed<T>(heap: map<nat, Node<T>>, from: Option<nat>): map<nat, Node<T>>
    decreases |heap|
  {
    if from.None? || from.value !in heap then heap
    else
      var rest := heap - {from.value};
      assert rest.Keys == heap.Keys - {from.value};
      assert |rest.Keys| == |heap.Keys| - 1;
      Destroyed(rest, heap[from.value].next)
  }

  predicate Linked<T>(heap: map<nat, Node<T>>, q: seq<nat>, j: nat)
    requires j < |q|
  {
    q[j] in heap && heap[q[j]].next == if j < |q| - 1 then Some(q[j + 1]) else None
  }

  lemma {:induction false} ChainDestroyed<T>(heap: map<nat, Node<T>>, q: seq<nat>)
    requires |q| > 0 && (forall i, j | 0 <= i < j < |q| :: q[i] != q[j])
    requires forall a :: a in heap <==> a in q
    requires forall j: nat | j < |q| :: Linked(heap, q, j)
    ensures Destroyed(heap, Some(q[0])) == map[]
    decreases |q|
  {
    var rest := heap - {q[0]};
    if |q| > 1 {
      assert forall a :: a in rest <==> a in q[1..];
      forall j: nat | j < |q[1..]| ensures Linked(rest, q[1..], j) {
        assert Linked(heap, q, j + 1);
      }
      ChainDestroyed(rest, q[1..]);
    } else {
      assert rest == map[];
    }
    assert Linked(heap, q, 0);
  }

  // Destroying the queue when no thread is in an operation frees every node.
  lemma NothingLeaks<T>(dummy: nat, n: nat, schedule: seq<(nat, Action<T>)>)
    ensures var s := Run(Init<T>(dummy, n), schedule);
            (forall t: nat | t < n :: s.threads[t].Idle?) ==> Destroyed(s.heap, s.head) == map[]
  {
    hide ThreadOk, TicketOk, Destroyed;
    InitInv<T>(dummy, n);
    RunInv(Init<T>(dummy, n), schedule);
    var s := Run(Init<T>(dummy, n), schedule);
    if forall t: nat | t < n :: s.threads[t].Idle? {
      ChainInHeap(s);
      forall j: nat | j < |s.chain| ensures Linked(s.heap, s.chain, j) {
        assert LinkOk(s, j);
      }
      ChainDestroyed(s.heap, s.chain);
    }
  }

  // ---------- What an empty answer means ----------

  lemma {:induction false} OthersMove<T>(s: Queue<T>, schedule: seq<(nat, Action<T>)>, t: nat)
    requires t < |s.threads| && forall i | 0 <= i < |schedule| :: schedule[i].0 != t
    ensures Run(s, schedule).threads[t] == s.threads[t]
    decreases |schedule|
  {
    hide Inv;
    if schedule != [] {
      assert schedule[0].0 != t;
      OtherMoves(s, schedule[0].0, schedule[0].1, t);
      OthersMove(Step(s, schedule[0].0, schedule[0].1), schedule[1..], t);
    }
  }

  lemma OtherMoves<T>(s: Queue<T>, u: nat, a: Action<T>, t: nat)
    requires t < |s.threads| && u != t
    ensures Step(s, u, a).threads[t] == s.threads[t]
  {
    hide StepPush, StepLook, StepTake;
    if u < |s.threads| {
      OtherPushes(s, u, t);
      OtherLooks(s, u, t);
      OtherTakes(s, u, t);
    }
  }

  lemma {:induction false} OtherPushes<T>(s: Queue<T>, u: nat, t: nat)
    requires t < |s.threads| && u < |s.threads| && u != t
    ensures |StepPush(s, u).threads| == |s.threads| && StepPush(s, u).threads[t] == s.threads[t]
  {
    var p := s.threads[u];
    if p.PushLock? || p.PushData? || p.PushNext? {
    } else if p.PushTail? {
    } else {
    }
  }

  lemma {:induction false} OtherLooks<T>(s: Queue<T>, u: nat, t: nat)
    requires t < |s.threads| && u < |s.threads| && u != t
    ensures |StepLook(s, u).threads| == |s.threads| && StepLook(s, u).threads[t] == s.threads[t]
  {
    var p := s.threads[u];
    if p.PopLock? || p.PopHead? || p.PopLockTail? {
    } else if p.PopTail? || p.PopUnlockTail? {
    } else {
    }
  }

  lemma {:induction false} OtherTakes<T>(s: Queue<T>, u: nat, t: nat)
    requires t < |s.threads| && u < |s.threads| && u != t
    ensures |StepTake(s, u).threads| == |s.threads| && StepTake(s, u).threads[t] == s.threads[t]
  {
    var p := s.threads[u];
    if p.PopCopy? || p.PopUnlink? || p.PopAdvance? {
    } else if p.PopUnlock? || p.PopRead? {
    } else {
    }
  }

  // "Empty" is true at the moment the tail is read under its mutex, and only the answer of that
  // moment counts, however many pushes complete between the reading and the comparison.
  lemma {:induction false} EmptyAtGetTail<T>(s: Queue<T>, t: nat, first: seq<(nat, Action<T>)>,
                                             then_: seq<(nat, Action<T>)>)
    requires Inv(s) && t < |s.threads| && s.threads[t].PopTail?
    requires forall i | 0 <= i < |first| :: first[i].0 != t
    requires forall i | 0 <= i < |then_| :: then_[i].0 != t
    ensures var unlocking := Run(Step(s, t, Proceed), first);
            var comparing := Run(Step(unlocking, t, Proceed), then_);
            var p := Step(comparing, t, Proceed).threads[t];
            && (p.PopReport? && p.answer <==> Contents(s) == [])
            && (p.PopReport? && !p.answer ==> p.how.TestEmpty?)
            && (p.PopReport? || p.PopCopy? || p.PopUnlink?)
  {
    hide Step, Run, TicketOk, Placed, TailOk, LinkOk, Locked, HeadOk, MutexesHeld;
    assert ThreadOk(s, t);
    var how, h := s.threads[t].how, s.threads[t].first;
    assert h == s.tail <==> Contents(s) == [];
    hide Inv, Counters, Apart, ThreadOk;
    LookSteps(s, t);
    var s1 := Step(s, t, Proceed);
    OthersMove(s1, first, t);
    var unlocking := Run(s1, first);
    LookSteps(unlocking, t);
    var s2 := Step(unlocking, t, Proceed);
    OthersMove(s2, then_, t);
    LookSteps(Run(s2, then_), t);
  }

  // What a popper's steps from reading the tail to the comparison make of it.
  lemma {:induction false} LookSteps<T>(s: Queue<T>, t: nat)
    requires t < |s.threads|
    ensures var (p, q) := (s.threads[t], Step(s, t, Proceed).threads[t]);
            && (p.PopTail? ==> q == PopUnlockTail(p.how, p.first, s.tail))
            && (p.PopUnlockTail? ==> q == PopCompare(p.how, p.first, p.last))
            && (p.PopCompare? ==>
                  if p.first == p.last then q == PopReport(p.how, true)
                  else if p.how.TestEmpty? then q == PopReport(p.how, false) else q.PopCopy? || q.PopUnlink?)
  {
    hide StepPush, StepTake;
    if s.threads[t].PopTail? {
    } else if s.threads[t].PopUnlockTail? {
    } else {
    }
  }

  // ---------- The two mutexes never deadlock ----------

  // The tail mutex is taken last, so whoever holds it can go on; then whoever holds the head mutex can.
  lemma SomeoneMoves<T>(s: Queue<T>, t: nat) returns (u: nat)
    requires Inv(s) && t < |s.threads| && !s.threads[t].Idle?
    ensures u < |s.threads| && !s.threads[u].Idle? && Step(s, u, Proceed).threads[u] != s.threads[u]
  {
    if s.tailMutex.Some? {
      u := s.tailMutex.value;
    } else if s.headMutex.Some? {
      u := s.headMutex.value;
    } else {
      u := t;
    }
    HolderMoves(s, u);
  }

  lemma HolderMoves<T>(s: Queue<T>, u: nat)
    requires Inv(s) && u < |s.threads| && !s.threads[u].Idle?
    requires s.threads[u].PushLock? ==> s.tailMutex == None
    requires s.threads[u].PopLock? ==> s.headMutex == None
    requires s.threads[u].PopLockTail? ==> s.tailMutex == None
    ensures Step(s, u, Proceed).threads[u] != s.threads[u]
  {
    hide StepPush, StepTake, StepLook, Inv;
    StepInv(s, u, Proceed);
    NoFault(Step(s, u, Proceed));
    if s.threads[u].Adds() {
      PusherMoves(s, u);
    } else if s.threads[u].Takes() {
      TakerMoves(s, u);
    } else {
      LookerMoves(s, u);
    }
  }

  lemma NoFault<T>(s: Queue<T>)
    requires Inv(s)
    ensures !s.fault
  {
  }

  lemma {:induction false} PusherMoves<T>(s: Queue<T>, u: nat)
    requires u < |s.threads| && s.threads[u].Adds() && !StepPush(s, u).fault
    requires s.threads[u].PushLock? ==> s.tailMutex == None
    ensures |StepPush(s, u).threads| == |s.threads| && StepPush(s, u).threads[u] != s.threads[u]
  {
    var p := s.threads[u];
    if p.PushLock? || p.PushUnlock? {
    } else if p.PushTail? {
    } else {
    }
  }

  lemma {:induction false} TakerMoves<T>(s: Queue<T>, u: nat)
    requires u < |s.threads| && s.threads[u].Takes() && !StepTake(s, u).fault
    ensures |StepTake(s, u).threads| == |s.threads| && StepTake(s, u).threads[u] != s.threads[u]
  {
    var p := s.threads[u];
    if p.PopCopy? || p.PopUnlink? {
    } else if p.PopAdvance? || p.PopSetHead? {
    } else {
    }
  }

  lemma {:induction false} LookerMoves<T>(s: Queue<T>, u: nat)
    requires u < |s.threads| && !s.threads[u].Idle? && !s.threads[u].Adds() && !s.threads[u].Takes()
             && !StepLook(s, u).fault
    requires s.threads[u].PopLock? ==> s.headMutex == None
    requires s.threads[u].PopLockTail? ==> s.tailMutex == None
    ensures |StepLook(s, u).threads| == |s.threads| && StepLook(s, u).threads[u] != s.threads[u]
  {
    var p := s.threads[u];
    if p.PopLock? || p.PopHead? || p.PopLockTail? {
    } else if p.PopTail? || p.PopUnlockTail? {
    } else {
    }
  }
}
