// The same ring as the program runs it: 64-bit counters and stamps that wrap, slots
// chosen by masking.  It is compared step by step with the ring on unbounded tickets.
module WordRing {
  import opened Wrappers
  import opened Bits
  import opened Slots
  import opened TicketGuarantees
  import opened TicketRing

  const WORD: nat := 0x1_0000_0000_0000_0000

  type Word = x: int | 0 <= x < WORD

  datatype WordState<T> = WordState(
    mask: Word,
    capacity: Word,
    tail: Word,
    head: Word,
    tailStamp: seq<Word>,
    headStamp: seq<Word>,
    cell: seq<Option<T>>,
    threads: seq<Phase<T>>)

  function AsWord(x: int): Word { x % WORD }

  ghost predicate Fits<T>(w: WordState<T>)
  {
    && w.mask + 1 == w.capacity
    && |w.tailStamp| == |w.headStamp| == |w.cell| == w.capacity
    && forall t | 0 <= t < |w.threads| :: FitsPhase(w.threads[t])
  }

  predicate FitsPhase<T>(p: Phase<T>)
  {
    !p.Idle? && !p.LoadTail? && !p.LoadHead? ==> p.ticket < WORD
  }

  // The slot of a ticket, as the program computes it.
  function Index(k: Word, mask: Word): (i: nat)
    ensures i <= mask
  {
    And(k, mask)
  }

  function Goto<T>(w: WordState<T>, t: nat, p: Phase<T>): WordState<T>
    requires t < |w.threads|
  {
    w.(threads := w.threads[t := p])
  }

  function WordTestTail<T>(w: WordState<T>, t: nat, x: T, k: Word): WordState<T>
    requires Fits(w) && t < |w.threads|
  {
    if w.tailStamp[Index(k, w.mask)] != k then Goto(w, t, Idle(Pushed(false))) else Goto(w, t, CasTail(x, k))
  }

  function WordCasTail<T>(w: WordState<T>, t: nat, x: T, k: Word, fails: bool): WordState<T>
    requires t < |w.threads|
  {
    if w.tail == k && !fails then Goto(w, t, Construct(x, k)).(tail := AsWord(k + 1))
    else Goto(w, t, TestTail(x, w.tail))
  }

  function WordConstruct<T>(w: WordState<T>, t: nat, x: T, k: Word): WordState<T>
    requires Fits(w) && t < |w.threads|
  {
    Goto(w, t, Publish(x, k)).(cell := w.cell[Index(k, w.mask) := Some(x)])
  }

  function WordPublish<T>(w: WordState<T>, t: nat, k: Word): WordState<T>
    requires Fits(w) && t < |w.threads|
  {
    Goto(w, t, Idle(Pushed(true))).(headStamp := w.headStamp[Index(k, w.mask) := k])
  }

  function WordTestHead<T>(w: WordState<T>, t: nat, k: Word): WordState<T>
    requires Fits(w) && t < |w.threads|
  {
    if w.headStamp[Index(k, w.mask)] != k then Goto(w, t, Idle(Popped(None))) else Goto(w, t, CasHead(k))
  }

  function WordCasHead<T>(w: WordState<T>, t: nat, k: Word, fails: bool): WordState<T>
    requires t < |w.threads|
  {
    if w.head == k && !fails then Goto(w, t, ReadItem(k)).(head := AsWord(k + 1))
    else Goto(w, t, TestHead(w.head))
  }

  function WordReadItem<T>(w: WordState<T>, t: nat, k: Word): WordState<T>
    requires Fits(w) && t < |w.threads|
  {
    var c := w.cell[Index(k, w.mask)];
    if c.None? then w else Goto(w, t, Destroy(c.value, k))
  }

  function WordDestroy<T>(w: WordState<T>, t: nat, x: T, k: Word): WordState<T>
    requires Fits(w) && t < |w.threads|
  {
    Goto(w, t, Release(x, k)).(cell := w.cell[Index(k, w.mask) := None])
  }

  function WordRelease<T>(w: WordState<T>, t: nat, x: T, k: Word): WordState<T>
    requires Fits(w) && t < |w.threads|
  {
    Goto(w, t, Idle(Popped(Some(x)))).(tailStamp := w.tailStamp[Index(k, w.mask) := AsWord(k + w.capacity)])
  }

  function WordStep<T>(w: WordState<T>, t: nat, a: Action<T>): (r: WordState<T>)
    requires Fits(w)
    ensures Fits(r) && r.capacity == w.capacity && |r.threads| == |w.threads|
  {
    if t >= |w.threads| then w
    else match w.threads[t]
      case Idle(_) =>
        (match a
         case CallPush(x) => Goto(w, t, LoadTail(x))
         case CallPop => Goto(w, t, LoadHead)
         case _ => w)
      case LoadTail(x) => Goto(w, t, TestTail(x, w.tail))
      case TestTail(x, k) => WordTestTail(w, t, x, k)
      case CasTail(x, k) => WordCasTail(w, t, x, k, a.FailSpuriously?)
      case Construct(x, k) => WordConstruct(w, t, x, k)
      case Publish(_, k) => WordPublish(w, t, k)
      case LoadHead => Goto(w, t, TestHead(w.head))
      case TestHead(k) => WordTestHead(w, t, k)
      case CasHead(k) => WordCasHead(w, t, k, a.FailSpuriously?)
      case ReadItem(k) => WordReadItem(w, t, k)
      case Destroy(x, k) => WordDestroy(w, t, x, k)
      case Release(x, k) => WordRelease(w, t, x, k)
  }

  function WordRun<T>(w: WordState<T>, schedule: seq<(nat, Action<T>)>): (r: WordState<T>)
    requires Fits(w)
    ensures Fits(r) && r.capacity == w.capacity && |r.threads| == |w.threads|
    decreases |schedule|
  {
    if schedule == [] then w
    else WordRun(WordStep(w, schedule[0].0, schedule[0].1), schedule[1..])
  }

  // ---------- The word seen through the unbounded ring ----------

  function WrapPhase<T>(p: Phase<T>): (r: Phase<T>)
    ensures FitsPhase(r)
  {
    match p
    case TestTail(x, k) => TestTail(x, AsWord(k))
    case CasTail(x, k) => CasTail(x, AsWord(k))
    case Construct(x, k) => Construct(x, AsWord(k))
    case Publish(x, k) => Publish(x, AsWord(k))
    case TestHead(k) => TestHead(AsWord(k))
    case CasHead(k) => CasHead(AsWord(k))
    case ReadItem(k) => ReadItem(AsWord(k))
    case Destroy(x, k) => Destroy(x, AsWord(k))
    case Release(x, k) => Release(x, AsWord(k))
    case _ => p
  }

  function Words(q: seq<int>): (r: seq<Word>)
    ensures |r| == |q| && forall i | 0 <= i < |q| :: r[i] == AsWord(q[i])
  {
    seq(|q|, i requires 0 <= i < |q| => AsWord(q[i]))
  }

  function WrapPhases<T>(q: seq<Phase<T>>): (r: seq<Phase<T>>)
    ensures |r| == |q| && forall i | 0 <= i < |q| :: r[i] == WrapPhase(q[i])
  {
    seq(|q|, i requires 0 <= i < |q| => WrapPhase(q[i]))
  }

  function Wrap<T>(s: Ring<T>): (w: WordState<T>)
    requires Shaped(s) && s.capacity < WORD
    ensures Fits(w) && w.capacity == s.capacity && |w.threads| == |s.threads|
  {
    WordState(s.capacity - 1, s.capacity, AsWord(s.tail), AsWord(s.head),
              Words(s.tailStamp), Words(s.headStamp), s.cell, WrapPhases(s.threads))
  }

  // How far behind the shared counter a thread's own copy is.
  function Lag<T>(s: Ring<T>, p: Phase<T>): int
  {
    match p
    case TestTail(_, k) => s.tail - k
    case CasTail(_, k) => s.tail - k
    case TestHead(k) => s.head - k
    case CasHead(k) => s.head - k
    case _ => 0
  }

  // No step of the run is taken by a thread whose copy is more than `bound` tickets old.
  ghost predicate MovesWithin<T>(s: Ring<T>, schedule: seq<(nat, Action<T>)>, bound: int)
    requires Shaped(s)
    decreases |schedule|
  {
    schedule != [] ==>
      var (t, a) := schedule[0];
      && (t < |s.threads| ==> Lag(s, s.threads[t]) <= bound)
      && MovesWithin(Step(s, t, a), schedule[1..], bound)
  }

  ghost predicate GoodCapacity(c: int)
  {
    0 < c <= 0x8000_0000_0000_0000 && IsPow2(c)
  }

  lemma WordIsPow2()
    ensures WORD == Pow2(64)
    ensures 0x8000_0000_0000_0000 == Pow2(63)
  {
    assert Pow2(4) == 2 * Pow2(3) == 4 * Pow2(2) == 8 * Pow2(1) == 16;
    Pow2Sum(4, 4);
    Pow2Sum(8, 8);
    Pow2Sum(16, 16);
    Pow2Sum(32, 32);
    assert Pow2(64) == 2 * Pow2(63);
  }

  // Masking a wrapped ticket finds the slot of the unbounded one.
  lemma IndexIsSlot(k: nat, c: nat)
    requires GoodCapacity(c)
    ensures Index(AsWord(k), c - 1) == Slot(k, c)
  {
    var p: nat :| c == Pow2(p);
    WordIsPow2();
    if p > 64 { Pow2Strict(64, p); }
    AndMask(AsWord(k), p);
    ModOfMod(k, p, 64);
    SlotIsRemainder(k, c);
  }

  lemma SameWord(a: int, b: int)
    requires a - b < WORD && b - a < WORD
    ensures AsWord(a) == AsWord(b) <==> a == b
  {
  }

  lemma WrapPlus(k: int, c: int)
    ensures AsWord(AsWord(k) + c) == AsWord(k + c)
  {
  }

  lemma WordsUpdate(q: seq<int>, i: nat, x: int)
    requires i < |q|
    ensures Words(q[i := x]) == Words(q)[i := AsWord(x)]
  {
  }

  lemma PhasesUpdate<T>(q: seq<Phase<T>>, t: nat, p: Phase<T>)
    requires t < |q|
    ensures WrapPhases(q[t := p]) == WrapPhases(q)[t := WrapPhase(p)]
  {
  }

  // The two stamp tests and the two compare-and-swaps agree on words and on tickets
  // while the lag plus the capacity is at most 2^64.
  lemma TestsAgree<T>(s: Ring<T>, t: nat)
    requires Inv(s) && GoodCapacity(s.capacity) && t < |s.threads|
    requires Lag(s, s.threads[t]) + s.capacity <= WORD
    ensures var p := s.threads[t];
            && (p.TestTail? ==> (AsWord(s.tailStamp[Slot(p.ticket, s.capacity)]) == AsWord(p.ticket) <==>
                                 s.tailStamp[Slot(p.ticket, s.capacity)] == p.ticket))
            && (p.CasTail? ==> (AsWord(s.tail) == AsWord(p.ticket) <==> s.tail == p.ticket))
            && (p.TestHead? ==> (AsWord(s.headStamp[Slot(p.ticket, s.capacity)]) == AsWord(p.ticket) <==>
                                 s.headStamp[Slot(p.ticket, s.capacity)] == p.ticket))
            && (p.CasHead? ==> (AsWord(s.head) == AsWord(p.ticket) <==> s.head == p.ticket))
  {
    var p := s.threads[t];
    assert ThreadOk(s, t);
    match p
    case TestTail(_, k) => assert SlotOk(s, Slot(k, s.capacity)); SameWord(s.tailStamp[Slot(k, s.capacity)], k);
    case TestHead(k) => assert SlotOk(s, Slot(k, s.capacity)); SameWord(s.headStamp[Slot(k, s.capacity)], k);
    case CasTail(_, k) => SameWord(s.tail, k);
    case CasHead(k) => SameWord(s.head, k);
    case _ =>
  }

  lemma CasTailAgrees<T>(s: Ring<T>, t: nat, a: Action<T>)
    requires Shaped(s) && s.capacity < WORD && t < |s.threads| && s.threads[t].CasTail?
    requires AsWord(s.tail) == AsWord(s.threads[t].ticket) <==> s.tail == s.threads[t].ticket
    ensures WordStep(Wrap(s), t, a) == Wrap(Step(s, t, a))
  {
    PhasesUpdate(s.threads, t, Step(s, t, a).threads[t]);
    WrapPlus(s.threads[t].ticket, 1);
  }

  lemma CasHeadAgrees<T>(s: Ring<T>, t: nat, a: Action<T>)
    requires Shaped(s) && s.capacity < WORD && t < |s.threads| && s.threads[t].CasHead?
    requires AsWord(s.head) == AsWord(s.threads[t].ticket) <==> s.head == s.threads[t].ticket
    ensures WordStep(Wrap(s), t, a) == Wrap(Step(s, t, a))
  {
    PhasesUpdate(s.threads, t, Step(s, t, a).threads[t]);
    WrapPlus(s.threads[t].ticket, 1);
  }

  lemma TestAgrees<T>(s: Ring<T>, t: nat, a: Action<T>)
    requires Inv(s) && GoodCapacity(s.capacity) && t < |s.threads|
    requires Lag(s, s.threads[t]) + s.capacity <= WORD
    requires s.threads[t].TestTail? || s.threads[t].TestHead?
    ensures WordStep(Wrap(s), t, a) == Wrap(Step(s, t, a))
  {
    hide SlotOk, ThreadOk, TicketOk, Words, WrapPhases, Slot, Pow2;
    TestsAgree(s, t);
    IndexIsSlot(s.threads[t].ticket, s.capacity);
    PhasesUpdate(s.threads, t, Step(s, t, a).threads[t]);
    assert Wrap(s).threads[t] == WrapPhase(s.threads[t]);
    if s.threads[t].TestTail? {
    } else {
    }
  }

  lemma DataAgrees<T>(s: Ring<T>, t: nat, a: Action<T>)
    requires Shaped(s) && GoodCapacity(s.capacity) && t < |s.threads|
    requires s.threads[t].TouchesData()
    ensures WordStep(Wrap(s), t, a) == Wrap(Step(s, t, a))
  {
    hide Words, WrapPhases, Slot, Pow2;
    var k := s.threads[t].ticket;
    IndexIsSlot(k, s.capacity);
    PhasesUpdate(s.threads, t, Step(s, t, a).threads[t]);
    assert Wrap(s).threads[t] == WrapPhase(s.threads[t]);
    if s.threads[t].Construct? {
    } else if s.threads[t].ReadItem? {
    } else {
    }
  }

  lemma StampAgrees<T>(s: Ring<T>, t: nat, a: Action<T>)
    requires Shaped(s) && GoodCapacity(s.capacity) && t < |s.threads|
    requires s.threads[t].Publish? || s.threads[t].Release?
    ensures WordStep(Wrap(s), t, a) == Wrap(Step(s, t, a))
  {
    var k := s.threads[t].ticket;
    IndexIsSlot(k, s.capacity);
    PhasesUpdate(s.threads, t, Step(s, t, a).threads[t]);
    assert Wrap(s).threads[t] == WrapPhase(s.threads[t]);
    WrapPlus(k, s.capacity);
    WordsUpdate(s.tailStamp, Slot(k, s.capacity), k + s.capacity);
    WordsUpdate(s.headStamp, Slot(k, s.capacity), k);
  }

  lemma StepAgrees<T>(s: Ring<T>, t: nat, a: Action<T>)
    requires Inv(s) && GoodCapacity(s.capacity)
    requires t < |s.threads| ==> Lag(s, s.threads[t]) + s.capacity <= WORD
    ensures WordStep(Wrap(s), t, a) == Wrap(Step(s, t, a))
  {
    if t < |s.threads| {
      var p := s.threads[t];
      assert Wrap(s).threads[t] == WrapPhase(p);
      if p.TouchesData() {
        DataAgrees(s, t, a);
      } else if p.Publish? || p.Release? {
        StampAgrees(s, t, a);
      } else if p.CasTail? {
        TestsAgree(s, t);
        CasTailAgrees(s, t, a);
      } else if p.CasHead? {
        TestsAgree(s, t);
        CasHeadAgrees(s, t, a);
      } else if p.TestTail? || p.TestHead? {
        TestAgrees(s, t, a);
      } else {
        PhasesUpdate(s.threads, t, Step(s, t, a).threads[t]);
      }
    }
  }

  // Whole runs on words are runs on unbounded tickets, seen modulo 2^64.
  lemma {:induction false} RunAgrees<T>(s: Ring<T>, schedule: seq<(nat, Action<T>)>)
    requires Inv(s) && GoodCapacity(s.capacity) && MovesWithin(s, schedule, WORD - s.capacity)
    ensures WordRun(Wrap(s), schedule) == Wrap(Run(s, schedule))
    decreases |schedule|
  {
    if schedule != [] {
      var (t, a) := schedule[0];
      var s1, w1 := Step(s, t, a), WordStep(Wrap(s), t, a);
      assert w1 == Wrap(s1) by { StepAgrees(s, t, a); }
      assert Inv(s1) by { StepInv(s, t, a); }
      RunAgrees(s1, schedule[1..]);
      assert WordRun(Wrap(s), schedule) == WordRun(w1, schedule[1..]);
    }
  }
}
