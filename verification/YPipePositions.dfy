// The single-producer/single-consumer pipe on queue positions, one access at a time.
module PipePositions {
  import opened Wrappers

  // Positions number the items from 0 on; memory chunks do not appear.

  // What an item is, and whether its message goes on with the next one.
  datatype Item<T> = Item(value: T, incomplete: bool)

  datatype WriterOutcome<T> = NoWrite | Wrote | Unwrote(taken: Option<T>) | Flushed(awake: bool)

  datatype ReaderOutcome<T> = NoRead | Checked(available: bool) | GotItem(item: Option<T>)

  datatype WriterPhase<T> =
    | WriterIdle(last: WriterOutcome<T>)
    | StoreValue(item: Item<T>)          // write: put the value at back
    | AdvanceBack(item: Item<T>)         // push: move back and end
    | MarkFlush(incomplete: bool)        // write: record where to flush up to
    | TestUnwrite                        // unwrite: is there an incomplete item?
    | RetreatBack                        // unpush: move back
    | RetreatEnd                         // unpush: move end
    | TakeValue                          // unwrite: copy the item out
    | TestFlush
    | CasFlush
    | SetFlush                           // the plain store after the failed compare-and-swap
    | EndFlush(awake: bool)              // c is set, w is not yet

  datatype ReaderPhase<T> =
    | ReaderIdle(last: ReaderOutcome<T>)
    | TestPrefetched(peek: bool)
    | CasPrefetch(peek: bool)
    | CopyFront
    | AdvanceFront(value: T)

  datatype WriterCall<T> = Write(item: Item<T>) | Unwrite | Flush
  datatype ReaderCall = Read | CheckRead

  datatype Move<T> = Writer(wcall: WriterCall<T>) | Reader(rcall: ReaderCall)

  datatype Pipe<T> = Pipe(
    front: nat,
    r: Option<nat>,
    c: Option<nat>,
    w: nat,
    f: nat,
    back: nat,
    cell: map<nat, T>,
    writer: WriterPhase<T>,
    reader: ReaderPhase<T>,
    // History: the items at positions below back; what reads returned; the value the last
    // unwrite removed; swaps of c to NULL, and publications by the plain store.
    log: seq<Item<T>>,
    delivered: seq<T>,
    removed: Option<T>,
    naps: nat,
    wakes: nat)

  function Init<T>(): Pipe<T>
  {
    Pipe(0, Some(0), Some(0), 0, 0, 0, map[], WriterIdle(NoWrite), ReaderIdle(NoRead), [], [], None, 0, 0)
  }

  function WriterStep<T>(s: Pipe<T>, call: WriterCall<T>): Pipe<T>
  {
    match s.writer
    case WriterIdle(_) =>
      s.(writer := match call case Write(item) => StoreValue(item) case Unwrite => TestUnwrite case Flush => TestFlush)
    case StoreValue(item) => s.(cell := s.cell[s.back := item.value], writer := AdvanceBack(item))
    case AdvanceBack(item) =>
      s.(back := s.back + 1, log := s.log + [item], writer := MarkFlush(item.incomplete))
    case MarkFlush(incomplete) =>
      s.(f := if incomplete then s.f else s.back, writer := WriterIdle(Wrote))
    case TestUnwrite => s.(writer := if s.f == s.back then WriterIdle(Unwrote(None)) else RetreatBack)
    case RetreatBack =>
      if s.back == 0 || s.log == [] then s
      else s.(back := s.back - 1, log := s.log[..|s.log| - 1],
              removed := Some(s.log[|s.log| - 1].value), writer := RetreatEnd)
    case RetreatEnd => s.(writer := TakeValue)
    case TakeValue =>
      if s.back !in s.cell then s else s.(writer := WriterIdle(Unwrote(Some(s.cell[s.back]))))
    case TestFlush => s.(writer := if s.w == s.f then WriterIdle(Flushed(true)) else CasFlush)
    case CasFlush =>
      if s.c == Some(s.w) then s.(c := Some(s.f), writer := EndFlush(true)) else s.(writer := SetFlush)
    case SetFlush => s.(c := Some(s.f), writer := EndFlush(false), wakes := s.wakes + 1)
    case EndFlush(awake) => s.(w := s.f, writer := WriterIdle(Flushed(awake)))
  }

  function Unavailable<T>(peek: bool): ReaderPhase<T>
  {
    ReaderIdle(if peek then Checked(false) else GotItem(None))
  }

  function Available<T>(peek: bool): ReaderPhase<T>
  {
    if peek then ReaderIdle(Checked(true)) else CopyFront
  }

  function ReaderStep<T>(s: Pipe<T>, call: ReaderCall): Pipe<T>
  {
    match s.reader
    case ReaderIdle(_) => s.(reader := TestPrefetched(call.CheckRead?))
    case TestPrefetched(peek) =>
      s.(reader := if s.r != Some(s.front) && s.r != None then Available(peek) else CasPrefetch(peek))
    case CasPrefetch(peek) =>
      s.(r := s.c,
         c := if s.c == Some(s.front) then None else s.c,
         naps := if s.c == Some(s.front) then s.naps + 1 else s.naps,
         reader := if s.c == Some(s.front) || s.c == None then Unavailable(peek) else Available(peek))
    case CopyFront => if s.front !in s.cell then s else s.(reader := AdvanceFront(s.cell[s.front]))
    case AdvanceFront(value) =>
      s.(front := s.front + 1, delivered := s.delivered + [value], reader := ReaderIdle(GotItem(Some(value))))
  }

  function Step<T>(s: Pipe<T>, m: Move<T>): Pipe<T>
  {
    match m case Writer(call) => WriterStep(s, call) case Reader(call) => ReaderStep(s, call)
  }

  function Run<T>(s: Pipe<T>, schedule: seq<Move<T>>): Pipe<T>
    decreases |schedule|
  {
    if schedule == [] then s else Run(Step(s, schedule[0]), schedule[1..])
  }

  // ---------- The invariant ----------

  // Up to where the items have been published to the reader.
  function Published<T>(s: Pipe<T>): nat
  {
    if s.writer.EndFlush? then s.f else s.w
  }

  // No message is cut at position `p`.
  predicate Boundary<T>(log: seq<Item<T>>, p: nat)
    requires p <= |log|
  {
    p == 0 || !log[p - 1].incomplete
  }

  ghost predicate Ordered<T>(s: Pipe<T>)
  {
    && s.front <= Published(s) <= s.f <= s.back && s.w <= s.f
    && |s.log| == s.back && |s.delivered| == s.front
    && (s.c == None || s.c == Some(Published(s)))
    && (s.c == None ==> s.front == Published(s))
    && (s.r.Some? ==> s.front <= s.r.value <= Published(s))
  }

  ghost predicate Contents<T>(s: Pipe<T>)
    requires Ordered(s)
  {
    && (forall p | s.front <= p < s.back :: p in s.cell && s.cell[p] == s.log[p].value)
    && (forall p | 0 <= p < s.front :: s.delivered[p] == s.log[p].value)
  }

  // The reader's last call was a check, and its answer was true.
  predicate FoundOne<T>(p: ReaderPhase<T>) { p.ReaderIdle? && p.last.Checked? && p.last.available }

  ghost predicate Phases<T>(s: Pipe<T>)
    requires Ordered(s)
  {
    && (s.writer.AdvanceBack? ==> s.back in s.cell && s.cell[s.back] == s.writer.item.value)
    && (s.writer.MarkFlush? ==> s.back > 0 && s.log[s.back - 1].incomplete == s.writer.incomplete)
    && (s.writer.RetreatBack? ==> s.f < s.back)
    && (s.writer.RetreatEnd? || s.writer.TakeValue? ==> s.back in s.cell && s.removed == Some(s.cell[s.back]))
    && (s.writer.SetFlush? ==> s.c == None)
    && (s.reader.CopyFront? || s.reader.AdvanceFront? || FoundOne(s.reader) ==> s.r.Some? && s.front < s.r.value)
    && (s.reader.AdvanceFront? ==> s.reader.value == s.log[s.front].value)
  }

  ghost predicate Boundaries<T>(s: Pipe<T>)
    requires Ordered(s)
  {
    && Boundary(s.log, s.f) && Boundary(s.log, s.w)
    && (s.r.Some? ==> Boundary(s.log, s.r.value))
  }

  ghost predicate Inv<T>(s: Pipe<T>)
  {
    && Ordered(s) && Contents(s) && Phases(s) && Boundaries(s)
    && s.naps == s.wakes + if s.c == None then 1 else 0
  }

  // ---------- Every step keeps the invariant ----------

  lemma InitInv<T>()
    ensures Inv(Init<T>())
  {
  }

  lemma WriteInv<T>(s: Pipe<T>, call: WriterCall<T>)
    requires Inv(s) && (s.writer.WriterIdle? || s.writer.StoreValue? || s.writer.MarkFlush?)
    ensures Inv(WriterStep(s, call))
  {
  }

  lemma AdvanceInv<T>(s: Pipe<T>, call: WriterCall<T>)
    requires Inv(s) && s.writer.AdvanceBack?
    ensures Inv(WriterStep(s, call))
  {
    var r := WriterStep(s, call);
    assert forall p | 0 <= p < s.back :: r.log[p] == s.log[p];
    assert Ordered(r);
    assert Contents(r) by { hide Phases, Boundaries, Boundary; }
    assert Phases(r) by { hide Contents, Boundaries, Boundary; }
    assert Boundaries(r) by { hide Contents, Phases; }
  }

  lemma RetreatInv<T>(s: Pipe<T>, call: WriterCall<T>)
    requires Inv(s) && s.writer.RetreatBack?
    ensures Inv(WriterStep(s, call))
  {
    var r := WriterStep(s, call);
    assert r.log == s.log[..s.back - 1];
    RetreatKeeps(s, r);
  }

  lemma RetreatKeeps<T>(s: Pipe<T>, r: Pipe<T>)
    requires Inv(s) && s.f < s.back && !s.writer.EndFlush?
    requires r == s.(back := s.back - 1, log := s.log[..s.back - 1],
                     removed := Some(s.log[s.back - 1].value), writer := RetreatEnd)
    ensures Inv(r)
  {
    assert Ordered(r);
    assert r.reader.AdvanceFront? ==> s.front < s.f;
  }

  lemma UnwriteInv<T>(s: Pipe<T>, call: WriterCall<T>)
    requires Inv(s) && (s.writer.TestUnwrite? || s.writer.RetreatEnd? || s.writer.TakeValue?)
    ensures Inv(WriterStep(s, call))
  {
  }

  lemma FlushInv<T>(s: Pipe<T>, call: WriterCall<T>)
    requires Inv(s) && (s.writer.TestFlush? || s.writer.CasFlush? || s.writer.SetFlush? || s.writer.EndFlush?)
    ensures Inv(WriterStep(s, call))
  {
    hide Boundary;
    if s.writer.TestFlush? || s.writer.EndFlush? {
    } else if s.writer.CasFlush? {
    } else {
    }
  }

  lemma PrefetchInv<T>(s: Pipe<T>, call: ReaderCall)
    requires Inv(s) && (s.reader.ReaderIdle? || s.reader.TestPrefetched? || s.reader.CasPrefetch?)
    ensures Inv(ReaderStep(s, call))
  {
    hide Boundary;
    if s.reader.ReaderIdle? {
    } else if s.reader.TestPrefetched? {
    } else if s.reader.CasPrefetch? && s.c == Some(s.front) {
    } else {
    }
  }

  lemma ReadInv<T>(s: Pipe<T>, call: ReaderCall)
    requires Inv(s) && (s.reader.CopyFront? || s.reader.AdvanceFront?)
    ensures Inv(ReaderStep(s, call))
  {
  }

  lemma StepInv<T>(s: Pipe<T>, m: Move<T>)
    requires Inv(s)
    ensures Inv(Step(s, m))
  {
    hide Inv, WriterStep, ReaderStep;
    match m
    case Writer(call) =>
      match s.writer {
        case AdvanceBack(_) => AdvanceInv(s, call);
        case RetreatBack => RetreatInv(s, call);
        case TestUnwrite => UnwriteInv(s, call);
        case RetreatEnd => UnwriteInv(s, call);
        case TakeValue => UnwriteInv(s, call);
        case WriterIdle(_) => WriteInv(s, call);
        case StoreValue(_) => WriteInv(s, call);
        case MarkFlush(_) => WriteInv(s, call);
        case _ => FlushInv(s, call);
      }
    case Reader(call) =>
      if s.reader.CopyFront? || s.reader.AdvanceFront? { ReadInv(s, call); } else { PrefetchInv(s, call); }
  }

  lemma {:induction false} RunInv<T>(s: Pipe<T>, schedule: seq<Move<T>>)
    requires Inv(s)
    ensures Inv(Run(s, schedule))
    decreases |schedule|
  {
    if schedule != [] {
      StepInv(s, schedule[0]);
      RunInv(Step(s, schedule[0]), schedule[1..]);
    }
  }

  // ---------- What every run keeps ----------

  function Values<T>(log: seq<Item<T>>): (r: seq<T>)
    ensures |r| == |log| && forall i | 0 <= i < |log| :: r[i] == log[i].value
  {
    seq(|log|, i requires 0 <= i < |log| => log[i].value)
  }

  // What the reader has got is a prefix, in write order, of the items flushed as complete.
  lemma DeliveredIsPrefix<T>(schedule: seq<Move<T>>)
    ensures var s := Run(Init<T>(), schedule);
            && s.front <= Published(s) <= s.f <= |s.log|
            && s.delivered == Values(s.log[..s.front])
            && Boundary(s.log, Published(s))
  {
    InitInv<T>();
    RunInv(Init<T>(), schedule);
    assert Boundary(Run(Init<T>(), schedule).log, Run(Init<T>(), schedule).f);
  }

  // Completed items are never taken back and never change: the log below f only grows.
  ghost predicate KeepsCompleted<T>(s: Pipe<T>, r: Pipe<T>)
  {
    s.f <= r.f && s.f <= |s.log| && s.log[..s.f] <= r.log && s.delivered <= r.delivered
  }

  lemma StepKeepsCompleted<T>(s: Pipe<T>, m: Move<T>)
    requires Inv(s)
    ensures KeepsCompleted(s, Step(s, m))
  {
    if m.Writer? {
      WriterKeepsCompleted(s, m.wcall);
    }
  }

  lemma WriterKeepsCompleted<T>(s: Pipe<T>, call: WriterCall<T>)
    requires Inv(s)
    ensures KeepsCompleted(s, WriterStep(s, call))
  {
    match s.writer
    case AdvanceBack(_) =>
    case RetreatBack =>
    case MarkFlush(_) =>
    case _ =>
  }

  lemma LogReaches<T>(s: Pipe<T>)
    requires Inv(s)
    ensures s.f <= |s.log|
  {
  }

  lemma {:induction false} RunKeepsCompleted<T>(s: Pipe<T>, schedule: seq<Move<T>>)
    requires Inv(s)
    ensures KeepsCompleted(s, Run(s, schedule))
    decreases |schedule|
  {
    hide Inv, Step;
    if schedule == [] {
      LogReaches(s);
    } else {
      var s1 := Step(s, schedule[0]);
      StepInv(s, schedule[0]);
      StepKeepsCompleted(s, schedule[0]);
      RunKeepsCompleted(s1, schedule[1..]);
      assert s1.log[..s.f] == s.log[..s.f];
    }
  }

  // A read or check that reports nothing decided so at its compare-and-swap on c, and at that
  // very step every published item had been read; it reports something otherwise.  Reporting nothing
  // it leaves c NULL; otherwise it leaves c alone and prefetches all that is published.
  lemma NothingMeansDrained<T>(s: Pipe<T>, call: ReaderCall)
    requires Inv(s) && s.reader.CasPrefetch?
    ensures var (r, peek) := (ReaderStep(s, call), s.reader.peek);
            if s.front == Published(s) then
              && r.reader == ReaderIdle(if peek then Checked(false) else GotItem(None))
              && r.c == None && r.naps == s.naps + (if s.c.Some? then 1 else 0)
            else
              && s.front < Published(s) && r.reader == (if peek then ReaderIdle(Checked(true)) else CopyFront)
              && r.c == s.c == r.r == Some(Published(s)) && r.naps == s.naps
  {
  }

  // The first test passes exactly when an item is prefetched already; else the reader turns to c.
  lemma PrefetchedMeans<T>(s: Pipe<T>, call: ReaderCall)
    requires Inv(s) && s.reader.TestPrefetched?
    ensures ReaderStep(s, call).reader ==
            if !(s.r.Some? && s.front < s.r.value) then CasPrefetch(s.reader.peek)
            else if s.reader.peek then ReaderIdle(Checked(true)) else CopyFront
  {
  }

  // In every run, after a check that answered true there is an item to read; a call of either kind
  // begins with the test of what is prefetched.
  lemma CheckedMeansReadable<T>(schedule: seq<Move<T>>, call: ReaderCall)
    ensures var s := Run(Init<T>(), schedule);
            && (s.reader == ReaderIdle(Checked(true)) ==>
                  && s.r.Some? && s.front < s.r.value <= Published(s) <= |s.log|
                  && s.front in s.cell && s.cell[s.front] == s.log[s.front].value)
            && (s.reader.ReaderIdle? ==> ReaderStep(s, call).reader == TestPrefetched(call == CheckRead))
  {
    InitInv<T>();
    RunInv(Init<T>(), schedule);
  }

  // The sleep handshake: the compare-and-swap of a flush fails exactly when the reader has
  // swapped c to NULL since the last publication, and nothing happens to c before the plain store.
  lemma Handshake<T>(schedule: seq<Move<T>>, call: WriterCall<T>)
    ensures var s := Run(Init<T>(), schedule);
            && s.naps == s.wakes + (if s.c == None then 1 else 0)
            && (s.writer.CasFlush? ==>
                  (WriterStep(s, call).writer == SetFlush <==> s.c == None))
            && (s.writer.CasFlush? && s.c.Some? ==>
                  WriterStep(s, call).writer == EndFlush(true) && WriterStep(s, call).c == Some(s.f))
            && (s.writer.SetFlush? ==>
                  s.c == None && WriterStep(s, call).writer == EndFlush(false) && WriterStep(s, call).c == Some(s.f))
            && (s.writer.EndFlush? ==>
                  WriterStep(s, call).writer == WriterIdle(Flushed(s.writer.awake)) && WriterStep(s, call).w == s.f)
  {
    InitInv<T>();
    RunInv(Init<T>(), schedule);
  }

  ghost predicate WritersOnly<T>(schedule: seq<Move<T>>) { forall i | 0 <= i < |schedule| :: schedule[i].Writer? }

  // No wake-up is lost: once the reader has found nothing, nothing is published to it except by a
  // flush that takes the plain store, and so answers false.
  lemma {:induction false} NoLostWakeUp<T>(s: Pipe<T>, schedule: seq<Move<T>>)
    requires Inv(s) && s.c == None && WritersOnly(schedule)
    ensures var r := Run(s, schedule);
            && r.front == s.front && s.wakes <= r.wakes
            && (r.wakes == s.wakes ==> r.c == None && Published(r) == Published(s))
            && (r.wakes > s.wakes ==> r.naps == s.naps && r.c.Some?)
  {
    RunInv(s, schedule);
    WritersKeepReader(s, schedule);
  }

  lemma {:induction false} WritersKeepReader<T>(s: Pipe<T>, schedule: seq<Move<T>>)
    requires Inv(s) && WritersOnly(schedule)
    ensures var r := Run(s, schedule); r.front == s.front && r.naps == s.naps && s.wakes <= r.wakes
    decreases |schedule|
  {
    hide Inv, WriterStep;
    if schedule != [] {
      assert schedule[0].Writer?;
      StepInv(s, schedule[0]);
      WriterKeepsReaderSide(s, schedule[0].wcall);
      WakesGrow(s, schedule[0].wcall);
      assert WritersOnly(schedule[1..]);
      WritersKeepReader(Step(s, schedule[0]), schedule[1..]);
    }
  }

  lemma WakesGrow<T>(s: Pipe<T>, call: WriterCall<T>)
    ensures s.wakes <= WriterStep(s, call).wakes
  {
  }

  // The end of the message that has a part at `p`.
  function MessageEnd<T>(log: seq<Item<T>>, p: nat): nat
    requires p < |log|
    decreases |log| - p
  {
    if !log[p].incomplete || p + 1 == |log| then p + 1 else MessageEnd(log, p + 1)
  }

  lemma {:induction false} MessageEndsBefore<T>(log: seq<Item<T>>, p: nat, b: nat)
    requires p < b <= |log| && Boundary(log, b)
    ensures MessageEnd(log, p) <= b
    decreases b - p
  {
    if log[p].incomplete {
      MessageEndsBefore(log, p + 1, b);
    }
  }

  // Once the first part of a message is readable all of it is: r lies beyond its last part,
  // so every read up to there finds its item prefetched.
  lemma WholeMessagesReadable<T>(schedule: seq<Move<T>>, p: nat, call: ReaderCall)
    ensures var s := Run(Init<T>(), schedule);
            s.r.Some? && s.front <= p < s.r.value ==>
              && p < |s.log| && MessageEnd(s.log, p) <= s.r.value
              && (s.reader.TestPrefetched? ==> ReaderStep(s, call).reader == Available(s.reader.peek))
  {
    InitInv<T>();
    RunInv(Init<T>(), schedule);
    var s := Run(Init<T>(), schedule);
    if s.r.Some? && s.front <= p < s.r.value {
      MessageEndsBefore(s.log, p, s.r.value);
    }
  }

  // ---------- What one thread's steps leave to the other ----------

  ghost predicate SameWriterSide<T>(s: Pipe<T>, r: Pipe<T>)
  {
    && r.w == s.w && r.f == s.f && r.back == s.back && r.cell == s.cell && r.writer == s.writer
    && r.log == s.log && r.removed == s.removed && r.wakes == s.wakes
  }

  ghost predicate SameReaderSide<T>(s: Pipe<T>, r: Pipe<T>)
  {
    && r.front == s.front && r.r == s.r && r.reader == s.reader && r.delivered == s.delivered && r.naps == s.naps
    && Published(s) <= Published(r)
  }

  lemma ReaderKeepsWriterSide<T>(s: Pipe<T>, call: ReaderCall)
    ensures SameWriterSide(s, ReaderStep(s, call))
  {
  }

  lemma WriterKeepsReaderSide<T>(s: Pipe<T>, call: WriterCall<T>)
    requires Inv(s)
    ensures SameReaderSide(s, WriterStep(s, call))
  {
    hide Contents, Boundaries, Boundary;
    if s.writer.CasFlush? || s.writer.SetFlush? || s.writer.EndFlush? {
    } else if s.writer.MarkFlush? || s.writer.TestFlush? {
    } else if s.writer.RetreatBack? || s.writer.TakeValue? {
    } else {
    }
  }
}
