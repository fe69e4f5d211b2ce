// The pipe as the program runs it: pointers into a doubly linked chain of chunks of `n`
// elements, allocated, recycled through a spare and freed while both threads work.
// Touching memory that is not allocated sets `fault`.
module ChunkPipe {
  import opened Wrappers
  import P = PipePositions

  type Ptr = Option<nat>

  datatype Chunk<T> = Chunk(values: seq<Option<T>>, prev: Ptr, next: Ptr)

  // The address of an element.
  datatype Cursor = Cursor(chunk: nat, index: nat)

  // The phases of the position machine, and between them the steps on chunks it does not see.
  datatype WriterPhase<T> =
    | At(phase: P.WriterPhase<T>)
    | TakeSpare(incomplete: bool)
    | LinkNext(incomplete: bool, spared: Ptr)
    | LinkPrev(incomplete: bool)
    | MoveEnd(incomplete: bool)
    | FreeEnd
    | ClearNext

  datatype ReaderPhase<T> =
    | At(phase: P.ReaderPhase<T>)
    | MoveBegin(value: T)
    | ClearPrev(value: T, used: nat)
    | GiveSpare(value: T, used: nat)
    | FreeOld(value: T, dropped: Ptr)

  // A step of the writer carries what `malloc` would return: an address and its old contents.
  datatype Move<T> = Writer(wcall: P.WriterCall<T>, addr: nat, junk: Chunk<T>) | Reader(rcall: P.ReaderCall)

  // The chunk size, the chunks from begin to the last in order, and how many were retired before.
  datatype Layout = Layout(n: nat, chain: seq<nat>, retired: nat)

  datatype Pipe<T> = Pipe(
    lay: Layout,
    mem: map<nat, Chunk<T>>,     // the allocated chunks
    beginChunk: nat, beginPos: nat,
    backChunk: nat, backPos: nat,
    endChunk: nat, endPos: nat,
    spare: Ptr,
    r: Option<Cursor>,
    w: Cursor,
    f: Cursor,
    c: Option<Cursor>,
    writer: WriterPhase<T>,
    reader: ReaderPhase<T>,
    fault: bool)
  {
    function Front(): Cursor { Cursor(beginChunk, beginPos) }
    function Back(): Cursor { Cursor(backChunk, backPos) }
  }

  function Fault<T>(q: Pipe<T>): Pipe<T> { q.(fault := true) }

  predicate Live<T>(q: Pipe<T>, a: Cursor)
  {
    a.chunk in q.mem && a.index < |q.mem[a.chunk].values|
  }

  // ---------- Writer: write and push ----------

  function StoreValue<T>(q: Pipe<T>, item: P.Item<T>): Pipe<T>
  {
    if !Live(q, q.Back()) then Fault(q)
    else
      var k := q.mem[q.backChunk];
      q.(mem := q.mem[q.backChunk := k.(values := k.values[q.backPos := Some(item.value)])],
         writer := WriterPhase.At(P.AdvanceBack(item)))
  }

  function AdvanceBack<T>(q: Pipe<T>, item: P.Item<T>): Pipe<T>
  {
    q.(backChunk := q.endChunk, backPos := q.endPos, endPos := q.endPos + 1,
       writer := if q.endPos + 1 != q.lay.n then WriterPhase.At(P.MarkFlush(item.incomplete))
           else TakeSpare(item.incomplete))
  }

  function LinkNextStep<T>(q: Pipe<T>, incomplete: bool, spared: Ptr, addr: nat, junk: Chunk<T>): Pipe<T>
  {
    if q.endChunk !in q.mem then Fault(q)
    else match spared
      case Some(a) =>
        q.(mem := q.mem[q.endChunk := q.mem[q.endChunk].(next := Some(a))],
           lay := q.lay.(chain := q.lay.chain + [a]), writer := LinkPrev(incomplete))
      case None =>
        // The allocator returns an address that is not in use.
        if addr in q.mem || |junk.values| != q.lay.n then q
        else
          q.(mem := q.mem[addr := junk][q.endChunk := q.mem[q.endChunk].(next := Some(addr))],
             lay := q.lay.(chain := q.lay.chain + [addr]), writer := LinkPrev(incomplete))
  }

  function LinkPrevStep<T>(q: Pipe<T>, incomplete: bool): Pipe<T>
  {
    if q.endChunk !in q.mem then Fault(q)
    else match q.mem[q.endChunk].next
      case None => Fault(q)
      case Some(a) =>
        if a !in q.mem then Fault(q)
        else q.(mem := q.mem[a := q.mem[a].(prev := Some(q.endChunk))], writer := MoveEnd(incomplete))
  }

  function MoveEndStep<T>(q: Pipe<T>, incomplete: bool): Pipe<T>
  {
    if q.endChunk !in q.mem || q.mem[q.endChunk].next == None then Fault(q)
    else q.(endChunk := q.mem[q.endChunk].next.value, endPos := 0, writer := WriterPhase.At(P.MarkFlush(incomplete)))
  }

  // ---------- Writer: unwrite and unpush ----------

  function RetreatBack<T>(q: Pipe<T>): Pipe<T>
  {
    if q.backPos > 0 then q.(backPos := q.backPos - 1, writer := WriterPhase.At(P.RetreatEnd))
    else if q.backChunk !in q.mem || q.mem[q.backChunk].prev == None || q.lay.n == 0 then Fault(q)
    else q.(backPos := q.lay.n - 1, backChunk := q.mem[q.backChunk].prev.value, writer := WriterPhase.At(P.RetreatEnd))
  }

  function RetreatEnd<T>(q: Pipe<T>): Pipe<T>
  {
    if q.endPos > 0 then q.(endPos := q.endPos - 1, writer := WriterPhase.At(P.TakeValue))
    else if q.endChunk !in q.mem || q.mem[q.endChunk].prev == None || q.lay.n == 0 then Fault(q)
    else q.(endPos := q.lay.n - 1, endChunk := q.mem[q.endChunk].prev.value, writer := FreeEnd)
  }

  function FreeEndStep<T>(q: Pipe<T>): Pipe<T>
  {
    if q.endChunk !in q.mem || q.mem[q.endChunk].next == None || q.lay.chain == [] then Fault(q)
    else if q.mem[q.endChunk].next.value !in q.mem then Fault(q)
    else q.(mem := q.mem - {q.mem[q.endChunk].next.value}, lay := q.lay.(chain := q.lay.chain[..|q.lay.chain| - 1]),
        writer := ClearNext)
  }

  function ClearNextStep<T>(q: Pipe<T>): Pipe<T>
  {
    if q.endChunk !in q.mem then Fault(q)
    else q.(mem := q.mem[q.endChunk := q.mem[q.endChunk].(next := None)], writer := WriterPhase.At(P.TakeValue))
  }

  function TakeValue<T>(q: Pipe<T>): Pipe<T>
  {
    if !Live(q, q.Back()) || q.mem[q.backChunk].values[q.backPos] == None then Fault(q)
    else q.(writer := WriterPhase.At(P.WriterIdle(P.Unwrote(q.mem[q.backChunk].values[q.backPos]))))
  }

  function VisibleWriterStep<T>(q: Pipe<T>, phase: P.WriterPhase<T>, call: P.WriterCall<T>): Pipe<T>
  {
    match phase
    case WriterIdle(_) =>
      q.(writer := WriterPhase.At(match call
                     case Write(item) => P.StoreValue(item)
                     case Unwrite => P.TestUnwrite
                     case Flush => P.TestFlush))
    case StoreValue(item) => StoreValue(q, item)
    case AdvanceBack(item) => AdvanceBack(q, item)
    case MarkFlush(incomplete) =>
      q.(f := if incomplete then q.f else q.Back(), writer := WriterPhase.At(P.WriterIdle(P.Wrote)))
    case TestUnwrite =>
      q.(writer := WriterPhase.At(if q.f == q.Back() then P.WriterIdle(P.Unwrote(None)) else P.RetreatBack))
    case RetreatBack => RetreatBack(q)
    case RetreatEnd => RetreatEnd(q)
    case TakeValue => TakeValue(q)
    case TestFlush => q.(writer := WriterPhase.At(if q.w == q.f then P.WriterIdle(P.Flushed(true)) else P.CasFlush))
    case CasFlush =>
      if q.c == Some(q.w) then q.(c := Some(q.f), writer := WriterPhase.At(P.EndFlush(true)))
      else q.(writer := WriterPhase.At(P.SetFlush))
    case SetFlush => q.(c := Some(q.f), writer := WriterPhase.At(P.EndFlush(false)))
    case EndFlush(awake) => q.(w := q.f, writer := WriterPhase.At(P.WriterIdle(P.Flushed(awake))))
  }

  function HiddenWriterStep<T>(q: Pipe<T>, addr: nat, junk: Chunk<T>): Pipe<T>
    requires !q.writer.At?
  {
    match q.writer
    case TakeSpare(incomplete) => q.(spare := None, writer := LinkNext(incomplete, q.spare))
    case LinkNext(incomplete, spared) => LinkNextStep(q, incomplete, spared, addr, junk)
    case LinkPrev(incomplete) => LinkPrevStep(q, incomplete)
    case MoveEnd(incomplete) => MoveEndStep(q, incomplete)
    case FreeEnd => FreeEndStep(q)
    case ClearNext => ClearNextStep(q)
  }

  // ---------- Reader ----------

  function CopyFront<T>(q: Pipe<T>): Pipe<T>
  {
    if !Live(q, q.Front()) || q.mem[q.beginChunk].values[q.beginPos] == None then Fault(q)
    else q.(reader := ReaderPhase.At(P.AdvanceFront(q.mem[q.beginChunk].values[q.beginPos].value)))
  }

  function VisibleReaderStep<T>(q: Pipe<T>, phase: P.ReaderPhase<T>, call: P.ReaderCall): Pipe<T>
  {
    match phase
    case ReaderIdle(_) => q.(reader := ReaderPhase.At(P.TestPrefetched(call.CheckRead?)))
    case TestPrefetched(peek) =>
      q.(reader := ReaderPhase.At(
           if q.r != Some(q.Front()) && q.r != None then P.Available(peek) else P.CasPrefetch(peek)))
    case CasPrefetch(peek) =>
      q.(r := q.c,
         c := if q.c == Some(q.Front()) then None else q.c,
         reader := ReaderPhase.At(
           if q.c == Some(q.Front()) || q.c == None then P.Unavailable(peek) else P.Available(peek)))
    case CopyFront => CopyFront(q)
    case AdvanceFront(value) =>
      q.(beginPos := q.beginPos + 1,
         reader := if q.beginPos + 1 == q.lay.n then MoveBegin(value)
             else ReaderPhase.At(P.ReaderIdle(P.GotItem(Some(value)))))
  }

  function MoveBeginStep<T>(q: Pipe<T>, value: T): Pipe<T>
  {
    if q.beginChunk !in q.mem || q.mem[q.beginChunk].next == None || q.lay.chain == [] then Fault(q)
    else q.(beginChunk := q.mem[q.beginChunk].next.value,
            lay := q.lay.(chain := q.lay.chain[1..], retired := q.lay.retired + 1),
            reader := ClearPrev(value, q.beginChunk))
  }

  function ClearPrevStep<T>(q: Pipe<T>, value: T, used: nat): Pipe<T>
  {
    if q.beginChunk !in q.mem then Fault(q)
    else q.(mem := q.mem[q.beginChunk := q.mem[q.beginChunk].(prev := None)], beginPos := 0,
            reader := GiveSpare(value, used))
  }

  // free(NULL) does nothing; freeing what is not allocated is a fault.
  function FreeOldStep<T>(q: Pipe<T>, value: T, dropped: Ptr): Pipe<T>
  {
    var done: ReaderPhase<T> := ReaderPhase.At(P.ReaderIdle(P.GotItem(Some(value))));
    match dropped
    case None => q.(reader := done)
    case Some(a) => if a !in q.mem then Fault(q) else q.(mem := q.mem - {a}, reader := done)
  }

  function HiddenReaderStep<T>(q: Pipe<T>): Pipe<T>
    requires !q.reader.At?
  {
    match q.reader
    case MoveBegin(value) => MoveBeginStep(q, value)
    case ClearPrev(value, used) => ClearPrevStep(q, value, used)
    case GiveSpare(value, used) => q.(spare := Some(used), reader := FreeOld(value, q.spare))
    case FreeOld(value, dropped) => FreeOldStep(q, value, dropped)
  }

  function Step<T>(q: Pipe<T>, m: Move<T>): Pipe<T>
  {
    match m
    case Writer(call, addr, junk) =>
      if q.writer.At? then VisibleWriterStep(q, q.writer.phase, call) else HiddenWriterStep(q, addr, junk)
    case Reader(call) =>
      if q.reader.At? then VisibleReaderStep(q, q.reader.phase, call) else HiddenReaderStep(q)
  }

  function Run<T>(q: Pipe<T>, schedule: seq<Move<T>>): Pipe<T>
    decreases |schedule|
  {
    if schedule == [] then q else Run(Step(q, schedule[0]), schedule[1..])
  }

  // The constructor: one chunk at address `a`, then the first push, which for n == 1
  // fills it and allocates a second chunk at `b`.
  function Start<T>(n: nat, a: nat, b: nat, junkA: Chunk<T>, junkB: Chunk<T>): Pipe<T>
  {
    var front := Cursor(a, 0);
    var q := Pipe(Layout(n, [a], 0), map[a := junkA], a, 0, a, 0, a, 1, None, Some(front), front, front, Some(front),
                  WriterPhase.At(P.WriterIdle(P.NoWrite)), ReaderPhase.At(P.ReaderIdle(P.NoRead)), false);
    if n != 1 then q
    else q.(mem := map[a := junkA.(next := Some(b)), b := junkB.(prev := Some(a))], endChunk := b, endPos := 0,
            lay := Layout(n, [a, b], 0))
  }

  // ---------- Where a position lies ----------

  datatype Spot = Spot(no: nat, index: nat)

  // Counting off `n` positions to a chunk.
  function Place(p: nat, n: nat): (s: Spot)
    requires n > 0
    ensures s.index < n
  {
    if p == 0 then Spot(0, 0)
    else
      var s := Place(p - 1, n);
      if s.index + 1 == n then Spot(s.no + 1, 0) else Spot(s.no, s.index + 1)
  }

  lemma {:induction false} PlaceOrder(p: nat, q: nat, n: nat)
    requires n > 0 && p < q
    ensures var (a, b) := (Place(p, n), Place(q, n)); a.no < b.no || (a.no == b.no && a.index < b.index)
    decreases q
  {
    if p < q - 1 {
      PlaceOrder(p, q - 1, n);
    }
  }

  ghost predicate InChain(l: Layout, x: nat)
  {
    l.n > 0 && l.retired <= Place(x, l.n).no < l.retired + |l.chain|
  }

  // The address of position `x`.
  ghost function Cur(l: Layout, x: nat): Cursor
    requires InChain(l, x)
  {
    Cursor(l.chain[Place(x, l.n).no - l.retired], Place(x, l.n).index)
  }

  ghost predicate Addresses(l: Layout, a: Cursor, x: nat)
  {
    InChain(l, x) && a == Cur(l, x)
  }

  function WriterView<T>(p: WriterPhase<T>): P.WriterPhase<T>
  {
    match p
    case At(phase) => phase
    case TakeSpare(incomplete) => P.MarkFlush(incomplete)
    case LinkNext(incomplete, _) => P.MarkFlush(incomplete)
    case LinkPrev(incomplete) => P.MarkFlush(incomplete)
    case MoveEnd(incomplete) => P.MarkFlush(incomplete)
    case FreeEnd => P.TakeValue
    case ClearNext => P.TakeValue
  }

  function ReaderView<T>(p: ReaderPhase<T>): P.ReaderPhase<T>
  {
    match p
    case At(phase) => phase
    case MoveBegin(value) => P.ReaderIdle(P.GotItem(Some(value)))
    case ClearPrev(value, _) => P.ReaderIdle(P.GotItem(Some(value)))
    case GiveSpare(value, _) => P.ReaderIdle(P.GotItem(Some(value)))
    case FreeOld(value, _) => P.ReaderIdle(P.GotItem(Some(value)))
  }

  // ---------- How the two machines correspond ----------

  // The chunk each thread alone has a hold of, outside chain and spare.
  function WriterHand<T>(p: WriterPhase<T>): Ptr
  {
    if p.LinkNext? then p.spared else None
  }

  function ReaderHand<T>(p: ReaderPhase<T>): Ptr
  {
    match p
    case ClearPrev(_, used) => Some(used)
    case GiveSpare(_, used) => Some(used)
    case FreeOld(_, dropped) => dropped
    case _ => None
  }

  // Every allocated chunk is in exactly one place: the chain, the spare, one thread's hand.
  ghost predicate Places<T>(l: Layout, mem: map<nat, Chunk<T>>, spare: Ptr, wh: Ptr, rh: Ptr)
  {
    && (forall i, j | 0 <= i < j < |l.chain| :: l.chain[i] != l.chain[j])
    && (forall a: nat :: a in mem <==> a in l.chain || Some(a) == spare || Some(a) == wh || Some(a) == rh)
    && (forall a | a in l.chain :: Some(a) != spare && Some(a) != wh && Some(a) != rh)
    && (spare.Some? ==> spare != wh && spare != rh) && (wh.Some? ==> wh != rh)
    && (forall a | a in mem :: |mem[a].values| == l.n)
  }

  ghost predicate Links<T>(l: Layout, mem: map<nat, Chunk<T>>, building: bool)
  {
    && (forall i | 0 <= i < |l.chain| :: l.chain[i] in mem)
    && (forall i | 0 <= i < |l.chain| - 1 :: mem[l.chain[i]].next == Some(l.chain[i + 1]))
    && (forall i | 1 <= i < |l.chain| && (building ==> i < |l.chain| - 1) ::
          mem[l.chain[i]].prev == Some(l.chain[i - 1]))
  }

  // Where begin stands, step by step.
  ghost predicate BeginOk<T>(l: Layout, chunk: nat, pos: nat, reader: ReaderPhase<T>, front: nat)
  {
    && l.n > 0 && l.chain != [] && chunk == l.chain[0]
    && match reader
       case MoveBegin(_) => Place(front, l.n) == Spot(l.retired + 1, 0) && pos == l.n
       case ClearPrev(_, _) => Place(front, l.n) == Spot(l.retired, 0) && pos == l.n
       case _ => Place(front, l.n) == Spot(l.retired, pos)
  }

  // The end chunk, at `k` in the chain, has just been filled.
  ghost predicate Full(l: Layout, chunk: nat, pos: nat, e: Spot, k: int)
  {
    0 <= k < |l.chain| && chunk == l.chain[k] && pos == l.n && e == Spot(l.retired + k + 1, 0)
  }

  ghost predicate EndAt(l: Layout, chunk: nat, pos: nat, e: Spot, k: int)
  {
    0 <= k < |l.chain| && chunk == l.chain[k] && e == Spot(l.retired + k, pos)
  }

  // Where end stands: one past back, but for the steps in between.
  ghost predicate EndOk<T>(l: Layout, chunk: nat, pos: nat, writer: WriterPhase<T>, back: nat)
  {
    var last := |l.chain| - 1;
    l.n > 0 &&
    match writer
    case TakeSpare(_) => Full(l, chunk, pos, Place(back + 1, l.n), last)
    case LinkNext(_, _) => Full(l, chunk, pos, Place(back + 1, l.n), last)
    case LinkPrev(_) => Full(l, chunk, pos, Place(back + 1, l.n), last - 1)
    case MoveEnd(_) => Full(l, chunk, pos, Place(back + 1, l.n), last - 1)
    case FreeEnd => EndAt(l, chunk, pos, Place(back + 1, l.n), last - 1)
    case ClearNext => EndAt(l, chunk, pos, Place(back + 1, l.n), last)
    case At(phase) => EndAt(l, chunk, pos, Place(if phase.RetreatEnd? then back + 2 else back + 1, l.n), last)
  }

  ghost predicate AddressesOption(l: Layout, a: Option<Cursor>, x: Option<nat>)
  {
    match x case None => a == None case Some(y) => a.Some? && Addresses(l, a.value, y)
  }

  ghost predicate Pointers<T>(l: Layout, back: Cursor, f: Cursor, w: Cursor, c: Option<Cursor>, r: Option<Cursor>,
                              p: P.Pipe<T>)
  {
    && Addresses(l, back, p.back)
    && Addresses(l, f, p.f)
    && (p.writer.EndFlush? || Addresses(l, w, p.w))
    && AddressesOption(l, c, p.c)
    && AddressesOption(l, r, p.r)
  }

  // How far the cells hold values: back, and the one being written or taken back.
  function Written<T>(p: P.Pipe<T>): nat
  {
    if p.writer.AdvanceBack? || p.writer.RetreatEnd? || p.writer.TakeValue? then p.back + 1 else p.back
  }

  ghost predicate Holds<T>(l: Layout, mem: map<nat, Chunk<T>>, cell: map<nat, T>, x: nat)
  {
    && InChain(l, x) && x in cell
    && Cur(l, x).chunk in mem && Cur(l, x).index < |mem[Cur(l, x).chunk].values|
    && mem[Cur(l, x).chunk].values[Cur(l, x).index] == Some(cell[x])
  }

  ghost predicate Values<T>(l: Layout, mem: map<nat, Chunk<T>>, cell: map<nat, T>, lo: nat, hi: nat)
  {
    forall x | lo <= x < hi :: Holds(l, mem, cell, x)
  }

  ghost predicate Corresponds<T>(q: Pipe<T>, p: P.Pipe<T>)
  {
    && !q.fault && P.Inv(p)
    && p.writer == WriterView(q.writer) && p.reader == ReaderView(q.reader)
    && Places(q.lay, q.mem, q.spare, WriterHand(q.writer), ReaderHand(q.reader))
    && Links(q.lay, q.mem, q.writer.LinkPrev?)
    && BeginOk(q.lay, q.beginChunk, q.beginPos, q.reader, p.front)
    && EndOk(q.lay, q.endChunk, q.endPos, q.writer, p.back)
    && Pointers(q.lay, q.Back(), q.f, q.w, q.c, q.r, p)
    && Values(q.lay, q.mem, p.cell, p.front, Written(p))
  }

  // ---------- Addresses ----------

  lemma {:induction false} PlaceMonotone(p: nat, q: nat, n: nat)
    requires n > 0 && p <= q
    ensures Place(p, n).no <= Place(q, n).no
    decreases q
  {
    if p < q {
      PlaceMonotone(p, q - 1, n);
    }
  }

  // Distinct positions have distinct addresses, so comparing pointers compares positions.
  lemma CompareCursors(l: Layout, x: nat, y: nat)
    requires InChain(l, x) && InChain(l, y)
    requires forall i, j | 0 <= i < j < |l.chain| :: l.chain[i] != l.chain[j]
    ensures Cur(l, x) == Cur(l, y) <==> x == y
  {
    if x < y { PlaceOrder(x, y, l.n); } else if y < x { PlaceOrder(y, x, l.n); }
  }

  // Pointer comparisons on addresses of positions.
  lemma ComparePositions(l: Layout, a: Cursor, x: nat, b: Cursor, y: nat)
    requires Addresses(l, a, x) && Addresses(l, b, y)
    requires forall i, j | 0 <= i < j < |l.chain| :: l.chain[i] != l.chain[j]
    ensures a == b <==> x == y
  {
    CompareCursors(l, x, y);
  }

  // ---------- Steps that touch neither memory nor the ends of the queue ----------

  predicate Quiet<T>(phase: P.WriterPhase<T>)
  {
    phase.WriterIdle? || phase.MarkFlush? || phase.TestUnwrite? || phase.TestFlush?
    || phase.CasFlush? || phase.SetFlush? || phase.EndFlush?
  }

  lemma QuietWriterStep<T>(q: Pipe<T>, p: P.Pipe<T>, call: P.WriterCall<T>)
    requires Corresponds(q, p) && q.writer.At? && Quiet(q.writer.phase)
    ensures Corresponds(VisibleWriterStep(q, q.writer.phase, call), P.WriterStep(p, call))
  {
    hide P.Inv, Places, Links, BeginOk, EndAt, Place, Values, Addresses;
    P.StepInv(p, P.Writer(call));
    CompareAll(q, p);
  }

  lemma CompareAll<T>(q: Pipe<T>, p: P.Pipe<T>)
    requires Corresponds(q, p)
    ensures q.f == q.Back() <==> p.f == p.back
    ensures !p.writer.EndFlush? ==> (q.w == q.f <==> p.w == p.f) && (q.c == Some(q.w) <==> p.c == Some(p.w))
  {
    hide P.Inv, Links, BeginOk, EndOk, Values, Addresses;
    ComparePositions(q.lay, q.f, p.f, q.Back(), p.back);
    if !p.writer.EndFlush? {
      ComparePositions(q.lay, q.w, p.w, q.f, p.f);
      if p.c.Some? { ComparePositions(q.lay, q.c.value, p.c.value, q.w, p.w); }
    }
  }

  lemma QuietReaderStep<T>(q: Pipe<T>, p: P.Pipe<T>, call: P.ReaderCall)
    requires Corresponds(q, p) && q.reader.At?
    requires q.reader.phase.ReaderIdle? || q.reader.phase.TestPrefetched? || q.reader.phase.CasPrefetch?
    ensures Corresponds(VisibleReaderStep(q, q.reader.phase, call), P.ReaderStep(p, call))
  {
    hide P.Inv, Places, Links, EndOk, Place, Values, Addresses;
    P.StepInv(p, P.Reader(call));
    CompareFront(q, p);
  }

  lemma FrontIs<T>(l: Layout, chunk: nat, pos: nat, reader: ReaderPhase<T>, front: nat)
    requires BeginOk(l, chunk, pos, reader, front) && reader.At?
    ensures Addresses(l, Cursor(chunk, pos), front)
  {
  }

  lemma CompareFront<T>(q: Pipe<T>, p: P.Pipe<T>)
    requires Corresponds(q, p) && q.reader.At?
    ensures q.r == Some(q.Front()) <==> p.r == Some(p.front)
    ensures q.c == Some(q.Front()) <==> p.c == Some(p.front)
    ensures q.r == None <==> p.r == None
    ensures q.c == None <==> p.c == None
  {
    hide P.Inv, Links, EndOk, Values, Addresses;
    FrontIs(q.lay, q.beginChunk, q.beginPos, q.reader, p.front);
    if p.r.Some? { ComparePositions(q.lay, q.r.value, p.r.value, q.Front(), p.front); }
    if p.c.Some? { ComparePositions(q.lay, q.c.value, p.c.value, q.Front(), p.front); }
  }

  // ---------- Writing the element at back ----------

  lemma StoreValueStep<T>(q: Pipe<T>, p: P.Pipe<T>, call: P.WriterCall<T>, item: P.Item<T>)
    requires Corresponds(q, p) && q.writer == WriterPhase.At(P.StoreValue(item))
    ensures Corresponds(StoreValue(q, item), P.WriterStep(p, call))
  {
    hide P.Inv, Places, Links, BeginOk, EndAt, Place, Values, Addresses;
    P.StepInv(p, P.Writer(call));
    BackIsAllocated(q, p);
    var mem := StoreValue(q, item).mem;
    StoreKeepsPlaces(q.lay, q.mem, mem, q.spare, WriterHand(q.writer), ReaderHand(q.reader), q.writer.LinkPrev?);
    StoreKeepsValues(q.lay, q.mem, mem, p.cell, p.front, p.back, q.Back(), item.value, q.spare,
                     WriterHand(q.writer), ReaderHand(q.reader));
  }

  lemma BackIsAllocated<T>(q: Pipe<T>, p: P.Pipe<T>)
    requires Corresponds(q, p)
    ensures Live(q, q.Back())
  {
    hide P.Inv, EndOk, BeginOk, Values;
    assert q.backChunk in q.lay.chain;
  }

  // Changing values only.
  lemma StoreKeepsPlaces<T>(l: Layout, m: map<nat, Chunk<T>>, m': map<nat, Chunk<T>>, spare: Ptr, wh: Ptr, rh: Ptr,
                            building: bool)
    requires Places(l, m, spare, wh, rh) && Links(l, m, building)
    requires m'.Keys == m.Keys
    requires forall a | a in m :: |m'[a].values| == |m[a].values| && m'[a].next == m[a].next && m'[a].prev == m[a].prev
    ensures Places(l, m', spare, wh, rh) && Links(l, m', building)
  {
  }

  lemma StoreKeepsValues<T>(l: Layout, m: map<nat, Chunk<T>>, m': map<nat, Chunk<T>>, cell: map<nat, T>,
                            lo: nat, hi: nat, at: Cursor, v: T, spare: Ptr, wh: Ptr, rh: Ptr)
    requires Values(l, m, cell, lo, hi) && Addresses(l, at, hi) && Places(l, m, spare, wh, rh)
    requires at.chunk in m && at.index < |m[at.chunk].values|
    requires m' == m[at.chunk := m[at.chunk].(values := m[at.chunk].values[at.index := Some(v)])]
    ensures Values(l, m', cell[hi := v], lo, hi + 1)
  {
    var cell' := cell[hi := v];
    forall x | lo <= x < hi + 1 ensures Holds(l, m', cell', x) {
      if x < hi { assert Holds(l, m, cell, x); CompareCursors(l, x, hi); }
    }
  }

  // ---------- push ----------

  lemma AdvanceBackStep<T>(q: Pipe<T>, p: P.Pipe<T>, call: P.WriterCall<T>, item: P.Item<T>)
    requires Corresponds(q, p) && q.writer == WriterPhase.At(P.AdvanceBack(item))
    ensures Corresponds(AdvanceBack(q, item), P.WriterStep(p, call))
  {
    hide P.Inv, Places, Links, BeginOk, Full, EndAt, Place, Values, Addresses;
    P.StepInv(p, P.Writer(call));
    EndAdvances(q.lay, q.endChunk, q.endPos, p.back, |q.lay.chain| - 1);
  }

  lemma EndAdvances(l: Layout, chunk: nat, pos: nat, back: nat, k: int)
    requires l.n > 0 && EndAt(l, chunk, pos, Place(back + 1, l.n), k)
    ensures Addresses(l, Cursor(chunk, pos), back + 1)
    ensures pos + 1 != l.n ==> EndAt(l, chunk, pos + 1, Place(back + 2, l.n), k)
    ensures pos + 1 == l.n ==> Full(l, chunk, pos + 1, Place(back + 2, l.n), k)
  {
  }

  lemma TakeSpareStep<T>(q: Pipe<T>, p: P.Pipe<T>, addr: nat, junk: Chunk<T>)
    requires Corresponds(q, p) && q.writer.TakeSpare?
    ensures Corresponds(HiddenWriterStep(q, addr, junk), p)
  {
    hide P.Inv, Places, Links, BeginOk, Full, Place, Values, Addresses;
    SpareToHand(q.lay, q.mem, q.spare, ReaderHand(q.reader));
  }

  lemma SpareToHand<T>(l: Layout, m: map<nat, Chunk<T>>, spare: Ptr, rh: Ptr)
    requires Places(l, m, spare, None, rh)
    ensures Places(l, m, None, spare, rh)
  {
  }

  lemma LinkNextCorresponds<T>(q: Pipe<T>, p: P.Pipe<T>, incomplete: bool, spared: Ptr, addr: nat, junk: Chunk<T>)
    requires Corresponds(q, p) && q.writer == LinkNext(incomplete, spared)
    ensures Corresponds(LinkNextStep(q, incomplete, spared, addr, junk), p)
  {
    hide P.Inv, Places, Links, BeginOk, Place, Values, Pointers;
    var q' := LinkNextStep(q, incomplete, spared, addr, junk);
    EndIsAllocated(q, p);
    if q' != q {
      var a := if spared.Some? then spared.value else addr;
      var m0 := if spared.Some? then q.mem else q.mem[addr := junk];
      LinkedChain(q.lay, q.mem, m0, q'.mem, q.spare, spared, ReaderHand(q.reader), a);
      assert q'.lay == q.lay.(chain := q.lay.chain + [a]);
      LongerChain(q.lay, q'.lay, q.Back(), q.f, q.w, q.c, q.r, p, q.mem, q'.mem);
      LongerBegin(q.lay, q'.lay, q.beginChunk, q.beginPos, q.reader, p.front);
    }
  }

  lemma EndIsAllocated<T>(q: Pipe<T>, p: P.Pipe<T>)
    requires Corresponds(q, p)
    ensures q.endChunk in q.mem && q.lay.chain != []
  {
    hide P.Inv, Place, BeginOk, Values, Pointers;
    assert q.endChunk in q.lay.chain;
  }

  // Linking a new last chunk `a`, spared or just allocated.
  lemma LinkedChain<T>(l: Layout, m0: map<nat, Chunk<T>>, m: map<nat, Chunk<T>>, m': map<nat, Chunk<T>>,
                       spare: Ptr, spared: Ptr, rh: Ptr, a: nat)
    requires Places(l, m0, spare, spared, rh) && Links(l, m0, false) && l.chain != []
    requires if spared.Some? then spared == Some(a) && m == m0
             else a !in m0 && m.Keys == m0.Keys + {a} && |m[a].values| == l.n && forall b | b in m0 :: m[b] == m0[b]
    requires var e := l.chain[|l.chain| - 1]; e in m && m' == m[e := m[e].(next := Some(a))]
    ensures Places(l.(chain := l.chain + [a]), m', spare, None, rh)
    ensures Links(l.(chain := l.chain + [a]), m', true)
    ensures forall b | b in m0 :: b in m' && m'[b].values == m0[b].values
  {
    hide Places, Links;
    PlacesMeans(l, m0, spare, spared, rh);
    LinkedPlaces(l, m0, m', spare, spared, rh, a);
    LinkedLinks(l, m0, m', a);
  }

  lemma PlacesMeans<T>(l: Layout, m: map<nat, Chunk<T>>, spare: Ptr, wh: Ptr, rh: Ptr)
    requires Places(l, m, spare, wh, rh)
    ensures forall i, j | 0 <= i < j < |l.chain| :: l.chain[i] != l.chain[j]
    ensures wh.Some? ==> wh.value in m && wh.value !in l.chain
    ensures forall a | a in l.chain :: a in m
    ensures forall a | a in m :: |m[a].values| == l.n
  {
  }

  lemma LinkedLinks<T>(l: Layout, m0: map<nat, Chunk<T>>, m': map<nat, Chunk<T>>, a: nat)
    requires Links(l, m0, false) && l.chain != [] && a !in l.chain && a in m'
    requires forall i, j | 0 <= i < j < |l.chain| :: l.chain[i] != l.chain[j]
    requires forall b | b in m0 :: b in m' && m'[b].prev == m0[b].prev
    requires var e := l.chain[|l.chain| - 1];
             e in m' && m'[e].next == Some(a) && forall b | b in m0 && b != e :: m'[b].next == m0[b].next
    ensures Links(l.(chain := l.chain + [a]), m', true)
  {
  }

  lemma LinkedPlaces<T>(l: Layout, m0: map<nat, Chunk<T>>, m': map<nat, Chunk<T>>, spare: Ptr, spared: Ptr, rh: Ptr,
                        a: nat)
    requires Places(l, m0, spare, spared, rh)
    requires spared == Some(a) || (spared == None && a !in m0)
    requires m'.Keys == m0.Keys + {a} && forall b | b in m' :: |m'[b].values| == l.n
    ensures Places(l.(chain := l.chain + [a]), m', spare, None, rh)
  {
    var c' := l.chain + [a];
    assert forall b :: b in c' <==> b in l.chain || b == a;
  }

  // A longer chain keeps every address.
  lemma LongerChain<T>(l: Layout, l': Layout, back: Cursor, f: Cursor, w: Cursor, c: Option<Cursor>, r: Option<Cursor>,
                       p: P.Pipe<T>, m: map<nat, Chunk<T>>, m': map<nat, Chunk<T>>)
    requires Pointers(l, back, f, w, c, r, p) && Values(l, m, p.cell, p.front, Written(p))
    requires l'.n == l.n && l'.retired == l.retired && l.chain <= l'.chain
    requires forall b | b in m :: b in m' && m'[b].values == m[b].values
    ensures Pointers(l', back, f, w, c, r, p)
    ensures Values(l', m', p.cell, p.front, Written(p))
  {
    hide Place;
    forall x | p.front <= x < Written(p) ensures Holds(l', m', p.cell, x) {
      assert Holds(l, m, p.cell, x);
    }
  }

  lemma LongerBegin<T>(l: Layout, l': Layout, chunk: nat, pos: nat, reader: ReaderPhase<T>, front: nat)
    requires BeginOk(l, chunk, pos, reader, front)
    requires l'.n == l.n && l'.retired == l.retired && l.chain <= l'.chain
    ensures BeginOk(l', chunk, pos, reader, front)
  {
    hide Place;
  }

  lemma LinkPrevCorresponds<T>(q: Pipe<T>, p: P.Pipe<T>, incomplete: bool)
    requires Corresponds(q, p) && q.writer == LinkPrev(incomplete)
    ensures Corresponds(LinkPrevStep(q, incomplete), p)
  {
    hide P.Inv, Places, Links, BeginOk, Place, Values, Pointers;
    EndIsAllocated(q, p);
    BackLinked(q.lay, q.mem, q.spare, ReaderHand(q.reader), |q.lay.chain| - 2);
    var m' := LinkPrevStep(q, incomplete).mem;
    LinkedValues(q.lay, q.mem, m', p.cell, p.front, Written(p));
  }

  // The back link of the new last chunk.
  lemma BackLinked<T>(l: Layout, m: map<nat, Chunk<T>>, spare: Ptr, rh: Ptr, k: int)
    requires Places(l, m, spare, None, rh) && Links(l, m, true) && k == |l.chain| - 2 && k >= 0
    ensures l.chain[k] in m && m[l.chain[k]].next == Some(l.chain[k + 1]) && l.chain[k + 1] in m
    ensures var a := l.chain[k + 1];
            var m' := m[a := m[a].(prev := Some(l.chain[k]))];
            Places(l, m', spare, None, rh) && Links(l, m', false)
  {
  }

  // Changing links only.
  lemma LinkedValues<T>(l: Layout, m: map<nat, Chunk<T>>, m': map<nat, Chunk<T>>, cell: map<nat, T>, lo: nat, hi: nat)
    requires Values(l, m, cell, lo, hi)
    requires m'.Keys == m.Keys && forall a | a in m :: m'[a].values == m[a].values
    ensures Values(l, m', cell, lo, hi)
  {
    hide Place;
    forall x | lo <= x < hi ensures Holds(l, m', cell, x) {
      assert Holds(l, m, cell, x);
    }
  }

  lemma MoveEndCorresponds<T>(q: Pipe<T>, p: P.Pipe<T>, incomplete: bool)
    requires Corresponds(q, p) && q.writer == MoveEnd(incomplete)
    ensures Corresponds(MoveEndStep(q, incomplete), p)
  {
    hide P.Inv, Places, Links, BeginOk, Place, Values, Pointers;
    NextOf(q.lay, q.mem, |q.lay.chain| - 2);
  }

  lemma NextOf<T>(l: Layout, m: map<nat, Chunk<T>>, k: int)
    requires Links(l, m, false) && 0 <= k < |l.chain| - 1
    ensures l.chain[k] in m && m[l.chain[k]].next == Some(l.chain[k + 1]) && l.chain[k + 1] in m
  {
  }

  // ---------- unpush ----------

  // The links unpush follows are there: an item not yet flushed lies behind back.
  lemma RetreatBackStep<T>(q: Pipe<T>, p: P.Pipe<T>, call: P.WriterCall<T>)
    requires Corresponds(q, p) && q.writer == WriterPhase.At(P.RetreatBack)
    ensures Corresponds(RetreatBack(q), P.WriterStep(p, call))
  {
    hide P.Inv, Places, Links, BeginOk, Place, Values, Addresses;
    P.StepInv(p, P.Writer(call));
    RetreatGuard(p);
    var l := q.lay;
    BeforeBack(l, q.beginChunk, q.beginPos, q.reader, p.front, q.Back(), p.back);
    if q.backPos == 0 { PrevOf(l, q.mem, Place(p.back, l.n).no - l.retired); }
    FewerValues(l, q.mem, p.cell, p.front, p.back);
  }

  lemma RetreatGuard<T>(p: P.Pipe<T>)
    requires P.Inv(p) && p.writer.RetreatBack?
    ensures p.front <= p.f < p.back && |p.log| == p.back
  {
  }

  lemma BeforeBack<T>(l: Layout, chunk: nat, pos: nat, reader: ReaderPhase<T>, front: nat, at: Cursor, back: nat)
    requires BeginOk(l, chunk, pos, reader, front) && front < back && Addresses(l, at, back)
    ensures InChain(l, back - 1)
    ensures at.index > 0 ==> Addresses(l, Cursor(at.chunk, at.index - 1), back - 1)
    ensures at.index == 0 ==>
              var k := Place(back, l.n).no - l.retired;
              1 <= k < |l.chain| && at.chunk == l.chain[k]
              && Addresses(l, Cursor(l.chain[k - 1], l.n - 1), back - 1)
  {
    hide Place, BeginOk;
    BeginBefore(l, chunk, pos, reader, front);
    PlaceMonotone(front, back - 1, l.n);
    OnePlaceBack(back, l.n);
  }

  lemma BeginBefore<T>(l: Layout, chunk: nat, pos: nat, reader: ReaderPhase<T>, front: nat)
    requires BeginOk(l, chunk, pos, reader, front)
    ensures l.n > 0 && l.chain != [] && l.retired <= Place(front, l.n).no
  {
    hide Place;
  }

  lemma OnePlaceBack(x: nat, n: nat)
    requires x > 0 && n > 0
    ensures var (s, e) := (Place(x - 1, n), Place(x, n));
            if e.index > 0 then s == Spot(e.no, e.index - 1) else e.no > 0 && s == Spot(e.no - 1, n - 1)
  {
  }

  lemma PrevOf<T>(l: Layout, m: map<nat, Chunk<T>>, k: int)
    requires Links(l, m, false) && 1 <= k < |l.chain|
    ensures l.chain[k] in m && m[l.chain[k]].prev == Some(l.chain[k - 1])
  {
  }

  lemma FewerValues<T>(l: Layout, m: map<nat, Chunk<T>>, cell: map<nat, T>, lo: nat, hi: nat)
    requires Values(l, m, cell, lo, hi)
    ensures forall h | lo <= h <= hi :: Values(l, m, cell, lo, h)
    ensures forall h | lo <= h <= hi :: Values(l, m, cell, h, hi)
  {
    hide Place, Holds;
  }

  lemma RetreatEndStep<T>(q: Pipe<T>, p: P.Pipe<T>, call: P.WriterCall<T>)
    requires Corresponds(q, p) && q.writer == WriterPhase.At(P.RetreatEnd)
    ensures Corresponds(RetreatEnd(q), P.WriterStep(p, call))
  {
    hide P.Inv, Places, Links, BeginOk, Place, Values, Addresses;
    P.StepInv(p, P.Writer(call));
    var l := q.lay;
    OrderedFront(p);
    BeforeEnd(l, q.beginChunk, q.beginPos, q.reader, p.front, q.endChunk, q.endPos, p.back);
    if q.endPos == 0 { PrevOf(l, q.mem, |l.chain| - 1); }
  }

  lemma OrderedFront<T>(p: P.Pipe<T>)
    requires P.Inv(p)
    ensures p.front <= p.back
  {
  }

  lemma BeforeEnd<T>(l: Layout, chunk: nat, pos: nat, reader: ReaderPhase<T>, front: nat, endChunk: nat, endPos: nat,
                     back: nat)
    requires BeginOk(l, chunk, pos, reader, front) && front <= back
    requires EndAt(l, endChunk, endPos, Place(back + 2, l.n), |l.chain| - 1)
    ensures endPos > 0 ==> EndAt(l, endChunk, endPos - 1, Place(back + 1, l.n), |l.chain| - 1)
    ensures endPos == 0 ==> |l.chain| >= 2
                            && EndAt(l, l.chain[|l.chain| - 2], l.n - 1, Place(back + 1, l.n), |l.chain| - 2)
  {
    PlaceMonotone(front, back + 1, l.n);
  }

  lemma FreeEndCorresponds<T>(q: Pipe<T>, p: P.Pipe<T>)
    requires Corresponds(q, p) && q.writer == FreeEnd
    ensures Corresponds(FreeEndStep(q), p)
  {
    hide P.Inv, Places, Links, BeginOk, Place, Values, Pointers;
    var l := q.lay;
    CutChain(l, q.mem, q.spare, ReaderHand(q.reader));
    OrderedFront(p);
    assert q.endChunk == l.chain[|l.chain| - 2];
    ShorterChain(q, p);
    ShorterBegin(l, q.beginChunk, q.beginPos, q.reader, p.front, p.back);
  }

  // Freeing the last chunk.
  lemma CutChain<T>(l: Layout, m: map<nat, Chunk<T>>, spare: Ptr, rh: Ptr)
    requires Places(l, m, spare, None, rh) && Links(l, m, false) && |l.chain| >= 2
    ensures var (e, z) := (l.chain[|l.chain| - 2], l.chain[|l.chain| - 1]);
            && e in m && m[e].next == Some(z) && z in m
            && Places(l.(chain := l.chain[..|l.chain| - 1]), m - {z}, spare, None, rh)
            && Links(l.(chain := l.chain[..|l.chain| - 1]), m - {z}, false)
  {
    NextOf(l, m, |l.chain| - 2);
    hide Places, Links;
    CutPlaces(l, m, spare, rh);
    CutLinks(l, m, spare, rh);
  }

  lemma CutPlaces<T>(l: Layout, m: map<nat, Chunk<T>>, spare: Ptr, rh: Ptr)
    requires Places(l, m, spare, None, rh) && |l.chain| >= 2
    ensures Places(l.(chain := l.chain[..|l.chain| - 1]), m - {l.chain[|l.chain| - 1]}, spare, None, rh)
  {
    var z := l.chain[|l.chain| - 1];
    var c' := l.chain[..|l.chain| - 1];
    assert l.chain == c' + [z];
    assert forall b :: b in l.chain <==> b in c' || b == z;
  }

  lemma CutLinks<T>(l: Layout, m: map<nat, Chunk<T>>, spare: Ptr, rh: Ptr)
    requires Places(l, m, spare, None, rh) && Links(l, m, false) && |l.chain| >= 2
    ensures Links(l.(chain := l.chain[..|l.chain| - 1]), m - {l.chain[|l.chain| - 1]}, false)
  {
  }

  lemma ShorterChain<T>(q: Pipe<T>, p: P.Pipe<T>)
    requires Corresponds(q, p) && q.writer == FreeEnd && |q.lay.chain| >= 2
    ensures var l' := q.lay.(chain := q.lay.chain[..|q.lay.chain| - 1]);
            && Pointers(l', q.Back(), q.f, q.w, q.c, q.r, p)
            && Values(l', q.mem - {q.lay.chain[|q.lay.chain| - 1]}, p.cell, p.front, Written(p))
  {
    hide P.Inv, Links, BeginOk, Place, Pointers, InChain, Cur, Values, Holds;
    var l := q.lay;
    var l' := l.(chain := l.chain[..|l.chain| - 1]);
    Reaches(l, l', p);
    ShorterPointers(l, l', q.Back(), q.f, q.w, q.c, q.r, p);
    ShorterValues(l, l', q.mem, p.cell, p.front, Written(p), p.back);
  }

  lemma ShorterPointers<T>(l: Layout, l': Layout, back: Cursor, f: Cursor, w: Cursor, c: Option<Cursor>,
                           r: Option<Cursor>, p: P.Pipe<T>)
    requires Pointers(l, back, f, w, c, r, p)
    requires forall x: nat | x <= p.back && InChain(l, x) :: InChain(l', x) && Cur(l', x) == Cur(l, x)
    requires p.f <= p.back && p.w <= p.back
    requires (p.r.Some? ==> p.r.value <= p.back) && (p.c.Some? ==> p.c.value <= p.back)
    ensures Pointers(l', back, f, w, c, r, p)
  {
    hide InChain, Cur;
  }

  lemma ShorterValues<T>(l: Layout, l': Layout, m: map<nat, Chunk<T>>, cell: map<nat, T>, lo: nat, hi: nat, back: nat)
    requires Values(l, m, cell, lo, hi) && hi <= back + 1 && |l.chain| >= 2
    requires l' == l.(chain := l.chain[..|l.chain| - 1])
    requires forall i, j | 0 <= i < j < |l.chain| :: l.chain[i] != l.chain[j]
    requires forall x: nat | x <= back && InChain(l, x) :: InChain(l', x) && Cur(l', x) == Cur(l, x)
    ensures Values(l', m - {l.chain[|l.chain| - 1]}, cell, lo, hi)
  {
    hide Place;
    var m' := m - {l.chain[|l.chain| - 1]};
    forall x | lo <= x < hi ensures Holds(l', m', cell, x) {
      assert Holds(l, m, cell, x);
      var k := Place(x, l'.n).no - l'.retired;
      assert Cur(l', x).chunk == l.chain[k];
    }
  }

  // Every position in use lies before the obsolete last chunk.
  lemma Reaches<T>(l: Layout, l': Layout, p: P.Pipe<T>)
    requires P.Inv(p) && l.n > 0 && l'.n == l.n && l'.retired == l.retired && l'.chain <= l.chain
    requires l'.chain != [] && Place(p.back + 1, l.n).no == l.retired + |l'.chain| - 1
    ensures forall x: nat | x <= p.back && InChain(l, x) :: InChain(l', x) && Cur(l', x) == Cur(l, x)
    ensures p.f <= p.back && p.w <= p.back
    ensures p.r.Some? ==> p.r.value <= p.back
    ensures p.c.Some? ==> p.c.value <= p.back
  {
    forall x: nat | x <= p.back && InChain(l, x) ensures InChain(l', x) && Cur(l', x) == Cur(l, x) {
      PlaceMonotone(x, p.back + 1, l.n);
    }
  }

  lemma ShorterBegin<T>(l: Layout, chunk: nat, pos: nat, reader: ReaderPhase<T>, front: nat, back: nat)
    requires BeginOk(l, chunk, pos, reader, front) && |l.chain| >= 2
    ensures BeginOk(l.(chain := l.chain[..|l.chain| - 1]), chunk, pos, reader, front)
  {
  }

  lemma ClearNextCorresponds<T>(q: Pipe<T>, p: P.Pipe<T>)
    requires Corresponds(q, p) && q.writer == ClearNext
    ensures Corresponds(ClearNextStep(q), p)
  {
    hide P.Inv, Places, Links, BeginOk, Place, Values, Pointers;
    EndIsAllocated(q, p);
    var m' := ClearNextStep(q).mem;
    Cleared(q.lay, q.mem, q.spare, ReaderHand(q.reader), q.endChunk);
    LinkedValues(q.lay, q.mem, m', p.cell, p.front, Written(p));
  }

  lemma Cleared<T>(l: Layout, m: map<nat, Chunk<T>>, spare: Ptr, rh: Ptr, e: nat)
    requires Places(l, m, spare, None, rh) && Links(l, m, false) && l.chain != [] && e == l.chain[|l.chain| - 1]
             && e in m
    ensures Places(l, m[e := m[e].(next := None)], spare, None, rh) && Links(l, m[e := m[e].(next := None)], false)
  {
  }

  // The item given back is the one the last write put there.
  lemma TakeValueStep<T>(q: Pipe<T>, p: P.Pipe<T>, call: P.WriterCall<T>)
    requires Corresponds(q, p) && q.writer == WriterPhase.At(P.TakeValue)
    ensures Corresponds(TakeValue(q), P.WriterStep(p, call))
  {
    hide P.Inv, Places, Links, BeginOk, Place, Values, Addresses, Holds;
    P.StepInv(p, P.Writer(call));
    OrderedFront(p);
    ValueAt(q.lay, q.mem, p.cell, p.front, p.back + 1, q.Back(), p.back);
    FewerValues(q.lay, q.mem, p.cell, p.front, p.back + 1);
  }

  lemma ValueAt<T>(l: Layout, m: map<nat, Chunk<T>>, cell: map<nat, T>, lo: nat, hi: nat, at: Cursor, x: nat)
    requires Values(l, m, cell, lo, hi) && lo <= x < hi && Addresses(l, at, x)
    ensures at.chunk in m && at.index < |m[at.chunk].values| && x in cell
    ensures m[at.chunk].values[at.index] == Some(cell[x])
  {
    hide Place;
    assert Holds(l, m, cell, x);
  }

  // ---------- The reader's steps on chunks ----------

  lemma CopyFrontStep<T>(q: Pipe<T>, p: P.Pipe<T>, call: P.ReaderCall)
    requires Corresponds(q, p) && q.reader == ReaderPhase.At(P.CopyFront)
    ensures Corresponds(CopyFront(q), P.ReaderStep(p, call))
  {
    hide P.Inv, Places, Links, EndOk, Place, Values, Addresses, Holds;
    P.StepInv(p, P.Reader(call));
    ReadGuard(p);
    FrontIs(q.lay, q.beginChunk, q.beginPos, q.reader, p.front);
    ValueAt(q.lay, q.mem, p.cell, p.front, Written(p), q.Front(), p.front);
  }

  lemma ReadGuard<T>(p: P.Pipe<T>)
    requires P.Inv(p) && (p.reader.CopyFront? || p.reader.AdvanceFront?)
    ensures p.front < p.back <= Written(p)
    ensures p.r.Some? && p.front < p.r.value
    ensures p.front < P.Published(p)
  {
  }

  lemma AdvanceFrontStep<T>(q: Pipe<T>, p: P.Pipe<T>, call: P.ReaderCall, value: T)
    requires Corresponds(q, p) && q.reader == ReaderPhase.At(P.AdvanceFront(value))
    ensures Corresponds(VisibleReaderStep(q, q.reader.phase, call), P.ReaderStep(p, call))
  {
    hide P.Inv, Places, Links, EndOk, Values, Addresses, Holds;
    P.StepInv(p, P.Reader(call));
    ReadGuard(p);
    FewerValues(q.lay, q.mem, p.cell, p.front, Written(p));
  }

  // The chunk after a used-up one is there, and stays the first.
  lemma MoveBeginCorresponds<T>(q: Pipe<T>, p: P.Pipe<T>, value: T)
    requires Corresponds(q, p) && q.reader == MoveBegin(value)
    ensures Corresponds(MoveBeginStep(q, value), p)
  {
    hide P.Inv, Places, Links, Values, Pointers;
    OrderedFront(p);
    SecondChunk(q.lay, q.beginChunk, q.beginPos, q.reader, p.front, q.writer, q.endChunk, q.endPos, p.back);
    RetireChunk(q.lay, q.mem, q.spare, WriterHand(q.writer), q.writer.LinkPrev?);
    LaterChain(q, p, MoveBeginStep(q, value).lay);
    LaterEnd(q.lay, q.endChunk, q.endPos, q.writer, p.back);
  }

  lemma SecondChunk<T>(l: Layout, chunk: nat, pos: nat, reader: ReaderPhase<T>, front: nat,
                       writer: WriterPhase<T>, endChunk: nat, endPos: nat, back: nat)
    requires BeginOk(l, chunk, pos, reader, front) && reader.MoveBegin? && front <= back
    requires EndOk(l, endChunk, endPos, writer, back)
    ensures |l.chain| >= 2
    ensures writer.TakeSpare? || writer.LinkNext? ==> |l.chain| >= 2
    ensures writer.LinkPrev? || writer.MoveEnd? || writer.FreeEnd? ==> |l.chain| >= 3
  {
    PlaceMonotone(front, back, l.n);
    PlaceMonotone(back, back + 1, l.n);
    PlaceMonotone(back + 1, back + 2, l.n);
  }

  lemma RetireChunk<T>(l: Layout, m: map<nat, Chunk<T>>, spare: Ptr, wh: Ptr, building: bool)
    requires Places(l, m, spare, wh, None) && Links(l, m, building) && |l.chain| >= 2 && (building ==> |l.chain| >= 3)
    ensures l.chain[0] in m && m[l.chain[0]].next == Some(l.chain[1])
    ensures var l' := l.(chain := l.chain[1..], retired := l.retired + 1);
            Places(l', m, spare, wh, Some(l.chain[0])) && Links(l', m, building)
  {
    RetirePlaces(l, m, spare, wh);
    RetireLinks(l, m, building);
    hide Places, Links;
  }

  lemma RetirePlaces<T>(l: Layout, m: map<nat, Chunk<T>>, spare: Ptr, wh: Ptr)
    requires Places(l, m, spare, wh, None) && |l.chain| >= 2
    ensures Places(l.(chain := l.chain[1..], retired := l.retired + 1), m, spare, wh, Some(l.chain[0]))
  {
    var c' := l.chain[1..];
    assert l.chain == [l.chain[0]] + c';
    forall b ensures b in l.chain <==> b in c' || b == l.chain[0] {}
    forall i, j | 0 <= i < j < |c'| ensures c'[i] != c'[j]
    {
      assert c'[i] == l.chain[i + 1] && c'[j] == l.chain[j + 1];
    }
    assert l.chain[0] !in c';
  }

  lemma RetireLinks<T>(l: Layout, m: map<nat, Chunk<T>>, building: bool)
    requires Links(l, m, building) && |l.chain| >= 2
    ensures l.chain[0] in m && m[l.chain[0]].next == Some(l.chain[1])
    ensures Links(l.(chain := l.chain[1..], retired := l.retired + 1), m, building)
  {
    var c' := l.chain[1..];
    forall i | 0 <= i < |c'|
      ensures c'[i] in m
      ensures i < |c'| - 1 ==> m[c'[i]].next == Some(c'[i + 1])
    {
      assert c'[i] == l.chain[i + 1];
    }
    forall i | 1 <= i < |c'| && (building ==> i < |c'| - 1) ensures m[c'[i]].prev == Some(c'[i - 1]) {
      assert c'[i] == l.chain[i + 1] && c'[i - 1] == l.chain[i];
    }
  }

  lemma LaterChain<T>(q: Pipe<T>, p: P.Pipe<T>, l': Layout)
    requires Corresponds(q, p) && q.reader.MoveBegin? && |q.lay.chain| >= 2
    requires l' == q.lay.(chain := q.lay.chain[1..], retired := q.lay.retired + 1)
    ensures Pointers(l', q.Back(), q.f, q.w, q.c, q.r, p)
    ensures Values(l', q.mem, p.cell, p.front, Written(p))
  {
    ReachesBack(q.lay, l', p);
    hide P.Inv, Places, Links, BeginOk, EndOk, Place, InChain, Cur, Holds;
    LaterValues(q.lay, l', q.mem, p.cell, p.front, Written(p));
    LaterPointers(q.lay, l', q.Back(), q.f, q.w, q.c, q.r, p);
  }

  lemma LaterValues<T>(l: Layout, l': Layout, m: map<nat, Chunk<T>>, cell: map<nat, T>, lo: nat, hi: nat)
    requires Values(l, m, cell, lo, hi)
    requires forall x: nat | lo <= x && InChain(l, x) :: InChain(l', x) && Cur(l', x) == Cur(l, x)
    ensures Values(l', m, cell, lo, hi)
  {
    hide InChain, Cur;
    forall x | lo <= x < hi ensures Holds(l', m, cell, x) { assert Holds(l, m, cell, x); }
  }

  lemma LaterPointers<T>(l: Layout, l': Layout, back: Cursor, f: Cursor, w: Cursor, c: Option<Cursor>,
                         r: Option<Cursor>, p: P.Pipe<T>)
    requires Pointers(l, back, f, w, c, r, p)
    requires forall x: nat | p.front <= x && InChain(l, x) :: InChain(l', x) && Cur(l', x) == Cur(l, x)
    requires p.front <= p.f && (p.writer.EndFlush? || p.front <= p.w) && p.front <= p.back
    requires (p.r.Some? ==> p.front <= p.r.value) && (p.c.Some? ==> p.front <= p.c.value)
    ensures Pointers(l', back, f, w, c, r, p)
  {
    hide InChain, Cur;
  }

  // Every position in use lies behind the retired chunk.
  lemma ReachesBack<T>(l: Layout, l': Layout, p: P.Pipe<T>)
    requires P.Inv(p) && l.n > 0 && |l.chain| >= 2 && l' == l.(chain := l.chain[1..], retired := l.retired + 1)
    requires Place(p.front, l.n) == Spot(l.retired + 1, 0)
    ensures forall x: nat | p.front <= x && InChain(l, x) :: InChain(l', x) && Cur(l', x) == Cur(l, x)
    ensures p.front <= p.f && (p.writer.EndFlush? || p.front <= p.w) && p.front <= p.back
    ensures p.r.Some? ==> p.front <= p.r.value
    ensures p.c.Some? ==> p.front <= p.c.value
  {
    forall x: nat | p.front <= x && InChain(l, x) ensures InChain(l', x) && Cur(l', x) == Cur(l, x) {
      PlaceMonotone(p.front, x, l.n);
    }
  }

  lemma LaterEnd<T>(l: Layout, chunk: nat, pos: nat, writer: WriterPhase<T>, back: nat)
    requires EndOk(l, chunk, pos, writer, back) && |l.chain| >= 2
    requires writer.LinkPrev? || writer.MoveEnd? || writer.FreeEnd? ==> |l.chain| >= 3
    ensures EndOk(l.(chain := l.chain[1..], retired := l.retired + 1), chunk, pos, writer, back)
  {
    hide Place;
  }

  lemma ClearPrevCorresponds<T>(q: Pipe<T>, p: P.Pipe<T>, value: T, used: nat)
    requires Corresponds(q, p) && q.reader == ClearPrev(value, used)
    ensures Corresponds(ClearPrevStep(q, value, used), p)
  {
    hide P.Inv, Places, Links, EndOk, Values, Pointers;
    FirstCleared(q.lay, q.mem, q.spare, WriterHand(q.writer), ReaderHand(q.reader), q.writer.LinkPrev?);
    LinkedValues(q.lay, q.mem, ClearPrevStep(q, value, used).mem, p.cell, p.front, Written(p));
  }

  lemma FirstCleared<T>(l: Layout, m: map<nat, Chunk<T>>, spare: Ptr, wh: Ptr, rh: Ptr, building: bool)
    requires Places(l, m, spare, wh, rh) && Links(l, m, building) && l.chain != []
    ensures l.chain[0] in m
    ensures var m' := m[l.chain[0] := m[l.chain[0]].(prev := None)];
            Places(l, m', spare, wh, rh) && Links(l, m', building)
  {
  }

  lemma GiveSpareCorresponds<T>(q: Pipe<T>, p: P.Pipe<T>, value: T, used: nat)
    requires Corresponds(q, p) && q.reader == GiveSpare(value, used)
    ensures Corresponds(q.(spare := Some(used), reader := FreeOld(value, q.spare)), p)
  {
    hide P.Inv, Places, Links, EndOk, Values, Pointers, Place;
    SwapSpare(q.lay, q.mem, q.spare, WriterHand(q.writer), used);
  }

  lemma SwapSpare<T>(l: Layout, m: map<nat, Chunk<T>>, spare: Ptr, wh: Ptr, used: nat)
    requires Places(l, m, spare, wh, Some(used))
    ensures Places(l, m, Some(used), wh, spare)
  {
  }

  lemma FreeOldCorresponds<T>(q: Pipe<T>, p: P.Pipe<T>, value: T, dropped: Ptr)
    requires Corresponds(q, p) && q.reader == FreeOld(value, dropped)
    ensures Corresponds(FreeOldStep(q, value, dropped), p)
  {
    hide P.Inv, Places, Links, EndOk, Values, Pointers, Place;
    if dropped.Some? {
      Dropped(q.lay, q.mem, q.spare, WriterHand(q.writer), dropped.value, q.writer.LinkPrev?);
      DroppedValues(q.lay, q.mem, dropped.value, p.cell, p.front, Written(p), q.spare, WriterHand(q.writer));
    }
  }

  lemma Dropped<T>(l: Layout, m: map<nat, Chunk<T>>, spare: Ptr, wh: Ptr, a: nat, building: bool)
    requires Places(l, m, spare, wh, Some(a)) && Links(l, m, building)
    ensures a in m && Places(l, m - {a}, spare, wh, None) && Links(l, m - {a}, building)
  {
  }

  lemma DroppedValues<T>(l: Layout, m: map<nat, Chunk<T>>, a: nat, cell: map<nat, T>, lo: nat, hi: nat, spare: Ptr,
                         wh: Ptr)
    requires Places(l, m, spare, wh, Some(a)) && Values(l, m, cell, lo, hi)
    ensures Values(l, m - {a}, cell, lo, hi)
  {
    hide Place;
    var m' := m - {a};
    forall x | lo <= x < hi ensures Holds(l, m', cell, x) {
      assert Holds(l, m, cell, x);
    }
  }

  // ---------- All steps ----------

  // The position machine does not see the steps on chunks.
  predicate Unseen<T>(q: Pipe<T>, m: Move<T>)
  {
    match m case Writer(_, _, _) => !q.writer.At? case Reader(_) => !q.reader.At?
  }

  function Seen<T>(m: Move<T>): P.Move<T>
  {
    match m case Writer(call, _, _) => P.Writer(call) case Reader(call) => P.Reader(call)
  }

  lemma WriterCorresponds<T>(q: Pipe<T>, p: P.Pipe<T>, call: P.WriterCall<T>)
    requires Corresponds(q, p) && q.writer.At?
    ensures Corresponds(VisibleWriterStep(q, q.writer.phase, call), P.WriterStep(p, call))
  {
    hide Corresponds, P.WriterStep, StoreValue, AdvanceBack, RetreatBack, RetreatEnd, TakeValue;
    match q.writer.phase
    case StoreValue(item) => StoreValueStep(q, p, call, item);
    case AdvanceBack(item) => AdvanceBackStep(q, p, call, item);
    case RetreatBack => RetreatBackStep(q, p, call);
    case RetreatEnd => RetreatEndStep(q, p, call);
    case TakeValue => TakeValueStep(q, p, call);
    case _ => QuietWriterStep(q, p, call);
  }

  lemma HiddenWriterCorresponds<T>(q: Pipe<T>, p: P.Pipe<T>, addr: nat, junk: Chunk<T>)
    requires Corresponds(q, p) && !q.writer.At?
    ensures Corresponds(HiddenWriterStep(q, addr, junk), p)
  {
    hide Corresponds, LinkNextStep, LinkPrevStep, MoveEndStep, FreeEndStep, ClearNextStep;
    match q.writer
    case TakeSpare(_) => TakeSpareStep(q, p, addr, junk);
    case LinkNext(incomplete, spared) => LinkNextCorresponds(q, p, incomplete, spared, addr, junk);
    case LinkPrev(incomplete) => LinkPrevCorresponds(q, p, incomplete);
    case MoveEnd(incomplete) => MoveEndCorresponds(q, p, incomplete);
    case FreeEnd => FreeEndCorresponds(q, p);
    case ClearNext => ClearNextCorresponds(q, p);
  }

  lemma ReaderCorresponds<T>(q: Pipe<T>, p: P.Pipe<T>, call: P.ReaderCall)
    requires Corresponds(q, p) && q.reader.At?
    ensures Corresponds(VisibleReaderStep(q, q.reader.phase, call), P.ReaderStep(p, call))
  {
    hide Corresponds, P.ReaderStep, CopyFront;
    match q.reader.phase
    case CopyFront => CopyFrontStep(q, p, call);
    case AdvanceFront(value) => AdvanceFrontStep(q, p, call, value);
    case _ => QuietReaderStep(q, p, call);
  }

  lemma HiddenReaderCorresponds<T>(q: Pipe<T>, p: P.Pipe<T>)
    requires Corresponds(q, p) && !q.reader.At?
    ensures Corresponds(HiddenReaderStep(q), p)
  {
    hide Corresponds, MoveBeginStep, ClearPrevStep, FreeOldStep;
    match q.reader
    case MoveBegin(value) => MoveBeginCorresponds(q, p, value);
    case ClearPrev(value, used) => ClearPrevCorresponds(q, p, value, used);
    case GiveSpare(value, used) => GiveSpareCorresponds(q, p, value, used);
    case FreeOld(value, dropped) => FreeOldCorresponds(q, p, value, dropped);
  }

  // One step on pointers is one step on positions, or one the positions do not see.
  lemma StepCorresponds<T>(q: Pipe<T>, p: P.Pipe<T>, m: Move<T>)
    requires Corresponds(q, p)
    ensures Corresponds(Step(q, m), if Unseen(q, m) then p else P.Step(p, Seen(m)))
  {
    hide Corresponds, VisibleWriterStep, VisibleReaderStep, HiddenWriterStep, HiddenReaderStep, P.WriterStep,
        P.ReaderStep;
    match m
    case Writer(call, addr, junk) =>
      if q.writer.At? { WriterCorresponds(q, p, call); } else { HiddenWriterCorresponds(q, p, addr, junk); }
    case Reader(call) =>
      if q.reader.At? { ReaderCorresponds(q, p, call); } else { HiddenReaderCorresponds(q, p); }
  }

  lemma StartCorresponds<T>(n: nat, a: nat, b: nat, junkA: Chunk<T>, junkB: Chunk<T>)
    requires n > 0 && a != b && |junkA.values| == |junkB.values| == n
    ensures Corresponds(Start(n, a, b, junkA, junkB), P.Init<T>())
  {
    hide P.Inv, Places, Links, BeginOk, EndOk, Pointers, Place;
    P.InitInv<T>();
    StartPlaces(n, a, b, junkA, junkB);
    StartEnds(n, a, b, junkA, junkB);
    StartPointers(n, a, b, junkA, junkB);
  }

  lemma StartEnds<T>(n: nat, a: nat, b: nat, junkA: Chunk<T>, junkB: Chunk<T>)
    requires n > 0 && a != b && |junkA.values| == |junkB.values| == n
    ensures var q := Start(n, a, b, junkA, junkB);
            BeginOk(q.lay, q.beginChunk, q.beginPos, q.reader, 0) && EndOk(q.lay, q.endChunk, q.endPos, q.writer, 0)
  {
    assert Place(1, n) == if n == 1 then Spot(1, 0) else Spot(0, 1);
    assert Place(0, n) == Spot(0, 0);
    hide Place;
  }

  lemma StartPointers<T>(n: nat, a: nat, b: nat, junkA: Chunk<T>, junkB: Chunk<T>)
    requires n > 0 && a != b && |junkA.values| == |junkB.values| == n
    ensures var q := Start(n, a, b, junkA, junkB); Pointers(q.lay, q.Back(), q.f, q.w, q.c, q.r, P.Init<T>())
  {
    assert Place(0, n) == Spot(0, 0);
    hide Place;
  }

  lemma StartPlaces<T>(n: nat, a: nat, b: nat, junkA: Chunk<T>, junkB: Chunk<T>)
    requires n > 0 && a != b && |junkA.values| == |junkB.values| == n
    ensures var q := Start(n, a, b, junkA, junkB);
            Places(q.lay, q.mem, q.spare, None, None) && Links(q.lay, q.mem, false)
  {
  }

  // ---------- What correspondence says of ends, links and elements ----------

  lemma NullsAgree<T>(q: Pipe<T>, p: P.Pipe<T>)
    requires Corresponds(q, p)
    ensures WriterView(q.writer) == p.writer && ReaderView(q.reader) == p.reader
    ensures (q.r == None <==> p.r == None) && (q.c == None <==> p.c == None)
  {
    hide P.Inv, Links, BeginOk, EndOk, Values, Addresses, Places;
  }

  lemma EndLinksLast<T>(q: Pipe<T>, p: P.Pipe<T>)
    requires Corresponds(q, p) && q.writer == FreeEnd
    ensures |q.lay.chain| >= 2 && q.endChunk in q.mem
    ensures q.mem[q.endChunk].next == Some(q.lay.chain[|q.lay.chain| - 1]) && q.lay.chain[|q.lay.chain| - 1] in q.mem
  {
    hide P.Inv, Values, Place, Pointers, BeginOk, Places;
    assert q.endChunk == q.lay.chain[|q.lay.chain| - 2];
  }

  lemma LongEnough<T>(q: Pipe<T>, p: P.Pipe<T>)
    requires Corresponds(q, p) && q.writer == FreeEnd
    ensures |q.lay.chain| >= 2
  {
    hide P.Inv, Values, Place, Pointers, BeginOk, Places, Links;
  }

  lemma ReaderLeavesLast<T>(q: Pipe<T>, p: P.Pipe<T>, call: P.ReaderCall)
    requires Corresponds(q, p) && q.writer == FreeEnd && |q.lay.chain| >= 2
    ensures var r := Step(q, Reader(call));
            && r.writer == FreeEnd && r.endChunk == q.endChunk && r.lay.chain != []
            && r.lay.chain[|r.lay.chain| - 1] == q.lay.chain[|q.lay.chain| - 1]
  {
    hide Corresponds;
    if q.reader.At? {
    } else if q.reader.MoveBegin? {
    } else {
    }
  }

  lemma Unfaulted<T>(q: Pipe<T>, p: P.Pipe<T>)
    requires Corresponds(q, p)
    ensures !q.fault
  {
  }

  lemma EndIsLast<T>(q: Pipe<T>, p: P.Pipe<T>)
    requires Corresponds(q, p) && q.writer.At?
    ensures q.lay.chain != [] && q.endChunk == q.lay.chain[|q.lay.chain| - 1]
  {
    hide P.Inv, Values, Place, Pointers, BeginOk, Places, Links;
  }

  lemma PrevLinksApart<T>(q: Pipe<T>, p: P.Pipe<T>)
    requires Corresponds(q, p)
    ensures q.writer.LinkPrev? && q.reader.ClearPrev? ==>
              q.endChunk in q.mem && q.mem[q.endChunk].next.Some? && q.mem[q.endChunk].next != Some(q.beginChunk)
  {
    hide P.Inv, Values, Place, Pointers;
    if q.writer.LinkPrev? && q.reader.ClearPrev? {
      var k := |q.lay.chain| - 2;
      assert q.endChunk == q.lay.chain[k] && q.beginChunk == q.lay.chain[0];
      assert q.mem[q.lay.chain[k]].next == Some(q.lay.chain[k + 1]);
    }
  }

  lemma ElementsApart<T>(q: Pipe<T>, p: P.Pipe<T>)
    requires Corresponds(q, p)
    ensures q.writer.At? && q.writer.phase.StoreValue? && q.reader.At? && q.reader.phase.CopyFront? ==>
            q.Back() != q.Front()
  {
    hide P.Inv, Values, Place, Links, EndOk;
    if q.writer.At? && q.writer.phase.StoreValue? && q.reader.At? && q.reader.phase.CopyFront? {
      OrderedFront(p);
      ReadGuard(p);
      FrontIs(q.lay, q.beginChunk, q.beginPos, q.reader, p.front);
      ComparePositions(q.lay, q.Back(), p.back, q.Front(), p.front);
    }
  }

  lemma BackLinkThere<T>(q: Pipe<T>, p: P.Pipe<T>)
    requires Corresponds(q, p)
    ensures q.writer.At? && q.writer.phase.RetreatBack? && q.backPos == 0 ==>
              q.backChunk != q.beginChunk && q.backChunk in q.mem && q.mem[q.backChunk].prev.Some?
              && q.mem[q.backChunk].prev.value in q.mem
  {
    hide P.Inv, Values, Place, EndOk;
    if q.writer.At? && q.writer.phase.RetreatBack? && q.backPos == 0 {
      RetreatGuard(p);
      BeforeBack(q.lay, q.beginChunk, q.beginPos, q.reader, p.front, q.Back(), p.back);
      PrevOf(q.lay, q.mem, Place(p.back, q.lay.n).no - q.lay.retired);
    }
  }

  lemma EndLinkThere<T>(q: Pipe<T>, p: P.Pipe<T>)
    requires Corresponds(q, p)
    ensures q.writer.At? && q.writer.phase.RetreatEnd? && q.endPos == 0 ==>
              q.endChunk != q.beginChunk && q.endChunk in q.mem && q.mem[q.endChunk].prev.Some?
              && q.mem[q.endChunk].prev.value in q.mem
  {
    hide P.Inv, Values, Place, Pointers;
    if q.writer.At? && q.writer.phase.RetreatEnd? && q.endPos == 0 {
      OrderedFront(p);
      BeforeEnd(q.lay, q.beginChunk, q.beginPos, q.reader, p.front, q.endChunk, q.endPos, p.back);
      PrevOf(q.lay, q.mem, |q.lay.chain| - 1);
    }
  }

  lemma BeginLinkApart<T>(q: Pipe<T>, p: P.Pipe<T>)
    requires Corresponds(q, p)
    ensures q.reader.MoveBegin? && (q.writer.LinkNext? || q.writer.ClearNext?) ==> q.endChunk != q.beginChunk
  {
    hide P.Inv, Values, Place, Pointers;
    if q.reader.MoveBegin? {
      OrderedFront(p);
      SecondChunk(q.lay, q.beginChunk, q.beginPos, q.reader, p.front, q.writer, q.endChunk, q.endPos, p.back);
    }
  }
}
