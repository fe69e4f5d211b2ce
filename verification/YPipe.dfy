// The pipe object: the fields of the queue and of the pipe, changed in place.  Between two
// accesses of one thread's operation the other thread may take any number of steps; of what it
// cannot reach, the operation finds nothing changed.
module YPipe {
  import opened Wrappers
  import P = PipePositions
  import Calls = PipeCalls
  import opened ChunkPipe
  import opened PipeTrace

  predicate Left(chain: seq<nat>, i: nat, k: nat) { exists j | i <= j < |chain| :: chain[j] == k }

  // The destructor has freed the first `i` chunks of the chain; the rest and the spare are left.
  ghost predicate Remaining<T>(chain: seq<nat>, i: nat, mem: map<nat, Chunk<T>>, spare: Ptr)
  {
    && (forall j, k | 0 <= j < k < |chain| :: chain[j] != chain[k])
    && (forall k: nat :: k in mem <==> Left(chain, i, k) || Some(k) == spare)
    && (forall k | k in chain :: Some(k) != spare)
    && (forall j | i <= j < |chain| - 1 :: chain[j] in mem && mem[chain[j]].next == Some(chain[j + 1]))
  }

  lemma FreeFirst<T>(chain: seq<nat>, i: nat, mem: map<nat, Chunk<T>>, spare: Ptr)
    requires Remaining(chain, i, mem, spare) && i < |chain| && chain[i] != chain[|chain| - 1]
    ensures i + 1 < |chain| && chain[i] in mem && mem[chain[i]].next == Some(chain[i + 1])
    ensures Remaining(chain, i + 1, mem - {chain[i]}, spare)
  {
    assert chain[i] in mem && chain[i + 1] != chain[i];
    forall k: nat ensures Left(chain, i + 1, k) <==> Left(chain, i, k) && k != chain[i] {
      if j :| i <= j < |chain| && chain[j] == k && k != chain[i] { assert i + 1 <= j; }
    }
    assert chain[i] in chain && Left(chain, i, chain[i]);
  }

  lemma FreeLast<T>(chain: seq<nat>, i: nat, mem: map<nat, Chunk<T>>, spare: Ptr)
    requires Remaining(chain, i, mem, spare) && i < |chain| && chain[i] == chain[|chain| - 1]
    ensures chain[i] in mem && (spare.Some? ==> spare.value in mem && spare.value != chain[i])
    ensures mem - {chain[i]} - (if spare.Some? then {spare.value} else {}) == map[]
  {
    assert i == |chain| - 1;
    assert chain[i] in mem;
  }

  class YPipe<T(!new)> {
    const n: nat
    var mem: map<nat, Chunk<T>>
    var beginChunk: nat
    var beginPos: nat
    var backChunk: nat
    var backPos: nat
    var endChunk: nat
    var endPos: nat
    var spare: Ptr
    var r: Option<Cursor>
    var w: Cursor
    var f: Cursor
    var c: Option<Cursor>
    var writer: WriterPhase<T>     // where each thread is
    var reader: ReaderPhase<T>
    ghost var lay: Layout
    ghost var p: P.Pipe<T>         // the pipe on positions, with its histories

    ghost function Here(): Pipe<T>
      reads this
    {
      Pipe(lay, mem, beginChunk, beginPos, backChunk, backPos, endChunk, endPos, spare, r, w, f, c, writer, reader,
          false)
    }

    ghost predicate Valid()
      reads this
    {
      lay.n == n && Corresponds(Here(), p)
    }

    // ----- The accesses of the writer -----

    method CallWriter(call: P.WriterCall<T>)
      requires Valid() && writer.At? && writer.phase.WriterIdle?
      modifies this
      ensures Valid() && p == P.WriterStep(old(p), call) && reader == old(reader)
      ensures Here() == Step(old(Here()), W(call))
      ensures writer == WriterPhase.At(match call
                case Write(item) => P.StoreValue(item)
                case Unwrite => P.TestUnwrite
                case Flush => P.TestFlush)
    {
      hide Corresponds, Step, P.WriterStep, P.ReaderStep, Cur, InChain, WriterView, ReaderView, W;
      ghost var q' := VisibleWriterStep(Here(), writer.phase, call);
      StepIs(Here(), W(call));
      QuietWriterStep(Here(), p, call);
      Unfaulted(q', P.WriterStep(p, call));
      writer := WriterPhase.At(match call
                  case Write(item) => P.StoreValue(item)
                  case Unwrite => P.TestUnwrite
                  case Flush => P.TestFlush);
      lay, p := q'.lay, P.WriterStep(p, call);
      assert Here() == q';
    }

    method StoreBack(item: P.Item<T>)
      requires Valid() && writer == WriterPhase.At(P.StoreValue(item))
      modifies this
      ensures Valid() && p == P.WriterStep(old(p), P.Flush) && reader == old(reader)
      ensures Here() == Step(old(Here()), W(P.Flush))
      ensures writer == WriterPhase.At(P.AdvanceBack(item))
    {
      hide Corresponds, Step, P.WriterStep, P.ReaderStep, Cur, InChain, WriterView, ReaderView, W;
      ghost var q' := StoreValue(Here(), item);
      StepIs(Here(), W(P.Flush));
      StoreValueStep(Here(), p, P.Flush, item);
      Unfaulted(q', P.WriterStep(p, P.Flush));
      mem := mem[backChunk := mem[backChunk].(values := mem[backChunk].values[backPos := Some(item.value)])];
      writer := WriterPhase.At(P.AdvanceBack(item));
      lay, p := q'.lay, P.WriterStep(p, P.Flush);
      assert Here() == q';
    }

    method AdvanceBackEnd(item: P.Item<T>) returns (full: bool)
      requires Valid() && writer == WriterPhase.At(P.AdvanceBack(item))
      modifies this
      ensures Valid() && p == P.WriterStep(old(p), P.Flush) && reader == old(reader)
      ensures Here() == Step(old(Here()), W(P.Flush))
      ensures writer == if full then TakeSpare(item.incomplete) else WriterPhase.At(P.MarkFlush(item.incomplete))
    {
      hide Corresponds, Step, P.WriterStep, P.ReaderStep, Cur, InChain, WriterView, ReaderView, W;
      hide VisibleWriterStep, HiddenWriterStep, VisibleReaderStep, HiddenReaderStep;
      ghost var q' := AdvanceBack(Here(), item);
      AdvanceBackIs(Here(), W(P.Flush));
      AdvanceBackStep(Here(), p, P.Flush, item);
      Unfaulted(q', P.WriterStep(p, P.Flush));
      backChunk, backPos := endChunk, endPos;
      endPos := endPos + 1;
      full := endPos == n;
      writer := if full then TakeSpare(item.incomplete) else WriterPhase.At(P.MarkFlush(item.incomplete));
      lay, p := q'.lay, P.WriterStep(p, P.Flush);
      assert Here() == q';
    }

    method ExchangeSpare(incomplete: bool) returns (sc: Ptr)
      requires Valid() && writer == TakeSpare(incomplete)
      modifies this
      ensures Valid() && p == old(p) && reader == old(reader)
      ensures Here() == Step(old(Here()), W(P.Flush))
      ensures writer == LinkNext(incomplete, sc) && sc == old(spare) && spare == None && mem == old(mem)
      ensures endChunk == old(endChunk)
    {
      hide Corresponds, Step, P.WriterStep, P.ReaderStep, Cur, InChain, WriterView, ReaderView, W;
      ghost var q' := HiddenWriterStep(Here(), W<T>(P.Flush).addr, W<T>(P.Flush).junk);
      StepIs(Here(), W(P.Flush));
      TakeSpareStep(Here(), p, W<T>(P.Flush).addr, W<T>(P.Flush).junk);
      Unfaulted(q', p);
      sc := spare;
      spare := None;
      writer := LinkNext(incomplete, sc);
      lay := q'.lay;
      assert Here() == q';
    }

    method LinkNextChunk(incomplete: bool, sc: Ptr, addr: nat, junk: Chunk<T>)
      requires Valid() && writer == LinkNext(incomplete, sc)
      requires sc == None ==> addr !in mem && |junk.values| == n
      modifies this
      ensures Valid() && p == old(p) && reader == old(reader)
      ensures Here() == Step(old(Here()), Writer(P.Flush, addr, junk))
      ensures writer == LinkPrev(incomplete) && spare == old(spare) && endChunk == old(endChunk)
      ensures mem.Keys == old(mem).Keys + (if sc.Some? then {} else {addr})
      ensures endChunk in mem && mem[endChunk].next == Some(if sc.Some? then sc.value else addr)
    {
      hide Corresponds, Step, P.WriterStep, P.ReaderStep, Cur, InChain, WriterView, ReaderView, W;
      ghost var q' := LinkNextStep(Here(), incomplete, sc, addr, junk);
      StepIs(Here(), Writer(P.Flush, addr, junk));
      LinkNextCorresponds(Here(), p, incomplete, sc, addr, junk);
      Unfaulted(q', p);
      if sc.Some? {
        mem := mem[endChunk := mem[endChunk].(next := sc)];
      } else {
        mem := mem[addr := junk][endChunk := mem[endChunk].(next := Some(addr))];
      }
      writer := LinkPrev(incomplete);
      lay := q'.lay;
      assert Here() == q';
    }

    method LinkPrevChunk(incomplete: bool)
      requires Valid() && writer == LinkPrev(incomplete)
      modifies this
      ensures Valid() && p == old(p) && reader == old(reader)
      ensures Here() == Step(old(Here()), W(P.Flush))
      ensures writer == MoveEnd(incomplete) && spare == old(spare) && mem.Keys == old(mem).Keys
      ensures endChunk == old(endChunk) && endChunk in mem && endChunk in old(mem)
      ensures mem[endChunk].next == old(mem)[endChunk].next
    {
      hide Corresponds, Step, P.WriterStep, P.ReaderStep, Cur, InChain, WriterView, ReaderView, W;
      ghost var q' := LinkPrevStep(Here(), incomplete);
      StepIs(Here(), W(P.Flush));
      LinkPrevCorresponds(Here(), p, incomplete);
      Unfaulted(q', p);
      var next := mem[endChunk].next.value;
      mem := mem[next := mem[next].(prev := Some(endChunk))];
      writer := MoveEnd(incomplete);
      lay := q'.lay;
      assert Here() == q';
    }

    method MoveEndChunk(incomplete: bool)
      requires Valid() && writer == MoveEnd(incomplete)
      modifies this
      ensures Valid() && p == old(p) && reader == old(reader)
      ensures Here() == Step(old(Here()), W(P.Flush))
      ensures writer == WriterPhase.At(P.MarkFlush(incomplete)) && spare == old(spare) && mem == old(mem) && endPos == 0
      ensures old(endChunk) in mem && mem[old(endChunk)].next == Some(endChunk)
    {
      hide Corresponds, Step, P.WriterStep, P.ReaderStep, Cur, InChain, WriterView, ReaderView, W;
      ghost var q' := MoveEndStep(Here(), incomplete);
      StepIs(Here(), W(P.Flush));
      MoveEndCorresponds(Here(), p, incomplete);
      Unfaulted(q', p);
      endChunk := mem[endChunk].next.value;
      endPos := 0;
      writer := WriterPhase.At(P.MarkFlush(incomplete));
      lay := q'.lay;
      assert Here() == q';
    }

    method MarkCompleted(incomplete: bool)
      requires Valid() && writer == WriterPhase.At(P.MarkFlush(incomplete))
      modifies this
      ensures Valid() && p == P.WriterStep(old(p), P.Flush) && reader == old(reader)
      ensures Here() == Step(old(Here()), W(P.Flush))
      ensures writer == WriterPhase.At(P.WriterIdle(P.Wrote))
    {
      hide Corresponds, Step, P.WriterStep, P.ReaderStep, Cur, InChain, WriterView, ReaderView, W;
      ghost var q' := VisibleWriterStep(Here(), writer.phase, P.Flush);
      StepIs(Here(), W(P.Flush));
      QuietWriterStep(Here(), p, P.Flush);
      Unfaulted(q', P.WriterStep(p, P.Flush));
      if !incomplete { f := Cursor(backChunk, backPos); }
      writer := WriterPhase.At(P.WriterIdle(P.Wrote));
      lay, p := q'.lay, P.WriterStep(p, P.Flush);
      assert Here() == q';
    }

    method TestIncomplete() returns (some: bool)
      requires Valid() && writer == WriterPhase.At(P.TestUnwrite)
      modifies this
      ensures Valid() && p == P.WriterStep(old(p), P.Flush) && reader == old(reader)
      ensures Here() == Step(old(Here()), W(P.Flush))
      ensures writer == WriterPhase.At(if some then P.RetreatBack else P.WriterIdle(P.Unwrote(None)))
    {
      hide Corresponds, Step, P.WriterStep, P.ReaderStep, Cur, InChain, WriterView, ReaderView, W;
      ghost var q' := VisibleWriterStep(Here(), writer.phase, P.Flush);
      StepIs(Here(), W(P.Flush));
      QuietWriterStep(Here(), p, P.Flush);
      Unfaulted(q', P.WriterStep(p, P.Flush));
      some := f != Cursor(backChunk, backPos);
      writer := WriterPhase.At(if some then P.RetreatBack else P.WriterIdle(P.Unwrote(None)));
      lay, p := q'.lay, P.WriterStep(p, P.Flush);
      assert Here() == q';
    }

    method MoveBackBackwards()
      requires Valid() && writer == WriterPhase.At(P.RetreatBack)
      modifies this
      ensures Valid() && p == P.WriterStep(old(p), P.Flush) && reader == old(reader)
      ensures Here() == Step(old(Here()), W(P.Flush))
      ensures writer == WriterPhase.At(P.RetreatEnd)
    {
      hide Corresponds, Step, P.WriterStep, P.ReaderStep, Cur, InChain, WriterView, ReaderView, W;
      hide VisibleWriterStep, HiddenWriterStep, VisibleReaderStep, HiddenReaderStep;
      ghost var q' := RetreatBack(Here());
      RetreatBackIs(Here(), W(P.Flush));
      RetreatBackStep(Here(), p, P.Flush);
      Unfaulted(q', P.WriterStep(p, P.Flush));
      if backPos > 0 {
        backPos := backPos - 1;
      } else {
        backPos, backChunk := n - 1, mem[backChunk].prev.value;
      }
      writer := WriterPhase.At(P.RetreatEnd);
      lay, p := q'.lay, P.WriterStep(p, P.Flush);
      assert Here() == q';
    }

    method MoveEndBackwards() returns (obsolete: bool)
      requires Valid() && writer == WriterPhase.At(P.RetreatEnd)
      modifies this
      ensures Valid() && p == P.WriterStep(old(p), P.Flush) && reader == old(reader)
      ensures Here() == Step(old(Here()), W(P.Flush))
      ensures writer == if obsolete then FreeEnd else WriterPhase.At(P.TakeValue)
    {
      hide Corresponds, Step, P.WriterStep, P.ReaderStep, Cur, InChain, WriterView, ReaderView, W;
      hide VisibleWriterStep, HiddenWriterStep, VisibleReaderStep, HiddenReaderStep;
      ghost var q' := RetreatEnd(Here());
      RetreatEndIs(Here(), W(P.Flush));
      RetreatEndStep(Here(), p, P.Flush);
      Unfaulted(q', P.WriterStep(p, P.Flush));
      obsolete := endPos == 0;
      if !obsolete {
        endPos := endPos - 1;
      } else {
        endPos, endChunk := n - 1, mem[endChunk].prev.value;
      }
      writer := if obsolete then FreeEnd else WriterPhase.At(P.TakeValue);
      lay, p := q'.lay, P.WriterStep(p, P.Flush);
      assert Here() == q';
    }

    method FreeObsolete()
      requires Valid() && writer == FreeEnd
      modifies this
      ensures Valid() && p == old(p) && reader == old(reader)
      ensures Here() == Step(old(Here()), W(P.Flush))
      ensures writer == ClearNext
    {
      hide Corresponds, Step, P.WriterStep, P.ReaderStep, Cur, InChain, WriterView, ReaderView, W;
      ghost var q' := FreeEndStep(Here());
      StepIs(Here(), W(P.Flush));
      FreeEndCorresponds(Here(), p);
      Unfaulted(q', p);
      mem := mem - {mem[endChunk].next.value};
      writer := ClearNext;
      lay := q'.lay;
      assert Here() == q';
    }

    method ClearEndNext()
      requires Valid() && writer == ClearNext
      modifies this
      ensures Valid() && p == old(p) && reader == old(reader)
      ensures Here() == Step(old(Here()), W(P.Flush))
      ensures writer == WriterPhase.At(P.TakeValue)
    {
      hide Corresponds, Step, P.WriterStep, P.ReaderStep, Cur, InChain, WriterView, ReaderView, W;
      ghost var q' := ClearNextStep(Here());
      StepIs(Here(), W(P.Flush));
      ClearNextCorresponds(Here(), p);
      Unfaulted(q', p);
      mem := mem[endChunk := mem[endChunk].(next := None)];
      writer := WriterPhase.At(P.TakeValue);
      lay := q'.lay;
      assert Here() == q';
    }

    method CopyBack() returns (value: T)
      requires Valid() && writer == WriterPhase.At(P.TakeValue)
      modifies this
      ensures Valid() && p == P.WriterStep(old(p), P.Flush) && reader == old(reader)
      ensures Here() == Step(old(Here()), W(P.Flush))
      ensures writer == WriterPhase.At(P.WriterIdle(P.Unwrote(Some(value))))
    {
      hide Corresponds, Step, P.WriterStep, P.ReaderStep, Cur, InChain, WriterView, ReaderView, W;
      ghost var q' := TakeValue(Here());
      StepIs(Here(), W(P.Flush));
      TakeValueStep(Here(), p, P.Flush);
      Unfaulted(q', P.WriterStep(p, P.Flush));
      value := mem[backChunk].values[backPos].value;
      writer := WriterPhase.At(P.WriterIdle(P.Unwrote(Some(value))));
      lay, p := q'.lay, P.WriterStep(p, P.Flush);
      assert Here() == q';
    }

    method TestUnflushed() returns (some: bool)
      requires Valid() && writer == WriterPhase.At(P.TestFlush)
      modifies this
      ensures Valid() && p == P.WriterStep(old(p), P.Flush) && reader == old(reader)
      ensures Here() == Step(old(Here()), W(P.Flush))
      ensures writer == WriterPhase.At(if some then P.CasFlush else P.WriterIdle(P.Flushed(true)))
    {
      hide Corresponds, Step, P.WriterStep, P.ReaderStep, Cur, InChain, WriterView, ReaderView, W;
      ghost var q' := VisibleWriterStep(Here(), writer.phase, P.Flush);
      StepIs(Here(), W(P.Flush));
      QuietWriterStep(Here(), p, P.Flush);
      Unfaulted(q', P.WriterStep(p, P.Flush));
      some := w != f;
      writer := WriterPhase.At(if some then P.CasFlush else P.WriterIdle(P.Flushed(true)));
      lay, p := q'.lay, P.WriterStep(p, P.Flush);
      assert Here() == q';
    }

    method CasC() returns (ok: bool)
      requires Valid() && writer == WriterPhase.At(P.CasFlush)
      modifies this
      ensures Valid() && p == P.WriterStep(old(p), P.Flush) && reader == old(reader)
      ensures Here() == Step(old(Here()), W(P.Flush))
      ensures writer == WriterPhase.At(if ok then P.EndFlush(true) else P.SetFlush)
    {
      hide Corresponds, Step, P.WriterStep, P.ReaderStep, Cur, InChain, WriterView, ReaderView, W;
      ghost var q' := VisibleWriterStep(Here(), writer.phase, P.Flush);
      StepIs(Here(), W(P.Flush));
      QuietWriterStep(Here(), p, P.Flush);
      Unfaulted(q', P.WriterStep(p, P.Flush));
      ok := c == Some(w);
      if ok { c := Some(f); }
      writer := WriterPhase.At(if ok then P.EndFlush(true) else P.SetFlush);
      lay, p := q'.lay, P.WriterStep(p, P.Flush);
      assert Here() == q';
    }

    method SetC()
      requires Valid() && writer == WriterPhase.At(P.SetFlush)
      modifies this
      ensures Valid() && p == P.WriterStep(old(p), P.Flush) && reader == old(reader)
      ensures Here() == Step(old(Here()), W(P.Flush))
      ensures writer == WriterPhase.At(P.EndFlush(false))
    {
      hide Corresponds, Step, P.WriterStep, P.ReaderStep, Cur, InChain, WriterView, ReaderView, W;
      ghost var q' := VisibleWriterStep(Here(), writer.phase, P.Flush);
      StepIs(Here(), W(P.Flush));
      QuietWriterStep(Here(), p, P.Flush);
      Unfaulted(q', P.WriterStep(p, P.Flush));
      c := Some(f);
      writer := WriterPhase.At(P.EndFlush(false));
      lay, p := q'.lay, P.WriterStep(p, P.Flush);
      assert Here() == q';
    }

    method MoveW(awake: bool)
      requires Valid() && writer == WriterPhase.At(P.EndFlush(awake))
      modifies this
      ensures Valid() && p == P.WriterStep(old(p), P.Flush) && reader == old(reader)
      ensures Here() == Step(old(Here()), W(P.Flush))
      ensures writer == WriterPhase.At(P.WriterIdle(P.Flushed(awake)))
    {
      hide Corresponds, Step, P.WriterStep, P.ReaderStep, Cur, InChain, WriterView, ReaderView, W;
      ghost var q' := VisibleWriterStep(Here(), writer.phase, P.Flush);
      StepIs(Here(), W(P.Flush));
      QuietWriterStep(Here(), p, P.Flush);
      Unfaulted(q', P.WriterStep(p, P.Flush));
      w := f;
      writer := WriterPhase.At(P.WriterIdle(P.Flushed(awake)));
      lay, p := q'.lay, P.WriterStep(p, P.Flush);
      assert Here() == q';
    }

    // ----- The accesses of the reader -----

    method CallReader(call: P.ReaderCall)
      requires Valid() && reader.At? && reader.phase.ReaderIdle?
      modifies this
      ensures Valid() && p == P.ReaderStep(old(p), call) && writer == old(writer)
      ensures Here() == Step(old(Here()), Reader(call))
      ensures reader == ReaderPhase.At(P.TestPrefetched(call.CheckRead?))
    {
      hide Corresponds, Step, P.WriterStep, P.ReaderStep, Cur, InChain, WriterView, ReaderView, W;
      ghost var q' := VisibleReaderStep(Here(), reader.phase, call);
      StepIs(Here(), Reader(call));
      QuietReaderStep(Here(), p, call);
      Unfaulted(q', P.ReaderStep(p, call));
      reader := ReaderPhase.At(P.TestPrefetched(call.CheckRead?));
      lay, p := q'.lay, P.ReaderStep(p, call);
      assert Here() == q';
    }

    method TestR(peek: bool) returns (prefetched: bool)
      requires Valid() && reader == ReaderPhase.At(P.TestPrefetched(peek))
      modifies this
      ensures Valid() && p == P.ReaderStep(old(p), P.Read) && writer == old(writer)
      ensures Here() == Step(old(Here()), Reader(P.Read))
      ensures reader == ReaderPhase.At(if !prefetched then P.CasPrefetch(peek)
                                       else if peek then P.ReaderIdle(P.Checked(true)) else P.CopyFront)
    {
      hide Corresponds, Step, P.WriterStep, P.ReaderStep, Cur, InChain, WriterView, ReaderView, W;
      ghost var q' := VisibleReaderStep(Here(), reader.phase, P.Read);
      StepIs(Here(), Reader(P.Read));
      QuietReaderStep(Here(), p, P.Read);
      Unfaulted(q', P.ReaderStep(p, P.Read));
      prefetched := r != Some(Cursor(beginChunk, beginPos)) && r != None;
      reader := ReaderPhase.At(if prefetched then P.Available(peek) else P.CasPrefetch(peek));
      lay, p := q'.lay, P.ReaderStep(p, P.Read);
      assert Here() == q';
    }

    method PrefetchFromC(peek: bool) returns (some: bool)
      requires Valid() && reader == ReaderPhase.At(P.CasPrefetch(peek))
      modifies this
      ensures Valid() && p == P.ReaderStep(old(p), P.Read) && writer == old(writer)
      ensures Here() == Step(old(Here()), Reader(P.Read))
      ensures reader == ReaderPhase.At(if some then (if peek then P.ReaderIdle(P.Checked(true)) else P.CopyFront)
                                       else P.ReaderIdle(if peek then P.Checked(false) else P.GotItem(None)))
    {
      hide Corresponds, Step, P.WriterStep, P.ReaderStep, Cur, InChain, WriterView, ReaderView, W;
      ghost var q' := VisibleReaderStep(Here(), reader.phase, P.Read);
      StepIs(Here(), Reader(P.Read));
      QuietReaderStep(Here(), p, P.Read);
      Unfaulted(q', P.ReaderStep(p, P.Read));
      var front := Cursor(beginChunk, beginPos);
      r := c;
      if c == Some(front) { c := None; }
      some := r != Some(front) && r != None;
      reader := ReaderPhase.At(if some then P.Available(peek) else P.Unavailable(peek));
      lay, p := q'.lay, P.ReaderStep(p, P.Read);
      assert Here() == q';
    }

    method CopyFrontValue() returns (value: T)
      requires Valid() && reader == ReaderPhase.At(P.CopyFront)
      modifies this
      ensures Valid() && p == P.ReaderStep(old(p), P.Read) && writer == old(writer)
      ensures Here() == Step(old(Here()), Reader(P.Read))
      ensures reader == ReaderPhase.At(P.AdvanceFront(value))
    {
      hide Corresponds, Step, P.WriterStep, P.ReaderStep, Cur, InChain, WriterView, ReaderView, W;
      ghost var q' := CopyFront(Here());
      StepIs(Here(), Reader(P.Read));
      CopyFrontStep(Here(), p, P.Read);
      Unfaulted(q', P.ReaderStep(p, P.Read));
      value := mem[beginChunk].values[beginPos].value;
      reader := ReaderPhase.At(P.AdvanceFront(value));
      lay, p := q'.lay, P.ReaderStep(p, P.Read);
      assert Here() == q';
    }

    method AdvanceBegin(value: T) returns (usedUp: bool)
      requires Valid() && reader == ReaderPhase.At(P.AdvanceFront(value))
      modifies this
      ensures Valid() && p == P.ReaderStep(old(p), P.Read) && writer == old(writer)
      ensures Here() == Step(old(Here()), Reader(P.Read))
      ensures reader == if usedUp then MoveBegin(value) else ReaderPhase.At(P.ReaderIdle(P.GotItem(Some(value))))
    {
      hide Corresponds, Step, P.WriterStep, P.ReaderStep, Cur, InChain, WriterView, ReaderView, W;
      ghost var q' := VisibleReaderStep(Here(), reader.phase, P.Read);
      StepIs(Here(), Reader(P.Read));
      AdvanceFrontStep(Here(), p, P.Read, value);
      Unfaulted(q', P.ReaderStep(p, P.Read));
      beginPos := beginPos + 1;
      usedUp := beginPos == n;
      reader := if usedUp then MoveBegin(value) else ReaderPhase.At(P.ReaderIdle(P.GotItem(Some(value))));
      lay, p := q'.lay, P.ReaderStep(p, P.Read);
      assert Here() == q';
    }

    method MoveBeginChunk(value: T) returns (o: nat)
      requires Valid() && reader == MoveBegin(value)
      modifies this
      ensures Valid() && p == old(p) && writer == old(writer)
      ensures Here() == Step(old(Here()), Reader(P.Read))
      ensures reader == ClearPrev(value, o) && o == old(beginChunk) && mem == old(mem) && spare == old(spare)
    {
      hide Corresponds, Step, P.WriterStep, P.ReaderStep, Cur, InChain, WriterView, ReaderView, W;
      ghost var q' := MoveBeginStep(Here(), value);
      StepIs(Here(), Reader(P.Read));
      MoveBeginCorresponds(Here(), p, value);
      Unfaulted(q', p);
      o := beginChunk;
      beginChunk := mem[beginChunk].next.value;
      reader := ClearPrev(value, o);
      lay := q'.lay;
      assert Here() == q';
    }

    method ClearBeginPrev(value: T, o: nat)
      requires Valid() && reader == ClearPrev(value, o)
      modifies this
      ensures Valid() && p == old(p) && writer == old(writer)
      ensures Here() == Step(old(Here()), Reader(P.Read))
      ensures reader == GiveSpare(value, o) && spare == old(spare) && mem.Keys == old(mem).Keys && beginPos == 0
    {
      hide Corresponds, Step, P.WriterStep, P.ReaderStep, Cur, InChain, WriterView, ReaderView, W;
      ghost var q' := ClearPrevStep(Here(), value, o);
      StepIs(Here(), Reader(P.Read));
      ClearPrevCorresponds(Here(), p, value, o);
      Unfaulted(q', p);
      mem := mem[beginChunk := mem[beginChunk].(prev := None)];
      beginPos := 0;
      reader := GiveSpare(value, o);
      lay := q'.lay;
      assert Here() == q';
    }

    method SwapSpare(value: T, o: nat) returns (cs: Ptr)
      requires Valid() && reader == GiveSpare(value, o)
      modifies this
      ensures Valid() && p == old(p) && writer == old(writer)
      ensures Here() == Step(old(Here()), Reader(P.Read))
      ensures reader == FreeOld(value, cs) && cs == old(spare) && spare == Some(o) && mem == old(mem)
      ensures beginPos == old(beginPos)
    {
      hide Corresponds, Step, P.WriterStep, P.ReaderStep, Cur, InChain, WriterView, ReaderView, W;
      ghost var q' := Here().(spare := Some(o), reader := FreeOld(value, spare));
      StepIs(Here(), Reader(P.Read));
      GiveSpareCorresponds(Here(), p, value, o);
      Unfaulted(q', p);
      cs := spare;
      spare := Some(o);
      reader := FreeOld(value, cs);
      lay := q'.lay;
      assert Here() == q';
    }

    method FreeSpare(value: T, cs: Ptr)
      requires Valid() && reader == FreeOld(value, cs)
      modifies this
      ensures Valid() && p == old(p) && writer == old(writer)
      ensures Here() == Step(old(Here()), Reader(P.Read))
      ensures reader == ReaderPhase.At(P.ReaderIdle(P.GotItem(Some(value)))) && spare == old(spare)
              && beginPos == old(beginPos)
      ensures mem == old(mem) - (if cs.Some? then {cs.value} else {})
    {
      hide Corresponds, Step, P.WriterStep, P.ReaderStep, Cur, InChain, WriterView, ReaderView, W;
      ghost var q' := FreeOldStep(Here(), value, cs);
      StepIs(Here(), Reader(P.Read));
      FreeOldCorresponds(Here(), p, value, cs);
      Unfaulted(q', p);
      if cs.Some? { mem := mem - {cs.value}; }
      reader := ReaderPhase.At(P.ReaderIdle(P.GotItem(Some(value))));
      lay := q'.lay;
      assert Here() == q';
    }

    // ----- Interference -----

    // An address not in use: any one the caller wishes, if free.
    method Malloc(wish: nat) returns (a: nat)
      ensures a !in mem
    {
      a := wish;
      ghost var above := set k | k in mem && k >= a;
      while a in mem
        invariant above == set k | k in mem && k >= a
        decreases above
      {
        above := above - {a};
        a := a + 1;
      }
    }

    // One step of the reader, whatever it is at.
    method MoveReader(call: P.ReaderCall)
      requires Valid()
      modifies this
      ensures Valid() && writer == old(writer) && P.SameWriterSide(old(p), p)
      ensures Here() == Step(old(Here()), Reader(call))
    {
      hide Corresponds, Step, P.WriterStep, P.ReaderStep, P.Inv;
      if !(reader.At? && reader.phase.ReaderIdle?) { CallMatters(Here(), P.Read, call); }
      P.ReaderKeepsWriterSide(p, call);
      P.ReaderKeepsWriterSide(p, P.Read);
      match reader
      case At(phase) =>
        match phase {
          case ReaderIdle(_) => CallReader(call);
          case TestPrefetched(peek) => var _ := TestR(peek);
          case CasPrefetch(peek) => var _ := PrefetchFromC(peek);
          case CopyFront => var _ := CopyFrontValue();
          case AdvanceFront(value) => var _ := AdvanceBegin(value);
        }
      case MoveBegin(value) => var _ := MoveBeginChunk(value);
      case ClearPrev(value, o) => ClearBeginPrev(value, o);
      case GiveSpare(value, o) => var _ := SwapSpare(value, o);
      case FreeOld(value, cs) => FreeSpare(value, cs);
    }

    // One step of the writer, whatever it is at; the move says what the allocator would hand out.
    method MoveWriter(m: Move<T>)
      requires Valid() && m.Writer?
      modifies this
      ensures Valid() && reader == old(reader) && P.SameReaderSide(old(p), p) && P.KeepsCompleted(old(p), p)
      ensures Here() == Step(old(Here()), m)
    {
      hide Corresponds, Step, P.WriterStep, P.ReaderStep, P.KeepsCompleted, P.SameReaderSide, P.Inv, W;
      InvOf();
      Calls.WriterStepKeeps(p, m.wcall);
      Calls.WriterStepKeeps(p, P.Flush);
      if writer.At? { MoveVisible(m); } else { MoveChunks(m); }
    }

    lemma InvOf()
      requires Valid()
      ensures P.Inv(p) && p.writer == WriterView(writer) && p.reader == ReaderView(reader)
    {
    }

    method MoveVisible(m: Move<T>)
      requires Valid() && writer.At? && m.Writer?
      modifies this
      ensures Valid() && reader == old(reader)
      ensures p == P.WriterStep(old(p), m.wcall) || p == P.WriterStep(old(p), P.Flush)
      ensures Here() == Step(old(Here()), m)
    {
      hide Corresponds, Step, P.WriterStep, P.ReaderStep, P.Inv, W;
      SpaceMatters(Here(), W(m.wcall), m);
      if !writer.phase.WriterIdle? { SpaceMatters(Here(), W(P.Flush), m); }
      match writer.phase
      case WriterIdle(_) => CallWriter(m.wcall);
      case StoreValue(item) => StoreBack(item);
      case AdvanceBack(item) => var _ := AdvanceBackEnd(item);
      case MarkFlush(incomplete) => MarkCompleted(incomplete);
      case TestUnwrite => var _ := TestIncomplete();
      case RetreatBack => MoveBackBackwards();
      case RetreatEnd => var _ := MoveEndBackwards();
      case TakeValue => var _ := CopyBack();
      case TestFlush => var _ := TestUnflushed();
      case CasFlush => var _ := CasC();
      case SetFlush => SetC();
      case EndFlush(awake) => MoveW(awake);
    }

    method MoveChunks(m: Move<T>)
      requires Valid() && !writer.At? && m.Writer?
      modifies this
      ensures Valid() && reader == old(reader) && p == old(p)
      ensures Here() == Step(old(Here()), m)
    {
      hide Corresponds, Step, P.WriterStep, P.ReaderStep, P.Inv, W;
      if writer.LinkNext? {
        LinkOrAsk(m);
      } else {
        SpaceMatters(Here(), W(P.Flush), m);
        match writer
        case TakeSpare(incomplete) => var _ := ExchangeSpare(incomplete);
        case LinkPrev(incomplete) => LinkPrevChunk(incomplete);
        case MoveEnd(incomplete) => MoveEndChunk(incomplete);
        case FreeEnd => FreeObsolete();
        case ClearNext => ClearEndNext();
      }
    }

    method LinkOrAsk(m: Move<T>)
      requires Valid() && writer.LinkNext? && m.Writer?
      modifies this
      ensures Valid() && reader == old(reader) && p == old(p)
      ensures Here() == Step(old(Here()), m)
    {
      hide Corresponds, Step, P.WriterStep, P.ReaderStep, P.Inv, W;
      if writer.spared == None && (m.addr in mem || |m.junk.values| != n) {
        AsksAgain(Here(), p, m);
      } else {
        SpaceMatters(Here(), Writer(P.Flush, m.addr, m.junk), m);
        LinkNextChunk(writer.incomplete, writer.spared, m.addr, m.junk);
      }
    }

    // The reader moves while the writer is between two accesses.
    method ReaderMoves(gaps: seq<seq<Move<T>>>, g: nat, ghost q0: Pipe<T>)
      requires Valid() && Went(q0, Here(), 0, gaps, g)
      modifies this
      ensures Valid() && writer == old(writer) && P.SameWriterSide(old(p), p)
      ensures Went(q0, Here(), 0, gaps, g + 1)
      ensures g >= |gaps| ==> Here() == old(Here()) && p == old(p)
    {
      hide Corresponds, Went, Step, Run;
      ghost var q := Here();
      WentGap(q0, q, 0, gaps, g);
      if g < |gaps| {
        NoneIn<T>(0);
        RunNone(q);
        for i := 0 to |gaps[g]|
          invariant Valid() && writer == old(writer) && P.SameWriterSide(old(p), p)
          invariant Here() == Run(q, OthersIn(gaps[g][..i], 0))
        {
          OneMoreIn(gaps[g], i, 0);
          match gaps[g][i]
          case Reader(call) =>
            RunMore(q, OthersIn(gaps[g][..i], 0), Reader(call));
            MoveReader(call);
          case Writer(_, _, _) =>
        }
        assert gaps[g][..|gaps[g]|] == gaps[g];
      }
    }

    // The writer moves while the reader is between two accesses.
    method WriterMoves(gaps: seq<seq<Move<T>>>, g: nat, ghost q0: Pipe<T>)
      requires Valid() && Went(q0, Here(), 1, gaps, g)
      modifies this
      ensures Valid() && reader == old(reader) && P.SameReaderSide(old(p), p) && P.KeepsCompleted(old(p), p)
      ensures Went(q0, Here(), 1, gaps, g + 1)
      ensures g >= |gaps| ==> Here() == old(Here()) && p == old(p)
    {
      hide Corresponds, Went, Step, Run, P.Inv, P.WriterStep;
      ghost var q := Here();
      WentGap(q0, q, 1, gaps, g);
      InvOf();
      Calls.WriterStepKeeps(p, P.Flush);
      if g < |gaps| {
        NoneIn<T>(1);
        RunNone(q);
        for i := 0 to |gaps[g]|
          invariant Valid() && reader == old(reader) && P.SameReaderSide(old(p), p) && P.KeepsCompleted(old(p), p)
          invariant Here() == Run(q, OthersIn(gaps[g][..i], 1))
        {
          OneMoreIn(gaps[g], i, 1);
          ghost var before := p;
          if gaps[g][i].Writer? {
            RunMore(q, OthersIn(gaps[g][..i], 1), gaps[g][i]);
            MoveWriter(gaps[g][i]);
            Calls.KeepsTransitive(old(p), before, p);
          }
        }
        assert gaps[g][..|gaps[g]|] == gaps[g];
      }
    }

    // ----- The operations, each with the other thread moving in its gaps -----

    // queue.push(): the chunk work after back has moved on.
    method Push(incomplete: bool, full: bool, wish: nat, junk: Chunk<T>, gaps: seq<seq<Move<T>>>, g: nat,
                ghost q0: Pipe<T>)
      returns (next: nat)
      requires Valid() && |junk.values| == n && Went(q0, Here(), 0, gaps, g)
      requires writer == if full then TakeSpare(incomplete) else WriterPhase.At(P.MarkFlush(incomplete))
      modifies this
      ensures Valid() && P.SameWriterSide(old(p), p) && writer == WriterPhase.At(P.MarkFlush(incomplete))
      ensures Went(q0, Here(), 0, gaps, next)
      // Alone: a full chunk is followed by the spare, if there is one, and else by a new one.
      ensures full && gaps == [] && old(spare).Some? ==> mem.Keys == old(mem).Keys && Some(endChunk) == old(spare)
      ensures full && gaps == [] && old(spare).None? ==> endChunk !in old(mem) && mem.Keys == old(mem).Keys + {endChunk}
      ensures full && gaps == [] ==> spare == None && endPos == 0
    {
      hide Corresponds, Went, Step, Tag, W;
      next := g;
      if full {
        ReaderMoves(gaps, g, q0);
        ghost var was := Here();
        var sc := ExchangeSpare(incomplete);
        WriterWent(q0, was, W(P.Flush), gaps, g + 1);
        ReaderMoves(gaps, g + 1, q0);
        var a := Malloc(wish);
        was := Here();
        LinkNextChunk(incomplete, sc, a, junk);
        WriterWent(q0, was, Writer(P.Flush, a, junk), gaps, g + 2);
        next := EnterChunk(incomplete, gaps, g + 2, q0);
      }
    }

    // End moves into the chunk just linked behind it.
    method EnterChunk(incomplete: bool, gaps: seq<seq<Move<T>>>, g: nat, ghost q0: Pipe<T>) returns (next: nat)
      requires Valid() && writer == LinkPrev(incomplete) && Went(q0, Here(), 0, gaps, g)
      modifies this
      ensures Valid() && P.SameWriterSide(old(p), p) && writer == WriterPhase.At(P.MarkFlush(incomplete))
      ensures Went(q0, Here(), 0, gaps, next)
      ensures gaps == [] ==> mem.Keys == old(mem).Keys && spare == old(spare) && endPos == 0
      ensures gaps == [] && old(endChunk) in old(mem) ==> old(mem)[old(endChunk)].next == Some(endChunk)
    {
      hide Corresponds, Went, Step, Tag, W;
      ReaderMoves(gaps, g, q0);
      ghost var was := Here();
      LinkPrevChunk(incomplete);
      WriterWent(q0, was, W(P.Flush), gaps, g + 1);
      ReaderMoves(gaps, g + 1, q0);
      was := Here();
      MoveEndChunk(incomplete);
      WriterWent(q0, was, W(P.Flush), gaps, g + 2);
      next := g + 2;
    }

    method Write(value: T, incomplete: bool, wish: nat, junk: Chunk<T>, gaps: seq<seq<Move<T>>>)
      returns (ghost used: nat)
      requires Valid() && writer.At? && writer.phase.WriterIdle? && |junk.values| == n
      modifies this
      ensures Valid() && writer == WriterPhase.At(P.WriterIdle(P.Wrote))
      ensures p.log == old(p).log + [P.Item(value, incomplete)] && p.back == old(p).back + 1
      ensures p.f == (if incomplete then old(p).f else p.back) && p.w == old(p).w
      ensures Went(old(Here()), Here(), 0, gaps, used)
    {
      hide Corresponds, P.WriterStep, P.ReaderStep, P.Inv, Went, Step, Tag, W;
      var item := P.Item(value, incomplete);
      ghost var q0, was := Here(), Here();
      InvOf();
      Calls.WriterCallSteps(p, P.Write(item));
      WentNothing(q0, 0, gaps);
      CallWriter(P.Write(item));
      WriterWent(q0, was, W(P.Write(item)), gaps, 0);
      ReaderMoves(gaps, 0, q0);
      InvOf();
      Calls.WriteSteps(p, P.Flush);
      was := Here();
      StoreBack(item);
      WriterWent(q0, was, W(P.Flush), gaps, 1);
      ReaderMoves(gaps, 1, q0);
      InvOf();
      Calls.WriteSteps(p, P.Flush);
      was := Here();
      var full := AdvanceBackEnd(item);
      WriterWent(q0, was, W(P.Flush), gaps, 2);
      var g := Push(incomplete, full, wish, junk, gaps, 2, q0);
      ReaderMoves(gaps, g, q0);
      InvOf();
      Calls.WriteSteps(p, P.Flush);
      was := Here();
      MarkCompleted(incomplete);
      WriterWent(q0, was, W(P.Flush), gaps, g + 1);
      used := g + 1;
    }

    // queue.unpush(): back and end move one element backwards.
    method Unpush(gaps: seq<seq<Move<T>>>, g: nat, ghost q0: Pipe<T>) returns (next: nat)
      requires Valid() && writer == WriterPhase.At(P.RetreatBack) && Went(q0, Here(), 0, gaps, g)
      modifies this
      ensures Valid() && writer == WriterPhase.At(P.TakeValue) && Went(q0, Here(), 0, gaps, next)
      ensures old(p).back > old(p).f && old(p).back == |old(p).log|
      ensures p.back == old(p).back - 1 && p.log == old(p).log[..old(p).back - 1] && p.f == old(p).f && p.w == old(p).w
      ensures p.removed == Some(old(p).log[old(p).back - 1].value)
    {
      hide Corresponds, P.WriterStep, P.ReaderStep, P.Inv, Went, Step, Tag, W;
      InvOf();
      Calls.UnwriteSteps(p, P.Flush);
      ReaderMoves(gaps, g, q0);
      InvOf();
      Calls.UnwriteSteps(p, P.Flush);
      ghost var was := Here();
      MoveBackBackwards();
      WriterWent(q0, was, W(P.Flush), gaps, g + 1);
      ReaderMoves(gaps, g + 1, q0);
      InvOf();
      Calls.UnwriteSteps(p, P.Flush);
      was := Here();
      var obsolete := MoveEndBackwards();
      WriterWent(q0, was, W(P.Flush), gaps, g + 2);
      next := g + 2;
      if obsolete { next := DropObsolete(gaps, g + 2, q0); }
    }

    // The chunk end has left is freed.
    method DropObsolete(gaps: seq<seq<Move<T>>>, g: nat, ghost q0: Pipe<T>) returns (next: nat)
      requires Valid() && writer == FreeEnd && Went(q0, Here(), 0, gaps, g)
      modifies this
      ensures Valid() && writer == WriterPhase.At(P.TakeValue) && P.SameWriterSide(old(p), p)
      ensures Went(q0, Here(), 0, gaps, next) && next == g + 2
    {
      hide Corresponds, P.WriterStep, P.ReaderStep, P.Inv, Went, Step, Tag, W;
      ReaderMoves(gaps, g, q0);
      ghost var was := Here();
      FreeObsolete();
      WriterWent(q0, was, W(P.Flush), gaps, g + 1);
      ReaderMoves(gaps, g + 1, q0);
      was := Here();
      ClearEndNext();
      WriterWent(q0, was, W(P.Flush), gaps, g + 2);
      next := g + 2;
    }

    // unwrite: nothing when every item is complete; otherwise the last item comes back.
    method Unwrite(gaps: seq<seq<Move<T>>>) returns (result: Option<T>, ghost used: nat)
      requires Valid() && writer.At? && writer.phase.WriterIdle?
      modifies this
      ensures Valid() && writer == WriterPhase.At(P.WriterIdle(P.Unwrote(result)))
      ensures result == None <==> old(p).f == old(p).back
      ensures old(p).back == |old(p).log| && old(p).f <= old(p).back
      ensures result.Some? ==> result.value == old(p).log[|old(p).log| - 1].value
      ensures p.log == if result.Some? then old(p).log[..|old(p).log| - 1] else old(p).log
      ensures p.back == |p.log| && p.f == old(p).f && p.w == old(p).w
      ensures Went(old(Here()), Here(), 0, gaps, used)
    {
      hide Corresponds, P.WriterStep, P.ReaderStep, P.Inv, Went, Step, Tag, W;
      ghost var q0, was := Here(), Here();
      InvOf();
      Calls.WriterCallSteps(p, P.Unwrite);
      Calls.UnwriteSteps(p, P.Flush);
      WentNothing(q0, 0, gaps);
      CallWriter(P.Unwrite);
      WriterWent(q0, was, W(P.Unwrite), gaps, 0);
      ReaderMoves(gaps, 0, q0);
      InvOf();
      Calls.UnwriteSteps(p, P.Flush);
      was := Here();
      var some := TestIncomplete();
      WriterWent(q0, was, W(P.Flush), gaps, 1);
      InvOf();
      Calls.UnwriteSteps(p, P.Flush);
      if !some { return None, 1; }
      var value;
      value, used := TakeBack(gaps, 1, q0);
      result := Some(value);
    }

    // The last item comes off the queue and is copied out.
    method TakeBack(gaps: seq<seq<Move<T>>>, g: nat, ghost q0: Pipe<T>) returns (value: T, ghost next: nat)
      requires Valid() && writer == WriterPhase.At(P.RetreatBack) && Went(q0, Here(), 0, gaps, g)
      modifies this
      ensures Valid() && writer == WriterPhase.At(P.WriterIdle(P.Unwrote(Some(value))))
      ensures Went(q0, Here(), 0, gaps, next)
      ensures old(p).back > old(p).f && old(p).back == |old(p).log| && value == old(p).log[|old(p).log| - 1].value
      ensures p.log == old(p).log[..|old(p).log| - 1] && p.back == |p.log| && p.f == old(p).f && p.w == old(p).w
    {
      hide Corresponds, P.WriterStep, P.ReaderStep, P.Inv, Went, Step, Tag, W;
      var m := Unpush(gaps, g, q0);
      ReaderMoves(gaps, m, q0);
      InvOf();
      Calls.UnwriteSteps(p, P.Flush);
      ghost var was := Here();
      value := CopyBack();
      WriterWent(q0, was, W(P.Flush), gaps, m + 1);
      InvOf();
      Calls.UnwriteSteps(p, P.Flush);
      next := m + 1;
    }

    // flush: everything completed is published; false exactly when the plain store was needed.
    method Flush(gaps: seq<seq<Move<T>>>) returns (awake: bool, ghost used: nat)
      requires Valid() && writer.At? && writer.phase.WriterIdle?
      modifies this
      ensures Valid() && writer == WriterPhase.At(P.WriterIdle(P.Flushed(awake)))
      ensures p.w == p.f == old(p).f && p.log == old(p).log && p.back == old(p).back
      ensures p.wakes == old(p).wakes + if awake then 0 else 1
      ensures old(p).w == old(p).f ==> awake
      ensures Went(old(Here()), Here(), 0, gaps, used)
    {
      hide Corresponds, P.WriterStep, P.ReaderStep, P.Inv, Went, Step, Tag, W;
      ghost var q0, was := Here(), Here();
      InvOf();
      Calls.WriterCallSteps(p, P.Flush);
      WentNothing(q0, 0, gaps);
      CallWriter(P.Flush);
      WriterWent(q0, was, W(P.Flush), gaps, 0);
      ReaderMoves(gaps, 0, q0);
      InvOf();
      Calls.FlushSteps(p, P.Flush);
      was := Here();
      var some := TestUnflushed();
      WriterWent(q0, was, W(P.Flush), gaps, 1);
      InvOf();
      Calls.FlushSteps(p, P.Flush);
      if !some { return true, 1; }
      var g;
      awake, g := PublishInC(gaps, 1, q0);
      ReaderMoves(gaps, g, q0);
      InvOf();
      Calls.FlushSteps(p, P.Flush);
      was := Here();
      MoveW(awake);
      WriterWent(q0, was, W(P.Flush), gaps, g + 1);
      used := g + 1;
    }

    // The compare-and-swap on c and, if it fails, the plain store.
    method PublishInC(gaps: seq<seq<Move<T>>>, g: nat, ghost q0: Pipe<T>) returns (awake: bool, next: nat)
      requires Valid() && writer == WriterPhase.At(P.CasFlush) && Went(q0, Here(), 0, gaps, g)
      modifies this
      ensures Valid() && writer == WriterPhase.At(P.EndFlush(awake)) && Went(q0, Here(), 0, gaps, next)
      ensures p.f == old(p).f && p.log == old(p).log && p.back == old(p).back
      ensures p.wakes == old(p).wakes + if awake then 0 else 1
    {
      hide Corresponds, P.WriterStep, P.ReaderStep, P.Inv, Went, Step, Tag, W;
      ReaderMoves(gaps, g, q0);
      InvOf();
      Calls.FlushSteps(p, P.Flush);
      ghost var was := Here();
      awake := CasC();
      WriterWent(q0, was, W(P.Flush), gaps, g + 1);
      next := g + 1;
      if !awake {
        ReaderMoves(gaps, g + 1, q0);
        InvOf();
        Calls.FlushSteps(p, P.Flush);
        was := Here();
        SetC();
        WriterWent(q0, was, W(P.Flush), gaps, g + 2);
        next := g + 2;
      }
    }

    // check_read: when it finds nothing, everything published before the call has been read; when it
    // finds something, there is an item to read.
    method CheckRead(peek: bool, gaps: seq<seq<Move<T>>>, ghost q0: Pipe<T>) returns (some: bool, next: nat)
      requires Valid() && reader == ReaderPhase.At(P.TestPrefetched(peek)) && Went(q0, Here(), 1, gaps, 0)
      modifies this
      ensures Valid() && Went(q0, Here(), 1, gaps, next)
      ensures reader == ReaderPhase.At(if some then (if peek then P.ReaderIdle(P.Checked(true)) else P.CopyFront)
                                       else P.ReaderIdle(if peek then P.Checked(false) else P.GotItem(None)))
      ensures some ==> p.r.Some? && p.front < p.r.value <= P.Published(p) <= |p.log|
      ensures p.delivered == old(p).delivered && p.front == old(p).front && P.KeepsCompleted(old(p), p)
      ensures !some ==> P.Published(old(p)) <= p.front
    {
      hide Corresponds, P.WriterStep, P.ReaderStep, P.KeepsCompleted, P.Inv, Went, Step, Tag, W;
      ghost var p0 := p;
      WriterMoves(gaps, 0, q0);
      InvOf();
      Calls.ReadSteps(p, P.Read);
      ghost var p1, was := p, Here();
      some := TestR(peek);
      ReaderWent(q0, was, Reader(P.Read), gaps, 1);
      Calls.KeepsTransitive(p0, p1, p);
      InvOf();
      if some {
        Calls.FoundMeans(p);
        return true, 1;
      }
      p1 := p;
      WriterMoves(gaps, 1, q0);
      Calls.KeepsTransitive(p0, p1, p);
      InvOf();
      Calls.ReadSteps(p, P.Read);
      p1, was := p, Here();
      some := PrefetchFromC(peek);
      ReaderWent(q0, was, Reader(P.Read), gaps, 2);
      Calls.KeepsTransitive(p0, p1, p);
      InvOf();
      Calls.ReadSteps(p, P.Read);
      if some { Calls.FoundMeans(p); }
      next := 2;
    }

    // The call of check_read by itself.
    method Check(gaps: seq<seq<Move<T>>>) returns (available: bool, ghost used: nat)
      requires Valid() && reader.At? && reader.phase.ReaderIdle?
      modifies this
      ensures Valid() && reader == ReaderPhase.At(P.ReaderIdle(P.Checked(available)))
      ensures if available then p.front < P.Published(p) else P.Published(old(p)) <= p.front
      ensures p.delivered == old(p).delivered && p.front == old(p).front && P.KeepsCompleted(old(p), p)
      ensures Went(old(Here()), Here(), 1, gaps, used)
    {
      hide Corresponds, P.WriterStep, P.ReaderStep, P.KeepsCompleted, P.Inv, Went, Step, Tag, W;
      ghost var p0, q0 := p, Here();
      InvOf();
      Calls.ReaderCallSteps(p, P.CheckRead);
      WentNothing(q0, 1, gaps);
      CallReader(P.CheckRead);
      ReaderWent(q0, q0, Reader(P.CheckRead), gaps, 0);
      ghost var p1 := p;
      available, used := CheckRead(true, gaps, q0);
      Calls.KeepsTransitive(p0, p1, p);
    }

    // Writing an incomplete item and taking it back changes nothing, whatever the reader did meanwhile.
    method WriteThenUnwrite(value: T, wish: nat, junk: Chunk<T>, gaps: seq<seq<Move<T>>>, more: seq<seq<Move<T>>>)
      returns (result: Option<T>)
      requires Valid() && writer.At? && writer.phase.WriterIdle? && |junk.values| == n
      modifies this
      ensures Valid() && result == Some(value)
      ensures p.log == old(p).log && p.back == old(p).back && p.f == old(p).f && p.w == old(p).w
    {
      hide Corresponds, Went;
      InvOf();
      Calls.UnwriteSteps(p, P.Flush);
      ghost var used := Write(value, true, wish, junk, gaps);
      result, used := Unwrite(more);
    }

    // queue.pop(): the chunk work after begin has moved past the last element.
    method Pop(value: T, usedUp: bool, gaps: seq<seq<Move<T>>>, g: nat, ghost q0: Pipe<T>) returns (ghost next: nat)
      requires Valid() && Went(q0, Here(), 1, gaps, g)
      requires reader == if usedUp then MoveBegin(value) else ReaderPhase.At(P.ReaderIdle(P.GotItem(Some(value))))
      modifies this
      ensures Valid() && reader == ReaderPhase.At(P.ReaderIdle(P.GotItem(Some(value))))
      ensures P.SameReaderSide(old(p), p) && P.KeepsCompleted(old(p), p)
      ensures Went(q0, Here(), 1, gaps, next)
      // Alone: the used-up chunk becomes the spare, and what was spare before is freed.
      ensures usedUp && gaps == [] ==> spare == Some(old(beginChunk)) && beginPos == 0
      ensures usedUp && gaps == [] ==> mem.Keys == old(mem).Keys - (if old(spare).Some? then {old(spare).value} else {})
    {
      hide Corresponds, P.KeepsCompleted, P.Inv, Went, Step, Tag, W;
      ghost var p0, p1 := p, p;
      InvOf();
      Calls.WriterStepKeeps(p, P.Flush);
      next := g;
      if usedUp {
        WriterMoves(gaps, g, q0);
        ghost var was := Here();
        var o := MoveBeginChunk(value);
        ReaderWent(q0, was, Reader(P.Read), gaps, g + 1);
        p1 := p;
        WriterMoves(gaps, g + 1, q0);
        Calls.KeepsTransitive(p0, p1, p);
        was := Here();
        ClearBeginPrev(value, o);
        ReaderWent(q0, was, Reader(P.Read), gaps, g + 2);
        p1 := p;
        WriterMoves(gaps, g + 2, q0);
        Calls.KeepsTransitive(p0, p1, p);
        was := Here();
        var cs := SwapSpare(value, o);
        ReaderWent(q0, was, Reader(P.Read), gaps, g + 3);
        p1 := p;
        WriterMoves(gaps, g + 3, q0);
        Calls.KeepsTransitive(p0, p1, p);
        was := Here();
        FreeSpare(value, cs);
        ReaderWent(q0, was, Reader(P.Read), gaps, g + 4);
        next := g + 4;
      }
    }

    // The front item is copied out and begin moves past it.
    method TakeFront(gaps: seq<seq<Move<T>>>, g: nat, ghost q0: Pipe<T>) returns (value: T, usedUp: bool)
      requires Valid() && reader == ReaderPhase.At(P.CopyFront) && Went(q0, Here(), 1, gaps, g)
      modifies this
      ensures Valid() && Went(q0, Here(), 1, gaps, g + 2)
      ensures reader == if usedUp then MoveBegin(value) else ReaderPhase.At(P.ReaderIdle(P.GotItem(Some(value))))
      ensures p.delivered == old(p).delivered + [value] && p.front == old(p).front + 1 && P.KeepsCompleted(old(p), p)
    {
      hide Corresponds, P.WriterStep, P.ReaderStep, P.KeepsCompleted, P.Inv, Went, Step, Tag, W;
      ghost var p0 := p;
      WriterMoves(gaps, g, q0);
      InvOf();
      Calls.ReadSteps(p, P.Read);
      ghost var p1, was := p, Here();
      value := CopyFrontValue();
      ReaderWent(q0, was, Reader(P.Read), gaps, g + 1);
      Calls.KeepsTransitive(p0, p1, p);
      p1 := p;
      WriterMoves(gaps, g + 1, q0);
      Calls.KeepsTransitive(p0, p1, p);
      InvOf();
      Calls.ReadSteps(p, P.Read);
      p1, was := p, Here();
      usedUp := AdvanceBegin(value);
      ReaderWent(q0, was, Reader(P.Read), gaps, g + 2);
      Calls.KeepsTransitive(p0, p1, p);
    }

    // read: the next item in write order, or nothing when everything published before
    // the call has been read.
    method Read(gaps: seq<seq<Move<T>>>) returns (result: Option<T>, ghost used: nat)
      requires Valid() && reader.At? && reader.phase.ReaderIdle?
      modifies this
      ensures Valid() && reader == ReaderPhase.At(P.ReaderIdle(P.GotItem(result)))
      ensures result.Some? ==> p.delivered == old(p).delivered + [result.value] && p.front == old(p).front + 1
      ensures result.Some? ==> old(p).front < |p.log| && result.value == p.log[old(p).front].value
      ensures result.None? ==> p.delivered == old(p).delivered && P.Published(old(p)) <= p.front == old(p).front
      ensures P.KeepsCompleted(old(p), p)
      ensures Went(old(Here()), Here(), 1, gaps, used)
    {
      hide Corresponds, P.WriterStep, P.ReaderStep, P.KeepsCompleted, P.Inv, Went, Step, Tag, W;
      ghost var p0, p1, q0, was := p, p, Here(), Here();
      InvOf();
      Calls.DeliveredAt(p, 0);
      InvOf();
      Calls.ReaderCallSteps(p, P.Read);
      WentNothing(q0, 1, gaps);
      CallReader(P.Read);
      ReaderWent(q0, was, Reader(P.Read), gaps, 0);
      p1 := p;
      var some, g := CheckRead(false, gaps, q0);
      Calls.KeepsTransitive(p0, p1, p);
      if !some { return None, g; }
      p1 := p;
      var value, usedUp := TakeFront(gaps, g, q0);
      Calls.KeepsTransitive(p0, p1, p);
      InvOf();
      Calls.DeliveredAt(p, p0.front);
      p1 := p;
      used := Pop(value, usedUp, gaps, g + 2, q0);
      Calls.KeepsTransitive(p0, p1, p);
      InvOf();
      Calls.DeliveredAt(p, p0.front);
      result := Some(value);
    }

    // ----- Life and death -----

    // The constructor: the first chunk, and the first push, which puts the terminator at its
    // first element; with one element to a chunk that fills it and takes a second chunk.
    constructor (n: nat, a: nat, b: nat, junkA: Chunk<T>, junkB: Chunk<T>)
      requires n > 0 && a != b && |junkA.values| == |junkB.values| == n
      ensures Valid() && p == P.Init<T>() && this.n == n
      ensures writer == WriterPhase.At(P.WriterIdle(P.NoWrite)) && reader == ReaderPhase.At(P.ReaderIdle(P.NoRead))
      ensures Cursor(beginChunk, beginPos) == Cursor(backChunk, backPos) == w == f && r == c == Some(w) && spare == None
    {
      this.n := n;
      mem := map[a := junkA];
      beginChunk, beginPos := a, 0;
      backChunk, backPos := a, 0;
      endChunk, endPos := a, 1;
      spare := None;
      r, w, f, c := Some(Cursor(a, 0)), Cursor(a, 0), Cursor(a, 0), Some(Cursor(a, 0));
      writer, reader := WriterPhase.At(P.WriterIdle(P.NoWrite)), ReaderPhase.At(P.ReaderIdle(P.NoRead));
      lay := Layout(n, [a], 0);
      p := P.Init();
      if n == 1 {
        mem := map[a := junkA.(next := Some(b)), b := junkB.(prev := Some(a))];
        endChunk, endPos := b, 0;
        lay := Layout(n, [a, b], 0);
      }
      new;
      hide Corresponds, P.Init;
      assert Here() == Start(n, a, b, junkA, junkB);
      StartCorresponds(n, a, b, junkA, junkB);
    }

    // The destructor, called when both threads are done: every chunk is freed once, none is left.
    method Destroy()
      requires Valid() && writer.At? && writer.phase.WriterIdle? && reader.At? && reader.phase.ReaderIdle?
      modifies this
      ensures mem == map[] && spare == None
    {
      hide Corresponds, Remaining;
      ChainAtRest();
      ghost var chain, i := lay.chain, 0;
      while beginChunk != endChunk
        invariant 0 <= i < |chain| && beginChunk == chain[i] && endChunk == chain[|chain| - 1]
        invariant Remaining(chain, i, mem, spare)
        decreases |chain| - i
      {
        FreeFirst(chain, i, mem, spare);
        var o := beginChunk;
        beginChunk := mem[beginChunk].next.value;
        mem := mem - {o};
        i := i + 1;
      }
      FreeLast(chain, i, mem, spare);
      mem := mem - {beginChunk};
      var sc := spare;
      spare := None;
      if sc.Some? { mem := mem - {sc.value}; }
    }

    lemma ChainAtRest()
      requires Valid() && writer.At? && writer.phase.WriterIdle? && reader.At? && reader.phase.ReaderIdle?
      ensures lay.chain != [] && beginChunk == lay.chain[0] && endChunk == lay.chain[|lay.chain| - 1]
      ensures Remaining(lay.chain, 0, mem, spare)
    {
      hide P.Inv, Values, Pointers, Place;
    }
  }
}
