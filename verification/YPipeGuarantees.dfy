// What every run of the pointer machine keeps: it refines the pipe on positions, every chunk is in
// one place, and the two threads do not meet.
module ChunkGuarantees {
  import opened Wrappers
  import P = PipePositions
  import opened ChunkPipe

  // The moves of a schedule that the position machine sees.
  function Shadow<T>(q: Pipe<T>, schedule: seq<Move<T>>): seq<P.Move<T>>
    decreases |schedule|
  {
    if schedule == [] then []
    else (if Unseen(q, schedule[0]) then [] else [Seen(schedule[0])]) + Shadow(Step(q, schedule[0]), schedule[1..])
  }

  lemma {:induction false} RunCorresponds<T>(q: Pipe<T>, p: P.Pipe<T>, schedule: seq<Move<T>>)
    requires Corresponds(q, p)
    ensures Corresponds(Run(q, schedule), P.Run(p, Shadow(q, schedule)))
    decreases |schedule|
  {
    hide Corresponds, Step, P.Step;
    if schedule != [] {
      var m := schedule[0];
      StepCorresponds(q, p, m);
      var p1 := if Unseen(q, m) then p else P.Step(p, Seen(m));
      RunCorresponds(Step(q, m), p1, schedule[1..]);
      var rest := Shadow(Step(q, m), schedule[1..]);
      if Unseen(q, m) {
        assert Shadow(q, schedule) == rest;
      } else {
        assert Shadow(q, schedule) == [Seen(m)] + rest;
        assert ([Seen(m)] + rest)[1..] == rest;
      }
    }
  }

  // ---------- What every run of the pointer machine keeps ----------

  // Every run on pointers is a run on positions; along it each pointer is the address of its
  // position, so that every comparison of pointers is the comparison of positions.
  lemma PointersRefinePositions<T>(n: nat, a: nat, b: nat, junkA: Chunk<T>, junkB: Chunk<T>, schedule: seq<Move<T>>)
    requires n > 0 && a != b && |junkA.values| == |junkB.values| == n
    ensures var q0 := Start(n, a, b, junkA, junkB);
            var (q, p) := (Run(q0, schedule), P.Run(P.Init<T>(), Shadow(q0, schedule)));
            && WriterView(q.writer) == p.writer && ReaderView(q.reader) == p.reader
            && (q.f == q.Back() <==> p.f == p.back)
            && (!p.writer.EndFlush? ==> (q.w == q.f <==> p.w == p.f) && (q.c == Some(q.w) <==> p.c == Some(p.w)))
            && (q.reader.At? ==> (q.r == Some(q.Front()) <==> p.r == Some(p.front)))
            && (q.reader.At? ==> (q.c == Some(q.Front()) <==> p.c == Some(p.front)))
            && (q.r == None <==> p.r == None) && (q.c == None <==> p.c == None)
  {
    var q0 := Start(n, a, b, junkA, junkB);
    StartCorresponds(n, a, b, junkA, junkB);
    RunCorresponds(q0, P.Init<T>(), schedule);
    var q, p := Run(q0, schedule), P.Run(P.Init<T>(), Shadow(q0, schedule));
    CompareAll(q, p);
    NullsAgree(q, p);
    if q.reader.At? { CompareFront(q, p); }
    hide *;
  }

  // No step of any run touches or frees memory that is not allocated, and every allocated
  // chunk is in exactly one place: the chain, the spare, or one thread's hand.
  lemma ChunksAccountedFor<T>(n: nat, a: nat, b: nat, junkA: Chunk<T>, junkB: Chunk<T>, schedule: seq<Move<T>>)
    requires n > 0 && a != b && |junkA.values| == |junkB.values| == n
    ensures var q := Run(Start(n, a, b, junkA, junkB), schedule);
            !q.fault && Places(q.lay, q.mem, q.spare, WriterHand(q.writer), ReaderHand(q.reader))
  {
    var q0 := Start(n, a, b, junkA, junkB);
    StartCorresponds(n, a, b, junkA, junkB);
    RunCorresponds(q0, P.Init<T>(), schedule);
    hide Places;
  }

  // ---------- What unpush frees ----------

  ghost predicate ReadersOnly<T>(schedule: seq<Move<T>>)
  {
    forall i | 0 <= i < |schedule| :: schedule[i].Reader?
  }

  // While the writer is about to free the chunk behind end, the reader's steps leave that chunk last.
  lemma {:induction false} LastStaysLast<T>(q: Pipe<T>, p: P.Pipe<T>, schedule: seq<Move<T>>, last: nat)
    requires Corresponds(q, p) && q.writer == FreeEnd && ReadersOnly(schedule)
    requires |q.lay.chain| >= 2 && q.lay.chain[|q.lay.chain| - 1] == last
    ensures var r := Run(q, schedule);
            && r.writer == FreeEnd && r.endChunk == q.endChunk && last in r.mem
            && r.endChunk in r.mem && r.mem[r.endChunk].next == Some(last)
    decreases |schedule|
  {
    hide Corresponds, Step;
    if schedule == [] {
      EndLinksLast(q, p);
    } else {
      assert schedule[0].Reader?;
      var q1 := Step(q, schedule[0]);
      var p1 := if Unseen(q, schedule[0]) then p else P.Step(p, Seen(schedule[0]));
      StepCorresponds(q, p, schedule[0]);
      ReaderLeavesLast(q, p, schedule[0].rcall);
      LongEnough(q1, p1);
      assert ReadersOnly(schedule[1..]);
      LastStaysLast(q1, p1, schedule[1..], last);
    }
  }

  // Stepping end back across a chunk border frees exactly the chunk end was in, whatever the reader
  // does between the step back and the call of `free`.
  lemma UnpushFreesEnd<T>(q: Pipe<T>, p: P.Pipe<T>, readers: seq<Move<T>>)
    requires Corresponds(q, p) && q.writer == WriterPhase.At(P.RetreatEnd) && q.endPos == 0 && ReadersOnly(readers)
    ensures var m := Run(RetreatEnd(q), readers);
            && q.endChunk in m.mem && m.writer == FreeEnd && !FreeEndStep(m).fault
            && FreeEndStep(m).mem == m.mem - {q.endChunk}
  {
    hide Corresponds, Run;
    var q1, p1 := RetreatEnd(q), P.WriterStep(p, P.Flush);
    RetreatEndStep(q, p, P.Flush);
    EndIsLast(q, p);
    Unfaulted(q1, p1);
    LongEnough(q1, p1);
    LastStaysLast(q1, p1, readers, q.endChunk);
    var m := Run(q1, readers);
    RunCorresponds(q1, p1, readers);
    var pm := P.Run(p1, Shadow(q1, readers));
    Unfaulted(m, pm);
    FreeEndCorresponds(m, pm);
    Unfaulted(FreeEndStep(m), pm);
  }

  // ---------- The threads never meet on a link or an element ----------

  // Around each link or element one thread is about to write, the other is elsewhere.
  ghost predicate Apart<T>(q: Pipe<T>)
  {
    // the element being written is not the one being read
    && (q.writer.At? && q.writer.phase.StoreValue? && q.reader.At? && q.reader.phase.CopyFront? ==>
         q.Back() != q.Front())
    // the links unpush follows are there, and are not the ones pop clears
    && (q.writer.At? && q.writer.phase.RetreatBack? && q.backPos == 0 ==>
          q.backChunk != q.beginChunk && q.backChunk in q.mem && q.mem[q.backChunk].prev.Some?
          && q.mem[q.backChunk].prev.value in q.mem)
    && (q.writer.At? && q.writer.phase.RetreatEnd? && q.endPos == 0 ==>
          q.endChunk != q.beginChunk && q.endChunk in q.mem && q.mem[q.endChunk].prev.Some?
          && q.mem[q.endChunk].prev.value in q.mem)
    // the link pop follows is not one the writer is setting or clearing
    && (q.reader.MoveBegin? && (q.writer.LinkNext? || q.writer.ClearNext?) ==> q.endChunk != q.beginChunk)
    // the prev link the writer sets is not the one the reader clears
    && (q.writer.LinkPrev? && q.reader.ClearPrev? ==>
          q.endChunk in q.mem && q.mem[q.endChunk].next.Some? && q.mem[q.endChunk].next != Some(q.beginChunk))
  }

  lemma CorrespondsApart<T>(q: Pipe<T>, p: P.Pipe<T>)
    requires Corresponds(q, p)
    ensures Apart(q)
  {
    hide Corresponds;
    ElementsApart(q, p);
    BackLinkThere(q, p);
    EndLinkThere(q, p);
    BeginLinkApart(q, p);
    PrevLinksApart(q, p);
  }

  lemma ThreadsStayApart<T>(n: nat, a: nat, b: nat, junkA: Chunk<T>, junkB: Chunk<T>, schedule: seq<Move<T>>)
    requires n > 0 && a != b && |junkA.values| == |junkB.values| == n
    ensures Apart(Run(Start(n, a, b, junkA, junkB), schedule))
  {
    var q0 := Start(n, a, b, junkA, junkB);
    StartCorresponds(n, a, b, junkA, junkB);
    RunCorresponds(q0, P.Init<T>(), schedule);
    CorrespondsApart(Run(q0, schedule), P.Run(P.Init<T>(), Shadow(q0, schedule)));
    hide *;
  }
}
