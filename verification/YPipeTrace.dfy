// The moves of both threads on the pipe in one sequence, and what one call contributed to it: its own
// accesses, with all the moves of the other thread in the gaps between them, none left out.
module PipeTrace {
  import opened Wrappers
  import opened Interference
  import P = PipePositions
  import opened ChunkPipe

  // The writer is thread 0, the reader thread 1.
  function Tag<T>(m: Move<T>): (nat, Move<T>) { (if m.Writer? then 0 else 1, m) }

  function Tagged<T>(q: seq<Move<T>>): (r: seq<(nat, Move<T>)>)
    ensures |r| == |q| && forall i | 0 <= i < |q| :: r[i] == Tag(q[i])
  {
    seq(|q|, i requires 0 <= i < |q| => Tag(q[i]))
  }

  function AllTagged<T>(gaps: seq<seq<Move<T>>>): (r: seq<seq<(nat, Move<T>)>>)
    ensures |r| == |gaps| && forall i | 0 <= i < |gaps| :: r[i] == Tagged(gaps[i])
  {
    seq(|gaps|, i requires 0 <= i < |gaps| => Tagged(gaps[i]))
  }

  // The moves in `q` of the other thread than `t`.
  function OthersIn<T>(q: seq<Move<T>>, t: nat): seq<Move<T>>
  {
    if q == [] then []
    else OthersIn(q[..|q| - 1], t) + if Tag(q[|q| - 1]).0 == t then [] else [q[|q| - 1]]
  }

  predicate AnyMove<T>(m: Move<T>) { true }

  // A move of the writer that needs no memory.
  function W<T>(call: P.WriterCall<T>): (m: Move<T>)
    ensures m.Writer? && m.wcall == call
  {
    Writer(call, 0, Chunk([], None, None))
  }

  // From `q0` to `q` thread `t` moved, and the other made all the moves of the first `used` gaps.
  ghost predicate Went<T(!new)>(q0: Pipe<T>, q: Pipe<T>, t: nat, gaps: seq<seq<Move<T>>>, used: nat)
  {
    exists moves :: WentBy(q0, q, moves, t, gaps, used)
  }

  ghost predicate WentBy<T(!new)>(q0: Pipe<T>, q: Pipe<T>, moves: seq<Move<T>>, t: nat, gaps: seq<seq<Move<T>>>,
                                     used: nat)
  {
    q == Run(q0, moves) && Ran([], Tagged(moves), t, AnyMove, AllTagged(gaps), used)
  }

  lemma TaggedConcat<T>(a: seq<Move<T>>, b: seq<Move<T>>)
    ensures Tagged(a + b) == Tagged(a) + Tagged(b)
  {
  }

  lemma {:induction false} OthersTagged<T>(q: seq<Move<T>>, t: nat)
    ensures Tagged(OthersIn(q, t)) == OthersOf(Tagged(q), t)
  {
    if q != [] {
      var n := |q| - 1;
      OthersTagged(q[..n], t);
      OneMore(Tagged(q), n, t);
      assert Tagged(q)[..n] == Tagged(q[..n]) && Tagged(q)[..n + 1] == Tagged(q);
      TaggedConcat(OthersIn(q[..n], t), if Tag(q[n]).0 == t then [] else [q[n]]);
    }
  }

  lemma WentNothing<T(!new)>(q: Pipe<T>, t: nat, gaps: seq<seq<Move<T>>>)
    ensures Went(q, q, t, gaps, 0)
  {
    hide Ran;
    RanNothing([], t, AnyMove<T>, AllTagged(gaps));
    assert Tagged<T>([]) == [];
    assert WentBy(q, q, [], t, gaps, 0);
  }

  lemma WentStep<T(!new)>(q0: Pipe<T>, q: Pipe<T>, m: Move<T>, gaps: seq<seq<Move<T>>>, used: nat)
    requires Went(q0, q, Tag(m).0, gaps, used)
    ensures Went(q0, Step(q, m), Tag(m).0, gaps, used)
  {
    hide Ran, Run, Step;
    var moves :| WentBy(q0, q, moves, Tag(m).0, gaps, used);
    RanStep([], Tagged(moves), Tag(m).0, AnyMove, AllTagged(gaps), used, m);
    assert Tagged(moves + [m]) == Tagged(moves) + [Tag(m)];
    RunMore(q0, moves, m);
    assert WentBy(q0, Step(q, m), moves + [m], Tag(m).0, gaps, used);
  }

  lemma WriterWent<T(!new)>(q0: Pipe<T>, q: Pipe<T>, m: Move<T>, gaps: seq<seq<Move<T>>>, used: nat)
    requires m.Writer? && Went(q0, q, 0, gaps, used)
    ensures Went(q0, Step(q, m), 0, gaps, used)
  {
    hide Went, Step;
    WentStep(q0, q, m, gaps, used);
  }

  lemma ReaderWent<T(!new)>(q0: Pipe<T>, q: Pipe<T>, m: Move<T>, gaps: seq<seq<Move<T>>>, used: nat)
    requires m.Reader? && Went(q0, q, 1, gaps, used)
    ensures Went(q0, Step(q, m), 1, gaps, used)
  {
    hide Went, Step;
    WentStep(q0, q, m, gaps, used);
  }

  lemma WentGap<T(!new)>(q0: Pipe<T>, q: Pipe<T>, t: nat, gaps: seq<seq<Move<T>>>, used: nat)
    requires Went(q0, q, t, gaps, used)
    ensures Went(q0, if used < |gaps| then Run(q, OthersIn(gaps[used], t)) else q, t, gaps, used + 1)
  {
    hide Ran, Run, Step;
    var moves :| WentBy(q0, q, moves, t, gaps, used);
    RanGap([], Tagged(moves), t, AnyMove, AllTagged(gaps), used);
    if used < |gaps| {
      var others := OthersIn(gaps[used], t);
      OthersTagged(gaps[used], t);
      TaggedConcat(moves, others);
      RunConcat(q0, moves, others);
      assert WentBy(q0, Run(q, others), moves + others, t, gaps, used + 1);
    } else {
      assert WentBy(q0, q, moves, t, gaps, used + 1);
    }
  }

  lemma {:induction false} RunConcat<T>(q: Pipe<T>, a: seq<Move<T>>, b: seq<Move<T>>)
    ensures Run(q, a + b) == Run(Run(q, a), b)
    decreases |a|
  {
    hide Step;
    if a == [] {
      assert a + b == b;
    } else {
      assert (a + b)[1..] == a[1..] + b;
      RunConcat(Step(q, a[0]), a[1..], b);
    }
  }

  lemma OneMoreIn<T>(q: seq<Move<T>>, i: nat, t: nat)
    requires i < |q|
    ensures OthersIn(q[..i + 1], t) == if Tag(q[i]).0 == t then OthersIn(q[..i], t) else OthersIn(q[..i], t) + [q[i]]
  {
    assert q[..i + 1][..i] == q[..i];
  }

  lemma NoneIn<T>(t: nat)
    ensures OthersIn<T>([], t) == []
  {
  }

  lemma RunNone<T>(q: Pipe<T>)
    ensures Run(q, []) == q
  {
  }

  lemma {:induction false} RunMore<T>(q: Pipe<T>, schedule: seq<Move<T>>, m: Move<T>)
    ensures Run(q, schedule + [m]) == Step(Run(q, schedule), m)
    decreases |schedule|
  {
    hide Step;
    if schedule == [] {
      assert [m][1..] == [];
    } else {
      assert (schedule + [m])[1..] == schedule[1..] + [m];
      RunMore(Step(q, schedule[0]), schedule[1..], m);
    }
  }

  lemma StepIs<T>(q: Pipe<T>, m: Move<T>)
    ensures m.Writer? && q.writer.At? ==> Step(q, m) == VisibleWriterStep(q, q.writer.phase, m.wcall)
    ensures m.Writer? && !q.writer.At? ==> Step(q, m) == HiddenWriterStep(q, m.addr, m.junk)
    ensures m.Reader? && q.reader.At? ==> Step(q, m) == VisibleReaderStep(q, q.reader.phase, m.rcall)
    ensures m.Reader? && !q.reader.At? ==> Step(q, m) == HiddenReaderStep(q)
  {
    hide VisibleWriterStep, HiddenWriterStep, VisibleReaderStep, HiddenReaderStep;
  }

  lemma AdvanceBackIs<T>(q: Pipe<T>, m: Move<T>)
    requires m.Writer? && q.writer.At? && q.writer.phase.AdvanceBack?
    ensures Step(q, m) == AdvanceBack(q, q.writer.phase.item)
  {
  }

  lemma RetreatBackIs<T>(q: Pipe<T>, m: Move<T>)
    requires m.Writer? && q.writer.At? && q.writer.phase.RetreatBack?
    ensures Step(q, m) == RetreatBack(q)
  {
  }

  lemma RetreatEndIs<T>(q: Pipe<T>, m: Move<T>)
    requires m.Writer? && q.writer.At? && q.writer.phase.RetreatEnd?
    ensures Step(q, m) == RetreatEnd(q)
  {
  }

  // Which call a move names matters only to an idle thread, and what the allocator returns only to a
  // writer that needs a new chunk.
  lemma CallMatters<T>(q: Pipe<T>, c: P.ReaderCall, c': P.ReaderCall)
    requires !(q.reader.At? && q.reader.phase.ReaderIdle?)
    ensures Step(q, Reader(c)) == Step(q, Reader(c'))
  {
  }

  lemma SpaceMatters<T>(q: Pipe<T>, m: Move<T>, m': Move<T>)
    requires m.Writer? && m'.Writer? && (q.writer.At? && q.writer.phase.WriterIdle? ==> m.wcall == m'.wcall)
    requires q.writer.LinkNext? && q.writer.spared.None? ==> m.addr == m'.addr && m.junk == m'.junk
    ensures Step(q, m) == Step(q, m')
  {
  }

  // An address that is in use is not handed out: the writer asks again.
  lemma AsksAgain<T>(q: Pipe<T>, p: P.Pipe<T>, m: Move<T>)
    requires Corresponds(q, p) && m.Writer? && q.writer.LinkNext? && q.writer.spared.None?
    requires m.addr in q.mem || |m.junk.values| != q.lay.n
    ensures Step(q, m) == q
  {
    LinkNextCorresponds(q, p, q.writer.incomplete, None, m.addr, m.junk);
    Unfaulted(LinkNextStep(q, q.writer.incomplete, None, m.addr, m.junk), p);
    hide Corresponds;
  }
}
