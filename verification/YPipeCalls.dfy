// What each step of one operation of the pipe does to the positions, for the object that runs the
// operation with the other thread moving between the steps: which fields change, what is published,
// what of the completed items is kept, and how that composes over a whole call.
module PipeCalls {
  import opened Wrappers
  import opened PipePositions

  lemma WriteSteps<T>(s: Pipe<T>, call: WriterCall<T>)
    ensures var r := WriterStep(s, call);
            && (s.writer.StoreValue? ==> SameWriterSide(s.(writer := AdvanceBack(s.writer.item), cell := r.cell), r))
            && (s.writer.AdvanceBack? ==>
                  SameWriterSide(s.(writer := MarkFlush(s.writer.item.incomplete), back := s.back + 1,
                      log := s.log + [s.writer.item]), r))
            && (s.writer.MarkFlush? ==>
                  SameWriterSide(s.(writer := WriterIdle(Wrote), f := if s.writer.incomplete then s.f else s.back), r))
  {
  }

  lemma UnwriteSteps<T>(s: Pipe<T>, call: WriterCall<T>)
    requires Inv(s)
    ensures |s.log| == s.back && s.f <= s.back
    ensures var r := WriterStep(s, call);
            && (s.writer.TestUnwrite? ==>
                  SameWriterSide(s.(writer := if s.f == s.back then WriterIdle(Unwrote(None)) else RetreatBack), r))
            && (s.writer.RetreatBack? ==>
                  && s.back > s.f
                  && SameWriterSide(s.(writer := RetreatEnd, back := s.back - 1, log := s.log[..s.back - 1],
                                       removed := Some(s.log[s.back - 1].value)), r))
            && (s.writer.RetreatEnd? ==> SameWriterSide(s.(writer := TakeValue), r))
            && (s.writer.TakeValue? ==> SameWriterSide(s.(writer := WriterIdle(Unwrote(s.removed))), r))
  {
  }

  lemma FlushSteps<T>(s: Pipe<T>, call: WriterCall<T>)
    requires Inv(s)
    ensures var r := WriterStep(s, call);
            && (s.writer.TestFlush? ==>
                  SameWriterSide(s.(writer := if s.w == s.f then WriterIdle(Flushed(true)) else CasFlush), r))
            && (s.writer.CasFlush? ==>
                  SameWriterSide(s.(writer := if s.c == None then SetFlush else EndFlush(true)), r))
            && (s.writer.SetFlush? ==> SameWriterSide(s.(writer := EndFlush(false), wakes := s.wakes + 1), r))
            && (s.writer.EndFlush? ==> SameWriterSide(s.(writer := WriterIdle(Flushed(s.writer.awake)), w := s.f), r))
  {
  }

  lemma ReadSteps<T>(s: Pipe<T>, call: ReaderCall)
    requires Inv(s)
    ensures var r := ReaderStep(s, call);
            && Published(r) == Published(s) && KeepsCompleted(s, r)
            && (s.reader.CasPrefetch? ==>
                  r.reader == ReaderIdle(Checked(false)) || r.reader == ReaderIdle(GotItem(None)) ==>
                  s.front == Published(s))
            && (s.reader.CasPrefetch? || s.reader.TestPrefetched? || s.reader.CopyFront? || s.reader.ReaderIdle? ==>
                  r.delivered == s.delivered && r.front == s.front)
            && (s.reader.CopyFront? ==>
                  s.front < |s.log| && r.reader == AdvanceFront(s.log[s.front].value))
            && (s.reader.AdvanceFront? ==>
                  && s.front < |s.log| && s.reader.value == s.log[s.front].value
                  && r.delivered == s.delivered + [s.reader.value] && r.front == s.front + 1)
  {
  }

  // Where an item was found there is one.
  lemma FoundMeans<T>(s: Pipe<T>)
    requires Inv(s) && (s.reader == ReaderIdle(Checked(true)) || s.reader == CopyFront)
    ensures s.r.Some? && s.front < s.r.value <= Published(s) <= |s.log|
  {
  }

  lemma WriterCallSteps<T>(s: Pipe<T>, call: WriterCall<T>)
    requires s.writer.WriterIdle?
    ensures SameWriterSide(s.(writer := match call
              case Write(item) => StoreValue(item)
              case Unwrite => TestUnwrite
              case Flush => TestFlush), WriterStep(s, call))
  {
  }

  lemma ReaderCallSteps<T>(s: Pipe<T>, call: ReaderCall)
    requires Inv(s) && s.reader.ReaderIdle?
    ensures var r := ReaderStep(s, call);
            r.delivered == s.delivered && r.front == s.front && Published(r) == Published(s) && KeepsCompleted(s, r)
  {
  }

  lemma WriterStepKeeps<T>(s: Pipe<T>, call: WriterCall<T>)
    requires Inv(s)
    ensures SameReaderSide(s, WriterStep(s, call)) && KeepsCompleted(s, WriterStep(s, call))
    ensures SameReaderSide(s, s) && KeepsCompleted(s, s)
  {
    hide Inv, WriterStep;
    WriterKeepsReaderSide(s, call);
    WriterKeepsCompleted(s, call);
    LogReaches(s);
  }

  lemma KeepsTransitive<T>(a: Pipe<T>, b: Pipe<T>, d: Pipe<T>)
    requires KeepsCompleted(a, b) && KeepsCompleted(b, d)
    ensures KeepsCompleted(a, d)
  {
    assert b.log[..a.f] == a.log[..a.f];
    assert d.log[..a.f] == b.log[..a.f];
  }

  // What was delivered for position `k` is what the log says.
  lemma DeliveredAt<T>(s: Pipe<T>, k: nat)
    requires Inv(s)
    ensures |s.delivered| == s.front
    ensures k < s.front ==> k < |s.log| && s.delivered[k] == s.log[k].value
  {
  }
}
