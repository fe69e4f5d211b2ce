// The claim-then-wait queue object: indices, tags and elements updated in place, by
// compare-and-swap and spinning, or under a mutex.  Between two accesses of one operation any other
// thread may take any number of steps.
module ArrayQueue {
  import opened Wrappers
  import opened Bits
  import opened Claims
  import opened Interference
  import opened TurnRing
  import opened TurnCalls
  import opened TurnGuarantees
  import opened TurnProgress
  import opened LockMode

  ghost predicate Follows<T(!new)>(s: Ring<T>, r: Ring<T>)
  {
    Shaped(s) && exists schedule :: r == Run(s, schedule)
  }

  function LedgerOf<T>(s: Ring<T>): Ledger<T> { Ledger(s.pushed, s.pushers, s.poppers) }

  // From `s` to `r` by some schedule that claims no ticket for `t`.
  ghost predicate Since<T(!new)>(s: Ring<T>, r: Ring<T>, t: nat)
  {
    Follows(s, r) && Untouched(LedgerOf(s), LedgerOf(r), t)
  }

  lemma FollowsStep<T(!new)>(s: Ring<T>, t: nat, a: Action<T>)
    requires Shaped(s)
    ensures Follows(s, Step(s, t, a)) && Follows(s, s)
  {
    RunOne(s, t, a);
    assert Run(s, []) == s;
  }

  lemma FollowsTransitive<T(!new)>(s: Ring<T>, m: Ring<T>, r: Ring<T>)
    requires Follows(s, m) && Follows(m, r)
    ensures Follows(s, r)
  {
    var a :| m == Run(s, a);
    var b :| r == Run(m, b);
    RunConcat(s, a, b);
  }

  lemma SinceTransitive<T(!new)>(s: Ring<T>, m: Ring<T>, r: Ring<T>, t: nat)
    requires Since(s, m, t) && Since(m, r, t)
    ensures Since(s, r, t)
  {
    hide Follows, Untouched;
    UntouchedTransitive(LedgerOf(s), LedgerOf(m), LedgerOf(r), t);
    FollowsTransitive(s, m, r);
  }

  lemma SinceSelf<T(!new)>(s: Ring<T>, t: nat)
    requires Shaped(s)
    ensures Since(s, s, t)
  {
    FollowsStep(s, t, Proceed);
  }

  predicate TakesTicket<T>(s: Ring<T>, u: nat)
  {
    u < |s.threads| &&
    ((s.threads[u].PushCas? && s.threads[u].w == s.writeIndex)
        || (s.threads[u].PopCas? && s.threads[u].r == s.readIndex))
  }

  // Everything one access needs and keeps.
  lemma AccessKeeps<T(!new)>(s: Ring<T>, u: nat, a: Action<T>, t: nat)
    requires Indexed(s)
    ensures var r := Step(s, u, a);
            && Indexed(r) && (Inv(s) ==> Inv(r)) && Follows(s, r)
            && (u != t || !TakesTicket(s, u) ==> Since(s, r, t))
            && (u != t && t < |s.threads| ==> r.threads[t] == s.threads[t])
            && (TakesTicket(s, u) ==>
                  if s.threads[u].PushCas? then
                    && |s.pushed| == |s.pushers| == s.writeIndex && r.pushers == s.pushers + [u]
                    && r.pushed == s.pushed + [s.threads[u].item] && r.poppers == s.poppers
                  else
                    && |s.poppers| == s.readIndex && r.poppers == s.poppers + [u]
                    && r.pushed == s.pushed && r.pushers == s.pushers)
  {
    hide Inv, TransIndex, CopyOk, Run;
    if Inv(s) { StepInv(s, u, a); }
    StepIndexed(s, u, a);
    if u >= |s.threads| || !s.threads[u].PopTag? { OtherHistory(s, u, a); }
    FollowsStep(s, u, a);
  }

  // What holds of powers of two lasts.
  lemma FollowsInv<T(!new)>(s: Ring<T>, r: Ring<T>)
    requires Inv(s) && Follows(s, r)
    ensures Inv(r)
  {
    hide Inv, Run;
    var schedule :| r == Run(s, schedule);
    RunInv(s, schedule);
  }

  // A pop at its tag store returns the item pushed under its ticket.
  lemma Returned<T>(s: Ring<T>, t: nat)
    requires Inv(s) && t < |s.threads| && s.threads[t].PopTag?
    ensures var (r, k) := (Step(s, t, Proceed), s.threads[t].ticket);
            k < |r.pushed| && k in r.popped && r.popped[k] == r.pushed[k] == s.threads[t].item
  {
    assert ThreadOk(s, t);
  }

  // When no other thread holds a ticket, a waiting thread finds its tag in place.
  lemma LonelyHolder<T>(s: Ring<T>, t: nat)
    requires Inv(s) && t < |s.threads| && s.threads[t].Holds()
    requires forall u: nat | u < |s.threads| && u != t :: !s.threads[u].Holds()
    ensures CanMove(s, t)
  {
    hide Inv, TransIndex;
    var u := HolderMoves(s, t);
  }

  lemma SinceMeans<T(!new)>(s: Ring<T>, r: Ring<T>, t: nat)
    requires Since(s, r, t)
    ensures Follows(s, r) && Untouched(LedgerOf(s), LedgerOf(r), t)
    ensures s.pushed <= r.pushed && ClaimsNothing(s.pushers, r.pushers, t) && ClaimsNothing(s.poppers, r.poppers, t)
    ensures LedgerOf(s) == Ledger(s.pushed, s.pushers, s.poppers)
            && LedgerOf(r) == Ledger(r.pushed, r.pushers, r.poppers)
  {
  }

  // Between `s` and `r` thread `t` came to load the read index when the queue held `max` tickets, as
  // many as when it loaded the write index, after `s`.
  ghost predicate SawFull<T(!new)>(s: Ring<T>, r: Ring<T>, t: nat, item: T)
  {
    exists m: Ring<T> :: Follows(s, m) && Follows(m, r) && FindsFull(m, t, item, s.writeIndex)
  }

  // Between `s` and `r` thread `t` came to load the read index when every ticket issued when it loaded
  // the write index, after `s`, was claimed.
  ghost predicate SawEmpty<T(!new)>(s: Ring<T>, r: Ring<T>, t: nat)
  {
    exists m: Ring<T> :: Follows(s, m) && Follows(m, r) && FindsEmpty(m, t, s.writeIndex)
  }

  lemma GoingOn<T>()
    ensures GoesOn<T>(Proceed)
  {
  }

  lemma FollowsRun<T(!new)>(s: Ring<T>, schedule: seq<(nat, Action<T>)>)
    requires Shaped(s)
    ensures Follows(s, Run(s, schedule))
  {
    hide Run;
  }

  // The state after part of a run comes between.
  lemma PartWay<T(!new)>(s: Ring<T>, schedule: seq<(nat, Action<T>)>, i: nat)
    requires Shaped(s) && i <= |schedule|
    ensures Follows(s, Run(s, schedule[..i])) && Follows(Run(s, schedule[..i]), Run(s, schedule))
  {
    hide Run, Follows;
    var (a, b) := (schedule[..i], schedule[i..]);
    assert a + b == schedule;
    RunConcat(s, a, b);
    FollowsRun(s, a);
    FollowsRun(Run(s, a), b);
  }

  // A call changes nothing but where its thread is.
  lemma Called<T>(s: Ring<T>, t: nat, a: Action<T>)
    requires Indexed(s) && t < |s.threads| && s.threads[t].Idle? && (a.CallPush? || a.CallPop?)
    ensures Shaped(s) && Indexed(Step(s, t, a))
    ensures Step(s, t, a) == At(s, t, if a.CallPush? then PushLoadWrite(a.item) else PopLoadWrite)
  {
    hide TransIndex;
    StepIndexed(s, t, a);
    assert Step(s, t, a).threads[t] == if a.CallPush? then PushLoadWrite(a.item) else PopLoadWrite;
  }

  lemma {:induction false} FullRun<T(!new)>(s: Ring<T>, t: nat, item: T, moves: seq<(nat, Action<T>)>)
    requires Indexed(s) && t < |s.threads| && s.threads[t].Idle? && NoCalls(moves, t)
    requires Run(Step(s, t, CallPush(item)), moves).threads[t] == Idle(Pushed(false))
    ensures SawFull(s, Run(Step(s, t, CallPush(item)), moves), t, item)
  {
    hide Run, FindsFull, Indexed, Step;
    Called(s, t, CallPush(item));
    var s' := Step(s, t, CallPush(item));
    FollowsStep(s, t, CallPush(item));
    var i := RefusedPush(s', t, item, s.writeIndex, moves);
    PartWay(s', moves, i);
    FollowsTransitive(s, s', Run(s', moves[..i]));
  }

  lemma {:induction false} EmptyRun<T(!new)>(s: Ring<T>, t: nat, moves: seq<(nat, Action<T>)>)
    requires Indexed(s) && t < |s.threads| && s.threads[t].Idle? && NoCalls(moves, t)
    requires Run(Step(s, t, CallPop), moves).threads[t] == Idle(Popped(None))
    ensures SawEmpty(s, Run(Step(s, t, CallPop), moves), t)
  {
    hide Run, FindsEmpty, Indexed, Step;
    Called(s, t, CallPop);
    var s' := Step(s, t, CallPop);
    FollowsStep(s, t, CallPop);
    var i := RefusedPop(s', t, s.writeIndex, moves);
    PartWay(s', moves, i);
    FollowsTransitive(s, s', Run(s', moves[..i]));
  }

  datatype Verdict = Refused | Claimed | Retry
  datatype End =
    | Rejected
    | Completed
    | StillWaiting
    | MovedOut      // past its wait, a pop finds that another thread has moved the element out

  class LockFreeArrayQueue<T(!new)> {
    const byCas: bool                // the mode: compare-and-swap, or the mutex
    const max: nat
    const elem: array<Option<T>>
    const tag: array<int>
    const code: int                  // what `Init` returned
    var writeIndex: int
    var readIndex: int
    var threads: seq<Phase<T>>       // where each thread is, with its locals
    ghost var ring: Ring<T>          // compare-and-swap mode: the ring with its histories
    ghost var trace: seq<(nat, Action<T>)>   // compare-and-swap mode: every access since the beginning
    ghost var contents: seq<T>       // lock mode: the queue

    // Compare-and-swap mode: the fields are those of the ring.
    ghost predicate Mirrors()
      reads this, elem, tag
    {
      && byCas && max == ring.max && elem[..] == ring.elem && tag[..] == ring.tag
      && writeIndex == ring.writeIndex && readIndex == ring.readIndex && threads == ring.threads
    }

    // What holds of every size, and what holds of powers of two.
    ghost predicate Sound()
      reads this, elem, tag
    {
      Indexed(ring) && Mirrors() && Traced()
    }

    ghost predicate Traced()
      reads this
    {
      max > 0 && ring == Run(Init<T>(max, |threads|), trace)
    }

    ghost predicate Valid()
      reads this, elem, tag
    {
      Inv(ring) && Sound()
    }

    ghost predicate Locked()
      reads this, elem
    {
      !byCas && writeIndex >= 0 && readIndex >= 0 && CoreShaped(Fields())
    }

    ghost function Fields(): Core<T>
      requires writeIndex >= 0 && readIndex >= 0
      reads this, elem
    {
      Core(max, writeIndex, readIndex, elem[..])
    }

    ghost predicate ValidLocked()
      reads this, elem
    {
      Locked() && IsPow2(max) && Holds(Fields(), contents)
    }

    // The object after `Init`, which takes every size but answers -2, indices unset, to 0 and 1.
    constructor (byCas: bool, size: nat, n: nat)
      ensures fresh(elem) && fresh(tag) && max == elem.Length == tag.Length == size && this.byCas == byCas
      ensures code == if size <= 1 then -2 else 0
      ensures size <= 1 ==> writeIndex == readIndex == -1
      ensures size >= 2 && byCas ==> ring == Init(size, n) && trace == [] && Sound()
      ensures size >= 2 && byCas && IsPow2(size) ==> Valid()
      ensures size >= 2 && !byCas ==>
              Locked() && Fields() == EmptyCore(size) && (IsPow2(size) ==> ValidLocked() && contents == [])
    {
      this.byCas := byCas;
      max := size;
      elem := new Option<T>[size](_ => None);
      tag := new int[size](_ => 0);
      code := if size <= 1 then -2 else 0;
      if size <= 1 { writeIndex, readIndex := -1, -1; } else { writeIndex, readIndex := 0, 0; }
      threads := seq(n, _ => Idle(NoCall));
      ring, trace, contents := Init(if size > 0 then size else 1, n), [], [];
      new;
      if size >= 2 {
        IndicesWithinOneLap<T>(size, n, []);
        if IsPow2(size) { InitInv<T>(size, n); }
        assert elem[..] == ring.elem;
        assert tag[..] == ring.tag;
      }
    }

    // ----- Under the mutex -----

    method PushLocked(x: T) returns (ok: bool)
      requires Locked()
      modifies this, elem
      ensures Locked() && (Fields(), Pushed(ok)) == PushLock(old(Fields()), x)
      ensures old(ValidLocked()) ==>
                && ValidLocked() && (ok <==> |old(contents)| < max)
                && contents == if ok then old(contents) + [x] else old(contents)
    {
      hide TransIndex;
      if ValidLocked() { LockCallIsFifo(Fields(), contents, Push(x)); }
      if IsFull(writeIndex, readIndex, max) { return false; }
      var i := TransIndex(writeIndex, max);
      elem[i] := Some(x);
      writeIndex := writeIndex + 1;
      contents := contents + [x];
      return true;
    }

    method PopLocked() returns (result: Option<T>)
      requires Locked()
      modifies this, elem
      ensures Locked() && (Fields(), Popped(result)) == PopLock(old(Fields()))
      ensures old(ValidLocked()) ==>
                && ValidLocked() && result == (if old(contents) == [] then None else Some(old(contents)[0]))
                && contents == if old(contents) == [] then [] else old(contents)[1..]
    {
      hide TransIndex;
      if ValidLocked() { LockCallIsFifo(Fields(), contents, Pop); }
      if IsEmpty(writeIndex, readIndex) { return None; }
      var i := TransIndex(readIndex, max);
      result := elem[i];
      elem[i] := None;
      readIndex := readIndex + 1;
      contents := if contents == [] then [] else contents[1..];
    }

    // ----- The accesses of one thread in compare-and-swap mode, each atomic -----

    static predicate OthersRest(q: seq<Phase<T>>, t: nat)
    {
      forall u: nat | u < |q| && u != t :: !q[u].Holds()
    }

    // The next access adds to the trace.
    lemma Longer(t: nat, a: Action<T>)
      requires Sound()
      ensures Step(ring, t, a) == Run(Init<T>(max, |threads|), trace + [(t, a)])
    {
      hide Step, Indexed;
      RunConcat(Init<T>(max, |threads|), trace, [(t, a)]);
      RunOne(ring, t, a);
    }

    // Thread `t`, idle, calls an operation.
    method Begin(t: nat, a: Action<T>)
      requires Sound() && t < |threads| && threads[t].Idle?
      modifies this
      ensures Sound() && (old(Valid()) ==> Valid())
      ensures ring == Step(old(ring), t, a) && |threads| == old(|threads|) && trace == old(trace) + [(t, a)]
      ensures OthersRest(old(threads), t) ==> OthersRest(threads, t)
      ensures Since(old(ring), ring, t)
      ensures a.CallPush? ==> threads[t] == PushLoadWrite(a.item)
      ensures a.CallPop? ==> threads[t] == PopLoadWrite
    {
      hide Inv, Indexed, Since, Follows, TransIndex, Run;
      AccessKeeps(ring, t, a, t);
      Longer(t, a);
      match a {
        case CallPush(x) => threads := threads[t := PushLoadWrite(x)];
        case CallPop => threads := threads[t := PopLoadWrite];
        case Proceed =>
      }
      ring, trace := Step(ring, t, a), trace + [(t, a)];
    }

    method LoadWriteToPush(t: nat)
      requires Sound() && t < |threads| && threads[t].PushLoadWrite?
      modifies this, elem, tag
      ensures Sound() && (old(Valid()) ==> Valid())
      ensures ring == Step(old(ring), t, Proceed) && |threads| == old(|threads|) && trace == old(trace) + [(t, Proceed)]
      ensures OthersRest(old(threads), t) ==> OthersRest(threads, t)
      ensures Since(old(ring), ring, t)
      ensures threads[t] == PushLoadRead(old(threads[t]).item, writeIndex) && writeIndex == old(writeIndex)
    {
      hide Inv, Indexed, Since, Follows, TransIndex, Run;
      AccessKeeps(ring, t, Proceed, t);
      Longer(t, Proceed);
      var p := threads[t];
      threads := threads[t := PushLoadRead(p.item, writeIndex)];
      ring, trace := Step(ring, t, Proceed), trace + [(t, Proceed)];
    }

    method LoadReadToPush(t: nat) returns (full: bool)
      requires Sound() && t < |threads| && threads[t].PushLoadRead?
      modifies this, elem, tag
      ensures Sound() && (old(Valid()) ==> Valid())
      ensures ring == Step(old(ring), t, Proceed) && |threads| == old(|threads|) && trace == old(trace) + [(t, Proceed)]
      ensures OthersRest(old(threads), t) ==> OthersRest(threads, t)
      ensures Since(old(ring), ring, t)
      ensures threads[t] == if full then Idle(Pushed(false)) else PushCas(old(threads[t]).item, old(threads[t]).w)
      ensures writeIndex == old(writeIndex)
    {
      hide Inv, Indexed, Since, Follows, TransIndex, Run;
      AccessKeeps(ring, t, Proceed, t);
      Longer(t, Proceed);
      var p := threads[t];
      full := IsFull(p.w, readIndex, max);
      threads := threads[t := if full then Idle(Pushed(false)) else PushCas(p.item, p.w)];
      ring, trace := Step(ring, t, Proceed), trace + [(t, Proceed)];
    }

    method CasWriteIndex(t: nat) returns (won: bool)
      requires Sound() && t < |threads| && threads[t].PushCas?
      modifies this, elem, tag
      ensures Sound() && (old(Valid()) ==> Valid())
      ensures ring == Step(old(ring), t, Proceed) && |threads| == old(|threads|) && trace == old(trace) + [(t, Proceed)]
      ensures OthersRest(old(threads), t) ==> OthersRest(threads, t)
      ensures won <==> old(threads[t]).w == old(writeIndex)
      ensures !won ==> Since(old(ring), ring, t) && threads[t] == PushLoadWrite(old(threads[t]).item)
      ensures won ==> threads[t] == PushWait(old(threads[t]).item, |old(ring).pushers|) && Follows(old(ring), ring)
                      && |old(ring).pushed| == |old(ring).pushers| && ring.pushers == old(ring).pushers + [t]
                      && ring.pushed == old(ring).pushed + [old(threads[t]).item] && ring.poppers == old(ring).poppers
    {
      hide Inv, Indexed, Since, Follows, TransIndex, Run;
      AccessKeeps(ring, t, Proceed, t);
      Longer(t, Proceed);
      var p := threads[t];
      won := writeIndex == p.w;
      if won {
        writeIndex, threads := p.w + 1, threads[t := PushWait(p.item, p.w)];
      } else {
        threads := threads[t := PushLoadWrite(p.item)];
      }
      ring, trace := Step(ring, t, Proceed), trace + [(t, Proceed)];
    }

    method TestTagToPush(t: nat) returns (mine: bool)
      requires Sound() && t < |threads| && threads[t].PushWait?
      modifies this, elem, tag
      ensures Sound() && (old(Valid()) ==> Valid())
      ensures ring == Step(old(ring), t, Proceed) && |threads| == old(|threads|) && trace == old(trace) + [(t, Proceed)]
      ensures OthersRest(old(threads), t) ==> OthersRest(threads, t)
      ensures Since(old(ring), ring, t)
      ensures threads[t] == if mine then PushStore(old(threads[t]).item, old(threads[t]).ticket) else old(threads[t])
      ensures mine <==> tag[TransIndex(old(threads[t]).ticket, max)] == PushAwaits(old(threads[t]).ticket, max)
      ensures old(Valid()) && OthersRest(old(threads), t) ==> mine
    {
      hide Inv, Indexed, Since, Follows, TransIndex, Run;
      AccessKeeps(ring, t, Proceed, t);
      Longer(t, Proceed);
      if Valid() && OthersRest(threads, t) { LonelyHolder(ring, t); }
      RingIsFine();
      var p := threads[t];
      mine := tag[TransIndex(p.ticket, max)] == PushAwaits(p.ticket, max);
      if mine { threads := threads[t := PushStore(p.item, p.ticket)]; }
      ring, trace := Step(ring, t, Proceed), trace + [(t, Proceed)];
    }

    method StoreElement(t: nat)
      requires Sound() && t < |threads| && threads[t].PushStore?
      modifies this, elem, tag
      ensures Sound() && (old(Valid()) ==> Valid())
      ensures ring == Step(old(ring), t, Proceed) && |threads| == old(|threads|) && trace == old(trace) + [(t, Proceed)]
      ensures OthersRest(old(threads), t) ==> OthersRest(threads, t)
      ensures Since(old(ring), ring, t)
      ensures threads[t] == PushTag(old(threads[t]).item, old(threads[t]).ticket)
    {
      hide Inv, Indexed, Since, Follows, TransIndex, Run;
      AccessKeeps(ring, t, Proceed, t);
      Longer(t, Proceed);
      RingIsFine();
      var p := threads[t];
      elem[TransIndex(p.ticket, max)] := Some(p.item);
      threads := threads[t := PushTag(p.item, p.ticket)];
      ring, trace := Step(ring, t, Proceed), trace + [(t, Proceed)];
    }

    method StoreTag(t: nat)
      requires Sound() && t < |threads| && threads[t].PushTag?
      modifies this, elem, tag
      ensures Sound() && (old(Valid()) ==> Valid())
      ensures ring == Step(old(ring), t, Proceed) && |threads| == old(|threads|) && trace == old(trace) + [(t, Proceed)]
      ensures OthersRest(old(threads), t) ==> OthersRest(threads, t)
      ensures Since(old(ring), ring, t)
      ensures threads[t] == Idle(Pushed(true))
    {
      hide Inv, Indexed, Since, Follows, TransIndex, Run;
      AccessKeeps(ring, t, Proceed, t);
      Longer(t, Proceed);
      RingIsFine();
      var p := threads[t];
      tag[TransIndex(p.ticket, max)] := p.ticket + 1;
      threads := threads[t := Idle(Pushed(true))];
      ring, trace := Step(ring, t, Proceed), trace + [(t, Proceed)];
    }

    method LoadWriteToPop(t: nat)
      requires Sound() && t < |threads| && threads[t].PopLoadWrite?
      modifies this, elem, tag
      ensures Sound() && (old(Valid()) ==> Valid())
      ensures ring == Step(old(ring), t, Proceed) && |threads| == old(|threads|) && trace == old(trace) + [(t, Proceed)]
      ensures OthersRest(old(threads), t) ==> OthersRest(threads, t)
      ensures Since(old(ring), ring, t)
      ensures threads[t] == PopLoadRead(writeIndex) && readIndex == old(readIndex)
    {
      hide Inv, Indexed, Since, Follows, TransIndex, Run;
      AccessKeeps(ring, t, Proceed, t);
      Longer(t, Proceed);
      var p := threads[t];
      threads := threads[t := PopLoadRead(writeIndex)];
      ring, trace := Step(ring, t, Proceed), trace + [(t, Proceed)];
    }

    method LoadReadToPop(t: nat) returns (empty: bool)
      requires Sound() && t < |threads| && threads[t].PopLoadRead?
      modifies this, elem, tag
      ensures Sound() && (old(Valid()) ==> Valid())
      ensures ring == Step(old(ring), t, Proceed) && |threads| == old(|threads|) && trace == old(trace) + [(t, Proceed)]
      ensures OthersRest(old(threads), t) ==> OthersRest(threads, t)
      ensures Since(old(ring), ring, t)
      ensures threads[t] == if empty then Idle(Popped(None)) else PopCas(readIndex)
      ensures readIndex == old(readIndex)
    {
      hide Inv, Indexed, Since, Follows, TransIndex, Run;
      AccessKeeps(ring, t, Proceed, t);
      Longer(t, Proceed);
      var p := threads[t];
      empty := IsEmpty(p.w, readIndex);
      threads := threads[t := if empty then Idle(Popped(None)) else PopCas(readIndex)];
      ring, trace := Step(ring, t, Proceed), trace + [(t, Proceed)];
    }

    method CasReadIndex(t: nat) returns (won: bool)
      requires Sound() && t < |threads| && threads[t].PopCas?
      modifies this, elem, tag
      ensures Sound() && (old(Valid()) ==> Valid())
      ensures ring == Step(old(ring), t, Proceed) && |threads| == old(|threads|) && trace == old(trace) + [(t, Proceed)]
      ensures OthersRest(old(threads), t) ==> OthersRest(threads, t)
      ensures won <==> old(threads[t]).r == old(readIndex)
      ensures !won ==> Since(old(ring), ring, t) && threads[t] == PopLoadWrite
      ensures won ==> threads[t] == PopWait(|old(ring).poppers|) && Follows(old(ring), ring)
                      && ring.poppers == old(ring).poppers + [t]
                      && ring.pushed == old(ring).pushed && ring.pushers == old(ring).pushers
    {
      hide Inv, Indexed, Since, Follows, TransIndex, Run;
      AccessKeeps(ring, t, Proceed, t);
      Longer(t, Proceed);
      var p := threads[t];
      won := readIndex == p.r;
      if won {
        readIndex, threads := p.r + 1, threads[t := PopWait(p.r)];
      } else {
        threads := threads[t := PopLoadWrite];
      }
      ring, trace := Step(ring, t, Proceed), trace + [(t, Proceed)];
    }

    method TestTagToPop(t: nat) returns (mine: bool)
      requires Sound() && t < |threads| && threads[t].PopWait?
      modifies this, elem, tag
      ensures Sound() && (old(Valid()) ==> Valid())
      ensures ring == Step(old(ring), t, Proceed) && |threads| == old(|threads|) && trace == old(trace) + [(t, Proceed)]
      ensures OthersRest(old(threads), t) ==> OthersRest(threads, t)
      ensures Since(old(ring), ring, t)
      ensures threads[t] == if mine then PopTake(old(threads[t]).ticket) else old(threads[t])
      ensures mine <==> tag[TransIndex(old(threads[t]).ticket, max)] == old(threads[t]).ticket + 1
      ensures old(Valid()) && OthersRest(old(threads), t) ==> mine
    {
      hide Inv, Indexed, Since, Follows, TransIndex, Run;
      AccessKeeps(ring, t, Proceed, t);
      Longer(t, Proceed);
      if Valid() && OthersRest(threads, t) { LonelyHolder(ring, t); }
      RingIsFine();
      var p := threads[t];
      mine := tag[TransIndex(p.ticket, max)] == p.ticket + 1;
      if mine { threads := threads[t := PopTake(p.ticket)]; }
      ring, trace := Step(ring, t, Proceed), trace + [(t, Proceed)];
    }

    // An element that was moved out holds no value, and the step is not taken.
    method TakeElement(t: nat) returns (item: Option<T>)
      requires Sound() && t < |threads| && threads[t].PopTake?
      modifies this, elem, tag
      ensures Sound() && (old(Valid()) ==> Valid())
      ensures ring == Step(old(ring), t, Proceed) && |threads| == old(|threads|) && trace == old(trace) + [(t, Proceed)]
      ensures OthersRest(old(threads), t) ==> OthersRest(threads, t)
      ensures Since(old(ring), ring, t)
      ensures item == old(elem[TransIndex(threads[t].ticket, max)])
              && elem[TransIndex(old(threads[t]).ticket, max)] == None
      ensures threads[t] == if item.Some? then PopTag(item.value, old(threads[t]).ticket) else old(threads[t])
      ensures old(Valid()) ==> item.Some?
    {
      hide Inv, Indexed, Since, Follows, TransIndex, Run;
      AccessKeeps(ring, t, Proceed, t);
      Longer(t, Proceed);
      if Valid() { PopTakeInv(ring, t); }
      RingIsFine();
      var p := threads[t];
      var i := TransIndex(p.ticket, max);
      item := elem[i];
      if item.Some? {
        elem[i] := None;
        threads := threads[t := PopTag(item.value, p.ticket)];
      }
      ring, trace := Step(ring, t, Proceed), trace + [(t, Proceed)];
    }

    method NegateTag(t: nat)
      requires Sound() && t < |threads| && threads[t].PopTag?
      modifies this, elem, tag
      ensures Sound() && (old(Valid()) ==> Valid())
      ensures ring == Step(old(ring), t, Proceed) && |threads| == old(|threads|) && trace == old(trace) + [(t, Proceed)]
      ensures OthersRest(old(threads), t) ==> OthersRest(threads, t)
      ensures Since(old(ring), ring, t)
      ensures threads[t] == Idle(Popped(Some(old(threads[t]).item)))
      ensures var k := old(threads[t]).ticket;
              && k in ring.popped && ring.popped[k] == old(threads[t]).item
              && (old(Valid()) ==> k < |ring.pushed| && ring.pushed[k] == ring.popped[k])
    {
      hide Inv, Indexed, Since, Follows, TransIndex, Run;
      AccessKeeps(ring, t, Proceed, t);
      Longer(t, Proceed);
      if Valid() { Returned(ring, t); }
      RingIsFine();
      var p := threads[t];
      tag[TransIndex(p.ticket, max)] := -(p.ticket + 1);
      threads := threads[t := Idle(Popped(Some(p.item)))];
      ring, trace := Step(ring, t, Proceed), trace + [(t, Proceed)];
    }

    // One access by thread `t`, whatever it is at.
    method Act(t: nat, a: Action<T>)
      requires Sound()
      modifies this, elem, tag
      ensures Sound() && (old(Valid()) ==> Valid())
      ensures ring == Step(old(ring), t, a) && |threads| == old(|threads|) && trace == old(trace) + [(t, a)]
    {
      hide Inv, Indexed, Since, Follows, TransIndex, Run;
      Longer(t, a);
      ghost var longer := trace + [(t, a)];
      if t < |threads| {
        if threads[t].Idle? {
          Begin(t, a);
        } else if threads[t].PopLoadWrite? || threads[t].PopLoadRead? || threads[t].PopCas? || threads[t].Pops() {
          ActPop(t, a);
        } else {
          ActPush(t, a);
        }
      }
      trace := longer;
    }

    method ActPush(t: nat, a: Action<T>)
      requires Sound() && t < |threads|
      requires threads[t].PushLoadWrite? || threads[t].PushLoadRead? || threads[t].PushCas? || threads[t].Pushes()
      modifies this, elem, tag
      ensures Sound() && (old(Valid()) ==> Valid())
      ensures ring == Step(old(ring), t, a) && |threads| == old(|threads|)
    {
      hide Inv, Indexed, Since, Follows, TransIndex, Run, StepPush, StepPop;
      match threads[t]
      case PushLoadWrite(_) => LoadWriteToPush(t);
      case PushLoadRead(_, _) => var _ := LoadReadToPush(t);
      case PushCas(_, _) => var _ := CasWriteIndex(t);
      case PushWait(_, _) => var _ := TestTagToPush(t);
      case PushStore(_, _) => StoreElement(t);
      case PushTag(_, _) => StoreTag(t);
    }

    method ActPop(t: nat, a: Action<T>)
      requires Sound() && t < |threads|
      requires threads[t].PopLoadWrite? || threads[t].PopLoadRead? || threads[t].PopCas? || threads[t].Pops()
      modifies this, elem, tag
      ensures Sound() && (old(Valid()) ==> Valid())
      ensures ring == Step(old(ring), t, a) && |threads| == old(|threads|)
    {
      hide Inv, Indexed, Since, Follows, TransIndex, Run, StepPush, StepPop;
      match threads[t]
      case PopLoadWrite => LoadWriteToPop(t);
      case PopLoadRead(_) => var _ := LoadReadToPop(t);
      case PopCas(_) => var _ := CasReadIndex(t);
      case PopWait(_) => var _ := TestTagToPop(t);
      case PopTake(_) => var _ := TakeElement(t);
      case PopTag(_, _) => NegateTag(t);
    }

    lemma RingIsFine()
      requires Sound()
      ensures (Valid() <==> Inv(ring)) && Indexed(ring) && Shaped(ring) && |threads| == |ring.threads|
              && threads == ring.threads && ring == Run(Init<T>(max, |threads|), trace)
      ensures writeIndex == ring.writeIndex && readIndex == ring.readIndex && max == ring.max && tag[..] == ring.tag
      ensures elem.Length == tag.Length == max > 0
    {
    }

    lemma FollowsValid(s: Ring<T>)
      requires Sound() && Follows(s, ring)
      ensures Inv(s) ==> Valid()
    {
      hide Inv, Indexed, Follows;
      if Inv(s) { FollowsInv(s, ring); }
    }

    lemma StaysValid(s: Ring<T>, t: nat)
      requires Sound() && Since(s, ring, t)
      ensures Inv(s) ==> Valid()
    {
      hide Inv, Indexed, Follows, Untouched;
      FollowsValid(s);
    }

    // What the answer of a push means, from the accesses it made.
    lemma PushMeans(s: Ring<T>, b: seq<(nat, Action<T>)>, t: nat, item: T, gaps: seq<seq<(nat, Action<T>)>>, used: nat)
      requires Sound() && s == Run(Init<T>(max, |threads|), b) && Indexed(s) && t < |threads| == |s.threads|
      requires s.threads[t].Idle? && (threads[t].Idle? || threads[t].PushWait?)
      requires Ran(b + [(t, CallPush(item))], trace, t, GoesOn, gaps, used)
      ensures threads[t] == Idle(Pushed(false)) ==> SawFull(s, ring, t, item)
      ensures gaps == [] ==> (threads[t] == Idle(Pushed(false)) <==> s.writeIndex == s.readIndex + s.max)
    {
      hide Run, Inv, SawFull, Step, Indexed, Ran;
      var c: Action<T> := CallPush(item);
      RingIsFine();
      var moves := Moved(s, b, t, c, gaps, used);
      Called(s, t, c);
      if threads[t] == Idle(Pushed(false)) { FullRun(s, t, item, moves); }
      if gaps == [] {
        var alone := MovedAlone(s, b, t, c, used);
        PushAlone(Step(s, t, c), t, item, alone);
      }
    }

    lemma PopMeans(s: Ring<T>, b: seq<(nat, Action<T>)>, t: nat, gaps: seq<seq<(nat, Action<T>)>>, used: nat)
      requires Sound() && s == Run(Init<T>(max, |threads|), b) && Indexed(s) && t < |threads| == |s.threads|
      requires s.threads[t].Idle? && (threads[t].Idle? || threads[t].PopWait? || threads[t].PopTake?)
      requires Ran(b + [(t, CallPop)], trace, t, GoesOn, gaps, used)
      ensures threads[t] == Idle(Popped(None)) ==> SawEmpty(s, ring, t)
      ensures gaps == [] ==> (threads[t] == Idle(Popped(None)) <==> s.writeIndex <= s.readIndex)
    {
      hide Run, Inv, SawEmpty, Step, Indexed, Ran;
      var c: Action<T> := CallPop;
      RingIsFine();
      var moves := Moved(s, b, t, c, gaps, used);
      Called(s, t, c);
      if threads[t] == Idle(Popped(None)) { EmptyRun(s, t, moves); }
      if gaps == [] {
        var alone := MovedAlone(s, b, t, c, used);
        PopAlone(Step(s, t, c), t, alone);
      }
    }

    // The accesses since the call of `c`, as a run of the ring.
    lemma Moved(s: Ring<T>, b: seq<(nat, Action<T>)>, t: nat, c: Action<T>, gaps: seq<seq<(nat, Action<T>)>>, used: nat)
      returns (moves: seq<(nat, Action<T>)>)
      requires Sound() && s == Run(Init<T>(max, |threads|), b) && Shaped(s)
      requires Ran(b + [(t, c)], trace, t, GoesOn, gaps, used)
      ensures NoCalls(moves, t) && Shaped(s) && ring == Run(Step(s, t, c), moves)
    {
      hide Run, Indexed, Step;
      moves :| RanBy(b + [(t, c)], trace, moves, t, GoesOn, gaps, used);
      CallAnd(s, b, t, c, moves);
    }

    lemma MovedAlone(s: Ring<T>, b: seq<(nat, Action<T>)>, t: nat, c: Action<T>, used: nat)
      returns (moves: seq<(nat, Action<T>)>)
      requires Sound() && s == Run(Init<T>(max, |threads|), b) && Shaped(s)
      requires Ran(b + [(t, c)], trace, t, GoesOn, [], used)
      ensures Shaped(s) && ring == Run(Step(s, t, c), moves) && forall i | 0 <= i < |moves| :: moves[i] == (t, Proceed)
    {
      hide Run, Indexed, Step;
      moves := Alone(b + [(t, c)], trace, t, GoesOn, used);
      CallAnd(s, b, t, c, moves);
    }

    lemma CallAnd(s: Ring<T>, b: seq<(nat, Action<T>)>, t: nat, c: Action<T>, moves: seq<(nat, Action<T>)>)
      requires Sound() && s == Run(Init<T>(max, |threads|), b) && Shaped(s) && trace == b + [(t, c)] + moves
      ensures ring == Run(Step(s, t, c), moves)
    {
      hide Run, Indexed, Step;
      var s0 := Init<T>(max, |threads|);
      RunConcat(s0, b, [(t, c)]);
      RunOne(s, t, c);
      RunConcat(s0, b + [(t, c)], moves);
    }

    // The other threads move while `t` is between two accesses.
    method Interfere(t: nat, gaps: seq<seq<(nat, Action<T>)>>, g: nat, ghost s0: Ring<T>,
                     ghost b: seq<(nat, Action<T>)>)
      requires Sound() && t < |threads| && Since(s0, ring, t) && Ran(b, trace, t, GoesOn, gaps, g)
      modifies this, elem, tag
      ensures Sound() && |threads| == old(|threads|) && threads[t] == old(threads[t]) && Since(s0, ring, t)
      ensures Ran(b, trace, t, GoesOn, gaps, g + 1)
      ensures g >= |gaps| ==> ring == old(ring) && threads == old(threads)
                              && writeIndex == old(writeIndex) && readIndex == old(readIndex)
    {
      hide *;
      RanGap(b, trace, t, GoesOn, gaps, g);
      if g < |gaps| {
        var others := gaps[g];
        NoOthers<Action<T>>(t);
        var i := 0;
        while i < |others|
          invariant i <= |others|
          invariant Sound() && |threads| == old(|threads|) && threads[t] == old(threads[t]) && Since(s0, ring, t)
          invariant trace == old(trace) + OthersOf(others[..i], t)
        {
          var (u, a) := others[i];
          OneMore(others, i, t);
          if u != t {
            ghost var m := ring;
            RingIsFine();
            Act(u, a);
            AccessKeeps(m, u, a, t);
            SinceTransitive(s0, m, ring, t);
            RingIsFine();
          }
          i := i + 1;
        }
        assert others[..i] == others;
      }
    }

    // Load both indices, test for room, try to claim the ticket.
    method TryPush(t: nat, item: T, gaps: seq<seq<(nat, Action<T>)>>, g: nat, ghost s0: Ring<T>,
                   ghost b: seq<(nat, Action<T>)>)
      returns (verdict: Verdict, ghost before: Ring<T>, ghost used: nat)
      requires Sound() && t < |threads| && Since(s0, ring, t) && threads[t] == PushLoadWrite(item)
      requires Ran(b, trace, t, GoesOn, gaps, g)
      modifies this, elem, tag
      ensures Sound() && |threads| == old(|threads|) && Ran(b, trace, t, GoesOn, gaps, used)
      ensures verdict != Refused ==> used == g + 2
      ensures gaps == [] && OthersRest(old(threads), t) ==> OthersRest(threads, t)
      ensures verdict == Refused ==> threads[t] == Idle(Pushed(false)) && Since(s0, ring, t)
      ensures verdict == Retry ==> g < |gaps| && threads[t] == PushLoadWrite(item) && Since(s0, ring, t)
      ensures verdict == Claimed ==>
                && threads[t] == PushWait(item, |before.pushers|)
                && Since(s0, before, t) && Follows(before, ring) && |before.pushed| == |before.pushers|
                && ring.pushers == before.pushers + [t] && ring.poppers == before.poppers
                && ring.pushed == before.pushed + [item]
    {
      hide *;
      GoingOn<T>();
      ghost var was := trace;
      before := ring;
      LoadWriteToPush(t);
      SinceTransitive(s0, before, ring, t);
      RanStep(b, was, t, GoesOn, gaps, g, Proceed);
      Interfere(t, gaps, g, s0, b);
      before, was := ring, trace;
      var full := LoadReadToPush(t);
      SinceTransitive(s0, before, ring, t);
      RanStep(b, was, t, GoesOn, gaps, g + 1, Proceed);
      if full { return Refused, before, g + 1; }
      Interfere(t, gaps, g + 1, s0, b);
      before, was := ring, trace;
      var won := CasWriteIndex(t);
      RanStep(b, was, t, GoesOn, gaps, g + 2, Proceed);
      if won { return Claimed, before, g + 2; }
      SinceTransitive(s0, before, ring, t);
      return Retry, before, g + 2;
    }

    // Spin until the tag of the slot has its turn, then store the element and the tag.
    method FinishPush(t: nat, item: T, k: nat, gaps: seq<seq<(nat, Action<T>)>>, g: nat, ghost b: seq<(nat, Action<T>)>)
      returns (done: bool, ghost used: nat)
      requires Sound() && t < |threads| && threads[t] == PushWait(item, k) && Ran(b, trace, t, GoesOn, gaps, g)
      modifies this, elem, tag
      ensures Sound() && |threads| == old(|threads|) && Since(old(ring), ring, t)
      ensures Ran(b, trace, t, GoesOn, gaps, used) && (!done ==> used >= |gaps|)
      ensures done ==> threads[t] == Idle(Pushed(true))
      ensures !done ==> threads[t] == PushWait(item, k) && tag[TransIndex(k, max)] != PushAwaits(k, max)
      ensures old(Valid()) && gaps == [] && OthersRest(old(threads), t) ==> done
    {
      hide *;
      GoingOn<T>();
      ghost var claimed, mid, was := ring, ring, trace;
      RingIsFine();
      SinceSelf(ring, t);
      Interfere(t, gaps, g, claimed, b);
      mid, was := ring, trace;
      StaysValid(claimed, t);
      var mine := TestTagToPush(t);
      SinceTransitive(claimed, mid, ring, t);
      RanStep(b, was, t, GoesOn, gaps, g + 1, Proceed);
      var h: nat := g + 1;
      while !mine && h < |gaps|
        invariant Sound() && |threads| == old(|threads|) && Since(claimed, ring, t)
        invariant Ran(b, trace, t, GoesOn, gaps, h)
        invariant threads[t] == if mine then PushStore(item, k) else PushWait(item, k)
        invariant !mine ==> tag[TransIndex(k, max)] != PushAwaits(k, max)
        invariant old(Valid()) && gaps == [] && OthersRest(old(threads), t) ==> mine
      {
        Interfere(t, gaps, h, claimed, b);
        mid, was := ring, trace;
        mine := TestTagToPush(t);
        SinceTransitive(claimed, mid, ring, t);
        RanStep(b, was, t, GoesOn, gaps, h + 1, Proceed);
        h := h + 1;
      }
      if !mine { return false, h; }
      Interfere(t, gaps, h, claimed, b);
      mid, was := ring, trace;
      StoreElement(t);
      SinceTransitive(claimed, mid, ring, t);
      RanStep(b, was, t, GoesOn, gaps, h + 1, Proceed);
      Interfere(t, gaps, h + 1, claimed, b);
      mid, was := ring, trace;
      StoreTag(t);
      SinceTransitive(claimed, mid, ring, t);
      RanStep(b, was, t, GoesOn, gaps, h + 2, Proceed);
      return true, h + 2;
    }

    // `Push_CAS` by thread `t`, the others moving in the gaps.  Completed, it has claimed exactly one
    // ticket, and the item is the one pushed under it; rejected, none; if the gaps end before its turn
    // comes it is still waiting with its ticket, which in a valid queue never happens to a thread alone.
    method PushByCas(t: nat, item: T, gaps: seq<seq<(nat, Action<T>)>>)
      returns (end: End, ghost mine: nat, ghost used: nat)
      requires Sound() && t < |threads| && threads[t].Idle?
      modifies this, elem, tag
      ensures Sound() && (old(Valid()) ==> Valid()) && |threads| == old(|threads|)
      ensures Follows(old(ring), ring) && old(ring).pushed <= ring.pushed
      ensures end == Rejected ==> threads[t] == Idle(Pushed(false)) && ClaimsNothing(old(ring).pushers, ring.pushers, t)
      ensures end != Rejected ==> ClaimsOnly(old(ring).pushers, ring.pushers, t, mine)
                                  && mine < |ring.pushed| && ring.pushed[mine] == item
      ensures end != MovedOut && (end == Completed ==> threads[t] == Idle(Pushed(true)))
      ensures end == StillWaiting ==>
              threads[t] == PushWait(item, mine) && tag[TransIndex(mine, max)] != PushAwaits(mine, max)
      ensures old(Valid()) && gaps == [] && OthersRest(old(threads), t) ==> end != StillWaiting
      ensures ClaimsNothing(old(ring).poppers, ring.poppers, t)
      ensures Ran(old(trace) + [(t, CallPush(item))], trace, t, GoesOn, gaps, used)
      ensures end == StillWaiting ==> used >= |gaps|
      ensures end == Rejected ==> SawFull(old(ring), ring, t, item)
      ensures gaps == [] ==> (end == Rejected <==> old(writeIndex) == old(readIndex) + max)
    {
      hide *;
      GoingOn<T>();
      ghost var b := trace + [(t, CallPush(item))];
      ghost var s0, before := ring, ring;
      RingIsFine();
      SinceSelf(ring, t);
      Begin(t, CallPush(item));
      RanNothing(b, t, GoesOn, gaps);
      var g, verdict := 0, Retry;
      mine, used := 0, 0;
      while verdict == Retry
        invariant Sound() && |threads| == old(|threads|)
        invariant Ran(b, trace, t, GoesOn, gaps, used) && (verdict != Refused ==> used == g)
        invariant gaps == [] && OthersRest(old(threads), t) ==> OthersRest(threads, t)
        invariant verdict == Retry ==> threads[t] == PushLoadWrite(item) && Since(s0, ring, t)
        invariant verdict == Refused ==> threads[t] == Idle(Pushed(false)) && Since(s0, ring, t)
        invariant verdict == Claimed ==>
                    && threads[t] == PushWait(item, |before.pushers|)
                    && Since(s0, before, t) && Follows(before, ring) && |before.pushed| == |before.pushers|
                    && ring.pushers == before.pushers + [t] && ring.poppers == before.poppers
                    && ring.pushed == before.pushed + [item]
        decreases verdict == Retry, if g < |gaps| then |gaps| - g else 0
      {
        Interfere(t, gaps, g, s0, b);
        verdict, before, used := TryPush(t, item, gaps, g + 1, s0, b);
        g := g + 3;
      }
      if verdict == Refused {
        SinceMeans(s0, ring, t);
        FollowsValid(s0);
        PushMeans(s0, old(trace), t, item, gaps, used);
        return Rejected, 0, used;
      }
      ghost var claimed := ring;
      mine := |before.pushers|;
      SinceMeans(s0, before, t);
      FollowsTransitive(s0, before, ring);
      FollowsValid(s0);
      var done;
      done, used := FinishPush(t, item, threads[t].ticket, gaps, g, b);
      SinceMeans(claimed, ring, t);
      FollowsTransitive(s0, claimed, ring);
      ClaimsCompose(LedgerOf(s0), LedgerOf(before), LedgerOf(claimed), LedgerOf(ring), t);
      FollowsValid(s0);
      end := if done then Completed else StillWaiting;
      PushMeans(s0, old(trace), t, item, gaps, used);
    }

    // Load both indices, test for an element, try to claim the ticket.
    method TryPop(t: nat, gaps: seq<seq<(nat, Action<T>)>>, g: nat, ghost s0: Ring<T>, ghost b: seq<(nat, Action<T>)>)
      returns (verdict: Verdict, ghost before: Ring<T>, ghost used: nat)
      requires Sound() && t < |threads| && Since(s0, ring, t) && threads[t] == PopLoadWrite
      requires Ran(b, trace, t, GoesOn, gaps, g)
      modifies this, elem, tag
      ensures Sound() && |threads| == old(|threads|) && Ran(b, trace, t, GoesOn, gaps, used)
      ensures verdict != Refused ==> used == g + 2
      ensures gaps == [] && OthersRest(old(threads), t) ==> OthersRest(threads, t)
      ensures verdict == Refused ==> threads[t] == Idle(Popped(None)) && Since(s0, ring, t)
      ensures verdict == Retry ==> g + 1 < |gaps| && threads[t] == PopLoadWrite && Since(s0, ring, t)
      ensures verdict == Claimed ==>
                && threads[t] == PopWait(|before.poppers|)
                && Since(s0, before, t) && Follows(before, ring)
                && ring.poppers == before.poppers + [t] && ring.pushers == before.pushers
                && ring.pushed == before.pushed
    {
      hide *;
      GoingOn<T>();
      ghost var was := trace;
      before := ring;
      LoadWriteToPop(t);
      SinceTransitive(s0, before, ring, t);
      RanStep(b, was, t, GoesOn, gaps, g, Proceed);
      Interfere(t, gaps, g, s0, b);
      before, was := ring, trace;
      var empty := LoadReadToPop(t);
      SinceTransitive(s0, before, ring, t);
      RanStep(b, was, t, GoesOn, gaps, g + 1, Proceed);
      if empty { return Refused, before, g + 1; }
      Interfere(t, gaps, g + 1, s0, b);
      before, was := ring, trace;
      var won := CasReadIndex(t);
      RanStep(b, was, t, GoesOn, gaps, g + 2, Proceed);
      if won { return Claimed, before, g + 2; }
      SinceTransitive(s0, before, ring, t);
      return Retry, before, g + 2;
    }

    // Spin until the tag announces the push of the same ticket, then take the element.
    method FinishPop(t: nat, k: nat, gaps: seq<seq<(nat, Action<T>)>>, g: nat, ghost b: seq<(nat, Action<T>)>)
      returns (end: End, result: Option<T>, ghost used: nat)
      requires Sound() && t < |threads| && threads[t] == PopWait(k) && Ran(b, trace, t, GoesOn, gaps, g)
      modifies this, elem, tag
      ensures Sound() && |threads| == old(|threads|) && Since(old(ring), ring, t)
      ensures Ran(b, trace, t, GoesOn, gaps, used) && (end == StillWaiting ==> used >= |gaps|)
      ensures end != Rejected && (end == Completed <==> result.Some?)
      ensures end == Completed ==>
              threads[t] == Idle(Popped(result)) && k in ring.popped && ring.popped[k] == result.value
      ensures end == StillWaiting ==> threads[t] == PopWait(k) && tag[TransIndex(k, max)] != k + 1
      ensures end == MovedOut ==> threads[t] == PopTake(k) && elem[TransIndex(k, max)] == None
      ensures old(Valid()) ==> end != MovedOut
      ensures old(Valid()) && end == Completed ==> k < |ring.pushed| && ring.pushed[k] == result.value
      ensures old(Valid()) && gaps == [] && OthersRest(old(threads), t) ==> end == Completed
    {
      hide *;
      GoingOn<T>();
      ghost var claimed, mid, was := ring, ring, trace;
      RingIsFine();
      SinceSelf(ring, t);
      Interfere(t, gaps, g, claimed, b);
      mid, was := ring, trace;
      StaysValid(claimed, t);
      var mine := TestTagToPop(t);
      SinceTransitive(claimed, mid, ring, t);
      RanStep(b, was, t, GoesOn, gaps, g + 1, Proceed);
      var h: nat := g + 1;
      while !mine && h < |gaps|
        invariant Sound() && |threads| == old(|threads|) && Since(claimed, ring, t)
        invariant Ran(b, trace, t, GoesOn, gaps, h)
        invariant threads[t] == if mine then PopTake(k) else PopWait(k)
        invariant !mine ==> tag[TransIndex(k, max)] != k + 1
        invariant old(Valid()) && gaps == [] && OthersRest(old(threads), t) ==> mine
      {
        Interfere(t, gaps, h, claimed, b);
        mid, was := ring, trace;
        mine := TestTagToPop(t);
        SinceTransitive(claimed, mid, ring, t);
        RanStep(b, was, t, GoesOn, gaps, h + 1, Proceed);
        h := h + 1;
      }
      if !mine { return StillWaiting, None, h; }
      ghost var waited := ring;
      StaysValid(claimed, t);
      end, result, used := EmptySlot(t, k, gaps, h, b);
      SinceTransitive(claimed, waited, ring, t);
    }

    // Take the element and announce that the slot is free.
    method EmptySlot(t: nat, k: nat, gaps: seq<seq<(nat, Action<T>)>>, g: nat, ghost b: seq<(nat, Action<T>)>)
      returns (end: End, result: Option<T>, ghost used: nat)
      requires Sound() && t < |threads| && threads[t] == PopTake(k) && Ran(b, trace, t, GoesOn, gaps, g)
      modifies this, elem, tag
      ensures Sound() && |threads| == old(|threads|) && Since(old(ring), ring, t)
      ensures Ran(b, trace, t, GoesOn, gaps, used) && (end == Completed || end == MovedOut)
      ensures end == Completed <==> result.Some?
      ensures end == Completed ==>
              threads[t] == Idle(Popped(result)) && k in ring.popped && ring.popped[k] == result.value
      ensures end == MovedOut ==> threads[t] == PopTake(k) && elem[TransIndex(k, max)] == None
      ensures old(Valid()) ==> end == Completed && k < |ring.pushed| && ring.pushed[k] == result.value
    {
      hide *;
      GoingOn<T>();
      ghost var start := ring;
      RingIsFine();
      SinceSelf(ring, t);
      Interfere(t, gaps, g, start, b);
      ghost var mid, was := ring, trace;
      StaysValid(start, t);
      var item := TakeElement(t);
      SinceTransitive(start, mid, ring, t);
      RanStep(b, was, t, GoesOn, gaps, g + 1, Proceed);
      if item.None? { return MovedOut, None, g + 1; }
      Interfere(t, gaps, g + 1, start, b);
      mid, was := ring, trace;
      StaysValid(start, t);
      NegateTag(t);
      SinceTransitive(start, mid, ring, t);
      RanStep(b, was, t, GoesOn, gaps, g + 2, Proceed);
      return Completed, item, g + 2;
    }

    // `Pop_CAS` by thread `t`.  Completed, it has claimed exactly one ticket and returned the item of
    // the push of the same ticket; rejected, none.
    method PopByCas(t: nat, gaps: seq<seq<(nat, Action<T>)>>)
      returns (end: End, result: Option<T>, ghost mine: nat, ghost used: nat)
      requires Sound() && t < |threads| && threads[t].Idle?
      modifies this, elem, tag
      ensures Sound() && (old(Valid()) ==> Valid()) && |threads| == old(|threads|)
      ensures Follows(old(ring), ring) && old(ring).pushed <= ring.pushed
      ensures end == Rejected ==> threads[t] == Idle(Popped(None)) && ClaimsNothing(old(ring).poppers, ring.poppers, t)
      ensures end != Rejected ==> ClaimsOnly(old(ring).poppers, ring.poppers, t, mine)
      ensures end == Completed <==> result.Some?
      ensures end == Completed ==>
              threads[t] == Idle(Popped(result)) && mine in ring.popped && ring.popped[mine] == result.value
      ensures old(Valid()) && end == Completed ==> mine < |ring.pushed| && ring.pushed[mine] == result.value
      ensures end == MovedOut ==> threads[t] == PopTake(mine) && elem[TransIndex(mine, max)] == None
      ensures old(Valid()) ==> end != MovedOut
      ensures end == StillWaiting ==> threads[t] == PopWait(mine) && tag[TransIndex(mine, max)] != mine + 1
      ensures old(Valid()) && gaps == [] && OthersRest(old(threads), t) ==> end != StillWaiting
      ensures ClaimsNothing(old(ring).pushers, ring.pushers, t)
      ensures Ran(old(trace) + [(t, CallPop)], trace, t, GoesOn, gaps, used)
      ensures end == StillWaiting ==> used >= |gaps|
      ensures end == Rejected ==> SawEmpty(old(ring), ring, t)
      ensures gaps == [] ==> (end == Rejected <==> old(writeIndex) == old(readIndex))
    {
      hide *;
      GoingOn<T>();
      ghost var b := trace + [(t, CallPop)];
      ghost var s0, before := ring, ring;
      RingIsFine();
      SinceSelf(ring, t);
      Begin(t, CallPop);
      RanNothing(b, t, GoesOn, gaps);
      var g, verdict := 0, Retry;
      mine, result, used := 0, None, 0;
      while verdict == Retry
        invariant Sound() && |threads| == old(|threads|)
        invariant Ran(b, trace, t, GoesOn, gaps, used) && (verdict != Refused ==> used == g)
        invariant gaps == [] && OthersRest(old(threads), t) ==> OthersRest(threads, t)
        invariant verdict == Retry ==> threads[t] == PopLoadWrite && Since(s0, ring, t)
        invariant verdict == Refused ==> threads[t] == Idle(Popped(None)) && Since(s0, ring, t)
        invariant verdict == Claimed ==>
                    && threads[t] == PopWait(|before.poppers|)
                    && Since(s0, before, t) && Follows(before, ring)
                    && ring.poppers == before.poppers + [t] && ring.pushers == before.pushers
                    && ring.pushed == before.pushed
        decreases verdict == Retry, if g < |gaps| then |gaps| - g else 0
      {
        Interfere(t, gaps, g, s0, b);
        verdict, before, used := TryPop(t, gaps, g + 1, s0, b);
        g := g + 3;
      }
      if verdict == Refused {
        SinceMeans(s0, ring, t);
        FollowsValid(s0);
        PopMeans(s0, old(trace), t, gaps, used);
        return Rejected, None, 0, used;
      }
      ghost var claimed := ring;
      mine := |before.poppers|;
      SinceMeans(s0, before, t);
      FollowsTransitive(s0, before, ring);
      FollowsValid(s0);
      end, result, used := FinishPop(t, threads[t].ticket, gaps, g, b);
      SinceMeans(claimed, ring, t);
      FollowsTransitive(s0, claimed, ring);
      ClaimsCompose(LedgerOf(s0), LedgerOf(before), LedgerOf(claimed), LedgerOf(ring), t);
      FollowsValid(s0);
      PopMeans(s0, old(trace), t, gaps, used);
    }
  }
}
