// What the calls of the claim-then-wait ring answer, for every size: a refusal comes from indices read
// during the call.
module TurnCalls {
  import opened Wrappers
  import opened TurnRing
  import opened TurnGuarantees

  predicate GoesOn<T>(a: Action<T>) { a.Proceed? }

  // Thread `t` goes on with its call and makes no other.
  ghost predicate NoCalls<T>(schedule: seq<(nat, Action<T>)>, t: nat)
  {
    forall i | 0 <= i < |schedule| :: schedule[i].0 == t ==> GoesOn(schedule[i].1)
  }

  // In state `m` thread `t` is about to load the read index, and the queue holds `max` tickets, as many
  // as when it loaded the write index, which it did since that was `low`.
  ghost predicate FindsFull<T>(m: Ring<T>, t: nat, item: T, low: nat)
  {
    && t < |m.threads| && m.threads[t] == PushLoadRead(item, m.writeIndex)
    && low <= m.writeIndex == m.readIndex + m.max
  }

  // In state `m` thread `t` is about to load the read index, and every ticket issued when it loaded the
  // write index, which it did since that was `low`, is claimed.
  ghost predicate FindsEmpty<T>(m: Ring<T>, t: nat, low: nat)
  {
    t < |m.threads| && m.threads[t].PopLoadRead? && low <= m.threads[t].w <= m.readIndex
  }

  // ---------- The steps of one call ----------

  lemma TailOfNoCalls<T>(schedule: seq<(nat, Action<T>)>, t: nat)
    requires schedule != [] && NoCalls(schedule, t)
    ensures NoCalls(schedule[1..], t) && (schedule[0].0 == t ==> GoesOn(schedule[0].1))
  {
    forall i | 0 <= i < |schedule[1..]| ensures schedule[1..][i].0 == t ==> GoesOn(schedule[1..][i].1) {
      assert schedule[1..][i] == schedule[i + 1];
    }
  }

  lemma OtherStays<T>(s: Ring<T>, u: nat, a: Action<T>, t: nat)
    requires Indexed(s) && t < |s.threads| && u != t
    ensures var r := Step(s, u, a);
            t < |r.threads| && r.threads[t] == s.threads[t] && s.writeIndex <= r.writeIndex
  {
    hide TransIndex;
    StepIndexed(s, u, a);
  }

  ghost predicate Asking<T>(p: Phase<T>, item: T)
  {
    (p.PushLoadWrite? || p.PushLoadRead? || p.PushCas?) && p.item == item
  }

  predicate Accepted<T>(p: Phase<T>) { p.Pushes() || (p.Idle? && p.last == Pushed(true)) }

  lemma {:induction false} PushGoesOn<T>(s: Ring<T>, t: nat)
    requires Indexed(s) && t < |s.threads|
    ensures var (p, r) := (s.threads[t], Step(s, t, Proceed));
            && t < |r.threads|
            && var q := r.threads[t];
            && (p.PushLoadWrite? ==> q == PushLoadRead(p.item, s.writeIndex) && r == At(s, t, q))
            && (p.PushLoadRead? ==> r == At(s, t, q))
            && (p.PushLoadRead? ==>
                  if p.w == s.writeIndex == s.readIndex + s.max then q == Idle(Pushed(false))
                      else q == PushCas(p.item, p.w))
            && (p.PushCas? ==> if p.w == s.writeIndex then q.PushWait? else q == PushLoadWrite(p.item))
            && (Accepted(p) ==> Accepted(q))
            && (p.Idle? ==> q == p)
  {
    hide TransIndex;
    assert CopyOk(s, t);
    if s.threads[t].PushLoadWrite? || s.threads[t].PushLoadRead? {
    } else if s.threads[t].PushCas? {
    } else if s.threads[t].Pushes() {
    } else {
    }
  }

  predicate Seeking<T>(p: Phase<T>) { p.PopLoadWrite? || p.PopLoadRead? || p.PopCas? }

  predicate Taken<T>(p: Phase<T>) { p.Pops() || (p.Idle? && p.last.Popped? && p.last.result.Some?) }

  lemma {:induction false} PopGoesOn<T>(s: Ring<T>, t: nat)
    requires Indexed(s) && t < |s.threads|
    ensures var (p, r) := (s.threads[t], Step(s, t, Proceed));
            && t < |r.threads|
            && var q := r.threads[t];
            && (p.PopLoadWrite? ==> q == PopLoadRead(s.writeIndex) && r == At(s, t, q))
            && (p.PopLoadRead? ==> r == At(s, t, q))
            && (p.PopLoadRead? ==>
                  if p.w <= s.readIndex then q == Idle(Popped(None)) else q == PopCas(s.readIndex))
            && (p.PopCas? ==> if p.r == s.readIndex then q.PopWait? else q == PopLoadWrite)
            && (Taken(p) ==> Taken(q))
            && (p.Idle? ==> q == p)
  {
    hide TransIndex;
    if s.threads[t].PopLoadWrite? || s.threads[t].PopLoadRead? {
    } else if s.threads[t].PopCas? {
    } else if s.threads[t].Pops() {
    } else {
    }
  }

  // What a thread has come to, it keeps: accepted, with an item in view, or at rest.
  lemma {:induction false} Stays<T>(s: Ring<T>, t: nat, schedule: seq<(nat, Action<T>)>)
    requires Indexed(s) && t < |s.threads| && NoCalls(schedule, t)
    ensures var (p, q) := (s.threads[t], Run(s, schedule).threads[t]);
            (Accepted(p) ==> Accepted(q)) && (Taken(p) ==> Taken(q)) && (p.Idle? ==> q == p)
    decreases |schedule|
  {
    hide Indexed, Step, Accepted, Taken;
    if schedule != [] {
      var (u, a) := schedule[0];
      IndexedShaped(s);
      StepIndexed(s, u, a);
      TailOfNoCalls(schedule, t);
      if u == t {
        PushGoesOn(s, t);
        PopGoesOn(s, t);
      } else {
        OtherStays(s, u, a, t);
      }
      Stays(Step(s, u, a), t, schedule[1..]);
    }
  }

  lemma IndexedShaped<T>(s: Ring<T>)
    requires Indexed(s)
    ensures Shaped(s)
  {
  }

  // ---------- A refusal ----------

  // A push answers false only from a moment of the call at which the queue held `max` tickets.
  lemma {:induction false} RefusedPush<T>(s: Ring<T>, t: nat, item: T, low: nat, schedule: seq<(nat, Action<T>)>)
    returns (i: nat)
    requires Indexed(s) && t < |s.threads| && NoCalls(schedule, t) && low <= s.writeIndex
    requires Asking(s.threads[t], item) && (s.threads[t].PushLoadRead? ==> low <= s.threads[t].w)
    requires Run(s, schedule).threads[t] == Idle(Pushed(false))
    ensures i < |schedule| && schedule[i].0 == t && FindsFull(Run(s, schedule[..i]), t, item, low)
    decreases |schedule|
  {
    hide Indexed, Step;
    IndexedShaped(s);
    var (u, a) := schedule[0];
    var s' := Step(s, u, a);
    StepIndexed(s, u, a);
    TailOfNoCalls(schedule, t);
    if u == t { PushGoesOn(s, t); } else { OtherStays(s, u, a, t); }
    assert schedule[..0] == [];
    if u == t && s'.threads[t].Idle? {
      i := 0;
    } else if Asking(s'.threads[t], item) {
      var j := RefusedPush(s', t, item, low, schedule[1..]);
      i := j + 1;
      assert schedule[..i][1..] == schedule[1..][..j];
    } else {
      Stays(s', t, schedule[1..]);
    }
  }

  // A pop answers nothing only from a moment of the call at which every ticket it knew of was claimed.
  lemma {:induction false} RefusedPop<T>(s: Ring<T>, t: nat, low: nat, schedule: seq<(nat, Action<T>)>) returns (i: nat)
    requires Indexed(s) && t < |s.threads| && NoCalls(schedule, t) && low <= s.writeIndex
    requires Seeking(s.threads[t]) && (s.threads[t].PopLoadRead? ==> low <= s.threads[t].w)
    requires Run(s, schedule).threads[t] == Idle(Popped(None))
    ensures i < |schedule| && schedule[i].0 == t && FindsEmpty(Run(s, schedule[..i]), t, low)
    decreases |schedule|
  {
    hide Indexed, Step;
    IndexedShaped(s);
    var (u, a) := schedule[0];
    var s' := Step(s, u, a);
    StepIndexed(s, u, a);
    TailOfNoCalls(schedule, t);
    if u == t { PopGoesOn(s, t); } else { OtherStays(s, u, a, t); }
    assert schedule[..0] == [];
    if u == t && s'.threads[t].Idle? {
      i := 0;
    } else if Seeking(s'.threads[t]) {
      var j := RefusedPop(s', t, low, schedule[1..]);
      i := j + 1;
      assert schedule[..i][1..] == schedule[1..][..j];
    } else {
      Stays(s', t, schedule[1..]);
    }
  }

  // ---------- A call alone ----------

  // Alone, a push is refused exactly when the queue holds `max` tickets, and a pop when it holds none.
  lemma {:induction false} PushAlone<T>(s: Ring<T>, t: nat, item: T, schedule: seq<(nat, Action<T>)>)
    requires Indexed(s) && t < |s.threads| && (forall i | 0 <= i < |schedule| :: schedule[i] == (t, Proceed))
    requires Asking(s.threads[t], item)
    requires s.threads[t].PushLoadRead? || s.threads[t].PushCas? ==> s.threads[t].w == s.writeIndex
    requires s.threads[t].PushCas? ==> s.writeIndex < s.readIndex + s.max
    requires !Asking(Run(s, schedule).threads[t], item)
    ensures Run(s, schedule).threads[t] == Idle(Pushed(false)) <==> s.writeIndex == s.readIndex + s.max
    decreases |schedule|
  {
    hide Indexed, Step;
    IndexedShaped(s);
    var s' := Step(s, t, Proceed);
    assert schedule[0] == (t, Proceed);
    StepIndexed(s, t, Proceed);
    PushGoesOn(s, t);
    NeverBeyond(s);
    assert forall i | 0 <= i < |schedule[1..]| :: schedule[1..][i] == schedule[i + 1];
    if Asking(s'.threads[t], item) {
      PushAlone(s', t, item, schedule[1..]);
    } else {
      Stays(s', t, schedule[1..]);
    }
  }

  lemma NeverBeyond<T>(s: Ring<T>)
    requires Indexed(s)
    ensures s.writeIndex <= s.readIndex + s.max
  {
  }

  lemma {:induction false} PopAlone<T>(s: Ring<T>, t: nat, schedule: seq<(nat, Action<T>)>)
    requires Indexed(s) && t < |s.threads| && (forall i | 0 <= i < |schedule| :: schedule[i] == (t, Proceed))
    requires Seeking(s.threads[t])
    requires s.threads[t].PopLoadRead? ==> s.threads[t].w == s.writeIndex
    requires s.threads[t].PopCas? ==> s.threads[t].r == s.readIndex < s.writeIndex
    requires !Seeking(Run(s, schedule).threads[t])
    ensures Run(s, schedule).threads[t] == Idle(Popped(None)) <==> s.writeIndex <= s.readIndex
    decreases |schedule|
  {
    hide Indexed, Step;
    IndexedShaped(s);
    var s' := Step(s, t, Proceed);
    assert schedule[0] == (t, Proceed);
    StepIndexed(s, t, Proceed);
    PopGoesOn(s, t);
    assert forall i | 0 <= i < |schedule[1..]| :: schedule[1..][i] == schedule[i + 1];
    if Seeking(s'.threads[t]) {
      PopAlone(s', t, schedule[1..]);
    } else {
      Stays(s', t, schedule[1..]);
    }
  }
}
