// The spin waits end: if every thread keeps being scheduled, every claimed ticket finishes, and
// within a bounded number of rounds, if the size is a power of two.
module TurnFairness {
  import opened Bits
  import opened TurnRing
  import opened TurnGuarantees
  import opened TurnProgress

  // The thread holds one of the first `w` push tickets or one of the first `r` pop tickets.
  predicate HoldsEarly<T>(p: Phase<T>, w: nat, r: nat)
  {
    (p.Pushes() && p.ticket < w) || (p.Pops() && p.ticket < r)
  }

  // How many steps the holders of these tickets still have to take.
  function EarlyOwed<T>(q: seq<Phase<T>>, w: nat, r: nat): nat
  {
    if q == [] then 0
    else EarlyOwedOne(q[|q| - 1], w, r) + EarlyOwed(q[..|q| - 1], w, r)
  }

  function EarlyOwedOne<T>(p: Phase<T>, w: nat, r: nat): nat
  {
    if HoldsEarly(p, w, r) then OwedOne(p) else 0
  }

  lemma {:induction false} EarlyOwedUpdate<T>(q: seq<Phase<T>>, t: nat, p: Phase<T>, w: nat, r: nat)
    requires t < |q|
    ensures EarlyOwed(q[t := p], w, r) == EarlyOwed(q, w, r) - EarlyOwedOne(q[t], w, r) + EarlyOwedOne(p, w, r)
  {
    var u := q[t := p];
    var n := |q| - 1;
    if t < n {
      assert u[..n] == q[..n][t := p];
      EarlyOwedUpdate(q[..n], t, p, w, r);
    } else {
      assert u[..n] == q[..n];
    }
  }

  lemma {:induction false} EarlyAtMostAll<T>(q: seq<Phase<T>>, w: nat, r: nat)
    ensures EarlyOwed(q, w, r) <= Owed(q)
    decreases |q|
  {
    if q != [] { EarlyAtMostAll(q[..|q| - 1], w, r); }
  }

  lemma {:induction false} NothingOwed<T>(q: seq<Phase<T>>, w: nat, r: nat)
    ensures EarlyOwed(q, w, r) == 0 <==> forall t: nat | t < |q| :: !HoldsEarly(q[t], w, r)
    decreases |q|
  {
    if q != [] {
      var n := |q| - 1;
      NothingOwed(q[..n], w, r);
      assert forall t: nat | t < n :: q[..n][t] == q[t];
    }
  }

  // A step moves its own thread only.
  lemma OwnThreadOnly<T>(s: Ring<T>, t: nat, a: Action<T>)
    requires Shaped(s)
    ensures t < |s.threads| ==> Step(s, t, a).threads == s.threads[t := Step(s, t, a).threads[t]]
    ensures t >= |s.threads| ==> Step(s, t, a) == s
  {
    hide TransIndex;
  }

  // No step adds to what the early tickets owe, and a holder that moves pays.
  lemma StepPays<T>(s: Ring<T>, t: nat, a: Action<T>, w: nat, r: nat)
    requires Shaped(s) && w <= s.writeIndex && r <= s.readIndex
    ensures var s' := Step(s, t, a);
            && EarlyOwed(s'.threads, w, r) <= EarlyOwed(s.threads, w, r)
            && w <= s'.writeIndex && r <= s'.readIndex
            && (CanMove(s, t) && HoldsEarly(s.threads[t], w, r) ==>
                 EarlyOwed(s'.threads, w, r) < EarlyOwed(s.threads, w, r))
  {
    hide TransIndex, EarlyOwed;
    OwnThreadOnly(s, t, a);
    if t < |s.threads| {
      EarlyOwedUpdate(s.threads, t, Step(s, t, a).threads[t], w, r);
      OnePays(s, t, a, w, r);
    }
  }

  lemma OnePays<T>(s: Ring<T>, t: nat, a: Action<T>, w: nat, r: nat)
    requires Shaped(s) && w <= s.writeIndex && r <= s.readIndex && t < |s.threads|
    ensures var (p, p') := (s.threads[t], Step(s, t, a).threads[t]);
            && EarlyOwedOne(p', w, r) <= EarlyOwedOne(p, w, r)
            && (CanMove(s, t) && HoldsEarly(p, w, r) ==> EarlyOwedOne(p', w, r) < EarlyOwedOne(p, w, r))
    ensures var s' := Step(s, t, a); s.writeIndex <= s'.writeIndex && s.readIndex <= s'.readIndex
  {
    hide TransIndex;
    var p := s.threads[t];
    if p.PushWait? || p.PushStore? || p.PushTag? {
    } else if p.PopWait? {
    } else if p.PopTake? || p.PopTag? {
    } else if p.PushCas? {
    } else if p.PopCas? {
    } else {
    }
  }

  lemma {:induction false} RunPays<T>(s: Ring<T>, schedule: seq<(nat, Action<T>)>, w: nat, r: nat)
    requires Inv(s) && w <= s.writeIndex && r <= s.readIndex
    ensures var s' := Run(s, schedule);
            && Inv(s') && w <= s'.writeIndex && r <= s'.readIndex
            && EarlyOwed(s'.threads, w, r) <= EarlyOwed(s.threads, w, r)
    decreases |schedule|
  {
    hide Inv, EarlyOwed, Step;
    if schedule != [] {
      ShapedOf(s);
      StepInv(s, schedule[0].0, schedule[0].1);
      StepPays(s, schedule[0].0, schedule[0].1, w, r);
      RunPays(Step(s, schedule[0].0, schedule[0].1), schedule[1..], w, r);
    }
  }

  lemma ShapedOf<T>(s: Ring<T>)
    requires Inv(s)
    ensures Shaped(s) && s.writeIndex <= s.readIndex + s.max && s.readIndex <= s.writeIndex
  {
  }

  // While an early ticket is unfinished the holder of some early ticket can move.
  lemma SomeEarlyMoves<T>(s: Ring<T>, u: nat, w: nat, r: nat) returns (t: nat)
    requires Inv(s) && w <= r + s.max && r <= w && u < |s.threads| && HoldsEarly(s.threads[u], w, r)
    ensures CanMove(s, t) && HoldsEarly(s.threads[t], w, r)
  {
    hide Inv, TransIndex;
    t := HolderMoves(s, u);
  }

  // A thread that can move still can after any step of another: the tag it waits for stays.
  lemma MoveStays<T>(s: Ring<T>, t: nat, u: nat, a: Action<T>)
    requires Inv(s) && CanMove(s, t) && u != t
    ensures Step(s, u, a).threads[t] == s.threads[t] && CanMove(Step(s, u, a), t)
  {
    hide TransIndex, SlotOk, TicketOk;
    OwnThreadOnly(s, u, a);
    StepInv(s, u, a);
    if s.threads[t].Inside() {
      InsideMoves(Step(s, u, a), t);
    } else {
      TagStays(s, t, u, a);
    }
  }

  lemma TagStays<T>(s: Ring<T>, t: nat, u: nat, a: Action<T>)
    requires Inv(s) && CanMove(s, t) && u != t && !s.threads[t].Inside()
    ensures var i := TransIndex(s.threads[t].ticket, s.max); Step(s, u, a).tag[i] == s.tag[i]
  {
    hide TransIndex, SlotOk, TicketOk;
    var k := s.threads[t].ticket;
    var i := TransIndex(k, s.max);
    assert ThreadOk(s, t);
    TagsTakeTurns(s, u, a, i);
    if Step(s, u, a).tag[i] != s.tag[i] {
      assert ThreadOk(s, u);
      IndexApart(k, s.threads[u].ticket, s.max);
      assert false;
    }
  }

  ghost predicate HasTurn<T>(round: seq<(nat, Action<T>)>, t: nat)
  {
    exists i :: 0 <= i < |round| && round[i].0 == t
  }

  // A round in which the thread gets its turn.
  lemma {:induction false} RoundPays<T>(s: Ring<T>, round: seq<(nat, Action<T>)>, t: nat, w: nat, r: nat)
    requires Inv(s) && w <= s.writeIndex && r <= s.readIndex
    requires CanMove(s, t) && HoldsEarly(s.threads[t], w, r) && HasTurn(round, t)
    ensures EarlyOwed(Run(s, round).threads, w, r) < EarlyOwed(s.threads, w, r)
    decreases |round|
  {
    hide Inv, EarlyOwed, Step, CanMove;
    var (u, a) := round[0];
    ShapedOf(s);
    StepPays(s, u, a, w, r);
    StepInv(s, u, a);
    if u == t {
      RunPays(Step(s, u, a), round[1..], w, r);
    } else {
      MoveStays(s, t, u, a);
      var i :| 0 <= i < |round| && round[i].0 == t;
      assert round[1..][i - 1].0 == t;
      RoundPays(Step(s, u, a), round[1..], t, w, r);
    }
  }

  // ---------- Rounds ----------

  // In a round every thread moves at least once, in any order and with any calls.
  ghost predicate EveryoneMoves<T>(round: seq<(nat, Action<T>)>, n: nat)
  {
    forall t: nat | t < n :: HasTurn(round, t)
  }

  ghost predicate Fair<T>(rounds: seq<seq<(nat, Action<T>)>>, n: nat)
  {
    forall j | 0 <= j < |rounds| :: EveryoneMoves(rounds[j], n)
  }

  function RunRounds<T>(s: Ring<T>, rounds: seq<seq<(nat, Action<T>)>>): (r: Ring<T>)
    requires Shaped(s)
    ensures Shaped(r) && |r.threads| == |s.threads| && r.max == s.max
    decreases |rounds|
  {
    if rounds == [] then s else RunRounds(Run(s, rounds[0]), rounds[1..])
  }

  lemma {:induction false} RoundsPay<T>(s: Ring<T>, rounds: seq<seq<(nat, Action<T>)>>, w: nat, r: nat)
    requires Inv(s) && w <= s.writeIndex && r <= s.readIndex && w <= r + s.max && r <= w
    requires Fair(rounds, |s.threads|)
    ensures var s' := RunRounds(s, rounds);
            Inv(s') && (EarlyOwed(s'.threads, w, r) + |rounds| <= EarlyOwed(s.threads, w, r)
                || EarlyOwed(s'.threads, w, r) == 0)
    decreases |rounds|
  {
    hide Inv, EarlyOwed, Run;
    if rounds != [] {
      ShapedOf(s);
      var s1 := Run(s, rounds[0]);
      RunPays(s, rounds[0], w, r);
      if EarlyOwed(s.threads, w, r) > 0 {
        NothingOwed(s.threads, w, r);
        var u: nat :| u < |s.threads| && HoldsEarly(s.threads[u], w, r);
        var t := SomeEarlyMoves(s, u, w, r);
        assert EveryoneMoves(rounds[0], |s.threads|);
        RoundPays(s, rounds[0], t, w, r);
      }
      forall j | 0 <= j < |rounds[1..]| ensures EveryoneMoves(rounds[1..][j], |s.threads|) {
        assert EveryoneMoves(rounds[j + 1], |s.threads|);
      }
      RoundsPay(s1, rounds[1..], w, r);
    }
  }

  // Every ticket claimed in `s` is over in `r`, and the pops among them have their items.
  ghost predicate Finished<T>(s: Ring<T>, r: Ring<T>)
  {
    && (forall t: nat | t < |r.threads| :: !HoldsEarly(r.threads[t], s.writeIndex, s.readIndex))
    && (forall k: nat | k < s.readIndex :: k < |s.pushed| && k in r.popped && r.popped[k] == s.pushed[k])
  }

  // As many fair rounds as steps are owed finish every ticket claimed so far, whatever else the
  // threads do meanwhile.
  lemma FairRoundsFinish<T>(s: Ring<T>, rounds: seq<seq<(nat, Action<T>)>>)
    requires Inv(s) && Fair(rounds, |s.threads|) && |rounds| >= Owed(s.threads)
    ensures Finished(s, RunRounds(s, rounds))
  {
    var (w, r) := (s.writeIndex, s.readIndex);
    var s' := RunRounds(s, rounds);
    RoundsPay(s, rounds, w, r);
    EarlyAtMostAll(s.threads, w, r);
    NothingOwed(s'.threads, w, r);
    RoundsGrow(s, rounds);
    PopsDone(s', w, r);
    assert forall k: nat | k < r :: s'.pushed[k] == s.pushed[k];
  }

  lemma {:induction false} RoundsGrow<T>(s: Ring<T>, rounds: seq<seq<(nat, Action<T>)>>)
    requires Inv(s)
    ensures var s' := RunRounds(s, rounds); s.pushed <= s'.pushed && s.readIndex <= s'.readIndex
    decreases |rounds|
  {
    hide Inv, Run;
    if rounds != [] {
      ShapedOf(s);
      RunInv(s, rounds[0]);
      HistoryGrows(s, rounds[0]);
      RoundsGrow(Run(s, rounds[0]), rounds[1..]);
    }
  }

  lemma PopsDone<T>(s: Ring<T>, w: nat, r: nat)
    requires Inv(s) && r <= s.readIndex && forall t: nat | t < |s.threads| :: !HoldsEarly(s.threads[t], w, r)
    ensures r <= |s.pushed| && forall k: nat | k < r :: k in s.popped && s.popped[k] == s.pushed[k]
  {
    hide SlotOk, TransIndex;
    forall k: nat | k < r ensures k in s.popped && s.popped[k] == s.pushed[k] { assert TicketOk(s, k); }
  }

  // Fair scheduling finishes every claimed ticket, in all runs of all numbers of threads, exactly
  // when the size is a power of two.
  lemma {:induction false} FairRunsFinishIffPow2<T(!new)>(max: nat, x: T)
    requires max >= 2
    ensures (forall n: nat, schedule: seq<(nat, Action<T>)>, rounds: seq<seq<(nat, Action<T>)>> |
               Fair(rounds, n) && |rounds| >= Owed(Run(Init<T>(max, n), schedule).threads) ::
               Finished(Run(Init<T>(max, n), schedule), RunRounds(Run(Init<T>(max, n), schedule), rounds)))
            <==> IsPow2(max)
  {
    if IsPow2(max) {
      forall n: nat, schedule: seq<(nat, Action<T>)>, rounds: seq<seq<(nat, Action<T>)>> |
        Fair(rounds, n) && |rounds| >= Owed(Run(Init<T>(max, n), schedule).threads)
        ensures Finished(Run(Init<T>(max, n), schedule), RunRounds(Run(Init<T>(max, n), schedule), rounds))
      {
        InitInv<T>(max, n);
        RunInv(Init<T>(max, n), schedule);
        FairRoundsFinish(Run(Init<T>(max, n), schedule), rounds);
      }
    } else {
      FairButStuck(max, x);
    }
  }

  lemma {:induction false} FairButStuck<T(!new)>(max: nat, x: T)
    requires max >= 2 && !IsPow2(max)
    ensures exists n: nat, schedule: seq<(nat, Action<T>)>, rounds: seq<seq<(nat, Action<T>)>> ::
              Fair(rounds, n) && |rounds| >= Owed(Run(Init<T>(max, n), schedule).threads)
              && !Finished(Run(Init<T>(max, n), schedule), RunRounds(Run(Init<T>(max, n), schedule), rounds))
  {
    var schedule := OtherSizesHang(max, 1, x);
    var s := Run(Init<T>(max, 1), schedule);
    var round: seq<(nat, Action<T>)> := [(0, Proceed)];
    assert round[0].0 == 0;
    var rounds := seq(Owed(s.threads), _ => round);
    HungThroughRounds(s, 0, LowestZero(max - 1), rounds);
    assert Fair(rounds, 1);
  }

  lemma {:induction false} HungThroughRounds<T>(s: Ring<T>, t: nat, k: nat, rounds: seq<seq<(nat, Action<T>)>>)
    requires Shaped(s) && Hung(s, t, k)
    ensures RunRounds(s, rounds).threads[t] == s.threads[t]
    decreases |rounds|
  {
    if rounds != [] {
      HungForEver(s, t, k, rounds[0]);
      HungThroughRounds(Run(s, rounds[0]), t, k, rounds[1..]);
    }
  }
}
