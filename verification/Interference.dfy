// What an object went through during one call: the moves of the calling thread, and those of the
// other threads in the gaps between them, none left out.  A move is a thread and an action.
module Interference {

  // The moves of all threads but `t`.
  function OthersOf<A>(moves: seq<(nat, A)>, t: nat): (r: seq<(nat, A)>)
    ensures |r| <= |moves| && forall i | 0 <= i < |r| :: r[i].0 != t
  {
    if moves == [] then [] else (if moves[0].0 == t then [] else [moves[0]]) + OthersOf(moves[1..], t)
  }

  // The moves of the first `used` gaps.
  function InGaps<A>(gaps: seq<seq<(nat, A)>>, used: nat): seq<(nat, A)>
  {
    if used == 0 then [] else InGaps(gaps, used - 1) + if used <= |gaps| then gaps[used - 1] else []
  }

  // From trace `b` to trace `e` thread `t` went on with its call, by the actions that are its `own`, and the
  // others made the moves of the first `used` gaps and no more.
  ghost predicate RanBy<A>(b: seq<(nat, A)>, e: seq<(nat, A)>, moves: seq<(nat, A)>, t: nat, own: A -> bool,
                             gaps: seq<seq<(nat, A)>>, used: nat)
  {
    && e == b + moves && OthersOf(moves, t) == OthersOf(InGaps(gaps, used), t)
    && forall i | 0 <= i < |moves| :: moves[i].0 == t ==> own(moves[i].1)
  }

  ghost predicate Ran<A(!new)>(b: seq<(nat, A)>, e: seq<(nat, A)>, t: nat, own: A -> bool, gaps: seq<seq<(nat, A)>>,
                                  used: nat)
  {
    exists moves :: RanBy(b, e, moves, t, own, gaps, used)
  }

  lemma {:induction false} OthersConcat<A>(a: seq<(nat, A)>, b: seq<(nat, A)>, t: nat)
    ensures OthersOf(a + b, t) == OthersOf(a, t) + OthersOf(b, t)
    decreases |a|
  {
    if a == [] {
      assert a + b == b;
    } else {
      assert (a + b)[1..] == a[1..] + b;
      OthersConcat(a[1..], b, t);
    }
  }

  lemma NoOthers<A>(t: nat)
    ensures OthersOf<A>([], t) == []
  {
  }

  lemma OneMore<A>(q: seq<(nat, A)>, i: nat, t: nat)
    requires i < |q|
    ensures OthersOf(q[..i + 1], t) == OthersOf(q[..i], t) + if q[i].0 == t then [] else [q[i]]
  {
    var last: seq<(nat, A)> := [q[i]];
    assert q[..i + 1] == q[..i] + last;
    OthersConcat(q[..i], last, t);
    assert last[1..] == [];
  }

  lemma {:induction false} OthersTwice<A>(a: seq<(nat, A)>, t: nat)
    ensures OthersOf(OthersOf(a, t), t) == OthersOf(a, t)
  {
    if a != [] && a[0].0 == t {
      OthersTwice(a[1..], t);
      assert OthersOf(a, t) == OthersOf(a[1..], t);
    } else if a != [] {
      OthersTwice(a[1..], t);
      assert OthersOf(a, t)[1..] == OthersOf(a[1..], t);
    }
  }

  lemma {:induction false} RanNothing<A(!new)>(b: seq<(nat, A)>, t: nat, own: A -> bool, gaps: seq<seq<(nat, A)>>)
    ensures Ran(b, b, t, own, gaps, 0)
  {
    assert RanBy(b, b, [], t, own, gaps, 0);
  }

  lemma {:induction false} RanStep<A(!new)>(b: seq<(nat, A)>, e: seq<(nat, A)>, t: nat, own: A -> bool,
                                     gaps: seq<seq<(nat, A)>>, used: nat, a: A)
    requires Ran(b, e, t, own, gaps, used) && own(a)
    ensures Ran(b, e + [(t, a)], t, own, gaps, used)
  {
    var moves :| RanBy(b, e, moves, t, own, gaps, used);
    OthersConcat(moves, [(t, a)], t);
    assert OthersOf([(t, a)], t) == OthersOf([(t, a)][1..], t) == [];
    assert RanBy(b, e + [(t, a)], moves + [(t, a)], t, own, gaps, used);
  }

  lemma OneMoreGap<A>(gaps: seq<seq<(nat, A)>>, used: nat)
    requires used < |gaps|
    ensures InGaps(gaps, used + 1) == InGaps(gaps, used) + gaps[used]
  {
  }

  lemma NoMoreGaps<A>(gaps: seq<seq<(nat, A)>>, used: nat)
    requires used >= |gaps|
    ensures InGaps(gaps, used + 1) == InGaps(gaps, used)
  {
    var before := InGaps(gaps, used);
    assert before + [] == before;
  }

  lemma {:induction false} RanGap<A(!new)>(b: seq<(nat, A)>, e: seq<(nat, A)>, t: nat, own: A -> bool,
                                     gaps: seq<seq<(nat, A)>>, used: nat)
    requires Ran(b, e, t, own, gaps, used)
    ensures Ran(b, if used < |gaps| then e + OthersOf(gaps[used], t) else e, t, own, gaps, used + 1)
  {
    hide OthersOf, InGaps;
    var moves :| RanBy(b, e, moves, t, own, gaps, used);
    if used < |gaps| {
      var others := OthersOf(gaps[used], t);
      OthersConcat(moves, others, t);
      OthersTwice(gaps[used], t);
      OneMoreGap(gaps, used);
      OthersConcat(InGaps(gaps, used), gaps[used], t);
      assert e + others == b + (moves + others);
      assert RanBy(b, e + others, moves + others, t, own, gaps, used + 1);
    } else {
      NoMoreGaps(gaps, used);
      assert RanBy(b, e, moves, t, own, gaps, used + 1);
    }
  }

  // Without gaps the call ran alone.
  lemma {:induction false} Alone<A(!new)>(b: seq<(nat, A)>, e: seq<(nat, A)>, t: nat, own: A -> bool, used: nat)
    returns (moves: seq<(nat, A)>)
    requires Ran(b, e, t, own, [], used)
    ensures e == b + moves && forall i | 0 <= i < |moves| :: moves[i].0 == t && own(moves[i].1)
  {
    moves :| RanBy(b, e, moves, t, own, [], used);
    NoGaps<A>(used);
    AllOwn(moves, t);
  }

  lemma {:induction false} NoGaps<A>(used: nat)
    ensures InGaps<A>([], used) == []
  {
    if used > 0 { NoGaps<A>(used - 1); }
  }

  lemma {:induction false} AllOwn<A>(moves: seq<(nat, A)>, t: nat)
    requires OthersOf(moves, t) == []
    ensures forall i | 0 <= i < |moves| :: moves[i].0 == t
  {
    if moves != [] {
      AllOwn(moves[1..], t);
      forall i | 0 <= i < |moves| ensures moves[i].0 == t { if i > 0 { assert moves[i] == moves[1..][i - 1]; } }
    }
  }
}
