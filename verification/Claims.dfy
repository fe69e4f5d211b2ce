// Who claimed which tickets: in a list of claimers by ticket, what one thread added.
module Claims {

  // What thread `t` claimed between two moments: nothing, or ticket `k` alone.
  ghost predicate ClaimsNothing(before: seq<nat>, after: seq<nat>, t: nat)
  {
    before <= after && forall k | |before| <= k < |after| :: after[k] != t
  }

  ghost predicate ClaimsOnly(before: seq<nat>, after: seq<nat>, t: nat, k: nat)
  {
    before <= after && |before| <= k < |after| && forall j | |before| <= j < |after| :: after[j] == t <==> j == k
  }

  // The histories both rings keep: items pushed, and who claimed each push and each pop.
  datatype Ledger<T> = Ledger(pushed: seq<T>, pushers: seq<nat>, poppers: seq<nat>)

  ghost predicate Untouched<T>(a: Ledger<T>, b: Ledger<T>, t: nat)
  {
    a.pushed <= b.pushed && ClaimsNothing(a.pushers, b.pushers, t) && ClaimsNothing(a.poppers, b.poppers, t)
  }

  lemma UntouchedTransitive<T>(a: Ledger<T>, b: Ledger<T>, d: Ledger<T>, t: nat)
    requires Untouched(a, b, t) && Untouched(b, d, t)
    ensures Untouched(a, d, t)
  {
    forall k | |a.pushers| <= k < |d.pushers| ensures d.pushers[k] != t
    {
      if k < |b.pushers| { assert d.pushers[k] == b.pushers[k]; }
    }
    forall k | |a.poppers| <= k < |d.poppers| ensures d.poppers[k] != t
    {
      if k < |b.poppers| { assert d.poppers[k] == b.poppers[k]; }
    }
  }

  // Nothing claimed from `a` to `b`, then one ticket, then nothing from `c` to `d`.
  lemma ClaimsCompose<T>(a: Ledger<T>, b: Ledger<T>, c: Ledger<T>, d: Ledger<T>, t: nat)
    requires Untouched(a, b, t) && Untouched(c, d, t) && b.pushed <= c.pushed
    ensures a.pushed <= d.pushed && c.pushed <= d.pushed
    ensures c.pushers == b.pushers + [t] && c.poppers == b.poppers ==>
              ClaimsOnly(a.pushers, d.pushers, t, |b.pushers|) && ClaimsNothing(a.poppers, d.poppers, t)
    ensures c.poppers == b.poppers + [t] && c.pushers == b.pushers ==>
              ClaimsOnly(a.poppers, d.poppers, t, |b.poppers|) && ClaimsNothing(a.pushers, d.pushers, t)
  {
    if c.pushers == b.pushers + [t] { assert c.pushers[|b.pushers|] == t; }
    if c.poppers == b.poppers + [t] { assert c.poppers[|b.poppers|] == t; }
  }
}
