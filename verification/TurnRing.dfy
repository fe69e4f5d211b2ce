// The claim-then-wait ring: a thread first takes a ticket from a shared index, then spins
// until the tag of its slot says that its turn has come.  Tickets of many laps may wait on
// one slot.  One atomic access per step, any number of threads.
module TurnRing {
  import opened Wrappers
  import opened Bits
  import opened Slots

  datatype Outcome<T> = NoCall | Pushed(accepted: bool) | Popped(result: Option<T>)

  datatype Phase<T> =
    | Idle(last: Outcome<T>)
    | PushLoadWrite(item: T)
    | PushLoadRead(item: T, w: nat)
    | PushCas(item: T, w: nat)
    | PushWait(item: T, ticket: nat)
    | PushStore(item: T, ticket: nat)
    | PushTag(item: T, ticket: nat)
    | PopLoadWrite
    | PopLoadRead(w: nat)
    | PopCas(r: nat)
    | PopWait(ticket: nat)
    | PopTake(ticket: nat)
    | PopTag(item: T, ticket: nat)
  {
    predicate Pushes() { PushWait? || PushStore? || PushTag? }
    predicate Pops() { PopWait? || PopTake? || PopTag? }
    predicate Holds() { Pushes() || Pops() }
    // Past the wait: the thread has its slot.
    predicate Inside() { PushStore? || PushTag? || PopTake? || PopTag? }
  }

  datatype Action<T> = CallPush(item: T) | CallPop | Proceed

  datatype Ring<T> = Ring(
    max: nat,
    writeIndex: nat,
    readIndex: nat,
    tag: seq<int>,
    elem: seq<Option<T>>,
    threads: seq<Phase<T>>,
    // History, by ticket: items pushed, who claimed the push and the pop, and what the pop returned.
    pushed: seq<T>,
    pushers: seq<nat>,
    poppers: seq<nat>,
    popped: map<nat, T>)

  ghost predicate Shaped<T>(s: Ring<T>)
  {
    s.max > 0 && |s.tag| == |s.elem| == s.max
  }

  function TransIndex(k: nat, max: nat): (i: nat)
    requires max > 0
    ensures i < max
  {
    And(k, max - 1)
  }

  predicate IsFull(w: nat, r: nat, max: nat) { w - r >= max }

  predicate IsEmpty(w: nat, r: nat) { w <= r }

  // The tag a push of ticket `k` waits for: fresh, or left by the pop one lap earlier.
  function PushAwaits(k: nat, max: nat): int
  {
    if k >= max then -(k - max + 1) else 0
  }

  function At<T>(s: Ring<T>, t: nat, p: Phase<T>): Ring<T>
    requires t < |s.threads|
  {
    s.(threads := s.threads[t := p])
  }

  function StepPush<T>(s: Ring<T>, t: nat): Ring<T>
    requires Shaped(s) && t < |s.threads|
  {
    match s.threads[t]
    case PushLoadWrite(x) => At(s, t, PushLoadRead(x, s.writeIndex))
    case PushLoadRead(x, w) =>
      if IsFull(w, s.readIndex, s.max) then At(s, t, Idle(Pushed(false))) else At(s, t, PushCas(x, w))
    case PushCas(x, w) =>
      if s.writeIndex == w then
        At(s, t, PushWait(x, w)).(writeIndex := w + 1, pushed := s.pushed + [x], pushers := s.pushers + [t])
      else At(s, t, PushLoadWrite(x))
    case PushWait(x, k) =>
      if s.tag[TransIndex(k, s.max)] == PushAwaits(k, s.max) then At(s, t, PushStore(x, k)) else s
    case PushStore(x, k) => At(s, t, PushTag(x, k)).(elem := s.elem[TransIndex(k, s.max) := Some(x)])
    case PushTag(_, k) => At(s, t, Idle(Pushed(true))).(tag := s.tag[TransIndex(k, s.max) := k + 1])
    case _ => s
  }

  function StepPop<T>(s: Ring<T>, t: nat): Ring<T>
    requires Shaped(s) && t < |s.threads|
  {
    match s.threads[t]
    case PopLoadWrite => At(s, t, PopLoadRead(s.writeIndex))
    case PopLoadRead(w) =>
      if IsEmpty(w, s.readIndex) then At(s, t, Idle(Popped(None))) else At(s, t, PopCas(s.readIndex))
    case PopCas(r) =>
      if s.readIndex == r then At(s, t, PopWait(r)).(readIndex := r + 1, poppers := s.poppers + [t])
      else At(s, t, PopLoadWrite)
    case PopWait(k) => if s.tag[TransIndex(k, s.max)] == k + 1 then At(s, t, PopTake(k)) else s
    case PopTake(k) =>
      // Moving out of an element leaves it without a value.
      var e := s.elem[TransIndex(k, s.max)];
      if e.None? then s else At(s, t, PopTag(e.value, k)).(elem := s.elem[TransIndex(k, s.max) := None])
    case PopTag(x, k) =>
      At(s, t, Idle(Popped(Some(x)))).(tag := s.tag[TransIndex(k, s.max) := -(k + 1)], popped := s.popped[k := x])
    case _ => s
  }

  function Step<T>(s: Ring<T>, t: nat, a: Action<T>): (r: Ring<T>)
    requires Shaped(s)
    ensures Shaped(r) && r.max == s.max && |r.threads| == |s.threads|
  {
    if t >= |s.threads| then s
    else if s.threads[t].Idle? then
      match a
      case CallPush(x) => At(s, t, PushLoadWrite(x))
      case CallPop => At(s, t, PopLoadWrite)
      case Proceed => s
    else if s.threads[t].PopLoadWrite? || s.threads[t].PopLoadRead? || s.threads[t].PopCas? || s.threads[t].Pops() then
      StepPop(s, t)
    else StepPush(s, t)
  }

  function Run<T>(s: Ring<T>, schedule: seq<(nat, Action<T>)>): (r: Ring<T>)
    requires Shaped(s)
    ensures Shaped(r) && r.max == s.max && |r.threads| == |s.threads|
    decreases |schedule|
  {
    if schedule == [] then s else Run(Step(s, schedule[0].0, schedule[0].1), schedule[1..])
  }

  function Init<T>(max: nat, n: nat): Ring<T>
    requires max > 0
  {
    Ring(max, 0, 0, seq(max, _ => 0), seq(max, _ => None), seq(n, _ => Idle(NoCall)), [], [], [], map[])
  }

  // ---------- Whose turn a tag announces ----------

  // The operations of a slot in their order: push i, pop i, push i+max, pop i+max, ...
  // A tag tells which of them are over.
  predicate PushOver(a: int, k: nat) { a > k || -a > k }

  predicate PopOver(a: int, k: nat, max: nat) { -a > k || a > k + max }

  // ---------- The invariant, for a ring whose size is a power of two ----------

  ghost predicate Counters<T>(s: Ring<T>)
  {
    && Shaped(s) && IsPow2(s.max)
    && s.readIndex <= s.writeIndex <= s.readIndex + s.max
    && |s.pushed| == |s.pushers| == s.writeIndex && |s.poppers| == s.readIndex
  }

  ghost predicate Pushing<T>(s: Ring<T>, k: nat)
    requires Counters(s) && k < s.writeIndex
  {
    s.pushers[k] < |s.threads| && s.threads[s.pushers[k]].Pushes() && s.threads[s.pushers[k]].ticket == k
  }

  ghost predicate Popping<T>(s: Ring<T>, k: nat)
    requires Counters(s) && k < s.readIndex
  {
    s.poppers[k] < |s.threads| && s.threads[s.poppers[k]].Pops() && s.threads[s.poppers[k]].ticket == k
  }

  // A tag belongs to the slot it is in, and to a claimed ticket.
  ghost predicate SlotOk<T>(s: Ring<T>, i: nat)
    requires Counters(s) && i < s.max
  {
    var a := s.tag[i];
    && (a > 0 ==> TransIndex(a - 1, s.max) == i && a - 1 < s.writeIndex)
    && (a < 0 ==> TransIndex(-a - 1, s.max) == i && -a - 1 < s.readIndex)
    && (a > 0 ==> s.elem[i] == Some(s.pushed[a - 1])
                  || (a - 1 < s.readIndex && Popping(s, a - 1) && s.threads[s.poppers[a - 1]].PopTag?))
  }

  ghost predicate ThreadOk<T>(s: Ring<T>, t: nat)
    requires Counters(s) && t < |s.threads|
  {
    match s.threads[t]
    case PushLoadRead(_, w) => w <= s.writeIndex
    case PushCas(_, w) => w <= s.writeIndex && w < s.readIndex + s.max
    case PushWait(x, k) => Pusher(s, t, x, k)
    case PushStore(x, k) => Pusher(s, t, x, k) && s.tag[TransIndex(k, s.max)] == PushAwaits(k, s.max)
    case PushTag(x, k) =>
      Pusher(s, t, x, k) && s.tag[TransIndex(k, s.max)] == PushAwaits(k, s.max)
          && s.elem[TransIndex(k, s.max)] == Some(x)
    case PopLoadRead(w) => w <= s.writeIndex
    case PopCas(r) => r < s.writeIndex
    case PopWait(k) => Popper(s, t, k)
    case PopTake(k) => Popper(s, t, k) && s.tag[TransIndex(k, s.max)] == k + 1
    case PopTag(x, k) => Popper(s, t, k) && s.tag[TransIndex(k, s.max)] == k + 1 && x == s.pushed[k]
    case _ => true
  }

  ghost predicate Pusher<T>(s: Ring<T>, t: nat, x: T, k: nat)
    requires Counters(s)
  {
    k < s.writeIndex && s.pushed[k] == x && s.pushers[k] == t && !PushOver(s.tag[TransIndex(k, s.max)], k)
  }

  ghost predicate Popper<T>(s: Ring<T>, t: nat, k: nat)
    requires Counters(s)
  {
    k < s.readIndex && s.poppers[k] == t && !PopOver(s.tag[TransIndex(k, s.max)], k, s.max)
  }

  // Every claimed ticket is over or in its claimer's hands, and what pops returned is what was pushed.
  ghost predicate TicketOk<T>(s: Ring<T>, k: nat)
    requires Counters(s)
  {
    var a := s.tag[TransIndex(k, s.max)];
    && (k < s.writeIndex ==> PushOver(a, k) || Pushing(s, k))
    && (k < s.readIndex ==> PopOver(a, k, s.max) || Popping(s, k))
    && (k in s.popped <==> k < s.readIndex && PopOver(a, k, s.max))
    && (k in s.popped ==> s.popped[k] == s.pushed[k])
  }

  ghost predicate Inv<T>(s: Ring<T>)
  {
    && Counters(s)
    && (forall i :: 0 <= i < s.max ==> SlotOk(s, i))
    && (forall t :: 0 <= t < |s.threads| ==> ThreadOk(s, t))
    && (forall k: nat :: TicketOk(s, k))
  }

  lemma IndexIsSlot(k: nat, max: nat)
    requires max > 0 && IsPow2(max)
    ensures TransIndex(k, max) == Slot(k, max)
  {
    MaskIsSlot(k, max);
  }

  // Tickets of one slot are a lap apart.
  lemma IndexApart(a: nat, b: nat, max: nat)
    requires max > 0 && IsPow2(max) && TransIndex(a, max) == TransIndex(b, max)
    ensures a < b ==> a + max <= b
    ensures b < a ==> b + max <= a
  {
    IndexIsSlot(a, max);
    IndexIsSlot(b, max);
    if a < b { SlotApart(a, b, max); } else if b < a { SlotApart(b, a, max); }
  }

  lemma IndexShift(k: nat, max: nat)
    requires max > 0 && IsPow2(max)
    ensures TransIndex(k + max, max) == TransIndex(k, max)
  {
    IndexIsSlot(k, max);
    IndexIsSlot(k + max, max);
    SlotShift(k, max);
  }
}
