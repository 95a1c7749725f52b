/** The saturating reference count: the compare-and-swap version, as threads taking turns, refines
    the version that runs each operation under a lock. */
module Refcount {
  import opened Common

  const REFCOUNT_MAX: nat := 0xffff_ffff

  datatype Op = Inc | Dec

  // The locked version.

  /** CRYPTO_refcount_inc under the lock. */
  function LockedInc(count: nat): nat {
    if count < REFCOUNT_MAX then count + 1 else count
  }

  /** CRYPTO_refcount_dec_and_test_zero under the lock; it aborts at zero. */
  function LockedDec(count: nat): nat {
    if 0 < count < REFCOUNT_MAX then count - 1 else count
  }

  class LockedCount {
    var count: nat

    ghost predicate Valid()
      reads this
    {
      count <= REFCOUNT_MAX
    }

    constructor ()
      ensures Valid() && count == 1
    {
      count := 1;
    }

    method Increment()
      requires Valid()
      modifies this
      ensures Valid() && count == LockedInc(old(count))
    {
      if count < REFCOUNT_MAX {
        count := count + 1;
      }
    }

    method DecrementAndTestZero() returns (aborts: bool, zero: bool)
      requires Valid()
      modifies this
      ensures Valid() && count == LockedDec(old(count))
      ensures (aborts <==> old(count) == 0) && (!aborts ==> (zero <==> count == 0))
    {
      if count == 0 {
        return true, false;
      }
      if count < REFCOUNT_MAX {
        count := count - 1;
      }
      return false, count == 0;
    }
  }

  /** A thread of the locked version: idle, waiting for the lock, or about to return. `zero` is the
      result of a decrement. */
  datatype LockedPc = Resting | Waiting(op: Op) | Returning(op: Op, zero: bool)

  datatype Locked = Locked(count: nat, pcs: seq<LockedPc>)

  /** Call, the operation itself in one step, return. `Skip` does nothing. */
  datatype LockedAction = LCall(t: nat, op: Op) | LRun(t: nat) | LReturn(t: nat) | LSkip

  /** A step of the locked version. It cannot run a decrement of zero, which aborts. */
  function LockedStep(a: Locked, x: LockedAction): (r: Option<Locked>) {
    match x
    case LSkip => Some(a)
    case LCall(t, op) =>
      if t < |a.pcs| && a.pcs[t] == Resting then Some(a.(pcs := a.pcs[t := Waiting(op)])) else None
    case LReturn(t) =>
      if t < |a.pcs| && a.pcs[t].Returning? then Some(a.(pcs := a.pcs[t := Resting])) else None
    case LRun(t) =>
      if !(t < |a.pcs| && a.pcs[t].Waiting?) then None
      else if a.pcs[t].op == Inc then
        Some(Locked(LockedInc(a.count), a.pcs[t := Returning(Inc, false)]))
      else if a.count == 0 then None
      else Some(Locked(LockedDec(a.count), a.pcs[t := Returning(Dec, LockedDec(a.count) == 0)]))
  }

  function LockedRun(a: Locked, xs: seq<LockedAction>): (r: Option<Locked>)
    decreases |xs|
  {
    if xs == [] then Some(a)
    else
      match LockedStep(a, xs[0])
      case None => None
      case Some(b) => LockedRun(b, xs[1..])
  }

  // The lock-free version.

  /** A thread: idle, called but not loaded yet, in the loop with the value it expects, or about to
      return. */
  datatype Pc = Idle | Called(op: Op) | Trying(op: Op, expected: nat) | Finished(op: Op, zero: bool)

  datatype Shared = Shared(count: nat, pcs: seq<Pc>)

  /** A thread calls, loads the count, goes once round its loop, or returns. A compare-and-swap may
      fail spuriously. */
  datatype Action = Call(t: nat, op: Op) | Load(t: nat) | Loop(t: nat, spurious: bool) | Return(t: nat)

  datatype Moved = Blocked | Aborted | Moved(s: Shared)

  function Put(s: Shared, t: nat, pc: Pc): Shared
    requires t < |s.pcs|
  {
    s.(pcs := s.pcs[t := pc])
  }

  function New(op: Op, expected: nat): nat
    requires op == Dec ==> expected > 0
  {
    if op == Inc then expected + 1 else expected - 1
  }

  /** One turn of either loop. */
  function LoopStep(s: Shared, t: nat, op: Op, expected: nat, spurious: bool): Moved
    requires t < |s.pcs|
  {
    if op == Dec && expected == 0 then Aborted
    else if expected == REFCOUNT_MAX then Moved(Put(s, t, Finished(op, false)))
    else if s.count == expected && !spurious then
      var next := New(op, expected);
      Moved(Put(s, t, Finished(op, op == Dec && next == 0)).(count := next))
    else Moved(Put(s, t, Trying(op, s.count)))
  }

  function Step(s: Shared, x: Action): Moved {
    if x.t >= |s.pcs| then Blocked
    else
      var pc := s.pcs[x.t];
      match x
      case Call(t, op) => if pc.Idle? then Moved(Put(s, t, Called(op))) else Blocked
      case Load(t) => if pc.Called? then Moved(Put(s, t, Trying(pc.op, s.count))) else Blocked
      case Return(t) => if pc.Finished? then Moved(Put(s, t, Idle)) else Blocked
      case Loop(t, spurious) => if pc.Trying? then LoopStep(s, t, pc.op, pc.expected, spurious) else Blocked
  }

  function Run(s: Shared, xs: seq<Action>): Moved
    decreases |xs|
  {
    if xs == [] then Moved(s)
    else
      match Step(s, xs[0])
      case Moved(u) => Run(u, xs[1..])
      case stuck => stuck
  }

  // Refinement.

  /** What a thread of the lock-free version is doing in the locked version: an operation takes effect
      when its compare-and-swap succeeds or when it reads a saturated count. */
  function AbstractPc(pc: Pc): LockedPc {
    match pc
    case Idle => Resting
    case Called(op) => Waiting(op)
    case Trying(op, expected) => if expected == REFCOUNT_MAX then Returning(op, false) else Waiting(op)
    case Finished(op, zero) => Returning(op, zero)
  }

  function Abstract(s: Shared): (a: Locked)
    ensures |a.pcs| == |s.pcs|
    ensures forall t: nat | t < |s.pcs| :: a.pcs[t] == AbstractPc(s.pcs[t])
  {
    Locked(s.count, seq(|s.pcs|, t requires 0 <= t < |s.pcs| => AbstractPc(s.pcs[t])))
  }

  /** The locked version's counterpart of a step. */
  function Match(s: Shared, x: Action): LockedAction
    requires Step(s, x).Moved?
  {
    match x
    case Call(t, op) => LCall(t, op)
    case Return(t) => LReturn(t)
    case Load(t) => if s.count == REFCOUNT_MAX then LRun(t) else LSkip
    case Loop(t, spurious) =>
      if s.pcs[t].expected == REFCOUNT_MAX then LSkip
      else if (s.count == s.pcs[t].expected && !spurious) || s.count == REFCOUNT_MAX then LRun(t)
      else LSkip
  }

  function MatchRun(s: Shared, xs: seq<Action>): (ys: seq<LockedAction>)
    requires Run(s, xs).Moved?
    ensures |ys| == |xs|
    decreases |xs|
  {
    if xs == [] then [] else [Match(s, xs[0])] + MatchRun(Step(s, xs[0]).s, xs[1..])
  }

  lemma AbstractPut(s: Shared, t: nat, pc: Pc)
    requires t < |s.pcs|
    ensures Abstract(Put(s, t, pc)) == Abstract(s).(pcs := Abstract(s).pcs[t := AbstractPc(pc)])
  {
  }

  /** Every step of a thread is one step of the locked version, or none. */
  lemma StepRefines(s: Shared, x: Action)
    requires s.count <= REFCOUNT_MAX && Step(s, x).Moved?
    ensures LockedStep(Abstract(s), Match(s, x)) == Some(Abstract(Step(s, x).s))
    ensures Step(s, x).s.count <= REFCOUNT_MAX
  {
    hide Abstract;
    var a := Abstract(s);
    var t := x.t;
    var u := Step(s, x).s;
    AbstractPut(s, t, u.pcs[t]);
    AbstractCount(Put(s, t, u.pcs[t]), u.count);
    AbstractAt(s, t);
    if x.Loop? && s.pcs[t].expected == REFCOUNT_MAX {
      assert a.pcs[t := a.pcs[t]] == a.pcs;
    } else if x.Loop? || x.Load? {
      assert a.pcs[t := a.pcs[t]] == a.pcs;
    }
  }

  lemma AbstractCount(s: Shared, count: nat)
    ensures Abstract(s.(count := count)) == Abstract(s).(count := count)
  {
  }

  lemma AbstractAt(s: Shared, t: nat)
    requires t < |s.pcs|
    ensures Abstract(s).count == s.count && |Abstract(s).pcs| == |s.pcs| && Abstract(s).pcs[t] == AbstractPc(s.pcs[t])
  {
  }

  // What a caller observes.

  datatype Event = Invoked(t: nat, op: Op) | Responded(t: nat, op: Op, zero: bool)

  function Events(s: Shared, xs: seq<Action>): seq<Event>
    requires Run(s, xs).Moved?
    decreases |xs|
  {
    if xs == [] then []
    else
      var rest := Events(Step(s, xs[0]).s, xs[1..]);
      match xs[0]
      case Call(t, op) => [Invoked(t, op)] + rest
      case Return(t) => [Responded(t, s.pcs[t].op, s.pcs[t].zero)] + rest
      case _ => rest
  }

  function LockedEvents(a: Locked, ys: seq<LockedAction>): seq<Event>
    requires LockedRun(a, ys).Some?
    decreases |ys|
  {
    if ys == [] then []
    else
      var rest := LockedEvents(LockedStep(a, ys[0]).value, ys[1..]);
      match ys[0]
      case LCall(t, op) => [Invoked(t, op)] + rest
      case LReturn(t) => [Responded(t, a.pcs[t].op, a.pcs[t].zero)] + rest
      case _ => rest
  }

  /** Every run that does not abort, whatever the interleaving and the spurious failures, is a run of
      the locked version with the same calls, returns and results in the same order, and ends with
      the same count. */
  lemma {:induction false} RunRefines(s: Shared, xs: seq<Action>)
    requires s.count <= REFCOUNT_MAX && Run(s, xs).Moved?
    ensures var ys := MatchRun(s, xs);
            && LockedRun(Abstract(s), ys) == Some(Abstract(Run(s, xs).s))
            && LockedEvents(Abstract(s), ys) == Events(s, xs)
    decreases |xs|
  {
    hide Abstract, Match, LockedStep, Step;
    if xs != [] {
      StepRefines(s, xs[0]);
      var u := Step(s, xs[0]).s;
      RunRefines(u, xs[1..]);
      var ys := MatchRun(s, xs);
      assert ys[1..] == MatchRun(u, xs[1..]);
      EventRefines(s, xs[0]);
    }
  }

  lemma EventRefines(s: Shared, x: Action)
    requires Step(s, x).Moved?
    ensures x.Call? ==> Match(s, x) == LCall(x.t, x.op)
    ensures x.Return? ==> Match(s, x) == LReturn(x.t) && x.t < |s.pcs| && s.pcs[x.t].Finished?
                          && Abstract(s).pcs[x.t] == Returning(s.pcs[x.t].op, s.pcs[x.t].zero)
    ensures x.Load? || x.Loop? ==> !Match(s, x).LCall? && !Match(s, x).LReturn?
  {
  }

  /** A thread aborts only after reading zero, when the locked version's decrement would abort too. */
  lemma AbortsOnZeroOnly(s: Shared, x: Action)
    requires Step(s, x).Moved? && x.t < |s.pcs|
    requires Step(s, x).s.pcs[x.t].Trying? && Step(s, x).s.pcs[x.t].op == Dec
    ensures forall spurious :: Step(Step(s, x).s, Loop(x.t, spurious)).Aborted? <==> s.count == 0
  {
  }

  // Clients that only use references they own.

  /** The threads, the references each owns, and the decrements that have reported zero so far. A
      decrement gives its reference up, and an increment gains one, when the operation takes effect. */
  datatype Clients = Clients(shared: Shared, owned: seq<nat>, zeros: nat)

  /** A step of a thread, or an idle thread handing a reference to another. */
  datatype Move = Act(x: Action) | Give(from: nat, to: nat)

  function Total(owned: seq<nat>): nat {
    if owned == [] then 0 else owned[|owned| - 1] + Total(owned[..|owned| - 1])
  }

  /** Whether this step finishes the operation the thread is in. */
  predicate TakesEffect(s: Shared, x: Action) {
    x.Loop? && x.t < |s.pcs| && Step(s, x).Moved? && Step(s, x).s.pcs[x.t].Finished?
  }

  /** A thread calls an operation only if it owns a reference. `None`: the move is not allowed. */
  function ClientStep(c: Clients, m: Move): (r: Option<Clients>)
    requires |c.owned| == |c.shared.pcs|
    ensures r.Some? ==> |r.value.owned| == |r.value.shared.pcs| == |c.owned|
  {
    match m
    case Give(from, to) =>
      if from < |c.owned| && to < |c.owned| && from != to && c.shared.pcs[from].Idle? && c.owned[from] > 0 then
        Some(c.(owned := c.owned[from := c.owned[from] - 1][to := c.owned[to] + 1]))
      else None
    case Act(x) =>
      var r := Step(c.shared, x);
      if !r.Moved? || (x.Call? && c.owned[x.t] == 0) then None
      else if TakesEffect(c.shared, x) then
        var op := c.shared.pcs[x.t].op;
        if op == Inc then Some(Clients(r.s, c.owned[x.t := c.owned[x.t] + 1], c.zeros))
        else if c.owned[x.t] == 0 then None
        else Some(Clients(r.s, c.owned[x.t := c.owned[x.t] - 1],
                          c.zeros + if r.s.pcs[x.t].zero then 1 else 0))
      else Some(c.(shared := r.s))
  }

  /** Until it saturates, the count is the number of references owned; a thread inside an operation
      owns one; zero is reported once at most, when no reference is left. */
  predicate Inv(c: Clients) {
    && |c.owned| == |c.shared.pcs|
    && c.shared.count <= REFCOUNT_MAX
    && (c.shared.count == REFCOUNT_MAX || c.shared.count == Total(c.owned))
    && (forall t: nat | t < |c.owned| :: Inside(c.shared.pcs[t]) ==> c.owned[t] > 0)
    && (forall t: nat | t < |c.owned| :: c.shared.pcs[t].Trying? ==>
          && 0 < c.shared.pcs[t].expected <= REFCOUNT_MAX
          && (c.shared.pcs[t].expected == REFCOUNT_MAX ==> c.shared.count == REFCOUNT_MAX))
    && c.zeros <= 1
    && (c.zeros == 1 ==> Total(c.owned) == 0 && c.shared.count == 0)
  }

  predicate Inside(pc: Pc) {
    pc.Called? || pc.Trying?
  }

  /** Any number of idle threads with the references they own are a start. */
  lemma StartsSafe(owned: seq<nat>)
    requires Total(owned) <= REFCOUNT_MAX
    ensures Inv(Clients(Shared(Total(owned), seq(|owned|, _ => Idle)), owned, 0))
  {
  }

  lemma {:induction false} TotalUpdate(owned: seq<nat>, t: nat, n: nat)
    requires t < |owned|
    ensures Total(owned[t := n]) == Total(owned) - owned[t] + n
  {
    var k := |owned| - 1;
    if t == k {
      assert owned[t := n][..k] == owned[..k];
    } else {
      TotalUpdate(owned[..k], t, n);
      assert owned[t := n][..k] == owned[..k][t := n];
    }
  }

  lemma {:induction false} TotalAtLeast(owned: seq<nat>, t: nat)
    requires t < |owned|
    ensures owned[t] <= Total(owned)
  {
    if t < |owned| - 1 {
      TotalAtLeast(owned[..|owned| - 1], t);
    }
  }

  lemma ActKeepsInv(c: Clients, x: Action)
    requires Inv(c) && ClientStep(c, Act(x)).Some?
    ensures Inv(ClientStep(c, Act(x)).value)
  {
    hide Total;
    var t := x.t;
    TotalAtLeast(c.owned, t);
    TotalUpdate(c.owned, t, c.owned[t] + 1);
    if c.owned[t] > 0 {
      TotalUpdate(c.owned, t, c.owned[t] - 1);
    }
  }

  lemma GiveKeepsInv(c: Clients, from: nat, to: nat)
    requires Inv(c) && ClientStep(c, Give(from, to)).Some?
    ensures Inv(ClientStep(c, Give(from, to)).value)
  {
    hide Total;
    TotalUpdate(c.owned, from, c.owned[from] - 1);
    TotalUpdate(c.owned[from := c.owned[from] - 1], to, c.owned[to] + 1);
  }

  function ClientRun(c: Clients, ms: seq<Move>): (r: Option<Clients>)
    requires |c.owned| == |c.shared.pcs|
    decreases |ms|
  {
    if ms == [] then Some(c)
    else
      match ClientStep(c, ms[0])
      case None => None
      case Some(d) => ClientRun(d, ms[1..])
  }

  /** In every run of clients that only use references they own: the count is the number of
      references until it saturates, no operation can abort, and at most one decrement reports zero,
      after which no reference is left. */
  lemma {:induction false} ClientsAreSafe(c: Clients, ms: seq<Move>)
    requires Inv(c) && ClientRun(c, ms).Some?
    ensures var d := ClientRun(c, ms).value;
            Inv(d) && forall x: Action :: !Step(d.shared, x).Aborted?
    decreases |ms|
  {
    hide ClientStep;
    if ms != [] {
      if ms[0].Act? {
        ActKeepsInv(c, ms[0].x);
      } else {
        GiveKeepsInv(c, ms[0].from, ms[0].to);
      }
      ClientsAreSafe(ClientStep(c, ms[0]).value, ms[1..]);
    }
  }

  /** A decrement reports zero exactly when it gives up the last reference, and a reference count that
      has saturated never changes again. */
  lemma LastReference(c: Clients, x: Action)
    requires Inv(c) && ClientStep(c, Act(x)).Some?
    ensures var d := ClientStep(c, Act(x)).value;
            && (c.shared.count == REFCOUNT_MAX ==> d.shared.count == REFCOUNT_MAX && d.zeros == c.zeros)
            && (d.zeros > c.zeros <==> Total(c.owned) == 1 && Total(d.owned) == 0 && c.shared.count < REFCOUNT_MAX)
  {
    hide Total;
    var t := x.t;
    TotalAtLeast(c.owned, t);
    TotalUpdate(c.owned, t, c.owned[t] + 1);
    if c.owned[t] > 0 {
      TotalUpdate(c.owned, t, c.owned[t] - 1);
    }
  }
}
