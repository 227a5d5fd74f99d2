/** Whole runs of the event list: against a plain map from ids to due times, the order of the
    entries that are left alone, and periodic timers among other interrupts. */
module CycRuns {
  import opened CycInt

  // The list against a plain map.

  datatype Op = Arm(id: nat, due: nat) | Cancel(id: nat) | Acknowledge {
    predicate Valid() {
      match this
      case Arm(id, due) => 0 < id < MAX_INTERRUPTS && due <= UINT64_MAX
      case Cancel(id) => 0 < id < MAX_INTERRUPTS
      case Acknowledge => true
    }
  }

  ghost function Step(q: Queue, op: Op): Queue
    requires q.Valid() && op.Valid()
  {
    match op
    case Arm(id, due) => RemoveIsValid(q, id); Insert(Remove(q, id), id, due)
    case Cancel(id) => Remove(q, id)
    case Acknowledge => if q.order[0] == 0 then q else Remove(q, q.order[0])
  }

  /** The same operation on the plain map: acknowledging takes out a minimum. */
  ghost predicate MapStep(m: map<nat, nat>, op: Op, m': map<nat, nat>) {
    match op
    case Arm(id, due) => m' == m[id := due]
    case Cancel(id) => m' == m - {id}
    case Acknowledge =>
      if m == map[] then m' == m
      else exists id :: id in m && m' == m - {id} && forall x :: x in m ==> m[id] <= m[x]
  }

  ghost function Run(q: Queue, ops: seq<Op>): (r: Queue)
    requires q.Valid() && forall k :: 0 <= k < |ops| ==> ops[k].Valid()
    ensures r.Valid()
    decreases |ops|
  {
    if ops == [] then q else StepRefinesMap(q, ops[0]); Run(Step(q, ops[0]), ops[1..])
  }

  ghost predicate MapRun(m: map<nat, nat>, ops: seq<Op>, m': map<nat, nat>)
    decreases |ops|
  {
    if ops == [] then m == m'
    else exists m1 :: MapStep(m, ops[0], m1) && MapRun(m1, ops[1..], m')
  }

  lemma StepRefinesMap(q: Queue, op: Op)
    requires q.Valid() && op.Valid()
    ensures Step(q, op).Valid()
    ensures MapStep(q.Pending(), op, Step(q, op).Pending())
  {
    hide Insert, Remove;
    match op
    case Arm(id, due) =>
      RemoveIsValid(q, id);
      InsertIsValid(Remove(q, id), id, due);
      assert (q.Pending() - {id})[id := due] == q.Pending()[id := due];
    case Cancel(id) =>
      RemoveIsValid(q, id);
    case Acknowledge =>
      HeadIsMinimum(q);
      if q.order[0] != 0 {
        RemoveIsValid(q, q.order[0]);
      }
  }

  lemma HeadIsMinimum(q: Queue)
    requires q.Valid()
    ensures q.order[0] == 0 <==> q.Pending() == map[]
    ensures q.order[0] != 0 ==> q.order[0] in q.Pending() && forall x :: x in q.Pending() ==>
        q.Pending()[q.order[0]] <= q.Pending()[x]
  {
    if q.order[0] == 0 {
      assert |q.order| == 1;
    } else {
      assert q.order[0] in q.Pending();
    }
  }

  /** The event list refines a map over any run of operations. */
  lemma {:induction false} RunRefinesMap(q: Queue, ops: seq<Op>)
    requires q.Valid() && forall k :: 0 <= k < |ops| ==> ops[k].Valid()
    ensures Run(q, ops).Valid() && MapRun(q.Pending(), ops, Run(q, ops).Pending())
    decreases |ops|
  {
    hide Step, MapStep;
    if ops != [] {
      StepRefinesMap(q, ops[0]);
      RunRefinesMap(Step(q, ops[0]), ops[1..]);
    }
  }

  ghost predicate Precedes(s: seq<nat>, x: nat, y: nat) {
    exists i, j :: 0 <= i < j < |s| && s[i] == x && s[j] == y
  }

  lemma InsertKeepsOrder(s: seq<nat>, k: nat, id: nat, x: nat, y: nat)
    requires k <= |s| && x != id && y != id
    ensures Precedes(InsertAt(s, k, id), x, y) <==> Precedes(s, x, y)
  {
    hide InsertAt;
    var r := InsertAt(s, k, id);
    if Precedes(s, x, y) {
      var i, j :| 0 <= i < j < |s| && s[i] == x && s[j] == y;
      assert r[if i < k then i else i + 1] == x && r[if j < k then j else j + 1] == y;
    }
    if Precedes(r, x, y) {
      var i, j :| 0 <= i < j < |r| && r[i] == x && r[j] == y;
      assert s[if i < k then i else i - 1] == x && s[if j < k then j else j - 1] == y;
    }
  }

  lemma RemoveKeepsOrder(s: seq<nat>, k: nat, x: nat, y: nat)
    requires k < |s| && x != s[k] && y != s[k]
    ensures Precedes(RemoveAt(s, k), x, y) <==> Precedes(s, x, y)
  {
    hide RemoveAt;
    var r := RemoveAt(s, k);
    if Precedes(s, x, y) {
      var i, j :| 0 <= i < j < |s| && s[i] == x && s[j] == y;
      assert r[if i < k then i else i - 1] == x && r[if j < k then j else j - 1] == y;
    }
    if Precedes(r, x, y) {
      var i, j :| 0 <= i < j < |r| && r[i] == x && r[j] == y;
      assert s[if i < k then i else i + 1] == x && s[if j < k then j else j + 1] == y;
    }
  }

  /** An operation names `x`, or takes it from the head of the list. */
  predicate Touches(q: Queue, op: Op, x: nat)
    requires q.order != []
  {
    match op
    case Arm(id, _) => id == x
    case Cancel(id) => id == x
    case Acknowledge => q.order[0] != 0 && q.order[0] == x
  }

  /** An operation leaves the interrupts that it does not touch in their relative order. */
  lemma StepKeepsOrder(q: Queue, op: Op, x: nat, y: nat)
    requires q.Valid() && op.Valid() && !Touches(q, op, x) && !Touches(q, op, y)
    ensures Precedes(Step(q, op).order, x, y) <==> Precedes(q.order, x, y)
  {
    hide Sorted, Queue.Pending;
    match op
    case Acknowledge =>
      if q.order[0] != 0 {
        RemoveKeepsOrder(q.order, IndexOf(q.order, q.order[0]), x, y);
      }
    case Cancel(id) => RemovalKeepsOrder(q, id, x, y);
    case Arm(id, due) =>
      RemoveIsValid(q, id);
      RemovalKeepsOrder(q, id, x, y);
      InsertKeepsOrder(Remove(q, id).order, Earlier(Remove(q, id), due), id, x, y);
  }

  lemma RemovalKeepsOrder(q: Queue, id: nat, x: nat, y: nat)
    requires x != id && y != id
    ensures Precedes(Remove(q, id).order, x, y) <==> Precedes(q.order, x, y)
  {
    hide RemoveAt, Precedes;
    if id in q.order {
      RemoveKeepsOrder(q.order, IndexOf(q.order, id), x, y);
    }
  }

  /** No operation of a run touches `x`. */
  ghost predicate Untouched(q: Queue, ops: seq<Op>, x: nat)
    requires q.Valid() && forall k :: 0 <= k < |ops| ==> ops[k].Valid()
    decreases |ops|
  {
    ops != [] ==>
      && !Touches(q, ops[0], x)
      && (StepRefinesMap(q, ops[0]); Untouched(Step(q, ops[0]), ops[1..], x))
  }

  /** After any run of operations the interrupts that none of them touched are in the relative
      order that they had before, equal due times included. */
  lemma {:induction false} UntouchedKeepTheirOrder(q: Queue, ops: seq<Op>, x: nat, y: nat)
    requires q.Valid() && forall k :: 0 <= k < |ops| ==> ops[k].Valid()
    requires Untouched(q, ops, x) && Untouched(q, ops, y)
    ensures Precedes(Run(q, ops).order, x, y) <==> Precedes(q.order, x, y)
    decreases |ops|
  {
    hide Step, Touches, Precedes;
    if ops != [] {
      StepRefinesMap(q, ops[0]);
      StepKeepsOrder(q, ops[0], x, y);
      UntouchedKeepTheirOrder(Step(q, ops[0]), ops[1..], x, y);
    }
  }

  // A periodic timer among other interrupts.

  /** What happens to the list: an operation, or a dispatch of the timer at a clock. */
  datatype Event = Other(op: Op) | Dispatch(clock: nat)

  ghost function Happen(q: Queue, id: nat, delta: int, e: Event): Queue
    requires q.Valid() && 0 < id < MAX_INTERRUPTS && (e.Other? ==> e.op.Valid())
  {
    match e
    case Other(op) => Step(q, op)
    case Dispatch(clock) => Rearm(q, id, delta, clock)
  }

  /** The timer is dispatched as the head of the list, late by an amount that fits a C int;
      everything else leaves it alone. */
  ghost predicate Allowed(q: Queue, id: nat, e: Event)
    requires q.Valid()
  {
    match e
    case Other(op) => op.Valid() && !Touches(q, op, id)
    case Dispatch(clock) => q.order[0] == id && Measurable(q.due[id], clock)
  }

  ghost predicate AllAllowed(q: Queue, id: nat, delta: int, events: seq<Event>)
    requires q.Valid() && 0 < id < MAX_INTERRUPTS
    decreases |events|
  {
    events != [] ==>
      && Allowed(q, id, events[0])
      && (HappenIsValid(q, id, delta, events[0]); AllAllowed(Happen(q, id, delta, events[0]), id, delta, events[1..]))
  }

  ghost function HappenAll(q: Queue, id: nat, delta: int, events: seq<Event>): (r: Queue)
    requires q.Valid() && 0 < id < MAX_INTERRUPTS && AllAllowed(q, id, delta, events)
    ensures r.Valid()
    decreases |events|
  {
    if events == [] then q
    else
      HappenIsValid(q, id, delta, events[0]);
      HappenAll(Happen(q, id, delta, events[0]), id, delta, events[1..])
  }

  function Dispatches(events: seq<Event>): nat {
    if events == [] then 0 else (if events[0].Dispatch? then 1 else 0) + Dispatches(events[1..])
  }

  lemma HappenIsValid(q: Queue, id: nat, delta: int, e: Event)
    requires q.Valid() && 0 < id < MAX_INTERRUPTS && (e.Other? ==> e.op.Valid())
    ensures Happen(q, id, delta, e).Valid()
  {
    hide Step, Insert, Remove, Rearmed;
    match e
    case Other(op) => StepRefinesMap(q, op);
    case Dispatch(clock) =>
      RemoveIsValid(q, id);
      RearmedFits(q.due[id], delta, clock);
      InsertIsValid(Remove(q, id), id, Rearmed(q.due[id], delta, clock));
  }

  /** Others leave the timer pending when it was due; a dispatch makes it due one period later. */
  lemma HappenMovesTimer(q: Queue, id: nat, delta: int, e: Event)
    requires q.Valid() && 0 < id < MAX_INTERRUPTS && id in q.order && Allowed(q, id, e)
    ensures var r := Happen(q, id, delta, e);
      && r.Valid() && id in r.order
      && r.due[id] == if e.Dispatch? then Wrap64(q.due[id] + delta) else q.due[id]
  {
    hide Rearm, Step, Queue.Valid, Measurable, Touches;
    HappenIsValid(q, id, delta, e);
    match e
    case Dispatch(clock) => DispatchMovesTimer(q, id, delta, clock);
    case Other(op) => OthersLeaveAlone(q, id, op);
  }

  lemma DispatchMovesTimer(q: Queue, id: nat, delta: int, clock: nat)
    requires q.Valid() && 0 < id < MAX_INTERRUPTS && id in q.order && Measurable(q.due[id], clock)
    ensures var r := Rearm(q, id, delta, clock); id in r.order && id < |r.due| && r.due[id] == Wrap64(q.due[id] + delta)
  {
    hide Rearmed, Insert, Remove, Measurable;
    RemoveIsValid(q, id);
    NotPending(q, id);
    RearmedFits(q.due[id], delta, clock);
    InsertedDue(Remove(q, id), id, Rearmed(q.due[id], delta, clock));
    InsertIsValid(Remove(q, id), id, Rearmed(q.due[id], delta, clock));
    RearmedIsExact(q.due[id], delta, clock);
  }

  lemma OthersLeaveAlone(q: Queue, id: nat, op: Op)
    requires q.Valid() && 0 < id < MAX_INTERRUPTS && id in q.order && op.Valid() && !Touches(q, op, id)
    ensures id in Step(q, op).order && Step(q, op).due[id] == q.due[id]
  {
    hide Sorted, RemoveAt, InsertAt;
    match op
    case Arm(other, due) =>
      RemoveIsValid(q, other);
      InsertMembers(Remove(q, other), other, due);
    case Cancel(other) => RemoveIsValid(q, other);
    case Acknowledge =>
      if q.order[0] != 0 {
        RemoveIsValid(q, q.order[0]);
      }
  }

  lemma AllowedIsValid(q: Queue, id: nat, e: Event)
    requires q.Valid() && Allowed(q, id, e)
    ensures e.Other? ==> e.op.Valid()
  {
  }

  /** Periodic timers never drift: while any other interrupts come and go, and whatever the
      latenesses of its own dispatches, a timer due at `first` is due at `first + k * delta`
      after its k-th dispatch. */
  lemma {:induction false} PeriodicTimersDoNotDrift(q: Queue, id: nat, delta: int, events: seq<Event>)
    requires q.Valid() && 0 < id < MAX_INTERRUPTS && id in q.order && AllAllowed(q, id, delta, events)
    ensures var r := HappenAll(q, id, delta, events);
      id in r.order && r.due[id] == Wrap64(q.due[id] + Dispatches(events) * delta)
    decreases |events|
  {
    hide Happen, Allowed;
    if events == [] {
      InWord(q.due[id]);
    } else {
      var e, rest := events[0], events[1..];
      AllowedIsValid(q, id, e);
      HappenMovesTimer(q, id, delta, e);
      PeriodicTimersDoNotDrift(Happen(q, id, delta, e), id, delta, rest);
      Wrap64Add(q.due[id] + delta, Dispatches(rest) * delta);
      assert (1 + Dispatches(rest)) * delta == delta + Dispatches(rest) * delta;
    }
  }

  lemma InWord(t: nat)
    requires t <= UINT64_MAX
    ensures Wrap64(t) == t
  {
  }
}
