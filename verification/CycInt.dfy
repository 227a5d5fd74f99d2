/** The table of pending interrupts: a doubly linked list threaded through fixed arrays,
    sorted by due time, with entry 0 as the sentinel that never triggers. */
module CycInt {

  const MAX_INTERRUPTS: nat := 28
  const TWO_64: nat := 0x1_0000_0000_0000_0000
  const UINT64_MAX: nat := TWO_64 - 1
  const CYCINT_ONE: nat := 256  // one CPU cycle in internal units

  ghost predicate Distinct(s: seq<nat>) {
    forall i, j :: 0 <= i < j < |s| ==> s[i] != s[j]
  }

  ghost predicate InTable(s: seq<nat>) {
    forall i :: 0 <= i < |s| ==> s[i] < MAX_INTERRUPTS
  }

  ghost predicate Sorted(s: seq<nat>, due: seq<nat>)
    requires InTable(s) && |due| == MAX_INTERRUPTS
  {
    forall i, j :: 0 <= i < j < |s| ==> due[s[i]] <= due[s[j]]
  }

  /** The list as a value: the ids in their order, and every entry's due time. */
  datatype Queue = Queue(order: seq<nat>, due: seq<nat>) {

    ghost predicate Valid() {
      && |due| == MAX_INTERRUPTS
      && |order| > 0 && order[|order| - 1] == 0
      && InTable(order) && Distinct(order) && Sorted(order, due)
      && due[0] == UINT64_MAX
      && (forall id :: 0 <= id < MAX_INTERRUPTS ==> due[id] <= UINT64_MAX)
    }

    /** The plain meaning of the list: which interrupts are pending, and when. */
    ghost function Pending(): map<nat, nat>
      requires Valid()
    {
      map id | id in order && id != 0 :: due[id]
    }
  }

  /** How many entries at the front of the list are due before `t`. */
  ghost function Earlier(q: Queue, t: nat): (k: nat)
    requires q.Valid() && t <= UINT64_MAX
    ensures k < |q.order|
    ensures forall i :: 0 <= i < k ==> q.due[q.order[i]] < t
    ensures forall i :: k <= i < |q.order| ==> t <= q.due[q.order[i]]
  {
    EarlierFrom(q, t, 0)
  }

  ghost function EarlierFrom(q: Queue, t: nat, from: nat): (k: nat)
    requires q.Valid() && t <= UINT64_MAX && from < |q.order|
    requires forall i :: 0 <= i < from ==> q.due[q.order[i]] < t
    ensures k < |q.order|
    ensures forall i :: 0 <= i < k ==> q.due[q.order[i]] < t
    ensures forall i :: k <= i < |q.order| ==> t <= q.due[q.order[i]]
    decreases |q.order| - from
  {
    if t <= q.due[q.order[from]] then from else EarlierFrom(q, t, from + 1)
  }

  function InsertAt(s: seq<nat>, k: nat, id: nat): (r: seq<nat>)
    requires k <= |s|
    ensures |r| == |s| + 1
    ensures forall i :: 0 <= i < k ==> r[i] == s[i]
    ensures r[k] == id
    ensures forall i :: k < i < |r| ==> r[i] == s[i - 1]
    ensures forall x :: x in r <==> x == id || x in s
  {
    var r := s[..k] + [id] + s[k..];
    assert forall x :: x in s <==> x in s[..k] || x in s[k..] by { assert s == s[..k] + s[k..]; }
    r
  }

  function RemoveAt(s: seq<nat>, k: nat): (r: seq<nat>)
    requires k < |s|
    ensures |r| == |s| - 1
    ensures forall i :: 0 <= i < k ==> r[i] == s[i]
    ensures forall i :: k <= i < |r| ==> r[i] == s[i + 1]
  {
    s[..k] + s[k + 1..]
  }

  /** A new entry goes before all entries that are not due earlier. */
  ghost function Insert(q: Queue, id: nat, t: nat): Queue
    requires q.Valid() && t <= UINT64_MAX
    requires 0 < id < MAX_INTERRUPTS && id !in q.order
  {
    Queue(InsertAt(q.order, Earlier(q, t), id), q.due[id := t])
  }

  ghost function IndexOf(s: seq<nat>, x: nat): (k: nat)
    requires x in s
    ensures k < |s| && s[k] == x && x !in s[..k]
  {
    if s[0] == x then 0 else 1 + IndexOf(s[1..], x)
  }

  ghost function Remove(q: Queue, id: nat): Queue {
    if id in q.order then q.(order := RemoveAt(q.order, IndexOf(q.order, id))) else q
  }

  lemma InsertKeepsSorted(q: Queue, id: nat, t: nat)
    requires q.Valid() && t <= UINT64_MAX
    requires 0 < id < MAX_INTERRUPTS && id !in q.order
    ensures InTable(Insert(q, id, t).order) && Sorted(Insert(q, id, t).order, Insert(q, id, t).due)
  {
    hide InsertAt;
    var k, r := Earlier(q, t), Insert(q, id, t);
    forall i | 0 <= i < |r.order|
      ensures r.order[i] < MAX_INTERRUPTS
      ensures r.due[r.order[i]] == if i < k then q.due[q.order[i]] else if i == k then t else q.due[q.order[i - 1]]
    {
    }
  }

  lemma InsertIsValid(q: Queue, id: nat, t: nat)
    requires q.Valid() && t <= UINT64_MAX
    requires 0 < id < MAX_INTERRUPTS && id !in q.order
    ensures Insert(q, id, t).Valid()
    ensures Insert(q, id, t).Pending() == q.Pending()[id := t]
  {
    hide InsertAt, Sorted;
    InsertKeepsSorted(q, id, t);
  }

  lemma RemoveKeepsSorted(q: Queue, k: nat)
    requires q.Valid() && k < |q.order|
    ensures InTable(RemoveAt(q.order, k)) && Sorted(RemoveAt(q.order, k), q.due)
  {
    hide RemoveAt;
    var r := RemoveAt(q.order, k);
    forall i | 0 <= i < |r|
      ensures r[i] < MAX_INTERRUPTS && q.due[r[i]] == q.due[q.order[if i < k then i else i + 1]]
    {
    }
  }

  lemma RemoveIsValid(q: Queue, id: nat)
    requires q.Valid() && id != 0
    ensures Remove(q, id).Valid()
    ensures forall x :: x in Remove(q, id).order <==> x in q.order && x != id
    ensures Remove(q, id).Pending() == q.Pending() - {id}
  {
    hide RemoveAt, Sorted;
    if id in q.order {
      RemoveAtMembers(q.order, IndexOf(q.order, id));
      RemoveKeepsSorted(q, IndexOf(q.order, id));
    }
  }

  lemma RemoveAtMembers(s: seq<nat>, k: nat)
    requires k < |s| && Distinct(s)
    ensures Distinct(RemoveAt(s, k))
    ensures forall x :: x in RemoveAt(s, k) <==> x in s && x != s[k]
  {
    var r := RemoveAt(s, k);
    forall x | x in s && x != s[k]
      ensures x in r
    {
      var i := IndexOf(s, x);
      assert r[if i < k then i else i - 1] == x;
    }
  }

  lemma EarlierIsUnique(q: Queue, t: nat, k: nat)
    requires q.Valid() && t <= UINT64_MAX && k < |q.order|
    requires forall i :: 0 <= i < k ==> q.due[q.order[i]] < t
    requires forall i :: k <= i < |q.order| ==> t <= q.due[q.order[i]]
    ensures Earlier(q, t) == k
  {
    var e := Earlier(q, t);
    var dueE, dueK := q.due[q.order[e]], q.due[q.order[k]];
    assert t <= dueE && t <= dueK;
  }

  /** The due time of an entry outside the list does not matter to the list. */
  lemma UnlistedDue(q: Queue, id: nat, t: nat)
    requires q.Valid() && 0 < id < MAX_INTERRUPTS && id !in q.order && t <= UINT64_MAX
    ensures var p := q.(due := q.due[id := t]); p.Valid() && Insert(p, id, t) == Insert(q, id, t)
  {
    hide InsertAt;
    var p := q.(due := q.due[id := t]);
    assert forall i :: 0 <= i < |q.order| ==> p.due[q.order[i]] == q.due[q.order[i]];
    var k := Earlier(q, t);
    assert p.Valid();
    assert forall i :: 0 <= i < k ==> p.due[p.order[i]] < t;
    assert forall i :: k <= i < |p.order| ==> t <= p.due[p.order[i]];
    EarlierIsUnique(p, t, k);
  }

  lemma InsertMembers(q: Queue, id: nat, t: nat)
    requires q.Valid() && 0 < id < MAX_INTERRUPTS && id !in q.order && t <= UINT64_MAX
    ensures forall x :: x in Insert(q, id, t).order <==> x in q.order || x == id
  {
  }

  /** An id other than the sentinel is not the last of the list. */
  lemma NotLast(q: Queue, id: nat)
    requires q.Valid() && id in q.order && id != 0
    ensures IndexOf(q.order, id) < |q.order| - 1 && InTable(q.order) && Distinct(q.order) && 0 in q.order
    ensures IndexOf(q.order, id) == 0 <==> id == q.order[0]
  {
  }

  lemma NotPending(q: Queue, id: nat)
    ensures id !in q.order ==> Remove(q, id) == q
  {
  }

  lemma InsertedDue(q: Queue, id: nat, t: nat)
    requires q.Valid() && 0 < id < MAX_INTERRUPTS && id !in q.order && t <= UINT64_MAX
    ensures Insert(q, id, t).due[id] == t && id in Insert(q, id, t).order
  {
  }

  lemma HeadIsListed(q: Queue)
    requires q.Valid()
    ensures |q.order| > 0 && q.order[0] in q.order && q.order[0] < MAX_INTERRUPTS
  {
  }

  lemma OrderIsGood(q: Queue, k: nat)
    requires q.Valid() && k < |q.order|
    ensures InTable(q.order) && Distinct(q.order) && q.order[k] in q.order
    ensures k > 0 ==> q.order[k - 1] < MAX_INTERRUPTS
  {
  }

  datatype CycleType = CpuCycle | MfpCycle | Cpu8Cycle

  /** The clocks that the conversion macros use. */
  datatype Clocks = Clocks(cpuFreq: nat, mfpTimerFreq: nat, cpuFreqShift: nat)

  /** Unsigned 64-bit arithmetic. */
  function Wrap64(x: int): (r: nat)
    ensures r <= UINT64_MAX
  {
    x % TWO_64
  }

  function Signed32(x: int): int {
    var r := x % 0x1_0000_0000;
    if r >= 0x8000_0000 then r - 0x1_0000_0000 else r
  }

  function Signed64(x: int): int {
    var r := x % TWO_64;
    if r >= TWO_64 / 2 then r - TWO_64 else r
  }

  function Pow2(n: nat): nat {
    if n == 0 then 1 else 2 * Pow2(n - 1)
  }

  /** Cycles of some clock in internal units; MFP cycles are scaled in unsigned 64-bit
      arithmetic and cut down to a C int. */
  function ToInternal(m: Clocks, cycles: int, kind: CycleType): int
    requires m.mfpTimerFreq > 0
  {
    match kind
    case CpuCycle => cycles * CYCINT_ONE
    case MfpCycle => Signed32((cycles * CYCINT_ONE * m.cpuFreq) % TWO_64 / m.mfpTimerFreq)
    case Cpu8Cycle => cycles * Pow2(m.cpuFreqShift) * CYCINT_ONE
  }

  /** The due time stored for an interrupt `delta` internal units after `clock`. */
  function DueAt(delta: int, clock: nat): (t: nat)
    ensures t <= UINT64_MAX
  {
    Wrap64(delta + clock * CYCINT_ONE)
  }

  /** The lateness of a dispatch, zero or negative, as the C int that stores it. */
  function Lateness(due: nat, clock: nat): int {
    Signed32(due - clock * CYCINT_ONE)
  }

  lemma Wrap64Add(a: int, b: int)
    ensures Wrap64(Wrap64(a) + b) == Wrap64(a + b)
  {
    var q := a / TWO_64;
    assert a == q * TWO_64 + a % TWO_64;
    assert (a % TWO_64 + b + q * TWO_64) % TWO_64 == (a % TWO_64 + b) % TWO_64;
  }

  /** The next due time of an interrupt due at `due`, dispatched at `clock`, whose handler
      re-arms it `delta` internal units later and makes up for its lateness. */
  function Rearmed(due: nat, delta: int, clock: nat): nat {
    DueAt(delta + Lateness(due, clock), clock)
  }

  /** The lateness of a dispatch fits the C int that carries it. */
  predicate Measurable(due: nat, clock: nat) {
    -0x8000_0000 <= Signed64(due - clock * CYCINT_ONE) < 0x8000_0000
  }

  lemma MeasurableLateness(due: nat, clock: nat)
    requires Measurable(due, clock)
    ensures Wrap64(Lateness(due, clock) + clock * CYCINT_ONE) == Wrap64(due)
  {
    var d := due - clock * CYCINT_ONE;
    var s := Signed64(d);
    assert s == d - (d - s) / TWO_64 * TWO_64;
    assert Lateness(due, clock) == s by { SameResidue32(d, s); }
    Wrap64Shift(due, (d - s) / TWO_64);
  }

  lemma Wrap64Shift(a: int, k: int)
    ensures Wrap64(a - k * TWO_64) == Wrap64(a)
  {
  }

  lemma SameResidue32(d: int, s: int)
    requires s == Signed64(d) && -0x8000_0000 <= s < 0x8000_0000
    ensures Signed32(d) == s
  {
    var k := (d - s) / TWO_64;
    var n := k * 0x1_0000_0000;
    assert d == s + n * 0x1_0000_0000;
    Mod32Shift(s, n);
    if s < 0 {
      Mod32Shift(s, 1);
    }
  }

  lemma Mod32Shift(s: int, n: int)
    ensures (s + n * 0x1_0000_0000) % 0x1_0000_0000 == s % 0x1_0000_0000
  {
  }

  /** A re-armed timer is due exactly one period after it was due -- however late its
      handler ran -- if and only if the lateness fits a C int. */
  lemma RearmedIsExact(due: nat, delta: int, clock: nat)
    ensures Rearmed(due, delta, clock) == Wrap64(due + delta) <==> Measurable(due, clock)
  {
    var l, c := Lateness(due, clock), clock * CYCINT_ONE;
    if Measurable(due, clock) {
      MeasurableLateness(due, clock);
      Wrap64Add(l + c, delta);
      Wrap64Add(due, delta);
    }
    if Rearmed(due, delta, clock) == Wrap64(due + delta) {
      Wrap64Add(delta + l + c, -delta - c);
      Wrap64Add(due + delta, -delta - c);
      assert Wrap64(l) == Wrap64(due - c);
      SmallIsSigned(l);
    }
  }

  lemma SmallIsSigned(l: int)
    requires -0x8000_0000 <= l < 0x8000_0000
    ensures Signed64(l) == l
  {
    if l < 0 {
      assert Wrap64(l) == l + TWO_64;
    }
  }

  /** The list after the interrupt `id` was acknowledged and armed again `delta` after it was due. */
  ghost function Rearm(q: Queue, id: nat, delta: int, clock: nat): Queue
    requires q.Valid() && 0 < id < MAX_INTERRUPTS
  {
    RemoveIsValid(q, id);
    RearmedFits(q.due[id], delta, clock);
    Insert(Remove(q, id), id, Rearmed(q.due[id], delta, clock))
  }

  lemma RearmedFits(due: nat, delta: int, clock: nat)
    ensures Rearmed(due, delta, clock) <= UINT64_MAX
  {
  }

  datatype Handler = Handler(active: bool, cycles: nat, prev: int, next: int)

  type Table = t: seq<Handler> | |t| == MAX_INTERRUPTS witness seq(MAX_INTERRUPTS, _ => Handler(false, 0, -1, -1))

  ghost function DueTimes(t: Table): (d: seq<nat>)
    ensures |d| == MAX_INTERRUPTS
    ensures forall id :: 0 <= id < MAX_INTERRUPTS ==> d[id] == t[id].cycles
  {
    seq(MAX_INTERRUPTS, id requires 0 <= id < MAX_INTERRUPTS => t[id].cycles)
  }

  /** The links of the table thread the ids of `order`, in both directions. */
  ghost predicate Threads(t: Table, order: seq<nat>) {
    && |order| > 0 && InTable(order)
    && (forall i :: 0 <= i < |order| - 1 ==> t[order[i]].next == order[i + 1])
    && (forall i :: 0 < i < |order| ==> t[order[i]].prev == order[i - 1])
    && t[order[0]].prev == -1
    && t[order[|order| - 1]].next == -1
  }

  /** The links that insertion before position `k` sets. */
  function LinkIn(t: Table, order: seq<nat>, k: nat, id: nat): Table
    requires k < |order| && InTable(order) && id < MAX_INTERRUPTS && id != order[k]
  {
    var n := order[k];
    var t1 := t[id := t[id].(next := n, prev := if k == 0 then -1 else order[k - 1])];
    var t2 := t1[n := t1[n].(prev := id)];
    if k == 0 then t2 else t2[order[k - 1] := t2[order[k - 1]].(next := id)]
  }

  lemma LinkInThreads(t: Table, order: seq<nat>, k: nat, id: nat)
    requires Threads(t, order) && Distinct(order) && k < |order|
    requires id < MAX_INTERRUPTS && id !in order
    ensures Threads(LinkIn(t, order, k, id), InsertAt(order, k, id))
  {
    hide InsertAt;
    var r, t' := InsertAt(order, k, id), LinkIn(t, order, k, id);
    forall i | 0 <= i < |order|
      ensures t'[order[i]].next == if i == k - 1 then id else t[order[i]].next
      ensures t'[order[i]].prev == if i == k then id else t[order[i]].prev
    {
    }
    forall i | 0 <= i < |r| - 1
      ensures t'[r[i]].next == r[i + 1]
    {
      assert i < k || i == k || r[i] == order[i - 1];
    }
    forall i | 0 < i < |r|
      ensures t'[r[i]].prev == r[i - 1]
    {
      assert i < k || i == k || r[i] == order[i - 1];
    }
    assert r[|r| - 1] == order[|order| - 1];
  }

  /** The links that taking out position `k` sets. */
  function LinkOut(t: Table, order: seq<nat>, k: nat): Table
    requires k < |order| - 1 && InTable(order)
  {
    var n := order[k + 1];
    if k == 0 then t[n := t[n].(prev := -1)]
    else
      var t1 := t[order[k - 1] := t[order[k - 1]].(next := n)];
      t1[n := t1[n].(prev := order[k - 1])]
  }

  lemma LinkOutThreads(t: Table, order: seq<nat>, k: nat)
    requires Threads(t, order) && Distinct(order) && k < |order| - 1
    ensures Threads(LinkOut(t, order, k), RemoveAt(order, k))
  {
    hide RemoveAt;
    var r, t' := RemoveAt(order, k), LinkOut(t, order, k);
    forall i | 0 <= i < |order| && i != k
      ensures t'[order[i]].next == if i == k - 1 then order[k + 1] else t[order[i]].next
      ensures t'[order[i]].prev == if i == k + 1 then (if k == 0 then -1 else order[k - 1]) else t[order[i]].prev
    {
    }
    forall i | 0 <= i < |r| - 1
      ensures t'[r[i]].next == r[i + 1]
    {
      assert r[i] == order[if i < k then i else i + 1];
    }
    forall i | 0 < i < |r|
      ensures t'[r[i]].prev == r[i - 1]
    {
      assert r[i] == order[if i < k then i else i + 1];
    }
    assert r[|r| - 1] == order[|order| - 1];
  }

  /** Changing what is not a link keeps the links. */
  lemma LinksAt(t: Table, order: seq<nat>, k: nat)
    requires Threads(t, order) && k < |order| - 1
    ensures t[order[k]].next == order[k + 1] < MAX_INTERRUPTS
    ensures k > 0 ==> t[order[k]].prev == order[k - 1] < MAX_INTERRUPTS
  {
  }

  lemma SameLinks(t: Table, t': Table, order: seq<nat>)
    requires Threads(t, order)
    requires forall i :: 0 <= i < |order| ==>
        t'[order[i]].next == t[order[i]].next && t'[order[i]].prev == t[order[i]].prev
    ensures Threads(t', order)
  {
  }

  class Scheduler {
    const handlers: array<Handler>
    var activeInt: nat
    var activeIntCycles: nat
    var delayedCycles: int
    var pendingInterruptCount: int
    ghost var order: seq<nat>

    ghost predicate Linked()
      reads this, handlers
    {
      && handlers.Length == MAX_INTERRUPTS
      && Threads(handlers[..], order)
      && Q().Valid()
      && activeInt == order[0]
      && activeIntCycles == handlers[activeInt].cycles
    }

    ghost predicate Valid()
      reads this, handlers
    {
      && Linked()
      && (forall id :: 0 <= id < MAX_INTERRUPTS ==> (handlers[id].active <==> id in order))
    }

    ghost function Q(): Queue
      requires handlers.Length == MAX_INTERRUPTS
      reads this, handlers
    {
      Queue(order, DueTimes(handlers[..]))
    }

    constructor ()
      ensures Valid() && fresh(handlers)
      ensures order == [0] && Q().Pending() == map[]
    {
      handlers := new Handler[MAX_INTERRUPTS](_ => Handler(false, 0, -1, -1));
      activeInt, activeIntCycles := 0, UINT64_MAX;
      delayedCycles, pendingInterruptCount := 0, 0;
      order := [0];
      new;
      handlers[0] := handlers[0].(active := true);
      handlers[0] := handlers[0].(cycles := UINT64_MAX);
    }

    /** Walks the list from the head to the first entry that is not due before entry `id`. */
    method FindPlace(id: nat) returns (n: nat, prev: int, ghost k: nat)
      requires Linked() && id < MAX_INTERRUPTS && handlers[id].cycles <= UINT64_MAX
      ensures k == Earlier(Q(), handlers[id].cycles) && n == order[k]
      ensures prev == if k == 0 then -1 else order[k - 1]
      ensures n == activeInt <==> k == 0
    {
      hide Earlier;
      n := activeInt;
      prev := handlers[n].prev;
      k := 0;
      while handlers[id].cycles > handlers[n].cycles
        invariant 0 <= k < |order| && n == order[k] && prev == handlers[n].prev
        invariant forall j :: 0 <= j < k ==> Q().due[order[j]] < handlers[id].cycles
        decreases |order| - k
      {
        assert Q().due[order[k]] < UINT64_MAX == Q().due[0];
        assert handlers[..][order[k]].next == order[k + 1];
        n := handlers[n].next;
        prev := handlers[n].prev;
        k := k + 1;
      }
      assert k > 0 ==> handlers[..][order[k]].prev == order[k - 1];
    }

    /** Puts an entry into the list. */
    method InsertInt(id: nat)
      requires Linked() && 0 < id < MAX_INTERRUPTS && id !in order
      requires handlers[id].cycles <= UINT64_MAX
      modifies `activeInt, `activeIntCycles, `order, handlers
      ensures Linked()
      ensures Q() == Insert(old(Q()), id, old(handlers[id].cycles))
      ensures forall i :: 0 <= i < MAX_INTERRUPTS ==> handlers[i].active == old(handlers[i].active)
    {
      hide InsertAt, Threads, Queue.Valid, Earlier;
      var n, prev, k := FindPlace(id);
      ghost var t, q := handlers[..], Q();
      assert InTable(order) && Distinct(order) && prev < MAX_INTERRUPTS && n != id by { OrderIsGood(q, k); }
      handlers[id] := handlers[id].(next := n);
      handlers[n] := handlers[n].(prev := id);
      if n == activeInt {
        activeInt := id;
        activeIntCycles := handlers[activeInt].cycles;
        handlers[activeInt] := handlers[activeInt].(prev := -1);
      } else {
        handlers[id] := handlers[id].(prev := prev);
        handlers[prev] := handlers[prev].(next := id);
      }
      assert handlers[..] == LinkIn(t, order, k, id);
      LinkInThreads(t, order, k, id);
      InsertIsValid(q, id, handlers[id].cycles);
      order := InsertAt(order, k, id);
      assert Q().due == q.due == q.due[id := handlers[id].cycles];
    }

    /** Makes the second entry of the list its head. */
    method UnlinkFirst()
      requires Linked() && activeInt != 0
      modifies `activeInt, `activeIntCycles, `order, handlers
      ensures Linked() && Q() == Remove(old(Q()), old(activeInt))
      ensures forall i :: 0 <= i < MAX_INTERRUPTS ==> handlers[i].active == old(handlers[i].active)
    {
      hide RemoveAt, Threads, Queue.Valid, IndexOf;
      ghost var q, t := Q(), handlers[..];
      HeadIsListed(q);
      NotLast(q, activeInt);
      LinksAt(t, order, 0);
      activeInt := handlers[activeInt].next;
      activeIntCycles := handlers[activeInt].cycles;
      handlers[activeInt] := handlers[activeInt].(prev := -1);
      assert handlers[..] == LinkOut(t, order, 0);
      LinkOutThreads(t, order, 0);
      RemoveIsValid(q, order[0]);
      order := RemoveAt(order, 0);
      assert Q().due == q.due;
    }

    /** Joins the neighbours of an entry that is not the head. */
    method UnlinkMiddle(id: nat)
      requires Linked() && id != activeInt && id != 0 && id in order
      modifies `order, handlers
      ensures Linked() && Q() == Remove(old(Q()), id)
      ensures forall i :: 0 <= i < MAX_INTERRUPTS ==> handlers[i].active == old(handlers[i].active)
    {
      hide RemoveAt, Threads, Queue.Valid, IndexOf;
      ghost var q, t, k := Q(), handlers[..], IndexOf(order, id);
      NotLast(q, id);
      LinksAt(t, order, k);
      var prev, next := handlers[id].prev, handlers[id].next;
      handlers[prev] := handlers[prev].(next := handlers[id].next);
      handlers[next] := handlers[next].(prev := handlers[id].prev);
      assert handlers[..] == LinkOut(t, order, k);
      LinkOutThreads(t, order, k);
      RemoveIsValid(q, id);
      order := RemoveAt(order, k);
      assert Q().due == q.due;
    }

    method Deactivate(id: nat)
      requires Linked() && id < MAX_INTERRUPTS
      modifies handlers
      ensures Linked() && Q() == old(Q())
      ensures forall i :: 0 <= i < MAX_INTERRUPTS ==> handlers[i].active == (i != id && old(handlers[i].active))
    {
      hide Queue.Valid;
      ghost var t := handlers[..];
      handlers[id] := handlers[id].(active := false);
      SameLinks(t, handlers[..], order);
      assert Q().due == old(Q()).due;
    }

    /** Takes a pending interrupt out of the list; one that is not pending stays as it is. */
    method RemovePendingInterrupt(id: nat)
      requires Valid() && 0 < id < MAX_INTERRUPTS
      modifies `activeInt, `activeIntCycles, `order, handlers
      ensures Valid() && id !in order
      ensures Q() == Remove(old(Q()), id)
    {
      RemoveIsValid(Q(), id);
      if !handlers[id].active {
        return;
      }
      Deactivate(id);
      if id == activeInt {
        UnlinkFirst();
      } else {
        UnlinkMiddle(id);
      }
    }

    /** The head has triggered: the next entry becomes the head, possibly the sentinel. */
    method AcknowledgeInterrupt()
      requires Valid() && activeInt != 0
      modifies `activeInt, `activeIntCycles, `order, handlers
      ensures Valid() && old(activeInt) !in order
      ensures Q() == Remove(old(Q()), old(activeInt))
    {
      RemoveIsValid(Q(), activeInt);
      Deactivate(activeInt);
      UnlinkFirst();
    }

    /** Makes an interrupt that is not in the list pending with a given due time. */
    method Activate(id: nat, t: nat)
      requires Valid() && 0 < id < MAX_INTERRUPTS && id !in order && t <= UINT64_MAX
      modifies `activeInt, `activeIntCycles, `order, handlers
      ensures Valid()
      ensures Q() == Insert(old(Q()), id, t)
    {
      hide Queue.Valid, Insert;
      ghost var q, s := Q(), handlers[..];
      handlers[id] := handlers[id].(active := true);
      handlers[id] := handlers[id].(cycles := t);
      UnlistedDue(q, id, t);
      assert Q() == q.(due := q.due[id := t]);
      SameLinks(s, handlers[..], order);
      InsertMembers(q, id, t);
      InsertInt(id);
    }

    /** Pending again, counted from the time the last interrupt should have occurred. */
    method AddAbsoluteInterrupt(m: Clocks, cycleTime: int, kind: CycleType, id: nat, clock: nat)
      requires Valid() && 0 < id < MAX_INTERRUPTS && m.mfpTimerFreq > 0
      modifies `activeInt, `activeIntCycles, `order, handlers
      ensures Valid()
      ensures Remove(old(Q()), id).Valid() && id !in Remove(old(Q()), id).order
      ensures Q() == Insert(Remove(old(Q()), id), id, DueAt(ToInternal(m, cycleTime, kind) + delayedCycles, clock))
    {
      hide Wrap64, ToInternal, Queue.Valid, Insert, Remove, Threads;
      RemoveIsValid(Q(), id);
      NotPending(Q(), id);
      if handlers[id].active {
        RemovePendingInterrupt(id);
      }
      var t := Wrap64(ToInternal(m, cycleTime, kind) + delayedCycles);
      Wrap64Add(ToInternal(m, cycleTime, kind) + delayedCycles, clock * CYCINT_ONE);
      Activate(id, Wrap64(t + clock * CYCINT_ONE));
    }

    /** Pending from now, with an offset in internal units. */
    method AddRelativeInterruptWithOffset(m: Clocks, cycleTime: int, kind: CycleType, id: nat, offset: int, clock: nat)
      requires Valid() && 0 < id < MAX_INTERRUPTS && m.mfpTimerFreq > 0
      modifies `activeInt, `activeIntCycles, `order, handlers
      ensures Valid()
      ensures Remove(old(Q()), id).Valid() && id !in Remove(old(Q()), id).order
      ensures Q() == Insert(Remove(old(Q()), id), id, DueAt(ToInternal(m, cycleTime, kind) + offset, clock))
    {
      hide Wrap64, ToInternal, Queue.Valid, Insert, Remove, Threads;
      RemoveIsValid(Q(), id);
      NotPending(Q(), id);
      if handlers[id].active {
        RemovePendingInterrupt(id);
      }
      var t := Wrap64(ToInternal(m, cycleTime, kind) + offset);
      Wrap64Add(ToInternal(m, cycleTime, kind) + offset, clock * CYCINT_ONE);
      Activate(id, Wrap64(t + clock * CYCINT_ONE));
    }

    /** Moves the due time of an interrupt; one that is not pending becomes pending. */
    method ModifyInterrupt(m: Clocks, cycleTime: int, kind: CycleType, id: nat)
      requires Valid() && 0 < id < MAX_INTERRUPTS && m.mfpTimerFreq > 0
      modifies `activeInt, `activeIntCycles, `order, handlers
      ensures Valid()
      ensures Remove(old(Q()), id).Valid() && id !in Remove(old(Q()), id).order
      ensures Q() == Insert(Remove(old(Q()), id), id, Wrap64(old(handlers[id].cycles) + ToInternal(m, cycleTime, kind)))
    {
      hide Wrap64, ToInternal, Queue.Valid, Insert, Threads;
      RemoveIsValid(Q(), id);
      ghost var q := Q();
      RemovePendingInterrupt(id);
      assert Q().due[id] == q.due[id];
      Activate(id, Wrap64(handlers[id].cycles + ToInternal(m, cycleTime, kind)));
    }

    /** Computes how late the head is and hands its id to the caller, who runs its handler. */
    method CallActiveHandler(clock: nat) returns (id: nat)
      requires Valid()
      modifies `pendingInterruptCount, `delayedCycles
      ensures id == activeInt
      ensures forall x :: x in order ==> Q().due[id] <= Q().due[x]
      ensures delayedCycles == pendingInterruptCount == Lateness(Q().due[id], clock)
    {
      pendingInterruptCount := Signed32(activeIntCycles - clock * CYCINT_ONE);
      delayedCycles := pendingInterruptCount;
      id := activeInt;
    }

    /** A periodic handler that re-arms itself with an absolute interrupt. */
    method DispatchAndRearmAbsolute(m: Clocks, period: int, kind: CycleType, clock: nat) returns (id: nat)
      requires Valid() && activeInt != 0 && m.mfpTimerFreq > 0
      modifies this, handlers
      ensures Valid() && id == old(activeInt) && id in order
      ensures Q() == Rearm(old(Q()), id, ToInternal(m, period, kind), clock)
      ensures Q().Pending() == old(Q().Pending())[id := Q().due[id]]
    {
      hide ToInternal, Lateness, DueAt, Insert, Remove, Queue.Valid, Queue.Pending, Threads;
      HeadIsListed(Q());
      id := CallActiveHandler(clock);
      RemoveIsValid(Q(), id);
      AcknowledgeInterrupt();
      ghost var q := Q();
      NotPending(q, id);
      AddAbsoluteInterrupt(m, period, kind, id, clock);
      var t := DueAt(ToInternal(m, period, kind) + delayedCycles, clock);
      InsertIsValid(q, id, t);
      InsertedDue(q, id, t);
    }

    /** The bit clock of the keyboard's serial line, which re-arms itself with an offset. */
    method DispatchAcia(m: Clocks, txClock: nat, divider: nat, clock: nat) returns (id: nat)
      requires Valid() && activeInt != 0 && m.mfpTimerFreq > 0 && txClock > 0
      modifies this, handlers
      ensures Valid() && id == old(activeInt) && id in order
      ensures Q() == Rearm(old(Q()), id, ToInternal(m, 8021247 / txClock * divider, Cpu8Cycle), clock)
      ensures Q().Pending() == old(Q().Pending())[id := Q().due[id]]
    {
      hide ToInternal, Lateness, DueAt, Insert, Remove, Queue.Valid, Queue.Pending, Threads;
      HeadIsListed(Q());
      id := CallActiveHandler(clock);
      var pendingCyclesOver := -pendingInterruptCount;
      RemoveIsValid(Q(), id);
      AcknowledgeInterrupt();
      ghost var q := Q();
      NotPending(q, id);
      var bitCycles := 8021247 / txClock * divider;
      AddRelativeInterruptWithOffset(m, bitCycles, Cpu8Cycle, id, -pendingCyclesOver, clock);
      var t := DueAt(ToInternal(m, bitCycles, Cpu8Cycle) - pendingCyclesOver, clock);
      InsertIsValid(q, id, t);
      InsertedDue(q, id, t);
    }
  }
}
