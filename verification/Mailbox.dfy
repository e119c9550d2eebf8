/**
 The hand-off queue between the log threads and the writer thread.

 The code takes the `assert(0)` branch on every push that finds an item queued, and with assertions
 compiled out goes on, without linking the item, to report success. So what is called a FIFO is a
 one-slot mailbox. Each push and each pop runs under the lock; an interleaving of any number of
 threads is a sequence of such steps.
 */
module Mailbox {
  import opened Types

  /** `fifo_item_t`; nodes are named by the order of their allocation. */
  datatype Node<T> = Node(data: T, next: Option<nat>)

  /** `heap` holds every node ever allocated. `delivered` and `dropped` list the nodes that pops
      returned and that pushes did not link; `multi` records a visit to the last branch of pop. */
  datatype Queue<T> = Queue(
    head: Option<nat>, tail: Option<nat>, heap: seq<Node<T>>,
    delivered: seq<nat>, dropped: seq<nat>, multi: bool)

  /** A call of `fifo_push` with its argument, the answer of `malloc`, and the value that the
      fresh node's uninitialised `next` happens to have; or a call of `fifo_pop`. */
  datatype Event<T> = Push(value: Option<T>, mallocOk: bool, garbage: Option<nat>) | Pop

  function Empty<T>(): Queue<T> {
    Queue(None, None, [], [], [], false)
  }

  /** The event allocates a node. */
  predicate Allocates<T>(e: Event<T>) {
    e.Push? && e.value.Some? && e.mallocOk
  }

  function PushStep<T>(q: Queue<T>, value: T, garbage: Option<nat>): Queue<T> {
    var id := |q.heap|;
    var q' := q.(heap := q.heap + [Node(value, garbage)]);
    if q.tail == None && q.head == None then q'.(head := Some(id), tail := Some(id))
    else if q.tail != None || q.head != None then q'.(dropped := q.dropped + [id])
    else assert false; q'
  }

  function PopStep<T>(q: Queue<T>): Queue<T> {
    if q.head == None && q.tail == None then q
    else if q.head != None && q.tail == q.head then
      q.(head := None, tail := None, delivered := q.delivered + [q.head.value])
    else if q.head.Some? && q.head.value < |q.heap| then
      q.(head := q.heap[q.head.value].next, delivered := q.delivered + [q.head.value], multi := true)
    else
      q.(multi := true)
  }

  function Step<T>(q: Queue<T>, e: Event<T>): Queue<T> {
    if e.Pop? then PopStep(q)
    else if Allocates(e) then PushStep(q, e.value.value, e.garbage)
    else q
  }

  function Run<T>(events: seq<Event<T>>): Queue<T>
    decreases |events|
  {
    if events == [] then Empty() else Step(Run(events[..|events| - 1]), events[|events| - 1])
  }

  /** What the queue holds, as a sequence of at most one node. */
  function Held<T>(q: Queue<T>): seq<nat> {
    if q.head.Some? then [q.head.value] else []
  }

  predicate Increasing(s: seq<nat>) {
    forall i, j :: 0 <= i < j < |s| ==> s[i] < s[j]
  }

  /** All of `s` is below `n`. */
  predicate Below(s: seq<nat>, n: nat) {
    forall i :: 0 <= i < |s| ==> s[i] < n
  }

  ghost predicate Ordered<T>(q: Queue<T>) {
    && Increasing(q.delivered + Held(q)) && Below(q.delivered + Held(q), |q.heap|)
    && Increasing(q.dropped) && Below(q.dropped, |q.heap|)
  }

  ghost predicate Partitioned<T>(q: Queue<T>) {
    multiset(q.delivered + Held(q)) + multiset(q.dropped) == All(|q.heap|)
  }

  ghost predicate Inv<T>(q: Queue<T>) {
    q.head == q.tail && !q.multi && Ordered(q) && Partitioned(q)
  }

  /** The nodes 0, ..., n - 1. */
  ghost function All(n: nat): (m: multiset<nat>)
    ensures forall k: nat :: m[k] == (if k < n then 1 else 0)
  {
    if n == 0 then multiset{} else All(n - 1) + multiset{n - 1}
  }

  lemma Extend(s: seq<nat>, n: nat)
    requires Increasing(s) && Below(s, n)
    ensures Increasing(s + [n]) && Below(s + [n], n + 1) && Below(s, n + 1)
    ensures multiset(s + [n]) == multiset(s) + multiset{n}
  {
  }

  lemma {:induction false} PushInv<T>(q: Queue<T>, value: T, garbage: Option<nat>)
    requires Inv(q)
    ensures Inv(PushStep(q, value, garbage))
  {
    hide Increasing, Below, All;
    var q' := PushStep(q, value, garbage);
    var n, kept := |q.heap|, q.delivered + Held(q);
    Extend(kept, n);
    Extend(q.dropped, n);
    AllNext(n);
    if q.head.None? {
      assert q'.delivered + Held(q') == kept + [n];
    } else {
      assert q'.delivered + Held(q') == kept;
    }
  }

  lemma AllNext(n: nat)
    ensures All(n + 1) == All(n) + multiset{n}
  {
  }

  lemma {:induction false} PopInv<T>(q: Queue<T>)
    requires Inv(q)
    ensures Inv(PopStep(q))
  {
    assert PopStep(q).delivered + Held(PopStep(q)) == q.delivered + Held(q);
  }

  /** Over every interleaving: head and tail name the same node or are both null, and the
      multi-item branch of pop is never taken. Every allocated node was delivered once, is held, or
      was dropped; deliveries keep the order of the pushes. */
  lemma {:induction false} RunInv<T>(events: seq<Event<T>>)
    ensures Inv(Run(events))
    decreases |events|
  {
    if events != [] {
      var q, e := Run(events[..|events| - 1]), events[|events| - 1];
      RunInv(events[..|events| - 1]);
      if Allocates(e) {
        PushInv(q, e.value.value, e.garbage);
      } else if e.Pop? {
        PopInv(q);
      }
    }
  }

  /** Each allocated node has exactly one fate. */
  lemma {:induction false} EveryPushHasOneFate<T>(events: seq<Event<T>>, k: nat)
    requires k < |Run(events).heap|
    ensures var q := Run(events);
            && (k in q.delivered || q.head == Some(k) || k in q.dropped)
            && multiset(q.delivered)[k] + multiset(Held(q))[k] + multiset(q.dropped)[k] == 1
  {
    RunInv(events);
    var q := Run(events);
    assert multiset(q.delivered + Held(q)) == multiset(q.delivered) + multiset(Held(q));
    assert (multiset(q.delivered + Held(q)) + multiset(q.dropped))[k] == All(|q.heap|)[k] == 1;
    if k !in q.delivered && k !in q.dropped {
      assert k in multiset(Held(q));
      assert k in Held(q);
    }
  }

  /** An allocating push since the last pop. */
  ghost predicate PushedSincePop<T>(events: seq<Event<T>>) {
    exists i :: 0 <= i < |events| && Allocates(events[i])
                && forall j :: i <= j < |events| ==> !events[j].Pop?
  }

  /** A push is dropped exactly when some push has taken place since the last pop: what a caller
      can know beforehand. */
  lemma {:induction false} DroppedExactly<T>(events: seq<Event<T>>, e: Event<T>)
    requires Allocates(e)
    ensures var q, q' := Run(events), Run(events + [e]);
            && (q.head.Some? <==> PushedSincePop(events))
            && q'.dropped == (if PushedSincePop(events) then q.dropped + [|q.heap|] else q.dropped)
            && q'.delivered == q.delivered
  {
    RunInv(events);
    OccupiedExactly(events);
    assert (events + [e])[..|events|] == events;
  }

  lemma {:induction false} OccupiedExactly<T>(events: seq<Event<T>>)
    ensures Run(events).head.Some? <==> PushedSincePop(events)
    decreases |events|
  {
    if events != [] {
      var n := |events| - 1;
      OccupiedExactly(events[..n]);
      RunInv(events[..n]);
      SincePopNext(events);
    }
  }

  lemma SincePopNext<T>(events: seq<Event<T>>)
    requires events != []
    ensures var n := |events| - 1;
            PushedSincePop(events) <==>
            if events[n].Pop? then false else Allocates(events[n]) || PushedSincePop(events[..n])
  {
    var n := |events| - 1;
    var before := events[..n];
    assert forall j :: 0 <= j < n ==> before[j] == events[j];
    if PushedSincePop(events) {
      var i :| 0 <= i < |events| && Allocates(events[i])
               && forall j :: i <= j < |events| ==> !events[j].Pop?;
      assert i < n ==> Allocates(before[i]);
    }
    if !events[n].Pop? && PushedSincePop(before) {
      var i :| 0 <= i < n && Allocates(before[i]) && forall j :: i <= j < n ==> !before[j].Pop?;
      assert Allocates(events[i]);
      assert forall j :: i <= j < n ==> !events[j].Pop?;
    }
  }

  /** The value held. */
  function SlotOf<T>(q: Queue<T>): Option<T> {
    if q.head.Some? && q.head.value < |q.heap| then Some(q.heap[q.head.value].data) else None
  }

  /** A one-slot mailbox: a value is kept only if the slot is free, a pop empties it. */
  function MailboxStep<T>(slot: Option<T>, e: Event<T>): Option<T> {
    if e.Pop? then None else if Allocates(e) && slot.None? then e.value else slot
  }

  /** In every reachable state the queue steps like the mailbox, and a pop delivers the slot. */
  lemma {:induction false} RefinesMailbox<T>(events: seq<Event<T>>, e: Event<T>)
    ensures var q, q' := Run(events), Run(events + [e]);
            && SlotOf(q') == MailboxStep(SlotOf(q), e)
            && q'.delivered == (if e.Pop? then q.delivered + Held(q) else q.delivered)
            && (q.head.Some? ==> q.head.value < |q.heap|)
            && q.heap <= q'.heap
  {
    RunInv(events);
    assert (events + [e])[..|events|] == events;
    var q := Run(events);
    if q.head.Some? {
      assert (q.delivered + Held(q))[|q.delivered|] == q.head.value;
    }
  }

  /** An unbounded FIFO, for comparison. */
  datatype Fifo = Fifo(contents: seq<nat>, delivered: seq<nat>, count: nat)

  function FifoStep<T>(f: Fifo, e: Event<T>): Fifo {
    if Allocates(e) then Fifo(f.contents + [f.count], f.delivered, f.count + 1)
    else if e.Pop? && f.contents != [] then
      Fifo(f.contents[1..], f.delivered + [f.contents[0]], f.count)
    else f
  }

  function FifoRun<T>(events: seq<Event<T>>): Fifo
    decreases |events|
  {
    if events == [] then Fifo([], [], 0)
    else FifoStep(FifoRun(events[..|events| - 1]), events[|events| - 1])
  }

  /** The queue, as the FIFO it would be. */
  function AsFifo<T>(q: Queue<T>): Fifo {
    Fifo(Held(q), q.delivered, |q.heap|)
  }

  lemma StepsAgree<T>(q: Queue<T>, e: Event<T>)
    requires Inv(q)
    ensures q.dropped <= Step(q, e).dropped
    ensures Step(q, e).dropped == [] ==> AsFifo(Step(q, e)) == FifoStep(AsFifo(q), e)
  {
  }

  /** No push follows another without a pop in between: a condition on the events alone. */
  ghost predicate PopsKeepUp<T>(events: seq<Event<T>>) {
    forall i :: 0 <= i < |events| && Allocates(events[i]) ==> !PushedSincePop(events[..i])
  }

  lemma KeepUpNext<T>(events: seq<Event<T>>)
    requires events != []
    ensures var n := |events| - 1;
            PopsKeepUp(events) <==>
            PopsKeepUp(events[..n]) && (Allocates(events[n]) ==> !PushedSincePop(events[..n]))
  {
    hide PushedSincePop, Allocates;
    var n := |events| - 1;
    var before := events[..n];
    assert forall i :: 0 <= i < n ==> before[i] == events[i] && before[..i] == events[..i];
  }

  lemma DroppedNext<T>(q: Queue<T>, e: Event<T>)
    requires Inv(q)
    ensures Step(q, e).dropped == [] <==> q.dropped == [] && !(Allocates(e) && q.head.Some?)
  {
  }

  lemma {:induction false} NothingDroppedExactly<T>(events: seq<Event<T>>)
    ensures Run(events).dropped == [] <==> PopsKeepUp(events)
    decreases |events|
  {
    if events != [] {
      hide Step, Inv, PushedSincePop, PopsKeepUp;
      var n := |events| - 1;
      NothingDroppedExactly(events[..n]);
      KeepUpNext(events);
      RunInv(events[..n]);
      OccupiedExactly(events[..n]);
      DroppedNext(Run(events[..n]), events[n]);
    }
  }

  /** The code behaves as a FIFO exactly on the runs in which no push follows another without a pop in
      between; these are the runs in which nothing is dropped. */
  lemma {:induction false} FifoExactly<T>(events: seq<Event<T>>)
    ensures FifoRun(events) == AsFifo(Run(events)) <==> PopsKeepUp(events)
    ensures FifoRun(events) == AsFifo(Run(events)) <==> Run(events).dropped == []
  {
    NothingDroppedExactly(events);
    FifoConserves(events);
    RunConserves(events);
    if Run(events).dropped == [] {
      NothingDroppedIsFifo(events);
    }
  }

  lemma {:induction false} FifoConserves<T>(events: seq<Event<T>>)
    ensures var f := FifoRun(events);
            |f.delivered| + |f.contents| == f.count == |Run(events).heap|
    decreases |events|
  {
    if events != [] {
      FifoConserves(events[..|events| - 1]);
    }
  }

  lemma {:induction false} RunConserves<T>(events: seq<Event<T>>)
    ensures var q := Run(events);
            |q.delivered| + |Held(q)| + |q.dropped| == |q.heap|
    decreases |events|
  {
    if events != [] {
      RunConserves(events[..|events| - 1]);
      RunInv(events[..|events| - 1]);
    }
  }

  lemma {:induction false} NothingDroppedIsFifo<T>(events: seq<Event<T>>)
    requires Run(events).dropped == []
    ensures FifoRun(events) == AsFifo(Run(events))
    decreases |events|
  {
    if events != [] {
      var before := events[..|events| - 1];
      RunInv(before);
      StepsAgree(Run(before), events[|events| - 1]);
      NothingDroppedIsFifo(before);
    }
  }

  /** Two pushes in a row, then two pops: the second item is gone, though its push succeeded. */
  lemma {:induction false} NotAFifo<T>(a: T, b: T)
    ensures var events := [Push(Some(a), true, None), Push(Some(b), true, None), Pop, Pop];
            Run(events).delivered == [0] && Run(events).dropped == [1]
            && FifoRun(events).delivered == [0, 1]
  {
    var p, r := Push(Some(a), true, None), Push(Some(b), true, None);
    hide Step, FifoStep, Run, FifoRun;
    assert [] + [p] == [p] && [p] + [r] == [p, r];
    assert [p, r] + [Pop] == [p, r, Pop] && [p, r, Pop] + [Pop] == [p, r, Pop, Pop];
    RunNext([], p);
    RunNext([p], r);
    RunNext([p, r], Pop);
    RunNext([p, r, Pop], Pop);
    NoEvents<T>();
    QueueSide(p, r);
    FifoSide(p, r);
  }

  lemma NoEvents<T>()
    ensures Run<T>([]) == Empty() && FifoRun<T>([]) == Fifo([], [], 0)
  {
  }

  lemma RunNext<T>(events: seq<Event<T>>, e: Event<T>)
    ensures Run(events + [e]) == Step(Run(events), e)
    ensures FifoRun(events + [e]) == FifoStep(FifoRun(events), e)
  {
    assert (events + [e])[..|events|] == events;
  }

  lemma QueueSide<T>(p: Event<T>, r: Event<T>)
    requires Allocates(p) && Allocates(r)
    ensures var q := Step(Step(Step(Step(Empty(), p), r), Pop), Pop);
            q.delivered == [0] && q.dropped == [1]
  {
    var q1 := Step(Empty(), p);
    assert q1.head == Some(0) && q1.tail == Some(0) && |q1.heap| == 1;
    var q2 := Step(q1, r);
    assert q2.dropped == [1] && q2.head == Some(0) == q2.tail;
  }

  lemma FifoSide<T>(p: Event<T>, r: Event<T>)
    requires Allocates(p) && Allocates(r)
    ensures var f := FifoStep<T>(FifoStep<T>(FifoStep(FifoStep(Fifo([], [], 0), p), r), Pop), Pop);
            f.delivered == [0, 1]
  {
    assert FifoStep(Fifo([], [], 0), p) == Fifo([0], [], 1);
    assert FifoStep(Fifo([0], [], 1), r) == Fifo([0, 1], [], 2);
    assert [0, 1][1..] == [1];
    assert FifoStep<T>(Fifo([0, 1], [], 2), Pop) == Fifo([1], [0], 2);
    assert FifoStep<T>(Fifo([1], [0], 2), Pop).delivered == [0, 1];
  }

  class Item<T> {
    const data: T
    var next: Item?<T>

    /** `malloc`: the link is left uninitialised. */
    constructor (data: T)
      ensures this.data == data
    {
      this.data := data;
    }
  }

  /** `fifo_t` under its lock. */
  class Handoff<T> {
    var head: Item?<T>
    var tail: Item?<T>

    ghost predicate Valid()
      reads this
    {
      head == tail
    }

    ghost function Slot(): Option<T>
      reads this
    {
      if head == null then None else Some(head.data)
    }

    constructor ()
      ensures Valid() && Slot() == None
    {
      head, tail := null, null;
    }

    /** `fifo_push`; `asserted` says that the `assert(0)` line is reached. */
    method Push(value: Option<T>, mallocOk: bool) returns (status: Status, asserted: bool)
      requires Valid()
      modifies this
      ensures Valid()
      ensures status == (if value.Some? && mallocOk then OK else NO)
      ensures asserted <==> status == OK && old(Slot()).Some?
      ensures Slot() == MailboxStep(old(Slot()), Event.Push(value, mallocOk, None))
      ensures asserted || status == NO ==> head == old(head)
    {
      asserted := false;
      if value.None? || !mallocOk {
        return NO, asserted;
      }
      var item := new Item(value.value);
      if tail == null && head == null {
        head, tail := item, item;
      } else if tail != null || head != null {
        asserted := true;
      } else {
        assert false;
      }
      return OK, asserted;
    }

    /** `fifo_pop`. Its last branch, for several linked items, is dead. */
    method Pop() returns (value: Option<T>)
      requires Valid()
      modifies this
      ensures Valid()
      ensures value == old(Slot()) && Slot() == MailboxStep(old(Slot()), Event.Pop)
    {
      var item: Item?<T> := null;
      if head == null && tail == null {
      } else if head != null && tail == head {
        item := head;
        head, tail := null, null;
      } else {
        assert false;
      }
      value := if item != null then Some(item.data) else None;
    }
  }
}
