/**
 The path of a row from the log threads to the database file: pushes by any number of log threads,
 pops and inserts by the writer thread, and rotations, in any interleaving. A rotation is a step of
 its own: it does not overlap a statement that the writer thread is executing.
 */
module Pipeline {
  import opened Types
  import M = Mailbox
  import D = Database

  datatype Event<Row> = Push(value: Option<Row>, mallocOk: bool, garbage: Option<nat>)
                      | WriterPop
                      | Rotate(openOk: bool)

  datatype Pipe<Row> = Pipe(queue: M.Queue<Row>, life: D.Life<Row>)

  /** `WriterPop` is one round of the loop of `bg_thread_exec`. */
  function Step<Row(==)>(fails: D.Faults<Row>, p: Pipe<Row>, e: Event<Row>): Pipe<Row> {
    match e
    case Push(value, mallocOk, garbage) =>
      p.(queue := M.Step(p.queue, M.Push(value, mallocOk, garbage)))
    case WriterPop =>
      var sql := M.SlotOf(p.queue);
      Pipe(M.Step(p.queue, M.Pop),
           if sql.Some? then D.LifeStep(fails, p.life, D.Write(sql.value)) else p.life)
    case Rotate(openOk) =>
      p.(life := D.LifeStep(fails, p.life, D.Rotate(openOk)))
  }

  function Run<Row(==)>(
      fails: D.Faults<Row>, autocommit: bool, openOk: bool, events: seq<Event<Row>>): Pipe<Row>
    decreases |events|
  {
    if events == [] then Pipe(M.Empty(), D.Born(fails, autocommit, openOk))
    else Step(fails, Run(fails, autocommit, openOk, events[..|events| - 1]), events[|events| - 1])
  }

  /** `a` is `b` with some elements left out, the order kept. */
  ghost predicate Subsequence<T>(a: seq<T>, b: seq<T>)
    decreases |b|
  {
    a == [] ||
    (b != [] &&
     ((a[|a| - 1] == b[|b| - 1] && Subsequence(a[..|a| - 1], b[..|b| - 1])) ||
      Subsequence(a, b[..|b| - 1])))
  }

  lemma {:induction false} SubsequenceTransitive<T>(a: seq<T>, b: seq<T>, c: seq<T>)
    requires Subsequence(a, b) && Subsequence(b, c)
    ensures Subsequence(a, c)
    decreases |c|
  {
    if a != [] && b != [] {
      var a', b', c' := a[..|a| - 1], b[..|b| - 1], c[..|c| - 1];
      if Subsequence(b, c') {
        SubsequenceTransitive(a, b, c');
      } else if a[|a| - 1] == b[|b| - 1] && Subsequence(a', b') {
        SubsequenceTransitive(a', b', c');
      } else {
        SubsequenceTransitive(a, b', c');
      }
    }
  }

  lemma {:induction false} SubsequenceConcat<T>(a: seq<T>, b: seq<T>, c: seq<T>, d: seq<T>)
    requires Subsequence(a, b) && Subsequence(c, d)
    ensures Subsequence(a + c, b + d)
    decreases |d|
  {
    if d == [] {
      assert a + c == a && b + d == b;
    } else {
      var d' := d[..|d| - 1];
      assert (b + d)[..|b + d| - 1] == b + d';
      if c == [] || Subsequence(c, d') {
        SubsequenceConcat(a, b, c, d');
      } else {
        var c' := c[..|c| - 1];
        assert (a + c)[..|a + c| - 1] == a + c';
        SubsequenceConcat(a, b, c', d');
      }
    }
  }

  lemma {:induction false} PrefixIsSubsequence<T>(a: seq<T>, b: seq<T>)
    requires a <= b
    ensures Subsequence(a, b)
    decreases |b|
  {
    if a == b {
      if a != [] {
        PrefixIsSubsequence(a[..|a| - 1], b[..|b| - 1]);
      }
    } else {
      PrefixIsSubsequence(a, b[..|b| - 1]);
    }
  }

  /** The elements that satisfy a condition, in order. */
  ghost function Filter<T>(keep: T -> bool, s: seq<T>): seq<T>
    decreases |s|
  {
    if s == [] then []
    else Filter(keep, s[..|s| - 1]) + if keep(s[|s| - 1]) then [s[|s| - 1]] else []
  }

  lemma {:induction false} SubsequenceFilter<T>(keep: T -> bool, a: seq<T>, b: seq<T>)
    requires Subsequence(a, b)
    ensures Subsequence(Filter(keep, a), Filter(keep, b))
    decreases |b|
  {
    if a != [] {
      var n, m := |a| - 1, |b| - 1;
      var last := if keep(b[m]) then [b[m]] else [];
      if a[n] == b[m] && Subsequence(a[..n], b[..m]) {
        SubsequenceFilter(keep, a[..n], b[..m]);
        PrefixIsSubsequence(last, last);
        SubsequenceConcat(Filter(keep, a[..n]), Filter(keep, b[..m]), last, last);
      } else {
        SubsequenceFilter(keep, a, b[..m]);
        SubsequenceConcat(Filter(keep, a), Filter(keep, b[..m]), [], last);
        assert Filter(keep, a) + [] == Filter(keep, a);
      }
    }
  }

  /** The rows of the given nodes. */
  ghost function Rows<Row>(heap: seq<M.Node<Row>>, nodes: seq<nat>): seq<Row>
    requires M.Below(nodes, |heap|)
  {
    seq(|nodes|, i requires 0 <= i < |nodes| => heap[nodes[i]].data)
  }

  /** The rows of all pushes that got a node, in push order. */
  ghost function Pushed<Row>(heap: seq<M.Node<Row>>): seq<Row> {
    seq(|heap|, i requires 0 <= i < |heap| => heap[i].data)
  }

  lemma {:induction false} PicksInOrder<Row>(heap: seq<M.Node<Row>>, nodes: seq<nat>)
    requires M.Below(nodes, |heap|) && M.Increasing(nodes)
    ensures Subsequence(Rows(heap, nodes), Pushed(heap))
    decreases |heap|
  {
    if nodes != [] {
      assert nodes[0] < |heap|;
      var n, m := |heap| - 1, |nodes| - 1;
      assert Pushed(heap)[..n] == Pushed(heap[..n]);
      if nodes[m] == n {
        assert forall i :: 0 <= i < m ==> nodes[i] < nodes[m];
        PicksInOrder(heap[..n], nodes[..m]);
        assert Rows(heap, nodes)[..m] == Rows(heap[..n], nodes[..m]);
      } else {
        assert forall i :: 0 <= i < m ==> nodes[i] < nodes[m];
        PicksInOrder(heap[..n], nodes);
        assert Rows(heap, nodes) == Rows(heap[..n], nodes);
      }
    }
  }

  /** Every insert that ever succeeded, in order. */
  ghost function Accepted<Row>(closed: seq<D.Session<Row>>): seq<Row> {
    if closed == [] then []
    else Accepted(closed[..|closed| - 1]) + closed[|closed| - 1].accepted
  }

  ghost function EverAccepted<Row>(l: D.Life<Row>): seq<Row> {
    Accepted(l.closed) + l.accepted
  }

  lemma {:induction false} KeptWereAccepted<Row>(closed: seq<D.Session<Row>>)
    requires forall i :: 0 <= i < |closed| ==> closed[i].kept <= closed[i].accepted
    ensures Subsequence(D.Kept(closed), Accepted(closed))
    decreases |closed|
  {
    if closed != [] {
      var n := |closed| - 1;
      KeptWereAccepted(closed[..n]);
      PrefixIsSubsequence(closed[n].kept, closed[n].accepted);
      SubsequenceConcat(D.Kept(closed[..n]), Accepted(closed[..n]), closed[n].kept, closed[n].accepted);
    }
  }

  ghost predicate Inv<Row(!new)>(p: Pipe<Row>) {
    && M.Inv(p.queue) && D.InOrder(p.life)
    && DeliveredBelow(p.queue)
    && Subsequence(EverAccepted(p.life), Rows(p.queue.heap, p.queue.delivered))
  }

  ghost predicate DeliveredBelow<Row>(q: M.Queue<Row>) {
    M.Below(q.delivered, |q.heap|) && M.Increasing(q.delivered)
  }

  lemma DeliveredIsBelow<Row>(q: M.Queue<Row>)
    requires M.Inv(q)
    ensures DeliveredBelow(q) && (q.head.Some? ==> q.head.value < |q.heap|)
  {
    var all := q.delivered + M.Held(q);
    assert q.delivered == all[..|q.delivered|];
    assert q.head.Some? ==> all[|q.delivered|] == q.head.value;
  }

  lemma PushKeepsInv<Row(!new)>(fails: D.Faults<Row>, p: Pipe<Row>, e: Event<Row>)
    requires Inv(p) && e.Push?
    ensures Inv(Step(fails, p, e))
  {
    hide D.InOrder, M.Inv, Subsequence, EverAccepted;
    if e.value.Some? && e.mallocOk {
      M.PushInv(p.queue, e.value.value, e.garbage);
      var q' := M.PushStep(p.queue, e.value.value, e.garbage);
      DeliveredIsBelow(q');
      assert Rows(q'.heap, q'.delivered) == Rows(p.queue.heap, p.queue.delivered);
    }
  }

  lemma WriteAccepts<Row(!new)>(fails: D.Faults<Row>, l: D.Life<Row>, row: Row) returns (now: seq<Row>)
    ensures EverAccepted(D.LifeStep(fails, l, D.Write(row))) == EverAccepted(l) + now
    ensures Subsequence(now, [row])
  {
    hide D.Exec, Accepted;
    now := if D.Exec(fails, l.writer, D.Insert(row)).1 == OK then [row] else [];
    assert [row][..0] == [];
  }

  lemma PopDelivers<Row>(q: M.Queue<Row>)
    requires M.Inv(q)
    ensures DeliveredBelow(q) && DeliveredBelow(M.PopStep(q))
    ensures var q' := M.PopStep(q);
            match M.SlotOf(q)
            case None => q' == q
            case Some(row) => Rows(q'.heap, q'.delivered) == Rows(q.heap, q.delivered) + [row]
  {
    DeliveredIsBelow(q);
    assert q.head == q.tail;
    hide M.Inv;
    assert DeliveredBelow(M.PopStep(q)) by {
      M.PopInv(q);
      DeliveredIsBelow(M.PopStep(q));
    }
  }

  lemma PopKeepsInv<Row(!new)>(fails: D.Faults<Row>, p: Pipe<Row>)
    requires Inv(p)
    ensures Inv(Step(fails, p, WriterPop))
  {
    hide D.InOrder, D.LifeStep, EverAccepted, M.Inv, M.PopStep, M.SlotOf;
    M.PopInv(p.queue);
    PopDelivers(p.queue);
    var sql := M.SlotOf(p.queue);
    if sql.Some? {
      D.WriteKeepsOrder(fails, p.life, sql.value);
      var now := WriteAccepts(fails, p.life, sql.value);
      SubsequenceConcat(EverAccepted(p.life), Rows(p.queue.heap, p.queue.delivered), now, [sql.value]);
    }
  }

  lemma {:induction false} RotateKeepsInv<Row(!new)>(fails: D.Faults<Row>, p: Pipe<Row>, openOk: bool)
    requires Inv(p)
    ensures Inv(Step(fails, p, Rotate(openOk)))
  {
    hide D.InOrder, D.Open, D.Kept, M.Inv, Subsequence;
    D.RotateKeepsOrder(fails, p.life, openOk);
    var l' := D.LifeStep(fails, p.life, D.Rotate(openOk));
    assert l'.closed[..|l'.closed| - 1] == p.life.closed;
    assert EverAccepted(l') == EverAccepted(p.life);
  }

  lemma {:induction false} RunInv<Row(!new)>(
      fails: D.Faults<Row>, autocommit: bool, openOk: bool, events: seq<Event<Row>>)
    ensures Inv(Run(fails, autocommit, openOk, events))
    decreases |events|
  {
    if events == [] {
      D.LiveInOrder(fails, autocommit, openOk, []);
    } else {
      RunInv(fails, autocommit, openOk, events[..|events| - 1]);
      var p, e := Run(fails, autocommit, openOk, events[..|events| - 1]), events[|events| - 1];
      match e {
        case Push(_, _, _) => PushKeepsInv(fails, p, e);
        case WriterPop => PopKeepsInv(fails, p);
        case Rotate(ok) => RotateKeepsInv(fails, p, ok);
      }
    }
  }

  /** What the events do to the queue alone. */
  ghost function QueueEvents<Row>(events: seq<Event<Row>>): seq<M.Event<Row>>
    decreases |events|
  {
    if events == [] then []
    else
      QueueEvents(events[..|events| - 1]) +
      match events[|events| - 1]
      case Push(value, mallocOk, garbage) => [M.Push(value, mallocOk, garbage)]
      case WriterPop => [M.Pop]
      case Rotate(_) => []
  }

  /** The rows delivered between two states of the queue. */
  ghost function Since<Row>(q: M.Queue<Row>, q': M.Queue<Row>): seq<Row> {
    var nodes := q'.delivered[Min(|q.delivered|, |q'.delivered|)..];
    if M.Below(nodes, |q'.heap|) then Rows(q'.heap, nodes) else []
  }

  /** The rows that the queue delivers during the last event. */
  ghost function Fresh<Row>(events: seq<Event<Row>>): seq<Row>
    requires events != []
  {
    Since(M.Run(QueueEvents(events[..|events| - 1])), M.Run(QueueEvents(events)))
  }

  /** What the database is asked to do: to insert each row that the queue delivers, and to rotate. */
  ghost function Ops<Row>(events: seq<Event<Row>>): seq<D.Op<Row>>
    decreases |events|
  {
    if events == [] then []
    else
      var e := events[|events| - 1];
      Ops(events[..|events| - 1]) +
      if e.Rotate? then [D.Rotate(e.openOk)] else D.Writes(Fresh(events))
  }

  lemma {:induction false} QueueIsRun<Row>(
      fails: D.Faults<Row>, autocommit: bool, openOk: bool, events: seq<Event<Row>>)
    ensures Run(fails, autocommit, openOk, events).queue == M.Run(QueueEvents(events))
    decreases |events|
  {
    hide D.LifeStep, M.Step, M.SlotOf;
    if events != [] {
      var n := |events| - 1;
      var before := QueueEvents(events[..n]);
      QueueIsRun(fails, autocommit, openOk, events[..n]);
      match events[n] {
        case Push(value, mallocOk, garbage) => M.RunNext(before, M.Push(value, mallocOk, garbage));
        case WriterPop => M.RunNext(before, M.Pop);
        case Rotate(_) => assert before + [] == before;
      }
    }
  }

  lemma SinceIsSlot<Row>(before: seq<M.Event<Row>>, e: M.Event<Row>)
    ensures var q := M.Run(before);
            Since(q, M.Run(before + [e])) ==
            if e.Pop? && M.SlotOf(q).Some? then [M.SlotOf(q).value] else []
  {
    hide M.Run;
    M.RefinesMailbox(before, e);
    var q, q' := M.Run(before), M.Run(before + [e]);
    assert q'.delivered[|q.delivered|..] == if e.Pop? then M.Held(q) else [];
  }

  /** A push delivers nothing, and a pop exactly what the slot holds. */
  lemma FreshIsSlot<Row>(events: seq<Event<Row>>)
    requires events != [] && !events[|events| - 1].Rotate?
    ensures var n := |events| - 1;
            var slot := M.SlotOf(M.Run(QueueEvents(events[..n])));
            Fresh(events) == if events[n].WriterPop? && slot.Some? then [slot.value] else []
  {
    hide M.Run, Since, M.SlotOf;
    var n := |events| - 1;
    var before := QueueEvents(events[..n]);
    match events[n] {
      case Push(value, mallocOk, garbage) => SinceIsSlot(before, M.Push(value, mallocOk, garbage));
      case WriterPop => SinceIsSlot(before, M.Pop);
    }
  }

  /** The database lives exactly through the rows that the queue delivers, each inserted once and in
      order, and through the rotations. */
  lemma {:induction false} LifeIsLive<Row>(
      fails: D.Faults<Row>, autocommit: bool, openOk: bool, events: seq<Event<Row>>)
    ensures Run(fails, autocommit, openOk, events).life == D.Live(fails, autocommit, openOk, Ops(events))
    decreases |events|
  {
    hide D.LifeStep, M.Step, M.SlotOf, Fresh;
    if events != [] {
      var n := |events| - 1;
      var before := Ops(events[..n]);
      LifeIsLive(fails, autocommit, openOk, events[..n]);
      QueueIsRun(fails, autocommit, openOk, events[..n]);
      var slot := M.SlotOf(M.Run(QueueEvents(events[..n])));
      assert before + [] == before;
      match events[n] {
        case Push(_, _, _) =>
          FreshIsSlot(events);
        case WriterPop =>
          FreshIsSlot(events);
          if slot.Some? {
            assert D.Writes([slot.value]) == [D.Write(slot.value)];
            D.LiveNext(fails, autocommit, openOk, before, D.Write(slot.value));
          }
        case Rotate(ok) =>
          D.LiveNext(fails, autocommit, openOk, before, D.Rotate(ok));
      }
    }
  }

  /** When nothing fails and every open succeeds, every row that the queue delivers gets in. */
  lemma {:induction false} FaultlessExecutesAll<Row(!new)>(
      fails: D.Faults<Row>, autocommit: bool, events: seq<Event<Row>>)
    requires D.Faultless(fails)
    requires forall i :: 0 <= i < |events| && events[i].Rotate? ==> events[i].openOk
    ensures var p := Run(fails, autocommit, true, events);
            && p.life.writer.engine.open && DeliveredBelow(p.queue)
            && EverAccepted(p.life) == Rows(p.queue.heap, p.queue.delivered)
    decreases |events|
  {
    RunInv(fails, autocommit, true, events);
    if events == [] {
      hide D.Open;
      D.OpenStores(fails, D.Writer(0, autocommit, D.Engine(false, false, [], []), 0, 0), true);
    } else {
      var n := |events| - 1;
      FaultlessExecutesAll(fails, autocommit, events[..n]);
      RunInv(fails, autocommit, true, events[..n]);
      FaultlessStep(fails, Run(fails, autocommit, true, events[..n]), events[n]);
    }
  }

  lemma FaultlessStep<Row(!new)>(fails: D.Faults<Row>, p: Pipe<Row>, e: Event<Row>)
    requires D.Faultless(fails) && Inv(p) && p.life.writer.engine.open && (e.Rotate? ==> e.openOk)
    requires EverAccepted(p.life) == Rows(p.queue.heap, p.queue.delivered)
    ensures var p' := Step(fails, p, e);
            && p'.life.writer.engine.open && DeliveredBelow(p'.queue)
            && EverAccepted(p'.life) == Rows(p'.queue.heap, p'.queue.delivered)
  {
    match e {
      case Push(_, _, _) =>
        FaultlessPush(fails, p, e);
      case WriterPop =>
        FaultlessPop(fails, p);
      case Rotate(ok) =>
        hide D.InOrder, D.Open, D.Kept, M.Inv, Subsequence;
        D.OpenStores(fails, D.Close(p.life.writer), ok);
        var l' := D.LifeStep(fails, p.life, D.Rotate(ok));
        assert l'.closed[..|l'.closed| - 1] == p.life.closed;
        assert EverAccepted(l') == EverAccepted(p.life);
    }
  }

  lemma FaultlessPush<Row(!new)>(fails: D.Faults<Row>, p: Pipe<Row>, e: Event<Row>)
    requires Inv(p) && e.Push?
    ensures var p' := Step(fails, p, e);
            && p'.life == p.life && DeliveredBelow(p'.queue)
            && Rows(p'.queue.heap, p'.queue.delivered) == Rows(p.queue.heap, p.queue.delivered)
  {
    hide D.InOrder, M.Inv, Subsequence, EverAccepted;
    if e.value.Some? && e.mallocOk {
      M.PushInv(p.queue, e.value.value, e.garbage);
      DeliveredIsBelow(M.PushStep(p.queue, e.value.value, e.garbage));
    }
  }

  lemma FaultlessPop<Row(!new)>(fails: D.Faults<Row>, p: Pipe<Row>)
    requires D.Faultless(fails) && Inv(p) && p.life.writer.engine.open
    requires EverAccepted(p.life) == Rows(p.queue.heap, p.queue.delivered)
    ensures var p' := Step(fails, p, WriterPop);
            && p'.life.writer.engine.open && DeliveredBelow(p'.queue)
            && EverAccepted(p'.life) == Rows(p'.queue.heap, p'.queue.delivered)
  {
    hide M.Inv, M.PopStep, M.SlotOf, D.Exec, Subsequence, Accepted, D.Kept;
    PopDelivers(p.queue);
    var sql := M.SlotOf(p.queue);
    if sql.Some? {
      var w, stmt := p.life.writer, D.Insert(sql.value);
      D.ExecOnce(fails, w, stmt);
      D.ExecStores(fails, w, stmt);
      Associative(Accepted(p.life.closed), p.life.accepted, [sql.value]);
    }
  }

  /** With dependable BEGIN and COMMIT, no rotation of any interleaving loses more than 47 rows. */
  lemma {:induction false} RunBounded<Row(!new)>(
      fails: D.Faults<Row>, autocommit: bool, openOk: bool, events: seq<Event<Row>>)
    requires D.Dependable(fails)
    ensures D.Bounded(Run(fails, autocommit, openOk, events).life)
    decreases |events|
  {
    hide D.LifeStep, D.Bounded;
    if events == [] {
      D.LiveBounded(fails, autocommit, openOk, []);
    } else {
      var before, e := events[..|events| - 1], events[|events| - 1];
      RunBounded(fails, autocommit, openOk, before);
      var p := Run(fails, autocommit, openOk, before);
      var sql := M.SlotOf(p.queue);
      match e {
        case Push(_, _, _) =>
        case WriterPop =>
          if sql.Some? {
            D.WriteKeepsBounds(fails, p.life, sql.value);
          }
        case Rotate(ok) => D.RotateKeepsBounds(fails, p.life, ok);
      }
    }
  }

  /** End to end: over every interleaving, fault pattern and number of rotations, the rows executed
      successfully are a subsequence of the rows pushed, and so are the rows committed to the file.
      No row is written twice, out of order, or from nowhere. */
  lemma {:induction false} FileIsSubsequenceOfPushes<Row(!new)>(
      fails: D.Faults<Row>, autocommit: bool, openOk: bool, events: seq<Event<Row>>)
    ensures var p := Run(fails, autocommit, openOk, events);
            && Subsequence(EverAccepted(p.life), Pushed(p.queue.heap))
            && Subsequence(p.life.writer.engine.committed, Pushed(p.queue.heap))
  {
    RunInv(fails, autocommit, openOk, events);
    var p := Run(fails, autocommit, openOk, events);
    var l, rows := p.life, Rows(p.queue.heap, p.queue.delivered);
    PicksInOrder(p.queue.heap, p.queue.delivered);
    SubsequenceTransitive(EverAccepted(l), rows, Pushed(p.queue.heap));
    CommittedWasAccepted(l);
    SubsequenceTransitive(l.writer.engine.committed, EverAccepted(l), Pushed(p.queue.heap));
  }

  lemma {:induction false} CommittedWasAccepted<Row(!new)>(l: D.Life<Row>)
    requires D.InOrder(l)
    ensures Subsequence(l.writer.engine.committed, EverAccepted(l))
  {
    var kept, c := D.Kept(l.closed), l.writer.engine.committed;
    KeptWereAccepted(l.closed);
    var current := c[|kept|..];
    assert c == kept + current;
    assert current <= l.accepted by {
      assert (kept + l.accepted)[|kept|..] == l.accepted;
      assert (c + l.writer.engine.pending)[|kept|..] == current + l.writer.engine.pending;
    }
    PrefixIsSubsequence(current, l.accepted);
    SubsequenceConcat(kept, Accepted(l.closed), current, l.accepted);
  }

  /** The objects hold what the machine's state says. */
  ghost predicate Represents<Row>(p: Pipe<Row>, fifo: M.Handoff<Row>, db: D.Store<Row>)
    reads fifo, db
  {
    && M.Inv(p.queue) && fifo.Valid()
    && fifo.Slot() == M.SlotOf(p.queue) && db.View() == p.life.writer
  }

  /** `fifo_push_item` by a log thread is the machine's push. */
  method PushRow<Row(==)>(
      fifo: M.Handoff<Row>, db: D.Store<Row>, fails: D.Faults<Row>, value: Option<Row>, mallocOk: bool,
      ghost p: Pipe<Row>)
    returns (status: Status)
    requires Represents(p, fifo, db)
    modifies fifo
    ensures Represents(Step(fails, p, Push(value, mallocOk, None)), fifo, db)
    ensures status == if value.Some? && mallocOk then OK else NO
  {
    hide M.Inv;
    SlotSteps(p.queue, M.Push(value, mallocOk, None));
    var asserted;
    status, asserted := fifo.Push(value, mallocOk);
  }

  /** One round of `bg_thread_exec` is the machine's pop: the row in the slot is executed, exactly
      once, and the slot is free. */
  method WriterRound<Row(==)>(
      fifo: M.Handoff<Row>, db: D.Store<Row>, fails: D.Faults<Row>, ghost p: Pipe<Row>)
    requires Represents(p, fifo, db)
    modifies fifo, db
    ensures Represents(Step(fails, p, WriterPop), fifo, db)
    ensures fifo.Slot() == None
    ensures db.View() == (if old(fifo.Slot()).Some?
                          then D.Exec(fails, old(db.View()), D.Insert(old(fifo.Slot()).value)).0
                          else old(db.View()))
  {
    hide M.Inv, D.Exec;
    SlotSteps(p.queue, M.Pop);
    var sql := fifo.Pop();
    if sql.Some? {
      var _ := db.DbExec(fails, D.Insert(sql.value));
    }
  }

  lemma SlotSteps<Row>(q: M.Queue<Row>, e: M.Event<Row>)
    requires M.Inv(q)
    ensures M.Inv(M.Step(q, e)) && M.SlotOf(M.Step(q, e)) == M.MailboxStep(M.SlotOf(q), e)
  {
    DeliveredIsBelow(q);
    if M.Allocates(e) {
      M.PushInv(q, e.value.value, e.garbage);
    } else if e.Pop? {
      M.PopInv(q);
    }
  }

  /** `logsqlite_rotate`, once a database is open, is the machine's rotation: under any failures the
      committed rows stay and the pending ones are gone; with dependable BEGIN and COMMIT the writer
      is at rest again. */
  method RotateDb<Row(==, !new)>(
      fifo: M.Handoff<Row>, db: D.Store<Row>, fails: D.Faults<Row>, openOk: bool, ghost p: Pipe<Row>)
    returns (status: Status)
    requires Represents(p, fifo, db)
    modifies db
    ensures Represents(Step(fails, p, Rotate(openOk)), fifo, db)
    ensures db.engine.committed == old(db.engine.committed) && db.engine.pending == []
    ensures db.engine.open == openOk && status == OK
    ensures D.Dependable(fails) ==> D.AtRest(db.View())
  {
    hide D.Open, M.Inv;
    D.OpenStores(fails, D.Close(db.View()), openOk);
    if D.Dependable(fails) {
      D.OpenComesToRest(fails, D.Close(db.View()), openOk);
    }
    db.DbClose();
    var _ := db.DbOpen(fails, openOk);
    return OK;
  }
}
