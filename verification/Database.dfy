/**
 Batched writing to SQLite: `db_exec` and `db_flush`, mutually recursive over the global `counter`,
 with `db_open`, `db_close` and rotation.

 SQLite is a transaction automaton. Assumptions: a statement that fails changes nothing; BEGIN fails
 inside a transaction and COMMIT outside one; closing discards what is pending. Which statements
 fail otherwise is left to an arbitrary `Faults` function. Results about termination, and about
 which rows are stored and in what order, hold for all faults. Results about being inside a
 transaction, and the bound on what a close can lose, assume that BEGIN and COMMIT fail for no other
 reason (`Dependable`); `StuckCommit` shows that the bound needs this.
 */
module Database {
  import opened Types

  const BATCH := 50

  datatype Stmt<Row> = Setup | Begin | Commit | Insert(row: Row)

  /** The rows durable in the file and the rows of the open transaction, both counted from the start
      of the daemon. */
  datatype Engine<Row> = Engine(
    open: bool, inTxn: bool, committed: seq<Row>, pending: seq<Row>)

  /** The module's static variables, with the number of statements issued and of flushes begun. */
  datatype Writer<Row> = Writer(
    counter: nat, autocommit: bool, engine: Engine<Row>, issued: nat, flushes: nat)

  /** Whether the n-th statement fails although the transaction state allows it. */
  type Faults<!Row> = (nat, Stmt<Row>) -> bool

  ghost predicate Dependable<Row(!new)>(fails: Faults<Row>) {
    forall n: nat :: !fails(n, Begin) && !fails(n, Commit)
  }

  predicate Succeeds<Row>(e: Engine<Row>, stmt: Stmt<Row>, fault: bool) {
    && e.open && !fault
    && (stmt.Begin? ==> !e.inTxn)
    && (stmt.Commit? ==> e.inTxn)
  }

  function Apply<Row>(e: Engine<Row>, stmt: Stmt<Row>): Engine<Row> {
    match stmt
    case Setup => e
    case Begin => e.(inTxn := true)
    case Commit => Engine(e.open, false, e.committed + e.pending, [])
    case Insert(row) =>
      if e.inTxn then e.(pending := e.pending + [row]) else e.(committed := e.committed + [row])
  }

  /** `db_exec`. */
  function Exec<Row>(fails: Faults<Row>, w: Writer<Row>, stmt: Stmt<Row>): (r: (Writer<Row>, Status))
    ensures r.0.counter <= w.counter + 1 && r.0.autocommit == w.autocommit
    decreases if w.counter + 1 >= BATCH then 2 else 0
  {
    if !Succeeds(w.engine, stmt, fails(w.issued, stmt)) then
      (w.(counter := w.counter + 1, issued := w.issued + 1), NO)
    else
      var full := w.counter + 1 >= BATCH;
      var done := Writer(if full then 0 else w.counter + 1, w.autocommit, Apply(w.engine, stmt),
                         w.issued + 1, w.flushes);
      (if full then Flush(fails, done) else done, OK)
  }

  /** `db_flush`. */
  function Flush<Row>(fails: Faults<Row>, w: Writer<Row>): (w': Writer<Row>)
    ensures w'.counter <= w.counter + 2 && w'.autocommit == w.autocommit
    decreases if w.counter + 2 >= BATCH then 3 else 1
  {
    var f := w.(flushes := w.flushes + 1);
    if w.autocommit then f
    else
      var c := if f.engine.inTxn then Exec(fails, f, Commit).0 else f;
      Exec(fails, c, Begin).0
  }

  /** `db_open`, with the answer of `sqlite3_open_v2`. */
  function Open<Row>(fails: Faults<Row>, w: Writer<Row>, openOk: bool): Writer<Row> {
    var o := w.(engine := Engine(openOk, false, w.engine.committed, []));
    if !openOk then o
    else Flush(fails, Exec(fails, Exec(fails, o, Setup).0, Setup).0)
  }

  /** `db_close`. */
  function Close<Row>(w: Writer<Row>): Writer<Row> {
    w.(engine := Engine(false, false, w.engine.committed, []))
  }

  /** One call of `db_exec`, without the flush that it may set off. */
  lemma ExecOnce<Row>(fails: Faults<Row>, w: Writer<Row>, stmt: Stmt<Row>)
    ensures var full := w.counter + 1 >= BATCH;
            var done := Writer(if full then 0 else w.counter + 1, w.autocommit, Apply(w.engine, stmt),
                               w.issued + 1, w.flushes);
            if Succeeds(w.engine, stmt, fails(w.issued, stmt)) then
              Exec(fails, w, stmt) == (if full then Flush(fails, done) else done, OK)
            else
              Exec(fails, w, stmt) == (w.(counter := w.counter + 1, issued := w.issued + 1), NO)
  {
    hide Flush;
  }

  /** A flush too early to set off another one. */
  lemma ShallowFlush<Row>(fails: Faults<Row>, w: Writer<Row>)
    requires w.counter + 2 < BATCH
    ensures var w' := Flush(fails, w);
            && w.issued <= w'.issued <= w.issued + 2 && w'.flushes == w.flushes + 1
            && w'.counter <= w.counter + (if w.engine.inTxn then 2 else 1)
  {
  }

  /** From any counter and under any failures the recursion is shallow: `db_exec` issues at most
      three statements and flushes at most once. */
  lemma {:induction false} ExecBounded<Row>(fails: Faults<Row>, w: Writer<Row>, stmt: Stmt<Row>)
    ensures var w' := Exec(fails, w, stmt).0;
            && w.issued < w'.issued <= w.issued + 3
            && w.flushes <= w'.flushes <= w.flushes + 1
            && (w.counter + 1 < BATCH ==> w'.issued == w.issued + 1 && w'.flushes == w.flushes)
            && (if w'.flushes > w.flushes then w'.counter <= 2 else w'.issued == w.issued + 1)
  {
    if w.counter + 1 >= BATCH {
      ShallowFlush(fails, Writer(0, w.autocommit, Apply(w.engine, stmt), w.issued + 1, w.flushes));
    }
  }

  /** ... and `db_flush` at most four, with at most one flush inside it. */
  lemma {:induction false} FlushBounded<Row>(fails: Faults<Row>, w: Writer<Row>)
    ensures var w' := Flush(fails, w);
            w.issued <= w'.issued <= w.issued + 4 && w.flushes < w'.flushes <= w.flushes + 2
  {
    hide Exec;
    var f := w.(flushes := w.flushes + 1);
    if !w.autocommit {
      ExecBounded(fails, f, Commit);
      var c := if f.engine.inTxn then Exec(fails, f, Commit).0 else f;
      ExecBounded(fails, c, Begin);
    }
  }

  /** Rows are pending only inside a transaction. */
  predicate Tidy<Row>(e: Engine<Row>) {
    !e.inTxn ==> e.pending == []
  }

  predicate Sound<Row>(e: Engine<Row>) {
    e.open && Tidy(e)
  }

  /** `e` with everything written made durable and a new transaction begun. */
  function Flushed<Row>(e: Engine<Row>): Engine<Row> {
    Engine(true, true, e.committed + e.pending, [])
  }

  lemma {:induction false} ShallowFlushCommits<Row(!new)>(fails: Faults<Row>, w: Writer<Row>)
    requires Dependable(fails) && !w.autocommit && Sound(w.engine) && w.counter + 2 < BATCH
    ensures Flush(fails, w).engine == Flushed(w.engine)
    ensures Flush(fails, w).counter == w.counter + (if w.engine.inTxn then 2 else 1)
    ensures Flush(fails, w).issued == w.issued + (if w.engine.inTxn then 2 else 1)
  {
    if !w.engine.inTxn {
      assert w.engine.committed + [] == w.engine.committed;
    }
  }

  /** BEGIN outside a transaction, whatever the counter, leaves one open with nothing pending. */
  lemma {:induction false} BeginSettles<Row(!new)>(fails: Faults<Row>, w: Writer<Row>)
    requires Dependable(fails) && !w.autocommit && Sound(w.engine) && !w.engine.inTxn
    ensures var w' := Exec(fails, w, Begin).0;
            && w'.engine == Flushed(w.engine)
            && w'.counter == (if w.counter + 1 >= BATCH then 2 else w.counter + 1)
            && w'.issued == w.issued + (if w.counter + 1 >= BATCH then 3 else 1)
  {
    hide Exec, Flush;
    ExecOnce(fails, w, Begin);
    assert w.engine.committed + [] == w.engine.committed;
    if w.counter + 1 >= BATCH {
      ShallowFlushCommits(fails, Writer(0, false, Apply(w.engine, Begin), w.issued + 1, w.flushes));
    }
  }

  /** COMMIT; when it fills the batch, the flush it sets off has begun the next transaction. */
  lemma {:induction false} CommitSettles<Row(!new)>(fails: Faults<Row>, w: Writer<Row>)
    requires Dependable(fails) && !w.autocommit && Sound(w.engine) && w.engine.inTxn
    ensures var w' := Exec(fails, w, Commit).0;
            var full := w.counter + 1 >= BATCH;
            && w'.engine == Flushed(w.engine).(inTxn := full)
            && w'.counter == (if full then 1 else w.counter + 1)
  {
    hide Exec, Flush;
    ExecOnce(fails, w, Commit);
    var e := Apply(w.engine, Commit);
    assert e.committed + [] == e.committed;
    if w.counter + 1 >= BATCH {
      ShallowFlushCommits(fails, Writer(0, false, e, w.issued + 1, w.flushes));
    }
  }

  /** A flush from any counter commits everything and leaves a transaction open, also when the batch
      fills on the COMMIT (the outer BEGIN then fails) or on the BEGIN. */
  lemma {:induction false} FlushCommits<Row(!new)>(fails: Faults<Row>, w: Writer<Row>)
    requires Dependable(fails) && !w.autocommit && Sound(w.engine)
    ensures Flush(fails, w).engine == Flushed(w.engine)
    ensures Flush(fails, w).counter >= (if w.engine.inTxn then 2 else Min(2, w.counter + 1))
  {
    hide Exec, Flush;
    FlushOnce(fails, w);
    var f := w.(flushes := w.flushes + 1);
    if w.engine.inTxn {
      CommitThenBegin(fails, f);
    } else {
      BeginSettles(fails, f);
    }
  }

  lemma FlushOnce<Row>(fails: Faults<Row>, w: Writer<Row>)
    requires !w.autocommit
    ensures var f := w.(flushes := w.flushes + 1);
            Flush(fails, w) ==
            Exec(fails, if f.engine.inTxn then Exec(fails, f, Commit).0 else f, Begin).0
  {
    hide Exec;
  }

  lemma CommitThenBegin<Row(!new)>(fails: Faults<Row>, w: Writer<Row>)
    requires Dependable(fails) && !w.autocommit && Sound(w.engine) && w.engine.inTxn
    ensures var w' := Exec(fails, Exec(fails, w, Commit).0, Begin).0;
            w'.engine == Flushed(w.engine) && w'.counter >= 2
  {
    hide Exec;
    CommitSettles(fails, w);
    var c := Exec(fails, w, Commit).0;
    if w.counter + 1 < BATCH {
      BeginSettles(fails, c);
      assert c.engine.committed + [] == c.engine.committed;
    } else {
      ExecOnce(fails, c, Begin);
    }
  }

  /** Over arbitrary counters the bound of four is tight: COMMIT, BEGIN, and inside the latter COMMIT
      and BEGIN. No call in the program starts from such a counter (`CallsFlushBounded`). */
  lemma {:induction false} FlushBoundIsTight<Row(!new)>(fails: Faults<Row>, w: Writer<Row>)
    requires Dependable(fails) && !w.autocommit && Sound(w.engine)
    requires w.engine.inTxn && w.counter == BATCH - 2
    ensures Flush(fails, w).issued == w.issued + 4
  {
    var f := w.(flushes := w.flushes + 1);
    CommitSettles(fails, f);
    BeginSettles(fails, Exec(fails, f, Commit).0);
  }

  /** The state in which `db_open` calls `db_flush`. */
  function BeforeOpenFlush<Row>(fails: Faults<Row>, w: Writer<Row>): Writer<Row> {
    var o := w.(engine := Engine(true, false, w.engine.committed, []));
    Exec(fails, Exec(fails, o, Setup).0, Setup).0
  }

  /** Right after opening, a transaction is open only if a statement has just filled the batch. */
  lemma SetupCounter<Row>(fails: Faults<Row>, w: Writer<Row>)
    requires w.engine.inTxn ==> w.counter <= 1
    ensures var w' := Exec(fails, w, Setup).0;
            w'.engine.inTxn ==> w'.counter <= (if w.engine.inTxn then 2 else 1)
  {
    hide Exec, Flush;
    ExecOnce(fails, w, Setup);
    if w.counter + 1 >= BATCH {
      ShallowFlush(fails, Writer(0, w.autocommit, w.engine, w.issued + 1, w.flushes));
    }
  }

  /** The program calls `db_flush` from `db_exec` with the counter just reset, and from `db_open`.
      Under any failures the first issues at most two statements and the second at most three. */
  lemma {:induction false} CallsFlushBounded<Row>(fails: Faults<Row>, w: Writer<Row>)
    ensures Flush(fails, w.(counter := 0)).issued <= w.issued + 2
    ensures var i := BeforeOpenFlush(fails, w);
            (i.engine.inTxn ==> i.counter <= 2) && Flush(fails, i).issued <= i.issued + 3
  {
    hide Exec, Flush;
    ShallowFlush(fails, w.(counter := 0));
    var o := w.(engine := Engine(true, false, w.engine.committed, []));
    SetupCounter(fails, o);
    SetupCounter(fails, Exec(fails, o, Setup).0);
    var i := BeforeOpenFlush(fails, w);
    if i.autocommit {
      AutocommitFlush(fails, i);
    } else if i.engine.inTxn {
      ShallowFlush(fails, i);
    } else {
      FlushOnce(fails, i);
      ExecBounded(fails, i.(flushes := i.flushes + 1), Begin);
    }
  }

  /** At rest, between statements of the writer thread. */
  predicate AtRest<Row>(w: Writer<Row>) {
    && (!w.engine.open ==> w.engine.pending == [])
    && (w.autocommit ==> !w.engine.inTxn && w.engine.pending == [])
    && (!w.autocommit && w.engine.open ==>
          w.engine.inTxn && |w.engine.pending| <= w.counter - 2 && |w.engine.pending| <= 47)
  }

  function Stored<Row>(w: Writer<Row>): seq<Row> {
    w.engine.committed + w.engine.pending
  }

  /** The row that a successful statement adds. */
  function Added<Row>(stmt: Stmt<Row>, status: Status): seq<Row> {
    if stmt.Insert? && status == OK then [stmt.row] else []
  }

  lemma ApplyStores<Row>(e: Engine<Row>, stmt: Stmt<Row>)
    requires Tidy(e) && Succeeds(e, stmt, false)
    ensures var e' := Apply(e, stmt);
            && Tidy(e') && e'.open == e.open && e.committed <= e'.committed
            && e'.committed + e'.pending == e.committed + e.pending + Added(stmt, OK)
  {
  }

  /** From any counter and under any failures, a statement adds exactly its row, if it succeeds, at the
      end of what is stored, and nothing committed is taken back. */
  lemma {:induction false} ExecStores<Row>(fails: Faults<Row>, w: Writer<Row>, stmt: Stmt<Row>)
    requires Tidy(w.engine)
    ensures var (w', status) := Exec(fails, w, stmt);
            && Tidy(w'.engine) && w'.engine.open == w.engine.open && (status == OK || status == NO)
            && Stored(w') == Stored(w) + Added(stmt, status)
            && w.engine.committed <= w'.engine.committed
    decreases if w.counter + 1 >= BATCH then 2 else 0
  {
    hide Exec, Flush, Apply;
    ExecOnce(fails, w, stmt);
    if Succeeds(w.engine, stmt, fails(w.issued, stmt)) {
      ApplyStores(w.engine, stmt);
      if w.counter + 1 >= BATCH {
        FlushStores(fails, Writer(0, w.autocommit, Apply(w.engine, stmt), w.issued + 1, w.flushes));
      }
    } else {
      assert Stored(w) + [] == Stored(w);
    }
  }

  lemma {:induction false} FlushStores<Row>(fails: Faults<Row>, w: Writer<Row>)
    requires Tidy(w.engine)
    ensures var w' := Flush(fails, w);
            && Tidy(w'.engine) && w'.engine.open == w.engine.open && Stored(w') == Stored(w)
            && w.engine.committed <= w'.engine.committed
    decreases if w.counter + 2 >= BATCH then 3 else 1
  {
    hide Exec, Flush;
    if w.autocommit {
      AutocommitFlush(fails, w);
    } else {
      FlushOnce(fails, w);
      var f := w.(flushes := w.flushes + 1);
      assert Stored(w) + [] == Stored(w);
      if f.engine.inTxn {
        ExecStores(fails, f, Commit);
        ExecStores(fails, Exec(fails, f, Commit).0, Begin);
      } else {
        ExecStores(fails, f, Begin);
      }
    }
  }

  /** Opening finds exactly the committed rows, under any failures. */
  lemma {:induction false} OpenStores<Row>(fails: Faults<Row>, w: Writer<Row>, openOk: bool)
    ensures var w' := Open(fails, w, openOk);
            && w'.engine.open == openOk && Tidy(w'.engine)
            && w'.engine.committed == w.engine.committed && w'.engine.pending == []
  {
    hide Exec, Flush;
    if openOk {
      var o := w.(engine := Engine(true, false, w.engine.committed, []));
      var t := Exec(fails, o, Setup).0;
      ExecStores(fails, o, Setup);
      ExecStores(fails, t, Setup);
      FlushStores(fails, Exec(fails, t, Setup).0);
      var w' := Open(fails, w, openOk);
      assert Stored(w') == w.engine.committed;
      assert |w'.engine.committed| == |w.engine.committed|;
    }
  }

  /** Why the bound on losses needs dependable COMMITs: while they fail, every insert stays pending,
      whatever the counter. */
  lemma {:induction false} StuckCommit<Row(!new)>(fails: Faults<Row>, w: Writer<Row>, row: Row)
    requires forall n: nat :: fails(n, Commit) && !fails(n, Insert(row))
    requires !w.autocommit && w.engine.open && w.engine.inTxn
    ensures Exec(fails, w, Insert(row)).0.engine == w.engine.(pending := w.engine.pending + [row])
  {
    hide Exec, Flush;
    ExecOnce(fails, w, Insert(row));
    if w.counter + 1 >= BATCH {
      var done := Writer(0, false, Apply(w.engine, Insert(row)), w.issued + 1, w.flushes);
      FlushOnce(fails, done);
      var f := done.(flushes := done.flushes + 1);
      ExecOnce(fails, f, Commit);
      ExecOnce(fails, Exec(fails, f, Commit).0, Begin);
    }
  }

  lemma AutocommitFlush<Row>(fails: Faults<Row>, w: Writer<Row>)
    requires w.autocommit
    ensures Flush(fails, w) == w.(flushes := w.flushes + 1)
  {
  }

  /** The insert succeeds and fills the batch, so that a COMMIT and a BEGIN follow. */
  predicate SetsOffFlush<Row>(fails: Faults<Row>, w: Writer<Row>, row: Row) {
    && !w.autocommit && w.counter + 1 >= BATCH
    && Succeeds(w.engine, Insert(row), fails(w.issued, Insert(row)))
  }

  /** Under any failures, an insert attempt leaves the writer at rest exactly when the COMMIT and the
      BEGIN that it may set off succeed. */
  lemma {:induction false} InsertRestsExactly<Row>(fails: Faults<Row>, w: Writer<Row>, row: Row)
    requires AtRest(w)
    ensures AtRest(Exec(fails, w, Insert(row)).0) <==>
            (SetsOffFlush(fails, w, row) ==>
               !fails(w.issued + 1, Commit) && !fails(w.issued + 2, Begin))
  {
    hide Exec, Flush;
    ExecOnce(fails, w, Insert(row));
    var done := Writer(0, w.autocommit, Apply(w.engine, Insert(row)), w.issued + 1, w.flushes);
    if w.autocommit {
      AutocommitFlush(fails, done);
    } else if SetsOffFlush(fails, w, row) {
      FlushOnce(fails, done);
      var f := done.(flushes := done.flushes + 1);
      ExecOnce(fails, f, Commit);
      ExecOnce(fails, Exec(fails, f, Commit).0, Begin);
    }
  }

  /** CREATE TABLE or CREATE INDEX, which may fail or fill the batch. */
  lemma SetupKeepsSound<Row(!new)>(fails: Faults<Row>, w: Writer<Row>)
    requires Dependable(fails) && Sound(w.engine) && w.engine.pending == []
    requires w.autocommit ==> !w.engine.inTxn
    ensures var w' := Exec(fails, w, Setup).0;
            && Sound(w'.engine) && w'.engine.pending == []
            && w'.engine.committed == w.engine.committed
            && (w'.autocommit ==> !w'.engine.inTxn)
            && (!w.autocommit ==> w'.engine.inTxn || w'.counter == w.counter + 1)
  {
    hide Exec, Flush;
    ExecOnce(fails, w, Setup);
    assert w.engine.committed + [] == w.engine.committed;
    if Succeeds(w.engine, Setup, fails(w.issued, Setup)) && w.counter + 1 >= BATCH {
      var done := Writer(0, w.autocommit, w.engine, w.issued + 1, w.flushes);
      if w.autocommit {
        AutocommitFlush(fails, done);
      } else {
        FlushCommits(fails, done);
      }
    }
  }

  /** Opening recovers exactly the committed rows and, when it succeeds, comes to rest: with
      autocommit off, inside a transaction. */
  lemma {:induction false} OpenComesToRest<Row(!new)>(fails: Faults<Row>, w: Writer<Row>, openOk: bool)
    requires Dependable(fails)
    ensures var w' := Open(fails, w, openOk);
            && AtRest(w') && w'.engine.open == openOk && w'.autocommit == w.autocommit
            && w'.engine.committed == w.engine.committed && w'.engine.pending == []
  {
    hide Flush, Exec;
    if openOk {
      var o := w.(engine := Engine(openOk, false, w.engine.committed, []));
      var t := Exec(fails, o, Setup).0;
      var i := Exec(fails, t, Setup).0;
      SetupKeepsSound(fails, o);
      SetupKeepsSound(fails, t);
      if w.autocommit {
        AutocommitFlush(fails, i);
      } else {
        FlushCommits(fails, i);
        assert i.engine.committed + [] == i.engine.committed;
      }
    }
  }

  /** What reaches the writer: a row to insert, or a rotation with the answer of the re-open. */
  datatype Op<Row> = Write(row: Row) | Rotate(openOk: bool)

  /** A closed stretch of the database's life: the inserts that succeeded, those that survived the
      close, and those lost with it. */
  datatype Session<Row> = Session(accepted: seq<Row>, kept: seq<Row>, lost: seq<Row>)

  datatype Life<Row> = Life(writer: Writer<Row>, accepted: seq<Row>, closed: seq<Session<Row>>)

  function Kept<Row>(closed: seq<Session<Row>>): seq<Row> {
    if closed == [] then []
    else Kept(closed[..|closed| - 1]) + closed[|closed| - 1].kept
  }

  /** `bg_thread_exec` on one statement, or `logsqlite_rotate`. */
  function LifeStep<Row(==)>(fails: Faults<Row>, l: Life<Row>, op: Op<Row>): Life<Row> {
    match op
    case Write(row) =>
      var (w, status) := Exec(fails, l.writer, Insert(row));
      Life(w, if status == OK then l.accepted + [row] else l.accepted, l.closed)
    case Rotate(openOk) =>
      var before := Kept(l.closed);
      var c := l.writer.engine.committed;
      var kept := if before <= c then c[|before|..] else [];
      Life(Open(fails, Close(l.writer), openOk), [],
           l.closed + [Session(l.accepted, kept, l.writer.engine.pending)])
  }

  function Born<Row>(fails: Faults<Row>, autocommit: bool, openOk: bool): Life<Row> {
    Life(Open(fails, Writer(0, autocommit, Engine(false, false, [], []), 0, 0), openOk), [], [])
  }

  function Live<Row(==)>(fails: Faults<Row>, autocommit: bool, openOk: bool, ops: seq<Op<Row>>): Life<Row>
    decreases |ops|
  {
    if ops == [] then Born(fails, autocommit, openOk)
    else LifeStep(fails, Live(fails, autocommit, openOk, ops[..|ops| - 1]), ops[|ops| - 1])
  }

  lemma LiveNext<Row>(fails: Faults<Row>, autocommit: bool, openOk: bool, ops: seq<Op<Row>>, op: Op<Row>)
    ensures Live(fails, autocommit, openOk, ops + [op]) ==
            LifeStep(fails, Live(fails, autocommit, openOk, ops), op)
  {
    hide LifeStep;
    assert (ops + [op])[..|ops|] == ops;
  }

  /** What is stored are the rows kept from earlier sessions and then this session's successful
      inserts, in order; every close lost a suffix of its session's inserts. */
  ghost predicate InOrder<Row(!new)>(l: Life<Row>) {
    && Tidy(l.writer.engine)
    && Stored(l.writer) == Kept(l.closed) + l.accepted
    && Kept(l.closed) <= l.writer.engine.committed
    && forall i :: 0 <= i < |l.closed| ==> l.closed[i].accepted == l.closed[i].kept + l.closed[i].lost
  }

  /** At rest, and no close lost more than 47 rows (none in autocommit mode). */
  ghost predicate Bounded<Row(!new)>(l: Life<Row>) {
    && AtRest(l.writer)
    && forall i :: 0 <= i < |l.closed| ==> |l.closed[i].lost| <= (if l.writer.autocommit then 0 else 47)
  }

  lemma {:induction false} WriteKeepsOrder<Row(!new)>(fails: Faults<Row>, l: Life<Row>, row: Row)
    requires InOrder(l)
    ensures InOrder(LifeStep(fails, l, Write(row)))
  {
    hide Exec, Kept;
    ExecStores(fails, l.writer, Insert(row));
    Associative(Kept(l.closed), l.accepted, [row]);
    assert Stored(l.writer) + [] == Stored(l.writer);
  }

  /** A rotation keeps the committed rows and loses exactly the pending ones. */
  lemma {:induction false} RotateKeepsOrder<Row(!new)>(fails: Faults<Row>, l: Life<Row>, openOk: bool)
    requires InOrder(l)
    ensures var l' := LifeStep(fails, l, Rotate(openOk));
            && InOrder(l') && l'.writer.engine.pending == []
            && l'.writer.engine.committed == l.writer.engine.committed
            && l'.closed[|l.closed|].lost == l.writer.engine.pending
            && l.accepted == l'.closed[|l.closed|].kept + l.writer.engine.pending
  {
    hide Exec, Open, Kept;
    OpenStores(fails, Close(l.writer), openOk);
    var before, c, p := Kept(l.closed), l.writer.engine.committed, l.writer.engine.pending;
    SplitAtClose(before, c, p, l.accepted);
    KeptNext(l.closed, Session(l.accepted, c[|before|..], p));
    assert c + [] == c && before + c[|before|..] == c;
  }

  lemma WriteKeepsBounds<Row(!new)>(fails: Faults<Row>, l: Life<Row>, row: Row)
    requires Dependable(fails) && Bounded(l)
    ensures Bounded(LifeStep(fails, l, Write(row)))
  {
    hide Exec;
    InsertRestsExactly(fails, l.writer, row);
  }

  lemma RotateKeepsBounds<Row(!new)>(fails: Faults<Row>, l: Life<Row>, openOk: bool)
    requires Dependable(fails) && Bounded(l)
    ensures Bounded(LifeStep(fails, l, Rotate(openOk)))
  {
    hide Exec, Open, Kept;
    OpenComesToRest(fails, Close(l.writer), openOk);
  }

  lemma SplitAtClose<Row>(before: seq<Row>, committed: seq<Row>, pending: seq<Row>, accepted: seq<Row>)
    requires before <= committed && committed + pending == before + accepted
    ensures accepted == committed[|before|..] + pending
  {
    assert (before + accepted)[|before|..] == accepted;
    assert (committed + pending)[|before|..] == committed[|before|..] + pending;
  }

  lemma KeptNext<Row>(closed: seq<Session<Row>>, s: Session<Row>)
    ensures Kept(closed + [s]) == Kept(closed) + s.kept
  {
    assert (closed + [s])[..|closed|] == closed;
  }

  /** Prefix durability over every run, every fault pattern and both modes. */
  lemma {:induction false} LiveInOrder<Row(!new)>(
      fails: Faults<Row>, autocommit: bool, openOk: bool, ops: seq<Op<Row>>)
    ensures InOrder(Live(fails, autocommit, openOk, ops))
    decreases |ops|
  {
    hide Open, Exec;
    if ops == [] {
      OpenStores(fails, Writer(0, autocommit, Engine(false, false, [], []), 0, 0), openOk);
    } else {
      var l, op := Live(fails, autocommit, openOk, ops[..|ops| - 1]), ops[|ops| - 1];
      LiveInOrder(fails, autocommit, openOk, ops[..|ops| - 1]);
      match op {
        case Write(row) => WriteKeepsOrder(fails, l, row);
        case Rotate(ok) => RotateKeepsOrder(fails, l, ok);
      }
    }
  }

  /** Bounded loss over every run in which BEGIN and COMMIT are dependable: with autocommit off the open
      connection is always inside a transaction, with at most `counter - 2` and at most 47 rows
      pending, and no close lost more than that. */
  lemma {:induction false} LiveBounded<Row(!new)>(
      fails: Faults<Row>, autocommit: bool, openOk: bool, ops: seq<Op<Row>>)
    requires Dependable(fails)
    ensures Bounded(Live(fails, autocommit, openOk, ops))
    decreases |ops|
  {
    hide Open, Exec;
    if ops == [] {
      OpenComesToRest(fails, Writer(0, autocommit, Engine(false, false, [], []), 0, 0), openOk);
    } else {
      var l, op := Live(fails, autocommit, openOk, ops[..|ops| - 1]), ops[|ops| - 1];
      LiveBounded(fails, autocommit, openOk, ops[..|ops| - 1]);
      match op {
        case Write(row) => WriteKeepsBounds(fails, l, row);
        case Rotate(ok) => RotateKeepsBounds(fails, l, ok);
      }
    }
  }

  ghost predicate Faultless<Row(!new)>(fails: Faults<Row>) {
    forall n: nat, stmt :: !fails(n, stmt)
  }

  function Writes<Row>(rows: seq<Row>): seq<Op<Row>> {
    seq(|rows|, i requires 0 <= i < |rows| => Write(rows[i]))
  }

  /** Inserts that do not fill the batch pile up in the open transaction. */
  lemma {:induction false} WritesPileUp<Row(!new)>(fails: Faults<Row>, ops: seq<Op<Row>>, rows: seq<Row>)
    requires Faultless(fails)
    requires var w := Live(fails, false, true, ops).writer;
             !w.autocommit && w.engine.open && w.engine.inTxn && w.counter + |rows| < BATCH
    ensures var w, w' := Live(fails, false, true, ops).writer, Live(fails, false, true, ops + Writes(rows)).writer;
            w' == Writer(w.counter + |rows|, false, w.engine.(pending := w.engine.pending + rows),
                         w.issued + |rows|, w.flushes)
    decreases |rows|
  {
    hide Exec, Flush;
    if rows == [] {
      assert ops + Writes(rows) == ops;
      assert Live(fails, false, true, ops).writer.engine.pending + rows
          == Live(fails, false, true, ops).writer.engine.pending;
    } else {
      var n := |rows| - 1;
      WritesPileUp(fails, ops, rows[..n]);
      var all := ops + Writes(rows);
      assert all[..|all| - 1] == ops + Writes(rows[..n]) && all[|all| - 1] == Write(rows[n]);
      var l := Live(fails, false, true, ops + Writes(rows[..n]));
      ExecOnce(fails, l.writer, Insert(rows[n]));
      assert rows == rows[..n] + [rows[n]];
      Associative(Live(fails, false, true, ops).writer.engine.pending, rows[..n], [rows[n]]);
    }
  }

  /** CREATE TABLE, CREATE INDEX and BEGIN: the state after a start without faults. */
  lemma BornFaultless<Row(!new)>(fails: Faults<Row>)
    requires Faultless(fails)
    ensures Live(fails, false, true, []).writer == Writer(3, false, Engine(true, true, [], []), 3, 1)
  {
    hide Exec, Flush;
    var o := Writer(0, false, Engine(true, false, [], []), 0, 0);
    var t := Exec(fails, o, Setup).0;
    ExecOnce(fails, o, Setup);
    ExecOnce(fails, t, Setup);
    var i := Exec(fails, t, Setup).0;
    FlushOnce(fails, i);
    ExecOnce(fails, i.(flushes := 1), Begin);
  }

  /** The loss bound is reached: 94 inserts after a start without faults leave the last 47 pending, and
      a close would lose them. */
  lemma {:induction false} LossBoundIsReached<Row(!new)>(fails: Faults<Row>, rows: seq<Row>)
    requires Faultless(fails) && |rows| == 94
    ensures var e := Live(fails, false, true, Writes(rows)).writer.engine;
            e.committed == rows[..47] && e.pending == rows[47..]
  {
    hide Live;
    BornFaultless(fails);
    WritesPileUp(fails, [], rows[..46]);
    assert [] + Writes(rows[..46]) == Writes(rows[..46]) && [] + rows[..46] == rows[..46];
    FillBatch(fails, Writes(rows[..46]), rows[46]);
    assert rows[..46] + [rows[46]] == rows[..47];
    assert Writes(rows[..46]) + [Write(rows[46])] == Writes(rows[..47]);
    WritesPileUp(fails, Writes(rows[..47]), rows[47..]);
    assert Writes(rows[..47]) + Writes(rows[47..]) == Writes(rows);
    assert [] + rows[47..] == rows[47..];
  }

  /** The insert that fills the batch commits everything and begins anew. */
  lemma FillBatch<Row(!new)>(fails: Faults<Row>, ops: seq<Op<Row>>, row: Row)
    requires Faultless(fails)
    requires var w := Live(fails, false, true, ops).writer;
             !w.autocommit && w.engine.open && w.engine.inTxn && w.counter == BATCH - 1
    ensures var w, w' := Live(fails, false, true, ops).writer, Live(fails, false, true, ops + [Write(row)]).writer;
            && !w'.autocommit && w'.counter == 2
            && w'.engine == Engine(true, true, w.engine.committed + (w.engine.pending + [row]), [])
  {
    hide Exec, Flush;
    var l := Live(fails, false, true, ops);
    assert (ops + [Write(row)])[..|ops|] == ops;
    ExecOnce(fails, l.writer, Insert(row));
    ShallowFlushCommits(fails, Writer(0, false, Apply(l.writer.engine, Insert(row)),
                                      l.writer.issued + 1, l.writer.flushes));
  }

  /** The longest flush of the program is reached: after 44 inserts, a rotation's CREATE TABLE and CREATE
      INDEX are the 48th and 49th statement, and its BEGIN fills the batch. */
  lemma {:induction false} LongestFlushIsReached<Row(!new)>(fails: Faults<Row>, rows: seq<Row>)
    requires Faultless(fails) && |rows| == 44
    ensures var w := Close(Live(fails, false, true, Writes(rows)).writer);
            var i := BeforeOpenFlush(fails, w);
            Open(fails, w, true) == Flush(fails, i) && Flush(fails, i).issued == i.issued + 3
  {
    hide Live, Exec, Flush;
    BornFaultless(fails);
    WritesPileUp(fails, [], rows);
    assert [] + Writes(rows) == Writes(rows);
    var w := Close(Live(fails, false, true, Writes(rows)).writer);
    var o := w.(engine := Engine(true, false, w.engine.committed, []));
    var t := Exec(fails, o, Setup).0;
    ExecOnce(fails, o, Setup);
    ExecOnce(fails, t, Setup);
    var i := BeforeOpenFlush(fails, w);
    FlushOnce(fails, i);
    BeginSettles(fails, i.(flushes := i.flushes + 1));
  }

  /** The static variables of the module, updated in place. */
  class Store<Row(==)> {
    var counter: nat
    var autocommit: bool
    var engine: Engine<Row>
    var issued: nat
    ghost var flushes: nat

    ghost function View(): Writer<Row>
      reads this
    {
      Writer(counter, autocommit, engine, issued, flushes)
    }

    constructor (autocommit: bool)
      ensures View() == Writer(0, autocommit, Engine(false, false, [], []), 0, 0)
    {
      counter, issued, flushes := 0, 0, 0;
      this.autocommit := autocommit;
      engine := Engine(false, false, [], []);
    }

    method DbExec(fails: Faults<Row>, stmt: Stmt<Row>) returns (status: Status)
      modifies this
      ensures (View(), status) == Exec(fails, old(View()), stmt)
      decreases if counter + 1 >= BATCH then 2 else 0
    {
      counter := counter + 1;
      var ok := Succeeds(engine, stmt, fails(issued, stmt));
      issued := issued + 1;
      if !ok {
        return NO;
      }
      engine := Apply(engine, stmt);
      if counter >= BATCH {
        counter := 0;
        DbFlush(fails);
      }
      return OK;
    }

    method DbFlush(fails: Faults<Row>)
      modifies this
      ensures View() == Flush(fails, old(View()))
      decreases if counter + 2 >= BATCH then 3 else 1
    {
      flushes := flushes + 1;
      if !autocommit {
        if engine.inTxn {
          var _ := DbExec(fails, Commit);
        }
        var _ := DbExec(fails, Begin);
      }
    }

    method DbOpen(fails: Faults<Row>, openOk: bool) returns (status: Status)
      modifies this
      ensures View() == Open(fails, old(View()), openOk)
      ensures status == (if openOk then OK else NO)
    {
      engine := Engine(openOk, false, engine.committed, []);
      if !openOk {
        return NO;
      }
      var _ := DbExec(fails, Setup);
      var _ := DbExec(fails, Setup);
      DbFlush(fails);
      return OK;
    }

    method DbClose()
      modifies this
      ensures View() == Close(old(View()))
    {
      engine := Engine(false, false, engine.committed, []);
    }
  }
}
