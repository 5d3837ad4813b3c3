/**
 Replaying when handlers fail for reasons that are not the message's: a connection is lost, a context is cancelled. The
 client drops such a message, so the sink may lack it; this is what holds of everything else.
 */
module FaultyReplay {
  import opened MySqlSink
  import opened Replay

  /** What a handler that returns an error, or dies, leaves; nothing if it sends no statement. */
  ghost predicate Failure(db: Database, body: Body, db': Database) {
    if Tried(body) then Leftover(db, body.msg, db') else db' == db
  }

  /** The last message to write the cell, if any, is one of those `stored`. */
  ghost predicate Lasting(log: seq<Body>, upto: nat, stored: set<nat>, name: string, hash: string, col: string)
    requires upto <= |log|
  {
    forall i :: 0 <= i < upto && Writes?(log[i], name, hash, col) && !WrittenIn(log, i + 1, upto, name, hash, col) ==>
      i in stored
  }

  /** The columns and the row of a message are there. */
  ghost predicate Held(db: Database, b: Body)
    requires HandlerOk(b)
  {
    && Types(b.msg.structure).Keys <= Columns(db, TableOf(b.msg)).Keys
    && b.msg.meta.hashValue in Hashes(db, TableOf(b.msg))
  }

  /** Every column and row of `a` is in `b`. */
  ghost predicate Kept(a: Database, b: Database) {
    forall n :: Columns(a, n).Keys <= Columns(b, n).Keys && Hashes(a, n) <= Hashes(b, n)
  }

  /**
   Where a replaying consumer stands. `pos` is the next message it will handle, `mark` the first one no handler has
   started on, `stored` the messages whose latest handling took full effect, reported or not: their columns and rows
   are there, no foreign row is, and a cell that will not be written again on the way to `mark` holds its final value
   if the last message to write it is one of them.
   */
  ghost predicate Tracked(init: Database, log: seq<Body>, pos: nat, mark: nat, stored: set<nat>, db: Database) {
    && pos <= mark <= |log|
    && ValidDatabase(init) && ValidDatabase(db)
    && Kept(init, db)
    && AllHeld(log, mark, stored, db)
    && (forall n :: Hashes(db, n) <= Hashes(OnePass(init, log, mark), n))
    && CellsRight(init, log, pos, mark, stored, db)
  }

  ghost predicate AllHeld(log: seq<Body>, mark: nat, stored: set<nat>, db: Database)
    requires mark <= |log|
  {
    forall i :: i in stored ==> i < mark && HandlerOk(log[i]) && Held(db, log[i])
  }

  ghost predicate CellsRight(init: Database, log: seq<Body>, pos: nat, mark: nat, stored: set<nat>, db: Database)
    requires mark <= |log|
  {
    forall n, h, c :: !WrittenIn(log, pos, mark, n, h, c) && Lasting(log, mark, stored, n, h, c) ==>
      Cell(db, n, h, c) == Cell(OnePass(init, log, mark), n, h, c)
  }

  lemma StartsTracked(init: Database, log: seq<Body>)
    requires ValidDatabase(init)
    ensures Tracked(init, log, 0, 0, {}, init)
  {
  }

  /** Falling back to any earlier message keeps the consumer on track. */
  lemma RestartTracked(init: Database, log: seq<Body>, pos: nat, mark: nat, stored: set<nat>, db: Database, back: nat)
    requires Tracked(init, log, pos, mark, stored, db) && back <= pos
    ensures Tracked(init, log, back, mark, stored, db)
  {
    hide Columns, Hashes, Cell, ValidDatabase, OnePass, Writes?, Lasting, AllHeld, Kept;
    forall n, h, c | !WrittenIn(log, back, mark, n, h, c)
      ensures !WrittenIn(log, pos, mark, n, h, c)
    {
    }
  }

  /** What handling a message may do to the sink, well or badly. */
  ghost predicate Touches(db: Database, b: Body, db': Database) {
    && ValidDatabase(db') && Kept(db, db')
    && (forall n, h :: h in Hashes(db', n) ==>
          h in Hashes(db, n) || (HandlerOk(b) && n == TableOf(b.msg) && h == b.msg.meta.hashValue))
    && (forall n, h, c :: !Writes?(b, n, h, c) ==> Cell(db', n, h, c) == Cell(db, n, h, c))
  }

  lemma FailureTouches(db: Database, b: Body, db': Database)
    requires ValidDatabase(db) && Failure(db, b, db')
    ensures Touches(db, b, db')
  {
    hide EnvelopeOk, Clean, TableOf, Types, Writes, Columns, Hashes, Cell, ValidDatabase, Leftover;
    if Tried(b) {
      LeftoverView(db, b.msg, db');
    }
  }

  lemma EffectTouches(db: Database, b: Body)
    requires ValidDatabase(db)
    ensures Touches(db, b, Effect(db, b))
    ensures HandlerOk(b) ==> Held(Effect(db, b), b)
  {
    hide EnvelopeOk, Clean, TableOf, Apply, Types, Writes, Columns, Hashes, Cell, ValidDatabase;
    if HandlerOk(b) {
      ApplyView(db, b.msg);
    }
  }

  lemma HeldOn(db: Database, db': Database, b: Body)
    requires HandlerOk(b) && Held(db, b) && Kept(db, db')
    ensures Held(db', b)
  {
    hide EnvelopeOk, Clean, TableOf, Types, Columns, Hashes;
  }

  /** How the outcome of handling message `pos` enters the messages stored. */
  ghost predicate Outcome(db: Database, log: seq<Body>, pos: nat, stored: set<nat>, db': Database, stored': set<nat>)
    requires pos < |log|
  {
    || (HandlerOk(log[pos]) && db' == Effect(db, log[pos]) && stored' == stored + {pos})
    || stored' == stored - {pos}
  }

  ghost function Further(pos: nat, mark: nat): nat {
    if pos < mark then mark else pos + 1
  }

  lemma StepCells(
    init: Database, log: seq<Body>, pos: nat, mark: nat, stored: set<nat>, db: Database, db': Database,
    stored': set<nat>, n: string, h: string, c: string)
    requires Tracked(init, log, pos, mark, stored, db) && pos < |log|
    requires Touches(db, log[pos], db') && Outcome(db, log, pos, stored, db', stored')
    requires !WrittenIn(log, pos + 1, Further(pos, mark), n, h, c)
    requires Lasting(log, Further(pos, mark), stored', n, h, c)
    ensures Cell(db', n, h, c) == Cell(OnePass(init, log, Further(pos, mark)), n, h, c)
  {
    hide Columns, Hashes, Cell, ValidDatabase, Writes?, Effect, Kept, AllHeld, OnePass;
    OnePassValid(init, log, pos);
    CellStays(init, log, pos + 1, Further(pos, mark), n, h, c);
    if Writes?(log[pos], n, h, c) {
      assert pos in stored';
      OneMorePass(init, log, pos);
      EffectCells(OnePass(init, log, pos), log[pos], n, h, c);
      EffectCells(db, log[pos], n, h, c);
    } else {
      assert !WrittenIn(log, pos, Further(pos, mark), n, h, c);
      LastingBefore(log, pos, mark, stored, stored', n, h, c);
      CellStays(init, log, mark, Further(pos, mark), n, h, c);
    }
  }

  lemma OneMorePass(init: Database, log: seq<Body>, k: nat)
    requires k < |log|
    ensures OnePass(init, log, k + 1) == Effect(OnePass(init, log, k), log[k])
  {
    hide Effect;
  }

  lemma LastingBefore(
    log: seq<Body>, pos: nat, mark: nat, stored: set<nat>, stored': set<nat>, n: string, h: string, c: string)
    requires pos <= mark <= |log| && pos < |log| && !Writes?(log[pos], n, h, c)
    requires stored' <= stored + {pos} && Lasting(log, Further(pos, mark), stored', n, h, c)
    ensures Lasting(log, mark, stored, n, h, c)
  {
    hide Writes?;
    forall i | 0 <= i < mark && Writes?(log[i], n, h, c) && !WrittenIn(log, i + 1, mark, n, h, c)
      ensures i in stored
    {
      assert !WrittenIn(log, i + 1, Further(pos, mark), n, h, c);
    }
  }

  lemma StepRows(
    init: Database, log: seq<Body>, pos: nat, mark: nat, stored: set<nat>, db: Database, db': Database)
    requires Tracked(init, log, pos, mark, stored, db) && pos < |log| && Touches(db, log[pos], db')
    ensures forall n :: Hashes(db', n) <= Hashes(OnePass(init, log, Further(pos, mark)), n)
  {
    hide Columns, Hashes, Cell, ValidDatabase, Effect, Kept, AllHeld, OnePass, CellsRight, Writes?;
    hide EnvelopeOk, Clean, TableOf, Types;
    OnePassValid(init, log, pos);
    OneMorePass(init, log, pos);
    EffectTouches(OnePass(init, log, pos), log[pos]);
    OnePassGrows(init, log, pos + 1, Further(pos, mark));
    OnePassGrows(init, log, mark, Further(pos, mark));
    if HandlerOk(log[pos]) {
      assert log[pos].msg.meta.hashValue in Hashes(OnePass(init, log, pos + 1), TableOf(log[pos].msg));
    }
  }

  lemma StepHeld(
    log: seq<Body>, pos: nat, mark: nat, stored: set<nat>, db: Database, db': Database, stored': set<nat>)
    requires pos <= mark <= |log| && pos < |log| && ValidDatabase(db) && AllHeld(log, mark, stored, db)
    requires Touches(db, log[pos], db') && Outcome(db, log, pos, stored, db', stored')
    ensures AllHeld(log, Further(pos, mark), stored', db')
  {
    hide Columns, Hashes, Cell, ValidDatabase, Effect, Kept, Held, HandlerOk, Writes?;
    forall i | i in stored'
      ensures i < Further(pos, mark) && HandlerOk(log[i]) && Held(db', log[i])
    {
      if i == pos {
        EffectTouches(db, log[pos]);
      } else {
        HeldOn(db, db', log[i]);
      }
    }
  }

  lemma KeptOn(a: Database, b: Database, c: Database)
    requires Kept(a, b) && Kept(b, c)
    ensures Kept(a, c)
  {
    hide Columns, Hashes;
  }

  /** Handling the next message keeps the consumer on track, however it ends. */
  lemma StepTracked(
    init: Database, log: seq<Body>, pos: nat, mark: nat, stored: set<nat>, db: Database, db': Database,
    stored': set<nat>)
    requires Tracked(init, log, pos, mark, stored, db) && pos < |log|
    requires Touches(db, log[pos], db') && Outcome(db, log, pos, stored, db', stored')
    ensures Tracked(init, log, pos + 1, Further(pos, mark), stored', db')
  {
    StepRows(init, log, pos, mark, stored, db, db');
    StepHeld(log, pos, mark, stored, db, db', stored');
    KeptOn(init, db, db');
    hide Columns, Hashes, Cell, ValidDatabase, Effect, Kept, AllHeld, OnePass, Writes?, WrittenIn, Lasting, HandlerOk;
    var further := Further(pos, mark);
    forall n, h, c | !WrittenIn(log, pos + 1, further, n, h, c) && Lasting(log, further, stored', n, h, c)
      ensures Cell(db', n, h, c) == Cell(OnePass(init, log, further), n, h, c)
    {
      StepCells(init, log, pos, mark, stored, db, db', stored', n, h, c);
    }
  }

  /** New messages behind the mark change nothing. */
  lemma PublishTracked(
    init: Database, log: seq<Body>, more: seq<Body>, pos: nat, mark: nat, stored: set<nat>, db: Database)
    requires Tracked(init, log, pos, mark, stored, db)
    ensures Tracked(init, log + more, pos, mark, stored, db)
  {
    hide Columns, Hashes, Cell, ValidDatabase, OnePass, Writes?, Kept, Held, HandlerOk, WrittenIn, Lasting;
    OnePassPrefix(init, log, more, mark);
    assert forall i :: 0 <= i < |log| ==> (log + more)[i] == log[i];
    forall n, h, c
      ensures WrittenIn(log + more, pos, mark, n, h, c) == WrittenIn(log, pos, mark, n, h, c)
      ensures Lasting(log + more, mark, stored, n, h, c) == Lasting(log, mark, stored, n, h, c)
    {
      SameWrites(log, more, pos, mark, n, h, c);
      SameLast(log, more, mark, stored, n, h, c);
    }
  }

  lemma SameWrites(log: seq<Body>, more: seq<Body>, from: nat, to: nat, n: string, h: string, c: string)
    requires to <= |log|
    ensures WrittenIn(log + more, from, to, n, h, c) == WrittenIn(log, from, to, n, h, c)
  {
    hide Writes?;
    if WrittenIn(log, from, to, n, h, c) {
      var i :| from <= i < to && Writes?(log[i], n, h, c);
      assert (log + more)[i] == log[i];
    }
  }

  lemma SameLast(log: seq<Body>, more: seq<Body>, upto: nat, stored: set<nat>, n: string, h: string, c: string)
    requires upto <= |log|
    ensures Lasting(log + more, upto, stored, n, h, c) == Lasting(log, upto, stored, n, h, c)
  {
    hide Writes?, WrittenIn;
    forall i | 0 <= i < upto
      ensures (log + more)[i] == log[i]
      ensures WrittenIn(log + more, i + 1, upto, n, h, c) == WrittenIn(log, i + 1, upto, n, h, c)
    {
      SameWrites(log, more, i + 1, upto, n, h, c);
    }
  }

  /******* Back at the mark *******/

  /** The same rows and cells. */
  ghost predicate SameData(a: Database, b: Database) {
    && (forall n :: Hashes(a, n) == Hashes(b, n))
    && (forall n, h, c :: Cell(a, n, h, c) == Cell(b, n, h, c))
  }

  /** The same rows and cells; `b` may have further columns, which are null in every row. */
  ghost predicate SameContents(a: Database, b: Database) {
    SameData(a, b) && forall n :: Columns(a, n).Keys <= Columns(b, n).Keys
  }

  /** One pass makes no column or row but those of the messages it handles. */
  lemma {:induction false} OnePassHeld(init: Database, log: seq<Body>, k: nat, db: Database)
    requires k <= |log| && ValidDatabase(init) && Kept(init, db)
    requires forall i :: 0 <= i < k && HandlerOk(log[i]) ==> Held(db, log[i])
    ensures Kept(OnePass(init, log, k), db)
  {
    hide Columns, Hashes, Kept, Held, HandlerOk, ValidDatabase, Effect;
    if k > 0 {
      OnePassHeld(init, log, k - 1, db);
      OnePassValid(init, log, k - 1);
      EffectKept(OnePass(init, log, k - 1), log[k - 1], db);
    }
  }

  lemma EffectKept(a: Database, b: Body, db: Database)
    requires ValidDatabase(a) && Kept(a, db) && (HandlerOk(b) ==> Held(db, b))
    ensures Kept(Effect(a, b), db)
  {
    hide EnvelopeOk, Clean, TableOf, Apply, Types, Writes, Columns, Hashes, Cell, ValidDatabase;
    if HandlerOk(b) {
      ApplyView(a, b.msg);
    }
  }

  /** If every acceptable message was stored in the end, the sink's contents are those of one pass. */
  lemma AllStored(init: Database, log: seq<Body>, mark: nat, stored: set<nat>, db: Database)
    requires Tracked(init, log, mark, mark, stored, db)
    requires forall i :: 0 <= i < mark && HandlerOk(log[i]) ==> i in stored
    ensures SameContents(OnePass(init, log, mark), db)
  {
    hide Columns, Hashes, Cell, ValidDatabase, OnePass, HandlerOk, Held, Writes?;
    OnePassHeld(init, log, mark, db);
    forall n, h, c
      ensures Cell(OnePass(init, log, mark), n, h, c) == Cell(db, n, h, c)
    {
      WritersAreOk(log, n, h, c);
      assert !WrittenIn(log, mark, mark, n, h, c);
      assert Lasting(log, mark, stored, n, h, c);
    }
  }

  lemma WritersAreOk(log: seq<Body>, n: string, h: string, c: string)
    ensures forall i :: 0 <= i < |log| && Writes?(log[i], n, h, c) ==> HandlerOk(log[i])
  {
    hide HandlerOk;
  }

  /******* In the order in which handlings took effect *******/

  /** What the last of the first `k` messages to write the cell wrote; what was there at first, if none does. */
  ghost function LastWrite(init: Database, log: seq<Body>, k: nat, name: string, hash: string, col: string): Value
    requires k <= |log|
  {
    if k == 0 then Cell(init, name, hash, col)
    else if Writes?(log[k - 1], name, hash, col) then Writes(log[k - 1].msg)[col]
    else LastWrite(init, log, k - 1, name, hash, col)
  }

  /** That is what one pass makes of the cell. */
  lemma {:induction false} OnePassCell(init: Database, log: seq<Body>, k: nat, name: string, hash: string, col: string)
    requires ValidDatabase(init) && k <= |log|
    ensures Cell(OnePass(init, log, k), name, hash, col) == LastWrite(init, log, k, name, hash, col)
  {
    hide Columns, Hashes, Cell, ValidDatabase, Writes?, Effect;
    if k > 0 {
      OnePassCell(init, log, k - 1, name, hash, col);
      OnePassValid(init, log, k - 1);
      EffectCells(OnePass(init, log, k - 1), log[k - 1], name, hash, col);
    }
  }

  ghost predicate RowOf(b: Body, name: string, hash: string) {
    HandlerOk(b) && name == TableOf(b.msg) && hash == b.msg.meta.hashValue
  }

  /** One of the first `k` messages has this row. */
  ghost predicate RowIn(log: seq<Body>, k: nat, name: string, hash: string)
    requires k <= |log|
  {
    exists i :: 0 <= i < k && RowOf(log[i], name, hash)
  }

  lemma EffectRows(db: Database, b: Body, name: string, hash: string)
    requires ValidDatabase(db)
    ensures hash in Hashes(Effect(db, b), name) <==> hash in Hashes(db, name) || RowOf(b, name, hash)
  {
    hide EnvelopeOk, Clean, TableOf, Apply, Types, Writes, Columns, Hashes, Cell, ValidDatabase;
    if HandlerOk(b) {
      ApplyView(db, b.msg);
    }
  }

  /** One pass has the rows of its messages and those there at first. */
  lemma {:induction false} OnePassRow(init: Database, log: seq<Body>, k: nat, name: string, hash: string)
    requires ValidDatabase(init) && k <= |log|
    ensures hash in Hashes(OnePass(init, log, k), name) <==> hash in Hashes(init, name) || RowIn(log, k, name, hash)
  {
    hide Hashes, ValidDatabase, RowOf, Effect;
    if k > 0 {
      OnePassRow(init, log, k - 1, name, hash);
      OnePassValid(init, log, k - 1);
      EffectRows(OnePass(init, log, k - 1), log[k - 1], name, hash);
      assert RowIn(log, k, name, hash) <==> RowIn(log, k - 1, name, hash) || RowOf(log[k - 1], name, hash);
    }
  }

  /** All of the work was done. */
  ghost predicate Took(db: Database, b: Body, left: Database) {
    HandlerOk(b) && left == Effect(db, b)
  }

  /** Then the sink holds what the message says. */
  lemma TookHolds(db: Database, b: Body, left: Database)
    requires ValidDatabase(db) && Took(db, b, left)
    ensures b.Entity? && HoldsFields(left, b.msg) && HoldsSource(left, b.msg)
  {
    hide HoldsFields, HoldsSource, Apply, EnvelopeOk, Clean, ValidDatabase;
    FieldsAreStored(db, b.msg);
    SourceIsStored(db, b.msg);
  }

  /** A handling that did not do all of its work changes no row and no cell. */
  lemma PartialWork(db: Database, b: Body, left: Database)
    requires ValidDatabase(db) && (left == Effect(db, b) || Failure(db, b, left)) && !Took(db, b, left)
    ensures SameContents(db, left) && ValidDatabase(left)
  {
    hide EnvelopeOk, Clean, TableOf, Apply, Types, Writes, WithColumns, Columns, Hashes, Cell, HasBaseColumns;
    hide ValidDatabase, AskedFor;
    if Tried(b) && left != Effect(db, b) {
      var name := TableOf(b.msg);
      if name in db && exists some :: AskedFor(some, b.msg.structure) && left == WithColumns(db, name, some) {
        var some :| AskedFor(some, b.msg.structure) && left == WithColumns(db, name, some);
        AddedView(db, name, some);
      } else if Clean(b.msg.structure) {
        TypesHaveBase(b.msg.structure);
        AddedView(db, name, Types(b.msg.structure));
      }
    }
  }

  lemma SameContentsOn(a: Database, b: Database, c: Database)
    requires SameContents(a, b) && SameContents(b, c)
    ensures SameContents(a, c)
  {
    hide Columns, Hashes, Cell;
  }

  /** Doing all of the work keeps the contents the same. */
  lemma FullWork(a: Database, db: Database, b: Body)
    requires ValidDatabase(a) && ValidDatabase(db) && SameContents(a, db)
    ensures SameContents(Effect(a, b), Effect(db, b))
  {
    hide EnvelopeOk, Clean, TableOf, Apply, Types, Writes, Columns, Hashes, Cell, ValidDatabase;
    if HandlerOk(b) {
      ApplyView(a, b.msg);
      ApplyView(db, b.msg);
    }
  }

  /** The messages at these positions, in this order. */
  function Pick(log: seq<Body>, order: seq<nat>): (r: seq<Body>)
    requires forall k :: 0 <= k < |order| ==> order[k] < |log|
    ensures |r| == |order| && forall k :: 0 <= k < |order| ==> r[k] == log[order[k]]
  {
    seq(|order|, k requires 0 <= k < |order| => log[order[k]])
  }

  ghost predicate Within(log: seq<Body>, order: seq<nat>) {
    forall k :: 0 <= k < |order| ==> order[k] < |log| && HandlerOk(log[order[k]])
  }

  /** The sink's contents are those of one pass over the messages in the order in which they took effect. */
  ghost predicate Made(init: Database, log: seq<Body>, effects: seq<nat>, db: Database) {
    Within(log, effects) && SameContents(OnePass(init, Pick(log, effects), |effects|), db)
  }

  /** Another handling, whatever became of it, keeps that. */
  lemma HandlingMade(init: Database, log: seq<Body>, effects: seq<nat>, db: Database, i: nat, left: Database)
    requires ValidDatabase(init) && ValidDatabase(db) && Made(init, log, effects, db) && i < |log|
    requires left == Effect(db, log[i]) || Failure(db, log[i], left)
    ensures Made(init, log, if Took(db, log[i], left) then effects + [i] else effects, left)
  {
    hide Effect, Failure, SameContents, ValidDatabase, HandlerOk, OnePass;
    var done := OnePass(init, Pick(log, effects), |effects|);
    OnePassValid(init, Pick(log, effects), |effects|);
    if Took(db, log[i], left) {
      var more := effects + [i];
      assert Pick(log, more) == Pick(log, effects) + [log[i]];
      OnePassPrefix(init, Pick(log, effects), [log[i]], |effects|);
      OneMorePass(init, Pick(log, more), |effects|);
      FullWork(done, db, log[i]);
    } else {
      PartialWork(db, log[i], left);
      SameContentsOn(done, db, left);
    }
  }

  lemma PublishMade(init: Database, log: seq<Body>, more: seq<Body>, effects: seq<nat>, db: Database)
    requires Made(init, log, effects, db)
    ensures Made(init, log + more, effects, db)
  {
    hide SameContents, HandlerOk, OnePass;
    assert forall k :: 0 <= k < |log| ==> (log + more)[k] == log[k];
    assert Pick(log + more, effects) == Pick(log, effects);
  }

  lemma StartsMade(init: Database)
    ensures Made(init, [], [], init)
  {
  }

  /** So every cell and every row is known exactly. */
  lemma MadeExactly(init: Database, log: seq<Body>, effects: seq<nat>, db: Database)
    requires ValidDatabase(init) && Made(init, log, effects, db)
    ensures forall n, h, c :: Cell(db, n, h, c) == LastWrite(init, Pick(log, effects), |effects|, n, h, c)
    ensures forall n, h :: h in Hashes(db, n) <==> h in Hashes(init, n) || RowIn(Pick(log, effects), |effects|, n, h)
  {
    hide Columns, Hashes, Cell, ValidDatabase, OnePass, HandlerOk, LastWrite, RowIn;
    forall n, h, c
      ensures Cell(db, n, h, c) == LastWrite(init, Pick(log, effects), |effects|, n, h, c)
    {
      OnePassCell(init, Pick(log, effects), |effects|, n, h, c);
    }
    forall n, h
      ensures h in Hashes(db, n) <==> h in Hashes(init, n) || RowIn(Pick(log, effects), |effects|, n, h)
    {
      OnePassRow(init, Pick(log, effects), |effects|, n, h);
    }
  }
}
