/**
 Why redelivery does no harm: the contents of the sink after a run that handles messages, falls back to an earlier
 one and handles them again are those of a single pass over the messages.
 */
module Replay {
  import opened MySqlSink

  /** A delivery as the persister sees it. */
  datatype Body = Empty | Garbled | Entity(msg: Message)

  /** The handler returns nil: the body is an entity the persister accepts. */
  ghost predicate HandlerOk(b: Body) {
    b.Entity? && Accepted(b.msg)
  }

  /** The handler gets as far as sending statements. */
  predicate Tried(b: Body) {
    b.Entity? && EnvelopeOk(b.msg)
  }

  ghost function Effect(db: Database, b: Body): Database {
    if HandlerOk(b) then Apply(db, b.msg) else db
  }

  /** The sink after one pass over the first `k` messages. */
  ghost function OnePass(init: Database, log: seq<Body>, k: nat): Database
    requires k <= |log|
  {
    if k == 0 then init else Effect(OnePass(init, log, k - 1), log[k - 1])
  }

  ghost predicate Writes?(b: Body, name: string, hash: string, col: string) {
    HandlerOk(b) && name == TableOf(b.msg) && hash == b.msg.meta.hashValue && col in Writes(b.msg)
  }

  ghost predicate WrittenIn(log: seq<Body>, from: nat, to: nat, name: string, hash: string, col: string)
    requires to <= |log|
  {
    exists i :: from <= i < to && Writes?(log[i], name, hash, col)
  }

  /** `a` has no column, column type or row that `b` lacks. */
  ghost predicate Below(a: Database, b: Database) {
    && (forall n, c :: c in Columns(a, n) ==> c in Columns(b, n) && Columns(a, n)[c] == Columns(b, n)[c])
    && (forall n :: Hashes(a, n) <= Hashes(b, n))
  }

  lemma {:induction false} OnePassValid(init: Database, log: seq<Body>, k: nat)
    requires ValidDatabase(init) && k <= |log|
    ensures ValidDatabase(OnePass(init, log, k))
  {
    hide Accepted, EnvelopeOk, Clean, TableOf, Apply;
    if k > 0 {
      OnePassValid(init, log, k - 1);
      if HandlerOk(log[k - 1]) {
        ApplyView(OnePass(init, log, k - 1), log[k - 1].msg);
      }
    }
  }

  lemma {:induction false} OnePassGrows(init: Database, log: seq<Body>, a: nat, b: nat)
    requires ValidDatabase(init) && a <= b <= |log|
    ensures Below(OnePass(init, log, a), OnePass(init, log, b))
    decreases b
  {
    hide Accepted, EnvelopeOk, Clean, TableOf, Apply, Types, Writes, Columns, Hashes;
    if a < b {
      OnePassGrows(init, log, a, b - 1);
      OnePassValid(init, log, b - 1);
      if HandlerOk(log[b - 1]) {
        ApplyView(OnePass(init, log, b - 1), log[b - 1].msg);
      }
    }
  }

  /** A cell that no message in between writes keeps its value. */
  lemma {:induction false} CellStays(
    init: Database, log: seq<Body>, a: nat, b: nat, name: string, hash: string, col: string)
    requires ValidDatabase(init) && a <= b <= |log| && !WrittenIn(log, a, b, name, hash, col)
    ensures Cell(OnePass(init, log, b), name, hash, col) == Cell(OnePass(init, log, a), name, hash, col)
    decreases b
  {
    hide Accepted, EnvelopeOk, Clean, TableOf, Apply, Types, Writes, Columns, Hashes, Cell;
    if a < b {
      assert !Writes?(log[b - 1], name, hash, col);
      CellStays(init, log, a, b - 1, name, hash, col);
      OnePassValid(init, log, b - 1);
      if HandlerOk(log[b - 1]) {
        ApplyView(OnePass(init, log, b - 1), log[b - 1].msg);
      }
    }
  }

  /**
   Where a replaying consumer stands. `pos` is the next message it will handle, `mark` the first one no handler has
   started on: every row and column of the messages before `mark` is there (except, while `mark` is still ahead, those
   of the message just before it, whose handler may not have finished), and every cell that will not be written again
   on the way to `mark` already holds its final value.
   */
  ghost predicate OnTrack(init: Database, log: seq<Body>, pos: nat, mark: nat, db: Database) {
    && pos <= mark <= |log|
    && ValidDatabase(init) && ValidDatabase(db)
    && Below(OnePass(init, log, if pos == mark then mark else mark - 1), db)
    && Below(db, OnePass(init, log, mark))
    && forall n, h, c :: !WrittenIn(log, pos, mark, n, h, c) ==>
         Cell(db, n, h, c) == Cell(OnePass(init, log, mark), n, h, c)
  }

  /** Back at the mark, the sink is what one pass makes of it. */
  lemma Converged(init: Database, log: seq<Body>, mark: nat, db: Database)
    requires OnTrack(init, log, mark, mark, db)
    ensures db == OnePass(init, log, mark)
  {
    hide Columns, Hashes, Cell, ValidDatabase, OnePass, Writes?;
    var o := OnePass(init, log, mark);
    OnePassValid(init, log, mark);
    forall n
      ensures Columns(db, n) == Columns(o, n) && Hashes(db, n) == Hashes(o, n)
    {
    }
    forall n, h, c
      ensures Cell(db, n, h, c) == Cell(o, n, h, c)
    {
      assert !WrittenIn(log, mark, mark, n, h, c);
    }
    Extensional(db, o);
  }

  lemma StartsOnTrack(init: Database, log: seq<Body>)
    requires ValidDatabase(init)
    ensures OnTrack(init, log, 0, 0, init)
  {
  }

  /** Falling back to any earlier message keeps the consumer on track. */
  lemma RestartKeeps(init: Database, log: seq<Body>, pos: nat, mark: nat, db: Database, back: nat)
    requires OnTrack(init, log, pos, mark, db) && back <= pos
    ensures OnTrack(init, log, back, mark, db)
  {
    hide Columns, Hashes, Cell, ValidDatabase, OnePass, Writes?;
    if back < mark {
      OnePassGrows(init, log, mark - 1, mark);
    }
    forall n, h, c | !WrittenIn(log, back, mark, n, h, c)
      ensures !WrittenIn(log, pos, mark, n, h, c)
    {
    }
  }

  /** What handling one message adds to the rows and columns. */
  lemma EffectBelow(a: Database, b: Database, body: Body)
    requires ValidDatabase(a) && ValidDatabase(b) && Below(a, b)
    requires Below(b, Effect(a, body))
    ensures Below(Effect(a, body), Effect(b, body)) && Below(Effect(b, body), Effect(a, body))
    ensures Below(b, Effect(b, body)) && ValidDatabase(Effect(b, body))
  {
    hide Accepted, EnvelopeOk, Clean, TableOf, Apply, Types, Writes, Columns, Hashes, Cell, ValidDatabase;
    if HandlerOk(body) {
      ApplyView(a, body.msg);
      ApplyView(b, body.msg);
    }
  }

  /** A message whose rows and columns are all there adds none. */
  lemma EffectOfKnown(below: Database, body: Body, db: Database)
    requires ValidDatabase(below) && ValidDatabase(db) && Below(Effect(below, body), db)
    ensures Below(db, Effect(db, body)) && Below(Effect(db, body), db) && ValidDatabase(Effect(db, body))
  {
    hide Accepted, EnvelopeOk, Clean, TableOf, Apply, Types, Writes, Columns, Hashes, Cell, ValidDatabase;
    if HandlerOk(body) {
      ApplyView(below, body.msg);
      ApplyView(db, body.msg);
    }
  }

  lemma EffectCells(db: Database, body: Body, n: string, h: string, c: string)
    requires ValidDatabase(db)
    ensures Writes?(body, n, h, c) ==> Cell(Effect(db, body), n, h, c) == Writes(body.msg)[c]
    ensures !Writes?(body, n, h, c) ==> Cell(Effect(db, body), n, h, c) == Cell(db, n, h, c)
  {
    hide Accepted, EnvelopeOk, Clean, TableOf, Apply, Types, Writes, Columns, Hashes, Cell, ValidDatabase;
    if HandlerOk(body) {
      ApplyView(db, body.msg);
    }
  }

  lemma BelowTransitive(a: Database, b: Database, c: Database)
    requires Below(a, b) && Below(b, c)
    ensures Below(a, c)
  {
    hide Columns, Hashes;
  }

  /** Handling the next message keeps the consumer on track, whether or not it has been handled before. */
  lemma TakeKeeps(init: Database, log: seq<Body>, pos: nat, mark: nat, db: Database)
    requires OnTrack(init, log, pos, mark, db) && pos < |log|
    ensures OnTrack(init, log, pos + 1, if pos < mark then mark else pos + 1, Effect(db, log[pos]))
  {
    hide Columns, Hashes, Cell, ValidDatabase, Writes?, Effect, Below;
    if pos == mark {
      Converged(init, log, mark, db);
      OnePassValid(init, log, mark + 1);
      BelowReflexive(OnePass(init, log, mark + 1));
    } else {
      TakeAgainBelow(init, log, pos, mark, db);
      TakeAgainCells(init, log, pos, mark, db);
    }
  }

  lemma TakeAgainCells(init: Database, log: seq<Body>, pos: nat, mark: nat, db: Database)
    requires OnTrack(init, log, pos, mark, db) && pos < mark
    ensures forall n, h, c :: !WrittenIn(log, pos + 1, mark, n, h, c) ==>
      Cell(Effect(db, log[pos]), n, h, c) == Cell(OnePass(init, log, mark), n, h, c)
  {
    hide Columns, Hashes, Cell, ValidDatabase, Writes?, Effect, Below;
    OnePassValid(init, log, pos);
    forall n, h, c | !WrittenIn(log, pos + 1, mark, n, h, c)
      ensures Cell(Effect(db, log[pos]), n, h, c) == Cell(OnePass(init, log, mark), n, h, c)
    {
      CellStays(init, log, pos + 1, mark, n, h, c);
      EffectCells(OnePass(init, log, pos), log[pos], n, h, c);
      EffectCells(db, log[pos], n, h, c);
      if !Writes?(log[pos], n, h, c) {
        assert !WrittenIn(log, pos, mark, n, h, c);
      }
    }
  }

  lemma BelowReflexive(a: Database)
    ensures Below(a, a)
  {
  }

  lemma TakeAgainBelow(init: Database, log: seq<Body>, pos: nat, mark: nat, db: Database)
    requires OnTrack(init, log, pos, mark, db) && pos < mark
    ensures Below(OnePass(init, log, if pos + 1 == mark then mark else mark - 1), Effect(db, log[pos]))
    ensures Below(Effect(db, log[pos]), OnePass(init, log, mark))
    ensures ValidDatabase(Effect(db, log[pos]))
  {
    hide Columns, Hashes, Cell, ValidDatabase, Writes?, Effect, Below;
    OnePassValid(init, log, pos);
    OnePassValid(init, log, mark - 1);
    if pos + 1 == mark {
      EffectBelow(OnePass(init, log, mark - 1), db, log[pos]);
    } else {
      OnePassGrows(init, log, pos + 1, mark - 1);
      BelowTransitive(OnePass(init, log, pos + 1), OnePass(init, log, mark - 1), db);
      EffectOfKnown(OnePass(init, log, pos), log[pos], db);
      BelowTransitive(OnePass(init, log, mark - 1), db, Effect(db, log[pos]));
      BelowTransitive(Effect(db, log[pos]), db, OnePass(init, log, mark));
    }
  }

  /** A handler stopped somewhere on its way through an accepted message. */
  ghost predicate HalfDone(db: Database, body: Body, db': Database) {
    HandlerOk(body) && Leftover(db, body.msg, db')
  }

  lemma SomeColumnsBelow(db: Database, name: string, some: map<string, SqlType>, all: map<string, SqlType>)
    requires forall c :: c in some ==> c in all && some[c] == all[c]
    ensures Below(db, WithColumns(db, name, some))
    ensures Below(WithColumns(db, name, some), WithColumns(db, name, all))
  {
    hide WithColumns, Columns, Hashes, Cell, HasBaseColumns;
    WithColumnsView(db, name, some);
    WithColumnsView(db, name, all);
  }

  lemma HalfDoneView(db: Database, body: Body, db': Database)
    requires ValidDatabase(db) && HalfDone(db, body, db')
    ensures ValidDatabase(db') && Below(db, db') && Below(db', Effect(db, body))
    ensures forall n, h, c :: !Writes?(body, n, h, c) ==> Cell(db', n, h, c) == Cell(db, n, h, c)
  {
    hide EnvelopeOk, Clean, TableOf, Apply, Types, Writes, WithColumns, Columns, Hashes, Cell, HasBaseColumns;
    hide ValidDatabase, AskedFor;
    LeftoverView(db, body.msg, db');
    var name, all := TableOf(body.msg), Types(body.msg.structure);
    AllColumnsBelow(db, body.msg);
    if db' == db || db' == Apply(db, body.msg) {
      BelowReflexive(db');
    } else if name in db && exists some :: AskedFor(some, body.msg.structure) && db' == WithColumns(db, name, some) {
      var some :| AskedFor(some, body.msg.structure) && db' == WithColumns(db, name, some);
      AskedForTypes(some, body.msg.structure);
      SomeColumnsBelow(db, name, some, all);
      BelowTransitive(db', WithColumns(db, name, all), Effect(db, body));
    }
  }

  lemma AllColumnsBelow(db: Database, msg: Message)
    requires ValidDatabase(db) && Accepted(msg)
    ensures Below(WithColumns(db, TableOf(msg), Types(msg.structure)), Apply(db, msg)) && Below(db, Apply(db, msg))
  {
    hide EnvelopeOk, Clean, TableOf, Apply, Types, Writes, WithColumns, Columns, Hashes, Cell, HasBaseColumns;
    ApplyView(db, msg);
    WithColumnsView(db, TableOf(msg), Types(msg.structure));
  }

  /** A handler that dies half way leaves the consumer on track, with the mark behind the message it had started. */
  lemma CrashKeeps(init: Database, log: seq<Body>, pos: nat, mark: nat, db: Database, db': Database)
    requires OnTrack(init, log, pos, mark, db) && pos < |log| && HalfDone(db, log[pos], db')
    ensures OnTrack(init, log, pos, if pos < mark then mark else pos + 1, db')
  {
    hide Columns, Hashes, Cell, ValidDatabase, Writes?, Effect, Below, HalfDone;
    HalfDoneView(db, log[pos], db');
    if pos == mark {
      Converged(init, log, mark, db);
      var o := OnePass(init, log, mark + 1);
      OnePassValid(init, log, mark);
      forall n, h, c | !WrittenIn(log, pos, mark + 1, n, h, c)
        ensures Cell(db', n, h, c) == Cell(o, n, h, c)
      {
        assert !Writes?(log[pos], n, h, c);
        EffectCells(db, log[pos], n, h, c);
      }
    } else {
      TakeAgainBelow(init, log, pos, mark, db);
      BelowTransitive(OnePass(init, log, mark - 1), db, db');
      BelowTransitive(db', Effect(db, log[pos]), OnePass(init, log, mark));
      forall n, h, c | !WrittenIn(log, pos, mark, n, h, c)
        ensures !Writes?(log[pos], n, h, c)
      {
      }
    }
  }

  /** New messages behind the mark change nothing. */
  lemma {:induction false} OnePassPrefix(init: Database, log: seq<Body>, more: seq<Body>, k: nat)
    requires k <= |log|
    ensures OnePass(init, log + more, k) == OnePass(init, log, k)
  {
    if k > 0 {
      OnePassPrefix(init, log, more, k - 1);
    }
  }

  lemma PublishKeeps(init: Database, log: seq<Body>, more: seq<Body>, pos: nat, mark: nat, db: Database)
    requires OnTrack(init, log, pos, mark, db)
    ensures OnTrack(init, log + more, pos, mark, db)
  {
    hide Columns, Hashes, Cell, ValidDatabase, OnePass, Writes?, Below;
    OnePassPrefix(init, log, more, mark);
    OnePassPrefix(init, log, more, if pos == mark then mark else mark - 1);
    forall n, h, c | !WrittenIn(log + more, pos, mark, n, h, c)
      ensures !WrittenIn(log, pos, mark, n, h, c)
    {
      forall i | pos <= i < mark
        ensures !Writes?(log[i], n, h, c)
      {
        assert (log + more)[i] == log[i];
      }
    }
  }
}
