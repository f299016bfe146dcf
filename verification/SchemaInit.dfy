/**
 Schema initialisation by any number of openers of one database file, interleaved at
 the level of SQL statements: an unlocked look, BEGIN IMMEDIATE, a second look, the
 baseline script one statement at a time, COMMIT or ROLLBACK, and the marker check.
 Readers see the committed database; the lock holder also sees its own writes.
 */
module SchemaInit {
  import opened Common

  const CURRENT_SCHEMA_VERSION := 26
  const CURRENT_SCHEMA_NAME := "baseline"
  const MARKER_TABLE := "schema_metadata"

  datatype Marker = Marker(version: int, name: string)

  /** The application tables and the rows of the marker table, ordered by version. */
  datatype Database = Database(tables: set<string>, markers: seq<Marker>)

  datatype Statement = CreateTable(name: string) | CreateIndex | InsertMarker(marker: Marker)

  function Execute(db: Database, s: Statement): Database {
    match s
    case CreateTable(name) => db.(tables := db.tables + {name})
    case CreateIndex => db
    case InsertMarker(m) => db.(markers := db.markers + [m])
  }

  function ExecuteAll(db: Database, script: seq<Statement>): Database {
    if |script| == 0 then db else Execute(ExecuteAll(db, script[..|script| - 1]), script[|script| - 1])
  }

  const EMPTY := Database({}, [])

  /** The check of the marker table and of its rows. */
  predicate Supported(db: Database) {
    MARKER_TABLE in db.tables && db.markers == [Marker(CURRENT_SCHEMA_VERSION, CURRENT_SCHEMA_NAME)]
  }

  /** The script turns an empty database into one that passes the check. */
  ghost predicate Baseline(script: seq<Statement>) {
    Supported(ExecuteAll(EMPTY, script))
  }

  /** Marker rows live in a table, so a database without tables has none. */
  ghost predicate WellFormed(db: Database) {
    db.tables == {} ==> db.markers == []
  }

  datatype Opener =
    | Looking                             // about to count the tables without a lock
    | Waiting                             // about to BEGIN IMMEDIATE
    | Locked                              // holds the lock, about to count again
    | Scripting(done: nat, copy: Database) // has executed `done` statements of the script
    | Skipping                            // holds the lock, found tables, about to COMMIT
    | CheckingTable                       // about to look for the marker table
    | CheckingRows                        // found it, about to read its rows
    | Opened                              // returned Ok
    | Refused                             // returned an error

  predicate HoldsLock(o: Opener) {
    o.Locked? || o.Scripting? || o.Skipping?
  }

  /** `initialisations` counts the commits of the script. */
  datatype World = World(db: Database, openers: seq<Opener>, lock: Option<nat>, initialisations: nat)

  /** One step of opener `who`; `fails` makes its statement fail, if it can. */
  datatype Move = Move(who: nat, fails: bool)

  function Next(w: World, who: nat, o: Opener): World
    requires who < |w.openers|
  {
    w.(openers := w.openers[who := o])
  }

  function Step(w: World, script: seq<Statement>, m: Move): World {
    if m.who >= |w.openers| then w
    else
      match w.openers[m.who]
      case Looking =>
        if m.fails then Next(w, m.who, Refused)
        else if w.db.tables != {} then Next(w, m.who, CheckingTable)
        else Next(w, m.who, Waiting)
      case Waiting =>
        // A busy timeout is an error; otherwise the opener goes on waiting for the lock.
        if m.fails then Next(w, m.who, Refused)
        else if w.lock.Some? then w
        else Next(w, m.who, Locked).(lock := Some(m.who))
      case Locked =>
        if m.fails then Next(w, m.who, Refused).(lock := None)
        else if w.db.tables == {} then Next(w, m.who, Scripting(0, w.db))
        else Next(w, m.who, Skipping)
      case Scripting(done, copy) =>
        // A failing statement rolls back; a failing COMMIT drops the connection and the copy.
        if m.fails then Next(w, m.who, Refused).(lock := None)
        else if done < |script| then Next(w, m.who, Scripting(done + 1, Execute(copy, script[done])))
        else Next(w, m.who, CheckingTable).(lock := None, db := copy, initialisations := w.initialisations + 1)
      case Skipping =>
        if m.fails then Next(w, m.who, Refused).(lock := None)
        else Next(w, m.who, CheckingTable).(lock := None)
      case CheckingTable =>
        if m.fails || MARKER_TABLE !in w.db.tables then Next(w, m.who, Refused)
        else Next(w, m.who, CheckingRows)
      case CheckingRows =>
        if m.fails || w.db.markers != [Marker(CURRENT_SCHEMA_VERSION, CURRENT_SCHEMA_NAME)] then Next(w, m.who, Refused)
        else Next(w, m.who, Opened)
      case Opened => w
      case Refused => w
  }

  function Run(w: World, script: seq<Statement>, moves: seq<Move>): World
    decreases |moves|
  {
    if |moves| == 0 then w else Run(Step(w, script, moves[0]), script, moves[1..])
  }

  /** `count` openers about to start on the database found on disk. */
  function Start(db: Database, count: nat): World {
    World(db, seq(count, _ => Looking), None, 0)
  }

  // ----- the invariant -----

  /** The committed database is the one found, or the whole baseline built once on an empty one. */
  ghost predicate DatabaseSound(w: World, script: seq<Statement>, found: Database) {
    || (w.initialisations == 0 && w.db == found)
    || (w.initialisations == 1 && found.tables == {} && w.db == ExecuteAll(found, script))
  }

  ghost predicate LockSound(w: World) {
    forall i :: 0 <= i < |w.openers| ==> (HoldsLock(w.openers[i]) <==> w.lock == Some(i))
  }

  ghost predicate OpenerSound(w: World, script: seq<Statement>, found: Database, o: Opener) {
    match o
    case Scripting(done, copy) =>
      w.initialisations == 0 && found.tables == {} && done <= |script| && copy == ExecuteAll(found, script[..done])
    case Skipping => w.db.tables != {}
    case CheckingRows => MARKER_TABLE in w.db.tables
    case CheckingTable => w.db.tables != {}
    case Opened => Supported(w.db)
    case _ => true
  }

  ghost predicate Inv(w: World, script: seq<Statement>, found: Database) {
    && DatabaseSound(w, script, found)
    && LockSound(w)
    && forall i :: 0 <= i < |w.openers| ==> OpenerSound(w, script, found, w.openers[i])
  }

  lemma {:induction false} StepLock(w: World, script: seq<Statement>, m: Move)
    requires LockSound(w)
    ensures LockSound(Step(w, script, m))
  {
  }

  lemma {:induction false} ScriptAdvance(found: Database, script: seq<Statement>, done: nat)
    requires done < |script|
    ensures ExecuteAll(found, script[..done + 1]) == Execute(ExecuteAll(found, script[..done]), script[done])
  {
    assert script[..done + 1][..done] == script[..done];
  }

  /** The database changes only when a complete script commits, which happens on an empty one. */
  lemma {:induction false} StepDatabase(w: World, script: seq<Statement>, found: Database, m: Move)
    requires Inv(w, script, found)
    ensures DatabaseSound(Step(w, script, m), script, found)
    ensures var w' := Step(w, script, m);
            w' == w || (w'.db == w.db && w'.initialisations == w.initialisations)
            || (m.who < |w.openers| && w.openers[m.who].Scripting? && found.tables == {} && w.initialisations == 0
                && w'.db == ExecuteAll(found, script))
  {
    hide ExecuteAll, LockSound;
    assert script[..|script|] == script;
    if m.who < |w.openers| { assert OpenerSound(w, script, found, w.openers[m.who]); }
  }

  // The opener that moves.
  lemma {:induction false} MoverSound(w: World, script: seq<Statement>, found: Database, m: Move)
    requires Baseline(script) && WellFormed(found) && Inv(w, script, found) && m.who < |w.openers|
    ensures OpenerSound(Step(w, script, m), script, found, Step(w, script, m).openers[m.who])
  {
    hide ExecuteAll, LockSound;
    var o := w.openers[m.who];
    assert OpenerSound(w, script, found, o);
    assert script[..0] == [] && ExecuteAll(found, []) == found by { NothingExecuted(found); }
    assert script[..|script|] == script;
    if o.Scripting? && o.done < |script| { ScriptAdvance(found, script, o.done); }
    assert found.tables == {} ==> found == EMPTY;
  }

  // The openers that do not move: only the commit of a script can concern them.
  lemma {:induction false} OtherSound(w: World, script: seq<Statement>, found: Database, m: Move, i: nat)
    requires Baseline(script) && WellFormed(found) && Inv(w, script, found)
    requires i < |w.openers| && i != m.who
    ensures OpenerSound(Step(w, script, m), script, found, w.openers[i])
  {
    hide ExecuteAll, Step;
    StepDatabase(w, script, found, m);
    assert OpenerSound(w, script, found, w.openers[i]);
    assert found.tables == {} ==> found == EMPTY;
  }

  lemma {:induction false} StepKeepsInv(w: World, script: seq<Statement>, found: Database, m: Move)
    requires Baseline(script) && WellFormed(found) && Inv(w, script, found)
    ensures Inv(Step(w, script, m), script, found)
  {
    hide OpenerSound, DatabaseSound, LockSound;
    StepLock(w, script, m);
    StepDatabase(w, script, found, m);
    var w' := Step(w, script, m);
    forall i | 0 <= i < |w'.openers| ensures OpenerSound(w', script, found, w'.openers[i]) {
      if i == m.who { MoverSound(w, script, found, m); } else { OtherSound(w, script, found, m, i); }
    }
  }

  lemma NothingExecuted(db: Database)
    ensures ExecuteAll(db, []) == db
  {
  }

  lemma {:induction false} RunKeepsInv(w: World, script: seq<Statement>, found: Database, moves: seq<Move>)
    requires Baseline(script) && WellFormed(found) && Inv(w, script, found)
    ensures Inv(Run(w, script, moves), script, found)
    decreases |moves|
  {
    hide Step, Inv, Baseline;
    if |moves| > 0 {
      StepKeepsInv(w, script, found, moves[0]);
      RunKeepsInv(Step(w, script, moves[0]), script, found, moves[1..]);
    }
  }

  /**
   For any number of openers and any interleaving: the script commits at most once, the
   committed database is at every point either the one found or the complete baseline, a
   store that already holds tables is never modified, and every opener that returned Ok
   found exactly the current marker, which is still there.
   */
  lemma {:induction false} InitialisedOnce(script: seq<Statement>, found: Database, count: nat, moves: seq<Move>)
    requires Baseline(script) && WellFormed(found)
    ensures var w := Run(Start(found, count), script, moves);
            && w.initialisations <= 1
            && (w.db == found || (found.tables == {} && w.initialisations == 1 && w.db == ExecuteAll(found, script)))
            && (found.tables != {} ==> w.db == found && w.initialisations == 0)
            && (forall i :: 0 <= i < |w.openers| && w.openers[i].Opened? ==> Supported(w.db))
  {
    hide Run, ExecuteAll;
    RunKeepsInv(Start(found, count), script, found, moves);
    var w := Run(Start(found, count), script, moves);
    forall i | 0 <= i < |w.openers| && w.openers[i].Opened? ensures Supported(w.db) {
      assert OpenerSound(w, script, found, w.openers[i]);
    }
  }

  /** An opener of a store that holds some other schema is refused: no run lets it open. */
  lemma {:induction false} OtherSchemaRefused(script: seq<Statement>, found: Database, count: nat, moves: seq<Move>)
    requires Baseline(script) && WellFormed(found) && found.tables != {} && !Supported(found)
    ensures var w := Run(Start(found, count), script, moves);
            w.db == found && forall i :: 0 <= i < |w.openers| ==> !w.openers[i].Opened?
  {
    hide Run, ExecuteAll;
    InitialisedOnce(script, found, count, moves);
  }

  // ----- every opener can finish -----

  /** The opener has not returned, and nobody else holds the lock. */
  ghost predicate CanGoOn(w: World, who: nat) {
    && who < |w.openers| && !w.openers[who].Opened? && !w.openers[who].Refused?
    && (w.lock == None || w.lock == Some(who))
  }

  function StepsLeft(script: seq<Statement>, o: Opener): nat {
    match o
    case Looking => |script| + 6
    case Waiting => |script| + 5
    case Locked => |script| + 4
    case Scripting(done, _) => if done <= |script| then |script| - done + 3 else 3
    case Skipping => 3
    case CheckingTable => 2
    case CheckingRows => 1
    case Opened => 0
    case Refused => 0
  }

  // A step without failure brings the opener nearer to its return.
  lemma {:induction false} SoloStep(w: World, script: seq<Statement>, found: Database, who: nat)
    requires Inv(w, script, found) && CanGoOn(w, who)
    ensures var w' := Step(w, script, Move(who, false));
            && |w'.openers| == |w.openers|
            && StepsLeft(script, w'.openers[who]) < StepsLeft(script, w.openers[who])
            && (w'.lock == None || w'.lock == Some(who))
            && (w'.openers[who].Opened? || w'.openers[who].Refused? ==>
                  w'.db == w.db && w.db.tables != {} && (w'.openers[who].Opened? <==> Supported(w'.db)))
  {
    hide ExecuteAll, DatabaseSound;
    assert OpenerSound(w, script, found, w.openers[who]);
  }

  lemma {:induction false} SoloRun(w: World, script: seq<Statement>, found: Database, who: nat)
    returns (moves: seq<Move>)
    requires Baseline(script) && WellFormed(found) && Inv(w, script, found) && CanGoOn(w, who)
    ensures var w' := Run(w, script, moves);
            && who < |w'.openers| && w'.db.tables != {}
            && (w'.openers[who].Opened? || w'.openers[who].Refused?)
            && (w'.openers[who].Opened? <==> Supported(w'.db))
    decreases StepsLeft(script, w.openers[who])
  {
    hide Step, Inv, Baseline, Supported, StepsLeft;
    var m := Move(who, false);
    var w1 := Step(w, script, m);
    SoloStep(w, script, found, who);
    StepKeepsInv(w, script, found, m);
    if w1.openers[who].Opened? || w1.openers[who].Refused? {
      moves := [m];
      assert moves[1..] == [];
      assert Run(w, script, moves) == w1;
    } else {
      var rest := SoloRun(w1, script, found, who);
      moves := [m] + rest;
      assert moves[1..] == rest;
    }
  }

  /**
   From every reachable state in which no other opener holds the lock, an opener that has not
   returned can go on to return: Ok, with the whole baseline in place, if the store was found
   empty, and otherwise Ok exactly when the store found has the current schema.
   */
  lemma {:induction false} OpenerFinishes(script: seq<Statement>, found: Database, count: nat, moves: seq<Move>,
                                          who: nat)
    requires Baseline(script) && WellFormed(found) && CanGoOn(Run(Start(found, count), script, moves), who)
    ensures exists more ::
              var w := Run(Run(Start(found, count), script, moves), script, more);
              && who < |w.openers| && (w.openers[who].Opened? || w.openers[who].Refused?)
              && (if found.tables == {} then w.openers[who].Opened? && w.db == ExecuteAll(found, script)
                  else w.db == found && (w.openers[who].Opened? <==> Supported(found)))
  {
    hide Run, ExecuteAll;
    var w := Run(Start(found, count), script, moves);
    RunKeepsInv(Start(found, count), script, found, moves);
    var more := SoloRun(w, script, found, who);
    RunKeepsInv(w, script, found, more);
    assert found.tables == {} ==> found == EMPTY;
    assert DatabaseSound(Run(w, script, more), script, found);
  }

  // ----- one opener on its own -----

  class Store {
    var db: Database

    constructor (found: Database)
      ensures db == found
    {
      db := found;
    }

    /**
     Without interference: initialise an empty store completely, touch no other, and
     report what is there. `fault` is the statement of the transaction that fails, if any,
     the COMMIT coming after the script; a failure leaves the store as it was.
     */
    method InitializeSchema(script: seq<Statement>, fault: Option<nat>) returns (r: Result<(), ()>)
      modifies this
      ensures var fails := old(db).tables == {} && fault.Some? && fault.value <= |script|;
              && db == (if old(db).tables == {} && !fails then ExecuteAll(old(db), script) else old(db))
              && (r.Ok? <==> !fails && Supported(db))
    {
      if db.tables == {} {
        var copy := db;
        for i := 0 to |script|
          invariant db == old(db) && copy == ExecuteAll(db, script[..i])
          invariant fault.Some? ==> i <= fault.value
        {
          if fault == Some(i) {
            return Err(());
          }
          ScriptAdvance(db, script, i);
          copy := Execute(copy, script[i]);
        }
        if fault == Some(|script|) {
          return Err(());
        }
        assert script[..|script|] == script;
        db := copy;
      }
      if MARKER_TABLE !in db.tables {
        return Err(());
      }
      if db.markers != [Marker(CURRENT_SCHEMA_VERSION, CURRENT_SCHEMA_NAME)] {
        return Err(());
      }
      return Ok(());
    }
  }
}
