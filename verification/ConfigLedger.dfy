/**
 The configuration table as a value: revisioned entries, unconditional and
 conditional mutations, and the keyset listing.
 */
module ConfigLedger {
  import opened Common
  import opened Ordering
  import opened KeysetWalk

  const MAX_CONFIG_MUTATIONS := 64
  const MAX_CONFIG_KEY_BYTES := 512
  const MAX_CONFIG_LIST_LIMIT := 200

  type Json = string

  datatype Entry = Entry(value: Json, revision: int, updatedAt: int)
  datatype Row = Row(key: string, entry: Entry)
  datatype Updated = Updated(key: string, revision: int, updatedAt: int)
  datatype Table = Table(entries: map<string, Entry>, log: seq<Updated>)

  datatype Put = Put(key: string, value: Json)
  datatype Condition = Condition(key: string, expected: Option<int>)
  datatype Conflict = Conflict(key: string, expected: Option<int>, current: Option<Row>)

  datatype Error = InvalidInput | MissingCondition | NotExactlyOneRow | MissingExpectation
  datatype Applied = Applied(rows: seq<Row>) | Conflicted(conflicts: seq<Conflict>)

  // ----- validation -----

  predicate ValidKey(key: string) {
    1 <= Utf8Length(key) <= MAX_CONFIG_KEY_BYTES
  }

  function MutatedKeys(puts: seq<Put>, deletes: seq<string>): (r: seq<string>)
    ensures |r| == |puts| + |deletes|
    ensures forall i :: 0 <= i < |puts| ==> r[i] == puts[i].key
    ensures forall i :: 0 <= i < |deletes| ==> r[|puts| + i] == deletes[i]
  {
    seq(|puts|, i requires 0 <= i < |puts| => puts[i].key) + deletes
  }

  predicate Distinct<T(==)>(xs: seq<T>) {
    forall i, j :: 0 <= i < j < |xs| ==> xs[i] != xs[j]
  }

  predicate ValidMutations(puts: seq<Put>, deletes: seq<string>) {
    var keys := MutatedKeys(puts, deletes);
    1 <= |keys| <= MAX_CONFIG_MUTATIONS && (forall i :: 0 <= i < |keys| ==> ValidKey(keys[i])) && Distinct(keys)
  }

  function ConditionKeys(conditions: seq<Condition>): (r: seq<string>)
    ensures |r| == |conditions| && forall i :: 0 <= i < |r| ==> r[i] == conditions[i].key
  {
    seq(|conditions|, i requires 0 <= i < |conditions| => conditions[i].key)
  }

  predicate ValidCondition(c: Condition) {
    ValidKey(c.key) && (c.expected.Some? ==> c.expected.value > 0)
  }

  /** Every mutated key has one condition, and every deleted key an expected revision. */
  predicate ValidConditional(conditions: seq<Condition>, puts: seq<Put>, deletes: seq<string>) {
    && ValidMutations(puts, deletes)
    && 1 <= |conditions| <= MAX_CONFIG_MUTATIONS
    && (forall i :: 0 <= i < |conditions| ==> ValidCondition(conditions[i]))
    && Distinct(ConditionKeys(conditions))
    && (forall k :: k in MutatedKeys(puts, deletes) ==> k in ConditionKeys(conditions))
    && (forall c :: c in conditions && c.key in deletes ==> c.expected.Some?)
  }

  // ----- unconditional mutations -----

  function Read(t: Table, key: string): Option<Row> {
    if key in t.entries then Some(Row(key, t.entries[key])) else None
  }

  function RevisionOf(t: Table, key: string): Option<int> {
    if key in t.entries then Some(t.entries[key].revision) else None
  }

  function Write(t: Table, key: string, value: Json, now: int): Table {
    var revision := if key in t.entries then t.entries[key].revision + 1 else 1;
    Table(t.entries[key := Entry(value, revision, now)], t.log + [Updated(key, revision, now)])
  }

  function Remove(t: Table, key: string, now: int): Table {
    var revision := if key in t.entries then t.entries[key].revision + 1 else 1;
    Table(t.entries - {key}, t.log + [Updated(key, revision, now)])
  }

  function WriteAll(t: Table, puts: seq<Put>, now: int): Table {
    if |puts| == 0 then t
    else
      var n := |puts| - 1;
      Write(WriteAll(t, puts[..n], now), puts[n].key, puts[n].value, now)
  }

  function RemoveAll(t: Table, deletes: seq<string>, now: int): Table {
    if |deletes| == 0 then t
    else
      var n := |deletes| - 1;
      Remove(RemoveAll(t, deletes[..n], now), deletes[n], now)
  }

  function ApplyMutations(t: Table, puts: seq<Put>, deletes: seq<string>, now: int): (Table, Result<(), Error>) {
    if !ValidMutations(puts, deletes) then (t, Err(InvalidInput))
    else (RemoveAll(WriteAll(t, puts, now), deletes, now), Ok(()))
  }

  // ----- conditional mutations -----

  function Conflicts(t: Table, conditions: seq<Condition>): seq<Conflict> {
    if |conditions| == 0 then []
    else
      var n := |conditions| - 1;
      var c := conditions[n];
      Conflicts(t, conditions[..n])
      + (if RevisionOf(t, c.key) != c.expected then [Conflict(c.key, c.expected, Read(t, c.key))] else [])
  }

  /** The expected revision of a key's condition. */
  function Expectation(conditions: seq<Condition>, key: string): (r: Option<Option<int>>)
    ensures r.Some? ==> Condition(key, r.value) in conditions
    ensures r.None? ==> key !in ConditionKeys(conditions)
  {
    if |conditions| == 0 then None
    else
      var n := |conditions| - 1;
      if conditions[n].key == key then Some(conditions[n].expected) else Expectation(conditions[..n], key)
  }

  // The insert or update of one row, refused unless exactly one row changes.
  function PutRow(t: Table, conditions: seq<Condition>, p: Put, now: int): Result<Table, Error> {
    match Expectation(conditions, p.key)
    case None => Err(MissingCondition)
    case Some(None) => if p.key in t.entries then Err(NotExactlyOneRow) else Ok(Write(t, p.key, p.value, now))
    case Some(Some(revision)) =>
      if RevisionOf(t, p.key) != Some(revision) then Err(NotExactlyOneRow) else Ok(Write(t, p.key, p.value, now))
  }

  function PutRows(t: Table, conditions: seq<Condition>, puts: seq<Put>, now: int): Result<(Table, seq<Row>), Error> {
    if |puts| == 0 then Ok((t, []))
    else
      var n := |puts| - 1;
      match PutRows(t, conditions, puts[..n], now)
      case Err(e) => Err(e)
      case Ok((t1, rows)) =>
        match PutRow(t1, conditions, puts[n], now)
        case Err(e) => Err(e)
        case Ok(t2) =>
          if puts[n].key !in t2.entries then Err(NotExactlyOneRow)
          else Ok((t2, rows + [Row(puts[n].key, t2.entries[puts[n].key])]))
  }

  function DeleteRow(t: Table, conditions: seq<Condition>, key: string, now: int): Result<Table, Error> {
    match Expectation(conditions, key)
    case None => Err(MissingCondition)
    case Some(None) => Err(MissingExpectation)
    case Some(Some(revision)) =>
      if RevisionOf(t, key) != Some(revision) then Err(NotExactlyOneRow)
      else Ok(Table(t.entries - {key}, t.log + [Updated(key, revision + 1, now)]))
  }

  function DeleteRows(t: Table, conditions: seq<Condition>, deletes: seq<string>, now: int): Result<Table, Error> {
    if |deletes| == 0 then Ok(t)
    else
      var n := |deletes| - 1;
      match DeleteRows(t, conditions, deletes[..n], now)
      case Err(e) => Err(e)
      case Ok(t1) => DeleteRow(t1, conditions, deletes[n], now)
  }

  function CompareAndApply(t: Table, conditions: seq<Condition>, puts: seq<Put>, deletes: seq<string>, now: int)
    : (Table, Result<Applied, Error>)
  {
    if !ValidConditional(conditions, puts, deletes) then (t, Err(InvalidInput))
    else if Conflicts(t, conditions) != [] then (t, Ok(Conflicted(Conflicts(t, conditions))))
    else
      match PutRows(t, conditions, puts, now)
      case Err(e) => (t, Err(e))
      case Ok((t1, rows)) =>
        match DeleteRows(t1, conditions, deletes, now)
        case Err(e) => (t, Err(e))
        case Ok(t2) => (t2, Ok(Applied(rows)))
  }

  // ----- listing -----

  predicate StartsWith(key: string, prefix: string) {
    prefix <= key
  }

  function Matching(t: Table, prefix: string): set<string> {
    set k | k in t.entries && StartsWith(k, prefix)
  }

  function RowsOf(t: Table, keys: seq<string>): (r: seq<Row>)
    requires forall k :: k in keys ==> k in t.entries
    ensures |r| == |keys| && forall i :: 0 <= i < |r| ==> r[i] == Row(keys[i], t.entries[keys[i]])
  {
    seq(|keys|, i requires 0 <= i < |keys| => Row(keys[i], t.entries[keys[i]]))
  }

  function List(t: Table, prefix: string, after: Option<string>, limit: Option<nat>): (r: Result<seq<Row>, Error>) {
    var size := limit.GetOr(100);
    if !ValidKey(prefix)
       || (after.Some? && (!ValidKey(after.value) || !StartsWith(after.value, prefix))) then Err(InvalidInput)
    else if size == 0 || size > MAX_CONFIG_LIST_LIMIT then Err(InvalidInput)
    else
      TextOrder();
      QueryAbove(TextLess, Matching(t, prefix), after, size);
      Ok(RowsOf(t, Query(TextLess, Matching(t, prefix), after, size)))
  }

  // ----- runs -----

  datatype Op =
    | ApplyOp(puts: seq<Put>, deletes: seq<string>, now: int)
    | CompareOp(conditions: seq<Condition>, puts: seq<Put>, deletes: seq<string>, now: int)

  function Step(t: Table, op: Op): Table {
    match op
    case ApplyOp(puts, deletes, now) => ApplyMutations(t, puts, deletes, now).0
    case CompareOp(conditions, puts, deletes, now) => CompareAndApply(t, conditions, puts, deletes, now).0
  }

  function Run(t: Table, ops: seq<Op>): Table
    decreases |ops|
  {
    if |ops| == 0 then t else Run(Step(t, ops[0]), ops[1..])
  }
}
