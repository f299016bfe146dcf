/** The configuration service: validation loops and in-place mutation of the table. */
module ConfigService {
  import opened Common
  import opened Ordering
  import C = ConfigLedger

  /** Every key is valid and none occurs twice. */
  method ValidateKeys(keys: seq<string>) returns (ok: bool)
    ensures ok <==> (forall i :: 0 <= i < |keys| ==> C.ValidKey(keys[i])) && C.Distinct(keys)
  {
    hide C.ValidKey;
    var seen: set<string> := {};
    for i := 0 to |keys|
      invariant seen == Elements(keys[..i])
      invariant forall j :: 0 <= j < i ==> C.ValidKey(keys[j])
      invariant C.Distinct(keys[..i])
    {
      if !C.ValidKey(keys[i]) {
        return false;
      }
      if keys[i] in seen {
        assert exists j :: 0 <= j < i && keys[..i][j] == keys[i];
        return false;
      }
      assert keys[..i + 1] == keys[..i] + [keys[i]];
      seen := seen + {keys[i]};
    }
    assert keys[..|keys|] == keys;
    return true;
  }

  /** Accepts 1 to 64 mutations with valid keys, no key mutated twice. */
  method ValidateMutations(puts: seq<C.Put>, deletes: seq<string>) returns (ok: bool)
    ensures ok <==> C.ValidMutations(puts, deletes)
  {
    hide C.ValidKey, C.Distinct;
    var keys := C.MutatedKeys(puts, deletes);
    if |keys| == 0 || |keys| > C.MAX_CONFIG_MUTATIONS {
      return false;
    }
    ok := ValidateKeys(keys);
  }

  /** Valid conditions with distinct keys; also returns these keys. */
  method ValidateConditions(conditions: seq<C.Condition>) returns (ok: bool, seen: set<string>)
    ensures ok <==> (forall i :: 0 <= i < |conditions| ==> C.ValidCondition(conditions[i]))
                    && C.Distinct(C.ConditionKeys(conditions))
    ensures ok ==> seen == Elements(C.ConditionKeys(conditions))
  {
    hide C.ValidKey;
    ghost var keys := C.ConditionKeys(conditions);
    seen := {};
    for i := 0 to |conditions|
      invariant seen == Elements(keys[..i])
      invariant forall j :: 0 <= j < i ==> C.ValidCondition(conditions[j])
      invariant C.Distinct(keys[..i])
    {
      var condition := conditions[i];
      if !C.ValidKey(condition.key) || (condition.expected.Some? && condition.expected.value <= 0) {
        assert !C.ValidCondition(conditions[i]);
        return false, seen;
      }
      if condition.key in seen {
        assert exists j :: 0 <= j < i && keys[..i][j] == keys[i];
        return false, seen;
      }
      assert keys[..i + 1] == keys[..i] + [keys[i]];
      seen := seen + {condition.key};
    }
    assert keys[..|keys|] == keys;
    return true, seen;
  }

  method ValidateConditional(conditions: seq<C.Condition>, puts: seq<C.Put>, deletes: seq<string>) returns (ok: bool)
    ensures ok <==> C.ValidConditional(conditions, puts, deletes)
  {
    hide C.ValidKey, C.ValidMutations, C.ValidCondition, C.Distinct;
    var valid := ValidateMutations(puts, deletes);
    if !valid || |conditions| == 0 || |conditions| > C.MAX_CONFIG_MUTATIONS {
      return false;
    }
    ghost var keys := C.ConditionKeys(conditions);
    var validConditions, conditionKeys := ValidateConditions(conditions);
    if !validConditions {
      return false;
    }
    var mutated := C.MutatedKeys(puts, deletes);
    for i := 0 to |mutated|
      invariant forall j :: 0 <= j < i ==> mutated[j] in keys
    {
      if mutated[i] !in conditionKeys {
        assert mutated[i] in mutated;
        return false;
      }
    }
    for i := 0 to |deletes|
      invariant forall c :: c in conditions && c.key in deletes[..i] ==> c.expected.Some?
    {
      var condition := FindCondition(conditions, deletes[i]);
      if condition.expected.None? {
        assert condition in conditions && condition.key in deletes;
        return false;
      }
      assert deletes[..i + 1] == deletes[..i] + [deletes[i]];
    }
    assert deletes[..|deletes|] == deletes;
    return true;
  }

  /** The condition of a key; the keys of validated conditions are distinct. */
  method FindCondition(conditions: seq<C.Condition>, key: string) returns (c: C.Condition)
    requires C.Distinct(C.ConditionKeys(conditions)) && key in C.ConditionKeys(conditions)
    ensures c in conditions && c.key == key
    ensures forall x :: x in conditions && x.key == key ==> x == c
  {
    var i :| 0 <= i < |conditions| && conditions[i].key == key;
    c := conditions[i];
    forall x | x in conditions && x.key == key ensures x == c {
      var j :| 0 <= j < |conditions| && conditions[j] == x;
      assert C.ConditionKeys(conditions)[i] == C.ConditionKeys(conditions)[j];
    }
  }

  class Config {
    var entries: map<string, C.Entry>
    var log: seq<C.Updated>

    function Value(): C.Table
      reads this
    {
      C.Table(entries, log)
    }

    constructor ()
      ensures Value() == C.Table(map[], [])
    {
      entries, log := map[], [];
    }

    method AppendConfigEvent(key: string, revision: int, now: int)
      modifies `log
      ensures log == old(log) + [C.Updated(key, revision, now)]
    {
      log := log + [C.Updated(key, revision, now)];
    }

    method ApplyConfigMutations(puts: seq<C.Put>, deletes: seq<string>, now: int) returns (r: Result<(), C.Error>)
      modifies this
      ensures (Value(), r) == C.ApplyMutations(old(Value()), puts, deletes, now)
    {
      hide C.ValidMutations;
      var valid := ValidateMutations(puts, deletes);
      if !valid {
        return Err(C.InvalidInput);
      }
      ghost var start := Value();
      for i := 0 to |puts|
        invariant Value() == C.WriteAll(start, puts[..i], now)
      {
        assert puts[..i + 1][..i] == puts[..i];
        var p := puts[i];
        var revision := if p.key in entries then entries[p.key].revision + 1 else 1;
        entries := entries[p.key := C.Entry(p.value, revision, now)];
        AppendConfigEvent(p.key, revision, now);
      }
      assert puts[..|puts|] == puts;
      ghost var written := Value();
      for i := 0 to |deletes|
        invariant Value() == C.RemoveAll(written, deletes[..i], now)
      {
        assert deletes[..i + 1][..i] == deletes[..i];
        var key := deletes[i];
        var revision := if key in entries then entries[key].revision + 1 else 1;
        entries := entries - {key};
        AppendConfigEvent(key, revision, now);
      }
      assert deletes[..|deletes|] == deletes;
      return Ok(());
    }

    method FindConflicts(conditions: seq<C.Condition>) returns (conflicts: seq<C.Conflict>)
      ensures conflicts == C.Conflicts(Value(), conditions)
    {
      conflicts := [];
      for i := 0 to |conditions|
        invariant conflicts == C.Conflicts(Value(), conditions[..i])
      {
        assert conditions[..i + 1][..i] == conditions[..i];
        var c := conditions[i];
        var current := C.Read(Value(), c.key);
        if C.RevisionOf(Value(), c.key) != c.expected {
          conflicts := conflicts + [C.Conflict(c.key, c.expected, current)];
        }
      }
      assert conditions[..|conditions|] == conditions;
    }

    /** Applies the puts; on an error the caller rolls the transaction back. */
    method PutRows(conditions: seq<C.Condition>, puts: seq<C.Put>, now: int) returns (r: Result<seq<C.Row>, C.Error>)
      modifies this
      ensures var spec := C.PutRows(old(Value()), conditions, puts, now);
              if r.Ok? then spec == Ok((Value(), r.value)) else spec == Err(r.error)
    {
      hide C.Expectation;
      ghost var start := Value();
      var rows: seq<C.Row> := [];
      for i := 0 to |puts|
        invariant C.PutRows(start, conditions, puts[..i], now) == Ok((Value(), rows))
      {
        assert puts[..i + 1][..i] == puts[..i];
        var p := puts[i];
        var expected := C.Expectation(conditions, p.key);
        if expected.None? {
          PutRowsStop(start, conditions, puts, now, i);
          return Err(C.MissingCondition);
        }
        var changed :=
          if expected.value.None? then p.key !in entries
          else p.key in entries && entries[p.key].revision == expected.value.value;
        if !changed {
          PutRowsStop(start, conditions, puts, now, i);
          return Err(C.NotExactlyOneRow);
        }
        var revision := if p.key in entries then entries[p.key].revision + 1 else 1;
        entries := entries[p.key := C.Entry(p.value, revision, now)];
        AppendConfigEvent(p.key, revision, now);
        rows := rows + [C.Row(p.key, entries[p.key])];
      }
      assert puts[..|puts|] == puts;
      return Ok(rows);
    }

    method DeleteRows(conditions: seq<C.Condition>, deletes: seq<string>, now: int) returns (r: Result<(), C.Error>)
      modifies this
      ensures var spec := C.DeleteRows(old(Value()), conditions, deletes, now);
              if r.Ok? then spec == Ok(Value()) else spec == Err(r.error)
    {
      hide C.Expectation;
      ghost var start := Value();
      for i := 0 to |deletes|
        invariant C.DeleteRows(start, conditions, deletes[..i], now) == Ok(Value())
      {
        assert deletes[..i + 1][..i] == deletes[..i];
        var key := deletes[i];
        var expected := C.Expectation(conditions, key);
        if expected.None? {
          DeleteRowsStop(start, conditions, deletes, now, i);
          return Err(C.MissingCondition);
        }
        if expected.value.None? {
          DeleteRowsStop(start, conditions, deletes, now, i);
          return Err(C.MissingExpectation);
        }
        if !(key in entries && entries[key].revision == expected.value.value) {
          DeleteRowsStop(start, conditions, deletes, now, i);
          return Err(C.NotExactlyOneRow);
        }
        entries := entries - {key};
        AppendConfigEvent(key, expected.value.value + 1, now);
      }
      assert deletes[..|deletes|] == deletes;
      return Ok(());
    }

    method CompareAndApplyConfigMutations(conditions: seq<C.Condition>, puts: seq<C.Put>, deletes: seq<string>,
                                          now: int)
      returns (r: Result<C.Applied, C.Error>)
      modifies this
      ensures (Value(), r) == C.CompareAndApply(old(Value()), conditions, puts, deletes, now)
    {
      hide C.ValidConditional, C.Conflicts, C.PutRows, C.DeleteRows;
      var valid := ValidateConditional(conditions, puts, deletes);
      if !valid {
        return Err(C.InvalidInput);
      }
      var savedEntries, savedLog := entries, log;
      var conflicts := FindConflicts(conditions);
      if conflicts != [] {
        return Ok(C.Conflicted(conflicts));
      }
      var put := PutRows(conditions, puts, now);
      if put.Err? {
        entries, log := savedEntries, savedLog;
        return Err(put.error);
      }
      var deleted := DeleteRows(conditions, deletes, now);
      if deleted.Err? {
        entries, log := savedEntries, savedLog;
        return Err(deleted.error);
      }
      return Ok(C.Applied(put.value));
    }
  }

  // The first failing row decides the outcome of the whole loop.
  lemma {:induction false} PutRowsStop(t: C.Table, conditions: seq<C.Condition>, puts: seq<C.Put>, now: int, i: nat)
    requires i < |puts| && C.PutRows(t, conditions, puts[..i + 1], now).Err?
    ensures C.PutRows(t, conditions, puts, now) == C.PutRows(t, conditions, puts[..i + 1], now)
    decreases |puts|
  {
    if i + 1 == |puts| {
      assert puts[..i + 1] == puts;
    } else {
      var n := |puts| - 1;
      assert puts[..n][..i + 1] == puts[..i + 1];
      PutRowsStop(t, conditions, puts[..n], now, i);
    }
  }

  lemma {:induction false} DeleteRowsStop(t: C.Table, conditions: seq<C.Condition>, deletes: seq<string>, now: int,
                                          i: nat)
    requires i < |deletes| && C.DeleteRows(t, conditions, deletes[..i + 1], now).Err?
    ensures C.DeleteRows(t, conditions, deletes, now) == C.DeleteRows(t, conditions, deletes[..i + 1], now)
    decreases |deletes|
  {
    if i + 1 == |deletes| {
      assert deletes[..i + 1] == deletes;
    } else {
      var n := |deletes| - 1;
      assert deletes[..n][..i + 1] == deletes[..i + 1];
      DeleteRowsStop(t, conditions, deletes[..n], now, i);
    }
  }
}
