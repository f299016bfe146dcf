/** Atomicity of conditional mutations, lost updates, and listings while writers run. */
module ConfigTheorems {
  import opened Common
  import opened Ordering
  import opened KeysetWalk
  import opened ConfigLedger

  function NextRevision(t: Table, key: string): int {
    if key in t.entries then t.entries[key].revision + 1 else 1
  }

  function PutEvents(t: Table, puts: seq<Put>, now: int): (r: seq<Updated>)
    ensures |r| == |puts|
    ensures forall i :: 0 <= i < |r| ==> r[i] == Updated(puts[i].key, NextRevision(t, puts[i].key), now)
  {
    seq(|puts|, i requires 0 <= i < |puts| => Updated(puts[i].key, NextRevision(t, puts[i].key), now))
  }

  function DeleteEvents(t: Table, deletes: seq<string>, now: int): (r: seq<Updated>)
    ensures |r| == |deletes|
    ensures forall i :: 0 <= i < |r| ==> r[i] == Updated(deletes[i], NextRevision(t, deletes[i]), now)
  {
    seq(|deletes|, i requires 0 <= i < |deletes| => Updated(deletes[i], NextRevision(t, deletes[i]), now))
  }

  ghost predicate Puts(puts: seq<Put>, key: string) {
    exists i :: 0 <= i < |puts| && puts[i].key == key
  }

  ghost predicate PutKeysDistinct(puts: seq<Put>) {
    forall i, j :: 0 <= i < j < |puts| ==> puts[i].key != puts[j].key
  }

  // ----- what the mutation loops do -----

  lemma {:induction false} WriteElsewhere(t: Table, puts: seq<Put>, now: int, key: string)
    requires !Puts(puts, key)
    ensures Read(WriteAll(t, puts, now), key) == Read(t, key)
    decreases |puts|
  {
    if |puts| > 0 {
      var n := |puts| - 1;
      assert puts[n].key != key;
      assert !Puts(puts[..n], key) by {
        assert forall i :: 0 <= i < n ==> puts[..n][i] == puts[i];
      }
      WriteElsewhere(t, puts[..n], now, key);
    }
  }

  lemma {:induction false} WriteAt(t: Table, puts: seq<Put>, now: int, i: nat)
    requires PutKeysDistinct(puts) && i < |puts|
    ensures Read(WriteAll(t, puts, now), puts[i].key)
         == Some(Row(puts[i].key, Entry(puts[i].value, NextRevision(t, puts[i].key), now)))
    decreases |puts|
  {
    var n := |puts| - 1;
    if i < n {
      WriteAt(t, puts[..n], now, i);
      assert puts[..n][i] == puts[i] && puts[n].key != puts[i].key;
    } else {
      assert !Puts(puts[..n], puts[n].key) by {
        assert forall j :: 0 <= j < n ==> puts[..n][j] == puts[j];
      }
      WriteElsewhere(t, puts[..n], now, puts[n].key);
    }
  }

  lemma {:induction false} WriteLog(t: Table, puts: seq<Put>, now: int)
    requires PutKeysDistinct(puts)
    ensures WriteAll(t, puts, now).log == t.log + PutEvents(t, puts, now)
    decreases |puts|
  {
    if |puts| > 0 {
      var n := |puts| - 1;
      WriteLog(t, puts[..n], now);
      assert !Puts(puts[..n], puts[n].key) by {
        assert forall j :: 0 <= j < n ==> puts[..n][j] == puts[j];
      }
      WriteElsewhere(t, puts[..n], now, puts[n].key);
      assert PutEvents(t, puts, now)
          == PutEvents(t, puts[..n], now) + [Updated(puts[n].key, NextRevision(t, puts[n].key), now)];
    } else {
      assert PutEvents(t, puts, now) == [];
    }
  }

  lemma {:induction false} RemoveAt(t: Table, deletes: seq<string>, now: int, key: string)
    ensures Read(RemoveAll(t, deletes, now), key) == if key in deletes then None else Read(t, key)
    decreases |deletes|
  {
    if |deletes| > 0 {
      var n := |deletes| - 1;
      RemoveAt(t, deletes[..n], now, key);
      assert deletes == deletes[..n] + [deletes[n]];
    }
  }

  lemma {:induction false} RemoveLog(t: Table, deletes: seq<string>, now: int)
    requires Distinct(deletes)
    ensures RemoveAll(t, deletes, now).log == t.log + DeleteEvents(t, deletes, now)
    decreases |deletes|
  {
    if |deletes| > 0 {
      var n := |deletes| - 1;
      RemoveLog(t, deletes[..n], now);
      RemoveAt(t, deletes[..n], now, deletes[n]);
      assert deletes[n] !in deletes[..n];
      assert DeleteEvents(t, deletes, now)
          == DeleteEvents(t, deletes[..n], now) + [Updated(deletes[n], NextRevision(t, deletes[n]), now)];
    } else {
      assert DeleteEvents(t, deletes, now) == [];
    }
  }

  lemma {:induction false} ValidParts(puts: seq<Put>, deletes: seq<string>)
    requires ValidMutations(puts, deletes)
    ensures PutKeysDistinct(puts) && Distinct(deletes)
    ensures forall k :: k in deletes ==> !Puts(puts, k)
    ensures forall k :: Puts(puts, k) || k in deletes <==> k in MutatedKeys(puts, deletes)
  {
    var keys := MutatedKeys(puts, deletes);
    assert forall i :: 0 <= i < |puts| ==> keys[i] == puts[i].key;
    assert forall i :: 0 <= i < |deletes| ==> keys[|puts| + i] == deletes[i];
    forall i, j | 0 <= i < |deletes| && 0 <= j < |puts| ensures puts[j].key != deletes[i] {
      assert keys[j] != keys[|puts| + i];
    }
    forall k | k in keys ensures Puts(puts, k) || k in deletes {
      var i :| 0 <= i < |keys| && keys[i] == k;
      if i >= |puts| { assert deletes[i - |puts|] == k; }
    }
  }

  /** A key is not empty and has at most 512 bytes. */
  lemma {:induction false} KeyRules(key: string)
    ensures ValidKey(key) <==> key != "" && Utf8Length(key) <= 512
  {
  }

  /** One to 64 mutations of valid keys, no key put twice, deleted twice, or both put and deleted. */
  lemma {:induction false} MutationRules(puts: seq<Put>, deletes: seq<string>)
    ensures ValidMutations(puts, deletes) <==>
              && 1 <= |puts| + |deletes| <= 64
              && (forall i :: 0 <= i < |puts| ==> ValidKey(puts[i].key))
              && (forall i :: 0 <= i < |deletes| ==> ValidKey(deletes[i]))
              && (forall i, j :: 0 <= i < j < |puts| ==> puts[i].key != puts[j].key)
              && (forall i, j :: 0 <= i < j < |deletes| ==> deletes[i] != deletes[j])
              && (forall i, j :: 0 <= i < |puts| && 0 <= j < |deletes| ==> puts[i].key != deletes[j])
  {
    hide ValidKey;
    var keys := MutatedKeys(puts, deletes);
    assert forall i :: 0 <= i < |puts| ==> keys[i] == puts[i].key;
    assert forall i :: 0 <= i < |deletes| ==> keys[|puts| + i] == deletes[i];
    assert forall i :: |puts| <= i < |keys| ==> keys[i] == deletes[i - |puts|];
    if ValidMutations(puts, deletes) {
      ValidParts(puts, deletes);
      forall i, j | 0 <= i < |puts| && 0 <= j < |deletes| ensures puts[i].key != deletes[j] {
        assert keys[i] != keys[|puts| + j];
      }
    }
  }

  ghost predicate HasCondition(conditions: seq<Condition>, key: string) {
    exists i :: 0 <= i < |conditions| && conditions[i].key == key
  }

  ghost predicate ExpectsRow(conditions: seq<Condition>, key: string) {
    exists i :: 0 <= i < |conditions| && conditions[i].key == key && conditions[i].expected.Some?
  }

  lemma {:induction false} CoveredKeys(conditions: seq<Condition>, puts: seq<Put>, deletes: seq<string>)
    ensures (forall k :: k in MutatedKeys(puts, deletes) ==> k in ConditionKeys(conditions)) <==>
              && (forall i :: 0 <= i < |puts| ==> HasCondition(conditions, puts[i].key))
              && (forall i :: 0 <= i < |deletes| ==> HasCondition(conditions, deletes[i]))
  {
    hide HasCondition;
    var keys := MutatedKeys(puts, deletes);
    forall k ensures k in ConditionKeys(conditions) <==> HasCondition(conditions, k) { ConditionKey(conditions, k); }
    assert forall i :: 0 <= i < |puts| ==> keys[i] == puts[i].key && keys[i] in keys;
    assert forall i :: 0 <= i < |deletes| ==> keys[|puts| + i] == deletes[i] && keys[|puts| + i] in keys;
    assert forall i :: |puts| <= i < |keys| ==> keys[i] == deletes[i - |puts|];
  }

  lemma {:induction false} ConditionKey(conditions: seq<Condition>, key: string)
    ensures key in ConditionKeys(conditions) <==> HasCondition(conditions, key)
  {
    var keys := ConditionKeys(conditions);
    if key in keys {
      var i :| 0 <= i < |keys| && keys[i] == key;
      assert conditions[i].key == key;
    }
    if HasCondition(conditions, key) {
      var i :| 0 <= i < |conditions| && conditions[i].key == key;
      assert keys[i] == key;
    }
  }

  lemma {:induction false} ExpectedDeletes(conditions: seq<Condition>, deletes: seq<string>)
    requires Distinct(ConditionKeys(conditions))
    requires forall i :: 0 <= i < |deletes| ==> HasCondition(conditions, deletes[i])
    ensures (forall c :: c in conditions && c.key in deletes ==> c.expected.Some?) <==>
              forall i :: 0 <= i < |deletes| ==> ExpectsRow(conditions, deletes[i])
  {
    if forall c :: c in conditions && c.key in deletes ==> c.expected.Some? {
      forall i | 0 <= i < |deletes| ensures ExpectsRow(conditions, deletes[i]) {
        var j :| 0 <= j < |conditions| && conditions[j].key == deletes[i];
        assert conditions[j] in conditions;
      }
    }
    if forall i :: 0 <= i < |deletes| ==> ExpectsRow(conditions, deletes[i]) {
      forall c | c in conditions && c.key in deletes ensures c.expected.Some? {
        var i :| 0 <= i < |deletes| && deletes[i] == c.key;
        var j :| 0 <= j < |conditions| && conditions[j].key == deletes[i] && conditions[j].expected.Some?;
        var k :| 0 <= k < |conditions| && conditions[k] == c;
        assert ConditionKeys(conditions)[j] == ConditionKeys(conditions)[k];
      }
    }
  }

  /**
   A conditional call also needs one to 64 conditions on different valid keys with positive
   expected revisions, one for each key it changes, and for a deleted key not "absent".
   */
  lemma {:induction false} ConditionRules(conditions: seq<Condition>, puts: seq<Put>, deletes: seq<string>)
    ensures ValidConditional(conditions, puts, deletes) <==>
              && ValidMutations(puts, deletes) && 1 <= |conditions| <= 64
              && (forall i :: 0 <= i < |conditions| ==>
                    ValidKey(conditions[i].key) && (conditions[i].expected.Some? ==> conditions[i].expected.value > 0))
              && (forall i, j :: 0 <= i < j < |conditions| ==> conditions[i].key != conditions[j].key)
              && (forall i :: 0 <= i < |puts| ==> HasCondition(conditions, puts[i].key))
              && (forall i :: 0 <= i < |deletes| ==> ExpectsRow(conditions, deletes[i]))
  {
    hide ValidKey, ValidMutations, HasCondition, ExpectsRow, MutatedKeys;
    CoveredKeys(conditions, puts, deletes);
    assert forall i :: 0 <= i < |deletes| && ExpectsRow(conditions, deletes[i]) ==>
      HasCondition(conditions, deletes[i]) by {
      forall i | 0 <= i < |deletes| && ExpectsRow(conditions, deletes[i]) { ExpectsHas(conditions, deletes[i]); }
    }
    if Distinct(ConditionKeys(conditions)) && forall i :: 0 <= i < |deletes| ==> HasCondition(conditions, deletes[i]) {
      ExpectedDeletes(conditions, deletes);
    }
  }

  lemma {:induction false} ExpectsHas(conditions: seq<Condition>, key: string)
    requires ExpectsRow(conditions, key)
    ensures HasCondition(conditions, key)
  {
  }

  /** What an accepted set of mutations means for the table, the other keys and the log. */
  ghost predicate Performed(t: Table, t': Table, puts: seq<Put>, deletes: seq<string>, now: int) {
    && (forall k :: k in t'.entries <==> Puts(puts, k) || (k in t.entries && k !in deletes))
    && (forall i :: 0 <= i < |puts| ==>
          t'.entries[puts[i].key] == Entry(puts[i].value, NextRevision(t, puts[i].key), now))
    && (forall k :: k in t'.entries && !Puts(puts, k) ==> t'.entries[k] == t.entries[k])
    && t'.log == t.log + PutEvents(t, puts, now) + DeleteEvents(t, deletes, now)
  }

  lemma {:induction false} MutationsPerformed(t: Table, puts: seq<Put>, deletes: seq<string>, now: int)
    requires ValidMutations(puts, deletes)
    ensures Performed(t, RemoveAll(WriteAll(t, puts, now), deletes, now), puts, deletes, now)
  {
    hide ValidMutations, WriteAll, RemoveAll, Distinct, PutKeysDistinct, Puts;
    ValidParts(puts, deletes);
    var t' := RemoveAll(WriteAll(t, puts, now), deletes, now);
    forall i | 0 <= i < |puts| ensures Puts(puts, puts[i].key) { KeyIsPut(puts, i); }
    forall i | 0 <= i < |puts|
      ensures Read(t', puts[i].key) == Some(Row(puts[i].key, Entry(puts[i].value, NextRevision(t, puts[i].key), now)))
    {
      WriteAt(t, puts, now, i);
      RemoveAt(WriteAll(t, puts, now), deletes, now, puts[i].key);
    }
    forall k | !Puts(puts, k) ensures Read(t', k) == if k in deletes then None else Read(t, k) {
      WriteElsewhere(t, puts, now, k);
      RemoveAt(WriteAll(t, puts, now), deletes, now, k);
    }
    forall k ensures k in t'.entries <==> Puts(puts, k) || (k in t.entries && k !in deletes) {
      if Puts(puts, k) { var i := PutOf(puts, k); assert Read(t', puts[i].key).Some?; }
    }
    MutationsLogged(t, puts, deletes, now);
  }

  lemma {:induction false} KeyIsPut(puts: seq<Put>, i: nat)
    requires i < |puts|
    ensures Puts(puts, puts[i].key)
  {
  }

  lemma {:induction false} PutOf(puts: seq<Put>, key: string) returns (i: nat)
    requires Puts(puts, key)
    ensures i < |puts| && puts[i].key == key
  {
    i :| 0 <= i < |puts| && puts[i].key == key;
  }

  lemma {:induction false} MutationsLogged(t: Table, puts: seq<Put>, deletes: seq<string>, now: int)
    requires PutKeysDistinct(puts) && Distinct(deletes) && forall k :: k in deletes ==> !Puts(puts, k)
    ensures RemoveAll(WriteAll(t, puts, now), deletes, now).log
         == t.log + PutEvents(t, puts, now) + DeleteEvents(t, deletes, now)
  {
    hide WriteAll, RemoveAll, Distinct, PutKeysDistinct, Puts;
    var t1 := WriteAll(t, puts, now);
    WriteLog(t, puts, now);
    RemoveLog(t1, deletes, now);
    forall k | k in deletes ensures NextRevision(t1, k) == NextRevision(t, k) {
      WriteElsewhere(t, puts, now, k);
    }
    assert DeleteEvents(t1, deletes, now) == DeleteEvents(t, deletes, now);
  }

  /** An unconditional call is refused, and changes nothing, exactly when its mutations are not valid. */
  lemma {:induction false} ApplyDecides(t: Table, puts: seq<Put>, deletes: seq<string>, now: int)
    ensures var (t', r) := ApplyMutations(t, puts, deletes, now);
            if ValidMutations(puts, deletes) then r == Ok(()) && Performed(t, t', puts, deletes, now)
            else r == Err(InvalidInput) && t' == t
  {
    hide ValidMutations, WriteAll, RemoveAll, Performed;
    if ValidMutations(puts, deletes) { MutationsPerformed(t, puts, deletes, now); }
  }

  // ----- conditional mutations -----

  /** The reported conflicts are the violated conditions, with the current entry of each, each once. */
  lemma {:induction false} ConflictsExact(t: Table, conditions: seq<Condition>)
    ensures forall x :: x in Conflicts(t, conditions) <==>
              exists i :: 0 <= i < |conditions|
                && RevisionOf(t, conditions[i].key) != conditions[i].expected
                && x == Conflict(conditions[i].key, conditions[i].expected, Read(t, conditions[i].key))
    ensures Distinct(ConditionKeys(conditions)) ==> Distinct(ConflictKeys(Conflicts(t, conditions)))
    decreases |conditions|
  {
    if |conditions| > 0 {
      var n := |conditions| - 1;
      ConflictsExact(t, conditions[..n]);
      assert conditions == conditions[..n] + [conditions[n]];
      if Distinct(ConditionKeys(conditions)) {
        assert ConditionKeys(conditions)[..n] == ConditionKeys(conditions[..n]);
        var before, c := Conflicts(t, conditions[..n]), conditions[n];
        forall i | 0 <= i < |before| ensures before[i].key != c.key {
          assert before[i] in before;
          var k :| 0 <= k < n && before[i].key == conditions[..n][k].key;
          assert ConditionKeys(conditions)[k] != ConditionKeys(conditions)[n];
        }
      }
    }
  }

  function ConflictKeys(conflicts: seq<Conflict>): (r: seq<string>)
    ensures |r| == |conflicts| && forall i :: 0 <= i < |r| ==> r[i] == conflicts[i].key
  {
    seq(|conflicts|, i requires 0 <= i < |conflicts| => conflicts[i].key)
  }

  lemma {:induction false} NoConflictsMeansExpected(t: Table, conditions: seq<Condition>)
    ensures Conflicts(t, conditions) == [] <==>
              forall i :: 0 <= i < |conditions| ==> RevisionOf(t, conditions[i].key) == conditions[i].expected
    decreases |conditions|
  {
    if |conditions| > 0 {
      var n := |conditions| - 1;
      NoConflictsMeansExpected(t, conditions[..n]);
      assert conditions == conditions[..n] + [conditions[n]];
    }
  }

  ghost predicate ExpectedAt(t: Table, conditions: seq<Condition>, key: string) {
    Expectation(conditions, key) == Some(RevisionOf(t, key))
  }

  lemma {:induction false} Expectations(t: Table, conditions: seq<Condition>, key: string)
    requires Conflicts(t, conditions) == [] && key in ConditionKeys(conditions)
    ensures ExpectedAt(t, conditions, key)
  {
    NoConflictsMeansExpected(t, conditions);
    var e := Expectation(conditions, key);
    var i :| 0 <= i < |conditions| && conditions[i] == Condition(key, e.value);
    assert RevisionOf(t, conditions[i].key) == conditions[i].expected;
  }

  // One put whose expectation holds, after puts of other keys.
  lemma {:induction false} PutRowSucceeds(t: Table, t1: Table, conditions: seq<Condition>, p: Put, now: int)
    requires ExpectedAt(t, conditions, p.key) && Read(t1, p.key) == Read(t, p.key)
    ensures PutRow(t1, conditions, p, now) == Ok(Write(t1, p.key, p.value, now))
    ensures Read(Write(t1, p.key, p.value, now), p.key) == Some(Row(p.key, Entry(p.value, NextRevision(t, p.key), now)))
  {
    hide Expectation;
  }

  lemma {:induction false} PutRowsSucceeds(t: Table, conditions: seq<Condition>, puts: seq<Put>, now: int)
    requires PutKeysDistinct(puts)
    requires forall i :: 0 <= i < |puts| ==> ExpectedAt(t, conditions, puts[i].key)
    ensures var t' := WriteAll(t, puts, now);
            && PutRows(t, conditions, puts, now).Ok?
            && PutRows(t, conditions, puts, now).value.0 == t'
            && |PutRows(t, conditions, puts, now).value.1| == |puts|
            && forall i :: 0 <= i < |puts| ==>
                 PutRows(t, conditions, puts, now).value.1[i]
                 == Row(puts[i].key, Entry(puts[i].value, NextRevision(t, puts[i].key), now))
    decreases |puts|
  {
    hide ExpectedAt, PutRow, Write, NextRevision;
    if |puts| > 0 {
      var n := |puts| - 1;
      PutRowsSucceeds(t, conditions, puts[..n], now);
      assert !Puts(puts[..n], puts[n].key);
      WriteElsewhere(t, puts[..n], now, puts[n].key);
      PutRowSucceeds(t, WriteAll(t, puts[..n], now), conditions, puts[n], now);
    }
  }

  lemma {:induction false} DeleteRowsSucceeds(t: Table, conditions: seq<Condition>, deletes: seq<string>, now: int)
    requires Distinct(deletes)
    requires forall i :: 0 <= i < |deletes| ==> deletes[i] in t.entries && ExpectedAt(t, conditions, deletes[i])
    ensures DeleteRows(t, conditions, deletes, now) == Ok(RemoveAll(t, deletes, now))
    decreases |deletes|
  {
    hide Expectation;
    if |deletes| > 0 {
      var n := |deletes| - 1;
      DeleteRowsSucceeds(t, conditions, deletes[..n], now);
      RemoveAt(t, deletes[..n], now, deletes[n]);
      assert deletes[n] !in deletes[..n];
      assert ExpectedAt(t, conditions, deletes[n]);
    }
  }

  /**
   All or nothing. A conflicting call reports exactly the violated conditions and
   changes neither table nor log. Any other valid call performs every put and delete,
   leaves all other keys alone, and none of its internal error branches is taken.
   */
  lemma {:induction false} AllOrNothing(t: Table, conditions: seq<Condition>, puts: seq<Put>, deletes: seq<string>,
                                        now: int)
    requires ValidConditional(conditions, puts, deletes)
    ensures var (t', r) := CompareAndApply(t, conditions, puts, deletes, now);
            if exists i :: 0 <= i < |conditions| && RevisionOf(t, conditions[i].key) != conditions[i].expected then
              && t' == t
              && r.Ok? && r.value.Conflicted? && Distinct(ConflictKeys(r.value.conflicts))
              && forall x :: x in r.value.conflicts <==>
                   exists i :: 0 <= i < |conditions|
                     && RevisionOf(t, conditions[i].key) != conditions[i].expected
                     && x == Conflict(conditions[i].key, conditions[i].expected, Read(t, conditions[i].key))
            else
              && Performed(t, t', puts, deletes, now)
              && t' == ApplyMutations(t, puts, deletes, now).0
              && r.Ok? && r.value.Applied? && |r.value.rows| == |puts|
              && forall i :: 0 <= i < |puts| ==> r.value.rows[i] == Row(puts[i].key, t'.entries[puts[i].key])
  {
    hide Conflicts, PutRows, DeleteRows, ValidMutations, WriteAll, RemoveAll, Expectation;
    NoConflictsMeansExpected(t, conditions);
    if Conflicts(t, conditions) != [] {
      ConflictsExact(t, conditions);
    } else {
      UnconflictedApplies(t, conditions, puts, deletes, now);
    }
  }

  lemma {:induction false} UnconflictedApplies(t: Table, conditions: seq<Condition>, puts: seq<Put>,
                                               deletes: seq<string>, now: int)
    requires ValidConditional(conditions, puts, deletes) && Conflicts(t, conditions) == []
    ensures var t' := RemoveAll(WriteAll(t, puts, now), deletes, now);
            var (u, r) := CompareAndApply(t, conditions, puts, deletes, now);
            && u == t' && Performed(t, t', puts, deletes, now)
            && r.Ok? && r.value.Applied? && |r.value.rows| == |puts|
            && forall i :: 0 <= i < |puts| ==> r.value.rows[i] == Row(puts[i].key, t'.entries[puts[i].key])
  {
    hide Conflicts, PutRows, DeleteRows, ValidMutations, WriteAll, RemoveAll, Expectation;
    ValidParts(puts, deletes);
    MutationsPerformed(t, puts, deletes, now);
    forall i | 0 <= i < |puts| ensures ExpectedAt(t, conditions, puts[i].key) {
      assert Puts(puts, puts[i].key);
      Expectations(t, conditions, puts[i].key);
    }
    PutRowsSucceeds(t, conditions, puts, now);
    var t1 := WriteAll(t, puts, now);
    forall i | 0 <= i < |deletes| ensures deletes[i] in t1.entries && ExpectedAt(t1, conditions, deletes[i]) {
      assert deletes[i] in deletes;
      WriteElsewhere(t, puts, now, deletes[i]);
      Expectations(t, conditions, deletes[i]);
      var e := Expectation(conditions, deletes[i]);
      assert Condition(deletes[i], e.value) in conditions;
    }
    DeleteRowsSucceeds(t1, conditions, deletes, now);
  }

  // ----- lost updates -----

  ghost predicate Deletes(op: Op, key: string) {
    key in op.deletes
  }

  // Either nothing happens or a set of mutations is performed.
  lemma {:induction false} StepPerforms(t: Table, op: Op)
    ensures Step(t, op) == t || Performed(t, Step(t, op), op.puts, op.deletes, op.now)
  {
    match op
    case ApplyOp(puts, deletes, now) =>
      if ValidMutations(puts, deletes) { MutationsPerformed(t, puts, deletes, now); }
    case CompareOp(conditions, puts, deletes, now) =>
      if ValidConditional(conditions, puts, deletes) { AllOrNothing(t, conditions, puts, deletes, now); }
  }

  /** The key is there before and after every step, so nothing deletes it in between. */
  ghost predicate StaysPresent(t: Table, ops: seq<Op>, key: string)
    decreases |ops|
  {
    key in t.entries && (|ops| > 0 ==> StaysPresent(Step(t, ops[0]), ops[1..], key))
  }

  /** The step performs its mutations: it is valid and, if conditional, its conditions hold. */
  ghost predicate TakesEffect(t: Table, op: Op) {
    match op
    case ApplyOp(puts, deletes, _) => ValidMutations(puts, deletes)
    case CompareOp(conditions, puts, deletes, now) => Accepted(t, conditions, puts, deletes, now)
  }

  ghost predicate DeletedAlong(t: Table, ops: seq<Op>, key: string)
    decreases |ops|
  {
    |ops| > 0
    && ((TakesEffect(t, ops[0]) && Deletes(ops[0], key)) || DeletedAlong(Step(t, ops[0]), ops[1..], key))
  }

  lemma {:induction false} StepDeletes(t: Table, op: Op, key: string)
    requires key in t.entries
    ensures key !in Step(t, op).entries <==> TakesEffect(t, op) && Deletes(op, key)
  {
    hide WriteAll, RemoveAll, PutRows, DeleteRows, Conflicts, Expectation;
    match op
    case ApplyOp(puts, deletes, now) =>
      if ValidMutations(puts, deletes) {
        ValidParts(puts, deletes);
        MutationsPerformed(t, puts, deletes, now);
      }
    case CompareOp(conditions, puts, deletes, now) =>
      if ValidConditional(conditions, puts, deletes) {
        ValidParts(puts, deletes);
        AllOrNothing(t, conditions, puts, deletes, now);
      }
  }

  /** A key stays exactly when no step that takes effect deletes it. */
  lemma {:induction false} StaysIffNotDeleted(t: Table, ops: seq<Op>, key: string)
    requires key in t.entries
    ensures StaysPresent(t, ops, key) <==> !DeletedAlong(t, ops, key)
    decreases |ops|
  {
    hide Step, TakesEffect, Deletes;
    if |ops| > 0 {
      StepDeletes(t, ops[0], key);
      if key in Step(t, ops[0]).entries {
        StaysIffNotDeleted(Step(t, ops[0]), ops[1..], key);
      }
    }
  }

  lemma {:induction false} UndeletedStays(t: Table, ops: seq<Op>, key: string)
    requires key in t.entries && forall i :: 0 <= i < |ops| ==> !Deletes(ops[i], key)
    ensures StaysPresent(t, ops, key)
    decreases |ops|
  {
    hide Step, TakesEffect;
    if |ops| > 0 {
      StepDeletes(t, ops[0], key);
      assert !Deletes(ops[0], key);
      UndeletedStays(Step(t, ops[0]), ops[1..], key);
    }
  }

  /** While a key stays, its entry is either untouched or has moved to a later revision. */
  lemma {:induction false} RevisionsAdvance(t: Table, ops: seq<Op>, key: string)
    requires StaysPresent(t, ops, key)
    ensures var t' := Run(t, ops);
            && key in t'.entries
            && (t'.entries[key] == t.entries[key] || t'.entries[key].revision > t.entries[key].revision)
    decreases |ops|
  {
    hide Step;
    if |ops| > 0 {
      var t1 := Step(t, ops[0]);
      StepPerforms(t, ops[0]);
      if t1 != t && Puts(ops[0].puts, key) {
        var i :| 0 <= i < |ops[0].puts| && ops[0].puts[i].key == key;
        assert t1.entries[ops[0].puts[i].key].revision == NextRevision(t, key);
      }
      RevisionsAdvance(t1, ops[1..], key);
    }
  }

  ghost predicate Accepted(t: Table, conditions: seq<Condition>, puts: seq<Put>, deletes: seq<string>, now: int) {
    var r := CompareAndApply(t, conditions, puts, deletes, now).1;
    r.Ok? && r.value.Applied?
  }

  /**
   No lost update: a client read `key`; later, after any run that does not delete it,
   its compare-and-apply expecting the revision it read is applied. Then the entry
   just before that call is the entry the client read.
   */
  lemma {:induction false} NoLostUpdate(t: Table, ops: seq<Op>, key: string, conditions: seq<Condition>,
                                        puts: seq<Put>, deletes: seq<string>, now: int)
    requires StaysPresent(t, ops, key)
    requires Condition(key, Some(t.entries[key].revision)) in conditions
    requires Accepted(Run(t, ops), conditions, puts, deletes, now)
    ensures Read(Run(t, ops), key) == Read(t, key)
  {
    hide Run, PutRows, DeleteRows, ValidConditional, Conflicts;
    RevisionsAdvance(t, ops, key);
    NoConflictsMeansExpected(Run(t, ops), conditions);
    var i :| 0 <= i < |conditions| && conditions[i] == Condition(key, Some(t.entries[key].revision));
    assert RevisionOf(Run(t, ops), conditions[i].key) == conditions[i].expected;
  }

  ghost predicate Later(ops: seq<Op>, at: int) {
    forall i :: 0 <= i < |ops| ==> ops[i].now > at
  }

  /** The key is absent or was written after `at`. */
  ghost predicate NewerOrAbsent(t: Table, key: string, at: int) {
    key in t.entries ==> t.entries[key].updatedAt > at
  }

  lemma {:induction false} StepNewer(t: Table, op: Op, key: string, at: int)
    requires NewerOrAbsent(t, key, at) && op.now > at
    ensures NewerOrAbsent(Step(t, op), key, at)
  {
    hide Step;
    StepPerforms(t, op);
    if Step(t, op) != t && Puts(op.puts, key) {
      var i := PutOf(op.puts, key);
      assert Step(t, op).entries[op.puts[i].key].updatedAt == op.now;
    }
  }

  lemma {:induction false} RunNewer(t: Table, ops: seq<Op>, key: string, at: int)
    requires NewerOrAbsent(t, key, at) && Later(ops, at)
    ensures NewerOrAbsent(Run(t, ops), key, at)
    decreases |ops|
  {
    hide Step, NewerOrAbsent;
    if |ops| > 0 {
      StepNewer(t, ops[0], key, at);
      RunNewer(Step(t, ops[0]), ops[1..], key, at);
    }
  }

  // A key that was once absent is absent or newer ever after.
  lemma {:induction false} AbsentThenNewer(t: Table, ops: seq<Op>, key: string, at: int)
    requires !StaysPresent(t, ops, key) && Later(ops, at)
    ensures NewerOrAbsent(Run(t, ops), key, at)
    decreases |ops|
  {
    hide Step;
    if key !in t.entries {
      RunNewer(t, ops, key, at);
    } else {
      AbsentThenNewer(Step(t, ops[0]), ops[1..], key, at);
    }
  }

  /**
   Lost updates exactly: when later steps carry later times and the client's
   compare-and-apply expecting the revision it read is accepted, the entry just before is
   the one it read exactly when no step in between that took effect deleted the key.
   */
  lemma {:induction false} NoLostUpdateIff(t: Table, ops: seq<Op>, key: string, conditions: seq<Condition>,
                                           puts: seq<Put>, deletes: seq<string>, now: int)
    requires key in t.entries && Later(ops, t.entries[key].updatedAt)
    requires Condition(key, Some(t.entries[key].revision)) in conditions
    requires Accepted(Run(t, ops), conditions, puts, deletes, now)
    ensures Read(Run(t, ops), key) == Read(t, key) <==> !DeletedAlong(t, ops, key)
  {
    hide Run, Accepted, StaysPresent, DeletedAlong, Later;
    StaysIffNotDeleted(t, ops, key);
    if StaysPresent(t, ops, key) {
      NoLostUpdate(t, ops, key, conditions, puts, deletes, now);
    } else {
      AbsentThenNewer(t, ops, key, t.entries[key].updatedAt);
    }
  }

  /** In particular nothing is lost when no request in between names the key for deletion. */
  lemma {:induction false} NoLostUpdateUndeleted(t: Table, ops: seq<Op>, key: string, conditions: seq<Condition>,
                                                 puts: seq<Put>, deletes: seq<string>, now: int)
    requires key in t.entries && forall i :: 0 <= i < |ops| ==> !Deletes(ops[i], key)
    requires Condition(key, Some(t.entries[key].revision)) in conditions
    requires Accepted(Run(t, ops), conditions, puts, deletes, now)
    ensures Read(Run(t, ops), key) == Read(t, key)
  {
    hide Run, Accepted, StaysPresent, Deletes;
    UndeletedStays(t, ops, key);
    NoLostUpdate(t, ops, key, conditions, puts, deletes, now);
  }

  const NO_ENTRIES := Table(map[], [])

  /**
   Deleting restarts revisions at 1: with a delete in between, a client that read a key
   can have its compare-and-apply accepted although the entry is not the one it read.
   */
  lemma {:induction false} DeleteDefeatsRevisions()
    ensures exists before, ops, key, puts ::
              var t := Run(NO_ENTRIES, before);
              var t' := Run(t, ops);
              && key in t.entries && !StaysPresent(t, ops, key)
              && Accepted(t', [Condition(key, RevisionOf(t, key))], puts, [], 3)
              && Read(t', key) != Read(t, key)
  {
    hide Run, Accepted;
    var before, ops := RestartedRun();
    var t' := Run(Run(NO_ENTRIES, before), ops);
    RestartedAccepted(t');
    assert Accepted(t', [Condition("k", RevisionOf(Run(NO_ENTRIES, before), "k"))], [Put("k", "newer")], [], 3);
  }

  lemma {:induction false} RestartedRun() returns (before: seq<Op>, ops: seq<Op>)
    ensures Run(NO_ENTRIES, before).entries == map["k" := Entry("old", 1, 0)]
    ensures !StaysPresent(Run(NO_ENTRIES, before), ops, "k")
    ensures Run(Run(NO_ENTRIES, before), ops).entries == map["k" := Entry("new", 1, 2)]
  {
    hide ValidMutations;
    before := [ApplyOp([Put("k", "old")], [], 0)];
    ops := [ApplyOp([], ["k"], 1), ApplyOp([Put("k", "new")], [], 2)];
    SingleKeyValid();
    var t := Table(map["k" := Entry("old", 1, 0)], [Updated("k", 1, 0)]);
    assert WriteAll(NO_ENTRIES, [Put("k", "old")], 0) == t by { assert [Put("k", "old")][..0] == []; }
    assert Step(NO_ENTRIES, before[0]) == t;
    assert before[1..] == [] && Run(NO_ENTRIES, before) == t;
    var t1 := Table(map[], t.log + [Updated("k", 2, 1)]);
    assert RemoveAll(t, ["k"], 1) == t1 by { assert ["k"][..0] == []; assert t.entries - {"k"} == map[]; }
    assert Step(t, ops[0]) == t1;
    var t2 := Table(map["k" := Entry("new", 1, 2)], t1.log + [Updated("k", 1, 2)]);
    assert WriteAll(t1, [Put("k", "new")], 2) == t2 by { assert [Put("k", "new")][..0] == []; }
    assert Step(t1, ops[1]) == t2;
    assert ops[1..] == [ops[1]] && ops[1..][1..] == [];
    assert Run(t1, [ops[1]]) == Run(t2, []) == t2;
  }

  lemma {:induction false} RestartedAccepted(t: Table)
    requires t.entries == map["k" := Entry("new", 1, 2)]
    ensures Accepted(t, [Condition("k", Some(1))], [Put("k", "newer")], [], 3)
  {
    hide ValidMutations, Conflicts, CompareAndApply;
    SingleKeyValid();
    var conditions := [Condition("k", Some(1))];
    NoConflictsMeansExpected(t, conditions);
    assert ConditionKeys(conditions) == ["k"] && MutatedKeys([Put("k", "newer")], []) == ["k"];
    UnconflictedApplies(t, conditions, [Put("k", "newer")], [], 3);
  }

  lemma {:induction false} SingleKeyValid()
    ensures ValidKey("k") && ValidMutations([], ["k"]) && forall value :: ValidMutations([Put("k", value)], [])
  {
    assert Utf8Length("k") == 1 by { assert "k"[1..] == ""; }
    assert MutatedKeys([], ["k"]) == ["k"];
    forall value ensures ValidMutations([Put("k", value)], []) {
      assert MutatedKeys([Put("k", value)], []) == ["k"];
    }
  }

  // ----- listings -----

  ghost predicate KeysValid(t: Table) {
    forall k :: k in t.entries ==> ValidKey(k)
  }

  lemma {:induction false} StepKeepsKeysValid(t: Table, op: Op)
    requires KeysValid(t)
    ensures KeysValid(Step(t, op))
  {
    hide Utf8Length, WriteAll, RemoveAll, PutRows, DeleteRows, Conflicts;
    StepPerforms(t, op);
    if Step(t, op) != t {
      assert ValidMutations(op.puts, op.deletes);
      var keys := MutatedKeys(op.puts, op.deletes);
      forall k | k in Step(t, op).entries ensures ValidKey(k) {
        if Puts(op.puts, k) {
          var i :| 0 <= i < |op.puts| && op.puts[i].key == k;
          assert ValidKey(keys[i]);
        }
      }
    }
  }

  lemma {:induction false} RunKeepsKeysValid(t: Table, ops: seq<Op>)
    requires KeysValid(t)
    ensures KeysValid(Run(t, ops))
    decreases |ops|
  {
    hide KeysValid, Step;
    if |ops| > 0 {
      StepKeepsKeysValid(t, ops[0]);
      RunKeepsKeysValid(Step(t, ops[0]), ops[1..]);
    }
  }

  /** The table at each page of a walk, `batches[i]` being what ran since the page before. */
  function Snapshots(t: Table, batches: seq<seq<Op>>): (r: seq<Table>)
    ensures |r| == |batches|
    decreases |batches|
  {
    if |batches| == 0 then []
    else
      var now := Run(t, batches[0]);
      [now] + Snapshots(now, batches[1..])
  }

  lemma {:induction false} SnapshotsValid(t: Table, batches: seq<seq<Op>>)
    requires KeysValid(t)
    ensures forall i :: 0 <= i < |batches| ==> KeysValid(Snapshots(t, batches)[i])
    decreases |batches|
  {
    hide KeysValid, Run;
    if |batches| > 0 {
      RunKeepsKeysValid(t, batches[0]);
      SnapshotsValid(Run(t, batches[0]), batches[1..]);
    }
  }

  /**
   One listing: refused exactly for a malformed prefix, cursor or limit. Otherwise its rows
   are what reading their keys gives; the keys are the matching ones above the cursor, in
   order, the least ones up to the limit.
   */
  lemma {:induction false} ListMeaning(t: Table, prefix: string, after: Option<string>, limit: Option<nat>)
    ensures StrictOrder(TextLess)
    ensures var size := if limit.Some? then limit.value else 100;
            var r := List(t, prefix, after, limit);
            && (r.Err? <==> !ValidKey(prefix) || (after.Some? && !(ValidKey(after.value) && prefix <= after.value))
                            || !(1 <= size <= 200))
            && (r.Ok? ==> ListsRows(t, prefix, after, size, r.value))
  {
    hide Query, TextLess, StrictOrder, ValidKey;
    TextOrder();
    var size := limit.GetOr(100);
    if List(t, prefix, after, limit).Ok? {
      ListedRows(t, prefix, after, size, List(t, prefix, after, limit).value);
    }
  }

  ghost predicate ListsRows(t: Table, prefix: string, after: Option<string>, size: nat, rows: seq<Row>) {
    && |rows| <= size
    && (forall i :: 0 <= i < |rows| ==>
          Read(t, rows[i].key) == Some(rows[i]) && Listable(t, prefix, after, rows[i].key))
    && (forall i, j :: 0 <= i < j < |rows| ==> TextLess(rows[i].key, rows[j].key))
    && (forall k :: Listable(t, prefix, after, k) ==>
          || (exists i :: 0 <= i < |rows| && rows[i].key == k)
          || (|rows| == size && forall i :: 0 <= i < |rows| ==> TextLess(rows[i].key, k)))
  }

  /** A stored key that starts with the prefix and comes after the cursor. */
  predicate Listable(t: Table, prefix: string, after: Option<string>, k: string) {
    k in t.entries && prefix <= k && (after.Some? ==> TextLess(after.value, k))
  }

  lemma {:induction false} ListedRows(t: Table, prefix: string, after: Option<string>, size: nat, rows: seq<Row>)
    requires StrictOrder(TextLess) && ValidKey(prefix) && 1 <= size <= 200
    requires after.Some? ==> ValidKey(after.value) && prefix <= after.value
    requires List(t, prefix, after, Some(size)) == Ok(rows)
    ensures ListsRows(t, prefix, after, size, rows)
  {
    hide TextLess, StrictOrder, ValidKey, Page;
    var keys := set k | k in Matching(t, prefix) && Above(TextLess, after, k);
    var page := Page(TextLess, keys, size);
    assert Query(TextLess, Matching(t, prefix), after, size) == page;
    forall k | k in page ensures k in t.entries {
      assert k in Elements(page);
    }
    assert rows == RowsOf(t, page);
    assert forall i :: 0 <= i < |rows| ==> page[i] in page && page[i] in Elements(page);
    forall k | Listable(t, prefix, after, k) ensures
      || (exists i :: 0 <= i < |rows| && rows[i].key == k)
      || (|rows| == size && forall i :: 0 <= i < |rows| ==> TextLess(rows[i].key, k))
    {
      assert k in keys;
      if k in page {
        var i :| 0 <= i < |page| && page[i] == k;
        assert rows[i].key == k;
      } else {
        assert k !in Elements(page);
      }
    }
  }

  /** A client that lists page after page, each time from the last key it received. */
  function ListAll(tables: seq<Table>, prefix: string, after: Option<string>, limits: seq<nat>): Result<seq<Row>, Error>
    requires |tables| == |limits|
    decreases |tables|
  {
    if |tables| == 0 then Ok([])
    else
      match List(tables[0], prefix, after, Some(limits[0]))
      case Err(e) => Err(e)
      case Ok(rows) =>
        var next := if |rows| == 0 then after else Some(rows[|rows| - 1].key);
        match ListAll(tables[1..], prefix, next, limits[1..])
        case Err(e) => Err(e)
        case Ok(more) => Ok(rows + more)
  }

  function Keys(rows: seq<Row>): (r: seq<string>)
    ensures |r| == |rows| && forall i :: 0 <= i < |r| ==> r[i] == rows[i].key
  {
    seq(|rows|, i requires 0 <= i < |rows| => rows[i].key)
  }

  function Views(tables: seq<Table>, prefix: string): (r: seq<set<string>>)
    ensures |r| == |tables| && forall i :: 0 <= i < |r| ==> r[i] == Matching(tables[i], prefix)
  {
    seq(|tables|, i requires 0 <= i < |tables| => Matching(tables[i], prefix))
  }

  ghost predicate ValidWalk(tables: seq<Table>, prefix: string, limits: seq<nat>) {
    && |tables| == |limits| && ValidKey(prefix)
    && (forall i :: 0 <= i < |limits| ==> 1 <= limits[i] <= MAX_CONFIG_LIST_LIMIT)
    && (forall i :: 0 <= i < |tables| ==> KeysValid(tables[i]))
  }

  ghost predicate ValidCursor(prefix: string, after: Option<string>) {
    after.Some? ==> ValidKey(after.value) && StartsWith(after.value, prefix)
  }

  // One page: the keys of a keyset query, the last of which is a valid cursor.
  lemma {:induction false} PageListed(t: Table, prefix: string, after: Option<string>, limit: nat)
    requires KeysValid(t) && ValidKey(prefix) && ValidCursor(prefix, after) && 1 <= limit <= MAX_CONFIG_LIST_LIMIT
    requires StrictOrder(TextLess)
    ensures var page := Query(TextLess, Matching(t, prefix), after, limit);
            && List(t, prefix, after, Some(limit)).Ok?
            && Keys(List(t, prefix, after, Some(limit)).value) == page
            && ValidCursor(prefix, Next(after, page))
  {
    hide Query, TextLess, StrictOrder, ValidKey;
    var page := Query(TextLess, Matching(t, prefix), after, limit);
    QueryAbove(TextLess, Matching(t, prefix), after, limit);
    assert |page| > 0 ==> page[|page| - 1] in page;
  }

  lemma {:induction false} KeysConcat(a: seq<Row>, b: seq<Row>)
    ensures Keys(a + b) == Keys(a) + Keys(b)
  {
  }

  lemma {:induction false} ListAllIsWalk(tables: seq<Table>, prefix: string, after: Option<string>, limits: seq<nat>)
    requires ValidWalk(tables, prefix, limits) && StrictOrder(TextLess) && ValidCursor(prefix, after)
    ensures ListAll(tables, prefix, after, limits).Ok?
    ensures Keys(ListAll(tables, prefix, after, limits).value) == Walk(TextLess, after, Views(tables, prefix), limits)
    decreases |tables|
  {
    hide Query, TextLess, StrictOrder, ValidKey, KeysValid, ValidCursor, List, Matching;
    if |tables| > 0 {
      PageListed(tables[0], prefix, after, limits[0]);
      var rows := List(tables[0], prefix, after, Some(limits[0])).value;
      var next := Next(after, Keys(rows));
      ListAllIsWalk(tables[1..], prefix, next, limits[1..]);
      KeysConcat(rows, ListAll(tables[1..], prefix, next, limits[1..]).value);
      assert Views(tables, prefix)[1..] == Views(tables[1..], prefix);
    }
  }

  ghost predicate FromItsPage(tables: seq<Table>, prefix: string, after: Option<string>, limits: seq<nat>, row: Row)
    requires |tables| == |limits| && StrictOrder(TextLess)
  {
    exists i :: 0 <= i < |tables| && row.key in PageAt(TextLess, after, Views(tables, prefix), limits, i)
                && Read(tables[i], row.key) == Some(row)
  }

  /** Every row received is the entry its key had in the table when its page was read. */
  lemma {:induction false} RowsFromPages(tables: seq<Table>, prefix: string, after: Option<string>, limits: seq<nat>)
    requires ValidWalk(tables, prefix, limits) && StrictOrder(TextLess) && ValidCursor(prefix, after)
    ensures ListAll(tables, prefix, after, limits).Ok?
    ensures forall row :: row in ListAll(tables, prefix, after, limits).value ==>
              FromItsPage(tables, prefix, after, limits, row)
    decreases |tables|
  {
    hide Query, TextLess, StrictOrder, ValidKey, KeysValid, ValidCursor, List, Matching, FromItsPage;
    if |tables| > 0 {
      PageListed(tables[0], prefix, after, limits[0]);
      var rows := List(tables[0], prefix, after, Some(limits[0])).value;
      var next := Next(after, Keys(rows));
      RowsFromPages(tables[1..], prefix, next, limits[1..]);
      var more := ListAll(tables[1..], prefix, next, limits[1..]).value;
      forall row | row in rows + more ensures FromItsPage(tables, prefix, after, limits, row) {
        if row in rows {
          FirstPageRow(tables, prefix, after, limits, row);
        } else {
          LaterPageRow(tables, prefix, after, next, limits, row);
        }
      }
    }
  }

  lemma {:induction false} FirstPageRow(tables: seq<Table>, prefix: string, after: Option<string>, limits: seq<nat>,
                                        row: Row)
    requires ValidWalk(tables, prefix, limits) && StrictOrder(TextLess) && ValidCursor(prefix, after) && |tables| > 0
    requires List(tables[0], prefix, after, Some(limits[0])).Ok?
    requires row in List(tables[0], prefix, after, Some(limits[0])).value
    ensures FromItsPage(tables, prefix, after, limits, row)
  {
    hide Query, TextLess, StrictOrder, ValidKey, KeysValid, List, Listable;
    PageListed(tables[0], prefix, after, limits[0]);
    ListMeaning(tables[0], prefix, after, Some(limits[0]));
    var rows := List(tables[0], prefix, after, Some(limits[0])).value;
    var i :| 0 <= i < |rows| && rows[i] == row;
    assert Read(tables[0], row.key) == Some(row);
    assert Keys(rows)[i] in Keys(rows);
    assert row.key in PageAt(TextLess, after, Views(tables, prefix), limits, 0);
  }

  lemma {:induction false} LaterPageRow(tables: seq<Table>, prefix: string, after: Option<string>, next: Option<string>,
                                        limits: seq<nat>, row: Row)
    requires |tables| == |limits| && StrictOrder(TextLess) && |tables| > 0
    requires next == Next(after, Query(TextLess, Matching(tables[0], prefix), after, limits[0]))
    requires FromItsPage(tables[1..], prefix, next, limits[1..], row)
    ensures FromItsPage(tables, prefix, after, limits, row)
  {
    hide Query, TextLess, StrictOrder, Matching;
    var i :| 0 <= i < |tables| - 1 && row.key in PageAt(TextLess, next, Views(tables[1..], prefix), limits[1..], i)
             && Read(tables[1..][i], row.key) == Some(row);
    assert Views(tables, prefix)[1..] == Views(tables[1..], prefix);
    assert row.key in PageAt(TextLess, after, Views(tables, prefix), limits, i + 1);
    assert Read(tables[i + 1], row.key) == Some(row);
  }

  /**
   Listing while writers run: no call of the walk is refused, the keys received are
   strictly increasing, each was in the table when its page was read, and once a page
   comes back short every matching key that was there throughout was received exactly
   once.
   */
  lemma {:induction false} ConfigWalk(tables: seq<Table>, prefix: string, limits: seq<nat>)
    requires ValidWalk(tables, prefix, limits)
    ensures StrictOrder(TextLess)
    ensures var r := ListAll(tables, prefix, None, limits);
            && r.Ok?
            && Increasing(TextLess, Keys(r.value))
            && (forall row :: row in r.value ==> FromItsPage(tables, prefix, None, limits, row))
            && (forall k :: k in Keys(r.value) ==>
                  exists i :: 0 <= i < |tables| && k in Matching(tables[i], prefix)
                              && k in PageAt(TextLess, None, Views(tables, prefix), limits, i))
            && (Finished(TextLess, None, Views(tables, prefix), limits) ==>
                  forall k :: (forall i :: 0 <= i < |tables| ==> k in Matching(tables[i], prefix)) ==>
                    multiset(Keys(r.value))[k] == 1)
  {
    hide Walk, TextLess, StrictOrder, Utf8Length, Finished, ListAll, PageAt, FromItsPage;
    TextOrder();
    var views := Views(tables, prefix);
    RowsFromPages(tables, prefix, None, limits);
    ListAllIsWalk(tables, prefix, None, limits);
    WalkIncreasing(TextLess, None, views, limits);
    forall k | k in Walk(TextLess, None, views, limits)
      ensures exists i :: 0 <= i < |tables| && k in Matching(tables[i], prefix)
                          && k in PageAt(TextLess, None, views, limits, i)
    {
      WalkSound(TextLess, None, views, limits, k);
      var i :| 0 <= i < |views| && k in PageAt(TextLess, None, views, limits, i) && k in views[i];
      assert k in Matching(tables[i], prefix);
    }
    if Finished(TextLess, None, views, limits) {
      forall k | (forall i :: 0 <= i < |tables| ==> k in Matching(tables[i], prefix))
        ensures multiset(Walk(TextLess, None, views, limits))[k] == 1
      {
        WalkExactlyOnce(TextLess, None, views, limits, k);
      }
    }
  }

  /** The same for the tables met along any run of the service, with writers between the pages. */
  lemma {:induction false} ConfigWalkAlongRun(batches: seq<seq<Op>>, prefix: string, limits: seq<nat>)
    requires |batches| == |limits| && ValidKey(prefix)
    requires forall i :: 0 <= i < |limits| ==> 1 <= limits[i] <= MAX_CONFIG_LIST_LIMIT
    ensures StrictOrder(TextLess)
    ensures var tables := Snapshots(NO_ENTRIES, batches);
            var r := ListAll(tables, prefix, None, limits);
            && r.Ok?
            && Increasing(TextLess, Keys(r.value))
            && (forall row :: row in r.value ==> FromItsPage(tables, prefix, None, limits, row))
            && (Finished(TextLess, None, Views(tables, prefix), limits) ==>
                  forall k :: (forall i :: 0 <= i < |tables| ==> k in Matching(tables[i], prefix)) ==>
                    multiset(Keys(r.value))[k] == 1)
  {
    hide Walk, TextLess, StrictOrder, Utf8Length, Finished, ListAll, Snapshots, KeysValid, FromItsPage;
    assert KeysValid(NO_ENTRIES) by { NoKeysValid(); }
    SnapshotsValid(NO_ENTRIES, batches);
    ConfigWalk(Snapshots(NO_ENTRIES, batches), prefix, limits);
  }

  lemma {:induction false} NoKeysValid()
    ensures KeysValid(NO_ENTRIES)
  {
  }
}
