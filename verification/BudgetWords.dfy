/**
 The budget arithmetic in 64-bit integers: which sums fit, and what the tests answer when
 one does not. A sum that does not fit wraps around.
 */
module BudgetWords {
  import opened Common
  import opened BudgetAmounts
  import opened BudgetLedger
  import opened BudgetInvariants
  import opened BudgetSolvency

  const I64_MAX: int := 0x7fff_ffff_ffff_ffff
  const WORD: int := 0x1_0000_0000_0000_0000

  predicate FitsI64(x: int) {
    -I64_MAX - 1 <= x <= I64_MAX
  }

  function Wrap(x: int): (r: int)
    ensures FitsI64(r) && (FitsI64(x) ==> r == x)
  {
    (x + I64_MAX + 1) % WORD - I64_MAX - 1
  }

  // ----- sums that fit -----

  /**
   In a dimension limited to L, with amounts of at most I64_MAX - L, every number the code
   computes fits: each prefix of the reserved sum, the consumption, the sum a reservation
   tests, and for each reserved grant each prefix of its usage sum, the sum a record tests
   and the usage after its commit.
   */
  lemma {:induction false} LimitedSumsFitI64(ops: seq<Op>, s: ScopeId, d: Dimension, amount: Amount)
    requires LimitsAlwaysCover(EMPTY, ops) && s in Run(EMPTY, ops).scopes && ValidAmount(amount)
    requires Run(EMPTY, ops).scopes[s].limit.At(d).Some?
    requires amount.Value(d) <= I64_MAX - Run(EMPTY, ops).scopes[s].limit.At(d).value
    ensures var l := Run(EMPTY, ops);
            && (forall k :: 0 <= k <= |l.grants| ==> FitsI64(Total(ReservedShares(l.grants, s)[..k]).Value(d)))
            && FitsI64(l.scopes[s].usage.Value(d))
            && FitsI64(Consumed(l, s).Value(d))
            && FitsI64(Consumed(l, s).Value(d) + amount.Value(d))
            && (forall i :: HeldBy(l.grants, s, i) ==> GrantSumsFit(l, l.grants[i], d, amount))
  {
    hide Run, Inv, Solvent, LimitsAlwaysCover, Consumed, UsageTotal, Total, ValidAmount;
    Reached(ops);
    var l := Run(EMPTY, ops);
    SumsBounded(l, s, d);
    forall i | HeldBy(l.grants, s, i) ensures GrantSumsFit(l, l.grants[i], d, amount) {
      CommitBounded(l, s, d, i);
      UsagePrefixes(l, l.grants[i].id, d);
    }
  }

  ghost predicate GrantSumsFit(l: Ledger, g: Grant, d: Dimension, amount: Amount) {
    && g.scope in l.scopes
    && (forall k :: 0 <= k <= |l.entries| ==> FitsI64(Total(UsageShares(l.entries, g.id)[..k]).Value(d)))
    && FitsI64(UsageTotal(l.entries, g.id).Value(d) + amount.Value(d))
    && FitsI64(l.scopes[g.scope].usage.Value(d) + UsageTotal(l.entries, g.id).Value(d))
  }

  lemma {:induction false} ReservedPrefixes(l: Ledger, s: ScopeId, d: Dimension)
    requires GrantsSound(l.scopes, l.entries, l.grants)
    ensures forall k :: 0 <= k <= |l.grants| ==>
              0 <= Total(ReservedShares(l.grants, s)[..k]).Value(d) <= ReservedTotal(l.grants, s).Value(d)
  {
    hide Total;
    var xs := ReservedShares(l.grants, s);
    forall j | 0 <= j < |l.grants| ensures ValidAmount(xs[j]) {
      assert GrantSound(l.scopes, l.entries, l.grants[j]);
    }
    forall k | 0 <= k <= |l.grants| ensures 0 <= Total(xs[..k]).Value(d) <= Total(xs).Value(d) {
      TotalPrefix(xs, k);
    }
  }

  lemma {:induction false} UsagePrefixes(l: Ledger, grant: string, d: Dimension)
    requires Inv(l)
    ensures forall k :: 0 <= k <= |l.entries| ==>
              0 <= Total(UsageShares(l.entries, grant)[..k]).Value(d) <= UsageTotal(l.entries, grant).Value(d)
  {
    hide Total, GrantsUnique, GrantsSound, Balanced, MirrorsUsage, MirrorsGrants;
    var xs := UsageShares(l.entries, grant);
    forall k | 0 <= k <= |l.entries| ensures 0 <= Total(xs[..k]).Value(d) <= Total(xs).Value(d) {
      TotalPrefix(xs, k);
    }
  }

  lemma {:induction false} CommitBounded(l: Ledger, s: ScopeId, d: Dimension, i: int)
    requires Inv(l) && Solvent(l) && s in l.scopes && l.scopes[s].limit.At(d).Some? && HeldBy(l.grants, s, i)
    ensures 0 <= UsageTotal(l.entries, l.grants[i].id).Value(d)
    ensures 0 <= l.scopes[s].usage.Value(d)
    ensures l.scopes[s].usage.Value(d) + UsageTotal(l.entries, l.grants[i].id).Value(d) <= l.scopes[s].limit.At(d).value
  {
    hide Solvent, UsageTotal, GrantsUnique, GrantsSound, EntriesSound, MirrorsUsage, MirrorsGrants, FitsBudget;
    hide FindGrant, Total;
    assert ScopeBalanced(l.scopes[s], l.grants, s);
    UsageValid(Ids(l.grants), l.entries, l.grants[i].id);
    SolventCommits(l, i);
    assert Admits(l.scopes[s].limit, d, l.scopes[s].usage.Value(d) + UsageTotal(l.entries, l.grants[i].id).Value(d));
  }

  lemma {:induction false} SumsBounded(l: Ledger, s: ScopeId, d: Dimension)
    requires Inv(l) && Solvent(l) && s in l.scopes && l.scopes[s].limit.At(d).Some?
    ensures 0 <= l.scopes[s].usage.Value(d) <= Consumed(l, s).Value(d) <= l.scopes[s].limit.At(d).value
    ensures forall k :: 0 <= k <= |l.grants| ==>
              0 <= Total(ReservedShares(l.grants, s)[..k]).Value(d) <= Consumed(l, s).Value(d)
  {
    hide GrantsUnique, EntriesSound, MirrorsUsage, MirrorsGrants, GrantsSound, Add, Total;
    assert ScopeBalanced(l.scopes[s], l.grants, s);
    assert CoveredAt(l, s);
    assert Admits(l.scopes[s].limit, d, Consumed(l, s).Value(d));
    ReservedPrefixes(l, s, d);
    var xs := ReservedShares(l.grants, s);
    assert xs[..|l.grants|] == xs;
    assert 0 <= Total(xs[..|l.grants|]).Value(d);
  }

  // ----- sums that do not -----

  /** The test as the machine makes it, in every dimension that has a bound. */
  ghost predicate MachineFits(bound: Amount, used: Amount, delta: Amount) {
    forall d: Dimension :: bound.At(d).Some? ==> Wrap(used.Value(d) + delta.Value(d)) <= bound.At(d).value
  }

  /** A sum over its bound that still fits: the machine sees that it is too much. */
  predicate SeenOver(bound: Amount, used: Amount, delta: Amount, d: Dimension) {
    bound.At(d).Some? && bound.At(d).value < used.Value(d) + delta.Value(d) <= I64_MAX
  }

  /** Amounts that are stored as 64-bit integers. */
  ghost predicate Words(a: Amount) {
    ValidAmount(a) && forall d: Dimension :: FitsI64(a.Value(d))
  }

  /** Where there is a bound, what is used is stored as a 64-bit integer too. */
  ghost predicate UsedWords(bound: Amount, used: Amount) {
    forall d: Dimension :: bound.At(d).Some? ==> 0 <= used.Value(d) <= I64_MAX
  }

  /**
   The machine accepts a sum that is within its bound and also one that wraps. Its answer
   is the mathematical one exactly when no bounded sum wraps or some other dimension
   already shows too much.
   */
  lemma {:induction false} MachineFitsIff(bound: Amount, used: Amount, delta: Amount)
    requires Words(bound) && Words(delta) && UsedWords(bound, used)
    ensures MachineFits(bound, used, delta) <==> forall d: Dimension :: !SeenOver(bound, used, delta, d)
    ensures MachineFits(bound, used, delta) == FitsBudget(bound, used, delta) <==>
              || (forall d: Dimension :: bound.At(d).Some? ==> FitsI64(used.Value(d) + delta.Value(d)))
              || exists d: Dimension :: SeenOver(bound, used, delta, d)
  {
    hide FitsBudget, ValidAmount, Wrap;
    forall d: Dimension | bound.At(d).Some?
      ensures Wrap(used.Value(d) + delta.Value(d)) <= bound.At(d).value <==> !SeenOver(bound, used, delta, d)
    {
      WrappedSum(bound.Value(d), used.Value(d), delta.Value(d));
    }
    forall d: Dimension | bound.At(d).Some? && !SeenOver(bound, used, delta, d)
      ensures Admits(bound, d, used.Value(d) + delta.Value(d)) <==> FitsI64(used.Value(d) + delta.Value(d))
    {
      assert FitsI64(bound.Value(d));
    }
  }

  lemma {:induction false} WrappedSum(bound: int, used: int, delta: int)
    requires 0 <= bound <= I64_MAX && 0 <= used <= I64_MAX && 0 <= delta <= I64_MAX
    ensures Wrap(used + delta) <= bound <==> !(bound < used + delta <= I64_MAX)
  {
    var x := used + delta;
    if x > I64_MAX {
      assert (x + I64_MAX + 1) % WORD == x + I64_MAX + 1 - WORD;
    }
  }

  /** A grant as a bound in every dimension, a missing one being zero. */
  function Bound(g: Amount): (b: Amount)
    ensures forall d: Dimension :: b.At(d) == Some(g.Value(d))
  {
    Amount(Some(g.Value(Tokens)), Some(g.Value(CostMicros)), Some(g.Value(WallTimeMs)), Some(g.Value(ToolCalls)))
  }

  lemma {:induction false} BoundFits(granted: Amount, used: Amount, delta: Amount)
    ensures FitsReservedGrant(granted, used, delta) <==> FitsBudget(Bound(granted), used, delta)
  {
    hide FitsReservedGrant, FitsBudget;
    assert forall d: Dimension :: Admits(Bound(granted), d, used.Value(d) + delta.Value(d))
                             <==> used.Value(d) + delta.Value(d) <= granted.Value(d);
  }

  /** No running total of the usage loop overflows. */
  ghost predicate UsageLoopFits(entries: seq<Entry>, grant: string) {
    forall d: Dimension, k :: 0 <= k <= |entries| ==> FitsI64(Total(UsageShares(entries, grant)[..k]).Value(d))
  }

  /**
   Recording usage in a reachable state: the usage loop itself never overflows, and the
   machine's test is the one of the model exactly when no tested sum wraps or some other
   dimension already shows too much.
   */
  lemma {:induction false} RecordTestIff(ops: seq<Op>, i: nat, delta: Amount)
    requires i < |Run(EMPTY, ops).grants| && Words(Run(EMPTY, ops).grants[i].requested) && Words(delta)
    ensures var l := Run(EMPTY, ops);
            var granted, used := l.grants[i].requested, UsageTotal(l.entries, l.grants[i].id);
            && UsageLoopFits(l.entries, l.grants[i].id)
            && (MachineFits(Bound(granted), used, delta) == FitsReservedGrant(granted, used, delta) <==>
                  || (forall d: Dimension :: FitsI64(used.Value(d) + delta.Value(d)))
                  || exists d: Dimension :: SeenOver(Bound(granted), used, delta, d))
  {
    hide Run, Inv, MachineFits, FitsReservedGrant, FitsBudget, UsageTotal, Total, ValidAmount, UsageShares, SeenOver;
    EmptyInv();
    RunKeepsInv(EMPTY, ops);
    var l := Run(EMPTY, ops);
    var g := l.grants[i];
    var used := UsageTotal(l.entries, g.id);
    UsedWithinGrant(l, i);
    UsageWords(l, i);
    assert Words(Bound(g.requested)) by { BoundWords(g.requested); }
    MachineFitsIff(Bound(g.requested), used, delta);
    BoundFits(g.requested, used, delta);
  }

  lemma {:induction false} UsageWords(l: Ledger, i: nat)
    requires Inv(l) && i < |l.grants| && Words(l.grants[i].requested)
    ensures UsageLoopFits(l.entries, l.grants[i].id)
    ensures UsedWords(Bound(l.grants[i].requested), UsageTotal(l.entries, l.grants[i].id))
  {
    hide Inv, UsageTotal, Total, ValidAmount, UsageShares;
    var g := l.grants[i];
    UsedWithinGrant(l, i);
    forall d: Dimension ensures UsageTotal(l.entries, g.id).Value(d) <= I64_MAX {
      assert FitsI64(g.requested.Value(d));
    }
    forall d: Dimension, k | 0 <= k <= |l.entries| ensures FitsI64(Total(UsageShares(l.entries, g.id)[..k]).Value(d)) {
      UsagePrefixes(l, g.id, d);
    }
  }

  lemma {:induction false} BoundWords(g: Amount)
    requires Words(g)
    ensures Words(Bound(g))
  {
  }

  lemma {:induction false} UsedWithinGrant(l: Ledger, i: nat)
    requires Inv(l) && i < |l.grants|
    ensures forall d: Dimension :: 0 <= UsageTotal(l.entries, l.grants[i].id).Value(d) <= l.grants[i].requested.Value(d)
  {
    hide UsageTotal, GrantsUnique, EntriesSound, Balanced, MirrorsUsage, MirrorsGrants;
    assert GrantSound(l.scopes, l.entries, l.grants[i]);
    UsageValid(Ids(l.grants), l.entries, l.grants[i].id);
  }

  lemma {:induction false} ConsumedValid(l: Ledger, s: ScopeId)
    requires Inv(l) && s in l.scopes
    ensures forall d: Dimension :: 0 <= Consumed(l, s).Value(d)
  {
    hide GrantsUnique, EntriesSound, MirrorsUsage, MirrorsGrants, GrantsSound, Add, Total;
    assert ScopeBalanced(l.scopes[s], l.grants, s);
    var xs := ReservedShares(l.grants, s);
    assert xs[..|l.grants|] == xs;
    forall d: Dimension ensures 0 <= Total(xs[..|l.grants|]).Value(d) { ReservedPrefixes(l, s, d); }
  }

  /**
   Reserving in a reachable state with 64-bit limits and a consumption that fits, covered
   by the limit or not: the same holds of the machine's test.
   */
  lemma {:induction false} ReserveTestIff(ops: seq<Op>, s: ScopeId, limit: Amount, requested: Amount)
    requires s in Run(EMPTY, ops).scopes && Words(limit) && Words(requested)
    requires forall d: Dimension :: limit.At(d).Some? ==> Consumed(Run(EMPTY, ops), s).Value(d) <= I64_MAX
    ensures var used := Consumed(Run(EMPTY, ops), s);
            MachineFits(limit, used, requested) == FitsBudget(limit, used, requested) <==>
              || (forall d: Dimension :: limit.At(d).Some? ==> FitsI64(used.Value(d) + requested.Value(d)))
              || exists d: Dimension :: SeenOver(limit, used, requested, d)
  {
    hide Run, Inv, MachineFits, FitsBudget, Consumed, ValidAmount, SeenOver;
    EmptyInv();
    RunKeepsInv(EMPTY, ops);
    ConsumedValid(Run(EMPTY, ops), s);
    MachineFitsIff(limit, Consumed(Run(EMPTY, ops), s), requested);
  }

  /** After some run, a grant whose five tokens are all used, and a usage it must refuse and the machine accepts. */
  lemma {:induction false} WrappedUsageAccepted()
    ensures exists ops, i, delta ::
              var l := Run(EMPTY, ops);
              && 0 <= i < |l.grants| && l.grants[i].state == Reserved && Words(l.grants[i].requested) && Words(delta)
              && var granted, used := l.grants[i].requested, UsageTotal(l.entries, l.grants[i].id);
                 MachineFits(Bound(granted), used, delta) && !FitsReservedGrant(granted, used, delta)
  {
    hide Run, UsageTotal;
    var ops, log := ExampleBuilt();
    ExampleTotals();
    var delta := NOTHING.(tokens := Some(I64_MAX));
    assert FIVE.Value(Tokens) + delta.Value(Tokens) > FIVE.Value(Tokens);
    WrappedSum(5, 5, I64_MAX);
    assert Words(FIVE) && Words(delta);
    assert MachineFits(Bound(FIVE), FIVE, delta);
    assert Run(EMPTY, ops).grants[0] == EXAMPLE_GRANT;
  }
}
