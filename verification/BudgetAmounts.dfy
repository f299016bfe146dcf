/**
 Budget amounts: four optional dimensions and the arithmetic on them.
 A missing dimension of a scope limit means "unlimited"; a missing dimension
 of a grant, of a usage or of a total means zero.
 */
module BudgetAmounts {
  import opened Common

  datatype Dimension = Tokens | CostMicros | WallTimeMs | ToolCalls

  datatype Amount = Amount(
    tokens: Option<int>,
    costMicros: Option<int>,
    wallTimeMs: Option<int>,
    toolCalls: Option<int>)
  {
    function At(d: Dimension): Option<int> {
      match d
      case Tokens => tokens
      case CostMicros => costMicros
      case WallTimeMs => wallTimeMs
      case ToolCalls => toolCalls
    }

    function Value(d: Dimension): int {
      At(d).GetOr(0)
    }
  }

  const NOTHING := Amount(None, None, None, None)

  predicate ValidAmount(a: Amount)
    ensures ValidAmount(a) <==> forall d: Dimension :: a.Value(d) >= 0
  {
    assert a.Value(Tokens) == a.tokens.GetOr(0) && a.Value(CostMicros) == a.costMicros.GetOr(0);
    assert a.Value(WallTimeMs) == a.wallTimeMs.GetOr(0) && a.Value(ToolCalls) == a.toolCalls.GetOr(0);
    && a.tokens.GetOr(0) >= 0
    && a.costMicros.GetOr(0) >= 0
    && a.wallTimeMs.GetOr(0) >= 0
    && a.toolCalls.GetOr(0) >= 0
  }

  function AddOptional(left: Option<int>, right: Option<int>): Option<int> {
    match (left, right)
    case (Some(l), Some(r)) => Some(l + r)
    case (Some(l), None) => Some(l)
    case (None, r) => r
  }

  /** Dimension by dimension addition; on values it is integer addition. */
  function Add(left: Amount, right: Amount): (r: Amount)
    ensures forall d: Dimension :: r.Value(d) == left.Value(d) + right.Value(d)
  {
    Amount(
      AddOptional(left.tokens, right.tokens),
      AddOptional(left.costMicros, right.costMicros),
      AddOptional(left.wallTimeMs, right.wallTimeMs),
      AddOptional(left.toolCalls, right.toolCalls))
  }

  predicate FitsDimension(limit: Option<int>, used: Option<int>, requested: Option<int>) {
    match limit
    case Some(bound) => used.GetOr(0) + requested.GetOr(0) <= bound
    case None => true
  }

  /** The limit admits the amount `value` in dimension `d`: a missing limit is infinite. */
  predicate Admits(limit: Amount, d: Dimension, value: int) {
    limit.At(d).Some? ==> value <= limit.At(d).value
  }

  predicate FitsBudget(limit: Amount, used: Amount, requested: Amount)
    ensures FitsBudget(limit, used, requested)
       <==> forall d: Dimension :: Admits(limit, d, used.Value(d) + requested.Value(d))
  {
    var fits := (d: Dimension) => FitsDimension(limit.At(d), used.At(d), requested.At(d));
    assert forall d: Dimension :: fits(d) <==> Admits(limit, d, used.Value(d) + requested.Value(d));
    fits(Tokens) && fits(CostMicros) && fits(WallTimeMs) && fits(ToolCalls)
  }

  predicate FitsReservedDimension(granted: Option<int>, used: Option<int>, delta: Option<int>) {
    used.GetOr(0) + delta.GetOr(0) <= granted.GetOr(0)
  }

  predicate FitsReservedGrant(granted: Amount, used: Amount, delta: Amount)
    ensures FitsReservedGrant(granted, used, delta)
       <==> forall d: Dimension :: used.Value(d) + delta.Value(d) <= granted.Value(d)
  {
    var fits := (d: Dimension) => FitsReservedDimension(granted.At(d), used.At(d), delta.At(d));
    assert forall d: Dimension :: fits(d) <==> used.Value(d) + delta.Value(d) <= granted.Value(d);
    fits(Tokens) && fits(CostMicros) && fits(WallTimeMs) && fits(ToolCalls)
  }

  function RemainingDimension(limit: Option<int>, consumed: Option<int>): Option<Option<int>> {
    match limit
    case None => Some(None)
    case Some(bound) =>
      var remaining := bound - consumed.GetOr(0);
      if remaining > 0 then Some(Some(remaining)) else None
  }

  function RemainingBudget(limit: Amount, consumed: Amount): Option<Amount> {
    var tokens := RemainingDimension(limit.tokens, consumed.tokens);
    var cost := RemainingDimension(limit.costMicros, consumed.costMicros);
    var wall := RemainingDimension(limit.wallTimeMs, consumed.wallTimeMs);
    var calls := RemainingDimension(limit.toolCalls, consumed.toolCalls);
    if tokens.None? || cost.None? || wall.None? || calls.None? then None
    else
      var rest := Amount(tokens.value, cost.value, wall.value, calls.value);
      if rest == NOTHING then None else Some(rest)
  }

  /**
   A remainder exists exactly when some dimension is limited and every limited
   dimension still has room; it then takes all the room there is.
   */
  lemma RemainingBudgetMeaning(limit: Amount, consumed: Amount)
    ensures RemainingBudget(limit, consumed).Some?
       <==> (exists d: Dimension :: limit.At(d).Some?)
            && (forall d: Dimension :: limit.At(d).Some? ==> consumed.Value(d) < limit.At(d).value)
    ensures RemainingBudget(limit, consumed).Some? ==>
              forall d: Dimension ::
                var rest := RemainingBudget(limit, consumed).value;
                if limit.At(d).Some? then rest.Value(d) > 0 && consumed.Value(d) + rest.Value(d) == limit.At(d).value
                else rest.At(d) == None
  {
    var room := (d: Dimension) => limit.At(d).Some? ==> consumed.Value(d) < limit.At(d).value;
    assert (forall d: Dimension :: room(d))
      <==> room(Tokens) && room(CostMicros) && room(WallTimeMs) && room(ToolCalls);
    assert (exists d: Dimension :: limit.At(d).Some?)
      <==> limit.At(Tokens).Some? || limit.At(CostMicros).Some? || limit.At(WallTimeMs).Some?
           || limit.At(ToolCalls).Some?;
  }

  /** The running total of the two summing loops. */
  function Total(xs: seq<Amount>): Amount {
    if |xs| == 0 then NOTHING else Add(Total(xs[..|xs| - 1]), xs[|xs| - 1])
  }

  lemma TotalSnoc(xs: seq<Amount>, x: Amount)
    ensures Total(xs + [x]) == Add(Total(xs), x)
  {
    assert (xs + [x])[..|xs|] == xs;
  }

  /** Replacing one summand trades its old amount for the new one. */
  lemma {:induction false} TotalUpdate(xs: seq<Amount>, i: nat, y: Amount)
    requires i < |xs|
    ensures Add(Total(xs[i := y]), xs[i]) == Add(Total(xs), y)
    decreases |xs|
  {
    hide Add;
    var n := |xs| - 1;
    if i == n {
      assert xs[i := y][..n] == xs[..n];
      AddSwap(Total(xs[..n]), y, xs[n]);
    } else {
      TotalUpdate(xs[..n], i, y);
      assert xs[i := y][..n] == xs[..n][i := y];
      AddSwap(Total(xs[..n][i := y]), xs[n], xs[i]);
      assert xs[..n][i] == xs[i];
      AddSwap(Total(xs[..n]), y, xs[n]);
    }
  }

  lemma AddValid(a: Amount, b: Amount)
    requires ValidAmount(a) && ValidAmount(b)
    ensures ValidAmount(Add(a, b))
  {
  }

  lemma AddNothing(a: Amount)
    ensures Add(a, NOTHING) == a
  {
  }

  lemma AddSwap(a: Amount, b: Amount, c: Amount)
    ensures Add(Add(a, b), c) == Add(Add(a, c), b)
  {
  }

  /** A total of valid amounts bounds every one of its prefixes. */
  lemma {:induction false} TotalPrefix(xs: seq<Amount>, k: nat)
    requires k <= |xs|
    requires forall i :: 0 <= i < |xs| ==> ValidAmount(xs[i])
    ensures ValidAmount(Total(xs))
    ensures forall d: Dimension :: 0 <= Total(xs[..k]).Value(d) <= Total(xs).Value(d)
    decreases |xs|
  {
    hide Add;
    var n := |xs| - 1;
    if |xs| == 0 {
      assert xs[..k] == xs;
    } else if k == |xs| {
      assert xs[..k] == xs;
      TotalPrefix(xs[..n], n);
      assert xs[..n][..n] == xs[..n];
    } else {
      TotalPrefix(xs[..n], k);
      assert xs[..n][..k] == xs[..k];
    }
  }
}
