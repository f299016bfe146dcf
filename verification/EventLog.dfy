/** The event log: appends with unique identifiers and the (occurred_at, id) cursor. */
module EventLog {
  import opened Common
  import opened Ordering
  import opened KeysetWalk

  const I64_MIN: int := -0x8000_0000_0000_0000

  datatype Event = Event(
    id: string,
    kind: string,
    session: Option<string>,
    plan: Option<string>,
    objective: Option<string>,
    payload: string,
    occurredAt: int)

  /** The session filter wins over the plan filter, which wins over the objective filter. */
  datatype Filter = Filter(session: Option<string>, plan: Option<string>, objective: Option<string>) {
    predicate Selects(e: Event) {
      if session.Some? then e.session == session
      else if plan.Some? then e.plan == plan
      else if objective.Some? then e.objective == objective
      else true
    }
  }

  datatype Cursor = Cursor(at: int, id: string)

  predicate CursorLess(a: Cursor, b: Cursor) {
    a.at < b.at || (a.at == b.at && TextLess(a.id, b.id))
  }

  function Position(e: Event): Cursor {
    Cursor(e.occurredAt, e.id)
  }

  ghost predicate UniqueIds(log: seq<Event>) {
    forall i, j :: 0 <= i < j < |log| ==> log[i].id != log[j].id
  }

  function Append(log: seq<Event>, e: Event): Result<seq<Event>, ()> {
    if exists i :: 0 <= i < |log| && log[i].id == e.id then Err(()) else Ok(log + [e])
  }

  /** The events of a log never change and never move; identifiers stay unique. */
  lemma {:induction false} AppendKeeps(log: seq<Event>, e: Event)
    requires UniqueIds(log)
    ensures Append(log, e).Ok? <==> forall x :: x in log ==> x.id != e.id
    ensures Append(log, e).Ok? ==> UniqueIds(Append(log, e).value) && log <= Append(log, e).value
  {
    if exists i :: 0 <= i < |log| && log[i].id == e.id {
      var i :| 0 <= i < |log| && log[i].id == e.id;
      assert log[i] in log;
    }
  }

  /** Strictly after the cursor; without an event id, strictly later. */
  predicate After(e: Event, at: int, id: string) {
    e.occurredAt > at || (id != "" && e.occurredAt == at && TextLess(id, e.id))
  }

  function PositionsAfter(log: seq<Event>, filter: Filter, at: int, id: string): set<Cursor> {
    set e | e in log && filter.Selects(e) && After(e, at, id) :: Position(e)
  }

  predicate Located(log: seq<Event>, p: Cursor) {
    exists i :: 0 <= i < |log| && Position(log[i]) == p
  }

  function EventAt(log: seq<Event>, p: Cursor): (e: Event)
    requires Located(log, p)
    ensures e in log && Position(e) == p
  {
    if Position(log[0]) == p then log[0]
    else
      assert Located(log[1..], p) by {
        var i :| 0 <= i < |log| && Position(log[i]) == p;
        assert log[1..][i - 1] == log[i];
      }
      EventAt(log[1..], p)
  }

  function EventsAt(log: seq<Event>, ps: seq<Cursor>): (es: seq<Event>)
    requires forall p :: p in ps ==> Located(log, p)
    ensures |es| == |ps| && forall i :: 0 <= i < |es| ==> es[i] in log && Position(es[i]) == ps[i]
  {
    if |ps| == 0 then []
    else
      assert ps[0] in ps;
      [EventAt(log, ps[0])] + EventsAt(log, ps[1..])
  }

  function PageSize(limit: Option<nat>): nat {
    if limit.GetOr(100) < 1000 then limit.GetOr(100) else 1000
  }

  function QueryEvents(log: seq<Event>, filter: Filter, afterAt: Option<int>, afterId: Option<string>,
                       limit: Option<nat>)
    : seq<Event>
  {
    CursorOrder();
    var positions := PositionsAfter(log, filter, afterAt.GetOr(I64_MIN), afterId.GetOr(""));
    var page := Page(CursorLess, positions, PageSize(limit));
    PageInLog(log, filter, afterAt.GetOr(I64_MIN), afterId.GetOr(""), page);
    EventsAt(log, page)
  }

  lemma {:induction false} PageInLog(log: seq<Event>, filter: Filter, at: int, id: string, page: seq<Cursor>)
    requires Elements(page) <= PositionsAfter(log, filter, at, id)
    ensures forall p :: p in page ==> Located(log, p)
  {
    forall p | p in page ensures Located(log, p) {
      assert p in Elements(page);
      var e :| e in log && filter.Selects(e) && After(e, at, id) && Position(e) == p;
      var i :| 0 <= i < |log| && log[i] == e;
      assert Position(log[i]) == p;
    }
  }

  lemma {:induction false} CursorOrder()
    ensures StrictOrder(CursorLess)
  {
    TextOrder();
    forall a ensures !CursorLess(a, a) { TextIrreflexive(a.id); }
    forall a, b ensures CursorLess(a, b) || a == b || CursorLess(b, a) { TextTotal(a.id, b.id); }
    forall a, b, c | CursorLess(a, b) && CursorLess(b, c) ensures CursorLess(a, c) {
      if a.at == b.at && b.at == c.at { TextTransitive(a.id, b.id, c.id); }
    }
  }

  /** What a query asks for: the first filter that is given decides. */
  ghost predicate Asked(filter: Filter, e: Event) {
    && (filter.session.Some? ==> e.session == filter.session)
    && (filter.session.None? && filter.plan.Some? ==> e.plan == filter.plan)
    && (filter.session.None? && filter.plan.None? && filter.objective.Some? ==> e.objective == filter.objective)
  }

  /** Later than the cursor's time, or at that time with a greater id if the cursor has one. */
  ghost predicate Beyond(e: Event, afterAt: Option<int>, afterId: Option<string>) {
    var at := if afterAt.Some? then afterAt.value else I64_MIN;
    || e.occurredAt > at
    || (afterId.Some? && afterId.value != "" && e.occurredAt == at && TextLess(afterId.value, e.id))
  }

  /** Earlier, or at the same time with a smaller id. */
  ghost predicate Before(x: Event, y: Event) {
    x.occurredAt < y.occurredAt || (x.occurredAt == y.occurredAt && TextLess(x.id, y.id))
  }

  ghost predicate Due(log: seq<Event>, filter: Filter, afterAt: Option<int>, afterId: Option<string>, e: Event) {
    e in log && Asked(filter, e) && Beyond(e, afterAt, afterId)
  }

  /**
   One query: the events asked for beyond the cursor, by time and id, at most the limit,
   which is 100 if not given and never more than 1000; an event left out comes after all
   that are returned, and none is left out of a short page.
   */
  lemma {:induction false} QueryEventsMeaning(log: seq<Event>, filter: Filter, afterAt: Option<int>,
                                              afterId: Option<string>, limit: Option<nat>)
    requires UniqueIds(log)
    ensures var size := if limit.None? then 100 else if limit.value > 1000 then 1000 else limit.value;
            var r := QueryEvents(log, filter, afterAt, afterId, limit);
            && |r| <= size
            && (forall i :: 0 <= i < |r| ==> Due(log, filter, afterAt, afterId, r[i]))
            && (forall i, j :: 0 <= i < j < |r| ==> Before(r[i], r[j]))
            && (forall e :: Due(log, filter, afterAt, afterId, e) ==>
                  e in r || (|r| == size && forall i :: 0 <= i < |r| ==> Before(r[i], e)))
  {
    hide Page, StrictOrder, TextLess, UniqueIds, EventsAt, Asked, Beyond;
    CursorOrder();
    var at, id := afterAt.GetOr(I64_MIN), afterId.GetOr("");
    var r := QueryEvents(log, filter, afterAt, afterId, limit);
    var positions := PositionsAfter(log, filter, at, id);
    var page := Page(CursorLess, positions, PageSize(limit));
    PageInLog(log, filter, at, id, page);
    assert |r| == |page| && forall i :: 0 <= i < |r| ==> r[i] in log && Position(r[i]) == page[i];
    forall i | 0 <= i < |r| ensures Due(log, filter, afterAt, afterId, r[i]) {
      assert page[i] in page && page[i] in Elements(page);
      PositionDue(log, filter, afterAt, afterId, r[i]);
    }
    forall i, j | 0 <= i < j < |r| ensures Before(r[i], r[j]) { assert CursorLess(page[i], page[j]); }
    forall e | Due(log, filter, afterAt, afterId, e)
      ensures e in r || (|r| == PageSize(limit) && forall i :: 0 <= i < |r| ==> Before(r[i], e))
    {
      DuePosition(log, filter, afterAt, afterId, e);
      if Position(e) in page {
        var i :| 0 <= i < |page| && page[i] == Position(e);
        OneEventPerId(log, r[i], e);
      } else {
        assert Position(e) !in Elements(page);
        assert forall i :: 0 <= i < |page| ==> page[i] in page && CursorLess(page[i], Position(e));
      }
    }
  }

  lemma {:induction false} DuePosition(log: seq<Event>, filter: Filter, afterAt: Option<int>, afterId: Option<string>,
                                       e: Event)
    requires Due(log, filter, afterAt, afterId, e)
    ensures Position(e) in PositionsAfter(log, filter, afterAt.GetOr(I64_MIN), afterId.GetOr(""))
  {
    hide TextLess;
    assert filter.Selects(e) && After(e, afterAt.GetOr(I64_MIN), afterId.GetOr(""));
  }

  lemma {:induction false} PositionDue(log: seq<Event>, filter: Filter, afterAt: Option<int>, afterId: Option<string>,
                                       e: Event)
    requires UniqueIds(log) && e in log
    requires Position(e) in PositionsAfter(log, filter, afterAt.GetOr(I64_MIN), afterId.GetOr(""))
    ensures Due(log, filter, afterAt, afterId, e)
  {
    hide TextLess, UniqueIds;
    var at, id := afterAt.GetOr(I64_MIN), afterId.GetOr("");
    var x :| x in log && filter.Selects(x) && After(x, at, id) && Position(x) == Position(e);
    OneEventPerId(log, x, e);
  }

  // ----- following the cursor -----

  /** A client that queries page after page, each time from the last event it received. */
  function FollowEvents(logs: seq<seq<Event>>, filter: Filter, after: Option<Cursor>, limits: seq<nat>): seq<Event>
    requires |logs| == |limits|
    decreases |logs|
  {
    if |logs| == 0 then []
    else
      var afterAt := if after.Some? then Some(after.value.at) else None;
      var afterId := if after.Some? then Some(after.value.id) else None;
      var page := QueryEvents(logs[0], filter, afterAt, afterId, Some(limits[0]));
      var next := if |page| == 0 then after else Some(Position(page[|page| - 1]));
      page + FollowEvents(logs[1..], filter, next, limits[1..])
  }

  function Positions(es: seq<Event>): (r: seq<Cursor>)
    ensures |r| == |es| && forall i :: 0 <= i < |r| ==> r[i] == Position(es[i])
  {
    seq(|es|, i requires 0 <= i < |es| => Position(es[i]))
  }

  function View(log: seq<Event>, filter: Filter): set<Cursor> {
    PositionsAfter(log, filter, I64_MIN, "")
  }

  function Views(logs: seq<seq<Event>>, filter: Filter): (r: seq<set<Cursor>>)
    ensures |r| == |logs| && forall i :: 0 <= i < |r| ==> r[i] == View(logs[i], filter)
  {
    seq(|logs|, i requires 0 <= i < |logs| => View(logs[i], filter))
  }

  function PageSizes(limits: seq<nat>): (r: seq<nat>)
    ensures |r| == |limits| && forall i :: 0 <= i < |r| ==> r[i] == PageSize(Some(limits[i]))
  {
    seq(|limits|, i requires 0 <= i < |limits| => PageSize(Some(limits[i])))
  }

  ghost predicate IdsNonEmpty(log: seq<Event>) {
    forall i :: 0 <= i < |log| ==> log[i].id != ""
  }

  // What the SQL condition selects is what lies above the cursor in cursor order.
  lemma {:induction false} AfterIsAbove(log: seq<Event>, filter: Filter, after: Option<Cursor>)
    requires after.Some? ==> after.value.id != "" && after.value.at > I64_MIN
    ensures var at := if after.Some? then after.value.at else I64_MIN;
            var id := if after.Some? then after.value.id else "";
            PositionsAfter(log, filter, at, id) == set p | p in View(log, filter) && Above(CursorLess, after, p)
  {
    var at := if after.Some? then after.value.at else I64_MIN;
    var id := if after.Some? then after.value.id else "";
    var above := set p | p in View(log, filter) && Above(CursorLess, after, p);
    forall p ensures p in PositionsAfter(log, filter, at, id) <==> p in above {
      if p in above {
        var e :| e in log && filter.Selects(e) && After(e, I64_MIN, "") && Position(e) == p;
        assert After(e, at, id);
      }
      if p in PositionsAfter(log, filter, at, id) {
        var e :| e in log && filter.Selects(e) && After(e, at, id) && Position(e) == p;
        assert After(e, I64_MIN, "");
        assert p in View(log, filter);
      }
    }
  }

  lemma {:induction false} PageIsQuery(log: seq<Event>, filter: Filter, after: Option<Cursor>, limit: nat)
    requires StrictOrder(CursorLess)
    requires after.Some? ==> after.value.id != "" && after.value.at > I64_MIN
    ensures var afterAt := if after.Some? then Some(after.value.at) else None;
            var afterId := if after.Some? then Some(after.value.id) else None;
            Positions(QueryEvents(log, filter, afterAt, afterId, Some(limit)))
            == Query(CursorLess, View(log, filter), after, PageSize(Some(limit)))
  {
    hide Page, StrictOrder, CursorLess, Increasing, PositionsAfter, EventsAt;
    AfterIsAbove(log, filter, after);
  }

  lemma {:induction false} FollowIsWalk(logs: seq<seq<Event>>, filter: Filter, after: Option<Cursor>, limits: seq<nat>)
    requires |logs| == |limits| && StrictOrder(CursorLess)
    requires forall i :: 0 <= i < |logs| ==> IdsNonEmpty(logs[i])
    requires after.Some? ==> after.value.id != "" && after.value.at > I64_MIN
    ensures Positions(FollowEvents(logs, filter, after, limits))
         == Walk(CursorLess, after, Views(logs, filter), PageSizes(limits))
    decreases |logs|
  {
    hide QueryEvents, Query, StrictOrder, CursorLess, View;
    if |logs| > 0 {
      var afterAt := if after.Some? then Some(after.value.at) else None;
      var afterId := if after.Some? then Some(after.value.id) else None;
      var size := PageSizes(limits)[0];
      var page := QueryEvents(logs[0], filter, afterAt, afterId, Some(limits[0]));
      PageIsQuery(logs[0], filter, after, limits[0]);
      var next := if |page| == 0 then after else Some(Position(page[|page| - 1]));
      assert next == Next(after, Positions(page));
      if |page| > 0 {
        LastInView(logs[0], filter, after, page, size);
      }
      FollowIsWalk(logs[1..], filter, next, limits[1..]);
      assert Views(logs, filter)[1..] == Views(logs[1..], filter);
      assert PageSizes(limits)[1..] == PageSizes(limits[1..]);
      var rest := FollowEvents(logs[1..], filter, next, limits[1..]);
      assert Positions(page + rest) == Positions(page) + Positions(rest);
    }
  }

  lemma {:induction false} LastInView(log: seq<Event>, filter: Filter, after: Option<Cursor>, page: seq<Event>,
                                      size: nat)
    requires StrictOrder(CursorLess) && IdsNonEmpty(log) && |page| > 0
    requires Positions(page) == Query(CursorLess, View(log, filter), after, size)
    ensures page[|page| - 1].id != "" && page[|page| - 1].occurredAt > I64_MIN
  {
    hide Query, StrictOrder, CursorLess;
    var last := Positions(page)[|page| - 1];
    QueryAbove(CursorLess, View(log, filter), after, size);
    assert last in Positions(page);
    var e :| e in log && filter.Selects(e) && After(e, I64_MIN, "") && Position(e) == last;
  }

  ghost predicate Unmistaken(es: seq<Event>, e: Event) {
    forall i :: 0 <= i < |es| && Position(es[i]) == Position(e) ==> es[i] == e
  }

  // With unique ids, whatever a client receives at the event's position is the event.
  lemma {:induction false} FollowUnmistaken(logs: seq<seq<Event>>, filter: Filter, after: Option<Cursor>,
                                            limits: seq<nat>, e: Event)
    requires |logs| == |limits| && forall i :: 0 <= i < |logs| ==> UniqueIds(logs[i]) && e in logs[i]
    ensures Unmistaken(FollowEvents(logs, filter, after, limits), e)
    decreases |logs|
  {
    hide QueryEvents, UniqueIds;
    if |logs| > 0 {
      var afterAt := if after.Some? then Some(after.value.at) else None;
      var afterId := if after.Some? then Some(after.value.id) else None;
      var page := QueryEvents(logs[0], filter, afterAt, afterId, Some(limits[0]));
      var next := if |page| == 0 then after else Some(Position(page[|page| - 1]));
      forall i | 0 <= i < |page| && Position(page[i]) == Position(e) ensures page[i] == e {
        PageFromLog(logs[0], filter, afterAt, afterId, Some(limits[0]), i);
        OneEventPerId(logs[0], page[i], e);
      }
      FollowUnmistaken(logs[1..], filter, next, limits[1..], e);
    }
  }

  lemma {:induction false} PageFromLog(log: seq<Event>, filter: Filter, afterAt: Option<int>, afterId: Option<string>,
                                       limit: Option<nat>, i: nat)
    requires i < |QueryEvents(log, filter, afterAt, afterId, limit)|
    ensures QueryEvents(log, filter, afterAt, afterId, limit)[i] in log
  {
    hide Page, StrictOrder, CursorLess, PositionsAfter;
    CursorOrder();
    var at, id := afterAt.GetOr(I64_MIN), afterId.GetOr("");
    PageInLog(log, filter, at, id, Page(CursorLess, PositionsAfter(log, filter, at, id), PageSize(limit)));
  }

  lemma {:induction false} OneEventPerId(log: seq<Event>, x: Event, y: Event)
    requires UniqueIds(log) && x in log && y in log && x.id == y.id
    ensures x == y
  {
  }

  lemma {:induction false} CountedByPosition(es: seq<Event>, e: Event)
    requires Unmistaken(es, e)
    ensures multiset(es)[e] == multiset(Positions(es))[Position(e)]
    decreases |es|
  {
    if |es| > 0 {
      var n := |es| - 1;
      assert es == es[..n] + [es[n]];
      assert Positions(es) == Positions(es[..n]) + [Position(es[n])];
      assert Unmistaken(es[..n], e);
      CountedByPosition(es[..n], e);
    }
  }

  /**
   Following the cursor while others append: the events received come in strictly
   increasing cursor order. A selected event that was in the log at the start is received
   exactly once by the time a page comes back short; at the least timestamp it is never
   received.
   */
  lemma {:induction false} EventWalk(logs: seq<seq<Event>>, filter: Filter, limits: seq<nat>, e: Event)
    requires |logs| == |limits| && |logs| > 0
    requires forall i :: 0 <= i < |logs| ==> logs[0] <= logs[i] && IdsNonEmpty(logs[i]) && UniqueIds(logs[i])
    requires e in logs[0] && filter.Selects(e) && e.occurredAt >= I64_MIN
    ensures StrictOrder(CursorLess)
    ensures Increasing(CursorLess, Positions(FollowEvents(logs, filter, None, limits)))
    ensures e.occurredAt > I64_MIN && Finished(CursorLess, None, Views(logs, filter), PageSizes(limits)) ==>
              multiset(FollowEvents(logs, filter, None, limits))[e] == 1
    ensures e.occurredAt == I64_MIN ==> e !in FollowEvents(logs, filter, None, limits)
  {
    hide Walk, CursorLess, StrictOrder, Finished, FollowEvents, Increasing, UniqueIds;
    CursorOrder();
    FollowIsWalk(logs, filter, None, limits);
    var views, sizes := Views(logs, filter), PageSizes(limits);
    var p := Position(e);
    WalkIncreasing(CursorLess, None, views, sizes);
    forall i | 0 <= i < |logs| ensures e in logs[i] {
      var k :| 0 <= k < |logs[0]| && logs[0][k] == e;
      assert logs[i][k] == e;
    }
    FollowUnmistaken(logs, filter, None, limits, e);
    CountedByPosition(FollowEvents(logs, filter, None, limits), e);
    if e.occurredAt > I64_MIN {
      forall i | 0 <= i < |views| ensures p in views[i] {
        assert e in logs[i] && After(e, I64_MIN, "");
      }
      if Finished(CursorLess, None, views, sizes) {
        WalkExactlyOnce(CursorLess, None, views, sizes, p);
      }
    } else if p in Walk(CursorLess, None, views, sizes) {
      WalkSound(CursorLess, None, views, sizes, p);
    }
  }

  class EventStore {
    var log: seq<Event>

    constructor ()
      ensures log == []
    {
      log := [];
    }

    method AppendEvent(e: Event) returns (r: Result<(), ()>)
      requires UniqueIds(log)
      modifies this
      ensures UniqueIds(log)
      ensures r.Ok? <==> forall x :: x in old(log) ==> x.id != e.id
      ensures log == if r.Ok? then old(log) + [e] else old(log)
    {
      AppendKeeps(log, e);
      var appended := Append(log, e);
      if appended.Err? {
        return Err(());
      }
      log := appended.value;
      return Ok(());
    }
  }
}
