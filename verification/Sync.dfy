/** ControlPlaneSync: delivering the shared event log to the listeners of one instance. */
module Sync {
  import opened Sequences

  datatype Event = Event(id: nat, eventType: string, source: string, payload: string)

  /** A listener, identified by its callback, was called with an event. */
  datatype Call = Call(listener: nat, event: Event)

  type Buckets = map<string, seq<nat>>

  /** Whether a listener throws when it is called with an event. */
  type Throws = (nat, Event) -> bool

  function Bucket(listeners: Buckets, eventType: string): seq<nat> {
    if eventType in listeners then listeners[eventType] else []
  }

  /** Adding the members of a list to a `Set`, which keeps first occurrences in order. */
  function Added(members: seq<nat>, more: seq<nat>): (r: seq<nat>)
    ensures forall l :: l in r <==> l in members || l in more
    ensures Distinct(members) ==> Distinct(r)
    decreases |more|
  {
    if more == [] then members
    else Added(if more[0] in members then members else members + [more[0]], more[1..])
  }

  /** The listeners of an event's type and of `*`, each once. */
  function Recipients(listeners: Buckets, e: Event): (r: seq<nat>)
    ensures Distinct(r)
    ensures forall l :: l in r <==> l in Bucket(listeners, e.eventType) || l in Bucket(listeners, "*")
  {
    Added(Added([], Bucket(listeners, e.eventType)), Bucket(listeners, "*"))
  }

  function NotAmong(members: seq<nat>): nat -> bool {
    (l: nat) => l !in members
  }

  lemma OneMoreMember(members: seq<nat>, l: nat, rest: seq<nat>)
    requires l !in rest && l !in members
    ensures members + [l] + Filter(rest, NotAmong(members + [l])) == members + Filter([l] + rest, NotAmong(members))
  {
    forall x | x in rest ensures NotAmong(members + [l])(x) == NotAmong(members)(x) {
      assert x != l;
    }
    FilterAlike(rest, NotAmong(members + [l]), NotAmong(members));
    FilterCons(l, rest, NotAmong(members));
    Regroup(members, [l], Filter(rest, NotAmong(members)));
  }

  lemma {:induction false} AddedBehind(members: seq<nat>, more: seq<nat>)
    requires Distinct(more)
    ensures Added(members, more) == members + Filter(more, NotAmong(members))
    decreases |more|
  {
    if more == [] {
      assert members + [] == members;
    } else {
      var l, rest := more[0], more[1..];
      assert l !in rest && more == [l] + rest;
      if l in members {
        AddedBehind(members, rest);
      } else {
        AddedBehind(members + [l], rest);
        OneMoreMember(members, l, rest);
      }
    }
  }

  /** The listeners of the event's type come first, in the order they were added, then the other ones of `*`. */
  lemma RecipientsInOrder(listeners: Buckets, e: Event)
    requires Distinct(Bucket(listeners, e.eventType)) && Distinct(Bucket(listeners, "*"))
    ensures Recipients(listeners, e) ==
            Bucket(listeners, e.eventType) + Filter(Bucket(listeners, "*"), NotAmong(Bucket(listeners, e.eventType)))
  {
    var own := Bucket(listeners, e.eventType);
    AddedBehind([], own);
    FilterAll(own, NotAmong([]));
    assert [] + own == own;
    AddedBehind(own, Bucket(listeners, "*"));
  }

  /** The calls made for one event: up to and including the first listener that throws. */
  function CallsTo(recipients: seq<nat>, throws: Throws, e: Event): seq<Call> {
    if recipients == [] then []
    else if throws(recipients[0], e) then [Call(recipients[0], e)]
    else [Call(recipients[0], e)] + CallsTo(recipients[1..], throws, e)
  }

  predicate SomeThrows(recipients: seq<nat>, throws: Throws, e: Event) {
    exists l :: l in recipients && throws(l, e)
  }

  function Max(a: nat, b: nat): nat {
    if a >= b then a else b
  }

  datatype Progress = Progress(lastEventId: nat, calls: seq<Call>)

  /** The loop of `poll` over the rows behind the cursor. */
  function Delivered(me: string, listeners: Buckets, throws: Throws, rows: seq<Event>, lastEventId: nat): Progress
    decreases |rows|
  {
    if rows == [] then Progress(lastEventId, [])
    else
      var last := Max(lastEventId, rows[0].id);
      if rows[0].source == me then Delivered(me, listeners, throws, rows[1..], last)
      else
        var recipients := Recipients(listeners, rows[0]);
        var calls := CallsTo(recipients, throws, rows[0]);
        if SomeThrows(recipients, throws, rows[0]) then Progress(last, calls)
        else
          var rest := Delivered(me, listeners, throws, rows[1..], last);
          Progress(rest.lastEventId, calls + rest.calls)
  }

  function Then(calls: seq<Call>, more: Progress): Progress {
    Progress(more.lastEventId, calls + more.calls)
  }

  lemma DeliveredStep(me: string, listeners: Buckets, throws: Throws, calls: seq<Call>, rows: seq<Event>, last: nat)
    requires rows != []
    ensures var recipients, last' := Recipients(listeners, rows[0]), Max(last, rows[0].id);
            var made := calls + CallsTo(recipients, throws, rows[0]);
            Then(calls, Delivered(me, listeners, throws, rows, last)) ==
            if rows[0].source == me then Then(calls, Delivered(me, listeners, throws, rows[1..], last'))
            else if SomeThrows(recipients, throws, rows[0]) then Progress(last', made)
            else Then(made, Delivered(me, listeners, throws, rows[1..], last'))
  {
    var recipients, last' := Recipients(listeners, rows[0]), Max(last, rows[0].id);
    var rest := Delivered(me, listeners, throws, rows[1..], last');
    assert calls + (CallsTo(recipients, throws, rows[0]) + rest.calls)
        == calls + CallsTo(recipients, throws, rows[0]) + rest.calls;
  }

  function Behind(lastEventId: nat): Event -> bool {
    (e: Event) => e.id > lastEventId
  }

  class ControlPlaneSync {
    const instanceId: string
    var lastEventId: nat
    var listeners: Buckets
    /** Every listener call made so far. */
    var calls: seq<Call>

    constructor (id: string)
      ensures instanceId == id && lastEventId == 0 && listeners == map[] && calls == []
    {
      instanceId, lastEventId, listeners, calls := id, 0, map[], [];
    }

    method AddListener(eventType: string, listener: nat)
      modifies this`listeners
      ensures listeners == old(listeners)[eventType := Added(Bucket(old(listeners), eventType), [listener])]
    {
      var bucket := if eventType in listeners then listeners[eventType] else [];
      listeners := listeners[eventType := if listener in bucket then bucket else bucket + [listener]];
    }

    /** Calls the recipients in turn; stops when one throws. */
    method Notify(recipients: seq<nat>, event: Event, throws: Throws) returns (threw: bool)
      modifies this`calls
      ensures calls == old(calls) + CallsTo(recipients, throws, event)
      ensures threw == SomeThrows(recipients, throws, event)
    {
      for k := 0 to |recipients|
        invariant calls + CallsTo(recipients[k..], throws, event) == old(calls) + CallsTo(recipients, throws, event)
        invariant forall l :: l in recipients[..k] ==> !throws(l, event)
      {
        assert recipients[k..][1..] == recipients[k + 1..];
        assert recipients[..k + 1] == recipients[..k] + [recipients[k]];
        ghost var before := calls;
        calls := calls + [Call(recipients[k], event)];
        if throws(recipients[k], event) {
          return true;
        }
        assert calls + CallsTo(recipients[k + 1..], throws, event) == before + CallsTo(recipients[k..], throws, event);
      }
      assert recipients[..|recipients|] == recipients;
      assert calls + [] == calls;
      return false;
    }

    /** One poll of the table, whose rows come in id order. */
    method Poll(log: seq<Event>, throws: Throws)
      modifies this`lastEventId, this`calls
      ensures Progress(lastEventId, calls) ==
              Then(old(calls),
                   Delivered(instanceId, listeners, throws, Filter(log, Behind(old(lastEventId))), old(lastEventId)))
    {
      var rows := Filter(log, Behind(lastEventId));
      for k := 0 to |rows|
        invariant Then(calls, Delivered(instanceId, listeners, throws, rows[k..], lastEventId)) ==
                  Then(old(calls), Delivered(instanceId, listeners, throws, rows, old(lastEventId)))
      {
        var row := rows[k];
        assert rows[k..][1..] == rows[k + 1..];
        DeliveredStep(instanceId, listeners, throws, calls, rows[k..], lastEventId);
        lastEventId := Max(lastEventId, row.id);
        if row.source == instanceId {
          continue;
        }
        var recipients := Recipients(listeners, row);
        var threw := Notify(recipients, row, throws);
        if threw {
          return;
        }
      }
      assert calls + [] == calls;
    }
  }

  // ---- runs -------------------------------------------------------------------------------

  ghost predicate Ascending(log: seq<Event>) {
    forall i, j :: 0 <= i < j < |log| ==> log[i].id < log[j].id
  }

  /** A row put in its place among rows sorted by id. */
  function InsertRow(log: seq<Event>, e: Event): (r: seq<Event>)
    ensures forall x :: x in r <==> x in log || x == e
  {
    if log == [] || log[0].id > e.id then [e] + log else [log[0]] + InsertRow(log[1..], e)
  }

  datatype State = State(log: seq<Event>, lastEventId: nat, calls: seq<Call>)

  /** A row becomes visible, in any order of ids, or the instance polls. */
  datatype Action = Publish(event: Event) | Polling

  /** The table only grows and is read in id order; the instance's polls do not overlap. */
  function Next(me: string, listeners: Buckets, throws: Throws, s: State, a: Action): State {
    match a
    case Publish(e) => s.(log := InsertRow(s.log, e))
    case Polling =>
      var done := Delivered(me, listeners, throws, Filter(s.log, Behind(s.lastEventId)), s.lastEventId);
      s.(lastEventId := done.lastEventId, calls := s.calls + done.calls)
  }

  function After(me: string, listeners: Buckets, throws: Throws, s: State, actions: seq<Action>): State {
    if actions == [] then s
    else Next(me, listeners, throws, After(me, listeners, throws, s, actions[..|actions| - 1]), actions[|actions| - 1])
  }

  /** The table after the rows of a run. */
  function Logged(log: seq<Event>, actions: seq<Action>): seq<Event> {
    if actions == [] then log
    else
      var rest := Logged(log, actions[..|actions| - 1]);
      match actions[|actions| - 1]
      case Publish(e) => InsertRow(rest, e)
      case Polling => rest
  }

  ghost predicate FreshId(log: seq<Event>, e: Event) {
    forall x :: x in log ==> x.id != e.id
  }

  /** No id is given twice. */
  ghost predicate FreshIds(log: seq<Event>, actions: seq<Action>) {
    actions == [] ||
    var rest, last := actions[..|actions| - 1], actions[|actions| - 1];
    FreshIds(log, rest) && (last.Publish? ==> FreshId(Logged(log, rest), last.event))
  }

  /** The rows that became visible while their id was above the cursor, in id order. */
  function OnTime(me: string, listeners: Buckets, throws: Throws, s: State, actions: seq<Action>): seq<Event> {
    if actions == [] then s.log
    else
      var rest, last := actions[..|actions| - 1], actions[|actions| - 1];
      var rows := OnTime(me, listeners, throws, s, rest);
      if last.Publish? && last.event.id > After(me, listeners, throws, s, rest).lastEventId then
        InsertRow(rows, last.event)
      else rows
  }

  lemma {:induction false} InsertAscends(log: seq<Event>, e: Event)
    requires Ascending(log) && FreshId(log, e)
    ensures Ascending(InsertRow(log, e))
  {
    if log != [] && !(log[0].id > e.id) {
      InsertAscends(log[1..], e);
      forall x | x in InsertRow(log[1..], e) ensures x.id > log[0].id {
        if x != e {
          HeadIsLeast(log, x);
        } else {
          assert log[0] in log;
        }
      }
    } else if log != [] {
      forall x | x in log ensures x.id > e.id {
        if x != log[0] {
          HeadIsLeast(log, x);
        }
      }
    }
  }

  lemma {:induction false} InsertFiltered(log: seq<Event>, e: Event, p: Event -> bool)
    requires !p(e)
    ensures Filter(InsertRow(log, e), p) == Filter(log, p)
  {
    if log == [] || log[0].id > e.id {
      FilterCons(e, log, p);
      assert [] + Filter(log, p) == Filter(log, p);
    } else {
      InsertFiltered(log[1..], e, p);
      FilterCons(log[0], InsertRow(log[1..], e), p);
      FilterCons(log[0], log[1..], p);
      assert log == [log[0]] + log[1..];
    }
  }

  lemma AtLeastHead(log: seq<Event>, e: Event)
    requires Ascending(log) && e in log
    ensures e.id >= log[0].id && (e == log[0] <==> e.id == log[0].id)
  {
    if e != log[0] {
      HeadIsLeast(log, e);
    }
  }

  /** Sorted rows are determined by their elements. */
  lemma {:induction false} AscendingUnique(a: seq<Event>, b: seq<Event>)
    requires Ascending(a) && Ascending(b) && forall e :: e in a <==> e in b
    ensures a == b
    decreases |a|
  {
    assert (a != [] ==> a[0] in b) && (b != [] ==> b[0] in a);
    if a != [] && b != [] {
      AtLeastHead(a, b[0]);
      AtLeastHead(b, a[0]);
      forall e ensures e in a[1..] <==> e in b[1..] {
        assert e in a <==> e == a[0] || e in a[1..];
        assert e in b <==> e == b[0] || e in b[1..];
        assert a[0] !in a[1..] && b[0] !in b[1..];
      }
      AscendingUnique(a[1..], b[1..]);
    }
  }

  predicate InWindow(e: Event, from: nat, upTo: nat) {
    from < e.id <= upTo
  }

  function Foreign(me: string, from: nat, upTo: nat): Event -> bool {
    (e: Event) => e.source != me && InWindow(e, from, upTo)
  }

  function CallsFor(listeners: Buckets, throws: Throws): Event -> seq<Call> {
    (e: Event) => CallsTo(Recipients(listeners, e), throws, e)
  }

  lemma {:induction false} FilterAscending(log: seq<Event>, p: Event -> bool)
    requires Ascending(log)
    ensures Ascending(Filter(log, p))
  {
    if log != [] {
      FilterAscending(log[1..], p);
      forall e | e in Filter(log[1..], p) ensures e.id > log[0].id {
        HeadIsLeast(log, e);
      }
    }
  }

  lemma HeadIsLeast(log: seq<Event>, e: Event)
    requires Ascending(log) && log != [] && e in log[1..]
    ensures e.id > log[0].id
  {
    var i :| 0 <= i < |log[1..]| && log[1..][i] == e;
    assert log[i + 1] == e;
  }

  /** The foreign events of a window come before those of the window behind it. */
  lemma {:induction false} WindowSplit(me: string, log: seq<Event>, from: nat, mid: nat, upTo: nat)
    requires Ascending(log) && from <= mid <= upTo
    ensures Filter(log, Foreign(me, from, upTo)) ==
            Filter(log, Foreign(me, from, mid)) + Filter(log, Foreign(me, mid, upTo))
  {
    if log != [] {
      if log[0].id <= mid {
        WindowSplit(me, log[1..], from, mid, upTo);
      } else {
        forall e | e in log ensures e.id > mid {
          if e != log[0] {
            HeadIsLeast(log, e);
          }
        }
        FilterNone(log, Foreign(me, from, mid));
        FilterAlike(log, Foreign(me, from, upTo), Foreign(me, mid, upTo));
      }
    }
  }

  /** The foreign events of a window that begins with `row`. */
  lemma WindowCons(me: string, row: Event, rest: seq<Event>, last: nat, upTo: nat)
    requires row.id > last && upTo >= row.id && forall e :: e in rest ==> e.id > row.id
    ensures Filter([row] + rest, Foreign(me, last, upTo)) ==
            (if row.source != me then [row] else []) + Filter(rest, Foreign(me, row.id, upTo))
  {
    FilterCons(row, rest, Foreign(me, last, upTo));
    FilterAlike(rest, Foreign(me, last, upTo), Foreign(me, row.id, upTo));
  }

  lemma CallsCons(row: Event, own: bool, rest: seq<Event>, calls: Event -> seq<Call>)
    ensures FlatMap((if own then [] else [row]) + rest, calls) ==
            (if own then [] else calls(row)) + FlatMap(rest, calls)
  {
    if own {
      assert [] + rest == rest;
      assert [] + FlatMap(rest, calls) == FlatMap(rest, calls);
    } else {
      FlatMapConcat([row], rest, calls);
      FlatMapOne(row, calls);
    }
  }

  /** One poll calls the listeners of the foreign events between the old and the new cursor. */
  lemma {:induction false} DeliveredWindow(me: string, listeners: Buckets, throws: Throws, rows: seq<Event>, last: nat)
    requires Ascending(rows) && forall e :: e in rows ==> e.id > last
    ensures var done := Delivered(me, listeners, throws, rows, last);
            && done.lastEventId >= last
            && (done.lastEventId != last ==> exists e :: e in rows && e.id == done.lastEventId)
            && done.calls == FlatMap(Filter(rows, Foreign(me, last, done.lastEventId)), CallsFor(listeners, throws))
    decreases |rows|
  {
    if rows != [] {
      var row, rest, calls := rows[0], rows[1..], CallsFor(listeners, throws);
      forall e | e in rest ensures e.id > row.id {
        HeadIsLeast(rows, e);
      }
      assert rows == [row] + rest;
      assert row in rows;
      if row.source != me && SomeThrows(Recipients(listeners, row), throws, row) {
        WindowCons(me, row, rest, last, row.id);
        FilterNone(rest, Foreign(me, row.id, row.id));
        CallsCons(row, false, [], calls);
      } else {
        DeliveredWindow(me, listeners, throws, rest, row.id);
        var upTo := Delivered(me, listeners, throws, rest, row.id).lastEventId;
        WindowCons(me, row, rest, last, upTo);
        CallsCons(row, row.source == me, Filter(rest, Foreign(me, row.id, upTo)), calls);
      }
    }
  }

  /** The calls made so far are those of the given foreign rows between the start and the cursor. */
  ghost predicate Accounted(
    me: string, listeners: Buckets, throws: Throws, start: State, rows: seq<Event>, s: State)
  {
    && start.lastEventId <= s.lastEventId
    && s.calls == start.calls
                  + FlatMap(Filter(rows, Foreign(me, start.lastEventId, s.lastEventId)), CallsFor(listeners, throws))
  }

  lemma PollWindow(me: string, listeners: Buckets, throws: Throws, s: State)
    requires Ascending(s.log)
    ensures var t := Next(me, listeners, throws, s, Polling);
            && t.log == s.log && t.lastEventId >= s.lastEventId
            && (t.lastEventId != s.lastEventId ==> exists e :: e in s.log && e.id == t.lastEventId)
            && t.calls == s.calls
                          + FlatMap(Filter(s.log, Foreign(me, s.lastEventId, t.lastEventId)),
                                    CallsFor(listeners, throws))
  {
    var rows, t := Filter(s.log, Behind(s.lastEventId)), Next(me, listeners, throws, s, Polling);
    FilterAscending(s.log, Behind(s.lastEventId));
    DeliveredWindow(me, listeners, throws, rows, s.lastEventId);
    FilterFilter(s.log, Behind(s.lastEventId), Foreign(me, s.lastEventId, t.lastEventId));
  }

  lemma AccountJoins(
    me: string, listeners: Buckets, throws: Throws, rows: seq<Event>, from: nat, mid: nat, upTo: nat, first: seq<Call>)
    requires Ascending(rows) && from <= mid <= upTo
    ensures var calls := CallsFor(listeners, throws);
            first + FlatMap(Filter(rows, Foreign(me, from, mid)), calls)
            + FlatMap(Filter(rows, Foreign(me, mid, upTo)), calls)
            == first + FlatMap(Filter(rows, Foreign(me, from, upTo)), calls)
  {
    var calls := CallsFor(listeners, throws);
    var a, b := Filter(rows, Foreign(me, from, mid)), Filter(rows, Foreign(me, mid, upTo));
    WindowSplit(me, rows, from, mid, upTo);
    FlatMapConcat(a, b, calls);
    CallsJoin(first, FlatMap(a, calls), FlatMap(b, calls));
  }

  lemma CallsJoin(a: seq<Call>, b: seq<Call>, c: seq<Call>)
    ensures a + b + c == a + (b + c)
  {
  }

  /** One poll extends the account by exactly the rows the cursor passes. */
  lemma PollAccounted(
    me: string, listeners: Buckets, throws: Throws, start: State, rows: seq<Event>, s: State)
    requires Accounted(me, listeners, throws, start, rows, s)
    requires Ascending(rows) && Filter(s.log, Behind(s.lastEventId)) == Filter(rows, Behind(s.lastEventId))
    ensures Accounted(me, listeners, throws, start, rows, Next(me, listeners, throws, s, Polling))
  {
    var t := Next(me, listeners, throws, s.(log := rows), Polling);
    PollWindow(me, listeners, throws, s.(log := rows));
    AccountJoins(me, listeners, throws, rows, start.lastEventId, s.lastEventId, t.lastEventId, start.calls);
    assert Next(me, listeners, throws, s, Polling) == t.(log := s.log);
  }

  /** The rows on time are the table, except for rows the cursor had passed. */
  ghost predicate Split(s: State, rows: seq<Event>) {
    && Ascending(s.log) && Ascending(rows)
    && (forall e :: e in rows ==> e in s.log)
    && (forall e :: e in s.log && e !in rows ==> e.id <= s.lastEventId)
  }

  /** Rows the cursor has passed make no difference to a poll. */
  lemma SameBehind(s: State, rows: seq<Event>)
    requires Split(s, rows)
    ensures Filter(s.log, Behind(s.lastEventId)) == Filter(rows, Behind(s.lastEventId))
  {
    FilterAscending(s.log, Behind(s.lastEventId));
    FilterAscending(rows, Behind(s.lastEventId));
    AscendingUnique(Filter(s.log, Behind(s.lastEventId)), Filter(rows, Behind(s.lastEventId)));
  }

  lemma {:induction false} LogOf(me: string, listeners: Buckets, throws: Throws, s: State, actions: seq<Action>)
    ensures After(me, listeners, throws, s, actions).log == Logged(s.log, actions)
  {
    if actions != [] {
      LogOf(me, listeners, throws, s, actions[..|actions| - 1]);
    }
  }

  /** What a run has called, and for which rows. */
  ghost predicate Tracked(me: string, listeners: Buckets, throws: Throws, start: State, rows: seq<Event>, s: State) {
    Split(s, rows) && Accounted(me, listeners, throws, start, rows, s)
  }

  lemma PublishTracked(
    me: string, listeners: Buckets, throws: Throws, start: State, rows: seq<Event>, s: State, e: Event)
    requires Tracked(me, listeners, throws, start, rows, s) && FreshId(s.log, e)
    ensures Tracked(me, listeners, throws, start, if e.id > s.lastEventId then InsertRow(rows, e) else rows,
                    s.(log := InsertRow(s.log, e)))
  {
    InsertAscends(s.log, e);
    if e.id > s.lastEventId {
      InsertAscends(rows, e);
      InsertFiltered(rows, e, Foreign(me, start.lastEventId, s.lastEventId));
    }
  }

  lemma PollTracked(me: string, listeners: Buckets, throws: Throws, start: State, rows: seq<Event>, s: State)
    requires Tracked(me, listeners, throws, start, rows, s)
    ensures Tracked(me, listeners, throws, start, rows, Next(me, listeners, throws, s, Polling))
  {
    SameBehind(s, rows);
    PollAccounted(me, listeners, throws, start, rows, s);
    DeliveredForward(me, listeners, throws, Filter(s.log, Behind(s.lastEventId)), s.lastEventId);
  }

  lemma {:induction false} RunAccounted(me: string, listeners: Buckets, throws: Throws, s: State, actions: seq<Action>)
    requires Ascending(s.log) && FreshIds(s.log, actions)
    ensures Tracked(me, listeners, throws, s, OnTime(me, listeners, throws, s, actions),
                    After(me, listeners, throws, s, actions))
  {
    if actions == [] {
      EmptyWindow(me, s.log, s.lastEventId);
    } else {
      var rest := actions[..|actions| - 1];
      RunAccounted(me, listeners, throws, s, rest);
      LogOf(me, listeners, throws, s, rest);
      var before, rows := After(me, listeners, throws, s, rest), OnTime(me, listeners, throws, s, rest);
      match actions[|actions| - 1]
      case Publish(e) => PublishTracked(me, listeners, throws, s, rows, before, e);
      case Polling => PollTracked(me, listeners, throws, s, rows, before);
    }
  }

  lemma EmptyWindow(me: string, log: seq<Event>, last: nat)
    ensures Filter(log, Foreign(me, last, last)) == []
  {
    FilterNone(log, Foreign(me, last, last));
  }

  /** A poll never takes the cursor back. */
  lemma {:induction false} DeliveredForward(me: string, listeners: Buckets, throws: Throws, rows: seq<Event>, last: nat)
    ensures Delivered(me, listeners, throws, rows, last).lastEventId >= last
    decreases |rows|
  {
    if rows != [] {
      DeliveredForward(me, listeners, throws, rows[1..], Max(last, rows[0].id));
    }
  }

  /** The cursor never falls, whatever the ids and the listeners. */
  lemma {:induction false} CursorNeverFalls(
    me: string, listeners: Buckets, throws: Throws, s: State, actions: seq<Action>, k: nat)
    requires k <= |actions|
    ensures After(me, listeners, throws, s, actions).lastEventId
            >= After(me, listeners, throws, s, actions[..k]).lastEventId
    decreases |actions|
  {
    if k < |actions| {
      var rest := actions[..|actions| - 1];
      assert rest[..k] == actions[..k];
      CursorNeverFalls(me, listeners, throws, s, rest, k);
      var before := After(me, listeners, throws, s, rest);
      DeliveredForward(me, listeners, throws, Filter(before.log, Behind(before.lastEventId)), before.lastEventId);
    } else {
      assert actions[..k] == actions;
    }
  }

  // ---- what one listener gets -------------------------------------------------------------

  function CallOf(listener: nat): Call -> bool {
    (c: Call) => c.listener == listener
  }

  /** The events a listener was called with, in order. */
  function EventsOf(calls: seq<Call>): (r: seq<Event>)
    ensures |r| == |calls|
  {
    if calls == [] then [] else [calls[0].event] + EventsOf(calls[1..])
  }

  /** An event reaches a listener: it is a recipient and nobody called before it throws. */
  predicate Reaches(recipients: seq<nat>, throws: Throws, e: Event, listener: nat) {
    recipients != [] &&
    (recipients[0] == listener || (!throws(recipients[0], e) && Reaches(recipients[1..], throws, e, listener)))
  }

  function Reached(listeners: Buckets, throws: Throws, listener: nat): Event -> bool {
    (e: Event) => Reaches(Recipients(listeners, e), throws, e, listener)
  }

  /** Where nobody throws, an event reaches exactly the listeners of its type and of `*`. */
  lemma {:induction false} ReachesAll(recipients: seq<nat>, throws: Throws, e: Event, listener: nat)
    requires !SomeThrows(recipients, throws, e)
    ensures Reaches(recipients, throws, e, listener) <==> listener in recipients
  {
    if recipients != [] {
      assert recipients[0] in recipients;
      ReachesAll(recipients[1..], throws, e, listener);
    }
  }

  lemma {:induction false} NotCalled(recipients: seq<nat>, throws: Throws, e: Event, listener: nat)
    requires listener !in recipients
    ensures Filter(CallsTo(recipients, throws, e), CallOf(listener)) == []
  {
    if recipients != [] {
      NotCalled(recipients[1..], throws, e, listener);
    }
  }

  lemma {:induction false} CalledOnce(recipients: seq<nat>, throws: Throws, e: Event, listener: nat)
    requires Distinct(recipients)
    ensures Filter(CallsTo(recipients, throws, e), CallOf(listener)) ==
            if Reaches(recipients, throws, e, listener) then [Call(listener, e)] else []
  {
    if recipients != [] {
      var rest := recipients[1..];
      assert recipients[0] !in rest;
      if recipients[0] == listener {
        NotCalled(rest, throws, e, listener);
      } else {
        CalledOnce(rest, throws, e, listener);
      }
      FilterCons(Call(recipients[0], e), CallsTo(rest, throws, e), CallOf(listener));
    }
  }

  lemma {:induction false} EventsOfConcat(a: seq<Call>, b: seq<Call>)
    ensures EventsOf(a + b) == EventsOf(a) + EventsOf(b)
  {
    if a == [] {
      assert a + b == b;
    } else {
      assert (a + b)[1..] == a[1..] + b;
      EventsOfConcat(a[1..], b);
    }
  }

  lemma {:induction false} HeardInOrder(events: seq<Event>, listeners: Buckets, throws: Throws, listener: nat)
    ensures EventsOf(Filter(FlatMap(events, CallsFor(listeners, throws)), CallOf(listener)))
            == Filter(events, Reached(listeners, throws, listener))
  {
    if events != [] {
      var e, rest, calls := events[0], events[1..], CallsFor(listeners, throws);
      FilterConcat(calls(e), FlatMap(rest, calls), CallOf(listener));
      CalledOnce(Recipients(listeners, e), throws, e, listener);
      EventsOfConcat(Filter(calls(e), CallOf(listener)), Filter(FlatMap(rest, calls), CallOf(listener)));
      HeardInOrder(rest, listeners, throws, listener);
    }
  }

  /**
   * Delivery. From any state on, in whatever order ids become visible, however often the instance polls and
   * whichever listeners throw: a listener is called with exactly the foreign events between the old and the new
   * cursor that were visible in time and reach it, once each and in id order, and never with one of the instance's own.
   */
  lemma EventsAreDelivered(
    me: string, listeners: Buckets, throws: Throws, s: State, actions: seq<Action>, listener: nat)
    requires Ascending(s.log) && FreshIds(s.log, actions)
    ensures var t := After(me, listeners, throws, s, actions);
            && t.log == Logged(s.log, actions)
            && EventsOf(Filter(t.calls, CallOf(listener))) ==
               EventsOf(Filter(s.calls, CallOf(listener)))
               + Filter(Filter(OnTime(me, listeners, throws, s, actions), Foreign(me, s.lastEventId, t.lastEventId)),
                        Reached(listeners, throws, listener))
  {
    RunAccounted(me, listeners, throws, s, actions);
    LogOf(me, listeners, throws, s, actions);
    var t, calls := After(me, listeners, throws, s, actions), CallsFor(listeners, throws);
    var heard := Filter(OnTime(me, listeners, throws, s, actions), Foreign(me, s.lastEventId, t.lastEventId));
    FilterConcat(s.calls, FlatMap(heard, calls), CallOf(listener));
    EventsOfConcat(Filter(s.calls, CallOf(listener)), Filter(FlatMap(heard, calls), CallOf(listener)));
    HeardInOrder(heard, listeners, throws, listener);
  }

  // ---- rows that become visible late --------------------------------------------------------

  lemma {:induction false} LoggedKeeps(log: seq<Event>, actions: seq<Action>, k: nat, e: Event)
    requires k <= |actions| && e in Logged(log, actions[..k])
    ensures e in Logged(log, actions)
    decreases |actions|
  {
    if k < |actions| {
      assert actions[..|actions| - 1][..k] == actions[..k];
      LoggedKeeps(log, actions[..|actions| - 1], k, e);
    } else {
      assert actions[..k] == actions;
    }
  }

  lemma OnTimeStep(me: string, listeners: Buckets, throws: Throws, s: State, actions: seq<Action>, e: Event)
    requires actions != []
    ensures var rest := actions[..|actions| - 1];
            e in OnTime(me, listeners, throws, s, actions) <==>
            || e in OnTime(me, listeners, throws, s, rest)
            || (actions[|actions| - 1] == Publish(e) && e.id > After(me, listeners, throws, s, rest).lastEventId)
  {
  }

  lemma OnTimeLogged(me: string, listeners: Buckets, throws: Throws, s: State, actions: seq<Action>, e: Event)
    requires Ascending(s.log) && FreshIds(s.log, actions)
    ensures e in OnTime(me, listeners, throws, s, actions) ==> e in Logged(s.log, actions)
  {
    RunAccounted(me, listeners, throws, s, actions);
    LogOf(me, listeners, throws, s, actions);
  }

  lemma PublishedLogged(log: seq<Event>, actions: seq<Action>, k: nat)
    requires k < |actions| && actions[k].Publish?
    ensures actions[k].event in Logged(log, actions)
  {
    var upTo := actions[..k + 1];
    assert upTo[..|upTo| - 1] == actions[..k] && upTo[|upTo| - 1] == actions[k];
    LoggedKeeps(log, actions, k + 1, actions[k].event);
  }

  /** A row published at step k is among the rows on time exactly when the cursor was below it. */
  lemma {:induction false} OnTimeIff(
    me: string, listeners: Buckets, throws: Throws, s: State, actions: seq<Action>, k: nat)
    requires Ascending(s.log) && FreshIds(s.log, actions)
    requires k < |actions| && actions[k].Publish?
    ensures actions[k].event in OnTime(me, listeners, throws, s, actions) <==>
            actions[k].event.id > After(me, listeners, throws, s, actions[..k]).lastEventId
    decreases |actions|
  {
    var rest, e := actions[..|actions| - 1], actions[k].event;
    OnTimeStep(me, listeners, throws, s, actions, e);
    if k < |rest| {
      assert rest[..k] == actions[..k] && rest[k] == actions[k];
      OnTimeIff(me, listeners, throws, s, rest, k);
      PublishedLogged(s.log, rest, k);
    } else {
      assert actions[..k] == rest;
      OnTimeLogged(me, listeners, throws, s, rest, e);
    }
  }

  /** Somebody was called with an event. */
  ghost predicate Heard(calls: seq<Call>, e: Event) {
    exists c :: c in calls && c.event == e
  }

  lemma HeardIff(events: seq<Event>, listeners: Buckets, throws: Throws, e: Event)
    requires Recipients(listeners, e) != []
    ensures Heard(FlatMap(events, CallsFor(listeners, throws)), e) <==> e in events
  {
    var calls := FlatMap(events, CallsFor(listeners, throws));
    if e in events {
      var c := Call(Recipients(listeners, e)[0], e);
      assert c in CallsFor(listeners, throws)(e);
      FlatMapMember(events, CallsFor(listeners, throws), e, c);
    }
    if Heard(calls, e) {
      var c :| c in calls && c.event == e;
      var x :| x in events && c in CallsFor(listeners, throws)(x);
      CallsOfOne(Recipients(listeners, x), throws, x);
    }
  }

  lemma {:induction false} CallsOfOne(recipients: seq<nat>, throws: Throws, e: Event)
    ensures forall c :: c in CallsTo(recipients, throws, e) ==> c.event == e
  {
    if recipients != [] {
      CallsOfOne(recipients[1..], throws, e);
    }
  }

  /**
   * Late rows. Let a foreign event with somebody to hear it become visible at some step of a run at whose end the
   * cursor has passed its id. The run calls nobody with it exactly when the cursor had reached its id before it
   * became visible: such an event is lost, every other is delivered.
   */
  lemma LateRowsAreMissed(
    me: string, listeners: Buckets, throws: Throws, s: State, actions: seq<Action>, k: nat)
    requires Ascending(s.log) && FreshIds(s.log, actions)
    requires k < |actions| && actions[k].Publish?
    requires actions[k].event.source != me && Recipients(listeners, actions[k].event) != []
    requires After(me, listeners, throws, s, actions).lastEventId >= actions[k].event.id
    ensures var t, e := After(me, listeners, throws, s, actions), actions[k].event;
            && s.calls <= t.calls
            && (!Heard(t.calls[|s.calls|..], e) <==> After(me, listeners, throws, s, actions[..k]).lastEventId >= e.id)
  {
    var t, e := After(me, listeners, throws, s, actions), actions[k].event;
    var rows := OnTime(me, listeners, throws, s, actions);
    var heard := Filter(rows, Foreign(me, s.lastEventId, t.lastEventId));
    RunAccounted(me, listeners, throws, s, actions);
    OnTimeIff(me, listeners, throws, s, actions, k);
    CursorNeverFalls(me, listeners, throws, s, actions[..k], 0);
    assert t.calls[|s.calls|..] == FlatMap(heard, CallsFor(listeners, throws));
    HeardIff(heard, listeners, throws, e);
  }
}
