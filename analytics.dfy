/**
 * POST /api/analytics: the per-video view and completion counters.
 *
 * The persisted table maps a video identifier to its two counters. A valid
 * request loads the whole table, creates a zero entry for an unseen
 * identifier, bumps one counter according to the event and writes the whole
 * table back.
 */
module Analytics {
  import opened Wrappers
  import opened Io
  import opened Http

  datatype Counts = Counts(views: nat, completions: nat)

  const Zero: Counts := Counts(0, 0)

  /** The parsed contents of data/analytics.json. */
  type Table = map<string, Counts>

  const MissingFields: string := "Missing videoId or event"
  const InternalError: string := "Internal server error"

  /** JavaScript falsiness of a string-valued request field: absent or empty. */
  predicate Falsy(field: Option<string>)
  {
    field == None || field == Some("")
  }

  /** The counters of `id`; an absent entry reads as zero. */
  function Lookup(table: Table, id: string): Counts
  {
    if id in table then table[id] else Zero
  }

  /** The effect of one event on one entry's counters. */
  function Bump(c: Counts, event: string): Counts
  {
    if event == "view" then c.(views := c.views + 1)
    else if event == "completion" then c.(completions := c.completions + 1)
    else c
  }

  /** The table after one accepted event for `id`. */
  function Record(table: Table, id: string, event: string): Table
  {
    table[id := Bump(Lookup(table, id), event)]
  }

  /** The table after a series of accepted events for the same `id`, in order. */
  function Replay(table: Table, id: string, events: seq<string>): Table
    decreases |events|
  {
    if events == [] then table else Replay(Record(table, id, events[0]), id, events[1..])
  }

  /** No counter of any entry is lower in `after` than in `before`, and no entry disappears. */
  predicate Dominates(after: Table, before: Table)
  {
    forall k | k in before ::
      k in after && after[k].views >= before[k].views && after[k].completions >= before[k].completions
  }

  /** After an accepted event, `id` has an entry and the table has no other new key. */
  lemma RecordVivifies(table: Table, id: string, event: string)
    ensures id in Record(table, id, event)
    ensures Record(table, id, event).Keys == table.Keys + {id}
    ensures id !in table && event != "view" && event != "completion" ==>
      Record(table, id, event)[id] == Zero
  {
  }

  /** A "view" adds exactly one view and leaves the completions alone. */
  lemma RecordView(table: Table, id: string)
    ensures Record(table, id, "view")[id].views == Lookup(table, id).views + 1
    ensures Record(table, id, "view")[id].completions == Lookup(table, id).completions
  {
  }

  /** A "completion" adds exactly one completion and leaves the views alone. */
  lemma RecordCompletion(table: Table, id: string)
    ensures Record(table, id, "completion")[id].completions == Lookup(table, id).completions + 1
    ensures Record(table, id, "completion")[id].views == Lookup(table, id).views
  {
  }

  /** Any other event changes no counter; it only materialises a missing zero entry. */
  lemma RecordOtherEvent(table: Table, id: string, event: string)
    requires event != "view" && event != "completion"
    ensures Record(table, id, event)[id] == Lookup(table, id)
    ensures id in table ==> Record(table, id, event) == table
  {
  }

  /** Entries of every other identifier are untouched, and no counter decreases. */
  lemma RecordFrame(table: Table, id: string, event: string)
    ensures Record(table, id, event) - {id} == table - {id}
    ensures Dominates(Record(table, id, event), table)
  {
  }

  /**
   * Closed form of a series of events on one identifier: the identifier's
   * counters grow by the number of "view" and "completion" events in it,
   * whatever their order, and nothing else changes.
   */
  lemma {:induction false} ReplayClosedForm(table: Table, id: string, events: seq<string>)
    ensures Replay(table, id, events) ==
      if events == [] then table
      else table[id := Counts(Lookup(table, id).views + multiset(events)["view"],
                              Lookup(table, id).completions + multiset(events)["completion"])]
    decreases |events|
  {
    if events != [] {
      var e, rest := events[0], events[1..];
      var base := Lookup(table, id);
      var next := Record(table, id, e);
      assert events == [e] + rest;
      assert multiset(events) == multiset([e]) + multiset(rest);
      assert Lookup(next, id) == Bump(base, e);
      assert Bump(base, e) == Counts(base.views + multiset([e])["view"],
                                     base.completions + multiset([e])["completion"]);
      ReplayClosedForm(next, id, rest);
      if rest != [] {
        assert next[id := Counts(Lookup(next, id).views + multiset(rest)["view"],
                                 Lookup(next, id).completions + multiset(rest)["completion"])]
            == table[id := Counts(base.views + multiset(events)["view"],
                                  base.completions + multiset(events)["completion"])];
      }
    }
  }

  /** Starting from no entry, N views and M completions in any order give {views: N, completions: M}. */
  lemma ReplayFromAbsent(table: Table, id: string, events: seq<string>, n: nat, m: nat)
    requires id !in table
    requires multiset(events)["view"] == n && multiset(events)["completion"] == m
    ensures Lookup(Replay(table, id, events), id) == Counts(n, m)
  {
    ReplayClosedForm(table, id, events);
  }

  /** Reordering the events of one identifier does not change the resulting table. */
  lemma ReplayCommutes(table: Table, id: string, events: seq<string>, reordered: seq<string>)
    requires multiset(events) == multiset(reordered)
    ensures Replay(table, id, events) == Replay(table, id, reordered)
  {
    assert |events| == |multiset(events)| == |multiset(reordered)| == |reordered|;
    ReplayClosedForm(table, id, events);
    ReplayClosedForm(table, id, reordered);
  }

  /** A series of events never lowers a counter. */
  lemma ReplayMonotone(table: Table, id: string, events: seq<string>)
    ensures Dominates(Replay(table, id, events), table)
  {
    ReplayClosedForm(table, id, events);
  }

  /**
   * The keys that a plain object parsed by `JSON.parse` inherits from
   * `Object.prototype`. Reading one of them from the table yields a truthy
   * value even when the table has no such entry.
   */
  const InheritedKeys: set<string> := {
    "constructor", "hasOwnProperty", "isPrototypeOf", "propertyIsEnumerable",
    "toLocaleString", "toString", "valueOf", "__proto__",
    "__defineGetter__", "__defineSetter__", "__lookupGetter__", "__lookupSetter__"
  }

  /** `!analytics[videoId]`: true only when the table has no own entry and inherits none. */
  predicate LooksAbsent(table: Table, id: string)
  {
    id !in table && id !in InheritedKeys
  }

  /** Lines 16-18 as written: the zero entry is created only when the truthiness test passes. */
  function VivifyAsWritten(table: Table, id: string): Table
  {
    if LooksAbsent(table, id) then table[id := Zero] else table
  }

  /**
   * Lines 20-25 as written: the increment reaches the table only through an
   * entry the table itself has; otherwise it lands on the inherited value.
   */
  function BumpAsWritten(table: Table, id: string, event: string): Table
  {
    if id in table then table[id := Bump(table[id], event)] else table
  }

  /** One accepted event as the handler's object operations actually behave. */
  function RecordAsWritten(table: Table, id: string, event: string): Table
  {
    BumpAsWritten(VivifyAsWritten(table, id), id, event)
  }

  /** For every id with an own entry, and every id that is not an inherited key, the code does what is intended. */
  lemma RecordAsWrittenAgrees(table: Table, id: string, event: string)
    requires id in table || id !in InheritedKeys
    ensures RecordAsWritten(table, id, event) == Record(table, id, event)
  {
  }

  /** For an inherited key with no own entry, every event leaves the saved table as it was. */
  lemma RecordAsWrittenDropsInherited(table: Table, id: string, event: string)
    requires id in InheritedKeys && id !in table
    ensures RecordAsWritten(table, id, event) == table
  {
  }

  /** A "view" for a video whose identifier is "constructor" is acknowledged but never counted. */
  lemma InheritedKeyDropsEvent()
    ensures "constructor" !in RecordAsWritten(map[], "constructor", "view")
    ensures Record(map[], "constructor", "view")["constructor"] == Counts(1, 0)
  {
  }

  /** The analytics file, held as its parsed table. */
  class AnalyticsFile {
    var table: Table

    constructor (initial: Table)
      ensures table == initial
    {
      table := initial;
    }

    /**
     * POST /api/analytics with body `{ videoId, event }`. Fields the request
     * omits are `None`.
     */
    method Post(videoId: Option<string>, event: Option<string>, faults: Faults) returns (resp: Response)
      modifies this
      ensures ReadBody in faults ==> resp == ServerError(InternalError) && table == old(table)
      ensures ReadBody !in faults && (Falsy(videoId) || Falsy(event)) ==>
        resp == BadRequest(MissingFields) && table == old(table)
      ensures ReadBody !in faults && !Falsy(videoId) && !Falsy(event) && (ReadStore in faults || WriteStore in faults) ==>
        resp == ServerError(InternalError) && table == old(table)
      ensures ReadBody !in faults && !Falsy(videoId) && !Falsy(event) && ReadStore !in faults && WriteStore !in faults ==>
        resp == Ok(Success) && table == RecordAsWritten(old(table), videoId.value, event.value)
    {
      if ReadBody in faults {
        return ServerError(InternalError);
      }
      if Falsy(videoId) || Falsy(event) {
        return BadRequest(MissingFields);
      }
      if ReadStore in faults {
        return ServerError(InternalError);
      }
      var analytics := table;
      var id := videoId.value;
      if id !in analytics && id !in InheritedKeys {
        analytics := analytics[id := Zero];
      }
      // with no own entry, `analytics[videoId]` is the inherited value, and the increment is not saved
      if id in analytics {
        if event.value == "view" {
          analytics := analytics[id := analytics[id].(views := analytics[id].views + 1)];
        } else if event.value == "completion" {
          analytics := analytics[id := analytics[id].(completions := analytics[id].completions + 1)];
        }
      }
      if WriteStore in faults {
        return ServerError(InternalError);
      }
      table := analytics;
      return Ok(Success);
    }
  }
}
