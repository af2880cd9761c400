/**
 * `OSVR_ClientInterfaceObject`: one path of the client's view of the system.
 * It caches the latest state for each report type whose traits say to keep
 * state, and holds the callbacks registered for each report type.
 *
 * Report types and their `KeepStateForReport` trait are values here, and a
 * report's state is an opaque integer; callbacks are identified by the
 * `userdata` they were registered with.
 */
module ClientInterface {
  import opened TimeValues

  /** A report type, with its `KeepStateForReport` trait. */
  datatype ReportType = ReportType(name: string, keepsState: bool)

  /** A report of some type, carrying the state it reports. */
  datatype Report = Report(kind: ReportType, state: int)

  /** What `getState` hands back: the time of the report and its state. */
  datatype StateEntry = StateEntry(timestamp: TimeValue, state: int)

  /** A registered callback: the report type it listens to and its `userdata`. */
  datatype Callback = Callback(kind: ReportType, userdata: nat)

  /**
   * One callback call: whose, with which timestamp and report, and what
   * `getState` for the report's type would return at that moment.
   */
  datatype Invocation = Invocation(userdata: nat, timestamp: TimeValue, report: Report, seen: StateSeen)

  datatype StateSeen = NoState | Seen(entry: StateEntry)

  /** What `getState` reports for `kind` over the state map `state`. */
  function Lookup(state: map<ReportType, StateEntry>, kind: ReportType): (seen: StateSeen)
    ensures seen.Seen? <==> kind in state
    ensures seen.Seen? ==> seen.entry == state[kind]
  {
    if kind in state then Seen(state[kind]) else NoState
  }

  /** The state map after `triggerCallbacks(timestamp, report)` has run its `m_setState`. */
  function NextState(state: map<ReportType, StateEntry>, timestamp: TimeValue, report: Report): (next: map<ReportType, StateEntry>)
    ensures next.Keys == state.Keys + (if report.kind.keepsState then {report.kind} else {})
    ensures report.kind.keepsState ==> next[report.kind] == StateEntry(timestamp, report.state)
    ensures forall k :: k in state && k != report.kind ==> next[k] == state[k]
  {
    if report.kind.keepsState then state[report.kind := StateEntry(timestamp, report.state)] else state
  }

  /** The calls `triggerCallbacks` makes: the callbacks of the report's type, in registration order. */
  function Invocations(callbacks: seq<Callback>, timestamp: TimeValue, report: Report, seen: StateSeen): (calls: seq<Invocation>)
    ensures |calls| <= |callbacks|
  {
    if callbacks == [] then []
    else
      var rest := Invocations(callbacks[1..], timestamp, report, seen);
      if callbacks[0].kind == report.kind then [Invocation(callbacks[0].userdata, timestamp, report, seen)] + rest else rest
  }

  class ClientInterfaceObject {
    /** `m_path`: fixed at construction. */
    const path: string
    /** `m_state`: the latest state per report type. */
    var state: map<ReportType, StateEntry>
    /** `m_callbacks`: every registered callback, in registration order. */
    var callbacks: seq<Callback>

    constructor (path: string)
      ensures this.path == path && state == map[] && callbacks == []
    {
      this.path := path;
      state := map[];
      callbacks := [];
    }

    function GetPath(): (p: string)
      ensures p == path
    {
      path
    }

    /**
     * `getState`: `timestamp` and `st` play the C++ out-parameters; they come
     * back untouched when the interface holds no state for `kind`.
     */
    method GetState(kind: ReportType, timestamp: TimeValue, st: int) returns (found: bool, timestampOut: TimeValue, stOut: int)
      ensures found <==> kind in state
      ensures found ==> timestampOut == state[kind].timestamp && stOut == state[kind].state
      ensures !found ==> timestampOut == timestamp && stOut == st
    {
      if kind !in state {
        return false, timestamp, st;
      }
      var entry := state[kind];
      found, timestampOut, stOut := true, entry.timestamp, entry.state;
    }

    /** `registerCallback`: adds the callback; the state is not touched. */
    method RegisterCallback(kind: ReportType, userdata: nat)
      modifies this
      ensures callbacks == old(callbacks) + [Callback(kind, userdata)]
      ensures state == old(state)
    {
      callbacks := callbacks + [Callback(kind, userdata)];
    }

    /** `m_setState` for a report type that keeps state: records the report's state. */
    method SetStateKept(timestamp: TimeValue, report: Report)
      requires report.kind.keepsState
      modifies this
      ensures state == old(state)[report.kind := StateEntry(timestamp, report.state)]
      ensures callbacks == old(callbacks)
    {
      state := state[report.kind := StateEntry(timestamp, report.state)];
    }

    /** `m_setState` for a report type that keeps no state: does nothing. */
    method SetStateNotKept(timestamp: TimeValue, report: Report)
      requires !report.kind.keepsState
      ensures state == old(state)
    {
    }

    /**
     * `triggerCallbacks`: sets state first, then calls every callback of the
     * report's type in order; returns the calls made.
     */
    method TriggerCallbacks(timestamp: TimeValue, report: Report) returns (calls: seq<Invocation>)
      modifies this
      ensures state == NextState(old(state), timestamp, report)
      ensures callbacks == old(callbacks)
      ensures calls == Invocations(callbacks, timestamp, report, Lookup(state, report.kind))
    {
      if report.kind.keepsState {
        SetStateKept(timestamp, report);
      } else {
        SetStateNotKept(timestamp, report);
      }
      var seen := Lookup(state, report.kind);
      calls := [];
      var i := 0;
      while i < |callbacks|
        invariant 0 <= i <= |callbacks|
        invariant calls == Invocations(callbacks[..i], timestamp, report, seen)
        invariant state == NextState(old(state), timestamp, report) && callbacks == old(callbacks)
      {
        assert callbacks[..i + 1] == callbacks[..i] + [callbacks[i]];
        InvocationsAfterRegister(callbacks[..i], callbacks[i], timestamp, report, seen);
        if callbacks[i].kind == report.kind {
          calls := calls + [Invocation(callbacks[i].userdata, timestamp, report, seen)];
        }
        i := i + 1;
      }
      assert callbacks[..i] == callbacks;
    }
  }

  /**
   * A report of a state-keeping type is in the state before any callback
   * runs, so each of them sees exactly that report through `getState`.
   */
  lemma CallbacksSeeKeptState(state: map<ReportType, StateEntry>, callbacks: seq<Callback>, timestamp: TimeValue, report: Report, i: nat)
    requires report.kind.keepsState
    requires var next := NextState(state, timestamp, report);
      i < |Invocations(callbacks, timestamp, report, Lookup(next, report.kind))|
    ensures var next := NextState(state, timestamp, report);
      Invocations(callbacks, timestamp, report, Lookup(next, report.kind))[i].seen == Seen(StateEntry(timestamp, report.state))
  {
    InvocationsCarry(callbacks, timestamp, report, Lookup(NextState(state, timestamp, report), report.kind), i);
  }

  /** Every call carries the given timestamp, report and state, for a callback of the report's type. */
  lemma {:induction false} InvocationsCarry(callbacks: seq<Callback>, timestamp: TimeValue, report: Report, seen: StateSeen, i: nat)
    requires i < |Invocations(callbacks, timestamp, report, seen)|
    ensures var inv := Invocations(callbacks, timestamp, report, seen)[i];
      && inv.timestamp == timestamp && inv.report == report && inv.seen == seen
      && Callback(report.kind, inv.userdata) in callbacks
  {
    var rest := Invocations(callbacks[1..], timestamp, report, seen);
    if callbacks[0].kind == report.kind && i == 0 {
    } else {
      var j := if callbacks[0].kind == report.kind then i - 1 else i;
      InvocationsCarry(callbacks[1..], timestamp, report, seen, j);
      assert Invocations(callbacks, timestamp, report, seen)[i] == rest[j];
    }
  }

  /** Every callback of the report's type is called. */
  lemma {:induction false} InvocationsComplete(callbacks: seq<Callback>, timestamp: TimeValue, report: Report, seen: StateSeen, i: nat)
    requires i < |callbacks| && callbacks[i].kind == report.kind
    ensures Invocation(callbacks[i].userdata, timestamp, report, seen) in Invocations(callbacks, timestamp, report, seen)
  {
    if i > 0 {
      assert callbacks[1..][i - 1] == callbacks[i];
      InvocationsComplete(callbacks[1..], timestamp, report, seen, i - 1);
    }
  }

  /** A callback registered later is called after all the earlier ones. */
  lemma {:induction false} InvocationsAfterRegister(callbacks: seq<Callback>, cb: Callback, timestamp: TimeValue, report: Report, seen: StateSeen)
    ensures Invocations(callbacks + [cb], timestamp, report, seen)
      == Invocations(callbacks, timestamp, report, seen)
         + (if cb.kind == report.kind then [Invocation(cb.userdata, timestamp, report, seen)] else [])
  {
    if callbacks != [] {
      assert (callbacks + [cb])[1..] == callbacks[1..] + [cb];
      InvocationsAfterRegister(callbacks[1..], cb, timestamp, report, seen);
    }
  }

  /**
   * `triggerCallbacks` changes the state only at the report's own type, and
   * there only when the type keeps state.
   */
  lemma NextStateChangesOnlyKept(state: map<ReportType, StateEntry>, timestamp: TimeValue, report: Report, kind: ReportType)
    ensures Lookup(NextState(state, timestamp, report), kind)
      == if kind == report.kind && report.kind.keepsState then Seen(StateEntry(timestamp, report.state)) else Lookup(state, kind)
  {
  }
}
