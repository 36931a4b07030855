/**
 Validation incidents (record_incident, backend/app/db/market_identity_repository.py): one row per
 market and code that counts occurrences, and an event only when the state changes.
 */
module MarketIncidents {
  datatype Report = Report(marketKey: string, code: string, state: string, payload: string, now: int)

  datatype Incident = Incident(
    marketKey: string, code: string, firstSeen: int, lastSeen: int, state: string, occurrences: nat, payload: string)

  datatype Event = Event(incidentId: string, state: string, observedAt: int, payload: string)

  datatype Store = Store(incidents: map<string, Incident>, events: seq<Event>)

  /** The effect of one report; `digest` is the hash of market and code. */
  function Recorded(digest: (string, string) -> string, s: Store, r: Report): Store {
    var id := digest(r.marketKey, r.code);
    var known := id in s.incidents;
    Store(
      s.incidents[id :=
        if known then
          s.incidents[id].(lastSeen := r.now, state := r.state, occurrences := s.incidents[id].occurrences + 1, payload := r.payload)
        else Incident(r.marketKey, r.code, r.now, r.now, r.state, 1, r.payload)],
      if known && s.incidents[id].state == r.state then s.events
      else s.events + [Event(id, r.state, r.now, r.payload)])
  }

  function Run(digest: (string, string) -> string, reports: seq<Report>): Store {
    if reports == [] then Store(map[], [])
    else Recorded(digest, Run(digest, reports[..|reports| - 1]), reports[|reports| - 1])
  }

  class IncidentLog {
    const digest: (string, string) -> string
    var incidents: map<string, Incident>
    var events: seq<Event>

    constructor (digest: (string, string) -> string)
      ensures this.digest == digest && State() == Store(map[], [])
    {
      this.digest := digest;
      incidents, events := map[], [];
    }

    function State(): Store
      reads this
    {
      Store(incidents, events)
    }

    method RecordIncident(marketKey: string, code: string, payload: string, state: string, now: int)
      modifies this
      ensures State() == Recorded(digest, old(State()), Report(marketKey, code, state, payload, now))
    {
      var key := digest(marketKey, code);
      if key !in incidents || incidents[key].state != state {
        events := events + [Event(key, state, now, payload)];
      }
      if key in incidents {
        var row := incidents[key];
        incidents := incidents[key := row.(lastSeen := now, state := state, occurrences := row.occurrences + 1, payload := payload)];
      } else {
        incidents := incidents[key := Incident(marketKey, code, now, now, state, 1, payload)];
      }
    }
  }

  // ---------- the log is the run-length compression of the reports ----------

  function ReportsOf(digest: (string, string) -> string, reports: seq<Report>, id: string): (mine: seq<Report>) {
    if reports == [] then []
    else
      var mine := ReportsOf(digest, reports[..|reports| - 1], id);
      var last := reports[|reports| - 1];
      if digest(last.marketKey, last.code) == id then mine + [last] else mine
  }

  function EventsOf(events: seq<Event>, id: string): seq<Event> {
    if events == [] then []
    else
      var mine := EventsOf(events[..|events| - 1], id);
      if events[|events| - 1].incidentId == id then mine + [events[|events| - 1]] else mine
  }

  /** The reports whose state differs from the one before. */
  function Changes(mine: seq<Report>): (changes: seq<Report>)
    ensures mine != [] ==> changes != [] && changes[|changes| - 1].state == mine[|mine| - 1].state
    ensures forall i, j :: 0 <= i < j < |changes| && j == i + 1 ==> changes[i].state != changes[j].state
  {
    if mine == [] then []
    else
      var (init, last) := (mine[..|mine| - 1], mine[|mine| - 1]);
      if init != [] && init[|init| - 1].state == last.state then Changes(init) else Changes(init) + [last]
  }

  function AsEvents(id: string, changes: seq<Report>): seq<Event> {
    seq(|changes|, i requires 0 <= i < |changes| => Event(id, changes[i].state, changes[i].now, changes[i].payload))
  }

  function Summary(mine: seq<Report>): Incident
    requires mine != []
  {
    var (first, last) := (mine[0], mine[|mine| - 1]);
    Incident(first.marketKey, first.code, first.now, last.now, last.state, |mine|, last.payload)
  }

  /** The row summarizes these reports and the events are exactly their changes of state. */
  ghost predicate Follows(s: Store, mine: seq<Report>, id: string) {
    && (id in s.incidents <==> mine != [])
    && (mine != [] ==> s.incidents[id] == Summary(mine))
    && EventsOf(s.events, id) == AsEvents(id, Changes(mine))
  }

  lemma OneMoreEvent(events: seq<Event>, e: Event, id: string)
    ensures EventsOf(events + [e], id) == if e.incidentId == id then EventsOf(events, id) + [e] else EventsOf(events, id)
  {
    assert (events + [e])[..|events|] == events;
  }

  lemma ChangesGrow(mine: seq<Report>, r: Report)
    ensures Changes(mine + [r]) ==
              if mine != [] && mine[|mine| - 1].state == r.state then Changes(mine) else Changes(mine) + [r]
  {
    assert (mine + [r])[..|mine|] == mine;
  }

  lemma OneMoreChange(mine: seq<Report>, r: Report, id: string)
    ensures AsEvents(id, Changes(mine + [r])) ==
              if mine != [] && mine[|mine| - 1].state == r.state then AsEvents(id, Changes(mine))
              else AsEvents(id, Changes(mine)) + [Event(id, r.state, r.now, r.payload)]
  {
    hide Changes;
    ChangesGrow(mine, r);
  }

  lemma ReportKeeps(digest: (string, string) -> string, s: Store, mine: seq<Report>, r: Report, id: string)
    requires Follows(s, mine, id)
    ensures Follows(Recorded(digest, s, r), if digest(r.marketKey, r.code) == id then mine + [r] else mine, id)
  {
    hide EventsOf, AsEvents, Changes;
    OneMoreEvent(s.events, Event(digest(r.marketKey, r.code), r.state, r.now, r.payload), id);
    OneMoreChange(mine, r, id);
  }

  /** Per incident, the row summarizes all its reports and the events are exactly its changes of state. */
  lemma {:induction false} IncidentsFollowReports(digest: (string, string) -> string, reports: seq<Report>, id: string)
    ensures Follows(Run(digest, reports), ReportsOf(digest, reports, id), id)
  {
    if reports == [] {
      assert Changes([]) == [] && AsEvents(id, Changes([])) == [];
    } else {
      hide Follows, Recorded;
      IncidentsFollowReports(digest, reports[..|reports| - 1], id);
      ReportKeeps(digest, Run(digest, reports[..|reports| - 1]), ReportsOf(digest, reports[..|reports| - 1], id),
        reports[|reports| - 1], id);
    }
  }
}
