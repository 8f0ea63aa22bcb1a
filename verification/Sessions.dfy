/** The sessions of one peer, over every run of its handler. */
module Sessions {
  import opened Wire
  import opened Tables

  type Port = u16
  type Session = nat

  /**
   What the handler is woken by: a request, or a second without one. Sessions run on their own;
   those in `done` have finished by then. The requests end when the channel is closed. How many
   entries the table has room for at the time is up to the standard library, within `Roomy`.
   */
  datatype Event = Asked(port: Port, done: set<Session>, capacity: nat) | Idle(done: set<Session>, expired: bool)

  /**
   The sessions by port, how many there ever were, which of them were told that there are too many,
   which have finished, and whose handles are gone.
   */
  datatype State = State(
    sessions: map<Port, Session>, started: nat, refused: set<Session>, finished: set<Session>,
    discarded: multiset<Session>, stopped: bool)

  const EMPTY: State := State(map[], 0, {}, {}, multiset{}, false)

  ghost function Swept(s: State, done: set<Session>): State {
    var finished := s.finished + done;
    s.(sessions := Kept(s.sessions, finished),
    finished := finished,
    discarded := s.discarded + multiset(Discarded(s.sessions, finished)))
  }

  ghost function Step(s: State, event: Event): State {
    match event
    case Idle(done, expired) =>
      var s' := Swept(s, done);
      s'.(stopped := s'.sessions == map[] && expired)
    case Asked(port, done, capacity) =>
      if port in s.sessions then
        s
      else
        var s' := Swept(s, done);
        s'.(sessions := s'.sessions[port := s.started],
        started := s.started + 1,
        refused := if |s'.sessions| >= capacity then s.refused + {s.started} else s.refused)
  }

  /** Nothing happens any more once an idle handler has stopped. */
  ghost function After(events: seq<Event>): State {
    if events == [] then
      EMPTY
    else
      var s := After(events[..|events| - 1]);
      if s.stopped then s else Step(s, events[|events| - 1])
  }

  /** Each handle is held or discarded, exactly one of both, and discarded only when finished. */
  ghost predicate Conserved(s: State) {
    && Accounted(s.sessions, s.started, s.discarded)
    && forall x: Session :: x in s.discarded ==> x in s.finished
  }

  lemma {:induction false} SweptConserves(s: State, done: set<Session>)
    requires Conserved(s)
    ensures Conserved(Swept(s, done))
  {
    Retained(s.sessions, s.finished + done, s.started, s.discarded);
  }

  lemma {:induction false} StepConserves(s: State, event: Event)
    requires Conserved(s)
    ensures Conserved(Step(s, event))
  {
    SweptConserves(s, event.done);
    if event.Asked? && event.port !in s.sessions {
      var s' := Swept(s, event.done);
      assert event.port !in s'.sessions;
      Replaced(s'.sessions, event.port, s.started, s'.discarded);
    }
  }

  /** In every run no handle is overwritten or lost, and none is discarded before its session ends. */
  lemma {:induction false} SessionsConserved(events: seq<Event>)
    ensures Conserved(After(events))
  {
    if events != [] {
      var s := After(events[..|events| - 1]);
      SessionsConserved(events[..|events| - 1]);
      if !s.stopped {
        StepConserves(s, events[|events| - 1]);
      }
    }
  }

  lemma {:induction false} StaysStopped(events: seq<Event>, i: nat)
    requires i <= |events| && After(events[..i]).stopped
    ensures After(events) == After(events[..i])
    decreases |events|
  {
    if i < |events| {
      var before := events[..|events| - 1];
      assert before[..i] == events[..i];
      StaysStopped(before, i);
    } else {
      assert events[..i] == events;
    }
  }

  /** What the handler does when it is woken. */
  method HandleEvent(event: Event, sessions: map<Port, Session>, started: nat, refused: set<Session>, finished: set<Session>,
                     ghost discarded: multiset<Session>)
    returns (sessions': map<Port, Session>, started': nat, refused': set<Session>, finished': set<Session>,
             ghost discarded': multiset<Session>, stopped: bool)
    ensures State(sessions', started', refused', finished', discarded', stopped)
            == Step(State(sessions, started, refused, finished, discarded, false), event)
  {
    sessions', started', refused', finished', discarded', stopped := sessions, started, refused, finished, discarded, false;
    if event.Asked? && event.port in sessions {
      return;
    }
    finished' := finished + event.done;
    discarded' := discarded + multiset(Discarded(sessions, finished'));
    sessions' := Kept(sessions, finished');
    match event
    case Idle(_, expired) =>
      stopped := sessions' == map[] && expired;
    case Asked(port, _, capacity) =>
      if |sessions'| >= capacity {
        refused' := refused + {started};
      }
      sessions' := sessions'[port := started];
      started' := started + 1;
  }

  /** Waits for the sessions that are left, one after another. */
  method AwaitAll(sessions: map<Port, Session>, started: nat, finished: set<Session>, ghost discarded: multiset<Session>)
    returns (finished': set<Session>, ghost discarded': multiset<Session>)
    requires Accounted(sessions, started, discarded) && forall s: Session :: s in discarded ==> s in finished
    ensures forall s: Session :: discarded'[s] == if s < started then 1 else 0
    ensures forall s: Session :: s < started ==> s in finished'
  {
    var left := sessions;
    finished', discarded' := finished, discarded;
    while left != map[]
      invariant Accounted(left, started, discarded')
      invariant forall s: Session :: s in discarded' ==> s in finished'
      decreases |left|
    {
      var port :| port in left;
      Removed(left, port, started, discarded');
      finished' := finished' + {left[port]};
      discarded' := discarded' + multiset{left[port]};
      left := left - {port};
    }
    assert forall s: Session :: s < started ==> s in discarded';
  }

  lemma {:induction false} AfterAll(events: seq<Event>, i: nat)
    requires i <= |events| && (i == |events| || After(events[..i]).stopped)
    ensures After(events) == After(events[..i])
  {
    if i == |events| {
      assert events[..i] == events;
    } else {
      StaysStopped(events, i);
    }
  }

  /**
   The handler of one peer: starts a session for every request from a port that has none, and in
   the end waits for those that are left. The limit on sessions only sends an error; the session
   is started all the same.
   */
  method PeerRequestsHandler(events: seq<Event>)
    returns (started: nat, refused: set<Session>, finished: set<Session>, ghost discarded: multiset<Session>)
    ensures started == After(events).started && refused == After(events).refused
    ensures forall s: Session :: discarded[s] == if s < started then 1 else 0
    ensures forall s: Session :: s < started ==> s in finished
  {
    var sessions: map<Port, Session> := map[];
    var stopped, i := false, 0;
    started, refused, finished, discarded := 0, {}, {}, multiset{};
    while !stopped && i < |events|
      invariant i <= |events|
      invariant After(events[..i]) == State(sessions, started, refused, finished, discarded, stopped)
    {
      assert events[..i + 1][..i] == events[..i];
      sessions, started, refused, finished, discarded, stopped :=
        HandleEvent(events[i], sessions, started, refused, finished, discarded);
      i := i + 1;
    }
    AfterAll(events, i);
    SessionsConserved(events);
    finished, discarded := AwaitAll(sessions, started, finished, discarded);
  }

  // ---------------------------------------------------------------------------------------
  // What becomes of a session

  lemma {:induction false} AfterNext(events: seq<Event>, event: Event)
    requires !After(events).stopped
    ensures After(events + [event]) == Step(After(events), event)
  {
    assert (events + [event])[..|events|] == events;
  }

  /** Every session that is held has finished by the time of this event. */
  ghost predicate AllDone(s: State, event: Event) {
    forall p :: p in s.sessions ==> s.sessions[p] in s.finished || s.sessions[p] in event.done
  }

  /** The handler stops exactly at a second of silence that finds it idle too long and no session left. */
  lemma {:induction false} StopsExactly(events: seq<Event>, event: Event)
    requires !After(events).stopped
    ensures After(events + [event]).stopped <==> event.Idle? && event.expired && AllDone(After(events), event)
  {
    AfterNext(events, event);
    var s := After(events);
    var kept := Kept(s.sessions, s.finished + event.done);
    if !AllDone(s, event) {
      var p :| p in s.sessions && s.sessions[p] !in s.finished && s.sessions[p] !in event.done;
      assert p in kept;
    } else {
      assert kept == map[];
    }
  }

  /** The i-th event is such a second. */
  ghost predicate StopsAt(events: seq<Event>, i: nat) {
    && i < |events|
    && events[i].Idle?
    && events[i].expired
    && !After(events[..i]).stopped
    && AllDone(After(events[..i]), events[i])
  }

  lemma {:induction false} StopsBefore(events: seq<Event>, i: nat)
    requires i + 1 < |events|
    ensures StopsAt(events, i) <==> StopsAt(events[..|events| - 1], i)
  {
    assert events[..|events| - 1][..i] == events[..i];
  }

  /** In every run the handler has stopped exactly if there was such a second. */
  lemma {:induction false} StoppedExactly(events: seq<Event>)
    ensures After(events).stopped <==> exists i :: StopsAt(events, i)
  {
    if events != [] {
      var n, before := |events| - 1, events[..|events| - 1];
      StoppedExactly(before);
      forall i: nat | i < n ensures StopsAt(events, i) <==> StopsAt(before, i) {
        StopsBefore(events, i);
      }
      assert events == before + [events[n]];
      if !After(before).stopped {
        StopsExactly(before, events[n]);
        assert StopsAt(events, n) <==> After(events).stopped;
        assert forall i: nat :: StopsAt(events, i) ==> i < n || i == n;
      } else {
        var i: nat :| StopsAt(before, i);
        assert StopsAt(events, i);
      }
    }
  }

  /** The handler looks which sessions have finished, at this event. */
  predicate Sweeps(s: State, event: Event) {
    event.Idle? || event.port !in s.sessions
  }

  /** A session is held on exactly until the handler finds that it has finished. */
  lemma {:induction false} HeldExactly(events: seq<Event>, event: Event, p: Port)
    requires !After(events).stopped && p in After(events).sessions
    ensures var s, s' := After(events), After(events + [event]);
            (p in s'.sessions && s'.sessions[p] == s.sessions[p]) <==>
            !(Sweeps(s, event) && (s.sessions[p] in s.finished || s.sessions[p] in event.done))
  {
    AfterNext(events, event);
    SessionsConserved(events);
    assert After(events).sessions[p] in After(events).sessions.Values;
  }

  /** A request is served: its port has a session after it, a new one exactly if it had none before. */
  lemma {:induction false} ServedExactly(events: seq<Event>, port: Port, done: set<Session>, capacity: nat)
    requires !After(events).stopped
    ensures var s, s' := After(events), After(events + [Asked(port, done, capacity)]);
            && port in s'.sessions
            && (port in s.sessions ==> s' == s)
            && (port !in s.sessions ==> s'.started == s.started + 1 && s'.sessions[port] == s.started)
            && !s'.stopped
  {
    AfterNext(events, Asked(port, done, capacity));
  }

  /** Silence starts no session, and only a request for its own port does. */
  lemma {:induction false} StartsOnlyOnRequest(events: seq<Event>, event: Event, p: Port)
    requires !After(events).stopped
    ensures var s, s' := After(events), After(events + [event]);
            && (event.Idle? ==> s'.started == s.started && s'.refused == s.refused)
            && (p in s'.sessions && p !in s.sessions ==> event.Asked? && event.port == p)
  {
    AfterNext(events, event);
  }

  /** In a run without a second of silence that finds the handler idle too long, every request is served. */
  lemma {:induction false} AllServed(events: seq<Event>, port: Port, done: set<Session>, capacity: nat)
    requires forall i :: 0 <= i < |events| && events[i].Idle? ==> !events[i].expired
    ensures port in After(events + [Asked(port, done, capacity)]).sessions
    ensures After(events + [Asked(port, done, capacity)]).started
            == After(events).started + if port in After(events).sessions then 0 else 1
  {
    StoppedExactly(events);
    ServedExactly(events, port, done, capacity);
  }

  // ---------------------------------------------------------------------------------------
  // The limit on sessions

  /**
   What a table has room for: never less than it holds, and more than that once something was
   inserted into a full one.
   */
  ghost predicate Roomy(s: State, event: Event) {
    event.Asked? && event.port !in s.sessions ==>
      var size := |Swept(s, event.done).sessions|;
      size <= event.capacity && (s.started > 0 && s.started - 1 in s.refused ==> size < event.capacity)
  }

  /** At each request the table has such room. */
  ghost predicate Plausible(events: seq<Event>) {
    events == [] || (
      var before := events[..|events| - 1];
      Plausible(before) && (After(before).stopped || Roomy(After(before), events[|events| - 1])))
  }

  /** No two sessions in a row were refused. */
  ghost predicate Spaced(s: State) {
    && (forall x :: x in s.refused ==> x < s.started)
    && (forall x, y :: x in s.refused && y in s.refused ==> y != x + 1)
  }

  lemma {:induction false} StepSpaced(s: State, event: Event)
    requires Spaced(s) && Roomy(s, event)
    ensures Spaced(Step(s, event))
  {
    StepRefuses(s, event);
  }

  /** A step refuses nobody, or the session it starts, and that only if it did not refuse the last one. */
  lemma {:induction false} StepRefuses(s: State, event: Event)
    requires Roomy(s, event)
    ensures var s' := Step(s, event);
            || (s'.refused == s.refused && s'.started >= s.started)
            || (s'.refused == s.refused + {s.started} && s'.started == s.started + 1
                && (s.started == 0 || s.started - 1 !in s.refused))
  {
  }

  /** No two requests in a row find the table full, so an error is never sent twice in a row. */
  lemma {:induction false} NeverRefusedTwice(events: seq<Event>)
    requires Plausible(events)
    ensures Spaced(After(events))
  {
    if events != [] {
      var before := events[..|events| - 1];
      NeverRefusedTwice(before);
      if !After(before).stopped {
        StepSpaced(After(before), events[|events| - 1]);
      }
    }
  }

  /** Requests from the first ports, one after another, while no session finishes. */
  function Flood(room: seq<nat>): (events: seq<Event>)
    requires |room| <= WORDS
    ensures |events| == |room|
  {
    if room == [] then [] else Flood(room[..|room| - 1]) + [Asked(|room| - 1, {}, room[|room| - 1])]
  }

  /** The room is never less than the table holds, and more once it was full. */
  ghost predicate Growing(room: seq<nat>) {
    forall i :: 0 <= i < |room| ==> i <= room[i] && (i > 0 && room[i - 1] == i - 1 ==> i < room[i])
  }

  /** The first ports have a session each, and those that found the table full were told of it. */
  ghost predicate Flooded(s: State, room: seq<nat>) {
    && s.started == |room|
    && (forall port: Port :: port in s.sessions <==> port < |room|)
    && |s.sessions| == |room|
    && s.finished == {}
    && (forall x: Session :: x in s.refused <==> x < |room| && room[x] == x)
    && !s.stopped
  }

  lemma {:induction false} OneMoreServed(s: State, port: Port, capacity: nat)
    requires port == s.started == |s.sessions| && port !in s.sessions && s.finished == {} && !s.stopped
    ensures var s' := Step(s, Asked(port, {}, capacity));
            && s'.sessions == s.sessions[port := port]
            && |s'.sessions| == port + 1
            && (s'.started, s'.finished, s'.stopped) == (port + 1, {}, false)
            && s'.refused == if port >= capacity then s.refused + {port} else s.refused
    ensures Swept(s, {}).sessions == s.sessions
  {
    var m := s.sessions;
    assert Kept(m, {} + {}) == m;
    var m' := m[port := port];
    assert m'.Keys == m.Keys + {port};
    assert |m'| == |m'.Keys| && |m| == |m.Keys|;
  }

  lemma {:induction false} FloodStep(s: State, room: seq<nat>, n: nat)
    requires |room| == n + 1 <= WORDS && Growing(room) && Flooded(s, room[..n])
    ensures Roomy(s, Asked(n, {}, room[n])) && Flooded(Step(s, Asked(n, {}, room[n])), room)
  {
    OneMoreServed(s, n, room[n]);
    assert n <= room[n];
    assert forall x: Session :: x < n ==> room[..n][x] == room[x];
  }

  lemma {:induction false} OneMoreEvent(events: seq<Event>, event: Event)
    requires Plausible(events) && !After(events).stopped && Roomy(After(events), event)
    ensures Plausible(events + [event]) && After(events + [event]) == Step(After(events), event)
  {
    assert (events + [event])[..|events|] == events;
  }

  /**
   The limit is none: whatever room the table has, all that ask are served at once, and exactly
   those that found the table full get an error besides.
   */
  lemma {:induction false} LimitNotEnforced(room: seq<nat>)
    requires |room| <= WORDS && Growing(room)
    ensures Plausible(Flood(room)) && Flooded(After(Flood(room)), room)
  {
    if room != [] {
      var n := |room| - 1;
      var before, event := Flood(room[..n]), Asked(n, {}, room[n]);
      LimitNotEnforced(room[..n]);
      FloodStep(After(before), room, n);
      OneMoreEvent(before, event);
      assert Flood(room) == before + [event];
    }
  }

  /** With room for so many, the next one gets an error, and it and all others are served at once. */
  lemma {:induction false} ServedBeyond(limit: nat, n: nat)
    requires limit < n <= WORDS
    ensures var s := After(Flood(seq(n, i => if i <= limit then limit else n)));
            |s.sessions| == n && s.finished == {} && s.refused == {limit}
  {
    var room := seq(n, i => if i <= limit then limit else n);
    LimitNotEnforced(room);
  }
}
