/** The table of peer handlers, over every run of the server's loop. */
module Server {
  import opened Wire
  import opened Tables

  type Ip = Bytes
  type Handler = nat

  /**
   What the loop is woken by. Handlers are threads, and those in `done` have finished by then.
   A request that was parsed is fed to a handler, which may refuse it.
   */
  datatype Event =
    | Tick(done: set<Handler>)
    | ConfigChanged(ip: Ip)
    | Request(ip: Ip, accepted: bool)
    | Malformed

  /** The handlers by address, how many there ever were, and which were shut down or dropped. */
  datatype State = State(table: map<Ip, Handler>, created: nat, shutDown: multiset<Handler>, dropped: multiset<Handler>)

  /** The handler had finished by one of these events. */
  ghost predicate FinishedBy(events: seq<Event>, h: Handler) {
    exists i :: 0 <= i < |events| && events[i].Tick? && h in events[i].done
  }

  const EMPTY: State := State(map[], 0, multiset{}, multiset{})

  /** A new handler in the place of the one the peer had, if any, which is shut down. */
  ghost function Installed(s: State, ip: Ip): State {
    s.(table := s.table[ip := s.created],
    created := s.created + 1,
    shutDown := if ip in s.table then s.shutDown + multiset{s.table[ip]} else s.shutDown)
  }

  ghost function Removing(s: State, ip: Ip): State
    requires ip in s.table
  {
    s.(table := s.table - {ip}, shutDown := s.shutDown + multiset{s.table[ip]})
  }

  ghost function Step(s: State, event: Event): State {
    match event
    case Tick(done) =>
      s.(table := Kept(s.table, done), dropped := s.dropped + multiset(Discarded(s.table, done)))
    case ConfigChanged(ip) => Installed(s, ip)
    case Request(ip, accepted) =>
      var s' := if ip in s.table then s else Installed(s, ip);
      if accepted then s' else Removing(s', ip)
    case Malformed => s
  }

  ghost function After(events: seq<Event>): State {
    if events == [] then EMPTY else Step(After(events[..|events| - 1]), events[|events| - 1])
  }

  ghost predicate Conserved(s: State) {
    Accounted(s.table, s.created, s.shutDown + s.dropped)
  }

  lemma {:induction false} InstalledConserves(s: State, ip: Ip)
    requires Conserved(s)
    ensures Conserved(Installed(s, ip))
  {
    Replaced(s.table, ip, s.created, s.shutDown + s.dropped);
    if ip in s.table {
      assert Installed(s, ip).shutDown + s.dropped == s.shutDown + s.dropped + multiset{s.table[ip]};
    }
  }

  lemma {:induction false} RemovingConserves(s: State, ip: Ip)
    requires Conserved(s) && ip in s.table
    ensures Conserved(Removing(s, ip)) && |Removing(s, ip).table| < |s.table|
  {
    Removed(s.table, ip, s.created, s.shutDown + s.dropped);
    assert Removing(s, ip).shutDown + s.dropped == s.shutDown + s.dropped + multiset{s.table[ip]};
  }

  lemma {:induction false} StepConserves(s: State, event: Event)
    requires Conserved(s)
    ensures Conserved(Step(s, event))
  {
    match event
    case Tick(done) =>
      Retained(s.table, done, s.created, s.shutDown + s.dropped);
      assert s.shutDown + Step(s, event).dropped == s.shutDown + s.dropped + multiset(Discarded(s.table, done));
    case ConfigChanged(ip) => InstalledConserves(s, ip);
    case Request(ip, accepted) =>
      InstalledConserves(s, ip);
      if !accepted {
        RemovingConserves(if ip in s.table then s else Installed(s, ip), ip);
      }
    case Malformed =>
  }

  lemma {:induction false} StepDrops(s: State, event: Event, h: Handler)
    ensures h in Step(s, event).dropped ==> h in s.dropped || (event.Tick? && h in event.done)
  {
  }

  /**
   In every run each handler is in the table, shut down once, or dropped once, and no two of these,
   and one that was dropped had finished before.
   */
  lemma {:induction false} HandlersConserved(events: seq<Event>)
    ensures Conserved(After(events))
    ensures forall h: Handler :: h in After(events).dropped ==> FinishedBy(events, h)
  {
    if events != [] {
      var before, event := events[..|events| - 1], events[|events| - 1];
      HandlersConserved(before);
      StepConserves(After(before), event);
      forall h: Handler | h in After(events).dropped ensures FinishedBy(events, h) {
        StepDrops(After(before), event, h);
        if h in After(before).dropped {
          var i :| 0 <= i < |before| && before[i].Tick? && h in before[i].done;
          assert events[i] == before[i];
        }
      }
    }
  }

  // ---------------------------------------------------------------------------------------
  // What becomes of a handler

  /** The event takes handler h away from the peer at ip: a new configuration, a refusal, or its end. */
  predicate Displaces(event: Event, ip: Ip, h: Handler) {
    || event == ConfigChanged(ip)
    || event == Request(ip, false)
    || (event.Tick? && h in event.done)
  }

  /** The event needs a new handler for the peer at ip, given whether it has one. */
  predicate Creates(event: Event, ip: Ip, present: bool) {
    event == ConfigChanged(ip) || (event.Request? && event.ip == ip && !present)
  }

  lemma {:induction false} AfterNext(events: seq<Event>, event: Event)
    ensures After(events + [event]) == Step(After(events), event)
  {
    assert (events + [event])[..|events|] == events;
  }

  /** A handler stays exactly as long as nothing displaces it. */
  lemma {:induction false} StaysExactly(events: seq<Event>, event: Event, ip: Ip)
    requires ip in After(events).table
    ensures var h, table := After(events).table[ip], After(events + [event]).table;
            (ip in table && table[ip] == h) <==> !Displaces(event, ip, h)
  {
    HandlersConserved(events);
    AfterNext(events, event);
    assert After(events).table[ip] in After(events).table.Values;
  }

  /** A new handler is made exactly for a changed configuration, and for a request of a peer without one. */
  lemma {:induction false} MadeExactly(events: seq<Event>, event: Event)
    ensures var s, s' := After(events), After(events + [event]);
            if exists ip :: Creates(event, ip, ip in s.table) then s'.created == s.created + 1 else s'.created == s.created
  {
    AfterNext(events, event);
    if event.ConfigChanged? || (event.Request? && event.ip !in After(events).table) {
      assert Creates(event, event.ip, event.ip in After(events).table);
    }
  }

  /** After a request or a changed configuration the peer has a handler, the new one if one was made, unless refused. */
  lemma {:induction false} ServedExactly(events: seq<Event>, event: Event, ip: Ip)
    ensures var s, s' := After(events), After(events + [event]);
            && (event == Request(ip, true) || event == ConfigChanged(ip) ==> ip in s'.table)
            && (event == Request(ip, false) ==> ip !in s'.table)
            && (ip in s'.table && Creates(event, ip, ip in s.table) ==> s'.table[ip] == s.created)
            && (ip in s'.table && !Creates(event, ip, ip in s.table) ==> ip in s.table && s'.table[ip] == s.table[ip])
  {
    AfterNext(events, event);
  }

  /** Only the end of a handler drops it, and only a refusal or a new configuration shuts one down. */
  lemma {:induction false} GoneExactly(events: seq<Event>, event: Event)
    ensures var s, s' := After(events), After(events + [event]);
            && (!event.Tick? ==> s'.dropped == s.dropped)
            && (event.Tick? || event == Malformed ==> s'.shutDown == s.shutDown)
            && (event.Request? && event.accepted ==> s'.shutDown == s.shutDown)
            && (event.ConfigChanged? ==>
                  s'.shutDown == s.shutDown + if event.ip in s.table then multiset{s.table[event.ip]} else multiset{})
            && (event.Request? && !event.accepted ==>
                  s'.shutDown == s.shutDown + multiset{if event.ip in s.table then s.table[event.ip] else s.created})
  {
    AfterNext(events, event);
  }

  /** Handler h was made for the peer at ip by the i-th event, and nothing has displaced it since. */
  ghost predicate Serves(events: seq<Event>, i: nat, ip: Ip, h: Handler) {
    && i < |events|
    && Creates(events[i], ip, ip in After(events[..i]).table)
    && events[i] != Request(ip, false)
    && h == After(events[..i]).created
    && forall j :: i < j < |events| ==> !Displaces(events[j], ip, h)
  }

  lemma {:induction false} ServesBefore(events: seq<Event>, i: nat, ip: Ip, h: Handler)
    requires i + 1 < |events|
    ensures Serves(events, i, ip, h) <==>
            Serves(events[..|events| - 1], i, ip, h) && !Displaces(events[|events| - 1], ip, h)
  {
    var before := events[..|events| - 1];
    assert before[..i] == events[..i];
    assert forall j :: 0 <= j < |before| ==> before[j] == events[j];
  }

  /** In every run, the peer at ip has handler h exactly if h was made for it and never displaced. */
  lemma {:induction false} TableExactly(events: seq<Event>, ip: Ip, h: Handler)
    ensures ip in After(events).table && After(events).table[ip] == h <==> exists i :: Serves(events, i, ip, h)
  {
    if events != [] {
      var n, before, event := |events| - 1, events[..|events| - 1], events[|events| - 1];
      assert events == before + [event];
      TableExactly(before, ip, h);
      HandlersConserved(before);
      ServedExactly(before, event, ip);
      if ip in After(before).table {
        StaysExactly(before, event, ip);
      }
      forall i: nat | i < n ensures Serves(events, i, ip, h) <==> Serves(before, i, ip, h) && !Displaces(event, ip, h) {
        ServesBefore(events, i, ip, h);
      }
      NewOrOld(events, ip, h);
    }
  }

  lemma {:induction false} NewOrOld(events: seq<Event>, ip: Ip, h: Handler)
    requires events != []
    requires var n, before, event := |events| - 1, events[..|events| - 1], events[|events| - 1];
             var s, s' := After(before), After(events);
             && Conserved(s)
             && (ip in s.table && s.table[ip] == h <==> exists i :: Serves(before, i, ip, h))
             && (forall i: nat :: i < n ==> (Serves(events, i, ip, h) <==> Serves(before, i, ip, h) && !Displaces(event, ip, h)))
             && (ip in s.table ==> ((ip in s'.table && s'.table[ip] == s.table[ip]) <==> !Displaces(event, ip, s.table[ip])))
             && (event == Request(ip, true) || event == ConfigChanged(ip) ==> ip in s'.table)
             && (event == Request(ip, false) ==> ip !in s'.table)
             && (ip in s'.table && Creates(event, ip, ip in s.table) ==> s'.table[ip] == s.created)
             && (ip in s'.table && !Creates(event, ip, ip in s.table) ==> ip in s.table && s'.table[ip] == s.table[ip])
    ensures ip in After(events).table && After(events).table[ip] == h <==> exists i :: Serves(events, i, ip, h)
  {
    var n, before, event := |events| - 1, events[..|events| - 1], events[|events| - 1];
    var s, s' := After(before), After(events);
    if ip in s'.table && s'.table[ip] == h {
      if Creates(event, ip, ip in s.table) {
        assert Serves(events, n, ip, h);
      } else {
        var i: nat :| Serves(before, i, ip, h);
        assert Serves(events, i, ip, h);
      }
    } else if i: nat :| Serves(events, i, ip, h) {
      assert i < n ==> Serves(before, i, ip, h);
      assert ip in s.table ==> s.table[ip] in s.table.Values;
    }
  }

  class TftpServer {
    var peerHandlers: map<Ip, Handler>
    var created: nat
    ghost var shutDown: multiset<Handler>
    ghost var dropped: multiset<Handler>

    ghost function Now(): State
      reads this
    {
      State(peerHandlers, created, shutDown, dropped)
    }

    constructor ()
      ensures Now() == EMPTY
    {
      peerHandlers, created := map[], 0;
      shutDown, dropped := multiset{}, multiset{};
    }

    method Retain(done: set<Handler>)
      modifies this
      ensures Now() == Step(old(Now()), Tick(done))
    {
      dropped := dropped + multiset(Discarded(peerHandlers, done));
      peerHandlers := map ip | ip in peerHandlers && peerHandlers[ip] !in done :: peerHandlers[ip];
    }

    method Install(ip: Ip)
      modifies this
      ensures Now() == Installed(old(Now()), ip)
    {
      var previous := if ip in peerHandlers then Some(peerHandlers[ip]) else None;
      peerHandlers := peerHandlers[ip := created];
      created := created + 1;
      if previous.Some? {
        shutDown := shutDown + multiset{previous.value};
      }
    }

    method Remove(ip: Ip)
      requires ip in peerHandlers
      modifies this
      ensures Now() == Removing(old(Now()), ip)
    {
      shutDown := shutDown + multiset{peerHandlers[ip]};
      peerHandlers := peerHandlers - {ip};
    }

    method HandleRequest(ip: Ip, accepted: bool)
      modifies this
      ensures Now() == Step(old(Now()), Request(ip, accepted))
    {
      if ip !in peerHandlers {
        Install(ip);
      }
      if !accepted {
        Remove(ip);
      }
    }

    /** On drop every handler in the table is shut down. */
    method Drop()
      requires Conserved(Now())
      modifies this
      ensures Conserved(Now()) && peerHandlers == map[]
      ensures created == old(created) && dropped == old(dropped)
    {
      while peerHandlers != map[]
        invariant Conserved(Now()) && created == old(created) && dropped == old(dropped)
        decreases |peerHandlers|
      {
        var ip :| ip in peerHandlers;
        RemovingConserves(Now(), ip);
        Remove(ip);
      }
    }

    /**
     The server's loop over any events, up to its drop. The handlers are those the events call
     for; each is dropped once or shut down once, and only those the events found finished are dropped.
     */
    method Serve(events: seq<Event>)
      requires Now() == EMPTY
      modifies this
      ensures peerHandlers == map[] && created == After(events).created && dropped == After(events).dropped
      ensures forall h: Handler :: shutDown[h] + dropped[h] == if h < created then 1 else 0
      ensures forall h: Handler :: h in dropped ==> FinishedBy(events, h)
    {
      for i := 0 to |events|
        invariant Now() == After(events[..i])
      {
        assert events[..i + 1][..i] == events[..i];
        match events[i]
        case Tick(done) => Retain(done);
        case ConfigChanged(ip) => Install(ip);
        case Request(ip, accepted) => HandleRequest(ip, accepted);
        case Malformed =>
      }
      assert events[..|events|] == events;
      HandlersConserved(events);
      Drop();
      assert forall h: Handler :: (shutDown + dropped)[h] == shutDown[h] + dropped[h];
    }
  }
}
