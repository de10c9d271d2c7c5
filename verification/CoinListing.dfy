/** Coins delisted as of a date (coin/coin-listing-event.service.ts): the grouped query compared with
    replaying each coin's events. */
module CoinListing {
  import opened Common

  datatype EventType = Listed | Delisted | Relisted

  datatype ListingEvent = ListingEvent(coinId: string, eventType: EventType, eventDate: int)

  /** The events the query asks for: DELISTED and RELISTED, of the given coins, up to the date. */
  predicate Relevant(e: ListingEvent, coinIds: seq<string>, asOf: int) {
    e.coinId in coinIds && e.eventType != Listed && e.eventDate <= asOf
  }

  ghost predicate InDateOrder(events: seq<ListingEvent>) {
    forall i, j :: 0 <= i < j < |events| ==> events[i].eventDate <= events[j].eventDate
  }

  /** What `find({ where, order: { eventDate: 'ASC' } })` may return: ties in any order. */
  ghost predicate QueryResult(store: seq<ListingEvent>, coinIds: seq<string>, asOf: int, events: seq<ListingEvent>) {
    InDateOrder(events) && forall e :: e in events <==> e in store && Relevant(e, coinIds, asOf)
  }

  ghost predicate IsDelisting(events: seq<ListingEvent>, asOf: int, d: int) {
    exists e :: e in events && e.eventType == Delisted && e.eventDate == d <= asOf
  }

  ghost predicate IsLatestDelisting(events: seq<ListingEvent>, asOf: int, d: int) {
    IsDelisting(events, asOf, d)
    && forall e :: e in events && e.eventType == Delisted && e.eventDate <= asOf ==> e.eventDate <= d
  }

  ghost predicate RelistedAfter(events: seq<ListingEvent>, asOf: int, d: int) {
    exists e :: e in events && e.eventType == Relisted && d < e.eventDate <= asOf
  }

  // ---------------------------------------------------------------- the service

  /** The per-coin part: the latest DELISTED date, unless a RELISTED follows it. */
  method ActiveDelisting(coinEvents: seq<ListingEvent>, asOf: int) returns (r: Option<int>)
    requires InDateOrder(coinEvents)
    ensures r.Some? ==> IsLatestDelisting(coinEvents, asOf, r.value) && !RelistedAfter(coinEvents, asOf, r.value)
    ensures r.None? ==> forall d :: IsLatestDelisting(coinEvents, asOf, d) ==> RelistedAfter(coinEvents, asOf, d)
  {
    var latestDelisting: Option<int> := None;
    for i := 0 to |coinEvents|
      invariant latestDelisting.None? ==>
                  forall j :: 0 <= j < i && coinEvents[j].eventType == Delisted ==> coinEvents[j].eventDate > asOf
      invariant latestDelisting.Some? ==>
                  && (exists j :: 0 <= j < i && coinEvents[j].eventType == Delisted
                                  && coinEvents[j].eventDate == latestDelisting.value <= asOf)
                  && forall j :: 0 <= j < i && coinEvents[j].eventType == Delisted
                                 && coinEvents[j].eventDate <= asOf ==>
                       coinEvents[j].eventDate <= latestDelisting.value
    {
      if coinEvents[i].eventType == Delisted && coinEvents[i].eventDate <= asOf {
        latestDelisting := Some(coinEvents[i].eventDate);
      }
    }
    if latestDelisting.None? { return None; }
    var delistingDate := latestDelisting.value;
    assert IsLatestDelisting(coinEvents, asOf, delistingDate);
    var wasRelisted := exists e :: e in coinEvents && e.eventType == Relisted && e.eventDate > delistingDate
                                   && e.eventDate <= asOf;
    return if wasRelisted then None else latestDelisting;
  }

  function EventsOf(events: seq<ListingEvent>, coinId: string): seq<ListingEvent> {
    if events == [] then []
    else
      var last := events[|events| - 1];
      EventsOf(events[..|events| - 1], coinId) + if last.coinId == coinId then [last] else []
  }

  lemma {:induction false} EventsOfMembers(events: seq<ListingEvent>, coinId: string)
    ensures forall e :: e in EventsOf(events, coinId) <==> e in events && e.coinId == coinId
  {
    if events != [] {
      assert events == events[..|events| - 1] + [events[|events| - 1]];
      EventsOfMembers(events[..|events| - 1], coinId);
    }
  }

  lemma {:induction false} EventsOfInOrder(events: seq<ListingEvent>, coinId: string)
    requires InDateOrder(events)
    ensures InDateOrder(EventsOf(events, coinId))
  {
    if events != [] {
      var front, last := events[..|events| - 1], events[|events| - 1];
      EventsOfInOrder(front, coinId);
      EventsOfMembers(front, coinId);
      var s := EventsOf(front, coinId);
      forall i | 0 <= i < |s| ensures s[i].eventDate <= last.eventDate {
        assert s[i] in s;
        var j :| 0 <= j < |front| && front[j] == s[i];
      }
    }
  }

  method GroupByCoin(events: seq<ListingEvent>) returns (eventsByCoin: map<string, seq<ListingEvent>>)
    ensures forall c :: c in eventsByCoin <==> EventsOf(events, c) != []
    ensures forall c :: c in eventsByCoin ==> eventsByCoin[c] == EventsOf(events, c)
  {
    eventsByCoin := map[];
    for i := 0 to |events|
      invariant forall c :: c in eventsByCoin <==> EventsOf(events[..i], c) != []
      invariant forall c :: c in eventsByCoin ==> eventsByCoin[c] == EventsOf(events[..i], c)
    {
      assert events[..i + 1][..i] == events[..i];
      var coinId := events[i].coinId;
      var existing := if coinId in eventsByCoin then eventsByCoin[coinId] else [];
      eventsByCoin := eventsByCoin[coinId := existing + [events[i]]];
    }
    assert events[..|events|] == events;
  }

  /** The coin is delisted as of the date according to the rule in the service's documentation. */
  ghost predicate Active(store: seq<ListingEvent>, coinId: string, asOf: int, d: int) {
    var own := EventsOf(store, coinId);
    IsLatestDelisting(own, asOf, d) && !RelistedAfter(own, asOf, d)
  }

  /** getActiveDelistingsAsOf over the fetched events. */
  method GetActiveDelistingsAsOf(coinIds: seq<string>, asOf: int, events: seq<ListingEvent>)
    returns (result: map<string, int>)
    requires InDateOrder(events) && forall e :: e in events ==> e.coinId in coinIds
    ensures forall c :: c in result ==> Active(events, c, asOf, result[c])
    ensures forall c, d :: Active(events, c, asOf, d) ==> c in result && result[c] == d
  {
    if |coinIds| == 0 {
      NoCoinsNoEvents(events, coinIds);
      return map[];
    }
    var eventsByCoin := GroupByCoin(events);
    result := map[];
    var remaining := eventsByCoin.Keys;
    while remaining != {}
      invariant remaining <= eventsByCoin.Keys
      invariant forall c :: c in result ==> c !in remaining && Active(events, c, asOf, result[c])
      invariant forall c, d :: c in eventsByCoin && c !in remaining && Active(events, c, asOf, d) ==>
                  c in result && result[c] == d
      decreases |remaining|
    {
      var coinId :| coinId in remaining;
      EventsOfInOrder(events, coinId);
      var active := ActiveDelisting(eventsByCoin[coinId], asOf);
      if active.Some? { result := result[coinId := active.value]; }
      remaining := remaining - {coinId};
    }
    forall c, d | Active(events, c, asOf, d) ensures c in eventsByCoin {
      assert EventsOf(events, c) != [];
      assert c in eventsByCoin;
    }
  }

  lemma HeadIsMember(events: seq<ListingEvent>)
    requires events != []
    ensures events[0] in events
  {
  }

  lemma NoCoinsNoEvents(events: seq<ListingEvent>, coinIds: seq<string>)
    requires |coinIds| == 0 && forall e :: e in events ==> e.coinId in coinIds
    ensures events == []
  {
    if events != [] {
      HeadIsMember(events);
      assert false;
    }
  }

  // ---------------------------------------------------------------- replaying the events

  /** A replay order: by date, and DELISTED last on equal dates. */
  ghost predicate ReplayOrder(events: seq<ListingEvent>) {
    forall i, j :: 0 <= i < j < |events| ==>
      events[i].eventDate < events[j].eventDate
      || (events[i].eventDate == events[j].eventDate
          && (events[i].eventType == Delisted ==> events[j].eventType == Delisted))
  }

  /** The delisting in force after replaying the events, if any. */
  function Replay(events: seq<ListingEvent>): Option<int> {
    if events == [] then None
    else
      var before := Replay(events[..|events| - 1]);
      var e := events[|events| - 1];
      match e.eventType
      case Delisted => Some(e.eventDate)
      case Relisted => None
      case Listed => before
  }

  /** `replay` holds the coin's DELISTED and RELISTED events up to the date, in replay order. */
  ghost predicate ReplayOf(store: seq<ListingEvent>, coinId: string, asOf: int, replay: seq<ListingEvent>) {
    ReplayOrder(replay) && forall e :: e in replay <==> e in store && Relevant(e, [coinId], asOf)
  }

  lemma LastReplayed(store: seq<ListingEvent>, coinId: string, asOf: int, replay: seq<ListingEvent>)
    requires ReplayOf(store, coinId, asOf, replay) && replay != []
    ensures var last := replay[|replay| - 1];
            forall e :: e in store && Relevant(e, [coinId], asOf) ==>
              e.eventDate < last.eventDate
              || (e.eventDate == last.eventDate && (e.eventType == Delisted ==> last.eventType == Delisted))
  {
  }

  /** The grouped query agrees with event replay, whatever order the database gives to ties: a requested
      coin is in the map if and only if its replay ends delisted, with the date in force. */
  lemma AgreesWithReplay(store: seq<ListingEvent>, coinIds: seq<string>, asOf: int, events: seq<ListingEvent>,
                         coinId: string, replay: seq<ListingEvent>, d: int)
    requires QueryResult(store, coinIds, asOf, events) && coinId in coinIds
    requires ReplayOf(store, coinId, asOf, replay)
    ensures Active(events, coinId, asOf, d) <==> Replay(replay) == Some(d)
  {
    var own := EventsOf(events, coinId);
    EventsOfMembers(events, coinId);
    assert forall e :: e in own <==> e in replay;
    if replay != [] {
      var last := replay[|replay| - 1];
      assert last in replay;
      LastReplayed(store, coinId, asOf, replay);
      assert forall e :: e in own ==> Relevant(e, [coinId], asOf);
      if last.eventType == Delisted {
        assert IsDelisting(own, asOf, last.eventDate);
        assert !RelistedAfter(own, asOf, last.eventDate);
      } else {
        assert forall e :: e in own && e.eventType == Delisted ==> e.eventDate < last.eventDate;
        assert IsDelisting(own, asOf, d) ==> RelistedAfter(own, asOf, d);
      }
    }
  }
}
