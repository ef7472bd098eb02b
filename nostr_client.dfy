/**
 * `NostrClient`: the two fetches that subscribe to every relay at once and
 * gather what comes back. Each relay's coroutine is a sequence of turns
 * (`Turn`, specified by `RelayProtocol.Step`); a fetch lets the relays take
 * turns in the order `schedule` names, then lets each unfinished relay run
 * to its end, as `awaitAll` waits for every one of them. Any interleaving of
 * whole turns is some schedule.
 */
module NostrRelays {
  import opened Outcomes
  import opened NostrEvents
  import opened RelayProtocol
  import opened RelayFanOut
  import opened EventSelection
  import Bech32

  /** The filter of a fetch: one kind, and the author's hex key (`null` when the key does not decode). */
  function AuthorFilter(kind: int, pubkey: string): Filter {
    Filter([kind], [Bech32.DecodeSpec(pubkey).ToOption()])
  }

  /**
   * `fetchLongFormContent` emits only long-form events that some reachable
   * relay sent for its own subscription before its loop ended, each id once.
   */
  lemma LongFormEmitted(relays: seq<RelayScript>, trace: seq<Delivery>, sent: seq<Outgoing>, numbers: seq<nat>,
                        start: nat, counter: nat, filter: Filter, events: seq<NostrEvent>, e: NostrEvent)
    requires AllServed(relays, trace, sent, numbers, start, counter, "sub", filter)
    requires events == FirstById(OfKind(EventsOf(trace), KindLongForm))
    requires e in events
    ensures e.kind == KindLongForm
    ensures exists r :: 0 <= r < |relays| && relays[r].Connected? && e in Delivered(relays[r].frames, SubscriptionId("sub", numbers[r]))
    ensures forall j :: 0 <= j < |events| && events[j].id == e.id ==> events[j] == e
  {
    assert e in EventsOf(trace);
    EventOrigin(relays, trace, sent, numbers, start, counter, "sub", filter, e);
    UniqueId(events, e);
  }

  /**
   * Every long-form event a reachable relay sent for its own subscription
   * before its loop ended has its id among those emitted.
   */
  lemma LongFormComplete(relays: seq<RelayScript>, trace: seq<Delivery>, sent: seq<Outgoing>, numbers: seq<nat>,
                         start: nat, counter: nat, filter: Filter, events: seq<NostrEvent>, r: nat, e: NostrEvent)
    requires AllServed(relays, trace, sent, numbers, start, counter, "sub", filter)
    requires events == FirstById(OfKind(EventsOf(trace), KindLongForm))
    requires r < |relays| && relays[r].Connected?
    requires e in Delivered(relays[r].frames, SubscriptionId("sub", numbers[r])) && e.kind == KindLongForm
    ensures e.id in Ids(events)
  {
    var subId := SubscriptionId("sub", numbers[r]);
    assert EventsFrom(trace, r) == RelayEvents(relays[r], subId);
    assert e in EventsFrom(trace, r);
    EventsOfCovers(trace, |relays|, e);
    var kept := OfKind(EventsOf(trace), KindLongForm);
    assert e in kept;
    assert e.id in Ids(kept);
  }

  /**
   * What `fetchNostrProfile` returns: the empty profile, or the content of an
   * accepted metadata event some reachable relay sent for its own
   * subscription before its loop ended.
   */
  lemma ProfileResult(relays: seq<RelayScript>, trace: seq<Delivery>, sent: seq<Outgoing>, numbers: seq<nat>,
                      start: nat, counter: nat, filter: Filter, parse: string -> Option<NostrProfile>, profile: NostrProfile)
    requires AllServed(relays, trace, sent, numbers, start, counter, "profile", filter)
    requires profile == LatestProfile(EventsOf(trace), parse)
    ensures profile == EmptyProfile ||
      exists r, e :: 0 <= r < |relays| && relays[r].Connected? && e in Delivered(relays[r].frames, SubscriptionId("profile", numbers[r])) &&
        Accepted(e, parse) && profile == parse(e.content).value
  {
    LatestProfileSource(EventsOf(trace), parse);
    if profile != EmptyProfile {
      var e :| e in EventsOf(trace) && Accepted(e, parse) && profile == parse(e.content).value;
      EventOrigin(relays, trace, sent, numbers, start, counter, "profile", filter, e);
    }
  }

  /** An event of the trace came from a reachable relay, for that relay's own subscription. */
  lemma EventOrigin(relays: seq<RelayScript>, trace: seq<Delivery>, sent: seq<Outgoing>, numbers: seq<nat>,
                    start: nat, counter: nat, prefix: string, filter: Filter, e: NostrEvent)
    requires AllServed(relays, trace, sent, numbers, start, counter, prefix, filter)
    requires e in EventsOf(trace)
    ensures exists r :: 0 <= r < |relays| && relays[r].Connected? && e in Delivered(relays[r].frames, SubscriptionId(prefix, numbers[r]))
  {
    EventsOfCovers(trace, |relays|, e);
    var r :| 0 <= r < |relays| && e in EventsFrom(trace, r);
    assert e in RelayEvents(relays[r], SubscriptionId(prefix, numbers[r]));
  }

  /** In a list without repeated ids, an event is the only one with its id. */
  lemma UniqueId(events: seq<NostrEvent>, e: NostrEvent)
    requires forall i, j :: 0 <= i < j < |events| ==> events[i].id != events[j].id
    requires e in events
    ensures forall j :: 0 <= j < |events| && events[j].id == e.id ==> events[j] == e
  {
    var k :| 0 <= k < |events| && events[k] == e;
    forall j | 0 <= j < |events| && events[j] != e
      ensures events[j].id != e.id
    {
      if j < k {
        assert events[j].id != events[k].id;
      } else {
        assert events[k].id != events[j].id;
      }
    }
  }

  /** The events of the trace grow by what the turn handed on. */
  lemma EventsOfDelivered(trace: seq<Delivery>, r: nat, delivered: Option<NostrEvent>)
    ensures EventsOf(trace + Deliveries(r, delivered)) == EventsOf(trace) + AsSeq(delivered)
  {
  }

  /**
   * The EVENT branch of `fetchLongFormContent`: a long-form event whose id
   * `seenEvents` does not hold yet is added to it and emitted.
   */
  method KeepLongForm(event: NostrEvent, events: seq<NostrEvent>, seen: set<string>, ghost es: seq<NostrEvent>)
    returns (events': seq<NostrEvent>, seen': set<string>)
    requires events == FirstById(OfKind(es, KindLongForm)) && seen == Ids(events)
    ensures events' == FirstById(OfKind(es + [event], KindLongForm)) && seen' == Ids(events')
  {
    SeenStep(es, event, KindLongForm, events, seen);
    events', seen' := events, seen;
    if event.kind == KindLongForm {
      if event.id !in seen {
        seen' := seen + {event.id};
        events' := events + [event];
      }
    }
  }

  /**
   * The EVENT branch of `fetchNostrProfile`: a metadata event newer than
   * `latestTimestamp` (still 0) whose content parses replaces the profile.
   */
  method KeepProfile(event: NostrEvent, parse: string -> Option<NostrProfile>, latestProfile: NostrProfile,
                     latestTimestamp: int, ghost es: seq<NostrEvent>)
    returns (latestProfile': NostrProfile)
    requires latestTimestamp == 0 && latestProfile == LatestProfile(es, parse)
    ensures latestProfile' == LatestProfile(es + [event], parse)
  {
    LatestProfileSnoc(es, event, parse);
    latestProfile' := latestProfile;
    if event.kind == KindMetadata && event.createdAt > latestTimestamp {
      var profile := parse(event.content);
      if profile.Some? {
        latestProfile' := profile.value;
      }
    }
  }

  class NostrClient {
    /** Shared by every relay of every fetch made through this client. */
    var subscriptionCounter: nat

    constructor ()
      ensures subscriptionCounter == 0
    {
      subscriptionCounter := 0;
    }

    /**
     * One turn of a relay's coroutine: on connecting, take the next
     * subscription number and send the REQ; then one frame per turn.
     */
    method Turn(script: RelayScript, s: Session, prefix: string, filter: Filter)
      returns (next: Session, out: seq<ClientMessage>, delivered: Option<NostrEvent>)
      modifies this
      ensures var res := Step(script, s, old(subscriptionCounter), prefix, filter);
        next == res.session && out == res.sent && delivered == res.delivered && subscriptionCounter == res.counter
    {
      out := [];
      delivered := None;
      match s {
        case Pending =>
          if script.Unreachable? {
            next := Done(None);
          } else {
            subscriptionCounter := subscriptionCounter + 1;
            var subId := SubscriptionId(prefix, subscriptionCounter);
            out := [Req(subId, filter)];
            next := Open(subId, 0);
          }
        case Open(subId, i) =>
          if script.Unreachable? || i >= |script.frames| {
            next := Done(Some(subId));
          } else {
            next := Open(subId, i + 1);
            match script.frames[i] {
              case Text(Event(id, e)) =>
                if id == subId {
                  delivered := Some(e);
                }
              case Text(EndOfStoredEvents(id)) =>
                if id == subId {
                  out := [Close(subId)];
                  next := Done(Some(subId));
                }
              case Text(_) =>
              case NonText =>
              case LoopFailure =>
                next := Done(Some(subId));
            }
          }
        case Done(_) =>
          next := s;
      }
    }

    /** A turn of relay `r` during the long-form fetch, with the `seenEvents` check on what it hands on. */
    method LongFormTurn(relays: seq<RelayScript>, r: nat, filter: Filter,
                        sessions: seq<Session>, sent: seq<Outgoing>, events: seq<NostrEvent>, seen: set<string>,
                        ghost trace: seq<Delivery>, ghost numbers: seq<nat>, ghost start: nat)
      returns (sessions': seq<Session>, sent': seq<Outgoing>, events': seq<NostrEvent>, seen': set<string>,
               ghost trace': seq<Delivery>, ghost numbers': seq<nat>)
      requires FanOut(relays, sessions, trace, sent, numbers, start, subscriptionCounter, "sub", filter)
      requires r < |relays| && !sessions[r].Done?
      requires events == FirstById(OfKind(EventsOf(trace), KindLongForm)) && seen == Ids(events)
      modifies this
      ensures FanOut(relays, sessions', trace', sent', numbers', start, subscriptionCounter, "sub", filter)
      ensures events' == FirstById(OfKind(EventsOf(trace'), KindLongForm)) && seen' == Ids(events')
      ensures |sessions'| == |sessions| && forall q :: 0 <= q < |sessions| && q != r ==> sessions'[q] == sessions[q]
      ensures Remaining(relays[r], sessions'[r]) < Remaining(relays[r], sessions[r])
    {
      FanOutStep(relays, sessions, trace, sent, numbers, start, subscriptionCounter, "sub", filter, r);
      numbers' := NextNumbers(numbers, r, sessions[r], relays[r], subscriptionCounter);
      var session, out, delivered := Turn(relays[r], sessions[r], "sub", filter);
      sessions' := sessions[r := session];
      sent' := sent + Tagged(r, out);
      trace' := trace + Deliveries(r, delivered);
      EventsOfDelivered(trace, r, delivered);
      events', seen' := events, seen;
      if delivered.Some? {
        events', seen' := KeepLongForm(delivered.value, events, seen, EventsOf(trace));
      } else {
        assert trace' == trace;
      }
    }

    /** The relays' turns in the order `schedule` names; a finished relay or an index past the relays is skipped. */
    method LongFormInterleave(relays: seq<RelayScript>, schedule: seq<nat>, filter: Filter,
                              sessions: seq<Session>, sent: seq<Outgoing>, events: seq<NostrEvent>, seen: set<string>,
                              ghost trace: seq<Delivery>, ghost numbers: seq<nat>, ghost start: nat)
      returns (sessions': seq<Session>, sent': seq<Outgoing>, events': seq<NostrEvent>, seen': set<string>,
               ghost trace': seq<Delivery>, ghost numbers': seq<nat>)
      requires FanOut(relays, sessions, trace, sent, numbers, start, subscriptionCounter, "sub", filter)
      requires events == FirstById(OfKind(EventsOf(trace), KindLongForm)) && seen == Ids(events)
      modifies this
      ensures FanOut(relays, sessions', trace', sent', numbers', start, subscriptionCounter, "sub", filter)
      ensures events' == FirstById(OfKind(EventsOf(trace'), KindLongForm)) && seen' == Ids(events')
    {
      sessions', sent', events', seen', trace', numbers' := sessions, sent, events, seen, trace, numbers;
      var i := 0;
      while i < |schedule|
        invariant FanOut(relays, sessions', trace', sent', numbers', start, subscriptionCounter, "sub", filter)
        invariant events' == FirstById(OfKind(EventsOf(trace'), KindLongForm)) && seen' == Ids(events')
      {
        var r := schedule[i];
        if r < |relays| && !sessions'[r].Done? {
          sessions', sent', events', seen', trace', numbers' :=
            LongFormTurn(relays, r, filter, sessions', sent', events', seen', trace', numbers', start);
        }
        i := i + 1;
      }
    }

    /** Relay `r` takes turns until its session is done. */
    method LongFormFinish(relays: seq<RelayScript>, r: nat, filter: Filter,
                          sessions: seq<Session>, sent: seq<Outgoing>, events: seq<NostrEvent>, seen: set<string>,
                          ghost trace: seq<Delivery>, ghost numbers: seq<nat>, ghost start: nat)
      returns (sessions': seq<Session>, sent': seq<Outgoing>, events': seq<NostrEvent>, seen': set<string>,
               ghost trace': seq<Delivery>, ghost numbers': seq<nat>)
      requires FanOut(relays, sessions, trace, sent, numbers, start, subscriptionCounter, "sub", filter)
      requires events == FirstById(OfKind(EventsOf(trace), KindLongForm)) && seen == Ids(events)
      requires r < |relays|
      modifies this
      ensures FanOut(relays, sessions', trace', sent', numbers', start, subscriptionCounter, "sub", filter)
      ensures events' == FirstById(OfKind(EventsOf(trace'), KindLongForm)) && seen' == Ids(events')
      ensures sessions'[r].Done? && forall q :: 0 <= q < |sessions| && q != r ==> sessions'[q] == sessions[q]
    {
      sessions', sent', events', seen', trace', numbers' := sessions, sent, events, seen, trace, numbers;
      while !sessions'[r].Done?
        invariant FanOut(relays, sessions', trace', sent', numbers', start, subscriptionCounter, "sub", filter)
        invariant events' == FirstById(OfKind(EventsOf(trace'), KindLongForm)) && seen' == Ids(events')
        invariant forall q :: 0 <= q < |sessions| && q != r ==> sessions'[q] == sessions[q]
        decreases Remaining(relays[r], sessions'[r])
      {
        sessions', sent', events', seen', trace', numbers' :=
          LongFormTurn(relays, r, filter, sessions', sent', events', seen', trace', numbers', start);
      }
    }

    /** `awaitAll`: every relay in turn runs until its session is done. */
    method LongFormDrain(relays: seq<RelayScript>, filter: Filter,
                         sessions: seq<Session>, sent: seq<Outgoing>, events: seq<NostrEvent>, seen: set<string>,
                         ghost trace: seq<Delivery>, ghost numbers: seq<nat>, ghost start: nat)
      returns (sessions': seq<Session>, sent': seq<Outgoing>, events': seq<NostrEvent>, seen': set<string>,
               ghost trace': seq<Delivery>, ghost numbers': seq<nat>)
      requires FanOut(relays, sessions, trace, sent, numbers, start, subscriptionCounter, "sub", filter)
      requires events == FirstById(OfKind(EventsOf(trace), KindLongForm)) && seen == Ids(events)
      modifies this
      ensures FanOut(relays, sessions', trace', sent', numbers', start, subscriptionCounter, "sub", filter)
      ensures events' == FirstById(OfKind(EventsOf(trace'), KindLongForm)) && seen' == Ids(events')
      ensures forall q :: 0 <= q < |relays| ==> sessions'[q].Done?
    {
      sessions', sent', events', seen', trace', numbers' := sessions, sent, events, seen, trace, numbers;
      var r := 0;
      while r < |relays|
        invariant r <= |relays|
        invariant FanOut(relays, sessions', trace', sent', numbers', start, subscriptionCounter, "sub", filter)
        invariant events' == FirstById(OfKind(EventsOf(trace'), KindLongForm)) && seen' == Ids(events')
        invariant forall q :: 0 <= q < r ==> sessions'[q].Done?
      {
        sessions', sent', events', seen', trace', numbers' :=
          LongFormFinish(relays, r, filter, sessions', sent', events', seen', trace', numbers', start);
        r := r + 1;
      }
    }

    /**
     * `fetchLongFormContent`: every long-form event the relays hand on for
     * the author, the first of each id only, in the order they arrive.
     */
    method FetchLongFormContent(pubkey: string, relays: seq<RelayScript>, schedule: seq<nat>)
      returns (events: seq<NostrEvent>, sent: seq<Outgoing>, ghost trace: seq<Delivery>, ghost numbers: seq<nat>)
      modifies this
      ensures AllServed(relays, trace, sent, numbers, old(subscriptionCounter), subscriptionCounter, "sub",
                        AuthorFilter(KindLongForm, pubkey))
      ensures events == FirstById(OfKind(EventsOf(trace), KindLongForm))
    {
      var hexPubkey := Bech32.Decode(pubkey);
      var filter := Filter([KindLongForm], [hexPubkey.ToOption()]);
      var seen: set<string> := {};
      events, sent, trace := [], [], [];
      var sessions: seq<Session> := seq(|relays|, _ => Pending);
      numbers := seq(|relays|, _ => 0);
      ghost var start := subscriptionCounter;
      FanOutStart(relays, start, "sub", filter);

      sessions, sent, events, seen, trace, numbers :=
        LongFormInterleave(relays, schedule, filter, sessions, sent, events, seen, trace, numbers, start);
      sessions, sent, events, seen, trace, numbers :=
        LongFormDrain(relays, filter, sessions, sent, events, seen, trace, numbers, start);
      FanOutDone(relays, sessions, trace, sent, numbers, start, subscriptionCounter, "sub", filter);
    }

    /** A turn of relay `r` during the profile fetch, replacing the profile with any accepted one it hands on. */
    method ProfileTurn(relays: seq<RelayScript>, r: nat, filter: Filter, parse: string -> Option<NostrProfile>,
                       sessions: seq<Session>, sent: seq<Outgoing>, latestProfile: NostrProfile, latestTimestamp: int,
                       ghost trace: seq<Delivery>, ghost numbers: seq<nat>, ghost start: nat)
      returns (sessions': seq<Session>, sent': seq<Outgoing>, latestProfile': NostrProfile,
               ghost trace': seq<Delivery>, ghost numbers': seq<nat>)
      requires FanOut(relays, sessions, trace, sent, numbers, start, subscriptionCounter, "profile", filter)
      requires r < |relays| && !sessions[r].Done?
      requires latestTimestamp == 0 && latestProfile == LatestProfile(EventsOf(trace), parse)
      modifies this
      ensures FanOut(relays, sessions', trace', sent', numbers', start, subscriptionCounter, "profile", filter)
      ensures latestProfile' == LatestProfile(EventsOf(trace'), parse)
      ensures |sessions'| == |sessions| && forall q :: 0 <= q < |sessions| && q != r ==> sessions'[q] == sessions[q]
      ensures Remaining(relays[r], sessions'[r]) < Remaining(relays[r], sessions[r])
    {
      FanOutStep(relays, sessions, trace, sent, numbers, start, subscriptionCounter, "profile", filter, r);
      numbers' := NextNumbers(numbers, r, sessions[r], relays[r], subscriptionCounter);
      var session, out, delivered := Turn(relays[r], sessions[r], "profile", filter);
      sessions' := sessions[r := session];
      sent' := sent + Tagged(r, out);
      trace' := trace + Deliveries(r, delivered);
      EventsOfDelivered(trace, r, delivered);
      latestProfile' := latestProfile;
      if delivered.Some? {
        latestProfile' := KeepProfile(delivered.value, parse, latestProfile, latestTimestamp, EventsOf(trace));
      } else {
        assert trace' == trace;
      }
    }

    /** The relays' turns in the order `schedule` names; a finished relay or an index past the relays is skipped. */
    method ProfileInterleave(relays: seq<RelayScript>, schedule: seq<nat>, filter: Filter, parse: string -> Option<NostrProfile>,
                             sessions: seq<Session>, sent: seq<Outgoing>, latestProfile: NostrProfile, latestTimestamp: int,
                             ghost trace: seq<Delivery>, ghost numbers: seq<nat>, ghost start: nat)
      returns (sessions': seq<Session>, sent': seq<Outgoing>, latestProfile': NostrProfile,
               ghost trace': seq<Delivery>, ghost numbers': seq<nat>)
      requires FanOut(relays, sessions, trace, sent, numbers, start, subscriptionCounter, "profile", filter)
      requires latestTimestamp == 0 && latestProfile == LatestProfile(EventsOf(trace), parse)
      modifies this
      ensures FanOut(relays, sessions', trace', sent', numbers', start, subscriptionCounter, "profile", filter)
      ensures latestProfile' == LatestProfile(EventsOf(trace'), parse)
    {
      sessions', sent', latestProfile', trace', numbers' := sessions, sent, latestProfile, trace, numbers;
      var i := 0;
      while i < |schedule|
        invariant FanOut(relays, sessions', trace', sent', numbers', start, subscriptionCounter, "profile", filter)
        invariant latestProfile' == LatestProfile(EventsOf(trace'), parse)
      {
        var r := schedule[i];
        if r < |relays| && !sessions'[r].Done? {
          sessions', sent', latestProfile', trace', numbers' :=
            ProfileTurn(relays, r, filter, parse, sessions', sent', latestProfile', latestTimestamp, trace', numbers', start);
        }
        i := i + 1;
      }
    }

    /** Relay `r` takes turns until its session is done. */
    method ProfileFinish(relays: seq<RelayScript>, r: nat, filter: Filter, parse: string -> Option<NostrProfile>,
                         sessions: seq<Session>, sent: seq<Outgoing>, latestProfile: NostrProfile, latestTimestamp: int,
                         ghost trace: seq<Delivery>, ghost numbers: seq<nat>, ghost start: nat)
      returns (sessions': seq<Session>, sent': seq<Outgoing>, latestProfile': NostrProfile,
               ghost trace': seq<Delivery>, ghost numbers': seq<nat>)
      requires FanOut(relays, sessions, trace, sent, numbers, start, subscriptionCounter, "profile", filter)
      requires latestTimestamp == 0 && latestProfile == LatestProfile(EventsOf(trace), parse)
      requires r < |relays|
      modifies this
      ensures FanOut(relays, sessions', trace', sent', numbers', start, subscriptionCounter, "profile", filter)
      ensures latestProfile' == LatestProfile(EventsOf(trace'), parse)
      ensures sessions'[r].Done? && forall q :: 0 <= q < |sessions| && q != r ==> sessions'[q] == sessions[q]
    {
      sessions', sent', latestProfile', trace', numbers' := sessions, sent, latestProfile, trace, numbers;
      while !sessions'[r].Done?
        invariant FanOut(relays, sessions', trace', sent', numbers', start, subscriptionCounter, "profile", filter)
        invariant latestProfile' == LatestProfile(EventsOf(trace'), parse)
        invariant forall q :: 0 <= q < |sessions| && q != r ==> sessions'[q] == sessions[q]
        decreases Remaining(relays[r], sessions'[r])
      {
        sessions', sent', latestProfile', trace', numbers' :=
          ProfileTurn(relays, r, filter, parse, sessions', sent', latestProfile', latestTimestamp, trace', numbers', start);
      }
    }

    /** `awaitAll`: every relay in turn runs until its session is done. */
    method ProfileDrain(relays: seq<RelayScript>, filter: Filter, parse: string -> Option<NostrProfile>,
                        sessions: seq<Session>, sent: seq<Outgoing>, latestProfile: NostrProfile, latestTimestamp: int,
                        ghost trace: seq<Delivery>, ghost numbers: seq<nat>, ghost start: nat)
      returns (sessions': seq<Session>, sent': seq<Outgoing>, latestProfile': NostrProfile,
               ghost trace': seq<Delivery>, ghost numbers': seq<nat>)
      requires FanOut(relays, sessions, trace, sent, numbers, start, subscriptionCounter, "profile", filter)
      requires latestTimestamp == 0 && latestProfile == LatestProfile(EventsOf(trace), parse)
      modifies this
      ensures FanOut(relays, sessions', trace', sent', numbers', start, subscriptionCounter, "profile", filter)
      ensures latestProfile' == LatestProfile(EventsOf(trace'), parse)
      ensures forall q :: 0 <= q < |relays| ==> sessions'[q].Done?
    {
      sessions', sent', latestProfile', trace', numbers' := sessions, sent, latestProfile, trace, numbers;
      var r := 0;
      while r < |relays|
        invariant r <= |relays|
        invariant FanOut(relays, sessions', trace', sent', numbers', start, subscriptionCounter, "profile", filter)
        invariant latestProfile' == LatestProfile(EventsOf(trace'), parse)
        invariant forall q :: 0 <= q < r ==> sessions'[q].Done?
      {
        sessions', sent', latestProfile', trace', numbers' :=
          ProfileFinish(relays, r, filter, parse, sessions', sent', latestProfile', latestTimestamp, trace', numbers', start);
        r := r + 1;
      }
    }

    /**
     * `fetchNostrProfile`: the profile of the last accepted metadata event
     * handed on, in whatever order the relays' turns came; `parse` stands for
     * decoding the event content as a profile, `None` where that throws.
     */
    method FetchNostrProfile(pubkey: string, relays: seq<RelayScript>, schedule: seq<nat>, parse: string -> Option<NostrProfile>)
      returns (profile: NostrProfile, sent: seq<Outgoing>, ghost trace: seq<Delivery>, ghost numbers: seq<nat>)
      modifies this
      ensures AllServed(relays, trace, sent, numbers, old(subscriptionCounter), subscriptionCounter, "profile",
                        AuthorFilter(KindMetadata, pubkey))
      ensures profile == LatestProfile(EventsOf(trace), parse)
    {
      var hexPubkey := Bech32.Decode(pubkey);
      var filter := Filter([KindMetadata], [hexPubkey.ToOption()]);
      profile := EmptyProfile;
      var latestTimestamp := 0;
      sent, trace := [], [];
      var sessions: seq<Session> := seq(|relays|, _ => Pending);
      numbers := seq(|relays|, _ => 0);
      ghost var start := subscriptionCounter;
      FanOutStart(relays, start, "profile", filter);

      sessions, sent, profile, trace, numbers :=
        ProfileInterleave(relays, schedule, filter, parse, sessions, sent, profile, latestTimestamp, trace, numbers, start);
      sessions, sent, profile, trace, numbers :=
        ProfileDrain(relays, filter, parse, sessions, sent, profile, latestTimestamp, trace, numbers, start);
      FanOutDone(relays, sessions, trace, sent, numbers, start, subscriptionCounter, "profile", filter);
    }
  }
}
