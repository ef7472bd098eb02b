/**
 * A fetch runs one coroutine per relay and lets them take turns in any
 * order. The turns taken so far are recorded as a trace of deliveries and a
 * log of outgoing messages, each tagged with its relay; `FanOut` is what
 * holds of them, of the sessions and of the subscription counter after any
 * sequence of turns, and `FanOutDone` reads off the result once every
 * session has finished.
 */
module RelayFanOut {
  import opened Outcomes
  import opened Text
  import opened NostrEvents
  import opened RelayProtocol

  /** An event handed on by relay `relay`. */
  datatype Delivery = Delivery(relay: nat, event: NostrEvent)

  /** A message written to relay `relay`. */
  datatype Outgoing = Outgoing(relay: nat, message: ClientMessage)

  /** The events of the trace, in the order they were handed on. */
  function EventsOf(trace: seq<Delivery>): (r: seq<NostrEvent>)
    ensures |r| == |trace| && forall k :: 0 <= k < |trace| ==> r[k] == trace[k].event
  {
    seq(|trace|, k requires 0 <= k < |trace| => trace[k].event)
  }

  /** The events relay `r` handed on, in order. */
  function EventsFrom(trace: seq<Delivery>, r: nat): seq<NostrEvent> {
    if trace == [] then []
    else
      var d := trace[|trace| - 1];
      EventsFrom(trace[..|trace| - 1], r) + if d.relay == r then [d.event] else []
  }

  /** The messages written to relay `r`, in order. */
  function SentTo(sent: seq<Outgoing>, r: nat): seq<ClientMessage> {
    if sent == [] then []
    else
      var o := sent[|sent| - 1];
      SentTo(sent[..|sent| - 1], r) + if o.relay == r then [o.message] else []
  }

  function Deliveries(r: nat, delivered: Option<NostrEvent>): seq<Delivery> {
    if delivered.Some? then [Delivery(r, delivered.value)] else []
  }

  function Tagged(r: nat, messages: seq<ClientMessage>): (t: seq<Outgoing>)
    ensures |t| == |messages| && forall k :: 0 <= k < |t| ==> t[k] == Outgoing(r, messages[k])
  {
    seq(|messages|, k requires 0 <= k < |messages| => Outgoing(r, messages[k]))
  }

  /** The number of relays that were started, i.e. got a subscription number. */
  function Started(numbers: seq<nat>): nat {
    if numbers == [] then 0
    else Started(numbers[..|numbers| - 1]) + if numbers[|numbers| - 1] == 0 then 0 else 1
  }

  function ConnectedCount(relays: seq<RelayScript>): nat {
    if relays == [] then 0
    else ConnectedCount(relays[..|relays| - 1]) + if relays[|relays| - 1].Connected? then 1 else 0
  }

  /** What a relay hands on in the end: nothing if it cannot be reached. */
  function RelayEvents(script: RelayScript, subId: string): seq<NostrEvent> {
    if script.Connected? then Delivered(script.frames, subId) else []
  }

  /** What is written to a relay in the end: nothing if it cannot be reached. */
  function RelayOutbound(script: RelayScript, subId: string, filter: Filter): seq<ClientMessage> {
    if script.Connected? then Outbound(script.frames, subId, filter) else []
  }

  /** Every session agrees with its own part of the trace and of the log. */
  ghost predicate Tracked(relays: seq<RelayScript>, sessions: seq<Session>, trace: seq<Delivery>, sent: seq<Outgoing>,
                          filter: Filter)
  {
    |sessions| == |relays| &&
    (forall k :: 0 <= k < |trace| ==> trace[k].relay < |relays|) &&
    (forall k :: 0 <= k < |sent| ==> sent[k].relay < |relays|) &&
    (forall r :: 0 <= r < |relays| ==> Consistent(relays[r], sessions[r], EventsFrom(trace, r), SentTo(sent, r), filter))
  }

  /**
   * A session has a subscription exactly when it has a number, numbers are
   * fresh (above the counter the fetch started from, at most the current
   * counter) and pairwise distinct, and the counter has grown by the number
   * of relays started.
   */
  ghost predicate Numbered(relays: seq<RelayScript>, sessions: seq<Session>, numbers: seq<nat>,
                           start: nat, counter: nat, prefix: string)
  {
    |sessions| == |relays| && |numbers| == |relays| &&
    (forall r :: 0 <= r < |relays| ==>
      SubIdOf(sessions[r]) == if numbers[r] == 0 then None else Some(SubscriptionId(prefix, numbers[r]))) &&
    (forall r :: 0 <= r < |relays| ==> numbers[r] == 0 || start < numbers[r] <= counter) &&
    (forall r1, r2 :: 0 <= r1 < |relays| && 0 <= r2 < |relays| && r1 != r2 && numbers[r1] != 0 ==> numbers[r1] != numbers[r2]) &&
    counter == start + Started(numbers)
  }

  /** What holds of the sessions, the trace, the log and the counter after any sequence of turns. */
  ghost predicate FanOut(relays: seq<RelayScript>, sessions: seq<Session>, trace: seq<Delivery>, sent: seq<Outgoing>,
                         numbers: seq<nat>, start: nat, counter: nat, prefix: string, filter: Filter)
  {
    Tracked(relays, sessions, trace, sent, filter) && Numbered(relays, sessions, numbers, start, counter, prefix)
  }

  // ---- the trace and the log ----

  lemma {:induction false} EventsFromAppend(trace: seq<Delivery>, more: seq<Delivery>, r: nat)
    ensures EventsFrom(trace + more, r) == EventsFrom(trace, r) + EventsFrom(more, r)
    decreases |more|
  {
    if more == [] {
      assert trace + more == trace;
    } else {
      var m := |more| - 1;
      assert (trace + more)[..|trace + more| - 1] == trace + more[..m];
      EventsFromAppend(trace, more[..m], r);
    }
  }

  lemma {:induction false} SentToAppend(sent: seq<Outgoing>, more: seq<Outgoing>, r: nat)
    ensures SentTo(sent + more, r) == SentTo(sent, r) + SentTo(more, r)
    decreases |more|
  {
    if more == [] {
      assert sent + more == sent;
    } else {
      var m := |more| - 1;
      assert (sent + more)[..|sent + more| - 1] == sent + more[..m];
      SentToAppend(sent, more[..m], r);
    }
  }

  lemma DeliveriesTo(r: nat, delivered: Option<NostrEvent>, q: nat)
    ensures EventsFrom(Deliveries(r, delivered), q) == if q == r then AsSeq(delivered) else []
  {
    if delivered.Some? {
      assert Deliveries(r, delivered)[..0] == [];
    }
  }

  lemma {:induction false} TaggedTo(r: nat, messages: seq<ClientMessage>, q: nat)
    ensures SentTo(Tagged(r, messages), q) == if q == r then messages else []
    decreases |messages|
  {
    if messages != [] {
      var m := |messages| - 1;
      assert Tagged(r, messages)[..m] == Tagged(r, messages[..m]);
      TaggedTo(r, messages[..m], q);
      assert messages == messages[..m] + [messages[m]];
    }
  }

  /** Relay `r` handed on `e` exactly when the trace records it doing so. */
  lemma {:induction false} EventsFromMembership(trace: seq<Delivery>, r: nat, e: NostrEvent)
    ensures e in EventsFrom(trace, r) <==> Delivery(r, e) in trace
    decreases |trace|
  {
    if trace != [] {
      var m := |trace| - 1;
      EventsFromMembership(trace[..m], r, e);
      assert trace == trace[..m] + [trace[m]];
    }
  }

  /** Every event of the trace came from some relay, and every relay's events are in the trace. */
  lemma {:induction false} EventsOfCovers(trace: seq<Delivery>, n: nat, e: NostrEvent)
    requires forall k :: 0 <= k < |trace| ==> trace[k].relay < n
    ensures e in EventsOf(trace) <==> exists r :: 0 <= r < n && e in EventsFrom(trace, r)
  {
    if e in EventsOf(trace) {
      var k :| 0 <= k < |trace| && EventsOf(trace)[k] == e;
      EventsFromMembership(trace, trace[k].relay, e);
    } else {
      forall r | 0 <= r < n
        ensures e !in EventsFrom(trace, r)
      {
        EventsFromMembership(trace, r, e);
        forall k | 0 <= k < |trace|
          ensures trace[k] != Delivery(r, e)
        {
          assert EventsOf(trace)[k] != e;
        }
      }
    }
  }

  // ---- counting ----

  lemma {:induction false} StartedUpdate(numbers: seq<nat>, r: nat, v: nat)
    requires r < |numbers| && numbers[r] == 0 && v != 0
    ensures Started(numbers[r := v]) == Started(numbers) + 1
    decreases |numbers|
  {
    var m := |numbers| - 1;
    if r < m {
      assert numbers[r := v][..m] == numbers[..m][r := v];
      StartedUpdate(numbers[..m], r, v);
    } else {
      assert numbers[r := v][..m] == numbers[..m];
    }
  }

  lemma {:induction false} StartedIsConnected(numbers: seq<nat>, relays: seq<RelayScript>)
    requires |numbers| == |relays|
    requires forall r :: 0 <= r < |relays| ==> (numbers[r] != 0 <==> relays[r].Connected?)
    ensures Started(numbers) == ConnectedCount(relays)
    decreases |relays|
  {
    if relays != [] {
      var m := |relays| - 1;
      StartedIsConnected(numbers[..m], relays[..m]);
    }
  }

  /** Distinct subscription numbers give distinct subscription ids. */
  lemma SubscriptionIdsDistinct(prefix: string, m: nat, n: nat)
    requires m != n
    ensures SubscriptionId(prefix, m) != SubscriptionId(prefix, n)
  {
    NatToStringInjective(m, n);
    assert SubscriptionId(prefix, m)[|prefix|..] == NatToString(m);
    assert SubscriptionId(prefix, n)[|prefix|..] == NatToString(n);
  }

  // ---- the fan-out invariant ----

  /** Nothing has happened yet. */
  lemma FanOutStart(relays: seq<RelayScript>, start: nat, prefix: string, filter: Filter)
    ensures FanOut(relays, seq(|relays|, _ => Pending), [], [], seq(|relays|, _ => 0), start, start, prefix, filter)
  {
    var numbers: seq<nat> := seq(|relays|, _ => 0);
    assert Started(numbers) == 0 by {
      StartedZero(numbers);
    }
  }

  lemma {:induction false} StartedZero(numbers: seq<nat>)
    requires forall r :: 0 <= r < |numbers| ==> numbers[r] == 0
    ensures Started(numbers) == 0
    decreases |numbers|
  {
    if numbers != [] {
      StartedZero(numbers[..|numbers| - 1]);
    }
  }

  /** The subscription numbers after relay `r` takes a turn from `s` with the counter at `counter`. */
  function NextNumbers(numbers: seq<nat>, r: nat, s: Session, script: RelayScript, counter: nat): seq<nat>
    requires r < |numbers|
  {
    if s.Pending? && script.Connected? then numbers[r := counter + 1] else numbers
  }

  /** A turn of relay `r` keeps every session in line with its share of the trace and the log. */
  lemma TrackedStep(relays: seq<RelayScript>, sessions: seq<Session>, trace: seq<Delivery>, sent: seq<Outgoing>,
                    counter: nat, prefix: string, filter: Filter, r: nat)
    requires Tracked(relays, sessions, trace, sent, filter)
    requires r < |relays| && !sessions[r].Done?
    ensures var res := Step(relays[r], sessions[r], counter, prefix, filter);
      Tracked(relays, sessions[r := res.session], trace + Deliveries(r, res.delivered), sent + Tagged(r, res.sent), filter) &&
      Remaining(relays[r], res.session) < Remaining(relays[r], sessions[r])
  {
    var res := Step(relays[r], sessions[r], counter, prefix, filter);
    var sessions' := sessions[r := res.session];
    var trace' := trace + Deliveries(r, res.delivered);
    var sent' := sent + Tagged(r, res.sent);
    StepConsistent(relays[r], sessions[r], EventsFrom(trace, r), SentTo(sent, r), counter, prefix, filter);
    forall q | 0 <= q < |relays|
      ensures Consistent(relays[q], sessions'[q], EventsFrom(trace', q), SentTo(sent', q), filter)
    {
      EventsFromAppend(trace, Deliveries(r, res.delivered), q);
      DeliveriesTo(r, res.delivered, q);
      SentToAppend(sent, Tagged(r, res.sent), q);
      TaggedTo(r, res.sent, q);
    }
  }

  /** A turn of relay `r` keeps the numbering: a relay that connects takes the next number, above all others. */
  lemma NumberedStep(relays: seq<RelayScript>, sessions: seq<Session>, numbers: seq<nat>, start: nat, counter: nat,
                     prefix: string, filter: Filter, r: nat)
    requires Numbered(relays, sessions, numbers, start, counter, prefix)
    requires r < |relays| && !sessions[r].Done?
    ensures var res := Step(relays[r], sessions[r], counter, prefix, filter);
      Numbered(relays, sessions[r := res.session], NextNumbers(numbers, r, sessions[r], relays[r], counter),
               start, res.counter, prefix)
  {
    StepNumbering(relays[r], sessions[r], counter, prefix, filter);
    if sessions[r].Pending? && relays[r].Connected? {
      assert numbers[r] == 0;
      StartedUpdate(numbers, r, counter + 1);
    }
  }

  /** Any unfinished relay may take the next turn, and the invariant survives it. */
  lemma FanOutStep(relays: seq<RelayScript>, sessions: seq<Session>, trace: seq<Delivery>, sent: seq<Outgoing>,
                   numbers: seq<nat>, start: nat, counter: nat, prefix: string, filter: Filter, r: nat)
    requires FanOut(relays, sessions, trace, sent, numbers, start, counter, prefix, filter)
    requires r < |relays| && !sessions[r].Done?
    ensures var res := Step(relays[r], sessions[r], counter, prefix, filter);
      FanOut(relays, sessions[r := res.session], trace + Deliveries(r, res.delivered), sent + Tagged(r, res.sent),
             NextNumbers(numbers, r, sessions[r], relays[r], counter), start, res.counter, prefix, filter) &&
      Remaining(relays[r], res.session) < Remaining(relays[r], sessions[r])
  {
    TrackedStep(relays, sessions, trace, sent, counter, prefix, filter, r);
    NumberedStep(relays, sessions, numbers, start, counter, prefix, filter, r);
  }

  /**
   * The end state of a fetch: every relay either could not be reached, or
   * got a fresh subscription number of its own, handed on exactly the events
   * for that subscription before its loop ended, and was sent the REQ and,
   * after its EOSE, the CLOSE; the counter has grown by the number of relays
   * reached.
   */
  ghost predicate AllServed(relays: seq<RelayScript>, trace: seq<Delivery>, sent: seq<Outgoing>,
                            numbers: seq<nat>, start: nat, counter: nat, prefix: string, filter: Filter)
  {
    |numbers| == |relays| &&
    (forall k :: 0 <= k < |trace| ==> trace[k].relay < |relays|) &&
    (forall r :: 0 <= r < |relays| ==> (numbers[r] != 0 <==> relays[r].Connected?)) &&
    (forall r :: 0 <= r < |relays| ==> numbers[r] == 0 || start < numbers[r] <= counter) &&
    (forall r1, r2 :: 0 <= r1 < |relays| && 0 <= r2 < |relays| && r1 != r2 && numbers[r1] != 0 ==> numbers[r1] != numbers[r2]) &&
    (forall r :: 0 <= r < |relays| ==> EventsFrom(trace, r) == RelayEvents(relays[r], SubscriptionId(prefix, numbers[r]))) &&
    (forall r :: 0 <= r < |relays| ==> SentTo(sent, r) == RelayOutbound(relays[r], SubscriptionId(prefix, numbers[r]), filter)) &&
    counter == start + ConnectedCount(relays)
  }

  /** Once every session has finished, each relay's share of the trace, of the log and of the counter is known. */
  lemma FanOutDone(relays: seq<RelayScript>, sessions: seq<Session>, trace: seq<Delivery>, sent: seq<Outgoing>,
                   numbers: seq<nat>, start: nat, counter: nat, prefix: string, filter: Filter)
    requires FanOut(relays, sessions, trace, sent, numbers, start, counter, prefix, filter)
    requires forall r :: 0 <= r < |relays| ==> sessions[r].Done?
    ensures AllServed(relays, trace, sent, numbers, start, counter, prefix, filter)
  {
    forall r | 0 <= r < |relays|
      ensures numbers[r] != 0 <==> relays[r].Connected?
      ensures EventsFrom(trace, r) == RelayEvents(relays[r], SubscriptionId(prefix, numbers[r]))
      ensures SentTo(sent, r) == RelayOutbound(relays[r], SubscriptionId(prefix, numbers[r]), filter)
    {
      DoneServed(relays[r], sessions[r], EventsFrom(trace, r), SentTo(sent, r), numbers[r], prefix, filter);
    }
    StartedIsConnected(numbers, relays);
  }

  lemma DoneServed(script: RelayScript, s: Session, events: seq<NostrEvent>, sent: seq<ClientMessage>,
                   number: nat, prefix: string, filter: Filter)
    requires s.Done? && Consistent(script, s, events, sent, filter)
    requires SubIdOf(s) == if number == 0 then None else Some(SubscriptionId(prefix, number))
    ensures number != 0 <==> script.Connected?
    ensures events == RelayEvents(script, SubscriptionId(prefix, number))
    ensures sent == RelayOutbound(script, SubscriptionId(prefix, number), filter)
  {
  }

  /** Relays reached in the same fetch have different subscription ids. */
  lemma ServedIdsDistinct(relays: seq<RelayScript>, trace: seq<Delivery>, sent: seq<Outgoing>,
                          numbers: seq<nat>, start: nat, counter: nat, prefix: string, filter: Filter, r1: nat, r2: nat)
    requires AllServed(relays, trace, sent, numbers, start, counter, prefix, filter)
    requires r1 < |relays| && r2 < |relays| && r1 != r2 && relays[r1].Connected?
    ensures SubscriptionId(prefix, numbers[r1]) != SubscriptionId(prefix, numbers[r2])
  {
    SubscriptionIdsDistinct(prefix, numbers[r1], numbers[r2]);
  }
}
