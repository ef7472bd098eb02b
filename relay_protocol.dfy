/**
 * The client side of a NIP-01 subscription, one relay at a time. With the
 * WebSocket and JSON left aside, a relay is the sequence of frames it sends
 * (`RelayScript`), and one turn of the client's frame loop is the pure
 * function `Step` over the relay's `Session`. What a relay contributes once
 * its loop has ended is stated by `Delivered` and `Outbound`, and
 * `StepConsistent` shows that every `Step` keeps the session in line with them.
 */
module RelayProtocol {
  import opened Outcomes
  import opened Text
  import opened NostrEvents

  /** NIP-23 long-form article. */
  const KindLongForm: int := 30023
  /** NIP-01 user metadata. */
  const KindMetadata: int := 0

  /** `{"kinds": [...], "authors": [...]}`; an author that failed to decode is `null`. */
  datatype Filter = Filter(kinds: seq<int>, authors: seq<Option<string>>)

  /** `["REQ", subId, filter]` and `["CLOSE", subId]`. */
  datatype ClientMessage = Req(subId: string, filter: Filter) | Close(subId: string)

  /** A text frame from a relay, as the client reads it. */
  datatype RelayMessage =
    | Event(subId: string, event: NostrEvent)   // ["EVENT", subId, event]
    | EndOfStoredEvents(subId: string)          // ["EOSE", subId]
    | Notice(message: Option<string>)           // ["NOTICE", message]
    | UnknownType(tag: string)                  // any other first element
    | ParseError                                // not a JSON array, a missing element, an event that does not decode

  /** A frame as the loop receives it; `LoopFailure` is the `incoming` channel throwing. */
  datatype Frame = Text(message: RelayMessage) | NonText | LoopFailure

  /** A relay the connection to which fails, or the frames it sends once connected. */
  datatype RelayScript = Unreachable | Connected(frames: seq<Frame>)

  /**
   * Where a relay's coroutine is: not yet connected, reading frames from
   * `next` on, or finished (with the subscription it had, if it connected).
   */
  datatype Session = Pending | Open(subId: string, next: nat) | Done(subscription: Option<string>)

  function SubIdOf(s: Session): Option<string> {
    match s
    case Pending => None
    case Open(subId, _) => Some(subId)
    case Done(subscription) => subscription
  }

  /** `"sub${n}"` or `"profile${n}"` */
  function SubscriptionId(prefix: string, n: nat): string {
    prefix + NatToString(n)
  }

  /** A session's new state, the shared counter, what it wrote, and the event it hands on. */
  datatype StepResult = StepResult(session: Session, counter: nat, sent: seq<ClientMessage>, delivered: Option<NostrEvent>)

  /**
   * One turn of a relay's coroutine: connecting (taking the next subscription
   * number and sending the REQ), or handling one frame.
   */
  function Step(script: RelayScript, s: Session, counter: nat, prefix: string, filter: Filter): StepResult {
    match s
    case Pending =>
      if script.Unreachable? then StepResult(Done(None), counter, [], None)
      else
        var subId := SubscriptionId(prefix, counter + 1);
        StepResult(Open(subId, 0), counter + 1, [Req(subId, filter)], None)
    case Open(subId, next) =>
      if script.Unreachable? || next >= |script.frames| then StepResult(Done(Some(subId)), counter, [], None)
      else
        (match script.frames[next]
        case Text(Event(id, e)) =>
          StepResult(Open(subId, next + 1), counter, [], if id == subId then Some(e) else None)
        case Text(EndOfStoredEvents(id)) =>
          if id == subId then StepResult(Done(Some(subId)), counter, [Close(subId)], None)
          else StepResult(Open(subId, next + 1), counter, [], None)
        case Text(_) => StepResult(Open(subId, next + 1), counter, [], None)
        case NonText => StepResult(Open(subId, next + 1), counter, [], None)
        case LoopFailure => StepResult(Done(Some(subId)), counter, [], None))
    case Done(_) => StepResult(s, counter, [], None)
  }

  // ---- what one relay contributes ----

  /** The frames that end the loop: the EOSE for our subscription, or a failure. */
  predicate Stops(f: Frame, subId: string) {
    f.LoopFailure? || f == Text(EndOfStoredEvents(subId))
  }

  /** The index of the first frame that ends the loop, or the number of frames. */
  function StopFrom(frames: seq<Frame>, subId: string, from: nat): (r: nat)
    requires from <= |frames|
    ensures from <= r <= |frames|
    ensures r < |frames| ==> Stops(frames[r], subId)
    ensures forall i :: from <= i < r ==> !Stops(frames[i], subId)
    decreases |frames| - from
  {
    if from == |frames| || Stops(frames[from], subId) then from else StopFrom(frames, subId, from + 1)
  }

  function StopAt(frames: seq<Frame>, subId: string): nat
  {
    StopFrom(frames, subId, 0)
  }

  /** The events of the EVENT frames for `subId`, in order. */
  function Matching(frames: seq<Frame>, subId: string): seq<NostrEvent> {
    if frames == [] then []
    else Matching(frames[..|frames| - 1], subId) + MatchingOne(frames[|frames| - 1], subId)
  }

  function MatchingOne(f: Frame, subId: string): seq<NostrEvent> {
    if f.Text? && f.message.Event? && f.message.subId == subId then [f.message.event] else []
  }

  /** The loop ended on our EOSE (and not on a failure or the end of the stream). */
  predicate Closes(frames: seq<Frame>, subId: string) {
    StopAt(frames, subId) < |frames| && frames[StopAt(frames, subId)].Text?
  }

  /** Every event a connected relay hands to the fetch: those for our subscription before the loop ends. */
  function Delivered(frames: seq<Frame>, subId: string): seq<NostrEvent> {
    Matching(frames[..StopAt(frames, subId)], subId)
  }

  /** Everything the client writes to a connected relay. */
  function Outbound(frames: seq<Frame>, subId: string, filter: Filter): seq<ClientMessage> {
    [Req(subId, filter)] + if Closes(frames, subId) then [Close(subId)] else []
  }

  /** A session agrees with what its relay has handed on (`events`) and been sent (`sent`). */
  predicate Consistent(script: RelayScript, s: Session, events: seq<NostrEvent>, sent: seq<ClientMessage>, filter: Filter) {
    match s
    case Pending => events == [] && sent == []
    case Open(subId, next) =>
      script.Connected? && next <= StopAt(script.frames, subId) &&
      events == Matching(script.frames[..next], subId) && sent == [Req(subId, filter)]
    case Done(None) => script.Unreachable? && events == [] && sent == []
    case Done(Some(subId)) =>
      script.Connected? && events == Delivered(script.frames, subId) &&
      sent == Outbound(script.frames, subId, filter)
  }

  /** Frames after the one that ends the loop do not move where it ends. */
  lemma StopAtAppend(frames: seq<Frame>, rest: seq<Frame>, subId: string)
    requires StopAt(frames, subId) < |frames|
    ensures StopAt(frames + rest, subId) == StopAt(frames, subId)
  {
    var k := StopAt(frames, subId);
    assert (frames + rest)[k] == frames[k];
    forall i | 0 <= i < k
      ensures !Stops((frames + rest)[i], subId)
    {
      assert (frames + rest)[i] == frames[i];
    }
  }

  /**
   * Once the loop has ended, whatever else the relay sends is never read: it
   * adds no event and changes nothing the client writes.
   */
  lemma LateFramesIgnored(frames: seq<Frame>, rest: seq<Frame>, subId: string, filter: Filter)
    requires StopAt(frames, subId) < |frames|
    ensures Delivered(frames + rest, subId) == Delivered(frames, subId)
    ensures Closes(frames + rest, subId) == Closes(frames, subId)
    ensures Outbound(frames + rest, subId, filter) == Outbound(frames, subId, filter)
  {
    var k := StopAt(frames, subId);
    StopAtAppend(frames, rest, subId);
    assert (frames + rest)[..k] == frames[..k];
    assert (frames + rest)[k] == frames[k];
  }

  /** A bound on the turns a session has left. */
  function Remaining(script: RelayScript, s: Session): nat {
    match s
    case Pending => if script.Unreachable? then 1 else |script.frames| + 2
    case Open(_, next) => if script.Unreachable? || next > |script.frames| then 1 else |script.frames| - next + 1
    case Done(_) => 0
  }

  function AsSeq<T>(o: Option<T>): seq<T> {
    if o.Some? then [o.value] else []
  }

  lemma MatchingSnoc(frames: seq<Frame>, subId: string, next: nat)
    requires next < |frames|
    ensures Matching(frames[..next + 1], subId) == Matching(frames[..next], subId) + MatchingOne(frames[next], subId)
  {
    assert frames[..next + 1][..next] == frames[..next];
  }

  /** Reading a frame that does not end the loop moves on to the next one. */
  lemma AdvanceConsistent(frames: seq<Frame>, subId: string, next: nat, events: seq<NostrEvent>, filter: Filter)
    requires next < StopAt(frames, subId)
    requires events == Matching(frames[..next], subId)
    ensures Consistent(Connected(frames), Open(subId, next + 1), events + MatchingOne(frames[next], subId), [Req(subId, filter)], filter)
  {
    MatchingSnoc(frames, subId, next);
  }

  /** Reaching the end of the frames or a frame that ends the loop finishes the session. */
  lemma FinishConsistent(frames: seq<Frame>, subId: string, next: nat, events: seq<NostrEvent>, filter: Filter)
    requires next == StopAt(frames, subId)
    requires events == Matching(frames[..next], subId)
    ensures Consistent(Connected(frames), Done(Some(subId)), events, [Req(subId, filter)] + (if Closes(frames, subId) then [Close(subId)] else []), filter)
  {
  }

  lemma StepOpen(frames: seq<Frame>, subId: string, next: nat, events: seq<NostrEvent>, counter: nat, prefix: string, filter: Filter)
    requires next <= StopAt(frames, subId) && events == Matching(frames[..next], subId)
    ensures var res := Step(Connected(frames), Open(subId, next), counter, prefix, filter);
      Consistent(Connected(frames), res.session, events + AsSeq(res.delivered), [Req(subId, filter)] + res.sent, filter) &&
      Remaining(Connected(frames), res.session) < Remaining(Connected(frames), Open(subId, next)) &&
      res.counter == counter && SubIdOf(res.session) == Some(subId)
  {
    var res := Step(Connected(frames), Open(subId, next), counter, prefix, filter);
    var stop := StopAt(frames, subId);
    if next == stop {
      FinishConsistent(frames, subId, next, events, filter);
      if next < |frames| {
        assert res.session == Done(Some(subId)) && res.delivered == None;
        assert res.sent == if Closes(frames, subId) then [Close(subId)] else [];
      }
    } else {
      AdvanceConsistent(frames, subId, next, events, filter);
      assert !Stops(frames[next], subId);
      assert res.session == Open(subId, next + 1);
      assert AsSeq(res.delivered) == MatchingOne(frames[next], subId);
      assert res.sent == [];
    }
  }

  /**
   * A turn uses the next subscription number exactly when it connects, and
   * otherwise keeps the counter and the subscription.
   */
  lemma StepNumbering(script: RelayScript, s: Session, counter: nat, prefix: string, filter: Filter)
    requires !s.Done?
    ensures var res := Step(script, s, counter, prefix, filter);
      if s.Pending? && script.Connected?
      then res.counter == counter + 1 && SubIdOf(res.session) == Some(SubscriptionId(prefix, counter + 1))
      else res.counter == counter && SubIdOf(res.session) == SubIdOf(s)
  {
    if s.Open? && !script.Unreachable? && s.next < |script.frames| {
      assert script.frames[s.next].Text? || script.frames[s.next].NonText? || script.frames[s.next].LoopFailure?;
    }
  }

  /**
   * Every turn of a relay's loop keeps it consistent with `Delivered` and
   * `Outbound`, uses the next subscription number exactly when it connects,
   * keeps the subscription otherwise, and brings the loop closer to its end.
   */
  lemma StepConsistent(script: RelayScript, s: Session, events: seq<NostrEvent>, sent: seq<ClientMessage>,
                       counter: nat, prefix: string, filter: Filter)
    requires Consistent(script, s, events, sent, filter) && !s.Done?
    ensures var res := Step(script, s, counter, prefix, filter);
      Consistent(script, res.session, events + AsSeq(res.delivered), sent + res.sent, filter) &&
      Remaining(script, res.session) < Remaining(script, s) &&
      (if s.Pending? && script.Connected?
       then res.counter == counter + 1 && SubIdOf(res.session) == Some(SubscriptionId(prefix, counter + 1))
       else res.counter == counter && SubIdOf(res.session) == SubIdOf(s))
  {
    match s
    case Pending =>
      if script.Connected? {
        assert script.frames[..0] == [];
      }
    case Open(subId, next) =>
      StepOpen(script.frames, subId, next, events, counter, prefix, filter);
  }
}
