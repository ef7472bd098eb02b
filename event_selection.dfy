/**
 * What the two fetches make of the events their relays hand on: the
 * long-form fetch keeps the first event of each id (`seenEvents`), the
 * profile fetch keeps the content of the last acceptable metadata event
 * (`latestProfile`).
 */
module EventSelection {
  import opened Outcomes
  import opened NostrEvents
  import opened RelayProtocol

  /** The ids of a sequence of events. */
  function Ids(es: seq<NostrEvent>): set<string> {
    set e | e in es :: e.id
  }

  /** The events of one kind, in order. */
  function OfKind(es: seq<NostrEvent>, kind: int): (r: seq<NostrEvent>)
    ensures forall e :: e in r ==> e in es && e.kind == kind
    ensures forall e :: e in es && e.kind == kind ==> e in r
  {
    if es == [] then []
    else
      var p := OfKind(es[..|es| - 1], kind);
      var e := es[|es| - 1];
      assert es == es[..|es| - 1] + [e];
      p + if e.kind == kind then [e] else []
  }

  /**
   * `if (seenEvents.add(event.id)) send(event)`: the events whose id has not
   * been seen before, in the order they arrive. Nothing is lost but repeats:
   * every id is kept, once.
   */
  function FirstById(es: seq<NostrEvent>): (r: seq<NostrEvent>)
    ensures Ids(r) == Ids(es)
    ensures forall i, j :: 0 <= i < j < |r| ==> r[i].id != r[j].id
    ensures forall e :: e in r ==> e in es
  {
    if es == [] then []
    else
      var p := FirstById(es[..|es| - 1]);
      var e := es[|es| - 1];
      assert es == es[..|es| - 1] + [e];
      if e.id in Ids(p) then p
      else
        assert Ids(p + [e]) == Ids(p) + {e.id};
        p + [e]
  }

  /** No earlier event has the same id as `es[i]`. */
  predicate FirstOfId(es: seq<NostrEvent>, i: nat)
    requires i < |es|
  {
    forall j :: 0 <= j < i ==> es[j].id != es[i].id
  }

  /** Reference definition: the events at the first index of their id, in order. */
  function FirstOccurrences(es: seq<NostrEvent>): seq<NostrEvent> {
    if es == [] then []
    else FirstOccurrences(es[..|es| - 1]) + if FirstOfId(es, |es| - 1) then [es[|es| - 1]] else []
  }

  lemma IdsMembership(es: seq<NostrEvent>, id: string)
    ensures id in Ids(es) <==> exists j :: 0 <= j < |es| && es[j].id == id
  {
    if id in Ids(es) {
      var e :| e in es && e.id == id;
      var j :| 0 <= j < |es| && es[j] == e;
    }
  }

  /** Keeping the first event of each id as it arrives is keeping the first occurrences. */
  lemma {:induction false} FirstByIdIsFirstOccurrences(es: seq<NostrEvent>)
    ensures FirstById(es) == FirstOccurrences(es)
  {
    if es != [] {
      var n := |es| - 1;
      var prefix := es[..n];
      FirstByIdIsFirstOccurrences(prefix);
      IdsMembership(prefix, es[n].id);
      assert FirstOfId(es, n) <==> es[n].id !in Ids(prefix) by {
        assert forall j :: 0 <= j < n ==> prefix[j] == es[j];
      }
    }
  }

  // ---- the profile fetch ----

  /**
   * `event.kind == KIND_METADATA && event.createdAt > latestTimestamp` with
   * `latestTimestamp` still `0`, and content that decodes as a profile.
   */
  predicate Accepted(e: NostrEvent, parse: string -> Option<NostrProfile>) {
    e.kind == KindMetadata && e.createdAt > 0 && parse(e.content).Some?
  }

  /** `latestProfile` after the events `es` have been handled in that order. */
  function LatestProfile(es: seq<NostrEvent>, parse: string -> Option<NostrProfile>): NostrProfile {
    if es == [] then EmptyProfile
    else
      var e := es[|es| - 1];
      if Accepted(e, parse) then parse(e.content).value else LatestProfile(es[..|es| - 1], parse)
  }

  /** The profile is that of the last accepted event, whatever the timestamps of the others. */
  lemma {:induction false} LatestProfileIsLastAccepted(es: seq<NostrEvent>, parse: string -> Option<NostrProfile>, i: nat)
    requires i < |es| && Accepted(es[i], parse)
    requires forall j :: i < j < |es| ==> !Accepted(es[j], parse)
    ensures LatestProfile(es, parse) == parse(es[i].content).value
  {
    if i < |es| - 1 {
      var prefix := es[..|es| - 1];
      assert forall j :: i < j < |prefix| ==> prefix[j] == es[j];
      LatestProfileIsLastAccepted(prefix, parse, i);
    }
  }

  /** The profile is empty or the content of one of the accepted events. */
  lemma {:induction false} LatestProfileSource(es: seq<NostrEvent>, parse: string -> Option<NostrProfile>)
    ensures LatestProfile(es, parse) == EmptyProfile ||
      exists e :: e in es && Accepted(e, parse) && LatestProfile(es, parse) == parse(e.content).value
  {
    if es != [] {
      var prefix := es[..|es| - 1];
      LatestProfileSource(prefix, parse);
      if LatestProfile(es, parse) != EmptyProfile && !Accepted(es[|es| - 1], parse) {
        var e :| e in prefix && Accepted(e, parse) && LatestProfile(prefix, parse) == parse(e.content).value;
        assert e in es;
      }
    }
  }

  /** Without an accepted event the profile stays empty. */
  lemma {:induction false} LatestProfileNoneAccepted(es: seq<NostrEvent>, parse: string -> Option<NostrProfile>)
    requires forall j :: 0 <= j < |es| ==> !Accepted(es[j], parse)
    ensures LatestProfile(es, parse) == EmptyProfile
  {
    if es != [] {
      var prefix := es[..|es| - 1];
      assert forall j :: 0 <= j < |prefix| ==> prefix[j] == es[j];
      LatestProfileNoneAccepted(prefix, parse);
    }
  }

  /**
   * The result is not the newest profile: an older metadata event handled
   * after a newer one replaces it.
   */
  lemma LatestProfileNotNewest(older: NostrEvent, newer: NostrEvent, parse: string -> Option<NostrProfile>)
    requires Accepted(older, parse) && Accepted(newer, parse)
    requires older.createdAt < newer.createdAt
    ensures LatestProfile([newer, older], parse) == parse(older.content).value
  {
    LatestProfileIsLastAccepted([newer, older], parse, 1);
  }

  // ---- one more event ----

  lemma OfKindSnoc(es: seq<NostrEvent>, e: NostrEvent, kind: int)
    ensures OfKind(es + [e], kind) == OfKind(es, kind) + if e.kind == kind then [e] else []
  {
    assert (es + [e])[..|es|] == es;
  }

  lemma FirstByIdSnoc(es: seq<NostrEvent>, e: NostrEvent)
    ensures FirstById(es + [e]) == if e.id in Ids(FirstById(es)) then FirstById(es) else FirstById(es) + [e]
  {
    assert (es + [e])[..|es|] == es;
  }

  lemma LatestProfileSnoc(es: seq<NostrEvent>, e: NostrEvent, parse: string -> Option<NostrProfile>)
    ensures LatestProfile(es + [e], parse) == if Accepted(e, parse) then parse(e.content).value else LatestProfile(es, parse)
  {
    assert (es + [e])[..|es|] == es;
  }

  /** The `seenEvents` check on one more event keeps the emitted events equal to `FirstById` of the long-form ones. */
  lemma SeenStep(es: seq<NostrEvent>, e: NostrEvent, kind: int, events: seq<NostrEvent>, seen: set<string>)
    requires events == FirstById(OfKind(es, kind)) && seen == Ids(events)
    ensures FirstById(OfKind(es + [e], kind)) == if e.kind == kind && e.id !in seen then events + [e] else events
    ensures Ids(events + [e]) == seen + {e.id}
  {
    var ks := OfKind(es, kind);
    OfKindSnoc(es, e, kind);
    if e.kind == kind {
      assert OfKind(es + [e], kind) == ks + [e];
      FirstByIdSnoc(ks, e);
    } else {
      assert OfKind(es + [e], kind) == ks;
    }
    IdsSnoc(events, e);
  }

  lemma IdsSnoc(es: seq<NostrEvent>, e: NostrEvent)
    ensures Ids(es + [e]) == Ids(es) + {e.id}
  {
    forall x | x in es + [e]
      ensures x in es || x == e
    {
    }
  }
}
