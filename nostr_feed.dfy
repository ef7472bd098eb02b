/**
 * `NostrFeedFetcher`: turning a Nostr identifier typed as a feed URL into a
 * feed, from the author's long-form articles and kind-0 profile. The HTML
 * clean-up helpers it calls belong to the RSS parser and are taken as
 * parameters (`TextCleaning`).
 */
module NostrFeed {
  import opened Outcomes
  import opened Text
  import opened NostrEvents
  import opened RelayProtocol
  import opened RelayFanOut
  import opened EventSelection
  import opened NostrRelays

  /** `FeedParser.cleanText` (null in, or null out) and `String.decodeHTMLString()`. */
  datatype TextCleaning = TextCleaning(cleanText: Option<string> -> Option<string>, decodeHtml: string -> string)

  datatype PostPayload = PostPayload(
    link: string,
    title: string,
    description: string,
    rawContent: string,
    imageUrl: Option<string>,
    date: int,
    commentsLink: Option<string>)

  datatype FeedPayload = FeedPayload(
    name: string,
    description: string,
    icon: string,
    homepageLink: string,
    link: string,
    posts: seq<PostPayload>)

  /** The `FeedFetchResult.Error` cases. */
  datatype FetchError =
    | NotNostrUrl                      // "Not a Nostr URL"
    | InvalidIdentifier                // "Invalid Nostr identifier"
    | NoArticles                       // "No articles found"
    | TitleCleanedAway(eventId: string) // `cleanText(title)!!` throwing on an event

  const SummaryLength: nat := 500
  const FeedDescription := "Long-form content from Nostr author"

  /** `isNostrUrl` */
  predicate IsNostrUrl(url: string) {
    StartsWith(url, "nostr:") || StartsWith(url, "npub") || '@' in url || StartsWith(url, "nprofile")
  }

  /**
   * `extractPubKey`: an `npub` or `name@domain` identifier as it is, the text
   * after the first `nprofile1` of an `nprofile` (when there is any), the text
   * after the first `nostr:` of a `nostr:` URI.
   */
  function ExtractPubKey(url: string): (r: Option<string>)
    ensures r.Some? ==> IsNostrUrl(url)
    ensures r.Some? ==> |r.value| <= |url|
  {
    if StartsWith(url, "npub") then Some(url)
    else if '@' in url then Some(url)
    else if StartsWith(url, "nprofile") then
      var rest := SubstringAfter(url, "nprofile1");
      if rest != [] then Some(rest) else None
    else if StartsWith(url, "nostr:") then Some(SubstringAfter(url, "nostr:"))
    else None
  }

  /** `take(n)` */
  function Take(s: string, n: nat): (r: string)
    ensures |r| == if |s| <= n then |s| else n
    ensures r == s[..|r|]
  {
    if |s| <= n then s else s[..n]
  }

  /** `published_at` read as a `Long`, else `created_at`. */
  function PublishedAt(e: NostrEvent): int {
    match TagValue(e.tags, "published_at")
    case None => e.createdAt
    case Some(v) => ParseLong(v).GetOr(e.createdAt)
  }

  /** `convertNostrEventToPost`; it fails exactly when the title cleans to null. */
  function ConvertNostrEventToPost(e: NostrEvent, ops: TextCleaning): (r: Result<PostPayload, FetchError>)
    ensures r.Failure? <==> ops.cleanText(Some(Title(e))).None?
    ensures r.Failure? ==> r.error == TitleCleanedAway(e.id)
    ensures r.Success? ==> r.value.link == "nostr:" + e.id && r.value.rawContent == e.content && r.value.commentsLink == None
    ensures r.Success? ==> r.value.title == ops.decodeHtml(ops.cleanText(Some(Title(e))).value)
    ensures r.Success? ==> r.value.imageUrl == TagValue(e.tags, "image") && r.value.date == PublishedAt(e)
  {
    var title := ops.cleanText(Some(Title(e)));
    if title.None? then Failure(TitleCleanedAway(e.id))
    else
      var description := ops.cleanText(Some(Summary(e).GetOr(Take(e.content, SummaryLength)))).GetOr("");
      Success(PostPayload(
        "nostr:" + e.id,
        ops.decodeHtml(title.value),
        ops.decodeHtml(description),
        e.content,
        TagValue(e.tags, "image"),
        PublishedAt(e),
        None))
  }

  /** `events.map { convertNostrEventToPost(it) }`: the posts in order, or the first failure. */
  function ConvertAll(events: seq<NostrEvent>, ops: TextCleaning): (r: Result<seq<PostPayload>, FetchError>)
    ensures r.Success? ==> |r.value| == |events|
  {
    if events == [] then Success([])
    else
      var first := ConvertNostrEventToPost(events[0], ops);
      if first.Failure? then Failure(first.error)
      else
        var rest := ConvertAll(events[1..], ops);
        if rest.Failure? then Failure(rest.error) else Success([first.value] + rest.value)
  }

  /**
   * The conversion succeeds exactly when every event converts, and then holds
   * each event's post at its index; otherwise it reports the first event
   * whose title cleaned away.
   */
  lemma {:induction false} ConvertAllCharacterised(events: seq<NostrEvent>, ops: TextCleaning)
    ensures ConvertAll(events, ops).Success? <==> forall i :: 0 <= i < |events| ==> ConvertNostrEventToPost(events[i], ops).Success?
    ensures ConvertAll(events, ops).Success? ==>
      forall i :: 0 <= i < |events| ==> ConvertAll(events, ops).value[i] == ConvertNostrEventToPost(events[i], ops).value
    ensures ConvertAll(events, ops).Failure? ==> FirstFailure(events, ops, ConvertAll(events, ops).error)
  {
    if events != [] && ConvertNostrEventToPost(events[0], ops).Success? {
      var tail := events[1..];
      ConvertAllCharacterised(tail, ops);
      ShiftIndices(events);
      if ConvertAll(tail, ops).Failure? {
        FirstFailureShift(events, ops, ConvertAll(tail, ops).error);
      }
    } else if events != [] {
      assert FirstFailure(events, ops, TitleCleanedAway(events[0].id)) by {
        assert Fails(events, ops, 0, TitleCleanedAway(events[0].id));
      }
    }
  }

  /** Event `i` is the first that fails to convert, with error `error`. */
  ghost predicate Fails(events: seq<NostrEvent>, ops: TextCleaning, i: nat, error: FetchError) {
    i < |events| && error == TitleCleanedAway(events[i].id) &&
    ConvertNostrEventToPost(events[i], ops).Failure? &&
    forall j :: 0 <= j < i ==> ConvertNostrEventToPost(events[j], ops).Success?
  }

  ghost predicate FirstFailure(events: seq<NostrEvent>, ops: TextCleaning, error: FetchError) {
    exists i: nat :: Fails(events, ops, i, error)
  }

  lemma ShiftIndices(events: seq<NostrEvent>)
    requires events != []
    ensures forall i :: 0 < i < |events| ==> events[i] == events[1..][i - 1]
  {
  }

  lemma FirstFailureShift(events: seq<NostrEvent>, ops: TextCleaning, error: FetchError)
    requires events != [] && ConvertNostrEventToPost(events[0], ops).Success?
    requires FirstFailure(events[1..], ops, error)
    ensures FirstFailure(events, ops, error)
  {
    var k: nat :| Fails(events[1..], ops, k, error);
    ShiftIndices(events);
    assert Fails(events, ops, k + 1, error);
  }

  /** `convertNostrToFeed` */
  function ConvertNostrToFeed(events: seq<NostrEvent>, pubkey: string, profile: NostrProfile, ops: TextCleaning): Result<FeedPayload, FetchError> {
    match ConvertAll(events, ops)
    case Failure(error) => Failure(error)
    case Success(posts) =>
      Success(FeedPayload(
        DisplayName(profile),
        ops.decodeHtml(FeedDescription),
        profile.picture.GetOr("null"),
        "njump.me/" + pubkey,
        "njump.me/" + pubkey,
        posts))
  }

  class NostrFeedFetcher {
    const nostrClient: NostrClient

    constructor (client: NostrClient)
      ensures nostrClient == client
    {
      nostrClient := client;
    }

    /**
     * `fetch`: the articles are fetched first; without any the profile is
     * not fetched. `articleRelays`/`profileRelays` and the schedules stand
     * for what the relays send during each of the two fetches and how their
     * coroutines interleave; `transformUrl` is not used.
     */
    method Fetch(url: string, transformUrl: bool,
                 articleRelays: seq<RelayScript>, articleSchedule: seq<nat>,
                 profileRelays: seq<RelayScript>, profileSchedule: seq<nat>,
                 parse: string -> Option<NostrProfile>, ops: TextCleaning)
      returns (result: Result<FeedPayload, FetchError>,
               ghost events: seq<NostrEvent>, ghost profile: NostrProfile,
               ghost articleTrace: seq<Delivery>, ghost articleSent: seq<Outgoing>, ghost articleNumbers: seq<nat>,
               ghost profileTrace: seq<Delivery>, ghost profileSent: seq<Outgoing>, ghost profileNumbers: seq<nat>)
      modifies nostrClient
      ensures !IsNostrUrl(url) ==> result == Failure(NotNostrUrl) && unchanged(nostrClient)
      ensures IsNostrUrl(url) && ExtractPubKey(url).None? ==> result == Failure(InvalidIdentifier) && unchanged(nostrClient)
      ensures ExtractPubKey(url).Some? ==>
        var pubkey := ExtractPubKey(url).value;
        var afterArticles := old(nostrClient.subscriptionCounter) + ConnectedCount(articleRelays);
        AllServed(articleRelays, articleTrace, articleSent, articleNumbers, old(nostrClient.subscriptionCounter),
                  afterArticles, "sub", AuthorFilter(KindLongForm, pubkey)) &&
        events == FirstById(OfKind(EventsOf(articleTrace), KindLongForm)) &&
        if events == [] then
          result == Failure(NoArticles) && nostrClient.subscriptionCounter == afterArticles
        else
          AllServed(profileRelays, profileTrace, profileSent, profileNumbers, afterArticles,
                    nostrClient.subscriptionCounter, "profile", AuthorFilter(KindMetadata, pubkey)) &&
          profile == LatestProfile(EventsOf(profileTrace), parse) &&
          result == ConvertNostrToFeed(events, pubkey, profile, ops)
    {
      events, profile := [], EmptyProfile;
      articleTrace, articleSent, articleNumbers := [], [], [];
      profileTrace, profileSent, profileNumbers := [], [], [];
      if !IsNostrUrl(url) {
        return Failure(NotNostrUrl), events, profile, articleTrace, articleSent, articleNumbers,
          profileTrace, profileSent, profileNumbers;
      }
      var key := ExtractPubKey(url);
      if key.None? {
        return Failure(InvalidIdentifier), events, profile, articleTrace, articleSent, articleNumbers,
          profileTrace, profileSent, profileNumbers;
      }
      var pubkey := key.value;
      var fetched, sent;
      fetched, sent, articleTrace, articleNumbers := nostrClient.FetchLongFormContent(pubkey, articleRelays, articleSchedule);
      events, articleSent := fetched, sent;
      if fetched == [] {
        return Failure(NoArticles), events, profile, articleTrace, articleSent, articleNumbers,
          profileTrace, profileSent, profileNumbers;
      }
      var nostrProfile;
      nostrProfile, sent, profileTrace, profileNumbers := nostrClient.FetchNostrProfile(pubkey, profileRelays, profileSchedule, parse);
      profile, profileSent := nostrProfile, sent;
      result := ConvertNostrToFeed(fetched, pubkey, nostrProfile, ops);
    }
  }

  // ---- properties ----

  /** `extractPubKey` rejects a Nostr URL only when it is an `nprofile` with nothing after its first `nprofile1`. */
  lemma ExtractPubKeyRejects(url: string)
    requires IsNostrUrl(url)
    ensures ExtractPubKey(url).None? <==>
      !StartsWith(url, "npub") && '@' !in url && StartsWith(url, "nprofile") && SubstringAfter(url, "nprofile1") == []
  {
  }

  lemma SubstringAfterPrefix(url: string, d: string)
    requires StartsWith(url, d)
    ensures SubstringAfter(url, d) == url[|d|..]
  {
    assert OccursAt(url, d, 0);
    assert IndexOf(url, d) == 0;
    var r := SubstringAfter(url, d);
    assert url == url[..0] + d + r;
    assert url[|d|..] == r;
  }

  /** A `nostr:` URI yields what follows the scheme. */
  lemma ExtractFromNostrUri(url: string)
    requires StartsWith(url, "nostr:") && !StartsWith(url, "npub") && '@' !in url && !StartsWith(url, "nprofile")
    ensures ExtractPubKey(url) == Some(url[6..])
  {
    SubstringAfterPrefix(url, "nostr:");
  }

  /** An `nprofile1…` identifier yields what follows `nprofile1`, if anything. */
  lemma ExtractFromNprofile(url: string)
    requires StartsWith(url, "nprofile1") && '@' !in url
    ensures ExtractPubKey(url) == if |url| == 9 then None else Some(url[9..])
  {
    assert StartsWith(url, "nprofile") by {
      assert url[..8] == url[..9][..8];
    }
    assert !StartsWith(url, "npub") by {
      assert url[..9] == "nprofile1";
      assert url[2] == "nprofile1"[2] == 'r';
      assert "npub"[2] == 'u';
    }
    SubstringAfterPrefix(url, "nprofile1");
  }

  /** A `published_at` tag holding a `Long` gives the date; anything else falls back to `created_at`. */
  lemma PublishedAtTag(e: NostrEvent, n: nat)
    ensures TagValue(e.tags, "published_at") == Some(NatToString(n)) && n <= LongMax ==> PublishedAt(e) == n
    ensures TagValue(e.tags, "published_at").None? ==> PublishedAt(e) == e.createdAt
    ensures forall v :: TagValue(e.tags, "published_at") == Some(v) && ParseLong(v).None? ==> PublishedAt(e) == e.createdAt
  {
    if n <= LongMax {
      ParseLongOfNatToString(n);
    }
  }

  /** The description is cleaned from the summary tag, or from at most the first 500 characters of the content. */
  lemma DescriptionSource(e: NostrEvent, ops: TextCleaning)
    requires ConvertNostrEventToPost(e, ops).Success?
    ensures var source := if Summary(e).Some? then Summary(e).value else Take(e.content, SummaryLength);
      ConvertNostrEventToPost(e, ops).value.description == ops.decodeHtml(ops.cleanText(Some(source)).GetOr("")) &&
      (Summary(e).None? ==> |source| <= SummaryLength && source == e.content[..|source|])
  {
  }

  /** A post's link is `nostr:` followed by its event's id. */
  lemma PostLinkNamesEvent(e: NostrEvent, ops: TextCleaning)
    requires ConvertNostrEventToPost(e, ops).Success?
    ensures ConvertNostrEventToPost(e, ops).value.link[6..] == e.id
  {
  }

  /** Events with distinct ids give posts with distinct links: the feed holds no article twice. */
  lemma FeedLinksDistinct(events: seq<NostrEvent>, pubkey: string, profile: NostrProfile, ops: TextCleaning)
    requires forall i, j :: 0 <= i < j < |events| ==> events[i].id != events[j].id
    requires ConvertNostrToFeed(events, pubkey, profile, ops).Success?
    ensures var posts := ConvertNostrToFeed(events, pubkey, profile, ops).value.posts;
      |posts| == |events| && forall i, j :: 0 <= i < j < |posts| ==> posts[i].link != posts[j].link
  {
    var posts := ConvertAll(events, ops).value;
    ConvertAllCharacterised(events, ops);
    forall i, j | 0 <= i < j < |posts|
      ensures posts[i].link != posts[j].link
    {
      PostLinkNamesEvent(events[i], ops);
      PostLinkNamesEvent(events[j], ops);
    }
  }

  /** The feed is named after the profile and linked to the author's njump.me page. */
  lemma FeedIdentity(events: seq<NostrEvent>, pubkey: string, profile: NostrProfile, ops: TextCleaning)
    requires ConvertNostrToFeed(events, pubkey, profile, ops).Success?
    ensures var feed := ConvertNostrToFeed(events, pubkey, profile, ops).value;
      feed.name == DisplayName(profile) && feed.link == feed.homepageLink == "njump.me/" + pubkey &&
      feed.link[9..] == pubkey &&
      (profile.picture.Some? ==> feed.icon == profile.picture.value) && (profile.picture.None? ==> feed.icon == "null")
  {
  }
}
