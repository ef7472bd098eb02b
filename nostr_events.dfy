/**
 * Nostr events (NIP-01) and kind-0 profiles as the client reads them, with the
 * getters the feed is built from: tag lookup, `title`, `summary` and
 * `displayName`.
 */
module NostrEvents {
  import opened Outcomes

  /** A decoded event; missing JSON fields take the defaults `""`, `0` and `[]`. */
  datatype NostrEvent = NostrEvent(
    id: string,
    pubkey: string,
    createdAt: int,
    kind: int,
    tags: seq<seq<string>>,
    content: string,
    sig: string)

  /** A kind-0 metadata document; every field may be absent. */
  datatype NostrProfile = NostrProfile(
    name: Option<string>,
    display_name: Option<string>,
    about: Option<string>,
    picture: Option<string>,
    nip05: Option<string>)

  /** `NostrProfile()`: the profile with every field absent. */
  const EmptyProfile := NostrProfile(None, None, None, None, None)

  /** `it.getOrNull(0) == name` */
  predicate IsNamed(tag: seq<string>, name: string) {
    |tag| > 0 && tag[0] == name
  }

  /** `tags.find { it.getOrNull(0) == name }`: the first tag with that name. */
  function FindTag(tags: seq<seq<string>>, name: string): (r: Option<seq<string>>)
    ensures r.None? <==> forall i :: 0 <= i < |tags| ==> !IsNamed(tags[i], name)
    ensures r.Some? ==>
      exists i :: 0 <= i < |tags| && tags[i] == r.value && IsNamed(tags[i], name) &&
        forall j :: 0 <= j < i ==> !IsNamed(tags[j], name)
  {
    if tags == [] then None
    else if IsNamed(tags[0], name) then Some(tags[0])
    else
      var r := FindTag(tags[1..], name);
      assert forall j :: 0 < j < |tags| ==> tags[j] == tags[1..][j - 1];
      r
  }

  /** `tags.find { it.getOrNull(0) == name }?.getOrNull(1)` */
  function TagValue(tags: seq<seq<string>>, name: string): Option<string> {
    match FindTag(tags, name)
    case None => None
    case Some(tag) => if |tag| > 1 then Some(tag[1]) else None
  }

  predicate IsLineBreak(c: char) {
    c == '\n' || c == '\r'
  }

  /** The index of the first line break at or after `from`, or `|s|`. */
  function LineEnd(s: string, from: nat): (r: nat)
    requires from <= |s|
    ensures from <= r <= |s|
    ensures r < |s| ==> IsLineBreak(s[r])
    ensures forall i :: from <= i < r ==> !IsLineBreak(s[i])
    decreases |s| - from
  {
    if from == |s| || IsLineBreak(s[from]) then from else LineEnd(s, from + 1)
  }

  /**
   * `lineSequence()`: the text cut at `"\n"`, `"\r\n"` and `"\r"`. There is
   * always at least one line; text ending in a break ends with an empty line.
   */
  function Lines(s: string): (r: seq<string>)
    ensures |r| >= 1
    decreases |s|
  {
    var e := LineEnd(s, 0);
    if e == |s| then [s]
    else
      var next := if s[e] == '\r' && e + 1 < |s| && s[e + 1] == '\n' then e + 2 else e + 1;
      [s[..e]] + Lines(s[next..])
  }

  /** `lineSequence().firstOrNull()` */
  function FirstLineOrNull(s: string): Option<string> {
    var lines := Lines(s);
    if |lines| == 0 then None else Some(lines[0])
  }

  /** `NostrEvent.title` */
  function Title(e: NostrEvent): string {
    TagValue(e.tags, "title").GetOr(FirstLineOrNull(e.content).GetOr("Untitled"))
  }

  /** `NostrEvent.summary` */
  function Summary(e: NostrEvent): Option<string> {
    TagValue(e.tags, "summary")
  }

  /** `NostrProfile.displayName` */
  function DisplayName(p: NostrProfile): string {
    p.display_name.GetOr(p.name.GetOr("Unknown"))
  }

  // ---- properties ----

  /**
   * A tag's value is the second element of the first tag with the name: a
   * shorter first tag hides any later one.
   */
  lemma TagValueOfFirst(tags: seq<seq<string>>, name: string, i: nat)
    requires i < |tags| && IsNamed(tags[i], name)
    requires forall j :: 0 <= j < i ==> !IsNamed(tags[j], name)
    ensures TagValue(tags, name) == if |tags[i]| > 1 then Some(tags[i][1]) else None
  {
    var r := FindTag(tags, name);
    var k :| 0 <= k < |tags| && tags[k] == r.value && IsNamed(tags[k], name) &&
      forall j :: 0 <= j < k ==> !IsNamed(tags[j], name);
    assert k == i;
  }

  /** No tag with the name gives no value. */
  lemma TagValueAbsent(tags: seq<seq<string>>, name: string)
    requires forall i :: 0 <= i < |tags| ==> !IsNamed(tags[i], name)
    ensures TagValue(tags, name) == None
  {
  }

  /** The first line is the text up to the first line break, and all of it when there is none. */
  lemma FirstLineIsPrefix(s: string)
    ensures FirstLineOrNull(s).Some?
    ensures var line := FirstLineOrNull(s).value;
      line == s[..|line|] && (|line| == |s| || IsLineBreak(s[|line|])) &&
      forall i :: 0 <= i < |line| ==> !IsLineBreak(line[i])
  {
    var e := LineEnd(s, 0);
    if e < |s| {
      assert Lines(s)[0] == s[..e];
    } else {
      assert s[..e] == s;
    }
  }

  /**
   * `title` falls back to the first line of the content, which always exists,
   * so `"Untitled"` is never used: without a title tag, empty content gives
   * the empty title.
   */
  lemma TitleFallback(e: NostrEvent)
    requires TagValue(e.tags, "title").None?
    ensures Title(e) == FirstLineOrNull(e.content).value
    ensures e.content == [] ==> Title(e) == ""
  {
    FirstLineIsPrefix(e.content);
  }

  /** With a usable title tag the title is its value, whatever the content. */
  lemma TitleFromTag(e: NostrEvent)
    requires TagValue(e.tags, "title").Some?
    ensures Title(e) == TagValue(e.tags, "title").value
  {
  }

  /** `displayName` prefers `display_name`, then `name`, then `"Unknown"`. */
  lemma DisplayNameOrder(p: NostrProfile)
    ensures p.display_name.Some? ==> DisplayName(p) == p.display_name.value
    ensures p.display_name.None? && p.name.Some? ==> DisplayName(p) == p.name.value
    ensures p.display_name.None? && p.name.None? ==> DisplayName(p) == "Unknown"
  {
  }
}
