# Nostr feeds, verified

A Dafny model of how the twine RSS reader turns a Nostr identifier into a
feed. Three Kotlin files make up the modelled core:

- `Bech32.kt`: decoding an `npub1...` key into a 64-digit hex public key,
  and encoding a hex key back. This implementation has no checksum. The
  decoder regroups the 5-bit value of every data character into bytes and
  keeps the first 32.
- `NostrClient.kt`: the two fetches. Each one opens a WebSocket to every
  relay at once and sends a NIP-01 `REQ` with a subscription id drawn from
  a counter the relays share. It then reads frames until the relay's EOSE,
  answering that with a `CLOSE`. The long-form fetch emits each NIP-23
  article once per id. The profile fetch keeps a kind-0 profile.
- `NostrFeedFetcher.kt`: recognising Nostr URLs, extracting the key,
  fetching articles and profile, and converting them to a feed and its
  posts.

Module by module:

- `Bech32` holds the operations twice.
  - The functions `DecodeSpec` and `EncodeSpec` state them on bit streams,
    using `BitGroups`.
  - The methods `Decode` and `Encode` are the loops as written. They shift
    and mask a 32-bit `Int` accumulator, with the wrap-around of `shl`
    written out, and are proved to compute the same results.
  - `Bech32Properties` proves the round trips in both directions, case
    insensitivity, exactly when each error occurs, and that trailing data
    is ignored.
- `RelayProtocol` models a relay as the frames it sends. One turn of its
  coroutine is the function `Step`, and `Delivered` and `Outbound` state
  what a relay contributes once its loop ends.
- `RelayFanOut` holds the invariant that survives any interleaving of the
  relays' turns.
- `NostrRelays.NostrClient` is a class whose `subscriptionCounter` field
  its methods update.
  - A fetch takes the relays' turns in the order a `schedule` names, then
    runs each unfinished relay to its end, as `awaitAll` does.
  - Ghost traces record every event handed on and every message written.
  - The fetch results are proved against `EventSelection`'s reference
    definitions.
- `NostrFeed` models the fetcher and the post conversion.

Where the documented behaviour and the code differ, the model follows the
code:

- The profile returned is the content of the last accepted metadata event
  handled, not the newest. `latestTimestamp` is never updated, so any
  metadata event with a positive `created_at` is accepted
  (`EventSelection.LatestProfileNotNewest`).
- A post's title falls back to the first line of the content. There
  always is one, so `"Untitled"` is never reached: empty content gives an
  empty title (`NostrEvents.TitleFallback`).
- An `nprofile` URL without `nprofile1` yields the whole URL as the key.
  `substringAfter` returns its receiver when the delimiter is missing.

## Model

| member | source | states |
|---|---|---|
| Text.IndexOfFrom | core/network/src/commonMain/kotlin/dev/sasikanth/rss/reader/core/network/fetcher/NostrFeedFetcher.kt:55-56 | the result is -1 or an index at or after `from` where the delimiter occurs, and the delimiter occurs nowhere between `from` and the result (nowhere at all when -1) |
| Text.SubstringAfter | core/network/src/commonMain/kotlin/dev/sasikanth/rss/reader/core/network/fetcher/NostrFeedFetcher.kt:55-56 | when the delimiter occurs, the text is what precedes its first occurrence, the delimiter, then the result; when it does not, the result is the whole text |
| Text.LastIndexOf | core/network/src/commonMain/kotlin/dev/sasikanth/rss/reader/core/network/nostr/Bech32.kt:22 | the result is -1 or an index holding the character, and no later index holds it |
| Text.LastIndexOfAppend | core/network/src/commonMain/kotlin/dev/sasikanth/rss/reader/core/network/nostr/Bech32.kt:22-24 | appending text without the character leaves its last index unchanged |
| Text.NatToString | core/network/src/commonMain/kotlin/dev/sasikanth/rss/reader/core/network/nostr/NostrClient.kt:97-98 | the counter's text is a non-empty run of decimal digits with no leading zero (except for 0 itself) |
| Text.DigitsValueOfNatToString | core/network/src/commonMain/kotlin/dev/sasikanth/rss/reader/core/network/nostr/NostrClient.kt:97-98 | reading the decimal text back gives the number |
| Text.NatToStringInjective | core/network/src/commonMain/kotlin/dev/sasikanth/rss/reader/core/network/nostr/NostrClient.kt:97-98 | two numbers with the same decimal text are equal |
| Text.ParseLong | core/network/src/commonMain/kotlin/dev/sasikanth/rss/reader/core/network/fetcher/NostrFeedFetcher.kt:83-85 | `toLongOrNull` on ASCII text only yields values inside the 64-bit `Long` range |
| Text.ParseLongOfNatToString | core/network/src/commonMain/kotlin/dev/sasikanth/rss/reader/core/network/fetcher/NostrFeedFetcher.kt:83-85 | every non-negative `Long` is read back from its decimal text |
| Text.ParseLongOfNegative | core/network/src/commonMain/kotlin/dev/sasikanth/rss/reader/core/network/fetcher/NostrFeedFetcher.kt:83-85 | every negative `Long` is read back from a minus sign followed by its magnitude's digits |
| BitGroups.GroupsLength | core/network/src/commonMain/kotlin/dev/sasikanth/rss/reader/core/network/nostr/Bech32.kt:29-36 | a bit stream has as many complete groups as its length divided by the group width |
| BitGroups.GroupsOfStream | core/network/src/commonMain/kotlin/dev/sasikanth/rss/reader/core/network/nostr/Bech32.kt:26-36 | cutting values laid end to end as `w`-bit fields back into `w`-bit groups gives the values again |
| BitGroups.StreamOfGroups | core/network/src/commonMain/kotlin/dev/sasikanth/rss/reader/core/network/nostr/Bech32.kt:26-36 | laying out the groups of a stream whose length is a multiple of `w` gives the stream again |
| BitGroups.GroupsPrefix | core/network/src/commonMain/kotlin/dev/sasikanth/rss/reader/core/network/nostr/Bech32.kt:29-37 | more bits after a stream only add groups after its own |
| BitGroups.BytesOfPadded | core/network/src/commonMain/kotlin/dev/sasikanth/rss/reader/core/network/nostr/Bech32.kt:47-60 | zero-padding a byte stream to a multiple of 5 bits adds no complete byte: its 8-bit groups are the bytes |
| BitGroups.RegroupRoundTrip | core/network/src/commonMain/kotlin/dev/sasikanth/rss/reader/core/network/nostr/Bech32.kt:26-60 | bytes regrouped into padded 5-bit values and back into bytes are the original bytes |
| BitGroups.ShlRoom | core/network/src/commonMain/kotlin/dev/sasikanth/rss/reader/core/network/nostr/Bech32.kt:30 | `(acc shl w) or v` never overflows a 32-bit `Int`, and the `or` adds `v` into the zeroed low bits |
| BitGroups.PushInto | core/network/src/commonMain/kotlin/dev/sasikanth/rss/reader/core/network/nostr/Bech32.kt:29-31 | taking in the next value keeps the accumulator loop's state: the values emitted so far are the complete groups of the stream read so far, and the low `bits` bits of `acc` are the bits still pending |
| BitGroups.EmitInto | core/network/src/commonMain/kotlin/dev/sasikanth/rss/reader/core/network/nostr/Bech32.kt:32-35 | emitting `(acc shr bits) and mask` with `bits` reduced by the width appends exactly the next complete group and keeps the state |
| BitGroups.PadInto | core/network/src/commonMain/kotlin/dev/sasikanth/rss/reader/core/network/nostr/Bech32.kt:58-60 | the final `(acc shl (5 - bits)) and 31` is the last group of the stream zero-padded to a multiple of 5 bits, and nothing is added when no bits are pending |
| BitGroups.DropInto | core/network/src/commonMain/kotlin/dev/sasikanth/rss/reader/core/network/nostr/Bech32.kt:36-37 | at the end of `decode` the fewer than 8 pending bits form no byte: the output is all the complete groups |
| Bech32.IndexMapKeys | core/network/src/commonMain/kotlin/dev/sasikanth/rss/reader/core/network/nostr/Bech32.kt:19 | the keys of `associate` over `withIndex` are the characters of the text, each mapped to an index where it occurs |
| Bech32.IndexMapInverts | core/network/src/commonMain/kotlin/dev/sasikanth/rss/reader/core/network/nostr/Bech32.kt:19 | over distinct characters, the map sends each character to its own index |
| Bech32.CharsetDistinct | core/network/src/commonMain/kotlin/dev/sasikanth/rss/reader/core/network/nostr/Bech32.kt:18 | the 32 alphabet characters are pairwise distinct |
| Bech32.CharsetMapInverts | core/network/src/commonMain/kotlin/dev/sasikanth/rss/reader/core/network/nostr/Bech32.kt:18-19 | `CHARSET_MAP` sends the character at index `g` back to `g`, and that character is lower case and not the separator |
| Bech32.CharsetMapKeys | core/network/src/commonMain/kotlin/dev/sasikanth/rss/reader/core/network/nostr/Bech32.kt:18-19 | a character is a key of `CHARSET_MAP` exactly when it is in `CHARSET`, and it maps to its own index there |
| Bech32.SeparatorNotInAlphabet | core/network/src/commonMain/kotlin/dev/sasikanth/rss/reader/core/network/nostr/Bech32.kt:18-23 | the separator `1` is not a data character |
| Bech32.DataValues | core/network/src/commonMain/kotlin/dev/sasikanth/rss/reader/core/network/nostr/Bech32.kt:24-25 | a successful mapping has one value below 32 per character |
| Bech32.HexDigitValue | core/network/src/commonMain/kotlin/dev/sasikanth/rss/reader/core/network/nostr/Bech32.kt:46 | an ASCII hex digit of either case has a value below 16 |
| Bech32.HexDigit | core/network/src/commonMain/kotlin/dev/sasikanth/rss/reader/core/network/nostr/Bech32.kt:39 | the digit written for a value below 16 is a lower-case hex digit that reads back as that value |
| Bech32.HexString | core/network/src/commonMain/kotlin/dev/sasikanth/rss/reader/core/network/nostr/Bech32.kt:38-40 | the hex text of `n` bytes has `2n` characters, all lower-case hex digits |
| Bech32.HexToInt | core/network/src/commonMain/kotlin/dev/sasikanth/rss/reader/core/network/nostr/Bech32.kt:46 | `toInt(16)` of a chunk of at most two ASCII characters lies strictly between -16 and 256 |
| Bech32.ParsePairs | core/network/src/commonMain/kotlin/dev/sasikanth/rss/reader/core/network/nostr/Bech32.kt:45-46 | parsed chunks of ASCII text number half the text's length rounded up, each between -16 and 256 |
| Bech32.Unpack | core/network/src/commonMain/kotlin/dev/sasikanth/rss/reader/core/network/nostr/Bech32.kt:29-36 | every regrouped byte is below 256 |
| Bech32.Pack | core/network/src/commonMain/kotlin/dev/sasikanth/rss/reader/core/network/nostr/Bech32.kt:50-60 | every regrouped 5-bit value is below 32 |
| Bech32.UnpackBits | core/network/src/commonMain/kotlin/dev/sasikanth/rss/reader/core/network/nostr/Bech32.kt:26-36 | the shift-and-mask loop over a 32-bit `Int` accumulator outputs exactly the complete octets of the 5-bit values' bit stream |
| Bech32.Decode | core/network/src/commonMain/kotlin/dev/sasikanth/rss/reader/core/network/nostr/Bech32.kt:21-41 | `decode` fails without a separator past index 0, on the first character outside the alphabet, or with fewer than 32 bytes, and otherwise returns the hex text of the first 32 bytes |
| Bech32.PackBits | core/network/src/commonMain/kotlin/dev/sasikanth/rss/reader/core/network/nostr/Bech32.kt:47-60 | the shift-and-mask loop outputs exactly the 5-bit groups of the bytes' bit stream, the last one zero-padded |
| Bech32.Encode | core/network/src/commonMain/kotlin/dev/sasikanth/rss/reader/core/network/nostr/Bech32.kt:43-66 | `encode` fails on a hex text that is not 64 long or has a chunk `toInt(16)` rejects, and otherwise returns the prefix, `1` and the alphabet characters of the packed values |
| Bech32Properties.DataValuesCharacterised | core/network/src/commonMain/kotlin/dev/sasikanth/rss/reader/core/network/nostr/Bech32.kt:24-25 | the mapping succeeds exactly when every character is in the alphabet, then holds each character's index; otherwise it reports the first character that is not |
| Bech32Properties.ToCharsInAlphabet | core/network/src/commonMain/kotlin/dev/sasikanth/rss/reader/core/network/nostr/Bech32.kt:64 | every character `encode` writes is a lower-case alphabet character other than `1`, and maps back to its value |
| Bech32Properties.DataValuesOfToChars | core/network/src/commonMain/kotlin/dev/sasikanth/rss/reader/core/network/nostr/Bech32.kt:24-25 | mapping the characters `encode` writes gives back the 5-bit values |
| Bech32Properties.DataValuesAppend | core/network/src/commonMain/kotlin/dev/sasikanth/rss/reader/core/network/nostr/Bech32.kt:24-25 | mapping two valid texts maps their concatenation |
| Bech32Properties.LowerOfLower | core/network/src/commonMain/kotlin/dev/sasikanth/rss/reader/core/network/nostr/Bech32.kt:24 | lower-casing twice is lower-casing once, and it neither adds nor removes a `1` |
| Bech32Properties.LowerAppend | core/network/src/commonMain/kotlin/dev/sasikanth/rss/reader/core/network/nostr/Bech32.kt:24 | lower-casing distributes over concatenation |
| Bech32Properties.SeparatorAt | core/network/src/commonMain/kotlin/dev/sasikanth/rss/reader/core/network/nostr/Bech32.kt:22-24 | in `prefix + "1" + data` with no `1` in the data, the last separator is right after the prefix and the data follows it |
| Bech32Properties.DecodeNoSeparator | core/network/src/commonMain/kotlin/dev/sasikanth/rss/reader/core/network/nostr/Bech32.kt:22-23 | `decode` fails for want of a separator exactly when no `1` appears after the first character |
| Bech32Properties.DecodeReadsOnlyData | core/network/src/commonMain/kotlin/dev/sasikanth/rss/reader/core/network/nostr/Bech32.kt:22-24 | after the separator only the data part matters; an empty prefix is rejected |
| Bech32Properties.DecodeCaseInsensitive | core/network/src/commonMain/kotlin/dev/sasikanth/rss/reader/core/network/nostr/Bech32.kt:24 | upper- and lower-case data decode alike |
| Bech32Properties.DecodeKelvinSign | core/network/src/commonMain/kotlin/dev/sasikanth/rss/reader/core/network/nostr/Bech32.kt:24 | a Kelvin sign in place of a data `k` decodes alike, since `lowercase()` maps it to `k` |
| Bech32Properties.DecodeInvalidCharacter | core/network/src/commonMain/kotlin/dev/sasikanth/rss/reader/core/network/nostr/Bech32.kt:24-25 | the data is rejected for a character exactly when some lower-cased character is outside the alphabet, and the error names the first such character |
| Bech32Properties.UnpackLength | core/network/src/commonMain/kotlin/dev/sasikanth/rss/reader/core/network/nostr/Bech32.kt:29-37 | `n` data characters give `5n / 8` bytes |
| Bech32Properties.FiveEighthsAtLeast32 | core/network/src/commonMain/kotlin/dev/sasikanth/rss/reader/core/network/nostr/Bech32.kt:37 | `5n / 8` bytes reach 32 exactly when there are at least 52 characters |
| Bech32Properties.LowerDataChars | core/network/src/commonMain/kotlin/dev/sasikanth/rss/reader/core/network/nostr/Bech32.kt:24-25 | data whose lower-cased characters are all in the alphabet maps to one value per character |
| Bech32Properties.DecodeLength | core/network/src/commonMain/kotlin/dev/sasikanth/rss/reader/core/network/nostr/Bech32.kt:37 | valid data decodes exactly when it has at least 52 characters, and otherwise fails with the length error |
| Bech32Properties.DecodeOutput | core/network/src/commonMain/kotlin/dev/sasikanth/rss/reader/core/network/nostr/Bech32.kt:38-40 | every successful decode is 64 lower-case hex digits |
| Bech32Properties.DataIgnoresTrailing | core/network/src/commonMain/kotlin/dev/sasikanth/rss/reader/core/network/nostr/Bech32.kt:37-38 | valid characters appended to data that decodes do not change the 32 bytes kept |
| Bech32Properties.NoSeparatorInData | core/network/src/commonMain/kotlin/dev/sasikanth/rss/reader/core/network/nostr/Bech32.kt:22-25 | text whose lower-cased characters are all in the alphabet holds no `1` |
| Bech32Properties.DecodeAt | core/network/src/commonMain/kotlin/dev/sasikanth/rss/reader/core/network/nostr/Bech32.kt:22-24 | a text whose last `1` is at index `k > 0` decodes as the data after `k` |
| Bech32Properties.DecodeAppendData | core/network/src/commonMain/kotlin/dev/sasikanth/rss/reader/core/network/nostr/Bech32.kt:22-24 | text without a separator appended to a text is read as more of its data |
| Bech32Properties.DecodeIgnoresTrailing | core/network/src/commonMain/kotlin/dev/sasikanth/rss/reader/core/network/nostr/Bech32.kt:21-41 | there is no checksum: valid data characters appended to a decodable string leave its result unchanged |
| Bech32Properties.HexDigitOfValue | core/network/src/commonMain/kotlin/dev/sasikanth/rss/reader/core/network/nostr/Bech32.kt:39 | writing back a hex digit's value gives the digit in lower case |
| Bech32Properties.HexPair | core/network/src/commonMain/kotlin/dev/sasikanth/rss/reader/core/network/nostr/Bech32.kt:46 | two hex digits parse as one byte whose written form is the two digits in lower case |
| Bech32Properties.ParsePairsStep | core/network/src/commonMain/kotlin/dev/sasikanth/rss/reader/core/network/nostr/Bech32.kt:45-46 | a text of at least two characters parses as its first chunk followed by the rest |
| Bech32Properties.HexStringStep | core/network/src/commonMain/kotlin/dev/sasikanth/rss/reader/core/network/nostr/Bech32.kt:38-40 | the hex text of a byte followed by more bytes is the byte's two digits followed by theirs |
| Bech32Properties.ParseHexDigits | core/network/src/commonMain/kotlin/dev/sasikanth/rss/reader/core/network/nostr/Bech32.kt:45-46 | an even-length text of hex digits parses with no negative chunk, and writing the parsed bytes back gives the text in lower case |
| Bech32Properties.HexByteParses | core/network/src/commonMain/kotlin/dev/sasikanth/rss/reader/core/network/nostr/Bech32.kt:46 | `toInt(16)` reads back the two digits written for a byte |
| Bech32Properties.ParseHexString | core/network/src/commonMain/kotlin/dev/sasikanth/rss/reader/core/network/nostr/Bech32.kt:38-46 | the hex text `decode` writes parses back to the same bytes |
| Bech32Properties.ParsePairsRejects | core/network/src/commonMain/kotlin/dev/sasikanth/rss/reader/core/network/nostr/Bech32.kt:45-46 | a character that is not an ASCII hex digit (and not a leading sign of its chunk) makes parsing fail |
| Bech32Properties.EncodeRejectsNonHex | core/network/src/commonMain/kotlin/dev/sasikanth/rss/reader/core/network/nostr/Bech32.kt:43-46 | `encode` rejects a 64-character text with such a character, read as ASCII |
| Bech32Properties.PackOf32 | core/network/src/commonMain/kotlin/dev/sasikanth/rss/reader/core/network/nostr/Bech32.kt:50-60 | 32 bytes pack into 52 values, the last carrying four zero padding bits |
| Bech32Properties.EncodeShape | core/network/src/commonMain/kotlin/dev/sasikanth/rss/reader/core/network/nostr/Bech32.kt:43-66 | encoding 64 hex digits succeeds with the prefix, `1` and 52 alphabet characters, the last with four zero low bits |
| Bech32Properties.UnpackOfPack | core/network/src/commonMain/kotlin/dev/sasikanth/rss/reader/core/network/nostr/Bech32.kt:29-60 | unpacking packed bytes gives the bytes back |
| Bech32Properties.EncodeThenDecode | core/network/src/commonMain/kotlin/dev/sasikanth/rss/reader/core/network/nostr/Bech32.kt:21-66 | decoding what `encode` writes for 64 hex digits gives the digits back in lower case |
| Bech32Properties.PackOfUnpack | core/network/src/commonMain/kotlin/dev/sasikanth/rss/reader/core/network/nostr/Bech32.kt:29-60 | 52 values whose last has four zero low bits unpack to 32 bytes that pack back to the same values |
| Bech32Properties.TrailingZeros | core/network/src/commonMain/kotlin/dev/sasikanth/rss/reader/core/network/nostr/Bech32.kt:58-60 | the last four bits of such 52 values are the zero padding |
| Bech32Properties.CanonicalData | core/network/src/commonMain/kotlin/dev/sasikanth/rss/reader/core/network/nostr/Bech32.kt:24-25 | data made of alphabet characters is already lower case, has no separator, and is written back character for character |
| Bech32Properties.DecodeThenEncode | core/network/src/commonMain/kotlin/dev/sasikanth/rss/reader/core/network/nostr/Bech32.kt:21-66 | a key of 52 alphabet characters whose last has four zero low bits decodes, and encoding the result with the same prefix gives the key back |
| NostrEvents.FindTag | core/network/src/commonMain/kotlin/dev/sasikanth/rss/reader/core/network/nostr/NostrClient.kt:42 | the result is absent exactly when no tag has the name, and otherwise is the first tag that does |
| NostrEvents.LineEnd | core/network/src/commonMain/kotlin/dev/sasikanth/rss/reader/core/network/nostr/NostrClient.kt:43 | the result is the index of the first line break at or after `from`, or the end of the text |
| NostrEvents.Lines | core/network/src/commonMain/kotlin/dev/sasikanth/rss/reader/core/network/nostr/NostrClient.kt:43 | `lineSequence()` always yields at least one line |
| NostrEvents.TagValueOfFirst | core/network/src/commonMain/kotlin/dev/sasikanth/rss/reader/core/network/nostr/NostrClient.kt:42 | a tag's value is the second element of the first tag with the name; a first tag without one hides any later tag |
| NostrEvents.TagValueAbsent | core/network/src/commonMain/kotlin/dev/sasikanth/rss/reader/core/network/nostr/NostrClient.kt:42 | with no tag of the name there is no value |
| NostrEvents.FirstLineIsPrefix | core/network/src/commonMain/kotlin/dev/sasikanth/rss/reader/core/network/nostr/NostrClient.kt:43 | the first line always exists and is the content up to its first line break, or all of it |
| NostrEvents.TitleFallback | core/network/src/commonMain/kotlin/dev/sasikanth/rss/reader/core/network/nostr/NostrClient.kt:41-44 | without a title tag the title is the first line of the content, so empty content gives an empty title and `Untitled` is never reached |
| NostrEvents.TitleFromTag | core/network/src/commonMain/kotlin/dev/sasikanth/rss/reader/core/network/nostr/NostrClient.kt:41-42 | a title tag's value is the title, whatever the content |
| NostrEvents.DisplayNameOrder | core/network/src/commonMain/kotlin/dev/sasikanth/rss/reader/core/network/nostr/NostrClient.kt:59-60 | `displayName` is `display_name`, else `name`, else `Unknown` |
| EventSelection.OfKind | core/network/src/commonMain/kotlin/dev/sasikanth/rss/reader/core/network/nostr/NostrClient.kt:131 | the kept events are exactly the events of the kind |
| EventSelection.FirstById | core/network/src/commonMain/kotlin/dev/sasikanth/rss/reader/core/network/nostr/NostrClient.kt:131-138 | the `seenEvents` filter keeps every id, once, and only events it was given |
| EventSelection.FirstByIdIsFirstOccurrences | core/network/src/commonMain/kotlin/dev/sasikanth/rss/reader/core/network/nostr/NostrClient.kt:132-135 | filtering as events arrive keeps exactly the first event of each id, in arrival order |
| EventSelection.LatestProfileIsLastAccepted | core/network/src/commonMain/kotlin/dev/sasikanth/rss/reader/core/network/nostr/NostrClient.kt:239-243 | the profile is the content of the last accepted metadata event, whatever the others' timestamps |
| EventSelection.LatestProfileSource | core/network/src/commonMain/kotlin/dev/sasikanth/rss/reader/core/network/nostr/NostrClient.kt:199-243 | the profile is the empty one or the content of some accepted event |
| EventSelection.LatestProfileNoneAccepted | core/network/src/commonMain/kotlin/dev/sasikanth/rss/reader/core/network/nostr/NostrClient.kt:199-246 | without an accepted event the profile stays empty |
| EventSelection.LatestProfileNotNewest | core/network/src/commonMain/kotlin/dev/sasikanth/rss/reader/core/network/nostr/NostrClient.kt:199-243 | because `latestTimestamp` is never updated, an older profile handled after a newer one wins |
| EventSelection.OfKindSnoc | core/network/src/commonMain/kotlin/dev/sasikanth/rss/reader/core/network/nostr/NostrClient.kt:131 | one more event adds it to the kind's events when it is of the kind |
| EventSelection.FirstByIdSnoc | core/network/src/commonMain/kotlin/dev/sasikanth/rss/reader/core/network/nostr/NostrClient.kt:133 | one more event is kept exactly when its id is new |
| EventSelection.LatestProfileSnoc | core/network/src/commonMain/kotlin/dev/sasikanth/rss/reader/core/network/nostr/NostrClient.kt:239-246 | one more event replaces the profile exactly when it is accepted |
| EventSelection.SeenStep | core/network/src/commonMain/kotlin/dev/sasikanth/rss/reader/core/network/nostr/NostrClient.kt:131-138 | the `seenEvents` check on one more event keeps the emitted events equal to the first long-form event of each id, and `seenEvents` equal to their ids |
| RelayProtocol.StopFrom | core/network/src/commonMain/kotlin/dev/sasikanth/rss/reader/core/network/nostr/NostrClient.kt:143-183 | the loop ends at the first EOSE for the subscription or failure, or at the end of the frames |
| RelayProtocol.StopAtAppend | core/network/src/commonMain/kotlin/dev/sasikanth/rss/reader/core/network/nostr/NostrClient.kt:152 | frames after the one that ends the loop do not move where it ends |
| RelayProtocol.LateFramesIgnored | core/network/src/commonMain/kotlin/dev/sasikanth/rss/reader/core/network/nostr/NostrClient.kt:152 | frames after the loop has ended add no event and change nothing the client writes |
| RelayProtocol.MatchingSnoc | core/network/src/commonMain/kotlin/dev/sasikanth/rss/reader/core/network/nostr/NostrClient.kt:125-141 | reading one more frame adds its event exactly when it is an EVENT for the subscription |
| RelayProtocol.AdvanceConsistent | core/network/src/commonMain/kotlin/dev/sasikanth/rss/reader/core/network/nostr/NostrClient.kt:116-177 | a frame that does not end the loop moves the session on and hands on its event if it is for the subscription |
| RelayProtocol.FinishConsistent | core/network/src/commonMain/kotlin/dev/sasikanth/rss/reader/core/network/nostr/NostrClient.kt:143-183 | ending the loop leaves the session with everything delivered, and the CLOSE sent exactly when it ended on the EOSE |
| RelayProtocol.StepOpen | core/network/src/commonMain/kotlin/dev/sasikanth/rss/reader/core/network/nostr/NostrClient.kt:116-183 | every turn of an open session stays consistent, keeps the counter and the subscription, and gets closer to the end |
| RelayProtocol.StepNumbering | core/network/src/commonMain/kotlin/dev/sasikanth/rss/reader/core/network/nostr/NostrClient.kt:96-98 | a turn takes the next subscription number exactly when it connects, and otherwise keeps the counter and the subscription |
| RelayProtocol.StepConsistent | core/network/src/commonMain/kotlin/dev/sasikanth/rss/reader/core/network/nostr/NostrClient.kt:96-187 | every turn keeps a relay's session consistent with what it will hand on and be sent, numbers a connecting relay, and brings its loop closer to the end |
| RelayFanOut.EventsFromMembership | core/network/src/commonMain/kotlin/dev/sasikanth/rss/reader/core/network/nostr/NostrClient.kt:93-94 | a relay handed on an event exactly when the trace records it doing so |
| RelayFanOut.EventsOfCovers | core/network/src/commonMain/kotlin/dev/sasikanth/rss/reader/core/network/nostr/NostrClient.kt:93-94 | every event of the fetch came from some relay, and every relay's events are among the fetch's |
| RelayFanOut.StartedUpdate | core/network/src/commonMain/kotlin/dev/sasikanth/rss/reader/core/network/nostr/NostrClient.kt:97 | a relay that connects adds one to the number of relays started |
| RelayFanOut.StartedIsConnected | core/network/src/commonMain/kotlin/dev/sasikanth/rss/reader/core/network/nostr/NostrClient.kt:97 | the relays started are the relays reachable |
| RelayFanOut.SubscriptionIdsDistinct | core/network/src/commonMain/kotlin/dev/sasikanth/rss/reader/core/network/nostr/NostrClient.kt:97-98 | different subscription numbers give different subscription ids |
| RelayFanOut.FanOutStart | core/network/src/commonMain/kotlin/dev/sasikanth/rss/reader/core/network/nostr/NostrClient.kt:93-94 | before any turn the fan-out invariant holds, with no numbers taken |
| RelayFanOut.TrackedStep | core/network/src/commonMain/kotlin/dev/sasikanth/rss/reader/core/network/nostr/NostrClient.kt:94-187 | a turn of any unfinished relay keeps every relay consistent with its own share of the trace and of the log, and brings that relay closer to its end |
| RelayFanOut.NumberedStep | core/network/src/commonMain/kotlin/dev/sasikanth/rss/reader/core/network/nostr/NostrClient.kt:97-98 | a turn keeps the numbering: a connecting relay takes the next fresh number, distinct from all others |
| RelayFanOut.FanOutStep | core/network/src/commonMain/kotlin/dev/sasikanth/rss/reader/core/network/nostr/NostrClient.kt:93-191 | any unfinished relay may take the next turn, in any order, and the fan-out invariant survives it |
| RelayFanOut.FanOutDone | core/network/src/commonMain/kotlin/dev/sasikanth/rss/reader/core/network/nostr/NostrClient.kt:191 | once every relay has finished, each relay either was unreachable or has its own fresh number, handed on exactly its delivered events and was sent the REQ and, after its EOSE, the CLOSE; the counter grew by the number of relays reached |
| RelayFanOut.DoneServed | core/network/src/commonMain/kotlin/dev/sasikanth/rss/reader/core/network/nostr/NostrClient.kt:185-187 | a finished relay's share is the empty one when it was unreachable, and otherwise what its frames deliver |
| RelayFanOut.ServedIdsDistinct | core/network/src/commonMain/kotlin/dev/sasikanth/rss/reader/core/network/nostr/NostrClient.kt:97-98 | relays reached in one fetch have different subscription ids |
| NostrRelays.LongFormEmitted | core/network/src/commonMain/kotlin/dev/sasikanth/rss/reader/core/network/nostr/NostrClient.kt:87-194 | every emitted event is long-form, was sent by a reachable relay for its own subscription before its loop ended, and is the only emitted event with its id |
| NostrRelays.LongFormComplete | core/network/src/commonMain/kotlin/dev/sasikanth/rss/reader/core/network/nostr/NostrClient.kt:116-141 | every long-form event a reachable relay sent for its subscription before its loop ended has its id among those emitted |
| NostrRelays.ProfileResult | core/network/src/commonMain/kotlin/dev/sasikanth/rss/reader/core/network/nostr/NostrClient.kt:195-299 | the profile returned is the empty one or the content of an accepted metadata event some reachable relay sent for its subscription |
| NostrRelays.EventOrigin | core/network/src/commonMain/kotlin/dev/sasikanth/rss/reader/core/network/nostr/NostrClient.kt:93-141 | every event of a fetch came from a reachable relay, for that relay's own subscription |
| NostrRelays.UniqueId | core/network/src/commonMain/kotlin/dev/sasikanth/rss/reader/core/network/nostr/NostrClient.kt:133 | in the emitted events an event is the only one with its id |
| NostrRelays.KeepLongForm | core/network/src/commonMain/kotlin/dev/sasikanth/rss/reader/core/network/nostr/NostrClient.kt:131-138 | the EVENT branch keeps the emitted events equal to the first long-form event of each id, and `seenEvents` equal to their ids |
| NostrRelays.KeepProfile | core/network/src/commonMain/kotlin/dev/sasikanth/rss/reader/core/network/nostr/NostrClient.kt:239-247 | the EVENT branch keeps the profile equal to that of the last accepted event |
| NostrRelays.NostrClient.constructor | core/network/src/commonMain/kotlin/dev/sasikanth/rss/reader/core/network/nostr/NostrClient.kt:68 | the subscription counter starts at 0 |
| NostrRelays.NostrClient.Turn | core/network/src/commonMain/kotlin/dev/sasikanth/rss/reader/core/network/nostr/NostrClient.kt:96-183 | one turn of a relay's coroutine does what `Step` says, to the session, the messages written, the event handed on and the shared counter |
| NostrRelays.NostrClient.LongFormTurn | core/network/src/commonMain/kotlin/dev/sasikanth/rss/reader/core/network/nostr/NostrClient.kt:116-141 | a turn keeps the fan-out invariant and the `seenEvents` relation, changes no other relay's session, and brings this relay closer to its end |
| NostrRelays.NostrClient.LongFormInterleave | core/network/src/commonMain/kotlin/dev/sasikanth/rss/reader/core/network/nostr/NostrClient.kt:93-95 | the relays' turns in any order keep the fan-out invariant and the `seenEvents` relation |
| NostrRelays.NostrClient.LongFormFinish | core/network/src/commonMain/kotlin/dev/sasikanth/rss/reader/core/network/nostr/NostrClient.kt:116-183 | a relay runs until its loop ends, keeping the invariant and no other session changes |
| NostrRelays.NostrClient.LongFormDrain | core/network/src/commonMain/kotlin/dev/sasikanth/rss/reader/core/network/nostr/NostrClient.kt:191 | `awaitAll` leaves every relay finished with the invariant kept |
| NostrRelays.NostrClient.FetchLongFormContent | core/network/src/commonMain/kotlin/dev/sasikanth/rss/reader/core/network/nostr/NostrClient.kt:87-194 | the fetch asks every relay for the author's long-form events (the key as `decode` gives it, `null` when it does not decode), serves every relay, and emits the first long-form event of each id among those handed on, in arrival order |
| NostrRelays.NostrClient.ProfileTurn | core/network/src/commonMain/kotlin/dev/sasikanth/rss/reader/core/network/nostr/NostrClient.kt:236-249 | a turn keeps the fan-out invariant and the profile equal to that of the last accepted event, changes no other relay's session, and brings this relay closer to its end |
| NostrRelays.NostrClient.ProfileInterleave | core/network/src/commonMain/kotlin/dev/sasikanth/rss/reader/core/network/nostr/NostrClient.kt:204-206 | the relays' turns in any order keep the fan-out invariant and the profile relation |
| NostrRelays.NostrClient.ProfileFinish | core/network/src/commonMain/kotlin/dev/sasikanth/rss/reader/core/network/nostr/NostrClient.kt:228-286 | a relay runs until its loop ends, keeping the invariant and no other session changes |
| NostrRelays.NostrClient.ProfileDrain | core/network/src/commonMain/kotlin/dev/sasikanth/rss/reader/core/network/nostr/NostrClient.kt:294 | `awaitAll` leaves every relay finished with the invariant kept |
| NostrRelays.NostrClient.FetchNostrProfile | core/network/src/commonMain/kotlin/dev/sasikanth/rss/reader/core/network/nostr/NostrClient.kt:195-299 | the fetch asks every relay for the author's metadata (the key as `decode` gives it), serves every relay, and returns the profile of the last accepted metadata event handed on |
| NostrFeed.ExtractPubKey | core/network/src/commonMain/kotlin/dev/sasikanth/rss/reader/core/network/fetcher/NostrFeedFetcher.kt:51-58 | a key is only extracted from a Nostr URL, and is never longer than it |
| NostrFeed.Take | core/network/src/commonMain/kotlin/dev/sasikanth/rss/reader/core/network/fetcher/NostrFeedFetcher.kt:90 | `take(500)` keeps the first `min(n, length)` characters |
| NostrFeed.ConvertNostrEventToPost | core/network/src/commonMain/kotlin/dev/sasikanth/rss/reader/core/network/fetcher/NostrFeedFetcher.kt:76-98 | the conversion fails exactly when the title cleans to null, naming the event; a post links to `nostr:` and the event id, has the cleaned and HTML-decoded title, the `image` tag's value as image, the `published_at` date, the raw content and no comments link |
| NostrFeed.ConvertAll | core/network/src/commonMain/kotlin/dev/sasikanth/rss/reader/core/network/fetcher/NostrFeedFetcher.kt:72 | a successful conversion has one post per event |
| NostrFeed.ConvertAllCharacterised | core/network/src/commonMain/kotlin/dev/sasikanth/rss/reader/core/network/fetcher/NostrFeedFetcher.kt:72 | the conversion succeeds exactly when every event converts, then holds each event's post at its index; otherwise it reports the first event that fails |
| NostrFeed.FirstFailureShift | core/network/src/commonMain/kotlin/dev/sasikanth/rss/reader/core/network/fetcher/NostrFeedFetcher.kt:72 | an event that converts, put before a list whose first failure is known, keeps that first failure |
| NostrFeed.NostrFeedFetcher.constructor | core/network/src/commonMain/kotlin/dev/sasikanth/rss/reader/core/network/fetcher/NostrFeedFetcher.kt:16-18 | the fetcher holds the client it is given |
| NostrFeed.NostrFeedFetcher.Fetch | core/network/src/commonMain/kotlin/dev/sasikanth/rss/reader/core/network/fetcher/NostrFeedFetcher.kt:20-42 | a non-Nostr URL and an identifier that yields no key fail without touching the client; otherwise the articles are fetched, no articles fails, and the profile fetch follows and the feed is built from both |
| NostrFeed.ExtractPubKeyRejects | core/network/src/commonMain/kotlin/dev/sasikanth/rss/reader/core/network/fetcher/NostrFeedFetcher.kt:51-58 | a Nostr URL yields no key exactly when it starts with `nprofile` (not `npub`, no `@`) and nothing follows its first `nprofile1` |
| NostrFeed.SubstringAfterPrefix | core/network/src/commonMain/kotlin/dev/sasikanth/rss/reader/core/network/fetcher/NostrFeedFetcher.kt:55-56 | a text starting with the delimiter yields what follows it |
| NostrFeed.ExtractFromNostrUri | core/network/src/commonMain/kotlin/dev/sasikanth/rss/reader/core/network/fetcher/NostrFeedFetcher.kt:56 | a `nostr:` URI yields what follows the scheme |
| NostrFeed.ExtractFromNprofile | core/network/src/commonMain/kotlin/dev/sasikanth/rss/reader/core/network/fetcher/NostrFeedFetcher.kt:55 | an `nprofile1...` identifier yields what follows `nprofile1`, and nothing when that is empty |
| NostrFeed.PublishedAtTag | core/network/src/commonMain/kotlin/dev/sasikanth/rss/reader/core/network/fetcher/NostrFeedFetcher.kt:83-85 | a `published_at` tag holding a `Long` in ASCII digits gives the date; a missing tag, or one that is not an ASCII decimal `Long`, falls back to `created_at` |
| NostrFeed.DescriptionSource | core/network/src/commonMain/kotlin/dev/sasikanth/rss/reader/core/network/fetcher/NostrFeedFetcher.kt:90-92 | the description is cleaned from the summary tag, else from at most the first 500 characters of the content |
| NostrFeed.PostLinkNamesEvent | core/network/src/commonMain/kotlin/dev/sasikanth/rss/reader/core/network/fetcher/NostrFeedFetcher.kt:88 | a post's link is `nostr:` followed by its event's id |
| NostrFeed.FeedLinksDistinct | core/network/src/commonMain/kotlin/dev/sasikanth/rss/reader/core/network/fetcher/NostrFeedFetcher.kt:72-88 | events with distinct ids give posts with distinct links, one per event |
| NostrFeed.FeedIdentity | core/network/src/commonMain/kotlin/dev/sasikanth/rss/reader/core/network/fetcher/NostrFeedFetcher.kt:66-71 | the feed is named after the profile, its icon is the picture or `null`, and it links to the author's njump.me page |

## Left out

- WebSockets, JSON encoding and decoding, logging and the dispatcher are
  not modelled. A relay is the sequence of frames it sends, each already
  classified as an EVENT, EOSE, NOTICE, unknown message, unparsable text,
  non-text frame or a failure of the frame loop.
- The four relay URLs (`RELAYS`) are not modelled. The relays of a fetch
  are a parameter, so every property holds for any number of relays.
- Whether a relay can be reached is part of its parameter. A connection
  that fails does so before the counter is incremented. A failure inside
  the loop ends the loop, and the exception is swallowed by the outer
  `catch`.
- Concurrency is modelled as atomic turns in an arbitrary order. The
  coroutines really share `seenEvents`, `latestProfile` and
  `subscriptionCounter` without synchronisation. The increment of the
  counter and the read that forms the subscription id are taken as one
  step, so lost updates from a race are not modelled.
- Channel suspension and back-pressure of `channelFlow` are not modelled.
  Emitted events are collected into the sequence that `toList()` returns.
- `NostrRelays.NostrClient.Turn`: `subscriptionCounter` is an unbounded
  natural number. The Kotlin `Int` would wrap around after 2^31 - 1
  subscriptions.
- Decoding an event's content into a `NostrProfile` is the parameter
  `parse`. It gives `None` where the JSON decoder throws.
- `FeedParser.cleanText` and `decodeHTMLString` are not interpreted.
  They are the parameters of `NostrFeed.TextCleaning`.
- Bech32.Encode: hex text with non-ASCII digits fails with `NotHex` here,
  though the source encodes it (see `Bech32.HexToInt`). Also, `toInt(16)`
  of a chunk such as `-f` gives a negative `Int`. Or-ing that into the
  accumulator would set its high bits, so the requires excludes a
  64-character text with such a chunk. Signed chunks
  `+x` and `-0` are modelled as Kotlin parses them.
- Lower-casing maps `A`-`Z` and the Kelvin sign U+212A, the only characters
  whose `lowercase()` lies in the alphabet. So which keys decode, and to
  what, is as in the source.
- Bech32.Decode: when a non-ASCII letter makes decoding fail, the error names
  the character as written, not its lower case. For U+0130 it names `İ`
  where `lowercase()` gives `i` and a combining dot.
- Bech32Properties.DecodeInvalidCharacter: names the first character outside
  the alphabet after this lower-casing. Only the character named can differ
  from the source's, never whether the error occurs.
- Bech32.HexDigitValue: only ASCII digits and letters `a`-`f`/`A`-`F` are hex
  digits. Kotlin's `toInt(16)` also reads other Unicode decimal digits and
  fullwidth letters, such as `０`.
- Bech32.HexToInt: reads ASCII chunks only, so a chunk like `０0`, which
  `toInt(16)` reads as 0, is rejected here.
- Bech32.ParsePairs: rejects hex text with non-ASCII digits, which the source
  parses.
- Bech32Properties.ParsePairsRejects: "not a hex digit" means not an ASCII
  hex digit; for a non-ASCII Unicode digit the source does not fail.
- Bech32Properties.EncodeRejectsNonHex: holds for the ASCII reading only; the
  source encodes `０` followed by 63 `0`s.
- Text.ParseLong: reads ASCII decimal digits only. `toLongOrNull()` also reads
  other Unicode decimal digits, such as Arabic-Indic `١٧٠٠`.
- NostrFeed.PublishedAtTag: a `published_at` value written in non-ASCII
  decimal digits falls back to `created_at` here, while the source reads it
  as a date.
- Strings are sequences of characters, not UTF-16 code units.
- `transformUrl` is accepted by `NostrFeed.NostrFeedFetcher.Fetch` and
  unused, as in the source.
- Exceptions other than `cleanText(title)!!` returning null are not
  modelled in the fetcher.
  - Most are caught and logged inside the client.
  - The `Exception` that `fetch` returns as an error for any other
    failure has no counterpart.
- `NostrFeed.ConvertAll` states only the length of its result. Its full
  characterisation is the lemma `NostrFeed.ConvertAllCharacterised`.
