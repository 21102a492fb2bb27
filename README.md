# YT Smart Skip content script: a Dafny model

This project models the segment-skipping core of a browser extension. The
extension marks SponsorBlock segments on YouTube's progress bar and skips them.
Its content script does the following:
- It works out the id of the video on the page.
- It fetches that video's segments from the SponsorBlock provider, cached per
  video and category list.
- It normalises the provider's records into `{start, end, category}` and sorts
  them by `start`.
- It watches the playback position. On entering a segment it either jumps to the
  segment's end (auto-skip) or shows a floating "Skip sponsor" button. On
  leaving a segment it hides that button.
- Keyboard shortcuts skip the current segment or jump to the next or previous
  one.
- It resets its state on navigation and reacts to settings changed in the popup.

The modules follow the script's structure:

- `Wrappers`: the `Option` type.
- `JsText`: the JavaScript string operations the script relies on. These are
  `trim`, `replace` of the first occurrence, `split` on one character, `join`,
  and the default `sort()` of an array of strings, which is a code-unit
  lexicographic order.
- `JsonValue`: a decoded response body as a value, JavaScript truthiness, and
  `Number()` applied to a JSON value (decimal literals).
- `Segments`: a segment, and the `find`/`filter` lookups over a segment list.
  These are the segment under the playhead, the next segment and the previous
  segment. The module also defines the chain of positions that repeated "next"
  presses visit.
- `Provider`: the record normalisation and the stable sort by `start` from
  `fetchSponsorSegments`.
- `CacheKeys`: the category signature, the cache key and `DEFAULT_CATEGORIES`.
- `Fetcher`: one call of `fetchSponsorSegments`: the id guard, the cache hit or
  miss, and the provider's reply, which is given as an input value.
- `VideoIds`: `getVideoIdFromUrl` and `getVideoId`.
- `Colors`: `hexToRgb`, including `parseInt(…, 16)` on each channel.
- `Playback`: the page effects as an event log, one watcher tick as a pure
  function, and runs of ticks.
- `Content`: the module-level state of the script as the class
  `ContentScript`. Its methods are the handlers that change that state:
  - the `timeupdate` watcher;
  - skip, next and previous;
  - `setupForVideo`;
  - the navigation handler;
  - the storage-change listener.

The video element is reduced to its position, the field `position`. Mounting
and removing page elements, toasts and showing or hiding the floating button are
appended to the field `events`. The class has two invariants:
- the active list and every cached list are sorted by `start` (`Valid`). Every
  method that changes the lists keeps this, and the "next" and "previous"
  jumps use it to land on the nearest start.
- the floating button is on the page only when `lastInSegment` is set
  (`ButtonHonest`). The watcher, the skip and jump handlers, the navigation
  handler and the storage listener keep it. `setupForVideo` keeps it when it
  starts with the button hidden, or when it leaves `lastInSegment` alone. It
  does not keep it otherwise: loading a new video clears `lastInSegment`
  without hiding a shown button (content.js:226). Both callers of
  `setupForVideo` start it with the button hidden. `init` runs it before
  anything is shown (content.js:295). The navigation handler hides the button
  and detaches the watcher before it schedules setup (content.js:244-247).
  `NavigateToVideo` proves the invariant for that order.

A few points follow what the code does:
- `hexToRgb` removes the first `#` anywhere in the trimmed string, not only a
  leading one. This is `String.prototype.replace` with a string pattern.
- The popup stores an object, not an array, under the `categories` key. Such a
  value gives the empty category signature, so its cache key is the same as
  that of the empty list (`id:`). After a category change the refetch can
  therefore be answered from the cache (`Fetcher.NonArrayHitsEmptyList`).
- `setupForVideo` stores the new id before it fetches. So once a fetch resolves
  to `[]`, the next call for the same id loads again instead of returning early.
- `Number(x.segment[0])` throws when that element is an object with its own
  `toString` key. The throw rejects the whole fetch, so one such record makes
  the call resolve to `[]` and cache nothing (`Fetcher.FetchThrowingBody`).
- `Boolean(newValue)` decides the auto-skip flag. A stored string such as
  `"false"` turns auto-skip on.

## Model

| member | source | states |
|---|---|---|
| JsText.TrimStart | content.js:307 | the result is a suffix of the input and does not start with whitespace |
| JsText.TrimStartDropsWhitespace | content.js:307 | everything `trim` removes at the front is whitespace |
| JsText.TrimEnd | content.js:307 | the result is a prefix of the input and does not end with whitespace |
| JsText.TrimEndDropsWhitespace | content.js:307 | everything `trim` removes at the back is whitespace |
| JsText.TrimIdentity | content.js:307 | a string with no whitespace at either end is its own trim |
| JsText.IndexOf | content.js:307 | the position of the first occurrence of a character that occurs: it is that character, and none comes earlier |
| JsText.ReplaceFirst | content.js:307 | `replace('#','')` leaves the string alone without a `#` and otherwise removes exactly one character, introducing none |
| JsText.ReplaceFirstRemovesFirst | content.js:307 | the character removed is the first `#`: what comes before and after it is kept |
| JsText.Trim | content.js:307 | `trim()`; stated by `TrimStart`, `TrimEnd`, their `DropsWhitespace` lemmas and `TrimIdentity` |
| JsText.Split | content.js:29 | `split` yields at least one piece, and no piece contains the separator |
| JsText.JoinSplit | content.js:29 | joining the pieces of a split with the same separator gives back the string |
| JsText.SplitAfterPiece | content.js:29 | a piece without the separator, followed by the separator, comes out as the first piece |
| JsText.SplitWithoutSeparator | content.js:29 | a string without the separator splits into itself alone |
| JsText.NonEmpty | content.js:29 | `filter(Boolean)` keeps exactly the non-empty pieces and no empty one |
| JsText.NonEmptyAppend | content.js:29 | the filter works piece by piece, so it keeps the pieces' order: filtering a concatenation concatenates the results |
| JsText.NonEmptySingle | content.js:29 | a single piece is kept exactly when it is not empty |
| JsText.Join | content.js:72 | `join(',')` of the sorted categories; stated by `JoinSplit`, where it inverts `split` |
| JsText.LexLeReflexive | content.js:72 | the default sort order is reflexive |
| JsText.LexLeTotal | content.js:72 | any two strings are comparable in the default sort order |
| JsText.LexLeAntisymmetric | content.js:72 | strings ordered both ways are equal |
| JsText.LexLeTransitive | content.js:72 | the default sort order is transitive |
| JsText.SortedCons | content.js:72 | a least element in front of a sorted list keeps it sorted |
| JsText.HeadIsLeastName | content.js:72 | the head of a sorted list is below every member |
| JsText.InsertName | content.js:72 | inserting into a sorted list keeps it sorted and adds exactly that name |
| JsText.SortNames | content.js:72 | `[...categories].sort()` is sorted and a permutation of its input |
| JsText.SortedPermutationsEqual | content.js:72 | two sorted permutations of the same names are identical |
| JsText.SortNamesIgnoresOrder | content.js:72 | the sorted names depend only on which names there are, not on their order |
| JsonValue.Truthy | content.js:214 | JavaScript truthiness of a decoded value, which `Content.Flag` applies |
| JsonValue.StringToNumber | content.js:81 | `Number(s)` of a string; stated by `NumberOfDecimal` and `UnsignedDecimalOfDigits` |
| JsonValue.ToNumber | content.js:81 | `Number(v)` of a JSON value when it does not throw; stated by `NumberOfDecimal` and `NumberOrZeroOfNumbers` |
| JsonValue.NumberThrows | content.js:81 | `Number(v)` throws a TypeError: an object with its own `toString` key, or an array holding one at any depth; stated by `OwnToStringThrows` |
| JsonValue.OwnToStringThrows | content.js:81 | an object makes `Number(x) \|\| 0` throw exactly when it has its own `toString` key, alone or anywhere in an array; without one it gives 0 |
| JsonValue.NumberOrZero | content.js:81 | `Number(v) \|\| 0` when it does not throw (`NumberOrZeroThrows`); stated by `NumberOrZeroOfNumbers`, `NumberOrZeroOfDecimal` and `OwnToStringThrows` |
| JsonValue.DigitRun | content.js:81 | the length of the leading run of decimal digits |
| JsonValue.NatToDecimal | content.js:81 | the decimal spelling of a natural number is a non-empty digit string |
| JsonValue.DecimalValue | content.js:81 | reading back the decimal spelling of `n` gives `n` |
| JsonValue.UnsignedDecimalOfDigits | content.js:81 | a string of digits reads as its decimal value |
| JsonValue.NumberOfDecimal | content.js:81 | `Number("<n>")` of a decimal string is `n`, for a bare string and for a JSON string value |
| JsonValue.NumberOrZeroOfNumbers | content.js:81 | `Number(x) \|\| 0` is `x` for a number or a one-number array, and 0 for a missing value or an empty object; none of these throw |
| JsonValue.NumberOrZeroOfDecimal | content.js:81 | `Number(x) \|\| 0` of a decimal string is its value |
| Segments.CoveringIndex | content.js:176 | the index `find` stops at: no earlier segment covers `now`, and the one there does |
| Segments.SegmentAt | content.js:176 | the segment `find` returns lies in the list and covers `now`; there is none exactly when no segment covers `now` |
| Segments.SegmentAtIsFirst | content.js:231 | if segment `j` covers `now`, the lookup finds a covering segment at an index no later than `j` and covering nothing before it |
| Segments.SegmentAtSmallestStart | content.js:231 | on a list sorted by `start`, the found segment has the smallest start of all covering segments |
| Segments.NextIndex | content.js:184 | every segment before the index starts at or before `now`; the one at the index starts after it |
| Segments.NextSegment | content.js:184 | the segment found starts after `now` and is in the list; there is none exactly when every segment starts at or before `now` |
| Segments.NextSegmentSmallestStart | content.js:184 | on a sorted list the next segment has the smallest start after `now` |
| Segments.CountAfter | content.js:184 | the number of segments starting after a position is at most the list length |
| Segments.CountAfterDrops | content.js:184-185 | jumping to a segment that starts later strictly lowers the number of segments still ahead |
| Segments.CountAfterMonotone | content.js:184 | a later position has no more segments ahead |
| Segments.NextJumps | content.js:181-187 | repeated "next" presses visit positions that lie ahead of the start and strictly increase; there are at most as many as segments ahead; the list is empty exactly when there is no next segment, and after the last visit there is none |
| Segments.NextJumpsStep | content.js:184-185 | one press moves to the first position of the chain, and the chain from there is the rest |
| Segments.NextJumpsAreStarts | content.js:185 | every visited position is the start of a segment of the list |
| Segments.StartingBefore | content.js:192 | `filter(s => s.start < now)` keeps exactly the segments starting before `now` |
| Segments.PrevSegment | content.js:192-193 | the segment found starts before `now` and is in the list; there is none exactly when no segment starts before `now` |
| Segments.LastIndexBefore | content.js:193 | the last index whose segment starts before `now`, or -1 |
| Segments.PrevSegmentIsLastBefore | content.js:192-193 | the last element of the filtered list is the segment at the last index starting before `now` |
| Segments.StartingBeforeSnoc | content.js:192 | filtering a list with one more segment at the end extends the filtered list by that segment when it qualifies |
| Segments.NextSegmentIsLeast | content.js:184 | on a sorted list the next segment starts no later than any segment starting after `now` |
| Segments.PrevSegmentIsGreatest | content.js:192-193 | on a sorted list the previous segment starts no earlier than any segment starting before `now` |
| Segments.PrevSegmentGreatestStart | content.js:192-193 | on a sorted list the previous segment has the greatest start before `now` |
| Provider.FromRecord | content.js:80-84 | the `map` callback; its three cases, with the category each keeps, are stated by `SegmentPairRecord`, `StartEndRecord` and `OtherRecordsDropped`; when it throws is stated by `RecordThrows` and `ToStringKeyThrows` |
| Provider.Kept | content.js:79-85 | the `map`/`filter(Boolean)` stage yields at most one segment per record |
| Provider.KeptCons | content.js:79-85 | a record in front contributes its conversion, or nothing when it maps to `null`, ahead of the rest |
| Provider.KeptAppend | content.js:79-85 | the stage works record by record and keeps their order: a concatenation of records gives the concatenation of results |
| Provider.KeptSingle | content.js:80-85 | a single record gives its conversion, or nothing |
| Provider.KeptMembers | content.js:79-85 | the segments kept are exactly those some record converts to |
| Provider.InsertByStart | content.js:86 | inserting into a sorted list keeps it sorted and adds exactly that segment |
| Provider.WithStartCons | content.js:86 | the segments with a given start, in order, of a list with one more segment in front |
| Provider.InsertKeepsGroups | content.js:86 | insertion places the new segment ahead of the existing segments with an equal start, and keeps their relative order |
| Provider.SortByStart | content.js:86 | the sort is sorted by `start`, a permutation, and keeps the order of segments with equal starts |
| Provider.HeadIsLeast | content.js:86 | the head of a sorted list has the least start |
| Provider.WithStartHead | content.js:86 | how the head of a list contributes to the group of its start |
| Provider.WithStartMembers | content.js:86 | a group holds exactly the segments of the list with that start |
| Provider.SameHead | content.js:86 | two sorted lists with the same groups have the same head |
| Provider.TailsAgree | content.js:86 | removing an equal head keeps groups equal |
| Provider.SortedTail | content.js:86 | the tail of a sorted list is sorted |
| Provider.StableSortUnique | content.js:86 | two sorted lists with the same groups are identical, so a stable sort by `start` has only one possible result |
| Provider.Normalize | content.js:79-86 | a non-array body yields `[]`; otherwise the result is sorted, a permutation of the kept records that keeps their order within equal starts, and contains exactly the segments the records map to |
| Provider.NormalizeThrows | content.js:79-84 | the pipeline throws on an array body when the `map` step throws on any one of its records (`RecordThrows`) |
| Provider.SegmentPairRecord | content.js:81 | a record whose `segment` is an array maps to `Number(seg[0]) \|\| 0`, `Number(seg[1]) \|\| 0` and its `category`, and throws exactly when one of those two conversions throws |
| Provider.StartEndRecord | content.js:82 | otherwise a record with numeric `start` and `end` maps to exactly those bounds and its `category`, without throwing |
| Provider.ToStringKeyThrows | content.js:81 | a `segment` array whose first or second element has its own `toString` key makes the record throw, and with it every body holding the record |
| Provider.OtherRecordsDropped | content.js:83 | any other value maps to nothing, without throwing |
| Provider.MalformedRecordDropped | content.js:79-86 | in a mixed body, records of neither shape are dropped and the rest come out sorted by `start` |
| CacheKeys.ResolveCategories | content.js:213 | a stored list is used as is; a missing or falsy value gives `DEFAULT_CATEGORIES`; any other stored value is a non-array |
| CacheKeys.Signature | content.js:72 | the category signature; stated by `KeyIgnoresOrder` and `NonArrayKey` |
| CacheKeys.CacheKey | content.js:73 | `${videoId}:${categoriesKey}`; stated by `KeyIgnoresOrder`, `NonArrayKey` and `KeyDeterminesVideo` |
| CacheKeys.KeyIgnoresOrder | content.js:72-73 | any permutation of the same categories gives the same cache key |
| CacheKeys.NonArrayKey | content.js:72-73 | a non-array category value gives the empty signature, the same key as the empty list, namely `id:` |
| CacheKeys.PrefixBeforeSeparator | content.js:73 | the text before the first separator of a key is determined by the key |
| CacheKeys.KeyDeterminesVideo | content.js:73 | for ids without a colon, equal keys mean equal video ids |
| Fetcher.Fetch | content.js:69-90 | one call of `fetchSponsorSegments`; its rules are stated by the `Fetcher` lemmas below |
| Fetcher.FetchKeepsEntries | content.js:87 | cached entries are never dropped or changed |
| Fetcher.FetchAddsOnlyItsKey | content.js:73-87 | the only entry a call can add is under its own key and holds the list it returns |
| Fetcher.FetchAnswersFromItsEntry | content.js:74-88 | when the call's key is cached afterwards the call returned that entry; a non-empty answer always comes from one |
| Fetcher.FetchKeepsSorted | content.js:86-87 | a cache of sorted lists stays one, and the answer is sorted |
| Fetcher.FetchWithoutId | content.js:70 | an empty or missing id resolves to `[]` and leaves the cache alone |
| Fetcher.FetchHit | content.js:74 | a hit returns the stored list whatever the provider would say |
| Fetcher.FetchMiss | content.js:76-88 | a successful miss on a body the pipeline does not throw on returns the normalised body and stores exactly that list under its key |
| Fetcher.FetchFailure | content.js:76-89 | a rejected request, a non-2xx status, an undecodable body or a body the pipeline throws on resolves to `[]` and caches nothing |
| Fetcher.FetchThrowingBody | content.js:76-89 | the body `[{"segment":[{"toString":0},10]}]` makes `Number` throw, so the call resolves to `[]` and caches nothing |
| Fetcher.SecondFetch | content.js:72-89 | asking again after a cached answer changes nothing and returns the same; without a cached answer the first call changed nothing |
| Fetcher.FetchIgnoresOrder | content.js:72-74 | reordering the requested categories changes neither the answer nor the cache |
| Fetcher.NonArrayHitsEmptyList | content.js:72-74 | a non-array category value is answered from the entry of the empty category list |
| VideoIds.QueryGet | content.js:27 | `searchParams.get` returns the value of a pair with that name, and nothing exactly when no pair has it |
| VideoIds.QueryGetFirst | content.js:27 | the first pair with the name decides, whatever pairs with that name follow it |
| VideoIds.PathParts | content.js:29 | the path parts are non-empty and contain no `/` |
| VideoIds.VideoIdFromUrl | content.js:24-33 | an id taken from the address is never empty |
| VideoIds.VideoId | content.js:35-39 | a non-empty player id wins; otherwise the address decides; the answer is never empty |
| VideoIds.QueryParameterWins | content.js:27-28 | a non-empty `v` parameter is the id |
| VideoIds.ShortsPath | content.js:29-30 | without a `v` parameter, `/shorts/<id>` followed by more path gives `<id>` |
| VideoIds.ShortsSplit | content.js:29 | the split of a shorts path begins with `""`, `shorts`, the id |
| VideoIds.ShortsParts | content.js:29 | dropping empty parts of that split leaves `shorts`, the id, then the rest |
| VideoIds.NoIdFromUrl | content.js:27-32 | the address gives no id exactly when `v` is missing or empty and the path is not a shorts path with a second part |
| Colors.HexToRgb | content.js:305-314 | `hexToRgb`; stated by `SixDigitColour`, `ShortFormExpands`, `ShortFormChannels`, `NoDigitsGivesDefault`, `PartialColour` and `ChannelBounds` |
| Colors.ParseHex | content.js:309-311 | `parseInt(s, 16)`; stated by `ParseHexOfDigits`, `ParseHexPair`, `ParseHexNone`, `ParseHexBound` and `ParseHexShort` |
| Colors.ReadChannels | content.js:309-312 | the three `parseInt` calls and the per-channel fallbacks; stated by `ReadSixDigits` and `ReadDoubled` |
| Colors.HexDigitValue | content.js:309-311 | a hex digit's value is below 16 |
| Colors.HexRun | content.js:309-311 | the length of the leading run of hex digits `parseInt` reads |
| Colors.HexValue | content.js:309-311 | `k` hex digits have a value below 16^k |
| Colors.LeadingHex | content.js:309-311 | the digits read give a value below 16 to the length of the run |
| Colors.DropSign | content.js:309-311 | an optional leading sign is removed |
| Colors.DropRadixPrefix | content.js:309-311 | an optional `0x`/`0X` prefix is removed |
| Colors.Substring | content.js:309-311 | `substring(i, j)` is the characters from `i` to `j` with both clamped to the length: its length is the clamped difference, and character `k` is the one at the clamped `i` plus `k` |
| Colors.Doubled | content.js:308 | `split('').map(ch => ch + ch).join('')` doubles every character in place |
| Colors.Channels | content.js:307-308 | the channel text holds only characters of the input |
| Colors.DoubledChars | content.js:308 | doubling introduces no character |
| Colors.HexRunOfDigits | content.js:309-311 | on a string of hex digits the run is the whole string |
| Colors.ParseHexOfDigits | content.js:309-311 | `parseInt(s, 16)` of hex digits is their value |
| Colors.ParseHexPair | content.js:309-311 | two hex digits parse to 16 times the first plus the second |
| Colors.HashPrefixed | content.js:307 | trimming and removing `#` from `#` followed by the digits gives the digits |
| Colors.HashPrefixedLong | content.js:307-308 | a `#` colour of other than three characters is used as is |
| Colors.HashPrefixedShort | content.js:307-308 | a three-character `#` colour is doubled |
| Colors.ReadPairAt | content.js:309-311 | two hex digits at `i` read as one channel |
| Colors.ReadSixDigits | content.js:309-311 | six hex digits read as three hex pairs |
| Colors.ReadAfterHash | content.js:305-312 | `#` followed by six hex digits reads those digits |
| Colors.SixDigitColour | content.js:305-312 | a well-formed six-digit colour gives its hex pairs, each in 0..255 |
| Colors.SameChannels | content.js:309-312 | the colour depends only on the channel text |
| Colors.ShortChannels | content.js:307-308 | `#abc` gives the channel text `aabbcc` |
| Colors.ShortFormExpands | content.js:308 | `#abc` gives the same colour as `#aabbcc` |
| Colors.ReadDoubledPair | content.js:309-311 | a doubled digit reads as 17 times its value |
| Colors.ReadDoubled | content.js:309-311 | a doubled six-character text reads as 17 times each digit |
| Colors.ShortFormChannels | content.js:305-312 | each channel of `#abc` is 17 times its digit |
| Colors.NoDigitsGivesDefault | content.js:312 | a colour with no hex digit at all falls back to 255, 215, 0 |
| Colors.ParseHexNone | content.js:312 | text without hex digits does not parse |
| Colors.ChannelBounds | content.js:309-312 | every channel lies in -255..255, and in 0..255 when the input has no `-` |
| Colors.Pow16Monotone | content.js:309-311 | powers of 16 grow with the exponent |
| Colors.ParseHexBound | content.js:309-311 | a parsed value is below 16 to the length of the text in magnitude, and non-negative without `-` |
| Colors.ParseHexShort | content.js:309-311 | a two-character text parses to at most 255 in magnitude |
| Colors.PartialColour | content.js:309-312 | `#12` gives red 0x12 with the green and blue defaults: each channel falls back on its own |
| Playback.Tick | content.js:229-236 | membership is this tick's; entering with auto-skip jumps to the segment's end and emits only hide and the toast; entering without it shows the button and keeps the position; leaving hides; no change emits nothing |
| Playback.ButtonShown | content.js:118-132 | whether the floating button is on the page after a series of effects; stated by `ButtonShownAppend`, `ButtonUntouched` and `AppendUntouched` |
| Playback.RunTicks | content.js:229-237 | the watcher over a series of `timeupdate` positions; stated by `RunTicksStep`, `RunTicksAppend`, `RunEndsAtLastSample` and `RunKeepsButtonHonest` |
| Playback.ButtonShownAppend | content.js:118-132 | the button state after two batches of effects is that after the first, then the second |
| Playback.ButtonUntouched | content.js:118-132 | effects other than show and hide leave the button as it was |
| Playback.AppendUntouched | content.js:118-132 | appending such effects does not change the button state |
| Playback.TickKeepsButtonHonest | content.js:233-235 | after a tick the button is shown only while inside a segment, and without auto-skip exactly then |
| Playback.RunTicksAppend | content.js:229-236 | running two series of ticks is running the second from where the first ended |
| Playback.RunEndsAtLastSample | content.js:235 | after a run the flag is the membership of the last sample |
| Playback.RunKeepsButtonHonest | content.js:233-235 | over a run the button is shown only while inside a segment |
| Playback.ExampleMembership | content.js:231 | membership of sample positions in a two-segment list, with ends excluded |
| Playback.RunTicksStep | content.js:229-236 | a run is one tick followed by the run of the rest |
| Playback.InAndOut | content.js:233-234 | two samples inside then two outside show and then hide the button once |
| Playback.ManualSweep | content.js:233-234 | without auto-skip, inside-outside twice shows and hides the button twice, nothing more |
| Playback.ExampleSweep | content.js:229-236 | a sweep across two segments shows and hides the button once for each |
| Playback.AutoSkipAtStart | content.js:233 | entering a segment with auto-skip on jumps to its end and emits hide and the toast |
| Playback.ListSwappedInside | content.js:231-234 | a list swapped while inside a segment hides the button at the next tick |
| Content.Flag | content.js:214 | `Boolean(v)` of a stored value, false when there is none; the flag `LoadVideo` and `OnAutoSkipChanged` set |
| Content.ContentScript.constructor | content.js:5-11 | the initial state: no id, no segments, flags off, empty cache, no handler, nothing on the page |
| Content.ContentScript.FetchSponsorSegments | content.js:69-90 | the list and the new cache are those of one fetch, and sortedness of the cache is kept |
| Content.ContentScript.Emit | content.js:118-132 | appends to the event log; the button state is unchanged unless show or hide is among the effects |
| Content.ContentScript.TimeUpdate | content.js:229-237 | with a handler attached, the position, `lastInSegment` and the log follow one tick and the flag equals this tick's membership; without one, only the position moves; the button invariant is kept |
| Content.ContentScript.SkipCurrentSegment | content.js:173-179 | without a video nothing happens; under a segment the position becomes its end, strictly later, with hide and the toast; otherwise only the "nothing to skip" toast appears |
| Content.ContentScript.JumpToNextSegment | content.js:181-187 | moves to the next segment's start, strictly later, and the rest of the chain of next positions is unchanged; on a sorted list no later segment starts before the target; with none, only the toast appears |
| Content.ContentScript.JumpToPrevSegment | content.js:189-196 | moves to the previous segment's start, strictly earlier; on a sorted list no earlier segment starts after the target; with none, only the toast appears |
| Content.ContentScript.SetupForVideo | content.js:208-239 | without an id nothing changes; for the same id with segments only the markers and the menu item are mounted again; otherwise the video is loaded; sortedness is kept and the button's state is unchanged; the button invariant holds afterwards when the button was hidden, or when `lastInSegment` was left alone |
| Content.ContentScript.LoadVideo | content.js:211-238 | the id and the flag are replaced; the list and the cache are those of the fetch; markers, menu item and shortcuts are mounted; with a video the handler is attached and `lastInSegment` is cleared, otherwise both are left; the button invariant holds under the same conditions as for setup |
| Content.ContentScript.AttachWatcher | content.js:225-237 | with a video the flag is cleared and the handler attached; without one nothing changes |
| Content.ContentScript.NavigateToVideo | content.js:242-247 | a navigation followed by the setup it schedules leaves the lists sorted, the button hidden and the button invariant true; with an id it becomes the current id and the list is the one fetched against the cache from before |
| Content.ContentScript.OnNavigateFinish | content.js:242-246 | the timeline, the button and the menu item are removed; segments are emptied, `lastInSegment` cleared, the handler detached; the cache and the id are kept |
| Content.ContentScript.OnStorageChanged | content.js:260-288 | changes to other areas are ignored; an auto-skip change only sets the flag and refreshes the menu item; a category change swaps in the refetched list for the current id without touching `lastInSegment` or the id |
| Content.ContentScript.OnAutoSkipChanged | content.js:262-267 | the flag becomes `Boolean(newValue)`, the menu item is refreshed with it (one `RefreshSettingsItem` event), and nothing else of the state changes |
| Content.ContentScript.OnCategoriesChanged | content.js:281-287 | the list and the cache are those of refetching for the current id with the new categories, or the defaults |

## Left out

- Page rendering: `mountTimelineMarkers` (its percentage arithmetic and colour choice), the floating button's element, `showToast`'s fading, and the settings menu item's markup. Each appears only as an event in the log.
- The settings menu item's own click handler (content.js:158-163), which toggles auto-skip and writes it to storage, is not modelled: it is a page-interaction path outside the watcher.
- `storageGet`/`storageSet` and their `localStorage` fallback: the stored settings are parameters of `SetupForVideo`.
- The colour settings (content.js:212-218 and 268-280): shared.js defines no `sponsorColor` or `categoryColors` storage key, so these branches are keyed by `undefined` and carry no configuration. `hexToRgb` itself is modelled.
- The HTTP request to the provider, `encodeURIComponent`, `JSON.stringify` and `res.json()`: the reply is the `Response` value given to the fetch, with the body already decoded, or a failure.
- Asynchronous interleaving: every handler is one atomic step, so a stale fetch that resolves after navigation is not represented. The `setTimeout(setupForVideo, 300)` after navigation is a separate call of `SetupForVideo`.
- `init`'s polling for the video element and the `MutationObserver` that remounts markers.
- Content.ContentScript.SetupForVideo: takes what `getVideoId()` answers as a parameter rather than reading the page's player response and `location`; `VideoIds.VideoId` models that answer.
- Content.ContentScript.LoadVideo: the `keydown` and `durationchange` listeners that each setup adds again are recorded only as one `MountShortcuts` event. Their accumulation is not modelled.
- The video element is reduced to a position and whether one exists; a position set by the script is not clamped to the video's duration.
- Positions and segment bounds are `real`: IEEE-754 rounding, `NaN`, infinities and `-0` are not modelled.
- JsonValue.ToNumber: `Number()` is modelled for decimal literals with optional sign, fraction and exponent; hexadecimal, octal and binary literals and `"Infinity"` are treated as not a number, and so give 0 through `|| 0`. The TypeError it throws on an object with its own `toString` key is modelled by `NumberThrows`, and `Fetch` turns it into the failure path.
- VideoIds.QueryGet: the query is taken as already decoded name/value pairs; percent-decoding and `+` handling of `URLSearchParams`, and a `URL` constructor that throws, are not modelled.
- Colors.Channels / Colors.Doubled / Colors.Substring: lengths and indices count code points, not UTF-16 code units. For characters outside the basic multilingual plane, `h.length === 3`, `split('')` and `substring` count differently: `"#" + "\u{1F600}" + "a"` is doubled by the code but not by the model.
- JsText.LexLe: compares characters by code point, which agrees with JavaScript's UTF-16 code-unit order except for characters outside the basic multilingual plane.
- popup.js is not part of this model.
