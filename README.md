# Video playlist store and URL identifier extractor, modelled in Dafny

This project models the two sequential pieces of a video-playlist web UI.

- **The application state store** (`src/stores/index.ts`). It holds the list of
  videos, the active video and the timer map. It answers derived queries:
  - the episode number of the active video;
  - the video at an index;
  - the first index of a video;
  - the unlock threshold, which is the total duration of the videos before a
    given one.

  Its actions replace one field each, and the resolved branch of `loadVideo`
  installs a freshly loaded list. Module `Stores` (`stores.dfy`) models it:
  - `Video` is a class compared by identity, as the source compares video
    objects by reference.
  - `Timers` holds the `total` and a map from index to elapsed time.
  - `AppStore` is a class with the three fields `videoList`, `active` and
    `timers`. The getters are functions that read it. `IsUnlock` is a method
    with the source's counting loop. The actions are methods that modify
    exactly their own field.
  - `ApplyLoaded` is the body of the `.then` callback of `loadVideo`.
- **The URL identifier extractor** (`src/utils/helpers.ts`). `getIdFromUrl`
  matches one fixed regular expression and returns group 2 when it has exactly
  11 characters. Module `Helpers` (`helpers.dfy`) writes the regular
  expression out as explicit scans:
  - The greedy `^.*` backtracks from the end of the first line. `FindMarker`
    therefore scans backwards for the rightmost position where one of the six
    group-1 alternatives matches (`MarkerLen`).
  - `RunEnd` takes the greedy `[^#&?]*` after that marker.
  - `Match` combines the two scans. `IsMatch` is an independent declarative
    description of the same match, and `MatchUnique` proves the two agree.

`wrappers.dfy` holds the `Option` type used where the source returns `null`.

## Model

| member | source | states |
|---|---|---|
| `Stores.Video.constructor` | src/stores/index.ts:3 | a video record carries a non-negative duration `videoTime` (`video_time`) |
| `Stores.IndexOf` | src/stores/index.ts:37 | `indexOf`: -1 exactly when the element is absent, otherwise a position holding it with no earlier occurrence |
| `Stores.IndexOfAt` | src/stores/index.ts:42-51 | the first index of the element at position `i` is at most `i`, and exactly `i` when the list has no repeats |
| `Stores.TotalTime` | src/stores/index.ts:57-61 | the sum of `video_time` over a list, the value `isUnlock` accumulates; its properties are stated by `TotalTimeAppend`, `PrefixTimeStep` and `PrefixTimeMonotone` |
| `Stores.ZeroSlots` | src/stores/index.ts:86 | the index keys the spread of `data.map(t => 0)` contributes to the timer object; its shape is stated by `ZeroSlotsShape` |
| `Stores.TotalTimeAppend` | src/stores/index.ts:57-61 | the sum of durations is additive over concatenation |
| `Stores.PrefixTimeStep` | src/stores/index.ts:59-61 | one loop step adds exactly the duration of the video at that index to the prefix sum |
| `Stores.PrefixTimeMonotone` | src/stores/index.ts:52-67 | the unlock threshold (prefix sum) never decreases along the list |
| `Stores.ZeroSlotsShape` | src/stores/index.ts:84-87 | the rebuilt timer entries have exactly the keys `0..n-1`, each 0, so `n` entries |
| `Stores.AppStore.constructor` | src/stores/index.ts:18-24 | the initial state is an empty list, no active video and `total` 0 with no index timers |
| `Stores.AppStore.GetEpisode` | src/stores/index.ts:35-41 | None exactly when there is no active video or it is not listed; otherwise the 1-based first position, in `1..|videoList|` |
| `Stores.AppStore.GetItemByIndex` | src/stores/index.ts:42-46 | for an in-range index, the video at that index, whose first index is at most the index, and equal to it in a list without repeats |
| `Stores.AppStore.GetItemIndex` | src/stores/index.ts:47-51 | -1 exactly when the item is null or not listed; otherwise the smallest index holding it |
| `Stores.AppStore.IsUnlock` | src/stores/index.ts:52-67 | None exactly when the item's index is -1; otherwise the sum of the durations over `[0, idx)`, which is 0 at index 0; the loop keeps `total` equal to the sum of the first `i` durations |
| `Stores.AppStore.SetVideo` | src/stores/index.ts:70-72 | replaces the list; the active video and the timers are unchanged |
| `Stores.AppStore.SetActive` | src/stores/index.ts:73-75 | replaces the active video; the list and the timers are unchanged |
| `Stores.AppStore.SetTimer` | src/stores/index.ts:76-78 | replaces the timers; the list and the active video are unchanged |
| `Stores.AppStore.ApplyLoaded` | src/stores/index.ts:81-91 | empty data changes nothing. Non-empty data installs the list and makes its first element active. The timers then keep the old `total` and hold exactly the keys `0..n-1`, each 0, so no old index key survives. Afterwards the active video is listed, there is one timer per index, and the episode is 1 |
| `Helpers.LiteralFromSlice` | src/utils/helpers.ts:2 | comparing a literal character by character equals comparing the slice of the url with it |
| `Helpers.LiteralAtSlice` | src/utils/helpers.ts:2 | a literal alternative of group 1 matches at `p` exactly when the slice of the url at `p` equals it |
| `Helpers.MarkerLen` | src/utils/helpers.ts:2 | group 1 tried at one position: 0 exactly when none of the six alternatives matches there, and a matched marker lies inside the url |
| `Helpers.MarkersExclusive` | src/utils/helpers.ts:2 | the six markers begin with different characters. So at most one alternative matches at a position, and the marker found does not depend on the order of the alternatives |
| `Helpers.MarkerShape` | src/utils/helpers.ts:2 | every marker starts with one of `y v u e w &` and ends with `/` or `v=` at least one character later |
| `Helpers.NoMarkerAt` | src/utils/helpers.ts:2 | no marker starts at a character that cannot begin one, nor where no `/` or `v=` follows |
| `Helpers.LineEnd` | src/utils/helpers.ts:2 | `.` stops at the first line terminator: the first line holds none, and it ends at one or at the end of the url |
| `Helpers.FindMarker` | src/utils/helpers.ts:2 | the backtracking of the greedy `^.*`: the largest marker position up to `p`, with no marker after it; None exactly when no marker starts up to `p` |
| `Helpers.RunEnd` | src/utils/helpers.ts:2 | the greedy `[^#&?]*` ends at a maximal run: no `#`, `&` or `?` inside, followed by one of them or by the end |
| `Helpers.IsMatch` | src/utils/helpers.ts:2 | the declarative reading of the pattern: a marker at or before the end of the first line with no marker after it in that line, then group 2 as the maximal `[^#&?]` run right after the marker; `Match` and `MatchUnique` prove it is met by exactly one span, the scans' result |
| `Helpers.Match` | src/utils/helpers.ts:2-3 | the match satisfies the declarative description (rightmost marker of the first line, maximal run after it); None exactly when no marker starts in the first line |
| `Helpers.LastMarkerUnique` | src/utils/helpers.ts:2 | only one marker position can be the rightmost one |
| `Helpers.RunUnique` | src/utils/helpers.ts:2 | a maximal run from a given start has only one end |
| `Helpers.MatchUnique` | src/utils/helpers.ts:2-3 | any span meeting the declarative description is the match the scans return |
| `Helpers.GetIdFromUrl` | src/utils/helpers.ts:1-9 | a result has exactly 11 characters, none of them `#`, `&` or `?`. It is present exactly when the pattern matches and group 2 has length 11, and it is then group 2 |
| `Helpers.NoMarkerNoId` | src/utils/helpers.ts:2-7 | with no marker in the first line, the result is null |
| `Helpers.IdFollowsMarker` | src/utils/helpers.ts:2-8 | after the rightmost marker, the result is the 11 characters there exactly when they form a maximal run (followed by `#`, `&`, `?` or the end); any other run length yields null |
| `Helpers.NoMarkerEndNoId` | src/utils/helpers.ts:2-7 | a url with no `/` and no `v=` has no identifier |
| `Helpers.NoMarkerInIdTail` | src/utils/helpers.ts:2 | no marker starts inside a tail made only of identifier characters |
| `Helpers.ExampleShortLink` | src/utils/helpers.ts:1-9 | `https://youtu.be/<id>` yields `<id>` for every 11-character identifier, e.g. `dQw4w9WgXcQ` |
| `Helpers.ExampleWatch` | src/utils/helpers.ts:1-9 | `https://www.youtube.com/watch?v=<id>` yields `<id>` |
| `Helpers.ExampleWatchWithTime` | src/utils/helpers.ts:1-9 | `watch?v=<id>&t=1` yields `<id>`: the run stops at `&` |
| `Helpers.ExampleNotAVideo` | src/utils/helpers.ts:1-9 | `https://example.com/<path>`, e.g. `not-a-video`, yields null |
| `Helpers.ExampleShort` | src/utils/helpers.ts:1-9 | `short` yields null |

## Left out

- `getVideos`, `getActive` and `getTimer` (src/stores/index.ts:26-34) only return a field. The model reads `videoList`, `active` and `timers` directly instead of wrapping them.
- Pinia's `defineStore`, reactivity and the `this`-bound getter closures are framework plumbing. The getters are plain functions of the store object.
- `apiGetVideo`, the promise, `async` and the fire-and-forget `init` are not modelled: they are a network call and asynchronous scheduling. `ApplyLoaded` models only the synchronous effect of a resolved list. A rejected provider call, which the source does not handle, is not modelled.
- `video_time` and the timer values are JavaScript numbers. They are modelled as `nat` durations and `int` timer values, so floating point is not modelled. The rest of `VideoModel` is external and is not part of this model.
- JavaScript truthiness of video objects is modelled as "not null", because an object is always truthy.
- `Stores.AppStore.GetItemByIndex`: an out-of-range index reads `undefined` in the source. The model forbids it with a precondition instead of modelling `undefined`.
- `Stores.AppStore.IsUnlock` takes a possibly-null video, although the source declares a non-null one. It has no null check of its own: a null item flows through `getItemIndex` to -1, as in the source, and yields None.
- String lengths are counted in Dafny characters (Unicode scalar values). JavaScript counts UTF-16 code units, so the 11-character check differs for identifiers containing characters outside the Basic Multilingual Plane.
- The regular-expression engine as such is not modelled. Only this one pattern's semantics are written out as scans.
- The example lemmas are stated for every identifier made of `\w` characters and `-`, rather than for the single literal url.
