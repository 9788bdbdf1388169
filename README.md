# TooMuchYouTube, modelled in Dafny

TooMuchYouTube is a browser extension that sets the playback speed of
YouTube videos from a list of user rules. A rule has a type (channel, title
or video id), a match value and a speed.

- **Content script.** It reads the page: the video id in the address, the
  title, and the channel names, handles and ids it can find. It picks the
  first rule that matches, sets that speed on every video element, and keeps
  re-asserting it for a while, because the player tends to reset it. It backs
  off for an element whose speed the user changes by hand.
- **Legacy content script.** The older version keeps three separated lists
  and one speed.
- **Popup.** It edits the rule list: move, delete, edit, add, quick-add from
  the current tab, and drag to reorder, with a debounced save.
- **Maintenance scripts.** One regenerates the domain allow-list from a
  community list file. The other bumps the version in the README and the
  changelog.

The model has one module per component:

| module | models |
|---|---|
| `Wrappers` | `Option` |
| `Text` | the JavaScript string operations used: `trim`, ASCII `toLowerCase`, `includes`, `indexOf`, single-character `split`/`join`, `filter(Boolean)`, first-occurrence `replace` |
| `JsSet` | a `Set` in insertion order |
| `StringOrder` | the default `sort()` order and sorted insertion |
| `Page` | video elements and `Number()` |
| `Rules` | rule types, `matchesRule`, first-match-wins |
| `Signals` | `getVideoIdFromUrl`, `getMatchKey`, `getTitle`, `getChannelCandidates` |
| `Enforcer` | the content script as a class `ContentScript` whose fields are the script's globals, the page and the browser timers |
| `Legacy` | the legacy script as a class `LegacyScript` |
| `RuleEditing` | the popup's list operations and its editor as a class `RuleEditor` |
| `Domains` | the generated domain list and `isYouTubeHost` |
| `BundledPopup` | the bundled popup's extra logic and a class `Popup` |
| `DomainList` | `update-youtube-domains.js` |
| `VersionBump` | `bump-version.js` |

Event listeners, intervals and timeouts are methods of the classes, called
when the browser would run them. The clock is a `now` parameter. A timer is
a field holding its due time or its id.

A few methods stand for the page changing rather than for the script:
`Navigate`, `ReplaceVideos` and `UserSetsRate`.

The contracts state what the code does in terms of specification functions:
- `FirstMatch`, the first-match policy;
- `TouchAll` and `Applies`, what one application of a speed does to the elements and the retry loop;
- `NormalizeRules`, `Moved`, `Deleted` and `UpdateRule`, the list edits;
- `LoadedFrom` and `PatternsFrom`, the regenerated list;
- `ReadmeLines` and `ChangelogLines`, the bumped documents.

Lemmas prove what those functions promise.

## Model

| member | source | states |
|---|---|---|
| Text.TrimSpec | extension/src/content.ts:49-50 | `trim` keeps a contiguous piece of the string that neither begins nor ends with whitespace |
| Text.TrimStartDropsSpaces | extension/content.js:11 | what `trim` drops at the start is whitespace |
| Text.TrimEndDropsSpaces | extension/content.js:11 | what `trim` drops at the end is whitespace |
| Text.TrimKeepsChars | extension/src/content.ts:60 | trimming only removes characters |
| Text.TrimIdempotent | extension/src/popup.ts:164-165 | trimming twice is trimming once |
| Text.TrimOfTrimmed | extension/src/popup.ts:164-165 | a string without whitespace at either end is its own trim |
| Text.TrimEmptyIff | bin/bump-version.js:40 | `trim() === ''` holds exactly when every character is whitespace |
| Text.TrimKeepsPrefix | bin/update-youtube-domains.js:61-62 | trimming keeps a leading word that starts and ends with non-space characters |
| Text.LowerIdempotent | extension/src/content.ts:30-32 | lower-casing twice is lower-casing once |
| Text.LowerConcat | extension/src/content.ts:30-32 | lower-casing distributes over concatenation |
| Text.LowerOccursAt | extension/src/content.ts:98 | lower-casing both sides keeps an occurrence at its index |
| Text.IndexOf | bin/update-youtube-domains.js:63 | `indexOf` is -1 exactly when there is no occurrence, else the first occurrence |
| Text.ReplaceFirst | extension/src/content.ts:50 | `replace` with a string pattern leaves a string without the pattern unchanged |
| Text.Split | bin/update-youtube-domains.js:118 | `split` gives at least one piece and no piece holds a separator |
| Text.SplitFirstPiece | extension/src/content.ts:37 | the first piece is the prefix before the first separator, or the whole string |
| Text.SplitNoSeparator | bin/update-youtube-domains.js:118 | a string without separators is one piece |
| Text.SplitJoin | bin/bump-version.js:26 | joining separator-free pieces and splitting again gives the pieces back |
| Text.JoinSplit | bin/bump-version.js:52 | splitting at one separator and joining with it gives the string back |
| Text.NonEmpty | extension/src/content.ts:88 | `filter(Boolean)` keeps exactly the non-empty strings, in order |
| Text.FirstWhereIsFirst | bin/bump-version.js:39-45 | the search finds an index exactly when one satisfies the test, and then the first |
| JsSet.AddAllSpec | extension/src/content.ts:54-88 | adding to a `Set` keeps its elements distinct; it holds exactly the old and the added ones |
| JsSet.AddAllExtends | extension/src/content.ts:54-88 | elements added earlier keep their insertion order |
| StringOrder.LessIrreflexive | bin/update-youtube-domains.js:124 | the default sort order is irreflexive |
| StringOrder.LessTransitive | bin/update-youtube-domains.js:124 | the default sort order is transitive |
| StringOrder.LessTotal | bin/update-youtube-domains.js:124 | any two different strings are ordered |
| StringOrder.Insert | bin/update-youtube-domains.js:122-124 | inserting into a sorted, duplicate-free list keeps it so, and adds exactly the new element |
| StringOrder.HeadIsLeast | bin/update-youtube-domains.js:124 | the head of a sorted list is below the other elements |
| StringOrder.SortedUnique | bin/update-youtube-domains.js:124 | a sorted, duplicate-free list is determined by its elements: `Array.from(set).sort()` has one answer |
| Page.SpeedValue | extension/src/content.ts:236-239 | a speed that passes the checks converts to a number above zero |
| Rules.MatchesRule | extension/src/content.ts:91-111 | the match test: an empty value never matches; a channel rule matches when some candidate contains the value, ignoring case; a title rule when the title contains it, ignoring case; a video-id rule when the trimmed value is the present video id; an unknown kind never (its properties are the lemmas `VideoIdMatchIsExact`, `ChannelCaseExample` and the `FirstMatch` lemmas) |
| Rules.ParseRuleType | extension/src/content.ts:3 | a type string outside the three known ones is an unknown type |
| Rules.RuleTypeRoundTrip | extension/src/content.ts:3 | type names and parsed types convert back and forth |
| Rules.NeverMatches | extension/src/content.ts:91-111 | an empty value never matches, nor does an unknown type, a channel rule without candidates, a title rule without a title, or a video-id rule without an id |
| Rules.ContainedValueMatches | extension/src/content.ts:93-104 | a channel or title rule matches when its value occurs in a candidate or in the title |
| Rules.MatchIgnoresCase | extension/src/content.ts:93-104 | channel and title matching ignores case on both sides |
| Rules.MoreCandidatesKeepMatch | extension/src/content.ts:95-100 | more channel candidates never turn a match off |
| Rules.VideoIdMatchIsExact | extension/src/content.ts:106-108 | a video-id rule matches exactly when its trimmed value equals the present video id |
| Rules.FirstFrom | extension/src/content.ts:306-307 | the scan returns none exactly when no element qualifies, else the earliest one that does |
| Rules.FirstMatch | extension/src/content.ts:306-312 | none exactly when no rule matches, else the index of the earliest matching rule |
| Rules.FirstMatchUnique | extension/src/content.ts:306-312 | the first match is the only index that matches with no match before it |
| Rules.FirstMatchAppendKept | extension/src/content.ts:306-312 | rules appended after a matching rule never take effect |
| Rules.FirstFromAppendShifted | extension/src/content.ts:306-312 | after a list without a match, the appended rules are tried in their own order |
| Rules.FirstFromUnique | extension/src/content.ts:306-312 | the qualifying index with none before it is the scan's answer |
| Rules.FirstMatchAppendNone | extension/src/content.ts:306-312 | two lists without a match make one without a match |
| Rules.MatchingRuleFirstWins | extension/src/content.ts:306-312 | a matching rule at the front wins |
| Rules.ChannelCaseExample | extension/src/content.ts:95-99 | "ACME" matches the candidate "acme gaming" |
| Rules.EarlierRuleWinsExample | extension/src/content.ts:306-312 | with two matching rules, the earlier one is chosen |
| Signals.VideoIdFromUrl | extension/src/content.ts:34-45 | the address's video id: on `youtu.be` the first path segment up to a stop, else a non-empty `v` parameter, else on a `/shorts/` path the segment after it, else empty (stated by `VideoIdSources` and `ShortenerIdSpec`) |
| Signals.Title | extension/src/content.ts:47-51 | the heading's trimmed text when present, else the document title without " - YouTube", trimmed (stated by `TitleIsTrimmed`) |
| Signals.MatchKey | extension/src/content.ts:119-121 | the video id, or the whole address when it has none (stated by `MatchKeySpec`) |
| Signals.QueryGet | extension/src/content.ts:39 | `searchParams.get` is absent exactly when no parameter has the name, else the first such parameter's value |
| Signals.CutAtStopsSpec | extension/src/content.ts:37 | cutting at `[?&#/]` keeps the longest stop-free prefix |
| Signals.ShortenerIdSpec | extension/src/content.ts:36-38 | on `youtu.be` the id is the path after its leading slash, up to the first stop |
| Signals.VideoIdSources | extension/src/content.ts:34-45 | the id comes from the `youtu.be` path, then a non-empty `v`, then a `/shorts/` path, else is empty |
| Signals.MatchKeySpec | extension/src/content.ts:119-121 | the key is the video id, or the whole address when there is none; it is never empty for a non-empty address |
| Signals.TitleIsTrimmed | extension/src/content.ts:47-51 | the title neither begins nor ends with whitespace |
| Signals.HandleIndexFrom | extension/src/content.ts:68 | the leftmost match position of the handle pattern, or none when it never matches |
| Signals.ChannelIndexFrom | extension/src/content.ts:70 | the leftmost match position of the channel pattern, or none when it never matches |
| Signals.RunFromSpec | extension/src/content.ts:68 | `[^/?#]+` captures a non-empty, stop-free run in place |
| Signals.HandleOfSpec | extension/src/content.ts:68-69 | a captured handle is "@" plus a non-empty stop-free name, found after a "/" in the link; none when the pattern never matches |
| Signals.ChannelOfSpec | extension/src/content.ts:70-71 | a captured channel id is non-empty, stop-free and follows "/channel/"; none when the pattern never matches |
| Signals.NonEmptyKeepsDistinct | extension/src/content.ts:88 | filtering keeps the candidates distinct |
| Signals.ChannelCandidates | extension/src/content.ts:53-89 | the candidates are distinct and are exactly the non-empty strings the script adds |
| Signals.GetChannelCandidates | extension/src/content.ts:53-89 | the loops as written compute `ChannelCandidates` |
| Signals.AddNameTexts | extension/src/content.ts:59-61 | the text loop adds each present text, trimmed, in order |
| Signals.AddOwnerLinks | extension/src/content.ts:66-72 | the link loop adds each link's handle, then its channel id, in order |
| Signals.LinkLoopStep | extension/src/content.ts:66-72 | one pass of the link loop is one step of `AddAll` |
| Enforcer.SetRate | extension/src/content.ts:160-164 | `setVideoPlaybackRate` on the element map: only the rate of `v` becomes the speed |
| Enforcer.Stamp | extension/src/content.ts:160-164 | the clock stamp moves to now only when the rate of `v` differs from the speed |
| Enforcer.TouchOne | extension/src/content.ts:246-265 | one element of the pass: its rate-change listener registered, then the rate set at once when metadata is loaded, else one `loadedmetadata` and one `playing` listener added with the speed |
| Enforcer.Applies | extension/src/content.ts:246-268 | one application: the pass `TouchAll` over the videos, a new token, the old interval cleared and a fresh one armed, and, unless the first video is overridden, the speed posted to the page and set on it |
| Enforcer.TouchAll | extension/src/content.ts:246-265 | the pass over the videos keeps the set of known elements |
| Enforcer.TouchAllKeepsReadiness | extension/src/content.ts:246-265 | the pass never changes an element's `readyState` |
| Enforcer.TouchAllRates | extension/src/content.ts:248-249 | after the pass every ready listed element plays at the speed; other rates are unchanged |
| Enforcer.TouchAllListeners | extension/src/content.ts:166-168 | every listed element ends with one rate-change listener that keeps its first target; no other element gains one |
| Enforcer.TouchAllDeferredMetadata | extension/src/content.ts:253-256 | each listed element without metadata gains exactly one `loadedmetadata` listener with the speed |
| Enforcer.TouchAllDeferredPlaying | extension/src/content.ts:257-263 | each listed element without metadata gains exactly one `playing` listener with the speed |
| Enforcer.TouchAllClock | extension/src/content.ts:160-164 | the clock stamp moves exactly when the pass changes some ready element's rate |
| Enforcer.ChangesSomeRateSnoc | extension/src/content.ts:246-250 | one more element changes some rate exactly when it is ready and not at the speed, or an earlier one did |
| Enforcer.Answered | extension/src/content.ts:316-317 | answering a read leaves the other outstanding reads, in the order they were issued |
| Enforcer.FindFirstMatch | extension/src/content.ts:306-312 | the rule loop as written stops at `FirstMatch` |
| Enforcer.StepChangesSnoc | extension/src/content.ts:253-256 | one more listener changes the rate at some step exactly when it changes it, or an earlier one did |
| Enforcer.ContentScript.constructor | extension/src/content.ts:26-28 | no rules, nothing applied, no listeners, no retry loop, the first settings read outstanding, the start-up poll armed |
| Enforcer.ContentScript.SetVideoPlaybackRate | extension/src/content.ts:160-164 | the rate is set, and the clock stamped, only when it differs |
| Enforcer.ContentScript.RegisterRateChangeListener | extension/src/content.ts:166-169 | an element keeps the target of its first registration |
| Enforcer.ContentScript.ClearSyncInterval | extension/src/content.ts:192-195 | the current interval is cleared and forgotten |
| Enforcer.ContentScript.OnRateChange | extension/src/content.ts:170-180 | a connected change away from the target, 400 ms or more after the last programmatic set, marks the element overridden and stops the retry loop; otherwise nothing changes |
| Enforcer.ContentScript.TrySync | extension/src/content.ts:197-229 | an attempt of an outdated call does nothing; an overridden video stops the loop; otherwise the rate is posted to the page and set on the first video, and the loop stops after 30 attempts |
| Enforcer.ContentScript.OnSyncTick | extension/src/content.ts:197-229 | a tick of a replaced loop does nothing; a tick of the current loop is one more attempt |
| Enforcer.ContentScript.BeginSync | extension/src/content.ts:189-195 | a new token, above every armed loop's, and the previous interval cleared |
| Enforcer.ContentScript.ArmSyncInterval | extension/src/content.ts:232 | a fresh interval is armed for the loop |
| Enforcer.ContentScript.SyncPlaybackRateWithPlayer | extension/src/content.ts:186-233 | a new call replaces the retry loop, makes the first attempt at once and arms an interval for the rest |
| Enforcer.ContentScript.TouchVideo | extension/src/content.ts:246-265 | one element's `forEach` body is `TouchOne` |
| Enforcer.ContentScript.TouchVideos | extension/src/content.ts:243-265 | the `forEach` is `TouchAll` over the connected videos; `applied` holds exactly when there is a video |
| Enforcer.ContentScript.ApplyPlaybackRateOnce | extension/src/content.ts:235-271 | applied exactly for a valid speed and at least one video, and then `Applies` with the first video recorded; otherwise nothing changes |
| Enforcer.ContentScript.ApplySpeed | extension/src/content.ts:246-268 | the pass, the retry loop and the recorded video satisfy `Applies` |
| Enforcer.ContentScript.StartSync | extension/src/content.ts:267-268 | the retry loop starts and the first video is recorded |
| Enforcer.ContentScript.RecordVideo | extension/src/content.ts:268 | the applied video is recorded |
| Enforcer.ContentScript.ForgetOverride | extension/src/content.ts:297-299 | for the same key but another first video, the override is forgotten; nothing else changes |
| Enforcer.ContentScript.RecordKey | extension/src/content.ts:309 | the key is recorded; nothing else changes |
| Enforcer.ContentScript.ApplyFirstMatch | extension/src/content.ts:302-312 | no match exactly when `FirstMatch` finds none; on a match its speed is applied when valid, and the key is recorded only then |
| Enforcer.ContentScript.ApplyRule | extension/src/content.ts:308-310 | applying a rule's speed; the key is recorded exactly on success |
| Enforcer.ContentScript.EvaluateAndApply | extension/src/content.ts:283-313 | the outcomes are: not YouTube, already applied for this key and video, no match, or the first match applied when its speed is valid; each states its new state |
| Enforcer.ContentScript.ApplyForKey | extension/src/content.ts:286-312 | `evaluateAndApply` after its early returns, with its override reset |
| Enforcer.ContentScript.ScheduleEvaluate | extension/src/content.ts:275-281 | arms the 150 ms check unless one is pending; a pending check is not restarted |
| Enforcer.ContentScript.OnPendingCheck | extension/src/content.ts:277-280 | the check disarms itself and evaluates, as `EvaluateAndApply` states |
| Enforcer.ContentScript.OnNavigateFinish | extension/src/content.ts:332-337 | what was applied is forgotten and a check is scheduled |
| Enforcer.ContentScript.RefreshSettings | extension/src/content.ts:315-316 | a read is issued with the current rules as its defaults |
| Enforcer.ContentScript.OnStorageChanged | extension/src/content.ts:325-330 | a read is issued exactly when `rules` changed in sync storage |
| Enforcer.ContentScript.OnSettingsLoaded | extension/src/content.ts:316-322 | the stored rules, or the read's defaults, replace the rules; what was applied is forgotten; the evaluation that follows can never end early |
| Enforcer.ContentScript.EvaluateReset | extension/src/content.ts:321 | an evaluation with nothing remembered as applied |
| Enforcer.ContentScript.LoadRules | extension/src/content.ts:317-320 | the read is taken, the rules are replaced, and what was applied is forgotten |
| Enforcer.ContentScript.OnStartupTick | extension/src/content.ts:347-354 | each tick schedules a check; the poll disarms itself after its 20th tick |
| Enforcer.ContentScript.OnLoadedMetadata | extension/src/content.ts:253-256 | the element's one-shot listeners run in order, each setting its speed, and are removed |
| Enforcer.ContentScript.OnPlaying | extension/src/content.ts:257-263 | the element's one-shot listeners are removed and each runs a whole synchronisation in order: the new rates, clock stamp, token, intervals and page requests are the fold `SyncAll` of those calls; only the loop of the last one stays armed, with the previous interval cleared, and every speed is posted to the page unless the override is active |
| Enforcer.ContentScript.SyncEach | extension/src/content.ts:257-263 | running the listeners one after the other leaves exactly the state the fold `SyncAll` describes |
| Enforcer.SyncOnce | extension/src/content.ts:186-233 | one synchronisation as a value: the set of known elements is kept, a new token and a fresh interval replace the old one, the speed is posted to the page and the first element set to it unless the override is active |
| Enforcer.SyncAll | extension/src/content.ts:257-263 | several synchronisations in order keep the set of known elements |
| Enforcer.SyncAllRetry | extension/src/content.ts:186-233 | after n calls the token and the timer counter have moved by n, every speed was posted unless the override is active, and only the last call's loop, with its speed, is armed in place of the interval that was current before; no call changes nothing |
| Enforcer.SyncAllRates | extension/src/content.ts:216-218 | under the override or with no element nothing changes; otherwise the first element plays at the last speed and the clock is stamped exactly when some call changed its rate |
| Enforcer.RearmCleared | extension/src/content.ts:192-195 | clearing the interval just armed under a fresh id gives back the intervals as they were |
| Enforcer.VideoIdRuleOnPage | extension/src/content.ts:106-108 | on a page, a video-id rule matches exactly when the address has a non-empty video id equal to the trimmed rule value |
| Enforcer.ShortUrlId | extension/src/content.ts:36-38 | the id of `https://youtu.be/abc?t=5` is "abc" |
| Enforcer.WatchUrlId | extension/src/content.ts:39-40 | the id of `https://www.youtube.com/watch?v=abc` is "abc" |
| Enforcer.ShortsUrlId | extension/src/content.ts:41-43 | the id of `https://www.youtube.com/shorts/ABC` is "ABC" |
| Enforcer.TrimmedAbc | extension/src/content.ts:107 | " abc " trims to "abc" |
| Enforcer.VideoIdRuleExample | extension/src/content.ts:34-45 | the rule " abc " matches the short link and the watch page of "abc" but not the Shorts page of "ABC": the comparison is exact, after trimming the rule |
| Legacy.ParseList | extension/content.js:8-13 | a setting split at commas and newlines, each entry trimmed and empty ones dropped (stated by `ParseListEntries`, `ParseListOfJoined` and `ParseListStable`) |
| Legacy.HasMatch | extension/content.js:73-96 | a channel entry contained in some candidate, or a title entry contained in the title, ignoring case, or a video-id entry equal to the present id (stated by `HasMatchAsRules` and the three list lemmas) |
| Legacy.LegacyVideoId | extension/content.js:19-27 | the older id reading: a non-empty `v` parameter, else the `/shorts/` segment, else empty; `youtu.be` is not recognised |
| Legacy.ParseListEntries | extension/content.js:8-13 | every parsed entry is non-empty, trimmed and free of separators |
| Legacy.NonEmptyKeepsAll | extension/content.js:12 | filtering a list without empty strings keeps it whole |
| Legacy.ParseListOfJoined | extension/content.js:8-13 | entries joined by a comma or newline parse back to those entries |
| Legacy.ParseListStable | extension/content.js:8-13 | parsing a parsed list, rejoined, gives it again |
| Legacy.AsRules | extension/content.js:74-76 | one rule per list entry |
| Legacy.SomeRuleMatchesConcat | extension/content.js:95 | some rule of two lists matches exactly when some rule of one of them does |
| Legacy.ChannelRulesMatch | extension/content.js:78-83 | the channel list matches exactly when one of its entries, as a channel rule, would |
| Legacy.TitleRulesMatch | extension/content.js:85-88 | the title list matches exactly when one of its entries, as a title rule, would |
| Legacy.VideoIdRulesMatch | extension/content.js:90-93 | the video-id list matches exactly when one of its entries, as a video-id rule, would |
| Legacy.HasMatchAsRules | extension/content.js:73-96 | the settings match exactly when one of the rules built from their entries does |
| Legacy.HasMatchIsFirstMatch | extension/content.js:73-96 | the legacy matcher agrees with the current first-match rule list, and every such rule has the one speed |
| Legacy.EmptyListsNeverMatch | extension/content.js:78-93 | with all lists empty nothing matches |
| Legacy.EmptyPageNeverMatches | extension/content.js:78-93 | a page without candidates, title or id never matches |
| Legacy.LegacyVideoIdAgrees | extension/content.js:19-27 | away from `youtu.be` both scripts read the same id |
| Legacy.ShortenerIgnoredExample | extension/content.js:19-27 | on `youtu.be/abc` this script finds no id, while the current one finds "abc" |
| Legacy.ShortenerAbc | extension/src/content.ts:37 | the current script reads "abc" from the path "/abc" |
| Legacy.GuardWiderExample | extension/content.js:133 | the substring host test accepts "evilyoutube.com", which the domain list does not |
| Legacy.RateAll | extension/content.js:107-110 | the pass keeps the set of known elements |
| Legacy.DeferAllKeys | extension/content.js:117 | listeners are added to listed elements only |
| Legacy.RateAllSpec | extension/content.js:107-110 | after the pass each listed element plays at the speed; nothing else changes |
| Legacy.DeferAllSpec | extension/content.js:111-117 | each listed element gains exactly one `loadedmetadata` listener |
| Legacy.OutcomeOf | extension/content.js:132-168 | not YouTube exactly off a "youtube.com" host, no match exactly when the lists do not match, otherwise a match applied when the speed is valid and there are videos |
| Legacy.FetchedSettingsSpec | extension/content.js:171-175 | a stored value replaces a setting; an absent key keeps the read's default |
| Legacy.LegacyScript.constructor | extension/content.js:1-6 | empty settings, nothing logged, the first read outstanding, the start-up poll armed |
| Legacy.LegacyScript.ApplyToVideo | extension/content.js:107-118 | one element's rate set when it differs, plus one more listener |
| Legacy.LegacyScript.ApplyPlaybackRate | extension/content.js:98-119 | applied exactly for a valid speed and at least one video; then every connected video runs at it and gets a listener; otherwise nothing changes |
| Legacy.LegacyScript.ApplyToAll | extension/content.js:107-118 | the `forEach` is `RateAll` and `DeferAll` |
| Legacy.LegacyScript.OnLoadedMetadata | extension/content.js:111-116 | the element's listeners run in order, the last speed wins, and all are removed |
| Legacy.LegacyScript.LogOnce | extension/content.js:142-143 | only the first evaluation past the host check writes the debug message |
| Legacy.LegacyScript.EvaluateAndApply | extension/content.js:132-168 | the outcome is `OutcomeOf`; the debug message is written once; the speed is applied exactly on an applied match |
| Legacy.LegacyScript.MatchAndApply | extension/content.js:135-167 | after the host check: the no-match and match branches with their debug entries |
| Legacy.LegacyScript.LogAndApply | extension/content.js:157-167 | a match logs once, then applies the speed |
| Legacy.LegacyScript.ScheduleEvaluate | extension/content.js:124-130 | arms the 150 ms check unless one is pending; navigation and mutations only do this |
| Legacy.LegacyScript.OnPendingCheck | extension/content.js:126-129 | the check disarms itself and evaluates |
| Legacy.LegacyScript.RefreshSettings | extension/content.js:170-171 | a read is issued with the current settings as its defaults |
| Legacy.LegacyScript.OnSettingsLoaded | extension/content.js:171-177 | the read's settings are taken, then the page is evaluated |
| Legacy.LegacyScript.OnStorageChanged | extension/content.js:180-190 | a read is issued exactly when one of the four keys changed in sync storage |
| Legacy.LegacyScript.OnStartupTick | extension/content.js:204-211 | each tick schedules a check; the poll disarms itself after its 20th tick |
| RuleEditing.NormalizeRules | extension/src/popup.ts:159-168 | each rule with its id kept or generated, value and speed trimmed, and the rules left without a value or a speed dropped (stated by `NormalizeRulesIdempotent` and the lemmas beside it) |
| RuleEditing.Moved | extension/src/popup.ts:170-177 | `splice` out at `from` and back in at `to`; a target outside the list leaves it (stated by the `Moved` lemmas) |
| RuleEditing.DeleteRule | extension/src/popup.ts:179-182 | the list filtered of the element at `index` (stated by `DeleteRuleSpec`) |
| RuleEditing.SetField | extension/src/popup.ts:184-189 | `{ ...rule, [field]: value }` for the fields a rule has |
| RuleEditing.KeepComplete | extension/src/popup.ts:167 | the filter keeps exactly the rules with a value and a speed |
| RuleEditing.Filled | extension/src/popup.ts:160-166 | the map normalises each rule in place |
| RuleEditing.NormalizedSaved | extension/src/popup.ts:161-167 | a normalised rule with a value and a speed is in saved form |
| RuleEditing.NormalizeRulesSpec | extension/src/popup.ts:159-168 | every saved rule comes from a listed rule; exactly those with a trimmed value and speed survive; all are in saved form |
| RuleEditing.KeepCompleteAll | extension/src/popup.ts:167 | a list of complete rules is kept whole |
| RuleEditing.KeepCompleteConcat | extension/src/popup.ts:167 | filtering distributes over concatenation, keeping the order |
| RuleEditing.NormalizedOfSaved | extension/src/popup.ts:161-166 | normalising a saved rule changes nothing |
| RuleEditing.NormalizeRulesIdempotent | extension/src/popup.ts:159-168 | saving a saved list again gives the same list, whatever ids would be generated |
| RuleEditing.Deleted | extension/src/popup.ts:179-180 | an in-range index loses exactly that element; any other index changes nothing |
| RuleEditing.DeletedMultiset | extension/src/popup.ts:179-180 | deleting removes exactly one copy of the element |
| RuleEditing.DeleteRuleSpec | extension/src/popup.ts:180 | the index filter is `Deleted` |
| RuleEditing.MovedSpec | extension/src/popup.ts:170-177 | a target outside the list changes nothing; otherwise the result is a permutation with the element at the target and the others in order |
| RuleEditing.MovedInPlace | extension/src/popup.ts:172-174 | moving an element to where it is changes nothing |
| RuleEditing.UpDownAtEnds | extension/src/popup.ts:199-205 | "up" on the first row and "down" on the last change nothing |
| RuleEditing.UpdateRule | extension/src/popup.ts:184-189 | only the rule at the index changes, and only in the named field |
| RuleEditing.UpdateValueOnly | extension/src/popup.ts:184-189 | editing a value leaves the id, type and speed |
| RuleEditing.UpdateSameValue | extension/src/popup.ts:184-189 | writing back a field's current value changes nothing |
| RuleEditing.NewRule | extension/src/popup.ts:227-243 | refused exactly when the trimmed value or speed is empty; otherwise a rule with the fresh id, the type and the trimmed inputs |
| RuleEditing.NewRuleIsSaved | extension/src/popup.ts:227-243 | an added rule is already in saved form |
| RuleEditing.RuleEditor.constructor | extension/src/popup.ts:35-45 | empty rule list and inputs |
| RuleEditing.RuleEditor.OnLoaded | extension/src/popup.ts:259-263 | the rules become the stored ones; nothing else changes |
| RuleEditing.RuleEditor.MoveRule | extension/src/popup.ts:170-177 | the rules become `Moved` |
| RuleEditing.RuleEditor.ClickUp | extension/src/popup.ts:199-201 | a move to the previous index; none from the first row |
| RuleEditing.RuleEditor.ClickDown | extension/src/popup.ts:203-205 | a move to the next index; none from the last row |
| RuleEditing.RuleEditor.DeleteRowRule | extension/src/popup.ts:207-209 | the rules become `Deleted` |
| RuleEditing.RuleEditor.EditField | extension/src/popup.ts:212-225 | no field name changes nothing; otherwise the rules become `UpdateRule` |
| RuleEditing.RuleEditor.AddClicked | extension/src/popup.ts:227-248 | a refused add leaves the list and shows the message; otherwise one rule is appended and the inputs cleared |
| RuleEditing.RuleEditor.ApplyAdd | extension/src/popup.ts:230-246 | the same, given the rule built or none |
| RuleEditing.RuleEditor.SaveClicked | extension/src/popup.ts:250-252 | the normalised list is written and its callback awaited after those of earlier saves |
| RuleEditing.RuleEditor.Store | extension/src/popup.ts:252 | the list is stored and queued behind the earlier writes |
| RuleEditing.RuleEditor.OnSaved | extension/src/popup.ts:252-256 | the oldest write still in flight is answered: the editor shows the list it wrote and "Saved" |
| Domains.IsRecognizedHost | extension/dist/popup.js:171-178 | the lower-cased host is a listed domain or ends with "." and one |
| Domains.RecognizedInSpec | extension/dist/popup.js:171-178 | a host is recognised exactly when, lower-cased, it is a listed domain or a subdomain of one |
| Domains.IsHostIn | extension/dist/popup.js:171-178 | the set lookup plus suffix scan as written computes `RecognizedIn` |
| Domains.IsYouTubeHost | extension/dist/popup.js:171-178 | the same on the generated list |
| Domains.SubdomainRecognized | extension/dist/popup.js:174-176 | a subdomain of a recognised host is recognised |
| Domains.OneDotHost | extension/dist/popup.js:171-178 | a one-dot host is recognised only when it or its parent is listed |
| Domains.NotListedUnlessY | extension/dist/popup.js:3-169 | every listed domain starts with "y" |
| Domains.MainDomainListed | extension/dist/popup.js:3-169 | "youtube.com" is listed |
| Domains.BareSuffixExample | extension/dist/popup.js:175 | "evilyoutube.com" is not recognised |
| Domains.ListedRecognized | extension/dist/popup.js:173 | a listed domain, in any case, is recognised |
| Domains.SubdomainOfListed | extension/dist/popup.js:172-176 | "www.youtube.com" and "M.YouTube.com" are recognised whenever "youtube.com" is listed |
| Domains.SubdomainExamples | extension/dist/popup.js:171-178 | the same on the generated list |
| BundledPopup.IsYouTubeUrl | extension/dist/popup.js:195-202 | a non-empty address that parses, with a recognised host (stated by `IsYouTubeUrlCases`) |
| BundledPopup.TabVideoId | extension/dist/popup.js:203-218 | the popup's id reading, as the content script's, and empty for an empty or unparseable address (stated by `TabVideoIdAgrees`) |
| BundledPopup.IsHandle | extension/dist/popup.js:221 | a candidate starting with "@" |
| BundledPopup.IsChannelId | extension/dist/popup.js:223 | `^UC[\w-]{10,}$`: "UC" then at least ten ASCII letters, digits, underscores or dashes |
| BundledPopup.PickChannelCandidate | extension/dist/popup.js:219-226 | the first handle among the trimmed non-empty candidates, else the first channel id, else the first of them, else empty (stated by `PickChannelCandidateSpec` and the lemmas after it) |
| BundledPopup.IsYouTubeUrlCases | extension/dist/popup.js:195-202 | an empty or unparseable address is not YouTube; otherwise its host decides |
| BundledPopup.LookalikeTabExample | extension/dist/popup.js:195-202 | a tab on "evilyoutube.com" is not YouTube |
| BundledPopup.TabVideoIdAgrees | extension/dist/popup.js:203-218 | the popup reads the same id as the content script, and none from an empty or unparseable address |
| BundledPopup.Find | extension/dist/popup.js:221-223 | `find` is absent exactly when nothing satisfies the test, else an element that does |
| BundledPopup.FindFirst | extension/dist/popup.js:221-223 | `find` answers the earliest element that satisfies the test |
| BundledPopup.FindNonEmpty | extension/dist/popup.js:220-223 | dropping empty strings does not change `find` for a test that rejects them |
| BundledPopup.PickFromCleaned | extension/dist/popup.js:221-225 | among non-empty candidates something is picked exactly when there is one, and it is one of them |
| BundledPopup.PickFromSome | extension/dist/popup.js:220-225 | something is picked exactly when a candidate is non-empty |
| BundledPopup.PickFromHandle | extension/dist/popup.js:221-222 | a handle among the candidates means a handle is picked |
| BundledPopup.PickFromChannelId | extension/dist/popup.js:223-224 | without a handle, a channel id means a channel id is picked |
| BundledPopup.NoHandleLeft | extension/dist/popup.js:220 | filtering brings in no handle |
| BundledPopup.NonEmptyIndex | extension/dist/popup.js:220 | a non-empty candidate survives the filter |
| BundledPopup.PickWithoutHandle | extension/dist/popup.js:223-224 | without a handle, a channel id is picked when there is one |
| BundledPopup.PickChannelCandidateSpec | extension/dist/popup.js:219-226 | nothing is picked exactly when every candidate trims to nothing; otherwise a trimmed candidate; a handle when there is one; a channel id when there is one but no handle |
| BundledPopup.PickedIsCandidate | extension/dist/popup.js:219-226 | the emptiness and membership parts of that |
| BundledPopup.PickedHandle | extension/dist/popup.js:221-222 | the handle part |
| BundledPopup.PickedChannelId | extension/dist/popup.js:223-224 | the channel-id part |
| BundledPopup.PickedChannelIdAt | extension/dist/popup.js:223-224 | the channel-id part, with its witness |
| BundledPopup.PickFirstHandle | extension/dist/popup.js:221-222 | the first handle is picked |
| BundledPopup.PickFirstChannelId | extension/dist/popup.js:223-224 | without a handle, the first channel id is picked |
| BundledPopup.HandleBeatsEarlierChannelId | extension/dist/popup.js:221-224 | a handle wins over the channel ids before it |
| BundledPopup.ChannelIdIsNoHandle | extension/dist/popup.js:221-223 | a channel id is not a handle |
| BundledPopup.TargetIndex | extension/dist/popup.js:397-404 | the drop index is at most the number of children |
| BundledPopup.WithoutMembers | extension/dist/popup.js:411-412 | removing the placeholder keeps exactly the other children |
| BundledPopup.TargetIndexBefore | extension/dist/popup.js:399-404 | counting stops at the placeholder, skipping the source row |
| BundledPopup.OtherRenderedRows | extension/dist/popup.js:401-403 | among rendered rows, every row but the source counts |
| BundledPopup.DropIndexAtGap | extension/dist/popup.js:376-409 | with the placeholder at a gap, the dragged row lands there, one less when it came from before |
| BundledPopup.DropInPlace | extension/dist/popup.js:365-409 | a row dropped where it was picked up does not move |
| BundledPopup.SpliceStart | extension/dist/popup.js:345 | `splice` starts at the index, or at 0 for NaN |
| BundledPopup.MoveView | extension/dist/popup.js:278-350 | `moveRule` on the popup's state, including the TypeError `renderRules` raises at an absent entry after appending the rows before it |
| BundledPopup.CleanupView | extension/dist/popup.js:410-421 | `cleanupDrag` on the popup's state |
| BundledPopup.Finalized | extension/dist/popup.js:394-409 | `finalizeDrag` on the popup's state: nothing without a drag; a move when `dragIndex !== toIndex`; the clean-up unless the move threw |
| BundledPopup.WithoutAbsent | extension/dist/popup.js:411-412 | removing an element that is not among the children changes nothing |
| BundledPopup.WithoutConcat | extension/dist/popup.js:411-412 | removing an element from two lists joined is removing it from each |
| BundledPopup.WithoutItself | extension/dist/popup.js:411-412 | the placeholder alone, removed, leaves nothing |
| BundledPopup.WithoutBetween | extension/dist/popup.js:411-412 | the placeholder put between two lists, removed, leaves them joined, each without it |
| BundledPopup.AbsentSlices | extension/dist/popup.js:411-412 | both parts of rows without an element are without it |
| BundledPopup.WithoutPlacedAmong | extension/dist/popup.js:411-412 | removing the placeholder from the rows it was put among gives them back |
| BundledPopup.RenderedLacks | extension/dist/popup.js:278-335 | rendered rows numbered outside a range hold no element of it |
| BundledPopup.WithoutPlacedRendered | extension/dist/popup.js:411-412 | removing the placeholder from rendered rows it was put among gives them back |
| BundledPopup.WithoutFreshRows | extension/dist/popup.js:410-412 | the rows rendered after the placeholder was made do not hold it, so its removal leaves them |
| BundledPopup.DropOnRenderedRows | extension/dist/popup.js:376-421 | a drop over rendered rows moves the dragged rule to the gap, one less when it came from above; a drop where it was leaves rules, rows and timer; a real move renders the list anew and schedules a save; the drag ends either way |
| BundledPopup.DropPastEnd | extension/dist/popup.js:343-350 | a dragged index past the end of a list that shrank during the drag: a drop inside the list leaves the rules around an absent entry at the drop index, only the rows before it, no new save and the drag still recorded; a drop outside only cleans up |
| BundledPopup.DropFromPlaceholder | extension/dist/popup.js:366 | a drag begun on a placeholder (index NaN) always moves: a drop inside the list moves the first rule there and schedules a save |
| BundledPopup.ShortenedDropExample | extension/dist/popup.js:394-409 | a one-rule list, once two rows long, with row 1 dragged to the top: the drop throws, leaving no row and an absent entry at 0 |
| BundledPopup.Popup.constructor | extension/dist/popup.js:431-436 | no rules, no timer, no drag |
| BundledPopup.Popup.Render | extension/dist/popup.js:278-335 | one fresh row per rule, or the hint |
| BundledPopup.Popup.ScheduleSave | extension/dist/popup.js:270-277 | any pending save timer is cleared and one new timer armed |
| BundledPopup.Popup.OnSaveTimer | extension/dist/popup.js:263-276 | the timer is forgotten and the normalised list is written; over a list holding an absent entry `normalizeRules` throws and nothing is written |
| BundledPopup.Popup.OnStoreWritten | extension/dist/popup.js:265-269 | the list becomes what was written, which also replaces a list holding an absent entry, is rendered with fresh rows (the row counter advanced by the list's length), and "Saved" shows |
| BundledPopup.Popup.OnLoaded | extension/dist/popup.js:551-553 | the stored rules, or none, are rendered with fresh rows, the row counter advanced by the list's length |
| BundledPopup.Popup.MoveRule | extension/dist/popup.js:343-350 | the whole new state is `MoveView`: a target outside the list changes nothing; a rule taken out at the splice start is moved, the list rendered, a save scheduled; a start past the end takes nothing out, and rendering stops at the absent entry put in at the target, with no save |
| BundledPopup.Popup.DeleteRow | extension/dist/popup.js:450-459 | the row's rule is deleted, the list rendered, a save scheduled |
| BundledPopup.Popup.EditField | extension/dist/popup.js:482-493 | the field is updated and a save scheduled; no field name changes nothing |
| BundledPopup.Popup.AddClicked | extension/dist/popup.js:494-514 | a refused add shows the message; otherwise append, clear the inputs, render, schedule a save |
| BundledPopup.Popup.ApplyAdd | extension/dist/popup.js:497-513 | the same, given the rule built or none |
| BundledPopup.Popup.AppendRule | extension/dist/popup.js:501-513 | the accepted add |
| BundledPopup.Popup.RefreshActiveTabState | extension/dist/popup.js:246-252 | the editor shows exactly for a YouTube tab |
| BundledPopup.Popup.RefreshQuickAddState | extension/dist/popup.js:437-449 | both buttons are off away from YouTube; otherwise each is on exactly when it has something to add |
| BundledPopup.Popup.QuickAddChannelClicked | extension/dist/popup.js:515-532 | the inputs get a channel rule, or the status says why not |
| BundledPopup.Popup.QuickAddVideoClicked | extension/dist/popup.js:533-550 | the inputs get a video-id rule, or the status says why not |
| BundledPopup.Popup.BeginDrag | extension/dist/popup.js:365-375 | the drag is recorded, with index NaN when the row pressed is a placeholder, and a fresh placeholder inserted before the row |
| BundledPopup.Popup.PointerMove | extension/dist/popup.js:470-473 | the dragging pointer moves the placeholder; any other pointer changes nothing |
| BundledPopup.Popup.DropIndex | extension/dist/popup.js:396-404 | the loop as written computes `TargetIndex` |
| BundledPopup.Popup.CleanupDrag | extension/dist/popup.js:410-421 | the placeholder leaves the list and the drag is forgotten |
| BundledPopup.Popup.FinalizeDrag | extension/dist/popup.js:394-409 | the whole new state is `Finalized` of the old |
| BundledPopup.Popup.DragState | extension/dist/popup.js:431-436 | the rules, rows, timers, drag variables and absent entry as one value |
| BundledPopup.Popup.PointerUp | extension/dist/popup.js:474-477 | the release of the dragging pointer leaves `Finalized` of the old state; any other pointer changes nothing |
| BundledPopup.Popup.PointerCancel | extension/dist/popup.js:478-481 | only the dragging pointer cancels the drag, without moving anything: it runs `cleanupDrag` (lines 410-421), so the whole drag state becomes `CleanupView` of the old one, so the placeholder leaves the list and the drag index, pointer, source row and placeholder are all forgotten; any other pointer changes nothing |
| DomainList.Normalized | bin/update-youtube-domains.js:60-84 | a source line as a domain: trimmed; comments, includes, regexps and keywords dropped; the first word, without its `full:`, `domain:` or `suffix:` prefix, lower-cased and without a leading or trailing dot; none when empty or holding `/` or `*` |
| DomainList.IsAllowedDomain | bin/update-youtube-domains.js:86-114 | `youtu.be` and `yt.be`, or a dotted name starting with "youtube" that is neither under a blocked Google suffix nor one of the blocked names |
| DomainList.NormalizeLine | bin/update-youtube-domains.js:60-84 | the reassignments as written compute `Normalized` |
| DomainList.CleanLine | bin/update-youtube-domains.js:61-69 | trimming, blank and comment lines, the trailing comment, the directives |
| DomainList.DropLinePrefixes | bin/update-youtube-domains.js:71-77 | the first word, then the three prefixes |
| DomainList.StripDotsKeepsChars | bin/update-youtube-domains.js:79 | stripping dots only removes characters |
| DomainList.DropPrefixesKeepsChars | bin/update-youtube-domains.js:75-77 | dropping prefixes only removes characters |
| DomainList.FirstWordHasNoSpace | bin/update-youtube-domains.js:71-73 | the first word has no space |
| DomainList.LowerKeepsShape | bin/update-youtube-domains.js:79 | lower-casing adds no space and leaves all characters lower case |
| DomainList.NormalizedIsBare | bin/update-youtube-domains.js:60-84 | a normalised line is non-empty, lower case, and free of spaces, '/' and '*' |
| DomainList.NormalizedRejects | bin/update-youtube-domains.js:61-62 | blank lines and comment lines are dropped |
| DomainList.StripCommentKeepsPrefix | bin/update-youtube-domains.js:63-66 | cutting a comment keeps a leading word |
| DomainList.DirectiveRejected | bin/update-youtube-domains.js:63-69 | a directive is dropped, even with a comment after it |
| DomainList.NormalizedPlain | bin/update-youtube-domains.js:60-84 | a plain domain, bare or after a prefix, normalises to itself |
| DomainList.NormalizedCommented | bin/update-youtube-domains.js:63-66 | a plain domain with a trailing comment still normalises to itself |
| DomainList.ExactEntryCovered | bin/update-youtube-domains.js:99-111 | every host of the exact block set is already refused by an earlier test |
| DomainList.SuffixCovers | bin/update-youtube-domains.js:95 | a host ending in a blocked suffix is blocked |
| DomainList.BlockedExactRedundant | bin/update-youtube-domains.js:86-114 | the filter is the two short domains plus the dotted "youtube…" domains without a blocked suffix |
| DomainList.AllowedStartsWithY | bin/update-youtube-domains.js:86-114 | a kept domain starts with "y" |
| DomainList.Candidates | bin/update-youtube-domains.js:118-123 | one contribution per line, in order |
| DomainList.Collect | bin/update-youtube-domains.js:117-124 | the collected list is sorted without repeats |
| DomainList.CollectSpec | bin/update-youtube-domains.js:117-124 | it holds exactly the present candidates |
| DomainList.CollectSorted | bin/update-youtube-domains.js:124 | any sorted, duplicate-free list of exactly those candidates is the collected list |
| DomainList.LoadedFrom | bin/update-youtube-domains.js:116-125 | the loaded list is sorted without repeats |
| DomainList.LoadedFromSpec | bin/update-youtube-domains.js:116-125 | it holds exactly the kept domains that some line normalises to |
| DomainList.CandidateOf | bin/update-youtube-domains.js:118-123 | a domain is a candidate exactly when some line normalises to it and the filter keeps it |
| DomainList.LoadedFromShape | bin/update-youtube-domains.js:116-125 | every listed domain is kept by the filter and bare |
| DomainList.LoadDomains | bin/update-youtube-domains.js:116-125 | the function as written computes `LoadedFrom` over the lines |
| DomainList.CollectStep | bin/update-youtube-domains.js:118-123 | one more line adds its candidate when present |
| DomainList.PlainKept | bin/update-youtube-domains.js:119-122 | a kept plain domain on its own line contributes itself |
| DomainList.LoadedFromPlain | bin/update-youtube-domains.js:116-125 | plain domains in order, then one blank line, load as themselves |
| DomainList.ListFileLines | bin/update-youtube-domains.js:129 | the written file splits back into its lines and a final empty line |
| DomainList.ListFileRoundTrip | bin/update-youtube-domains.js:127-130 | reading back the list file gives the same list when its domains are plain |
| DomainList.NormalizedDotted | bin/update-youtube-domains.js:79 | a host name with one trailing dot normalises to the name |
| DomainList.DottedAllowed | bin/update-youtube-domains.js:86-114 | a "youtube…" name with a trailing dot is still kept |
| DomainList.DoubleDotNotStable | bin/update-youtube-domains.js:79 | with two trailing dots only one is stripped, so the written entry re-reads as another domain |
| DomainList.PatternsFrom | bin/update-youtube-domains.js:153-160 | the patterns are sorted without repeats |
| DomainList.PatternsFromSpec | bin/update-youtube-domains.js:153-160 | the patterns are exactly the two of each domain |
| DomainList.PatternsStep | bin/update-youtube-domains.js:155-158 | one more domain adds its two patterns and nothing else |
| DomainList.BuildMatchPatterns | bin/update-youtube-domains.js:153-160 | the loop as written computes `PatternsFrom` |
| VersionBump.IsVersion | bin/bump-version.js:81 | `^\d+\.\d+\.\d+$`: three non-empty digit runs joined by dots |
| VersionBump.ReadmeLines | bin/bump-version.js:26-50 | the README lines with the first "Version: " line replaced, else the line inserted at the first blank line following a line with "Make YouTube play", else at position 2, or at the end of a shorter file |
| VersionBump.ChangelogLines | bin/bump-version.js:63-70 | the changelog lines with the new entry before the first "## " heading, or appended after a blank line when there is none |
| VersionBump.VersionFromParts | bin/bump-version.js:81 | three digit runs joined by dots are a version, and split back into those runs |
| VersionBump.VersionIsParts | bin/bump-version.js:81 | a version is three digit runs joined by dots |
| VersionBump.FirstStarting | bin/bump-version.js:63 | `findIndex` is -1 exactly when no line starts with the prefix, else the first such line |
| VersionBump.FirstStartingAt | bin/bump-version.js:30-36 | the line with none before it is the answer |
| VersionBump.FirstGapIsFirst | bin/bump-version.js:39-45 | the second loop finds a blank line after the tagline exactly when there is one, and then the first |
| VersionBump.UpdateReadme | bin/bump-version.js:21-53 | the function as written computes `ReadmeWritten` |
| VersionBump.EditReadmeLines | bin/bump-version.js:29-50 | the loops and the fallback as written compute `ReadmeLines` |
| VersionBump.ReadmeReplacesFirst | bin/bump-version.js:30-36 | a README with a version line keeps its length; only the first version line changes |
| VersionBump.ReadmeInserts | bin/bump-version.js:38-50 | a README without one gains exactly the version line, the other lines in order |
| VersionBump.ReadmeNamesVersion | bin/bump-version.js:21-53 | afterwards the first version line is the new one |
| VersionBump.ReadmeBumpTwice | bin/bump-version.js:21-53 | bumping twice is bumping once to the later version |
| VersionBump.Heading | bin/bump-version.js:61 | the heading is "## " and the version, plus " - " and the phrase exactly when a non-empty phrase is given |
| VersionBump.UpdateChangelog | bin/bump-version.js:55-73 | the function as written computes `ChangelogWritten` |
| VersionBump.ChangelogFirstHeading | bin/bump-version.js:63-70 | the new entry's heading is the first heading |
| VersionBump.ChangelogKeepsLines | bin/bump-version.js:63-70 | the four entry lines sit at the entry index, and removing them leaves the original lines |
| VersionBump.ChangelogNewestFirst | bin/bump-version.js:55-73 | two bumps leave the newer entry above the older |
| VersionBump.Bump | bin/bump-version.js:80-103 | an invalid version writes nothing; otherwise each existing document is rewritten, with the trimmed phrase, or none when it is empty |

## Left out

- Player APIs and the page bridge. `getPlayerApis` and `api.setPlaybackRate` (extension/src/content.ts:132-158, 212-219) are calls into the page's player, which cannot be seen. `setPlaybackRateInPage`'s `postMessage` is modelled only as the rate appended to `pageRequests`. extension/dist/content.js, extension/page-bridge.js and extension/src/page-bridge.ts are not part of this model.
- Storage. `chrome.storage.sync.get`/`set` are modelled as outstanding reads and writes (`pendingReads`, `writes`) answered by callback methods. A stored `rules` value that is present but falsy and not an array (`data.rules || []`) is not modelled: a read either answers a rule list or leaves the key absent.
- The maintenance scripts' I/O: `fs`, `readline`, `console`, `process.exit`, `fetchText` and its redirects, `writeDomainsTs`, `updateManifest` and the JSON writes of `bump-version.js`. The scripts' functions take and return the file contents. `main`'s exit paths are not modelled: a missing file and an empty list.
- Text.Lower: `toLowerCase` is modelled on ASCII letters only.
- Parsing. `Number()` is a `toNumber` parameter, except on a row's `data-index`, where it is `IndexValue`: the position, or NaN for a placeholder. `new URL` is a `parse` parameter in the popup; in the content scripts it is a parsed `Url` record. The regular expressions are written out as predicates.
- Time. `Date.now` is a `now` parameter. Timers are fields holding due times or ids. `MutationObserver` and `yt-navigate-finish` in the legacy script both reduce to `ScheduleEvaluate`. `showStatus` clearing its message after 1500 ms is not modelled.
- Randomness. `crypto.randomUUID` is a `uuid`/`freshId` parameter.
- Rendering and the DOM: element creation, CSS classes, focus, pointer capture, `isInteractiveTarget`, `setEditorVisible` and the debug bar. A row is an element identity plus its `data-index`. `updatePlaceholder`'s geometry is the position `p` it selects.
- BundledPopup.Popup: after a drop whose `splice` took nothing out, the list holds an absent entry (`hole`) and `renderRules` has thrown at it. The model does not follow the handlers that read or rebuild the list from that state: `Render`, `MoveRule`, `DeleteRow`, `EditField`, `AddClicked`, `ApplyAdd`, `AppendRule`, `FinalizeDrag` and `PointerUp` require `Valid()`, which includes a list without an absent entry. In that state the model does follow the store callback and the initial load, which replace the list, the save timer, whose `normalizeRules` throws, and the drag start, move and cancel.
- Popup duplication. extension/src/popup.ts's `isYouTubeUrl` and `refreshActiveTabState` are the same as the bundled popup's, so they are modelled once, in `BundledPopup`. The unbundled popup saves only on its button; the bundled one uses a debounced timer; each is modelled as written.
- StringOrder: `sort()` compares UTF-16 code units; the model compares characters, which differ only beyond the Basic Multilingual Plane.
- Several operations are split into helper methods so that each stays small, for example `EvaluateReset`, `LoadRules`, `AddNameTexts`, `AddOwnerLinks`, `ApplyToAll`, `TouchVideos` and `StartSync`. Their composition is what the source's function does.
