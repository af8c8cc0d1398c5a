# env-switcher, modelled in Dafny

env-switcher is a browser extension for moving between the deployments of one
site (production, staging, development, UAT, QA, custom) and for comparing two
of them side by side. This project models its decision logic as pure Dafny
functions and proves what that logic guarantees. The model covers:

- the environment registry of the management page: add and edit through the
  form, delete, remove a group, list the groups, and bucket entries by group;
- the environment-type ladder and the generated display names;
- the toolbar popups:
  - the grouped popup: current entry, drop-down, switch and compare;
  - the base-url popup and its management page;
  - the fixed production/staging pair;
- the floating widget: current-entry detection, menu candidates, menu
  placement, dragging, opening and closing, and the widget's `generateColor`
  method (a name-to-colour hash that exists on the widget class but that
  nothing calls);
- the comparison pages:
  - the controller that relays scroll payloads between two wrapper frames;
  - the wrapper and proxy documents;
  - the in-frame scroll script;
  - the same-page view, which keeps two wrapped iframes in step with
    `translateY`.

Conventions used throughout:

- `new URL(...)` is a parameter `parse: string -> Option<UrlInfo>`. `None`
  means the constructor throws. Origins, host names, paths, queries and
  fragments are the fields of `UrlInfo`.
- A missing string property is the empty string. Every test the source makes
  on one is a truthiness test or a comparison with a non-empty string.
- A missing message key is `None`.
- Timers are explicit deadlines, and the clock is an integer.
- Pixel values are integers. Mouse coordinates, bounding rectangles, `scrollTop` and wheel deltas are floating-point numbers in a browser. Rounding and fractional pixels are not modelled.
- `toLowerCase` and `toUpperCase` act on ASCII letters. `trim` removes the
  ECMAScript white-space and line-terminator characters.

Modules: `Common` holds sequences, filters, searches and de-duplication.
`JsString` holds string helpers. `Url`, `Environment`, `EnvType`, `Groups`
and `Registry` cover the registry. `Popup`, `BaseUrlPopup` and `StagingPopup`
cover the popups. `Widget` and `WidgetColor` cover the floating widget.
`Messages`, `Relay`, `Wrapper`, `Proxy`, `FrameScroll`, `Protocol` and
`Transform` cover the comparison pages.

## Model

| member | source | states |
|---|---|---|
| EnvType.ClassifyLowered | popup/js/manage.js:495-511 | the ladder always yields one of the six known type names |
| EnvType.KeywordPriority | content-scripts/floating-widget.js:2-17 | the first keyword group present decides the type, in the order staging, production, development, uat, qa. The extra `production` and `development` tests never decide anything |
| EnvType.WidgetType | content-scripts/floating-widget.js:2-17 | a truthy `type` wins. Otherwise the type is a known one, and `custom` when the name is missing as well |
| EnvType.PopupType | popup/js/popup.js:1-24 | a truthy `type` wins. Otherwise a named entry gets a known type and an unnamed one gets `''` |
| EnvType.TypeFromName | popup/js/manage.js:495-511 | always a known type; `custom` for a missing name |
| EnvType.TypeCopiesAgree | popup/js/popup.js:1-24 | the three copies of the ladder agree, except on an entry with neither type nor name (`''` against `custom`) |
| EnvType.TypeFromNameIgnoresCase | popup/js/manage.js:495-511 | classification by name is insensitive to letter case |
| EnvType.BaseName | popup/js/manage.js:2-18 | `uat` and `qa` give `UAT` and `QA`. Any other standard type gets an upper-cased first letter with the rest kept. A custom type takes the host name of its url with one leading `www.` removed, or `Custom` when the url does not parse |
| EnvType.ClassifyStandard | popup/js/manage.js:495-511 | each standard type name is classified as itself |
| EnvType.BaseNameClassifiesBack | popup/js/manage.js:2-18 | the generated name of a standard type is classified back to that type |
| Groups.NormalizeGroup | popup/js/popup.js:34-52 | a missing, null, empty or blank group is `null`. Any other group becomes its trimmed lower-case form, which is non-empty and already normal |
| Groups.NormalizeIdempotent | popup/js/popup.js:34-52 | normalising a normalised group changes nothing |
| Groups.SameGroupReference | popup/js/popup.js:106-167 | `areInSameGroup` on two present entries is exactly the equality of their normalised groups |
| Groups.SameGroupEquivalence | popup/js/popup.js:106-167 | being in the same group is reflexive, symmetric and transitive |
| Groups.SameGroupIgnoresCaseAndSpace | popup/js/popup.js:106-167 | group names that differ only in case and surrounding spaces name one group |
| Groups.GroupedNeverWithUngrouped | popup/js/popup.js:106-167 | a grouped entry and an ungrouped one are never together, in either order |
| JsString.TrimLowerCommute | popup/js/popup.js:34-52 | trimming and lower-casing commute, so the order `normalizeGroup` uses does not matter |
| JsString.Trim | popup/js/manage.js:310-312 | the result is the infix left after the leading spaces. It neither starts nor ends with a space |
| JsString.ReplaceFirst | popup/popup.js:185 | without an occurrence the string is unchanged. Otherwise the first occurrence alone is replaced, and the text around it is kept |
| Registry.DistinctGroups | popup/js/manage.js:185 | the group list has no repetitions and holds exactly the non-empty groups of the entries |
| Registry.DistinctGroupsAppend | popup/js/manage.js:185 | groups are listed in order of first appearance |
| Registry.DeleteGroup | popup/js/manage.js:196-220 | afterwards no entry is in the group. Entries of the group lose only their group, and every other entry is unchanged |
| Registry.DeleteGroupButton | popup/js/manage.js:460-491 | each member of the group keeps every other field and gets the group `''` instead of `null`. Every other entry is unchanged |
| Registry.DeleteGroupIdempotent | popup/js/manage.js:196-220 | deleting a group twice is deleting it once |
| Registry.DeleteGroupListing | popup/js/manage.js:196-220 | after the delete, the group list is the old list without that group, in the same order |
| Registry.DeleteGroupVariantsAgree | popup/js/manage.js:474-479 | the `null` and `''` variants are indistinguishable to the display bucket and to `normalizeGroup` |
| Registry.GroupEnvs | popup/js/manage.js:117-124 | the `reduce` makes one bucket per distinct key, each holding exactly its entries in list order, and every entry's key has a bucket |
| Registry.OneBucketEach | popup/js/manage.js:117-124 | every entry is listed under exactly one heading: its group, or `Ungrouped` |
| Registry.DisplayOrder | popup/js/manage.js:127 | `Object.entries` is a permutation of the buckets. Buckets keyed by an array index come first, in ascending numeric order, and the others follow in creation order |
| Registry.GroupedDisplay | popup/js/manage.js:114-127 | the list stays empty exactly when some entry's key is an `Object.prototype` member name, because `push` then throws. Otherwise the headings are the buckets in `Object.entries` order |
| Registry.DisplayOrderWithoutIndexKeys | popup/js/manage.js:127 | with no numeric group name, the headings keep the order in which their groups first occur |
| Registry.DisplayListsEveryEntry | popup/js/manage.js:117-127 | whenever the list renders, every entry is shown under exactly one heading, its own group's or `Ungrouped` |
| Registry.NumericHeadingFirst | popup/js/manage.js:117-127 | for groups `beta` and then `2`, the heading `2` is shown first |
| Registry.DeleteEnv | popup/js/manage.js:268 | the delete keeps, in order, every entry except those with the given name and url, each as often as before |
| Registry.AddEnvironment | popup/js/manage.js:371-383 | an add is refused exactly when an entry has the same type and url. Otherwise the record is appended and nothing else changes |
| Registry.EditEnvironment | popup/js/manage.js:332-369 | with no entry carrying the original name and url, the edit is refused as missing. When another entry than the first match has the new type and url, it is refused as a duplicate. In every other case the record replaces the first match in place and nothing else changes |
| Registry.Submit | popup/js/manage.js:307-403 | a blank type or url and an unparsable url are refused. A valid form goes to `Store` with the trimmed record. An accepted add appends it, and an accepted edit puts it in place of the first entry with the original name and url |
| Registry.NewRecord | popup/js/manage.js:310-383 | the stored record has the generated name, the type and url as given, and `null` for an empty group |
| Registry.Store | popup/js/manage.js:332-383 | `data-editing` selects the edit branch and its absence the add branch. An accepted edit replaces the first match in place, and an accepted add appends |
| Registry.AddPreservesUnique | popup/js/manage.js:371-383 | adding keeps every type-and-url pair unique |
| Registry.EditPreservesUnique | popup/js/manage.js:332-369 | editing keeps every type-and-url pair unique |
| Registry.SubmitPreservesUnique | popup/js/manage.js:307-403 | every accepted submission keeps every type-and-url pair unique |
| Registry.AddThenDelete | popup/js/manage.js:268 | deleting what was just added gives what deleting it from the old list gives |
| Popup.GetCurrentEnvironment | popup/js/popup.js:55-103 | there is no entry without a parsable tab url. Otherwise the result is the first entry that matches by host name (ignoring `www.`) or by case-insensitive url prefix, and none when no entry matches |
| Popup.SameHostMatches | popup/js/popup.js:55-103 | an entry on the tab's host matches, whatever the path |
| Popup.FirstMatchWins | popup/js/popup.js:55-103 | when some entry matches, the current entry is the first matching one in registry order |
| Popup.Dropdown | popup/js/popup.js:260-307 | the two successive filters of the drop-down are one filter by `IsDropdownEntry` |
| Popup.DropdownContents | popup/js/popup.js:260-307 | the drop-down lists, in registry order, exactly the named group-mates that are named differently and live on another origin |
| Popup.DropdownEntriesAreGroupMates | popup/js/popup.js:260-307 | every listed entry passes `areInSameGroup` with the current one and differs from it in name and origin |
| Popup.UnparsableCurrentEmptiesDropdown | popup/js/popup.js:260-307 | a current entry whose own url does not parse gets an empty drop-down |
| Popup.FindTarget | popup/js/popup.js:490-510 | the lookup returns the first named entry, in registry order, with the selected name in the current group, or nothing when no such entry exists |
| Popup.ListedNameIsFound | popup/js/popup.js:490-510 | every name the drop-down offers is found again by the lookup |
| Popup.SwitchEnvironment | popup/js/popup.js:457-562 | each error happens exactly when it should: nothing selected, no current entry, or no group-mate with that name. Otherwise the browser goes to the url of the first such group-mate |
| Popup.SwitchToListedEntry | popup/js/popup.js:457-562 | picking any drop-down entry and switching goes to the first group-mate carrying its name |
| Popup.EntryTypeIsPopupType | popup/js/popup.js:632-643 | the stored type is the popup's type. The `\|\|` before `getEnvironmentType` is redundant |
| Popup.CompareEnvironments | popup/js/popup.js:564-678 | each error happens exactly when it should: no current entry, nothing selected, or no group-mate with that name and a url. Success stores the current entry and the first group-mate with that name |
| Popup.CompareNeverInvalidUrls | popup/js/popup.js:648-655 | the final url validation can never fire |
| Popup.CompareWithListedEntry | popup/js/popup.js:564-678 | comparing with a drop-down entry succeeds whenever the entry found under its name has a url |
| BaseUrlPopup.DisplayCurrent | popup/popup.js:18-21 | the lookup stops at the first entry that matches the origin or whose base url throws. It finds nothing only when no entry does either |
| BaseUrlPopup.DisplayCurrentWhenAllParse | popup/popup.js:18-21 | with every base url parsable, the lookup never throws and is a plain `find` by origin |
| BaseUrlPopup.Options | popup/popup.js:40-47 | there is one option per entry in order, disabled exactly when the stored base url equals the origin |
| BaseUrlPopup.DisabledOptionIsOnOrigin | popup/popup.js:40-47 | when the stored base url is a bare origin without a trailing slash, the disabled option belongs to an entry on the current origin |
| BaseUrlPopup.CurrentEntryOptionEnabled | popup/popup.js:18-47 | an entry on the current origin whose base url carries a path is shown as the current environment while its option stays enabled |
| BaseUrlPopup.SwitchUrl | popup/popup.js:51-90 | each error happens exactly when it should: an empty selection, an unknown base url, or a tab url that does not parse. The target is the selected base url followed by the tab's path, query and fragment |
| BaseUrlPopup.SwitchToOption | popup/popup.js:36-90 | every non-empty option of the select switches, to its base url followed by the tab's path, query and fragment |
| BaseUrlPopup.CompareLinkOf | popup/popup.js:158-197 | the current entry is the first whose base url prefixes the tab url, and the compared entry is the first with the selected base url. Each error happens exactly when it should. The second url is the selected base, without one trailing slash, followed by the rest of the tab url |
| BaseUrlPopup.CompareTransplantsPath | popup/popup.js:158-197 | comparing carries the page path from the current base to the selected base |
| BaseUrlPopup.AddBaseEnv | popup/manage.js:10-35 | an empty field or an unparsable url is refused. Otherwise the trimmed name and normalised url are appended |
| BaseUrlPopup.AddStripsOneSlash | popup/manage.js:12-13 | exactly one trailing slash is dropped, so a lone `/` is refused as empty |
| BaseUrlPopup.DeleteByBaseUrl | popup/popup.js:146-152 | no remaining entry has the deleted base url |
| BaseUrlPopup.DeleteByBaseUrlContents | popup/manage.js:94 | the delete keeps, in order, exactly the entries with another base url, each as often as before |
| BaseUrlPopup.AddThenDeleteBaseUrl | popup/manage.js:10-35 | deleting a base url right after adding it gives what deleting it from the old list gives |
| BaseUrlPopup.ManageAdd | popup/manage.js:27-28 | an add pushes onto the page's list and stores that list, so the page and storage agree afterwards |
| BaseUrlPopup.ManageDelete | popup/manage.js:92-98 | as written, the stored list lacks the deleted base url, but the page's list is left unchanged |
| BaseUrlPopup.SecondDeleteRestoresFirst | popup/manage.js:92-98 | as written, a second delete puts the first deleted entry back into storage |
| BaseUrlPopup.ManageDeleteFixed | popup/manage.js:92-98 | corrected: the page and storage hold the same list, without the deleted base url |
| BaseUrlPopup.DeletesAccumulate | popup/manage.js:92-98 | corrected: after any sequence of deletes, storage holds exactly the original entries whose base url was never deleted |
| StagingPopup.StagingUrl | js/popup.js:8 | only the first occurrence of the production host is replaced by the staging host. A url without it is unchanged |
| StagingPopup.StagingKeepsPath | js/popup.js:8 | a production url becomes the same page on the staging host |
| StagingPopup.StagingReplacesOnce | js/popup.js:8 | a later mention of the production host, in the path say, is kept |
| StagingPopup.CompareInput | js/popup.js:17-29 | compare is refused exactly when a field is empty. Otherwise both urls are stored as entered |
| StagingPopup.PrefilledFormAccepted | js/popup.js:11-29 | the pre-filled form is accepted exactly when the tab has a url |
| Widget.MatchCurrent | content-scripts/floating-widget.js:126-160 | the result is the first entry that matches by origin, by trailing-slash prefix or by plain prefix when a parse throws, and none when no entry matches |
| Widget.DetectIsMatchOfLowered | content-scripts/floating-widget.js:162-199 | detection is matching against the lower-cased page url, and finds nothing exactly when no entry matches it |
| Widget.FallbackIsPlainPrefix | content-scripts/floating-widget.js:126-160 | for an unparsable entry url, matching is a plain case-insensitive prefix test |
| Widget.SameOriginMatches | content-scripts/floating-widget.js:126-160 | an entry on the page's origin matches, whatever the path |
| Widget.MenuCandidates | content-scripts/floating-widget.js:495-515 | the three successive filters of the menu are one filter by `IsCandidate` |
| Widget.MenuCandidatesContents | content-scripts/floating-widget.js:495-515 | the menu lists, in registry order, exactly the entries with a url, on another origin, and in the current entry's group when it has one |
| Widget.Clamp | content-scripts/floating-widget.js:361-383 | the clamped value lies in `[0, hi]` and equals the input when the input is already in range |
| Widget.ClampIdempotent | content-scripts/floating-widget.js:361-383 | clamping twice is clamping once |
| Widget.Drag | content-scripts/floating-widget.js:361-383 | while dragging, the widget follows the pointer when it can. Past the left or top edge, or in a viewport smaller than the widget, it sits at 0. Past the far edge it sits at that edge. Only the position changes |
| Widget.ToggleMenu | content-scripts/floating-widget.js:418-436 | the toggle is ignored without a menu or during a drag. Otherwise it flips the menu or forces it, and changes nothing else |
| Widget.CloseMenu | content-scripts/floating-widget.js:439-441 | outside a drag the menu ends closed, and nothing else changes |
| Widget.ToggleTwice | content-scripts/floating-widget.js:418-436 | toggling twice restores the widget |
| Widget.CloseIdempotent | content-scripts/floating-widget.js:439-441 | closing twice is closing once |
| Widget.StartDragging | content-scripts/floating-widget.js:336-358 | as written, starting a drag records the pointer offset and leaves the menu's visibility as it was |
| Widget.StartDraggingLeavesMenuOpen | content-scripts/floating-widget.js:336-358 | as written, an open menu is still open once a drag has started |
| Widget.StartDraggingReordered | content-scripts/floating-widget.js:336-358 | with `closeMenu` merely moved before the flag, starting a drag closes an open menu |
| Widget.StopDragging | content-scripts/floating-widget.js:386-391 | ending a drag lowers the flag and changes nothing else |
| Widget.ButtonClick | content-scripts/floating-widget.js:689-691 | a click on the button flips the menu when no drag is in progress, and changes nothing else |
| Widget.ClickToggles | content-scripts/floating-widget.js:336-358 | as written, a press and click on the button toggles the menu, because the drag its `mousedown` starts ends before the `click` |
| Widget.ReorderedClickNeverCloses | content-scripts/floating-widget.js:336-358 | with `closeMenu` moved first, every click on the button leaves the menu open, so that reorder is not a fix |
| Widget.DragFixed | content-scripts/floating-widget.js:361-383 | corrected: the widget moves exactly as `Drag` moves it, and the menu is closed once the pointer moves during a drag |
| Widget.DragClosesMenu | content-scripts/floating-widget.js:336-383 | corrected: a `mousedown` followed by one `mousemove` closes an open menu |
| Widget.MenuPosition | content-scripts/floating-widget.js:290-333 | the menu opens below exactly when it would cross the top margin, and right-aligned exactly when it would cross the right margin |
| Widget.LeftEdgeBlockIsNoOp | content-scripts/floating-widget.js:290-333 | the left-edge adjustment never changes the placement |
| WidgetColor.HashIsPolynomial | content-scripts/floating-widget.js:791-794 | the 32-bit hash loop equals the unbounded polynomial hash (each code unit weighted by a power of 31) reduced to 32 bits once |
| WidgetColor.ComputeHash | content-scripts/floating-widget.js:791-794 | the loop over the code units computes that reduced polynomial hash |
| WidgetColor.HexRoundTrip | content-scripts/floating-widget.js:796 | reading back the upper-case hex digits gives the number |
| WidgetColor.GenerateColor | content-scripts/floating-widget.js:788-798 | the colour is `#` and six hex digits whose value is the low 24 bits of the hash |
| Messages.Classify | comparison/js/wrapper.js:91-104 | both absolute coordinates mean `scrollTo`. Otherwise both deltas mean `scrollBy`. Otherwise nothing happens |
| Messages.Apply | comparison/js/wrapper.js:94-99 | `scrollTo` sets the position, `scrollBy` moves it by exactly the deltas, and no command leaves it |
| Messages.Receive | comparison/js/wrapper.js:91-104 | a payload that is not a `scroll` leaves the position. A `scroll` payload applies its classified command |
| Messages.ReceiveAbsoluteIdempotent | comparison/js/wrapper.js:95-96 | receiving an absolute payload twice lands where receiving it once did |
| Messages.AbsoluteWins | comparison/js/proxy.js:89-93 | a payload with both pairs is absolute, whatever the deltas and the prior position |
| Messages.DeltasCompose | comparison/js/wrapper.js:97-98 | two relative payloads add up |
| Messages.IncompleteIgnored | comparison/js/proxy.js:87-97 | a payload with neither pair complete moves nothing |
| Wrapper.Init | comparison/js/wrapper.js:3-27 | the wrapper starts exactly when its script element, both attributes and its iframe are present |
| Wrapper.Start | comparison/js/wrapper.js:28-61 | a started wrapper keeps its id and position, and its touch ordinate starts at 0 |
| Wrapper.OnScroll | comparison/js/wrapper.js:32-43 | a scroll reports an absolute payload that receivers replay as a `scrollTo` to the wrapper's position |
| Wrapper.OnWheel | comparison/js/wrapper.js:46-58 | a wheel turn reports a relative payload that receivers replay as a `scrollBy` of the deltas |
| Wrapper.OnTouchStart | comparison/js/wrapper.js:62-65 | a touch start records the finger's ordinate and changes nothing else |
| Wrapper.OnTouchMove | comparison/js/wrapper.js:67-81 | a touch move reports only `deltaY`, the distance since the last touch, and moves the ordinate on |
| Wrapper.OnLoad | comparison/js/wrapper.js:85-88 | the iframe's load reports a `loaded` payload with the id, which scrolls nothing |
| Wrapper.OnMessage | comparison/js/wrapper.js:91-104 | a `scroll` payload applies its classified command to the wrapper's position. Any other payload leaves the wrapper unchanged |
| Wrapper.GestureSum | comparison/js/wrapper.js:62-81 | over a gesture the reported deltas add up to the distance from the first ordinate to the last |
| Wrapper.TouchGestureIgnored | comparison/js/wrapper.js:75-79 | as written, a relayed touch gesture does not scroll the other frame at all |
| Wrapper.TouchGestureFixedScrolls | comparison/js/wrapper.js:75-79 | corrected: with `deltaX: 0` supplied, the other frame scrolls vertically by exactly the finger's travel |
| Proxy.ReportsMatchWrapper | comparison/js/proxy.js:51-75 | the proxy's scroll and wheel reports are exactly the wrapper's |
| Proxy.OnError | comparison/js/proxy.js:45-48 | a load error reports an `error` payload that scrolls nothing |
| Proxy.OnLoad | comparison/js/proxy.js:32-42 | a load adds one timer due 100 ms later and changes nothing else |
| Proxy.OnScroll | comparison/js/proxy.js:51-62 | a scroll reports the proxy's position as an absolute payload with no deltas |
| Proxy.OnWheel | comparison/js/proxy.js:64-76 | a wheel turn reports the deltas as a relative payload with no position |
| Proxy.Tick | comparison/js/proxy.js:32-42 | each due `loaded` timer posts one `loaded` payload. The timers still pending are exactly the later ones, kept in order. Fired and pending timers together number the timers there were |
| Proxy.EachLoadReportedOnce | comparison/js/proxy.js:32-42 | at any tick, every timer is either reported once or still pending. Once every deadline has passed, each load is reported exactly once and nothing stays pending. Before any deadline, nothing is reported |
| Proxy.LoadNotReportedEarly | comparison/js/proxy.js:35-38 | a load is not reported before 100 ms have passed |
| Proxy.OnMessage | comparison/js/proxy.js:82-98 | a payload that is not an object, or that is not a `scroll` payload, changes nothing. A `scroll` payload follows the common receiver rule |
| Relay.Broadcast | comparison/js/comparison.js:31-45 | the lock state goes once to each reachable frame, and only to those, `env1` first |
| Relay.ToggleScrollLock | comparison/js/comparison.js:21-29 | the flag flips, nothing else in the controller changes, and the new flag is broadcast |
| Relay.SyncScroll | comparison/js/comparison.js:74-82 | the payload goes unchanged to a reachable target, and nowhere otherwise |
| Relay.HideIndicator | comparison/js/comparison.js:84-90 | only the named container can change: `env1` selects the first, any other id the second. The flag and frames are kept |
| Relay.ToggleTwice | comparison/js/comparison.js:21-29 | two toggles restore the controller, and the second broadcast carries the original flag |
| Relay.HandleMessage | comparison/js/comparison.js:47-72 | payloads without a type, and types other than `loaded` and `scroll`, are ignored. `scroll` leaves the controller unchanged. `loaded` hides an indicator and rebroadcasts only when both frames exist |
| Relay.ScrollRouting | comparison/js/comparison.js:62-82 | while locked, a scroll from one slot goes unchanged to the other slot alone, if that frame is reachable. Unlocked or unknown scrolls go nowhere |
| Relay.LoadedHidesOwnIndicator | comparison/js/comparison.js:84-90 | a `loaded` report hides only its own slot's indicator |
| Relay.LoadEnvironment | comparison/js/comparison.js:100-184 | an empty url does nothing. Otherwise the named slot gets a reachable frame and the other slot keeps its own |
| Relay.InitMissingUrl | comparison/js/comparison.js:186-204 | with a url missing, both containers show the error and no frame is loaded |
| Relay.InitThenLoadedBroadcasts | comparison/js/comparison.js:186-204 | with both urls present, both frames are reachable, so the first `loaded` report rebroadcasts to both |
| Relay.Init | comparison/js/comparison.js:186-204 | a missing url shows the error in both containers. A url that fails to decode stops the loading there. Otherwise `env1` and then `env2` are loaded |
| FrameScroll.NotifyScroll | comparison/js/frame-scroll.js:9-22 | a report goes out exactly when the script is locked, not replaying, and 50 ms past the last report |
| FrameScroll.HandleMessage | comparison/js/frame-scroll.js:30-51 | `scrollLockState` copies `isLocked`. `syncScroll` is replayed only while locked and raises the guard, setting each given coordinate and keeping a missing one. Anything else changes nothing |
| FrameScroll.TimerFired | comparison/js/frame-scroll.js:46-48 | due timers lower the replay guard. The timers still pending are exactly the later ones, kept in order, and nothing else changes |
| FrameScroll.ReplayDoesNotEcho | comparison/js/frame-scroll.js:38-49 | a replayed scroll is not reported back while its guard is up |
| FrameScroll.Run | comparison/js/frame-scroll.js:9-22 | over any run, reports are at least 50 ms apart and `lastScrollTime` is the latest report |
| FrameScroll.UnlockedRunIsSilent | comparison/js/frame-scroll.js:10 | a run that never sets the lock sends no report |
| Protocol.ScrollMirrored | comparison/js/comparison.js:62-82 | while locked, a scroll in the `env1` wrapper is relayed to `env2` alone and puts that wrapper at the same position |
| Protocol.WheelMirrored | comparison/js/comparison.js:62-82 | while locked, a wheel turn in one wrapper moves the other by the same deltas |
| Protocol.LockBroadcastUnlocksFrame | comparison/js/frame-scroll.js:34-36 | the controller's broadcast carries `active`, which the in-frame script ignores, so the script always ends unlocked |
| Protocol.RelayedScrollIgnoredByFrame | comparison/js/frame-scroll.js:33-50 | no `scroll` payload the controller relays changes the in-frame script |
| Protocol.FrameSilentUnderController | comparison/js/frame-scroll.js:9-22 | fed only by the controller, the in-frame script never reports a scroll |
| Protocol.FrameReportIgnoredByWrapper | comparison/js/wrapper.js:91-104 | a report of the in-frame script, relayed, moves no wrapper |
| Transform.HandleWrapperScroll | comparison/comparison.js:281-318 | nothing happens while the guard is up or with the source side incomplete. Otherwise the source frame is shifted, a target more than 1px away is moved onto it, and the guard goes up for 15 ms |
| Transform.TargetWithinTolerance | comparison/comparison.js:305-312 | after a handled scroll with both sides present, the wrappers are within one pixel of each other |
| Transform.EchoAbsorbed | comparison/comparison.js:283-284 | the scroll event caused by moving the other wrapper is absorbed by the guard |
| Transform.HandlerIgnoresLock | comparison/comparison.js:281-318 | the wrapper handler never looks at the lock |
| Transform.TimerFired | comparison/comparison.js:315-317 | due timers lower the guard. The timers still pending are exactly the later ones, kept in order, and nothing else changes |
| Transform.MeasuredHeight | comparison/comparison.js:161-173 | the measured height is at least 1000, at least every metric, and one of them |
| Transform.FrameLoad | comparison/comparison.js:146-190 | an unreadable document gives a 10000 height. A readable one gives the measured height, followed by a sync from that side |
| Transform.HeightMessage | comparison/comparison.js:12-25 | a `loaded` payload with a truthy height for a registered frame sets that frame to the height plus 2000. A frame that is not registered, and anything else, changes nothing |
| Transform.HeightMessageIdempotent | comparison/comparison.js:12-25 | handling the same height report twice gives the state handling it once gives |
| Transform.WheelDelta | comparison/comparison.js:245 | `deltaY` when non-zero, else `detail` when non-zero, else `wheelDelta` |
| Transform.HandleWheel | comparison/comparison.js:238-269 | active only when installed, locked and idle. `env1` and then `env2` scroll by the same amount, a refused `env1` stops both, and the guard goes up for 30 ms |
| Transform.WheelKeepsOffsetDifference | comparison/comparison.js:250-255 | with both frames scriptable, the offset difference of the frames is kept |
| Transform.WrapPane | comparison/comparison.js:70-140 | a side with a container ends wrapped. A fresh wrapper starts at offset 0, and an existing one is kept |
| Transform.ToggleLock | comparison/comparison.js:28-68 | locking registers the frames and then wraps them or installs the wheel fallback. Unlocking only flips the flag |
| Transform.UnlockKeepsWrapperSync | comparison/comparison.js:36-42 | after locking and unlocking, wrapper scrolls are still synchronised |
| Transform.UnlockStopsWheel | comparison/comparison.js:238-241 | after unlocking, the wheel fallback does nothing |
| Transform.StepKeepsGuardInvariant | comparison/comparison.js:281-318 | every event keeps the guard up exactly while one timer is pending |
| Transform.GuardLastsFifteen | comparison/comparison.js:315-317 | the guard raised by a handled wrapper scroll stays up until 15 ms later, and not beyond |

## Left out

- The DOM, styling, alerts, confirmations, `console` output, and the extension storage and tabs APIs. Each handler is modelled from the values it reads to the values it writes or the navigation it requests.
- `new URL` and `decodeURIComponent` are parameters. Their parsing rules are not modelled.
- Widget.DetectEnvironment: it has no contract of its own. `Widget.DetectIsMatchOfLowered` states what it computes.
- Widget.StartDragging: the event-target tests before the drag starts (the widget itself, not the menu, not the close button) are not modelled. The model starts from a qualifying `mousedown`.
- The widget's mutation observer, visibility toggling, environment-item rendering and the listener wiring are DOM work without decisions beyond those modelled.
- Registry.GroupEnvs: it models the `reduce` alone, with buckets in creation order, and does not throw on a prototype key. The rendering order and the throw are stated by `Registry.GroupedDisplay`.
- `saveEnvironment` in popup/js/manage.js is not modelled. The form's submit handler is the only add and edit path.
- The add-group button of popup/js/manage.js and the set-domain buttons are not modelled. They fill form fields from the active tab.
- js/comparison.js, the older comparison page, is not part of this model.
- Null entries in the stored environments array are not modelled. They arise only from corrupt storage.
- Transform.HandleWheel: the wheel amount is an integer parameter. The `1.5` factor and floating-point scrolling are not modelled.
- Widget.Drag: the pointer coordinates and the widget rectangle are integers, not the browser's floating-point values.
- Widget.MenuPosition: the rectangle and window sizes are integers, not the browser's floating-point values.
- Transform.HandleWrapperScroll: `scrollTop` is an integer, not the browser's floating-point value.
- Transform.HandleWrapperScroll: browsers clamp `scrollTop` to the scrollable extent, which the model does not do.
- Messages.Apply: `scrollTo` and `scrollBy` act on an unbounded page. Browsers clamp window scrolling to the scrollable extent, so Messages.DeltasCompose, Protocol.WheelMirrored and Wrapper.TouchGestureFixedScrolls hold only away from the page edges.
- Turning the lock off in comparison/comparison.js calls a `removeScrollSync` that is not defined. That call throws, and the model keeps only its effect: nothing is removed.
- The in-frame probe of comparison/comparison.js, which reads `contentDocument`, is a parameter. Across origins it yields `null` rather than throwing, and the model does not decide which.
- `this.iframes[frameId]` is keyed by arbitrary strings. Object-prototype keys such as `constructor` are not modelled; only `env1` and `env2` name frames.
- Proxy: the start-up checks of comparison/js/proxy.js (lines 3-26) are the wrapper's and are modelled once, in `Wrapper.Init`.
- Relay.LoadEnvironment: the `catch` branch, taken when creating the wrapper document throws, is not modelled. Nothing in the modelled state can make it throw.
- The wrapper's and the proxy's `lastScrollPosition` and timing logs only feed `console` output.
- Wheel listeners of comparison/comparison.js accumulate on each re-lock. Duplicates are not modelled: they act identically, and the guard absorbs the copies.

## Findings

| source | as written | input that shows it | evidently intended | confidence | as-written member | corrected member |
|---|---|---|---|---|---|---|
| content-scripts/floating-widget.js:336-358 | `isDragging` is set before `closeMenu()`, and `toggleMenu` returns early while dragging | an open menu and a `mousedown` on the widget: the menu stays open during the drag | the menu closes once the pointer moves during a drag. Moving `closeMenu()` first is not enough: every button click begins with that `mousedown`, so the click would always reopen the menu (Widget.ReorderedClickNeverCloses) | high; not executed | Widget.StartDraggingLeavesMenuOpen | Widget.DragFixed |
| comparison/js/wrapper.js:75-79 | the `touchmove` payload carries `deltaY` but no `deltaX`, and every receiver needs both deltas | any touch gesture in one wrapper while locked: the other frame does not move | touch scrolling is mirrored like wheel scrolling | high; not executed | Wrapper.TouchGestureIgnored | Wrapper.TouchGestureFixedScrolls |
| popup/manage.js:92-96 | the delete handler filters the page's `environments` list, which it never updates, and stores the result | entries A and B; delete A, then B: storage holds A again | deletes accumulate: storage loses each deleted entry and the page shows what is stored | high; not executed | BaseUrlPopup.SecondDeleteRestoresFirst | BaseUrlPopup.DeletesAccumulate |
