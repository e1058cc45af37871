# RecordWatcher presence controller — a Dafny model

RecordWatcher is a Salesforce Lightning component. It shows which other users
are viewing the same record, and it marks the current user as watching the
record in the focused console tab. The marks live in an org cache.

The component's controller mostly calls the platform. Under those calls it
follows a few fixed decision rules. This project states those rules as pure
functions and proves properties of them.

- The controller's attributes form the record `ControllerState`. Its fields are
  `updateRecId`, `currentTabId`, `currentUserId`, `workers`, `oldWorkers`,
  `isWorking` and `workersCount`.
- Each handler is a function `(state, responses) -> Step(state', calls)`.
- `calls` lists, in issue order, the server calls the handler makes:
  `UpdateWatcher`, `GetWatcher`, `CheckInCache`, `RemoveWatcher` and
  `FetchUsers`. It also lists `Refresh`, which re-enters the `refresh` handler.
- Every platform response is an input to the handler, except the responses to
  `getAllTabInfo`'s lookups. That covers server-call results, workspace tab
  queries and platform events.

Files:

- `state.dfy` (`WatcherState`): the tab tree, users, responses, outgoing calls
  and the state record.
- `tabs.dfy` (`TabTraversal`): the `getAllTabInfo` walk and the `onTabFocused`
  write plan.
- `guards.dfy` (`Guards`): `updateRecordRelatedToTab`, the tab-id gates of
  `onTabClosed` and `onTabRefreshed`, the platform-event filter of `subscribe`,
  and the `oldWorkers` snapshot taken on subscription.
- `projection.dfy` (`Projection`): `refresh`. It decides when to look users up,
  drops the current user and annotates the others with their activity.
- `controller.dfy` (`Controller`): dispatches events to handlers. It also
  states which handler owns which attribute and a display invariant that every
  handler preserves.

The only trace of other intended behaviour in the code is four commented-out checks
in `onTabFocused` (RecordWatcherController.js:264, 294, 319 and 346). They would
have skipped each write depending on whether the current user has an entry in
the fetched activity map (`workersMap[userId]`). With them commented out, the
model follows the code as it runs:

- Once the lookup returns a cache entry, every top-level tab and every
  subtab of an unfocused tab gets a write, whatever the activity map says.
  Nothing deduplicates writes.
- `updateRecId` is overwritten by every subtab visited, focused or not.
- A focused tab's subtabs are ignored.
- `refresh` reads the page's `recordId` attribute, not `updateRecId`.
- `getAllTabInfo` stores the current user id before it looks at the tab list.
  So an empty or `null` list still changes that one attribute.
- `refresh` compares the lookup's raw users with `oldWorkers`, which holds
  annotated entries. That guard therefore never holds an update back
  (`Controller.RefreshAlwaysReplaces`).
- When the current user is in the activity map, the user lookup runs on every
  `refresh`, as long as the displayed list was built under the same
  `currentUserId` (`Projection.RefreshRelooksUpWhileSelfWatches`). After
  `onTabClosed` clears the id, `refresh` shows the current user in their own
  list, and once the id is set again the lookup stops
  (`Controller.ClearedUserSettlesOnOwnEntry`).

JavaScript `null`/`undefined` values and loose `==` on ids and on the object
name become `Option` and equality. A `null` list is the empty sequence. Comparing two values'
`JSON.stringify` text becomes structural equality. For that, a user returned
by the lookup (`status == None`) is kept distinct from a displayed, annotated
entry (`status == Some(..)`). A `null` answer to the cache check counts as
`Checked(false)`, because `!null` holds in JavaScript.

## Model

| member | source | states |
|---|---|---|
| TabTraversal.GetAllTabInfo | force-app/main/default/aura/RecordWatcher/RecordWatcherController.js:47-116 | The current user id is always stored. A failed tab query issues nothing and clears `isWorking`. A `null` or empty tab list issues nothing and changes nothing else. A tab list leaves `isWorking` and the worker attributes alone. |
| TabTraversal.GetAllTabInfoWalk | force-app/main/default/aura/RecordWatcher/RecordWatcherController.js:54-109 | For a tab list, every call is a `GetWatcher`. Their number is one per focused tab plus one per focused subtab of an unfocused tab. A lookup for a record is issued iff it is the record of a focused tab or of a focused subtab of an unfocused tab. `currentTabId` becomes the last focused top-level tab's id. `updateRecId` becomes the record of the last place visited. Only these two fields and the user id change. |
| TabTraversal.WalkTabs | force-app/main/default/aura/RecordWatcher/RecordWatcherController.js:55-109 | The walk only issues lookups. Their count is the per-tab sum of lookups. It changes only `updateRecId` and `currentTabId`. |
| TabTraversal.VisitTab | force-app/main/default/aura/RecordWatcher/RecordWatcherController.js:58-108 | One tab changes only `updateRecId` and `currentTabId` and issues only lookups: one if it is focused, else one per focused subtab. |
| TabTraversal.VisitSubtabs | force-app/main/default/aura/RecordWatcher/RecordWatcherController.js:83-107 | The subtabs of an unfocused tab issue one lookup per focused subtab. They change only `updateRecId`. |
| TabTraversal.WalkTabsAppend | force-app/main/default/aura/RecordWatcher/RecordWatcherController.js:55-109 | The walk handles tabs one at a time in list order. Walking `a + b` equals walking `a`, then walking `b` from the resulting state, with the calls concatenated. |
| TabTraversal.VisitSubtabsRecord | force-app/main/default/aura/RecordWatcher/RecordWatcherController.js:85-87 | After the subtabs are visited, `updateRecId` is the last subtab's record, whether or not that subtab is focused. |
| TabTraversal.WalkCurrentTab | force-app/main/default/aura/RecordWatcher/RecordWatcherController.js:59-61 | `currentTabId` ends as the id of the last focused top-level tab, found by searching from the end. Subtabs never set it. If no tab is focused it is unchanged. |
| TabTraversal.WalkUpdateRecId | force-app/main/default/aura/RecordWatcher/RecordWatcherController.js:58-87 | `updateRecId` ends as the record of the last focused tab or last visited subtab, found by searching from the end. If nothing was visited it is unchanged. |
| TabTraversal.VisitSubtabsLookup | force-app/main/default/aura/RecordWatcher/RecordWatcherController.js:88-105 | The subtab pass looks a record up iff a focused subtab shows that record. |
| TabTraversal.WalkLookup | force-app/main/default/aura/RecordWatcher/RecordWatcherController.js:59-107 | The walk looks a record up iff that record is on a focused tab, or on a focused subtab of an unfocused tab. Subtabs of focused tabs are never examined. |
| TabTraversal.UnfocusedSubtabOverwritesUpdateRecId | force-app/main/default/aura/RecordWatcher/RecordWatcherController.js:85-88 | Example: in a tab with subtabs [B focused, C unfocused], only B is looked up, but `updateRecId` ends as C. |
| TabTraversal.OnTabFocused | force-app/main/default/aura/RecordWatcher/RecordWatcherController.js:234-381 | The lookup of the current `updateRecId` is always issued first. Writes follow only when that lookup returned a cache entry, and they are then exactly the tab-tree write plan. A lookup that found nothing clears `isWorking` and changes nothing else. Any other outcome leaves the state unchanged. |
| TabTraversal.FocusWrites | force-app/main/default/aura/RecordWatcher/RecordWatcherController.js:260-372 | The write plan of the tab loop. `FocusWritesOnlyWrites`, `FocusWritesLength`, `FocusWritesSplit`, `TabWriteInPlan` and `SubtabWriteInPlan` characterise it. |
| TabTraversal.FocusWritesOnlyWrites | force-app/main/default/aura/RecordWatcher/RecordWatcherController.js:260-372 | Every call of the write plan is an `UpdateWatcher`. |
| TabTraversal.SubtabWrites | force-app/main/default/aura/RecordWatcher/RecordWatcherController.js:289-344 | The writes for the subtabs of an unfocused tab. `SubtabWritesOnlyWrites`, `SubtabWritesLength` and `SubtabWritesAt` characterise it. |
| TabTraversal.SubtabWritesOnlyWrites | force-app/main/default/aura/RecordWatcher/RecordWatcherController.js:289-344 | Every call for the subtabs of an unfocused tab is an `UpdateWatcher`. |
| TabTraversal.TabWrites | force-app/main/default/aura/RecordWatcher/RecordWatcherController.js:262-371 | The body of the tab loop for one tab. `TabWritesAt`, `TabWriteInPlan` and `SubtabWriteInPlan` characterise it. |
| TabTraversal.TabWritesAt | force-app/main/default/aura/RecordWatcher/RecordWatcherController.js:262-343 | For an unfocused tab, the write after the tab's own write and j subtab writes is subtab j's `UpdateWatcher(recordId, None, focused)`. |
| TabTraversal.FocusWritesLength | force-app/main/default/aura/RecordWatcher/RecordWatcherController.js:260-372 | The number of writes is the sum over tabs of 1, plus the subtab count for each unfocused tab. |
| TabTraversal.FocusWritesSplit | force-app/main/default/aura/RecordWatcher/RecordWatcherController.js:260-372 | The write plan is the plan of the tabs before tab i, then tab i's own writes, then the plan of the tabs after it. The first part has as many writes as those tabs contribute. |
| TabTraversal.TabWriteInPlan | force-app/main/default/aura/RecordWatcher/RecordWatcherController.js:260-371 | Tab i's own write sits at the offset set by the tabs before it. It is `UpdateWatcher(tab.recordId, None, tab.focused)`: unwatch in the unfocused branch, watch in the focused one. |
| TabTraversal.SubtabWriteInPlan | force-app/main/default/aura/RecordWatcher/RecordWatcherController.js:289-343 | Subtab j of an unfocused tab i is written right after the tab's own write and its j predecessors, with `isWatching` equal to the subtab's focus flag. |
| TabTraversal.SubtabWritesAt | force-app/main/default/aura/RecordWatcher/RecordWatcherController.js:291-343 | Subtab j's write is `UpdateWatcher(subtab.recordId, None, subtab.focused)`. |
| TabTraversal.FocusWritesAppend | force-app/main/default/aura/RecordWatcher/RecordWatcherController.js:260 | The write plan follows tab order. The plan for `a + b` is the plan for `a` followed by the plan for `b`. |
| TabTraversal.FocusedSubtabScenario | force-app/main/default/aura/RecordWatcher/RecordWatcherController.js:81-107 | Example: one unfocused tab on A with one focused subtab on B. The walk looks up only B, and `updateRecId` ends as B. `onTabFocused` writes unwatch A, then watch B. |
| Guards.UpdateRecordRelatedToTab | force-app/main/default/aura/RecordWatcher/RecordWatcherController.js:118-190 | The cache check and the lookup for `updateRecId` are always issued. Besides them there is at most one write (only after a check that reported the user absent) and at most one `Refresh`; the call count is exactly that. `Refresh` is issued iff the lookup returned a cache entry. A lookup that found nothing clears `isWorking`. No other attribute changes. |
| Guards.UpdateRecordWriteIff | force-app/main/default/aura/RecordWatcher/RecordWatcherController.js:130-165 | A write is issued iff the cache check succeeded and reported the user absent. It is then a watch mark on `updateRecId` sending the component's `sObjectName` as object type, unlike `onTabFocused`'s writes, which send none. A failed check or a present user yields no write. |
| Guards.OnTabClosed | force-app/main/default/aura/RecordWatcher/RecordWatcherController.js:196-224 | Calls are issued iff the closed tab is `currentTabId`. They are then one `RemoveWatcher(updateRecId, currentUserId)`, with the user id read before it is cleared, and only `currentUserId` is cleared. Any other tab changes nothing. |
| Guards.CloseCurrentTabTwice | force-app/main/default/aura/RecordWatcher/RecordWatcherController.js:199-221 | `currentTabId` is not cleared on close. The first close requests `RemoveWatcher(updateRecId, currentUserId)` and clears `currentUserId`. A second close of the same tab therefore requests removal of the same record with no user id, which differs from the first request whenever there was a user. It leaves the state as the first close did. |
| Guards.OnTabRefreshed | force-app/main/default/aura/RecordWatcher/RecordWatcherController.js:226-232 | Refreshing the tab recorded as current behaves exactly like `updateRecordRelatedToTab`. Refreshing any other tab issues nothing and changes nothing. |
| Guards.OnPushEvent | force-app/main/default/aura/RecordWatcher/RecordWatcherController.js:508-523 | `Refresh` is issued iff the event's object name equals `sObjectName` (both may be absent, as loose `==` on `undefined` allows) and its record id equals `updateRecId`. Nothing else is ever issued. An object mismatch clears `isWorking`. A matching object with another record changes nothing. |
| Guards.OnSubscribed | force-app/main/default/aura/RecordWatcher/RecordWatcherController.js:543 | A confirmed subscription copies `workers` into `oldWorkers` and changes nothing else. |
| Projection.IsActive | force-app/main/default/aura/RecordWatcher/RecordWatcherController.js:470 | The lookup `workersMap[w.Id]`. `IsActiveMissing` and `IsActiveFound` characterise it: a missing key reads as inactive, and a present one as its map value. |
| Projection.IsActiveMissing | force-app/main/default/aura/RecordWatcher/RecordWatcherController.js:470 | A user missing from the activity map counts as inactive. |
| Projection.IsActiveFound | force-app/main/default/aura/RecordWatcher/RecordWatcherController.js:470 | A user in the activity map is active exactly as its map value says. |
| Projection.ExceptUser | force-app/main/default/aura/RecordWatcher/RecordWatcherController.js:431-437 | The filtered list never contains the current user and is no longer than the lookup's list. |
| Projection.ExceptUserMember | force-app/main/default/aura/RecordWatcher/RecordWatcherController.js:431-437 | A user is kept iff it came from the lookup and is not the current user. |
| Projection.ExceptUserAppend | force-app/main/default/aura/RecordWatcher/RecordWatcherController.js:432-437 | Filtering keeps lookup order: it distributes over concatenation. |
| Projection.Annotate | force-app/main/default/aura/RecordWatcher/RecordWatcherController.js:468-474 | An annotated user keeps its id and photo. `isActive` is the map value, with a missing key meaning inactive. The name is the original name followed by ' - Active' or ' - Inactive', and nothing more: its length is the original's plus the suffix's. The CSS is the dimmed style exactly when the user is inactive. |
| Projection.Project | force-app/main/default/aura/RecordWatcher/RecordWatcherController.js:466-476 | The displayed list built from a user lookup. `ProjectAppend`, `ProjectSingle`, `ProjectShown`, `ProjectIncludes` and `ProjectOnlyFrom` characterise it. |
| Projection.ProjectAppend | force-app/main/default/aura/RecordWatcher/RecordWatcherController.js:431-476 | The displayed list keeps lookup order: projecting `a + b` equals projecting `a` followed by projecting `b`. |
| Projection.ProjectSingle | force-app/main/default/aura/RecordWatcher/RecordWatcherController.js:433-473 | One user projects to its annotation, or to nothing if it is the current user. |
| Projection.ProjectShown | force-app/main/default/aura/RecordWatcher/RecordWatcherController.js:431-476 | Every displayed entry is not the current user, is annotated with the dimmed style exactly when inactive and the matching name suffix, and has `isActive` equal to its activity-map value. |
| Projection.ProjectIncludes | force-app/main/default/aura/RecordWatcher/RecordWatcherController.js:431-476 | Every user of the lookup other than the current user is displayed, annotated. |
| Projection.ProjectOnlyFrom | force-app/main/default/aura/RecordWatcher/RecordWatcherController.js:431-476 | Every displayed entry is the annotation of a user of the lookup other than the current user. |
| Projection.RefreshWorkers | force-app/main/default/aura/RecordWatcher/RecordWatcherController.js:383-499 | The lookup for the page record is always issued, and at most one user lookup follows. `FetchUsers(keys)` is issued iff the displayed list is empty or its ids differ from the map's keys, order included. `workers` and `workersCount` are replaced only when the filtered list is non-empty and differs from `oldWorkers`. The new `workers` is the projection and `workersCount` its length. Once the fetch answers with users, `isWorking` holds iff the filtered list is non-empty. A lookup that found nothing clears `isWorking`. |
| Projection.ApplyFetch | force-app/main/default/aura/RecordWatcher/RecordWatcherController.js:425-492 | The `fetchUser` callback. `RefreshWorkers`' clauses under `FetchApplies` characterise it: `isWorking` holds iff the filtered list is non-empty, and the list and count are replaced only when that list is non-empty and differs from `oldWorkers`. A failed or empty answer changes nothing. |
| Projection.NeedsLookup | force-app/main/default/aura/RecordWatcher/RecordWatcherController.js:406-423 | The gate before `fetchUser`. `LookupIsOrderSensitive` and `SelfInMapForcesLookup` characterise it, and `RefreshWorkers` issues the user lookup iff it holds. |
| Projection.LookupIsOrderSensitive | force-app/main/default/aura/RecordWatcher/RecordWatcherController.js:410 | The same ids in another order trigger a new user lookup. |
| Projection.SelfInMapForcesLookup | force-app/main/default/aura/RecordWatcher/RecordWatcherController.js:405-423 | When the current user is in the activity map and the displayed list leaves them out, the user lookup runs. |
| Projection.RefreshRelooksUpWhileSelfWatches | force-app/main/default/aura/RecordWatcher/RecordWatcherController.js:401-480 | After `refresh` has displayed a list built under the current user id, a second `refresh` against the same map, under the same id, still issues the user lookup while the current user is in the map. |
| Projection.RawUsersNeverMatchShownList | force-app/main/default/aura/RecordWatcher/RecordWatcherController.js:439 | A non-empty list of raw lookup users never equals a list of annotated entries. |
| Controller.InitialInv | force-app/main/default/aura/RecordWatcher/RecordWatcherController.js:480 | The initial attributes (the assumed markup defaults: no ids, empty lists, count 0, not working) satisfy the display invariant that the count update at this line maintains. |
| Controller.HandlePreservesInv | force-app/main/default/aura/RecordWatcher/RecordWatcherController.js:466-480 | Every handler preserves the display invariant. The invariant says `workersCount == \|workers\|`, and every entry of `workers` and `oldWorkers` is annotated with matching CSS and name suffix. |
| Controller.RunPreservesInv | force-app/main/default/aura/RecordWatcher/RecordWatcherController.js:466-480 | Every sequence of handler runs preserves the display invariant. |
| Controller.HandleFrame | force-app/main/default/aura/RecordWatcher/RecordWatcherController.js:47-547 | Only `getAllTabInfo` changes `currentTabId` and `updateRecId`. Only it and `onTabClosed` change `currentUserId`. Only `refresh` changes `workers`/`workersCount`. Only a confirmed subscription changes `oldWorkers`, and then to `workers`. |
| Controller.HandleWriters | force-app/main/default/aura/RecordWatcher/RecordWatcherController.js:118-381 | Watch/unwatch writes come only from `onTabFocused`, `updateRecordRelatedToTab` and `onTabRefreshed`. Removals come only from `onTabClosed`. |
| Controller.RunKeepsCurrentTab | force-app/main/default/aura/RecordWatcher/RecordWatcherController.js:60-87 | A session without `getAllTabInfo` keeps `currentTabId` and `updateRecId` unchanged. |
| Controller.RefreshAlwaysReplaces | force-app/main/default/aura/RecordWatcher/RecordWatcherController.js:438-483 | Under the invariant, a user lookup that returns at least one other user always replaces the displayed list with its projection and sets `isWorking`. |
| Controller.ClearedUserSettlesOnOwnEntry | force-app/main/default/aura/RecordWatcher/RecordWatcherController.js:196-224 | Example: after `onTabClosed` clears the user id, `refresh` filters nobody out and displays the current user in their own list. Once `getAllTabInfo` sets the id again, the next `refresh` against the same map issues no user lookup and changes nothing. |

## Left out

- `doInit`: the cache-partition check, toast and error attributes are platform I/O and UI (RecordWatcherController.js:2-45). On a successful check `doInit` also sets `currentUserId` to the logged-in user (lines 11-12) and enqueues `subscribe` (lines 15-16). Neither effect is a modelled handler: a session may start from any state, the subscription's own effects are the `Pushed` and `Subscribed` events, and `Controller.HandleFrame`'s claim about who changes `currentUserId` is about the modelled handlers only.
- `subscribe`/`unsubscribe` lifecycle: the empApi channel handling, the `onError` listener, the `subscription` attribute and the 5-second `setInterval` timer are left out as transport and timer plumbing. The same goes for the timer's `clearInterval` in `onTabClosed`'s callback. Only the event filter (`Guards.OnPushEvent`) and the `oldWorkers` snapshot (`Guards.OnSubscribed`) are modelled.
- Callback ordering and races: each server call is an emitted call, and its response is an input to the same handler, except for `getAllTabInfo`'s lookups. When both callbacks of `updateRecordRelatedToTab` fire, the model orders the cache check's effects before the lookup's. The re-entry into `updateRecordRelatedToTab` that a successful lookup in `getAllTabInfo` enqueues is a separate `RelatedToTab` event, not an emitted call. The same holds for the `getAllTabInfo` run enqueued on subscription.
- Workspace API queries (`getAllTabInfo()` inside `getAllTabInfo` and `onTabFocused`) are inputs, not calls. A failed second query in `onTabFocused` is passed as the empty tab list, which writes nothing.
- TabTraversal.OnTabFocused: the `currentTabId` event parameter is only logged by the code, and the `userIdActivityMap` of the lookup is never consulted because its checks are commented out. Neither is modelled.
- Call parameters that are fixed per call kind are not carried. The user id of the writes and of the cache check is always `currentUserId`; only `RemoveWatcher` carries it, because `onTabClosed` clears it right after. `getRecordWatcher` takes no user id, and `fetchUser`'s `userId` parameter is the id list `FetchUsers` carries. The object API name of the lookups, the cache check and the removal is always `sObjectName`, and `keyParam` is always `null`. The object type of a write does vary, and `UpdateWatcher` carries it: `onTabFocused` sends `null`, and `updateRecordRelatedToTab` sends `sObjectName`.
- `Initial()`: the attribute defaults live in the component markup, which is not part of this model. The model assumes no ids, empty worker lists, a count of 0 and `isWorking` false.
- `isTesting` fixture list: the model takes `isTesting` to be false. Also left out as UI only: `showMoreWatchers`, `hideMoreWatchers`, `openUserDetail` and `handleDestroy`.
- `openedTabs` attribute: a JSON string written for display only.
- recordWatchersModal.js: it only dispatches DOM events and has no logic.
- Console logging is omitted.
