/** The guarded handlers: `updateRecordRelatedToTab` with its cache-membership
    check, the tab-id gates of `onTabClosed` and `onTabRefreshed`, and the
    filter `subscribe` applies to each platform event it receives. */
module Guards {
  import opened WatcherState

  /** The `updateRecordRelatedToTab` handler, given the responses of its two
      server calls. Both calls are issued for the current `updateRecId`; one watch
      write, sending the component's object name, follows only when the cache
      check succeeded and reported the user absent; a lookup that found a cache entry enqueues `refresh`, one that
      found nothing clears `isWorking`. */
  function UpdateRecordRelatedToTab(st: ControllerState, cfg: Config, check: CacheCheck, lookup: WatcherLookup): (r: Step)
    ensures |r.calls| == 2 + (if check == Checked(false) then 1 else 0) + (if lookup.Watchers? then 1 else 0)
    ensures r.calls[0] == CheckInCache(st.updateRecId) && r.calls[1] == GetWatcher(st.updateRecId)
    ensures Refresh in r.calls <==> lookup.Watchers?
    ensures lookup.NoWatchers? ==> r.state == st.(isWorking := false)
    ensures !lookup.NoWatchers? ==> r.state == st
  {
    var rid := st.updateRecId;
    var write := if check == Checked(false) then [UpdateWatcher(rid, cfg.sObjectName, true)] else [];
    var follow := if lookup.Watchers? then [Refresh] else [];
    var st' := if lookup.NoWatchers? then st.(isWorking := false) else st;
    Step(st', [CheckInCache(rid), GetWatcher(rid)] + write + follow)
  }

  /** The only write `updateRecordRelatedToTab` can issue is a watch mark on
      `updateRecId`, and it issues it exactly when the cache check succeeded and
      said the user is not yet in the cache; a failed check or a present user
      yields no write at all. */
  lemma UpdateRecordWriteIff(st: ControllerState, cfg: Config, check: CacheCheck, lookup: WatcherLookup,
                             rid: Option<Id>, objType: Option<string>, watching: bool)
    ensures UpdateWatcher(rid, objType, watching) in UpdateRecordRelatedToTab(st, cfg, check, lookup).calls
            <==> check == Checked(false) && rid == st.updateRecId && objType == cfg.sObjectName && watching
  {
    var r := UpdateRecordRelatedToTab(st, cfg, check, lookup);
    if check == Checked(false) {
      assert r.calls[2] == UpdateWatcher(st.updateRecId, cfg.sObjectName, true);
    }
  }

  /** The `onTabClosed` handler. Only closing the tab recorded as current has an
      effect: the removal of the watcher entry of `updateRecId` (the last record
      visited, not necessarily the closed tab's) is requested for the current
      user, and then the current user id is cleared. */
  function OnTabClosed(st: ControllerState, closedTabId: Id): (r: Step)
    ensures r.calls != [] <==> st.currentTabId == Some(closedTabId)
    ensures st.currentTabId == Some(closedTabId) ==>
              r.calls == [RemoveWatcher(st.updateRecId, st.currentUserId)] && r.state == st.(currentUserId := None)
    ensures st.currentTabId != Some(closedTabId) ==> r.state == st
  {
    if st.currentTabId == Some(closedTabId) then
      Step(st.(currentUserId := None), [RemoveWatcher(st.updateRecId, st.currentUserId)])
    else
      Step(st, [])
  }

  /** `currentTabId` survives a close, so closing the current tab a second time
      requests the removal of the same record's entry again, but with the user
      id the first close already cleared: the second request names no user. */
  lemma CloseCurrentTabTwice(st: ControllerState, closedTabId: Id)
    requires st.currentTabId == Some(closedTabId)
    ensures var first := OnTabClosed(st, closedTabId);
      var second := OnTabClosed(first.state, closedTabId);
      && first.state.currentUserId == None
      && first.calls + second.calls == [RemoveWatcher(st.updateRecId, st.currentUserId), RemoveWatcher(st.updateRecId, None)]
      && (st.currentUserId.Some? ==> first.calls != second.calls)
      && second.state == first.state
  {
  }

  /** The `onTabRefreshed` handler: it re-runs `updateRecordRelatedToTab` only
      for the tab recorded as current and otherwise does nothing. */
  function OnTabRefreshed(st: ControllerState, cfg: Config, refreshedTabId: Id, check: CacheCheck, lookup: WatcherLookup): (r: Step)
    ensures st.currentTabId == Some(refreshedTabId) ==> r == UpdateRecordRelatedToTab(st, cfg, check, lookup)
    ensures st.currentTabId != Some(refreshedTabId) ==> r.calls == [] && r.state == st
  {
    if st.currentTabId == Some(refreshedTabId) then UpdateRecordRelatedToTab(st, cfg, check, lookup)
    else Step(st, [])
  }

  /** The handler `subscribe` registers for platform events. An event about
      another object clears `isWorking`; an event about this object refreshes
      the watcher list only when it names the current `updateRecId`. No event
      ever causes a write. */
  function OnPushEvent(st: ControllerState, cfg: Config, ev: PushEvent): (r: Step)
    ensures r.calls == [] || r.calls == [Refresh]
    ensures Refresh in r.calls <==> ev.objectName == cfg.sObjectName && ev.recordId == st.updateRecId
    ensures ev.objectName != cfg.sObjectName ==> r.state == st.(isWorking := false)
    ensures ev.objectName == cfg.sObjectName ==> r.state == st
  {
    if ev.objectName == cfg.sObjectName then
      if ev.recordId == st.updateRecId then Step(st, [Refresh]) else Step(st, [])
    else
      Step(st.(isWorking := false), [])
  }

  /** The state effect of a confirmed subscription: the displayed list is kept
      as `oldWorkers`, the list `refresh` compares new lookups with. Nothing
      else changes; the tab walk it enqueues is a separate `getAllTabInfo` run. */
  function OnSubscribed(st: ControllerState): (r: Step)
    ensures r.calls == []
    ensures r.state.oldWorkers == st.workers
    ensures r.state == st.(oldWorkers := r.state.oldWorkers)
  {
    Step(st.(oldWorkers := st.workers), [])
  }
}
