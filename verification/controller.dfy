/** The controller as a whole: every handler invocation, with the responses it
    receives, is one event; a session is a sequence of events. This module
    states what holds across handlers: which handler may change which attribute,
    which handlers may write watcher entries, and the display invariant of the
    worker list that every handler preserves. */
module Controller {
  import opened WatcherState
  import TabTraversal
  import Guards
  import Projection

  /** One handler invocation together with the responses of the calls it makes. */
  datatype Event =
    | TabInfo(userId: Id, query: TabQuery)                                   // getAllTabInfo
    | RelatedToTab(check: CacheCheck, lookup: WatcherLookup)                 // updateRecordRelatedToTab
    | TabClosed(tabId: Id)                                                   // onTabClosed
    | TabRefreshed(tabId: Id, check: CacheCheck, lookup: WatcherLookup)      // onTabRefreshed
    | TabFocused(lookup: WatcherLookup, tabs: seq<Tab>)                      // onTabFocused
    | RefreshList(lookup: WatcherLookup, fetch: UserFetch)                   // refresh
    | Pushed(ev: PushEvent)                                                  // subscribe's event handler
    | Subscribed                                                             // subscribe's confirmation

  function Handle(st: ControllerState, cfg: Config, e: Event): Step
  {
    match e
    case TabInfo(userId, query) => TabTraversal.GetAllTabInfo(st, userId, query)
    case RelatedToTab(check, lookup) => Guards.UpdateRecordRelatedToTab(st, cfg, check, lookup)
    case TabClosed(tabId) => Guards.OnTabClosed(st, tabId)
    case TabRefreshed(tabId, check, lookup) => Guards.OnTabRefreshed(st, cfg, tabId, check, lookup)
    case TabFocused(lookup, tabs) => TabTraversal.OnTabFocused(st, lookup, tabs)
    case RefreshList(lookup, fetch) => Projection.RefreshWorkers(st, cfg, lookup, fetch)
    case Pushed(ev) => Guards.OnPushEvent(st, cfg, ev)
    case Subscribed => Guards.OnSubscribed(st)
  }

  /** A session: the events handled one after another, their calls in order. */
  function Run(st: ControllerState, cfg: Config, es: seq<Event>): Step
    decreases |es|
  {
    if es == [] then Step(st, [])
    else
      var first := Handle(st, cfg, es[0]);
      var rest := Run(first.state, cfg, es[1..]);
      Step(rest.state, first.calls + rest.calls)
  }

  /** The worker list as displayed: its count attribute matches it, and it and
      the snapshot kept in `oldWorkers` hold only annotated entries. */
  predicate Inv(st: ControllerState)
  {
    && st.workersCount == |st.workers|
    && (forall k :: 0 <= k < |st.workers| ==> Projection.Shown(st.workers[k]))
    && (forall k :: 0 <= k < |st.oldWorkers| ==> Projection.Shown(st.oldWorkers[k]))
  }

  lemma InitialInv()
    ensures Inv(Initial())
  {
  }

  /** Every handler preserves the display invariant. */
  lemma HandlePreservesInv(st: ControllerState, cfg: Config, e: Event)
    requires Inv(st)
    ensures Inv(Handle(st, cfg, e).state)
  {
    if e.RefreshList? {
      var r := Projection.RefreshWorkers(st, cfg, e.lookup, e.fetch);
      if r.state.workers != st.workers || r.state.workersCount != st.workersCount {
        var users := e.fetch.users;
        var p := Projection.Project(users, st.currentUserId, e.lookup.activity);
        assert r.state.workers == p;
        Projection.ProjectShown(users, st.currentUserId, e.lookup.activity);
      }
    }
  }

  /** Any session from a state satisfying the invariant keeps it. */
  lemma {:induction false} RunPreservesInv(st: ControllerState, cfg: Config, es: seq<Event>)
    requires Inv(st)
    ensures Inv(Run(st, cfg, es).state)
    decreases |es|
  {
    if es != [] {
      HandlePreservesInv(st, cfg, es[0]);
      RunPreservesInv(Handle(st, cfg, es[0]).state, cfg, es[1..]);
    }
  }

  /** Which of the modelled handlers owns which attribute (`doInit`, which also
      sets the current user, is not one of them): only `getAllTabInfo` moves the current
      tab and the update record, only it and `onTabClosed` touch the current user,
      only `refresh` replaces the worker list and its count, and only a confirmed
      subscription touches `oldWorkers`. */
  lemma HandleFrame(st: ControllerState, cfg: Config, e: Event)
    ensures var s := Handle(st, cfg, e).state;
      && (s.currentTabId != st.currentTabId ==> e.TabInfo?)
      && (s.updateRecId != st.updateRecId ==> e.TabInfo?)
      && (s.currentUserId != st.currentUserId ==> e.TabInfo? || e.TabClosed?)
      && (s.workers != st.workers || s.workersCount != st.workersCount ==> e.RefreshList?)
      && (s.oldWorkers != st.oldWorkers ==> e.Subscribed? && s.oldWorkers == st.workers)
  {
  }

  /** Watcher entries are written only by `onTabFocused` and by
      `updateRecordRelatedToTab`, directly or through `onTabRefreshed`; they are
      removed only by `onTabClosed`. */
  lemma HandleWriters(st: ControllerState, cfg: Config, e: Event, k: int)
    requires 0 <= k < |Handle(st, cfg, e).calls|
    ensures Handle(st, cfg, e).calls[k].UpdateWatcher? ==>
              e.TabFocused? || e.RelatedToTab? || e.TabRefreshed?
    ensures Handle(st, cfg, e).calls[k].RemoveWatcher? ==> e.TabClosed?
  {
    var c := Handle(st, cfg, e).calls[k];
    match e
    case TabInfo(userId, query) =>
      if query.TabQueryOk? {
        assert c.GetWatcher?;
      }
    case RefreshList(lookup, fetch) =>
      assert c.GetWatcher? || c.FetchUsers?;
    case Pushed(ev) =>
      assert c == Refresh;
    case TabFocused(lookup, tabs) =>
      TabTraversal.FocusWritesOnlyWrites(tabs);
      assert c.GetWatcher? || c.UpdateWatcher?;
    case RelatedToTab(check, lookup) =>
      assert !c.RemoveWatcher?;
    case TabRefreshed(tabId, check, lookup) =>
      assert !c.RemoveWatcher?;
    case TabClosed(tabId) =>
    case Subscribed =>
  }

  /** A session in which `getAllTabInfo` never runs leaves the current tab and
      the update record where they were, so the tab-id gates of `onTabClosed`
      and `onTabRefreshed` keep testing the same tab throughout. */
  lemma {:induction false} RunKeepsCurrentTab(st: ControllerState, cfg: Config, es: seq<Event>)
    requires forall k :: 0 <= k < |es| ==> !es[k].TabInfo?
    ensures Run(st, cfg, es).state.currentTabId == st.currentTabId
    ensures Run(st, cfg, es).state.updateRecId == st.updateRecId
    decreases |es|
  {
    if es != [] {
      HandleFrame(st, cfg, es[0]);
      RunKeepsCurrentTab(Handle(st, cfg, es[0]).state, cfg, es[1..]);
    }
  }

  /** The re-lookup of `refresh` depends on the list having been built under the
      same `currentUserId`. After `onTabClosed` has cleared the user id, `refresh`
      filters nobody out and displays the current user in their own list; once
      `getAllTabInfo` sets the id again, the next `refresh` against the same map
      finds the displayed ids equal to the map's keys and looks nobody up. */
  lemma ClearedUserSettlesOnOwnEntry(st: ControllerState, cfg: Config, tabId: Id,
                                     me: Id, other: Id, n1: string, n2: string,
                                     p1: string, p2: string, fetch3: UserFetch)
    requires st.currentTabId == Some(tabId) && st.workers == [] && st.oldWorkers == []
    requires me != other
    ensures var m := [Activity(me, true), Activity(other, false)];
      var users := [Worker(me, n1, p1, None), Worker(other, n2, p2, None)];
      var r0 := Guards.OnTabClosed(st, tabId);
      var r1 := Projection.RefreshWorkers(r0.state, cfg, Watchers(m), Fetched(users));
      var r2 := TabTraversal.GetAllTabInfo(r1.state, me, TabQueryNull);
      var r3 := Projection.RefreshWorkers(r2.state, cfg, Watchers(m), fetch3);
      && r1.calls == [GetWatcher(cfg.recordId), FetchUsers([me, other])]
      && Projection.Ids(r1.state.workers) == [me, other]
      && r2.state.currentUserId == Some(me)
      && r3.calls == [GetWatcher(cfg.recordId)]
      && r3.state == r2.state
  {
    var m := [Activity(me, true), Activity(other, false)];
    var users := [Worker(me, n1, p1, None), Worker(other, n2, p2, None)];
    var r0 := Guards.OnTabClosed(st, tabId);
    assert r0.state.currentUserId == None;
    assert Projection.ExceptUser(users[1..], None) == [users[1]];
    assert Projection.ExceptUser(users, None) == users;
    assert Projection.Keys(m) == [me, other];
    var r1 := Projection.RefreshWorkers(r0.state, cfg, Watchers(m), Fetched(users));
    assert r1.state.workers == Projection.Project(users, None, m);
    assert Projection.Ids(r1.state.workers) == [me, other];
  }

  /** Under the invariant the guard that compares the lookup's users with
      `oldWorkers` never holds: whenever the user lookup returns at least one
      other user, `refresh` replaces the displayed list with their projection. */
  lemma RefreshAlwaysReplaces(st: ControllerState, cfg: Config, m: ActivityMap, users: seq<Worker>)
    requires Inv(st)
    requires forall k :: 0 <= k < |users| ==> users[k].status.None?
    requires Projection.NeedsLookup(st.workers, m)
    requires Projection.ExceptUser(users, st.currentUserId) != []
    ensures var s := Projection.RefreshWorkers(st, cfg, Watchers(m), Fetched(users)).state;
      s.workers == Projection.Project(users, st.currentUserId, m) && s.workersCount == |s.workers| && s.isWorking
  {
    Projection.RawUsersNeverMatchShownList(users, st.currentUserId, st.oldWorkers);
  }
}
