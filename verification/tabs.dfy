/** The two walks over the workspace tab tree: `getAllTabInfo`, which decides
    which records get a watcher lookup and which tab and record become current,
    and `onTabFocused`, which turns the tab tree into watch/unwatch writes. */
module TabTraversal {
  import opened WatcherState

  // ---------------------------------------------------------------------------
  // getAllTabInfo
  // ---------------------------------------------------------------------------

  /** The subtabs of an unfocused tab, in order: each one overwrites
      `updateRecId`, and each focused one gets a lookup. */
  function VisitSubtabs(st: ControllerState, subs: seq<Subtab>): (r: Step)
    ensures r.state == st.(updateRecId := r.state.updateRecId)
    ensures forall k :: 0 <= k < |r.calls| ==> r.calls[k].GetWatcher?
    ensures |r.calls| == FocusedSubtabCount(subs)
    decreases |subs|
  {
    if subs == [] then Step(st, [])
    else
      var s := subs[0];
      var rest := VisitSubtabs(st.(updateRecId := s.recordId), subs[1..]);
      Step(rest.state, (if s.focused then [GetWatcher(s.recordId)] else []) + rest.calls)
  }

  /** One top-level tab: a focused tab becomes current and gets a lookup, and
      its subtabs are not looked at; an unfocused tab hands over to its subtabs. */
  function VisitTab(st: ControllerState, t: Tab): (r: Step)
    ensures r.state == st.(updateRecId := r.state.updateRecId, currentTabId := r.state.currentTabId)
    ensures forall k :: 0 <= k < |r.calls| ==> r.calls[k].GetWatcher?
    ensures |r.calls| == TabLookupCount(t)
  {
    if t.focused then
      Step(st.(updateRecId := t.recordId, currentTabId := Some(t.tabId)), [GetWatcher(t.recordId)])
    else
      VisitSubtabs(st, t.subtabs)
  }

  /** The `forEach` over the tab list, threading the attributes through. */
  function WalkTabs(st: ControllerState, tabs: seq<Tab>): (r: Step)
    ensures r.state == st.(updateRecId := r.state.updateRecId, currentTabId := r.state.currentTabId)
    ensures forall k :: 0 <= k < |r.calls| ==> r.calls[k].GetWatcher?
    ensures |r.calls| == LookupCount(tabs)
    decreases |tabs|
  {
    if tabs == [] then Step(st, [])
    else
      var first := VisitTab(st, tabs[0]);
      var rest := WalkTabs(first.state, tabs[1..]);
      Step(rest.state, first.calls + rest.calls)
  }

  /** The `getAllTabInfo` handler, given the platform's current user id and the
      workspace query's outcome. The current user id is stored before the query
      is looked at; a failed query clears `isWorking`; a `null` or empty tab list
      issues nothing and changes nothing else. */
  function GetAllTabInfo(st: ControllerState, userId: Id, query: TabQuery): (r: Step)
    ensures r.state.currentUserId == Some(userId)
    ensures query.TabQueryFailed? ==>
              r.calls == [] && r.state == st.(currentUserId := Some(userId), isWorking := false)
    ensures query.TabQueryNull? || query == TabQueryOk([]) ==>
              r.calls == [] && r.state == st.(currentUserId := Some(userId))
    ensures query.TabQueryOk? ==>
              r.state.isWorking == st.isWorking && r.state.workers == st.workers
              && r.state.oldWorkers == st.oldWorkers && r.state.workersCount == st.workersCount
  {
    var st1 := st.(currentUserId := Some(userId));
    match query
    case TabQueryFailed => Step(st1.(isWorking := false), [])
    case TabQueryNull => Step(st1, [])
    case TabQueryOk(tabs) => WalkTabs(st1, tabs)
  }

  // Reference definitions, stated over the tab tree and not over the walk.

  /** How many subtabs are focused. */
  function FocusedSubtabCount(subs: seq<Subtab>): nat
    decreases |subs|
  {
    if subs == [] then 0 else (if subs[0].focused then 1 else 0) + FocusedSubtabCount(subs[1..])
  }

  /** The lookups a tab asks for: one for a focused tab, one per focused subtab otherwise. */
  function TabLookupCount(t: Tab): nat
  {
    if t.focused then 1 else FocusedSubtabCount(t.subtabs)
  }

  function LookupCount(tabs: seq<Tab>): nat
    decreases |tabs|
  {
    if tabs == [] then 0 else TabLookupCount(tabs[0]) + LookupCount(tabs[1..])
  }

  /** Whether record `rid` is shown by a focused subtab in `subs`. */
  predicate SubtabFocusedOn(subs: seq<Subtab>, rid: Option<Id>)
  {
    exists j :: 0 <= j < |subs| && subs[j].focused && subs[j].recordId == rid
  }

  /** Whether `rid` is the record of a focused tab, or of a focused subtab of an
      unfocused tab. */
  predicate LookedUp(tabs: seq<Tab>, rid: Option<Id>)
  {
    exists i :: 0 <= i < |tabs| &&
      if tabs[i].focused then tabs[i].recordId == rid else SubtabFocusedOn(tabs[i].subtabs, rid)
  }

  /** The id of the last focused top-level tab, searching from the end; `d` if none is. */
  function LastFocusedTabId(tabs: seq<Tab>, d: Option<Id>): Option<Id>
    decreases |tabs|
  {
    if tabs == [] then d
    else if tabs[|tabs| - 1].focused then Some(tabs[|tabs| - 1].tabId)
    else LastFocusedTabId(tabs[..|tabs| - 1], d)
  }

  /** The record of the last place visited, searching from the end: a focused
      tab, or else the last subtab of an unfocused tab that has subtabs; `d` if
      nothing was visited. */
  function LastVisitedRecord(tabs: seq<Tab>, d: Option<Id>): Option<Id>
    decreases |tabs|
  {
    if tabs == [] then d
    else
      var t := tabs[|tabs| - 1];
      if t.focused then t.recordId
      else if t.subtabs != [] then t.subtabs[|t.subtabs| - 1].recordId
      else LastVisitedRecord(tabs[..|tabs| - 1], d)
  }

  // Lemmas

  /** The walk over `a + b` is the walk over `a` followed by the walk over `b`
      from where `a` left the attributes. */
  lemma {:induction false} WalkTabsAppend(st: ControllerState, a: seq<Tab>, b: seq<Tab>)
    ensures WalkTabs(st, a + b).state == WalkTabs(WalkTabs(st, a).state, b).state
    ensures WalkTabs(st, a + b).calls == WalkTabs(st, a).calls + WalkTabs(WalkTabs(st, a).state, b).calls
    decreases |a|
  {
    if a == [] {
      assert a + b == b;
    } else {
      assert (a + b)[0] == a[0];
      assert (a + b)[1..] == a[1..] + b;
      var first := VisitTab(st, a[0]);
      WalkTabsAppend(first.state, a[1..], b);
    }
  }

  /** After a run over the subtabs, `updateRecId` is the last subtab's record,
      whether or not that subtab is focused. */
  lemma {:induction false} VisitSubtabsRecord(st: ControllerState, subs: seq<Subtab>)
    ensures VisitSubtabs(st, subs).state.updateRecId ==
              (if subs == [] then st.updateRecId else subs[|subs| - 1].recordId)
    decreases |subs|
  {
    if subs != [] {
      VisitSubtabsRecord(st.(updateRecId := subs[0].recordId), subs[1..]);
      if subs[1..] != [] {
        assert subs[1..][|subs[1..]| - 1] == subs[|subs| - 1];
      }
    }
  }

  /** `currentTabId` ends as the last focused top-level tab's id; subtabs never set it. */
  lemma {:induction false} WalkCurrentTab(st: ControllerState, tabs: seq<Tab>)
    ensures WalkTabs(st, tabs).state.currentTabId == LastFocusedTabId(tabs, st.currentTabId)
    decreases |tabs|
  {
    if tabs != [] {
      var pre := tabs[..|tabs| - 1];
      var t := tabs[|tabs| - 1];
      assert pre + [t] == tabs;
      WalkTabsAppend(st, pre, [t]);
      WalkCurrentTab(st, pre);
      var mid := WalkTabs(st, pre).state;
      assert [t][1..] == [];
      assert WalkTabs(mid, [t]).state == VisitTab(mid, t).state;
    }
  }

  /** `updateRecId` ends as the record of the last tab or subtab visited,
      focused or not. */
  lemma {:induction false} WalkUpdateRecId(st: ControllerState, tabs: seq<Tab>)
    ensures WalkTabs(st, tabs).state.updateRecId == LastVisitedRecord(tabs, st.updateRecId)
    decreases |tabs|
  {
    if tabs != [] {
      var pre := tabs[..|tabs| - 1];
      var t := tabs[|tabs| - 1];
      assert pre + [t] == tabs;
      WalkTabsAppend(st, pre, [t]);
      WalkUpdateRecId(st, pre);
      var mid := WalkTabs(st, pre).state;
      assert [t][1..] == [];
      assert WalkTabs(mid, [t]).state == VisitTab(mid, t).state;
      if !t.focused {
        VisitSubtabsRecord(mid, t.subtabs);
      }
    }
  }

  /** A lookup for `rid` is among the subtab run's calls exactly when a focused
      subtab shows `rid`. */
  lemma {:induction false} VisitSubtabsLookup(st: ControllerState, subs: seq<Subtab>, rid: Option<Id>)
    ensures GetWatcher(rid) in VisitSubtabs(st, subs).calls <==> SubtabFocusedOn(subs, rid)
    decreases |subs|
  {
    if subs != [] {
      var s := subs[0];
      VisitSubtabsLookup(st.(updateRecId := s.recordId), subs[1..], rid);
      if SubtabFocusedOn(subs[1..], rid) {
        var j :| 0 <= j < |subs[1..]| && subs[1..][j].focused && subs[1..][j].recordId == rid;
        assert subs[j + 1] == subs[1..][j];
      }
      if SubtabFocusedOn(subs, rid) && !(s.focused && s.recordId == rid) {
        var j :| 0 <= j < |subs| && subs[j].focused && subs[j].recordId == rid;
        assert j != 0;
        assert subs[1..][j - 1] == subs[j];
      }
    }
  }

  /** A lookup for `rid` is among the walk's calls exactly when `rid` is the
      record of a focused tab or of a focused subtab of an unfocused tab. */
  lemma {:induction false} WalkLookup(st: ControllerState, tabs: seq<Tab>, rid: Option<Id>)
    ensures GetWatcher(rid) in WalkTabs(st, tabs).calls <==> LookedUp(tabs, rid)
    decreases |tabs|
  {
    if tabs != [] {
      var t := tabs[0];
      var first := VisitTab(st, t);
      WalkLookup(first.state, tabs[1..], rid);
      var here := if t.focused then t.recordId == rid else SubtabFocusedOn(t.subtabs, rid);
      if !t.focused {
        VisitSubtabsLookup(st, t.subtabs, rid);
      }
      assert GetWatcher(rid) in first.calls <==> here;
      if LookedUp(tabs[1..], rid) {
        var i :| 0 <= i < |tabs[1..]| &&
          if tabs[1..][i].focused then tabs[1..][i].recordId == rid
          else SubtabFocusedOn(tabs[1..][i].subtabs, rid);
        assert tabs[i + 1] == tabs[1..][i];
      }
      if LookedUp(tabs, rid) && !here {
        var i :| 0 <= i < |tabs| &&
          if tabs[i].focused then tabs[i].recordId == rid else SubtabFocusedOn(tabs[i].subtabs, rid);
        assert i != 0;
        assert tabs[1..][i - 1] == tabs[i];
      }
    }
  }

  /** What `getAllTabInfo` does with a tab list: only lookups, one per focused
      tab and per focused subtab of an unfocused tab, for exactly those records;
      the current tab is the last focused tab and the update record the last
      place visited; nothing else but the current user id changes. */
  lemma GetAllTabInfoWalk(st: ControllerState, userId: Id, tabs: seq<Tab>, rid: Option<Id>)
    ensures var r := GetAllTabInfo(st, userId, TabQueryOk(tabs));
      && (forall k :: 0 <= k < |r.calls| ==> r.calls[k].GetWatcher?)
      && |r.calls| == LookupCount(tabs)
      && (GetWatcher(rid) in r.calls <==> LookedUp(tabs, rid))
      && r.state.currentTabId == LastFocusedTabId(tabs, st.currentTabId)
      && r.state.updateRecId == LastVisitedRecord(tabs, st.updateRecId)
      && r.state == st.(currentUserId := Some(userId),
                        currentTabId := r.state.currentTabId,
                        updateRecId := r.state.updateRecId)
  {
    var st1 := st.(currentUserId := Some(userId));
    WalkLookup(st1, tabs, rid);
    WalkCurrentTab(st1, tabs);
    WalkUpdateRecId(st1, tabs);
  }

  /** The quirk of the walk: an unfocused subtab listed after the focused one
      takes `updateRecId` away from it, so the record looked up and the record
      left in `updateRecId` differ. */
  lemma UnfocusedSubtabOverwritesUpdateRecId(st: ControllerState, userId: Id)
    ensures var b, c := Some("B"), Some("C");
      var tabs := [Tab("T1", Some("A"), false, [Subtab(b, true), Subtab(c, false)])];
      var r := GetAllTabInfo(st, userId, TabQueryOk(tabs));
      r.calls == [GetWatcher(b)] && r.state.updateRecId == c
  {
    var b, c := Some("B"), Some("C");
    var subs := [Subtab(b, true), Subtab(c, false)];
    var s0 := st.(currentUserId := Some(userId));
    var s1 := s0.(updateRecId := b);
    var s2 := s1.(updateRecId := c);
    assert subs[1..] == [Subtab(c, false)];
    assert subs[1..][1..] == [];
    assert VisitSubtabs(s2, []) == Step(s2, []);
    assert VisitSubtabs(s1, subs[1..]) == Step(s2, []);
    assert VisitSubtabs(s0, subs) == Step(s2, [GetWatcher(b)]);
    var tabs := [Tab("T1", Some("A"), false, subs)];
    assert tabs[1..] == [];
    assert WalkTabs(s0, tabs) == Step(s2, [GetWatcher(b)]);
  }

  // ---------------------------------------------------------------------------
  // onTabFocused
  // ---------------------------------------------------------------------------

  /** One write per subtab, watching exactly the focused ones. */
  function SubtabWrites(subs: seq<Subtab>): seq<OutgoingCall>
    decreases |subs|
  {
    if subs == [] then []
    else [UpdateWatcher(subs[0].recordId, None, subs[0].focused)] + SubtabWrites(subs[1..])
  }

  /** An unfocused tab is unwatched and then each subtab written; a focused tab
      is watched and its subtabs ignored. */
  function TabWrites(t: Tab): seq<OutgoingCall>
  {
    if !t.focused then [UpdateWatcher(t.recordId, None, false)] + SubtabWrites(t.subtabs)
    else [UpdateWatcher(t.recordId, None, true)]
  }

  /** The writes of the `for … of` loop over the re-queried tab list. There is
      no check against what is already watched and no deduplication. */
  function FocusWrites(tabs: seq<Tab>): seq<OutgoingCall>
    decreases |tabs|
  {
    if tabs == [] then [] else TabWrites(tabs[0]) + FocusWrites(tabs[1..])
  }

  /** Every call of the subtab loop is a watcher write. */
  lemma {:induction false} SubtabWritesOnlyWrites(subs: seq<Subtab>)
    ensures forall k :: 0 <= k < |SubtabWrites(subs)| ==> SubtabWrites(subs)[k].UpdateWatcher?
    decreases |subs|
  {
    if subs != [] {
      SubtabWritesOnlyWrites(subs[1..]);
    }
  }

  /** Every call of the tab loop is a watcher write. */
  lemma {:induction false} FocusWritesOnlyWrites(tabs: seq<Tab>)
    ensures forall k :: 0 <= k < |FocusWrites(tabs)| ==> FocusWrites(tabs)[k].UpdateWatcher?
    decreases |tabs|
  {
    if tabs != [] {
      SubtabWritesOnlyWrites(tabs[0].subtabs);
      FocusWritesOnlyWrites(tabs[1..]);
    }
  }

  /** The `onTabFocused` handler, given the lookup response for the current
      update record and the tab list the workspace query returned (an empty list
      stands for a failed query, which writes nothing). */
  function OnTabFocused(st: ControllerState, lookup: WatcherLookup, tabs: seq<Tab>): (r: Step)
    ensures |r.calls| >= 1 && r.calls[0] == GetWatcher(st.updateRecId)
    ensures !lookup.Watchers? ==> |r.calls| == 1
    ensures lookup.Watchers? ==> r.calls[1..] == FocusWrites(tabs)
    ensures r.state == st.(isWorking := r.state.isWorking)
    ensures r.state.isWorking != st.isWorking ==> lookup.NoWatchers? && !r.state.isWorking
    ensures lookup.NoWatchers? ==> r.state == st.(isWorking := false)
    ensures !lookup.NoWatchers? ==> r.state == st
  {
    var lookupCall := [GetWatcher(st.updateRecId)];
    match lookup
    case LookupFailed => Step(st, lookupCall)
    case NoWatchers => Step(st.(isWorking := false), lookupCall)
    case Watchers(_) => Step(st, lookupCall + FocusWrites(tabs))
  }

  /** Writes a tab contributes: one for itself, plus one per subtab if unfocused. */
  function WriteCount(t: Tab): nat
  {
    if t.focused then 1 else 1 + |t.subtabs|
  }

  function TotalWrites(tabs: seq<Tab>): nat
    decreases |tabs|
  {
    if tabs == [] then 0 else WriteCount(tabs[0]) + TotalWrites(tabs[1..])
  }

  lemma {:induction false} SubtabWritesAt(subs: seq<Subtab>, j: int)
    requires 0 <= j < |subs|
    ensures j < |SubtabWrites(subs)|
    ensures SubtabWrites(subs)[j] == UpdateWatcher(subs[j].recordId, None, subs[j].focused)
    decreases |subs|
  {
    if j > 0 {
      SubtabWritesAt(subs[1..], j - 1);
    }
  }

  lemma {:induction false} SubtabWritesLength(subs: seq<Subtab>)
    ensures |SubtabWrites(subs)| == |subs|
    decreases |subs|
  {
    if subs != [] {
      SubtabWritesLength(subs[1..]);
    }
  }

  /** `onTabFocused` writes once for every tab plus once for every subtab of an
      unfocused tab. */
  lemma {:induction false} FocusWritesLength(tabs: seq<Tab>)
    ensures |FocusWrites(tabs)| == TotalWrites(tabs)
    decreases |tabs|
  {
    if tabs != [] {
      SubtabWritesLength(tabs[0].subtabs);
      FocusWritesLength(tabs[1..]);
    }
  }

  /** The write plan follows tab order: the plan for `a + b` is the plan for
      `a` followed by the plan for `b`. */
  lemma {:induction false} FocusWritesAppend(a: seq<Tab>, b: seq<Tab>)
    ensures FocusWrites(a + b) == FocusWrites(a) + FocusWrites(b)
    decreases |a|
  {
    if a == [] {
      assert a + b == b;
    } else {
      assert (a + b)[0] == a[0];
      assert (a + b)[1..] == a[1..] + b;
      FocusWritesAppend(a[1..], b);
    }
  }

  /** The write plan around tab `i`: the plan of the tabs before it, then the
      tab's own writes, then the plan of the tabs after it. */
  lemma FocusWritesSplit(tabs: seq<Tab>, i: int)
    requires 0 <= i < |tabs|
    ensures FocusWrites(tabs) == FocusWrites(tabs[..i]) + TabWrites(tabs[i]) + FocusWrites(tabs[i + 1..])
    ensures |FocusWrites(tabs[..i])| == TotalWrites(tabs[..i])
  {
    var pre, t, post := tabs[..i], tabs[i], tabs[i + 1..];
    assert tabs == pre + [t] + post;
    FocusWritesAppend(pre + [t], post);
    FocusWritesAppend(pre, [t]);
    assert [t][1..] == [];
    FocusWritesLength(pre);
  }

  /** Indexing into the middle part of a three-way concatenation. */
  lemma ConcatAt<T>(a: seq<T>, b: seq<T>, c: seq<T>, k: int)
    requires 0 <= k < |b|
    ensures |a| + k < |a + b + c| && (a + b + c)[|a| + k] == b[k]
  {
  }

  /** A tab's writes: its own write first, then (unfocused only) the subtabs'. */
  lemma TabWritesAt(t: Tab, j: int)
    requires !t.focused && 0 <= j < |t.subtabs|
    ensures 1 + j < |TabWrites(t)|
    ensures TabWrites(t)[1 + j] == UpdateWatcher(t.subtabs[j].recordId, None, t.subtabs[j].focused)
  {
    var rest := SubtabWrites(t.subtabs);
    SubtabWritesAt(t.subtabs, j);
    assert TabWrites(t) == [UpdateWatcher(t.recordId, None, false)] + rest;
    assert TabWrites(t)[1 + j] == rest[j];
  }

  /** Tab `i`'s own write sits at the offset given by the tabs before it and
      carries the tab's focus flag. */
  lemma TabWriteInPlan(tabs: seq<Tab>, i: int)
    requires 0 <= i < |tabs|
    ensures TotalWrites(tabs[..i]) + WriteCount(tabs[i]) <= |FocusWrites(tabs)|
    ensures FocusWrites(tabs)[TotalWrites(tabs[..i])] == UpdateWatcher(tabs[i].recordId, None, tabs[i].focused)
  {
    var t := tabs[i];
    var a, b, c := FocusWrites(tabs[..i]), TabWrites(t), FocusWrites(tabs[i + 1..]);
    FocusWritesSplit(tabs, i);
    SubtabWritesLength(t.subtabs);
    assert |b| == WriteCount(t) && b[0] == UpdateWatcher(t.recordId, None, t.focused);
    ConcatAt(a, b, c, 0);
  }

  /** Subtab `j` of an unfocused tab `i` is written right after the tab's own
      write and its `j` predecessors, with the subtab's focus flag. */
  lemma SubtabWriteInPlan(tabs: seq<Tab>, i: int, j: int)
    requires 0 <= i < |tabs| && !tabs[i].focused && 0 <= j < |tabs[i].subtabs|
    ensures TotalWrites(tabs[..i]) + 1 + j < |FocusWrites(tabs)|
    ensures FocusWrites(tabs)[TotalWrites(tabs[..i]) + 1 + j] ==
              UpdateWatcher(tabs[i].subtabs[j].recordId, None, tabs[i].subtabs[j].focused)
  {
    var t := tabs[i];
    var a, b, c := FocusWrites(tabs[..i]), TabWrites(t), FocusWrites(tabs[i + 1..]);
    FocusWritesSplit(tabs, i);
    TabWritesAt(t, j);
    ConcatAt(a, b, c, 1 + j);
  }

  /** Focus between a tab and its subtab, as the code handles it: one unfocused
      tab on record A whose single subtab, on record B, is focused. The walk looks
      up B alone; `onTabFocused` unwatches A and watches B. */
  lemma FocusedSubtabScenario(st: ControllerState, userId: Id, m: ActivityMap)
    ensures var a, b := Some("A"), Some("B");
      var tabs := [Tab("T1", a, false, [Subtab(b, true)])];
      && GetAllTabInfo(st, userId, TabQueryOk(tabs)).calls == [GetWatcher(b)]
      && GetAllTabInfo(st, userId, TabQueryOk(tabs)).state.updateRecId == b
      && OnTabFocused(st, Watchers(m), tabs).calls ==
           [GetWatcher(st.updateRecId), UpdateWatcher(a, None, false), UpdateWatcher(b, None, true)]
  {
    var a, b := Some("A"), Some("B");
    var subs := [Subtab(b, true)];
    var tabs := [Tab("T1", a, false, subs)];
    var s0 := st.(currentUserId := Some(userId));
    assert subs[1..] == [] && tabs[1..] == [];
    assert VisitSubtabs(s0, subs) == Step(s0.(updateRecId := b), [GetWatcher(b)]);
    assert WalkTabs(s0, tabs) == Step(s0.(updateRecId := b), [GetWatcher(b)]);
    assert SubtabWrites(subs) == [UpdateWatcher(b, None, true)];
    assert FocusWrites(tabs) == [UpdateWatcher(a, None, false), UpdateWatcher(b, None, true)];
  }
}
