/** The `refresh` handler: it decides whether the watcher list needs a user
    lookup, and projects the users the lookup returns into the displayed list,
    dropping the current user and annotating each other user with its activity. */
module Projection {
  import opened WatcherState

  /** The inline style of an active user's avatar. */
  const ActiveCss: string := "cursor: pointer;"
  /** The inline style of an inactive user's avatar: dimmed. */
  const InactiveCss: string := "cursor: pointer; opacity: 0.5; transition: opacity 0.3s ease;"
  const ActiveSuffix: string := " - Active"
  const InactiveSuffix: string := " - Inactive"

  /** The keys of the activity map in key order (`Object.keys`). */
  function Keys(m: ActivityMap): seq<Id>
  {
    seq(|m|, k requires 0 <= k < |m| => m[k].userId)
  }

  /** The ids of a worker list, in order. */
  function Ids(ws: seq<Worker>): seq<Id>
  {
    seq(|ws|, k requires 0 <= k < |ws| => ws[k].id)
  }

  /** Property access `workersMap[id]`: the value of the key, or false (the
      source's `undefined`) when the key is missing. */
  function IsActive(m: ActivityMap, id: Id): bool
    decreases |m|
  {
    if m == [] then false
    else if m[0].userId == id then m[0].active
    else IsActive(m[1..], id)
  }

  /** A JavaScript object never has a key twice. */
  predicate UniqueKeys(m: ActivityMap)
  {
    forall j, k :: 0 <= j < k < |m| ==> m[j].userId != m[k].userId
  }

  /** A user missing from the activity map counts as inactive. */
  lemma {:induction false} IsActiveMissing(m: ActivityMap, id: Id)
    requires id !in Keys(m)
    ensures !IsActive(m, id)
    decreases |m|
  {
    if m != [] {
      assert Keys(m)[0] == m[0].userId;
      assert Keys(m[1..]) == Keys(m)[1..];
      IsActiveMissing(m[1..], id);
    }
  }

  /** A user in the activity map is active exactly as the map says. */
  lemma {:induction false} IsActiveFound(m: ActivityMap, k: int)
    requires UniqueKeys(m) && 0 <= k < |m|
    ensures IsActive(m, m[k].userId) == m[k].active
    decreases |m|
  {
    if k > 0 {
      assert m[0].userId != m[k].userId;
      assert m[1..][k - 1] == m[k];
      IsActiveFound(m[1..], k - 1);
    }
  }

  /** The lookup runs when no workers are displayed, or when the displayed ids
      differ from the map's keys, order included. */
  predicate NeedsLookup(workers: seq<Worker>, m: ActivityMap)
  {
    workers == [] || Ids(workers) != Keys(m)
  }

  predicate EndsWith(s: string, suffix: string)
  {
    |suffix| <= |s| && s[|s| - |suffix|..] == suffix
  }

  /** A worker as the list displays it: annotated, with the dimmed style exactly
      when inactive and the name ending in the matching suffix. */
  predicate Shown(w: Worker)
  {
    && w.status.Some?
    && w.status.value.customCss == (if w.status.value.isActive then ActiveCss else InactiveCss)
    && EndsWith(w.name, if w.status.value.isActive then ActiveSuffix else InactiveSuffix)
  }

  /** The users of `users` other than the current user `me`, in lookup order. */
  function ExceptUser(users: seq<Worker>, me: Option<Id>): (r: seq<Worker>)
    ensures |r| <= |users|
    ensures forall k :: 0 <= k < |r| ==> Some(r[k].id) != me
    decreases |users|
  {
    if users == [] then []
    else (if Some(users[0].id) != me then [users[0]] else []) + ExceptUser(users[1..], me)
  }

  /** A user of the list annotated from the activity map. */
  function Annotate(u: Worker, m: ActivityMap): (w: Worker)
    ensures Shown(w)
    ensures w.id == u.id && w.photoUrl == u.photoUrl
    ensures w.status.value.isActive == IsActive(m, u.id)
    ensures |u.name| <= |w.name| && w.name[..|u.name|] == u.name
    ensures |w.name| == |u.name| + |if w.status.value.isActive then ActiveSuffix else InactiveSuffix|
  {
    var active := IsActive(m, u.id);
    var name := u.name + (if active then ActiveSuffix else InactiveSuffix);
    assert name[..|u.name|] == u.name;
    Worker(u.id, name, u.photoUrl, Some(Status(active, if active then ActiveCss else InactiveCss)))
  }

  /** The displayed list built from a user lookup. */
  function Project(users: seq<Worker>, me: Option<Id>, m: ActivityMap): seq<Worker>
  {
    var others := ExceptUser(users, me);
    seq(|others|, k requires 0 <= k < |others| => Annotate(others[k], m))
  }

  /** Whether the lookup was issued and answered with a non-empty user list, so
      that its callback goes on to project it. */
  predicate FetchApplies(st: ControllerState, lookup: WatcherLookup, fetch: UserFetch)
  {
    lookup.Watchers? && NeedsLookup(st.workers, lookup.activity) && fetch.Fetched? && fetch.users != []
  }

  /** The `refresh` handler, given the cache lookup for the page's record and the
      user lookup's response (which only matters if the lookup is issued). */
  function RefreshWorkers(st: ControllerState, cfg: Config, lookup: WatcherLookup, fetch: UserFetch): (r: Step)
    ensures 1 <= |r.calls| <= 2 && r.calls[0] == GetWatcher(cfg.recordId)
    ensures forall k :: 1 <= k < |r.calls| ==> lookup.Watchers? && r.calls[k] == FetchUsers(Keys(lookup.activity))
    ensures lookup.Watchers? ==>
              (FetchUsers(Keys(lookup.activity)) in r.calls <==> NeedsLookup(st.workers, lookup.activity))
    ensures r.state == st.(workers := r.state.workers, workersCount := r.state.workersCount,
                           isWorking := r.state.isWorking)
    ensures lookup.NoWatchers? ==> r.state == st.(isWorking := false)
    ensures !lookup.NoWatchers? && !FetchApplies(st, lookup, fetch) ==> r.state == st
    ensures FetchApplies(st, lookup, fetch) ==>
              (r.state.isWorking <==> ExceptUser(fetch.users, st.currentUserId) != [])
    ensures r.state.workers != st.workers || r.state.workersCount != st.workersCount ==>
              && FetchApplies(st, lookup, fetch)
              && ExceptUser(fetch.users, st.currentUserId) != []
              && ExceptUser(fetch.users, st.currentUserId) != st.oldWorkers
              && r.state.workers == Project(fetch.users, st.currentUserId, lookup.activity)
              && r.state.workersCount == |r.state.workers|
    ensures FetchApplies(st, lookup, fetch) && ExceptUser(fetch.users, st.currentUserId) != []
            && ExceptUser(fetch.users, st.currentUserId) != st.oldWorkers ==>
              r.state.workers == Project(fetch.users, st.currentUserId, lookup.activity)
              && r.state.workersCount == |r.state.workers|
  {
    var lookupCall := [GetWatcher(cfg.recordId)];
    match lookup
    case LookupFailed => Step(st, lookupCall)
    case NoWatchers => Step(st.(isWorking := false), lookupCall)
    case Watchers(m) =>
      if !NeedsLookup(st.workers, m) then Step(st, lookupCall)
      else Step(ApplyFetch(st, m, fetch), lookupCall + [FetchUsers(Keys(m))])
  }

  /** The user lookup's callback. */
  function ApplyFetch(st: ControllerState, m: ActivityMap, fetch: UserFetch): ControllerState
  {
    match fetch
    case FetchFailed => st
    case Fetched(users) =>
      if users == [] then st
      else
        var others := ExceptUser(users, st.currentUserId);
        if others == [] then st.(isWorking := false)
        else if others == st.oldWorkers then st.(isWorking := true)
        else
          var shown := Project(users, st.currentUserId, m);
          st.(workers := shown, workersCount := |shown|, isWorking := true)
  }

  // Lemmas

  /** Dropping the current user keeps exactly the other users. */
  lemma {:induction false} ExceptUserMember(users: seq<Worker>, me: Option<Id>, w: Worker)
    ensures w in ExceptUser(users, me) <==> w in users && Some(w.id) != me
    decreases |users|
  {
    if users != [] {
      ExceptUserMember(users[1..], me, w);
      assert users == [users[0]] + users[1..];
    }
  }

  /** Dropping the current user keeps lookup order: it distributes over concatenation. */
  lemma {:induction false} ExceptUserAppend(a: seq<Worker>, b: seq<Worker>, me: Option<Id>)
    ensures ExceptUser(a + b, me) == ExceptUser(a, me) + ExceptUser(b, me)
    decreases |a|
  {
    if a == [] {
      assert a + b == b;
    } else {
      assert (a + b)[0] == a[0];
      assert (a + b)[1..] == a[1..] + b;
      ExceptUserAppend(a[1..], b, me);
    }
  }

  /** The displayed list is built user by user in lookup order: the projection
      of `a + b` is that of `a` followed by that of `b`. */
  lemma ProjectAppend(a: seq<Worker>, b: seq<Worker>, me: Option<Id>, m: ActivityMap)
    ensures Project(a + b, me, m) == Project(a, me, m) + Project(b, me, m)
  {
    ExceptUserAppend(a, b, me);
    var oa, ob := ExceptUser(a, me), ExceptUser(b, me);
    var p, pa, pb := Project(a + b, me, m), Project(a, me, m), Project(b, me, m);
    assert |p| == |pa| + |pb|;
    forall k | 0 <= k < |p|
      ensures p[k] == (pa + pb)[k]
    {
      if k < |pa| {
        assert (oa + ob)[k] == oa[k];
      } else {
        assert (oa + ob)[k] == ob[k - |pa|];
      }
    }
  }

  /** A single user projects to its annotation, or to nothing if it is the
      current user. */
  lemma ProjectSingle(u: Worker, me: Option<Id>, m: ActivityMap)
    ensures Project([u], me, m) == if Some(u.id) != me then [Annotate(u, m)] else []
  {
    assert [u][1..] == [];
  }

  /** Every displayed entry is annotated from the map and is not the current user. */
  lemma ProjectShown(users: seq<Worker>, me: Option<Id>, m: ActivityMap)
    ensures forall k :: 0 <= k < |Project(users, me, m)| ==>
              var w := Project(users, me, m)[k];
              Some(w.id) != me && Shown(w) && w.status.value.isActive == IsActive(m, w.id)
  {
    var others := ExceptUser(users, me);
    var p := Project(users, me, m);
    forall k | 0 <= k < |p|
      ensures Some(p[k].id) != me && Shown(p[k]) && p[k].status.value.isActive == IsActive(m, p[k].id)
    {
      assert p[k] == Annotate(others[k], m);
    }
  }

  /** Every user of the lookup other than the current user is displayed. */
  lemma ProjectIncludes(users: seq<Worker>, me: Option<Id>, m: ActivityMap, u: Worker)
    requires u in users && Some(u.id) != me
    ensures Annotate(u, m) in Project(users, me, m)
  {
    var others := ExceptUser(users, me);
    ExceptUserMember(users, me, u);
    var k :| 0 <= k < |others| && others[k] == u;
    assert Project(users, me, m)[k] == Annotate(u, m);
  }

  /** Every displayed entry is the annotation of a user of the lookup other than
      the current user. */
  lemma ProjectOnlyFrom(users: seq<Worker>, me: Option<Id>, m: ActivityMap, w: Worker)
    requires w in Project(users, me, m)
    ensures exists v :: v in users && Some(v.id) != me && w == Annotate(v, m)
  {
    var others := ExceptUser(users, me);
    var p := Project(users, me, m);
    var k :| 0 <= k < |p| && p[k] == w;
    ExceptUserMember(users, me, others[k]);
    assert others[k] in users && Some(others[k].id) != me && w == Annotate(others[k], m);
  }

  /** The lookup comparison is order-sensitive: the same ids in another order
      trigger a new lookup. */
  lemma LookupIsOrderSensitive(a: Worker, b: Worker, ma: bool, mb: bool)
    requires a.id != b.id
    ensures NeedsLookup([a, b], [Activity(b.id, mb), Activity(a.id, ma)])
  {
    assert Ids([a, b])[0] == a.id;
    assert Keys([Activity(b.id, mb), Activity(a.id, ma)])[0] == b.id;
  }

  /** Whenever the current user is in the activity map, a displayed list that
      leaves them out can never match the map's keys, so the lookup runs. */
  lemma SelfInMapForcesLookup(workers: seq<Worker>, m: ActivityMap, me: Id)
    requires me in Keys(m)
    requires forall k :: 0 <= k < |workers| ==> workers[k].id != me
    ensures NeedsLookup(workers, m)
  {
    var k :| 0 <= k < |Keys(m)| && Keys(m)[k] == me;
    if k < |workers| {
      assert Ids(workers)[k] == workers[k].id != Keys(m)[k];
    } else {
      assert |Ids(workers)| != |Keys(m)|;
    }
  }

  /** Consequently `refresh` never settles while the current user watches the
      record: after it has displayed a list built under the current user id, a
      second `refresh` against the same map, under the same id, issues the user
      lookup again. */
  lemma RefreshRelooksUpWhileSelfWatches(st: ControllerState, cfg: Config, m: ActivityMap,
                                         users: seq<Worker>, me: Id, fetch2: UserFetch)
    requires st.currentUserId == Some(me) && me in Keys(m)
    requires ExceptUser(users, st.currentUserId) != [] && ExceptUser(users, st.currentUserId) != st.oldWorkers
    requires NeedsLookup(st.workers, m)
    ensures var st2 := RefreshWorkers(st, cfg, Watchers(m), Fetched(users)).state;
      FetchUsers(Keys(m)) in RefreshWorkers(st2, cfg, Watchers(m), fetch2).calls
  {
    var st2 := RefreshWorkers(st, cfg, Watchers(m), Fetched(users)).state;
    assert st2.workers == Project(users, st.currentUserId, m);
    ProjectShown(users, st.currentUserId, m);
    SelfInMapForcesLookup(st2.workers, m, me);
  }

  /** The guard against re-displaying the same list compares the lookup's raw
      users with `oldWorkers`; when `oldWorkers` holds displayed (annotated)
      entries the two never match, so the guard never holds back an update. */
  lemma RawUsersNeverMatchShownList(users: seq<Worker>, me: Option<Id>, previous: seq<Worker>)
    requires forall k :: 0 <= k < |users| ==> users[k].status.None?
    requires forall k :: 0 <= k < |previous| ==> Shown(previous[k])
    requires ExceptUser(users, me) != []
    ensures ExceptUser(users, me) != previous
  {
    var others := ExceptUser(users, me);
    ExceptUserMember(users, me, others[0]);
    assert others[0].status.None?;
    if previous != [] {
      assert Shown(previous[0]);
      assert others[0] != previous[0];
    }
  }
}
