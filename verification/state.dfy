/** The data the RecordWatcher controller works on: the component attributes it
    reads and writes, the workspace tab tree it walks, the server responses it
    reacts to, and the server calls it issues. Every platform call is either an
    input to a handler (a response) or an output of it (an outgoing call). */
module WatcherState {

  /** Salesforce ids (users, records, tabs) and names are plain strings. */
  type Id = string

  /** A value that the platform may leave `null` or `undefined`. JavaScript's
      loose `==` between strings, `null` and `undefined` is equality on this type. */
  datatype Option<+T> = None | Some(value: T)

  /** A workspace subtab: the record it shows (absent for a non-record page) and
      whether it has focus. */
  datatype Subtab = Subtab(recordId: Option<Id>, focused: bool)

  /** A top-level workspace tab with its subtabs, in the order the workspace API
      lists them. A `null` subtab list is the empty sequence. */
  datatype Tab = Tab(tabId: Id, recordId: Option<Id>, focused: bool, subtabs: seq<Subtab>)

  /** The display annotation `refresh` adds to a user: its activity flag and CSS. */
  datatype Status = Status(isActive: bool, customCss: string)

  /** A user record. `status` is `None` for a user exactly as the user lookup
      returns it and `Some` once `refresh` has annotated it for display, so that
      structural equality matches comparing the two objects' JSON text. */
  datatype Worker = Worker(id: Id, name: string, photoUrl: string, status: Option<Status>)

  /** One key of the cache entry's `userIdActivityMap`, in key order. */
  datatype Activity = Activity(userId: Id, active: bool)
  type ActivityMap = seq<Activity>

  /** The response of the `getRecordWatcher` server call. */
  datatype WatcherLookup =
    | LookupFailed                     // the call did not succeed
    | NoWatchers                       // it succeeded with `null` or `''`
    | Watchers(activity: ActivityMap)  // it succeeded with a cache entry

  /** The response of the `isUserInRecordWatcherCache` server call. */
  datatype CacheCheck = CheckFailed | Checked(isInCache: bool)

  /** The response of the `fetchUser` server call (`null` is the empty list). */
  datatype UserFetch = FetchFailed | Fetched(users: seq<Worker>)

  /** The workspace `getAllTabInfo` query as the controller sees it. */
  datatype TabQuery = TabQueryFailed | TabQueryNull | TabQueryOk(tabs: seq<Tab>)

  /** The payload fields of a platform event the controller inspects. */
  datatype PushEvent = PushEvent(objectName: Option<string>, recordId: Option<Id>)

  /** Design-time attributes of the component: the object API name and the id of
      the record page it sits on. Handlers read them and never write them. */
  datatype Config = Config(sObjectName: Option<string>, recordId: Option<Id>)

  /** The server calls (and the one handler re-entry, `Refresh`) a handler issues.
      A write carries the object type it sends: `onTabFocused` sends none,
      `updateRecordRelatedToTab` sends `sObjectName`. A removal carries the user
      id, which `onTabClosed` clears right after issuing it. The other user id and
      object name parameters are always `currentUserId` and `sObjectName` and are
      not carried. */
  datatype OutgoingCall =
    | UpdateWatcher(recordId: Option<Id>, objType: Option<string>, isWatching: bool) // updateRecordWatcher
    | GetWatcher(recordId: Option<Id>)                       // getRecordWatcher
    | CheckInCache(recordId: Option<Id>)                     // isUserInRecordWatcherCache
    | RemoveWatcher(recordId: Option<Id>, userId: Option<Id>) // removeRecordWatcherOrgCache
    | FetchUsers(ids: seq<Id>)                               // fetchUser
    | Refresh                                                // enqueue the refresh handler

  /** The component attributes the handlers read and write. A `null` worker list
      is the empty sequence. */
  datatype ControllerState = ControllerState(
    updateRecId: Option<Id>,
    currentTabId: Option<Id>,
    currentUserId: Option<Id>,
    workers: seq<Worker>,
    oldWorkers: seq<Worker>,
    isWorking: bool,
    workersCount: int)

  /** What one handler invocation produces: the new attributes and the calls it
      issued, in issue order. */
  datatype Step = Step(state: ControllerState, calls: seq<OutgoingCall>)

  /** The attributes before any handler has run. */
  function Initial(): ControllerState
  {
    ControllerState(None, None, None, [], [], false, 0)
  }
}
