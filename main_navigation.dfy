/**
 * The navigation logic of the main activity: the bottom-navigation listener
 * and `setSelectedNavItem`, the dispatch of launcher shortcuts and search
 * intents, the back-press decision tree with its exit confirmation, the
 * splash-screen condition, the navigation badges, and the app-bar lift state
 * kept per controller while controllers are pushed and popped.
 *
 * The Conductor router is a backstack of transactions (index 0 is the root,
 * the last one is on top); a transaction may carry a tag, which the activity
 * sets to the navigation id of the root screen it installs.
 */
module MainNavigation {
  import opened Wrappers

  // ---------------------------------------------------------------------------
  // Constants

  /** Navigation item ids (generated resource ids, modelled as distinct values). */
  const NAV_LIBRARY: int := 1
  const NAV_ANIMELIB: int := 2
  const NAV_UPDATES: int := 3
  const NAV_HISTORY: int := 4
  const NAV_BROWSE: int := 5
  const NAV_MORE: int := 6

  const START_SCREEN_ID: int := NAV_ANIMELIB

  const SPLASH_MIN_DURATION: int := 500
  const SPLASH_MAX_DURATION: int := 5000

  const SHORTCUT_LIBRARY: string := "eu.kanade.tachiyomi.SHOW_LIBRARY"
  const SHORTCUT_ANIMELIB: string := "eu.kanade.tachiyomi.SHOW_ANIMELIB"
  const SHORTCUT_RECENTLY_UPDATED: string := "eu.kanade.tachiyomi.SHOW_RECENTLY_UPDATED"
  const SHORTCUT_RECENTLY_READ: string := "eu.kanade.tachiyomi.SHOW_RECENTLY_READ"
  const SHORTCUT_CATALOGUES: string := "eu.kanade.tachiyomi.SHOW_CATALOGUES"
  const SHORTCUT_DOWNLOADS: string := "eu.kanade.tachiyomi.SHOW_DOWNLOADS"
  const SHORTCUT_ANIME_DOWNLOADS: string := "eu.kanade.tachiyomi.SHOW_ANIME_DOWNLOADS"
  const SHORTCUT_MANGA: string := "eu.kanade.tachiyomi.SHOW_MANGA"
  const SHORTCUT_ANIME: string := "eu.kanade.tachiyomi.SHOW_ANIME"
  const SHORTCUT_ANIMEEXTENSIONS: string := "eu.kanade.tachiyomi.ANIMEEXTENSIONS"
  const SHORTCUT_EXTENSIONS: string := "eu.kanade.tachiyomi.EXTENSIONS"

  const INTENT_SEARCH: string := "eu.kanade.tachiyomi.SEARCH"
  const INTENT_ANIMESEARCH: string := "eu.kanade.tachiyomi.ANIMESEARCH"
  const INTENT_SEARCH_QUERY: string := "query"
  const INTENT_SEARCH_FILTER: string := "filter"

  /** The platform's search and share actions and the extras they carry. */
  const ACTION_SEARCH: string := "android.intent.action.SEARCH"
  const ACTION_SEND: string := "android.intent.action.SEND"
  const GOOGLE_SEARCH_ACTION: string := "com.google.android.gms.actions.SEARCH_ACTION"
  const SEARCH_MANAGER_QUERY: string := "query"
  const EXTRA_TEXT: string := "android.intent.extra.TEXT"

  const START_SCREEN_ARRAY_DEFAULT: seq<int> := [NAV_ANIMELIB, NAV_ANIMELIB, NAV_LIBRARY, NAV_UPDATES, NAV_BROWSE]
  const START_SCREEN_ARRAY_HISTORY: seq<int> := [NAV_ANIMELIB, NAV_ANIMELIB, NAV_LIBRARY, NAV_HISTORY, NAV_BROWSE]
  const START_SCREEN_ARRAY_NO_MANGA: seq<int> := [NAV_ANIMELIB, NAV_ANIMELIB, NAV_UPDATES, NAV_HISTORY, NAV_BROWSE]

  // ---------------------------------------------------------------------------
  // Controllers and the backstack

  datatype ControllerKind =
    | LibraryController
    | AnimelibController
    | UpdatesTabsController
    | HistoryTabsController
    | BrowseController(toExtensions: bool, toAnimeExtensions: bool)
    | MoreController
    | SettingsMainController
    | MangaController(mangaId: int)
    | AnimeController(animeId: int)
    | DownloadController
    | AnimeDownloadController
    | GlobalSearchController(query: string, filter: Option<string>)
    | GlobalAnimeSearchController(query: string, filter: Option<string>)
    | DialogController
    | PreferenceDialogController
    | OtherController

  /** A controller instance; `instanceId` identifies it in the lift-state map. */
  datatype Controller = Controller(kind: ControllerKind, instanceId: nat)

  datatype Transaction = Transaction(controller: Controller, tag: Option<int>)

  /** The tag of the root transaction, read as a number. */
  function RootTag(bs: seq<Transaction>): Option<int> {
    if bs == [] then None else bs[0].tag
  }

  function TopController(bs: seq<Transaction>): Option<Controller> {
    if bs == [] then None else Some(bs[|bs| - 1].controller)
  }

  /** `getControllerWithTag`: the controller of the topmost transaction with this tag. */
  function ControllerWithTag(bs: seq<Transaction>, tag: int): (r: Option<Controller>)
    ensures r.None? <==> forall i :: 0 <= i < |bs| ==> bs[i].tag != Some(tag)
    ensures r.Some? ==>
      exists i :: 0 <= i < |bs| && bs[i].tag == Some(tag) && bs[i].controller == r.value &&
        forall k :: i < k < |bs| ==> bs[k].tag != Some(tag)
    decreases |bs|
  {
    if bs == [] then None
    else if bs[|bs| - 1].tag == Some(tag) then Some(bs[|bs| - 1].controller)
    else
      var front := bs[..|bs| - 1];
      var r := ControllerWithTag(front, tag);
      assert forall i :: 0 <= i < |front| ==> front[i] == bs[i];
      r
  }

  /** What `popToRoot` leaves: the root alone. */
  function RootOnly(bs: seq<Transaction>): (r: seq<Transaction>)
    ensures r == (if bs == [] then [] else [bs[0]])
  {
    if |bs| > 1 then bs[..1] else bs
  }

  /** The instance ids of the backstack are distinct. */
  ghost predicate DistinctInstances(bs: seq<Transaction>) {
    forall i, j :: 0 <= i < j < |bs| ==> bs[i].controller.instanceId != bs[j].controller.instanceId
  }

  /**
   * The router: its backstack and the source of fresh controller instances.
   * The root is never popped (`PopRootControllerMode.NEVER`).
   */
  class Router {
    var backstack: seq<Transaction>
    var nextInstanceId: nat

    ghost predicate Valid()
      reads this
    {
      && (forall i :: 0 <= i < |backstack| ==> backstack[i].controller.instanceId < nextInstanceId)
      && DistinctInstances(backstack)
    }

    constructor ()
      ensures Valid() && backstack == [] && nextInstanceId == 0
    {
      backstack := [];
      nextInstanceId := 0;
    }

    /** `setRoot(controller, id)`: the new controller, tagged, becomes the whole backstack. */
    method SetRoot(kind: ControllerKind, tag: int) returns (c: Controller)
      requires Valid()
      modifies this
      ensures Valid()
      ensures c == Controller(kind, old(nextInstanceId)) && nextInstanceId == old(nextInstanceId) + 1
      ensures backstack == [Transaction(c, Some(tag))]
    {
      c := Controller(kind, nextInstanceId);
      backstack := [Transaction(c, Some(tag))];
      nextInstanceId := nextInstanceId + 1;
    }

    /** `pushController`: a new, untagged controller on top; its instance is fresh. */
    method PushController(kind: ControllerKind) returns (c: Controller)
      requires Valid()
      modifies this
      ensures Valid()
      ensures c == Controller(kind, old(nextInstanceId)) && nextInstanceId == old(nextInstanceId) + 1
      ensures backstack == old(backstack) + [Transaction(c, None)]
      ensures forall i :: 0 <= i < |old(backstack)| ==> old(backstack)[i].controller.instanceId != c.instanceId
    {
      c := Controller(kind, nextInstanceId);
      backstack := backstack + [Transaction(c, None)];
      nextInstanceId := nextInstanceId + 1;
    }

    /** `popToRoot`: everything above the root is removed. */
    method PopToRoot()
      requires Valid()
      modifies this
      ensures Valid()
      ensures backstack == RootOnly(old(backstack)) && nextInstanceId == old(nextInstanceId)
    {
      if |backstack| > 1 {
        backstack := backstack[..1];
      }
    }

    /**
     * `handleBack`: the top controller may consume the press itself
     * (`topConsumes`); otherwise the top is popped unless it is the root.
     */
    method HandleBack(topConsumes: bool) returns (handled: bool)
      requires Valid()
      modifies this
      ensures Valid()
      ensures handled == BackHandled(old(backstack), topConsumes)
      ensures backstack == AfterBack(old(backstack), topConsumes) && nextInstanceId == old(nextInstanceId)
    {
      if |backstack| == 0 {
        handled := false;
      } else if topConsumes {
        handled := true;
      } else if |backstack| > 1 {
        backstack := backstack[..|backstack| - 1];
        handled := true;
      } else {
        handled := false;
      }
    }
  }

  predicate BackHandled(bs: seq<Transaction>, topConsumes: bool) {
    |bs| > 0 && (topConsumes || |bs| > 1)
  }

  function AfterBack(bs: seq<Transaction>, topConsumes: bool): seq<Transaction> {
    if !topConsumes && |bs| > 1 then bs[..|bs| - 1] else bs
  }

  /** The router never leaves the backstack empty by going back, and never pops the root. */
  lemma AfterBackKeepsRoot(bs: seq<Transaction>, topConsumes: bool)
    ensures RootTag(AfterBack(bs, topConsumes)) == RootTag(bs)
    ensures |AfterBack(bs, topConsumes)| == |bs| || |AfterBack(bs, topConsumes)| == |bs| - 1 >= 1
    ensures BackHandled(bs, topConsumes) <==> AfterBack(bs, topConsumes) != bs || (topConsumes && bs != [])
  {
  }

  // ---------------------------------------------------------------------------
  // Navigation ids

  /** The start-screen array of a bottom-navigation style. */
  function StartScreenArray(style: int): seq<int> {
    if style == 1 then START_SCREEN_ARRAY_HISTORY
    else if style == 2 then START_SCREEN_ARRAY_NO_MANGA
    else START_SCREEN_ARRAY_DEFAULT
  }

  /** Kotlin's `firstOrNull { it == x }` on an int array. */
  function FirstEqual(a: seq<int>, x: int): (r: Option<int>)
    ensures r.Some? <==> x in a
    ensures r.Some? ==> r.value == x
    decreases |a|
  {
    if a == [] then None
    else if a[0] == x then Some(a[0])
    else
      assert forall y :: y in a ==> y == a[0] || y in a[1..];
      FirstEqual(a[1..], x)
  }

  /** `getNavIdForId`: the id itself when the style's array holds it, otherwise null. */
  function NavIdForId(style: int, id: int): (r: Option<int>)
    ensures r.Some? <==> id in StartScreenArray(style)
    ensures r.Some? ==> r.value == id
  {
    FirstEqual(StartScreenArray(style), id)
  }

  /** Which ids each style can select directly; `more` is never among them. */
  lemma NavIdsOfStyles(style: int)
    ensures NavIdForId(style, START_SCREEN_ID) == Some(START_SCREEN_ID)
    ensures NavIdForId(style, NAV_BROWSE) == Some(NAV_BROWSE)
    ensures NavIdForId(style, NAV_MORE) == None
    ensures style == 1 ==> NavIdForId(style, NAV_HISTORY).Some? && NavIdForId(style, NAV_UPDATES).None?
    ensures style == 2 ==> NavIdForId(style, NAV_LIBRARY).None? && NavIdForId(style, NAV_UPDATES).Some?
    ensures style != 1 && style != 2 ==> NavIdForId(style, NAV_HISTORY).None? && NavIdForId(style, NAV_LIBRARY).Some?
  {
  }

  /** The root controller the navigation listener installs for an item, if any. */
  function NavRootKind(id: int): Option<ControllerKind> {
    if id == NAV_LIBRARY then Some(LibraryController)
    else if id == NAV_ANIMELIB then Some(AnimelibController)
    else if id == NAV_UPDATES then Some(UpdatesTabsController)
    else if id == NAV_HISTORY then Some(HistoryTabsController)
    else if id == NAV_BROWSE then Some(BrowseController(false, false))
    else if id == NAV_MORE then Some(MoreController)
    else None
  }

  /** `getControllerForId`: the screen for an id; every other id opens the anime library. */
  /** `getControllerForId`: agrees with the listener on every navigation item; any other id gives the anime library. */
  function ControllerForId(id: int): (r: ControllerKind)
    ensures NavRootKind(id).Some? ==> r == NavRootKind(id).value
    ensures NavRootKind(id).None? ==> r == AnimelibController
  {
    if id == NAV_LIBRARY then LibraryController
    else if id == NAV_UPDATES then UpdatesTabsController
    else if id == NAV_HISTORY then HistoryTabsController
    else if id == NAV_BROWSE then BrowseController(false, false)
    else if id == NAV_MORE then MoreController
    else AnimelibController
  }

  /** What re-selecting the current tab does. */
  datatype Reselect =
    | NoReselect
    | ShowLibrarySettings
    | ShowAnimelibSettings
    | OpenDownloadQueue
    | ResumeLastItem
    | PushSettings

  predicate TaggedKindIs(bs: seq<Transaction>, id: int, kind: ControllerKind) {
    var c := ControllerWithTag(bs, id);
    c.Some? && c.value.kind == kind
  }

  /**
   * The listener's branch for an item that is already the root: nothing
   * while a shortcut is handled; otherwise the screen's own action, when the
   * controller tagged with the id is of the expected kind.
   */
  function Reselection(bs: seq<Transaction>, id: int, handlingShortcut: bool): Reselect {
    if handlingShortcut then NoReselect
    else if id == NAV_LIBRARY then (if TaggedKindIs(bs, id, LibraryController) then ShowLibrarySettings else NoReselect)
    else if id == NAV_UPDATES then (if TaggedKindIs(bs, id, UpdatesTabsController) then OpenDownloadQueue else NoReselect)
    else if id == NAV_ANIMELIB then (if TaggedKindIs(bs, id, AnimelibController) then ShowAnimelibSettings else NoReselect)
    else if id == NAV_HISTORY then (if TaggedKindIs(bs, id, HistoryTabsController) then ResumeLastItem else NoReselect)
    else if id == NAV_MORE then (if |bs| == 1 then PushSettings else NoReselect)
    else NoReselect
  }

  // ---------------------------------------------------------------------------
  // Splash screen

  /** The splash screen's keep-visible condition at `elapsed` milliseconds. */
  predicate KeepSplashVisible(elapsed: int, ready: bool)
    ensures elapsed <= SPLASH_MIN_DURATION ==> KeepSplashVisible(elapsed, ready)
    ensures elapsed > SPLASH_MAX_DURATION ==> !KeepSplashVisible(elapsed, ready)
    ensures ready && elapsed > SPLASH_MIN_DURATION ==> !KeepSplashVisible(elapsed, ready)
  {
    elapsed <= SPLASH_MIN_DURATION || (!ready && elapsed <= SPLASH_MAX_DURATION)
  }

  /** `ready` as a function of time, for an activity that becomes ready at `readyAt` (or never). */
  predicate ReadyBy(readyAt: Option<int>, elapsed: int) {
    readyAt.Some? && readyAt.value <= elapsed
  }

  /** The first millisecond at which the splash screen may go. */
  function SplashRelease(readyAt: Option<int>): int {
    if readyAt.Some? && readyAt.value <= SPLASH_MAX_DURATION then
      (if readyAt.value > SPLASH_MIN_DURATION then readyAt.value else SPLASH_MIN_DURATION + 1)
    else SPLASH_MAX_DURATION + 1
  }

  /**
   * The splash screen stays exactly until `SplashRelease`: never released
   * within 500 ms, always released after 5000 ms, and released as soon as
   * both the minimum has passed and the activity is ready.
   */
  lemma SplashReleasedOnce(readyAt: Option<int>)
    ensures SPLASH_MIN_DURATION < SplashRelease(readyAt) <= SPLASH_MAX_DURATION + 1
    ensures forall e :: e < SplashRelease(readyAt) ==> KeepSplashVisible(e, ReadyBy(readyAt, e))
    ensures forall e :: e >= SplashRelease(readyAt) ==> !KeepSplashVisible(e, ReadyBy(readyAt, e))
  {
  }

  // ---------------------------------------------------------------------------
  // Badges (a number, or no badge)

  /**
   * The updates badge as the source computes it: the unread-updates count
   * added to itself; the unseen-updates count is never read.
   */
  function UpdatesBadgeAsWritten(showBadge: bool, unreadUpdates: int, unseenUpdates: int): (r: Option<int>)
    ensures r.Some? <==> showBadge && unreadUpdates > 0
    ensures r.Some? ==> r.value == 2 * unreadUpdates
  {
    var updates := if showBadge then unreadUpdates + unreadUpdates else 0;
    if updates > 0 then Some(updates) else None
  }

  /** The written badge shows zero unseen episode updates and doubles the unread chapter updates. */
  lemma UpdatesBadgeAsWrittenMiscounts()
    ensures UpdatesBadgeAsWritten(true, 0, 3) == None
    ensures UpdatesBadgeAsWritten(true, 2, 0) == Some(4)
    ensures UpdatesBadge(true, 0, 3) == Some(3) && UpdatesBadge(true, 2, 0) == Some(2)
  {
  }

  /** The updates badge as intended: unread chapter updates plus unseen episode updates. */
  function UpdatesBadge(showBadge: bool, unreadUpdates: int, unseenUpdates: int): (r: Option<int>)
    ensures r.Some? <==> showBadge && unreadUpdates + unseenUpdates > 0
    ensures r.Some? ==> r.value == unreadUpdates + unseenUpdates && r.value > 0
  {
    var updates := if showBadge then unreadUpdates + unseenUpdates else 0;
    if updates > 0 then Some(updates) else None
  }

  /** The written badge agrees with the intended one exactly when the two counts agree (or it is hidden). */
  lemma UpdatesBadgeAsWrittenAgrees(showBadge: bool, unread: int, unseen: int)
    requires unread >= 0 && unseen >= 0
    ensures UpdatesBadgeAsWritten(showBadge, unread, unseen) == UpdatesBadge(showBadge, unread, unseen)
      <==> !showBadge || unread == unseen
  {
  }

  /** The browse badge: pending manga plus anime extension updates. */
  function ExtensionsBadge(extensionUpdates: int, animeExtensionUpdates: int): (r: Option<int>)
    ensures r.Some? <==> extensionUpdates + animeExtensionUpdates > 0
    ensures r.Some? ==> r.value == extensionUpdates + animeExtensionUpdates
  {
    var updates := extensionUpdates + animeExtensionUpdates;
    if updates > 0 then Some(updates) else None
  }

  // ---------------------------------------------------------------------------
  // App-bar lift state

  /** The saved lift state per controller instance, and whether the app bar is lifted now. */
  datatype Lift = Lift(saved: map<nat, bool>, lifted: bool)

  /**
   * A push: above the root the outgoing controller's state is saved, at the
   * root the map is cleared; the app bar starts unlifted.
   */
  function LiftOnPush(s: Lift, from: Option<Controller>, backstackSize: nat): (r: Lift)
    ensures !r.lifted
    ensures backstackSize <= 1 ==> r.saved == map[]
    ensures backstackSize > 1 ==>
      r.saved.Keys == s.saved.Keys + (if from.Some? then {from.value.instanceId} else {})
    ensures backstackSize > 1 && from.Some? ==> r.saved[from.value.instanceId] == s.lifted
    ensures backstackSize > 1 ==>
      forall k :: k in s.saved && (from.None? || k != from.value.instanceId) ==> r.saved[k] == s.saved[k]
  {
    if backstackSize > 1 then
      Lift(if from.Some? then s.saved[from.value.instanceId := s.lifted] else s.saved, false)
    else
      Lift(map[], false)
  }

  /** A pop: the incoming controller's saved state (default unlifted) returns, the outgoing entry goes. */
  function LiftOnPop(s: Lift, to: Option<Controller>, from: Option<Controller>): (r: Lift)
    ensures r.saved.Keys == s.saved.Keys - (if from.Some? then {from.value.instanceId} else {})
    ensures forall k :: k in r.saved ==> r.saved[k] == s.saved[k]
    ensures to.None? ==> r.lifted == s.lifted
    ensures to.Some? ==> r.lifted == (to.value.instanceId in s.saved && s.saved[to.value.instanceId])
  {
    var lifted :=
      if to.None? then s.lifted
      else if to.value.instanceId in s.saved then s.saved[to.value.instanceId]
      else false;
    Lift(if from.Some? then s.saved - {from.value.instanceId} else s.saved, lifted)
  }

  /** Pushing a controller and popping back to the one below restores the app bar. */
  lemma PushThenPopRestoresLift(s: Lift, below: Controller, pushed: Controller, backstackSize: nat)
    requires backstackSize > 1 && below.instanceId != pushed.instanceId
    ensures var afterPush := LiftOnPush(s, Some(below), backstackSize);
      var afterPop := LiftOnPop(afterPush, Some(below), Some(pushed));
      && !afterPush.lifted
      && afterPop.lifted == s.lifted
      && afterPop.saved == s.saved[below.instanceId := s.lifted] - {pushed.instanceId}
  {
  }

  /** Installing a new root forgets every saved state. */
  lemma RootChangeClearsLift(s: Lift, from: Option<Controller>)
    ensures LiftOnPush(s, from, 1) == Lift(map[], false)
    ensures LiftOnPush(s, from, 0) == Lift(map[], false)
  {
  }

  ghost predicate DistinctControllers(cs: seq<Controller>) {
    forall i, j :: 0 <= i < j < |cs| ==> cs[i].instanceId != cs[j].instanceId
  }

  /**
   * Starting at the root `cs[0]`, push `cs[1]`, …, `cs[|cs| - 1]` in turn;
   * `lifts[i]` is how the user left the app bar on `cs[i]` before the next
   * push.
   */
  function PushChain(s: Lift, cs: seq<Controller>, lifts: seq<bool>): Lift
    requires |cs| == |lifts| + 1
    decreases |lifts|
  {
    if lifts == [] then s
    else
      var before := PushChain(s, cs[..|cs| - 1], lifts[..|lifts| - 1]);
      LiftOnPush(Lift(before.saved, lifts[|lifts| - 1]), Some(cs[|cs| - 2]), |cs|)
  }

  /** Pop from the top `cs[|cs| - 1]` until `cs[j]` is on top again. */
  function PopChain(s: Lift, cs: seq<Controller>, j: nat): Lift
    requires j < |cs|
    decreases |cs|
  {
    if j == |cs| - 1 then s
    else PopChain(LiftOnPop(s, Some(cs[|cs| - 2]), Some(cs[|cs| - 1])), cs[..|cs| - 1], j)
  }

  /** After the pushes every controller below the top has its state saved. */
  lemma {:induction false} PushChainSaves(s: Lift, cs: seq<Controller>, lifts: seq<bool>)
    requires |cs| == |lifts| + 1 && DistinctControllers(cs)
    ensures var r := PushChain(s, cs, lifts);
      forall i :: 0 <= i < |lifts| ==> cs[i].instanceId in r.saved && r.saved[cs[i].instanceId] == lifts[i]
    decreases |lifts|
  {
    if lifts != [] {
      var cs' := cs[..|cs| - 1];
      var lifts' := lifts[..|lifts| - 1];
      assert DistinctControllers(cs');
      PushChainSaves(s, cs', lifts');
      var r := PushChain(s, cs, lifts);
      var n := |lifts| - 1;
      forall i | 0 <= i < |lifts|
        ensures cs[i].instanceId in r.saved && r.saved[cs[i].instanceId] == lifts[i]
      {
        if i < n {
          assert cs'[i] == cs[i] && lifts'[i] == lifts[i];
          assert cs[i].instanceId != cs[n].instanceId;
        }
      }
    }
  }

  /** One pop keeps the saved states of the controllers still below. */
  lemma PopKeepsSaved(s: Lift, cs: seq<Controller>, lifts: seq<bool>)
    requires |cs| == |lifts| + 1 && |lifts| >= 1 && DistinctControllers(cs)
    requires forall i :: 0 <= i < |lifts| ==> cs[i].instanceId in s.saved && s.saved[cs[i].instanceId] == lifts[i]
    ensures var t := LiftOnPop(s, Some(cs[|cs| - 2]), Some(cs[|cs| - 1]));
      var cs', lifts' := cs[..|cs| - 1], lifts[..|lifts| - 1];
      && DistinctControllers(cs')
      && forall i :: 0 <= i < |lifts'| ==> cs'[i].instanceId in t.saved && t.saved[cs'[i].instanceId] == lifts'[i]
  {
    var top := |cs| - 1;
    var t := LiftOnPop(s, Some(cs[top - 1]), Some(cs[top]));
    var cs', lifts' := cs[..top], lifts[..top - 1];
    assert DistinctControllers(cs');
    forall i | 0 <= i < |lifts'|
      ensures cs'[i].instanceId in t.saved && t.saved[cs'[i].instanceId] == lifts'[i]
    {
      assert cs'[i] == cs[i] && lifts'[i] == lifts[i];
      assert cs[i].instanceId != cs[top].instanceId;
    }
  }

  /** Popping back down keeps the saved states of the controllers still below. */
  lemma {:induction false} PopChainRestores(s: Lift, cs: seq<Controller>, lifts: seq<bool>, j: nat)
    requires |cs| == |lifts| + 1 && DistinctControllers(cs) && j < |lifts|
    requires forall i :: 0 <= i < |lifts| ==> cs[i].instanceId in s.saved && s.saved[cs[i].instanceId] == lifts[i]
    ensures PopChain(s, cs, j).lifted == lifts[j]
    decreases |cs|
  {
    var top := |cs| - 1;
    var t := LiftOnPop(s, Some(cs[top - 1]), Some(cs[top]));
    assert t.lifted == lifts[top - 1];
    if j < top - 1 {
      PopKeepsSaved(s, cs, lifts);
      PopChainRestores(t, cs[..top], lifts[..top - 1], j);
    }
  }

  /**
   * However deep the pushes go, popping back to any controller restores the
   * lift state the user left it in.
   */
  lemma LiftRoundTrip(s: Lift, cs: seq<Controller>, lifts: seq<bool>, j: nat)
    requires |cs| == |lifts| + 1 && DistinctControllers(cs) && j < |lifts|
    ensures PopChain(PushChain(s, cs, lifts), cs, j).lifted == lifts[j]
  {
    PushChainSaves(s, cs, lifts);
    PopChainRestores(PushChain(s, cs, lifts), cs, lifts, j);
  }

  function IsDialog(c: Controller): bool {
    c.kind == DialogController || c.kind == PreferenceDialogController
  }

  /**
   * The controller a change syncs the activity to, or None when the change
   * is ignored: without a `to`, the top of the backstack (or the one below a
   * dialog on top, and nothing when there is none); with one, a change from
   * or to a dialog is ignored.
   */
  function SyncTarget(bs: seq<Transaction>, to: Option<Controller>, from: Option<Controller>): Option<Option<Controller>> {
    if to.None? then
      var top := TopController(bs);
      if top.Some? && IsDialog(top.value) then
        (if |bs| >= 2 then Some(Some(bs[|bs| - 2].controller)) else None)
      else Some(top)
    else if (from.Some? && IsDialog(from.value)) || IsDialog(to.value) then None
    else Some(to)
  }

  /** Changes that involve a dialog never touch the lift state. */
  lemma DialogChangesIgnored(bs: seq<Transaction>, to: Controller, from: Option<Controller>)
    requires IsDialog(to) || (from.Some? && IsDialog(from.value))
    ensures SyncTarget(bs, Some(to), from).None?
  {
  }

  // ---------------------------------------------------------------------------
  // Intents

  /** The extras bundle of a manga or anime shortcut (`getLong`, 0 when absent). */
  datatype Extras = Extras(mangaId: int, animeId: int)

  datatype Intent = Intent(
    action: Option<string>,
    intExtras: map<string, int>,
    extras: Option<Extras>,
    stringExtras: map<string, string>)

  /** `getIntExtra(key, default)`. */
  function IntExtra(intent: Intent, key: string, default: int): int {
    if key in intent.intExtras then intent.intExtras[key] else default
  }

  /** `getStringExtra(key)`. */
  function StringExtra(intent: Intent, key: string): Option<string> {
    if key in intent.stringExtras then Some(intent.stringExtras[key]) else None
  }

  /** The notification to dismiss (id, group) when the intent names one. */
  function NotificationToDismiss(intent: Intent): (r: Option<(int, int)>)
    ensures r.Some? <==> IntExtra(intent, "notificationId", -1) >= 0
  {
    var id := IntExtra(intent, "notificationId", -1);
    if id > -1 then Some((id, IntExtra(intent, "groupId", 0))) else None
  }

  /** The branches of the intent dispatch. */
  datatype IntentKind =
    | SelectTab(navId: int)
    | OpenOverTab(navId: int, screen: ControllerKind)
    | ShowManga
    | ShowAnime
    | PlatformSearch
    | AppSearch(anime: bool)
    | UnknownAction

  function Classify(action: Option<string>): (r: IntentKind)
    ensures action.None? ==> r.UnknownAction?
    ensures r.SelectTab? ==> NavRootKind(r.navId).Some? && r.navId != NAV_MORE
    ensures r.OpenOverTab? ==> r.navId == NAV_BROWSE || r.navId == NAV_MORE
    ensures r.ShowManga? <==> action == Some(SHORTCUT_MANGA)
    ensures r.ShowAnime? <==> action == Some(SHORTCUT_ANIME)
    ensures r.PlatformSearch? <==>
      action == Some(ACTION_SEARCH) || action == Some(ACTION_SEND) || action == Some(GOOGLE_SEARCH_ACTION)
  {
    if action.None? then UnknownAction
    else
      var a := action.value;
      if a == SHORTCUT_LIBRARY then SelectTab(NAV_LIBRARY)
      else if a == SHORTCUT_ANIMELIB then SelectTab(NAV_ANIMELIB)
      else if a == SHORTCUT_RECENTLY_UPDATED then SelectTab(NAV_UPDATES)
      else if a == SHORTCUT_RECENTLY_READ then SelectTab(NAV_HISTORY)
      else if a == SHORTCUT_CATALOGUES then SelectTab(NAV_BROWSE)
      else if a == SHORTCUT_EXTENSIONS then OpenOverTab(NAV_BROWSE, BrowseController(true, false))
      else if a == SHORTCUT_ANIMEEXTENSIONS then OpenOverTab(NAV_BROWSE, BrowseController(false, true))
      else if a == SHORTCUT_MANGA then ShowManga
      else if a == SHORTCUT_ANIME then ShowAnime
      else if a == SHORTCUT_DOWNLOADS then OpenOverTab(NAV_MORE, DownloadController)
      else if a == SHORTCUT_ANIME_DOWNLOADS then OpenOverTab(NAV_MORE, AnimeDownloadController)
      else if a == ACTION_SEARCH || a == ACTION_SEND || a == GOOGLE_SEARCH_ACTION then PlatformSearch
      else if a == INTENT_SEARCH then AppSearch(false)
      else if a == INTENT_ANIMESEARCH then AppSearch(true)
      else UnknownAction
  }

  /** The search query of a platform search: the query extra, else the shared text. */
  function PlatformQuery(intent: Intent): Option<string> {
    var q := StringExtra(intent, SEARCH_MANAGER_QUERY);
    if q.Some? then q else StringExtra(intent, EXTRA_TEXT)
  }

  /** The global search a search intent opens, when its query is present and not empty. */
  function SearchOf(intent: Intent, kind: IntentKind): (r: Option<ControllerKind>)
    requires kind.PlatformSearch? || kind.AppSearch?
    ensures r.Some? ==> r.value.GlobalSearchController? || r.value.GlobalAnimeSearchController?
    ensures r.Some? ==> r.value.query != []
  {
    if kind.PlatformSearch? then
      var q := PlatformQuery(intent);
      if q.Some? && q.value != [] then Some(GlobalSearchController(q.value, None)) else None
    else
      var q := StringExtra(intent, INTENT_SEARCH_QUERY);
      if q.None? || q.value == [] then None
      else
        var filter := StringExtra(intent, INTENT_SEARCH_FILTER);
        Some(if kind.anime then GlobalAnimeSearchController(q.value, filter) else GlobalSearchController(q.value, filter))
  }

  /** Whether the intent is handled (returns true). */
  predicate Handled(intent: Intent) {
    var k := Classify(intent.action);
    !(k.UnknownAction? || ((k.ShowManga? || k.ShowAnime?) && intent.extras.None?))
  }

  /** The controller a manga or anime shortcut shows. */
  function EntryOf(kind: IntentKind, extras: Extras): ControllerKind
    requires kind.ShowManga? || kind.ShowAnime?
  {
    if kind.ShowManga? then MangaController(extras.mangaId) else AnimeController(extras.animeId)
  }

  /** The tab a manga or anime shortcut opens its entry over. */
  function EntryTab(kind: IntentKind): int
    requires kind.ShowManga? || kind.ShowAnime?
  {
    if kind.ShowManga? then NAV_LIBRARY else NAV_ANIMELIB
  }

  function TopKind(bs: seq<Transaction>): Option<ControllerKind> {
    if bs == [] then None else Some(bs[|bs| - 1].controller.kind)
  }

  /** A search intent whose query is missing or empty: handled, yet nothing is shown. */
  predicate SearchWithoutQuery(intent: Intent) {
    var k := Classify(intent.action);
    (k.PlatformSearch? || k.AppSearch?) && SearchOf(intent, k).None?
  }

  // ---------------------------------------------------------------------------
  // Back press

  datatype BackOutcome =
    | UpdatesBack(handled: bool)
    | MovedToStartScreen
    | RouterBack
    | ConfirmingExit
    | LeaveApp(clearCaches: bool)

  // ---------------------------------------------------------------------------
  // The activity

  class MainActivity {
    const router: Router

    // Preferences and platform state the activity reads.
    var bottomNavStyle: int
    var confirmExit: bool
    var isTabletUi: bool
    var isFinishing: bool

    // State the activity keeps.
    var selectedNavItem: int
    var isConfirmingExit: bool
    var isHandlingShortcut: bool
    var ready: bool
    var backstackLiftState: map<nat, bool>
    var appbarLifted: bool
    var homeAsUp: bool
    var updatesBadge: Option<int>
    var extensionsBadge: Option<int>

    constructor (router: Router, bottomNavStyle: int, confirmExit: bool, isTabletUi: bool)
      ensures this.router == router && this.bottomNavStyle == bottomNavStyle
      ensures this.confirmExit == confirmExit && this.isTabletUi == isTabletUi
      ensures !isFinishing && !isConfirmingExit && !isHandlingShortcut && !ready
      ensures backstackLiftState == map[] && !appbarLifted
      ensures updatesBadge == None && extensionsBadge == None
    {
      this.router := router;
      this.bottomNavStyle := bottomNavStyle;
      this.confirmExit := confirmExit;
      this.isTabletUi := isTabletUi;
      isFinishing := false;
      selectedNavItem := START_SCREEN_ID;
      isConfirmingExit := false;
      isHandlingShortcut := false;
      ready := false;
      backstackLiftState := map[];
      appbarLifted := false;
      homeAsUp := false;
      updatesBadge := None;
      extensionsBadge := None;
    }

    /**
     * The item-selected listener of the navigation view: a different root
     * is installed, tagged with the item's id; an item that is already the
     * root does its reselect action unless a shortcut is being handled.
     */
    method OnNavItemSelected(id: int) returns (effect: Reselect)
      requires router.Valid()
      modifies router, this`selectedNavItem
      ensures router.Valid() && selectedNavItem == id
      ensures RootTag(old(router.backstack)) != Some(id) ==> effect == NoReselect
      ensures RootTag(old(router.backstack)) != Some(id) && NavRootKind(id).Some? ==>
        router.backstack == [Transaction(Controller(NavRootKind(id).value, old(router.nextInstanceId)), Some(id))]
      ensures RootTag(old(router.backstack)) != Some(id) && NavRootKind(id).None? ==>
        router.backstack == old(router.backstack)
      ensures RootTag(old(router.backstack)) == Some(id) ==>
        effect == Reselection(old(router.backstack), id, isHandlingShortcut)
      ensures RootTag(old(router.backstack)) == Some(id) ==>
        router.backstack == old(router.backstack) +
          (if effect == PushSettings then [Transaction(Controller(SettingsMainController, old(router.nextInstanceId)), None)] else [])
      ensures NavRootKind(id).Some? ==> RootTag(router.backstack) == Some(id)
    {
      effect := NoReselect;
      if RootTag(router.backstack) != Some(id) {
        var kind := NavRootKind(id);
        if kind.Some? {
          var c := router.SetRoot(kind.value, id);
        }
      } else {
        effect := Reselection(router.backstack, id, isHandlingShortcut);
        if effect == PushSettings {
          var c := router.PushController(SettingsMainController);
        }
      }
      selectedNavItem := id;
    }

    /**
     * `setSelectedNavItem`: nothing while finishing; an id the style can
     * select is selected; any other id selects `more` and then installs
     * `getControllerForId(id)` as the root, tagged with the id. Either way
     * the root ends up tagged with the requested id.
     */
    method SetSelectedNavItem(itemId: int) returns (effect: Reselect)
      requires router.Valid()
      modifies router, this`selectedNavItem
      ensures router.Valid()
      ensures isFinishing ==>
        router.backstack == old(router.backstack) && router.nextInstanceId == old(router.nextInstanceId) &&
        selectedNavItem == old(selectedNavItem) && effect == NoReselect
      ensures !isFinishing ==> RootTag(router.backstack) == Some(itemId)
      ensures !isFinishing && itemId in StartScreenArray(bottomNavStyle) ==> selectedNavItem == itemId
      ensures !isFinishing && itemId in StartScreenArray(bottomNavStyle) && RootTag(old(router.backstack)) == Some(itemId) ==>
        router.backstack == old(router.backstack)
      ensures !isFinishing && (itemId !in StartScreenArray(bottomNavStyle) || RootTag(old(router.backstack)) != Some(itemId)) ==>
        |router.backstack| == 1 && router.backstack[0].controller.kind == ControllerForId(itemId)
      ensures !isFinishing && itemId !in StartScreenArray(bottomNavStyle) ==> selectedNavItem == NAV_MORE
      ensures isHandlingShortcut ==> effect == NoReselect
    {
      var newItemId := NavIdForId(bottomNavStyle, itemId);
      effect := NoReselect;
      if !isFinishing {
        if newItemId.Some? {
          effect := OnNavItemSelected(newItemId.value);
        } else {
          effect := OnNavItemSelected(NAV_MORE);
          var c := router.SetRoot(ControllerForId(itemId), itemId);
        }
      }
    }

    /** `moveToStartScreen`. */
    method MoveToStartScreen() returns (effect: Reselect)
      requires router.Valid()
      modifies router, this`selectedNavItem
      ensures router.Valid()
      ensures isFinishing ==> router.backstack == old(router.backstack) && selectedNavItem == old(selectedNavItem)
      ensures !isFinishing ==> RootTag(router.backstack) == Some(START_SCREEN_ID) && selectedNavItem == START_SCREEN_ID
      ensures !isFinishing && RootTag(old(router.backstack)) != Some(START_SCREEN_ID) ==>
        |router.backstack| == 1 && router.backstack[0].controller.kind == AnimelibController
    {
      NavIdsOfStyles(bottomNavStyle);
      effect := SetSelectedNavItem(START_SCREEN_ID);
    }

    /** The extension and download shortcuts: back to the root, select the tab, open the screen. */
    method OpenScreenOverTab(navId: int, kind: ControllerKind)
      requires router.Valid() && isHandlingShortcut
      modifies router, this`selectedNavItem
      ensures router.Valid()
      ensures TopKind(router.backstack) == Some(kind)
      ensures isFinishing ==>
        router.backstack == RootOnly(old(router.backstack)) + [Transaction(Controller(kind, old(router.nextInstanceId)), None)]
      ensures !isFinishing ==> |router.backstack| == 2 && RootTag(router.backstack) == Some(navId)
    {
      if |router.backstack| > 1 {
        router.PopToRoot();
      }
      var effect := SetSelectedNavItem(navId);
      var c := router.PushController(kind);
    }

    /** The manga and anime shortcuts: back to the root, select the tab, open the entry. */
    method OpenEntry(navId: int, kind: ControllerKind)
      requires router.Valid() && isHandlingShortcut
      modifies router, this`selectedNavItem
      ensures router.Valid()
      ensures TopKind(router.backstack) == Some(kind)
      ensures !isFinishing ==> |router.backstack| == 2 && RootTag(router.backstack) == Some(navId)
    {
      router.PopToRoot();
      var effect := SetSelectedNavItem(navId);
      var c := router.PushController(kind);
    }

    /** The search intents: back to the root and open the search, when there is a query. */
    method OpenSearch(search: Option<ControllerKind>)
      requires router.Valid()
      modifies router
      ensures router.Valid()
      ensures search.None? ==> router.backstack == old(router.backstack)
      ensures search.Some? ==>
        router.backstack == RootOnly(old(router.backstack)) + [Transaction(Controller(search.value, old(router.nextInstanceId)), None)]
    {
      if search.Some? {
        if |router.backstack| > 1 {
          router.PopToRoot();
        }
        var c := router.PushController(search.value);
      }
    }

    /**
     * `handleIntentAction`: dismisses the notification the intent names,
     * then dispatches on the action. An unknown action is not handled; a
     * manga or anime shortcut without extras is not handled and leaves the
     * shortcut flag set; every other action is handled, marks the activity
     * ready and clears the flag.
     */
    method HandleIntentAction(intent: Intent) returns (handled: bool, dismissed: Option<(int, int)>)
      requires router.Valid()
      modifies router, this`selectedNavItem, this`isHandlingShortcut, this`ready
      ensures router.Valid()
      ensures dismissed == NotificationToDismiss(intent)
      ensures handled == Handled(intent)
      ensures handled ==> ready && !isHandlingShortcut
      ensures !handled ==>
        router.backstack == old(router.backstack) && selectedNavItem == old(selectedNavItem) && ready == old(ready)
      ensures !handled ==> (isHandlingShortcut <==> !Classify(intent.action).UnknownAction?)
      ensures var k := Classify(intent.action);
        k.SelectTab? && !isFinishing ==> RootTag(router.backstack) == Some(k.navId)
      ensures var k := Classify(intent.action);
        k.OpenOverTab? ==>
          TopKind(router.backstack) == Some(k.screen) &&
          (!isFinishing ==> |router.backstack| == 2 && RootTag(router.backstack) == Some(k.navId))
      ensures var k := Classify(intent.action);
        (k.ShowManga? || k.ShowAnime?) && intent.extras.Some? ==>
          TopKind(router.backstack) == Some(EntryOf(k, intent.extras.value)) &&
          (TopKind(old(router.backstack)) == Some(EntryOf(k, intent.extras.value)) ==> router.backstack == old(router.backstack))
      ensures var k := Classify(intent.action);
        (k.ShowManga? || k.ShowAnime?) && intent.extras.Some? && !isFinishing &&
        TopKind(old(router.backstack)) != Some(EntryOf(k, intent.extras.value)) ==>
          |router.backstack| == 2 && RootTag(router.backstack) == Some(EntryTab(k))
      ensures var k := Classify(intent.action);
        (k.PlatformSearch? || k.AppSearch?) && SearchOf(intent, k).None? ==> router.backstack == old(router.backstack)
      ensures var k := Classify(intent.action);
        (k.PlatformSearch? || k.AppSearch?) && SearchOf(intent, k).Some? ==>
          router.backstack == RootOnly(old(router.backstack)) +
            [Transaction(Controller(SearchOf(intent, k).value, old(router.nextInstanceId)), None)]
    {
      dismissed := NotificationToDismiss(intent);
      isHandlingShortcut := true;
      var k := Classify(intent.action);
      match k {
        case SelectTab(navId) =>
          var effect := SetSelectedNavItem(navId);
        case OpenOverTab(navId, screen) =>
          OpenScreenOverTab(navId, screen);
        case ShowManga =>
          if intent.extras.None? {
            handled := false;
            return;
          }
          var entry := MangaController(intent.extras.value.mangaId);
          if TopKind(router.backstack) != Some(entry) {
            OpenEntry(EntryTab(k), entry);
          }
        case ShowAnime =>
          if intent.extras.None? {
            handled := false;
            return;
          }
          var entry := AnimeController(intent.extras.value.animeId);
          if TopKind(router.backstack) != Some(entry) {
            OpenEntry(EntryTab(k), entry);
          }
        case PlatformSearch =>
          OpenSearch(SearchOf(intent, k));
        case AppSearch(_) =>
          OpenSearch(SearchOf(intent, k));
        case UnknownAction =>
          isHandlingShortcut := false;
          handled := false;
          return;
      }
      ready := true;
      isHandlingShortcut := false;
      handled := true;
    }

    /**
     * The start of `onCreate` when the router has no root: the intent is
     * handled, or else the start screen is shown. The backstack is left
     * empty exactly for a search intent without a query.
     */
    method StartWithIntent(intent: Intent) returns (handled: bool, dismissed: Option<(int, int)>)
      requires router.Valid()
      modifies router, this`selectedNavItem, this`isHandlingShortcut, this`ready
      ensures router.Valid()
      ensures old(router.backstack) != [] ==> router.backstack == old(router.backstack) && !handled && dismissed == None
      ensures old(router.backstack) == [] && !isFinishing ==> (router.backstack == [] <==> SearchWithoutQuery(intent))
      ensures old(router.backstack) == [] && !isFinishing && !handled ==> RootTag(router.backstack) == Some(START_SCREEN_ID)
    {
      handled, dismissed := false, None;
      if router.backstack == [] {
        handled, dismissed := HandleIntentAction(intent);
        if !handled {
          var effect := MoveToStartScreen();
        }
      }
    }

    /** `shouldHandleExitConfirmation`. */
    predicate ShouldHandleExitConfirmation()
      reads this, router
      ensures ShouldHandleExitConfirmation() <==>
        |router.backstack| == 1 && RootTag(router.backstack) == Some(START_SCREEN_ID) && confirmExit && !isConfirmingExit
    {
      |router.backstack| == 1 && ControllerWithTag(router.backstack, START_SCREEN_ID).Some? &&
      confirmExit && !isConfirmingExit
    }

    /**
     * `onBackPressed`. `topConsumes` is whether the top controller handles
     * the press itself; `autoClearCache` is the preference that clears the
     * chapter and episode caches when the app is left.
     */
    method OnBackPressed(topConsumes: bool, autoClearCache: bool) returns (outcome: BackOutcome)
      requires router.Valid()
      modifies router, this`selectedNavItem, this`isConfirmingExit
      ensures router.Valid()
      ensures var bs := old(router.backstack);
        ControllerWithTag(bs, NAV_UPDATES).Some? ==>
          outcome == UpdatesBack(BackHandled(bs, topConsumes)) && router.backstack == AfterBack(bs, topConsumes)
      ensures var bs := old(router.backstack);
        outcome == MovedToStartScreen <==>
          ControllerWithTag(bs, NAV_UPDATES).None? && |bs| == 1 && ControllerWithTag(bs, START_SCREEN_ID).None?
      ensures outcome == MovedToStartScreen && !isFinishing ==>
        |router.backstack| == 1 && RootTag(router.backstack) == Some(START_SCREEN_ID)
      ensures var bs := old(router.backstack);
        outcome == ConfirmingExit <==>
          ControllerWithTag(bs, NAV_UPDATES).None? && |bs| == 1 && ControllerWithTag(bs, START_SCREEN_ID).Some? &&
          !topConsumes && confirmExit && !old(isConfirmingExit)
      ensures isConfirmingExit == (old(isConfirmingExit) || outcome == ConfirmingExit)
      ensures outcome == ConfirmingExit ==> router.backstack == old(router.backstack)
      ensures var bs := old(router.backstack);
        outcome == RouterBack <==>
          ControllerWithTag(bs, NAV_UPDATES).None? &&
          (|bs| > 1 || (|bs| == 1 && ControllerWithTag(bs, START_SCREEN_ID).Some? && topConsumes))
      ensures outcome == RouterBack ==> router.backstack == AfterBack(old(router.backstack), topConsumes)
      ensures outcome.LeaveApp? ==>
        |old(router.backstack)| <= 1 && router.backstack == old(router.backstack) && outcome.clearCaches == autoClearCache
      ensures outcome != MovedToStartScreen ==> selectedNavItem == old(selectedNavItem)
    {
      if ControllerWithTag(router.backstack, NAV_UPDATES).Some? {
        var h := router.HandleBack(topConsumes);
        return UpdatesBack(h);
      }
      var backstackSize := |router.backstack|;
      var startScreen := ControllerWithTag(router.backstack, START_SCREEN_ID);
      if backstackSize == 1 && startScreen.None? {
        var effect := MoveToStartScreen();
        outcome := MovedToStartScreen;
        return;
      }
      var handledByRouter := false;
      if startScreen.Some? {
        handledByRouter := router.HandleBack(topConsumes);
      }
      if handledByRouter {
        outcome := RouterBack;
      } else if ShouldHandleExitConfirmation() {
        isConfirmingExit := true;
        outcome := ConfirmingExit;
      } else {
        var leave := backstackSize == 1;
        if !leave {
          var h := router.HandleBack(topConsumes);
          leave := !h;
        }
        outcome := if leave then LeaveApp(autoClearCache) else RouterBack;
      }
    }

    /** The end of `resetExitConfirmation`, two seconds after it began. */
    method EndExitConfirmation()
      modifies this`isConfirmingExit
      ensures !isConfirmingExit
    {
      isConfirmingExit := false;
    }

    /** `setUnreadUpdatesBadge`, with the two counts the badge is meant to add. */
    method SetUnreadUpdatesBadge(showBadge: bool, unreadUpdates: int, unseenUpdates: int)
      modifies this`updatesBadge
      ensures updatesBadge == UpdatesBadge(showBadge, unreadUpdates, unseenUpdates)
    {
      updatesBadge := UpdatesBadge(showBadge, unreadUpdates, unseenUpdates);
    }

    /** `setExtensionsBadge`. */
    method SetExtensionsBadge(extensionUpdates: int, animeExtensionUpdates: int)
      modifies this`extensionsBadge
      ensures extensionsBadge == ExtensionsBadge(extensionUpdates, animeExtensionUpdates)
    {
      extensionsBadge := ExtensionsBadge(extensionUpdates, animeExtensionUpdates);
    }

    /**
     * `syncActivityViewWithController`, run by the router when a change
     * starts (the backstack already changed): the up button shows above the
     * root, and on phones the lift state is saved on push and restored on pop.
     */
    method SyncActivityViewWithController(to: Option<Controller>, from: Option<Controller>, isPush: bool)
      modifies this`backstackLiftState, this`appbarLifted, this`homeAsUp
      ensures var target := SyncTarget(router.backstack, to, from);
        target.None? ==>
          backstackLiftState == old(backstackLiftState) && appbarLifted == old(appbarLifted) && homeAsUp == old(homeAsUp)
      ensures var target := SyncTarget(router.backstack, to, from);
        target.Some? ==> homeAsUp == (|router.backstack| != 1)
      ensures var target := SyncTarget(router.backstack, to, from);
        target.Some? && isTabletUi ==>
          backstackLiftState == old(backstackLiftState) && appbarLifted == old(appbarLifted)
      ensures var target := SyncTarget(router.backstack, to, from);
        target.Some? && !isTabletUi && isPush ==>
          Lift(backstackLiftState, appbarLifted) ==
            LiftOnPush(Lift(old(backstackLiftState), old(appbarLifted)), from, |router.backstack|)
      ensures var target := SyncTarget(router.backstack, to, from);
        target.Some? && !isTabletUi && !isPush ==>
          Lift(backstackLiftState, appbarLifted) ==
            LiftOnPop(Lift(old(backstackLiftState), old(appbarLifted)), target.value, from)
    {
      var target := SyncTarget(router.backstack, to, from);
      if target.None? {
        return;
      }
      homeAsUp := |router.backstack| != 1;
      if !isTabletUi {
        var next :=
          if isPush then LiftOnPush(Lift(backstackLiftState, appbarLifted), from, |router.backstack|)
          else LiftOnPop(Lift(backstackLiftState, appbarLifted), target.value, from);
        backstackLiftState := next.saved;
        appbarLifted := next.lifted;
      }
    }
  }
}
