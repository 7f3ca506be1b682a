/**
 The root layout's navigation state machine: which page is mounted, the stack
 of pages to return to, the side drawer and the start-up splash, together with
 the hardware back-button policy that ties them together.
 */
module Navigation {

  /** The closed set of page keys the layout switches between. */
  datatype Page =
    | Dashboard | CityPrides | Schemes | Videos | ImageGenerate
    | SchemeDetails | CityDetails | SelectImage | Login | SplashScreen
    | EditImageGenerate | Otp

  /** Layout state: the mounted page, the pages to go back to (most recent
      last), whether the drawer is open and whether the start-up splash still
      covers the app. */
  datatype Nav = Nav(current: Page, history: seq<Page>, drawerOpen: bool, showSplash: bool)

  /** The pages the bottom tab bar and the drawer offer, in display order. */
  const TabPages: seq<Page> := [Dashboard, CityPrides, Schemes, Videos, ImageGenerate]

  /** State on first render: splash shown over the dashboard, nothing to go back to. */
  function Initial(): (s: Nav)
    ensures s.showSplash && !s.drawerOpen && s.history == [] && s.current == Dashboard
  {
    Nav(Dashboard, [], false, true)
  }

  /** `navigateTo`: re-entering the current page is a no-op; otherwise the page
      being left is pushed and the target becomes current. The drawer and the
      splash flag are untouched. */
  function NavigateTo(s: Nav, p: Page): (r: Nav)
    ensures r.drawerOpen == s.drawerOpen && r.showSplash == s.showSplash
    ensures r.current == p
    ensures p == s.current ==> r == s
    ensures p != s.current ==> r.history == s.history + [s.current]
  {
    if p != s.current then s.(history := s.history + [s.current], current := p) else s
  }

  /** `goBack`: with an empty history nothing changes; otherwise the most
      recent entry becomes current and is dropped from the stack. */
  function GoBack(s: Nav): (r: Nav)
    ensures r.drawerOpen == s.drawerOpen && r.showSplash == s.showSplash
    ensures s.history == [] ==> r == s
    ensures s.history != [] ==>
      r.current == s.history[|s.history| - 1] && r.history + [r.current] == s.history
  {
    if |s.history| == 0 then s
    else s.(current := s.history[|s.history| - 1], history := s.history[..|s.history| - 1])
  }

  /** What one hardware back press did: the next state, whether the press was
      consumed (the `true`/`false` returned to the platform), and whether the
      exit confirmation dialog was shown. */
  datatype BackOutcome = BackOutcome(next: Nav, handled: bool, exitPrompt: bool)

  /** The back handler's fixed priority: close the drawer; else go back one
      page; else on the dashboard ask whether to exit; else let the platform
      handle the press. */
  function BackAction(s: Nav): (o: BackOutcome)
    ensures s.drawerOpen ==>
      o.handled && !o.exitPrompt && o.next == s.(drawerOpen := false)
    ensures !s.drawerOpen && s.history != [] ==>
      o.handled && !o.exitPrompt && o.next == GoBack(s)
    ensures !s.drawerOpen && s.history == [] ==>
      o.next == s && o.exitPrompt == o.handled && (o.handled <==> s.current == Dashboard)
  {
    if s.drawerOpen then BackOutcome(s.(drawerOpen := false), true, false)
    else if |s.history| > 0 then BackOutcome(GoBack(s), true, false)
    else if s.current == Dashboard then BackOutcome(s, true, true)
    else BackOutcome(s, false, false)
  }

  /** The splash's `onFinish`: hide the splash and land on the dashboard. */
  function SplashFinished(s: Nav): (r: Nav)
    ensures !r.showSplash && r.current == Dashboard
    ensures r.history == s.history && r.drawerOpen == s.drawerOpen
  {
    s.(showSplash := false, current := Dashboard)
  }

  /** Header (with the drawer button) and bottom tabs are drawn on every page
      except the two sign-in pages. */
  predicate ShowsChrome(p: Page) {
    p != Login && p != Otp
  }

  /** The menu button flips the drawer; it exists only when the header is drawn. */
  function PressMenu(s: Nav): (r: Nav)
    ensures r.current == s.current && r.history == s.history && r.showSplash == s.showSplash
    ensures r.drawerOpen == (if !s.showSplash && ShowsChrome(s.current) then !s.drawerOpen else s.drawerOpen)
  {
    if !s.showSplash && ShowsChrome(s.current) then s.(drawerOpen := !s.drawerOpen) else s
  }

  /** A bottom tab navigates to its page; the tab bar exists only when the
      chrome is drawn, and offers only the tab pages. */
  function PressTab(s: Nav, p: Page): (r: Nav)
    ensures !s.showSplash && ShowsChrome(s.current) && p in TabPages ==> r == NavigateTo(s, p)
    ensures s.showSplash || !ShowsChrome(s.current) || p !in TabPages ==> r == s
  {
    if !s.showSplash && ShowsChrome(s.current) && p in TabPages then NavigateTo(s, p) else s
  }

  /** A drawer entry navigates to its page and closes the drawer; entries exist
      only while the drawer is drawn. */
  function PressDrawerItem(s: Nav, p: Page): (r: Nav)
    ensures !s.showSplash && s.drawerOpen && p in TabPages ==>
      r == NavigateTo(s, p).(drawerOpen := false)
    ensures s.showSplash || !s.drawerOpen || p !in TabPages ==> r == s
  {
    if !s.showSplash && s.drawerOpen && p in TabPages then NavigateTo(s, p).(drawerOpen := false) else s
  }

  /** Tapping the dimmed backdrop beside the drawer closes it. */
  function PressBackdrop(s: Nav): (r: Nav)
    ensures !s.showSplash ==> r == s.(drawerOpen := false)
    ensures s.showSplash ==> r == s
  {
    if !s.showSplash then s.(drawerOpen := false) else s
  }

  /** Every event the layout reacts to. `Screen(p)` is a mounted screen calling
      the `navigateTo` it was handed. */
  datatype Event =
    | Screen(p: Page)
    | HardwareBack
    | SplashDone
    | Menu
    | Tab(p: Page)
    | DrawerItem(p: Page)
    | Backdrop

  /** One event. While the splash covers the app no screen, header, tab or
      drawer is mounted, so only the back button and the splash timer act.
      Only the back button shortens the history; every other event leaves it
      as it was or pushes one page; and the splash never comes back. */
  function Step(s: Nav, e: Event): (r: Nav)
    ensures s.showSplash && !e.SplashDone? && !e.HardwareBack? ==> r == s
    ensures r.showSplash ==> s.showSplash
    ensures e.HardwareBack? ==> r.history <= s.history && |s.history| <= |r.history| + 1
    ensures !e.HardwareBack? ==> s.history <= r.history && |r.history| <= |s.history| + 1
  {
    match e
    case Screen(p) => if s.showSplash then s else NavigateTo(s, p)
    case HardwareBack => BackAction(s).next
    case SplashDone => if s.showSplash then SplashFinished(s) else s
    case Menu => PressMenu(s)
    case Tab(p) => PressTab(s, p)
    case DrawerItem(p) => PressDrawerItem(s, p)
    case Backdrop => PressBackdrop(s)
  }

  function Run(s: Nav, es: seq<Event>): Nav
    decreases |es|
  {
    if es == [] then s else Run(Step(s, es[0]), es[1..])
  }

  /** No page is followed directly by itself. */
  predicate NoRepeats(ps: seq<Page>) {
    forall i :: 0 <= i < |ps| - 1 ==> ps[i] != ps[i + 1]
  }

  /** The layout invariant: the history followed by the current page never
      repeats a page back to back (a push always changes the page), and while
      the splash is up nothing has been pushed and the drawer is shut. */
  predicate WellFormed(s: Nav) {
    && NoRepeats(s.history + [s.current])
    && (s.showSplash ==> s.history == [] && !s.drawerOpen)
  }

  lemma NavigateToKeepsNoRepeats(s: Nav, p: Page)
    requires NoRepeats(s.history + [s.current])
    ensures NoRepeats(NavigateTo(s, p).history + [NavigateTo(s, p).current])
  {
    if p != s.current {
      var trail := s.history + [s.current];
      assert NavigateTo(s, p).history + [NavigateTo(s, p).current] == trail + [p];
    }
  }

  lemma GoBackKeepsNoRepeats(s: Nav)
    requires NoRepeats(s.history + [s.current])
    ensures NoRepeats(GoBack(s).history + [GoBack(s).current])
  {
    if s.history != [] {
      assert GoBack(s).history + [GoBack(s).current] == s.history;
      assert s.history == (s.history + [s.current])[..|s.history|];
    }
  }

  /** The first render satisfies the layout invariant. */
  lemma InitialWellFormed()
    ensures WellFormed(Initial())
  {
  }

  /** Every event keeps the layout invariant. */
  lemma StepKeepsWellFormed(s: Nav, e: Event)
    requires WellFormed(s)
    ensures WellFormed(Step(s, e))
  {
    match e
    case Screen(p) => NavigateToKeepsNoRepeats(s, p);
    case HardwareBack => GoBackKeepsNoRepeats(s);
    case SplashDone =>
    case Menu =>
    case Tab(p) => NavigateToKeepsNoRepeats(s, p);
    case DrawerItem(p) => NavigateToKeepsNoRepeats(s, p);
    case Backdrop =>
  }

  /** Any run of events from a well-formed state stays well formed; in
      particular every run from the first render does. */
  lemma {:induction false} RunKeepsWellFormed(s: Nav, es: seq<Event>)
    requires WellFormed(s)
    ensures WellFormed(Run(s, es))
    decreases |es|
  {
    if es != [] {
      StepKeepsWellFormed(s, es[0]);
      RunKeepsWellFormed(Step(s, es[0]), es[1..]);
    }
  }

  /** Round trip: a real navigation followed by `goBack` restores the page and
      the history (the drawer and splash flags are never touched by either). */
  lemma NavigateThenBack(s: Nav, p: Page)
    requires p != s.current
    ensures GoBack(NavigateTo(s, p)) == s
  {
    assert (s.history + [s.current])[..|s.history|] == s.history;
  }

  /** A chain of navigations, each to a page different from the one before. */
  function NavigateAll(s: Nav, ps: seq<Page>): Nav
    decreases |ps|
  {
    if ps == [] then s else NavigateAll(NavigateTo(s, ps[0]), ps[1..])
  }

  function GoBackTimes(s: Nav, n: nat): Nav
    decreases n
  {
    if n == 0 then s else GoBackTimes(GoBack(s), n - 1)
  }

  /** `ps` leaves the page `from` and never re-enters the page it is on. */
  predicate ChangesEachTime(from: Page, ps: seq<Page>) {
    && (ps != [] ==> ps[0] != from)
    && NoRepeats(ps)
  }

  /** After `n` changing navigations the history has grown by exactly the `n`
      pages that were left, in order, and the last target is current. */
  lemma {:induction false} NavigateAllPushes(s: Nav, ps: seq<Page>)
    requires ps != [] && ChangesEachTime(s.current, ps)
    ensures NavigateAll(s, ps).current == ps[|ps| - 1]
    ensures NavigateAll(s, ps).history == s.history + [s.current] + ps[..|ps| - 1]
    ensures NavigateAll(s, ps).drawerOpen == s.drawerOpen
    decreases |ps|
  {
    var t := NavigateTo(s, ps[0]);
    if |ps| > 1 {
      assert ChangesEachTime(t.current, ps[1..]);
      NavigateAllPushes(t, ps[1..]);
      assert ps[1..][..|ps| - 2] == ps[1..|ps| - 1];
      assert [ps[0]] + ps[1..|ps| - 1] == ps[..|ps| - 1];
    } else {
      assert ps[..0] == [];
    }
  }

  /** `n` changing navigations undone by `n` back steps return to the start:
      same page, same history, same drawer and splash flags. */
  lemma {:induction false} NavigateAllThenBackAll(s: Nav, ps: seq<Page>)
    requires ChangesEachTime(s.current, ps)
    ensures GoBackTimes(NavigateAll(s, ps), |ps|) == s
    decreases |ps|
  {
    if ps != [] {
      var t := NavigateTo(s, ps[0]);
      assert ChangesEachTime(t.current, ps[1..]);
      NavigateAllThenBackAll(t, ps[1..]);
      // Peel the last back step off first: it is the one undoing ps[0].
      GoBackTimesLast(NavigateAll(s, ps), |ps|);
      assert NavigateAll(s, ps) == NavigateAll(t, ps[1..]);
      NavigateThenBack(s, ps[0]);
    }
  }

  lemma {:induction false} GoBackTimesLast(s: Nav, n: nat)
    requires n > 0
    ensures GoBackTimes(s, n) == GoBack(GoBackTimes(s, n - 1))
    decreases n
  {
    if n > 1 {
      GoBackTimesLast(GoBack(s), n - 1);
    }
  }

  /** Back presses with the drawer open never touch the stack, whatever it holds. */
  lemma DrawerWinsOverHistory(s: Nav)
    requires s.drawerOpen && s.history != []
    ensures BackAction(s).next.current == s.current
    ensures BackAction(s).next.history == s.history
    ensures !BackAction(s).next.drawerOpen && BackAction(s).handled
  {
  }
}
