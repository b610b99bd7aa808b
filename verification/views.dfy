/** The view loader: one `loadView(route)` call as a transition over an abstract page.
    The network fetch, the module import and the cleanup call are inputs; the result is
    the new page together with the ordered trace of the effects the call performs. */
module Views {
  import opened Wrappers
  import opened Routing
  import opened Stylesheets
  import opened Tabs

  /** The identity of a cleanup function returned by a view's `init`. */
  datatype Cleanup = Cleanup(id: nat)

  /** The router's `currentRoute` record. */
  datatype CurrentRoute = CurrentRoute(route: Option<string>, cleanup: Option<Cleanup>, cssHrefs: seq<string>)

  /** `currentRoute` before any view has loaded. */
  const Unrouted: CurrentRoute := CurrentRoute(None, None, [])

  /** What the view loader reads and writes: the route record, the view stylesheet links
      in the head, the app element's content, and the navbar tabs. */
  datatype Page = Page(current: CurrentRoute, head: Links, app: string, tabs: seq<Tab>)

  /** The outcome of fetching the view's HTML: a non-ok response, a rejection (of the
      `fetch` itself or of reading the response text), or the response text. */
  datatype FetchOutcome = FetchFailed | FetchThrew | Fetched(html: string)

  /** The outcome of importing the view's module and calling its `init`: either it
      completes, returning a cleanup function or not (a module without `init`, or an
      `init` returning a non-function, yields `None`), or the import or `init` throws. */
  datatype InitOutcome = Initialised(cleanup: Option<Cleanup>) | InitThrew

  /** How a `loadView` call ends: completed, returned on a non-ok response, rejected
      before the DOM swap (the fetch threw), or rejected after it (the import or `init`
      threw). */
  datatype Status = Loaded | FailedToFetch | AbortedBeforeSwap | AbortedAfterSwap

  /** The observable steps of `loadView`, in the vocabulary of the code. */
  datatype Effect =
    | CallLoadCss(href: string)
    | FetchHtml(path: string)
    | RunCleanup(cleanup: Cleanup)
    | SetContent(html: string)
    | MarkTab(route: string)
    | InitModule(path: string)
    | CommitRoute(route: string)
    | CallUnloadCss(href: string)

  datatype Step = Step(status: Status, page: Page, trace: seq<Effect>)

  /** The rank of each kind of step in the fixed order of `loadView`: stylesheet preload,
      fetch, old cleanup, DOM swap, tab marking, module init, commit, stale teardown. */
  function Phase(e: Effect): nat
  {
    match e
    case CallLoadCss(_) => 0
    case FetchHtml(_) => 1
    case RunCleanup(_) => 2
    case SetContent(_) => 3
    case MarkTab(_) => 4
    case InitModule(_) => 5
    case CommitRoute(_) => 6
    case CallUnloadCss(_) => 7
  }

  /** The trace never goes back to an earlier kind of step. */
  predicate InPhaseOrder(trace: seq<Effect>)
  {
    forall i, j :: 0 <= i < j < |trace| ==> Phase(trace[i]) <= Phase(trace[j])
  }

  /** The markup written into the app element when the fetch fails. */
  function FailureMessage(route: string): string
  {
    "<div role=\"alert\">Failed to load view: " + route + "</div>"
  }

  /** The effect of one step on the stylesheet links. */
  function ApplyEffect(links: Links, e: Effect): Links
  {
    match e
    case CallLoadCss(href) => LoadCss(links, href)
    case CallUnloadCss(href) => UnloadCss(links, href)
    case _ => links
  }

  /** The stylesheet links after performing a trace, step by step. */
  function Replay(links: Links, trace: seq<Effect>): Links
    decreases |trace|
  {
    if trace == [] then links else Replay(ApplyEffect(links, trace[0]), trace[1..])
  }

  /** The `loadCss` calls of the preload loop. */
  function LoadCalls(hrefs: seq<string>): (t: seq<Effect>)
    ensures |t| == |hrefs|
    ensures forall i :: 0 <= i < |t| ==> t[i] == CallLoadCss(hrefs[i])
    decreases |hrefs|
  {
    if hrefs == [] then [] else [CallLoadCss(hrefs[0])] + LoadCalls(hrefs[1..])
  }

  /** The `unloadCss` calls of the teardown loop. */
  function UnloadCalls(prev: seq<string>, next: seq<string>): (t: seq<Effect>)
    ensures forall e :: e in t ==> e.CallUnloadCss? && e.href in prev && e.href !in next
    ensures forall h :: h in prev && h !in next ==> CallUnloadCss(h) in t
    decreases |prev|
  {
    if prev == [] then []
    else
      assert prev == [prev[0]] + prev[1..];
      (if prev[0] in next then [] else [CallUnloadCss(prev[0])]) + UnloadCalls(prev[1..], next)
  }

  /** The call of the previous view's cleanup, when it registered one. */
  function CleanupCalls(cleanup: Option<Cleanup>): seq<Effect>
  {
    match cleanup
    case None => []
    case Some(c) => [RunCleanup(c)]
  }

  /** The invariant the router keeps between navigations: the record names a route of
      the table (with that route's stylesheets) or nothing (with no stylesheets and no
      cleanup), every stylesheet of the record is attached, and each href is attached
      at most once. */
  predicate Consistent(table: RouteTable, page: Page)
  {
    && Unique(page.head)
    && (forall h :: h in page.current.cssHrefs ==> h in page.head)
    && match page.current.route
       case None => page.current.cssHrefs == [] && page.current.cleanup == None
       case Some(r) => r in table && page.current.cssHrefs == table[r].css
  }

  /** The page when the script starts: no route, no view stylesheets. */
  function InitialPage(app: string, tabs: seq<Tab>): Page
  {
    Page(Unrouted, [], app, tabs)
  }

  /** How the call ends: the fetch decides first; after a successful fetch, a view with
      a module still aborts when the import or its `init` throws. */
  function LoadStatus(def: RouteDef, fetch: FetchOutcome, init: InitOutcome): Status
  {
    if fetch.FetchFailed? then FailedToFetch
    else if fetch.FetchThrew? then AbortedBeforeSwap
    else if HasModule(def) && init.InitThrew? then AbortedAfterSwap
    else Loaded
  }

  /** The cleanup recorded for the new view: whatever `init` returned, and none for a
      view without a module. */
  function NextCleanup(def: RouteDef, init: InitOutcome): Option<Cleanup>
  {
    if HasModule(def) && init.Initialised? then init.cleanup else None
  }

  /** The module steps after the tab marking: the init, then the commit unless the
      import or `init` throws; a view without a module commits straight away. */
  function ModuleSteps(def: RouteDef, route: string, init: InitOutcome): seq<Effect>
  {
    if HasModule(def) then
      [InitModule(def.viewModule.value)] + (if init.InitThrew? then [] else [CommitRoute(route)])
    else [CommitRoute(route)]
  }

  /** The steps after a successful fetch, up to the commit: the old cleanup, the content
      swap, the tab marking and the module steps. */
  function SwapSteps(def: RouteDef, route: string, previous: Option<Cleanup>, html: string,
                     init: InitOutcome): seq<Effect>
  {
    CleanupCalls(previous) + [SetContent(html), MarkTab(route)] + ModuleSteps(def, route, init)
  }

  /** The steps between the stylesheet preload and the stale teardown: the fetch, then
      the failure message (and the early return), nothing (the rejection propagates), or
      the swap steps. */
  function MiddleSteps(def: RouteDef, route: string, previous: Option<Cleanup>,
                       fetch: FetchOutcome, init: InitOutcome): seq<Effect>
  {
    [FetchHtml(def.html)] +
    match fetch
    case FetchFailed => [SetContent(FailureMessage(route))]
    case FetchThrew => []
    case Fetched(html) => SwapSteps(def, route, previous, html, init)
  }

  /** `loadView(route)`. The new view's stylesheets are attached before the fetch; a
      non-ok response writes the failure message and returns with the record untouched;
      a rejected fetch propagates out of the call with only the stylesheets changed;
      otherwise the old cleanup runs, the content is swapped, the tab is marked, the
      module is initialised, the record is committed and only then are the stale
      stylesheets detached. An exception from the old cleanup is swallowed, so
      `cleanupThrows` changes nothing. */
  function LoadView(table: RouteTable, page: Page, route: string,
                    fetch: FetchOutcome, init: InitOutcome, cleanupThrows: bool): (r: Step)
    requires route in table
    ensures r.status == FailedToFetch <==> fetch.FetchFailed?
    ensures r.status == AbortedBeforeSwap <==> fetch.FetchThrew?
    ensures r.status == AbortedAfterSwap <==>
              fetch.Fetched? && HasModule(table[route]) && init.InitThrew?
    ensures r.status != Loaded ==> r.page.current == page.current
    ensures r.status == Loaded ==>
              r.page.current.route == Some(route) && r.page.current.cssHrefs == table[route].css
    ensures r.status == FailedToFetch ==>
              r.page.app == FailureMessage(route) && r.page.tabs == page.tabs
    ensures r.status == AbortedBeforeSwap ==>
              r.page.app == page.app && r.page.tabs == page.tabs
    ensures fetch.Fetched? ==>
              r.page.app == fetch.html && r.page.tabs == SetActiveTab(page.tabs, route)
  {
    var def := table[route];
    var status := LoadStatus(def, fetch, init);
    var preloaded := PreloadCss(page.head, def.css);
    var steps := LoadCalls(def.css) + MiddleSteps(def, route, page.current.cleanup, fetch, init);
    match fetch
    case FetchFailed =>
      Step(status, page.(head := preloaded, app := FailureMessage(route)), steps)
    case FetchThrew =>
      Step(status, page.(head := preloaded), steps)
    case Fetched(html) =>
      var swapped := page.(head := preloaded, app := html, tabs := SetActiveTab(page.tabs, route));
      if status == AbortedAfterSwap then Step(status, swapped, steps)
      else
        Step(status,
             swapped.(current := CurrentRoute(Some(route), NextCleanup(def, init), def.css),
                      head := DetachStale(preloaded, page.current.cssHrefs, def.css)),
             steps + UnloadCalls(page.current.cssHrefs, def.css))
  }

  // ---------------------------------------------------------------------------
  // Properties of a single `loadView` call

  /** The start page satisfies the router invariant for any table. */
  lemma InitialConsistent(table: RouteTable, app: string, tabs: seq<Tab>)
    ensures Consistent(table, InitialPage(app, tabs))
  {
  }

  /** `loadView` keeps the router invariant, whichever way the call ends. */
  lemma LoadViewPreservesConsistency(table: RouteTable, page: Page, route: string,
                                     fetch: FetchOutcome, init: InitOutcome, cleanupThrows: bool)
    requires route in table && Consistent(table, page)
    ensures Consistent(table, LoadView(table, page, route, fetch, init, cleanupThrows).page)
  {
    var r := LoadView(table, page, route, fetch, init, cleanupThrows);
    var css := table[route].css;
    var preloaded := PreloadCss(page.head, css);
    if r.status == Loaded {
      assert r.page.head == DetachStale(preloaded, page.current.cssHrefs, css);
      forall h | h in r.page.current.cssHrefs
        ensures h in r.page.head
      {
        assert multiset(r.page.head)[h] == multiset(preloaded)[h];
      }
    } else {
      assert r.page.head == preloaded;
    }
  }

  /** A failed fetch: the record is untouched, the old cleanup is not called, the app
      shows the failure message, and the new view's stylesheets stay attached next to
      everything that was attached before. */
  lemma FetchFailureKeepsRoute(table: RouteTable, page: Page, route: string,
                               init: InitOutcome, cleanupThrows: bool)
    requires route in table
    ensures var r := LoadView(table, page, route, FetchFailed, init, cleanupThrows);
      && r.status == FailedToFetch
      && r.page.current == page.current
      && r.page.app == FailureMessage(route)
      && (forall e :: e in r.trace ==> !e.RunCleanup? && !e.CommitRoute? && !e.CallUnloadCss?)
      && (forall h :: h in r.page.head <==> h in page.head || h in table[route].css)
  {
  }

  /** A rejected fetch (or a rejected read of the response text): the record, the app
      content and the tabs are untouched, no cleanup, swap, commit or teardown happens,
      and the new view's stylesheets stay attached next to everything attached before. */
  lemma FetchRejectionKeepsPage(table: RouteTable, page: Page, route: string,
                                init: InitOutcome, cleanupThrows: bool)
    requires route in table
    ensures var r := LoadView(table, page, route, FetchThrew, init, cleanupThrows);
      && r.status == AbortedBeforeSwap
      && r.page.current == page.current
      && r.page.app == page.app
      && r.page.tabs == page.tabs
      && (forall e :: e in r.trace ==> e.CallLoadCss? || e.FetchHtml?)
      && (forall h :: h in r.page.head <==> h in page.head || h in table[route].css)
  {
  }

  /** A completed load: the old cleanup (if any) is called exactly when one was
      registered, the record becomes the new route with the cleanup `init` returned and
      the route's stylesheets, the app shows the fetched text, and the route's tab is
      marked. */
  lemma LoadedCommitsRoute(table: RouteTable, page: Page, route: string, html: string,
                           init: InitOutcome, cleanupThrows: bool)
    requires route in table
    requires !HasModule(table[route]) || init.Initialised?
    ensures var r := LoadView(table, page, route, Fetched(html), init, cleanupThrows);
      && r.status == Loaded
      && r.page.current == CurrentRoute(Some(route),
                                        if HasModule(table[route]) then init.cleanup else None,
                                        table[route].css)
      && r.page.app == html
      && r.page.tabs == SetActiveTab(page.tabs, route)
      && (forall c :: RunCleanup(c) in r.trace <==> page.current.cleanup == Some(c))
  {
    var def := table[route];
    LoadViewShape(table, page, route, Fetched(html), init, cleanupThrows);
    MiddleStepsShape(def, route, page.current.cleanup, Fetched(html), init);
    assert forall c :: RunCleanup(c) !in LoadCalls(def.css);
    assert forall c :: RunCleanup(c) !in UnloadCalls(page.current.cssHrefs, def.css);
  }

  /** Preload calls, steps without a module init, then teardown calls initialise no
      module. */
  lemma NoInitInParts(hrefs: seq<string>, middle: seq<Effect>, prev: seq<string>, committed: bool)
    requires forall e :: e in middle ==> !e.InitModule?
    ensures var t := LoadCalls(hrefs) + middle + (if committed then UnloadCalls(prev, hrefs) else []);
      forall e :: e in t ==> !e.InitModule?
  {
    assert forall e :: e in LoadCalls(hrefs) ==> e.CallLoadCss?;
  }

  /** A view whose module is the empty string is treated as having no module: nothing is
      imported, the load completes whatever `init` would have done, and no cleanup is
      recorded. */
  lemma EmptyModuleIsNoModule(table: RouteTable, page: Page, route: string, html: string,
                              init: InitOutcome, cleanupThrows: bool)
    requires route in table && table[route].viewModule == Some("")
    ensures var r := LoadView(table, page, route, Fetched(html), init, cleanupThrows);
      && r.status == Loaded
      && r.page.current.cleanup == None
      && (forall e :: e in r.trace ==> !e.InitModule?)
  {
    var def := table[route];
    var middle := MiddleSteps(def, route, page.current.cleanup, Fetched(html), init);
    LoadViewShape(table, page, route, Fetched(html), init, cleanupThrows);
    NoInitWithoutModule(def, route, page.current.cleanup, html, init);
    NoInitInParts(def.css, middle, page.current.cssHrefs, true);
  }

  /** Without a module, the steps after a successful fetch initialise nothing. */
  lemma NoInitWithoutModule(def: RouteDef, route: string, previous: Option<Cleanup>, html: string,
                            init: InitOutcome)
    requires !HasModule(def)
    ensures forall e :: e in MiddleSteps(def, route, previous, Fetched(html), init) ==> !e.InitModule?
  {
    assert MiddleSteps(def, route, previous, Fetched(html), init)
      == [FetchHtml(def.html)] + (CleanupCalls(previous) + [SetContent(html), MarkTab(route)] + [CommitRoute(route)]);
    assert forall e :: e in CleanupCalls(previous) ==> e.RunCleanup?;
  }

  /** Stylesheets after a completed load: with hrefs attached at most once, an href is
      attached exactly when the new view lists it or it was attached and the previous
      view did not list it; the result is the preloaded head minus the stale hrefs, in
      document order. */
  lemma LoadedStylesheets(table: RouteTable, page: Page, route: string,
                          fetch: FetchOutcome, init: InitOutcome, cleanupThrows: bool)
    requires route in table && Unique(page.head)
    requires LoadView(table, page, route, fetch, init, cleanupThrows).status == Loaded
    ensures var head := LoadView(table, page, route, fetch, init, cleanupThrows).page.head;
      var prev := page.current.cssHrefs;
      var next := table[route].css;
      && Unique(head)
      && head == Without(PreloadCss(page.head, next), Stale(prev, next))
      && (forall h :: h in head <==> h in next || (h in page.head && h !in prev))
  {
    var prev := page.current.cssHrefs;
    var next := table[route].css;
    DetachStaleIsWithout(PreloadCss(page.head, next), prev, next);
  }

  /** Concatenating two ordered traces, the first ending no later than phase `k` and the
      second starting no earlier, gives an ordered trace. */
  lemma OrderedConcat(a: seq<Effect>, b: seq<Effect>, k: nat)
    requires InPhaseOrder(a) && InPhaseOrder(b)
    requires forall e :: e in a ==> Phase(e) <= k
    requires forall e :: e in b ==> k <= Phase(e)
    ensures InPhaseOrder(a + b)
  {
    var t := a + b;
    forall i, j | 0 <= i < j < |t|
      ensures Phase(t[i]) <= Phase(t[j])
    {
      if j < |a| {
        assert t[i] == a[i] && t[j] == a[j];
      } else if i < |a| {
        assert t[i] == a[i] && t[i] in a && t[j] == b[j - |a|] && t[j] in b;
      } else {
        assert t[i] == b[i - |a|] && t[j] == b[j - |a|];
      }
    }
  }

  /** The module steps are ordered init, commit. */
  lemma ModuleStepsShape(def: RouteDef, route: string, init: InitOutcome)
    ensures var m := ModuleSteps(def, route, init);
      && (forall e :: e in m ==> 5 <= Phase(e) <= 6)
      && InPhaseOrder(m)
  {
    if HasModule(def) {
      OrderedConcat([InitModule(def.viewModule.value)],
                    if init.InitThrew? then [] else [CommitRoute(route)], 5);
    }
  }

  /** The swap steps are ordered cleanup, swap, tab, init, commit, and the cleanup among
      them is the registered one. */
  lemma SwapStepsShape(def: RouteDef, route: string, previous: Option<Cleanup>, html: string,
                       init: InitOutcome)
    ensures var m := SwapSteps(def, route, previous, html, init);
      && (forall e :: e in m ==> 2 <= Phase(e) <= 6)
      && InPhaseOrder(m)
      && (forall c :: RunCleanup(c) in m <==> previous == Some(c))
  {
    var cleanups := CleanupCalls(previous);
    var swap := [SetContent(html), MarkTab(route)];
    var tail := ModuleSteps(def, route, init);
    ModuleStepsShape(def, route, init);
    OrderedConcat(cleanups, swap, 2);
    OrderedConcat(cleanups + swap, tail, 4);
  }

  /** The middle steps touch no stylesheet, keep the fixed order, and call the old
      cleanup exactly when the fetch succeeded and a cleanup was registered. */
  lemma MiddleStepsShape(def: RouteDef, route: string, previous: Option<Cleanup>,
                         fetch: FetchOutcome, init: InitOutcome)
    ensures var m := MiddleSteps(def, route, previous, fetch, init);
      && (forall e :: e in m ==> 1 <= Phase(e) <= 6)
      && (forall e :: e in m ==> !e.CallLoadCss? && !e.CallUnloadCss?)
      && InPhaseOrder(m)
      && (forall c :: RunCleanup(c) in m <==> fetch.Fetched? && previous == Some(c))
  {
    var fetching := [FetchHtml(def.html)];
    match fetch
    case FetchFailed =>
      OrderedConcat(fetching, [SetContent(FailureMessage(route))], 1);
    case FetchThrew =>
      assert MiddleSteps(def, route, previous, fetch, init) == fetching;
    case Fetched(html) =>
      SwapStepsShape(def, route, previous, html, init);
      OrderedConcat(fetching, SwapSteps(def, route, previous, html, init), 1);
  }

  /** How a call's trace and final record are assembled from its parts. */
  lemma LoadViewShape(table: RouteTable, page: Page, route: string,
                      fetch: FetchOutcome, init: InitOutcome, cleanupThrows: bool)
    requires route in table
    ensures var r := LoadView(table, page, route, fetch, init, cleanupThrows);
      var def := table[route];
      var preloaded := PreloadCss(page.head, def.css);
      && r.status == LoadStatus(def, fetch, init)
      && r.trace == LoadCalls(def.css) + MiddleSteps(def, route, page.current.cleanup, fetch, init)
                    + (if r.status == Loaded then UnloadCalls(page.current.cssHrefs, def.css) else [])
      && r.page.head == (if r.status == Loaded then DetachStale(preloaded, page.current.cssHrefs, def.css)
                         else preloaded)
      && r.page.current == (if r.status == Loaded
                            then CurrentRoute(Some(route), NextCleanup(def, init), def.css)
                            else page.current)
  {
    var def := table[route];
    var steps := LoadCalls(def.css) + MiddleSteps(def, route, page.current.cleanup, fetch, init);
    assert steps + [] == steps;
  }

  /** Every call performs its steps in the fixed order: stylesheet preload before the
      fetch, the old cleanup before the DOM swap, the swap before the tab marking and
      the module init, the init before the commit, and the commit before any stale
      stylesheet is detached. */
  lemma LoadViewInPhaseOrder(table: RouteTable, page: Page, route: string,
                             fetch: FetchOutcome, init: InitOutcome, cleanupThrows: bool)
    requires route in table
    ensures InPhaseOrder(LoadView(table, page, route, fetch, init, cleanupThrows).trace)
  {
    var r := LoadView(table, page, route, fetch, init, cleanupThrows);
    var def := table[route];
    var loads := LoadCalls(def.css);
    var middle := MiddleSteps(def, route, page.current.cleanup, fetch, init);
    LoadViewShape(table, page, route, fetch, init, cleanupThrows);
    MiddleStepsShape(def, route, page.current.cleanup, fetch, init);
    assert forall e :: e in loads ==> Phase(e) == 0;
    OrderedConcat(loads, middle, 0);
    if r.status == Loaded {
      var unloads := UnloadCalls(page.current.cssHrefs, def.css);
      UnloadCallsPhase(page.current.cssHrefs, def.css);
      OrderedConcat(loads + middle, unloads, 6);
    } else {
      assert r.trace == loads + middle + [];
    }
  }

  /** The teardown calls are all of the last phase. */
  lemma UnloadCallsPhase(prev: seq<string>, next: seq<string>)
    ensures forall e :: e in UnloadCalls(prev, next) ==> Phase(e) == 7
    ensures InPhaseOrder(UnloadCalls(prev, next))
  {
  }

  /** Replaying two traces one after the other is replaying their concatenation. */
  lemma {:induction false} ReplayConcat(links: Links, a: seq<Effect>, b: seq<Effect>)
    ensures Replay(links, a + b) == Replay(Replay(links, a), b)
    decreases |a|
  {
    if a == [] {
      assert a + b == b;
    } else {
      assert a + b != [];
      assert (a + b)[0] == a[0] && (a + b)[1..] == a[1..] + b;
      ReplayConcat(ApplyEffect(links, a[0]), a[1..], b);
    }
  }

  /** The preload calls replay to the preload loop. */
  lemma {:induction false} ReplayLoads(links: Links, hrefs: seq<string>)
    ensures Replay(links, LoadCalls(hrefs)) == PreloadCss(links, hrefs)
    decreases |hrefs|
  {
    if hrefs != [] {
      ReplayLoads(LoadCss(links, hrefs[0]), hrefs[1..]);
    }
  }

  /** The teardown calls replay to the teardown loop. */
  lemma {:induction false} ReplayUnloads(links: Links, prev: seq<string>, next: seq<string>)
    ensures Replay(links, UnloadCalls(prev, next)) == DetachStale(links, prev, next)
    decreases |prev|
  {
    if prev != [] {
      var first := if prev[0] in next then [] else [CallUnloadCss(prev[0])];
      ReplayConcat(links, first, UnloadCalls(prev[1..], next));
      ReplayUnloads(Replay(links, first), prev[1..], next);
    }
  }

  /** Steps that touch no stylesheet leave the links alone. */
  lemma {:induction false} ReplayQuiet(links: Links, trace: seq<Effect>)
    requires forall e :: e in trace ==> !e.CallLoadCss? && !e.CallUnloadCss?
    ensures Replay(links, trace) == links
    decreases |trace|
  {
    if trace != [] {
      assert trace[0] in trace;
      ReplayQuiet(links, trace[1..]);
    }
  }

  /** Preload calls, then quiet steps, then teardown calls replay to the preload loop
      followed by the teardown loop. */
  lemma ReplayParts(links: Links, hrefs: seq<string>, middle: seq<Effect>,
                    prev: seq<string>, committed: bool)
    requires forall e :: e in middle ==> !e.CallLoadCss? && !e.CallUnloadCss?
    ensures var preloaded := PreloadCss(links, hrefs);
      Replay(links, LoadCalls(hrefs) + middle + (if committed then UnloadCalls(prev, hrefs) else []))
        == (if committed then DetachStale(preloaded, prev, hrefs) else preloaded)
  {
    var loads := LoadCalls(hrefs);
    var preloaded := PreloadCss(links, hrefs);
    var unloads := if committed then UnloadCalls(prev, hrefs) else [];
    ReplayConcat(links, loads, middle);
    ReplayLoads(links, hrefs);
    ReplayQuiet(preloaded, middle);
    ReplayConcat(links, loads + middle, unloads);
    if committed {
      ReplayUnloads(preloaded, prev, hrefs);
    }
  }

  /** The trace accounts for the stylesheet links: replaying it on the old head gives
      the new head. */
  lemma LoadViewReplays(table: RouteTable, page: Page, route: string,
                        fetch: FetchOutcome, init: InitOutcome, cleanupThrows: bool)
    requires route in table
    ensures var r := LoadView(table, page, route, fetch, init, cleanupThrows);
      Replay(page.head, r.trace) == r.page.head
  {
    var r := LoadView(table, page, route, fetch, init, cleanupThrows);
    var def := table[route];
    var middle := MiddleSteps(def, route, page.current.cleanup, fetch, init);
    LoadViewShape(table, page, route, fetch, init, cleanupThrows);
    MiddleStepsShape(def, route, page.current.cleanup, fetch, init);
    assert forall e :: e in middle ==> !e.CallLoadCss? && !e.CallUnloadCss?;
    ReplayParts(page.head, def.css, middle, page.current.cssHrefs, r.status == Loaded);
  }

  /** A link stays attached through every step of a trace that never unloads it. */
  lemma {:induction false} ReplayKeeps(links: Links, trace: seq<Effect>, href: string)
    requires href in links && CallUnloadCss(href) !in trace
    ensures href in Replay(links, trace)
    decreases |trace|
  {
    if trace != [] {
      assert trace[0] in trace;
      assert href in ApplyEffect(links, trace[0]) by {
        if trace[0].CallUnloadCss? {
          var u := UnloadCss(links, trace[0].href);
          assert trace[0].href != href;
          assert multiset(links)[href] > 0;
          assert multiset(u)[href] == multiset(links)[href];
        }
      }
      ReplayKeeps(ApplyEffect(links, trace[0]), trace[1..], href);
    }
  }

  /** Only stale hrefs are ever unloaded: a stylesheet listed by both the previous and the
      new view is never detached, so it stays attached after every step of the call. */
  lemma SharedStylesheetStaysAttached(table: RouteTable, page: Page, route: string,
                                      fetch: FetchOutcome, init: InitOutcome, cleanupThrows: bool,
                                      href: string)
    requires route in table && Consistent(table, page)
    requires href in page.current.cssHrefs && href in table[route].css
    ensures var t := LoadView(table, page, route, fetch, init, cleanupThrows).trace;
      && CallUnloadCss(href) !in t
      && forall k :: 0 <= k <= |t| ==> href in Replay(page.head, t[..k])
  {
    var r := LoadView(table, page, route, fetch, init, cleanupThrows);
    var t := r.trace;
    DetachesExactlyStale(table, page, route, fetch, init, cleanupThrows);
    assert CallUnloadCss(href) !in t;
    forall k | 0 <= k <= |t|
      ensures href in Replay(page.head, t[..k])
    {
      assert forall e :: e in t[..k] ==> e in t;
      ReplayKeeps(page.head, t[..k], href);
    }
  }

  /** Preload calls, quiet steps, then (when committed) teardown calls unload exactly
      the stale hrefs. */
  lemma UnloadsInParts(hrefs: seq<string>, middle: seq<Effect>, prev: seq<string>, committed: bool)
    requires forall e :: e in middle ==> !e.CallLoadCss? && !e.CallUnloadCss?
    ensures var t := LoadCalls(hrefs) + middle + (if committed then UnloadCalls(prev, hrefs) else []);
      forall h :: CallUnloadCss(h) in t <==> committed && h in prev && h !in hrefs
  {
    forall h
      ensures CallUnloadCss(h) !in LoadCalls(hrefs) + middle
    {
      assert CallUnloadCss(h) !in LoadCalls(hrefs);
    }
  }

  /** Exactly the stale hrefs are unloaded on a completed load, and nothing at all on a
      failed or aborted one. */
  lemma DetachesExactlyStale(table: RouteTable, page: Page, route: string,
                             fetch: FetchOutcome, init: InitOutcome, cleanupThrows: bool)
    requires route in table
    ensures var r := LoadView(table, page, route, fetch, init, cleanupThrows);
      forall h :: CallUnloadCss(h) in r.trace <==>
        r.status == Loaded && h in page.current.cssHrefs && h !in table[route].css
  {
    var r := LoadView(table, page, route, fetch, init, cleanupThrows);
    var def := table[route];
    var middle := MiddleSteps(def, route, page.current.cleanup, fetch, init);
    LoadViewShape(table, page, route, fetch, init, cleanupThrows);
    MiddleStepsShape(def, route, page.current.cleanup, fetch, init);
    UnloadsInParts(def.css, middle, page.current.cssHrefs, r.status == Loaded);
  }

  /** The exception a previous cleanup may throw is swallowed by the `try`/`catch` around
      the call, so `LoadView` never reads `cleanupThrows`. This lemma records that
      design decision and proves nothing beyond it. */
  lemma CleanupErrorSwallowed(table: RouteTable, page: Page, route: string,
                              fetch: FetchOutcome, init: InitOutcome)
    requires route in table
    ensures LoadView(table, page, route, fetch, init, true) == LoadView(table, page, route, fetch, init, false)
  {
  }

  // ---------------------------------------------------------------------------
  // Navigation

  /** `onRouteChange`: resolve the hash and load that route. The resolved route is always
      in the table, so the loader's lookup cannot miss, and the router invariant holds
      after every navigation. */
  function Navigate(page: Page, hash: string, fetch: FetchOutcome, init: InitOutcome,
                    cleanupThrows: bool): (r: Step)
    ensures r.status == Loaded ==> r.page.current.route == Some(RouteFromHash(hash))
    ensures r.status == Loaded ==> r.page.current.route.value in Routes
    ensures Consistent(Routes, page) ==> Consistent(Routes, r.page)
  {
    var route := RouteFromHash(hash);
    if Consistent(Routes, page) then
      LoadViewPreservesConsistency(Routes, page, route, fetch, init, cleanupThrows);
      LoadView(Routes, page, route, fetch, init, cleanupThrows)
    else
      LoadView(Routes, page, route, fetch, init, cleanupThrows)
  }

  /** Two completed loads in a row: the second view's stylesheets are attached, the first
      view's stylesheets that the second does not list are detached, and a stylesheet
      both list stays attached through every step of the second load. */
  lemma ConsecutiveViews(table: RouteTable, page: Page, a: string, b: string,
                         fa: FetchOutcome, ia: InitOutcome, fb: FetchOutcome, ib: InitOutcome,
                         ta: bool, tb: bool)
    requires a in table && b in table && Consistent(table, page)
    requires LoadView(table, page, a, fa, ia, ta).status == Loaded
    requires LoadView(table, LoadView(table, page, a, fa, ia, ta).page, b, fb, ib, tb).status == Loaded
    ensures var first := LoadView(table, page, a, fa, ia, ta).page;
      var second := LoadView(table, first, b, fb, ib, tb);
      && (forall h :: h in table[b].css ==> h in second.page.head)
      && (forall h :: h in table[a].css && h !in table[b].css ==> h !in second.page.head)
      && (forall h, k :: h in table[a].css && h in table[b].css && 0 <= k <= |second.trace| ==>
            h in Replay(first.head, second.trace[..k]))
  {
    var first := LoadView(table, page, a, fa, ia, ta).page;
    LoadViewPreservesConsistency(table, page, a, fa, ia, ta);
    LoadedStylesheets(table, first, b, fb, ib, tb);
    forall h | h in table[a].css && h in table[b].css
      ensures forall k :: 0 <= k <= |LoadView(table, first, b, fb, ib, tb).trace| ==>
                h in Replay(first.head, LoadView(table, first, b, fb, ib, tb).trace[..k])
    {
      SharedStylesheetStaysAttached(table, first, b, fb, ib, tb, h);
    }
  }

  /** Loading `/about` (no stylesheets, no module): the app shows the fetched text, the
      `/about` tab is marked, and the record is `/about` with no cleanup and no
      stylesheets. */
  lemma AboutScenario(page: Page, html: string, init: InitOutcome, cleanupThrows: bool)
    ensures var r := LoadView(Routes, page, "/about", Fetched(html), init, cleanupThrows);
      && r.status == Loaded
      && r.page.app == html
      && r.page.tabs == SetActiveTab(page.tabs, "/about")
      && r.page.current == CurrentRoute(Some("/about"), None, [])
  {
  }
}
