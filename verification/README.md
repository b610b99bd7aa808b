# GW2 Toolbox router — a Dafny model

The toolbox is a single-page application whose script `js/gw2toolbox.js` maps the URL hash to
one of two views (`/achievements`, `/about`). It attaches the view's stylesheets, fetches its
HTML, swaps it into the app element, marks the navbar tab, initialises the view's module and
cleans up the previous view. Next to the router sits a light/dark theme toggle.

This project models the deterministic core of that script. The browser becomes explicit
state: the route record, the view stylesheet links in the head, the app content, the tabs and
local storage. Network, module loading and media queries become inputs.

- `wrappers.dfy` — `Wrappers`: the `Option` type used for `null` and missing entries.
- `routing.dfy` — `Routing`: the route table, `normalizeRoute`, `getRouteFromHash`, and the
  property lookup as the code writes it (see Findings).
- `stylesheets.dfy` — `Stylesheets`: `loadCss`/`unloadCss` over the sequence of
  `data-view-css` keys in document order. It also holds the preload and stale-teardown loops
  of `loadView`, and `Without`, an order-preserving filter used as the reference definition.
- `tabs.dfy` — `Tabs`: `setActiveTab`.
- `views.dfy` — `Views`: `loadView` as a pure transition. It returns a status (loaded, non-ok
  response, fetch rejected before the swap, import or `init` rejected after the swap), the new page and the ordered trace of effects. A `Phase`
  rank on effects states the step order, and `Replay` ties the trace to the final head.
  `Navigate` models `onRouteChange`.
- `theme.dfy` — `Theme`: `getInitialTheme`, `applyTheme`, the click flip, and the
  set-up of the toggle.

The router invariant `Views.Consistent` says three things. The record names a route of the
table together with that route's stylesheets, or names nothing and has no stylesheets. Every
stylesheet of the record is attached. Each href is attached at most once.

`setActiveTab` marks every tab whose `data-route` equals the route; `Tabs.SingleTabActive`
gives one active tab when one tab carries the route. A non-ok response or a rejected fetch
leaves the new view's stylesheets attached, and the model keeps that leak. A view's module is
tested for truthiness (`Routing.HasModule`), so an empty module path means no module.

## Model

| member | source | states |
|---|---|---|
| Routing.NormalizeRoute | js/gw2toolbox.js:26-32 | the result is always a key of the route table; identity on keys; `/achievements` for empty or unknown input (own keys only, see Findings) |
| Routing.NormalizeFixedPoints | js/gw2toolbox.js:26-32 | a route is unchanged by normalisation exactly when the table defines it; normalisation is idempotent |
| Routing.RouteFromHash | js/gw2toolbox.js:35-40 | every hash resolves to a key of the table; the empty hash resolves to `/achievements` |
| Routing.HashRoundTrip | js/gw2toolbox.js:35-40 | `#` followed by any route of the table resolves back to that route |
| Routing.HashStripsOneMarker | js/gw2toolbox.js:36-39 | exactly one leading `#` is stripped: `#s` resolves like `normalizeRoute(s)`, and `##s` always falls back |
| Routing.UnmarkedHash | js/gw2toolbox.js:37-39 | a non-empty hash without `#` is normalised whole, so it resolves like its `#`-prefixed form |
| Routing.NormalizeRouteAsWritten | js/gw2toolbox.js:31 | the truthiness of the property lookup returns every inherited member name unchanged, although it is not a route; agrees with the table on its keys; anything else falls back |
| Routing.RouteFromHashAsWritten | js/gw2toolbox.js:35-40 | as written, a hash resolves to a table key or an inherited member name |
| Routing.InheritedNameEscapesNormalization | js/gw2toolbox.js:31 | `#constructor` resolves, as written, to `constructor`, which is not a route; the corrected resolution gives `/achievements` |
| Routing.AsWrittenAgreesOffPrototype | js/gw2toolbox.js:26-32 | the lookup as written and the own-key lookup agree on every name that is not inherited |
| Stylesheets.LoadCss | js/gw2toolbox.js:51-63 | after the call the href is attached; existing links keep their place; no other href's count changes; at most one link per href is preserved |
| Stylesheets.LoadCssIdempotent | js/gw2toolbox.js:52-54 | a second `loadCss` of the same href changes nothing |
| Stylesheets.UnloadCss | js/gw2toolbox.js:66-71 | exactly one link for the href is removed if any is attached (multiset difference); absent href is a no-op; with unique hrefs, none is left |
| Stylesheets.UnloadIsWithout | js/gw2toolbox.js:66-71 | with unique hrefs, `unloadCss` equals the order-preserving removal of that href |
| Stylesheets.UnloadCssIdempotent | js/gw2toolbox.js:66-71 | with unique hrefs, a second `unloadCss` of the same href changes nothing |
| Stylesheets.LoadThenUnload | js/gw2toolbox.js:51-71 | attaching an absent href and then detaching it restores the head exactly |
| Stylesheets.PreloadCss | js/gw2toolbox.js:81-85 | the preload loop keeps the old head as a prefix, attaches every listed href and nothing else, leaves other counts alone, and keeps hrefs unique |
| Stylesheets.DetachStale | js/gw2toolbox.js:130-134 | the teardown loop only removes; hrefs that are not stale keep their count; with unique hrefs every stale href is gone |
| Stylesheets.DetachStaleIsWithout | js/gw2toolbox.js:130-134 | with unique hrefs, the teardown loop equals the order-preserving removal of the stale set |
| Tabs.SetActiveTab | js/gw2toolbox.js:43-48 | same tabs in the same order; a tab is active exactly when its `data-route` equals the route |
| Tabs.SetActiveTabLastWins | js/gw2toolbox.js:43-48 | marking twice is marking with the second route only |
| Tabs.SingleTabActive | js/gw2toolbox.js:43-48 | when exactly one tab carries the route, exactly that tab is active |
| Views.LoadView | js/gw2toolbox.js:74-135 | status is fetch-failed exactly on a non-ok response, aborted before the swap exactly when the fetch or the text read rejects, and aborted after the swap exactly when a (truthy) module's import or init throws; the record changes only on a completed load, to the route and its stylesheets; the app shows the failure message, is untouched after a rejected fetch, or shows the fetched text with the tab marked |
| Views.InitialConsistent | js/gw2toolbox.js:19-23 | the start record (no route, no cleanup, no stylesheets) satisfies the router invariant |
| Views.LoadViewPreservesConsistency | js/gw2toolbox.js:74-135 | every `loadView` outcome keeps the router invariant |
| Views.FetchFailureKeepsRoute | js/gw2toolbox.js:81-92 | a failed fetch leaves the record untouched, calls no cleanup, commits and unloads nothing, shows `Failed to load view: <route>`, and leaves the new stylesheets attached |
| Views.FetchRejectionKeepsPage | js/gw2toolbox.js:81-94 | a rejected `fetch` or `response.text()` leaves record, app and tabs untouched, performs only the preload and the fetch, and leaves the new stylesheets attached |
| Views.EmptyModuleIsNoModule | js/gw2toolbox.js:109-127 | a view whose module is the empty string imports nothing, completes whatever `init` would do, and records no cleanup |
| Views.LoadedCommitsRoute | js/gw2toolbox.js:96-127 | a completed load calls the old cleanup exactly when one was registered, commits {route, cleanup from init or none, route's stylesheets}, shows the fetched text and marks the tab |
| Views.LoadedStylesheets | js/gw2toolbox.js:81-85 | after a completed load an href is attached iff the new view lists it or it was attached and the old view did not list it; the head is the preloaded head minus the stale set, in order |
| Views.ModuleStepsShape | js/gw2toolbox.js:109-127 | the module init comes before the commit |
| Views.SwapStepsShape | js/gw2toolbox.js:96-127 | cleanup, swap, tab, init and commit come in that order, and the only cleanup called is the registered one |
| Views.MiddleStepsShape | js/gw2toolbox.js:88-127 | the steps after the fetch touch no stylesheet, keep the fixed order, and call the old cleanup only after a successful fetch |
| Views.LoadViewInPhaseOrder | js/gw2toolbox.js:74-135 | every call performs preload, fetch, cleanup, swap, tab, init, commit and teardown in that order |
| Views.ReplayLoads | js/gw2toolbox.js:81-85 | replaying the preload calls one by one gives the preload loop's head |
| Views.ReplayUnloads | js/gw2toolbox.js:130-134 | replaying the teardown calls one by one gives the teardown loop's head |
| Views.ReplayQuiet | js/gw2toolbox.js:88-127 | steps that are not stylesheet calls leave the head alone |
| Views.ReplayParts | js/gw2toolbox.js:81-134 | preload calls, quiet steps, then teardown calls replay to preload followed by teardown |
| Views.LoadViewReplays | js/gw2toolbox.js:74-135 | replaying a call's trace on the old head yields the new head |
| Views.ReplayKeeps | js/gw2toolbox.js:51-71 | a link that no step unloads stays attached through every step |
| Views.SharedStylesheetStaysAttached | js/gw2toolbox.js:129-134 | a stylesheet listed by both the previous and the next view is never unloaded and is attached after every step of the call |
| Views.UnloadsInParts | js/gw2toolbox.js:81-134 | preload calls, quiet steps and (on commit) teardown calls unload exactly the stale hrefs |
| Views.DetachesExactlyStale | js/gw2toolbox.js:129-134 | `unloadCss(h)` is called iff the load completed, the old view listed `h` and the new one does not |
| Views.CleanupErrorSwallowed | js/gw2toolbox.js:97-103 | an exception thrown by the old cleanup does not change the outcome (the `try`/`catch`; `LoadView` does not read the flag) |
| Views.Navigate | js/gw2toolbox.js:138-146 | the loaded route is the hash's resolution, always a table key; the router invariant holds after navigation |
| Views.ConsecutiveViews | js/gw2toolbox.js:74-135 | after two completed loads, the second view's stylesheets are attached, the first view's unshared ones are gone, shared ones stay attached throughout |
| Views.AboutScenario | js/gw2toolbox.js:10-14 | loading `/about` shows the fetched text, marks its tab and records {`/about`, no cleanup, no stylesheets} |
| Theme.GetInitialTheme | js/gw2toolbox.js:164-172 | always `light` or `dark`; a stored `light`/`dark` wins; otherwise light exactly when the system prefers light |
| Theme.ApplyTheme | js/gw2toolbox.js:174-182 | light mode, `aria-pressed` and `data-theme` follow the theme; the stored value is `light` exactly when the theme is `light` and `dark` otherwise, and `data-theme` equals it; other keys are untouched |
| Theme.Toggle | js/gw2toolbox.js:188 | the flip always yields a theme, and a different one when given a theme |
| Theme.SetupThemeToggle | js/gw2toolbox.js:157-186 | without the button nothing is set up; otherwise the initial theme is applied, persisted and coherent with the page |
| Theme.Click | js/gw2toolbox.js:187-190 | a click keeps page and storage coherent, changes the theme and persists it |
| Theme.ToggleTwice | js/gw2toolbox.js:188 | two flips restore the theme |
| Theme.ClickTwice | js/gw2toolbox.js:187-190 | two clicks restore theme, presentation and storage |
| Theme.AppliedThemeIsReadBack | js/gw2toolbox.js:164-182 | a persisted theme is what the next start reads, whatever the system prefers |
| Theme.FreshStartFollowsSystem | js/gw2toolbox.js:164-185 | with nothing stored and a light system preference, the toggle starts light and stores `light` |
| Theme.ClickFromDark | js/gw2toolbox.js:187-190 | a click while dark gives light, stores `light` and sets `aria-pressed` to `true` |

## Left out

- `fetch`, `response.text()` and dynamic `import()` are network and module-loader I/O. They are inputs: a `FetchOutcome` (non-ok response, rejected fetch or text read, or the text) and an `InitOutcome` (init returned a cleanup or not, or the import/init threw). The `no-cache` fetch option is not modelled.
- Overlapping `loadView` calls, started by hash changes while an earlier call is suspended, are not modelled. They interleave on the event loop with no generation token. The model runs one call at a time.
- The startup assignment of `#/achievements` when the hash is empty (js/gw2toolbox.js:150-154) queues a `hashchange` while the first `loadView` is suspended at its fetch, so two calls overlap; both read `previousCleanup` as `null`, and one view's cleanup is never called. This is an instance of the overlapping calls above and is not modelled.
- An exception from the module import or `init` is modelled only as the status `AbortedAfterSwap`. The page is swapped, the tab is marked, the old cleanup has run, the record is not committed and nothing is unloaded. The rejection itself is not modelled; likewise a rejected fetch is only the status `AbortedBeforeSwap`.
- Cleanup functions are opaque `Cleanup` tokens. What a cleanup does is outside the model. Whether it throws is a parameter that `LoadView` does not read, because the `try`/`catch` swallows the exception.
- DOM details are not modelled: the `data-view-css` selector is built by string interpolation without escaping, which the model treats as exact href comparison; `innerHTML` parsing; `classList`; the app element lookup; the navbar dropdown closing in `onRouteChange`; and event-listener registration.
- `window.matchMedia` and the `localStorage` API are replaced by a `prefersLight` boolean and a key/value map. `prefersLight` is false when the media query is unavailable.
- `Views.LoadView` takes the route table as a parameter so that properties hold for any table, including tables where consecutive views share stylesheets. Normalisation uses the script's own two-route table.

## Findings

| source | as written | input that shows it | evidently intended | confidence | as-written member | corrected member |
|---|---|---|---|---|---|---|
| js/gw2toolbox.js:31 | `routes[route] ? route : "/achievements"` tests a JavaScript property lookup, which also finds the members every object inherits (`constructor`, `toString`, `__proto__`, ...) | hash `#constructor`: normalisation returns `constructor`, and `loadView` then iterates `routes["constructor"].css`, which is undefined, so it throws | only the table's own keys are routes; every other name falls back to `/achievements` | high; not executed | Routing.NormalizeRouteAsWritten (counterexample: Routing.InheritedNameEscapesNormalization) | Routing.NormalizeRoute |
