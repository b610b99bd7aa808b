/** The static route table of the toolbox and the resolution of a location hash to one
    of its keys. */
module Routing {
  import opened Wrappers

  /** One view: the HTML fragment to fetch, its stylesheets in order, and the optional
      behaviour module to import after the DOM swap. */
  datatype RouteDef = RouteDef(html: string, css: seq<string>, viewModule: Option<string>)

  type RouteTable = map<string, RouteDef>

  /** Whether the view has a module to import: `routeDefinition.module` is tested for
      truthiness, so an absent module and the empty string both count as none. */
  predicate HasModule(def: RouteDef)
  {
    def.viewModule.Some? && def.viewModule.value != ""
  }

  /** The route every empty or unknown hash falls back to. */
  const Fallback: string := "/achievements"

  /** The hash form of the fallback route, used when the location has no hash. */
  const FallbackHash: string := "#/achievements"

  const Routes: RouteTable := map[
    "/achievements" := RouteDef(
      "views/achievements.html",
      ["css/achievements.css", "css/paginator.css"],
      Some("./achievements.js")),
    "/about" := RouteDef("views/about.html", [], None)
  ]

  /** `normalizeRoute`: keep a route that the table defines, otherwise fall back.
      The table is consulted by its own keys (see `NormalizeRouteAsWritten` for the
      property lookup the code performs). */
  function NormalizeRoute(route: string): (r: string)
    ensures r in Routes
    ensures route in Routes ==> r == route
    ensures route !in Routes ==> r == Fallback
  {
    if route == "" then Fallback
    else if route in Routes then route
    else Fallback
  }

  /** `getRouteFromHash`: substitute the fallback hash for an empty one, strip a single
      leading `#`, and normalise what is left. */
  function RouteFromHash(hash: string): (r: string)
    ensures r in Routes
    ensures hash == "" ==> r == Fallback
  {
    var h := if hash == "" then FallbackHash else hash;
    var route := if |h| > 0 && h[0] == '#' then h[1..] else h;
    NormalizeRoute(route)
  }

  /** The location hash that names a route. */
  function HashOf(route: string): string
  {
    "#" + route
  }

  /** A route is a fixed point of normalisation exactly when the table defines it. */
  lemma NormalizeFixedPoints(route: string)
    ensures NormalizeRoute(route) == route <==> route in Routes
    ensures NormalizeRoute(NormalizeRoute(route)) == NormalizeRoute(route)
  {
  }

  /** Every route of the table survives the round trip through its hash. */
  lemma HashRoundTrip(route: string)
    requires route in Routes
    ensures RouteFromHash(HashOf(route)) == route
  {
    assert HashOf(route)[1..] == route;
  }

  /** Exactly one `#` is stripped: the rest of a `#`-prefixed hash is normalised as is. */
  lemma HashStripsOneMarker(rest: string)
    ensures RouteFromHash("#" + rest) == NormalizeRoute(rest)
    ensures RouteFromHash("##" + rest) == Fallback
  {
    assert ("#" + rest)[1..] == rest;
    assert ("##" + rest)[1..] == "#" + rest;
    assert ("#" + rest)[0] == '#';
    assert "/achievements"[0] == '/' && "/about"[0] == '/';
    assert "#" + rest !in Routes;
  }

  /** A hash without the marker is normalised whole, so it resolves like its marked form. */
  lemma UnmarkedHash(hash: string)
    requires hash != "" && hash[0] != '#'
    ensures RouteFromHash(hash) == NormalizeRoute(hash)
    ensures RouteFromHash(hash) == RouteFromHash("#" + hash)
  {
    assert ("#" + hash)[1..] == hash;
  }

  // ---------------------------------------------------------------------------
  // The table lookup as written. `routes[route]` is a JavaScript property lookup:
  // besides the two routes it finds every member a plain object inherits from
  // `Object.prototype`, and each of those is truthy.

  /** The names a plain JavaScript object inherits from `Object.prototype`. */
  const InheritedMembers: set<string> := {
    "constructor", "__proto__", "hasOwnProperty", "isPrototypeOf",
    "propertyIsEnumerable", "toLocaleString", "toString", "valueOf",
    "__defineGetter__", "__defineSetter__", "__lookupGetter__", "__lookupSetter__"
  }

  /** Whether `routes[route]` yields a truthy value. */
  predicate LookupIsTruthy(route: string)
  {
    route in Routes || route in InheritedMembers
  }

  /** `normalizeRoute` as written: the truthiness of the property lookup decides. */
  function NormalizeRouteAsWritten(route: string): (r: string)
    ensures r in Routes || r in InheritedMembers
    ensures route in Routes ==> r == route
    ensures route in InheritedMembers ==> r == route
    ensures !LookupIsTruthy(route) ==> r == Fallback
  {
    if route == "" then Fallback
    else if LookupIsTruthy(route) then route
    else Fallback
  }

  /** `getRouteFromHash` over the as-written normalisation. */
  function RouteFromHashAsWritten(hash: string): (r: string)
    ensures r in Routes || r in InheritedMembers
  {
    var h := if hash == "" then FallbackHash else hash;
    var route := if |h| > 0 && h[0] == '#' then h[1..] else h;
    NormalizeRouteAsWritten(route)
  }

  /** The hash `#constructor` resolves, as written, to a name that is not a route, so
      the view loader would read the stylesheet list of `Object` (undefined) and throw;
      the corrected normalisation sends it to the fallback route. */
  lemma InheritedNameEscapesNormalization()
    ensures "constructor" !in Routes
    ensures RouteFromHashAsWritten("#constructor") == "constructor"
    ensures RouteFromHash("#constructor") == Fallback
  {
    assert "#constructor"[1..] == "constructor";
  }

  /** The two normalisations agree on every name that is not inherited. */
  lemma AsWrittenAgreesOffPrototype(route: string)
    requires route !in InheritedMembers
    ensures NormalizeRouteAsWritten(route) == NormalizeRoute(route)
  {
  }
}
