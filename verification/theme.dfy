/** The light/dark theme toggle: the preference persisted under one storage key, the
    presentation it drives, and the click that flips it. */
module Theme {
  import opened Wrappers

  /** The storage key of the preference. */
  const ThemeKey: string := "gw2toolbox.theme"

  const Light: string := "light"
  const Dark: string := "dark"

  /** Local storage, as a map from key to stored value. */
  type Storage = map<string, string>

  /** The two values the toggle works with. */
  predicate IsTheme(t: string)
  {
    t == Light || t == Dark
  }

  /** What applying a theme writes to the page: the `light-mode` class of the body, the
      button's `aria-pressed` attribute and the button's `data-theme` value. */
  datatype Presentation = Presentation(lightMode: bool, ariaPressed: string, dataTheme: string)

  datatype Applied = Applied(ui: Presentation, storage: Storage)

  /** The toggle once set up: the theme in force, the presentation and the storage. */
  datatype ThemeToggle = ThemeToggle(current: string, ui: Presentation, storage: Storage)

  /** `getInitialTheme`: a stored `"light"` or `"dark"` wins; anything else (or nothing)
      defers to the system colour-scheme preference, `prefersLight` (false when the
      media query is unavailable). */
  function GetInitialTheme(storage: Storage, prefersLight: bool): (t: string)
    ensures IsTheme(t)
    ensures ThemeKey in storage && IsTheme(storage[ThemeKey]) ==> t == storage[ThemeKey]
    ensures !(ThemeKey in storage && IsTheme(storage[ThemeKey])) ==> (t == Light <==> prefersLight)
  {
    if ThemeKey in storage && (storage[ThemeKey] == "light" || storage[ThemeKey] == "dark") then
      storage[ThemeKey]
    else if prefersLight then "light"
    else "dark"
  }

  /** `applyTheme`: only `"light"` counts as light; every other value is applied and
      persisted as `"dark"`. Keys other than the theme key are left alone. */
  function ApplyTheme(storage: Storage, theme: string): (r: Applied)
    ensures r.ui.lightMode <==> theme == Light
    ensures r.ui.ariaPressed == (if theme == Light then "true" else "false")
    ensures ThemeKey in r.storage && IsTheme(r.storage[ThemeKey])
    ensures r.ui.dataTheme == r.storage[ThemeKey]
    ensures r.storage[ThemeKey] == Light <==> theme == Light
    ensures IsTheme(theme) ==> r.storage[ThemeKey] == theme
    ensures r.storage.Keys == storage.Keys + {ThemeKey}
    ensures forall k :: k in storage && k != ThemeKey ==> r.storage[k] == storage[k]
  {
    var isLight := theme == "light";
    var value := if isLight then "light" else "dark";
    Applied(Presentation(isLight, if isLight then "true" else "false", value),
            storage[ThemeKey := value])
  }

  /** The click handler's flip: `"light"` becomes `"dark"`, anything else `"light"`. */
  function Toggle(theme: string): (r: string)
    ensures IsTheme(r)
    ensures r == Light <==> theme != Light
    ensures IsTheme(theme) ==> r != theme
  {
    if theme == "light" then "dark" else "light"
  }

  /** The page state that goes with a theme in force. */
  predicate Coherent(s: ThemeToggle)
  {
    && IsTheme(s.current)
    && ThemeKey in s.storage && s.storage[ThemeKey] == s.current
    && s.ui == Presentation(s.current == Light, if s.current == Light then "true" else "false", s.current)
  }

  /** `setupThemeToggle`: without the toggle button nothing happens; otherwise the initial
      theme is applied and persisted. */
  function SetupThemeToggle(storage: Storage, prefersLight: bool, hasButton: bool): (r: Option<ThemeToggle>)
    ensures r.Some? <==> hasButton
    ensures r.Some? ==> Coherent(r.value) && r.value.current == GetInitialTheme(storage, prefersLight)
    ensures r.Some? ==> forall k :: k in storage && k != ThemeKey ==> k in r.value.storage && r.value.storage[k] == storage[k]
  {
    if !hasButton then None
    else
      var theme := GetInitialTheme(storage, prefersLight);
      var applied := ApplyTheme(storage, theme);
      Some(ThemeToggle(theme, applied.ui, applied.storage))
  }

  /** A click on the toggle button: flip the theme, apply it and persist it. */
  function Click(s: ThemeToggle): (r: ThemeToggle)
    ensures Coherent(s) ==> Coherent(r) && r.current != s.current
    ensures IsTheme(r.current) && ThemeKey in r.storage && r.storage[ThemeKey] == r.current
  {
    var theme := Toggle(s.current);
    var applied := ApplyTheme(s.storage, theme);
    ThemeToggle(theme, applied.ui, applied.storage)
  }

  /** Flipping twice restores the theme. */
  lemma ToggleTwice(theme: string)
    requires IsTheme(theme)
    ensures Toggle(Toggle(theme)) == theme
  {
  }

  /** Two clicks restore the theme, the presentation and the storage. */
  lemma ClickTwice(s: ThemeToggle)
    requires Coherent(s)
    ensures Click(Click(s)) == s
  {
    var once := Click(s);
    var twice := Click(once);
    assert twice.storage == s.storage[ThemeKey := s.current];
    assert s.storage[ThemeKey := s.current] == s.storage;
  }

  /** A persisted theme is what the next start reads back, whatever the system prefers. */
  lemma AppliedThemeIsReadBack(storage: Storage, theme: string, prefersLight: bool)
    requires IsTheme(theme)
    ensures GetInitialTheme(ApplyTheme(storage, theme).storage, prefersLight) == theme
  {
  }

  /** With nothing stored and a system preference for light, the toggle starts light and
      stores `"light"`. */
  lemma FreshStartFollowsSystem(storage: Storage)
    requires ThemeKey !in storage
    ensures var r := SetupThemeToggle(storage, true, true);
      r.Some? && r.value.current == Light && r.value.storage[ThemeKey] == Light
  {
  }

  /** A click while dark switches to light, stores `"light"` and presses the button. */
  lemma ClickFromDark(s: ThemeToggle)
    requires Coherent(s) && s.current == Dark
    ensures var r := Click(s);
      r.current == Light && r.storage[ThemeKey] == Light && r.ui.ariaPressed == "true" && r.ui.lightMode
  {
  }
}
