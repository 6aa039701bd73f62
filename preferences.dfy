// What the page remembers between visits: the colour theme under 'sp-theme'
// and cookie consent under 'sp-cookies' in localStorage. The theme is the
// root element's data-theme attribute, mirrored by the toggle's aria-pressed;
// consent is the cookie bar's aria-hidden.

module Preferences {
  import opened Text

  const ThemeKey: string := "sp-theme"
  const CookieKey: string := "sp-cookies"

  /** The attributes and storage the preferences touch. An attribute that was never set is None;
      hasToggle and hasCookieBar say whether #themeToggle and #cookieBar exist. */
  datatype Prefs = Prefs(
    dataTheme: Option<string>, ariaPressed: Option<string>, hasToggle: bool,
    cookieBar: Option<string>, hasCookieBar: bool,
    storage: map<string, string>, toasts: seq<string>)

  /** localStorage.getItem(key) as a condition: missing (null) and empty text are both falsy. */
  predicate Stored(storage: map<string, string>, key: string)
  {
    key in storage && storage[key] != ""
  }

  /** The toggle's pressed state: setAttribute turns the boolean `theme === 'dark'` into text. */
  function AriaPressed(theme: string): (r: string)
    ensures r == "true" <==> theme == "dark"
    ensures r == "true" || r == "false"
  {
    if theme == "dark" then "true" else "false"
  }

  /** applyTheme: sets data-theme, and aria-pressed when the toggle exists. */
  function ApplyTheme(p: Prefs, theme: string): (q: Prefs)
    ensures q.dataTheme == Some(theme)
    ensures q.hasToggle ==> q.ariaPressed == Some(AriaPressed(theme))
    ensures !q.hasToggle ==> q.ariaPressed == p.ariaPressed
    ensures q.(dataTheme := p.dataTheme, ariaPressed := p.ariaPressed) == p
  {
    p.(dataTheme := Some(theme), ariaPressed := if p.hasToggle then Some(AriaPressed(theme)) else p.ariaPressed)
  }

  /** The theme initTheme picks: a saved theme as it is, otherwise the system preference. */
  function InitialTheme(storage: map<string, string>, prefersDark: bool): string
  {
    if Stored(storage, ThemeKey) then storage[ThemeKey]
    else if prefersDark then "dark" else "light"
  }

  /** initTheme. */
  function InitTheme(p: Prefs, prefersDark: bool): Prefs
  {
    ApplyTheme(p, InitialTheme(p.storage, prefersDark))
  }

  /** The theme a click switches to: the current data-theme, 'light' when missing or empty,
      becomes 'dark' if it is 'light' and 'light' otherwise. */
  function NextTheme(current: Option<string>): string
  {
    var theme := if current.None? || current.value == "" then "light" else current.value;
    if theme == "light" then "dark" else "light"
  }

  /** `${next[0].toUpperCase() + next.slice(1)} theme enabled`. */
  function ThemeToast(next: string): string
    requires next != []
  {
    [UpperAscii(next[0])] + next[1..] + " theme enabled"
  }

  /** The theme toggle's click handler (registered only when the toggle exists). */
  function Toggle(p: Prefs): Prefs
  {
    var next := NextTheme(p.dataTheme);
    var q := ApplyTheme(p, next);
    q.(storage := q.storage[ThemeKey := next], toasts := q.toasts + [ThemeToast(next)])
  }

  /** The click switches 'light' to 'dark' and anything else, a missing or empty theme counting
      as 'light', to the other theme; the result is always one of the two. */
  lemma NextThemeCases(current: Option<string>)
    ensures NextTheme(current) == "dark" <==> current.None? || current == Some("") || current == Some("light")
    ensures NextTheme(current) == "light" || NextTheme(current) == "dark"
  {
  }

  /** A click applies the new theme, presses the toggle exactly when it is dark, saves it and
      announces it; cookie consent is untouched. */
  lemma ToggleEffect(p: Prefs)
    requires p.hasToggle
    ensures var q := Toggle(p);
      var next := NextTheme(p.dataTheme);
      && q.dataTheme == Some(next)
      && (q.ariaPressed == Some("true") <==> next == "dark")
      && q.storage == p.storage[ThemeKey := next]
      && q.toasts == p.toasts + [if next == "dark" then "Dark theme enabled" else "Light theme enabled"]
      && q.cookieBar == p.cookieBar
  {
    var next := NextTheme(p.dataTheme);
    NextThemeCases(p.dataTheme);
    ThemeToastText(next);
  }

  /** The announcement names the theme with a capital letter. */
  lemma ThemeToastText(next: string)
    requires next == "dark" || next == "light"
    ensures ThemeToast(next) == if next == "dark" then "Dark theme enabled" else "Light theme enabled"
  {
    if next == "dark" {
      DarkToast(next);
    } else {
      LightToast(next);
    }
  }

  lemma DarkToast(next: string)
    requires next == "dark"
    ensures ThemeToast(next) == "Dark theme enabled"
  {
    assert next[1..] == "ark";
    assert [UpperAscii(next[0])] == "D";
  }

  lemma LightToast(next: string)
    requires next == "light"
    ensures ThemeToast(next) == "Light theme enabled"
  {
    assert next[1..] == "ight";
    assert [UpperAscii(next[0])] == "L";
  }

  /** Two clicks bring 'light' or 'dark' back; a missing theme goes to 'dark' and then 'light'. */
  lemma ToggleTwice(p: Prefs)
    requires p.dataTheme == Some("light") || p.dataTheme == Some("dark") || p.dataTheme.None?
    ensures Toggle(Toggle(p)).dataTheme == if p.dataTheme.None? then Some("light") else p.dataTheme
    ensures Toggle(Toggle(p)).storage[ThemeKey] == Toggle(Toggle(p)).dataTheme.value
  {
  }

  /** The theme survives a reload: the next page's initTheme applies the theme the last click
      saved, whatever the system preference. */
  lemma ToggleThenReload(p: Prefs, reloaded: Prefs, prefersDark: bool)
    requires reloaded.storage == Toggle(p).storage
    ensures InitTheme(reloaded, prefersDark).dataTheme == Toggle(p).dataTheme
  {
    NextThemeCases(p.dataTheme);
  }

  /** Without a saved theme, the first page follows the system preference. */
  lemma InitFollowsSystem(p: Prefs, prefersDark: bool)
    requires !Stored(p.storage, ThemeKey)
    ensures InitTheme(p, prefersDark).dataTheme == Some(if prefersDark then "dark" else "light")
    ensures p.hasToggle ==> (InitTheme(p, prefersDark).ariaPressed == Some("true") <==> prefersDark)
  {
  }

  /** With nothing saved and a dark system preference the page opens dark; one click saves
      'light', and the next page load opens light whatever the system preference. */
  lemma DarkSystemThenClick(p: Prefs, reloaded: Prefs, prefersDark: bool)
    requires !Stored(p.storage, ThemeKey)
    requires reloaded.storage == Toggle(InitTheme(p, true)).storage
    ensures InitTheme(p, true).dataTheme == Some("dark")
    ensures Toggle(InitTheme(p, true)).storage[ThemeKey] == "light"
    ensures InitTheme(reloaded, prefersDark).dataTheme == Some("light")
  {
    InitFollowsSystem(p, true);
    ToggleThenReload(InitTheme(p, true), reloaded, prefersDark);
  }

  /** initCookie: the bar is shown unless consent is stored. */
  function InitCookie(p: Prefs): Prefs
  {
    if !Stored(p.storage, CookieKey) && p.hasCookieBar then p.(cookieBar := Some("false")) else p
  }

  /** The accept button's click handler (registered only when the button exists). */
  function Accept(p: Prefs): Prefs
  {
    p.(storage := p.storage[CookieKey := "1"],
       cookieBar := if p.hasCookieBar then Some("true") else p.cookieBar,
       toasts := p.toasts + ["Cookies accepted"])
  }

  /** Accepting hides the bar for good: it stores consent, so no later page load shows it again,
      and the theme is untouched. */
  lemma AcceptIsRemembered(p: Prefs, later: Prefs)
    requires later.storage == Accept(p).storage && later.cookieBar == Some("true")
    ensures Stored(later.storage, CookieKey)
    ensures InitCookie(later) == later
    ensures Accept(p).dataTheme == p.dataTheme
    ensures ThemeKey in p.storage ==> Accept(p).storage[ThemeKey] == p.storage[ThemeKey]
  {
  }

  /** Before consent, page load shows the bar (when there is one). */
  lemma InitCookieShows(p: Prefs)
    requires !Stored(p.storage, CookieKey) && p.hasCookieBar
    ensures InitCookie(p).cookieBar == Some("false")
  {
  }

  /** The page's preferences as the script mutates them. */
  class PreferencePage {
    const hasToggle: bool
    const hasCookieBar: bool
    var dataTheme: Option<string>
    var ariaPressed: Option<string>
    var cookieBar: Option<string>
    var storage: map<string, string>
    var toasts: seq<string>

    function State(): Prefs
      reads this
    {
      Prefs(dataTheme, ariaPressed, hasToggle, cookieBar, hasCookieBar, storage, toasts)
    }

    /** A freshly loaded page with the given localStorage contents. */
    constructor (hasToggle: bool, hasCookieBar: bool, storage: map<string, string>)
      ensures State() == Prefs(None, None, hasToggle, None, hasCookieBar, storage, [])
    {
      this.hasToggle := hasToggle;
      this.hasCookieBar := hasCookieBar;
      dataTheme, ariaPressed, cookieBar := None, None, None;
      this.storage := storage;
      toasts := [];
    }

    method Apply(theme: string)
      modifies this
      ensures State() == ApplyTheme(old(State()), theme)
    {
      dataTheme := Some(theme);
      if hasToggle {
        ariaPressed := Some(AriaPressed(theme));
      }
    }

    method InitThemeOnLoad(prefersDark: bool)
      modifies this
      ensures State() == InitTheme(old(State()), prefersDark)
    {
      if ThemeKey in storage && storage[ThemeKey] != "" {
        Apply(storage[ThemeKey]);
      } else {
        Apply(if prefersDark then "dark" else "light");
      }
    }

    method ToggleClick()
      requires hasToggle
      modifies this
      ensures State() == Toggle(old(State()))
    {
      var current := if dataTheme.None? || dataTheme.value == "" then "light" else dataTheme.value;
      var next := if current == "light" then "dark" else "light";
      Apply(next);
      storage := storage[ThemeKey := next];
      toasts := toasts + [ThemeToast(next)];
    }

    method InitCookieOnLoad()
      modifies this
      ensures State() == InitCookie(old(State()))
    {
      var accepted := CookieKey in storage && storage[CookieKey] != "";
      if !accepted && hasCookieBar {
        cookieBar := Some("false");
      }
    }

    method AcceptClick()
      modifies this
      ensures State() == Accept(old(State()))
    {
      storage := storage[CookieKey := "1"];
      if hasCookieBar {
        cookieBar := Some("true");
      }
      toasts := toasts + ["Cookies accepted"];
    }
  }
}
