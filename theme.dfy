/**
 * The light/dark theme: the `dark` class on the root element and the `theme`
 * entry of `localStorage`, driven by `initTheme`, `toggleTheme` and the
 * listener on the `(prefers-color-scheme: dark)` media query.
 */
module Theme {
  import opened Wrappers

  /** The stored preference and whether the root element carries `dark`. */
  datatype ThemeState = ThemeState(stored: Option<string>, dark: bool)

  /** `!localStorage.getItem("theme")`: no entry, or an empty one, which is falsy too. */
  predicate Unset(stored: Option<string>) {
    stored == None || stored == Some("")
  }

  /** The decision of `initTheme`. */
  function InitialDark(stored: Option<string>, systemPrefersDark: bool): (dark: bool)
    ensures stored == Some("dark") ==> dark
    ensures stored == Some("light") ==> !dark
    ensures Unset(stored) ==> dark == systemPrefersDark
    ensures !Unset(stored) && stored != Some("dark") ==> !dark
  {
    stored == Some("dark") || (Unset(stored) && systemPrefersDark)
  }

  /** `toggleTheme`: flip the class and store the value that matches the new state. */
  function Toggled(t: ThemeState): (r: ThemeState)
    ensures r.dark == !t.dark
    ensures r.stored == Some(if r.dark then "dark" else "light")
  {
    if t.dark then ThemeState(Some("light"), false) else ThemeState(Some("dark"), true)
  }

  /** The `change` listener: follow the system only while nothing is stored. */
  function AfterSystemChange(t: ThemeState, matches: bool): (r: ThemeState)
    ensures r.stored == t.stored
    ensures Unset(t.stored) ==> r.dark == matches
    ensures !Unset(t.stored) ==> r == t
  {
    if Unset(t.stored) then t.(dark := matches) else t
  }

  /** Two toggles restore the class; the stored value then names that class. */
  lemma ToggleTwice(t: ThemeState)
    ensures Toggled(Toggled(t)).dark == t.dark
    ensures Toggled(Toggled(t)).stored == Some(if t.dark then "dark" else "light")
  {
  }

  /** After a toggle, a reload shows the same theme whatever the system prefers. */
  lemma ToggleSurvivesReload(t: ThemeState, systemPrefersDark: bool)
    ensures InitialDark(Toggled(t).stored, systemPrefersDark) == Toggled(t).dark
  {
  }

  /** After a toggle, system changes no longer move the theme. */
  lemma ToggleStopsSystemFollowing(t: ThemeState, matches: bool)
    ensures AfterSystemChange(Toggled(t), matches) == Toggled(t)
  {
  }

  /** The root element's class list and `localStorage`, as far as the theme uses them. */
  class ThemeController {
    var stored: Option<string>
    var dark: bool

    constructor (stored: Option<string>)
      ensures this.stored == stored && !dark
    {
      this.stored := stored;
      dark := false;
    }

    function State(): ThemeState
      reads this
    {
      ThemeState(stored, dark)
    }

    method InitTheme(systemPrefersDark: bool)
      modifies this
      ensures dark == InitialDark(old(stored), systemPrefersDark) && stored == old(stored)
    {
      if stored == Some("dark") || (Unset(stored) && systemPrefersDark) {
        dark := true;
      } else {
        dark := false;
      }
    }

    method ToggleTheme()
      modifies this
      ensures State() == Toggled(old(State()))
    {
      if dark {
        dark := false;
        stored := Some("light");
      } else {
        dark := true;
        stored := Some("dark");
      }
    }

    method OnSystemThemeChange(matches: bool)
      modifies this
      ensures State() == AfterSystemChange(old(State()), matches)
    {
      if Unset(stored) {
        dark := matches;
      }
    }
  }
}
