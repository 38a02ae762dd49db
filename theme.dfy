/**
 * The dark-mode switch (src/components/ui/toggletheme.tsx): the 'dark'
 * class on the document element, the 'theme' key of local storage and the
 * component's `isDarkMode` flag, which picks the icon.
 *
 * The class list is reduced to whether it holds 'dark'; the operating
 * system's colour-scheme preference is a parameter.
 */
module Theme {
  import opened Js

  const ThemeKey := "theme"

  /** The three pieces of state the switch touches. */
  datatype Look = Look(darkClass: bool, isDarkMode: bool, storage: Storage)

  /**
   * `toggleTheme`: it looks at the class, not at the flag; a dark page is
   * made light and 'light' stored, a light page made dark and 'dark' stored.
   */
  function Toggled(l: Look): (r: Look)
    ensures r.darkClass == !l.darkClass && r.isDarkMode == r.darkClass
    ensures ThemeKey in r.storage && r.storage[ThemeKey] == (if r.darkClass then "dark" else "light")
    ensures forall k :: k in l.storage && k != ThemeKey ==> k in r.storage && r.storage[k] == l.storage[k]
    ensures forall k :: k in r.storage ==> k == ThemeKey || k in l.storage
  {
    if l.darkClass then Look(false, false, l.storage[ThemeKey := "light"])
    else Look(true, true, l.storage[ThemeKey := "dark"])
  }

  /** Toggling twice gives back the class and the flag, and stores the theme the page has. */
  lemma ToggleTwice(l: Look)
    ensures Toggled(Toggled(l)).darkClass == l.darkClass
    ensures Toggled(Toggled(l)).isDarkMode == l.darkClass
    ensures Toggled(Toggled(l)).storage == l.storage[ThemeKey := if l.darkClass then "dark" else "light"]
  {
  }

  /** Once the stored theme and the flag agree with the class, toggling twice changes nothing. */
  lemma ToggleTwiceRestores(l: Look)
    requires l.isDarkMode == l.darkClass
    requires ThemeKey in l.storage && l.storage[ThemeKey] == (if l.darkClass then "dark" else "light")
    ensures Toggled(Toggled(l)) == l
  {
    assert l.storage[ThemeKey := l.storage[ThemeKey]] == l.storage;
  }

  /** The mount decision: a stored 'dark', or nothing stored and an operating system that prefers dark. */
  function InitialDark(theme: Option<string>, prefersDark: bool): (r: bool)
    ensures theme == Some("dark") ==> r
    ensures theme.None? ==> r == prefersDark
    ensures theme.Some? && theme.value != "dark" ==> !r
  {
    theme == Some("dark") || (prefersDark && theme.None?)
  }

  function StoredTheme(storage: Storage): Option<string>
  {
    if ThemeKey in storage then Some(storage[ThemeKey]) else None
  }

  /** The mount effect: the flag and the class both follow the decision. */
  function Mounted(l: Look, prefersDark: bool): (r: Look)
    ensures r.darkClass == r.isDarkMode == InitialDark(StoredTheme(l.storage), prefersDark)
    ensures r.storage == l.storage
  {
    var dark := InitialDark(StoredTheme(l.storage), prefersDark);
    Look(dark, dark, l.storage)
  }

  /** The choice a toggle makes is what the next mount restores, whatever the operating system prefers. */
  lemma ToggleSurvivesReload(l: Look, prefersDark: bool)
    ensures Mounted(Toggled(l), prefersDark) == Toggled(l)
  {
  }

  class ThemeToggle {
    var darkClass: bool
    var isDarkMode: bool
    var storage: Storage

    /** The first render: `isDarkMode` starts false, the page as it is. */
    constructor(darkClass: bool, storage: Storage)
      ensures this.darkClass == darkClass && !isDarkMode && this.storage == storage
    {
      this.darkClass := darkClass;
      isDarkMode := false;
      this.storage := storage;
    }

    function Current(): Look
      reads this
    {
      Look(darkClass, isDarkMode, storage)
    }

    /** The button's `toggleTheme`. */
    method Toggle()
      modifies this
      ensures Current() == Toggled(old(Current()))
    {
      if darkClass {
        darkClass := false;
        storage := storage[ThemeKey := "light"];
        isDarkMode := false;
      } else {
        darkClass := true;
        storage := storage[ThemeKey := "dark"];
        isDarkMode := true;
      }
    }

    /** The mount effect. */
    method Mount(prefersDark: bool)
      modifies this
      ensures Current() == Mounted(old(Current()), prefersDark)
    {
      var theme := if ThemeKey in storage then Some(storage[ThemeKey]) else None;
      var isDark := theme == Some("dark") || (prefersDark && theme == None);
      isDarkMode := isDark;
      darkClass := isDark;
    }
  }
}
