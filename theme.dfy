/**
 * The dark-mode switch of js/dark-mode.js: the theme is read from the
 * `theme` key of localStorage, falling back to the system's colour-scheme
 * preference; toggling stores and shows the other theme; and a listener
 * follows the system preference for as long as nothing is stored.
 */
module Theme {
  import opened Wrappers

  const ThemeKey: string := "theme"
  const DarkTheme: string := "dark"
  const LightTheme: string := "light"

  /** localStorage: either it throws on every access, or it holds string items. */
  datatype Storage = Unavailable | Available(items: map<string, string>)

  /** localStorage.getItem(THEME_KEY) on an available storage: None for null. */
  function StoredTheme(items: map<string, string>): Option<string>
  {
    if ThemeKey in items then Some(items[ThemeKey]) else None
  }

  /** Whether getItem's result is truthy: present and not the empty string. */
  predicate HasPreference(items: map<string, string>)
  {
    StoredTheme(items).Some? && StoredTheme(items).value != ""
  }

  /** What `matchMedia && matchMedia('(prefers-color-scheme: dark)').matches` says. */
  function SystemTheme(matchMediaSupported: bool, prefersDark: bool): (theme: string)
    ensures theme == DarkTheme <==> matchMediaSupported && prefersDark
  {
    if matchMediaSupported && prefersDark then DarkTheme else LightTheme
  }

  /**
   * getSavedTheme: a stored non-empty value wins, then the system
   * preference, then light; a storage that throws yields light.
   */
  function SavedTheme(storage: Storage, matchMediaSupported: bool, prefersDark: bool): (theme: string)
    ensures theme != ""
    ensures storage.Unavailable? ==> theme == LightTheme
    ensures storage.Available? && HasPreference(storage.items) ==> theme == storage.items[ThemeKey]
    ensures storage.Available? && !HasPreference(storage.items) ==>
      (theme == DarkTheme <==> matchMediaSupported && prefersDark)
  {
    match storage
    case Unavailable => LightTheme
    case Available(items) =>
      if HasPreference(items) then items[ThemeKey] else SystemTheme(matchMediaSupported, prefersDark)
  }

  /** saveTheme: sets the key, or silently changes nothing when the storage throws. */
  function SaveTheme(storage: Storage, theme: string): (saved: Storage)
    ensures saved.Unavailable? <==> storage.Unavailable?
    ensures saved.Available? ==> StoredTheme(saved.items) == Some(theme)
    ensures saved.Available? ==> forall k :: k != ThemeKey ==>
      (k in saved.items <==> k in storage.items) && (k in saved.items ==> saved.items[k] == storage.items[k])
  {
    match storage
    case Unavailable => Unavailable
    case Available(items) => Available(items[ThemeKey := theme])
  }

  /** The theme toggleTheme switches to: light from dark, dark from anything else. */
  function Toggled(theme: string): (next: string)
    ensures next == DarkTheme || next == LightTheme
    ensures next == DarkTheme <==> theme != DarkTheme
  {
    if theme == DarkTheme then LightTheme else DarkTheme
  }

  /** A saved non-empty theme is the one read back, whatever the system prefers. */
  lemma SaveThenRead(storage: Storage, theme: string, matchMediaSupported: bool, prefersDark: bool)
    requires storage.Available? && theme != ""
    ensures SavedTheme(SaveTheme(storage, theme), matchMediaSupported, prefersDark) == theme
  {
  }

  /** The storage after one click of the toggle button. */
  function AfterToggle(storage: Storage, matchMediaSupported: bool, prefersDark: bool): Storage
  {
    SaveTheme(storage, Toggled(SavedTheme(storage, matchMediaSupported, prefersDark)))
  }

  /** After a toggle on a working storage the stored theme is always dark or light. */
  lemma ToggleStoresDarkOrLight(storage: Storage, matchMediaSupported: bool, prefersDark: bool)
    requires storage.Available?
    ensures var s := AfterToggle(storage, matchMediaSupported, prefersDark);
      s.Available? && (StoredTheme(s.items) == Some(DarkTheme) || StoredTheme(s.items) == Some(LightTheme))
  {
  }

  /** Two toggles from a stored dark or light restore it. */
  lemma TwoTogglesRestore(storage: Storage, matchMediaSupported: bool, prefersDark: bool)
    requires storage.Available?
    requires StoredTheme(storage.items) == Some(DarkTheme) || StoredTheme(storage.items) == Some(LightTheme)
    ensures var twice := AfterToggle(AfterToggle(storage, matchMediaSupported, prefersDark), matchMediaSupported, prefersDark);
      twice.Available? && StoredTheme(twice.items) == StoredTheme(storage.items)
  {
    var once := AfterToggle(storage, matchMediaSupported, prefersDark);
    var t := SavedTheme(storage, matchMediaSupported, prefersDark);
    assert t == storage.items[ThemeKey];
    SaveThenRead(storage, Toggled(t), matchMediaSupported, prefersDark);
    assert SavedTheme(once, matchMediaSupported, prefersDark) == Toggled(t);
  }

  /**
   * When the storage throws, every toggle computes dark: getSavedTheme keeps
   * answering light because the save never lands, so the page cannot be
   * switched back to light.
   */
  lemma ToggleWithoutStorage(matchMediaSupported: bool, prefersDark: bool)
    ensures AfterToggle(Unavailable, matchMediaSupported, prefersDark) == Unavailable
    ensures Toggled(SavedTheme(Unavailable, matchMediaSupported, prefersDark)) == DarkTheme
  {
  }

  /** The sun or moon icon: missing from the page, or shown (display 'block') or hidden ('none'). */
  datatype Icon = Missing | Present(shown: bool)

  /** The page state dark-mode.js touches, and the environment it reads. */
  class ThemePage {
    var storage: Storage
    /** Whether the root element carries the `dark` class. */
    var darkClass: bool
    var sunIcon: Icon
    var moonIcon: Icon
    /** Whether initTheme registered the system-change listener. */
    var listening: bool
    const matchMediaSupported: bool
    var prefersDark: bool

    /** getSavedTheme in the current state. */
    function Current(): string
      reads this`storage, this`prefersDark
    {
      SavedTheme(storage, matchMediaSupported, prefersDark)
    }

    /** The page shows `theme`: the class is there iff it is dark, the moon iff dark, the sun iff not. */
    predicate Shows(theme: string)
      reads this`darkClass, this`sunIcon, this`moonIcon
    {
      && (darkClass <==> theme == DarkTheme)
      && (sunIcon.Present? ==> (sunIcon.shown <==> theme != DarkTheme))
      && (moonIcon.Present? ==> (moonIcon.shown <==> theme == DarkTheme))
    }

    /** The page as loaded, before initTheme runs. */
    constructor(storage: Storage, darkClass: bool, sunIcon: Icon, moonIcon: Icon,
                matchMediaSupported: bool, prefersDark: bool)
      ensures this.storage == storage && this.darkClass == darkClass
      ensures this.sunIcon == sunIcon && this.moonIcon == moonIcon
      ensures this.matchMediaSupported == matchMediaSupported && this.prefersDark == prefersDark
      ensures !listening
    {
      this.storage := storage;
      this.darkClass := darkClass;
      this.sunIcon := sunIcon;
      this.moonIcon := moonIcon;
      this.matchMediaSupported := matchMediaSupported;
      this.prefersDark := prefersDark;
      listening := false;
    }

    /** applyTheme: sets the class and the icons' display; a missing icon stays missing. */
    method ApplyTheme(theme: string)
      modifies this`darkClass, this`sunIcon, this`moonIcon
      ensures Shows(theme)
      ensures sunIcon.Present? <==> old(sunIcon).Present?
      ensures moonIcon.Present? <==> old(moonIcon).Present?
    {
      if theme == DarkTheme {
        darkClass := true;
        if sunIcon.Present? { sunIcon := Present(false); }
        if moonIcon.Present? { moonIcon := Present(true); }
      } else {
        darkClass := false;
        if sunIcon.Present? { sunIcon := Present(true); }
        if moonIcon.Present? { moonIcon := Present(false); }
      }
    }

    /** toggleTheme: saves and shows the opposite of the theme getSavedTheme reports. */
    method ToggleTheme()
      modifies this`storage, this`darkClass, this`sunIcon, this`moonIcon
      ensures storage == AfterToggle(old(storage), matchMediaSupported, prefersDark)
      ensures Shows(Toggled(old(Current())))
      ensures sunIcon.Present? <==> old(sunIcon).Present?
      ensures moonIcon.Present? <==> old(moonIcon).Present?
    {
      var currentTheme := SavedTheme(storage, matchMediaSupported, prefersDark);
      var newTheme := if currentTheme == DarkTheme then LightTheme else DarkTheme;
      storage := SaveTheme(storage, newTheme);
      ApplyTheme(newTheme);
    }

    /**
     * initTheme: shows the saved theme, then registers the system-change
     * listener when matchMedia exists and nothing is stored.  The second
     * getItem is outside any try, so a throwing storage makes initTheme
     * throw there (`completed` is false) with the theme already applied.
     */
    method InitTheme() returns (completed: bool)
      modifies this`darkClass, this`sunIcon, this`moonIcon, this`listening
      ensures Shows(Current())
      ensures completed <==> !(matchMediaSupported && storage.Unavailable?)
      ensures listening <==> matchMediaSupported && storage.Available? && !HasPreference(storage.items)
    {
      var savedTheme := SavedTheme(storage, matchMediaSupported, prefersDark);
      ApplyTheme(savedTheme);
      if !matchMediaSupported {
        listening := false;
        return true;
      }
      if storage.Unavailable? {
        listening := false;
        return false;
      }
      listening := !HasPreference(storage.items);
      completed := true;
    }

    /**
     * The system preference changes to `matches`; the listener, if
     * registered, shows the matching theme while nothing is stored.
     */
    method SystemChange(matches: bool)
      modifies this`prefersDark, this`darkClass, this`sunIcon, this`moonIcon
      ensures prefersDark == matches
      ensures listening && storage.Available? && !HasPreference(storage.items) ==>
        Shows(if matches then DarkTheme else LightTheme)
      ensures !(listening && storage.Available? && !HasPreference(storage.items)) ==>
        darkClass == old(darkClass) && sunIcon == old(sunIcon) && moonIcon == old(moonIcon)
    {
      prefersDark := matches;
      if listening && storage.Available? && !HasPreference(storage.items) {
        ApplyTheme(if matches then DarkTheme else LightTheme);
      }
    }

    /** While the listener follows the system, what it shows is what getSavedTheme reports. */
    lemma ListenerAgreesWithSaved()
      requires matchMediaSupported && storage.Available? && !HasPreference(storage.items)
      ensures Current() == (if prefersDark then DarkTheme else LightTheme)
    {
    }
  }
}
