/** The theme controller: the light/dark preference resolved once when the page
    mounts and flipped by the toggle button. The browser is abstracted away:
    the saved `localStorage` entry is `stored`, the `dark` class on the document
    element is `darkClass`, and the media-query result is a plain boolean input. */
module ThemeController {
  import opened Options

  datatype Theme = Light | Dark

  /** Everything the controller reads or writes: the in-memory theme, the
      persisted preference and the document's `dark` class flag. */
  datatype ThemeState = ThemeState(current: Theme, stored: Option<Theme>, darkClass: bool)

  /** The other theme. */
  function Flip(t: Theme): (r: Theme)
    ensures r != t
  {
    if t == Light then Dark else Light
  }

  /** The fallback used when nothing is saved, computed from whether the media
      query `(prefers-color-scheme: light)` matches. As written, a match gives
      the DARK theme and no match gives the light one. */
  function SystemTheme(prefersLight: bool): (r: Theme)
    ensures r == Dark <==> prefersLight
  {
    if prefersLight then Dark else Light
  }

  /** The theme chosen at mount: the saved preference if there is one,
      otherwise the system fallback. */
  function InitialTheme(saved: Option<Theme>, prefersLight: bool): (r: Theme)
    ensures saved.Some? ==> r == saved.value
    ensures saved.None? ==> (r == Dark <==> prefersLight)
  {
    match saved
    case Some(t) => t
    case None => SystemTheme(prefersLight)
  }

  /** The document class agrees with the in-memory theme. */
  predicate Applied(s: ThemeState) {
    s.darkClass <==> s.current == Dark
  }

  /** The class agrees with the theme, and a persisted preference, if any, is
      the theme in use. */
  predicate Synced(s: ThemeState) {
    Applied(s) && (s.stored.Some? ==> s.stored.value == s.current)
  }

  /** The mount-time effect: resolve the theme and apply it to the document.
      Nothing is written to storage. */
  function Mount(s: ThemeState, prefersLight: bool): (r: ThemeState)
    ensures r.current == InitialTheme(s.stored, prefersLight)
    ensures r.stored == s.stored
    ensures Synced(r)
  {
    var t := InitialTheme(s.stored, prefersLight);
    ThemeState(t, s.stored, t == Dark)
  }

  /** The toggle button: flip the theme, persist the new value and apply it. */
  function Toggle(s: ThemeState): (r: ThemeState)
    ensures r.current != s.current
    ensures r.stored == Some(r.current)
    ensures Synced(r)
  {
    var t := Flip(s.current);
    ThemeState(t, Some(t), t == Dark)
  }

  /** Toggling twice gives back the original theme; on a synced state whose
      preference is already persisted it gives back the whole state. */
  lemma ToggleTwice(s: ThemeState)
    ensures Toggle(Toggle(s)).current == s.current
    ensures Synced(s) && s.stored.Some? ==> Toggle(Toggle(s)) == s
  {
  }

  /** A reload after a toggle: the fresh page starts light with an arbitrary
      document class, and its mount restores exactly the toggled state,
      whatever the system preference says. */
  lemma ReloadRestoresToggle(s: ThemeState, docDark: bool, prefersLight: bool)
    ensures Mount(ThemeState(Light, Toggle(s).stored, docDark), prefersLight) == Toggle(s)
  {
  }

  /** Once a preference is persisted, the system preference has no influence. */
  lemma SavedPreferenceWins(s: ThemeState)
    requires s.stored.Some?
    ensures Mount(s, true) == Mount(s, false)
  {
  }

  /** With nothing saved, a user whose system prefers light gets the dark theme
      and vice versa. */
  lemma FallbackInvertsPreference(s: ThemeState, prefersLight: bool)
    requires s.stored.None?
    ensures Mount(s, prefersLight).current == (if prefersLight then Dark else Light)
    ensures Mount(s, prefersLight).darkClass == prefersLight
  {
  }
}
