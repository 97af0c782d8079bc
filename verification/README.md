# Portfolio page state, modelled in Dafny

The portfolio site is one React page (`app/page.tsx`). Apart from markup and
static content it holds three pieces of UI state and the rules that change them:

- the **theme controller** resolves the light/dark theme when the page mounts
  (saved preference first, otherwise a media query) and flips it on the toggle
  button, persisting the choice and setting the document's `dark` class;
- the **expanded-recommendation tracker** keeps the set of recommendation
  indices shown in full, and "Read more"/"Read less" flips one index;
- the **scroll-spy** picks, on every scroll event, the first section in the
  fixed order about, recommendations, experience, projects whose element
  exists and whose half-open extent `[offsetTop, offsetTop + offsetHeight)`
  contains the probe `scrollY + innerHeight / 3`; when none does, the active
  section is left as it was. Before the first scroll event the active
  section is about (`app/page.tsx:7`).

The model pulls these rules out of React and the DOM as pure functions:

- `options.dfy` — `Option`, used for the saved preference and the scan result.
- `theme.dfy` (`ThemeController`) — `Theme`, `ThemeState` (in-memory theme,
  persisted value, document class flag), `Mount`, `Toggle` and their lemmas.
  `localStorage` is the `stored` field; the media-query result is a boolean input.
- `expand_tracker.dfy` (`ExpandTracker`) — `Toggle` on `set<nat>` and its
  involution, commutation and click-parity lemmas.
- `scroll_spy.dfy` (`ScrollSpy`) — `SectionId`, the priority order, `Extent`,
  the DOM as a map from section to extent (an absent key is an element that
  `getElementById` does not find), the recursive reference `FirstHit`, the loop
  `Scan` that mirrors the handler, and `Select`, the new active section.
- `portfolio.dfy` (`Portfolio`) — the page state, the initial state, one `Event`
  per handler, `Step`/`Run`, and lemmas about arbitrary event sequences. A
  scroll event carries the element extents, the scroll offset and the viewport
  height, and `Step` computes the probe from the last two with `ScrollSpy.Probe`.

Line 13 is modelled as written: when `(prefers-color-scheme: light)` matches,
the fallback theme is dark, and when it does not match the fallback is light
(`ThemeController.FallbackInvertsPreference`). This looks inverted relative to
the operating-system preference, but the model keeps the code's behaviour.

## Model

| member | source | states |
|---|---|---|
| ThemeController.Flip | app/page.tsx:20 | the toggled theme always differs from the current one |
| ThemeController.SystemTheme | app/page.tsx:13 | the fallback is dark exactly when the light-preference media query matches |
| ThemeController.InitialTheme | app/page.tsx:12-14 | a saved preference is used when present; otherwise the fallback, dark exactly when the light query matches |
| ThemeController.Mount | app/page.tsx:11-17 | the mount effect sets the theme to the resolved initial theme, writes nothing to storage, and leaves the `dark` class set exactly when the theme is dark and any saved preference equal to the theme |
| ThemeController.Toggle | app/page.tsx:19-24 | the toggle changes the theme, persists exactly the new theme, and sets the `dark` class exactly when the new theme is dark |
| ThemeController.ToggleTwice | app/page.tsx:19-24 | two toggles restore the theme, and restore the whole state when it was synced and persisted |
| ThemeController.ReloadRestoresToggle | app/page.tsx:8-24 | after a toggle, a reloaded page (light state, any document class) mounts back into exactly the toggled state, whatever the media query says |
| ThemeController.SavedPreferenceWins | app/page.tsx:12-14 | once a preference is saved, the media query has no effect on the mount |
| ThemeController.FallbackInvertsPreference | app/page.tsx:13-16 | with nothing saved, a light-preference match yields the dark theme and dark class, and no match yields light |
| ExpandTracker.Toggle | app/page.tsx:26-35 | the clicked index changes membership and every other index keeps its membership |
| ExpandTracker.ToggleTwice | app/page.tsx:26-35 | toggling one index twice restores the set |
| ExpandTracker.ToggleCommutes | app/page.tsx:26-35 | toggles of two indices can be applied in either order |
| ExpandTracker.ToggleAllParity | app/page.tsx:26-35 | after any click sequence an index is expanded exactly when its initial membership was flipped an odd number of times |
| ScrollSpy.Probe | app/page.tsx:41 | the probe lies in the visible part of the page: at or below the scroll offset and above its bottom edge |
| ScrollSpy.Rank | app/page.tsx:40 | each section has a position in the priority order holding that section |
| ScrollSpy.FirstHit | app/page.tsx:40-52 | a found section is at a position that is hit with no earlier position hit; nothing is found exactly when no position is hit |
| ScrollSpy.Scan | app/page.tsx:43-52 | the handler's loop, skipping missing elements and stopping at the first containing extent, returns the first hit in the priority order, or nothing when no section contains the probe |
| ScrollSpy.NoHitMeansNoSection | app/page.tsx:40-52 | missing every position of the order means missing every section |
| ScrollSpy.Select | app/page.tsx:43-52 | a changed active section exists and contains the probe; when some section is hit the result is hit and no higher-priority section is; when none is hit the active section is unchanged |
| ScrollSpy.SelectUnique | app/page.tsx:43-50 | a probe inside exactly one present section makes it active |
| ScrollSpy.SelectIdempotent | app/page.tsx:39-53 | handling the same scroll position twice gives the same active section as once |
| ScrollSpy.BoundaryExample | app/page.tsx:41-48 | sections at 0-800 and 800-1600 with a 900-pixel viewport scrolled to 500 give probe 800 and select recommendations (lower bound inclusive) |
| Portfolio.Initial | app/page.tsx:7-9 | the page starts with about active, the light theme, nothing expanded, and the browser's storage and class untouched |
| Portfolio.Step | app/page.tsx:11-53 | each handler changes only its own piece of state; theme handlers leave the theme synced, a click flips its index, a scroll changes the active section only to a section that contains the probe computed from that event's scroll offset and viewport height |
| Portfolio.StepKeepsSynced | app/page.tsx:11-53 | no handler breaks the agreement between theme, class and saved preference |
| Portfolio.RunKeepsSynced | app/page.tsx:11-53 | a synced page stays synced through any event sequence |
| Portfolio.SyncedAfterMount | app/page.tsx:11-17 | from the mount on, for any prior storage and class and any later events, the class matches the theme and a saved preference is the theme in use |
| Portfolio.RunExpandedParity | app/page.tsx:26-35 | over any event sequence only the "Read more" clicks change the expanded set, and an index is expanded exactly when flipped an odd number of times |
| Portfolio.RunActiveWithoutScroll | app/page.tsx:7 | without scroll events the active section never changes |
| Portfolio.RunActiveOrigin | app/page.tsx:7-53 | after any events the active section is the starting one or a section present and containing the probe of some scroll event |

## Left out

- Markup, styling, icons, images and the recommendation, experience and
  project content: presentation and fixed data, no behaviour.
- `scrollToSection`: its only effect is the browser's smooth scroll.
- Browser APIs as such (`localStorage`, `matchMedia`, `getElementById`,
  `classList`, listener registration and removal): their values are inputs and
  fields of the state; React's render and hook scheduling are not modelled.
- Saved values other than "light" and "dark", and the empty string (which the
  code's `||` treats as absent): the saved preference is an `Option<Theme>`.
- ThemeController.Toggle, ThemeController.Mount, Portfolio.StepKeepsSynced,
  Portfolio.RunKeepsSynced and Portfolio.SyncedAfterMount assume that
  `localStorage` calls never throw. The code has no error handling around
  them: if `setItem` throws (a quota or security error), the theme has already
  been set but the `dark` class is never updated, so the class goes stale; if
  `getItem` throws, the mount effect stops before setting anything. The
  synced-state lemmas hold only under that assumption.
- Floating-point arithmetic: positions are exact `real`s and element extents
  whole pixels, so rounding in `scrollY + innerHeight / 3` is not modelled.
- That `toggleRecommendation` copies the previous set instead of mutating it:
  sets are values in the model, so no caller's set can change.
