/** The page component's state and the events that change it. The component
    holds three pieces of state (active section, theme, expanded set); the
    browser contributes the persisted preference and the document class,
    which live in the theme part. */
module Portfolio {
  import opened Options
  import ThemeController
  import ExpandTracker
  import ScrollSpy

  datatype Page = Page(
    active: ScrollSpy.SectionId,
    theme: ThemeController.ThemeState,
    expanded: set<nat>)

  /** The state before any effect has run: about is active, the theme is light,
      nothing is expanded; storage and the document class are whatever the
      browser already has. */
  function Initial(stored: Option<ThemeController.Theme>, docDark: bool): (p: Page)
    ensures p.active == ScrollSpy.About
    ensures p.theme.current == ThemeController.Light
    ensures p.theme.stored == stored && p.theme.darkClass == docDark
    ensures p.expanded == {}
  {
    Page(ScrollSpy.About, ThemeController.ThemeState(ThemeController.Light, stored, docDark), {})
  }

  /** The events the page reacts to. A scroll event carries the element
      extents at that moment, the scroll offset and the viewport height; the
      handler derives its probe from the last two. */
  datatype Event =
    | Mounted(prefersLight: bool)
    | ThemeClicked
    | ReadMoreClicked(index: nat)
    | Scrolled(layout: ScrollSpy.Layout, scrollY: real, innerHeight: int)

  /** One event: each handler touches only its own piece of state. */
  function Step(p: Page, e: Event): (r: Page)
    ensures !e.Scrolled? ==> r.active == p.active
    ensures !(e.Mounted? || e.ThemeClicked?) ==> r.theme == p.theme
    ensures !e.ReadMoreClicked? ==> r.expanded == p.expanded
    ensures e.Mounted? || e.ThemeClicked? ==> ThemeController.Synced(r.theme)
    ensures e.ReadMoreClicked? ==> (e.index in r.expanded <==> e.index !in p.expanded)
    ensures e.Scrolled? && r.active != p.active ==>
              ScrollSpy.Hit(e.layout, r.active, ScrollSpy.Probe(e.scrollY, e.innerHeight))
  {
    match e
    case Mounted(prefersLight) => p.(theme := ThemeController.Mount(p.theme, prefersLight))
    case ThemeClicked => p.(theme := ThemeController.Toggle(p.theme))
    case ReadMoreClicked(i) => p.(expanded := ExpandTracker.Toggle(p.expanded, i))
    case Scrolled(layout, scrollY, innerHeight) =>
      p.(active := ScrollSpy.Select(p.active, layout, ScrollSpy.Probe(scrollY, innerHeight)))
  }

  /** A sequence of events, handled one after another to completion. */
  function Run(p: Page, events: seq<Event>): Page
    decreases |events|
  {
    if |events| == 0 then p else Run(Step(p, events[0]), events[1..])
  }

  /** Every handler keeps the theme synced once it is. */
  lemma StepKeepsSynced(p: Page, e: Event)
    requires ThemeController.Synced(p.theme)
    ensures ThemeController.Synced(Step(p, e).theme)
  {
  }

  /** From the mount on, the document class matches the theme and a persisted
      preference is the one in use, whatever events follow. */
  lemma {:induction false} RunKeepsSynced(p: Page, events: seq<Event>)
    requires ThemeController.Synced(p.theme)
    ensures ThemeController.Synced(Run(p, events).theme)
    decreases |events|
  {
    if |events| > 0 {
      StepKeepsSynced(p, events[0]);
      RunKeepsSynced(Step(p, events[0]), events[1..]);
    }
  }

  /** The page is synced after its mount effect, for any starting browser state
      and any events that follow. */
  lemma SyncedAfterMount(stored: Option<ThemeController.Theme>, docDark: bool, prefersLight: bool, events: seq<Event>)
    ensures ThemeController.Synced(Run(Initial(stored, docDark), [Mounted(prefersLight)] + events).theme)
  {
    var p := Initial(stored, docDark);
    var e := [Mounted(prefersLight)] + events;
    assert e[0] == Mounted(prefersLight) && e[1..] == events;
    RunKeepsSynced(Step(p, Mounted(prefersLight)), events);
  }

  /** The indices of the "Read more" clicks among the events. */
  function ReadMoreClicks(events: seq<Event>): seq<nat>
    decreases |events|
  {
    if |events| == 0 then []
    else if events[0].ReadMoreClicked? then [events[0].index] + ReadMoreClicks(events[1..])
    else ReadMoreClicks(events[1..])
  }

  /** Only "Read more" clicks affect the expanded set, and each entry is
      expanded exactly when it was clicked an odd number of times more than it
      started with. */
  lemma {:induction false} RunExpandedParity(p: Page, events: seq<Event>, i: nat)
    ensures Run(p, events).expanded == ExpandTracker.ToggleAll(p.expanded, ReadMoreClicks(events))
    ensures i in Run(p, events).expanded
            <==> ((i in p.expanded) != (ExpandTracker.Clicks(ReadMoreClicks(events), i) % 2 == 1))
    decreases |events|
  {
    if |events| > 0 {
      RunExpandedParity(Step(p, events[0]), events[1..], i);
      if events[0].ReadMoreClicked? {
        var c := ReadMoreClicks(events);
        assert c[0] == events[0].index && c[1..] == ReadMoreClicks(events[1..]);
      }
    }
    ExpandTracker.ToggleAllParity(p.expanded, ReadMoreClicks(events), i);
  }

  /** With no scroll events the active section stays where it started. */
  lemma {:induction false} RunActiveWithoutScroll(p: Page, events: seq<Event>)
    requires forall k :: 0 <= k < |events| ==> !events[k].Scrolled?
    ensures Run(p, events).active == p.active
    decreases |events|
  {
    if |events| > 0 {
      RunActiveWithoutScroll(Step(p, events[0]), events[1..]);
    }
  }

  /** After any events, the active section is either the starting one or a
      section whose element was present and contained the probe of one of the
      scroll events. */
  lemma {:induction false} RunActiveOrigin(p: Page, events: seq<Event>)
    ensures var a := Run(p, events).active;
            a == p.active ||
            exists k :: 0 <= k < |events| && events[k].Scrolled?
                        && ScrollSpy.Hit(events[k].layout, a, ScrollSpy.Probe(events[k].scrollY, events[k].innerHeight))
    decreases |events|
  {
    if |events| > 0 {
      var q := Step(p, events[0]);
      RunActiveOrigin(q, events[1..]);
      var a := Run(p, events).active;
      if a != q.active {
        var k :| 0 <= k < |events[1..]| && events[1..][k].Scrolled?
                 && ScrollSpy.Hit(events[1..][k].layout, a, ScrollSpy.Probe(events[1..][k].scrollY, events[1..][k].innerHeight));
        assert events[k + 1] == events[1..][k];
      }
    }
  }
}
