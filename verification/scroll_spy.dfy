/** Scroll-spy: on every scroll event, the first section (in a fixed order)
    whose vertical extent contains a probe position becomes the active one;
    when none does, the active section stays as it was. The DOM is abstracted
    to a map from section id to the element's extent: an id that is not in the
    map is an element `getElementById` cannot find. */
module ScrollSpy {
  import opened Options

  datatype SectionId = About | Recommendations | Experience | Projects

  /** The priority order in which sections are tried. */
  const Sections: seq<SectionId> := [About, Recommendations, Experience, Projects]

  /** An element's `offsetTop` and `offsetHeight`, in whole pixels. */
  datatype Extent = Extent(top: int, height: int)

  type Layout = map<SectionId, Extent>

  /** The probe: the scroll offset plus a third of the viewport height, so a
      point inside the visible part of the page. */
  function Probe(scrollY: real, innerHeight: int): (p: real)
    ensures innerHeight >= 0 ==> scrollY <= p
    ensures innerHeight > 0 ==> p < scrollY + innerHeight as real
  {
    scrollY + innerHeight as real / 3.0
  }

  /** The half-open interval [top, top + height) contains the probe. */
  predicate Contains(e: Extent, probe: real) {
    probe >= e.top as real && probe < (e.top + e.height) as real
  }

  /** Section `s` is present in the DOM and its extent contains the probe. */
  predicate Hit(layout: Layout, s: SectionId, probe: real) {
    s in layout && Contains(layout[s], probe)
  }

  /** Position `k` of `order` is hit and no earlier position is. */
  predicate FirstHitAt(order: seq<SectionId>, layout: Layout, probe: real, k: int) {
    && 0 <= k < |order|
    && Hit(layout, order[k], probe)
    && forall j :: 0 <= j < k ==> !Hit(layout, order[j], probe)
  }

  /** No position of `order` is hit. */
  predicate NoHit(order: seq<SectionId>, layout: Layout, probe: real) {
    forall j :: 0 <= j < |order| ==> !Hit(layout, order[j], probe)
  }

  /** The first section of `order` that is hit, if any. */
  function FirstHit(order: seq<SectionId>, layout: Layout, probe: real): (r: Option<SectionId>)
    ensures r.Some? ==> exists k :: FirstHitAt(order, layout, probe, k) && order[k] == r.value
    ensures r.None? <==> NoHit(order, layout, probe)
    decreases |order|
  {
    if |order| == 0 then None
    else if Hit(layout, order[0], probe) then
      assert FirstHitAt(order, layout, probe, 0);
      Some(order[0])
    else
      var r := FirstHit(order[1..], layout, probe);
      if r.Some? then
        var k :| FirstHitAt(order[1..], layout, probe, k) && order[1..][k] == r.value;
        assert FirstHitAt(order, layout, probe, k + 1);
        r
      else
        assert forall j :: 1 <= j < |order| ==> order[j] == order[1..][j - 1];
        r
  }

  /** The scan of the scroll handler: walk the sections in order, skip those
      without an element, and stop at the first whose extent contains the probe. */
  method Scan(layout: Layout, probe: real) returns (found: Option<SectionId>)
    ensures found == FirstHit(Sections, layout, probe)
    ensures found.Some? ==> exists k :: FirstHitAt(Sections, layout, probe, k) && Sections[k] == found.value
    ensures found.None? ==> NoHit(Sections, layout, probe)
  {
    found := None;
    var i := 0;
    while i < |Sections|
      invariant 0 <= i <= |Sections|
      invariant FirstHit(Sections, layout, probe) == FirstHit(Sections[i..], layout, probe)
    {
      var section := Sections[i];
      assert Sections[i..][0] == section;
      if section in layout {
        var e := layout[section];
        if probe >= e.top as real && probe < (e.top + e.height) as real {
          found := Some(section);
          break;
        }
      }
      assert Sections[i..][1..] == Sections[i + 1..];
      i := i + 1;
    }
  }

  /** Position of a section in the priority order. */
  function Rank(s: SectionId): (k: nat)
    ensures k < |Sections| && Sections[k] == s
  {
    match s
    case About => 0
    case Recommendations => 1
    case Experience => 2
    case Projects => 3
  }

  /** The active section after a scroll event. */
  function Select(active: SectionId, layout: Layout, probe: real): (r: SectionId)
    ensures r != active ==> Hit(layout, r, probe)
    ensures (exists s :: Hit(layout, s, probe)) ==>
              Hit(layout, r, probe) && forall s :: Rank(s) < Rank(r) ==> !Hit(layout, s, probe)
    ensures (forall s :: !Hit(layout, s, probe)) ==> r == active
  {
    var found := FirstHit(Sections, layout, probe);
    if found.Some? then
      var k :| FirstHitAt(Sections, layout, probe, k) && Sections[k] == found.value;
      assert Rank(found.value) == k;
      found.value
    else
      NoHitMeansNoSection(layout, probe);
      active
  }

  /** Missing every position of the priority order means missing every section. */
  lemma NoHitMeansNoSection(layout: Layout, probe: real)
    requires NoHit(Sections, layout, probe)
    ensures forall s :: !Hit(layout, s, probe)
  {
    forall s
      ensures !Hit(layout, s, probe)
    {
      assert Sections[Rank(s)] == s;
    }
  }

  /** A probe inside exactly one present section selects that section. */
  lemma SelectUnique(active: SectionId, layout: Layout, probe: real, s: SectionId)
    requires Hit(layout, s, probe)
    requires forall t :: t != s ==> !Hit(layout, t, probe)
    ensures Select(active, layout, probe) == s
  {
  }

  /** Handling the same scroll position twice changes nothing the second time. */
  lemma SelectIdempotent(active: SectionId, layout: Layout, probe: real)
    ensures Select(Select(active, layout, probe), layout, probe) == Select(active, layout, probe)
  {
  }

  /** Sections about (0-800) and recommendations (800-1600), a viewport 900
      pixels high scrolled to 500: the probe is 800, which lies on the boundary
      and belongs to recommendations. */
  lemma BoundaryExample(active: SectionId)
    ensures Probe(500.0, 900) == 800.0
    ensures Select(active, map[About := Extent(0, 800), Recommendations := Extent(800, 800)], Probe(500.0, 900))
            == Recommendations
  {
    var layout := map[About := Extent(0, 800), Recommendations := Extent(800, 800)];
    assert Hit(layout, Recommendations, 800.0);
  }
}
