/** The section highlighting of the portfolio's navigation bar: on each
    scroll, the link of the section under the top of the window becomes the
    only active one. */
module Navigation {
  import opened Wrappers

  /** A `section[id]` of the page: its id, `offsetTop` and `offsetHeight`. */
  datatype Section = Section(id: string, offsetTop: int, offsetHeight: int)

  /** How far above a section's top its band starts, for the fixed bar. */
  const BarOffset := 100

  /** The test of `highlightNavigation`: the scroll position lies in the band
      that starts 100 pixels above the section, excluding the band's first
      point and including its last. */
  predicate InView(scrollY: real, s: Section)
    ensures InView(scrollY, s) ==> s.offsetHeight > 0
  {
    var sectionTop := s.offsetTop - BarOffset;
    scrollY > sectionTop as real && scrollY <= (sectionTop + s.offsetHeight) as real
  }

  /** The index of the last section in view, if any. */
  function LastInView(scrollY: real, sections: seq<Section>): (k: Option<nat>)
    ensures k.Some? ==> k.value < |sections| && InView(scrollY, sections[k.value])
    ensures k.Some? ==> forall m :: k.value < m < |sections| ==> !InView(scrollY, sections[m])
    ensures k.None? ==> forall m :: 0 <= m < |sections| ==> !InView(scrollY, sections[m])
  {
    if sections == [] then None
    else if InView(scrollY, sections[|sections| - 1]) then Some(|sections| - 1)
    else LastInView(scrollY, sections[..|sections| - 1])
  }

  /** Sections laid one after the other: each starts where the previous one
      ends, none with a negative height. */
  predicate Tiled(sections: seq<Section>) {
    && (forall k :: 0 <= k < |sections| ==> sections[k].offsetHeight >= 0)
    && (forall k :: 0 < k < |sections| ==>
          sections[k].offsetTop == sections[k - 1].offsetTop + sections[k - 1].offsetHeight)
  }

  lemma {:induction false} TiledBelow(sections: seq<Section>, k: int, m: int)
    requires Tiled(sections) && 0 <= k < m < |sections|
    ensures sections[k].offsetTop + sections[k].offsetHeight <= sections[m].offsetTop
    decreases m - k
  {
    if m > k + 1 {
      TiledBelow(sections, k, m - 1);
    }
  }

  /** When the sections tile the page, at most one of them is in view at any
      scroll position. */
  lemma InViewUnique(scrollY: real, sections: seq<Section>, k: int, m: int)
    requires Tiled(sections) && 0 <= k < |sections| && 0 <= m < |sections|
    requires InView(scrollY, sections[k]) && InView(scrollY, sections[m])
    ensures k == m
  {
    if k < m {
      TiledBelow(sections, k, m);
    } else if m < k {
      TiledBelow(sections, m, k);
    }
  }

  /** The navigation bar: the ids its links point to, and the ones that
      carry the `active` class. */
  class NavBar {
    const links: set<string>
    var active: set<string>

    constructor (links: set<string>)
      ensures this.links == links && active == {}
    {
      this.links := links;
      active := {};
    }

    /** `highlightNavigation`: for each section in view, every link loses
        `active` and the section's link, if there is one, gains it. So the
        last section in view decides; with none in view nothing changes. */
    method HighlightNavigation(scrollY: real, sections: seq<Section>)
      modifies this
      ensures LastInView(scrollY, sections).None? ==> active == old(active)
      ensures LastInView(scrollY, sections).Some? ==>
        var id := sections[LastInView(scrollY, sections).value].id;
        active == if id in links then {id} else {}
    {
      var i := 0;
      while i < |sections|
        invariant 0 <= i <= |sections|
        invariant LastInView(scrollY, sections[..i]).None? ==> active == old(active)
        invariant LastInView(scrollY, sections[..i]).Some? ==>
          var id := sections[LastInView(scrollY, sections[..i]).value].id;
          active == if id in links then {id} else {}
      {
        var section := sections[i];
        assert sections[..i + 1][..i] == sections[..i];
        if InView(scrollY, section) {
          active := {};
          if section.id in links {
            active := {section.id};
          }
        }
        i := i + 1;
      }
      assert sections[..i] == sections;
    }
  }

  /** With tiled sections, the section in view is the one whose link is
      active after the scroll handler. */
  lemma TiledHighlight(scrollY: real, sections: seq<Section>, k: int)
    requires Tiled(sections) && 0 <= k < |sections| && InView(scrollY, sections[k])
    ensures LastInView(scrollY, sections) == Some(k)
  {
    var l := LastInView(scrollY, sections);
    InViewUnique(scrollY, sections, k, l.value);
  }
}
