/**
 * `generateTOC` and `toggleTOC`: one link per h2/h3 heading of the article, in
 * document order, with ids given to the headings that lack one, and a display
 * toggle for the list.
 */
module Toc {
  import opened Wrappers
  import opened Text

  /** A heading element: `tagName` ("H2" or "H3"), `id` ("" when absent) and `textContent`. */
  datatype Heading = Heading(tag: string, id: string, text: string)

  /** A link of the list: `href`, `textContent`, and 0 for H2 or 1 for H3 (the indent). */
  datatype TocLink = TocLink(href: string, text: string, level: nat)

  /** The id heading number `index` has after generation. */
  function AssignedId(h: Heading, index: nat): (id: string)
    ensures id != []
    ensures h.id != [] ==> id == h.id
    ensures h.id == [] ==> id == "heading-" + NatToString(index)
  {
    if h.id == [] then "heading-" + NatToString(index) else h.id
  }

  function WithId(h: Heading, index: nat): Heading {
    h.(id := AssignedId(h, index))
  }

  /** The link for heading number `index`: it points at the heading's id after generation, never at a bare "#". */
  function LinkFor(h: Heading, index: nat): (link: TocLink)
    ensures link.href == "#" + AssignedId(h, index) && |link.href| >= 2
    ensures link.text == h.text
    ensures link.level <= 1 && (link.level == 0 <==> h.tag == "H2")
  {
    TocLink("#" + AssignedId(h, index), h.text, if h.tag == "H2" then 0 else 1)
  }

  /** The headings after generation. */
  function WithIds(hs: seq<Heading>): (r: seq<Heading>)
    ensures |r| == |hs|
  {
    seq(|hs|, i requires 0 <= i < |hs| => WithId(hs[i], i))
  }

  /** The headings after the first `n` have been given their ids. */
  ghost function NamedUpTo(hs: seq<Heading>, n: nat): (r: seq<Heading>)
    ensures |r| == |hs|
  {
    seq(|hs|, k requires 0 <= k < |hs| => if k < n then WithId(hs[k], k) else hs[k])
  }

  /** Naming heading `n` extends the named prefix by one; all headings named is `WithIds`. */
  lemma NamedUpToStep(hs: seq<Heading>, n: nat)
    requires n < |hs|
    ensures NamedUpTo(hs, n)[n] == hs[n]
    ensures NamedUpTo(hs, n)[n := WithId(hs[n], n)] == NamedUpTo(hs, n + 1)
    ensures hs[n].id != [] ==> NamedUpTo(hs, n) == NamedUpTo(hs, n + 1)
    ensures n + 1 == |hs| ==> NamedUpTo(hs, n + 1) == WithIds(hs)
  {
    assert NamedUpTo(hs, n)[n := WithId(hs[n], n)] == NamedUpTo(hs, n + 1);
    if n + 1 == |hs| {
      assert NamedUpTo(hs, n + 1) == WithIds(hs);
    }
  }

  /** The links generation appends, one per heading, in document order. */
  function TocLinks(hs: seq<Heading>): (r: seq<TocLink>)
    ensures |r| == |hs|
  {
    seq(|hs|, i requires 0 <= i < |hs| => LinkFor(hs[i], i))
  }

  /** The links for the first `n + 1` headings are those for the first `n` and one more. */
  lemma TocLinksPrefixStep(hs: seq<Heading>, n: nat)
    requires n < |hs|
    ensures TocLinks(hs)[..n + 1] == TocLinks(hs)[..n] + [LinkFor(hs[n], n)]
  {
  }

  /**
   * Link `k` points at heading `k` by its id after generation, shows its text, and
   * is indented unless the heading is an H2; the id is the old one if there was one.
   */
  lemma LinkAt(hs: seq<Heading>, k: nat)
    requires k < |hs|
    ensures var link, h := TocLinks(hs)[k], WithIds(hs)[k];
      link.href == "#" + h.id && link.text == hs[k].text && h.text == hs[k].text &&
      h.tag == hs[k].tag && link.level == (if hs[k].tag == "H2" then 0 else 1) &&
      (hs[k].id != [] ==> h.id == hs[k].id) &&
      (hs[k].id == [] ==> h.id == "heading-" + NatToString(k))
  {
  }

  /** Every heading has an id after generation. */
  lemma AllHeadingsHaveIds(hs: seq<Heading>)
    ensures forall k :: 0 <= k < |hs| ==> WithIds(hs)[k].id != []
  {
  }

  /** Two headings that both lacked an id get different ids. */
  lemma GeneratedIdsDistinct(hs: seq<Heading>, j: nat, k: nat)
    requires j < k < |hs| && hs[j].id == [] && hs[k].id == []
    ensures WithIds(hs)[j].id != WithIds(hs)[k].id
  {
    var pre := "heading-";
    if WithIds(hs)[j].id == WithIds(hs)[k].id {
      assert (pre + NatToString(j))[|pre|..] == NatToString(j);
      assert (pre + NatToString(k))[|pre|..] == NatToString(k);
      NatToStringInjective(j, k);
    }
  }

  /** Generating again over the generated headings changes nothing. */
  lemma RegenerationIsStable(hs: seq<Heading>)
    ensures WithIds(WithIds(hs)) == WithIds(hs)
    ensures TocLinks(WithIds(hs)) == TocLinks(hs)
  {
    assert forall k :: 0 <= k < |hs| ==> WithIds(WithIds(hs))[k] == WithIds(hs)[k];
    assert forall k :: 0 <= k < |hs| ==> TocLinks(WithIds(hs))[k] == TocLinks(hs)[k];
  }

  /** `toggleTOC`: "none" opens the list; anything else, the initial "" included, collapses it. */
  function ToggledDisplay(display: string): (r: string)
    ensures r == "block" || r == "none"
    ensures r == "block" <==> display == "none"
  {
    if display == "none" then "block" else "none"
  }

  /** The chevron's `transform` that goes with a display value. */
  function ChevronFor(display: string): (r: string)
    ensures r == "rotate(0deg)" || r == "rotate(-90deg)"
    ensures r == "rotate(0deg)" <==> display == "block"
  {
    if display == "block" then "rotate(0deg)" else "rotate(-90deg)"
  }

  /** Once toggled, the list alternates between open and collapsed. */
  lemma ToggleTwice(display: string)
    requires display == "block" || display == "none"
    ensures ToggledDisplay(ToggledDisplay(display)) == display
  {
  }

  /** The list element `toc-content` (its links and `style.display`) and the chevron, if there is one. */
  class TocPanel {
    var links: seq<TocLink>
    var display: string
    var chevron: Option<string>

    constructor (links: seq<TocLink>, chevronPresent: bool)
      ensures this.links == links && display == "" && chevron == (if chevronPresent then Some("") else None)
    {
      this.links := links;
      display := "";
      chevron := if chevronPresent then Some("") else None;
    }

    /**
     * `generateTOC()` over the headings of the article (`articlePresent` says whether
     * `article-content` exists). Ids are assigned in place.
     */
    method GenerateToc(headings: array<Heading>, articlePresent: bool)
      modifies this, headings
      ensures !articlePresent || headings.Length == 0 ==>
        links == old(links) && headings[..] == old(headings[..])
      ensures articlePresent && headings.Length > 0 ==>
        links == TocLinks(old(headings[..])) && headings[..] == WithIds(old(headings[..]))
      ensures display == old(display) && chevron == old(chevron)
    {
      if !articlePresent || headings.Length == 0 {
        return;
      }
      ghost var original := headings[..];
      links := [];
      var index := 0;
      while index < headings.Length
        invariant 0 <= index <= headings.Length
        invariant display == old(display) && chevron == old(chevron)
        invariant headings[..] == NamedUpTo(original, index)
        invariant links == TocLinks(original)[..index]
      {
        var heading := headings[index];
        NamedUpToStep(original, index);
        if heading.id == [] {
          headings[index] := heading.(id := "heading-" + NatToString(index));
        }
        assert headings[..] == NamedUpTo(original, index + 1);
        var level := if headings[index].tag == "H2" then 0 else 1;
        TocLinksPrefixStep(original, index);
        links := links + [TocLink("#" + headings[index].id, headings[index].text, level)];
        index := index + 1;
      }
      assert TocLinks(original)[..index] == TocLinks(original);
    }

    method ToggleToc()
      modifies this
      ensures old(chevron) == None ==> display == old(display) && chevron == None
      ensures old(chevron).Some? ==>
        display == ToggledDisplay(old(display)) && chevron == Some(ChevronFor(display))
      ensures links == old(links)
    {
      if chevron == None {
        return;
      }
      if display == "none" {
        display := "block";
        chevron := Some("rotate(0deg)");
      } else {
        display := "none";
        chevron := Some("rotate(-90deg)");
      }
    }

    /** The page-load sequence: generate the list, then toggle it once. */
    method SetUp(headings: array<Heading>, articlePresent: bool)
      modifies this, headings
      ensures !articlePresent || headings.Length == 0 ==>
        links == old(links) && headings[..] == old(headings[..])
      ensures articlePresent && headings.Length > 0 ==>
        links == TocLinks(old(headings[..])) && headings[..] == WithIds(old(headings[..]))
      ensures old(chevron) == None ==> display == old(display) && chevron == None
      ensures old(chevron).Some? ==>
        display == ToggledDisplay(old(display)) && chevron == Some(ChevronFor(display))
      ensures old(display) == "" && old(chevron).Some? ==>
        display == "none" && chevron == Some("rotate(-90deg)")
    {
      GenerateToc(headings, articlePresent);
      ToggleToc();
    }
  }

  /** Toggling a list that has no inline display yet collapses it and turns the chevron to -90deg. */
  lemma LoadedListIsCollapsed()
    ensures ToggledDisplay("") == "none" && ChevronFor("none") == "rotate(-90deg)"
  {
  }
}
