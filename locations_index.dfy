/**
 * The `/locations` index page: one section per borough in `BoroughOrder` that has
 * locations, each listing its locations with a link to `/locations/{slug}`.
 */
module LocationsIndex {
  import opened Catalog
  import opened JsArray
  import opened Boroughs

  /** One location card of a section. */
  datatype LocationLink = LocationLink(href: string, name: string, description: string)

  /** One borough section: its name, the count shown as "(n areas)", and its cards. */
  datatype Section = Section(borough: string, count: nat, links: seq<LocationLink>)

  /** `` `/locations/${slug}` `` */
  function LocationHref(slug: string): (r: string)
    ensures |r| == 11 + |slug| && r[..11] == "/locations/" && r[11..] == slug
  {
    "/locations/" + slug
  }

  /** The slug a `/locations/...` link addresses, as the one-segment `[location]` route reads it back. */
  function SlugOfHref(href: string): Option<string>
  {
    if |href| > 11 && href[..11] == "/locations/" && '/' !in href[11..] then Some(href[11..]) else None
  }

  /** A location card with a slash-free slug links to the detail page of exactly that slug. */
  lemma LocationHrefRoundTrip(slug: string)
    requires slug != "" && '/' !in slug
    ensures SlugOfHref(LocationHref(slug)) == Some(slug)
  {
  }

  function LinkOf(card: LocationCard): LocationLink
  {
    LocationLink(LocationHref(card.slug), card.location.name, card.location.description)
  }

  /** `boroughLocations.map(loc => <Link .../>)` */
  function Links(cards: seq<LocationCard>): (r: seq<LocationLink>)
    ensures |r| == |cards|
    ensures forall j :: 0 <= j < |cards| ==> r[j] == LinkOf(cards[j])
  {
    seq(|cards|, j requires 0 <= j < |cards| => LinkOf(cards[j]))
  }

  function SectionOf(groups: map<string, seq<LocationCard>>, b: string): Section
    requires b in groups
  {
    Section(b, |groups[b]|, Links(groups[b]))
  }

  /**
   * `order.map(borough => ...)` with `null` for a borough whose group is absent or empty.
   * Every section shown belongs to a borough of `order` with locations, and its count is
   * the length of that borough's group.
   */
  function Sections(groups: map<string, seq<LocationCard>>, order: seq<string>): (r: seq<Section>)
    ensures forall s :: s in r ==>
              && s.borough in order
              && s.borough in groups
              && 0 < s.count == |groups[s.borough]| == |s.links|
              && s == SectionOf(groups, s.borough)
    decreases |order|
  {
    if order == [] then []
    else
      (if HasLocations(groups)(order[0]) then [SectionOf(groups, order[0])] else [])
      + Sections(groups, order[1..])
  }

  /** The page as rendered for a location catalog. */
  function IndexSections(c: seq<(string, Location)>): seq<Section>
  {
    Sections(Groups(c), BoroughOrder)
  }

  function SectionBoroughs(r: seq<Section>): (bs: seq<string>)
    ensures |bs| == |r|
    ensures forall k :: 0 <= k < |r| ==> bs[k] == r[k].borough
  {
    seq(|r|, k requires 0 <= k < |r| => r[k].borough)
  }

  lemma SectionBoroughsAppend(r: seq<Section>, t: seq<Section>)
    ensures SectionBoroughs(r + t) == SectionBoroughs(r) + SectionBoroughs(t)
  {
  }

  /** Sections come in the order of `order`, one per borough with locations, and no others. */
  lemma {:induction false} SectionsFollowOrder(groups: map<string, seq<LocationCard>>, order: seq<string>)
    ensures SectionBoroughs(Sections(groups, order)) == ListedBoroughs(groups, order)
    decreases |order|
  {
    if order != [] {
      SectionsFollowOrder(groups, order[1..]);
      var shown := HasLocations(groups)(order[0]);
      var head := if shown then [SectionOf(groups, order[0])] else [];
      var rest := Sections(groups, order[1..]);
      SectionBoroughsAppend(head, rest);
      assert SectionBoroughs(head) == if shown then [order[0]] else [];
      assert ListedBoroughs(groups, order)
          == (if shown then [order[0]] else []) + ListedBoroughs(groups, order[1..]);
    }
  }

  /** A borough of `order` that has locations gets its section. */
  lemma {:induction false} SectionShown(groups: map<string, seq<LocationCard>>, order: seq<string>, b: string)
    requires b in order && b in groups && |groups[b]| > 0
    ensures SectionOf(groups, b) in Sections(groups, order)
    decreases |order|
  {
    if order[0] != b {
      assert b in order[1..];
      SectionShown(groups, order[1..], b);
    }
  }

  /** Sum of the counts the sections show. */
  function ShownCount(r: seq<Section>): nat
  {
    if r == [] then 0 else r[0].count + ShownCount(r[1..])
  }

  lemma {:induction false} ShownCountAppend(r: seq<Section>, t: seq<Section>)
    ensures ShownCount(r + t) == ShownCount(r) + ShownCount(t)
    decreases |r|
  {
    if r == [] {
      assert r + t == t;
    } else {
      assert (r + t)[0] == r[0];
      assert (r + t)[1..] == r[1..] + t;
      ShownCountAppend(r[1..], t);
    }
  }

  lemma {:induction false} ShownCountIsTotalSize(groups: map<string, seq<LocationCard>>, order: seq<string>)
    ensures ShownCount(Sections(groups, order)) == TotalSize(groups, order)
    decreases |order|
  {
    if order != [] {
      ShownCountIsTotalSize(groups, order[1..]);
      var head := if HasLocations(groups)(order[0]) then [SectionOf(groups, order[0])] else [];
      ShownCountAppend(head, Sections(groups, order[1..]));
    }
  }

  lemma BoroughOrderDistinct()
    ensures NoDuplicates(BoroughOrder)
  {
  }

  /**
   * When every location lies in one of the five boroughs, the counts shown across the
   * sections add up to the size of the catalog: no location is lost or counted twice.
   */
  lemma ShownCountsCoverCatalog(c: seq<(string, Location)>)
    requires forall i :: 0 <= i < |c| ==> c[i].1.borough in BoroughOrder
    ensures ShownCount(IndexSections(c)) == |c|
  {
    BoroughOrderDistinct();
    ShownCountIsTotalSize(Groups(c), BoroughOrder);
    GroupSizesSum(c, BoroughOrder);
  }

  /** Some section of the page links to the location with this slug. */
  predicate Listed(r: seq<Section>, slug: string)
  {
    exists s, l :: s in r && l in s.links && l.href == LocationHref(slug)
  }

  /** A location of one of the five boroughs is listed, in its borough's section. */
  lemma ListedIfKnownBorough(c: seq<(string, Location)>, i: nat)
    requires UniqueSlugs(c) && i < |c| && c[i].1.borough in BoroughOrder
    ensures Listed(IndexSections(c), c[i].0)
  {
    var g, b := Groups(c), c[i].1.borough;
    var card := LocationCard(c[i].0, c[i].1);
    LocationInOwnGroupOnly(c, i);
    var j :| 0 <= j < |g[b]| && g[b][j] == card;
    SectionShown(g, BoroughOrder, b);
    var s := SectionOf(g, b);
    assert s.links[j] == LinkOf(card);
    assert s.links[j] in s.links;
  }

  /** Every link of a section points at a location of that section's borough. */
  lemma LinkOfSectionBorough(c: seq<(string, Location)>, s: Section, l: LocationLink)
    requires s in IndexSections(c) && l in s.links
    ensures exists m :: 0 <= m < |c| && c[m].1.borough == s.borough && l.href == LocationHref(c[m].0)
  {
    var g, b := Groups(c), s.borough;
    assert s == SectionOf(g, b);
    var j :| 0 <= j < |s.links| && s.links[j] == l;
    var card := g[b][j];
    assert l == LinkOf(card);
    assert card in Filter(Cards(c), OfBorough(b));
    var m :| 0 <= m < |c| && Cards(c)[m] == card;
    assert c[m].1.borough == b && l.href == LocationHref(c[m].0);
  }

  /** A listed location lies in the borough of a section, hence in one of the five boroughs. */
  lemma KnownBoroughIfListed(c: seq<(string, Location)>, i: nat)
    requires UniqueSlugs(c) && i < |c| && Listed(IndexSections(c), c[i].0)
    ensures c[i].1.borough in BoroughOrder
  {
    var s, l :| s in IndexSections(c) && l in s.links && l.href == LocationHref(c[i].0);
    LinkOfSectionBorough(c, s, l);
    var m :| 0 <= m < |c| && c[m].1.borough == s.borough && l.href == LocationHref(c[m].0);
    assert LocationHref(c[m].0)[11..] == c[m].0;
    assert LocationHref(c[i].0)[11..] == c[i].0;
    assert m == i;
  }

  /**
   * A location is listed on the index exactly when its borough is one of `BoroughOrder`;
   * a location of any other borough is grouped but never shown.
   */
  lemma ListedIffKnownBorough(c: seq<(string, Location)>, i: nat)
    requires UniqueSlugs(c) && i < |c|
    ensures Listed(IndexSections(c), c[i].0) <==> c[i].1.borough in BoroughOrder
  {
    if c[i].1.borough in BoroughOrder {
      ListedIfKnownBorough(c, i);
    }
    if Listed(IndexSections(c), c[i].0) {
      KnownBoroughIfListed(c, i);
    }
  }
}
