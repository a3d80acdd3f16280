/**
 * The `/services/[service]` page: the icon of a service, the pre-rendered parameters, the
 * not-found outcome for an unknown slug, the related and other services of the sidebar, and
 * the borough sections and jump links built from `locationsByBorough`.
 */
module ServicePage {
  import opened Catalog
  import opened JsArray
  import opened Boroughs
  import opened Strings

  // ---------------------------------------------------------------------------------------
  // Icons

  /** The icon components the page chooses from, as tags. */
  datatype Icon =
    | Truck | Package | Archive | Trash2 | Sparkles | Scale | Home | ClipboardCheck | Shield
    | Wifi | Key | Wrench | PaintBucket | Bug | Thermometer | Droplets | Zap | AlertOctagon

  /** The `icons` record of `getServiceIcon`. */
  const IconTable: map<string, Icon> := map[
    "moving-companies" := Truck,
    "packing-services" := Package,
    "storage-facilities" := Archive,
    "junk-removal" := Trash2,
    "cleaning-services" := Sparkles,
    "tenant-lawyers" := Scale,
    "real-estate-agents" := Home,
    "building-inspectors" := ClipboardCheck,
    "renters-insurance" := Shield,
    "internet-providers" := Wifi,
    "locksmith" := Key,
    "furniture-assembly" := Wrench,
    "painters" := PaintBucket,
    "pest-control" := Bug,
    "hvac-repair" := Thermometer,
    "plumbers" := Droplets,
    "electricians" := Zap,
    "mold-remediation" := AlertOctagon
  ]

  /**
   * `getServiceIcon`: a slug outside the table gets Wrench, and the icon of a listed slug
   * leads back to that slug, so no two of the 18 listed slugs share an icon.
   */
  function ServiceIcon(slug: string): (r: Icon)
    ensures slug !in IconTable ==> r == Wrench
    ensures slug in IconTable ==> IconSlug(r) == slug
  {
    if slug in IconTable then IconTable[slug] else Wrench
  }

  /** The one slug the table lists for each icon. */
  function IconSlug(icon: Icon): string
  {
    match icon
    case Truck => "moving-companies"
    case Package => "packing-services"
    case Archive => "storage-facilities"
    case Trash2 => "junk-removal"
    case Sparkles => "cleaning-services"
    case Scale => "tenant-lawyers"
    case Home => "real-estate-agents"
    case ClipboardCheck => "building-inspectors"
    case Shield => "renters-insurance"
    case Wifi => "internet-providers"
    case Key => "locksmith"
    case Wrench => "furniture-assembly"
    case PaintBucket => "painters"
    case Bug => "pest-control"
    case Thermometer => "hvac-repair"
    case Droplets => "plumbers"
    case Zap => "electricians"
    case AlertOctagon => "mold-remediation"
  }

  /** Every icon is listed in the table, for the slug `IconSlug` names. */
  lemma EveryIconListed(icon: Icon)
    ensures IconSlug(icon) in IconTable && ServiceIcon(IconSlug(icon)) == icon
  {
  }

  /**
   * Any icon other than Wrench identifies the listed slug it was chosen for; together with
   * `EveryIconListed` the table pairs slugs and icons one-to-one.
   */
  lemma IconDefault(slug: string)
    ensures ServiceIcon(slug) != Wrench ==> slug in IconTable && slug == IconSlug(ServiceIcon(slug))
  {
  }

  // ---------------------------------------------------------------------------------------
  // Static parameters and lookup

  /** `{ service }`: the route parameters of one pre-rendered page. */
  datatype ServiceParams = ServiceParams(service: string)

  /** `generateStaticParams`: `Object.keys(services).map(service => ({ service }))`. */
  function StaticParams(services: seq<(string, Service)>): (r: seq<ServiceParams>)
    ensures |r| == |services|
    ensures forall k :: 0 <= k < |services| ==> r[k].service == services[k].0
  {
    seq(|services|, k requires 0 <= k < |services| => ServiceParams(services[k].0))
  }

  /**
   * Enumeration is exhaustive and exact: a slug is pre-rendered exactly when the page
   * resolves it, and the parameters follow key order.
   */
  lemma StaticParamsExhaustive(services: seq<(string, Service)>, slug: string)
    ensures ServiceParams(slug) in StaticParams(services) <==> Lookup(services, slug).Some?
    ensures forall k :: 0 <= k < |services| ==> StaticParams(services)[k].service == services[k].0
  {
    var r := StaticParams(services);
    if ServiceParams(slug) in r {
      var k :| 0 <= k < |r| && r[k] == ServiceParams(slug);
      assert services[k].0 == slug;
    }
    if HasKey(services, slug) {
      var k :| 0 <= k < |services| && services[k].0 == slug;
      assert r[k] == ServiceParams(slug);
    }
  }

  /** No page is pre-rendered twice. */
  lemma StaticParamsDistinct(services: seq<(string, Service)>)
    requires UniqueSlugs(services)
    ensures NoDuplicates(StaticParams(services))
  {
    var r := StaticParams(services);
    forall i, j | 0 <= i < j < |r| ensures r[i] != r[j] {
      assert r[i].service == services[i].0 && r[j].service == services[j].0;
    }
  }

  // ---------------------------------------------------------------------------------------
  // Related and other services

  /** `svc.category === service.category && slug !== params.service` */
  function SameCategoryOtherSlug(focalSlug: string, category: string): ((string, Service)) -> bool
  {
    (e: (string, Service)) => e.1.category == category && e.0 != focalSlug
  }

  /** `svc.category !== service.category` */
  function OtherCategory(category: string): ((string, Service)) -> bool
  {
    (e: (string, Service)) => e.1.category != category
  }

  /** `relatedServices`: up to four other services of the focal service's category. */
  function RelatedServices(services: seq<(string, Service)>, focalSlug: string, focal: Service): (r: seq<(string, Service)>)
    ensures |r| <= 4
    ensures forall e :: e in r ==> e in services && e.1.category == focal.category && e.0 != focalSlug
  {
    var matches := Filter(services, SameCategoryOtherSlug(focalSlug, focal.category));
    assert forall e :: e in Take(matches, 4) ==> e in matches;
    Take(matches, 4)
  }

  /** `otherServices`: up to four services of categories other than the focal one. */
  function OtherServices(services: seq<(string, Service)>, focal: Service): (r: seq<(string, Service)>)
    ensures |r| <= 4
    ensures forall e :: e in r ==> e in services && e.1.category != focal.category
  {
    var matches := Filter(services, OtherCategory(focal.category));
    assert forall e :: e in Take(matches, 4) ==> e in matches;
    Take(matches, 4)
  }

  /**
   * The related services are the first matches in catalog order: everything the filter keeps
   * from some prefix of the catalog, and every match when there are fewer than four.
   */
  lemma RelatedServicesAreFirstMatches(services: seq<(string, Service)>, focalSlug: string, focal: Service)
    ensures exists k :: (0 <= k <= |services|
      && RelatedServices(services, focalSlug, focal)
         == Filter(services[..k], SameCategoryOtherSlug(focalSlug, focal.category))
      && (|RelatedServices(services, focalSlug, focal)| < 4 ==> k == |services|))
  {
    TakeFilterIsFilterOfPrefix(services, SameCategoryOtherSlug(focalSlug, focal.category), 4);
  }

  /**
   * The other services are the first matches in catalog order: everything the filter keeps
   * from some prefix of the catalog, and every match when there are fewer than four.
   */
  lemma OtherServicesAreFirstMatches(services: seq<(string, Service)>, focal: Service)
    ensures exists k :: (0 <= k <= |services|
      && OtherServices(services, focal) == Filter(services[..k], OtherCategory(focal.category))
      && (|OtherServices(services, focal)| < 4 ==> k == |services|))
  {
    TakeFilterIsFilterOfPrefix(services, OtherCategory(focal.category), 4);
  }

  /** The service whose page it is never appears among the other services. */
  lemma FocalNotAmongOthers(services: seq<(string, Service)>, slug: string, focal: Service)
    requires UniqueSlugs(services) && Lookup(services, slug) == Some(focal)
    ensures forall e :: e in OtherServices(services, focal) ==> e.0 != slug
  {
    forall e | e in OtherServices(services, focal) ensures e.0 != slug {
      var i :| 0 <= i < |services| && services[i] == e;
      var j :| 0 <= j < |services| && services[j] == (slug, focal);
    }
  }

  // ---------------------------------------------------------------------------------------
  // Borough sections and jump links

  /** Position `i` of `s` holds its first space. */
  predicate IsFirstSpace(s: string, i: nat)
    requires i < |s|
  {
    s[i] == ' ' && ' ' !in s[..i]
  }

  /**
   * `borough.toLowerCase().replace(' ', '-')`: the borough lower-cased, with its first space,
   * and only that one, turned into '-'.
   */
  function BoroughSegment(borough: string): (r: string)
    ensures |r| == |borough|
    ensures forall i :: 0 <= i < |borough| ==>
              r[i] == if IsFirstSpace(borough, i) then '-' else LowerChar(borough[i])
  {
    LoweringKeepsFirstSpace(borough);
    ReplaceFirst(ToLowerAscii(borough), ' ', '-')
  }

  /** Lower-casing moves no space: the first space of the result is the borough's first space. */
  lemma LoweringKeepsFirstSpace(borough: string)
    ensures var lower := ToLowerAscii(borough);
      && (' ' in lower <==> ' ' in borough)
      && (' ' in borough ==> forall i :: 0 <= i < |borough| ==>
            (IsFirstSpace(borough, i) <==> i == FirstIndex(lower, ' ')))
  {
    var lower := ToLowerAscii(borough);
    assert forall i :: 0 <= i < |borough| ==> (lower[i] == ' ' <==> borough[i] == ' ');
    if ' ' in borough {
      var i :| 0 <= i < |borough| && borough[i] == ' ';
      assert lower[i] == ' ';
      var k := FirstIndex(lower, ' ');
      forall i | 0 <= i < |borough| ensures IsFirstSpace(borough, i) <==> i == k {
        if i < k {
          assert lower[i] in lower[..k];
        } else if i > k {
          assert borough[k] in borough[..i];
        } else {
          forall j | 0 <= j < k ensures borough[j] != ' ' {
            assert lower[j] in lower[..k];
          }
        }
      }
    }
  }

  /**
   * Only the first space is replaced: a borough of a space-free first word and any rest keeps
   * every later space of the rest.
   */
  lemma BoroughSegmentOfWords(first: string, rest: string)
    requires ' ' !in first
    ensures BoroughSegment(first + " " + rest) == ToLowerAscii(first) + "-" + ToLowerAscii(rest)
  {
    var b := first + " " + rest;
    assert ToLowerAscii(b) == ToLowerAscii(first) + [' '] + ToLowerAscii(rest);
    assert ' ' !in ToLowerAscii(first);
    ReplaceFirstAt(ToLowerAscii(first), ToLowerAscii(rest), ' ', '-');
  }

  /** `` `/services/${service}/${location}` `` */
  function AreaHref(service: string, location: string): (r: string)
    ensures |r| == 11 + |service| + |location|
    ensures r[..10] == "/services/" && r[10..] == service + "/" + location
  {
    "/services/" + service + "/" + location
  }

  /** The two route parameters of `/services/[service]/[location]` that a path addresses. */
  function RouteOf(href: string): Option<(string, string)>
  {
    if |href| >= 10 && href[..10] == "/services/" then
      var rest := href[10..];
      var service := FirstSegment(rest, '/');
      if 0 < |service| && |service| + 1 < |rest| && '/' !in rest[|service| + 1..] then
        Some((service, rest[|service| + 1..]))
      else None
    else None
  }

  /** A link built from two slash-free slugs routes back to exactly those two parameters. */
  lemma AreaHrefRoundTrip(service: string, location: string)
    requires service != "" && location != "" && '/' !in service && '/' !in location
    ensures RouteOf(AreaHref(service, location)) == Some((service, location))
  {
    var href := AreaHref(service, location);
    assert href[..10] == "/services/";
    assert href[10..] == service + ['/'] + location;
    SplitAtFirst(service, location, '/');
    assert href[10..][|service| + 1..] == location;
  }

  /** One neighbourhood link of a borough section. */
  datatype AreaLink = AreaLink(href: string, name: string, teaser: string)

  /** One borough section: the borough, the "(n areas)" count, and its links. */
  datatype BoroughBlock = BoroughBlock(borough: string, count: nat, areas: seq<AreaLink>)

  /** One "Jump to Borough" link with its "n areas" count. */
  datatype JumpLink = JumpLink(borough: string, href: string, count: nat)

  function AreaLinkOf(service: string, card: LocationCard): AreaLink
  {
    AreaLink(AreaHref(service, card.slug), card.location.name, FirstSegment(card.location.character, ','))
  }

  function AreaLinks(service: string, cards: seq<LocationCard>): (r: seq<AreaLink>)
    ensures |r| == |cards|
    ensures forall j :: 0 <= j < |cards| ==> r[j] == AreaLinkOf(service, cards[j])
  {
    seq(|cards|, j requires 0 <= j < |cards| => AreaLinkOf(service, cards[j]))
  }

  /** The borough sections of "Find ... by Neighborhood", in `BoroughOrder`. */
  function BoroughBlocks(service: string, groups: map<string, seq<LocationCard>>): (r: seq<BoroughBlock>)
    ensures |r| == |ListedBoroughs(groups, BoroughOrder)|
    ensures forall k :: 0 <= k < |r| ==>
              r[k].borough == ListedBoroughs(groups, BoroughOrder)[k] && 0 < r[k].count == |r[k].areas|
  {
    var bs := ListedBoroughs(groups, BoroughOrder);
    seq(|bs|, k requires 0 <= k < |bs| =>
      assert bs[k] in bs;
      BoroughBlock(bs[k], |groups[bs[k]]|, AreaLinks(service, groups[bs[k]])))
  }

  /**
   * `locationsByBorough[borough]?.length || 0`, for a name that is not an `Object.prototype`
   * member (the page applies it to the five `BoroughOrder` names only).
   */
  function JumpCount(groups: map<string, seq<LocationCard>>, b: string): (n: nat)
    ensures n == 0 <==> b !in groups || groups[b] == []
    ensures b in groups ==> n == |groups[b]|
  {
    if b in groups then |groups[b]| else 0
  }

  /** `count !== 0`, the jump links' own test for showing a borough. */
  function HasJumpCount(groups: map<string, seq<LocationCard>>): string -> bool
  {
    (b: string) => JumpCount(groups, b) != 0
  }

  /** The "Jump to Borough" links, in `BoroughOrder`. */
  function JumpLinks(service: string, groups: map<string, seq<LocationCard>>): (r: seq<JumpLink>)
  {
    var bs := Filter(BoroughOrder, HasJumpCount(groups));
    seq(|bs|, k requires 0 <= k < |bs| =>
      JumpLink(bs[k], AreaHref(service, BoroughSegment(bs[k])), JumpCount(groups, bs[k])))
  }

  /**
   * The jump links name the same boroughs as the borough sections, in the same order and
   * with the same counts, although the two lists are selected by differently written tests;
   * each jump link's last path segment is its borough, lower-cased, first space replaced.
   */
  lemma JumpLinksMatchBlocks(service: string, groups: map<string, seq<LocationCard>>)
    ensures var blocks, jumps := BoroughBlocks(service, groups), JumpLinks(service, groups);
      && |jumps| == |blocks|
      && forall k :: 0 <= k < |blocks| ==>
           && jumps[k].borough == blocks[k].borough
           && jumps[k].count == blocks[k].count == |blocks[k].areas|
           && jumps[k].href == AreaHref(service, BoroughSegment(blocks[k].borough))
  {
    var bs := ListedBoroughs(groups, BoroughOrder);
    FilterAgreeing(BoroughOrder, HasJumpCount(groups), HasLocations(groups));
    assert Filter(BoroughOrder, HasJumpCount(groups)) == bs;
    var blocks, jumps := BoroughBlocks(service, groups), JumpLinks(service, groups);
    assert |jumps| == |bs| == |blocks|;
    forall k | 0 <= k < |blocks|
      ensures && jumps[k].borough == blocks[k].borough
              && jumps[k].count == blocks[k].count == |blocks[k].areas|
              && jumps[k].href == AreaHref(service, BoroughSegment(blocks[k].borough))
    {
      assert bs[k] in bs;
      assert blocks[k].borough == bs[k];
      assert jumps[k] == JumpLink(bs[k], AreaHref(service, BoroughSegment(bs[k])), JumpCount(groups, bs[k]));
    }
  }

  /** Every borough section shows the length of its group as the count, and links each of
    * its locations to `/services/{service}/{slug}` in group order. */
  lemma BlocksShowGroups(service: string, groups: map<string, seq<LocationCard>>)
    ensures var blocks, bs := BoroughBlocks(service, groups), ListedBoroughs(groups, BoroughOrder);
      forall k :: 0 <= k < |blocks| ==>
        && blocks[k].borough == bs[k]
        && bs[k] in BoroughOrder && bs[k] in groups
        && 0 < blocks[k].count == |groups[bs[k]]| == |blocks[k].areas|
        && forall j :: 0 <= j < |blocks[k].areas| ==>
             blocks[k].areas[j].href == AreaHref(service, groups[bs[k]][j].slug)
  {
    var blocks, bs := BoroughBlocks(service, groups), ListedBoroughs(groups, BoroughOrder);
    forall k | 0 <= k < |blocks| ensures bs[k] in bs {
    }
  }

  // ---------------------------------------------------------------------------------------
  // The page

  /** What the page shows for a known service. */
  datatype ServiceView = ServiceView(
    service: Service,
    icon: Icon,
    neighborhoodCount: nat,
    timelineHeadline: string,
    startingCost: string,
    blocks: seq<BoroughBlock>,
    related: seq<(string, Service)>,
    others: seq<(string, Service)>,
    jumps: seq<JumpLink>)

  /**
   * `ServicePage({ params })` for the slug `slug`: `None` (not found) before anything is
   * derived when the slug is unknown, otherwise the page built from the stored record.
   */
  function ServicePageView(services: seq<(string, Service)>, locations: seq<(string, Location)>, slug: string): (r: Option<ServiceView>)
    ensures r.None? <==> !HasKey(services, slug)
    ensures r.Some? ==> (slug, r.value.service) in services
  {
    match Lookup(services, slug)
    case None => None
    case Some(service) =>
      var groups := Groups(locations);
      Some(ServiceView(
        service,
        ServiceIcon(slug),
        |locations|,
        FirstSegment(service.timeline, ';'),
        FirstSegment(service.costRange, ','),
        BoroughBlocks(slug, groups),
        RelatedServices(services, slug, service),
        OtherServices(services, service),
        JumpLinks(slug, groups)))
  }

  /**
   * A known slug resolves to exactly its stored record; the headline figures are the text of
   * the timeline before its first ';' and of the cost range before its first ','; the
   * sidebar lists are the first four matches of `RelatedServices` and `OtherServices`.
   */
  lemma KnownServicePage(services: seq<(string, Service)>, locations: seq<(string, Location)>, i: nat)
    requires UniqueSlugs(services) && i < |services|
    ensures var (slug, service) := services[i];
      var r := ServicePageView(services, locations, slug);
      && r.Some?
      && r.value.service == service
      && r.value.icon == ServiceIcon(slug)
      && r.value.timelineHeadline == FirstSegment(service.timeline, ';')
      && r.value.startingCost == FirstSegment(service.costRange, ',')
      && r.value.related == RelatedServices(services, slug, service)
      && r.value.others == OtherServices(services, service)
      && (forall e :: e in r.value.related ==> e.1.category == service.category && e.0 != slug)
      && (forall e :: e in r.value.others ==> e.1.category != service.category && e.0 != slug)
  {
    LookupStored(services, i);
    FocalNotAmongOthers(services, services[i].0, services[i].1);
  }
}
