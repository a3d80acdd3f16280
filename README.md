# Building Health X service and location pages: a verified model

The site pre-renders service × location pages from two static, slug-keyed catalogs:
`services` and `locations`. This project models the catalog logic that two of its pages
compute before rendering:

- `app/services/page.tsx`, the per-service page (its own first line calls it
  `app/services/[service]/page.tsx`). It covers:
  - the icon lookup with its Wrench default;
  - `generateStaticParams`;
  - the lookup that ends in not-found;
  - the related and other services of the sidebar;
  - `locationsByBorough`;
  - the borough sections and "Jump to Borough" links;
  - the `split`/`replace` string helpers;
  - the neighbourhood and jump-to-borough links (lines 217 and 462).
- `app/locations/page.tsx`, the `/locations` index. It covers the same `locationsByBorough`
  reduce, the sections shown in `boroughOrder`, and each card's link.

A catalog is the sequence of its `[slug, record]` entries in `Object.entries` order. Slugs
are unique: they are the keys of an object literal. The modules are:

- `JsArray`: the semantics of `filter` and `slice(0, n)`.
- `Catalog`: the record shapes and the slug lookup.
- `Boroughs`: `locationsByBorough` and `boroughOrder`. Both pages compute the same value; only
  the accumulator's type annotation differs, so they are modelled once. The reduce is a method
  that pushes into the accumulator in a loop.
  The accumulator is a plain object, so a borough named like an `Object.prototype` member
  makes the reduce throw; the method returns `None` then. Otherwise it is proved equal to
  `Groups`, a function giving each borough the catalog's locations in that borough. Both pages
  are modelled on `Groups`, the intended grouping (see Findings).
- `Strings`: `split(sep)[0]`, ASCII `toLowerCase` and `replace` of the first occurrence.
- `LocationsIndex`: the `/locations` page.
- `ServicePage`: the per-service page.

Not-found is the `None` of an `Option`. Icons are tags of an enumeration.

## Model

| member | source | states |
|---|---|---|
| `Catalog.Lookup` | app/services/page.tsx:100-101 | An unknown slug gives `None` exactly when it is no key of the catalog; a found record is the one stored under that slug |
| `Catalog.LookupStored` | app/services/page.tsx:100 | With unique slugs, every slug of the catalog resolves to exactly the record stored under it |
| `Catalog.PropertyRead` | app/services/page.tsx:100 | `services[slug]` as written: an own record exactly for catalog slugs, an inherited member exactly for the `Object.prototype` names that are not slugs, `undefined` otherwise |
| `Catalog.InheritedNamePassesGuard` | app/services/page.tsx:100-101 | On any catalog without the slug `constructor`, the `if (!service)` guard as written lets `constructor` through, while `Lookup` reports it unknown |
| `JsArray.Filter` | app/services/page.tsx:105 | `filter` keeps only elements that satisfy the predicate and come from the input, and never grows the input |
| `JsArray.FilterIsOrderedSubsequence` | app/services/page.tsx:105 | A filter result is the input taken at strictly increasing positions, and those positions are exactly those of the matching elements |
| `JsArray.Take` | app/services/page.tsx:106 | `slice(0, n)` is the prefix of length `n`, or the whole input when it is shorter |
| `JsArray.TakeFilterPrefix` | app/services/page.tsx:104-106 | Names the prefix length `k` for which `filter(p).slice(0, n)` is the filter of the first `k` elements, all of them when at most `n` match |
| `JsArray.TakeFilterIsFilterOfPrefix` | app/services/page.tsx:104-106 | `filter(p).slice(0, n)` equals the filter of some prefix of the input, and that prefix is the whole input when at most `n` elements match |
| `Boroughs.GroupByBorough` | app/services/page.tsx:64-80 | The in-place reduce throws (`None`) exactly when some location's borough is an `Object.prototype` name; otherwise it produces exactly `Groups`: one key per borough that occurs, holding the cards of that borough's locations in catalog order |
| `Boroughs.AccumulatorRead` | app/services/page.tsx:65 | `acc[b]` on the accumulator is its own group exactly for keys already created, an inherited member exactly for the `Object.prototype` names that are not keys, `undefined` otherwise |
| `Boroughs.Push` | app/services/page.tsx:65-66 | Pushing a card creates the borough's key when absent, appends the card to that group, and leaves every other group as it was |
| `Boroughs.InheritedBoroughThrows` | app/locations/page.tsx:14-17 | A location whose borough is an inherited name makes the reduce as written throw, while the intended grouping holds it in its borough's group |
| `Boroughs.GroupsSnoc` | app/services/page.tsx:65-66 | Handling one more entry creates its borough's key when absent and appends `{ slug, ...loc }` to that group, leaving other groups alone |
| `Boroughs.GroupsNonEmpty` | app/locations/page.tsx:15-16 | Every group present is non-empty |
| `Boroughs.LocationInOwnGroupOnly` | app/locations/page.tsx:14-17 | Each location, carrying its own slug, is in the group of its own borough exactly once and in no other group |
| `Boroughs.GroupKeepsCatalogOrder` | app/services/page.tsx:64-67 | A group is the catalog's cards at strictly increasing positions, covering every location of that borough, so push order is catalog order |
| `Boroughs.GroupSizesSum` | app/locations/page.tsx:14-17 | Over any distinct list of boroughs covering every location, group sizes sum to the catalog size |
| `Boroughs.ListedBoroughs` | app/services/page.tsx:200-202 | Every borough shown is in the order list and has a present, non-empty group |
| `Boroughs.ListedBoroughsOfCatalog` | app/services/page.tsx:200-202 | The boroughs shown follow `boroughOrder` at strictly increasing positions and are exactly the boroughs of `boroughOrder` that hold some location |
| `LocationsIndex.Sections` | app/locations/page.tsx:52-62 | Each section is for a borough of the order list whose group is present and non-empty; its count is the group's length and equals its number of cards |
| `LocationsIndex.SectionsFollowOrder` | app/locations/page.tsx:52-54 | The sections' boroughs are, in order, exactly the listed boroughs, so absent and empty groups are skipped and nothing is reordered |
| `LocationsIndex.SectionShown` | app/locations/page.tsx:52-54 | Every borough of the order list with locations gets its section |
| `LocationsIndex.ShownCountsCoverCatalog` | app/locations/page.tsx:61 | When every location lies in one of the five boroughs, the shown counts add up to the catalog size |
| `LocationsIndex.ListedIffKnownBorough` | app/locations/page.tsx:20 | On the intended grouping, a location is linked from the index exactly when its borough is in `boroughOrder`; one of any other borough is grouped but never listed (for an `Object.prototype` name the reduce as written throws instead, see Findings) |
| `LocationsIndex.LocationHref` | app/locations/page.tsx:67 | A card's link is `/locations/` followed by exactly the location's slug |
| `LocationsIndex.LocationHrefRoundTrip` | app/locations/page.tsx:67 | A card's `/locations/${slug}` link, for a non-empty, slash-free slug, reads back through the one-segment route as exactly that location's slug |
| `ServicePage.ServiceIcon` | app/services/page.tsx:39-61 | Any slug outside the table gets Wrench; the icon of a listed slug leads back to that slug, so the 18 listed slugs each have their own icon |
| `ServicePage.EveryIconListed` | app/services/page.tsx:40-59 | Each of the 18 icons is listed in the table, for one known slug, and that slug gets it |
| `ServicePage.IconDefault` | app/services/page.tsx:60 | Any icon other than Wrench names the known slug it was chosen for |
| `ServicePage.StaticParams` | app/services/page.tsx:95-97 | One parameter per catalog entry, the `k`-th naming the `k`-th key |
| `ServicePage.StaticParamsExhaustive` | app/services/page.tsx:95-97 | One parameter per service key, in key order; a slug is pre-rendered exactly when the page resolves it |
| `ServicePage.StaticParamsDistinct` | app/services/page.tsx:95-97 | With unique slugs, no page is pre-rendered twice |
| `ServicePage.RelatedServices` | app/services/page.tsx:104-106 | At most 4 entries, each from the catalog, of the focal category and not the focal slug |
| `ServicePage.RelatedServicesAreFirstMatches` | app/services/page.tsx:104-106 | The related services are the first such entries in catalog order, and all of them when fewer than 4 exist |
| `ServicePage.OtherServices` | app/services/page.tsx:109-111 | At most 4 entries, each from the catalog, of a category other than the focal one |
| `ServicePage.OtherServicesAreFirstMatches` | app/services/page.tsx:109-111 | The other services are the first such entries in catalog order, and all of them when fewer than 4 exist |
| `ServicePage.FocalNotAmongOthers` | app/services/page.tsx:110 | With unique slugs, the service whose page it is never appears among the other services |
| `ServicePage.BoroughSegment` | app/services/page.tsx:462 | The segment has the borough's length; each position is the ASCII lower-case of the borough's character, except the first space, which becomes `-` |
| `ServicePage.BoroughSegmentOfWords` | app/services/page.tsx:462 | Only the first space is replaced: a space-free first word, `-`, then the rest lower-cased with its own spaces kept |
| `ServicePage.AreaHref` | app/services/page.tsx:217 | The link is `/services/`, the service slug, `/`, then the location part, and nothing else |
| `ServicePage.AreaHrefRoundTrip` | app/services/page.tsx:217 | A `/services/${service}/${slug}` link from two non-empty, slash-free slugs routes back to exactly those two parameters |
| `ServicePage.BoroughBlocks` | app/services/page.tsx:200-229 | One section per listed borough, in the listed order, each with a positive count equal to its number of links |
| `ServicePage.JumpCount` | app/services/page.tsx:457-458 | `?.length \|\| 0` is 0 exactly when the borough has no group or an empty one, and the group's length otherwise |
| `ServicePage.BlocksShowGroups` | app/services/page.tsx:200-217 | Each borough section is a listed borough; its count is its group's length, above 0; it links the group's locations in order to `/services/{service}/{slug}` |
| `ServicePage.JumpLinksMatchBlocks` | app/services/page.tsx:456-462 | The jump links, chosen by their own `?.length \|\| 0` test, name the same boroughs as the sections, in order, with the same counts, each linking to the borough's segment |
| `ServicePage.ServicePageView` | app/services/page.tsx:99-111 | Built on the corrected `Catalog.Lookup` and the intended grouping: not found exactly when the slug is no catalog key, before anything is derived; otherwise the page carries the stored record |
| `ServicePage.KnownServicePage` | app/services/page.tsx:100-111 | A known slug shows its exact record and icon; the timeline headline is the text before the first `;` and the starting cost the text before the first `,`; the related and other services are exactly the first four matches of `RelatedServices` and `OtherServices`, of its category without itself and of other categories |
| `Strings.FirstSegment` | app/services/page.tsx:222 | `split(sep)[0]` is the prefix of the text with no separator, and it ends at the first separator or the end of the text |
| `Strings.ToLowerAscii` | app/services/page.tsx:462 | Lower-casing keeps the length and lowers each character in place |
| `Strings.ReplaceFirst` | app/services/page.tsx:462 | A text without the pattern is unchanged; otherwise exactly its first occurrence is replaced |

## Left out

- Markup, CSS classes and layout: they have no behaviour to state. The view types keep only
  the values the markup shows: names, counts, links and short texts.
- The lucide-react icon components and the `size` class string. An icon is an enumeration
  tag.
- `Metadata`/`generateMetadata` and the `Link` component. `notFound()` is the `None` of an
  `Option`.
- The lead-capture form. It has no handlers, validation or submission.
- The contents of `lib/services-data` and `lib/locations-data`. Catalogs are parameters.
  Where a fact needs unique slugs, it requires them. A literal with a repeated key would keep
  the last value.
- `Object.entries` lists integer-like keys first, in ascending order. The model takes the
  catalog's order as the entry order, which is right for non-numeric slugs.
- `{ slug, ...loc }` lets a `slug` field stored in the record override the key. The model
  takes records without their own `slug` field.
- Unicode semantics of `toLowerCase`: only ASCII letters are lowered. Other characters are
  kept unchanged.
- `ServicePage.ServiceIcon`: as written, `icons[service]` also returns members that every
  object inherits, such as `toString`, instead of Wrench. The model's table has only its own
  keys. Such a slug reaches the icon through the lookup defect under Findings, or as a
  catalog key named like such a member.
- The sidebar's `/services/${slug}` links (app/services/page.tsx:411 and :434). They are
  plain interpolations of the related and other services' slugs; the lists themselves are
  modelled.
- The jump links point to `/services/{service}/{segment}`, for example `staten-island`. That
  page resolves them only if the location catalog has that slug. The cross page
  `app/services/[service]/[location]/page.tsx` is not part of this model. Neither are its
  cross-product static parameters or its related-location lists, nor the location detail page
  `app/locations/[location]/page.tsx`.
- Rendering of the record's `whyNeed`, `whatToLookFor` and `faqs` lists. These are mapped to
  markup one-to-one with no selection.

## Findings

| source | as written | input that shows it | evidently intended | confidence | as-written member | corrected member |
|---|---|---|---|---|---|---|
| app/services/page.tsx:100-101 | `services[params.service]` reads a plain object, so a name inherited from `Object.prototype` yields a truthy function and passes `if (!service)`; rendering then calls `service.timeline.split(';')` (line 173) on an undefined field and throws, so the visitor gets an error page rather than a 404 (for `__proto__`, `generateMetadata` already throws at line 91) | slug `constructor` (also `toString`, `valueOf`, ...), on a catalog without such a slug | only the catalog's own slugs resolve; every other slug is not found | medium, not executed; the catalog module is not part of this model | `Catalog.InheritedNamePassesGuard` | `Catalog.Lookup` |
| app/services/page.tsx:64-67 | `if (!acc[loc.borough])` (also app/locations/page.tsx:15) reads the `{}` accumulator, which inherits `Object.prototype`; for a borough named like one of its members the read is truthy, no array is created, and `acc[loc.borough].push` throws while the module loads, so both pages fail | a location whose borough is `toString` (or `constructor`, `valueOf`, ...) | every borough name gets its own group, as for the five real boroughs | low, not executed; it needs location data with such a borough name, and the location catalog is not part of this model | `Boroughs.InheritedBoroughThrows` | `Boroughs.LocationInOwnGroupOnly` |
