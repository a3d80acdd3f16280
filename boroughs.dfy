/**
 * `locationsByBorough` and `boroughOrder`, which both page modules compute identically:
 * the location catalog grouped by borough, and the fixed order boroughs are shown in.
 */
module Boroughs {
  import opened Catalog
  import opened JsArray

  /** The display order of the five boroughs. */
  const BoroughOrder: seq<string> := ["Manhattan", "Brooklyn", "Queens", "Bronx", "Staten Island"]

  /** `{ slug, ...loc }`: a location record together with its catalog slug. */
  datatype LocationCard = LocationCard(slug: string, location: Location)

  /** Every catalog entry as a card, in catalog order. */
  function Cards(c: seq<(string, Location)>): (r: seq<LocationCard>)
    ensures |r| == |c|
    ensures forall i :: 0 <= i < |c| ==> r[i] == LocationCard(c[i].0, c[i].1)
  {
    seq(|c|, i requires 0 <= i < |c| => LocationCard(c[i].0, c[i].1))
  }

  /** The test `loc.borough === b`, as a predicate on cards. */
  function OfBorough(b: string): LocationCard -> bool
  {
    (card: LocationCard) => card.location.borough == b
  }

  /** The cards of the locations in borough `b`, in catalog order. */
  function InBorough(c: seq<(string, Location)>, b: string): seq<LocationCard>
  {
    Filter(Cards(c), OfBorough(b))
  }

  /** The boroughs that at least one location of the catalog lies in. */
  function BoroughsOf(c: seq<(string, Location)>): set<string>
  {
    set i | 0 <= i < |c| :: c[i].1.borough
  }

  /** The intended value of `locationsByBorough`: one group per borough that occurs. */
  function Groups(c: seq<(string, Location)>): map<string, seq<LocationCard>>
  {
    map b | b in BoroughsOf(c) :: InBorough(c, b)
  }

  /** The accumulator after pushing `card` into the group of borough `b`, creating it if absent. */
  function Push(groups: map<string, seq<LocationCard>>, b: string, card: LocationCard): (r: map<string, seq<LocationCard>>)
    ensures r.Keys == groups.Keys + {b}
    ensures r[b] == (if b in groups then groups[b] else []) + [card]
    ensures forall k :: k in groups && k != b ==> r[k] == groups[k]
  {
    groups[b := (if b in groups then groups[b] else []) + [card]]
  }

  /**
   * `acc[b]` on the accumulator, a plain object: an own group, a member every object
   * inherits from `Object.prototype`, or `undefined`.
   */
  function AccumulatorRead(groups: map<string, seq<LocationCard>>, b: string): (r: Property<seq<LocationCard>>)
    ensures r.Own? <==> b in groups
    ensures r.Own? ==> r.record == groups[b]
    ensures r.Inherited? <==> b !in groups && b in ObjectPrototypeNames
  {
    if b in groups then Own(groups[b])
    else if b in ObjectPrototypeNames then Inherited(b)
    else Undefined
  }

  /** Some location's borough is the name of an `Object.prototype` member. */
  predicate ReduceThrows(c: seq<(string, Location)>)
  {
    exists i :: 0 <= i < |c| && c[i].1.borough in ObjectPrototypeNames
  }

  /**
   * The `reduce` over `Object.entries(locations)` that builds `locationsByBorough` in place.
   * A borough named like an inherited member reads as truthy, so no array is created and
   * `push` is called on the inherited member, which throws: that outcome is `None`.
   */
  method GroupByBorough(c: seq<(string, Location)>) returns (r: Option<map<string, seq<LocationCard>>>)
    ensures r.None? <==> ReduceThrows(c)
    ensures r.Some? ==> r.value == Groups(c)
  {
    var groups := map[];
    for i := 0 to |c|
      invariant groups == Groups(c[..i])
      invariant !ReduceThrows(c[..i])
    {
      var (slug, loc) := c[i];
      match AccumulatorRead(groups, loc.borough) {
        case Inherited(_) =>
          assert c[i].1.borough in ObjectPrototypeNames;
          return None;
        case Undefined =>
          groups := groups[loc.borough := []];
        case Own(_) =>
      }
      groups := groups[loc.borough := groups[loc.borough] + [LocationCard(slug, loc)]];
      assert groups == Push(Groups(c[..i]), loc.borough, LocationCard(slug, loc));
      assert c[..i + 1] == c[..i] + [c[i]];
      GroupsSnoc(c[..i], c[i]);
      NoThrowSnoc(c[..i], c[i]);
    }
    assert c[..|c|] == c;
    return Some(groups);
  }

  /** An entry whose borough is an ordinary name keeps the reduce from throwing. */
  lemma NoThrowSnoc(c: seq<(string, Location)>, x: (string, Location))
    requires !ReduceThrows(c) && x.1.borough !in ObjectPrototypeNames
    ensures !ReduceThrows(c + [x])
  {
    var d := c + [x];
    forall j | 0 <= j < |d| ensures d[j].1.borough !in ObjectPrototypeNames {
      if j < |c| {
        assert d[j] == c[j];
      }
    }
  }

  /**
   * A location whose borough is an inherited name makes the reduce as written throw,
   * although the intended grouping simply holds it in a group of its own borough.
   */
  lemma InheritedBoroughThrows(c: seq<(string, Location)>, i: nat)
    requires UniqueSlugs(c) && i < |c| && c[i].1.borough in ObjectPrototypeNames
    ensures ReduceThrows(c)
    ensures c[i].1.borough in Groups(c) && LocationCard(c[i].0, c[i].1) in Groups(c)[c[i].1.borough]
  {
    LocationInOwnGroupOnly(c, i);
  }

  /** A borough no location lies in has no cards. */
  lemma InBoroughEmpty(c: seq<(string, Location)>, b: string)
    requires b !in BoroughsOf(c)
    ensures InBorough(c, b) == []
  {
    var r := InBorough(c, b);
    if r != [] {
      CardLiesInCatalogBorough(c, b, r[0]);
      assert false;
    }
  }

  /** A card of borough `b` comes from a location of the catalog in `b`. */
  lemma CardLiesInCatalogBorough(c: seq<(string, Location)>, b: string, card: LocationCard)
    requires card in InBorough(c, b)
    ensures b in BoroughsOf(c)
  {
    var i :| 0 <= i < |c| && Cards(c)[i] == card;
    assert c[i].1.borough == b;
  }

  lemma BoroughsOfSnoc(c: seq<(string, Location)>, x: (string, Location))
    ensures BoroughsOf(c + [x]) == BoroughsOf(c) + {x.1.borough}
  {
    var c' := c + [x];
    forall b | b in BoroughsOf(c') ensures b in BoroughsOf(c) + {x.1.borough} {
      var i :| 0 <= i < |c'| && c'[i].1.borough == b;
      if i < |c| {
        assert c[i] == c'[i];
      }
    }
    forall b | b in BoroughsOf(c) ensures b in BoroughsOf(c') {
      var i :| 0 <= i < |c| && c[i].1.borough == b;
      assert c'[i] == c[i];
    }
    assert c'[|c|] == x;
  }

  lemma InBoroughSnoc(c: seq<(string, Location)>, x: (string, Location), b: string)
    ensures InBorough(c + [x], b)
         == InBorough(c, b) + (if x.1.borough == b then [LocationCard(x.0, x.1)] else [])
  {
    var card := LocationCard(x.0, x.1);
    assert Cards(c + [x]) == Cards(c) + [card];
    FilterAppend(Cards(c), [card], OfBorough(b));
    assert Filter([card], OfBorough(b)) == (if x.1.borough == b then [card] else []);
  }

  /** Processing one more entry pushes its card into its own borough's group. */
  lemma GroupsSnoc(c: seq<(string, Location)>, x: (string, Location))
    ensures Groups(c + [x]) == Push(Groups(c), x.1.borough, LocationCard(x.0, x.1))
  {
    var g', pushed := Groups(c + [x]), Push(Groups(c), x.1.borough, LocationCard(x.0, x.1));
    BoroughsOfSnoc(c, x);
    assert g'.Keys == pushed.Keys;
    forall b | b in g'.Keys ensures g'[b] == pushed[b] {
      InBoroughSnoc(c, x, b);
      if b !in BoroughsOf(c) {
        InBoroughEmpty(c, b);
      }
    }
  }

  /** Every group is non-empty: a key is created only by the push of its first location. */
  lemma {:induction false} GroupsNonEmpty(c: seq<(string, Location)>, b: string)
    requires b in Groups(c)
    ensures |Groups(c)[b]| > 0
  {
    var i :| 0 <= i < |c| && c[i].1.borough == b;
    FilterKeeps(Cards(c), OfBorough(b), i);
  }

  /**
   * Each location is in the group keyed by its own borough, exactly once, and in no
   * other group.
   */
  lemma LocationInOwnGroupOnly(c: seq<(string, Location)>, i: nat)
    requires UniqueSlugs(c) && i < |c|
    ensures var card, b := LocationCard(c[i].0, c[i].1), c[i].1.borough;
      && b in Groups(c)
      && card in Groups(c)[b]
      && NoDuplicates(Groups(c)[b])
      && forall b' :: b' in Groups(c) && b' != b ==> card !in Groups(c)[b']
  {
    var b := c[i].1.borough;
    FilterKeeps(Cards(c), OfBorough(b), i);
    FilterNoDuplicates(Cards(c), OfBorough(b));
  }

  /**
   * Within a group, locations keep catalog order: the group is the catalog's cards taken at
   * strictly increasing positions, which are exactly the positions of that borough's locations.
   */
  lemma GroupKeepsCatalogOrder(c: seq<(string, Location)>, b: string)
    requires b in Groups(c)
    ensures var g, pos := Groups(c)[b], MatchPositions(Cards(c), OfBorough(b), 0);
      && |pos| == |g|
      && (forall j :: 0 <= j < |g| ==> pos[j] < |c| && g[j] == LocationCard(c[pos[j]].0, c[pos[j]].1))
      && (forall j, k :: 0 <= j < k < |g| ==> pos[j] < pos[k])
      && (forall i :: 0 <= i < |c| && c[i].1.borough == b ==> i in pos)
  {
    assert Cards(c)[0..] == Cards(c);
    FilterIsOrderedSubsequence(Cards(c), OfBorough(b), 0);
  }

  /** Sum of the group sizes over the boroughs `bs` (an absent group counts 0). */
  function TotalSize(groups: map<string, seq<LocationCard>>, bs: seq<string>): nat
  {
    if bs == [] then 0
    else (if bs[0] in groups then |groups[bs[0]]| else 0) + TotalSize(groups, bs[1..])
  }

  /** Sum over `bs` of the number of `cards` in each borough. */
  function CountAcross(cards: seq<LocationCard>, bs: seq<string>): nat
  {
    if bs == [] then 0 else |Filter(cards, OfBorough(bs[0]))| + CountAcross(cards, bs[1..])
  }

  /** How many times `b` occurs in `bs`. */
  function Occurrences(bs: seq<string>, b: string): nat
  {
    if bs == [] then 0 else (if bs[0] == b then 1 else 0) + Occurrences(bs[1..], b)
  }

  lemma {:induction false} OccursOnce(bs: seq<string>, b: string)
    requires NoDuplicates(bs) && b in bs
    ensures Occurrences(bs, b) == 1
    decreases |bs|
  {
    if bs[0] == b {
      OccursNever(bs[1..], b);
    } else {
      assert b in bs[1..];
      OccursOnce(bs[1..], b);
    }
  }

  lemma {:induction false} OccursNever(bs: seq<string>, b: string)
    requires b !in bs
    ensures Occurrences(bs, b) == 0
    decreases |bs|
  {
    if bs != [] {
      assert b !in bs[1..];
      OccursNever(bs[1..], b);
    }
  }

  lemma {:induction false} CountAcrossCons(x: LocationCard, rest: seq<LocationCard>, bs: seq<string>)
    ensures CountAcross([x] + rest, bs) == Occurrences(bs, x.location.borough) + CountAcross(rest, bs)
    decreases |bs|
  {
    if bs != [] {
      assert ([x] + rest)[0] == x && ([x] + rest)[1..] == rest;
      CountAcrossCons(x, rest, bs[1..]);
    }
  }

  lemma {:induction false} CountAcrossAll(cards: seq<LocationCard>, bs: seq<string>)
    requires NoDuplicates(bs)
    requires forall k :: 0 <= k < |cards| ==> cards[k].location.borough in bs
    ensures CountAcross(cards, bs) == |cards|
    decreases |cards|
  {
    if cards == [] {
      CountAcrossEmpty(bs);
    } else {
      assert cards == [cards[0]] + cards[1..];
      CountAcrossCons(cards[0], cards[1..], bs);
      OccursOnce(bs, cards[0].location.borough);
      CountAcrossAll(cards[1..], bs);
    }
  }

  lemma {:induction false} CountAcrossEmpty(bs: seq<string>)
    ensures CountAcross([], bs) == 0
    decreases |bs|
  {
    if bs != [] {
      CountAcrossEmpty(bs[1..]);
    }
  }

  lemma {:induction false} TotalSizeOfGroups(c: seq<(string, Location)>, bs: seq<string>)
    ensures TotalSize(Groups(c), bs) == CountAcross(Cards(c), bs)
    decreases |bs|
  {
    if bs != [] {
      if bs[0] !in BoroughsOf(c) {
        InBoroughEmpty(c, bs[0]);
      }
      TotalSizeOfGroups(c, bs[1..]);
    }
  }

  /**
   * Grouping is a partition: over any list of distinct boroughs that covers every location,
   * the group sizes sum to the catalog size.
   */
  lemma GroupSizesSum(c: seq<(string, Location)>, bs: seq<string>)
    requires NoDuplicates(bs)
    requires forall i :: 0 <= i < |c| ==> c[i].1.borough in bs
    ensures TotalSize(Groups(c), bs) == |c|
  {
    TotalSizeOfGroups(c, bs);
    CountAcrossAll(Cards(c), bs);
  }

  /**
   * The test `groups[b] && groups[b].length !== 0` that decides whether a borough is shown,
   * for a name that is not an `Object.prototype` member (the pages apply it to the five
   * `BoroughOrder` names only).
   */
  function HasLocations(groups: map<string, seq<LocationCard>>): string -> bool
  {
    (b: string) => b in groups && |groups[b]| > 0
  }

  /**
   * The boroughs `order.map(...)` renders, skipping those whose group is absent or empty:
   * a subsequence of `order`.
   */
  function ListedBoroughs(groups: map<string, seq<LocationCard>>, order: seq<string>): (r: seq<string>)
    ensures forall b :: b in r ==> b in order && b in groups && |groups[b]| > 0
  {
    Filter(order, HasLocations(groups))
  }

  /**
   * The boroughs listed for a catalog are, in `order`'s order, exactly those of `order` that
   * some location lies in.
   */
  lemma ListedBoroughsOfCatalog(c: seq<(string, Location)>, order: seq<string>)
    ensures var r, pos := ListedBoroughs(Groups(c), order), MatchPositions(order, HasLocations(Groups(c)), 0);
      && |pos| == |r|
      && (forall j :: 0 <= j < |r| ==> pos[j] < |order| && r[j] == order[pos[j]])
      && (forall j, k :: 0 <= j < k < |r| ==> pos[j] < pos[k])
      && (forall b :: b in r <==> b in order && b in BoroughsOf(c))
  {
    assert order[0..] == order;
    FilterIsOrderedSubsequence(order, HasLocations(Groups(c)), 0);
    forall b | b in order && b in BoroughsOf(c) ensures b in ListedBoroughs(Groups(c), order) {
      GroupsNonEmpty(c, b);
      var i :| 0 <= i < |order| && order[i] == b;
      FilterKeeps(order, HasLocations(Groups(c)), i);
    }
  }
}
