/**
 * The two slug-keyed catalogs the pages read (`services`, `locations`), their record
 * shapes, and looking a slug up in one of them.
 *
 * A catalog is the sequence of its `[slug, record]` entries in `Object.entries` order.
 */
module Catalog {

  datatype Option<T> = None | Some(value: T)

  /** A location record: one NYC neighbourhood. */
  datatype Location = Location(
    name: string,
    borough: string,
    description: string,
    buildingTypes: string,
    transit: string,
    character: string,
    challenges: string)

  /** One "what to look for" item of a service. */
  datatype LookFor = LookFor(title: string, desc: string)

  /** One question and answer of a service's FAQ. */
  datatype Faq = Faq(q: string, a: string)

  /** A service record: one kind of provider a renter may need. */
  datatype Service = Service(
    name: string,
    description: string,
    category: string,
    intro: string,
    costRange: string,
    timeline: string,
    whyNeed: seq<string>,
    whatToLookFor: seq<LookFor>,
    faqs: seq<Faq>)

  /** `key` is one of the catalog's own slugs. */
  predicate HasKey<R>(c: seq<(string, R)>, key: string)
  {
    exists i :: 0 <= i < |c| && c[i].0 == key
  }

  /** Slugs are unique within a catalog (they are the keys of an object literal). */
  predicate UniqueSlugs<R>(c: seq<(string, R)>)
  {
    forall i, j :: 0 <= i < j < |c| ==> c[i].0 != c[j].0
  }

  /** `catalog[key]` restricted to own keys: the stored record, or `None` for an unknown slug. */
  function Lookup<R>(c: seq<(string, R)>, key: string): (r: Option<R>)
    ensures r.None? <==> !HasKey(c, key)
    ensures r.Some? ==> (key, r.value) in c
    decreases |c|
  {
    if c == [] then None
    else if c[0].0 == key then Some(c[0].1)
    else Lookup(c[1..], key)
  }

  /** Every slug of a catalog resolves to exactly the record stored under it. */
  lemma {:induction false} LookupStored<R>(c: seq<(string, R)>, i: nat)
    requires UniqueSlugs(c) && i < |c|
    ensures Lookup(c, c[i].0) == Some(c[i].1)
    decreases |c|
  {
    if i > 0 {
      assert c[0].0 != c[i].0;
      assert c[1..][i - 1] == c[i];
      LookupStored(c[1..], i - 1);
    }
  }

  /**
   * What `catalog[key]` reads from the object literal as written: an own record, a
   * member inherited from `Object.prototype`, or `undefined`.
   */
  datatype Property<R> = Undefined | Own(record: R) | Inherited(name: string)

  /** The names every plain object inherits from `Object.prototype`. */
  const ObjectPrototypeNames: set<string> := {
    "constructor", "hasOwnProperty", "isPrototypeOf", "propertyIsEnumerable",
    "toLocaleString", "toString", "valueOf", "__proto__",
    "__defineGetter__", "__defineSetter__", "__lookupGetter__", "__lookupSetter__"
  }

  /** `catalog[key]` as the source writes it, on a plain object literal. */
  function PropertyRead<R>(c: seq<(string, R)>, key: string): (r: Property<R>)
    ensures r.Own? <==> HasKey(c, key)
    ensures r.Own? ==> (key, r.record) in c
    ensures r.Inherited? <==> !HasKey(c, key) && key in ObjectPrototypeNames
  {
    match Lookup(c, key)
    case Some(v) => Own(v)
    case None => if key in ObjectPrototypeNames then Inherited(key) else Undefined
  }

  /** `if (!service) return notFound()` lets a value through exactly when it is truthy. */
  predicate PassesNotFoundGuard<R>(p: Property<R>)
  {
    !p.Undefined?
  }

  /**
   * The guard as written lets `"constructor"` through on every catalog that has no such
   * slug, although no record is stored under it; `Lookup` reports it as unknown.
   */
  lemma InheritedNamePassesGuard<R>(c: seq<(string, R)>)
    requires !HasKey(c, "constructor")
    ensures PassesNotFoundGuard(PropertyRead(c, "constructor"))
    ensures PropertyRead(c, "constructor") == Inherited("constructor")
    ensures Lookup(c, "constructor") == None
  {
  }
}
