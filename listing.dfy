/** The listing record shared by the page and both store gateways, and JavaScript truthiness. */
module Listing {
  import opened Wrappers

  /** A point of the wall clock (`new Date()`, `Date.now()`), in milliseconds. */
  type Timestamp = int

  /**
   * A row of the `properties` table, which is also the listing the page displays:
   * the gateways spread rows into listings, so both have one shape. Fields the
   * source declares optional are `Option`s; `kind` is the source's `type`.
   */
  datatype Property = Property(
    id: int,
    title: string,
    description: string,
    price: int,
    location: string,
    kind: string,
    bedrooms: nat,
    bathrooms: nat,
    area: int,
    image: Option<string>,
    images: Option<seq<string>>,
    features: Option<seq<string>>,
    active: bool,
    available: Option<bool>,
    createdAt: Timestamp,
    updatedAt: Timestamp)

  /** A listing before the store assigns it an id and timestamps (`Omit<Property, 'id' | 'created_at' | 'updated_at'>`). */
  datatype Draft = Draft(
    title: string,
    description: string,
    price: int,
    location: string,
    kind: string,
    bedrooms: nat,
    bathrooms: nat,
    area: int,
    image: Option<string>,
    images: Option<seq<string>>,
    features: Option<seq<string>>,
    active: bool,
    available: Option<bool>)

  /** A partial listing (`Partial<Property>`): `None` is a field the caller did not supply. */
  datatype Patch = Patch(
    id: Option<int>,
    title: Option<string>,
    description: Option<string>,
    price: Option<int>,
    location: Option<string>,
    kind: Option<string>,
    bedrooms: Option<nat>,
    bathrooms: Option<nat>,
    area: Option<int>,
    image: Option<string>,
    images: Option<seq<string>>,
    features: Option<seq<string>>,
    active: Option<bool>,
    available: Option<bool>,
    createdAt: Option<Timestamp>,
    updatedAt: Option<Timestamp>)

  /** The patch that supplies nothing. */
  const EmptyPatch := Patch(None, None, None, None, None, None, None, None, None, None, None, None, None, None, None, None)

  /** The feature list the store adapter reports for every listing. */
  const DefaultFeatures: seq<string> := ["Garagem", "Quintal", "Área de serviço"]

  /** JavaScript truthiness of an optional string: present and not `''`. */
  predicate TruthyText(o: Option<string>) {
    o.Some? && o.value != ""
  }

  /** JavaScript truthiness of an optional number: present and not `0` (NaN is not modelled). */
  predicate TruthyNumber(o: Option<int>) {
    o.Some? && o.value != 0
  }

  /** The listing built from a draft with the given id and creation time. */
  function FromDraft(d: Draft, id: int, now: Timestamp): (p: Property)
    ensures DraftOf(p) == d
    ensures p.id == id && p.createdAt == now && p.updatedAt == now
  {
    Property(id, d.title, d.description, d.price, d.location, d.kind, d.bedrooms, d.bathrooms,
             d.area, d.image, d.images, d.features, d.active, d.available, now, now)
  }

  /** The draft fields of a listing: everything but id and timestamps. */
  function DraftOf(p: Property): Draft {
    Draft(p.title, p.description, p.price, p.location, p.kind, p.bedrooms, p.bathrooms,
          p.area, p.image, p.images, p.features, p.active, p.available)
  }
}
