/**
 * The listing gateway of `src/lib/database.ts`: reads adapt rows into listings,
 * updates are gated on JavaScript truthiness, and deletion is logical (`active = false`).
 */
module Database {
  import opened Wrappers
  import opened Text
  import opened Listing
  import opened Store
  import Credentials

  /** The optional filters of `getProperties`; `kind` is the source's `type`. */
  datatype QueryFilters = QueryFilters(
    kind: Option<string>,
    minPrice: Option<int>,
    maxPrice: Option<int>,
    location: Option<string>,
    bedrooms: Option<int>,
    bathrooms: Option<int>)

  /** `getProperties()` called without filters. */
  const NoFilters := QueryFilters(None, None, None, None, None, None)

  /**
   * The query `getProperties` sends: active rows, and each filter that is truthy. The
   * location filter is `ilike '%location%'`, a case-insensitive substring test.
   */
  predicate QueryMatch(row: Property, f: QueryFilters)
    ensures QueryMatch(row, f) ==> row.active
    ensures f == NoFilters ==> (QueryMatch(row, f) <==> row.active)
  {
    && row.active
    && (TruthyText(f.kind) ==> row.kind == f.kind.value)
    && (TruthyNumber(f.minPrice) ==> row.price >= f.minPrice.value)
    && (TruthyNumber(f.maxPrice) ==> row.price <= f.maxPrice.value)
    && (TruthyText(f.location) ==> Contains(Lower(row.location), Lower(f.location.value)))
    && (TruthyNumber(f.bedrooms) ==> row.bedrooms >= f.bedrooms.value)
    && (TruthyNumber(f.bathrooms) ==> row.bathrooms >= f.bathrooms.value)
  }

  function MatchingIds(rows: map<int, Property>, f: QueryFilters): (ids: set<int>)
    ensures ids <= rows.Keys
  {
    set id | id in rows && QueryMatch(rows[id], f)
  }

  /**
   * The row-to-listing adapter: `images` becomes the one-element list of a non-empty
   * `image` (else empty), `features` the given list, `available` mirrors `active`;
   * every stored column is kept.
   */
  function Adapt(row: Property, features: seq<string>): (p: Property)
    ensures p.images.Some? && p.features == Some(features) && p.available == Some(row.active)
    ensures p.images.value == [] <==> !TruthyText(row.image)
    ensures p.images.value != [] ==> p.images.value == [row.image.value]
    ensures p.(images := row.images, features := row.features, available := row.available) == row
  {
    row.(images := Some(if TruthyText(row.image) then [row.image.value] else []),
         features := Some(features),
         available := Some(row.active))
  }

  /** `images?.[0] || image || ''`: the first listed image if truthy, else the image field if truthy, else `''`. */
  function PrimaryImage(d: Draft): (img: string)
    ensures d.images.Some? && d.images.value != [] && d.images.value[0] != "" ==> img == d.images.value[0]
    ensures (d.images.None? || d.images.value == [] || d.images.value[0] == "") && TruthyText(d.image) ==> img == d.image.value
    ensures img == "" <==> (d.images.None? || d.images.value == [] || d.images.value[0] == "") && !TruthyText(d.image)
  {
    if d.images.Some? && d.images.value != [] && d.images.value[0] != "" then d.images.value[0]
    else if TruthyText(d.image) then d.image.value
    else ""
  }

  /**
   * The row `createProperty` inserts (the store then assigns its id): the draft's scalar
   * columns, the primary image, and `active = true` whatever the draft says. The draft's
   * `images`, `features` and `available` are not stored.
   */
  function NewRow(d: Draft, now: Timestamp): (row: Property)
    ensures row.active && row.image == Some(PrimaryImage(d))
    ensures row.images.None? && row.features.None? && row.available.None?
    ensures row.createdAt == now && row.updatedAt == now
    ensures DraftOf(row).(image := d.image, images := d.images, features := d.features,
                          active := d.active, available := d.available) == d
  {
    Property(0, d.title, d.description, d.price, d.location, d.kind, d.bedrooms, d.bathrooms,
             d.area, Some(PrimaryImage(d)), None, None, true, None, now, now)
  }

  /**
   * The row after `updateProperty(id, u)`: `updated_at` is always rewritten; the eight
   * scalar columns only when the patch's value is truthy; `image` only from a non-empty
   * `images`; `active` whenever `available` is supplied, even when false.
   */
  function GatedUpdate(row: Property, u: Patch, now: Timestamp): (r: Property)
    ensures r.id == row.id && r.createdAt == row.createdAt && r.updatedAt == now
    ensures r.images == row.images && r.features == row.features && r.available == row.available
    ensures r.title == (if TruthyText(u.title) then u.title.value else row.title)
    ensures r.price == (if TruthyNumber(u.price) then u.price.value else row.price)
    ensures r.bedrooms == (if TruthyNumber(u.bedrooms) then u.bedrooms.value else row.bedrooms)
    ensures r.description == (if TruthyText(u.description) then u.description.value else row.description)
    ensures r.location == (if TruthyText(u.location) then u.location.value else row.location)
    ensures r.kind == (if TruthyText(u.kind) then u.kind.value else row.kind)
    ensures r.bathrooms == (if TruthyNumber(u.bathrooms) then u.bathrooms.value else row.bathrooms)
    ensures r.area == (if TruthyNumber(u.area) then u.area.value else row.area)
    ensures r.image == (if u.images.Some? && u.images.value != [] then Some(u.images.value[0]) else row.image)
    ensures r.active == (if u.available.Some? then u.available.value else row.active)
  {
    var images := u.images.GetOr([]);
    Property(
      row.id, TextOr(u.title, row.title), TextOr(u.description, row.description),
      NumberOr(u.price, row.price), TextOr(u.location, row.location), TextOr(u.kind, row.kind),
      NatOr(u.bedrooms, row.bedrooms), NatOr(u.bathrooms, row.bathrooms), NumberOr(u.area, row.area),
      if images != [] then Some(images[0]) else row.image,
      row.images, row.features,
      u.available.GetOr(row.active), row.available,
      row.createdAt, now)
  }

  /** `if (updates.x) updateData.x = updates.x` for a text field: the value when truthy, else the current one. */
  function TextOr(o: Option<string>, current: string): string {
    if TruthyText(o) then o.value else current
  }

  /** The same gate for a number field. */
  function NumberOr(o: Option<int>, current: int): int {
    if TruthyNumber(o) then o.value else current
  }

  /** The same gate for a count field. */
  function NatOr(o: Option<nat>, current: nat): nat {
    if o.Some? && o.value != 0 then o.value else current
  }

  /** The table after `deleteProperty(id)`: that row, if any, becomes inactive; no row is removed. */
  function SoftDelete(rows: map<int, Property>, id: int): (rows': map<int, Property>)
    ensures rows'.Keys == rows.Keys
    ensures id in rows ==> rows'[id] == rows[id].(active := false)
    ensures forall k | k in rows && k != id :: rows'[k] == rows[k]
  {
    if id in rows then rows[id := rows[id].(active := false)] else rows
  }

  /** `authenticateAdmin`: true exactly for the fixed administrator pair. */
  function AuthenticateAdmin(username: string, password: string): (ok: bool)
    ensures ok <==> username == "admin" && password == "batman267"
  {
    Credentials.IsAdmin(username, password)
  }

  /** The gateway over the shared `properties` table. */
  class DatabaseGateway {
    const store: Table

    constructor (store: Table)
      ensures this.store == store
    {
      this.store := store;
    }

    /** `getProperties(filters)`: the matching active rows, newest first, each adapted with the default features. */
    method GetProperties(f: QueryFilters) returns (r: seq<Property>)
      requires store.Valid()
      ensures IdsOf(r) == MatchingIds(store.rows, f)
      ensures DistinctIds(r) && NewestFirst(r)
      ensures forall i :: 0 <= i < |r| ==>
                r[i].id in store.rows && QueryMatch(store.rows[r[i].id], f) &&
                r[i] == Adapt(store.rows[r[i].id], DefaultFeatures)
    {
      var raw := store.SelectNewestFirst(MatchingIds(store.rows, f));
      r := seq(|raw|, i requires 0 <= i < |raw| => Adapt(raw[i], DefaultFeatures));
      assert forall i :: 0 <= i < |r| ==> r[i].id == raw[i].id && r[i].createdAt == raw[i].createdAt;
      assert IdsOf(r) == IdsOf(raw);
      forall i | 0 <= i < |r|
        ensures r[i].id in store.rows && QueryMatch(store.rows[r[i].id], f)
      {
        assert raw[i].id in IdsOf(raw);
      }
    }

    /** `getPropertyById(id)`: the adapted row, whether active or not; `.single()` fails when there is none. */
    method GetPropertyById(id: int) returns (r: Result<Property, StoreError>)
      requires store.Valid()
      ensures id in store.rows ==> r == Ok(Adapt(store.rows[id], DefaultFeatures))
      ensures id !in store.rows ==> r == Err(NoRows)
      ensures r.Ok? ==> r.value.id == id
    {
      if id in store.rows {
        r := Ok(Adapt(store.rows[id], DefaultFeatures));
      } else {
        r := Err(NoRows);
      }
    }

    /**
     * `createProperty(d)`: inserts `NewRow(d)` under a fresh id and returns it adapted,
     * with the draft's features when supplied (even an empty list), else the defaults.
     */
    method CreateProperty(d: Draft, now: Timestamp) returns (p: Property)
      requires store.Valid()
      modifies store
      ensures store.Valid()
      ensures p.id !in old(store.rows)
      ensures store.rows == old(store.rows)[p.id := NewRow(d, now).(id := p.id)]
      ensures p == Adapt(store.rows[p.id], d.features.GetOr(DefaultFeatures))
    {
      var row := store.Insert(NewRow(d, now));
      p := Adapt(row, d.features.GetOr(DefaultFeatures));
    }

    /**
     * `updateProperty(id, u)`: writes `GatedUpdate` to that row only and returns it adapted,
     * with the patch's features when supplied; fails, changing nothing, when there is no such row.
     */
    method UpdateProperty(id: int, u: Patch, now: Timestamp) returns (r: Result<Property, StoreError>)
      requires store.Valid()
      modifies store
      ensures store.Valid()
      ensures id in old(store.rows) ==>
                && store.rows == old(store.rows)[id := GatedUpdate(old(store.rows)[id], u, now)]
                && r == Ok(Adapt(store.rows[id], u.features.GetOr(DefaultFeatures)))
      ensures id !in old(store.rows) ==> store.rows == old(store.rows) && r == Err(NoRows)
    {
      if id in store.rows {
        var row := GatedUpdate(store.rows[id], u, now);
        store.rows := store.rows[id := row];
        r := Ok(Adapt(row, u.features.GetOr(DefaultFeatures)));
      } else {
        r := Err(NoRows);
      }
    }

    /** `deleteProperty(id)`: soft delete; a missing id is not an error. */
    method DeleteProperty(id: int)
      requires store.Valid()
      modifies store
      ensures store.Valid()
      ensures store.rows == SoftDelete(old(store.rows), id)
    {
      store.rows := SoftDelete(store.rows, id);
    }
  }

  /** Without filters the query lists exactly the active rows. */
  lemma NoFiltersListsActive(rows: map<int, Property>)
    ensures MatchingIds(rows, NoFilters) == set id | id in rows && rows[id].active
  {
    var active := set id | id in rows && rows[id].active;
    forall id ensures id in MatchingIds(rows, NoFilters) <==> id in active {
    }
  }

  /**
   * A bound of 0 or an empty text filter is the same as leaving the filter out: each
   * one alone, whatever the other filters are, and the bounds or the texts together.
   */
  lemma FalsyFiltersAreUnset(row: Property, f: QueryFilters)
    ensures QueryMatch(row, f.(minPrice := Some(0))) == QueryMatch(row, f.(minPrice := None))
    ensures QueryMatch(row, f.(maxPrice := Some(0))) == QueryMatch(row, f.(maxPrice := None))
    ensures QueryMatch(row, f.(bedrooms := Some(0))) == QueryMatch(row, f.(bedrooms := None))
    ensures QueryMatch(row, f.(bathrooms := Some(0))) == QueryMatch(row, f.(bathrooms := None))
    ensures QueryMatch(row, f.(kind := Some(""))) == QueryMatch(row, f.(kind := None))
    ensures QueryMatch(row, f.(location := Some(""))) == QueryMatch(row, f.(location := None))
    ensures QueryMatch(row, f.(minPrice := Some(0), maxPrice := Some(0), bedrooms := Some(0), bathrooms := Some(0)))
            == QueryMatch(row, f.(minPrice := None, maxPrice := None, bedrooms := None, bathrooms := None))
    ensures QueryMatch(row, f.(kind := Some(""), location := Some(""))) == QueryMatch(row, f.(kind := None, location := None))
  {
  }

  /** After a soft delete the row stays in the table, inactive, and no query lists it. */
  lemma SoftDeletedNeverListed(rows: map<int, Property>, id: int, f: QueryFilters)
    requires id in rows
    ensures id in SoftDelete(rows, id) && !SoftDelete(rows, id)[id].active
    ensures id !in MatchingIds(SoftDelete(rows, id), f)
    ensures MatchingIds(SoftDelete(rows, id), f) == MatchingIds(rows, f) - {id}
  {
  }

  /** Deleting twice is deleting once. */
  lemma SoftDeleteIdempotent(rows: map<int, Property>, id: int)
    ensures SoftDelete(SoftDelete(rows, id), id) == SoftDelete(rows, id)
  {
  }

  /** A soft-deleted row is still found by id, reported as unavailable. */
  lemma SoftDeletedStillFound(rows: map<int, Property>, id: int)
    requires id in rows
    ensures Adapt(SoftDelete(rows, id)[id], DefaultFeatures).available == Some(false)
  {
  }

  /**
   * A patch whose scalar values are all falsy, with no non-empty `images` and no
   * `available`, only refreshes `updated_at`: zeros and empty strings are ignored.
   */
  lemma FalsyPatchOnlyTouchesTimestamp(row: Property, u: Patch, now: Timestamp)
    requires !TruthyText(u.title) && !TruthyText(u.description) && !TruthyText(u.location) && !TruthyText(u.kind)
    requires !TruthyNumber(u.price) && !TruthyNumber(u.area)
    requires !TruthyNumber(u.bedrooms) && !TruthyNumber(u.bathrooms)
    requires u.images.None? || u.images.value == []
    requires u.available.None?
    ensures GatedUpdate(row, u, now) == row.(updatedAt := now)
  {
  }

  /** Applying the same patch twice is applying it once. */
  lemma GatedUpdateIdempotent(row: Property, u: Patch, now: Timestamp)
    ensures GatedUpdate(GatedUpdate(row, u, now), u, now) == GatedUpdate(row, u, now)
  {
  }

  /**
   * Reading back a created listing by id gives the created listing, except that
   * `features` is always the default list (the draft's features are not stored).
   */
  lemma CreateThenGet(d: Draft, id: int, now: Timestamp)
    ensures var p := Adapt(NewRow(d, now).(id := id), d.features.GetOr(DefaultFeatures));
            Adapt(NewRow(d, now).(id := id), DefaultFeatures) == p.(features := Some(DefaultFeatures))
    ensures var back := Adapt(NewRow(d, now).(id := id), DefaultFeatures);
            && back.id == id && back.title == d.title && back.price == d.price && back.kind == d.kind
            && back.active && back.available == Some(true) && back.createdAt == now
  {
  }
}
