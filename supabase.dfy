/**
 * The listing gateway of `src/lib/supabase.ts`, the one the page calls. Without store
 * configuration every call answers locally and the table is untouched; configured,
 * updates write every supplied field and deletion removes the row.
 */
module Supabase {
  import opened Wrappers
  import opened Listing
  import opened Store

  /** The ids `getProperties` selects: the active rows. */
  function ActiveIds(rows: map<int, Property>): (ids: set<int>)
    ensures ids <= rows.Keys
    ensures forall id | id in rows :: id in ids <==> rows[id].active
  {
    set id | id in rows && rows[id].active
  }

  /**
   * `{ ...base, ...u }`: every field the patch supplies replaces the base's, with no
   * truthiness test, and every other field keeps the base's value.
   */
  function Override(base: Property, u: Patch): (r: Property)
    ensures u.id.Some? ==> r.id == u.id.value
    ensures u.id.None? ==> r.id == base.id
    ensures r.title == u.title.GetOr(base.title) && r.description == u.description.GetOr(base.description)
    ensures r.price == u.price.GetOr(base.price) && r.area == u.area.GetOr(base.area)
    ensures r.location == u.location.GetOr(base.location) && r.kind == u.kind.GetOr(base.kind)
    ensures r.bedrooms == u.bedrooms.GetOr(base.bedrooms) && r.bathrooms == u.bathrooms.GetOr(base.bathrooms)
    ensures r.image == (if u.image.Some? then u.image else base.image)
    ensures r.images == (if u.images.Some? then u.images else base.images)
    ensures r.features == (if u.features.Some? then u.features else base.features)
    ensures r.active == u.active.GetOr(base.active)
    ensures r.available == (if u.available.Some? then u.available else base.available)
    ensures r.createdAt == u.createdAt.GetOr(base.createdAt) && r.updatedAt == u.updatedAt.GetOr(base.updatedAt)
  {
    Property(
      u.id.GetOr(base.id), u.title.GetOr(base.title), u.description.GetOr(base.description),
      u.price.GetOr(base.price), u.location.GetOr(base.location), u.kind.GetOr(base.kind),
      u.bedrooms.GetOr(base.bedrooms), u.bathrooms.GetOr(base.bathrooms), u.area.GetOr(base.area),
      if u.image.Some? then u.image else base.image,
      if u.images.Some? then u.images else base.images,
      if u.features.Some? then u.features else base.features,
      u.active.GetOr(base.active),
      if u.available.Some? then u.available else base.available,
      u.createdAt.GetOr(base.createdAt), u.updatedAt.GetOr(base.updatedAt))
  }

  /** The record the unconfigured `updateProperty` starts from: empty text, zeros, active and available. */
  function DefaultRecord(id: int, now: Timestamp): (r: Property)
    ensures r.id == id && r.createdAt == now && r.updatedAt == now
    ensures r.active && r.available == Some(true) && r.image.None? && r.images.None? && r.features.None?
    ensures r.title == "" && r.description == "" && r.location == "" && r.kind == ""
    ensures r.price == 0 && r.bedrooms == 0 && r.bathrooms == 0 && r.area == 0
  {
    Property(id, "", "", 0, "", "", 0, 0, 0, None, None, None, true, Some(true), now, now)
  }

  /**
   * The row after a configured `updateProperty`: every supplied field is written, falsy
   * values included, every other field keeps the row's value, the row keeps its id, and
   * `updated_at` is the clock.
   */
  function UngatedUpdate(row: Property, u: Patch, now: Timestamp): (r: Property)
    ensures r.id == row.id && r.updatedAt == now && r.createdAt == u.createdAt.GetOr(row.createdAt)
    ensures r.title == u.title.GetOr(row.title) && r.description == u.description.GetOr(row.description)
    ensures r.price == u.price.GetOr(row.price) && r.area == u.area.GetOr(row.area)
    ensures r.location == u.location.GetOr(row.location) && r.kind == u.kind.GetOr(row.kind)
    ensures r.bedrooms == u.bedrooms.GetOr(row.bedrooms) && r.bathrooms == u.bathrooms.GetOr(row.bathrooms)
    ensures r.image == (if u.image.Some? then u.image else row.image)
    ensures r.images == (if u.images.Some? then u.images else row.images)
    ensures r.features == (if u.features.Some? then u.features else row.features)
    ensures r.active == u.active.GetOr(row.active)
    ensures r.available == (if u.available.Some? then u.available else row.available)
  {
    Override(row, u).(id := row.id, updatedAt := now)
  }

  /** The gateway over the shared `properties` table; `configured` is whether the store's URL and key were set. */
  class SupabaseGateway {
    const store: Table
    const configured: bool

    constructor (store: Table, configured: bool)
      ensures this.store == store && this.configured == configured
    {
      this.store := store;
      this.configured := configured;
    }

    /**
     * `getProperties()`: never fails. Unconfigured, or on a store error or exception
     * (`failure`), the result is empty; otherwise it is the active rows, unchanged, newest first.
     */
    method GetProperties(failure: bool) returns (r: seq<Property>)
      requires store.Valid()
      ensures !configured || failure ==> r == []
      ensures configured && !failure ==> IsOrderedSelection(store.rows, ActiveIds(store.rows), r)
    {
      if !configured || failure {
        return [];
      }
      r := store.SelectNewestFirst(ActiveIds(store.rows));
    }

    /**
     * `createProperty(d)`: unconfigured, the draft unchanged with the clock reading as id
     * and both timestamps; configured, the same fields inserted under a store-assigned id.
     */
    method CreateProperty(d: Draft, now: Timestamp) returns (p: Property)
      requires store.Valid()
      modifies store
      ensures store.Valid()
      ensures DraftOf(p) == d && p.createdAt == now && p.updatedAt == now
      ensures !configured ==> p.id == now && store.rows == old(store.rows) && store.nextId == old(store.nextId)
      ensures configured ==> p.id !in old(store.rows) && store.rows == old(store.rows)[p.id := p]
    {
      if !configured {
        return FromDraft(d, now, now);
      }
      p := store.Insert(FromDraft(d, 0, now));
    }

    /**
     * `updateProperty(id, u)`: unconfigured, the default record overridden by the patch
     * (whose own `id`, if any, wins) and no table change; configured, `UngatedUpdate` of
     * that row only, failing without change when there is no such row.
     */
    method UpdateProperty(id: int, u: Patch, now: Timestamp) returns (r: Result<Property, StoreError>)
      requires store.Valid()
      modifies store
      ensures store.Valid()
      ensures !configured ==> store.rows == old(store.rows) && r == Ok(Override(DefaultRecord(id, now), u))
      ensures configured && id in old(store.rows) ==>
                && store.rows == old(store.rows)[id := UngatedUpdate(old(store.rows)[id], u, now)]
                && r == Ok(store.rows[id])
      ensures configured && id !in old(store.rows) ==> store.rows == old(store.rows) && r == Err(NoRows)
    {
      if !configured {
        return Ok(Override(DefaultRecord(id, now), u));
      }
      if id in store.rows {
        var row := UngatedUpdate(store.rows[id], u, now);
        store.rows := store.rows[id := row];
        r := Ok(row);
      } else {
        r := Err(NoRows);
      }
    }

    /** `deleteProperty(id)`: always true; configured, the row is physically removed. */
    method DeleteProperty(id: int) returns (ok: bool)
      requires store.Valid()
      modifies store
      ensures store.Valid() && ok
      ensures !configured ==> store.rows == old(store.rows)
      ensures configured ==> store.rows == old(store.rows) - {id}
    {
      if configured {
        store.rows := store.rows - {id};
      }
      ok := true;
    }
  }

  /** Every active row appears, unchanged, in what `getProperties` returns from a working store. */
  lemma ActiveRowReloaded(rows: map<int, Property>, r: seq<Property>, id: int)
    requires IsOrderedSelection(rows, ActiveIds(rows), r)
    requires id in rows && rows[id].active
    ensures exists i :: 0 <= i < |r| && r[i] == rows[id]
  {
    assert id in IdsOf(r);
    var i :| 0 <= i < |r| && r[i].id == id;
    assert r[i] == rows[id];
  }

  /** Unconfigured update: unsupplied fields take the defaults, and the id is the argument unless the patch has one. */
  lemma UnconfiguredUpdateDefaults(id: int, now: Timestamp)
    ensures Override(DefaultRecord(id, now), EmptyPatch) == DefaultRecord(id, now)
    ensures Override(DefaultRecord(id, now), EmptyPatch.(id := Some(id + 1))).id == id + 1
    ensures var r := Override(DefaultRecord(id, now), EmptyPatch);
            r.title == "" && r.price == 0 && r.active && r.available == Some(true)
  {
  }

  /** A patch that supplies every field yields exactly the patch, whatever the base. */
  lemma FullPatchWins(base: Property, u: Patch)
    requires u.id.Some? && u.title.Some? && u.description.Some? && u.price.Some? && u.location.Some?
    requires u.kind.Some? && u.bedrooms.Some? && u.bathrooms.Some? && u.area.Some?
    requires u.active.Some? && u.createdAt.Some? && u.updatedAt.Some?
    requires u.image.Some? && u.images.Some? && u.features.Some? && u.available.Some?
    ensures Override(base, u) == Override(DefaultRecord(0, 0), u)
  {
  }

  /**
   * Unlike the truthiness-gated update of `database.ts`, a supplied falsy value is written:
   * an empty title, a zero price and an inactive flag all reach the row.
   */
  lemma UngatedWritesFalsy(row: Property, now: Timestamp)
    requires row.title != "" && row.price != 0 && row.active
    ensures var r := UngatedUpdate(row, EmptyPatch.(title := Some(""), price := Some(0), active := Some(false)), now);
            r.title == "" && r.price == 0 && !r.active && r.title != row.title && r.price != row.price
  {
  }

  /** Overriding is idempotent: applying the same patch twice is applying it once. */
  lemma OverrideIdempotent(base: Property, u: Patch)
    ensures Override(Override(base, u), u) == Override(base, u)
  {
  }
}
