/**
 * The state of the page component of `src/app/page.tsx` and the handlers that change it:
 * re-deriving the shown listings, the image inputs of the property form, editing and
 * submitting a listing through the store gateway, and the page's own login flag.
 */
module Page {
  import opened Wrappers
  import opened Seqs
  import opened Listing
  import opened Store
  import opened CatalogFilter
  import opened PropertyForm
  import opened Supabase
  import Credentials

  /** Updating a row with every field of a submitted draft stores exactly that draft under the row's id. */
  lemma SubmittedUpdateStoresDraft(row: Property, d: Draft, now: Timestamp)
    requires d.image.Some? && d.images.Some? && d.features.Some? && d.available.Some?
    ensures var r := UngatedUpdate(row, PatchOf(d), now);
            DraftOf(r) == d && r.id == row.id && r.createdAt == row.createdAt && r.updatedAt == now
  {
  }

  /** The page's inline login hook: the same credential check as the session hook, with nothing persisted. */
  class PageSession {
    var isAuthenticated: bool

    constructor ()
      ensures !isAuthenticated
    {
      isAuthenticated := false;
    }

    method Login(username: string, password: string) returns (ok: bool)
      modifies this
      ensures ok <==> username == "admin" && password == "batman267"
      ensures isAuthenticated == (old(isAuthenticated) || ok)
    {
      if Credentials.IsAdmin(username, password) {
        isAuthenticated := true;
        return true;
      }
      return false;
    }

    method Logout()
      modifies this
      ensures !isAuthenticated
    {
      isAuthenticated := false;
    }
  }

  /** The page component's state. */
  class RealEstatePage {
    var properties: seq<Property>
    var filteredProperties: seq<Property>
    var filters: Filters
    var searchTerm: string
    var propertyForm: FormData
    var editingProperty: Option<Property>

    constructor ()
      ensures properties == [] && filteredProperties == [] && filters == NoFilters && searchTerm == ""
      ensures propertyForm == EmptyForm && editingProperty == None
    {
      properties, filteredProperties := [], [];
      filters, searchTerm := NoFilters, "";
      propertyForm, editingProperty := EmptyForm, None;
    }

    /**
     * `filterProperties`: starting from all listings, apply each step whose input is
     * truthy, then store the result as the shown listings.
     */
    method FilterProperties()
      modifies this`filteredProperties
      ensures filteredProperties == Shown(properties, searchTerm, filters)
    {
      var term, f := searchTerm, filters;
      var filtered := properties;
      if term != "" {
        filtered := Keep(filtered, SearchStep(term));
      }
      assert filtered == Staged(properties, term, f, 1);
      if TruthyText(f.kind) {
        filtered := Keep(filtered, TypeStep(f.kind.value));
      }
      assert filtered == Staged(properties, term, f, 2);
      if TruthyNumber(f.minPrice) {
        filtered := Keep(filtered, MinPriceStep(f.minPrice.value));
      }
      assert filtered == Staged(properties, term, f, 3);
      if TruthyNumber(f.maxPrice) {
        filtered := Keep(filtered, MaxPriceStep(f.maxPrice.value));
      }
      assert filtered == Staged(properties, term, f, 4);
      if TruthyNumber(f.bedrooms) {
        filtered := Keep(filtered, BedroomsStep(f.bedrooms.value));
      }
      assert filtered == Staged(properties, term, f, 5);
      StagedIsShown(properties, term, f);
      filteredProperties := filtered;
    }

    /**
     * `handleImageUpload(files)`: collect the accepted files' data URLs, then append them
     * after the images already uploaded; nothing else in the form changes.
     */
    method HandleImageUpload(files: seq<UploadFile>)
      modifies this`propertyForm
      ensures propertyForm == old(propertyForm).(uploadedImages := old(propertyForm.uploadedImages) + AcceptedUrls(files))
    {
      if |files| == 0 {
        return;
      }
      var uploadedUrls := CollectUploads(files);
      propertyForm := propertyForm.(uploadedImages := propertyForm.uploadedImages + uploadedUrls);
    }

    /** `removeImage(index)`: drop the uploaded image at `index`, keeping the others in order. */
    method RemoveImage(index: int)
      modifies this`propertyForm
      ensures propertyForm == old(propertyForm).(uploadedImages := WithoutIndex(old(propertyForm.uploadedImages), index))
      ensures var before := old(propertyForm.uploadedImages);
              propertyForm.uploadedImages == if 0 <= index < |before| then before[..index] + before[index + 1..] else before
    {
      WithoutIndexSpec(propertyForm.uploadedImages, index);
      propertyForm := propertyForm.(uploadedImages := WithoutIndex(propertyForm.uploadedImages, index));
    }

    /** `handleEditProperty(p)`: remember the listing and fill the form from it. */
    method HandleEditProperty(p: Property)
      modifies this`editingProperty, this`propertyForm
      ensures editingProperty == Some(p) && propertyForm == EditForm(p)
    {
      editingProperty := Some(p);
      propertyForm := EditForm(p);
    }

    /**
     * `handlePropertySubmit`: build the draft from the form; update the listing being
     * edited with every draft field, or create a new one; then reload the listings
     * (`reloadFails` stands for a store error during the reload), re-derive the shown
     * listings as the effect on `properties` does, and reset the form. When the update fails the page state and the table stay as they were.
     */
    method HandlePropertySubmit(gw: SupabaseGateway, now: Timestamp, reloadFails: bool) returns (saved: bool)
      requires gw.store.Valid()
      modifies this`properties, this`filteredProperties, this`editingProperty, this`propertyForm, gw.store
      ensures gw.store.Valid()
      ensures saved <==> old(editingProperty).None? || !gw.configured || old(editingProperty).value.id in old(gw.store.rows)
      ensures var d := SubmittedDraft(old(propertyForm));
              old(editingProperty).Some? && gw.configured && saved ==>
                var id := old(editingProperty).value.id;
                gw.store.rows == old(gw.store.rows)[id := UngatedUpdate(old(gw.store.rows)[id], PatchOf(d), now)]
      ensures var d := SubmittedDraft(old(propertyForm));
              old(editingProperty).None? && gw.configured ==>
                exists id :: id !in old(gw.store.rows) && gw.store.rows == old(gw.store.rows)[id := FromDraft(d, id, now)]
      ensures !gw.configured || !saved ==> gw.store.rows == old(gw.store.rows)
      ensures saved ==> editingProperty == None && propertyForm == EmptyForm
      ensures saved && (!gw.configured || reloadFails) ==> properties == []
      ensures saved && gw.configured && !reloadFails ==> IsOrderedSelection(gw.store.rows, ActiveIds(gw.store.rows), properties)
      ensures saved && gw.configured && !reloadFails ==>
                exists i :: 0 <= i < |properties| && DraftOf(properties[i]) == SubmittedDraft(old(propertyForm))
      ensures saved ==> filteredProperties == Shown(properties, searchTerm, filters)
      ensures !saved ==> properties == old(properties) && editingProperty == old(editingProperty) && propertyForm == old(propertyForm)
      ensures !saved ==> filteredProperties == old(filteredProperties)
    {
      var d := SubmittedDraft(propertyForm);
      ghost var savedId;
      ghost var rows0, editing0 := gw.store.rows, editingProperty;
      saved, savedId := SaveDraft(gw, d, now);
      if !saved {
        return;
      }
      ghost var rows1 := gw.store.rows;
      assert editing0.None? && gw.configured ==>
               savedId !in rows0 && rows1 == rows0[savedId := FromDraft(d, savedId, now)];
      editingProperty := None;
      propertyForm := EmptyForm;
      RefreshListings(gw, reloadFails);
      if gw.configured && !reloadFails {
        ghost var i :| 0 <= i < |properties| && properties[i] == gw.store.rows[savedId];
        assert DraftOf(properties[i]) == d;
      }
    }

    /**
     * `loadProperties()`: the listings become what `getProperties` returns (`loadFails`
     * stands for a store error): nothing on a failure or without a configured store,
     * otherwise every active row, unchanged and once, newest first.
     */
    method LoadProperties(gw: SupabaseGateway, loadFails: bool)
      requires gw.store.Valid()
      modifies this`properties
      ensures !gw.configured || loadFails ==> properties == []
      ensures gw.configured && !loadFails ==> IsOrderedSelection(gw.store.rows, ActiveIds(gw.store.rows), properties)
      ensures gw.configured && !loadFails ==>
                forall id | id in gw.store.rows && gw.store.rows[id].active :: gw.store.rows[id] in properties
    {
      properties := gw.GetProperties(loadFails);
      if gw.configured && !loadFails {
        forall id | id in gw.store.rows && gw.store.rows[id].active
          ensures gw.store.rows[id] in properties
        {
          ActiveRowReloaded(gw.store.rows, properties, id);
        }
      }
    }

    /**
     * `loadProperties()` followed by the effect it triggers: once the listings change,
     * `filterProperties` re-derives the shown listings under the current search term and
     * filters. The page's mount effects run exactly this, and so does every reload after
     * a save or a delete.
     */
    method RefreshListings(gw: SupabaseGateway, loadFails: bool)
      requires gw.store.Valid()
      modifies this`properties, this`filteredProperties
      ensures !gw.configured || loadFails ==> properties == [] && filteredProperties == []
      ensures gw.configured && !loadFails ==> IsOrderedSelection(gw.store.rows, ActiveIds(gw.store.rows), properties)
      ensures gw.configured && !loadFails ==>
                forall id | id in gw.store.rows && gw.store.rows[id].active :: gw.store.rows[id] in properties
      ensures filteredProperties == Shown(properties, searchTerm, filters)
    {
      LoadProperties(gw, loadFails);
      FilterProperties();
    }

    /**
     * The write half of `handlePropertySubmit`: update the listing being edited, or create
     * one; `savedId` names the row that now holds the draft in a configured store.
     */
    method SaveDraft(gw: SupabaseGateway, d: Draft, now: Timestamp) returns (ok: bool, ghost savedId: int)
      requires gw.store.Valid()
      requires d.image.Some? && d.images.Some? && d.features.Some? && d.available.Some?
      modifies gw.store
      ensures gw.store.Valid()
      ensures ok <==> editingProperty.None? || !gw.configured || editingProperty.value.id in old(gw.store.rows)
      ensures editingProperty.Some? && gw.configured && ok ==>
                var id := editingProperty.value.id;
                gw.store.rows == old(gw.store.rows)[id := UngatedUpdate(old(gw.store.rows)[id], PatchOf(d), now)]
      ensures editingProperty.None? && gw.configured ==>
                savedId !in old(gw.store.rows) && gw.store.rows == old(gw.store.rows)[savedId := FromDraft(d, savedId, now)]
      ensures !gw.configured || !ok ==> gw.store.rows == old(gw.store.rows)
      ensures ok && gw.configured ==> savedId in gw.store.rows && DraftOf(gw.store.rows[savedId]) == d
    {
      if editingProperty.Some? {
        savedId := editingProperty.value.id;
        var r := gw.UpdateProperty(editingProperty.value.id, PatchOf(d), now);
        if r.Err? {
          return false, savedId;
        }
        if gw.configured {
          SubmittedUpdateStoresDraft(old(gw.store.rows)[savedId], d, now);
        }
      } else {
        var created := gw.CreateProperty(d, now);
        savedId := created.id;
      }
      ok := true;
    }
  
    /**
     * `handleDeleteProperty(id)`: only when the visitor confirms, delete the listing,
     * reload and re-derive the shown listings; the reloaded listings no longer hold it.
     */
    method HandleDeleteProperty(gw: SupabaseGateway, id: int, confirmed: bool, reloadFails: bool)
      requires gw.store.Valid()
      modifies this`properties, this`filteredProperties, gw.store
      ensures gw.store.Valid()
      ensures !confirmed ==> properties == old(properties) && gw.store.rows == old(gw.store.rows)
      ensures !confirmed ==> filteredProperties == old(filteredProperties)
      ensures confirmed ==> filteredProperties == Shown(properties, searchTerm, filters)
      ensures confirmed && gw.configured ==> gw.store.rows == old(gw.store.rows) - {id}
      ensures confirmed && !gw.configured ==> gw.store.rows == old(gw.store.rows)
      ensures confirmed && (!gw.configured || reloadFails) ==> properties == []
      ensures confirmed && gw.configured && !reloadFails ==>
                IsOrderedSelection(gw.store.rows, ActiveIds(gw.store.rows), properties) && id !in IdsOf(properties)
    {
      if confirmed {
        var _ := gw.DeleteProperty(id);
        RefreshListings(gw, reloadFails);
      }
    }
  }
}
