# Rental catalogue: a verified model

This project models the core of a one-page property-rental catalogue. Visitors browse listings,
search them by text and narrow them with filters. An administrator logs in with a fixed credential
pair and then creates, edits and deletes listings. Listings live in a hosted `properties` table.
Two gateways front that table:

- `src/lib/supabase.ts` is the gateway the page calls. When the store is not configured it answers
  every call locally. When it is configured, an update writes every supplied field, and deletion
  removes the row.
- `src/lib/database.ts` is a second gateway over the same table, which the page does not call.
  Its query filters are applied on the server. An
  update writes only the fields that are truthy. Deletion is soft: it sets `active` to false.

The modules follow the source files:

| module | models |
|---|---|
| `Listing` | the listing record, drafts, partial updates, JavaScript truthiness |
| `Store` | the `properties` table: rows by id, insertion, `ORDER BY created_at DESC` selection |
| `Database` | `src/lib/database.ts` |
| `Supabase` | `src/lib/supabase.ts` |
| `Credentials` | the administrator pair both login paths compare against |
| `Session` | `src/hooks/useAuth.ts`: the login flag persisted under `admin_authenticated` |
| `CatalogFilter` | the search and filter steps of the page |
| `PropertyForm` | the property form: comma lists, images, uploads, edit and submit |
| `Page` | the page component's state and its handlers, as classes |
| `Seqs`, `Text` | the array and string built-ins the core relies on (`filter`, `toLowerCase`, `includes`, `trim`, `split`, `join`) |

The table is a `class` that holds its rows in a map field. `Store.Table.Insert` adds a row to it,
and the gateways' updates and deletes assign a new map to that field. The React hook with
`localStorage` and the page component are also `class`es. Every state-changing method states the
new value of each field the rest of the model reads, in terms of the specification functions; the
table's identity counter `nextId` is stated only through `Store.Table.Valid` (every id is below it).
The properties are proved about those functions as lemmas.

Where the code's behaviour differs from a plain reading of the site's design, the model follows the
code:

- A filter bound of `0` and an empty type or location are each treated as "no filter", whatever the
  other filters are. The code tests each filter for truthiness, not for presence.
- `getPropertyById` in `database.ts` fails when no row has the id, because `.single()` raises an
  error that the function rethrows. It never returns `null` for a missing row.
- `getProperties` in `supabase.ts` never throws. As a result, the page's fallback to demonstration
  listings in `loadProperties` can never run.

## Model

| member | source | states |
|---|---|---|
| Seqs.Keep | src/app/page.tsx:316-321 | `filter` keeps only elements that pass, drops none that pass, and never grows the array |
| Seqs.KeepIsSubsequence | src/app/page.tsx:313-341 | a filtered array is an order-preserving subsequence of the original |
| Seqs.KeepAll | src/app/page.tsx:314 | a filter that every element passes returns the array unchanged |
| Seqs.KeepAgree | src/app/page.tsx:316-338 | two tests that agree on every element filter alike |
| Seqs.KeepKeep | src/app/page.tsx:316-338 | two successive filters equal one filter by the conjunction of their tests |
| Seqs.KeepIf | src/app/page.tsx:324-326 | a step guarded by a false condition leaves the array unchanged |
| Seqs.KeepIfStep | src/app/page.tsx:324-338 | a guarded step after a filter equals one filter by the earlier test and, if the guard holds, the step's test |
| Seqs.KeepAppend | src/app/page.tsx:433-436 | filtering a concatenation is concatenating the filtered parts |
| Seqs.ShiftEmbeds | src/app/page.tsx:313-341 | an embedding into the tail of an array, shifted by one, is an embedding into the whole array |
| Seqs.ConsEmbeds | src/app/page.tsx:313-341 | an element kept at the head extends an embedding of the rest |
| Seqs.KeptPositionsEmbed | src/app/page.tsx:313-341 | the positions a filter keeps embed the filtered array in the original, in increasing order |
| Seqs.KeepNone | src/app/page.tsx:506 | a filter that no element passes returns `[]` |
| Seqs.KeepLeftPart | src/app/page.tsx:504 | when every element of the first part passes and none of the second does, the filter keeps exactly the first part |
| Seqs.KeepRightPart | src/app/page.tsx:506 | when no element of the first part passes and every element of the second does, the filter keeps exactly the second part |
| Seqs.KeepAllSatisfy | src/app/page.tsx:434 | every element of a filtered array passes the filter and keeps any property all inputs had |
| Text.Lower | src/app/page.tsx:317-319 | `toLowerCase` keeps the length and lower-cases each character |
| Text.LowerIdempotent | src/app/page.tsx:317-319 | lower-casing twice is lower-casing once |
| Text.Contains | src/app/page.tsx:317-319 | `includes`: a text includes only needles no longer than itself; `ContainsIff` pins it to an occurrence at some position |
| Text.ContainsIff | src/app/page.tsx:317 | `includes` holds exactly when the needle occurs at some position of the text |
| Text.ContainsEmpty | src/app/page.tsx:317 | every text includes the empty string |
| Text.LeadingSpace | src/app/page.tsx:434 | the length of the whitespace run a text starts with: all of it is whitespace, and the character after it is not |
| Text.TrailingSpace | src/app/page.tsx:434 | the length of the whitespace run a text ends with: all of it is whitespace, and the character before it is not |
| Text.Trim | src/app/page.tsx:434 | the result has no whitespace at either end and is no longer than the input |
| Text.TrimSlice | src/app/page.tsx:434 | `trim` keeps one contiguous slice of the text and drops only whitespace before and after it |
| Text.TrimKeepsOut | src/app/page.tsx:434 | a character absent from a text is absent from its trimmed form, so trimmed comma-list pieces hold no comma |
| Text.TrimTrimmed | src/app/page.tsx:434 | trimming an already trimmed text changes nothing |
| Text.TrimAfterBlank | src/app/page.tsx:504-505 | trimming a trimmed text after one leading blank restores it |
| Text.TrimEmptyIff | src/app/page.tsx:434 | trimming yields `''` exactly for all-whitespace text |
| Text.Split | src/app/page.tsx:434 | `split(',')` yields at least one part, and no part contains the separator |
| Text.Join | src/app/page.tsx:504-505 | `join`: no parts give `''`, and the first part, followed by the separator when more parts come, begins the result; `JoinSplit` and `SplitJoin` pin it against `split` |
| Text.JoinSplit | src/app/page.tsx:434 | joining the parts of a split with the separator restores the text |
| Text.SplitAfterPiece | src/app/page.tsx:434 | splitting at a first separator yields the piece before it, followed by the split of the rest |
| Text.SplitWhole | src/app/page.tsx:434 | a text without the separator splits into itself alone |
| Text.SplitJoin | src/app/page.tsx:504-505 | splitting a join of separator-free parts restores the parts |
| Listing.FromDraft | src/lib/supabase.ts:76-81 | the listing built from a draft carries exactly the draft's fields, plus the given id and both timestamps |
| Store.Newest | src/lib/supabase.ts:59 | picks a selected row at least as new as every other selected row |
| Store.NewestFirstRows | src/lib/supabase.ts:55-59 | for any selection there is an ordering of its rows, each once and unchanged, newest first |
| Store.PrependNewest | src/lib/supabase.ts:59 | putting the newest row before a newest-first ordering of the others gives a newest-first ordering of all |
| Store.Table.Insert | src/lib/supabase.ts:88-96 | the row is stored, unchanged except for a fresh id, and no other row changes |
| Store.Table.SelectNewestFirst | src/lib/supabase.ts:55-59 | returns exactly the selected rows, each once and unchanged, ordered by `created_at` descending |
| Database.QueryMatch | src/lib/database.ts:6-29 | a row passes the query only when active, and with no filters exactly when active |
| Database.MatchingIds | src/lib/database.ts:6-29 | the query selects only ids of rows in the table |
| Database.Adapt | src/lib/database.ts:35-40 | `images` is `[image]` when `image` is truthy and `[]` otherwise, `features` is the given list, `available` mirrors `active`, and no other field changes |
| Database.PrimaryImage | src/lib/database.ts:76 | the first listed image if truthy, else the image field if truthy, else `''`; it is `''` exactly when neither is truthy |
| Database.NewRow | src/lib/database.ts:67-78 | the inserted row copies the scalar fields, is active, stores the primary image, and stores no image list, features or availability |
| Database.GatedUpdate | src/lib/database.ts:96-110 | each of title, description, price, location, type, bedrooms, bathrooms and area changes only when the patch's value is truthy; `image` takes the first patched image when the list is non-empty; `active` takes `available` whenever it is supplied; `updated_at` becomes the clock; id, creation time, image list, features and availability are kept |
| Database.SoftDelete | src/lib/database.ts:129-137 | the row with the id becomes inactive, no row is removed, and every other row is untouched |
| Database.AuthenticateAdmin | src/lib/database.ts:162-166 | true exactly for `admin` / `batman267` |
| Database.DatabaseGateway.GetProperties | src/lib/database.ts:5-43 | returns exactly the active rows that pass every truthy filter, each once, newest first, each adapted with the default features |
| Database.DatabaseGateway.GetPropertyById | src/lib/database.ts:45-64 | the adapted row for an existing id, active or not; the "no rows" error otherwise |
| Database.DatabaseGateway.CreateProperty | src/lib/database.ts:66-94 | inserts `NewRow` under a fresh id and returns it adapted with the draft's features, or the defaults when it has none |
| Database.DatabaseGateway.UpdateProperty | src/lib/database.ts:96-127 | an existing row becomes its `GatedUpdate`, and nothing else changes; a missing id fails and changes nothing |
| Database.DatabaseGateway.DeleteProperty | src/lib/database.ts:129-137 | the table becomes its `SoftDelete` |
| Database.NoFiltersListsActive | src/lib/database.ts:6-10 | without filters the query selects exactly the active rows |
| Database.FalsyFiltersAreUnset | src/lib/database.ts:12-29 | each bound of `0`, and each empty type or location, on its own and whatever the other filters are, matches the same rows as leaving that filter out; so do the bounds or the texts together |
| Database.SoftDeletedNeverListed | src/lib/database.ts:129-137 | after a soft delete the row remains but is inactive, and every query lists what it did before minus that row |
| Database.SoftDeleteIdempotent | src/lib/database.ts:129-137 | deleting twice is deleting once |
| Database.SoftDeletedStillFound | src/lib/database.ts:45-60 | a soft-deleted row is still found by id and is reported unavailable |
| Database.FalsyPatchOnlyTouchesTimestamp | src/lib/database.ts:96-110 | a patch with no truthy field changes only `updated_at` |
| Database.GatedUpdateIdempotent | src/lib/database.ts:96-110 | applying the same patch twice is applying it once |
| Database.CreateThenGet | src/lib/database.ts:66-94 | reading a created listing back by id gives the created listing, except that its features are the defaults |
| Supabase.ActiveIds | src/lib/supabase.ts:58 | exactly the ids of active rows |
| Supabase.Override | src/lib/supabase.ts:127 | object spread: every supplied field replaces the base's, with no truthiness test, and every other field is kept |
| Supabase.UngatedUpdate | src/lib/supabase.ts:132-137 | every field the patch supplies is written, falsy values included, and every other field keeps the row's value; the row keeps its id and `updated_at` becomes the clock |
| Supabase.SupabaseGateway.constructor | src/lib/supabase.ts:8-10 | the gateway is bound to the table and to whether the store was configured |
| Supabase.SupabaseGateway.GetProperties | src/lib/supabase.ts:48-71 | `[]` when unconfigured or on a store error; otherwise exactly the active rows, each once and unchanged, newest first |
| Supabase.SupabaseGateway.CreateProperty | src/lib/supabase.ts:73-108 | unconfigured: the draft with the clock reading as id and timestamps, and the table untouched; configured: the draft inserted under a fresh id |
| Supabase.SupabaseGateway.UpdateProperty | src/lib/supabase.ts:110-152 | unconfigured: the default record overridden by the patch, and the table untouched; configured: only that row becomes its `UngatedUpdate`, and a missing id fails without change |
| Supabase.SupabaseGateway.DeleteProperty | src/lib/supabase.ts:154-176 | always true; configured, the row is removed from the table |
| Supabase.ActiveRowReloaded | src/lib/supabase.ts:55-66 | every active row appears, unchanged, in what a working `getProperties` returns |
| Supabase.UngatedWritesFalsy | src/lib/supabase.ts:132-137 | an empty title, a zero price and `active: false` supplied in a patch all reach the row |
| Supabase.DefaultRecord | src/lib/supabase.ts:113-126 | the unconfigured update's base record: the given id, empty text, zero numbers, active and available, no images or features, both timestamps the clock |
| Supabase.UnconfiguredUpdateDefaults | src/lib/supabase.ts:111-128 | unsupplied fields take the defaults (`''`, `0`, active and available), and a supplied id wins over the argument |
| Supabase.FullPatchWins | src/lib/supabase.ts:113-127 | a patch supplying every field yields the same record whatever the base |
| Supabase.OverrideIdempotent | src/lib/supabase.ts:134-137 | spreading the same patch twice is spreading it once |
| Session.Rehydrate | src/hooks/useAuth.ts:6-12 | the flag becomes set when it already was or when storage holds `'true'` under the key; storage is unchanged |
| Session.LoginStep | src/hooks/useAuth.ts:14-22 | succeeds exactly for the administrator pair; on success the flag is set and storage becomes the old storage with `'true'` under the key, nothing else; on failure nothing changes |
| Session.LogoutStep | src/hooks/useAuth.ts:24-27 | clears the flag and removes only the key |
| Session.Mounted | src/hooks/useAuth.ts:3-12 | a freshly mounted hook keeps the storage and is authenticated exactly when it holds `'true'` |
| Session.MountedIff | src/hooks/useAuth.ts:6-12 | a freshly mounted hook is authenticated exactly when storage holds `'true'` |
| Session.LogoutIdempotent | src/hooks/useAuth.ts:24-27 | logging out twice is logging out once |
| Session.LoginSurvivesReload | src/hooks/useAuth.ts:6-22 | after a successful login, a remount is authenticated |
| Session.LogoutSurvivesReload | src/hooks/useAuth.ts:6-27 | after a logout, a remount is not authenticated |
| Session.AuthHook.constructor | src/hooks/useAuth.ts:4 | the hook starts unauthenticated over the given storage |
| Session.AuthHook.RunMountEffect | src/hooks/useAuth.ts:6-12 | the hook's state becomes its `Rehydrate` |
| Session.AuthHook.Login | src/hooks/useAuth.ts:14-22 | the hook's state and result are those of `LoginStep` |
| Session.AuthHook.Logout | src/hooks/useAuth.ts:24-27 | the hook's state becomes its `LogoutStep` |
| Session.Mount | src/hooks/useAuth.ts:3-12 | a new hook, after its mount effect, is in the `Mounted` state of the storage |
| Session.LoginThenReload | src/hooks/useAuth.ts:6-22 | a successful login followed by a new mount over the same storage is authenticated |
| Session.LogoutThenReload | src/hooks/useAuth.ts:6-27 | a logout followed by a new mount over the same storage is not authenticated |
| CatalogFilter.PassesStep | src/app/page.tsx:313-341 | passing the first `n` steps is passing the first `n - 1` and, when step `n` runs, its test |
| CatalogFilter.StepComposes | src/app/page.tsx:313-341 | the predicate for the first `n` steps, as a function on listings, is the one for the first `n - 1` conjoined with step `n`'s test when that step runs |
| CatalogFilter.StagedPasses | src/app/page.tsx:313-341 | the first `n` guarded steps, run in order, keep exactly the listings that pass those `n` steps |
| CatalogFilter.StagedIsShown | src/app/page.tsx:313-341 | the five guarded filter steps, run in order, leave exactly the visible listings in their original order |
| CatalogFilter.ShownIsSubsequence | src/app/page.tsx:313-341 | the shown listings are an order-preserving subsequence of all listings |
| CatalogFilter.ShownMembership | src/app/page.tsx:313-341 | a listing is shown exactly when it is listed and passes every active step |
| CatalogFilter.NothingSetShowsAll | src/app/page.tsx:313-341 | with no term and no truthy filter every listing is shown, in order |
| CatalogFilter.FalsyFiltersAreUnset | src/app/page.tsx:324-338 | each bound of `0`, and an empty type, on its own and whatever the other filters are, shows the same listings as leaving that filter out; so do all four together |
| CatalogFilter.MatchesText | src/app/page.tsx:316-321 | the search step's test; an empty term matches every listing |
| CatalogFilter.MatchesTextIff | src/app/page.tsx:316-321 | the search matches exactly when the lower-cased term occurs in the lower-cased title, location or description |
| CatalogFilter.SearchIgnoresCase | src/app/page.tsx:317-319 | searching for the lower-cased term finds the same listings |
| CatalogFilter.MinPriceBoundary | src/app/page.tsx:328-330 | the minimum-price bound is inclusive, and a bound one above the price excludes the listing unless that bound is `0` |
| CatalogFilter.SearchExample | src/app/page.tsx:316-321 | `CASA` finds a listing titled `Casa Azul` |
| CatalogFilter.FilterExample | src/app/page.tsx:324-338 | an apartment at 1800 with two bedrooms passes type, maximum 2000 and two bedrooms, and fails a minimum of 2000 |
| PropertyForm.TrimAll | src/app/page.tsx:434 | trims every part, keeping count and order |
| PropertyForm.ParseCommaList | src/app/page.tsx:434 | every item of a parsed comma list is non-empty, trimmed and comma-free |
| PropertyForm.SplitAround | src/app/page.tsx:434 | splitting at a comma splits both sides independently |
| PropertyForm.ParseAround | src/app/page.tsx:434 | parsing two comma-separated texts is concatenating their parses |
| PropertyForm.ParsePiece | src/app/page.tsx:434 | a comma-free piece parses to its trimmed form, or to nothing when it is blank |
| PropertyForm.JoinSpaced | src/app/page.tsx:504-505 | joining with `', '` is joining with `','` after prefixing a blank to every part but the first |
| PropertyForm.BlankFirstJoin | src/app/page.tsx:504-505 | a blank before the first part of a join is a blank before the whole join |
| PropertyForm.ParseEmpty | src/app/page.tsx:434 | an empty features or URL text parses to no items |
| PropertyForm.TrimAllAppend | src/app/page.tsx:434 | trimming every part of a concatenation is concatenating the trimmed parts |
| PropertyForm.ParseJoined | src/app/page.tsx:504-505 | parsing the `', '`-join of clean items restores the items |
| PropertyForm.SplitJoined | src/app/page.tsx:504-505 | splitting the `', '`-join of comma-free items at commas gives the items with their leading blanks |
| PropertyForm.TrimSpaced | src/app/page.tsx:434 | trimming the blank-prefixed items restores the trimmed items |
| PropertyForm.AllImages | src/app/page.tsx:433-436 | the parsed URL list followed by the uploaded images, both in order |
| PropertyForm.PrimaryOf | src/app/page.tsx:447 | the first image, or `''` when there is none |
| PropertyForm.PrimaryImageChoice | src/app/page.tsx:433-447 | the primary image is the first typed URL if any, else the first upload if any, else `''` |
| PropertyForm.LinkedText | src/app/page.tsx:504 | the URL text when editing: `''` for a listing without images, and `''` exactly when it has no `http` image |
| PropertyForm.InlinePart | src/app/page.tsx:506 | only `data:` images go back into the uploaded list |
| PropertyForm.LinkedTextParses | src/app/page.tsx:434-504 | the URL text shown when editing parses back to exactly the listing's `http` images, in order, when those are clean |
| PropertyForm.EditRoundTrip | src/app/page.tsx:433-506 | editing then submitting unchanged images yields the `http` images and then the `data:` images, each group in order, and drops every other image |
| PropertyForm.LinkedNotInline | src/app/page.tsx:502-505 | no image is both an `http` link and a `data:` URL |
| PropertyForm.EditRoundTripIdentity | src/app/page.tsx:433-506 | images already ordered links first, then uploads, survive the edit round trip unchanged |
| PropertyForm.IsAcceptedUpload | src/app/page.tsx:355-364 | a file is accepted only when its type starts with `image/` and it is at most 5 MiB; a larger file never is |
| PropertyForm.AcceptedUrls | src/app/page.tsx:350-377 | never more data URLs than files |
| PropertyForm.AcceptedUrlsAppend | src/app/page.tsx:350-377 | the accepted data URLs of a concatenation are those of each part, concatenated |
| PropertyForm.AcceptedUrlsMembership | src/app/page.tsx:355-376 | a data URL is collected exactly when some file of an `image/` type and at most 5 MiB carries it |
| PropertyForm.CollectUploads | src/app/page.tsx:348-377 | the loop collects exactly the data URLs of the accepted files, in order, skipping the others |
| PropertyForm.WithoutIndex | src/app/page.tsx:396 | `filter((_, i) => i !== index)`: one element shorter for an index in range, the same length otherwise |
| PropertyForm.WithoutIndexSpec | src/app/page.tsx:393-398 | removing an index in range drops exactly that image; an index out of range changes nothing |
| PropertyForm.WithoutInner | src/app/page.tsx:393-398 | removing a position past the head keeps the head and removes that position from the rest |
| PropertyForm.SubmittedDraft | src/app/page.tsx:438-452 | the draft copies all eight scalar fields of the form, stores all images, the primary image and the parsed features, and is active and available |
| PropertyForm.EditForm | src/app/page.tsx:494-506 | the form copies all eight scalar fields of the listing, shows the `http` images as text, the `data:` images as uploads, and the features joined by `', '` |
| PropertyForm.PatchOf | src/app/page.tsx:454-455 | the patch sent for an edited listing never supplies an id or timestamps |
| PropertyForm.EditThenSubmit | src/app/page.tsx:433-506 | editing a listing and submitting unchanged keeps its scalar fields and clean features, and reorders its images as in `EditRoundTrip` |
| Page.SubmittedUpdateStoresDraft | src/app/page.tsx:438-455 | updating a row with the submitted draft's patch stores exactly the draft, keeps the row's id and `created_at`, and stamps `updated_at` |
| Page.PageSession.constructor | src/app/page.tsx:182 | the page's login flag starts unset |
| Page.PageSession.Login | src/app/page.tsx:184-190 | succeeds exactly for the administrator pair and then sets the flag; a failed login leaves the flag as it was |
| Page.PageSession.Logout | src/app/page.tsx:192-194 | clears the flag |
| Page.RealEstatePage.constructor | src/app/page.tsx:208-245 | the page starts with no listings, no filters, an empty search, an empty form and nothing being edited |
| Page.RealEstatePage.FilterProperties | src/app/page.tsx:313-341 | the shown listings become exactly `Shown` of the listings, search term and filters |
| Page.RealEstatePage.HandleImageUpload | src/app/page.tsx:344-390 | the accepted files' data URLs are appended after the uploads already in the form, and nothing else changes |
| Page.RealEstatePage.RemoveImage | src/app/page.tsx:393-398 | drops the upload at the index, keeping the others in order; an index out of range changes nothing |
| Page.RealEstatePage.HandleEditProperty | src/app/page.tsx:493-509 | remembers the listing and fills the form with `EditForm` |
| Page.RealEstatePage.HandlePropertySubmit | src/app/page.tsx:429-478 | updates the edited listing with every draft field, or creates one; a failed update changes nothing; on success the listings reload, the shown listings are re-derived from them, the form resets, and with a working store the saved listing is among the reloaded ones |
| Page.RealEstatePage.SaveDraft | src/app/page.tsx:438-458 | updates the listing being edited with every draft field, or creates one under the returned id, which was not in the table before; the update fails, changing nothing, when the row is gone; a configured store then holds the draft |
| Page.RealEstatePage.LoadProperties | src/app/page.tsx:261-265 | the listings become `[]` without a configured store or on a store error, and otherwise exactly the active rows, each once and unchanged, newest first; every active row is among them |
| Page.RealEstatePage.RefreshListings | src/app/page.tsx:253-265 | the mount effects and every reload: the listings are those `LoadProperties` gives, every active row among them, and the shown listings are `Shown` of them under the current search term and filters |
| Page.RealEstatePage.HandleDeleteProperty | src/app/page.tsx:480-491 | only when confirmed: deletes the row, reloads, and re-derives the shown listings; the reloaded listings no longer include it |

## Left out

- Network I/O, `async` timing and the React render cycle are not modelled. Each handler is one atomic method on the page state.
- Transport failures of create, update and delete are not modelled. The failure of `supabase.ts`'s `getProperties` is the `failure`, `loadFails` or `reloadFails` parameter.
- `price` and `area` are JavaScript numbers, but the model holds them as integers, so fractional prices and areas are not modelled. The core only compares and copies them.
- The clock (`new Date()`, `Date.now()`) is an integer parameter `now`. ISO-8601 formatting of timestamps is not modelled.
- Parsing of the form's number fields (`parseFloat`, `parseInt`) and printing them back (`toString`) are not modelled. The form holds numbers, so `NaN` never arises.
- `FileReader` is not modelled. An upload is a record holding its MIME type, its size and the data URL the reader would produce.
- `toLowerCase` covers ASCII letters only, and so does the case-insensitive `ilike` match of `Database.QueryMatch`. Unicode case mapping is not modelled.
- Database.QueryMatch: matches the location filter value literally. In `database.ts`, `%` and `_` in that value are `ilike` wildcards, so the source can match rows the model does not.
- Creating the client from environment variables is not modelled. It is the gateway's `configured` flag.
- `createTablesIfNotExists` is not modelled. It only prepares the schema.
- `createContact` and `getContacts`, the contact form, and the WhatsApp links (`encodeURIComponent`, `window.open`) are not modelled. They are outside the listing core.
- `alert`, `confirm` and `console` output are not modelled. The visitor's confirmation of a delete is the `confirmed` parameter.
- The dialog and menu visibility flags, the `loading` and `uploadingImages` flags, and `handleAdminLogin`'s clearing of the login form are not modelled. They are presentation state.
- The demonstration listings in `loadProperties` are not modelled, because the gateway it calls never throws.
- Supabase.UngatedUpdate: keeps the row's `id` (`r.id == row.id`) even when the patch supplies one, so `Supabase.SupabaseGateway.UpdateProperty` never writes an `id` from the patch to the row or its key. The page never supplies one.
- Supabase.Override: an explicitly `undefined` field in a spread is treated the same as an absent field.
- Database.DatabaseGateway.GetProperties: always succeeds. The store error that `getProperties` rethrows (database.ts:31-32) is not modelled.
- Database.DatabaseGateway: it assumes a configured client. Every function of `database.ts` dereferences `supabase`, which is `null` without configuration, so each call would throw; that failure, and the store errors that `createProperty`, `updateProperty` and `deleteProperty` rethrow besides the missing row, are not modelled.
