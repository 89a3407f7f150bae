/**
 * The property form of `src/app/page.tsx`, as values: comma-list parsing, image-list
 * assembly, upload acceptance, image removal, and the split of a listing's images back
 * into the form's two image inputs when editing.
 */
module PropertyForm {
  import opened Wrappers
  import opened Text
  import opened Seqs
  import opened Listing

  // ---------------------------------------------------------------- comma lists

  /** A comma-list item as parsing yields it: non-empty, no edge whitespace, no comma. */
  predicate IsCleanItem(s: string) {
    s != "" && IsTrimmed(s) && ',' !in s
  }

  function TrimAll(parts: seq<string>): (r: seq<string>)
    ensures |r| == |parts|
    ensures forall i :: 0 <= i < |parts| ==> r[i] == Trim(parts[i])
  {
    seq(|parts|, i requires 0 <= i < |parts| => Trim(parts[i]))
  }

  predicate NonEmpty(s: string) {
    s != ""
  }

  /** `.filter(x => x)` on strings: drop the empty ones. */
  function DropEmpty(parts: seq<string>): seq<string> {
    Keep(parts, NonEmpty)
  }

  /** `text.split(',').map(x => x.trim()).filter(x => x)`. */
  function ParseCommaList(text: string): (items: seq<string>)
    ensures forall i :: 0 <= i < |items| ==> IsCleanItem(items[i])
  {
    var parts := Split(text, ',');
    var pieces := TrimAll(parts);
    forall j | 0 <= j < |pieces|
      ensures IsTrimmed(pieces[j]) && ',' !in pieces[j]
    {
      TrimKeepsOut(parts[j], ',');
    }
    KeepAllSatisfy(pieces, NonEmpty, (s: string) => IsTrimmed(s) && ',' !in s);
    DropEmpty(pieces)
  }

  /** Splitting on a comma splits the text on each side of it. */
  lemma {:induction false} SplitAround(a: string, b: string)
    ensures Split(a + [','] + b, ',') == Split(a, ',') + Split(b, ',')
  {
    if a == [] {
      assert a + [','] + b == [','] + b;
      assert ([','] + b)[1..] == b;
    } else {
      SplitAround(a[1..], b);
      assert (a + [','] + b)[1..] == a[1..] + [','] + b;
      assert (a + [','] + b)[0] == a[0];
      if a[0] != ',' {
        var rest := Split(a[1..], ',');
        assert Split(a[1..] + [','] + b, ',') == rest + Split(b, ',');
        assert rest != [];
      }
    }
  }

  /** Parsing respects concatenation at a comma: the items of each side, left side first. */
  lemma ParseAround(a: string, b: string)
    ensures ParseCommaList(a + [','] + b) == ParseCommaList(a) + ParseCommaList(b)
  {
    var pa, pb := Split(a, ','), Split(b, ',');
    calc {
      ParseCommaList(a + [','] + b);
      DropEmpty(TrimAll(Split(a + [','] + b, ',')));
      { SplitAround(a, b); }
      DropEmpty(TrimAll(pa + pb));
      { TrimAllAppend(pa, pb); }
      DropEmpty(TrimAll(pa) + TrimAll(pb));
      { KeepAppend(TrimAll(pa), TrimAll(pb), NonEmpty); }
      DropEmpty(TrimAll(pa)) + DropEmpty(TrimAll(pb));
      ParseCommaList(a) + ParseCommaList(b);
    }
  }

  lemma TrimAllAppend(xs: seq<string>, ys: seq<string>)
    ensures TrimAll(xs + ys) == TrimAll(xs) + TrimAll(ys)
  {
    var l, r := TrimAll(xs + ys), TrimAll(xs) + TrimAll(ys);
    assert |l| == |r|;
    forall i | 0 <= i < |l|
      ensures l[i] == r[i]
    {
      if i < |xs| {
        calc {
          l[i];
          Trim((xs + ys)[i]);
          { assert (xs + ys)[i] == xs[i]; }
          Trim(xs[i]);
          TrimAll(xs)[i];
          r[i];
        }
      } else {
        calc {
          l[i];
          Trim((xs + ys)[i]);
          { assert (xs + ys)[i] == ys[i - |xs|]; }
          Trim(ys[i - |xs|]);
          TrimAll(ys)[i - |xs|];
          r[i];
        }
      }
    }
  }

  /** A comma-free piece parses to its trimmed self, or to nothing when it is all whitespace. */
  lemma ParsePiece(piece: string)
    requires ',' !in piece
    ensures ParseCommaList(piece) == if AllWhitespace(piece) then [] else [Trim(piece)]
  {
    SplitWhole(piece, ',');
    TrimEmptyIff(piece);
    assert TrimAll([piece]) == [Trim(piece)];
    assert [Trim(piece)][1..] == [];
  }

  /** `[x0, x1, ...]` as `join(', ')` prints them, seen as comma-separated pieces: a blank before each later item. */
  function Spaced(xs: seq<string>): (r: seq<string>)
    requires xs != []
    ensures |r| == |xs| && r[0] == xs[0]
    ensures forall i :: 1 <= i < |xs| ==> r[i] == " " + xs[i]
  {
    [xs[0]] + seq(|xs| - 1, i requires 0 <= i < |xs| - 1 => " " + xs[i + 1])
  }

  /** A blank in front of the first part of a join is a blank in front of the whole join. */
  lemma BlankFirstJoin(x: string, rest: seq<string>, sep: string)
    ensures Join([" " + x] + rest, sep) == " " + Join([x] + rest, sep)
  {
    if rest != [] {
      assert ([" " + x] + rest)[1..] == rest;
      assert ([x] + rest)[1..] == rest;
      assert (" " + x) + sep + Join(rest, sep) == " " + (x + sep + Join(rest, sep));
    }
  }

  lemma {:induction false} JoinSpaced(xs: seq<string>)
    requires xs != []
    ensures Join(xs, ", ") == Join(Spaced(xs), [','])
  {
    if |xs| > 1 {
      var tail := Spaced(xs[1..]);
      JoinSpaced(xs[1..]);
      assert Spaced(xs)[1..] == [" " + tail[0]] + tail[1..];
      BlankFirstJoin(tail[0], tail[1..], [',']);
      assert [tail[0]] + tail[1..] == tail;
      var rest := Join(xs[1..], ", ");
      assert Join(tail, [',']) == rest;
      calc {
        Join(Spaced(xs), [',']);
        Spaced(xs)[0] + [','] + Join(Spaced(xs)[1..], [',']);
        xs[0] + [','] + Join([" " + tail[0]] + tail[1..], [',']);
        xs[0] + [','] + (" " + rest);
        { assert ", " == [','] + " "; }
        xs[0] + ", " + rest;
      }
    }
  }

  /** An empty input parses to no items. */
  lemma ParseEmpty()
    ensures ParseCommaList("") == []
  {
    calc {
      ParseCommaList("");
      DropEmpty(TrimAll(Split("", ',')));
      DropEmpty(TrimAll([""]));
      { assert Trim("") == ""; }
      DropEmpty([""]);
      [];
    }
  }

  /** Joining clean items with `', '` and parsing the text back gives the items back. */
  lemma ParseJoined(xs: seq<string>)
    requires forall i :: 0 <= i < |xs| ==> IsCleanItem(xs[i])
    ensures ParseCommaList(Join(xs, ", ")) == xs
  {
    if xs == [] {
      ParseEmpty();
    } else {
      calc {
        ParseCommaList(Join(xs, ", "));
        DropEmpty(TrimAll(Split(Join(xs, ", "), ',')));
        { SplitJoined(xs); }
        DropEmpty(TrimAll(Spaced(xs)));
        { TrimSpaced(xs); }
        DropEmpty(xs);
        { KeepAll(xs, NonEmpty); }
        xs;
      }
    }
  }

  lemma SplitJoined(xs: seq<string>)
    requires xs != []
    requires forall i :: 0 <= i < |xs| ==> ',' !in xs[i]
    ensures Split(Join(xs, ", "), ',') == Spaced(xs)
  {
    var sp := Spaced(xs);
    JoinSpaced(xs);
    forall i | 0 <= i < |sp| ensures ',' !in sp[i] {
      if i > 0 { assert sp[i] == " " + xs[i]; }
    }
    SplitJoin(sp, ',');
  }

  lemma TrimSpaced(xs: seq<string>)
    requires xs != []
    requires forall i :: 0 <= i < |xs| ==> IsTrimmed(xs[i])
    ensures TrimAll(Spaced(xs)) == xs
  {
    var sp := Spaced(xs);
    forall i | 0 <= i < |sp| ensures Trim(sp[i]) == xs[i] {
      if i == 0 { TrimTrimmed(xs[0]); } else { TrimAfterBlank(xs[i]); }
    }
  }

  // ---------------------------------------------------------------- images

  /** An image given as a link (`startsWith('http')`). */
  predicate IsLinkedImage(img: string) {
    StartsWith(img, "http")
  }

  /** An image uploaded from a file, kept inline as a data URL (`startsWith('data:')`). */
  predicate IsInlineImage(img: string) {
    StartsWith(img, "data:")
  }

  /** The images a submitted form carries: the parsed URL list, then the uploaded images. */
  function AllImages(urlText: string, uploaded: seq<string>): (all: seq<string>)
    ensures |all| == |ParseCommaList(urlText)| + |uploaded|
    ensures all[..|ParseCommaList(urlText)|] == ParseCommaList(urlText)
    ensures all[|ParseCommaList(urlText)|..] == uploaded
  {
    ParseCommaList(urlText) + uploaded
  }

  /** `allImages[0] || ''`: the primary image of a submitted form. */
  function PrimaryOf(all: seq<string>): (img: string)
    ensures all != [] ==> img == all[0]
    ensures all == [] ==> img == ""
  {
    if all != [] && all[0] != "" then all[0] else ""
  }

  /** With no URL text the first uploaded image is the primary one; with some URL, the first URL is. */
  lemma PrimaryImageChoice(urlText: string, uploaded: seq<string>)
    ensures ParseCommaList(urlText) != [] ==> PrimaryOf(AllImages(urlText, uploaded)) == ParseCommaList(urlText)[0]
    ensures ParseCommaList(urlText) == [] && uploaded != [] ==> PrimaryOf(AllImages(urlText, uploaded)) == uploaded[0]
    ensures ParseCommaList(urlText) == [] && uploaded == [] ==> PrimaryOf(AllImages(urlText, uploaded)) == ""
  {
  }

  /** The text of the URL input when editing: the linked images, joined with `', '`. */
  function LinkedText(images: Option<seq<string>>): (t: string)
    ensures images.None? ==> t == ""
    ensures images.Some? ==> (t == "" <==> Keep(images.value, IsLinkedImage) == [])
  {
    ghost var linked := if images.None? then [] else Keep(images.value, IsLinkedImage);
    assert linked != [] ==> "http" <= linked[0];
    if images.None? then "" else Join(Keep(images.value, IsLinkedImage), ", ")
  }

  /** The uploaded-images list when editing: the inline images. */
  function InlinePart(images: Option<seq<string>>): (r: seq<string>)
    ensures forall i :: 0 <= i < |r| ==> IsInlineImage(r[i])
  {
    if images.None? then [] else Keep(images.value, IsInlineImage)
  }

  /** A linked image that survives the URL text round trip: no comma, no edge whitespace. */
  predicate IsCleanLink(img: string) {
    IsLinkedImage(img) ==> IsCleanItem(img)
  }

  /** The URL text of an edited listing parses back to its linked images when those are clean. */
  lemma LinkedTextParses(images: seq<string>)
    requires forall i :: 0 <= i < |images| ==> IsCleanLink(images[i])
    ensures ParseCommaList(LinkedText(Some(images))) == Keep(images, IsLinkedImage)
  {
    var linked := Keep(images, IsLinkedImage);
    forall i | 0 <= i < |linked| ensures IsCleanItem(linked[i]) {
      var j :| 0 <= j < |images| && images[j] == linked[i];
      assert IsCleanLink(images[j]);
    }
    ParseJoined(linked);
  }

  /**
   * Editing a listing and submitting the form unchanged yields its linked images, then its
   * inline images, each group in its original order; images of neither kind are dropped.
   */
  lemma EditRoundTrip(images: seq<string>)
    requires forall i :: 0 <= i < |images| ==> IsCleanLink(images[i])
    ensures AllImages(LinkedText(Some(images)), InlinePart(Some(images)))
            == Keep(images, IsLinkedImage) + Keep(images, IsInlineImage)
    ensures forall i :: 0 <= i < |images| && !IsLinkedImage(images[i]) && !IsInlineImage(images[i]) ==>
              images[i] !in AllImages(LinkedText(Some(images)), InlinePart(Some(images)))
  {
    var linked, inline := Keep(images, IsLinkedImage), Keep(images, IsInlineImage);
    LinkedTextParses(images);
    var all := AllImages(LinkedText(Some(images)), InlinePart(Some(images)));
    assert all == linked + inline;
    forall i | 0 <= i < |images| && !IsLinkedImage(images[i]) && !IsInlineImage(images[i])
      ensures images[i] !in all
    {
      assert images[i] !in linked;
      assert images[i] !in inline;
    }
  }

  /** No image is both linked and inline. */
  lemma LinkedNotInline(img: string)
    ensures !(IsLinkedImage(img) && IsInlineImage(img))
  {
    assert IsLinkedImage(img) ==> img[0] == 'h';
    assert IsInlineImage(img) ==> img[0] == 'd';
  }

  /** A list already in "links, then inline images" form, with clean links, comes back unchanged. */
  lemma EditRoundTripIdentity(images: seq<string>, k: nat)
    requires k <= |images|
    requires forall i :: 0 <= i < k ==> IsLinkedImage(images[i]) && IsCleanItem(images[i])
    requires forall i :: k <= i < |images| ==> IsInlineImage(images[i])
    ensures AllImages(LinkedText(Some(images)), InlinePart(Some(images))) == images
  {
    var links, inline := images[..k], images[k..];
    assert images == links + inline;
    forall i | 0 <= i < |images| ensures IsCleanLink(images[i]) {
      if i >= k {
        LinkedNotInline(images[i]);
      }
    }
    forall i | 0 <= i < |inline| ensures !IsLinkedImage(inline[i]) {
      assert inline[i] == images[k + i];
      LinkedNotInline(inline[i]);
    }
    forall i | 0 <= i < |links| ensures !IsInlineImage(links[i]) {
      LinkedNotInline(links[i]);
    }
    KeepLeftPart(links, inline, IsLinkedImage);
    KeepRightPart(links, inline, IsInlineImage);
    EditRoundTrip(images);
  }

  // ---------------------------------------------------------------- uploads

  /** One selected file: its MIME type, its size in bytes, and its content read as a data URL. */
  datatype UploadFile = UploadFile(mimeType: string, size: int, dataUrl: string)

  /** The largest accepted file: 5 MiB. */
  const MaxUploadBytes := 5 * 1024 * 1024

  /** A file is accepted when its type starts with `image/` and it is at most 5 MiB. */
  predicate IsAcceptedUpload(f: UploadFile)
    ensures IsAcceptedUpload(f) ==> f.size <= 5_242_880 && "image/" <= f.mimeType
    ensures f.size > 5_242_880 ==> !IsAcceptedUpload(f)
  {
    StartsWith(f.mimeType, "image/") && f.size <= MaxUploadBytes
  }

  /** The data URLs of the accepted files, in input order. */
  function AcceptedUrls(files: seq<UploadFile>): (urls: seq<string>)
    ensures |urls| <= |files|
  {
    if files == [] then []
    else (if IsAcceptedUpload(files[0]) then [files[0].dataUrl] else []) + AcceptedUrls(files[1..])
  }

  /** A rejected file is skipped without affecting the files after it. */
  lemma {:induction false} AcceptedUrlsAppend(a: seq<UploadFile>, b: seq<UploadFile>)
    ensures AcceptedUrls(a + b) == AcceptedUrls(a) + AcceptedUrls(b)
  {
    if a == [] {
      assert a + b == b;
    } else {
      var head := if IsAcceptedUpload(a[0]) then [a[0].dataUrl] else [];
      AcceptedUrlsAppend(a[1..], b);
      assert (a + b)[0] == a[0];
      assert (a + b)[1..] == a[1..] + b;
      calc {
        AcceptedUrls(a + b);
        head + AcceptedUrls(a[1..] + b);
        head + (AcceptedUrls(a[1..]) + AcceptedUrls(b));
        (head + AcceptedUrls(a[1..])) + AcceptedUrls(b);
      }
    }
  }

  /** A data URL is collected exactly when some accepted file carries it. */
  lemma {:induction false} AcceptedUrlsMembership(files: seq<UploadFile>, url: string)
    ensures url in AcceptedUrls(files) <==>
            exists i :: 0 <= i < |files| && IsAcceptedUpload(files[i]) && files[i].dataUrl == url
  {
    if files != [] {
      AcceptedUrlsMembership(files[1..], url);
      if exists i :: 0 <= i < |files| - 1 && IsAcceptedUpload(files[1..][i]) && files[1..][i].dataUrl == url {
        var i :| 0 <= i < |files| - 1 && IsAcceptedUpload(files[1..][i]) && files[1..][i].dataUrl == url;
        assert files[i + 1] == files[1..][i];
      }
      if exists i :: 0 <= i < |files| && IsAcceptedUpload(files[i]) && files[i].dataUrl == url {
        var i :| 0 <= i < |files| && IsAcceptedUpload(files[i]) && files[i].dataUrl == url;
        if i > 0 {
          assert files[1..][i - 1] == files[i];
        }
      }
    }
  }

  /** The upload loop: validate each file in turn, skip the rejected ones, collect the accepted ones' data URLs. */
  method CollectUploads(files: seq<UploadFile>) returns (uploadedUrls: seq<string>)
    ensures uploadedUrls == AcceptedUrls(files)
  {
    uploadedUrls := [];
    var i := 0;
    while i < |files|
      invariant 0 <= i <= |files|
      invariant uploadedUrls == AcceptedUrls(files[..i])
    {
      var file := files[i];
      AcceptedUrlsAppend(files[..i], [file]);
      assert files[..i + 1] == files[..i] + [file];
      if !StartsWith(file.mimeType, "image/") {
        i := i + 1;
        continue;
      }
      if file.size > MaxUploadBytes {
        i := i + 1;
        continue;
      }
      uploadedUrls := uploadedUrls + [file.dataUrl];
      i := i + 1;
    }
    assert files[..i] == files;
  }

  // ---------------------------------------------------------------- removing an uploaded image

  /** `list.filter((_, i) => i !== index)`. */
  function WithoutIndex<T>(s: seq<T>, index: int): (r: seq<T>)
    ensures |r| == if 0 <= index < |s| then |s| - 1 else |s|
    decreases |s|
  {
    if s == [] then []
    else (if index == 0 then [] else [s[0]]) + WithoutIndex(s[1..], index - 1)
  }

  /** Removing position `index` drops exactly that element; an index out of range changes nothing. */
  lemma {:induction false} WithoutIndexSpec<T>(s: seq<T>, index: int)
    ensures WithoutIndex(s, index) == if 0 <= index < |s| then s[..index] + s[index + 1..] else s
  {
    if s != [] {
      var rest := WithoutIndex(s[1..], index - 1);
      WithoutIndexSpec(s[1..], index - 1);
      if index == 0 {
        assert s[..0] + s[1..] == s[1..];
      } else if 0 < index < |s| {
        WithoutInner(s, index, rest);
      } else {
        assert [s[0]] + s[1..] == s;
      }
    }
  }

  /** The step of `WithoutIndexSpec` for a position past the head. */
  lemma WithoutInner<T>(s: seq<T>, index: int, rest: seq<T>)
    requires 0 < index < |s|
    requires rest == s[1..][..index - 1] + s[1..][index..]
    ensures [s[0]] + rest == s[..index] + s[index + 1..]
  {
    calc {
      [s[0]] + rest;
      { assert s[1..][..index - 1] == s[1..index]; assert s[1..][index..] == s[index + 1..]; }
      [s[0]] + (s[1..index] + s[index + 1..]);
      ([s[0]] + s[1..index]) + s[index + 1..];
      { assert [s[0]] + s[1..index] == s[..index]; }
      s[..index] + s[index + 1..];
    }
  }

  // ---------------------------------------------------------------- the form

  /**
   * The form's state. Numeric inputs are held as numbers: the text-to-number
   * conversions of the form are not modelled.
   */
  datatype FormData = FormData(
    title: string,
    description: string,
    price: int,
    location: string,
    kind: string,
    bedrooms: nat,
    bathrooms: nat,
    area: int,
    images: string,
    features: string,
    uploadedImages: seq<string>)

  const EmptyForm := FormData("", "", 0, "", "", 0, 0, 0, "", "", [])

  /** The draft `handlePropertySubmit` builds from the form. */
  function SubmittedDraft(form: FormData): (d: Draft)
    ensures d.images == Some(AllImages(form.images, form.uploadedImages))
    ensures d.image == Some(PrimaryOf(AllImages(form.images, form.uploadedImages)))
    ensures d.features == Some(ParseCommaList(form.features))
    ensures d.active && d.available == Some(true)
    ensures d.title == form.title && d.price == form.price && d.bedrooms == form.bedrooms
    ensures d.description == form.description && d.location == form.location && d.kind == form.kind
    ensures d.bathrooms == form.bathrooms && d.area == form.area
  {
    var all := AllImages(form.images, form.uploadedImages);
    Draft(form.title, form.description, form.price, form.location, form.kind, form.bedrooms,
          form.bathrooms, form.area, Some(PrimaryOf(all)), Some(all), Some(ParseCommaList(form.features)),
          true, Some(true))
  }

  /** The form `handleEditProperty` fills in from a listing. */
  function EditForm(p: Property): (form: FormData)
    ensures form.title == p.title && form.description == p.description && form.price == p.price
    ensures form.location == p.location && form.kind == p.kind && form.area == p.area
    ensures form.bedrooms == p.bedrooms && form.bathrooms == p.bathrooms
    ensures form.images == LinkedText(p.images) && form.uploadedImages == InlinePart(p.images)
    ensures form.features == (if p.features.None? then "" else Join(p.features.value, ", "))
  {
    FormData(p.title, p.description, p.price, p.location, p.kind, p.bedrooms, p.bathrooms, p.area,
             LinkedText(p.images),
             if p.features.None? then "" else Join(p.features.value, ", "),
             InlinePart(p.images))
  }

  /** Every field of `Partial<Property>` that the submitted draft supplies. */
  function PatchOf(d: Draft): (u: Patch)
    ensures u.id.None? && u.createdAt.None? && u.updatedAt.None?
  {
    Patch(None, Some(d.title), Some(d.description), Some(d.price), Some(d.location), Some(d.kind),
          Some(d.bedrooms), Some(d.bathrooms), Some(d.area), d.image, d.images, d.features,
          Some(d.active), d.available, None, None)
  }

  /**
   * Editing a listing and resubmitting without changes keeps its scalar fields and, when its
   * features are clean items, its features; its images come back as in `EditRoundTrip`.
   */
  lemma EditThenSubmit(p: Property)
    requires p.images.Some? && forall i :: 0 <= i < |p.images.value| ==> IsCleanLink(p.images.value[i])
    requires p.features.Some? && forall i :: 0 <= i < |p.features.value| ==> IsCleanItem(p.features.value[i])
    ensures var d := SubmittedDraft(EditForm(p));
            && d.title == p.title && d.description == p.description && d.price == p.price
            && d.location == p.location && d.kind == p.kind && d.bedrooms == p.bedrooms
            && d.bathrooms == p.bathrooms && d.area == p.area
            && d.features == p.features
            && d.images == Some(Keep(p.images.value, IsLinkedImage) + Keep(p.images.value, IsInlineImage))
  {
    ParseJoined(p.features.value);
    EditRoundTrip(p.images.value);
  }
}
