/** The six image handlers over an owner-scoped image collection and the shared
    transform cache. Every lookup is by `(id, caller)`, so another user's image is
    indistinguishable from one that does not exist. The remote image host, the
    clock and the cache backend's availability are parameters of each call. */
module ImageController {
  import opened Wrappers
  import opened Json
  import opened Errors
  import Strings
  import Cache
  import ImageService

  const NoFileMessage := "No file uploaded"
  const NotFoundMessage := "Image not found"
  const NoTransformationsMessage := "At least one transformation is required"
  const DeletedMessage := "Image deleted successfully"

  /** `const { page = 1, limit = 10 } = req.query`. */
  const DefaultPage: nat := 1
  const DefaultLimit: nat := 10

  const NotFound := Raise(404, NotFoundMessage)

  /** A stored image record: its id, its owner, the host's id and URL for it, and its metadata object. */
  datatype Image = Image(id: nat, user: nat, cloudinaryId: string, url: string, metadata: seq<Field>)

  /** What the multipart parser attached as `req.file` (the bytes are not modelled). */
  datatype UploadedFile = UploadedFile(originalName: string, size: nat, mimeType: string)

  /** What the image host answered to an upload. */
  datatype Uploaded = Uploaded(publicId: string, secureUrl: string, width: int, height: int)

  /** `{ id, url, metadata }`, the projection the handlers return. */
  datatype ImageView = ImageView(id: nat, url: string, metadata: seq<Field>)

  /** The `data` (or `message`) part of a successful response body; `success` is always `true`. */
  datatype Payload =
    | ImageData(view: ImageView)
    | Listing(items: seq<ImageView>, page: nat, limit: nat, total: nat)
    | Transformed(id: nat, transformedUrl: string, metadata: seq<Field>)
    | Deleted(message: string)

  datatype Response = Response(status: int, payload: Payload)

  function View(im: Image): ImageView
  {
    ImageView(im.id, im.url, im.metadata)
  }

  // ---------------------------------------------------------------------------
  // The store and its lookups
  // ---------------------------------------------------------------------------

  /** Ids are distinct and below the next one to hand out; every metadata object has distinct keys. */
  predicate StoreValid(images: seq<Image>, nextId: nat)
  {
    (forall i, j :: 0 <= i < j < |images| ==> images[i].id != images[j].id) &&
    (forall i :: 0 <= i < |images| ==> images[i].id < nextId && UniqueKeys(images[i].metadata))
  }

  /** `Image.findOne({ _id: id, user: caller })`: the position of the first record with that id and owner. */
  function Locate(images: seq<Image>, id: nat, user: nat): (r: Option<nat>)
    ensures r.Some? ==> r.value < |images| && images[r.value].id == id && images[r.value].user == user
    ensures r.None? ==> forall i :: 0 <= i < |images| ==> !(images[i].id == id && images[i].user == user)
  {
    if images == [] then None
    else if images[0].id == id && images[0].user == user then Some(0)
    else
      match Locate(images[1..], id, user)
      case Some(i) => Some(i + 1)
      case None => None
  }

  /** With distinct ids, the lookup finds exactly the record with that id when the caller owns it,
      and nothing when the record belongs to someone else or does not exist. */
  lemma LocateOwned(images: seq<Image>, nextId: nat, k: nat, user: nat)
    requires StoreValid(images, nextId) && k < |images|
    ensures Locate(images, images[k].id, user) == if images[k].user == user then Some(k) else None
  {
    var r := Locate(images, images[k].id, user);
    if r.Some? {
      assert images[r.value].id == images[k].id;
    }
  }

  /** `Image.find({ user: caller })`: the caller's records in insertion order. */
  function OwnedBy(images: seq<Image>, user: nat): (r: seq<Image>)
    ensures |r| <= |images|
    ensures forall im :: im in r ==> im in images && im.user == user
    ensures forall im :: im in images && im.user == user ==> im in r
  {
    if images == [] then []
    else
      var n := |images| - 1;
      assert images == images[..n] + [images[n]];
      OwnedBy(images[..n], user) + (if images[n].user == user then [images[n]] else [])
  }

  /** The positions of the caller's records in the collection, in increasing order. */
  function Positions(images: seq<Image>, user: nat): (idx: seq<nat>)
    ensures forall k :: 0 <= k < |idx| ==> idx[k] < |images| && images[idx[k]].user == user
    ensures forall k, m :: 0 <= k < m < |idx| ==> idx[k] < idx[m]
    ensures forall i :: 0 <= i < |images| && images[i].user == user ==> i in idx
  {
    if images == [] then []
    else
      var n := |images| - 1;
      var rest := Positions(images[..n], user);
      assert forall k :: 0 <= k < |rest| ==> images[rest[k]] == images[..n][rest[k]];
      if images[n].user == user then rest + [n] else rest
  }

  /** The listing is the caller's records in insertion order, one entry per record: entry `k`
      is the record at the `k`-th of the caller's positions, and there are exactly as many
      entries as the caller has records. */
  lemma OwnedByInOrder(images: seq<Image>, user: nat)
    ensures |OwnedBy(images, user)| == |Positions(images, user)|
    ensures forall k :: 0 <= k < |Positions(images, user)| ==>
              OwnedBy(images, user)[k] == images[Positions(images, user)[k]]
    ensures |OwnedBy(images, user)| == |set i | 0 <= i < |images| && images[i].user == user|
  {
    OwnedByPositions(images, user);
    var idx := Positions(images, user);
    assert (set i | 0 <= i < |images| && images[i].user == user) == (set k | 0 <= k < |idx| :: idx[k]);
    IncreasingCard(idx);
  }

  lemma {:induction false} OwnedByPositions(images: seq<Image>, user: nat)
    ensures |OwnedBy(images, user)| == |Positions(images, user)|
    ensures forall k :: 0 <= k < |Positions(images, user)| ==>
              OwnedBy(images, user)[k] == images[Positions(images, user)[k]]
  {
    if images != [] {
      var n := |images| - 1;
      var prefix := images[..n];
      OwnedByPositions(prefix, user);
      var rest := Positions(prefix, user);
      var owned := OwnedBy(prefix, user);
      var all := Positions(images, user);
      var listed := OwnedBy(images, user);
      if images[n].user == user {
        assert all == rest + [n];
        assert listed == owned + [images[n]];
      } else {
        assert all == rest;
        assert listed == owned;
      }
      forall k | 0 <= k < |all| ensures listed[k] == images[all[k]] {
        if k < |rest| {
          assert all[k] == rest[k] && listed[k] == owned[k];
          assert owned[k] == prefix[rest[k]];
        }
      }
    }
  }

  /** A strictly increasing sequence has as many distinct elements as entries. */
  lemma {:induction false} IncreasingCard(idx: seq<nat>)
    requires forall k, m :: 0 <= k < m < |idx| ==> idx[k] < idx[m]
    ensures |set k | 0 <= k < |idx| :: idx[k]| == |idx|
  {
    if idx != [] {
      var n := |idx| - 1;
      var front := idx[..n];
      IncreasingCard(front);
      var s := set k | 0 <= k < |front| :: front[k];
      assert (set k | 0 <= k < |idx| :: idx[k]) == s + {idx[n]};
      assert idx[n] !in s;
    }
  }

  /** `.skip(skip).limit(limit)`: at most `limit` consecutive entries starting at offset `skip`. */
  function Page<T>(s: seq<T>, skip: nat, limit: nat): (r: seq<T>)
    ensures |r| <= limit
    ensures skip + limit <= |s| ==> |r| == limit
    ensures forall i :: 0 <= i < |r| ==> skip + i < |s| && r[i] == s[skip + i]
  {
    var from := if skip <= |s| then skip else |s|;
    var to := if skip + limit <= |s| then skip + limit else |s|;
    s[from..to]
  }

  /** Every entry of a listing is on exactly the page its position says: entry `i` is item
      `i % limit` of page `i / limit + 1`. */
  lemma {:induction false} PageOfIndex<T>(s: seq<T>, limit: nat, i: nat)
    requires limit >= 1 && i < |s|
    ensures i % limit < |Page(s, (i / limit) * limit, limit)|
    ensures Page(s, (i / limit) * limit, limit)[i % limit] == s[i]
  {
    var skip := (i / limit) * limit;
    assert skip + i % limit == i;
    var p := Page(s, skip, limit);
    assert p == s[skip..if skip + limit <= |s| then skip + limit else |s|];
  }

  /** `(page - 1) * limit`. */
  function Offset(page: nat, limit: nat): (skip: nat)
    requires page >= 1
    ensures page == 1 ==> skip == 0
  {
    (page - 1) * limit
  }

  /** Consecutive pages start `limit` apart, and item `i` lies in page `i / limit + 1`, so the
      pages tile the listing without gap or overlap. */
  lemma PagesTile(page: nat, limit: nat, i: nat)
    requires page >= 1 && limit >= 1
    ensures Offset(page + 1, limit) == Offset(page, limit) + limit
    ensures Offset(i / limit + 1, limit) <= i < Offset(i / limit + 1, limit) + limit
  {
    assert (i / limit) * limit + i % limit == i;
  }

  function Views(s: seq<Image>): (vs: seq<ImageView>)
    ensures |vs| == |s| && forall i :: 0 <= i < |s| ==> vs[i] == View(s[i])
  {
    if s == [] then [] else [View(s[0])] + Views(s[1..])
  }

  /** `Image.deleteOne({ _id: id })`: every record with that id removed, the rest in order. */
  function Without(images: seq<Image>, id: nat): seq<Image>
  {
    if images == [] then []
    else if images[0].id == id then Without(images[1..], id)
    else [images[0]] + Without(images[1..], id)
  }

  /** What survives a delete: exactly the records whose id differs. */
  lemma {:induction false} WithoutMembers(images: seq<Image>, id: nat)
    ensures forall im :: im in Without(images, id) <==> im in images && im.id != id
  {
    if images != [] {
      WithoutMembers(images[1..], id);
      assert forall im :: im in images <==> im == images[0] || im in images[1..];
    }
  }

  /** When only record `k` has its id, deleting by that id removes exactly that record and
      leaves every other in place. */
  lemma {:induction false} WithoutOne(images: seq<Image>, k: nat)
    requires k < |images|
    requires forall i :: 0 <= i < |images| && i != k ==> images[i].id != images[k].id
    ensures Without(images, images[k].id) == images[..k] + images[k + 1..]
  {
    var id := images[k].id;
    var before, after := images[..k], images[k + 1..];
    assert images == before + ([images[k]] + after);
    WithoutAppend(before, [images[k]] + after, id);
    assert forall i :: 0 <= i < |before| ==> before[i] == images[i];
    WithoutNone(before, id);
    assert forall i :: 0 <= i < |after| ==> after[i] == images[k + 1 + i];
    WithoutNone(after, id);
    assert ([images[k]] + after)[1..] == after;
  }

  /** Deleting from a concatenation deletes from each part. */
  lemma {:induction false} WithoutAppend(a: seq<Image>, b: seq<Image>, id: nat)
    ensures Without(a + b, id) == Without(a, id) + Without(b, id)
  {
    if a != [] {
      WithoutAppend(a[1..], b, id);
      var ab := a + b;
      assert ab[0] == a[0] && ab[1..] == a[1..] + b;
      assert Without(ab, id) == (if a[0].id == id then [] else [a[0]]) + Without(ab[1..], id);
      assert Without(a, id) == (if a[0].id == id then [] else [a[0]]) + Without(a[1..], id);
    } else {
      assert a + b == b;
    }
  }

  /** Removing one record keeps the store valid. */
  lemma RemoveValid(images: seq<Image>, nextId: nat, k: nat)
    requires StoreValid(images, nextId) && k < |images|
    ensures StoreValid(images[..k] + images[k + 1..], nextId)
  {
    var rest := images[..k] + images[k + 1..];
    forall i | 0 <= i < |rest| ensures rest[i] == images[if i < k then i else i + 1] {
    }
  }

  /** Deleting an id no record has changes nothing. */
  lemma {:induction false} WithoutNone(images: seq<Image>, id: nat)
    requires forall i :: 0 <= i < |images| ==> images[i].id != id
    ensures Without(images, id) == images
  {
    if images != [] {
      WithoutNone(images[1..], id);
      assert [images[0]] + images[1..] == images;
    }
  }

  /** After a delete, the id is not found for anyone. */
  lemma DeletedIsNotFound(images: seq<Image>, id: nat, user: nat)
    ensures Locate(Without(images, id), id, user) == None
  {
    var w := Without(images, id);
    WithoutMembers(images, id);
    forall i | 0 <= i < |w| ensures w[i].id != id {
      assert w[i] in w;
    }
  }

  /** `req.file.mimetype.split('/')[1]`: the subtype, or `undefined` when there is no `/`. */
  function FormatOf(mime: string): Option<string>
  {
    var parts := Strings.Split(mime, '/');
    if |parts| >= 2 then Some(parts[1]) else None
  }

  /** `type/subtype` gives the subtype; a MIME type without `/` gives no format. */
  lemma FormatOfMime(kind: string, sub: string)
    requires '/' !in kind && '/' !in sub
    ensures FormatOf(kind + "/" + sub) == Some(sub)
    ensures FormatOf(kind) == None
  {
    var parts := [kind, sub];
    assert Strings.Join(parts, "/") == kind + "/" + sub by {
      assert parts[1..] == [sub];
    }
    Strings.SplitJoin(parts, '/');
    Strings.SplitFree(kind, '/');
  }

  /** The metadata object an upload stores, in the schema's field order; `format` is left out
      when the MIME type has no subtype. */
  function UploadMetadata(file: UploadedFile, up: Uploaded): seq<Field>
  {
    [Field("originalName", Str(file.originalName)), Field("size", Num(file.size))]
      + (match FormatOf(file.mimeType) case Some(f) => [Field("format", Str(f))] case None => [])
      + [Field("width", Num(up.width)), Field("height", Num(up.height))]
  }

  /** The stored metadata has distinct keys and records the file's name and its MIME subtype. */
  lemma UploadMetadataFields(file: UploadedFile, up: Uploaded)
    ensures UniqueKeys(UploadMetadata(file, up))
    ensures Lookup(UploadMetadata(file, up), "originalName") == Some(Str(file.originalName))
    ensures Lookup(UploadMetadata(file, up), "format") ==
              match FormatOf(file.mimeType) case Some(f) => Some(Str(f)) case None => None
  {
    var m := UploadMetadata(file, up);
    var name, size := Field("originalName", Str(file.originalName)), Field("size", Num(file.size));
    var width, height := Field("width", Num(up.width)), Field("height", Num(up.height));
    match FormatOf(file.mimeType)
    case Some(f) =>
      var format := Field("format", Str(f));
      assert m == [name, size, format, width, height];
      assert m[1..][1..] == [format, width, height];
      assert Lookup(m[1..][1..], "format") == Some(Str(f));
    case None =>
      assert m == [name, size, width, height];
      assert m[1..][1..] == [width, height];
      assert m[1..][1..][1..] == [height];
      assert Lookup(m[1..][1..][1..], "format") == None;
      assert Lookup(m[1..][1..], "format") == None;
  }

  /** `{ ...image.metadata, ...metadata }` stored back on the record. */
  function Merged(im: Image, patch: Option<Value>): Image
  {
    im.(metadata := SpreadValue(Spread([], im.metadata), patch))
  }

  /** Shallow merge: a key the patch provides takes the patch's value, every other key keeps
      its value, and the owner, host id and URL are untouched. */
  lemma MergeSemantics(im: Image, patch: seq<Field>, k: string)
    requires UniqueKeys(im.metadata) && UniqueKeys(patch)
    ensures Lookup(Merged(im, Some(Obj(patch))).metadata, k) ==
              if Lookup(patch, k).Some? then Lookup(patch, k) else Lookup(im.metadata, k)
    ensures Merged(im, Some(Obj(patch))).(metadata := im.metadata) == im
  {
    SpreadLookup([], im.metadata, k);
    SpreadLookup(Spread([], im.metadata), patch, k);
  }

  /** Without a metadata object in the body (absent, null, a boolean or a number) every key keeps its value. */
  lemma MergeNothing(im: Image, patch: Option<Value>, k: string)
    requires UniqueKeys(im.metadata)
    requires patch.None? || patch == Some(Null) || (patch.Some? && (patch.value.Bool? || patch.value.Num?))
    ensures Lookup(Merged(im, patch).metadata, k) == Lookup(im.metadata, k)
  {
    SpreadLookup([], im.metadata, k);
  }

  /** The merged metadata keeps distinct keys, and every old key in its place. */
  lemma MergeKeys(im: Image, patch: Option<Value>)
    requires UniqueKeys(im.metadata)
    ensures UniqueKeys(Merged(im, patch).metadata)
    ensures |Merged(im, patch).metadata| >= |im.metadata|
    ensures Keys(Merged(im, patch).metadata)[..|im.metadata|] == Keys(im.metadata)
  {
    SpreadKeys([], im.metadata);
    var base := Spread([], im.metadata);
    assert Keys(base) == Keys(im.metadata) by {
      assert Keys(base)[..0] == Keys([]);
      SpreadLookupKeys(im.metadata);
    }
    match patch
    case Some(Obj(fs)) => SpreadKeys(base, fs);
    case Some(Str(s)) => SpreadKeys(base, IndexFields(Chars(s), 0));
    case Some(Arr(items)) => SpreadKeys(base, IndexFields(items, 0));
    case _ =>
  }

  /** Copying an object with distinct keys onto `{}` gives the same keys in the same order. */
  lemma {:induction false} SpreadLookupKeys(fs: seq<Field>)
    requires UniqueKeys(fs)
    ensures Spread([], fs) == fs
  {
    SpreadOnto([], fs);
  }

  /** Spreading fresh keys onto an object appends them in order. */
  lemma {:induction false} SpreadOnto(base: seq<Field>, fs: seq<Field>)
    requires UniqueKeys(base + fs)
    ensures Spread(base, fs) == base + fs
    decreases |fs|
  {
    if fs != [] {
      forall i | 0 <= i < |base| ensures base[i].key != fs[0].key {
        assert (base + fs)[i] == base[i] && (base + fs)[|base|] == fs[0];
      }
      FreshAssign(base, fs[0]);
      assert base + [fs[0]] + fs[1..] == base + fs;
      SpreadOnto(base + [fs[0]], fs[1..]);
    }
  }

  /** Assigning a key the object does not have appends it. */
  lemma {:induction false} FreshAssign(base: seq<Field>, f: Field)
    requires forall i :: 0 <= i < |base| ==> base[i].key != f.key
    ensures Assign(base, f) == base + [f]
  {
    if base != [] {
      FreshAssign(base[1..], f);
      assert [base[0]] + (base[1..] + [f]) == base + [f];
    }
  }

  // ---------------------------------------------------------------------------
  // The transform-through-cache flow
  // ---------------------------------------------------------------------------

  /** The cache key: the descriptor is serialised exactly as the client sent it. */
  function CacheKey(cloudinaryId: string, t: Value): string
  {
    "transform:" + cloudinaryId + ":" + Stringify(t)
  }

  /** Two different host ids without `:` never share a cache key, whatever the descriptors. */
  lemma CacheKeySeparatesImages(c1: string, c2: string, t1: Value, t2: Value)
    requires ':' !in c1 && ':' !in c2 && c1 != c2
    ensures CacheKey(c1, t1) != CacheKey(c2, t2)
  {
    assert CacheKey(c1, t1) == "transform:" + (c1 + ":" + Stringify(t1));
    assert CacheKey(c2, t2) == "transform:" + (c2 + ":" + Stringify(t2));
    IdsSeparate("transform:", c1, c2, Stringify(t1), Stringify(t2));
  }

  /** Two keys with the same prefix and different colon-free ids differ. */
  lemma IdsSeparate(p: string, c1: string, c2: string, r1: string, r2: string)
    requires ':' !in c1 && ':' !in c2 && c1 != c2
    ensures p + (c1 + ":" + r1) != p + (c2 + ":" + r2)
  {
    var k1, k2 := p + (c1 + ":" + r1), p + (c2 + ":" + r2);
    var n := |p|;
    if |c1| < |c2| {
      assert k1[n + |c1|] == ':' && k2[n + |c1|] == c2[|c1|];
    } else if |c2| < |c1| {
      assert k2[n + |c2|] == ':' && k1[n + |c2|] == c1[|c2|];
    } else {
      var j :| 0 <= j < |c1| && c1[j] != c2[j];
      assert k1[n + j] == c1[j] && k2[n + j] == c2[j];
    }
  }


  /** The outcome of the transform handler and the cache it leaves behind. */
  function TransformSpec(images: seq<Image>, entries: Cache.Store, caller: nat, id: nat,
                         transformations: Option<Value>, now: int, getUp: bool, setUp: bool,
                         url: (string, seq<ImageService.Directive>) -> Option<string>)
    : (Result<Response, AppError>, Cache.Store)
  {
    if !IsSet(transformations) || KeyCount(transformations.value) == 0 then
      (Failure(Raise(400, NoTransformationsMessage)), entries)
    else
      match Locate(images, id, caller)
      case None => (Failure(NotFound), entries)
      case Some(k) =>
        var im := images[k];
        var key := CacheKey(im.cloudinaryId, transformations.value);
        var cached := Cache.Read(entries, key, now, getUp);
        if cached.Some? && cached.value != "" then
          (Success(Response(200, Transformed(im.id, cached.value, im.metadata))), entries)
        else
          match url(im.cloudinaryId, ImageService.Directives(transformations.value))
          case None => (Failure(Unexpected(ImageService.TransformFailed)), entries)
          case Some(u) =>
            (Success(Response(200, Transformed(im.id, u, im.metadata))),
             Cache.Write(entries, key, u, Cache.DefaultExpiry, now, setUp))
  }

  /** A missing or empty descriptor is refused before the store or the cache is consulted:
      the answer is the same whatever they hold. */
  lemma TransformChecksDescriptorFirst(images: seq<Image>, images': seq<Image>, entries: Cache.Store,
                                       entries': Cache.Store, caller: nat, id: nat, t: Option<Value>,
                                       now: int, getUp: bool, setUp: bool,
                                       url: (string, seq<ImageService.Directive>) -> Option<string>)
    requires !IsSet(t) || KeyCount(t.value) == 0
    ensures TransformSpec(images, entries, caller, id, t, now, getUp, setUp, url).0 == Failure(Raise(400, NoTransformationsMessage))
    ensures TransformSpec(images', entries', caller, id, t, now, getUp, setUp, url).0 ==
            TransformSpec(images, entries, caller, id, t, now, getUp, setUp, url).0
    ensures TransformSpec(images, entries, caller, id, t, now, getUp, setUp, url).1 == entries
  {
  }

  /** The answer for another user's image, or a missing one, is 404 and the cache is untouched. */
  lemma TransformOthersNotFound(images: seq<Image>, entries: Cache.Store, caller: nat, id: nat,
                                t: Value, now: int, getUp: bool, setUp: bool,
                                url: (string, seq<ImageService.Directive>) -> Option<string>)
    requires Truthy(t) && KeyCount(t) > 0
    requires forall i :: 0 <= i < |images| && images[i].id == id ==> images[i].user != caller
    ensures TransformSpec(images, entries, caller, id, Some(t), now, getUp, setUp, url) == (Failure(NotFound), entries)
  {
  }

  /** A transform that missed the cache and stored its URL is served from the cache by every
      later request for the same image and descriptor within the default lease, without calling
      the host's URL builder: the answer does not depend on `url2`. */
  lemma RepeatServedFromCache(images: seq<Image>, entries: Cache.Store, caller: nat, id: nat,
                              t: Value, now: int, later: int, getUp: bool,
                              url: (string, seq<ImageService.Directive>) -> Option<string>,
                              url2: (string, seq<ImageService.Directive>) -> Option<string>, setUp2: bool)
    requires now <= later < now + Cache.DefaultExpiry
    requires TransformSpec(images, entries, caller, id, Some(t), now, getUp, true, url).1 != entries
    requires TransformSpec(images, entries, caller, id, Some(t), now, getUp, true, url).0.value.payload.transformedUrl != ""
    ensures TransformSpec(images, TransformSpec(images, entries, caller, id, Some(t), now, getUp, true, url).1,
                          caller, id, Some(t), later, true, setUp2, url2).0
         == TransformSpec(images, entries, caller, id, Some(t), now, getUp, true, url).0
  {
    var k := Locate(images, id, caller).value;
    var key := CacheKey(images[k].cloudinaryId, t);
    var cached := Cache.Read(entries, key, now, getUp);
    if !(cached.Some? && cached.value != "") {
      var u := url(images[k].cloudinaryId, ImageService.Directives(t)).value;
      Cache.ReadAfterWrite(entries, key, u, Cache.DefaultExpiry, now, later);
    }
  }

  /** The cache key depends on the order the client listed the operations in, although the
      directives do not: the same request written in another order misses the cache. */
  lemma PermutedDescriptorMisses(c: string, r: Value, f: Value)
    ensures var t1 := Obj([Field("rotate", r), Field("format", f)]);
            var t2 := Obj([Field("format", f), Field("rotate", r)]);
            ImageService.Directives(t1) == ImageService.Directives(t2) && CacheKey(c, t1) != CacheKey(c, t2)
  {
    var fs := [Field("rotate", r), Field("format", f)];
    var gs := [Field("format", f), Field("rotate", r)];
    assert multiset(fs) == multiset(gs) by {
      assert fs == [fs[0]] + [fs[1]] && gs == [fs[1]] + [fs[0]];
    }
    ImageService.FieldOrderIrrelevant(fs, gs);
    StringifyFirstKey(fs);
    StringifyFirstKey(gs);
    var p := |"transform:" + c + ":"|;
    assert CacheKey(c, Obj(fs))[p + 2] == 'r';
    assert CacheKey(c, Obj(gs))[p + 2] == 'f';
  }

  /** `JSON.stringify` of an object opens with `{"` and the first character of its first key. */
  lemma StringifyFirstKey(fs: seq<Field>)
    requires fs != [] && fs[0].key != [] && 'a' <= fs[0].key[0] <= 'z'
    ensures |Stringify(Obj(fs))| > 2 && Stringify(Obj(fs))[2] == fs[0].key[0]
  {
    var k := fs[0].key;
    assert Escape(k) == EscapeChar(k[0]) + Escape(k[1..]);
    var q := Quote(k);
    assert q[1] == k[0];
    var tail := StringifyFields(fs)[|q|..];
    assert StringifyFields(fs) == q + tail;
    assert Stringify(Obj(fs)) == "{" + q + tail + "}";
  }

  // ---------------------------------------------------------------------------
  // The handlers
  // ---------------------------------------------------------------------------

  /** The image collection (`Image`) together with the shared transform cache. `releases`
      records, in order, the host ids whose remote content the delete handler asked the
      host to destroy. */
  class ImageStore {
    var images: seq<Image>
    var nextId: nat
    var releases: seq<string>
    const cache: Cache.TtlCache

    ghost predicate Valid()
      reads this
    {
      StoreValid(images, nextId)
    }

    constructor (cache: Cache.TtlCache)
      ensures Valid()
      ensures images == [] && nextId == 0 && releases == [] && this.cache == cache
    {
      images := [];
      nextId := 0;
      releases := [];
      this.cache := cache;
    }

    /** `uploadImageController`. `upload` is what the host answered (or the error it raised). */
    method Upload(caller: nat, file: Option<UploadedFile>, upload: Result<Uploaded, AppError>)
      returns (r: Result<Response, AppError>)
      requires Valid()
      modifies this
      ensures Valid()
      ensures releases == old(releases)
      ensures file.None? ==> r == Failure(Raise(400, NoFileMessage)) && images == old(images) && nextId == old(nextId)
      ensures file.Some? && upload.Failure? ==>
                r == Failure(upload.error) && images == old(images) && nextId == old(nextId)
      ensures file.Some? && upload.Success? ==>
                var im := Image(old(nextId), caller, upload.value.publicId, upload.value.secureUrl,
                                UploadMetadata(file.value, upload.value));
                images == old(images) + [im] && nextId == old(nextId) + 1
                && r == Success(Response(201, ImageData(View(im))))
    {
      if file.None? {
        return Failure(Raise(400, NoFileMessage));
      }
      if upload.Failure? {
        return Failure(upload.error);
      }
      var result := upload.value;
      var metadata := UploadMetadata(file.value, result);
      UploadMetadataFields(file.value, result);
      var im := Image(nextId, caller, result.publicId, result.secureUrl, metadata);
      images := images + [im];
      nextId := nextId + 1;
      r := Success(Response(201, ImageData(View(im))));
    }

    /** `getImageController`: the caller's image with that id, or 404. */
    method Get(caller: nat, id: nat) returns (r: Result<Response, AppError>)
      ensures r.Success? <==> exists i :: 0 <= i < |images| && images[i].id == id && images[i].user == caller
      ensures r.Failure? ==> r.error == NotFound
      ensures r.Success? ==> r.value.status == 200 && exists i :: 0 <= i < |images| && images[i].user == caller &&
                                                                 r.value.payload == ImageData(View(images[i])) && images[i].id == id
    {
      var k := Locate(images, id, caller);
      if k.None? {
        return Failure(NotFound);
      }
      r := Success(Response(200, ImageData(View(images[k.value]))));
    }

    /** `listImagesController`: one page of the caller's images and the count of all of them. */
    method List(caller: nat, page: Option<nat>, limit: Option<nat>) returns (r: Result<Response, AppError>)
      requires page.Some? ==> page.value >= 1
      requires limit.Some? ==> limit.value >= 1
      ensures r.Success? && r.value.status == 200 && r.value.payload.Listing?
      ensures var p := if page.Some? then page.value else DefaultPage;
              var l := if limit.Some? then limit.value else DefaultLimit;
              r.value.payload == Listing(Views(Page(OwnedBy(images, caller), Offset(p, l), l)), p, l,
                                         |OwnedBy(images, caller)|)
    {
      var p := if page.Some? then page.value else DefaultPage;
      var l := if limit.Some? then limit.value else DefaultLimit;
      var skip := Offset(p, l);
      var mine := OwnedBy(images, caller);
      var items := Views(Page(mine, skip, l));
      r := Success(Response(200, Listing(items, p, l, |mine|)));
    }

    /** `transformImageController`: descriptor check, ownership lookup, cache, then the host. */
    method Transform(caller: nat, id: nat, transformations: Option<Value>, now: int, getUp: bool, setUp: bool,
                     url: (string, seq<ImageService.Directive>) -> Option<string>)
      returns (r: Result<Response, AppError>)
      modifies cache
      ensures (r, cache.entries) ==
              TransformSpec(images, old(cache.entries), caller, id, transformations, now, getUp, setUp, url)
    {
      if !IsSet(transformations) || KeyCount(transformations.value) == 0 {
        return Failure(Raise(400, NoTransformationsMessage));
      }
      var t := transformations.value;
      var k := Locate(images, id, caller);
      if k.None? {
        return Failure(NotFound);
      }
      var im := images[k.value];
      var key := CacheKey(im.cloudinaryId, t);
      var cached := cache.Get(key, now, getUp);
      if cached.Some? && cached.value != "" {
        return Success(Response(200, Transformed(im.id, cached.value, im.metadata)));
      }
      var transformed := ImageService.TransformImage(im.cloudinaryId, transformations, url);
      if transformed.Failure? {
        return Failure(transformed.error);
      }
      cache.Set(key, transformed.value, None, now, setUp);
      r := Success(Response(200, Transformed(im.id, transformed.value, im.metadata)));
    }

    /** `deleteImageController`: asks the host to destroy the remote content first (`release`
        is the error it raised, if any) and only then removes the record. */
    method Delete(caller: nat, id: nat, release: Option<AppError>) returns (r: Result<Response, AppError>)
      requires Valid()
      modifies this
      ensures Valid()
      ensures nextId == old(nextId)
      ensures Locate(old(images), id, caller).None? ==>
                r == Failure(NotFound) && images == old(images) && releases == old(releases)
      ensures Locate(old(images), id, caller).Some? ==>
                var k := Locate(old(images), id, caller).value;
                releases == old(releases) + [old(images)[k].cloudinaryId]
                && (release.Some? ==> r == Failure(release.value) && images == old(images))
                && (release.None? ==>
                      r == Success(Response(200, Deleted(DeletedMessage)))
                      && images == old(images)[..k] + old(images)[k + 1..])
    {
      var k := Locate(images, id, caller);
      if k.None? {
        return Failure(NotFound);
      }
      releases := releases + [images[k.value].cloudinaryId];
      if release.Some? {
        return Failure(release.value);
      }
      LocateOwned(images, nextId, k.value, caller);
      WithoutOne(images, k.value);
      RemoveValid(images, nextId, k.value);
      images := Without(images, id);
      r := Success(Response(200, Deleted(DeletedMessage)));
    }

    /** `updateMetadataController`: a shallow merge of the body's `metadata` into the record. */
    method UpdateMetadata(caller: nat, id: nat, metadata: Option<Value>) returns (r: Result<Response, AppError>)
      requires Valid()
      modifies this
      ensures Valid()
      ensures nextId == old(nextId) && releases == old(releases)
      ensures Locate(old(images), id, caller).None? ==> r == Failure(NotFound) && images == old(images)
      ensures Locate(old(images), id, caller).Some? ==>
                var k := Locate(old(images), id, caller).value;
                images == old(images)[k := Merged(old(images)[k], metadata)]
                && r == Success(Response(200, ImageData(View(Merged(old(images)[k], metadata)))))
    {
      var k := Locate(images, id, caller);
      if k.None? {
        return Failure(NotFound);
      }
      var im := Merged(images[k.value], metadata);
      MergeKeys(images[k.value], metadata);
      images := images[k.value := im];
      r := Success(Response(200, ImageData(View(im))));
    }
  }
}
