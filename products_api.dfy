/**
 * The products endpoint. POST validates a product payload, keeps the images
 * that finished uploading and carry a key, and writes the product row and its
 * image rows in one transaction; GET pages through the products and attaches
 * each product's images, building a public URL from the key when a row has
 * no url.
 */
module ProductsApi {
  import opened Common
  import opened DbSchema
  import opened FormSchema
  import UploadUrl
  import Listing

  // ---- POST ---------------------------------------------------------------

  /** Kept for insertion: done (a missing status counts as done) and with a non-empty key. */
  predicate Persistable(img: UploadedImage) {
    EffectiveStatus(img) == Done && Truthy(img.key)
  }

  /** The images POST writes rows for. */
  function DoneImages(images: seq<UploadedImage>): (done: seq<UploadedImage>)
    ensures |done| <= |images|
    ensures forall k :: 0 <= k < |done| ==> Persistable(done[k]) && done[k] in images
  {
    Filter(images, Persistable)
  }

  /** The persisted images are the persistable ones, all of them, in their original order. */
  lemma DoneImagesAreThePersistable(images: seq<UploadedImage>)
    ensures IsSubsequence(DoneImages(images), images)
    ensures forall k :: 0 <= k < |DoneImages(images)| ==> Persistable(DoneImages(images)[k])
    ensures forall k :: 0 <= k < |images| && Persistable(images[k]) ==> images[k] in DoneImages(images)
    ensures forall x :: multiset(DoneImages(images))[x] == if Persistable(x) then multiset(images)[x] else 0
  {
    FilterIsSubsequence(images, Persistable);
    forall x ensures multiset(DoneImages(images))[x] == if Persistable(x) then multiset(images)[x] else 0 {
      FilterCount(images, Persistable, x);
    }
  }

  /** The product insert: name, description, price and currency as received. */
  function ProductInsertFor(f: ProductForm): ProductInsert {
    ProductInsert(f.name, f.description, f.price, Some(f.currency))
  }

  /** An image insert supplies only the product id, the key and the url. */
  function ImageInsertFor(productId: nat, img: UploadedImage): ImageInsert {
    ImageInsert(productId, img.key.GetOr(""), img.url, None, None, None, None)
  }

  function ImageInsertsFor(productId: nat, done: seq<UploadedImage>): seq<ImageInsert> {
    MapSeq((img: UploadedImage) => ImageInsertFor(productId, img), done)
  }

  /** The tables after a committed creation: one product row, then one image row per persisted image. */
  function Commit(t: Tables, f: ProductForm, now: nat): (c: Tables)
    ensures |c.products| == |t.products| + 1 && c.nextProductId == t.nextProductId + 1
    ensures |c.images| == |t.images| + |DoneImages(f.images)|
    ensures c.nextImageId == t.nextImageId + |DoneImages(f.images)|
  {
    var t1 := InsertProduct(t, ProductInsertFor(f), now);
    var done := DoneImages(f.images);
    if |done| == 0 then t1 else InsertImages(t1, ImageInsertsFor(t.nextProductId, done), now)
  }

  /** Every row the creation writes meets its column bounds. */
  predicate CommitFits(t: Tables, f: ProductForm, now: nat) {
    var rows := ImageRowsOf(t.nextImageId, ImageInsertsFor(t.nextProductId, DoneImages(f.images)), now);
    && ProductFits(ProductRowOf(t.nextProductId, ProductInsertFor(f), now))
    && forall k :: 0 <= k < |rows| ==> ImageFits(rows[k])
  }

  /** Where the database may fail inside the transaction. */
  datatype Fault = NoFault | ProductInsertFails | NoIdReturned | ImageInsertFails

  /** 201 with the new id, 400 with the schema's issues, or 500. */
  datatype PostResponse = Created(id: nat) | BadRequest(issues: seq<Issue>) | ServerError

  /** A committed creation keeps the tables consistent. */
  lemma CommitConsistent(t: Tables, f: ProductForm, now: nat)
    requires Consistent(t) && CommitFits(t, f, now)
    ensures Consistent(Commit(t, f, now))
  {
    var ins := ProductInsertFor(f);
    InsertProductConsistent(t, ins, now);
    var t1 := InsertProduct(t, ins, now);
    var done := DoneImages(f.images);
    if |done| > 0 {
      var inserts := ImageInsertsFor(t.nextProductId, done);
      var rows := ImageRowsOf(t.nextImageId, inserts, now);
      assert t1.nextImageId == t.nextImageId;
      assert t.nextProductId in ProductIds(t1);
      forall k | 0 <= k < |inserts|
        ensures inserts[k].productId in ProductIds(t1)
        ensures ImageFits(ImageRowOf(t1.nextImageId + k, inserts[k], now))
      {
        assert inserts[k].productId == t.nextProductId;
        assert rows[k] == ImageRowOf(t1.nextImageId + k, inserts[k], now);
      }
      InsertImagesConsistent(t1, inserts, now);
    }
  }

  /**
   * A commit adds exactly one product row, with the next id and the payload's
   * fields, and one image row per persisted image, in order, each pointing at
   * the new product with its key and url, no alt or mime, ordering 0 and not
   * primary; nothing that was there changes.
   */
  lemma CommitWrites(t: Tables, f: ProductForm, now: nat)
    ensures var c := Commit(t, f, now);
            var done := DoneImages(f.images);
            && c.products == t.products + [ProductRow(t.nextProductId, f.name, f.description, f.price, f.currency, now)]
            && |c.images| == |t.images| + |done|
            && c.images[..|t.images|] == t.images
            && forall k :: 0 <= k < |done| ==>
                 done[k].key.Some? &&
                 c.images[|t.images| + k] ==
                   ImageRow(t.nextImageId + k, t.nextProductId, done[k].key.value, done[k].url, None, None, 0, false, now)
  {
    var done := DoneImages(f.images);
    var c := Commit(t, f, now);
    var inserts := ImageInsertsFor(t.nextProductId, done);
    var rows := ImageRowsOf(t.nextImageId, inserts, now);
    CommitAppends(t, f, now);
    forall k | 0 <= k < |done|
      ensures done[k].key.Some? &&
              c.images[|t.images| + k] ==
                ImageRow(t.nextImageId + k, t.nextProductId, done[k].key.value, done[k].url, None, None, 0, false, now)
    {
      assert Persistable(done[k]);
      assert c.images[|t.images| + k] == rows[k];
      assert rows[k] == ImageRowOf(t.nextImageId + k, inserts[k], now);
      assert inserts[k] == ImageInsertFor(t.nextProductId, done[k]);
    }
  }

  /** The commit appends the product row to the products and the persisted images' rows to the images. */
  lemma CommitAppends(t: Tables, f: ProductForm, now: nat)
    ensures var rows := ImageRowsOf(t.nextImageId, ImageInsertsFor(t.nextProductId, DoneImages(f.images)), now);
            && Commit(t, f, now).products == t.products + [ProductRow(t.nextProductId, f.name, f.description, f.price, f.currency, now)]
            && Commit(t, f, now).images == t.images + rows
            && |rows| == |DoneImages(f.images)|
  {
    var rows := ImageRowsOf(t.nextImageId, ImageInsertsFor(t.nextProductId, DoneImages(f.images)), now);
    if |DoneImages(f.images)| == 0 {
      assert rows == [];
    }
  }

  /** A payload whose only finished image has a url but no key is accepted, yet the product is
      committed with no image row. */
  lemma UrlOnlyImageCommitsNoRows(t: Tables, f: ProductForm, now: nat)
    requires |f.name| >= 1 && PricePositive(f.price) && |f.currency| >= 1
    requires |f.images| == 1 && f.images[0].status == Some(Done) && f.images[0].progress.None?
    requires Truthy(f.images[0].url) && f.images[0].key.None?
    ensures Valid(f)
    ensures Commit(t, f, now).images == t.images
    ensures |Commit(t, f, now).products| == |t.products| + 1
  {
    assert IsUploaded(f.images[0]);
    ValidIff(f);
    assert DoneImages(f.images) == [];
  }

  class Database {
    var tables: Tables

    ghost predicate Valid()
      reads this
    {
      Consistent(tables)
    }

    constructor ()
      ensures Valid() && tables == EmptyTables
    {
      tables := EmptyTables;
      EmptyTablesConsistent();
    }

    /**
     * POST /api/products. An invalid payload is answered 400 with its issues
     * and writes nothing. Otherwise the inserts are staged in a transaction:
     * the product row, then (only when some image is persisted) all image
     * rows at once. A database failure or a row breaking a column bound
     * aborts with 500 and leaves the tables as they were; else the staged
     * tables are committed and the new id answered with 201.
     */
    method Post(f: ProductForm, now: nat, fault: Fault) returns (resp: PostResponse)
      requires Valid()
      modifies this`tables
      ensures Valid()
      ensures !FormSchema.Valid(f) ==> resp == BadRequest(Issues(f)) && tables == old(tables)
      ensures FormSchema.Valid(f) && CommitFits(old(tables), f, now)
              && (fault == NoFault || (fault == ImageInsertFails && |DoneImages(f.images)| == 0)) ==>
                resp == Created(old(tables).nextProductId) && tables == Commit(old(tables), f, now)
      ensures resp.Created? || tables == old(tables)
      ensures resp.ServerError? <==>
                FormSchema.Valid(f) && (!CommitFits(old(tables), f, now) || fault == ProductInsertFails
                  || fault == NoIdReturned || (fault == ImageInsertFails && |DoneImages(f.images)| > 0))
    {
      if Issues(f) != [] {
        return BadRequest(Issues(f));
      }
      var done := DoneImages(f.images);
      // The transaction works on a staged copy; only a completed callback commits it.
      var staged := tables;
      var productRow := ProductRowOf(staged.nextProductId, ProductInsertFor(f), now);
      if fault == ProductInsertFails || !ProductFits(productRow) {
        return ServerError;
      }
      var createdId := staged.nextProductId;
      staged := InsertProduct(staged, ProductInsertFor(f), now);
      if fault == NoIdReturned {
        return ServerError;
      }
      var rows := ImageRowsOf(staged.nextImageId, ImageInsertsFor(createdId, done), now);
      if |done| > 0 {
        if fault == ImageInsertFails || exists k :: 0 <= k < |rows| && !ImageFits(rows[k]) {
          return ServerError;
        }
        staged := InsertImages(staged, ImageInsertsFor(createdId, done), now);
      }
      assert CommitFits(tables, f, now);
      CommitConsistent(tables, f, now);
      tables := staged;
      resp := Created(createdId);
    }
  }

  // ---- GET ----------------------------------------------------------------

  const DefaultLimit := 20
  const DefaultPage := 1

  /** `limit` param, 20 when absent. */
  function Limit(param: Option<int>): int {
    param.GetOr(DefaultLimit)
  }

  /** `Math.max(1, page param ?? 1)`. */
  function PageNumber(param: Option<int>): (page: int)
    ensures page >= 1
    ensures param.Some? && param.value >= 1 ==> page == param.value
    ensures param.None? || param.value < 1 ==> page == 1
  {
    var p := param.GetOr(DefaultPage);
    if p < 1 then 1 else p
  }

  /** `LIMIT limit OFFSET offset` over the ordered product rows. */
  function PageOf(rows: seq<ProductRow>, offset: nat, limit: nat): (r: seq<ProductRow>)
    ensures |r| <= limit
    ensures |r| == (if offset >= |rows| then 0 else if offset + limit <= |rows| then limit else |rows| - offset)
    ensures offset < |rows| && limit > 0 ==> |r| > 0 && r[0] == rows[offset]
    ensures forall k :: 0 <= k < |r| ==> offset + k < |rows| && r[k] == rows[offset + k]
  {
    var lo := if offset < |rows| then offset else |rows|;
    var hi := if offset + limit < |rows| then offset + limit else |rows|;
    rows[lo..hi]
  }

  /** An image as the endpoint answers it. */
  datatype ApiImage = ApiImage(id: nat, key: string, url: Option<string>, ordering: int, isPrimary: bool)

  datatype ApiProduct = ApiProduct(
    id: nat,
    name: string,
    description: Option<string>,
    price: string,
    currency: string,
    createdAt: nat,
    images: seq<ApiImage>)

  /** `{ data }`, or 500 when the query fails. */
  datatype GetResponse = Data(items: seq<ApiProduct>) | GetServerError

  /** `i.url ?? (i.key ? publicUrl(key) : null)`. */
  function ImageUrl(bucket: string, region: string, r: ImageRow): (u: Option<string>)
    ensures u.None? <==> r.url.None? && |r.key| == 0
    ensures r.url.Some? ==> u == r.url
    ensures r.url.None? && u.Some? ==> StartsWith(u.value, "https://")
  {
    match r.url
    case Some(u) => Some(u)
    case None => if |r.key| > 0 then Some(UploadUrl.PublicUrl(bucket, region, r.key)) else None
  }

  function ApiImageOf(bucket: string, region: string, r: ImageRow): ApiImage {
    ApiImage(r.id, r.key, ImageUrl(bucket, region, r), r.ordering, r.isPrimary)
  }

  function ApiProductOf(p: ProductRow, images: seq<ApiImage>): ApiProduct {
    ApiProduct(p.id, p.name, p.description, p.price, p.currency, p.createdAt, images)
  }

  /** The answer for a page: each product with the views of its own image rows, in the order read. */
  function PageData(page: seq<ProductRow>, images: seq<ImageRow>, bucket: string, region: string): seq<ApiProduct> {
    seq(|page|, i requires 0 <= i < |page| =>
      ApiProductOf(page[i], ApiImages(bucket, region, Listing.ImagesOf(images, page[i].id))))
  }

  /** `product_id IN (ids)`. */
  function RowsForProducts(images: seq<ImageRow>, ids: seq<nat>): seq<ImageRow> {
    Filter(images, (r: ImageRow) => r.productId in ids)
  }

  /** Narrowing the image rows to a set of products leaves each of those products' own rows as they were. */
  lemma {:induction false} RowsForProductsKeepsOwn(images: seq<ImageRow>, ids: seq<nat>, pid: nat)
    requires pid in ids
    ensures Listing.ImagesOf(RowsForProducts(images, ids), pid) == Listing.ImagesOf(images, pid)
  {
    if images != [] {
      var x := images[0];
      var rest := images[1..];
      assert images == [x] + rest;
      RowsForProductsKeepsOwn(rest, ids, pid);
      assert RowsForProducts(images, ids) == (if x.productId in ids then [x] else []) + RowsForProducts(rest, ids) by {
        assert images[1..] == rest;
      }
      Listing.ImagesOfCons(x, rest, pid);
      if x.productId in ids {
        var r := RowsForProducts(rest, ids);
        assert RowsForProducts(images, ids) == [x] + r;
        Listing.ImagesOfCons(x, r, pid);
        assert Listing.ImagesOf([x] + r, pid) == (if x.productId == pid then [x] else []) + Listing.ImagesOf(rest, pid);
      } else {
        assert RowsForProducts(images, ids) == RowsForProducts(rest, ids);
        assert Listing.ImagesOf(images, pid) == Listing.ImagesOf(rest, pid);
      }
    }
  }

  /** The views of a list of image rows. */
  function ApiImages(bucket: string, region: string, rows: seq<ImageRow>): seq<ApiImage> {
    MapSeq((r: ImageRow) => ApiImageOf(bucket, region, r), rows)
  }

  /** The DTO step: each product of the page with the views of its group (or none). */
  function PageFromGroups(page: seq<ProductRow>, groups: map<nat, seq<ImageRow>>, bucket: string, region: string)
    : seq<ApiProduct>
  {
    seq(|page|, i requires 0 <= i < |page| =>
      ApiProductOf(page[i], ApiImages(bucket, region, Listing.GroupOrEmpty(groups, page[i].id))))
  }

  /** Grouping the rows fetched for the page's products gives every product of the page its own rows. */
  lemma GroupsGivePageData(page: seq<ProductRow>, images: seq<ImageRow>, ids: seq<nat>,
                           groups: map<nat, seq<ImageRow>>, bucket: string, region: string)
    requires forall i :: 0 <= i < |page| ==> page[i].id in ids
    requires forall pid :: Listing.GroupOrEmpty(groups, pid) == Listing.ImagesOf(RowsForProducts(images, ids), pid)
    ensures PageFromGroups(page, groups, bucket, region) == PageData(page, images, bucket, region)
  {
    forall i | 0 <= i < |page|
      ensures PageFromGroups(page, groups, bucket, region)[i] == PageData(page, images, bucket, region)[i]
    {
      RowsForProductsKeepsOwn(images, ids, page[i].id);
    }
  }

  /**
   * GET /api/products over the product rows in `created_at` descending order
   * and the image rows in `ordering` ascending order, as the two queries
   * return them. A negative limit makes the query fail (500). An empty page
   * answers `[]` without the image query. `queried` tells whether the image
   * query ran.
   */
  method Get(products: seq<ProductRow>, images: seq<ImageRow>, limitParam: Option<int>, pageParam: Option<int>,
             bucket: string, region: string)
    returns (resp: GetResponse, queried: bool)
    ensures Limit(limitParam) < 0 ==> resp == GetServerError && !queried
    ensures Limit(limitParam) >= 0 ==>
              var page := PageOf(products, (PageNumber(pageParam) - 1) * Limit(limitParam), Limit(limitParam));
              && (queried <==> |page| > 0)
              && resp == Data(PageData(page, images, bucket, region))
  {
    var limit := Limit(limitParam);
    var pageNo := PageNumber(pageParam);
    if limit < 0 {
      return GetServerError, false;
    }
    var offset := (pageNo - 1) * limit;
    var page := PageOf(products, offset, limit);
    if |page| == 0 {
      return Data([]), false;
    }
    var data := FetchPage(page, images, bucket, region);
    return Data(data), true;
  }

  /** The image query for a non-empty page and the DTO step: one query over the page's ids, grouped by product. */
  method FetchPage(page: seq<ProductRow>, images: seq<ImageRow>, bucket: string, region: string)
    returns (data: seq<ApiProduct>)
    ensures data == PageData(page, images, bucket, region)
  {
    var ids := seq(|page|, i requires 0 <= i < |page| => page[i].id);
    var fetched := RowsForProducts(images, ids);
    var view := (r: ImageRow) => r;
    var groups := Listing.GroupBy(fetched, view);
    assert forall i :: 0 <= i < |page| ==> ids[i] == page[i].id;
    forall pid ensures Listing.GroupOrEmpty(groups, pid) == Listing.ImagesOf(fetched, pid) {
      MapIdentity(view, Listing.ImagesOf(fetched, pid));
    }
    GroupsGivePageData(page, images, ids, groups, bucket, region);
    data := PageFromGroups(page, groups, bucket, region);
  }

  /** Each product of a page carries exactly the rows referencing it, in the order read; a row's url is
      its own url, else the public URL of its key when the key is non-empty, else none. */
  lemma PageDataShape(page: seq<ProductRow>, images: seq<ImageRow>, bucket: string, region: string)
    ensures var data := PageData(page, images, bucket, region);
            && |data| == |page|
            && forall i :: 0 <= i < |page| ==>
                 var own := Listing.ImagesOf(images, page[i].id);
                 && data[i].id == page[i].id && data[i].description == page[i].description
                 && |data[i].images| == |own|
                 && forall k :: 0 <= k < |own| ==>
                      && own[k].productId == page[i].id
                      && data[i].images[k].id == own[k].id
                      && (own[k].url.Some? ==> data[i].images[k].url == own[k].url)
                      && (own[k].url.None? && |own[k].key| > 0 ==>
                            data[i].images[k].url == Some(UploadUrl.PublicUrl(bucket, region, own[k].key)))
                      && (own[k].url.None? && |own[k].key| == 0 ==> data[i].images[k].url.None?)
  {
  }

  /** A composed URL ends with the row's key. */
  lemma ComposedUrlEndsWithKey(bucket: string, region: string, r: ImageRow)
    requires r.url.None? && |r.key| > 0
    ensures ImageUrl(bucket, region, r).Some?
    ensures var u := ImageUrl(bucket, region, r).value; |u| > |r.key| && u[|u| - |r.key|..] == r.key
  {
  }
}
