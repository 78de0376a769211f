/**
 * The two database tables behind the product catalogue: the `product` table
 * and the `product_images` table, with their column bounds, their defaults,
 * the foreign key from an image to its product (cascade delete) and what an
 * insert writes.
 */
module DbSchema {
  import opened Common

  // Column bounds and defaults.
  const NameMaxLength := 255
  const CurrencyMaxLength := 10
  const KeyMaxLength := 1024
  const AltMaxLength := 255
  const MimeMaxLength := 100
  /** `numeric(12, 2)`: twelve significant digits, two of them after the point. */
  const PricePrecision := 12
  const PriceScale := 2
  const DefaultCurrency := "VND"
  const DefaultOrdering := 0
  const DefaultIsPrimary := false

  /** A row of `product`. `price` keeps the decimal text the API received. */
  datatype ProductRow = ProductRow(
    id: nat,
    name: string,
    description: Option<string>,
    price: string,
    currency: string,
    createdAt: nat)

  /** A row of `product_images`. */
  datatype ImageRow = ImageRow(
    id: nat,
    productId: nat,
    key: string,
    url: Option<string>,
    alt: Option<string>,
    mime: Option<string>,
    ordering: int,
    isPrimary: bool,
    createdAt: nat)

  /** The values an insert into `product` supplies; `None` leaves the column to its default. */
  datatype ProductInsert = ProductInsert(
    name: string,
    description: Option<string>,
    price: string,
    currency: Option<string>)

  /** The values an insert into `product_images` supplies; `None` leaves the column to its default. */
  datatype ImageInsert = ImageInsert(
    productId: nat,
    key: string,
    url: Option<string>,
    alt: Option<string>,
    mime: Option<string>,
    ordering: Option<int>,
    isPrimary: Option<bool>)

  /** The row an insert produces, the serial id and `now()` supplied by the engine. */
  function ProductRowOf(id: nat, ins: ProductInsert, now: nat): ProductRow {
    ProductRow(id, ins.name, ins.description, ins.price, ins.currency.GetOr(DefaultCurrency), now)
  }

  function ImageRowOf(id: nat, ins: ImageInsert, now: nat): ImageRow {
    ImageRow(id, ins.productId, ins.key, ins.url, ins.alt, ins.mime,
             ins.ordering.GetOr(DefaultOrdering), ins.isPrimary.GetOr(DefaultIsPrimary), now)
  }

  /** An insert that leaves out currency gets "VND"; the other columns are what was supplied. */
  lemma ProductDefaults(id: nat, name: string, price: string, now: nat)
    ensures ProductRowOf(id, ProductInsert(name, None, price, None), now)
         == ProductRow(id, name, None, price, "VND", now)
  {
  }

  /** An insert that supplies only product, key and url gets no alt, no mime, ordering 0 and is not primary. */
  lemma ImageDefaults(id: nat, productId: nat, key: string, url: Option<string>, now: nat)
    ensures var row := ImageRowOf(id, ImageInsert(productId, key, url, None, None, None, None), now);
            row.alt.None? && row.mime.None? && row.ordering == 0 && !row.isPrimary
            && row.productId == productId && row.key == key && row.url == url
  {
  }

  // ---- Bounds -------------------------------------------------------------

  /** The digits of a decimal text before its point. */
  function IntegerPart(s: string): (r: string)
    ensures |r| <= |s| && r == s[..|r|]
    ensures '.' !in r
  {
    if s == [] || s[0] == '.' then [] else [s[0]] + IntegerPart(s[1..])
  }

  function StripLeadingZeros(s: string): (r: string)
    ensures |r| <= |s| && r == s[|s| - |r|..]
    ensures r != [] ==> r[0] != '0'
  {
    if s != [] && s[0] == '0' then StripLeadingZeros(s[1..]) else s
  }

  /** A `numeric(12, 2)` column holds at most ten digits before the point. */
  predicate PriceFits(price: string) {
    |StripLeadingZeros(IntegerPart(price))| <= PricePrecision - PriceScale
  }

  predicate OptionalFits(s: Option<string>, bound: nat) {
    s.None? || |s.value| <= bound
  }

  /** The column constraints a product row must meet to be written. */
  predicate ProductFits(row: ProductRow) {
    |row.name| <= NameMaxLength && |row.currency| <= CurrencyMaxLength && PriceFits(row.price)
  }

  /** The column constraints an image row must meet to be written. */
  predicate ImageFits(row: ImageRow) {
    |row.key| <= KeyMaxLength && OptionalFits(row.alt, AltMaxLength) && OptionalFits(row.mime, MimeMaxLength)
  }

  // ---- The two tables -----------------------------------------------------

  /** Both tables with the next value of each serial id. */
  datatype Tables = Tables(
    products: seq<ProductRow>,
    images: seq<ImageRow>,
    nextProductId: nat,
    nextImageId: nat)

  const EmptyTables := Tables([], [], 1, 1)

  function ProductIds(t: Tables): set<nat> {
    set p | p in t.products :: p.id
  }

  /** Serial primary keys: positive, below the next value, distinct. */
  ghost predicate SerialProductIds(products: seq<ProductRow>, next: nat) {
    && (forall i :: 0 <= i < |products| ==> 1 <= products[i].id < next)
    && (forall i, j :: 0 <= i < j < |products| ==> products[i].id != products[j].id)
  }

  ghost predicate SerialImageIds(images: seq<ImageRow>, next: nat) {
    && (forall i :: 0 <= i < |images| ==> 1 <= images[i].id < next)
    && (forall i, j :: 0 <= i < j < |images| ==> images[i].id != images[j].id)
  }

  /** Every image references an existing product (the foreign key). */
  ghost predicate ImagesReferenceProducts(t: Tables) {
    forall i :: 0 <= i < |t.images| ==> t.images[i].productId in ProductIds(t)
  }

  /** Every row meets its column bounds. */
  ghost predicate RowsFit(t: Tables) {
    && (forall i :: 0 <= i < |t.products| ==> ProductFits(t.products[i]))
    && (forall i :: 0 <= i < |t.images| ==> ImageFits(t.images[i]))
  }

  /** What the database guarantees of its two tables at all times. */
  ghost predicate Consistent(t: Tables) {
    && t.nextProductId >= 1 && t.nextImageId >= 1
    && SerialProductIds(t.products, t.nextProductId)
    && SerialImageIds(t.images, t.nextImageId)
    && RowsFit(t)
    && ImagesReferenceProducts(t)
  }

  lemma EmptyTablesConsistent()
    ensures Consistent(EmptyTables)
  {
  }

  /** The rows a multi-row insert into `product_images` writes, ids counting up from `firstId`. */
  function ImageRowsOf(firstId: nat, inserts: seq<ImageInsert>, now: nat): (rows: seq<ImageRow>)
    ensures |rows| == |inserts|
    ensures forall k :: 0 <= k < |rows| ==> rows[k] == ImageRowOf(firstId + k, inserts[k], now)
    decreases |inserts|
  {
    if inserts == [] then []
    else [ImageRowOf(firstId, inserts[0], now)] + ImageRowsOf(firstId + 1, inserts[1..], now)
  }

  /** `INSERT INTO product`: appends the row and advances the serial. */
  function InsertProduct(t: Tables, ins: ProductInsert, now: nat): Tables {
    t.(products := t.products + [ProductRowOf(t.nextProductId, ins, now)],
       nextProductId := t.nextProductId + 1)
  }

  /** `INSERT INTO product_images` of several rows at once. */
  function InsertImages(t: Tables, inserts: seq<ImageInsert>, now: nat): Tables {
    t.(images := t.images + ImageRowsOf(t.nextImageId, inserts, now),
       nextImageId := t.nextImageId + |inserts|)
  }

  /** A product insert that meets the column bounds keeps the tables consistent. */
  lemma InsertProductConsistent(t: Tables, ins: ProductInsert, now: nat)
    requires Consistent(t)
    requires ProductFits(ProductRowOf(t.nextProductId, ins, now))
    ensures Consistent(InsertProduct(t, ins, now))
    ensures ProductIds(InsertProduct(t, ins, now)) == ProductIds(t) + {t.nextProductId}
  {
    var t' := InsertProduct(t, ins, now);
    var row := ProductRowOf(t.nextProductId, ins, now);
    var ps := t'.products;
    assert ps == t.products + [row];
    assert ProductIds(t') == ProductIds(t) + {t.nextProductId} by {
      assert forall p :: p in ps <==> p in t.products || p == row;
    }
    forall i | 0 <= i < |ps| ensures 1 <= ps[i].id < t'.nextProductId && ProductFits(ps[i]) {
      if i < |t.products| {
        assert ps[i] == t.products[i];
      }
    }
    forall i, j | 0 <= i < j < |ps| ensures ps[i].id != ps[j].id {
      if j < |t.products| {
        assert ps[i] == t.products[i] && ps[j] == t.products[j];
      } else {
        assert ps[i] == t.products[i];
      }
    }
    assert t'.images == t.images;
  }

  /** An image insert whose rows fit and reference existing products keeps the tables consistent. */
  lemma InsertImagesConsistent(t: Tables, inserts: seq<ImageInsert>, now: nat)
    requires Consistent(t)
    requires forall k :: 0 <= k < |inserts| ==> inserts[k].productId in ProductIds(t)
    requires forall k :: 0 <= k < |inserts| ==> ImageFits(ImageRowOf(t.nextImageId + k, inserts[k], now))
    ensures Consistent(InsertImages(t, inserts, now))
  {
    var t' := InsertImages(t, inserts, now);
    assert ProductIds(t') == ProductIds(t);
    AppendedImageRows(t.images, t.nextImageId, ProductIds(t), inserts, now);
    assert RowsFit(t');
  }

  /** The facts about each row of `images` followed by a multi-row insert. */
  lemma AppendedImageRows(images: seq<ImageRow>, next: nat, ids: set<nat>, inserts: seq<ImageInsert>, now: nat)
    requires next >= 1 && SerialImageIds(images, next)
    requires forall i :: 0 <= i < |images| ==> ImageFits(images[i]) && images[i].productId in ids
    requires forall k :: 0 <= k < |inserts| ==> inserts[k].productId in ids
    requires forall k :: 0 <= k < |inserts| ==> ImageFits(ImageRowOf(next + k, inserts[k], now))
    ensures var all := images + ImageRowsOf(next, inserts, now);
            && SerialImageIds(all, next + |inserts|)
            && forall i :: 0 <= i < |all| ==> ImageFits(all[i]) && all[i].productId in ids
  {
    var rows := ImageRowsOf(next, inserts, now);
    var all := images + rows;
    var n := |images|;
    forall i | 0 <= i < |all|
      ensures 1 <= all[i].id < next + |inserts|
      ensures ImageFits(all[i]) && all[i].productId in ids
      ensures i >= n ==> all[i].id == next + (i - n)
    {
      if i >= n {
        assert all[i] == rows[i - n];
      } else {
        assert all[i] == images[i];
      }
    }
    forall i, j | 0 <= i < j < |all| ensures all[i].id != all[j].id {
      if j < n {
        assert all[i] == images[i] && all[j] == images[j];
      }
    }
  }

  function ProductKept(id: nat): ProductRow -> bool {
    (p: ProductRow) => p.id != id
  }

  function ImageKept(id: nat): ImageRow -> bool {
    (img: ImageRow) => img.productId != id
  }

  /** Deleting a product cascades: its images go with it. */
  function DeleteProduct(t: Tables, id: nat): (r: Tables)
    ensures id !in ProductIds(r)
    ensures forall i :: 0 <= i < |r.images| ==> r.images[i].productId != id
    ensures forall p :: p in t.products && p.id != id ==> p in r.products
    ensures forall img :: img in t.images && img.productId != id ==> img in r.images
    ensures IsSubsequence(r.products, t.products) && IsSubsequence(r.images, t.images)
    ensures r.nextProductId == t.nextProductId && r.nextImageId == t.nextImageId
  {
    FilterIsSubsequence(t.products, ProductKept(id));
    FilterIsSubsequence(t.images, ImageKept(id));
    t.(products := Filter(t.products, ProductKept(id)),
       images := Filter(t.images, ImageKept(id)))
  }

  /** The cascade never leaves an image pointing at a deleted product. */
  lemma DeleteProductConsistent(t: Tables, id: nat)
    requires Consistent(t)
    ensures Consistent(DeleteProduct(t, id))
  {
    var r := DeleteProduct(t, id);
    FilterKeepsSerialProducts(t.products, t.nextProductId, ProductKept(id));
    FilterKeepsSerialImages(t.images, t.nextImageId, ImageKept(id));
    DeleteKeepsReferences(t, id);
    DeleteKeepsFit(t, id);
  }

  lemma DeleteKeepsFit(t: Tables, id: nat)
    requires RowsFit(t)
    ensures RowsFit(DeleteProduct(t, id))
  {
    FilterKeepsProperty(t.products, ProductKept(id), ProductFits);
    FilterKeepsProperty(t.images, ImageKept(id), ImageFits);
  }

  lemma DeleteKeepsReferences(t: Tables, id: nat)
    requires ImagesReferenceProducts(t)
    ensures ImagesReferenceProducts(DeleteProduct(t, id))
  {
    var r := DeleteProduct(t, id);
    forall i | 0 <= i < |r.images| ensures r.images[i].productId in ProductIds(r) {
      var img := r.images[i];
      var j :| 0 <= j < |t.images| && t.images[j] == img;
      var p :| p in t.products && p.id == img.productId;
      assert p in r.products;
    }
  }

  lemma FilterKeepsSerialProducts(products: seq<ProductRow>, next: nat, keep: ProductRow -> bool)
    requires SerialProductIds(products, next)
    ensures SerialProductIds(Filter(products, keep), next)
  {
    var key := (p: ProductRow) => p.id;
    var f := Filter(products, keep);
    assert DistinctKeys(products, key) by {
      forall a, b | 0 <= a < b < |products| ensures key(products[a]) != key(products[b]) { }
    }
    FilterKeepsDistinct(products, key, keep);
    forall i | 0 <= i < |f| ensures 1 <= f[i].id < next {
      var j :| 0 <= j < |products| && products[j] == f[i];
    }
    forall a, b | 0 <= a < b < |f| ensures f[a].id != f[b].id {
      assert key(f[a]) != key(f[b]);
    }
  }

  lemma FilterKeepsSerialImages(images: seq<ImageRow>, next: nat, keep: ImageRow -> bool)
    requires SerialImageIds(images, next)
    ensures SerialImageIds(Filter(images, keep), next)
  {
    var key := (img: ImageRow) => img.id;
    var f := Filter(images, keep);
    assert DistinctKeys(images, key) by {
      forall a, b | 0 <= a < b < |images| ensures key(images[a]) != key(images[b]) { }
    }
    FilterKeepsDistinct(images, key, keep);
    forall i | 0 <= i < |f| ensures 1 <= f[i].id < next {
      var j :| 0 <= j < |images| && images[j] == f[i];
    }
    forall a, b | 0 <= a < b < |f| ensures f[a].id != f[b].id {
      assert key(f[a]) != key(f[b]);
    }
  }
}
