/**
 * The home page's product listing: every product with the images that
 * reference it, grouped by product id in one pass over the image rows.
 */
module Listing {
  import opened Common
  import opened DbSchema

  /** The image rows of product `pid`, in the order they were read. */
  function ImagesOf(rows: seq<ImageRow>, pid: nat): seq<ImageRow> {
    Filter(rows, (r: ImageRow) => r.productId == pid)
  }

  lemma ImagesOfCons(x: ImageRow, rest: seq<ImageRow>, pid: nat)
    ensures ImagesOf([x] + rest, pid) == (if x.productId == pid then [x] else []) + ImagesOf(rest, pid)
  {
    assert ([x] + rest)[1..] == rest;
  }

  /** `imagesByProduct[pid] ?? []`. */
  function GroupOrEmpty<T>(groups: map<nat, seq<T>>, pid: nat): seq<T> {
    if pid in groups then groups[pid] else []
  }

  /**
   * The grouping loop: for each row in order, creates the group of its
   * product id when missing and pushes the row's view onto it.
   */
  method GroupBy<T>(rows: seq<ImageRow>, view: ImageRow -> T) returns (groups: map<nat, seq<T>>)
    ensures forall pid :: pid in groups <==> exists k :: 0 <= k < |rows| && rows[k].productId == pid
    ensures forall pid :: GroupOrEmpty(groups, pid) == MapSeq(view, ImagesOf(rows, pid))
  {
    groups := map[];
    var i := 0;
    while i < |rows|
      invariant 0 <= i <= |rows|
      invariant forall pid :: pid in groups <==> exists k :: 0 <= k < i && rows[k].productId == pid
      invariant forall pid :: GroupOrEmpty(groups, pid) == MapSeq(view, ImagesOf(rows[..i], pid))
    {
      var row := rows[i];
      var pid := row.productId;
      if pid !in groups {
        groups := groups[pid := []];
      }
      groups := groups[pid := groups[pid] + [view(row)]];
      forall q ensures GroupOrEmpty(groups, q) == MapSeq(view, ImagesOf(rows[..i + 1], q)) {
        GroupStep(rows, i, q, view);
      }
      i := i + 1;
    }
    assert rows[..i] == rows;
  }

  /** One more row extends exactly the group of its own product id. */
  lemma GroupStep<T>(rows: seq<ImageRow>, i: nat, q: nat, view: ImageRow -> T)
    requires i < |rows|
    ensures MapSeq(view, ImagesOf(rows[..i + 1], q))
         == MapSeq(view, ImagesOf(rows[..i], q)) + (if rows[i].productId == q then [view(rows[i])] else [])
  {
    assert rows[..i + 1] == rows[..i] + [rows[i]];
    FilterSnoc(rows[..i], rows[i], (r: ImageRow) => r.productId == q);
  }

  /** The image fields the listing keeps; a missing url stays missing. */
  datatype CardImage = CardImage(id: nat, key: string, url: Option<string>, ordering: int, isPrimary: bool)

  /** A product as the listing hands it to the cards. */
  datatype ProductDto = ProductDto(
    id: nat,
    name: string,
    description: Option<string>,
    price: string,
    currency: string,
    createdAt: nat,
    images: seq<CardImage>)

  function CardImageOf(r: ImageRow): CardImage {
    CardImage(r.id, r.key, r.url, r.ordering, r.isPrimary)
  }

  function DtoOf(p: ProductRow, images: seq<CardImage>): ProductDto {
    ProductDto(p.id, p.name, p.description, p.price, p.currency, p.createdAt, images)
  }

  /** What the listing shows: each product, in order, with the views of its own image rows. */
  function ListingOf(products: seq<ProductRow>, images: seq<ImageRow>): seq<ProductDto> {
    seq(|products|, i requires 0 <= i < |products| =>
      DtoOf(products[i], MapSeq(CardImageOf, ImagesOf(images, products[i].id))))
  }

  /**
   * Reads the product table, reads the image table only when there is a
   * product, groups the images and maps every product to its DTO. `fetched`
   * tells whether the image table was read.
   */
  method BuildListing(t: Tables) returns (data: seq<ProductDto>, fetched: bool)
    ensures fetched <==> |t.products| > 0
    ensures data == ListingOf(t.products, t.images)
  {
    var products := t.products;
    fetched := |products| > 0;
    var images := if fetched then t.images else [];
    var groups := GroupBy(images, CardImageOf);
    data := seq(|products|, i requires 0 <= i < |products| => DtoOf(products[i], GroupOrEmpty(groups, products[i].id)));
  }

  /** One DTO per product, same order; each keeps its product's fields, a missing description stays missing,
      and its images are the views of exactly the rows referencing it, in the order read. */
  lemma ListingShape(products: seq<ProductRow>, images: seq<ImageRow>)
    ensures var data := ListingOf(products, images);
            && |data| == |products|
            && forall i :: 0 <= i < |products| ==>
                 && data[i].id == products[i].id && data[i].name == products[i].name
                 && data[i].description == products[i].description
                 && data[i].price == products[i].price && data[i].currency == products[i].currency
                 && |data[i].images| == |ImagesOf(images, products[i].id)|
                 && forall k :: 0 <= k < |data[i].images| ==>
                      data[i].images[k] == CardImageOf(ImagesOf(images, products[i].id)[k])
                      && ImagesOf(images, products[i].id)[k].productId == products[i].id
  {
  }

  /** Every image row appears in the group of the product it references, with its url untouched. */
  lemma ImageLandsInItsGroup(products: seq<ProductRow>, images: seq<ImageRow>, i: nat, k: nat)
    requires i < |products| && k < |images| && images[k].productId == products[i].id
    ensures CardImageOf(images[k]) in ListingOf(products, images)[i].images
    ensures CardImageOf(images[k]).url == images[k].url
  {
    var own := ImagesOf(images, products[i].id);
    assert images[k] in own;
    var j :| 0 <= j < |own| && own[j] == images[k];
    assert ListingOf(products, images)[i].images[j] == CardImageOf(images[k]);
  }

  /** A product no image row references gets an empty image list. */
  lemma {:induction false} UnreferencedProductHasNoImages(products: seq<ProductRow>, images: seq<ImageRow>, i: nat)
    requires i < |products|
    requires forall k :: 0 <= k < |images| ==> images[k].productId != products[i].id
    ensures ListingOf(products, images)[i].images == []
  {
    NoMatchFiltersToEmpty(images, products[i].id);
  }

  lemma {:induction false} NoMatchFiltersToEmpty(images: seq<ImageRow>, pid: nat)
    requires forall k :: 0 <= k < |images| ==> images[k].productId != pid
    ensures ImagesOf(images, pid) == []
  {
    if images != [] {
      NoMatchFiltersToEmpty(images[1..], pid);
    }
  }
}
