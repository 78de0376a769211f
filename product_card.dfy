/** The product card's choice of picture: the primary image, else the first, else a placeholder. */
module ProductCard {
  import opened Common
  import opened Listing

  const Placeholder := "/icon/empty_product.png"

  /** `images.find(i => i.is_primary)`: the index of the first primary image, if any. */
  function FirstPrimary(images: seq<CardImage>): (r: Option<nat>)
    ensures r.Some? ==> r.value < |images| && images[r.value].isPrimary
                        && forall j :: 0 <= j < r.value ==> !images[j].isPrimary
    ensures r.None? ==> forall j :: 0 <= j < |images| ==> !images[j].isPrimary
  {
    if images == [] then None
    else if images[0].isPrimary then Some(0)
    else match FirstPrimary(images[1..])
         case None => None
         case Some(j) => Some(j + 1)
  }

  /** `find(...) ?? images[0]`. */
  function ChosenImage(images: seq<CardImage>): (c: Option<CardImage>)
    ensures c.None? <==> images == []
    ensures c.Some? ==> c.value in images
  {
    match FirstPrimary(images)
    case Some(j) => Some(images[j])
    case None => if images == [] then None else Some(images[0])
  }

  /** `img?.url ?? placeholder`. */
  function Src(images: seq<CardImage>): (src: string)
    ensures images == [] ==> src == Placeholder
    ensures src == Placeholder || exists k :: 0 <= k < |images| && images[k].url == Some(src)
  {
    match ChosenImage(images)
    case Some(img) => img.url.GetOr(Placeholder)
    case None => Placeholder
  }

  /** The chosen image is the first primary one; with none primary it is the first image; with no image there is none. */
  lemma ChosenIsFirstPrimaryElseFirst(images: seq<CardImage>)
    ensures images == [] <==> ChosenImage(images).None?
    ensures forall j :: 0 <= j < |images| && images[j].isPrimary ==>
              (forall i :: 0 <= i < j ==> !images[i].isPrimary) ==> ChosenImage(images) == Some(images[j])
    ensures images != [] && (forall j :: 0 <= j < |images| ==> !images[j].isPrimary) ==>
              ChosenImage(images) == Some(images[0])
  {
    var r := FirstPrimary(images);
    forall j | 0 <= j < |images| && images[j].isPrimary && (forall i :: 0 <= i < j ==> !images[i].isPrimary)
      ensures ChosenImage(images) == Some(images[j])
    {
      assert r.Some?;
      assert !(r.value < j) && !(j < r.value);
    }
  }

  /** The picture is the chosen image's url when it has one, and the placeholder otherwise;
      an empty url is kept, not replaced. */
  lemma SrcFallback(images: seq<CardImage>)
    ensures images == [] ==> Src(images) == Placeholder
    ensures ChosenImage(images).Some? && ChosenImage(images).value.url.None? ==> Src(images) == Placeholder
    ensures ChosenImage(images).Some? && ChosenImage(images).value.url.Some? ==>
              Src(images) == ChosenImage(images).value.url.value
  {
    ChosenIsFirstPrimaryElseFirst(images);
  }
}
