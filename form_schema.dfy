/**
 * The validation schema shared by the create-product form and the product
 * creation endpoint: the shape of one uploaded image entry and the rules a
 * product payload must meet.
 */
module FormSchema {
  import opened Common

  datatype Status = Uploading | Done | Error

  /** One image entry as the form and the API see it; every field is optional. */
  datatype UploadedImage = UploadedImage(
    id: Option<string>,
    fileName: Option<string>,
    key: Option<string>,
    url: Option<string>,
    status: Option<Status>,
    progress: Option<int>,
    errorMessage: Option<string>,
    ordering: Option<int>,
    alt: Option<string>,
    isPrimary: Option<bool>)

  datatype ProductForm = ProductForm(
    name: string,
    description: Option<string>,
    price: string,
    currency: string,
    images: seq<UploadedImage>)

  /** One failed rule, in the order the schema checks them. */
  datatype Issue =
    | NameRequired
    | PriceRequired
    | PriceNotPositive
    | CurrencyRequired
    | ImagesRequired
    | ProgressOutOfRange(index: nat)
    | UploadedImageRequired

  const ProgressMax := 100

  /** A missing status counts as done. */
  function EffectiveStatus(img: UploadedImage): Status {
    img.status.GetOr(Done)
  }

  /** An entry that satisfies the "at least one uploaded image" rule: done, with a url or a key. */
  predicate IsUploaded(img: UploadedImage) {
    EffectiveStatus(img) == Done && (Truthy(img.url) || Truthy(img.key))
  }

  /** `progress`, when present, lies in 0..100. */
  predicate ProgressInRange(img: UploadedImage) {
    img.progress.None? || 0 <= img.progress.value <= ProgressMax
  }

  predicate IsPriceChar(c: char) {
    IsDigit(c) || c == '.'
  }

  /**
   * `!isNaN(Number(price)) && Number(price) > 0` on a text of digits and
   * points: it is a number when it has at most one point (and a digit), and
   * that number is positive when some digit is not zero.
   */
  predicate PricePositive(price: string) {
    && (forall i :: 0 <= i < |price| ==> IsPriceChar(price[i]))
    && (forall i, j :: 0 <= i < j < |price| && price[i] == '.' ==> price[j] != '.')
    && (exists i :: 0 <= i < |price| && '1' <= price[i] <= '9')
  }

  /** The price's digits with the point left out: its value times a power of ten. */
  function ScaledDigits(price: string): (d: string)
    ensures AllDigits(d)
  {
    Filter(price, IsDigit)
  }

  /** A string of digits reads as a positive number exactly when one of its digits is not zero. */
  lemma {:induction false} ParsePositiveIff(s: string)
    requires AllDigits(s)
    ensures ParseDigits(s) > 0 <==> exists i :: 0 <= i < |s| && s[i] != '0'
  {
    if s != [] {
      var init := s[..|s| - 1];
      ParsePositiveIff(init);
      if exists i :: 0 <= i < |init| && init[i] != '0' {
        var i :| 0 <= i < |init| && init[i] != '0';
        assert s[i] != '0';
      }
      if exists i :: 0 <= i < |s| && s[i] != '0' {
        var i :| 0 <= i < |s| && s[i] != '0';
        if i < |init| {
          assert init[i] != '0';
        } else {
          assert DigitValue(s[|s| - 1]) > 0;
        }
      }
    }
  }

  /**
   * The positivity rule read as arithmetic: a text of digits and at most one
   * point is a number, and that number is above zero exactly when its digits,
   * read without the point, make a positive integer.
   */
  lemma PricePositiveIsAboveZero(price: string)
    ensures PricePositive(price) <==>
              && (forall i :: 0 <= i < |price| ==> IsPriceChar(price[i]))
              && (forall i, j :: 0 <= i < j < |price| && price[i] == '.' ==> price[j] != '.')
              && ParseDigits(ScaledDigits(price)) > 0
  {
    ParsePositiveIff(ScaledDigits(price));
    NonzeroDigitSurvives(price);
  }

  /** The price has a digit other than zero exactly when its scaled digits do. */
  lemma NonzeroDigitSurvives(price: string)
    ensures (exists i :: 0 <= i < |price| && '1' <= price[i] <= '9') <==>
            (exists j :: 0 <= j < |ScaledDigits(price)| && ScaledDigits(price)[j] != '0')
  {
    var d := ScaledDigits(price);
    if exists i :: 0 <= i < |price| && '1' <= price[i] <= '9' {
      var i :| 0 <= i < |price| && '1' <= price[i] <= '9';
      assert IsDigit(price[i]);
      var j :| 0 <= j < |d| && d[j] == price[i];
      assert d[j] != '0';
    }
    if exists j :: 0 <= j < |d| && d[j] != '0' {
      var j :| 0 <= j < |d| && d[j] != '0';
      var i :| 0 <= i < |price| && price[i] == d[j];
      assert '1' <= price[i] <= '9';
    }
  }

  /** `images.some(isUploaded)`. */
  function AnyUploaded(images: seq<UploadedImage>): (r: bool)
    ensures r <==> exists k :: 0 <= k < |images| && IsUploaded(images[k])
  {
    if images == [] then false else IsUploaded(images[0]) || AnyUploaded(images[1..])
  }

  /** The per-element issues of the images array, indexes counted from `from`. */
  function ProgressIssues(images: seq<UploadedImage>, from: nat): (r: seq<Issue>)
    ensures forall x :: x in r ==> x.ProgressOutOfRange?
  {
    if images == [] then []
    else (if ProgressInRange(images[0]) then [] else [ProgressOutOfRange(from)])
         + ProgressIssues(images[1..], from + 1)
  }

  /** An out-of-range issue is reported for index `k` exactly when that entry's progress is out of range. */
  lemma {:induction false} ProgressIssuesExact(images: seq<UploadedImage>, from: nat, k: nat)
    ensures ProgressOutOfRange(k) in ProgressIssues(images, from) <==>
              from <= k < from + |images| && !ProgressInRange(images[k - from])
  {
    if images != [] {
      ProgressIssuesExact(images[1..], from + 1, k);
      if from < k < from + |images| {
        assert images[1..][k - (from + 1)] == images[k - from];
      }
    }
  }

  /** Every rule of the schema, stated directly. */
  predicate SatisfiesSchema(f: ProductForm) {
    && |f.name| >= 1
    && |f.price| >= 1
    && PricePositive(f.price)
    && |f.currency| >= 1
    && |f.images| >= 1
    && (forall k :: 0 <= k < |f.images| ==> ProgressInRange(f.images[k]))
    && (exists k :: 0 <= k < |f.images| && IsUploaded(f.images[k]))
  }

  /** The rule an issue stands for fails on `f`. */
  predicate Fails(f: ProductForm, x: Issue) {
    match x
    case NameRequired => |f.name| < 1
    case PriceRequired => |f.price| < 1
    case PriceNotPositive => !PricePositive(f.price)
    case CurrencyRequired => |f.currency| < 1
    case ImagesRequired => |f.images| < 1
    case ProgressOutOfRange(k) => k < |f.images| && !ProgressInRange(f.images[k])
    case UploadedImageRequired => !exists k :: 0 <= k < |f.images| && IsUploaded(f.images[k])
  }

  predicate IsFieldIssue(x: Issue) {
    x.NameRequired? || x.PriceRequired? || x.PriceNotPositive? || x.CurrencyRequired?
  }

  /** The issues of the scalar fields. */
  function FieldIssues(f: ProductForm): (r: seq<Issue>)
    ensures forall x :: x in r <==> IsFieldIssue(x) && Fails(f, x)
  {
    (if |f.name| < 1 then [NameRequired] else [])
    + (if |f.price| < 1 then [PriceRequired] else [])
    + (if PricePositive(f.price) then [] else [PriceNotPositive])
    + (if |f.currency| < 1 then [CurrencyRequired] else [])
  }

  /** The issues of the images array: its length, each element, then the refinement. */
  function ImageListIssues(f: ProductForm): (r: seq<Issue>)
    ensures forall x :: x in r <==> !IsFieldIssue(x) && Fails(f, x)
  {
    var images := f.images;
    var head := if |images| < 1 then [ImagesRequired] else [];
    var each := ProgressIssues(images, 0);
    var last := if AnyUploaded(images) then [] else [UploadedImageRequired];
    assert forall x :: x in head + each + last <==> x in head || x in each || x in last;
    assert forall x :: x in each <==> x.ProgressOutOfRange? && Fails(f, x) by {
      forall x ensures x in each <==> x.ProgressOutOfRange? && Fails(f, x) {
        if x.ProgressOutOfRange? {
          ProgressIssuesExact(images, 0, x.index);
        }
      }
    }
    head + each + last
  }

  /** `formCreateProductSchema.safeParse`: the issues found, each rule checked on its own.
      An issue is reported exactly when its rule fails. */
  function Issues(f: ProductForm): (r: seq<Issue>)
    ensures forall x :: x in r <==> Fails(f, x)
  {
    FieldIssues(f) + ImageListIssues(f)
  }

  /** The parse succeeds. */
  predicate Valid(f: ProductForm) {
    Issues(f) == []
  }

  /** The parse succeeds exactly when every rule holds. */
  lemma ValidIff(f: ProductForm)
    ensures Valid(f) <==> SatisfiesSchema(f)
  {
    var r := Issues(f);
    if !Valid(f) {
      assert Fails(f, r[0]);
    }
    if !SatisfiesSchema(f) {
      if |f.name| < 1 { assert NameRequired in r; }
      else if |f.price| < 1 { assert PriceRequired in r; }
      else if !PricePositive(f.price) { assert PriceNotPositive in r; }
      else if |f.currency| < 1 { assert CurrencyRequired in r; }
      else if |f.images| < 1 { assert ImagesRequired in r; }
      else if !exists k :: 0 <= k < |f.images| && IsUploaded(f.images[k]) { assert UploadedImageRequired in r; }
      else {
        var k :| 0 <= k < |f.images| && !ProgressInRange(f.images[k]);
        assert ProgressOutOfRange(k) in r;
      }
    }
  }

  /** A valid payload has an image that is done and carries a non-empty url or key. */
  lemma ValidHasUploadedImage(f: ProductForm)
    requires Valid(f)
    ensures exists k :: 0 <= k < |f.images| && EffectiveStatus(f.images[k]) == Done
                        && (Truthy(f.images[k].url) || Truthy(f.images[k].key))
  {
    ValidIff(f);
  }

  /** Entries still uploading or failed never satisfy the image rule on their own. */
  lemma UnfinishedImagesRejected(f: ProductForm)
    requires forall k :: 0 <= k < |f.images| ==> f.images[k].status == Some(Uploading) || f.images[k].status == Some(Error)
    ensures !Valid(f) && UploadedImageRequired in Issues(f)
  {
    assert Fails(f, UploadedImageRequired);
  }
}
