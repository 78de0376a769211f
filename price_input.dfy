/**
 * The two create-product forms: the filter applied to every keystroke in the
 * price field and the values the form starts from.
 */
module PriceInput {
  import opened Common
  import opened FormSchema
  import DbSchema

  /** `value.replace(/[^0-9.]/g, "")`: drops every character that is not a digit or a point. */
  function Sanitize(s: string): (r: string)
    ensures forall i :: 0 <= i < |r| ==> IsPriceChar(r[i])
    ensures |r| <= |s|
  {
    if s == [] then []
    else (if IsPriceChar(s[0]) then [s[0]] else []) + Sanitize(s[1..])
  }

  /** What is left keeps its original order. */
  lemma {:induction false} SanitizeIsSubsequence(s: string)
    ensures IsSubsequence(Sanitize(s), s)
  {
    if s != [] {
      SanitizeIsSubsequence(s[1..]);
      if !IsPriceChar(s[0]) {
        assert Sanitize(s) == Sanitize(s[1..]);
        SubsequenceOfTail(Sanitize(s), s);
      }
    }
  }

  /** Nothing but the other characters is removed: every digit and point of the input survives. */
  lemma {:induction false} SanitizeKeepsPriceChars(s: string, c: char)
    requires IsPriceChar(c)
    ensures multiset(Sanitize(s))[c] == multiset(s)[c]
  {
    if s != [] {
      SanitizeKeepsPriceChars(s[1..], c);
      assert s == [s[0]] + s[1..];
      assert multiset(s) == multiset{s[0]} + multiset(s[1..]);
    }
  }

  /** Text that is already clean passes through unchanged. */
  lemma {:induction false} SanitizeKeepsClean(s: string)
    requires forall i :: 0 <= i < |s| ==> IsPriceChar(s[i])
    ensures Sanitize(s) == s
  {
    if s != [] {
      SanitizeKeepsClean(s[1..]);
    }
  }

  /** Filtering twice is filtering once. */
  lemma SanitizeIdempotent(s: string)
    ensures Sanitize(Sanitize(s)) == Sanitize(s)
  {
    SanitizeKeepsClean(Sanitize(s));
  }

  /** A price the schema accepts is never altered by the filter. */
  lemma ValidPriceSurvivesSanitize(price: string)
    requires PricePositive(price)
    ensures Sanitize(price) == price
  {
    SanitizeKeepsClean(price);
  }

  /** The values both create-product forms start from. */
  function DefaultValues(): (f: ProductForm)
    ensures f.currency == DbSchema.DefaultCurrency
    ensures f.images == []
  {
    ProductForm("", Some(""), "", "VND", [])
  }

  /** The untouched form is rejected: name, price and an uploaded image are still missing. */
  lemma DefaultsRejected()
    ensures forall x :: x in Issues(DefaultValues()) <==>
      x in [NameRequired, PriceRequired, PriceNotPositive, ImagesRequired, UploadedImageRequired]
  {
    var f := DefaultValues();
    assert !PricePositive(f.price);
    forall x ensures x in Issues(f) <==> x in [NameRequired, PriceRequired, PriceNotPositive, ImagesRequired, UploadedImageRequired] {
      assert x in Issues(f) <==> Fails(f, x);
    }
  }
}
