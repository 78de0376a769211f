/**
 * The signed-upload-URL endpoint: for every file described in the request it
 * builds an object key `products/<time>-<12 hex>-<index><extension>`, asks the
 * object store's presigner for a PUT URL valid 60 seconds, and derives the
 * public URL of the object.
 */
module UploadUrl {
  import opened Common

  const KeyPrefix := "products/"
  const SignedUrlExpirySeconds := 60
  const FailureMessage := "Error creating upload URLs"
  const HexDigits := "0123456789abcdef"

  type Byte = b: int | 0 <= b < 256

  /** The six bytes of `crypto.randomBytes(6)`. */
  type RandomBytes = s: seq<Byte> | |s| == 6 witness [0, 0, 0, 0, 0, 0]

  datatype FileMeta = FileMeta(name: string, mimeType: string)

  /** The parsed request body; `Malformed` when it is not JSON. */
  datatype Request = Malformed | Body(filesMeta: Option<seq<FileMeta>>)

  /** The `PutObjectCommand` handed to the presigner, with its expiry. */
  datatype SignRequest = SignRequest(bucket: string, key: string, contentType: string, expiresIn: nat)

  datatype UploadTarget = UploadTarget(key: string, uploadUrl: string, publicUrl: string)

  /** `{ ok: true, results }`, or the 500 answer `{ ok: false, message }`. */
  datatype Response = Issued(results: seq<UploadTarget>) | Failed(message: string)

  /**
   * What the handler takes from outside: the bucket and region settings, the
   * clock reading and the random bytes used for the file at each index, and
   * the presigner (`None` when it throws).
   */
  datatype Env = Env(
    bucket: string,
    region: string,
    clock: nat -> nat,
    random: nat -> RandomBytes,
    sign: SignRequest -> Option<string>)

  // ---- Extension ----------------------------------------------------------

  predicate IsStop(c: char) {
    c == '/' || c == '.'
  }

  /** `/\.[^/.]+$/` matches at `i`: a point, then at least one character, none a slash or a point, to the end. */
  predicate MatchesAt(name: string, i: int) {
    0 <= i < |name| - 1 && name[i] == '.' && forall j :: i < j < |name| ==> !IsStop(name[j])
  }

  /** The index of the last slash or point in `name[..k]`, or -1. */
  function LastStop(name: string, k: nat): (p: int)
    requires k <= |name|
    ensures -1 <= p < k
    ensures p >= 0 ==> IsStop(name[p])
    ensures forall j :: p < j < k ==> !IsStop(name[j])
  {
    if k == 0 then -1
    else if IsStop(name[k - 1]) then k - 1
    else LastStop(name, k - 1)
  }

  /** At most one position matches. */
  lemma MatchUnique(name: string, i: int, j: int)
    requires MatchesAt(name, i) && MatchesAt(name, j)
    ensures i == j
  {
  }

  /** `(name.match(/\.[^/.]+$/) || [""])[0]`. */
  function Extension(name: string): (ext: string)
    ensures ext == [] <==> forall i :: !MatchesAt(name, i)
    ensures ext != [] ==> exists i :: MatchesAt(name, i) && ext == name[i..]
  {
    var p := LastStop(name, |name|);
    if p >= 0 && name[p] == '.' && p < |name| - 1 then
      assert MatchesAt(name, p);
      name[p..]
    else
      assert forall i :: MatchesAt(name, i) ==> i <= p && p <= i;
      []
  }

  /** A non-empty extension starts with its point and holds no other point or slash. */
  lemma ExtensionShape(name: string)
    ensures var ext := Extension(name);
            ext == [] || (|ext| >= 2 && ext[0] == '.' && forall j :: 0 < j < |ext| ==> !IsStop(ext[j]))
  {
    var ext := Extension(name);
    if ext != [] {
      var i :| MatchesAt(name, i) && ext == name[i..];
      assert forall j :: 0 < j < |ext| ==> ext[j] == name[i + j];
    }
  }

  // ---- Key ----------------------------------------------------------------

  function HexByte(b: Byte): (h: string)
    ensures |h| == 2 && h[0] in HexDigits && h[1] in HexDigits
  {
    [HexDigits[b / 16], HexDigits[b % 16]]
  }

  /** `buffer.toString("hex")`: two lower-case hex digits per byte. */
  function Hex(bytes: seq<Byte>): (h: string)
    ensures |h| == 2 * |bytes|
    ensures forall i :: 0 <= i < |h| ==> h[i] in HexDigits
  {
    if bytes == [] then [] else HexByte(bytes[0]) + Hex(bytes[1..])
  }

  /** `products/${Date.now()}-${hex}-${idx}${ext}`. */
  function ObjectKey(now: nat, random: RandomBytes, index: nat, ext: string): (key: string)
    ensures StartsWith(key, KeyPrefix)
    ensures |key| >= |ext| && key[|key| - |ext|..] == ext
  {
    KeyPrefix + DecimalString(now) + "-" + Hex(random) + "-" + DecimalString(index) + ext
  }

  /** The text after the first dash, or "" when there is none. */
  function AfterDash(s: string): (r: string)
    ensures |r| <= |s|
  {
    if s == [] then [] else if s[0] == '-' then s[1..] else AfterDash(s[1..])
  }

  /** The longest prefix made of decimal digits. */
  function LeadingDigits(s: string): (r: string)
    ensures AllDigits(r)
  {
    if s != [] && IsDigit(s[0]) then [s[0]] + LeadingDigits(s[1..]) else []
  }

  /** Reads the index back out of a key: the digits after the second dash. */
  function KeyIndex(key: string): nat {
    ParseDigits(LeadingDigits(AfterDash(AfterDash(key))))
  }

  lemma {:induction false} AfterDashSplit(a: string, b: string)
    requires '-' !in a
    ensures AfterDash(a + "-" + b) == b
  {
    if a != [] {
      assert (a + "-" + b)[1..] == a[1..] + "-" + b;
      AfterDashSplit(a[1..], b);
    }
  }

  lemma {:induction false} LeadingDigitsSplit(d: string, rest: string)
    requires AllDigits(d)
    requires rest == [] || !IsDigit(rest[0])
    ensures LeadingDigits(d + rest) == d
  {
    if d != [] {
      assert (d + rest)[1..] == d[1..] + rest;
      LeadingDigitsSplit(d[1..], rest);
    }
  }

  lemma NoDashBeforeFirstSeparator(now: nat)
    ensures '-' !in KeyPrefix + DecimalString(now)
  {
    var head := KeyPrefix + DecimalString(now);
    assert forall i :: 0 <= i < |DecimalString(now)| ==> head[|KeyPrefix| + i] == DecimalString(now)[i];
  }

  lemma ObjectKeyParts(now: nat, random: RandomBytes, index: nat, ext: string)
    ensures ObjectKey(now, random, index, ext)
         == (KeyPrefix + DecimalString(now)) + "-" + (Hex(random) + "-" + (DecimalString(index) + ext))
  {
  }

  /** The index written into a key is the index read back from it. */
  lemma KeyIndexRoundTrip(now: nat, random: RandomBytes, index: nat, name: string)
    ensures KeyIndex(ObjectKey(now, random, index, Extension(name))) == index
  {
    var ext := Extension(name);
    var head := KeyPrefix + DecimalString(now);
    var hex := Hex(random);
    var tail := DecimalString(index) + ext;
    NoDashBeforeFirstSeparator(now);
    assert '-' !in hex;
    ObjectKeyParts(now, random, index, ext);
    AfterDashSplit(head, hex + "-" + tail);
    AfterDashSplit(hex, tail);
    ExtensionShape(name);
    LeadingDigitsSplit(DecimalString(index), ext);
    ParseDecimalString(index);
  }

  /** Keys built for different indexes differ, whatever the clock and the random bytes. */
  lemma DistinctIndexesDistinctKeys(now1: nat, random1: RandomBytes, i: nat, name1: string,
                                    now2: nat, random2: RandomBytes, j: nat, name2: string)
    requires i != j
    ensures ObjectKey(now1, random1, i, Extension(name1)) != ObjectKey(now2, random2, j, Extension(name2))
  {
    KeyIndexRoundTrip(now1, random1, i, name1);
    KeyIndexRoundTrip(now2, random2, j, name2);
  }

  /** Right after the first dash of a key come the twelve lower-case hex digits of its random bytes, then a dash. */
  lemma RandomPartIsTwelveHex(now: nat, random: RandomBytes, index: nat, ext: string)
    ensures var rest := AfterDash(ObjectKey(now, random, index, ext));
            && |rest| > 12 && rest[..12] == Hex(random) && rest[12] == '-'
            && forall i :: 0 <= i < 12 ==> rest[i] in HexDigits
  {
    var hex := Hex(random);
    var tail := DecimalString(index) + ext;
    NoDashBeforeFirstSeparator(now);
    ObjectKeyParts(now, random, index, ext);
    AfterDashSplit(KeyPrefix + DecimalString(now), hex + "-" + tail);
    assert (hex + "-" + tail)[..12] == hex;
  }

  /** `https://${bucket}.s3.${region}.amazonaws.com/${key}`. */
  function PublicUrl(bucket: string, region: string, key: string): (url: string)
    ensures StartsWith(url, "https://")
    ensures |url| > |key| && url[|url| - |key|..] == key
  {
    var host := "https://" + bucket + ".s3." + region + ".amazonaws.com/";
    assert (host + key)[..8] == "https://";
    host + key
  }

  // ---- Handler ------------------------------------------------------------

  function KeyFor(env: Env, f: FileMeta, index: nat): string {
    ObjectKey(env.clock(index), env.random(index), index, Extension(f.name))
  }

  function SignRequestFor(env: Env, f: FileMeta, index: nat): SignRequest {
    SignRequest(env.bucket, KeyFor(env, f, index), f.mimeType, SignedUrlExpirySeconds)
  }

  /** The result for one file, or `None` when the presigner throws. */
  function TargetFor(env: Env, f: FileMeta, index: nat): Option<UploadTarget> {
    match env.sign(SignRequestFor(env, f, index))
    case None => None
    case Some(uploadUrl) =>
      var key := KeyFor(env, f, index);
      Some(UploadTarget(key, uploadUrl, PublicUrl(env.bucket, env.region, key)))
  }

  /** A result for one file carries its key, the key's public URL and the presigner's URL. */
  lemma TargetFields(env: Env, f: FileMeta, index: nat, t: UploadTarget)
    requires TargetFor(env, f, index) == Some(t)
    ensures t.key == KeyFor(env, f, index)
    ensures t.publicUrl == PublicUrl(env.bucket, env.region, t.key)
    ensures Some(t.uploadUrl) == env.sign(SignRequestFor(env, f, index))
  {
  }

  predicate AllSigned(env: Env, files: seq<FileMeta>) {
    forall k :: 0 <= k < |files| ==> TargetFor(env, files[k], k).Some?
  }

  /** `Promise.all` over settled results: every value in order, or a failure when any failed. */
  function AllOrNone<T>(xs: seq<Option<T>>): (r: Option<seq<T>>)
    ensures r.Some? ==> |r.value| == |xs|
  {
    if xs == [] then Some([])
    else
      var rest := AllOrNone(xs[1..]);
      if xs[0].None? || rest.None? then None
      else Some([xs[0].value] + rest.value)
  }

  /** The combined result succeeds exactly when every result does. */
  lemma {:induction false} AllOrNoneSucceeds<T>(xs: seq<Option<T>>)
    ensures AllOrNone(xs).Some? <==> forall k :: 0 <= k < |xs| ==> xs[k].Some?
  {
    if xs != [] {
      AllOrNoneSucceeds(xs[1..]);
      assert forall k :: 0 < k < |xs| ==> xs[k] == xs[1..][k - 1];
    }
  }

  /** A successful combination holds each value at its own position. */
  lemma {:induction false} AllOrNoneInOrder<T>(xs: seq<Option<T>>, k: nat)
    requires k < |xs| && AllOrNone(xs).Some?
    ensures Some(AllOrNone(xs).value[k]) == xs[k]
  {
    if k > 0 {
      AllOrNoneInOrder(xs[1..], k - 1);
    }
  }

  /** The upload-url request for each file, attempted in parallel. */
  function Attempts(env: Env, files: seq<FileMeta>): (r: seq<Option<UploadTarget>>)
    ensures |r| == |files|
    ensures forall k :: 0 <= k < |files| ==> r[k] == TargetFor(env, files[k], k)
  {
    seq(|files|, k requires 0 <= k < |files| => TargetFor(env, files[k], k))
  }

  /** The attempt for file `k` succeeds exactly when the presigner signs its request, and then
      carries a key from which `k` is read back. */
  lemma AttemptCarriesIndex(env: Env, files: seq<FileMeta>, k: nat)
    requires k < |files|
    ensures Attempts(env, files)[k].Some? <==> env.sign(SignRequestFor(env, files[k], k)).Some?
    ensures Attempts(env, files)[k].Some? ==>
              && KeyIndex(Attempts(env, files)[k].value.key) == k
              && StartsWith(Attempts(env, files)[k].value.key, KeyPrefix)
  {
    KeyIndexRoundTrip(env.clock(k), env.random(k), k, files[k].name);
    SignRequestsUseDeclaredType(env, files[k], k);
  }

  /** The files the body describes; a missing `filesMeta` is an empty list. */
  function FilesOf(body: Option<seq<FileMeta>>): seq<FileMeta> {
    body.GetOr([])
  }

  /** `POST /api/upload-url`. */
  function Handle(req: Request, env: Env): (resp: Response)
    ensures resp.Failed? ==> resp.message == FailureMessage
    ensures resp.Issued? <==> req.Body? && AllSigned(env, FilesOf(req.filesMeta))
    ensures resp.Issued? ==>
      var files := FilesOf(req.filesMeta);
      && |resp.results| == |files|
      && forall k :: 0 <= k < |files| ==>
           && resp.results[k].key == KeyFor(env, files[k], k)
           && resp.results[k].publicUrl == PublicUrl(env.bucket, env.region, resp.results[k].key)
           && Some(resp.results[k].uploadUrl) == env.sign(SignRequestFor(env, files[k], k))
  {
    match req
    case Malformed => Failed(FailureMessage)
    case Body(filesMeta) =>
      var files := FilesOf(filesMeta);
      var attempts := Attempts(env, files);
      AllOrNoneSucceeds(attempts);
      match AllOrNone(attempts)
      case None => Failed(FailureMessage)
      case Some(results) =>
        assert forall k :: 0 <= k < |files| ==>
                 && results[k].key == KeyFor(env, files[k], k)
                 && results[k].publicUrl == PublicUrl(env.bucket, env.region, results[k].key)
                 && Some(results[k].uploadUrl) == env.sign(SignRequestFor(env, files[k], k)) by {
          forall k | 0 <= k < |files|
            ensures && results[k].key == KeyFor(env, files[k], k)
                    && results[k].publicUrl == PublicUrl(env.bucket, env.region, results[k].key)
                    && Some(results[k].uploadUrl) == env.sign(SignRequestFor(env, files[k], k))
          {
            AllOrNoneInOrder(attempts, k);
            TargetFields(env, files[k], k, results[k]);
          }
        }
        Issued(results)
  }

  /** No two results of one call share a key. */
  lemma IssuedKeysDistinct(req: Request, env: Env)
    requires req.Body? && AllSigned(env, FilesOf(req.filesMeta))
    ensures var results := Handle(req, env).results;
            forall a, b :: 0 <= a < b < |results| ==> results[a].key != results[b].key
  {
    var results := Handle(req, env).results;
    var files := FilesOf(req.filesMeta);
    forall a, b | 0 <= a < b < |results| ensures results[a].key != results[b].key {
      DistinctIndexesDistinctKeys(env.clock(a), env.random(a), a, files[a].name,
                                  env.clock(b), env.random(b), b, files[b].name);
    }
  }

  /**
   * Each issued result names its own file: the index read back from its key is
   * the file's position, the key keeps the file's extension, and the public URL
   * is an https URL ending with the key.
   */
  lemma IssuedTargetsCarryIndex(req: Request, env: Env)
    requires req.Body? && AllSigned(env, FilesOf(req.filesMeta))
    ensures var results := Handle(req, env).results;
            var files := FilesOf(req.filesMeta);
            && |results| == |files|
            && forall k :: 0 <= k < |results| ==>
                 && StartsWith(results[k].key, KeyPrefix)
                 && KeyIndex(results[k].key) == k
                 && EndsWith(results[k].key, Extension(files[k].name))
                 && StartsWith(results[k].publicUrl, "https://")
                 && EndsWith(results[k].publicUrl, results[k].key)
  {
    var results := Handle(req, env).results;
    var files := FilesOf(req.filesMeta);
    forall k | 0 <= k < |results|
      ensures && StartsWith(results[k].key, KeyPrefix)
              && KeyIndex(results[k].key) == k
              && EndsWith(results[k].key, Extension(files[k].name))
              && StartsWith(results[k].publicUrl, "https://")
              && EndsWith(results[k].publicUrl, results[k].key)
    {
      KeyIndexRoundTrip(env.clock(k), env.random(k), k, files[k].name);
    }
  }

  /** A body without `filesMeta` gets an empty result list. */
  lemma MissingFilesMetaIssuesNothing(env: Env)
    ensures Handle(Body(None), env) == Issued([])
  {
  }

  /** Every signing request names the bucket, the file's declared type and a 60-second expiry. */
  lemma SignRequestsUseDeclaredType(env: Env, f: FileMeta, index: nat)
    ensures var r := SignRequestFor(env, f, index);
            r.contentType == f.mimeType && r.expiresIn == 60 && r.bucket == env.bucket
            && StartsWith(r.key, KeyPrefix)
  {
    var r := SignRequestFor(env, f, index);
    assert r.key[..|KeyPrefix|] == KeyPrefix;
  }
}
