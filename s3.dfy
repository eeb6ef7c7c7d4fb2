/**
 * The naming and addressing logic of `s3.rs`: file-name sanitising, object keys, public URLs,
 * canned ACL parsing, the client configuration (signing region, endpoint trimming, path
 * style), and the upload/delete commands around the AWS SDK.
 *
 * The SDK calls, `std::fs`, `mime_guess`, `Uuid::new_v4`, `Utc::now` and serde are parameters.
 */
module S3 {
  import opened Wrappers
  import opened Text

  type Byte = x: int | 0 <= x < 256
  type Bytes = seq<Byte>

  // ---------- File names ----------

  /** The characters an object key keeps as they are. */
  predicate IsKeyChar(c: char) {
    'a' <= c <= 'z' || 'A' <= c <= 'Z' || '0' <= c <= '9' || c == '-' || c == '_' || c == '.'
  }

  const FallbackName: string := "upload.bin"

  /**
   * `sanitize_file_name`: the trimmed name (or "upload.bin" when nothing is left) with every
   * character outside `[A-Za-z0-9._-]` replaced by `_`, one for one.
   */
  function SanitizeFileName(input: string): (r: string)
    ensures forall i :: 0 <= i < |r| ==> IsKeyChar(r[i])
    ensures Trim(input) == [] ==> r == FallbackName
    ensures Trim(input) != [] ==> |r| == |Trim(input)|
    ensures Trim(input) != [] ==> forall i :: 0 <= i < |r| ==>
      (IsKeyChar(Trim(input)[i]) ==> r[i] == Trim(input)[i]) &&
      (!IsKeyChar(Trim(input)[i]) ==> r[i] == '_')
  {
    var trimmed := Trim(input);
    var candidate := if trimmed == [] then FallbackName else trimmed;
    FallbackIsKeyName();
    seq(|candidate|, i requires 0 <= i < |candidate| =>
      if IsKeyChar(candidate[i]) then candidate[i] else '_')
  }

  lemma FallbackIsKeyName()
    ensures forall i :: 0 <= i < |FallbackName| ==> IsKeyChar(FallbackName[i])
  {
  }

  /** Sanitising a sanitised name changes nothing. */
  lemma SanitizeIdempotent(input: string)
    ensures SanitizeFileName(SanitizeFileName(input)) == SanitizeFileName(input)
  {
    var r := SanitizeFileName(input);
    assert |r| > 0 by {
      if Trim(input) == [] {
        assert |FallbackName| == 10;
      }
    }
    KeyNameFixed(r);
  }

  /** A non-empty name made only of key characters is its own sanitised form. */
  lemma KeyNameFixed(r: string)
    requires |r| > 0 && forall i :: 0 <= i < |r| ==> IsKeyChar(r[i])
    ensures SanitizeFileName(r) == r
  {
    assert !IsWhitespace(r[0]) && !IsWhitespace(r[|r| - 1]) by {
      assert IsKeyChar(r[0]) && IsKeyChar(r[|r| - 1]);
    }
    TrimUnchanged(r);
  }

  // ---------- Dates ----------

  /** A calendar date as `Utc::now()` yields it. */
  datatype Date = Date(year: int, month: nat, day: nat)

  function Pow10(k: nat): (p: nat)
    ensures p > 0
  {
    if k == 0 then 1 else 10 * Pow10(k - 1)
  }

  /** A number below `10^k` (with `k >= 1`) has at most `k` decimal digits. */
  lemma {:induction false} DecimalWidth(n: nat, k: nat)
    requires k >= 1 && n < Pow10(k)
    ensures |Decimal(n)| <= k
  {
    if n >= 10 {
      assert k >= 2;
      DecimalWidth(n / 10, k - 1);
    }
  }

  function Zeros(k: nat): (z: string)
    ensures |z| == k && forall i :: 0 <= i < k ==> z[i] == '0'
  {
    seq(k, _ => '0')
  }

  /** Decimal digits of `n`, left-padded with zeros to at least `width`. */
  function Pad(n: nat, width: nat): (r: string)
    ensures |r| == if |Decimal(n)| >= width then |Decimal(n)| else width
    ensures forall i :: 0 <= i < |r| ==> '0' <= r[i] <= '9'
  {
    var d := Decimal(n);
    if |d| >= width then d else Zeros(width - |d|) + d
  }

  /** Padding a number that fits the width gives exactly the width. */
  lemma PadWidth(n: nat, width: nat)
    requires width >= 1
    ensures n < Pow10(width) ==> |Pad(n, width)| == width
  {
    if n < Pow10(width) {
      DecimalWidth(n, width);
    }
  }

  /** chrono's `%Y`: four digits within 0..=9999, otherwise a sign and at least four digits. */
  function FormatYear(y: int): (r: string)
    ensures 0 <= y <= 9999 ==> |r| == 4
    ensures '/' !in r
  {
    if 0 <= y <= 9999 then
      DecimalWidth(y, 4);
      Pad(y, 4)
    else if y > 9999 then "+" + Pad(y, 4)
    else "-" + Pad(-y, 4)
  }

  /** `format("%Y/%m/%d")` */
  function FormatDate(d: Date): (r: string)
    ensures Count(r, '/') == 2
    ensures 0 <= d.year <= 9999 && d.month < 100 && d.day < 100 ==>
      |r| == 10 && r[4] == '/' && r[7] == '/' &&
      forall i :: 0 <= i < 10 && i != 4 && i != 7 ==> '0' <= r[i] <= '9'
  {
    var y, m, dd := FormatYear(d.year), Pad(d.month, 2), Pad(d.day, 2);
    PadWidth(d.month, 2);
    PadWidth(d.day, 2);
    CountAbsent(y, '/');
    CountAbsent(m, '/');
    CountAbsent(dd, '/');
    CountConcat(y, "/", '/');
    CountConcat(y + "/", m, '/');
    CountConcat(y + "/" + m, "/", '/');
    CountConcat(y + "/" + m + "/", dd, '/');
    y + "/" + m + "/" + dd
  }

  // ---------- Object keys ----------

  /** The custom prefix with its slashes trimmed, or nothing. */
  function KeyPrefix(prefix: Option<string>): (p: string)
    ensures p == [] || (p[0] != '/' && p[|p| - 1] != '/')
  {
    if prefix.None? then [] else TrimMatches(prefix.value, '/')
  }

  /** The last segment of a key: `<uuid>-<sanitised name>`. */
  function KeyLeaf(originalName: string, uuid: string): string {
    uuid + "-" + SanitizeFileName(originalName)
  }

  /**
   * The key `generate_object_key` produces: `[<prefix>/]<YYYY/MM/DD>/<uuid>-<sanitised name>`,
   * the prefix present only when something is left of it after trimming slashes.
   */
  function ObjectKey(prefix: Option<string>, originalName: string, uuid: string, today: Date): string {
    if KeyPrefix(prefix) != [] then KeyPrefix(prefix) + "/" + FormatDate(today) + "/" + KeyLeaf(originalName, uuid)
    else FormatDate(today) + "/" + KeyLeaf(originalName, uuid)
  }

  /** `generate_object_key`: pushes the segments in order and joins them with `/`. */
  method GenerateObjectKey(prefix: Option<string>, originalName: string, uuid: string, today: Date)
    returns (key: string)
    ensures key == ObjectKey(prefix, originalName, uuid, today)
  {
    var sanitized := SanitizeFileName(originalName);
    var datePrefix := FormatDate(today);
    key := JoinSegments(prefix, datePrefix, uuid + "-" + sanitized);
  }

  /** The segment list of `generate_object_key`, built and joined with `/`. */
  method JoinSegments(prefix: Option<string>, datePrefix: string, leaf: string) returns (key: string)
    ensures KeyPrefix(prefix) != [] ==> key == KeyPrefix(prefix) + "/" + datePrefix + "/" + leaf
    ensures KeyPrefix(prefix) == [] ==> key == datePrefix + "/" + leaf
  {
    ghost var pre := KeyPrefix(prefix);
    var segments: seq<string> := [];
    if prefix.Some? {
      var trimmed := TrimMatches(prefix.value, '/');
      if trimmed != [] {
        segments := segments + [trimmed];
      }
    }
    assert segments == if pre != [] then [pre] else [];
    segments := segments + [datePrefix];
    segments := segments + [leaf];
    key := Join(segments, "/");
    if pre != [] {
      assert segments == [pre, datePrefix, leaf];
      JoinThree(pre, datePrefix, leaf, "/");
    } else {
      assert segments == [datePrefix, leaf];
      JoinTwo(datePrefix, leaf, "/");
    }
  }

  /**
   * The last `/` segment of a key is `<uuid>-<sanitised name>` (a UUID's text has no `/`), and
   * a key never starts with `/`.
   */
  lemma ObjectKeyShape(prefix: Option<string>, originalName: string, uuid: string, today: Date)
    requires '/' !in uuid
    ensures AfterLast(ObjectKey(prefix, originalName, uuid, today), '/') == KeyLeaf(originalName, uuid)
    ensures ObjectKey(prefix, originalName, uuid, today)[0] != '/'
  {
    var leaf := KeyLeaf(originalName, uuid);
    LeafHasNoSlash(uuid, originalName);
    var date := FormatDate(today);
    DateStart(today);
    var pre := if KeyPrefix(prefix) != [] then KeyPrefix(prefix) + "/" + date else date;
    assert |pre| > 0 && pre[0] != '/';
    assert ObjectKey(prefix, originalName, uuid, today) == pre + ['/'] + leaf;
    AfterLastOfSuffix(pre, '/', leaf);
  }

  /** The last segment of a key has no `/` when the UUID text has none. */
  lemma LeafHasNoSlash(uuid: string, originalName: string)
    requires '/' !in uuid
    ensures '/' !in uuid + "-" + SanitizeFileName(originalName)
  {
    var sanitized := SanitizeFileName(originalName);
    assert forall i :: 0 <= i < |sanitized| ==> IsKeyChar(sanitized[i]);
  }

  /** A formatted date is not empty and begins with a digit or a sign. */
  lemma DateStart(d: Date)
    ensures |FormatDate(d)| > 0 && FormatDate(d)[0] != '/'
  {
    var y := FormatYear(d.year);
    assert |y| > 0 by {
      if 0 <= d.year <= 9999 { } else { }
    }
    assert '/' !in y;
    assert FormatDate(d)[0] == y[0];
  }

  // ---------- Public URLs ----------

  /**
   * `build_public_url`: a public base wins (trailing `/` trimmed); then a custom endpoint,
   * path-style or not; then the AWS path-style or virtual-host form.
   */
  function BuildPublicUrl(publicBase: Option<string>, endpoint: Option<string>, bucket: string,
                          region: string, key: string, forcePathStyle: bool): (url: string)
    ensures EndsWith(url, "/" + key)
    ensures publicBase.Some? ==> url == TrimEndMatches(publicBase.value, '/') + "/" + key
    ensures publicBase.None? && endpoint.Some? ==>
      url == TrimEndMatches(endpoint.value, '/') + (if forcePathStyle then "/" + bucket else "") + "/" + key
    ensures publicBase.None? && endpoint.None? && forcePathStyle ==>
      url == "https://s3." + region + ".amazonaws.com/" + bucket + "/" + key
    ensures publicBase.None? && endpoint.None? && !forcePathStyle ==>
      url == "https://" + bucket + ".s3." + region + ".amazonaws.com/" + key
  {
    if publicBase.Some? then
      TrimEndMatches(publicBase.value, '/') + "/" + key
    else if endpoint.Some? then
      var trimmed := TrimEndMatches(endpoint.value, '/');
      if forcePathStyle then trimmed + "/" + bucket + "/" + key else trimmed + "/" + key
    else if forcePathStyle then
      "https://s3." + region + ".amazonaws.com/" + bucket + "/" + key
    else
      "https://" + bucket + ".s3." + region + ".amazonaws.com/" + key
  }

  /** Trailing slashes on the public base or the endpoint never change the URL. */
  lemma PublicUrlIgnoresTrailingSlash(base: string, endpoint: string, bucket: string, region: string,
                                      key: string, forcePathStyle: bool)
    ensures BuildPublicUrl(Some(base + "/"), None, bucket, region, key, forcePathStyle)
            == BuildPublicUrl(Some(base), None, bucket, region, key, forcePathStyle)
    ensures BuildPublicUrl(None, Some(endpoint + "/"), bucket, region, key, forcePathStyle)
            == BuildPublicUrl(None, Some(endpoint), bucket, region, key, forcePathStyle)
  {
    assert (base + "/")[..|base|] == base;
    assert (endpoint + "/")[..|endpoint|] == endpoint;
  }

  // ---------- ACLs ----------

  datatype CannedAcl =
    | Private | PublicRead | PublicReadWrite | AuthenticatedRead | AwsExecRead
    | BucketOwnerRead | BucketOwnerFullControl

  /** The wire name of a canned ACL. */
  function AclName(acl: CannedAcl): string {
    match acl
    case Private => "private"
    case PublicRead => "public-read"
    case PublicReadWrite => "public-read-write"
    case AuthenticatedRead => "authenticated-read"
    case AwsExecRead => "aws-exec-read"
    case BucketOwnerRead => "bucket-owner-read"
    case BucketOwnerFullControl => "bucket-owner-full-control"
  }

  /** The canned ACL with a given lowercase name. */
  function AclFromName(name: string): (r: Option<CannedAcl>)
    ensures r.Some? ==> AclName(r.value) == name
  {
    if name == "private" then Some(Private)
    else if name == "public-read" then Some(PublicRead)
    else if name == "public-read-write" then Some(PublicReadWrite)
    else if name == "authenticated-read" then Some(AuthenticatedRead)
    else if name == "aws-exec-read" then Some(AwsExecRead)
    else if name == "bucket-owner-read" then Some(BucketOwnerRead)
    else if name == "bucket-owner-full-control" then Some(BucketOwnerFullControl)
    else None
  }

  /**
   * `map_acl`: no value or a blank one means no ACL; otherwise the trimmed, ASCII-lowercased
   * value must be one of the seven canned names.
   */
  function MapAcl(value: Option<string>): (r: Result<Option<CannedAcl>, string>)
    ensures r == Ok(None) <==> value.None? || Trim(value.value) == []
    ensures r.Ok? && r.value.Some? ==> AclName(r.value.value) == AsciiLowerStr(Trim(value.value))
    ensures r.Err? ==> value.Some? && AclFromName(AsciiLowerStr(Trim(value.value))).None?
  {
    match value
    case None => Ok(None)
    case Some(raw) =>
      var trimmed := Trim(raw);
      if trimmed == [] then Ok(None)
      else LookupAcl(AsciiLowerStr(trimmed))
  }

  /** The canned ACL a lowercased, trimmed, non-blank value names, or the unsupported-value error. */
  function LookupAcl(lowered: string): (r: Result<Option<CannedAcl>, string>)
    ensures r.Ok? <==> AclFromName(lowered).Some?
    ensures r.Ok? ==> r.value == AclFromName(lowered)
  {
    match AclFromName(lowered)
    case Some(acl) => Ok(Some(acl))
    case None => Err("unsupported ACL value: " + lowered)
  }

  /** Every canned ACL's name maps back to it. */
  lemma MapAclRoundTrip(acl: CannedAcl)
    ensures MapAcl(Some(AclName(acl))) == Ok(Some(acl))
  {
    AclNameShape(acl);
    AclFromOwnName(acl);
    MapAclOfLowerName(AclName(acl));
  }

  /** A non-empty name of lowercase letters and `-` is looked up exactly as written. */
  lemma MapAclOfLowerName(n: string)
    requires LowerDashName(n)
    ensures AclFromName(n).Some? ==> MapAcl(Some(n)) == Ok(AclFromName(n))
  {
    TrimUnchanged(n);
    LowerFixed(n);
    assert Trim(n) == n && AsciiLowerStr(n) == n;
    assert MapAcl(Some(n)) == LookupAcl(n);
  }

  /** Looking a canned ACL's name up finds that ACL. */
  lemma AclFromOwnName(acl: CannedAcl)
    ensures AclFromName(AclName(acl)) == Some(acl)
  {
    match acl
    case Private =>
    case PublicRead =>
    case PublicReadWrite =>
    case AuthenticatedRead =>
    case AwsExecRead =>
    case BucketOwnerRead =>
    case BucketOwnerFullControl =>
  }

  /** Canned ACL names are non-empty runs of lowercase letters and `-`. */
  lemma AclNameShape(acl: CannedAcl)
    ensures LowerDashName(AclName(acl))
  {
    if acl.Private? || acl.PublicRead? || acl.PublicReadWrite? {
      PublicNamesShape(acl);
    } else if acl.AuthenticatedRead? || acl.AwsExecRead? {
      ReadNamesShape(acl);
    } else {
      OwnerNamesShape(acl);
    }
  }

  /** A non-empty name of lowercase ASCII letters and `-`. */
  predicate LowerDashName(n: string) {
    |n| > 0 && forall i :: 0 <= i < |n| ==> 'a' <= n[i] <= 'z' || n[i] == '-'
  }

  lemma PublicNamesShape(acl: CannedAcl)
    requires acl.Private? || acl.PublicRead? || acl.PublicReadWrite?
    ensures LowerDashName(AclName(acl))
  {
  }

  lemma ReadNamesShape(acl: CannedAcl)
    requires acl.AuthenticatedRead? || acl.AwsExecRead?
    ensures LowerDashName(AclName(acl))
  {
  }

  lemma OwnerNamesShape(acl: CannedAcl)
    requires acl.BucketOwnerRead? || acl.BucketOwnerFullControl?
    ensures LowerDashName(AclName(acl))
  {
  }

  /** Text without uppercase ASCII letters is its own lowercase form. */
  lemma LowerFixed(s: string)
    requires forall i :: 0 <= i < |s| ==> !('A' <= s[i] <= 'Z')
    ensures AsciiLowerStr(s) == s
  {
  }

  lemma AsciiLowerIdempotent(s: string)
    ensures AsciiLowerStr(AsciiLowerStr(s)) == AsciiLowerStr(s)
  {
  }

  /** Matching is case-insensitive: ASCII-lowercasing the value first changes nothing. */
  lemma MapAclCaseInsensitive(raw: string)
    ensures MapAcl(Some(AsciiLowerStr(raw))) == MapAcl(Some(raw))
  {
    var trimmed := Trim(raw);
    var lowered := AsciiLowerStr(trimmed);
    TrimAsciiLower(raw);
    AsciiLowerIdempotent(trimmed);
    assert Trim(AsciiLowerStr(raw)) == lowered && AsciiLowerStr(lowered) == lowered;
    assert trimmed == [] <==> lowered == [];
  }

  // ---------- Client configuration ----------

  /** `s.splitn(n, c)`: at most `n` pieces, the last holding the rest. */
  function SplitN(s: string, c: char, n: nat): (parts: seq<string>)
    requires n >= 1
    ensures 1 <= |parts| <= n
    decreases n
  {
    if n == 1 then [s]
    else
      match IndexOf(s, c)
      case None => [s]
      case Some(i) => [s[..i]] + SplitN(s[i + 1..], c, n - 1)
  }

  /** `s.splitn(n, '/').take(n - 1).join("/")` */
  function JoinedPrefix(s: string, n: nat): string
    requires n >= 2
  {
    var parts := SplitN(s, '/', n);
    Join(parts[..Min(n - 1, |parts|)], "/")
  }

  /** `endpoint.splitn(4, '/').take(3).join("/")`: scheme and host of an endpoint URL. */
  function TrimEndpoint(endpoint: string): (r: string)
    ensures StartsWith(endpoint, r)
    ensures Count(r, '/') <= 2
    ensures |r| < |endpoint| ==> endpoint[|r|] == '/' && Count(r, '/') == 2
  {
    FirstPiecesJoined(endpoint, 4);
    JoinedPrefix(endpoint, 4)
  }

  function Min(a: nat, b: nat): nat { if a <= b then a else b }

  /** One step of `JoinedPrefix`: the text before the first `/`, the `/`, and the rest's prefix. */
  lemma JoinedPrefixStep(s: string, n: nat, i: nat)
    requires n >= 3 && IndexOf(s, '/') == Some(i)
    ensures JoinedPrefix(s, n) == s[..i] + "/" + JoinedPrefix(s[i + 1..], n - 1)
  {
    var tailParts := SplitN(s[i + 1..], '/', n - 1);
    var parts := SplitN(s, '/', n);
    assert parts == [s[..i]] + tailParts;
    var m := Min(n - 2, |tailParts|);
    assert parts[..Min(n - 1, |parts|)] == [s[..i]] + tailParts[..m];
    assert ([s[..i]] + tailParts[..m])[1..] == tailParts[..m];
  }

  /**
   * Joining the first `n - 1` of `splitn(n, '/')`'s pieces again gives the prefix of `s` before
   * its `(n-1)`-th `/`, or all of `s` when it has fewer.
   */
  lemma {:induction false} FirstPiecesJoined(s: string, n: nat)
    requires n >= 2
    ensures PrefixBeforeSlashes(s, JoinedPrefix(s, n), n - 2)
    decreases n
  {
    match IndexOf(s, '/')
    case None =>
      assert SplitN(s, '/', n) == [s];
      CountAbsent(s, '/');
    case Some(i) =>
      CountAbsent(s[..i], '/');
      if n == 2 {
        assert SplitN(s, '/', n) == [s[..i], s[i + 1..]];
      } else {
        JoinedPrefixStep(s, n, i);
        FirstPiecesJoined(s[i + 1..], n - 1);
        ExtendPrefix(s, i, JoinedPrefix(s[i + 1..], n - 1), n - 3);
      }
  }

  /**
   * `r` is the prefix of `s` that stops before its `(k+1)`-th `/`: a prefix holding at most
   * `k` slashes, followed in `s` by a `/` (and then holding exactly `k`) unless it is all of `s`.
   */
  predicate PrefixBeforeSlashes(s: string, r: string, k: nat) {
    StartsWith(s, r) && Count(r, '/') <= k && (|r| < |s| ==> s[|r|] == '/' && Count(r, '/') == k)
  }

  /** Putting the slash-free text before the first `/` in front keeps the shape, one slash more. */
  lemma ExtendPrefix(s: string, i: nat, r': string, k: nat)
    requires i < |s| && s[i] == '/' && '/' !in s[..i] && Count(s[..i], '/') == 0
    requires PrefixBeforeSlashes(s[i + 1..], r', k)
    ensures PrefixBeforeSlashes(s, s[..i] + "/" + r', k + 1)
  {
    var head, rest := s[..i], s[i + 1..];
    var r := head + "/" + r';
    CountConcat(head, "/", '/');
    CountConcat(head + "/", r', '/');
    assert s == head + "/" + rest;
    assert s[..|r|] == head + "/" + rest[..|r'|];
    if |r| < |s| {
      assert s[|r|] == rest[|r'|];
    }
  }

  datatype ConfigOptions = ConfigOptions(
    region: string, endpoint: Option<string>, forcePathStyle: bool,
    accessKeyId: string, secretAccessKey: string)

  /** What `build_client` hands to the SDK. */
  datatype ClientConfig = ClientConfig(
    signingRegion: string, endpointUrl: Option<string>, forcePathStyle: bool,
    accessKeyId: string, secretAccessKey: string)

  /**
   * `build_client`: with a custom endpoint the signing region is "auto" and the endpoint is cut
   * to scheme and host; path style is switched on only when asked for.
   */
  function BuildClient(o: ConfigOptions): (c: ClientConfig)
    ensures o.endpoint.Some? ==> c.signingRegion == "auto" && c.endpointUrl == Some(TrimEndpoint(o.endpoint.value))
    ensures o.endpoint.None? ==> c.signingRegion == o.region && c.endpointUrl.None?
    ensures c.forcePathStyle == o.forcePathStyle
    ensures c.accessKeyId == o.accessKeyId && c.secretAccessKey == o.secretAccessKey
  {
    ClientConfig(
      if o.endpoint.Some? then "auto" else o.region,
      if o.endpoint.Some? then Some(TrimEndpoint(o.endpoint.value)) else None,
      o.forcePathStyle, o.accessKeyId, o.secretAccessKey)
  }

  /** `force_path_style.unwrap_or(endpoint.is_some())` */
  function ResolveForcePathStyle(requested: Option<bool>, endpoint: Option<string>): (b: bool)
    ensures requested.Some? ==> b == requested.value
    ensures requested.None? ==> (b <==> endpoint.Some?)
  {
    requested.GetOr(endpoint.Some?)
  }

  // ---------- Upload and delete ----------

  /** The JSON `delete_id` an upload hands back. */
  datatype DeleteMarker = DeleteMarker(
    bucket: string, region: string, key: string, endpoint: Option<string>, forcePathStyle: bool)

  datatype S3Request =
    | PutObject(config: ClientConfig, bucket: string, key: string, body: Bytes,
                contentType: Option<string>, acl: Option<CannedAcl>)
    | DeleteObject(config: ClientConfig, bucket: string, key: string)

  /** The parts of the SDK's put-object answer that are kept. */
  datatype PutOutput = PutOutput(eTag: Option<string>, versionId: Option<string>)

  datatype UploadResult = UploadResult(url: string, deleteId: string, metadata: seq<(string, string)>)

  datatype DeleteResult = DeleteResult(success: bool, message: string)

  /** The file system, `mime_guess`, the SDK and serde as the commands use them. */
  datatype S3Env = S3Env(
    isAbsolute: string -> bool,
    fileExists: string -> bool,
    read: string -> Result<Bytes, string>,
    guessMime: string -> Option<string>,
    send: S3Request -> Result<PutOutput, string>,
    encodeMarker: DeleteMarker -> Result<string, string>,
    decodeMarker: string -> Result<DeleteMarker, string>)

  /** `resolve_content_type`: the first guessed MIME type, trimmed, unless that leaves nothing. */
  function ResolveContentType(guess: Option<string>): (r: Option<string>)
    ensures r.Some? ==> r.value != [] && guess.Some? && r.value == Trim(guess.value)
    ensures guess.Some? && Trim(guess.value) != [] ==> r.Some?
  {
    if guess.Some? && Trim(guess.value) != [] then Some(Trim(guess.value)) else None
  }

  /** The metadata map: `etag` and `versionId` when the SDK reports them. */
  function UploadMetadata(out: PutOutput): seq<(string, string)> {
    (if out.eTag.Some? then [("etag", out.eTag.value)] else [])
      + (if out.versionId.Some? then [("versionId", out.versionId.value)] else [])
  }

  /** The put-object request `s3_upload` sends for the bytes read and the parsed ACL. */
  function UploadRequest(env: S3Env, bytes: Bytes, originalFileName: string, bucket: string,
                         region: string, accessKeyId: string, secretAccessKey: string,
                         endpoint: Option<string>, forcePathStyle: Option<bool>, objectPrefix: Option<string>,
                         cannedAcl: Option<CannedAcl>, uuid: string, today: Date): S3Request
  {
    var style := ResolveForcePathStyle(forcePathStyle, endpoint);
    PutObject(BuildClient(ConfigOptions(region, endpoint, style, accessKeyId, secretAccessKey)),
              bucket, ObjectKey(objectPrefix, originalFileName, uuid, today), bytes,
              ResolveContentType(env.guessMime(originalFileName)), cannedAcl)
  }

  /**
   * `s3_upload`: checks the path, reads the file, builds the client, generates the key, parses
   * the ACL (an invalid ACL fails only after the file was read), sends the put request and
   * returns the public URL with the serialised delete marker.
   */
  function S3Upload(env: S3Env, filePath: string, originalFileName: string, bucket: string,
                    region: string, accessKeyId: string, secretAccessKey: string,
                    endpoint: Option<string>, forcePathStyle: Option<bool>, objectPrefix: Option<string>,
                    acl: Option<string>, publicBaseUrl: Option<string>, uuid: string, today: Date)
    : (r: Result<UploadResult, string>)
    ensures !env.isAbsolute(filePath) || !env.fileExists(filePath) ==> r.Err?
    ensures MapAcl(acl).Err? ==> r.Err?
    ensures r.Ok? ==>
      var key := ObjectKey(objectPrefix, originalFileName, uuid, today);
      var style := ResolveForcePathStyle(forcePathStyle, endpoint);
      r.value.url == BuildPublicUrl(publicBaseUrl, endpoint, bucket, region, key, style) &&
      env.encodeMarker(DeleteMarker(bucket, region, key, endpoint, style)) == Ok(r.value.deleteId)
    ensures r.Ok? <==>
      && env.isAbsolute(filePath) && env.fileExists(filePath) && env.read(filePath).Ok? && MapAcl(acl).Ok?
      && env.send(UploadRequest(env, env.read(filePath).value, originalFileName, bucket, region, accessKeyId,
                                secretAccessKey, endpoint, forcePathStyle, objectPrefix, MapAcl(acl).value,
                                uuid, today)).Ok?
      && env.encodeMarker(DeleteMarker(bucket, region, ObjectKey(objectPrefix, originalFileName, uuid, today),
                                       endpoint, ResolveForcePathStyle(forcePathStyle, endpoint))).Ok?
    ensures r.Ok? ==>
      r.value.metadata
        == UploadMetadata(env.send(UploadRequest(env, env.read(filePath).value, originalFileName, bucket, region,
                                                 accessKeyId, secretAccessKey, endpoint, forcePathStyle,
                                                 objectPrefix, MapAcl(acl).value, uuid, today)).value)
  {
    if !env.isAbsolute(filePath) || !env.fileExists(filePath) then
      Err("file path must be an existing absolute path")
    else
      match env.read(filePath)
      case Err(e) => Err("failed to read file: " + e)
      case Ok(bytes) =>
        var style := ResolveForcePathStyle(forcePathStyle, endpoint);
        var key := ObjectKey(objectPrefix, originalFileName, uuid, today);
        match MapAcl(acl)
        case Err(e) => Err(e)
        case Ok(cannedAcl) =>
          match env.send(UploadRequest(env, bytes, originalFileName, bucket, region, accessKeyId, secretAccessKey,
                                       endpoint, forcePathStyle, objectPrefix, cannedAcl, uuid, today))
          case Err(e) => Err("failed to upload to S3: " + e)
          case Ok(out) =>
            var marker := DeleteMarker(bucket, region, key, endpoint, style);
            var url := BuildPublicUrl(publicBaseUrl, marker.endpoint, marker.bucket, marker.region,
                                      marker.key, marker.forcePathStyle);
            match env.encodeMarker(marker)
            case Err(e) => Err("failed to serialize delete marker: " + e)
            case Ok(deleteId) => Ok(UploadResult(url, deleteId, UploadMetadata(out)))
  }

  /** The delete request `s3_delete` sends for a decoded marker. */
  function DeleteRequest(m: DeleteMarker, accessKeyId: string, secretAccessKey: string): S3Request {
    DeleteObject(BuildClient(ConfigOptions(m.region, m.endpoint, m.forcePathStyle, accessKeyId, secretAccessKey)),
                 m.bucket, m.key)
  }

  /** `s3_delete`: decodes the marker and deletes the object it names with the client it describes. */
  function S3Delete(env: S3Env, deleteId: string, accessKeyId: string, secretAccessKey: string)
    : (r: Result<DeleteResult, string>)
    ensures env.decodeMarker(deleteId).Err? ==> r.Err?
    ensures r.Ok? ==>
      r.value.success && env.decodeMarker(deleteId).Ok? &&
      env.send(DeleteRequest(env.decodeMarker(deleteId).value, accessKeyId, secretAccessKey)).Ok?
    ensures env.decodeMarker(deleteId).Ok?
            && env.send(DeleteRequest(env.decodeMarker(deleteId).value, accessKeyId, secretAccessKey)).Ok?
            ==> r.Ok? && r.value.success
  {
    match env.decodeMarker(deleteId)
    case Err(e) => Err("invalid deleteId payload: " + e)
    case Ok(m) =>
      match env.send(DeleteRequest(m, accessKeyId, secretAccessKey))
      case Err(e) => Err("failed to delete S3 object: " + e)
      case Ok(_) => Ok(DeleteResult(true, "对象已从 S3 删除"))
  }

  /**
   * When the marker survives serde, deleting with an upload's `delete_id` addresses the object
   * that upload wrote, through a client configured exactly as the upload's.
   */
  lemma DeleteTargetsUploadedObject(env: S3Env, filePath: string, originalFileName: string, bucket: string,
                                    region: string, accessKeyId: string, secretAccessKey: string,
                                    endpoint: Option<string>, forcePathStyle: Option<bool>,
                                    objectPrefix: Option<string>, acl: Option<string>,
                                    publicBaseUrl: Option<string>, uuid: string, today: Date)
    requires forall m :: env.encodeMarker(m).Ok? ==> env.decodeMarker(env.encodeMarker(m).value) == Ok(m)
    requires S3Upload(env, filePath, originalFileName, bucket, region, accessKeyId, secretAccessKey,
                      endpoint, forcePathStyle, objectPrefix, acl, publicBaseUrl, uuid, today).Ok?
    ensures
      var up := S3Upload(env, filePath, originalFileName, bucket, region, accessKeyId, secretAccessKey,
                         endpoint, forcePathStyle, objectPrefix, acl, publicBaseUrl, uuid, today).value;
      var style := ResolveForcePathStyle(forcePathStyle, endpoint);
      env.decodeMarker(up.deleteId).Ok? &&
      DeleteRequest(env.decodeMarker(up.deleteId).value, accessKeyId, secretAccessKey)
        == DeleteObject(BuildClient(ConfigOptions(region, endpoint, style, accessKeyId, secretAccessKey)),
                        bucket, ObjectKey(objectPrefix, originalFileName, uuid, today))
  {
    var style := ResolveForcePathStyle(forcePathStyle, endpoint);
    var m := DeleteMarker(bucket, region, ObjectKey(objectPrefix, originalFileName, uuid, today), endpoint, style);
    assert env.encodeMarker(m).Ok?;
  }
}
