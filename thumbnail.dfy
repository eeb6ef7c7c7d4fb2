/**
 * The thumbnail cache of `thumbnail.rs`: cache file names derived from a hash of the URL, the
 * file extension of a URL, the size-limited streaming download, the per-URL cache-or-generate
 * step, the batch aggregation and the cache size.
 *
 * `DefaultHasher`, the HTTP client, the file system, `Uuid::new_v4` and the thumbnail codec are
 * parameters. Paths are `/`-separated strings.
 */
module Thumbnail {
  import opened Wrappers
  import opened Text

  type Byte = x: int | 0 <= x < 256
  type Bytes = seq<Byte>

  /** `u64`, the output of `Hasher::finish`. */
  type U64 = x: int | 0 <= x < 0x1_0000_0000_0000_0000

  const CacheDirName: string := "cache"
  const ThumbnailWidth: nat := 320
  const ThumbnailHeight: nat := 225

  // ---------- Cache file names ----------

  predicate IsLowerHex(c: char) {
    '0' <= c <= '9' || 'a' <= c <= 'f'
  }

  function HexDigit(d: nat): (c: char)
    requires d < 16
    ensures IsLowerHex(c)
  {
    if d < 10 then ('0' as int + d) as char else ('a' as int + d - 10) as char
  }

  function HexDigitValue(c: char): (d: nat)
    requires IsLowerHex(c)
    ensures d < 16
  {
    if c <= '9' then c as int - '0' as int else c as int - 'a' as int + 10
  }

  function Pow16(n: nat): (p: nat)
    ensures p > 0
  {
    if n == 0 then 1 else 16 * Pow16(n - 1)
  }

  /** The `n` low hexadecimal digits of `v`, most significant first, zero-padded. */
  function HexPad(v: nat, n: nat): (r: string)
    ensures |r| == n
    ensures forall i :: 0 <= i < n ==> IsLowerHex(r[i])
  {
    if n == 0 then [] else HexPad(v / 16, n - 1) + [HexDigit(v % 16)]
  }

  /** The number a string of lowercase hexadecimal digits denotes. */
  function HexValue(s: string): nat
    requires forall i :: 0 <= i < |s| ==> IsLowerHex(s[i])
  {
    if |s| == 0 then 0 else 16 * HexValue(s[..|s| - 1]) + HexDigitValue(s[|s| - 1])
  }

  /** Padding to `n` digits loses nothing when `v` has at most `n` digits. */
  lemma {:induction false} HexPadValue(v: nat, n: nat)
    requires v < Pow16(n)
    ensures HexValue(HexPad(v, n)) == v
  {
    if n > 0 {
      var r := HexPad(v, n);
      assert r[..n - 1] == HexPad(v / 16, n - 1);
      assert r[n - 1] == HexDigit(v % 16);
      DigitRoundTrip(v % 16);
      DivBy16(v, Pow16(n - 1));
      HexPadValue(v / 16, n - 1);
    }
  }

  lemma DigitRoundTrip(d: nat)
    requires d < 16
    ensures HexDigitValue(HexDigit(d)) == d
  {
  }

  lemma DivBy16(v: nat, p: nat)
    requires v < 16 * p
    ensures v / 16 < p && v == 16 * (v / 16) + v % 16
  {
  }

  /** Sixteen hex digits hold every `u64`. */
  lemma Pow16Of16()
    ensures Pow16(16) == 0x1_0000_0000_0000_0000
  {
    assert Pow16(4) == 0x1_0000;
    assert Pow16(8) == 0x1_0000_0000;
    assert Pow16(12) == 0x1_0000_0000_0000;
  }

  /** The hash formatted as sixteen zero-padded lowercase hex digits that spell its value. */
  function ComputeUrlHash(url: string, hasher: string -> U64): (h: string)
    ensures |h| == 16
    ensures forall i :: 0 <= i < 16 ==> IsLowerHex(h[i])
    ensures HexValue(h) == hasher(url)
  {
    Pow16Of16();
    HexPadValue(hasher(url), 16);
    HexPad(hasher(url), 16)
  }

  /** Two URLs get the same hash text exactly when their hashes are equal. */
  lemma UrlHashEqualIff(u1: string, u2: string, hasher: string -> U64)
    ensures ComputeUrlHash(u1, hasher) == ComputeUrlHash(u2, hasher) <==> hasher(u1) == hasher(u2)
  {
  }

  /** `generate_cache_path`: `<cache_dir>/<16 hex digits>.webp`. */
  function GenerateCachePath(cacheDir: string, url: string, hasher: string -> U64): (p: string)
    ensures StartsWith(p, cacheDir)
    ensures EndsWith(p, ComputeUrlHash(url, hasher) + ".webp")
  {
    JoinPath(cacheDir, ComputeUrlHash(url, hasher) + ".webp")
  }

  /** The cache path depends on the URL only through its hash: equal hashes, equal paths, and back. */
  lemma CachePathEqualIff(cacheDir: string, u1: string, u2: string, hasher: string -> U64)
    ensures GenerateCachePath(cacheDir, u1, hasher) == GenerateCachePath(cacheDir, u2, hasher)
            <==> hasher(u1) == hasher(u2)
  {
    var n1 := ComputeUrlHash(u1, hasher) + ".webp";
    var n2 := ComputeUrlHash(u2, hasher) + ".webp";
    JoinPathInjective(cacheDir, n1, n2);
    UrlHashEqualIff(u1, u2, hasher);
    if n1 == n2 {
      assert n1[..16] == ComputeUrlHash(u1, hasher) && n2[..16] == ComputeUrlHash(u2, hasher);
    }
  }

  // ---------- File extension ----------

  /** The last `/` segment of the URL before its first `?`. */
  function FileNamePart(url: string): (f: string)
    ensures '?' !in f && '/' !in f
  {
    AfterLast(BeforeFirst(url, '?'), '/')
  }

  /** Lower-casing turns no character into one that is not a lowercase letter. */
  lemma LowerKeepsAbsent(s: string, c: char)
    requires !('a' <= c <= 'z') && c !in s
    ensures c !in AsciiLowerStr(s)
  {
  }

  /** The extension rule on a file name: from the last `.` on, lowercased, or ".jpg". */
  function NameExtension(name: string): (ext: string)
    requires '?' !in name && '/' !in name
    ensures |ext| > 0 && ext[0] == '.' && '.' !in ext[1..]
    ensures '/' !in ext && '?' !in ext
    ensures forall i :: 0 <= i < |ext| ==> !('A' <= ext[i] <= 'Z')
    ensures '.' !in name ==> ext == ".jpg"
    ensures '.' in name ==> |ext| <= |name| && ext == AsciiLowerStr(name[|name| - |ext|..])
  {
    match LastIndexOf(name, '.')
    case None => ".jpg"
    case Some(pos) =>
      LowerSuffix(name, pos);
      AsciiLowerStr(name[pos..])
  }

  /** The lowercased suffix of a file name from its last `.` is an extension. */
  lemma LowerSuffix(name: string, pos: nat)
    requires '?' !in name && '/' !in name
    requires pos < |name| && name[pos] == '.' && '.' !in name[pos + 1..]
    ensures var ext := AsciiLowerStr(name[pos..]);
      |ext| > 0 && ext[0] == '.' && '.' !in ext[1..] && '/' !in ext && '?' !in ext &&
      forall i :: 0 <= i < |ext| ==> !('A' <= ext[i] <= 'Z')
  {
    var suffix := name[pos..];
    assert suffix[1..] == name[pos + 1..];
    assert '/' !in suffix && '?' !in suffix by {
      assert forall c :: c in suffix ==> c in name;
    }
    LowerKeepsAbsent(suffix[1..], '.');
    LowerKeepsAbsent(suffix, '/');
    LowerKeepsAbsent(suffix, '?');
    assert AsciiLowerStr(suffix)[1..] == AsciiLowerStr(suffix[1..]);
  }

  /**
   * `extract_file_extension`: the suffix of the URL's file name (the last `/` segment before
   * the first `?`) from its last `.`, lowercased, or ".jpg" when the file name has no `.`.
   */
  function ExtractFileExtension(url: string): (ext: string)
    ensures |ext| > 0 && ext[0] == '.' && '.' !in ext[1..]
    ensures '/' !in ext && '?' !in ext
    ensures forall i :: 0 <= i < |ext| ==> !('A' <= ext[i] <= 'Z')
    ensures '.' !in FileNamePart(url) ==> ext == ".jpg"
    ensures '.' in FileNamePart(url) ==>
      |ext| <= |FileNamePart(url)| &&
      ext == AsciiLowerStr(FileNamePart(url)[|FileNamePart(url)| - |ext|..])
  {
    NameExtension(FileNamePart(url))
  }

  // ---------- Download ----------

  const MaxDownloadSize: nat := 50 * 1024 * 1024

  /**
   * One turn of the body loop: a piece of the body together with the outcome of writing it to
   * the file (`None` when `write_all` succeeds), or a read error from `response.chunk()`.
   */
  datatype ChunkRead = Data(bytes: Bytes, writeError: Option<string>) | ReadFailed(message: string)

  /** A response as the client sees it: status, declared length and the chunks the body yields. */
  datatype Response = Response(status: nat, contentLength: Option<nat>, body: seq<ChunkRead>)

  datatype DownloadError =
    | RequestFailed(message: string)
    | HttpStatus(status: nat)
    | DeclaredTooLarge(length: nat)
    | CreateFailed
    | ChunkFailed(message: string)
    | WriteFailed(message: string)
    | StreamTooLarge
    | EmptyBody

  /** `StatusCode::is_success`: the 2xx range. */
  predicate IsSuccess(status: nat) {
    200 <= status <= 299
  }

  /** Every chunk was read and written to the file. */
  predicate AllStored(body: seq<ChunkRead>) {
    forall i :: 0 <= i < |body| ==> body[i].Data? && body[i].writeError.None?
  }

  /** The bytes of the successful chunks, in order. */
  function DataBytes(body: seq<ChunkRead>): Bytes {
    if |body| == 0 then []
    else (if body[0].Data? then body[0].bytes else []) + DataBytes(body[1..])
  }

  /**
   * The streaming loop of `download_image` from a running total `total`: a read error stops
   * it, a running total above the limit stops it, a failed write of a chunk within the limit
   * stops it, and an empty body is an error. Because the total only grows, it succeeds exactly
   * when every chunk is read and written and the whole body is non-empty and within the limit.
   */
  function StreamOutcome(body: seq<ChunkRead>, total: nat): (r: Result<nat, DownloadError>)
    requires total <= MaxDownloadSize
    ensures r.Ok? <==> AllStored(body) && 0 < total + |DataBytes(body)| <= MaxDownloadSize
    ensures r.Ok? ==> r.value == total + |DataBytes(body)|
    decreases |body|
  {
    if |body| == 0 then (if total == 0 then Err(EmptyBody) else Ok(total))
    else
      match body[0]
      case ReadFailed(m) => Err(ChunkFailed(m))
      case Data(b, w) =>
        assert AllStored(body) <==> w.None? && AllStored(body[1..]) by {
          if w.None? && AllStored(body[1..]) {
            forall i | 0 <= i < |body| ensures body[i].Data? && body[i].writeError.None? {
              if i > 0 { assert body[i] == body[1..][i - 1]; }
            }
          }
        }
        if total + |b| > MaxDownloadSize then Err(StreamTooLarge)
        else if w.Some? then Err(WriteFailed(w.value))
        else StreamOutcome(body[1..], total + |b|)
  }

  /** One turn of the streaming loop, and where it leaves the rest of the body. */
  lemma StreamStep(rest: seq<ChunkRead>, total: nat)
    requires total <= MaxDownloadSize && |rest| > 0
    ensures rest[0].ReadFailed? ==> StreamOutcome(rest, total) == Err(ChunkFailed(rest[0].message))
    ensures rest[0].Data? && total + |rest[0].bytes| > MaxDownloadSize ==>
      StreamOutcome(rest, total) == Err(StreamTooLarge)
    ensures rest[0].Data? && total + |rest[0].bytes| <= MaxDownloadSize && rest[0].writeError.Some? ==>
      StreamOutcome(rest, total) == Err(WriteFailed(rest[0].writeError.value))
    ensures rest[0].Data? && total + |rest[0].bytes| <= MaxDownloadSize && rest[0].writeError.None? ==>
      StreamOutcome(rest, total) == StreamOutcome(rest[1..], total + |rest[0].bytes|)
    ensures rest[0].Data? ==> DataBytes(rest) == rest[0].bytes + DataBytes(rest[1..])
  {
  }

  /** The response declares a `Content-Length` above the limit. */
  predicate DeclaredOverLimit(resp: Response) {
    resp.contentLength.Some? && resp.contentLength.value > MaxDownloadSize
  }

  /** What `download_image` returns for a given request outcome. */
  function DownloadVerdict(request: Result<Response, string>, canCreate: bool): (r: Result<nat, DownloadError>)
    ensures r.Ok? ==> request.Ok? && IsSuccess(request.value.status) && canCreate
    ensures r.Ok? ==> 0 < r.value <= MaxDownloadSize && r.value == |DataBytes(request.value.body)|
    ensures request.Ok? && !IsSuccess(request.value.status) ==> r == Err(HttpStatus(request.value.status))
    ensures request.Ok? && IsSuccess(request.value.status) && request.value.contentLength.Some?
            && request.value.contentLength.value > MaxDownloadSize
            ==> r == Err(DeclaredTooLarge(request.value.contentLength.value))
    ensures request.Err? ==> r == Err(RequestFailed(request.error))
    ensures request.Ok? && IsSuccess(request.value.status) && !DeclaredOverLimit(request.value) ==>
      r == (if canCreate then StreamOutcome(request.value.body, 0) else Err(CreateFailed))
    ensures r.Ok? <==>
      && request.Ok? && IsSuccess(request.value.status) && !DeclaredOverLimit(request.value) && canCreate
      && AllStored(request.value.body) && 0 < |DataBytes(request.value.body)| <= MaxDownloadSize
  {
    match request
    case Err(m) => Err(RequestFailed(m))
    case Ok(resp) =>
      if !IsSuccess(resp.status) then Err(HttpStatus(resp.status))
      else if resp.contentLength.Some? && resp.contentLength.value > MaxDownloadSize then
        Err(DeclaredTooLarge(resp.contentLength.value))
      else if !canCreate then Err(CreateFailed)
      else StreamOutcome(resp.body, 0)
  }

  /**
   * `download_image`: checks status and declared length, then streams chunks into the file
   * (`written`), stopping as soon as the running total passes the limit.
   */
  method DownloadImage(request: Result<Response, string>, canCreate: bool)
    returns (r: Result<nat, DownloadError>, written: Bytes)
    ensures r == DownloadVerdict(request, canCreate)
    ensures r.Ok? ==> written == DataBytes(request.value.body) && |written| == r.value
  {
    written := [];
    if request.Err? {
      return Err(RequestFailed(request.error)), written;
    }
    var resp := request.value;
    if !IsSuccess(resp.status) {
      return Err(HttpStatus(resp.status)), written;
    }
    if resp.contentLength.Some? && resp.contentLength.value > MaxDownloadSize {
      return Err(DeclaredTooLarge(resp.contentLength.value)), written;
    }
    if !canCreate {
      return Err(CreateFailed), written;
    }
    r, written := StreamBody(resp.body);
  }

  /**
   * The streaming loop of `download_image`: writes chunk after chunk, stopping at the first
   * read error, as soon as the running total passes the limit, or at the first failed write.
   */
  method StreamBody(body: seq<ChunkRead>) returns (r: Result<nat, DownloadError>, written: Bytes)
    ensures r == StreamOutcome(body, 0)
    ensures r.Ok? ==> written == DataBytes(body) && |written| == r.value
  {
    written := [];
    var total := 0;
    var i := 0;
    assert body[0..] == body;
    while i < |body|
      invariant 0 <= i <= |body|
      invariant total <= MaxDownloadSize && total == |written|
      invariant StreamOutcome(body[i..], total) == StreamOutcome(body, 0)
      invariant written + DataBytes(body[i..]) == DataBytes(body)
    {
      StreamStep(body[i..], total);
      assert body[i..][0] == body[i] && body[i..][1..] == body[i + 1..];
      if body[i].ReadFailed? {
        return Err(ChunkFailed(body[i].message)), written;
      }
      var b := body[i].bytes;
      if total + |b| > MaxDownloadSize {
        return Err(StreamTooLarge), written;
      }
      if body[i].writeError.Some? {
        return Err(WriteFailed(body[i].writeError.value)), written;
      }
      assert written + b + DataBytes(body[i + 1..]) == written + (b + DataBytes(body[i + 1..]));
      total := total + |b|;
      written := written + b;
      i := i + 1;
    }
    if total == 0 {
      return Err(EmptyBody), written;
    }
    r := Ok(total);
  }

  // ---------- One URL ----------

  /** The services `process_single_thumbnail` calls. */
  datatype ThumbEnv = ThumbEnv(
    hasher: string -> U64,                           // DefaultHasher over the URL
    fileExists: string -> bool,                          // Path::exists
    fetch: string -> Result<Response, string>,       // GET with a 30 s timeout
    canCreate: string -> bool,                       // File::create on the temp path
    compress: (string, string) -> Result<nat, string>) // compress_to_thumbnail(input, output)

  /** What happened to one URL. */
  datatype ThumbOutcome =
    | CacheHit(path: string)
    | Generated(path: string, downloaded: nat, thumbnailSize: nat)
    | Failed(message: string)

  function OutcomeResult(o: ThumbOutcome): Result<string, string> {
    match o
    case CacheHit(p) => Ok(p)
    case Generated(p, _, _) => Ok(p)
    case Failed(m) => Err(m)
  }

  /** The download target: `<temp_dir>/thumb_<uuid><ext>`. */
  function TempPath(tempDir: string, uuid: string, url: string): string
  {
    JoinPath(tempDir, "thumb_" + uuid + ExtractFileExtension(url))
  }

  function DownloadErrorMessage(e: DownloadError): string {
    match e
    case RequestFailed(m) => "Failed to download image: " + m
    case HttpStatus(s) => "HTTP error " + Decimal(s)
    case DeclaredTooLarge(n) => "Image too large (" + Decimal(n) + " bytes)"
    case CreateFailed => "Failed to create file"
    case ChunkFailed(m) => "Failed to read response chunk: " + m
    case WriteFailed(m) => "Failed to write to file: " + m
    case StreamTooLarge => "Downloaded data exceeds maximum size"
    case EmptyBody => "Downloaded image is empty"
  }

  /**
   * `process_single_thumbnail`: an existing cache file is returned as it is; otherwise the URL
   * is downloaded to a fresh temp file and compressed into the cache path, which is returned.
   * Removing the temp file afterwards cannot fail the step.
   */
  function ProcessSingleThumbnail(env: ThumbEnv, url: string, cacheDir: string, tempDir: string,
                                  uuid: string): (o: ThumbOutcome)
    ensures env.fileExists(GenerateCachePath(cacheDir, url, env.hasher)) <==> o.CacheHit?
    ensures o.CacheHit? || o.Generated? ==> o.path == GenerateCachePath(cacheDir, url, env.hasher)
    ensures o.Generated? ==>
      0 < o.downloaded <= MaxDownloadSize &&
      DownloadVerdict(env.fetch(url), env.canCreate(TempPath(tempDir, uuid, url))) == Ok(o.downloaded)
    ensures
      var cachePath := GenerateCachePath(cacheDir, url, env.hasher);
      var tempPath := TempPath(tempDir, uuid, url);
      var verdict := DownloadVerdict(env.fetch(url), env.canCreate(tempPath));
      && (o.Generated? <==> !env.fileExists(cachePath) && verdict.Ok? && env.compress(tempPath, cachePath).Ok?)
      && (o.Generated? ==> o.thumbnailSize == env.compress(tempPath, cachePath).value)
      && (!env.fileExists(cachePath) && verdict.Err? ==> o == Failed(DownloadErrorMessage(verdict.error)))
      && (!env.fileExists(cachePath) && verdict.Ok? && env.compress(tempPath, cachePath).Err? ==>
            o == Failed(env.compress(tempPath, cachePath).error))
  {
    var cachePath := GenerateCachePath(cacheDir, url, env.hasher);
    if env.fileExists(cachePath) then CacheHit(cachePath)
    else
      var tempPath := TempPath(tempDir, uuid, url);
      match DownloadVerdict(env.fetch(url), env.canCreate(tempPath))
      case Err(e) => Failed(DownloadErrorMessage(e))
      case Ok(size) =>
        match env.compress(tempPath, cachePath)
        case Err(m) => Failed(m)
        case Ok(thumb) => Generated(cachePath, size, thumb)
  }

  // ---------- Batch ----------

  /** The successful paths, in order. */
  function Successes(rs: seq<Result<string, string>>): seq<string> {
    if |rs| == 0 then []
    else Successes(rs[..|rs| - 1]) + (if rs[|rs| - 1].Ok? then [rs[|rs| - 1].value] else [])
  }

  /** How many results failed. */
  function Failures(rs: seq<Result<string, string>>): nat {
    if |rs| == 0 then 0
    else Failures(rs[..|rs| - 1]) + (if rs[|rs| - 1].Err? then 1 else 0)
  }

  /** Every result is counted once, as a success or as a failure, and every success is kept. */
  lemma {:induction false} SuccessesAndFailures(rs: seq<Result<string, string>>)
    ensures |Successes(rs)| + Failures(rs) == |rs|
    ensures forall i :: 0 <= i < |rs| && rs[i].Ok? ==> rs[i].value in Successes(rs)
    decreases |rs|
  {
    if |rs| > 0 {
      var u := rs[..|rs| - 1];
      SuccessesAndFailures(u);
      forall i | 0 <= i < |rs| && rs[i].Ok? ensures rs[i].value in Successes(rs) {
        if i < |u| {
          assert u[i] == rs[i];
        }
      }
    }
  }

  /** No success means every result failed. */
  lemma NoSuccessMeansAllFailed(rs: seq<Result<string, string>>)
    requires Successes(rs) == []
    ensures Failures(rs) == |rs|
  {
    SuccessesAndFailures(rs);
  }

  /** The per-URL results of a batch (the concurrent `join_all`, taken in input order). */
  function BatchResults(env: ThumbEnv, urls: seq<string>, cacheDir: string, tempDir: string,
                        newUuid: nat -> string): (rs: seq<Result<string, string>>)
    ensures |rs| == |urls|
    ensures forall i :: 0 <= i < |urls| ==>
      rs[i] == OutcomeResult(ProcessSingleThumbnail(env, urls[i], cacheDir, tempDir, newUuid(i)))
  {
    seq(|urls|, i requires 0 <= i < |urls| =>
      OutcomeResult(ProcessSingleThumbnail(env, urls[i], cacheDir, tempDir, newUuid(i))))
  }

  /** The collecting loop of `generate_thumbnails`: successful paths kept in order, failures counted. */
  method Tally(results: seq<Result<string, string>>) returns (output: seq<string>, failedCount: nat)
    ensures output == Successes(results)
    ensures failedCount == Failures(results)
  {
    output := [];
    failedCount := 0;
    var i := 0;
    while i < |results|
      invariant 0 <= i <= |results|
      invariant output == Successes(results[..i])
      invariant failedCount == Failures(results[..i])
    {
      assert results[..i + 1][..i] == results[..i];
      match results[i] {
        case Ok(path) => output := output + [path];
        case Err(_) => failedCount := failedCount + 1;
      }
      i := i + 1;
    }
    assert results[..i] == results;
  }

  /**
   * `generate_thumbnails`: resolves the cache and temp directories, processes every URL, keeps
   * the successful paths in order and counts the failures; the batch fails only when there was
   * a failure and no success.
   */
  method GenerateThumbnails(env: ThumbEnv, urls: seq<string>, cacheDir: Result<string, string>,
                            tempDir: Result<string, string>, newUuid: nat -> string)
    returns (r: Result<seq<string>, string>)
    ensures cacheDir.Err? || tempDir.Err? ==> r.Err?
    ensures cacheDir.Ok? && tempDir.Ok? ==>
      var rs := BatchResults(env, urls, cacheDir.value, tempDir.value, newUuid);
      (r.Err? <==> Failures(rs) > 0 && Successes(rs) == []) &&
      (r.Ok? ==> r.value == Successes(rs))
    ensures |urls| == 0 && cacheDir.Ok? && tempDir.Ok? ==> r == Ok([])
  {
    if cacheDir.Err? {
      return Err(cacheDir.error);
    }
    if tempDir.Err? {
      return Err(tempDir.error);
    }
    var results := BatchResults(env, urls, cacheDir.value, tempDir.value, newUuid);
    var output, failedCount := Tally(results);
    if failedCount > 0 && |output| == 0 {
      return Err("Failed to generate all " + Decimal(failedCount) + " thumbnails");
    }
    r := Ok(output);
  }

  /** `get_thumbnail_path`: the cache path when that file exists, `None` otherwise. */
  function GetThumbnailPath(cacheDir: Result<string, string>, url: string, hasher: string -> U64,
                            fileExists: string -> bool): (r: Result<Option<string>, string>)
    ensures cacheDir.Err? <==> r.Err?
    ensures r.Ok? ==> (r.value.Some? <==> fileExists(GenerateCachePath(cacheDir.value, url, hasher)))
    ensures r.Ok? && r.value.Some? ==> EndsWith(r.value.value, ComputeUrlHash(url, hasher) + ".webp")
  {
    var dir :- cacheDir;
    var p := GenerateCachePath(dir, url, hasher);
    Ok(if fileExists(p) then Some(p) else None)
  }

  /** A path reported by `get_thumbnail_path` is one the next batch serves from the cache. */
  lemma ReportedPathIsCacheHit(env: ThumbEnv, url: string, cacheDir: string, tempDir: string, uuid: string)
    requires GetThumbnailPath(Ok(cacheDir), url, env.hasher, env.fileExists).value.Some?
    ensures ProcessSingleThumbnail(env, url, cacheDir, tempDir, uuid)
            == CacheHit(GetThumbnailPath(Ok(cacheDir), url, env.hasher, env.fileExists).value.value)
  {
  }

  // ---------- Cache size ----------

  /** One directory entry as `get_thumbnail_cache_size` sees it. */
  datatype CacheEntry = CacheEntry(isFile: bool, size: Result<nat, string>)

  /** Every entry could be read, and so could every regular file's metadata. */
  predicate EntriesReadable(es: seq<Result<CacheEntry, string>>) {
    forall i :: 0 <= i < |es| ==> es[i].Ok? && (es[i].value.isFile ==> es[i].value.size.Ok?)
  }

  /** The total size of the regular files among readable entries. */
  function FileBytes(es: seq<Result<CacheEntry, string>>): nat {
    if |es| == 0 then 0
    else
      (if es[0].Ok? && es[0].value.isFile && es[0].value.size.Ok? then es[0].value.size.value else 0)
      + FileBytes(es[1..])
  }

  /** The summing loop from a running total `acc`: the first unreadable entry or metadata fails it. */
  function SumEntries(es: seq<Result<CacheEntry, string>>, acc: nat): (r: Result<nat, string>)
    ensures r.Ok? <==> EntriesReadable(es)
    ensures r.Ok? ==> r.value == acc + FileBytes(es)
    decreases |es|
  {
    if |es| == 0 then Ok(acc)
    else
      assert EntriesReadable(es) <==> EntriesReadable(es[..1]) && EntriesReadable(es[1..]) by {
        if EntriesReadable(es[..1]) && EntriesReadable(es[1..]) {
          forall i | 0 <= i < |es| ensures es[i].Ok? && (es[i].value.isFile ==> es[i].value.size.Ok?) {
            if i > 0 { assert es[i] == es[1..][i - 1]; } else { assert es[0] == es[..1][0]; }
          }
        }
        if EntriesReadable(es) {
          assert es[0] == es[..1][0];
        }
      }
      match es[0]
      case Err(e) => Err("Failed to read directory entry: " + e)
      case Ok(entry) =>
        if !entry.isFile then SumEntries(es[1..], acc)
        else
          match entry.size
          case Err(e) => Err("Failed to get file metadata: " + e)
          case Ok(n) => SumEntries(es[1..], acc + n)
  }

  /**
   * `get_thumbnail_cache_size`: 0 for a missing directory; otherwise the sum of the sizes of
   * the regular files in it, or the first read error.
   */
  method GetThumbnailCacheSize(cacheDir: Result<string, string>, dirExists: bool,
                               listing: Result<seq<Result<CacheEntry, string>>, string>)
    returns (r: Result<nat, string>)
    ensures cacheDir.Err? ==> r.Err?
    ensures cacheDir.Ok? && !dirExists ==> r == Ok(0)
    ensures cacheDir.Ok? && dirExists && listing.Err? ==> r.Err?
    ensures cacheDir.Ok? && dirExists && listing.Ok? ==> r == SumEntries(listing.value, 0)
  {
    if cacheDir.Err? {
      return Err(cacheDir.error);
    }
    if !dirExists {
      return Ok(0);
    }
    if listing.Err? {
      return Err("Failed to read cache dir: " + listing.error);
    }
    var es := listing.value;
    var total := 0;
    var i := 0;
    assert es[0..] == es;
    while i < |es|
      invariant 0 <= i <= |es|
      invariant SumEntries(es[i..], total) == SumEntries(es, 0)
    {
      assert es[i..][1..] == es[i + 1..];
      match es[i] {
        case Err(e) =>
          return Err("Failed to read directory entry: " + e);
        case Ok(entry) =>
          if entry.isFile {
            match entry.size {
              case Err(e) =>
                return Err("Failed to get file metadata: " + e);
              case Ok(n) =>
                total := total + n;
            }
          }
      }
      i := i + 1;
    }
    r := Ok(total);
  }
}
