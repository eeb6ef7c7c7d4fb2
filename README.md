# yana backend core in Dafny

This project models the decision-making core of the yana desktop app's Tauri backend
(`src-tauri/src`). That core sits between the image codecs, the file system, the network,
SQLite and the AWS SDK:

- **Compression pipeline** (`process.rs`, module `Process`):
  - channel quantisation and the quality-to-step table of the lossy PNG pass;
  - the in-place pixel loop;
  - the `ANIM` scan that tells animated WebP from static;
  - the (kind, mode) dispatch between re-encoding and passing bytes through;
  - `compress_images`' clamping, fallback and index order;
  - `save_files` and `get_file_sizes`.
- **Thumbnail cache** (`thumbnail.rs`, module `Thumbnail`):
  - the 16-hex-digit URL hash and the cache path;
  - URL extension extraction;
  - the streaming download with its 50 MiB limit;
  - the cache-hit rule;
  - batch aggregation;
  - path lookup and the cache-size sum.
- **S3 naming and URLs** (`s3.rs`, module `S3`):
  - file-name sanitising and object keys;
  - public URLs;
  - canned-ACL parsing;
  - endpoint trimming and signing region;
  - the path-style default;
  - the upload and delete commands around the SDK.
- **Settings** (`settings.rs`, module `Settings`): the default payload, clamping, and reading and writing through serde.
- **Image-host plugins** (`image_hosts.rs`, module `ImageHosts`):
  - plugin-file collection and the id rule;
  - the desktop branch of discovery, with the built-in `s3` entry and the sort by id;
  - per-plugin settings load and save;
  - adding a plugin file.
- **Gallery** (`gallery.rs`, module `Gallery`):
  - the conditional SQL and parameter builder;
  - the timestamp rule on insert;
  - the sorted, de-duplicated host list.

Two modules support these:

- `Text` models the Rust standard-library string operations the code relies on: `trim`, `trim_matches`, `rfind`, `to_ascii_lowercase`, `join`, and `Path::join` with `/`.
- `Sorting` models the stable `sort_by`/`sort` as insertion sort. It provides a functional specification and an in-place array method proved equal to it.

Every library call becomes a function-typed parameter, or a datatype of such functions (`Codecs`, `Host`, `ThumbEnv`, `S3Env`, `DateCodec`):

- image codecs, `guess_format`, the GIF frame probe and gif2webp;
- `fs`, reqwest, SQLite, the AWS SDK;
- `DefaultHasher`, `Uuid::new_v4`, `Utc::now`, chrono parsing and formatting, `mime_guess`, serde.

The model states what the code does with whatever those calls return. Loops that the Rust code runs as loops (the pixel loop, the download stream, the batch tally, the cache-size sum, plugin collection, query building, sort and dedup) are Dafny methods with loop invariants, proved against specification functions.

## Model

| member | source | states |
|---|---|---|
| Process.QuantizeChannel | src-tauri/src/process.rs:213-221 | a step of 0 or 1 leaves the value unchanged; otherwise the result is a multiple of the step or 255, and lies within step/2 of the input |
| Process.RoundNearest | src-tauri/src/process.rs:217-218 | rounding `(v + step/2) / step * step` gives a multiple of the step within step/2 of v |
| Process.QuantizeMonotone | src-tauri/src/process.rs:213-221 | quantisation preserves the order of channel values |
| Process.QuantizeIdempotent | src-tauri/src/process.rs:213-221 | quantising an already quantised value changes nothing |
| Process.LossyStep | src-tauri/src/process.rs:186-194 | the step is one of 1, 2, 4, 8, 16, 32, 48, and it is 1 exactly when quality is above 95 |
| Process.LossyStepNonIncreasing | src-tauri/src/process.rs:186-194 | higher quality never gives a coarser step |
| Process.PngPixels | src-tauri/src/process.rs:185-201 | same length; unchanged in lossless mode or above quality 95; alpha never changes; in lossy mode each colour channel stays within half a step of its input |
| Process.QuantizeForPng | src-tauri/src/process.rs:195-201 | the in-place loop over the RGBA buffer leaves exactly `PngPixels` of the old buffer |
| Process.HasAnimChunkIff | src-tauri/src/process.rs:154-163 | the recursive scan finds `ANIM` iff some 4-byte window of the input equals `ANIM` |
| Process.DetectKind | src-tauri/src/process.rs:137-167 | fails iff `guess_format` fails or a GIF's frame decoding fails; keeps the guessed format; a GIF is animated iff a second frame exists; formats other than GIF and WebP are static; a WebP is animated iff some 4-byte window is `ANIM` |
| Process.JpegInputFor | src-tauri/src/process.rs:223-265 | the JPEG encoder flattens to RGB8 exactly when the colour type is neither L8 nor Rgb8 |
| Process.WebpLayoutFor | src-tauri/src/process.rs:267-283 | the static WebP encoder uses RGBA exactly for colour types with alpha |
| Process.EncoderFor | src-tauri/src/process.rs:285-315 | the chosen encoder writes the requested format, with the matching quality and PNG options |
| Process.PlanFor | src-tauri/src/process.rs:420-455 | static input is re-encoded, in WebP under `webp` mode and in its own format otherwise; animated GIF under `webp` goes to gif2webp; every other animated input passes through |
| Process.AnimatedPassThrough | src-tauri/src/process.rs:439-455 | animated input under `original_format`, and animated non-GIF input under `webp`, come out as the input bytes |
| Process.StaticReencode | src-tauri/src/process.rs:421-437 | static input under `webp` is the WebP encoding of the decoded image; under `original_format` it is encoded in the detected format; lossless PNG is written straight from the RGBA buffer |
| Process.ProcessOne | src-tauri/src/process.rs:396-469 | succeeds iff reading, kind detection, temp-file creation, transcoding and keeping the file all succeed, and then returns the path under which the transcoded bytes were kept |
| Process.ProcessData | src-tauri/src/process.rs:544-621 | succeeds iff kind detection, temp-file creation, transcoding and keeping the file all succeed, and then returns the path under which the transcoded bytes were kept |
| Process.CompressImageDataClamp | src-tauri/src/process.rs:623-652 | any quality of 100 or more behaves as 100; a quality up to 100 is handed to the buffer pipeline unchanged |
| Process.ProcessOneKeepsAnimatedBytes | src-tauri/src/process.rs:396-469 | an animated input that is passed through is kept byte for byte as it was read |
| Process.CompressImages | src-tauri/src/process.rs:472-516 | one output per input path, in input order; entry i is the produced path for path i at quality min(q, 100), or path i itself when that item failed |
| Process.Tagged | src-tauri/src/process.rs:490-503 | builds the vector of (index, outcome) pairs, one per path, in order |
| Process.Pairs | src-tauri/src/process.rs:530 | zips sources with destinations position by position |
| Process.CopiedBound | src-tauri/src/process.rs:530-540 | the copy count is at most the number of pairs, and equals it iff every copy succeeded |
| Process.SaveFiles | src-tauri/src/process.rs:520-542 | differing lengths give an error with no copy attempted; otherwise every pair is attempted in order, and the count of successful copies is returned, which is at most the number of sources |
| Process.FileSizes | src-tauri/src/process.rs:684-705 | one size per path, the metadata length or 0 when the metadata call fails |
| Sorting.InsertAt | src-tauri/src/process.rs:508 | inserting x into t puts it after every element it is not below and before the first element it is below, which makes the sort stable |
| Sorting.SortedIsFixpoint | src-tauri/src/process.rs:508 | sorting an already sorted sequence returns it unchanged |
| Sorting.SortBySorted | src-tauri/src/image_hosts.rs:218 | under a total preorder the sorted sequence is sorted |
| Sorting.SortByPermutes | src-tauri/src/gallery.rs:317 | sorting is a permutation: the multiset of elements is unchanged |
| Sorting.SortByElements | src-tauri/src/gallery.rs:317 | sorting keeps exactly the same elements |
| Sorting.SortInPlace | src-tauri/src/process.rs:508 | the in-place sort leaves the array equal to `SortBy` of its old contents |
| Sorting.InsertStep | src-tauri/src/process.rs:508 | one pass of the in-place sort inserts element i into the sorted prefix and leaves the rest alone |
| Thumbnail.HexPad | src-tauri/src/thumbnail.rs:66-67 | zero-padded hex formatting gives exactly n lowercase hex digits |
| Thumbnail.HexPadValue | src-tauri/src/thumbnail.rs:66-67 | the padded hex digits read back as the number, for numbers below 16^n |
| Thumbnail.ComputeUrlHash | src-tauri/src/thumbnail.rs:60-68 | exactly 16 lowercase hex digits whose value is the 64-bit hash of the URL |
| Thumbnail.UrlHashEqualIff | src-tauri/src/thumbnail.rs:60-68 | two URLs get the same hash text iff the hasher gives them the same value |
| Thumbnail.GenerateCachePath | src-tauri/src/thumbnail.rs:87-90 | the path is under the cache directory and ends in `<hash>.webp` |
| Thumbnail.CachePathEqualIff | src-tauri/src/thumbnail.rs:87-90 | two URLs share a cache path iff their hashes are equal |
| Thumbnail.FileNamePart | src-tauri/src/thumbnail.rs:72-74 | the part after the query cut and the last `/` holds neither `?` nor `/` |
| Thumbnail.NameExtension | src-tauri/src/thumbnail.rs:75-82 | `.jpg` when the name has no `.`; otherwise the lower-cased suffix from the last `.`, which has exactly one `.` |
| Thumbnail.ExtractFileExtension | src-tauri/src/thumbnail.rs:71-83 | always a single-dot extension without `/`, `?` or capitals: the lower-cased last-dot suffix of the URL's file name, or `.jpg` |
| Thumbnail.StreamOutcome | src-tauri/src/thumbnail.rs:127-149 | streaming succeeds iff every chunk is read and written to the file and the total is positive and at most 50 MiB, and then returns that total |
| Thumbnail.StreamStep | src-tauri/src/thumbnail.rs:127-144 | one chunk: a read error fails, passing the limit fails, a failed write within the limit fails, otherwise the stream continues with the larger total |
| Thumbnail.DownloadVerdict | src-tauri/src/thumbnail.rs:93-157 | a failed request, a non-success status, a declared length over 50 MiB and an uncreatable file are each reported as such; past those checks the verdict is the streaming outcome; success iff all checks pass and every chunk is read and written with 0 < size <= 50 MiB, the size being the body's byte count |
| Thumbnail.DownloadImage | src-tauri/src/thumbnail.rs:93-157 | the download returns the verdict, and on success the bytes written are the whole body |
| Thumbnail.StreamBody | src-tauri/src/thumbnail.rs:127-149 | the chunk loop (read, limit check, write) returns the stream outcome, having written every chunk's bytes in order |
| Thumbnail.ProcessSingleThumbnail | src-tauri/src/thumbnail.rs:200-249 | a cache hit happens exactly when the cache file exists; a thumbnail is generated exactly on a miss whose download and compression both succeed; hits and generated thumbnails both report the cache path; a failed download or compression fails with its own message |
| Thumbnail.SuccessesAndFailures | src-tauri/src/thumbnail.rs:292-304 | successes plus failures count every result, and every success is in the output |
| Thumbnail.NoSuccessMeansAllFailed | src-tauri/src/thumbnail.rs:307-312 | no success means every result failed |
| Thumbnail.BatchResults | src-tauri/src/thumbnail.rs:276-288 | one result per URL, in order, each the outcome of that URL's thumbnail job |
| Thumbnail.Tally | src-tauri/src/thumbnail.rs:289-304 | the loop collects exactly the successful paths in order and counts the failures |
| Thumbnail.GenerateThumbnails | src-tauri/src/thumbnail.rs:264-323 | fails when the cache or temp directory cannot be had; otherwise fails iff something failed and nothing succeeded, else returns the successes in input order; no URLs gives an empty list |
| Thumbnail.GetThumbnailPath | src-tauri/src/thumbnail.rs:328-342 | an error iff the cache directory is unavailable; Some iff the cache file exists, and then the path ends in `<hash>.webp` |
| Thumbnail.ReportedPathIsCacheHit | src-tauri/src/thumbnail.rs:208-219 | a path reported by `get_thumbnail_path` is exactly what thumbnail generation returns as a cache hit for that URL |
| Thumbnail.SumEntries | src-tauri/src/thumbnail.rs:369-380 | succeeds iff every entry and every regular file's metadata can be read, and then adds the sizes of the regular files only |
| Thumbnail.GetThumbnailCacheSize | src-tauri/src/thumbnail.rs:363-383 | 0 for a missing directory, an error for an unreadable one, otherwise the outcome of the summing loop |
| S3.SanitizeFileName | src-tauri/src/s3.rs:93-108 | only `[A-Za-z0-9._-]` in the result; blank input becomes `upload.bin`; otherwise the trimmed input with each other character replaced by `_` |
| S3.SanitizeIdempotent | src-tauri/src/s3.rs:93-108 | sanitising twice is sanitising once |
| S3.KeyNameFixed | src-tauri/src/s3.rs:101-107 | a non-empty name made of key characters is left as it is |
| S3.PadWidth | src-tauri/src/s3.rs:112 | zero-padding a number below 10^w gives exactly w digits |
| S3.FormatDate | src-tauri/src/s3.rs:112 | `%Y/%m/%d` has exactly two `/`; for a four-digit year it is ten characters `YYYY/MM/DD` |
| S3.KeyPrefix | src-tauri/src/s3.rs:114-119 | the prefix trimmed of `/` is empty or neither starts nor ends with `/` |
| S3.GenerateObjectKey | src-tauri/src/s3.rs:110-124 | the key assembled from the segment vector is the specified object key |
| S3.JoinSegments | src-tauri/src/s3.rs:113-123 | joining the segments gives `prefix/date/leaf`, or `date/leaf` when the trimmed prefix is empty |
| S3.ObjectKeyShape | src-tauri/src/s3.rs:110-124 | the key never starts with `/`, and its last segment is `<uuid>-<sanitised name>` |
| S3.BuildPublicUrl | src-tauri/src/s3.rs:134-160 | a public base wins, then a custom endpoint (with the bucket under path style), then the AWS path-style or virtual-host form; every URL ends with `/key` |
| S3.PublicUrlIgnoresTrailingSlash | src-tauri/src/s3.rs:142-148 | a trailing `/` on the public base or the endpoint does not change the URL |
| S3.AclFromName | src-tauri/src/s3.rs:171-179 | a name that parses is the wire name of the ACL it parses to |
| S3.MapAcl | src-tauri/src/s3.rs:162-185 | Ok(None) iff absent or blank; an ACL found is the one named by the trimmed, lower-cased input; an error only for a name outside the seven |
| S3.LookupAcl | src-tauri/src/s3.rs:171-183 | the match succeeds iff the lowered name is one of the seven canned ACL names |
| S3.MapAclRoundTrip | src-tauri/src/s3.rs:162-185 | parsing an ACL's own name gives back that ACL |
| S3.AclFromOwnName | src-tauri/src/s3.rs:171-179 | each of the seven names maps back to its own ACL |
| S3.AclNameShape | src-tauri/src/s3.rs:171-179 | every canned ACL name is non-empty lower-case letters and dashes |
| S3.MapAclCaseInsensitive | src-tauri/src/s3.rs:170 | lower-casing the input first does not change the result |
| S3.SplitN | src-tauri/src/s3.rs:79-80 | `splitn(n, c)` gives between 1 and n pieces |
| S3.FirstPiecesJoined | src-tauri/src/s3.rs:79-83 | re-joining the first n-1 pieces of `splitn(n, '/')` gives the prefix of the string before its (n-1)-th `/`, or the whole string |
| S3.TrimEndpoint | src-tauri/src/s3.rs:78-83 | the trimmed endpoint is a prefix of the endpoint with at most two `/`, cut just before the third `/` when there is one |
| S3.BuildClient | src-tauri/src/s3.rs:51-91 | with an endpoint the signing region is `auto` and the endpoint is trimmed to scheme and host; otherwise the given region and no endpoint; path style and credentials are passed on |
| S3.ResolveForcePathStyle | src-tauri/src/s3.rs:216 | an explicit choice wins; otherwise path style is on iff an endpoint is given |
| S3.ResolveContentType | src-tauri/src/s3.rs:126-132 | the guessed MIME type trimmed, or nothing when there is no guess or it trims to empty |
| S3.S3Upload | src-tauri/src/s3.rs:187-304 | succeeds iff the path is absolute and exists, the file reads, the ACL parses, the put-object request carrying the file's bytes, key, content type and ACL succeeds and the delete marker serialises; success returns the public URL of the key, the serialised marker and the put's metadata |
| S3.S3Delete | src-tauri/src/s3.rs:306-361 | an unparsable delete id fails; succeeds, reporting success, iff the marker decodes and the delete request for it succeeds |
| S3.DeleteTargetsUploadedObject | src-tauri/src/s3.rs:276-290 | when serde round-trips the marker, deleting with an upload's delete id targets that upload's bucket and key with the same client configuration |
| Settings.Clamped | src-tauri/src/settings.rs:42-54 | quality is capped at 100, the upload limit is clamped to 1..5 (an in-range limit is kept whatever the quality), and every other field is kept; a payload already in range is unchanged |
| Settings.ClampedIdempotent | src-tauri/src/settings.rs:42-54 | clamping twice is clamping once |
| Settings.DefaultIsClamped | src-tauri/src/settings.rs:28-40 | the default payload (80, no WebP, lossless, default optimisation, no upload compression, 5 uploads) is in range and a fixed point of clamping |
| Settings.ReadPayload | src-tauri/src/settings.rs:69-77 | a missing file reads as the default; an existing file loads iff it reads and parses, and then comes back clamped |
| Settings.WritePayload | src-tauri/src/settings.rs:79-86 | succeeds iff the clamped payload serialises and that text is written; what is written is the clamped payload's text |
| Settings.SaveThenLoad | src-tauri/src/settings.rs:69-86 | when serde round-trips, reading back a saved payload gives its clamped form |
| Settings.LoadSettings | src-tauri/src/settings.rs:88-105 | fails without a config path; a missing file gives the default; an existing file loads iff it reads and parses, and then gives the clamped parsed payload |
| Settings.SaveSettings | src-tauri/src/settings.rs:107-124 | succeeds iff the config path resolves, the clamped payload serialises and its text is written to that path |
| ImageHosts.FileStem | src-tauri/src/image_hosts.rs:114-118 | the stem is the name up to its last `.`, which is not the first character, or the whole name when there is no such `.` |
| ImageHosts.ScriptStem | src-tauri/src/image_hosts.rs:109-118 | a `.js` or `.mjs` file's id is its name without that suffix (a bare `.js`/`.mjs` keeps its name) |
| ImageHosts.PluginId | src-tauri/src/image_hosts.rs:114-118 | the id is a prefix of the file name |
| ImageHosts.Collect | src-tauri/src/image_hosts.rs:91-122 | succeeds iff every entry reads; keeps earlier ids; every new id comes from a non-directory `.js`/`.mjs` entry |
| ImageHosts.CollectStops | src-tauri/src/image_hosts.rs:92 | the first unreadable entry ends collection, and nothing after it is looked at |
| ImageHosts.CollectDir | src-tauri/src/image_hosts.rs:85-90 | a missing directory adds nothing; an unreadable one fails and adds nothing |
| ImageHosts.CollectPluginsFromDir | src-tauri/src/image_hosts.rs:81-123 | the loop over the directory returns exactly the collection outcome and map |
| ImageHosts.CollectLastWins | src-tauri/src/image_hosts.rs:119 | within a directory the last plugin file with an id provides its path; ids no file names keep their earlier entry |
| ImageHosts.LaterDirectoryWins | src-tauri/src/image_hosts.rs:183-193 | a plugin in the last candidate directory overrides any earlier one with the same id |
| ImageHosts.StripVerbatim | src-tauri/src/image_hosts.rs:199-201 | the `\\?\` prefix is removed when present, and nothing else changes |
| ImageHosts.Registry | src-tauri/src/image_hosts.rs:195-216 | the ids are the collected ids plus `s3`; scripts are the stripped paths; `s3` defaults to `__internal__/s3` only when not collected |
| ImageHosts.EntriesOf | src-tauri/src/image_hosts.rs:195-207 | the map's entries as a list with unique ids |
| ImageHosts.WithBuiltin | src-tauri/src/image_hosts.rs:211-216 | appending the built-in entry when no `s3` id exists lists exactly the registry, ids still unique |
| ImageHosts.SortedRegistry | src-tauri/src/image_hosts.rs:218 | sorting a unique-id listing by id lists the same registry with strictly increasing ids and keeps the `s3` entry |
| ImageHosts.ByIdTotalPreorder | src-tauri/src/image_hosts.rs:218 | comparing entries by id is a total preorder |
| ImageHosts.SortedEntries | src-tauri/src/image_hosts.rs:195-218 | the entries of the registry, strictly sorted by id, including `s3` |
| ImageHosts.DiscoverPlugins | src-tauri/src/image_hosts.rs:125-222 | the result lists exactly the registry of everything collected, strictly sorted by id, and contains an `s3` entry |
| ImageHosts.ReadSettings | src-tauri/src/image_hosts.rs:35-44 | a missing file is the empty map; otherwise the parsed file, or an error when reading or parsing fails |
| ImageHosts.LoadImageHostSettings | src-tauri/src/image_hosts.rs:231-256 | succeeds iff the config path resolves and the settings file reads (a missing file reads as empty); then Some iff the plugin has an entry, and that entry |
| ImageHosts.SaveImageHostSettings | src-tauri/src/image_hosts.rs:258-303 | succeeds iff the path resolves, the file reads, the value is an object or Null, and the updated map serialises and is written; an object sets the plugin's entry and Null removes it; other plugins' entries are untouched |
| ImageHosts.SaveThenLoad | src-tauri/src/image_hosts.rs:231-303 | when serde round-trips, loading after a save gives the saved value (None after Null) and leaves every other plugin's value as before |
| ImageHosts.FileName | src-tauri/src/image_hosts.rs:320-323 | a file name is non-empty, has no `/`, is not `.` or `..`, and ends the path |
| ImageHosts.AddImageHostPlugin | src-tauri/src/image_hosts.rs:305-345 | a missing source or a name not ending in `.js`/`.mjs` is rejected; succeeds iff the source is valid, the config directory resolves, and creating `plugins` and copying into `<config>/plugins/<name>` succeed; returns the file stem as id |
| ImageHosts.AddedPluginIsDiscovered | src-tauri/src/image_hosts.rs:305-345 | the copy has the source's file name, is a plugin file whose collected id is the returned id and whose path is the returned script |
| ImageHosts.FileNameOfJoin | src-tauri/src/image_hosts.rs:319-334 | joining a directory and a plain file name gives a path whose file name is that name |
| Gallery.ClauseSql | src-tauri/src/gallery.rs:163-191 | each filter clause ends in its single `?` placeholder |
| Gallery.DateFilter | src-tauri/src/gallery.rs:172-182 | no bound gives no filter; a bound fails iff it does not parse, and otherwise yields the RFC 3339 form of the parsed time |
| Gallery.FilterFor | src-tauri/src/gallery.rs:162-192 | a field fails iff it is a date bound that does not parse; it yields one filter iff the field is present, and of its own kind |
| Gallery.FiltersOfFails | src-tauri/src/gallery.rs:156-192 | the filter list fails iff some field fails |
| Gallery.FiltersOfMembers | src-tauri/src/gallery.rs:156-192 | every filter comes from one of the listed fields |
| Gallery.FiltersOfPresent | src-tauri/src/gallery.rs:156-192 | every present field contributes its filter |
| Gallery.FiltersOfOrdered | src-tauri/src/gallery.rs:156-192 | filters keep the order of the fields |
| Gallery.Filters | src-tauri/src/gallery.rs:156-192 | fails iff a date bound does not parse; otherwise one filter per present field in the order name, host, start, end, min, max, with `%name%`, the host, the normalised dates and the sizes as parameters |
| Gallery.FiltersPieces | src-tauri/src/gallery.rs:162-192 | the filter list is the concatenation of the six fields' contributions in order |
| Gallery.WhereSql | src-tauri/src/gallery.rs:162-192 | the appended clauses hold one `?` per filter |
| Gallery.Params | src-tauri/src/gallery.rs:162-192 | one parameter per filter, in clause order |
| Gallery.ApplyField | src-tauri/src/gallery.rs:162-192 | one step appends the field's clause and parameter, or fails on a bad date |
| Gallery.BuildQuery | src-tauri/src/gallery.rs:156-194 | fails iff a date is bad; otherwise the SQL is the base, the clauses and the ordering, starts with the `WHERE 1=1` base, ends with the `ORDER BY`, and has as many `?` as parameters |
| Gallery.WhereSqlConcat | src-tauri/src/gallery.rs:162-192 | the clauses of two filter lists are the clauses of each, concatenated |
| Gallery.ParamsConcat | src-tauri/src/gallery.rs:162-192 | the parameters of two filter lists are the parameters of each, concatenated |
| Gallery.QueryShape | src-tauri/src/gallery.rs:157-194 | any filter list gives SQL with the fixed start and end and exactly one `?` per filter |
| Gallery.InsertedAt | src-tauri/src/gallery.rs:117-122 | a provided timestamp must parse and is kept verbatim; otherwise the current time is used |
| Gallery.Insert | src-tauri/src/gallery.rs:107-148 | succeeds iff the timestamp is usable and the insert succeeds; an unparsable timestamp fails; the stored item keeps every given field, takes the chosen timestamp and the id the insert returned |
| Gallery.ListHosts | src-tauri/src/gallery.rs:217-228 | succeeds iff every row reads, and then returns the rows' hosts in order |
| Gallery.DedupElements | src-tauri/src/gallery.rs:318 | removing consecutive duplicates keeps exactly the same elements |
| Gallery.DedupOfSorted | src-tauri/src/gallery.rs:317-318 | dedup of a sorted list is strictly increasing |
| Gallery.DedupInPlace | src-tauri/src/gallery.rs:318 | the in-place dedup leaves `Dedup` of the old contents in the array's prefix |
| Gallery.StrLeTotalPreorder | src-tauri/src/gallery.rs:317 | the string order `sort` uses is a total preorder |
| Gallery.SortDedup | src-tauri/src/gallery.rs:317-318 | sort then dedup gives a strictly increasing list with the same elements |
| Gallery.GalleryListHosts | src-tauri/src/gallery.rs:311-322 | succeeds iff every row reads; then the hosts are strictly increasing, with no duplicates, and are exactly the hosts read |

## Left out

- Image codecs, `image::guess_format`, GIF frame probing, pixel decoding and encoding, and the Lanczos thumbnail resize (`compress_to_thumbnail`) are library calls, given as parameters; only the dispatch around them is modelled.
- The gif2webp sidecar process and its event loop (`convert_gif_to_webp`) are an external process; the model records only that animated GIF under `webp` mode goes there.
- rayon `into_par_iter` in `compress_images` and `join_all` in `generate_thumbnails` are modelled as sequential maps; only order and length matter to the results.
- File system, tempfile, reqwest, SQLite, the AWS SDK, `DefaultHasher`, `Uuid::new_v4`, `Utc::now`, chrono, `mime_guess` and serde are parameters; their own behaviour is not modelled.
- `save_image_data`, `clean_app_temp_dir` and the temp-directory helpers only move bytes to and from disk.
- `clear_thumbnail_cache` only removes and recreates a directory.
- `ensure_schema`, `store_from_app`, `GalleryStore::delete` and the row decoding of `query` are SQLite plumbing; the model builds the SQL text and parameters, not their execution.
- `candidate_plugin_dirs` is app-path resolution; discovery takes the candidate directories and their listings as input.
- The Android branch of `discover_plugins` is left out; only the desktop branch is modelled.
- upload.rs, file_picker.rs and lib.rs are not part of this model (HTTP upload wrapper, Android file APIs, app bootstrap and logging).
- Logging calls are left out everywhere.
- The test in settings.rs that names a `forceAnimatedWebp` field is not modelled, since the payload has no such field.
- Thumbnail.ExtractFileExtension: Unicode `to_lowercase` is modelled as ASCII lower-casing; non-ASCII capitals are not folded.
- Thumbnail.SumEntries: the cache total is an unbounded natural; the model does not capture `u64` overflow of `total_size`.
- Thumbnail.StreamOutcome: the running download total is an unbounded natural; `u64` wrap-around cannot happen below the 50 MiB limit that stops the loop.
- Thumbnail.DownloadVerdict: error messages are modelled by kind, not their exact text with the URL and HTTP reason.
- Thumbnail.GetThumbnailPath: a cache path that is not valid UTF-8 (the `to_str` failure) is not modelled; paths are strings.
- ImageHosts.FileName: `Path::file_name` is modelled for `/`-separated paths; Windows separators, path normalisation and non-UTF-8 names are not.
- ImageHosts.DiscoverPlugins: `BTreeMap` iteration order is not modelled; the collected map is listed and then sorted by id, which gives the same list because ids are unique.
- Settings.ReadPayload: serde field defaults when parsing are part of the parse parameter, not modelled separately.
- Process.ProcessOne: the temp output path and file naming (uuid, extension) are a parameter of the host, not modelled in detail.
- S3.S3Upload: the SDK error-detail formatting is reduced to the SDK's error text.
- S3.FormatDate: the date comes in as year, month and day; the clock and the calendar are not modelled.
