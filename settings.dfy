/**
 * The settings file of `settings.rs`: the default payload, the normalisation applied on every
 * read and write, and the load/save commands around it. Reading, writing and the JSON codec
 * are parameters.
 */
module Settings {
  import opened Wrappers
  import Process

  type U8 = Process.Byte

  const SettingsFile: string := "settings.json"

  datatype SettingsPayload = SettingsPayload(
    quality: U8,
    convertToWebp: bool,
    pngCompressionMode: Process.PngCompressionMode,
    pngOptimization: Process.PngOptimizationLevel,
    enableUploadCompression: bool,
    maxConcurrentUploads: U8)

  /** `default_max_concurrent_uploads` */
  const DefaultMaxConcurrentUploads: U8 := 5

  /** `SettingsPayload::default`: quality 80, no WebP, lossless default PNG, no upload compression, 5 uploads. */
  const DefaultPayload: SettingsPayload := SettingsPayload(
    80, false, Process.Lossless, Process.Default, false, DefaultMaxConcurrentUploads)

  /** The payloads `clamped` leaves alone. */
  predicate IsClamped(p: SettingsPayload) {
    p.quality <= 100 && 1 <= p.maxConcurrentUploads <= DefaultMaxConcurrentUploads
  }

  /**
   * `clamped`: quality capped at 100, the upload concurrency pulled into 1..=5, the other
   * fields kept. The result is always clamped, and a clamped payload is its own result.
   */
  function Clamped(p: SettingsPayload): (c: SettingsPayload)
    ensures IsClamped(c)
    ensures IsClamped(p) ==> c == p
    ensures p.quality <= 100 ==> c.quality == p.quality
    ensures p.quality > 100 ==> c.quality == 100
    ensures p.maxConcurrentUploads == 0 ==> c.maxConcurrentUploads == 1
    ensures p.maxConcurrentUploads > DefaultMaxConcurrentUploads ==> c.maxConcurrentUploads == DefaultMaxConcurrentUploads
    ensures 1 <= p.maxConcurrentUploads <= DefaultMaxConcurrentUploads ==> c.maxConcurrentUploads == p.maxConcurrentUploads
    ensures c.convertToWebp == p.convertToWebp && c.pngCompressionMode == p.pngCompressionMode
    ensures c.pngOptimization == p.pngOptimization && c.enableUploadCompression == p.enableUploadCompression
  {
    var q := if p.quality <= 100 then p.quality else 100;
    var m := if p.maxConcurrentUploads < 1 then 1
             else if p.maxConcurrentUploads > DefaultMaxConcurrentUploads then DefaultMaxConcurrentUploads
             else p.maxConcurrentUploads;
    p.(quality := q, maxConcurrentUploads := m)
  }

  /** Clamping twice is clamping once. */
  lemma ClampedIdempotent(p: SettingsPayload)
    ensures Clamped(Clamped(p)) == Clamped(p)
  {
  }

  /** The default payload is already clamped. */
  lemma DefaultIsClamped()
    ensures IsClamped(DefaultPayload) && Clamped(DefaultPayload) == DefaultPayload
  {
  }

  /**
   * `read_payload`: a missing file reads as the default; otherwise the text is parsed and
   * the parsed payload clamped. Whatever is returned is clamped.
   */
  function ReadPayload(fileExists: bool, read: Result<string, string>,
                       parse: string -> Result<SettingsPayload, string>): (r: Result<SettingsPayload, string>)
    ensures !fileExists ==> r == Ok(DefaultPayload)
    ensures r.Ok? ==> IsClamped(r.value)
    ensures fileExists && r.Ok? ==> read.Ok? && parse(read.value).Ok? && r.value == Clamped(parse(read.value).value)
    ensures fileExists && (read.Err? || parse(read.value).Err?) ==> r.Err?
    ensures fileExists ==> (r.Ok? <==> read.Ok? && parse(read.value).Ok?)
  {
    if !fileExists then Ok(DefaultPayload)
    else
      match read
      case Err(e) => Err("read: " + e)
      case Ok(text) =>
        match parse(text)
        case Err(e) => Err("parse: " + e)
        case Ok(parsed) => Ok(Clamped(parsed))
  }

  /**
   * `write_payload`: the clamped payload is serialised and written. The result carries the
   * text written, so that what is written can be stated.
   */
  function WritePayload(payload: SettingsPayload, serialize: SettingsPayload -> Result<string, string>,
                        write: string -> Option<string>): (r: Result<string, string>)
    ensures r.Ok? ==> serialize(Clamped(payload)) == Ok(r.value) && write(r.value).None?
    ensures serialize(Clamped(payload)).Err? ==> r.Err?
    ensures r.Ok? <==> serialize(Clamped(payload)).Ok? && write(serialize(Clamped(payload)).value).None?
  {
    match serialize(Clamped(payload))
    case Err(e) => Err("serialize settings: " + e)
    case Ok(text) =>
      match write(text)
      case Some(e) => Err("write: " + e)
      case None => Ok(text)
  }

  /**
   * Saving and loading again gives back the clamped payload, provided the JSON codec reads
   * back what it writes.
   */
  lemma SaveThenLoad(payload: SettingsPayload, serialize: SettingsPayload -> Result<string, string>,
                     parse: string -> Result<SettingsPayload, string>, write: string -> Option<string>)
    requires forall p :: serialize(p).Ok? ==> parse(serialize(p).value) == Ok(p)
    requires WritePayload(payload, serialize, write).Ok?
    ensures ReadPayload(true, Ok(WritePayload(payload, serialize, write).value), parse) == Ok(Clamped(payload))
  {
    var text := WritePayload(payload, serialize, write).value;
    assert parse(text) == Ok(Clamped(payload));
    ClampedIdempotent(payload);
  }

  /** `load_settings`: resolves the config path, then reads. */
  function LoadSettings(configPath: Result<string, string>, fileExists: string -> bool,
                        read: string -> Result<string, string>,
                        parse: string -> Result<SettingsPayload, string>): (r: Result<SettingsPayload, string>)
    ensures configPath.Err? ==> r.Err?
    ensures r.Ok? ==> IsClamped(r.value)
    ensures configPath.Ok? && !fileExists(configPath.value) ==> r == Ok(DefaultPayload)
    ensures configPath.Ok? && fileExists(configPath.value) ==>
      (r.Ok? <==> read(configPath.value).Ok? && parse(read(configPath.value).value).Ok?)
    ensures configPath.Ok? && fileExists(configPath.value) && r.Ok? ==>
      r.value == Clamped(parse(read(configPath.value).value).value)
  {
    var path :- configPath;
    ReadPayload(fileExists(path), read(path), parse)
  }

  /** `save_settings`: resolves the config path, then writes. */
  function SaveSettings(configPath: Result<string, string>, settings: SettingsPayload,
                        serialize: SettingsPayload -> Result<string, string>,
                        write: (string, string) -> Option<string>): (r: Result<string, string>)
    ensures configPath.Err? ==> r.Err?
    ensures r.Ok? ==> serialize(Clamped(settings)) == Ok(r.value)
    ensures r.Ok? <==>
      configPath.Ok? && serialize(Clamped(settings)).Ok?
      && write(configPath.value, serialize(Clamped(settings)).value).None?
  {
    var path :- configPath;
    WritePayload(settings, serialize, text => write(path, text))
  }
}
