/**
 * The image-host plugin registry of `image_hosts.rs`: which files of the candidate plugin
 * directories become plugins and under which id, the registry `discover_plugins` builds from
 * them on the desktop, the per-plugin settings map of `image-hosts.json`, and the checks of
 * `add_image_host_plugin`. Directory listings, the file system and the JSON codec are
 * parameters; paths use '/' as separator.
 */
module ImageHosts {
  import opened Wrappers
  import opened Text
  import Sorting

  const SettingsFileName: string := "image-hosts.json"
  const BuiltinS3Id: string := "s3"
  const BuiltinS3Script: string := "__internal__/s3"
  /** The Windows verbatim prefix `\\?\`, four characters. */
  const VerbatimPrefix: string := "\\\\?\\"
  const NotObjectMessage: string := "插件配置必须是对象"
  const BadSuffixMessage: string := "仅支持 .js 或 .mjs 文件"

  /** `PluginEntryPayload` */
  datatype PluginEntry = PluginEntry(id: string, script: string)

  /** An entry of `read_dir`: its path, its file name (None when it is not UTF-8) and whether it is a directory. */
  datatype DirEntry = DirEntry(path: string, fileName: Option<string>, isDir: bool)

  /** A candidate directory as the file system shows it. */
  datatype Listing =
    | Missing
    | Unreadable(message: string)
    | Entries(entries: seq<Result<DirEntry, string>>)

  /* ---------------- file names and ids ---------------- */

  predicate HasScriptSuffix(name: string) {
    EndsWith(name, ".js") || EndsWith(name, ".mjs")
  }

  /**
   * `Path::file_stem` of a bare file name: everything before the last '.', unless that dot is
   * the first character (a hidden file) or there is none, when the whole name is the stem.
   */
  function FileStem(name: string): (stem: string)
    ensures |stem| <= |name| && stem == name[..|stem|]
    ensures |stem| < |name| ==> |stem| > 0 && name[|stem|] == '.' && '.' !in name[|stem| + 1..]
    ensures |name| > 0 ==> (stem == name <==> '.' !in name[1..])
  {
    match LastIndexOf(name, '.')
    case None => name
    case Some(i) =>
      if i == 0 then
        assert name[1..] == name[i + 1..];
        name
      else
        assert name[i] in name[1..] by { assert name[1..][i - 1] == name[i]; }
        name[..i]
  }

  /** A script's id is its name without the `.js` / `.mjs` extension, unless nothing precedes it. */
  lemma ScriptStem(name: string)
    requires HasScriptSuffix(name)
    ensures EndsWith(name, ".js") && |name| > 3 ==> FileStem(name) == name[..|name| - 3]
    ensures EndsWith(name, ".mjs") && |name| > 4 ==> FileStem(name) == name[..|name| - 4]
    ensures name == ".js" || name == ".mjs" ==> FileStem(name) == name
  {
    var n := |name|;
    if EndsWith(name, ".js") && n > 3 {
      assert name[n - 3..] == ".js";
      StemAt(name, n - 3);
    }
    if EndsWith(name, ".mjs") && n > 4 {
      assert name[n - 4..] == ".mjs";
      StemAt(name, n - 4);
    }
    if name == ".js" {
      assert name[1..] == "js";
    }
    if name == ".mjs" {
      assert name[1..] == "mjs";
    }
  }

  /** The stem ends at the last dot when that dot is not the first character. */
  lemma StemAt(name: string, i: nat)
    requires 0 < i < |name| && name[i] == '.' && '.' !in name[i + 1..]
    ensures FileStem(name) == name[..i]
  {
    forall j | i < j < |name| ensures name[j] != '.' {
      assert name[j] == name[i + 1..][j - i - 1];
    }
    forall j | 0 < j <= i ensures '.' in name[j..] {
      assert name[j..][i - j] == '.';
    }
    assert name[i] == '.';
  }

  /** Only files, with a UTF-8 name ending in `.js` or `.mjs`, are plugins. */
  predicate IsPluginFile(e: DirEntry) {
    !e.isDir && e.fileName.Some? && HasScriptSuffix(e.fileName.value)
  }

  function PluginId(e: DirEntry): (id: string)
    requires IsPluginFile(e)
    ensures |id| <= |e.fileName.value| && id == e.fileName.value[..|id|]
  {
    FileStem(e.fileName.value)
  }

  /* ---------------- collect_plugins_from_dir ---------------- */

  /**
   * The state `collect_plugins_from_dir` leaves after the entries `es`: every plugin file
   * inserted under its id (a later one replacing an earlier one), stopping with Err at the
   * first entry that could not be read; what was inserted before stays inserted.
   */
  function Collect(dir: string, es: seq<Result<DirEntry, string>>, m: map<string, string>)
    : (r: (Result<(), string>, map<string, string>))
    ensures r.0.Ok? <==> forall i :: 0 <= i < |es| ==> es[i].Ok?
    ensures m.Keys <= r.1.Keys
    ensures forall k :: k in r.1 && k !in m ==>
      exists i :: 0 <= i < |es| && es[i].Ok? && IsPluginFile(es[i].value) && PluginId(es[i].value) == k
    decreases |es|
  {
    if |es| == 0 then (Ok(()), m)
    else
      var prefix := es[..|es| - 1];
      var (prev, acc) := Collect(dir, prefix, m);
      assert forall i :: 0 <= i < |prefix| ==> prefix[i] == es[i];
      if prev.Err? then (prev, acc)
      else
        match es[|es| - 1]
        case Err(e) => (Err("read_dir entry " + dir + ": " + e), acc)
        case Ok(entry) =>
          if IsPluginFile(entry) then (Ok(()), acc[PluginId(entry) := entry.path]) else (Ok(()), acc)
  }

  /** Once an entry has failed, the later entries change nothing. */
  lemma {:induction false} CollectStops(dir: string, es: seq<Result<DirEntry, string>>, j: nat,
                                        m: map<string, string>)
    requires j <= |es|
    requires Collect(dir, es[..j], m).0.Err?
    ensures Collect(dir, es, m) == Collect(dir, es[..j], m)
    decreases |es| - j
  {
    if j < |es| {
      var prefix := es[..|es| - 1];
      assert prefix[..j] == es[..j];
      CollectStops(dir, prefix, j, m);
    } else {
      assert es[..j] == es;
    }
  }

  /** A whole candidate directory: a missing one is skipped, an unreadable one fails. */
  function CollectDir(dir: string, listing: Listing, m: map<string, string>)
    : (r: (Result<(), string>, map<string, string>))
    ensures listing.Missing? ==> r == (Ok(()), m)
    ensures listing.Unreadable? ==> r.0.Err? && r.1 == m
    ensures listing.Entries? ==> r == Collect(dir, listing.entries, m)
  {
    match listing
    case Missing => (Ok(()), m)
    case Unreadable(e) => (Err("read_dir " + dir + ": " + e), m)
    case Entries(es) => Collect(dir, es, m)
  }

  /** `collect_plugins_from_dir`, updating the collected map entry by entry. */
  method CollectPluginsFromDir(dir: string, listing: Listing, collected: map<string, string>)
    returns (r: Result<(), string>, out: map<string, string>)
    ensures (r, out) == CollectDir(dir, listing, collected)
  {
    match listing {
      case Missing =>
        return Ok(()), collected;
      case Unreadable(e) =>
        return Err("read_dir " + dir + ": " + e), collected;
      case Entries(es) =>
        out := collected;
        var i := 0;
        while i < |es|
          invariant 0 <= i <= |es|
          invariant Collect(dir, es[..i], collected) == (Ok(()), out)
        {
          assert es[..i + 1][..i] == es[..i];
          match es[i] {
            case Err(e) =>
              r := Err("read_dir entry " + dir + ": " + e);
              CollectStops(dir, es, i + 1, collected);
              return;
            case Ok(entry) =>
              if !entry.isDir {
                match entry.fileName {
                  case None =>
                  case Some(name) =>
                    if HasScriptSuffix(name) {
                      out := out[FileStem(name) := entry.path];
                    }
                }
              }
          }
          i := i + 1;
        }
        assert es[..i] == es;
        r := Ok(());
    }
  }

  predicate AllReadable(es: seq<Result<DirEntry, string>>) {
    forall i :: 0 <= i < |es| ==> es[i].Ok?
  }

  /** The path of the last plugin file among `es` whose id is `k`. */
  function LastPath(es: seq<Result<DirEntry, string>>, k: string): (r: Option<string>)
    ensures r.Some? ==> exists i :: 0 <= i < |es| && es[i].Ok? && IsPluginFile(es[i].value)
                                   && PluginId(es[i].value) == k && es[i].value.path == r.value
    decreases |es|
  {
    if |es| == 0 then None
    else
      var last := es[|es| - 1];
      if last.Ok? && IsPluginFile(last.value) && PluginId(last.value) == k then Some(last.value.path)
      else
        var r := LastPath(es[..|es| - 1], k);
        assert forall i :: 0 <= i < |es| - 1 ==> es[..|es| - 1][i] == es[i];
        r
  }

  /**
   * When every entry can be read, an id ends up mapped to the last plugin file with that id,
   * or keeps what it had before when there is none.
   */
  lemma {:induction false} CollectLastWins(dir: string, es: seq<Result<DirEntry, string>>,
                                           m: map<string, string>, k: string)
    requires AllReadable(es)
    ensures var out := Collect(dir, es, m).1;
      && (LastPath(es, k).Some? ==> k in out && out[k] == LastPath(es, k).value)
      && (LastPath(es, k).None? ==> (k in out <==> k in m) && (k in m ==> out[k] == m[k]))
    decreases |es|
  {
    if |es| > 0 {
      var prefix := es[..|es| - 1];
      assert AllReadable(prefix) by {
        assert forall i :: 0 <= i < |prefix| ==> prefix[i] == es[i];
      }
      CollectLastWins(dir, prefix, m, k);
      CollectSnoc(dir, es, m);
      var e := es[|es| - 1].value;
      assert LastPath(es, k) == if IsPluginFile(e) && PluginId(e) == k then Some(e.path) else LastPath(prefix, k);
    }
  }

  /** With every entry readable, the last entry is inserted over what the others left. */
  lemma CollectSnoc(dir: string, es: seq<Result<DirEntry, string>>, m: map<string, string>)
    requires |es| > 0 && AllReadable(es) && AllReadable(es[..|es| - 1])
    ensures var e, acc := es[|es| - 1].value, Collect(dir, es[..|es| - 1], m).1;
      Collect(dir, es, m).1 == if IsPluginFile(e) then acc[PluginId(e) := e.path] else acc
  {
  }

  /* ---------------- discover_plugins (desktop) ---------------- */

  /** The map after scanning the candidate directories in order; a failing directory keeps what it inserted. */
  function CollectAll(dirs: seq<(string, Listing)>, m: map<string, string>): (r: map<string, string>)
    ensures m.Keys <= r.Keys
    decreases |dirs|
  {
    if |dirs| == 0 then m
    else
      var last := dirs[|dirs| - 1];
      CollectDir(last.0, last.1, CollectAll(dirs[..|dirs| - 1], m)).1
  }

  /**
   * Later candidate directories win: a plugin file in the last directory, when that directory
   * reads cleanly, decides the script of its id whatever the earlier ones held.
   */
  lemma LaterDirectoryWins(dirs: seq<(string, Listing)>, m: map<string, string>, k: string)
    requires |dirs| > 0
    requires dirs[|dirs| - 1].1.Entries?
    requires AllReadable(dirs[|dirs| - 1].1.entries)
    requires LastPath(dirs[|dirs| - 1].1.entries, k).Some?
    ensures k in CollectAll(dirs, m)
    ensures CollectAll(dirs, m)[k] == LastPath(dirs[|dirs| - 1].1.entries, k).value
  {
    var last := dirs[|dirs| - 1];
    CollectLastWins(last.0, last.1.entries, CollectAll(dirs[..|dirs| - 1], m), k);
  }

  /** Drops a leading `\\?\` from a script path. */
  function StripVerbatim(p: string): (r: string)
    ensures r == p <==> !StartsWith(p, VerbatimPrefix)
    ensures p == (if r == p then [] else VerbatimPrefix) + r
  {
    if StartsWith(p, VerbatimPrefix) then
      assert p == VerbatimPrefix + p[4..];
      p[4..]
    else p
  }

  /**
   * The registry `discover_plugins` reports, as a map from id to script: every collected id
   * with its stripped path, and `s3` pointing at the built-in script unless a file claimed it.
   */
  function Registry(collected: map<string, string>): (r: map<string, string>)
    ensures r.Keys == collected.Keys + {BuiltinS3Id}
    ensures forall k :: k in collected ==> r[k] == StripVerbatim(collected[k])
    ensures BuiltinS3Id !in collected ==> r[BuiltinS3Id] == BuiltinS3Script
  {
    var stripped := map k | k in collected :: StripVerbatim(collected[k]);
    if BuiltinS3Id in collected then stripped else stripped[BuiltinS3Id := BuiltinS3Script]
  }

  predicate UniqueIds(s: seq<PluginEntry>) {
    forall i, j :: 0 <= i < j < |s| ==> s[i].id != s[j].id
  }

  /** `s` lists exactly the id/script pairs of `reg`. */
  predicate Lists(s: seq<PluginEntry>, reg: map<string, string>) {
    (forall e :: e in s ==> e.id in reg && reg[e.id] == e.script) &&
    (forall k :: k in reg ==> PluginEntry(k, reg[k]) in s)
  }

  predicate StrictlySortedIds(s: seq<PluginEntry>) {
    forall i :: 0 < i < |s| ==> StrLe(s[i - 1].id, s[i].id) && s[i - 1].id != s[i].id
  }

  /** The comparator of `sort_by(|a, b| a.id.cmp(&b.id))`. */
  function ById(a: PluginEntry, b: PluginEntry): bool {
    StrLe(a.id, b.id)
  }

  /**
   * `collected.into_iter().map(..)`: one entry per id of `reg` (the collected ids with their
   * stripped paths), in whatever order the map yields them.
   */
  method EntriesOf(reg: map<string, string>) returns (list: seq<PluginEntry>)
    ensures Lists(list, reg)
    ensures UniqueIds(list)
  {
    var rest := reg.Keys;
    list := [];
    while rest != {}
      invariant rest <= reg.Keys
      invariant forall e :: e in list ==> e.id in reg && e.id !in rest && e.script == reg[e.id]
      invariant forall k :: k in reg && k !in rest ==> PluginEntry(k, reg[k]) in list
      invariant UniqueIds(list)
      decreases |rest|
    {
      var k :| k in rest;
      assert forall e :: e in list ==> e.id != k;
      list := list + [PluginEntry(k, reg[k])];
      rest := rest - {k};
    }
  }

  /**
   * The desktop branch of `discover_plugins`: scan the candidate directories in order,
   * ignoring their errors, list the collected plugins, add the built-in `s3` entry when no
   * plugin has that id, and sort by id. The result lists exactly the registry of the
   * collected map, with unique ids in strictly increasing order.
   */
  method DiscoverPlugins(dirs: seq<(string, Listing)>) returns (result: seq<PluginEntry>)
    ensures Lists(result, Registry(CollectAll(dirs, map[])))
    ensures StrictlySortedIds(result)
    ensures PluginEntry(BuiltinS3Id, Registry(CollectAll(dirs, map[]))[BuiltinS3Id]) in result
  {
    var collected: map<string, string> := map[];
    for i := 0 to |dirs|
      invariant collected == CollectAll(dirs[..i], map[])
    {
      assert dirs[..i + 1][..i] == dirs[..i];
      var _, next := CollectPluginsFromDir(dirs[i].0, dirs[i].1, collected);
      collected := next;
    }
    assert dirs[..|dirs|] == dirs;
    result := SortedEntries(collected);
  }

  /**
   * The tail of `discover_plugins`: list the collected plugins, add the built-in `s3` entry
   * when no plugin has that id, and sort by id.
   */
  method SortedEntries(collected: map<string, string>) returns (result: seq<PluginEntry>)
    ensures Lists(result, Registry(collected))
    ensures StrictlySortedIds(result)
    ensures PluginEntry(BuiltinS3Id, Registry(collected)[BuiltinS3Id]) in result
  {
    var list := EntriesOf(map k | k in collected :: StripVerbatim(collected[k]));
    list := WithBuiltin(list, collected);
    var a := new PluginEntry[|list|](j requires 0 <= j < |list| => list[j]);
    assert a[..] == list;
    Sorting.SortInPlace(a, ById);
    result := a[..];
    SortedRegistry(list, result, Registry(collected));
  }

  /** The built-in `s3` entry is appended when no plugin has that id. */
  method WithBuiltin(list: seq<PluginEntry>, collected: map<string, string>) returns (out: seq<PluginEntry>)
    requires Lists(list, map k | k in collected :: StripVerbatim(collected[k]))
    requires UniqueIds(list)
    ensures Lists(out, Registry(collected)) && UniqueIds(out)
  {
    out := list;
    if !(exists j :: 0 <= j < |list| && list[j].id == BuiltinS3Id) {
      AbsentS3(list, collected);
      out := list + [PluginEntry(BuiltinS3Id, BuiltinS3Script)];
    }
  }

  /** When no listed entry has id `s3`, no file claimed it, and appending the built-in keeps the listing exact. */
  lemma AbsentS3(list: seq<PluginEntry>, collected: map<string, string>)
    requires Lists(list, map k | k in collected :: StripVerbatim(collected[k]))
    requires UniqueIds(list)
    requires !(exists j :: 0 <= j < |list| && list[j].id == BuiltinS3Id)
    ensures BuiltinS3Id !in collected
    ensures Lists(list + [PluginEntry(BuiltinS3Id, BuiltinS3Script)], Registry(collected))
    ensures UniqueIds(list + [PluginEntry(BuiltinS3Id, BuiltinS3Script)])
  {
    var stripped := map k | k in collected :: StripVerbatim(collected[k]);
    ListedIds(list, stripped);
    assert BuiltinS3Id in collected ==> BuiltinS3Id in stripped;
    var s3 := PluginEntry(BuiltinS3Id, BuiltinS3Script);
    var l2 := list + [s3];
    forall k | k in Registry(collected) ensures PluginEntry(k, Registry(collected)[k]) in l2 {
      if k != BuiltinS3Id {
        assert PluginEntry(k, stripped[k]) in list;
      }
    }
    forall i, j | 0 <= i < j < |l2| ensures l2[i].id != l2[j].id {
      if j == |list| {
        assert l2[i] == list[i];
      }
    }
  }

  /** Every id of the registry is the id of some listed entry. */
  lemma ListedIds(list: seq<PluginEntry>, reg: map<string, string>)
    requires Lists(list, reg)
    ensures forall k :: k in reg ==> exists j :: 0 <= j < |list| && list[j].id == k
  {
    forall k | k in reg ensures exists j :: 0 <= j < |list| && list[j].id == k {
      var j :| 0 <= j < |list| && list[j] == PluginEntry(k, reg[k]);
    }
  }

  /** Sorting an exact listing with unique ids gives an exact listing in strictly increasing id order. */
  lemma SortedRegistry(list: seq<PluginEntry>, result: seq<PluginEntry>, reg: map<string, string>)
    requires Lists(list, reg) && UniqueIds(list)
    requires result == Sorting.SortBy(list, ById)
    ensures Lists(result, reg)
    ensures StrictlySortedIds(result)
    ensures BuiltinS3Id in reg ==> PluginEntry(BuiltinS3Id, reg[BuiltinS3Id]) in result
  {
    Sorting.SortByElements(list, ById);
    Sorting.SortByPermutes(list, ById);
    ByIdTotalPreorder();
    Sorting.SortBySorted(list, ById);
    SameElementsList(list, result, reg);
    DistinctNeighbours(list, result, reg);
  }

  /** A sequence with the same elements as an exact listing is an exact listing too. */
  lemma SameElementsList(list: seq<PluginEntry>, result: seq<PluginEntry>, reg: map<string, string>)
    requires Lists(list, reg)
    requires forall x :: x in result <==> x in list
    ensures Lists(result, reg)
  {
  }

  /** A permutation of an exact listing with unique ids has no two neighbours with the same id. */
  lemma DistinctNeighbours(list: seq<PluginEntry>, result: seq<PluginEntry>, reg: map<string, string>)
    requires Lists(result, reg) && UniqueIds(list)
    requires multiset(result) == multiset(list)
    ensures forall i :: 0 < i < |result| ==> result[i - 1].id != result[i].id
  {
    forall i | 0 < i < |result| ensures result[i - 1].id != result[i].id {
      if result[i - 1].id == result[i].id {
        assert result[i - 1] == result[i];
        CountAtLeastTwo(result, i - 1, i);
        CountAtMostOne(list, result[i]);
        assert false;
      }
    }
  }

  lemma ByIdTotalPreorder()
    ensures Sorting.TotalPreorder(ById)
  {
    forall a: PluginEntry, b: PluginEntry ensures ById(a, b) || ById(b, a) {
      StrLeTotal(a.id, b.id);
    }
    forall a: PluginEntry, b: PluginEntry, c: PluginEntry | ById(a, b) && ById(b, c) ensures ById(a, c) {
      StrLeTransitive(a.id, b.id, c.id);
    }
  }

  /** With unique ids, no entry occurs twice. */
  lemma {:induction false} CountAtMostOne(s: seq<PluginEntry>, x: PluginEntry)
    requires UniqueIds(s)
    ensures multiset(s)[x] <= 1
    decreases |s|
  {
    if |s| > 0 {
      var p := s[..|s| - 1];
      assert s == p + [s[|s| - 1]];
      assert UniqueIds(p) by {
        forall i, j | 0 <= i < j < |p| ensures p[i].id != p[j].id {
          assert p[i] == s[i] && p[j] == s[j];
        }
      }
      CountAtMostOne(p, x);
      forall i | 0 <= i < |p| ensures p[i] != s[|s| - 1] {
        assert p[i] == s[i];
      }
      assert s[|s| - 1] !in p;
    }
  }

  /** An entry at two positions is counted at least twice. */
  lemma CountAtLeastTwo(s: seq<PluginEntry>, i: nat, j: nat)
    requires i < j < |s| && s[i] == s[j]
    ensures multiset(s)[s[i]] >= 2
  {
    var x := s[i];
    assert s == s[..j] + [s[j]] + s[j + 1..];
    assert s[..j][i] == x;
    assert multiset(s[..j])[x] >= 1;
  }

  /* ---------------- image-hosts.json ---------------- */

  /** `serde_json::Value`; numbers are kept as their text. */
  datatype Json =
    | Null
    | Bool(b: bool)
    | Number(text: string)
    | Str(s: string)
    | Array(items: seq<Json>)
    | Object(fields: seq<(string, Json)>)

  /** `ImageHostSettingsFile`: plugin id to that plugin's settings object. */
  type PluginSettings = map<string, Json>

  /** `read_settings`: a missing file is the empty map; otherwise the text is read and parsed. */
  function ReadSettings(fileExists: bool, read: Result<string, string>,
                        parse: string -> Result<PluginSettings, string>): (r: Result<PluginSettings, string>)
    ensures !fileExists ==> r == Ok(map[])
    ensures fileExists ==> (r.Ok? <==> read.Ok? && parse(read.value).Ok?)
    ensures fileExists && r.Ok? ==> r.value == parse(read.value).value
  {
    if !fileExists then Ok(map[])
    else
      match read
      case Err(e) => Err("read: " + e)
      case Ok(text) =>
        match parse(text)
        case Err(e) => Err("parse: " + e)
        case Ok(p) => Ok(p)
  }

  /**
   * `load_image_host_settings`: the settings stored for one plugin, None when there are none
   * (in particular when the file does not exist). `configPath` is `ensure_config_path`.
   */
  function LoadImageHostSettings(configPath: Result<string, string>, fileExists: string -> bool,
                                 read: string -> Result<string, string>,
                                 parse: string -> Result<PluginSettings, string>,
                                 pluginId: string): (r: Result<Option<Json>, string>)
    ensures configPath.Err? ==> r.Err?
    ensures configPath.Ok? && !fileExists(configPath.value) ==> r == Ok(None)
    ensures r.Ok? <==>
      configPath.Ok? && ReadSettings(fileExists(configPath.value), read(configPath.value), parse).Ok?
    ensures r.Ok? ==>
      var file := ReadSettings(fileExists(configPath.value), read(configPath.value), parse);
      && file.Ok?
      && (r.value.Some? <==> pluginId in file.value)
      && (r.value.Some? ==> r.value.value == file.value[pluginId])
  {
    var path :- configPath;
    var file :- ReadSettings(fileExists(path), read(path), parse);
    if pluginId in file then Ok(Some(file[pluginId])) else Ok(None)
  }

  /**
   * `save_image_host_settings`: an object is stored for the plugin, Null removes its entry,
   * anything else is refused before serialising or writing. Every other plugin's entry is
   * kept. The result is the settings map that was written.
   */
  function SaveImageHostSettings(configPath: Result<string, string>, fileExists: string -> bool,
                                 read: string -> Result<string, string>,
                                 parse: string -> Result<PluginSettings, string>,
                                 pluginId: string, values: Json,
                                 serialize: PluginSettings -> Result<string, string>,
                                 write: (string, string) -> Option<string>): (r: Result<PluginSettings, string>)
    ensures configPath.Err? ==> r.Err?
    ensures (configPath.Ok? && ReadSettings(fileExists(configPath.value), read(configPath.value), parse).Ok?
             && !values.Object? && !values.Null?) ==> r == Err(NotObjectMessage)
    ensures r.Ok? <==>
      && configPath.Ok?
      && var before := ReadSettings(fileExists(configPath.value), read(configPath.value), parse);
         && before.Ok? && (values.Object? || values.Null?)
         && var updated := if values.Object? then before.value[pluginId := values] else before.value - {pluginId};
            serialize(updated).Ok? && write(configPath.value, serialize(updated).value).None?
    ensures r.Ok? ==>
      var before := ReadSettings(fileExists(configPath.value), read(configPath.value), parse);
      && configPath.Ok? && before.Ok?
      && (values.Object? ==> pluginId in r.value && r.value[pluginId] == values)
      && (values.Null? ==> pluginId !in r.value)
      && (values.Object? || values.Null?)
      && (forall k :: k != pluginId ==> (k in r.value <==> k in before.value))
      && (forall k :: k != pluginId && k in before.value ==> r.value[k] == before.value[k])
      && serialize(r.value).Ok? && write(configPath.value, serialize(r.value).value).None?
  {
    var path :- configPath;
    var file :- ReadSettings(fileExists(path), read(path), parse);
    var updated :- match values
      case Object(_) => Ok(file[pluginId := values])
      case Null => Ok(file - {pluginId})
      case _ => Err(NotObjectMessage);
    var text :- match serialize(updated)
      case Err(e) => Err("serialize image host settings: " + e)
      case Ok(t) => Ok(t);
    match write(path, text)
    case Some(e) => Err("write " + path + ": " + e)
    case None => Ok(updated)
  }

  /**
   * Loading after a successful save gives back what was saved for that plugin, and what was
   * there before for every other plugin, provided the JSON codec reads back what it writes.
   */
  lemma SaveThenLoad(path: string, fileExists: string -> bool, read: string -> Result<string, string>,
                     parse: string -> Result<PluginSettings, string>, pluginId: string, values: Json,
                     serialize: PluginSettings -> Result<string, string>,
                     write: (string, string) -> Option<string>, other: string)
    requires forall m :: serialize(m).Ok? ==> parse(serialize(m).value) == Ok(m)
    requires SaveImageHostSettings(Ok(path), fileExists, read, parse, pluginId, values, serialize, write).Ok?
    ensures
      var saved := SaveImageHostSettings(Ok(path), fileExists, read, parse, pluginId, values, serialize, write).value;
      var reread := serialize(saved).value;
      && LoadImageHostSettings(Ok(path), _ => true, _ => Ok(reread), parse, pluginId)
         == Ok(if values.Null? then None else Some(values))
      && (other != pluginId ==>
          LoadImageHostSettings(Ok(path), _ => true, _ => Ok(reread), parse, other)
          == LoadImageHostSettings(Ok(path), fileExists, read, parse, other))
  {
    var saved := SaveImageHostSettings(Ok(path), fileExists, read, parse, pluginId, values, serialize, write).value;
    assert parse(serialize(saved).value) == Ok(saved);
  }

  /* ---------------- add_image_host_plugin ---------------- */

  /**
   * `Path::file_name`: the last component, trailing separators ignored; None when it is empty
   * or `..` (and, in this model, `.`).
   */
  function FileName(path: string): (r: Option<string>)
    ensures r.Some? ==> |r.value| > 0 && '/' !in r.value && r.value != ".." && r.value != "."
    ensures r.Some? ==> EndsWith(TrimEndMatches(path, '/'), r.value)
  {
    var name := AfterLast(TrimEndMatches(path, '/'), '/');
    if name == [] || name == "." || name == ".." then None else Some(name)
  }

  /** Joining a directory and a plain file name gives a path whose file name is that name. */
  lemma FileNameOfJoin(dir: string, name: string)
    requires |name| > 0 && '/' !in name && name != "." && name != ".."
    ensures FileName(JoinPath(dir, name)) == Some(name)
  {
    var p := JoinPath(dir, name);
    assert p[|p| - 1] == name[|name| - 1];
    assert TrimEndMatches(p, '/') == p;
    if |dir| == 0 {
      assert p == name;
    } else if dir[|dir| - 1] == '/' {
      assert p == dir[..|dir| - 1] + ['/'] + name;
      AfterLastOfSuffix(dir[..|dir| - 1], '/', name);
    } else {
      assert p == dir + ['/'] + name;
      AfterLastOfSuffix(dir, '/', name);
    }
  }

  /**
   * `add_image_host_plugin`: the source must exist, have a file name ending in `.js` or
   * `.mjs`; it is copied into `plugins` under the config directory, and the returned entry
   * has the file stem as id and the copy as script.
   */
  function AddImageHostPlugin(source: string, sourceExists: bool, configDir: Result<string, string>,
                              createDirAll: string -> Option<string>,
                              copy: (string, string) -> Option<string>): (r: Result<PluginEntry, string>)
    ensures !sourceExists ==> r == Err("源文件不存在: " + source)
    ensures sourceExists && FileName(source).None? ==> r.Err?
    ensures sourceExists && FileName(source).Some? && !HasScriptSuffix(FileName(source).value)
            ==> r == Err(BadSuffixMessage)
    ensures r.Ok? <==>
      && sourceExists && FileName(source).Some? && HasScriptSuffix(FileName(source).value)
      && configDir.Ok? && createDirAll(JoinPath(configDir.value, "plugins")).None?
      && copy(source, JoinPath(JoinPath(configDir.value, "plugins"), FileName(source).value)).None?
    ensures r.Ok? ==>
      && sourceExists && FileName(source).Some? && HasScriptSuffix(FileName(source).value)
      && configDir.Ok?
      && r.value.id == FileStem(FileName(source).value)
      && r.value.script == JoinPath(JoinPath(configDir.value, "plugins"), FileName(source).value)
      && createDirAll(JoinPath(configDir.value, "plugins")).None?
      && copy(source, r.value.script).None?
  {
    if !sourceExists then Err("源文件不存在: " + source)
    else
      match FileName(source)
      case None => Err("无法解析文件名: " + source)
      case Some(fileName) =>
        if !HasScriptSuffix(fileName) then Err(BadSuffixMessage)
        else
          match configDir
          case Err(e) => Err("获取用户配置目录失败: " + e)
          case Ok(dir) =>
            var pluginDir := JoinPath(dir, "plugins");
            match createDirAll(pluginDir)
            case Some(e) => Err("创建用户插件目录失败: " + e)
            case None =>
              var dest := JoinPath(pluginDir, fileName);
              match copy(source, dest)
              case Some(e) => Err("复制插件文件失败: " + e)
              case None => Ok(PluginEntry(FileStem(fileName), dest))
  }

  /**
   * A plugin added by `add_image_host_plugin` is a plugin file of the user plugin directory:
   * the copy keeps the source's file name, and a later scan of that directory gives it the id
   * that was returned.
   */
  lemma AddedPluginIsDiscovered(source: string, sourceExists: bool, configDir: Result<string, string>,
                                createDirAll: string -> Option<string>,
                                copy: (string, string) -> Option<string>)
    requires AddImageHostPlugin(source, sourceExists, configDir, createDirAll, copy).Ok?
    ensures
      var e := AddImageHostPlugin(source, sourceExists, configDir, createDirAll, copy).value;
      var copied := DirEntry(e.script, FileName(e.script), false);
      && FileName(e.script) == FileName(source)
      && IsPluginFile(copied) && PluginId(copied) == e.id
      && LastPath([Ok(copied)], e.id) == Some(e.script)
  {
    var dir := configDir.value;
    FileNameOfJoin(JoinPath(dir, "plugins"), FileName(source).value);
  }
}
