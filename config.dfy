/**
  The configuration: a YAML document held as a tree of values, read through
  keys that may be dotted ("default_paths.src_dir") to reach nested
  mappings, with the typed getters and their fallbacks.
*/
module ConfigManager {
  import opened Wrappers
  import opened Paths

  /** A value yaml.safe_load can produce. */
  datatype ConfigValue =
    | CNull
    | CBool(b: bool)
    | CInt(i: int)
    | CStr(s: string)
    | CList(items: seq<ConfigValue>)
    | CMap(entries: map<string, ConfigValue>)

  /** What reading the configuration file gives: a document, or one of the two
      failures that fall back to the built-in configuration. */
  datatype LoadOutcome = Loaded(doc: ConfigValue) | FileMissing | YamlError

  const DefaultApiUrl: string := "https://api.deepseek.com/v1/chat/completions"
  const DefaultBatchMaxSize: int := 50
  const DefaultUncat: string := "其他"
  const DefaultSrcDir: string := "/Users/blitz/Downloads"
  const DefaultTargetDir: string := "/Users/blitz/Documents/Books"
  const DatabaseFileName: string := "book_classification.db"

  function DefaultExtensions(): ConfigValue {
    CList([CStr(".pdf"), CStr(".epub"), CStr(".mobi"), CStr(".djvu"), CStr(".txt")])
  }

  /** The built-in configuration used when the file is missing or malformed. */
  function DefaultConfig(): (c: ConfigValue)
    ensures c.CMap?
    ensures c.entries.Keys ==
      {"deepseek_api_url", "deepseek_api_key", "batch_max_size", "book_exts", "uncat", "default_paths"}
    ensures c.entries["default_paths"].CMap? && c.entries["default_paths"].entries.Keys == {"src_dir", "target_dir"}
  {
    CMap(map[
      "deepseek_api_url" := CStr(DefaultApiUrl),
      "deepseek_api_key" := CStr("sk-your-api-key-here"),
      "batch_max_size" := CInt(DefaultBatchMaxSize),
      "book_exts" := DefaultExtensions(),
      "uncat" := CStr(DefaultUncat),
      "default_paths" := CMap(map["src_dir" := CStr(DefaultSrcDir), "target_dir" := CStr(DefaultTargetDir)])
    ])
  }

  /** str.split('.'): the pieces between the dots, at least one. */
  function Split(s: string): (r: seq<string>)
    ensures |r| >= 1
    ensures forall i :: 0 <= i < |r| ==> EXTSEP !in r[i]
    decreases |s|
  {
    var d := RFind(s, EXTSEP);
    if d == -1 then [s] else Split(s[..d]) + [s[d + 1..]]
  }

  /** '.'.join(pieces) */
  function JoinDots(pieces: seq<string>): string
    requires pieces != []
  {
    if |pieces| == 1 then pieces[0]
    else JoinDots(pieces[..|pieces| - 1]) + [EXTSEP] + pieces[|pieces| - 1]
  }

  /** Joining one more piece puts a dot before it. */
  lemma JoinDotsSnoc(init: seq<string>, last: string)
    requires init != []
    ensures JoinDots(init + [last]) == JoinDots(init) + [EXTSEP] + last
  {
    var r := init + [last];
    assert r[..|r| - 1] == init;
  }

  /** Splitting and joining again gives the key back. */
  lemma {:induction false} JoinSplit(s: string)
    ensures JoinDots(Split(s)) == s
    decreases |s|
  {
    var d := RFind(s, EXTSEP);
    if d != -1 {
      JoinSplit(s[..d]);
      JoinSplitAtDot(s, d, Split(s[..d]));
    }
  }

  lemma JoinSplitAtDot(s: string, d: nat, init: seq<string>)
    requires d < |s| && s[d] == EXTSEP && init != []
    requires JoinDots(init) == s[..d]
    ensures JoinDots(init + [s[d + 1..]]) == s
  {
    JoinDotsSnoc(init, s[d + 1..]);
    assert s == s[..d] + [EXTSEP] + s[d + 1..];
  }

  /** Splitting a key whose last dot precedes `last` splits off `last`. */
  lemma SplitAtLastDot(head: string, last: string)
    requires EXTSEP !in last
    ensures Split(head + [EXTSEP] + last) == Split(head) + [last]
  {
    var s := head + [EXTSEP] + last;
    RFindIs(head + [EXTSEP], EXTSEP, |head|);
    RFindAppend(head + [EXTSEP], last, EXTSEP);
    assert s[..|head|] == head;
    assert s[|head| + 1..] == last;
  }

  /** Joining dot-free pieces and splitting again gives the pieces back. */
  lemma {:induction false} SplitJoin(pieces: seq<string>)
    requires pieces != []
    requires forall i :: 0 <= i < |pieces| ==> EXTSEP !in pieces[i]
    ensures Split(JoinDots(pieces)) == pieces
  {
    var n := |pieces| - 1;
    var last := pieces[n];
    if n == 0 {
      RFindIs(last, EXTSEP, -1);
    } else {
      var init := pieces[..n];
      SplitJoin(init);
      assert pieces == init + [last];
      JoinDotsSnoc(init, last);
      SplitAtLastDot(JoinDots(init), last);
    }
  }

  /** The dotted walk of get: each segment must name an entry of a mapping;
      the first one that does not gives the default. */
  function Walk(v: ConfigValue, keys: seq<string>, default: ConfigValue): ConfigValue
    decreases |keys|
  {
    if keys == [] then v
    else if v.CMap? && keys[0] in v.entries then Walk(v.entries[keys[0]], keys[1..], default)
    else default
  }

  /** The value a path of keys reaches, if every segment is present. */
  function Resolve(v: ConfigValue, keys: seq<string>): Option<ConfigValue>
    decreases |keys|
  {
    if keys == [] then Some(v)
    else if v.CMap? && keys[0] in v.entries then Resolve(v.entries[keys[0]], keys[1..])
    else None
  }

  /** One more segment: look it up in the mapping the shorter path reached. */
  function Step(r: Option<ConfigValue>, key: string): Option<ConfigValue> {
    match r
    case Some(CMap(m)) => if key in m then Some(m[key]) else None
    case _ => None
  }

  /** The walk gives the reached value, or the default when some segment is missing. */
  lemma {:induction false} WalkIsResolveOrDefault(v: ConfigValue, keys: seq<string>, default: ConfigValue)
    ensures Walk(v, keys, default) == Resolve(v, keys).GetOr(default)
    decreases |keys|
  {
    if keys != [] && v.CMap? && keys[0] in v.entries {
      WalkIsResolveOrDefault(v.entries[keys[0]], keys[1..], default);
    }
  }

  /** The walk goes segment by segment: a path one key longer looks that key up
      in what the shorter path reached. */
  lemma {:induction false} ResolveSegmentBySegment(v: ConfigValue, keys: seq<string>, key: string)
    ensures Resolve(v, keys + [key]) == Step(Resolve(v, keys), key)
    decreases |keys|
  {
    if keys != [] {
      assert (keys + [key])[1..] == keys[1..] + [key];
      if v.CMap? && keys[0] in v.entries {
        ResolveSegmentBySegment(v.entries[keys[0]], keys[1..], key);
      }
    }
  }

  /** get(key, default): None stands for the AttributeError raised when a key
      without dots is looked up in a document that is not a mapping. */
  function Lookup(config: ConfigValue, key: string, default: ConfigValue): Option<ConfigValue> {
    if EXTSEP in key then Some(Walk(config, Split(key), default))
    else if config.CMap? then Some(if key in config.entries then config.entries[key] else default)
    else None
  }

  /** A dotted key made of dot-free segments reaches the nested value, or the default. */
  lemma DottedKeyWalksSegments(config: ConfigValue, segments: seq<string>, default: ConfigValue)
    requires |segments| >= 2
    requires forall i :: 0 <= i < |segments| ==> EXTSEP !in segments[i]
    ensures Lookup(config, JoinDots(segments), default) == Some(Resolve(config, segments).GetOr(default))
  {
    var n := |segments| - 1;
    assert JoinDots(segments) == JoinDots(segments[..n]) + [EXTSEP] + segments[n];
    SplitJoin(segments);
    WalkIsResolveOrDefault(config, segments, default);
  }

  /** A key without dots is a plain top-level lookup with the default. */
  lemma PlainKeyIsTopLevel(entries: map<string, ConfigValue>, key: string, default: ConfigValue)
    requires EXTSEP !in key
    ensures key in entries ==> Lookup(CMap(entries), key, default) == Some(entries[key])
    ensures key !in entries ==> Lookup(CMap(entries), key, default) == Some(default)
  {
  }

  lemma SrcDirKey()
    ensures Split("default_paths.src_dir") == ["default_paths", "src_dir"]
  {
    assert JoinDots(["default_paths", "src_dir"]) == "default_paths.src_dir";
    SplitJoin(["default_paths", "src_dir"]);
  }

  lemma TargetDirKey()
    ensures Split("default_paths.target_dir") == ["default_paths", "target_dir"]
  {
    assert JoinDots(["default_paths", "target_dir"]) == "default_paths.target_dir";
    SplitJoin(["default_paths", "target_dir"]);
  }

  /** The configuration holder. */
  class Config {
    var config: ConfigValue

    /** __init__ followed by load_config. */
    constructor (outcome: LoadOutcome)
      ensures outcome.Loaded? ==> config == outcome.doc
      ensures !outcome.Loaded? ==> config == DefaultConfig()
    {
      match outcome
      case Loaded(doc) => config := doc;
      case _ => config := DefaultConfig();
    }

    /** load_config: the document read, or the built-in configuration when the
        file is missing or not valid YAML. */
    method LoadConfig(outcome: LoadOutcome)
      modifies this
      ensures outcome.Loaded? ==> config == outcome.doc
      ensures !outcome.Loaded? ==> config == DefaultConfig()
    {
      match outcome
      case Loaded(doc) => config := doc;
      case _ => config := DefaultConfig();
    }

    /** get: a dotted key walks nested mappings segment by segment. */
    method Get(key: string, default: ConfigValue) returns (r: Option<ConfigValue>)
      ensures r == Lookup(config, key, default)
    {
      if EXTSEP in key {
        var keys := Split(key);
        var value := config;
        for i := 0 to |keys|
          invariant Walk(value, keys[i..], default) == Walk(config, keys, default)
        {
          var k := keys[i];
          assert keys[i..][1..] == keys[i + 1..];
          if value.CMap? && k in value.entries {
            value := value.entries[k];
          } else {
            return Some(default);
          }
        }
        return Some(value);
      }
      if !config.CMap? {
        return None;
      }
      return Some(if key in config.entries then config.entries[key] else default);
    }

    /** A getter: the top-level entry for `key`, or its fallback when absent. */
    function TopLevel(key: string, fallback: ConfigValue): (r: Option<ConfigValue>)
      requires EXTSEP !in key
      reads this
      ensures !config.CMap? ==> r.None?
      ensures config.CMap? && key in config.entries ==> r == Some(config.entries[key])
      ensures config.CMap? && key !in config.entries ==> r == Some(fallback)
    {
      Lookup(config, key, fallback)
    }

    /** get_deepseek_api_url (no fallback: a missing entry gives None). */
    function GetDeepseekApiUrl(): (r: Option<ConfigValue>)
      reads this
      ensures config.CMap? ==>
        r == Some(if "deepseek_api_url" in config.entries then config.entries["deepseek_api_url"] else CNull)
      ensures !config.CMap? ==> r.None?
    {
      TopLevel("deepseek_api_url", CNull)
    }

    /** get_deepseek_api_key: a non-empty environment variable wins; otherwise
        the configured key, or the empty string. */
    function GetDeepseekApiKey(env: Option<string>): (r: Option<ConfigValue>)
      reads this
      ensures env.Some? && env.value != [] ==> r == Some(CStr(env.value))
      ensures (env.None? || env.value == []) && config.CMap? ==>
        r == Some(if "deepseek_api_key" in config.entries then config.entries["deepseek_api_key"] else CStr(""))
      ensures (env.None? || env.value == []) && !config.CMap? ==> r.None?
    {
      if env.Some? && env.value != [] then Some(CStr(env.value))
      else TopLevel("deepseek_api_key", CStr(""))
    }

    /** get_batch_max_size: the configured value, or 50. */
    function GetBatchMaxSize(): (r: Option<ConfigValue>)
      reads this
      ensures config.CMap? ==>
        r == Some(if "batch_max_size" in config.entries then config.entries["batch_max_size"] else CInt(50))
      ensures !config.CMap? ==> r.None?
    {
      TopLevel("batch_max_size", CInt(DefaultBatchMaxSize))
    }

    /** get_book_extensions: the configured list, or the five default extensions. */
    function GetBookExtensions(): (r: Option<ConfigValue>)
      reads this
      ensures config.CMap? ==>
        r == Some(if "book_exts" in config.entries then config.entries["book_exts"] else DefaultExtensions())
      ensures !config.CMap? ==> r.None?
    {
      TopLevel("book_exts", DefaultExtensions())
    }

    /** get_uncat_folder: the configured name, or 其他. */
    function GetUncatFolder(): (r: Option<ConfigValue>)
      reads this
      ensures config.CMap? ==>
        r == Some(if "uncat" in config.entries then config.entries["uncat"] else CStr("其他"))
      ensures !config.CMap? ==> r.None?
    {
      TopLevel("uncat", CStr(DefaultUncat))
    }

    /** get_default_src_dir: the dotted key default_paths.src_dir. */
    function GetDefaultSrcDir(): (r: ConfigValue)
      reads this
      ensures r == Resolve(config, ["default_paths", "src_dir"]).GetOr(CStr(DefaultSrcDir))
    {
      SrcDirKey();
      WalkIsResolveOrDefault(config, ["default_paths", "src_dir"], CStr(DefaultSrcDir));
      Lookup(config, "default_paths.src_dir", CStr(DefaultSrcDir)).value
    }

    /** get_default_target_dir: the dotted key default_paths.target_dir. */
    function GetDefaultTargetDir(): (r: ConfigValue)
      reads this
      ensures r == Resolve(config, ["default_paths", "target_dir"]).GetOr(CStr(DefaultTargetDir))
    {
      TargetDirKey();
      WalkIsResolveOrDefault(config, ["default_paths", "target_dir"], CStr(DefaultTargetDir));
      Lookup(config, "default_paths.target_dir", CStr(DefaultTargetDir)).value
    }
  }

  /** get_database_path */
  function GetDatabasePath(targetDir: Path): (r: Path)
    ensures |targetDir| <= |r| && r[..|targetDir|] == targetDir
    ensures |DatabaseFileName| <= |r| && r[|r| - |DatabaseFileName|..] == DatabaseFileName
  {
    Join(targetDir, DatabaseFileName)
  }

  /** The database file sits directly inside the target directory, under its fixed name. */
  lemma DatabasePathInTargetDir(targetDir: Path)
    ensures Basename(GetDatabasePath(targetDir)) == DatabaseFileName
    ensures IsDirForm(targetDir) ==> Dirname(GetDatabasePath(targetDir)) == targetDir
  {
    assert SEP !in DatabaseFileName;
    JoinBasename(targetDir, DatabaseFileName);
    if IsDirForm(targetDir) {
      JoinDirname(targetDir, DatabaseFileName);
    }
  }

  /** With the built-in configuration every top-level getter yields its documented default. */
  lemma DefaultConfigGetters(c: Config)
    requires c.config == DefaultConfig()
    ensures c.GetBatchMaxSize() == Some(CInt(50))
    ensures c.GetUncatFolder() == Some(CStr("其他"))
    ensures c.GetBookExtensions() == Some(DefaultExtensions())
    ensures c.GetDeepseekApiUrl() == Some(CStr(DefaultApiUrl))
  {
  }

  /** With the built-in configuration the dotted getters reach the nested defaults. */
  lemma DefaultConfigPaths(c: Config)
    requires c.config == DefaultConfig()
    ensures c.GetDefaultSrcDir() == CStr(DefaultSrcDir)
    ensures c.GetDefaultTargetDir() == CStr(DefaultTargetDir)
  {
    var paths := DefaultConfig().entries["default_paths"];
    assert Resolve(DefaultConfig(), ["default_paths", "src_dir"]) == Resolve(paths, ["src_dir"]);
    assert Resolve(DefaultConfig(), ["default_paths", "target_dir"]) == Resolve(paths, ["target_dir"]);
  }
}
