/** Libraries and their build state (sputnik/library.py): where a library's sources, build
    directory and renamed blob live, and the renaming table a build leaves behind. Reading
    the JSON manifests and listing directories are inputs: a manifest read is `None` when the
    file could not be read or parsed. */
module Library {
  import opened Wrappers
  import opened Text
  import opened Dicts
  import opened Paths
  import Rename

  /** File names of the two manifests in a build directory. */
  const FILENAME_NAME_MAPPING: string := "rename_mapping.json"
  const FILENAME_INCLUDED_FILES: string := "included_files.json"

  /** The name of a library's configuration file. */
  const CONFIGNAME: string := "config.json"

  /** A `KeyError` from a dictionary lookup. */
  datatype KeyError = KeyError(key: string)

  /** `s[1:]`. */
  function DropFirst(s: string): (r: string)
    ensures |s| > 0 ==> s == [s[0]] + r
    ensures |s| == 0 ==> r == ""
  {
    if |s| == 0 then "" else s[1..]
  }

  /** The build state of one library: its build directory and the two manifests. */
  class Build {
    const dir: string
    const libName: string
    const blob: string
    var nameMapping: Dict<string, string>
    var includedFiles: seq<string>

    /** `Build.__init__`: fixes the directory and the blob path, then reloads. */
    constructor(directory: string, libName: string,
                mappingRead: Option<Dict<string, string>>, filesRead: Option<seq<string>>)
      ensures dir == directory && this.libName == libName && blob == PathJoin(directory, libName)
      ensures nameMapping == (match mappingRead case Some(m) => m case None => [])
      ensures includedFiles == (match filesRead case Some(l) => l case None => [])
    {
      dir, this.libName := directory, libName;
      blob := PathJoin(directory, libName);
      nameMapping := [];
      includedFiles := [];
      new;
      Reload(mappingRead, filesRead);
    }

    /** `resolve_function`: the renamed symbol of a function, without its leading '@';
        a function missing from the table raises KeyError. */
    function Resolve(funcname: string): (r: Result<string, KeyError>)
      reads this
      ensures r.Err? <==> "@" + funcname !in Keys(nameMapping)
      ensures r.Err? ==> r.error == KeyError("@" + funcname)
      ensures r.Ok? ==> var v := Get(nameMapping, "@" + funcname).value;
                        if |v| == 0 then r.value == "" else v == [v[0]] + r.value
    {
      match Get(nameMapping, "@" + funcname)
      case None => Err(KeyError("@" + funcname))
      case Some(v) => Ok(DropFirst(v))
    }

    /** `reload`: both manifests read again; a manifest that cannot be read or parsed counts as
        empty. */
    method Reload(mappingRead: Option<Dict<string, string>>, filesRead: Option<seq<string>>)
      modifies this`nameMapping, this`includedFiles
      ensures nameMapping == (match mappingRead case Some(m) => m case None => [])
      ensures includedFiles == (match filesRead case Some(l) => l case None => [])
    {
      nameMapping := match mappingRead case Some(m) => m case None => [];
      includedFiles := match filesRead case Some(l) => l case None => [];
    }

    /** `flush`: both manifests forgotten; every lookup then raises. */
    method Flush()
      modifies this`nameMapping, this`includedFiles
      ensures nameMapping == [] && includedFiles == []
      ensures forall f :: Resolve(f).Err?
    {
      nameMapping := [];
      includedFiles := [];
    }
  }

  /** When the table is the one `detect_names` built for a module with a prefix, resolving a
      function the module defines gives its renaming `sub`, the entry name the harness
      calls. */
  lemma ResolveRenamed(b: Build, lines: seq<string>, prefix: string, f: string)
    requires b.nameMapping == Rename.Detected(lines, prefix)
    requires f in Rename.Symbols(lines)
    ensures b.Resolve(f) == Ok(Rename.Sub(prefix, f))
  {
    var m := b.nameMapping;
    var key := "@" + f;
    assert key in Keys(m);
    var i := Find(m, key).value;
    Rename.UniqueGet(m, i);
    assert Rename.IsRenaming(m[i], prefix);
    assert m[i].0 == key;
    assert key[1..] == f;
    assert m[i].1 == "@" + Rename.Sub(prefix, f);
    assert DropFirst(m[i].1) == Rename.Sub(prefix, f) by {
      assert ("@" + Rename.Sub(prefix, f))[1..] == Rename.Sub(prefix, f);
    }
  }

  // ---------------------------------------------------------------------------
  // Library

  /** Attribute values a library configuration holds. */
  datatype Value = Str(s: string) | StrList(items: seq<string>) | EmptyDict

  /** The attributes `Library.__init__` sets before applying its keyword arguments. */
  function Defaults(): (d: Dict<string, Value>)
    ensures UniqueKeys(d)
  {
    [("traversals", StrList([])), ("directory", Str("")), ("builddir", Str("")),
     ("target", Str("")), ("rename_mapping", EmptyDict)]
  }

  /** The attributes after `setattr` for each keyword argument in turn over the defaults: a
      later assignment wins. */
  function Overlay(kwargs: Dict<string, Value>, key: string): Option<Value>
  {
    if |kwargs| == 0 then Get(Defaults(), key)
    else if kwargs[|kwargs| - 1].0 == key then Some(kwargs[|kwargs| - 1].1)
    else Overlay(kwargs[..|kwargs| - 1], key)
  }

  /** For the keyword arguments of a call, which are distinct, every attribute given is set
      to its argument and every other attribute keeps its default. */
  lemma {:induction false} OverlayIs(kwargs: Dict<string, Value>, key: string)
    requires UniqueKeys(kwargs)
    ensures Overlay(kwargs, key) == if key in Keys(kwargs) then Get(kwargs, key) else Get(Defaults(), key)
  {
    if |kwargs| > 0 {
      var n := |kwargs| - 1;
      var front := kwargs[..n];
      assert kwargs == front + [kwargs[n]];
      assert UniqueKeys(front) by {
        forall i, j | 0 <= i < j < |front| ensures front[i].0 != front[j].0 {
          assert front[i] == kwargs[i] && front[j] == kwargs[j];
        }
      }
      OverlayIs(front, key);
      if kwargs[n].0 == key {
        LastKey(front, key, kwargs[n].1);
      } else {
        OtherKey(front, kwargs[n].0, kwargs[n].1, key);
      }
    }
  }

  /** The last argument, when it is the key asked for, is its value. */
  lemma LastKey(front: Dict<string, Value>, key: string, v: Value)
    requires UniqueKeys(front + [(key, v)])
    ensures key in Keys(front + [(key, v)]) && Get(front + [(key, v)], key) == Some(v)
  {
    var kwargs := front + [(key, v)];
    assert key !in Keys(front) by {
      forall i | 0 <= i < |front| ensures front[i].0 != key {
        assert front[i] == kwargs[i] && kwargs[|front|].0 == key;
      }
    }
    FindAppend(front, key, v);
  }

  /** An argument for another key changes neither the lookup nor whether the key is given. */
  lemma OtherKey(front: Dict<string, Value>, k: string, v: Value, key: string)
    requires k != key
    ensures (key in Keys(front + [(k, v)])) == (key in Keys(front))
    ensures Get(front + [(k, v)], key) == Get(front, key)
  {
    FindOther(front, k, v, key);
    assert Keys(front + [(k, v)]) == Keys(front) + [k];
  }

  /** One `setattr` more extends the overlay by the next keyword argument. */
  lemma OverlayStep(kwargs: Dict<string, Value>, i: nat, a: Dict<string, Value>)
    requires i < |kwargs|
    requires forall key :: Get(a, key) == Overlay(kwargs[..i], key)
    ensures forall key :: Get(Assign(a, kwargs[i].0, kwargs[i].1), key) == Overlay(kwargs[..i + 1], key)
  {
    assert kwargs[..i + 1][..i] == kwargs[..i];
  }

  /** The text of a string attribute, or "" for any other value. */
  function TextOf(v: Option<Value>): string
  {
    if v.Some? && v.value.Str? then v.value.s else ""
  }

  class Library {
    var attrs: Dict<string, Value>
    var build: Build

    /** `Library.__init__`: the defaults, then `setattr` for every keyword argument in order,
        then a Build over `builddir`. The keyword arguments must hold a string `name`, and a
        `builddir` given must be a string, as Build joins the two. */
    constructor(kwargs: Dict<string, Value>,
                mappingRead: Option<Dict<string, string>>, filesRead: Option<seq<string>>)
      requires Get(kwargs, "name").Some? && Get(kwargs, "name").value.Str?
      requires Get(kwargs, "builddir").Some? ==> Get(kwargs, "builddir").value.Str?
      ensures forall key :: Get(attrs, key) == Overlay(kwargs, key)
      ensures fresh(build)
      ensures build.dir == TextOf(Get(attrs, "builddir")) && build.libName == TextOf(Get(attrs, "name"))
      ensures build.nameMapping == (match mappingRead case Some(m) => m case None => [])
      ensures build.includedFiles == (match filesRead case Some(l) => l case None => [])
    {
      var a := SetAttrs(kwargs);
      attrs := a;
      build := new Build(TextOf(Get(a, "builddir")), TextOf(Get(a, "name")), mappingRead, filesRead);
    }
  }

  /** The attribute loop of `Library.__init__`: the defaults, then `setattr` for every
      keyword argument in order. */
  method SetAttrs(kwargs: Dict<string, Value>) returns (a: Dict<string, Value>)
    ensures forall key :: Get(a, key) == Overlay(kwargs, key)
  {
    a := Defaults();
    var i := 0;
    while i < |kwargs|
      invariant i <= |kwargs|
      invariant forall key :: Get(a, key) == Overlay(kwargs[..i], key)
    {
      var (k, v) := kwargs[i];
      OverlayStep(kwargs, i, a);
      a := Assign(a, k, v);
      i := i + 1;
    }
    assert kwargs[..i] == kwargs;
  }

  // ---------------------------------------------------------------------------
  // Library.load

  /** Why a configuration cannot be loaded: a key is missing, or holds no string. */
  datatype LoadError = MissingKey(key: string) | NotText(key: string)

  /** `s[:-1]` when `s` ends with '/'. */
  function StripSlash(s: string): (r: string)
    ensures s == r || s == r + "/"
  {
    if EndsWith(s, "/") then s[..|s| - 1] else s
  }

  /** A string entry of a configuration. */
  function Entry(config: Dict<string, Value>, key: string): (r: Result<string, LoadError>)
  {
    match Get(config, key)
    case None => Err(MissingKey(key))
    case Some(v) => if v.Str? then Ok(v.s) else Err(NotText(key))
  }

  /** The paths `Library.load` derives, in the configuration it passes on: `directory` (at
      most one trailing '/' removed) under the library path, `builddir` beside it with suffix
      `-build`, and `target` and `rename_mapping` under `builddir`. The path is the absolute
      library path. A `directory` or `target` that is missing or not a string raises. */
  function LoadConfig(path: string, config: Dict<string, Value>): (r: Result<Dict<string, Value>, LoadError>)
  {
    match Entry(config, "directory")
    case Err(e) => Err(e)
    case Ok(d) =>
      match Entry(config, "target")
      case Err(e) => Err(e)
      case Ok(t) => Ok(Loaded(config, PathJoin(path, StripSlash(d)), t))
  }

  /** The four assignments of `Library.load`, for the joined directory and the configured
      target. (The source first strips the slash in place and then assigns the joined path
      to the same key, which leaves the same dictionary as one assignment.) */
  function Loaded(config: Dict<string, Value>, directory: string, target: string): Dict<string, Value>
  {
    var builddir := directory + "-build";
    Assign(Assign(Assign(Assign(config, "directory", Str(directory)), "builddir", Str(builddir)),
                  "target", Str(PathJoin(builddir, target))),
           "rename_mapping", Str(PathJoin(builddir, FILENAME_NAME_MAPPING)))
  }

  /** What a loaded configuration holds: the build directory is the source directory with
      suffix `-build`, the renaming table lies directly in it, and a relative target lies
      under it; every other entry is as configured. */
  lemma LoadedPaths(path: string, config: Dict<string, Value>)
    requires Entry(config, "directory").Ok? && Entry(config, "target").Ok?
    ensures LoadConfig(path, config).Ok?
    ensures var c := LoadConfig(path, config).value;
            var directory := PathJoin(path, StripSlash(Entry(config, "directory").value));
            && Get(c, "directory") == Some(Str(directory))
            && Get(c, "builddir") == Some(Str(directory + "-build"))
            && Get(c, "rename_mapping") == Some(Str(directory + "-build/" + FILENAME_NAME_MAPPING))
            && Get(c, "target") == Some(Str(PathJoin(directory + "-build", Entry(config, "target").value)))
    ensures forall key :: key !in ["directory", "builddir", "target", "rename_mapping"] ==>
              Get(LoadConfig(path, config).value, key) == Get(config, key)
  {
    var directory := PathJoin(path, StripSlash(Entry(config, "directory").value));
    var builddir := directory + "-build";
    var t := Entry(config, "target").value;
    AssignFour(config, Str(directory), Str(builddir), Str(PathJoin(builddir, t)),
               Str(PathJoin(builddir, FILENAME_NAME_MAPPING)));
    MappingInBuildDir(directory);
  }

  /** The four assignments of `Library.load`, over any values. */
  lemma AssignFour(config: Dict<string, Value>, d: Value, b: Value, t: Value, m: Value)
    ensures var c := Assign(Assign(Assign(Assign(config, "directory", d), "builddir", b), "target", t), "rename_mapping", m);
            && Get(c, "directory") == Some(d) && Get(c, "builddir") == Some(b)
            && Get(c, "target") == Some(t) && Get(c, "rename_mapping") == Some(m)
            && forall key :: key !in ["directory", "builddir", "target", "rename_mapping"] ==> Get(c, key) == Get(config, key)
  {
    var c1 := Assign(config, "directory", d);
    var c2 := Assign(c1, "builddir", b);
    var c3 := Assign(c2, "target", t);
    var c4 := Assign(c3, "rename_mapping", m);
    assert |"directory"| == 9 && |"builddir"| == 8 && |"target"| == 6 && |"rename_mapping"| == 14;
    assert Get(c4, "target") == Get(c3, "target") == Some(t);
    assert Get(c4, "builddir") == Get(c3, "builddir") == Get(c2, "builddir") == Some(b);
    assert Get(c4, "directory") == Get(c3, "directory") == Get(c2, "directory") == Get(c1, "directory") == Some(d);
    forall key | key !in ["directory", "builddir", "target", "rename_mapping"]
      ensures Get(c4, key) == Get(config, key)
    {
      assert Get(c4, key) == Get(c3, key) == Get(c2, key) == Get(c1, key);
    }
  }

  /** The build directory is never empty and never ends with '/'. */
  lemma BuildDirNoSlash(directory: string)
    ensures var b := directory + "-build"; b != "" && !EndsWith(b, "/")
  {
    var b := directory + "-build";
    assert b[|b| - 1..] == [b[|b| - 1]];
    assert b[|b| - 1] == 'd';
  }

  /** The renaming table lies directly in the build directory. */
  lemma MappingInBuildDir(directory: string)
    ensures PathJoin(directory + "-build", FILENAME_NAME_MAPPING) == directory + "-build/" + FILENAME_NAME_MAPPING
  {
    BuildDirNoSlash(directory);
    assert FILENAME_NAME_MAPPING[..1] != "/" by { assert FILENAME_NAME_MAPPING[0] == 'r'; }
  }

  /** One trailing '/' on the configured directory makes no difference. */
  lemma TrailingSlashIgnored(path: string, config: Dict<string, Value>, d: string)
    requires !EndsWith(d, "/")
    ensures LoadConfig(path, Assign(config, "directory", Str(d + "/")))
            == LoadConfig(path, Assign(config, "directory", Str(d)))
  {
    assert EndsWith(d + "/", "/") by { assert (d + "/")[|d|..] == "/"; }
    assert StripSlash(d + "/") == d by { assert (d + "/")[..|d|] == d; }
    var c1 := Assign(config, "directory", Str(d + "/"));
    var c2 := Assign(config, "directory", Str(d));
    assert Entry(c1, "directory") == Ok(d + "/");
    assert Entry(c2, "directory") == Ok(d);
    EntryOther(config, "directory", Str(d + "/"), "target");
    EntryOther(config, "directory", Str(d), "target");
    if Entry(config, "target").Ok? {
      var t := Entry(config, "target").value;
      LoadedReassigned(config, Str(d + "/"), PathJoin(path, d), t);
      LoadedReassigned(config, Str(d), PathJoin(path, d), t);
    }
  }

  /** Assigning another key leaves an entry as it was. */
  lemma EntryOther(config: Dict<string, Value>, k: string, v: Value, key: string)
    requires k != key
    ensures Entry(Assign(config, k, v), key) == Entry(config, key)
  {
  }

  /** `Library.load` overwrites the configured directory, whatever it held. */
  lemma LoadedReassigned(config: Dict<string, Value>, v: Value, directory: string, target: string)
    ensures Loaded(Assign(config, "directory", v), directory, target) == Loaded(config, directory, target)
  {
    AssignTwice(config, "directory", v, Str(directory));
  }

  /** `write_default_config`: refuses to overwrite an existing file unless forced; otherwise
      writes the default configuration to `config.json` in the given directory. */
  function WriteDefaultConfig(path: string, force: bool, present: bool): (r: Result<(string, Dict<string, Value>), string>)
    ensures r.Err? <==> present && !force
    ensures r.Ok? ==> r.value.0 == PathJoin(path, CONFIGNAME) && r.value.1 == DefaultConfig()
  {
    if present && !force then Err("file still exist")
    else Ok((PathJoin(path, CONFIGNAME), DefaultConfig()))
  }

  /** The default configuration, in its key order. */
  function DefaultConfig(): Dict<string, Value>
  {
    [("config_version", Str("0.0.1")),
     ("name", Str("<insert name of library>")),
     ("directory", Str("<insert current version directory>")),
     ("compiler_flags", Str("<insert compiler flags (like include flags)>")),
     ("traversals", StrList([])),
     ("target", Str("./here_name_of_target.bc"))]
  }

  /** The default configuration loads: its placeholder directory and target give the
      placeholder build paths. */
  lemma DefaultConfigLoads(path: string)
    ensures WriteDefaultConfig(path, true, true).Ok?
    ensures LoadConfig(path, DefaultConfig()).Ok?
  {
    var c := DefaultConfig();
    assert |c[0].0| == 14 && |c[1].0| == 4 && |c[2].0| == 9 && |c[3].0| == 14 && |c[4].0| == 10;
    FindAt(c, "directory", 2);
    FindAt(c, "target", 5);
  }

  // ---------------------------------------------------------------------------
  // Library.sources

  /** The source files a sequence of traversals yields: a traversal naming a `.c` file is
      yielded as it is; any other is a directory whose `.c` files `listed` gives (the
      directory listing is an input). */
  function SourcesOf(traversals: seq<string>, listed: string -> seq<string>): seq<string>
  {
    if |traversals| == 0 then []
    else
      var last := traversals[|traversals| - 1];
      SourcesOf(traversals[..|traversals| - 1], listed)
      + (if EndsWith(last, ".c") then [last] else listed(last))
  }

  /** `sources`, collected: the generator's yields in order. */
  method Sources(traversals: seq<string>, listed: string -> seq<string>) returns (files: seq<string>)
    ensures files == SourcesOf(traversals, listed)
  {
    files := [];
    var i := 0;
    while i < |traversals|
      invariant i <= |traversals|
      invariant files == SourcesOf(traversals[..i], listed)
    {
      assert traversals[..i + 1][..i] == traversals[..i];
      var traversal := traversals[i];
      if EndsWith(traversal, ".c") {
        files := files + [traversal];
      } else {
        files := files + listed(traversal);
      }
      i := i + 1;
    }
    assert traversals[..i] == traversals;
  }

  /** Traversals that all name `.c` files are yielded verbatim and in order, whatever the
      directories hold. */
  lemma {:induction false} CFilesVerbatim(traversals: seq<string>, listed: string -> seq<string>)
    requires forall i :: 0 <= i < |traversals| ==> EndsWith(traversals[i], ".c")
    ensures SourcesOf(traversals, listed) == traversals
  {
    if |traversals| > 0 {
      var n := |traversals| - 1;
      CFilesVerbatim(traversals[..n], listed);
      assert traversals == traversals[..n] + [traversals[n]];
    }
  }
}
