/** The build driver of prebuild.py: which sources a build compiles, the list of built files
    it keeps, the name of the temporary IR file it renames, the integrity check of the
    renaming table against the function catalog, and the text of the call wrappers.
    Files, the logger and the tool chain are inputs: a manifest read is `None` when it
    failed, the shell answers each command line, and the man-page lookup of a signature is a
    function from names to signatures. */
module Prebuild {
  import opened Wrappers
  import opened Text
  import opened Dicts
  import opened Paths
  import Compiler
  import Language
  import Rename

  /** The function catalog of the builder configuration: each function with the headers
      that declare it, in configuration order. */
  type Catalog = Dict<string, seq<string>>

  /** Strings written one after the other. */
  function Concat(pieces: seq<string>): string
  {
    if |pieces| == 0 then "" else Concat(pieces[..|pieces| - 1]) + pieces[|pieces| - 1]
  }

  /** Every piece appears in the concatenation, between the pieces before it and the pieces
      after it. */
  lemma {:induction false} ConcatAt(pieces: seq<string>, i: nat)
    requires i < |pieces|
    ensures Concat(pieces) == Concat(pieces[..i]) + pieces[i] + Concat(pieces[i + 1..])
    decreases |pieces|
  {
    var n := |pieces| - 1;
    if i == n {
      assert pieces[..i] == pieces[..n];
      assert pieces[i + 1..] == [];
    } else {
      var init := pieces[..n];
      ConcatAt(init, i);
      assert init[..i] == pieces[..i] && init[i] == pieces[i];
      assert pieces[i + 1..][..|pieces[i + 1..]| - 1] == init[i + 1..];
      assert pieces[i + 1..][|pieces[i + 1..]| - 1] == pieces[n];
      Assoc(Concat(pieces[..i]) + pieces[i], Concat(init[i + 1..]), pieces[n]);
    }
  }

  // ---------------------------------------------------------------------------
  // Builder.run: the integrity check

  /** The catalog functions whose symbol `@f` the renaming table lacks, in catalog order. */
  function Missing(functions: seq<string>, keys: seq<string>): seq<string>
  {
    if |functions| == 0 then []
    else
      var f := "@" + functions[|functions| - 1];
      Missing(functions[..|functions| - 1], keys) + (if f in keys then [] else [f])
  }

  /** The integrity check after a build: a warning for every catalog function the renamed
      blob does not define, and the error flag exactly when there is one. */
  method IntegrityCheck(catalog: Catalog, mapping: Dict<string, string>)
    returns (integrityError: bool, warnings: seq<string>)
    ensures warnings == Missing(Keys(catalog), Keys(mapping))
    ensures integrityError <==> |warnings| > 0
  {
    var functions := Keys(catalog);
    var keys := Keys(mapping);
    integrityError, warnings := false, [];
    for i := 0 to |functions|
      invariant warnings == Missing(functions[..i], keys)
      invariant integrityError <==> |warnings| > 0
    {
      assert functions[..i + 1][..i] == functions[..i];
      var f := "@" + functions[i];
      if f !in keys {
        integrityError := true;
        warnings := warnings + [f];
      }
    }
    assert functions[..|functions|] == functions;
  }

  /** `@f` is reported exactly when f is a catalog function the table lacks. */
  lemma {:induction false} MissingIff(functions: seq<string>, keys: seq<string>, f: string)
    ensures "@" + f in Missing(functions, keys) <==> f in functions && "@" + f !in keys
    decreases |functions|
  {
    if |functions| > 0 {
      var n := |functions| - 1;
      var init := functions[..n];
      MissingIff(init, keys, f);
      assert functions == init + [functions[n]];
      if "@" + functions[n] == "@" + f {
        assert functions[n] == f by { assert ("@" + functions[n])[1..] == functions[n]; }
      }
    }
  }

  /** Each catalog function is reported at most once per time it is listed, so for a catalog
      (distinct keys) every warning names a different function. */
  lemma {:induction false} MissingOnce(functions: seq<string>, keys: seq<string>)
    requires forall i, j :: 0 <= i < j < |functions| ==> functions[i] != functions[j]
    ensures forall i, j :: 0 <= i < j < |Missing(functions, keys)| ==> Missing(functions, keys)[i] != Missing(functions, keys)[j]
    decreases |functions|
  {
    if |functions| > 0 {
      var n := |functions| - 1;
      var init := functions[..n];
      MissingOnce(init, keys);
      var f := functions[n];
      if "@" + f !in keys {
        assert f !in init;
        MissingIff(init, keys, f);
      }
    }
  }

  /** Against the table that renaming builds: the check fails exactly when a catalog function
      is not defined in the linked module. */
  lemma IntegrityAgainstModule(catalog: Catalog, lines: seq<string>, prefix: string)
    ensures |Missing(Keys(catalog), Keys(Rename.Detected(lines, prefix)))| > 0
            <==> exists f :: f in Keys(catalog) && f !in Rename.Symbols(lines)
  {
    var keys := Keys(Rename.Detected(lines, prefix));
    var m := Missing(Keys(catalog), keys);
    if |m| > 0 {
      assert m[0] in m;
      assert m[0] == "@" + m[0][1..] by { MissingMarked(Keys(catalog), keys, 0); }
      MissingIff(Keys(catalog), keys, m[0][1..]);
    }
    if exists f :: f in Keys(catalog) && f !in Rename.Symbols(lines) {
      var f :| f in Keys(catalog) && f !in Rename.Symbols(lines);
      MissingIff(Keys(catalog), keys, f);
    }
  }

  /** Every reported name is a symbol `@f`. */
  lemma {:induction false} MissingMarked(functions: seq<string>, keys: seq<string>, i: nat)
    requires i < |Missing(functions, keys)|
    ensures var w := Missing(functions, keys)[i]; |w| > 0 && w == "@" + w[1..]
    decreases |functions|
  {
    var n := |functions| - 1;
    var init := Missing(functions[..n], keys);
    if i < |init| {
      MissingMarked(functions[..n], keys, i);
    } else {
      var w := "@" + functions[n];
      assert w[1..] == functions[n];
    }
  }

  // ---------------------------------------------------------------------------
  // Builder.pre_compile

  /** `n.rsplit('.', 1)[0]`: everything before the last '.'. */
  function Stem(n: string): (r: string)
    ensures |r| <= |n| && r == n[..|r|]
  {
    match LastIndexOf(n, '.') case None => n case Some(i) => n[..i]
  }

  /** The IR file a source is compiled to: the source path under the build directory, with
      its extension replaced by `ll`. */
  function Dest(builddir: string, n: string): string
  {
    PathJoin(builddir, Stem(n) + ".ll")
  }

  /** The extension after the last '.' is what `ll` replaces. */
  lemma DestReplacesExtension(builddir: string, stem: string, ext: string)
    requires '.' !in ext
    ensures Dest(builddir, stem + "." + ext) == PathJoin(builddir, stem + ".ll")
  {
    var n := stem + "." + ext;
    assert n[|stem| + 1..] == ext;
    LastIndexOfAt(n, '.', |stem|);
    assert n[..|stem|] == stem;
  }

  /** A source without a '.' keeps its whole name. */
  lemma DestWithoutExtension(builddir: string, n: string)
    requires '.' !in n
    ensures Dest(builddir, n) == PathJoin(builddir, n + ".ll")
  {
  }

  /** A relative source lies below the build directory. */
  lemma DestUnderBuildDir(builddir: string, n: string)
    requires builddir != "" && !EndsWith(builddir, "/") && !StartsWith(n, "/")
    ensures Dest(builddir, n) == builddir + "/" + Stem(n) + ".ll"
  {
    var b := Stem(n) + ".ll";
    assert !StartsWith(b, "/") by {
      if |Stem(n)| == 0 {
        assert b[0] == '.';
      } else {
        assert b[0] == n[0];
        assert n[..1] != "/";
      }
    }
  }

  /** The sources a build compiles and their destinations, in the order of the sources: those
      whose destination is not among the files already built. */
  function NewFiles(sources: seq<string>, builddir: string, built: seq<string>): Dict<string, string>
  {
    if |sources| == 0 then []
    else
      var src := sources[|sources| - 1];
      var prev := NewFiles(sources[..|sources| - 1], builddir, built);
      if Dest(builddir, src) in built then prev else Assign(prev, src, Dest(builddir, src))
  }

  /** Every entry is a listed source and its destination, which is not among the built
      files. */
  predicate ToBuild(r: Dict<string, string>, sources: seq<string>, builddir: string, built: seq<string>)
  {
    forall i :: 0 <= i < |r| ==> r[i].0 in sources && r[i].1 == Dest(builddir, r[i].0) && r[i].1 !in built
  }

  lemma {:induction false} NewFilesEntries(sources: seq<string>, builddir: string, built: seq<string>)
    ensures ToBuild(NewFiles(sources, builddir, built), sources, builddir, built)
    decreases |sources|
  {
    if |sources| > 0 {
      var init := sources[..|sources| - 1];
      var src := sources[|sources| - 1];
      NewFilesEntries(init, builddir, built);
      var prev := NewFiles(init, builddir, built);
      var r := NewFiles(sources, builddir, built);
      forall i | 0 <= i < |r|
        ensures r[i].0 in sources && r[i].1 == Dest(builddir, r[i].0) && r[i].1 !in built
      {
        if r[i] in prev {
          var j :| 0 <= j < |prev| && prev[j] == r[i];
          assert prev[j].0 in init;
          assert init[..] == sources[..|sources| - 1];
        } else {
          assert r[i] == (src, Dest(builddir, src));
        }
      }
    }
  }

  /** A source is compiled exactly when its destination is not among the files already
      built; it is compiled to its destination. */
  lemma {:induction false} NewFilesSpec(sources: seq<string>, builddir: string, built: seq<string>, src: string)
    ensures Get(NewFiles(sources, builddir, built), src)
            == if src in sources && Dest(builddir, src) !in built then Some(Dest(builddir, src)) else None
    decreases |sources|
  {
    if |sources| > 0 {
      var init := sources[..|sources| - 1];
      var last := sources[|sources| - 1];
      NewFilesSpec(init, builddir, built, src);
      InInitOrLast(sources, src);
      var prev := NewFiles(init, builddir, built);
      var d := Dest(builddir, last);
      assert NewFiles(sources, builddir, built) == if d in built then prev else Assign(prev, last, d);
      GetStep(prev, last, d, d !in built, src);
      var r := NewFiles(sources, builddir, built);
      if src == last {
        if d in built {
          assert Get(r, src) == None;
        } else {
          assert Get(r, src) == Some(d);
        }
      } else {
        assert Get(r, src) == Get(prev, src);
        assert src in sources <==> src in init;
      }
    }
  }

  /** An element of a non-empty sequence is in the part before the last or is the last. */
  lemma InInitOrLast<T>(s: seq<T>, x: T)
    requires |s| > 0
    ensures x in s <==> x in s[..|s| - 1] || x == s[|s| - 1]
  {
    assert s == s[..|s| - 1] + [s[|s| - 1]];
  }

  /** A lookup after an optional assignment. */
  lemma GetStep(prev: Dict<string, string>, k: string, v: string, add: bool, key: string)
    ensures Get(if add then Assign(prev, k, v) else prev, key) == if add && key == k then Some(v) else Get(prev, key)
  {
  }

  /** The flags the sources are compiled with. */
  function Cflags(compilerFlags: string): string
  {
    "-S -emit-llvm -g -fno-builtin " + compilerFlags
  }

  /** The files counted as built before this build: none on a rebuild, and none when the
      list of built files cannot be read (the build then starts over as a rebuild). */
  function OldFiles(rebuild: bool, read: Option<seq<string>>): seq<string>
  {
    if rebuild || read.None? then [] else read.value
  }

  /** `pre_compile(rebuild)`: the built files so far, then every new source compiled in
      order; those that fail to compile are dropped. */
  method PreCompile(rebuild: bool, read: Option<seq<string>>, sources: seq<string>, builddir: string,
                    compilerFlags: string, compiler: string, shell: Compiler.Shell)
    returns (allFiles: seq<string>)
    ensures allFiles == OldFiles(rebuild, read)
                        + Compiler.Compiled(NewFiles(sources, builddir, OldFiles(rebuild, read)),
                                            compiler, shell, Cflags(compilerFlags))
    decreases if rebuild then 0 else 1
  {
    var oldFiles: seq<string> := [];
    var cflags := "-S -emit-llvm -g -fno-builtin " + compilerFlags;
    if !rebuild {
      if read.None? {
        allFiles := PreCompile(true, read, sources, builddir, compilerFlags, compiler, shell);
        return;
      }
      oldFiles := read.value;
    }
    var newFiles: Dict<string, string> := [];
    for i := 0 to |sources|
      invariant newFiles == NewFiles(sources[..i], builddir, oldFiles)
    {
      assert sources[..i + 1][..i] == sources[..i];
      var dest := PathJoin(builddir, Stem(sources[i]) + ".ll");
      if dest !in oldFiles {
        newFiles := Assign(newFiles, sources[i], dest);
      }
    }
    assert sources[..|sources|] == sources;
    var compiled, stats := Compiler.CompileCollection(newFiles, cflags, compiler, shell);
    allFiles := oldFiles + compiled;
  }

  /** A file the build adds was not built before: it is the destination of a listed source
      that compiled. */
  lemma AddedWasNotBuilt(sources: seq<string>, builddir: string, built: seq<string>,
                         compiler: string, shell: Compiler.Shell, cflags: string, f: string)
    requires f in Compiler.Compiled(NewFiles(sources, builddir, built), compiler, shell, cflags)
    ensures f !in built
    ensures exists src :: (src in sources && f == Dest(builddir, src)
                           && Compiler.CompileFile(compiler, shell, f, src, cflags).Ok?)
  {
    var srcs := NewFiles(sources, builddir, built);
    Compiler.CompiledIff(srcs, compiler, shell, cflags, f);
    var i :| 0 <= i < |srcs| && srcs[i].1 == f && Compiler.CompileFile(compiler, shell, f, srcs[i].0, cflags).Ok?;
    NewFilesEntries(sources, builddir, built);
  }

  /** Every listed source not yet built that compiles is added. */
  lemma NotBuiltIsAdded(sources: seq<string>, builddir: string, built: seq<string>,
                        compiler: string, shell: Compiler.Shell, cflags: string, src: string)
    requires src in sources && Dest(builddir, src) !in built
    requires Compiler.CompileFile(compiler, shell, Dest(builddir, src), src, cflags).Ok?
    ensures Dest(builddir, src) in Compiler.Compiled(NewFiles(sources, builddir, built), compiler, shell, cflags)
  {
    var srcs := NewFiles(sources, builddir, built);
    NewFilesSpec(sources, builddir, built, src);
    var i := Find(srcs, src).value;
    assert srcs[i] == (src, Dest(builddir, src));
    Compiler.CompiledIff(srcs, compiler, shell, cflags, Dest(builddir, src));
  }

  // ---------------------------------------------------------------------------
  // Builder.rename

  /** The name of the disassembled target in the temporary directory: the target's file name
      up to its first '.', then `.ll`. */
  function TempName(target: string): string
  {
    Split(Basename(target), ".")[0] + ".ll"
  }

  /** The temporary name has no directory part and a single '.', the one of `.ll`. */
  lemma TempNameShape(target: string)
    ensures EndsWith(TempName(target), ".ll")
    ensures '/' !in TempName(target)
    ensures '.' !in TempName(target)[..|TempName(target)| - 3]
  {
    var b := Basename(target);
    var stem := Split(b, ".")[0];
    SplitPieceNoSep(b, 0, '.');
    assert '/' !in stem by {
      JoinSplit(b, ".");
      JoinPieceIn(Split(b, "."), ".");
    }
    var t := stem + ".ll";
    assert t[|t| - 3..] == ".ll";
    assert t[..|t| - 3] == stem;
  }

  /** The first piece of a split lies at the front of the text split. */
  lemma JoinPieceIn(parts: seq<string>, sep: string)
    requires |parts| >= 1
    ensures StartsWith(Join(parts, sep), parts[0])
  {
  }

  /** For a target named `<stem>.<rest>` in some directory, with no '.' in the stem, the
      temporary name is `<stem>.ll`. */
  lemma TempNameOfTarget(dir: string, stem: string, rest: string)
    requires '.' !in stem && '/' !in stem && '/' !in rest
    ensures TempName(PathJoin(dir, stem + "." + rest)) == stem + ".ll"
  {
    var b := stem + "." + rest;
    assert '/' !in b;
    BasenameOfJoin(dir, b);
    FirstAt(stem, ".", rest);
    assert b[..|stem|] == stem;
  }

  /** The disassembled file and its renamed copy are two different files of the temporary
      directory. */
  lemma TempFilesDiffer(tmpDir: string, target: string)
    ensures PathJoin(tmpDir, TempName(target)) != PathJoin(tmpDir, "new_" + TempName(target))
  {
    var t := TempName(target);
    TempNameShape(target);
    assert t[..0] == "" && !StartsWith(t, "/") by {
      if |t| > 0 { assert t[0] in t; }
    }
    assert ("new_" + t)[0] == 'n';
    assert !StartsWith("new_" + t, "/");
  }

  // ---------------------------------------------------------------------------
  // build_call_wrappers

  /** The guard lines around the wrapper header. */
  const GUARD_OPEN: string := "#ifndef __CALL_WRAPPERS\n#define __CALL_WRAPPERS\n\n"
  const GUARD_CLOSE: string := "#endif\n"

  /** Every header listed for some catalog function. */
  function AllHeaders(catalog: Catalog): seq<string>
  {
    if |catalog| == 0 then [] else AllHeaders(catalog[..|catalog| - 1]) + catalog[|catalog| - 1].1
  }

  /** The headers of the catalog as a set: each distinct header once. */
  function HeaderSet(catalog: Catalog): set<string>
  {
    set h | h in AllHeaders(catalog)
  }

  /** A header is included when some catalog entry lists it. */
  lemma {:induction false} HeaderSetIff(catalog: Catalog, h: string)
    ensures h in HeaderSet(catalog) <==> exists i :: 0 <= i < |catalog| && h in catalog[i].1
    decreases |catalog|
  {
    if |catalog| > 0 {
      var n := |catalog| - 1;
      var init := catalog[..n];
      HeaderSetIff(init, h);
      assert h in HeaderSet(catalog) <==> h in HeaderSet(init) || h in catalog[n].1;
      if exists i :: 0 <= i < |init| && h in init[i].1 {
        var i :| 0 <= i < |init| && h in init[i].1;
        assert catalog[i] == init[i];
      }
      if exists i :: 0 <= i < |catalog| && h in catalog[i].1 {
        var i :| 0 <= i < |catalog| && h in catalog[i].1;
        if i < n { assert init[i] == catalog[i]; }
      }
    }
  }

  /** The include line of a header. */
  function IncludeLine(h: string): string
  {
    "#include <" + h + ">\n"
  }

  /** The include lines of headers in the order they are written. */
  function IncludesText(headers: seq<string>): string
  {
    Concat(seq(|headers|, i requires 0 <= i < |headers| => IncludeLine(headers[i])))
  }

  /** The names of the arguments, in order. */
  function ArgNames(args: seq<Language.Variable>): (r: seq<string>)
    ensures |r| == |args| && forall i :: 0 <= i < |args| ==> r[i] == args[i].name
  {
    seq(|args|, i requires 0 <= i < |args| => args[i].name)
  }

  /** The wrapper of a catalog function: its signature under the name `lib_entry_<f>`. */
  function Wrapper(f: string, sig: Language.Signature): Language.Function
  {
    Language.Fork(sig, "lib_entry_" + f)
  }

  /** The body of a wrapper: the call of the wrapped function on the wrapper's arguments. */
  function WrapperBody(f: string, sig: Language.Signature): string
  {
    "return " + f + "(" + Join(ArgNames(sig.args), ", ") + ");"
  }

  /** The definition of a wrapper, as written to the wrapper source. */
  function WrapperDefinition(f: string, sig: Language.Signature): string
  {
    Language.Definition(Wrapper(f, sig), WrapperBody(f, sig)) + "\n\n"
  }

  /** The declaration of a wrapper, as written to the wrapper header. */
  function WrapperDeclaration(f: string, sig: Language.Signature): string
  {
    Language.Declaration(Wrapper(f, sig)) + "\n\n"
  }

  /** The wrapper definitions of the functions, one piece per function. */
  function DefinitionPieces(functions: seq<string>, signatureOf: string -> Language.Signature): (r: seq<string>)
    ensures |r| == |functions|
    ensures forall k :: 0 <= k < |functions| ==> r[k] == WrapperDefinition(functions[k], signatureOf(functions[k]))
  {
    seq(|functions|, k requires 0 <= k < |functions| => WrapperDefinition(functions[k], signatureOf(functions[k])))
  }

  /** The wrapper declarations of the functions, one piece per function. */
  function DeclarationPieces(functions: seq<string>, signatureOf: string -> Language.Signature): (r: seq<string>)
    ensures |r| == |functions|
    ensures forall k :: 0 <= k < |functions| ==> r[k] == WrapperDeclaration(functions[k], signatureOf(functions[k]))
  {
    seq(|functions|, k requires 0 <= k < |functions| => WrapperDeclaration(functions[k], signatureOf(functions[k])))
  }

  function Definitions(functions: seq<string>, signatureOf: string -> Language.Signature): string
  {
    Concat(DefinitionPieces(functions, signatureOf))
  }

  function Declarations(functions: seq<string>, signatureOf: string -> Language.Signature): string
  {
    Concat(DeclarationPieces(functions, signatureOf))
  }

  /** `build_call_wrappers(config)`: the wrapper source (one include line per distinct
      header, in the order the set yields them, then a wrapper definition per catalog
      function) and the wrapper header (the declarations, inside the include guard). */
  method BuildCallWrappers(catalog: Catalog, signatureOf: string -> Language.Signature)
    returns (source: string, header: string, includes: seq<string>)
    ensures forall h :: h in includes <==> h in HeaderSet(catalog)
    ensures forall i, j :: 0 <= i < j < |includes| ==> includes[i] != includes[j]
    ensures source == IncludesText(includes) + "\n" + Definitions(Keys(catalog), signatureOf)
    ensures header == GUARD_OPEN + Declarations(Keys(catalog), signatureOf) + GUARD_CLOSE
  {
    var text;
    text, includes := WriteIncludes(HeaderSet(catalog));
    var definitions, declarations := WriteWrappers(Keys(catalog), signatureOf);
    source := text + "\n" + definitions;
    header := GUARD_OPEN + declarations + GUARD_CLOSE;
  }

  /** The include lines of the wrapper source: every header of the set once, in the order
      the set yields them. */
  method WriteIncludes(headers: set<string>) returns (text: string, includes: seq<string>)
    ensures forall h :: h in includes <==> h in headers
    ensures forall i, j :: 0 <= i < j < |includes| ==> includes[i] != includes[j]
    ensures text == IncludesText(includes)
  {
    text, includes := "", [];
    var remaining := headers;
    while remaining != {}
      invariant remaining <= headers
      invariant forall h :: h in includes <==> h in headers && h !in remaining
      invariant forall i, j :: 0 <= i < j < |includes| ==> includes[i] != includes[j]
      invariant text == IncludesText(includes)
      decreases |remaining|
    {
      var h :| h in remaining;
      IncludesAppend(includes, h);
      text := text + "#include <" + h + ">\n";
      includes := includes + [h];
      remaining := remaining - {h};
    }
  }

  /** The wrapper definitions and declarations of the catalog functions, in catalog
      order. */
  method WriteWrappers(functions: seq<string>, signatureOf: string -> Language.Signature)
    returns (definitions: string, declarations: string)
    ensures definitions == Definitions(functions, signatureOf)
    ensures declarations == Declarations(functions, signatureOf)
  {
    definitions, declarations := "", "";
    for i := 0 to |functions|
      invariant definitions == Definitions(functions[..i], signatureOf)
      invariant declarations == Declarations(functions[..i], signatureOf)
    {
      var funcname := functions[i];
      var f := Language.Fork(signatureOf(funcname), "lib_entry_" + funcname);
      var args := Join(ArgNames(f.args), ", ");
      var c := Language.Definition(f, "return " + funcname + "(" + args + ");");
      var d := Language.Declaration(f);
      WrappersAppend(functions, i, signatureOf);
      definitions := definitions + (c + "\n\n");
      declarations := declarations + (d + "\n\n");
    }
    assert functions[..|functions|] == functions;
  }

  /** One include line more. */
  lemma IncludesAppend(headers: seq<string>, h: string)
    ensures IncludesText(headers + [h]) == IncludesText(headers) + IncludeLine(h)
  {
    var a := seq(|headers|, i requires 0 <= i < |headers| => IncludeLine(headers[i]));
    var b := seq(|headers + [h]|, i requires 0 <= i < |headers + [h]| => IncludeLine((headers + [h])[i]));
    assert b[..|headers|] == a;
  }

  /** One wrapper more, in both texts. */
  lemma WrappersAppend(functions: seq<string>, i: nat, signatureOf: string -> Language.Signature)
    requires i < |functions|
    ensures Definitions(functions[..i + 1], signatureOf)
            == Definitions(functions[..i], signatureOf) + WrapperDefinition(functions[i], signatureOf(functions[i]))
    ensures Declarations(functions[..i + 1], signatureOf)
            == Declarations(functions[..i], signatureOf) + WrapperDeclaration(functions[i], signatureOf(functions[i]))
  {
    var p := functions[..i + 1];
    assert p[..i] == functions[..i];
    assert DefinitionPieces(p, signatureOf)[..i] == DefinitionPieces(functions[..i], signatureOf);
    assert DeclarationPieces(p, signatureOf)[..i] == DeclarationPieces(functions[..i], signatureOf);
  }

  /** The definition of the i-th catalog function sits in the source between those of the
      functions before and after it. */
  lemma DefinitionInPlace(functions: seq<string>, i: nat, signatureOf: string -> Language.Signature)
    requires i < |functions|
    ensures Definitions(functions, signatureOf)
            == Definitions(functions[..i], signatureOf) + WrapperDefinition(functions[i], signatureOf(functions[i]))
               + Definitions(functions[i + 1..], signatureOf)
  {
    var a := DefinitionPieces(functions, signatureOf);
    assert DefinitionPieces(functions[..i], signatureOf) == a[..i] by {
      DefinitionPiecesSlice(functions, 0, i, signatureOf);
      assert functions[0..i] == functions[..i] && a[0..i] == a[..i];
    }
    assert DefinitionPieces(functions[i + 1..], signatureOf) == a[i + 1..] by {
      DefinitionPiecesSlice(functions, i + 1, |functions|, signatureOf);
      assert functions[i + 1..|functions|] == functions[i + 1..] && a[i + 1..|a|] == a[i + 1..];
    }
    ConcatAt(a, i);
  }

  /** The declaration of the i-th catalog function sits in the header between those of the
      functions before and after it. */
  lemma DeclarationInPlace(functions: seq<string>, i: nat, signatureOf: string -> Language.Signature)
    requires i < |functions|
    ensures Declarations(functions, signatureOf)
            == Declarations(functions[..i], signatureOf) + WrapperDeclaration(functions[i], signatureOf(functions[i]))
               + Declarations(functions[i + 1..], signatureOf)
  {
    var a := DeclarationPieces(functions, signatureOf);
    assert DeclarationPieces(functions[..i], signatureOf) == a[..i] by {
      DeclarationPiecesSlice(functions, 0, i, signatureOf);
      assert functions[0..i] == functions[..i] && a[0..i] == a[..i];
    }
    assert DeclarationPieces(functions[i + 1..], signatureOf) == a[i + 1..] by {
      DeclarationPiecesSlice(functions, i + 1, |functions|, signatureOf);
      assert functions[i + 1..|functions|] == functions[i + 1..] && a[i + 1..|a|] == a[i + 1..];
    }
    ConcatAt(a, i);
  }

  lemma DefinitionPiecesSlice(functions: seq<string>, lo: nat, hi: nat, signatureOf: string -> Language.Signature)
    requires lo <= hi <= |functions|
    ensures DefinitionPieces(functions[lo..hi], signatureOf) == DefinitionPieces(functions, signatureOf)[lo..hi]
  {
    var a := DefinitionPieces(functions[lo..hi], signatureOf);
    var b := DefinitionPieces(functions, signatureOf)[lo..hi];
    forall k | 0 <= k < hi - lo ensures a[k] == b[k] {
      assert functions[lo..hi][k] == functions[lo + k];
    }
  }

  lemma DeclarationPiecesSlice(functions: seq<string>, lo: nat, hi: nat, signatureOf: string -> Language.Signature)
    requires lo <= hi <= |functions|
    ensures DeclarationPieces(functions[lo..hi], signatureOf) == DeclarationPieces(functions, signatureOf)[lo..hi]
  {
    var a := DeclarationPieces(functions[lo..hi], signatureOf);
    var b := DeclarationPieces(functions, signatureOf)[lo..hi];
    forall k | 0 <= k < hi - lo ensures a[k] == b[k] {
      assert functions[lo..hi][k] == functions[lo + k];
    }
  }

  /** A wrapper is named `lib_entry_<f>`, takes the arguments of f, and its definition is the
      header line, `{`, the single line `return f(<argument names>);` behind a tab, and `}`. */
  lemma WrapperShape(f: string, sig: Language.Signature)
    requires '\n' !in Language.Header(Wrapper(f, sig)) && '\n' !in WrapperBody(f, sig)
    ensures Wrapper(f, sig).name == "lib_entry_" + f && Wrapper(f, sig).args == sig.args
    ensures Split(Language.Definition(Wrapper(f, sig), WrapperBody(f, sig)), "\n")
            == [Language.Header(Wrapper(f, sig)), "{", "\t" + WrapperBody(f, sig), "}"]
  {
    var w := Wrapper(f, sig);
    var body := WrapperBody(f, sig);
    Language.DefinitionLines(w, body);
    NoFind(body, "\n");
    assert Split(body, "\n") == [body];
    assert Language.Tabbed([body]) == ["\t" + body];
    assert [Language.Header(w), "{"] + ["\t" + body] + ["}"] == [Language.Header(w), "{", "\t" + body, "}"];
  }

  /** Renamed with the prefix of a library, a wrapper is the entry the harness calls,
      `<library>_lib_entry_<f>`. */
  lemma WrapperRenamedIsEntry(library: string, f: string, sig: Language.Signature)
    requires '\n' !in f
    ensures Rename.Sub(library, Wrapper(f, sig).name) == library + "_lib_entry_" + f
  {
    Rename.WrapperEntryName(library, f);
  }
}
