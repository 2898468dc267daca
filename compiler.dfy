/** The interface to the LLVM tool chain (sputnik/compiler.py): where the tools are, the
    command lines handed to the shell, how a tool's exit status and error output are read,
    and the compilation of a whole collection of sources. The shell itself is not modelled:
    its answer to a command line is a parameter. */
module Compiler {
  import opened Text
  import opened Wrappers
  import opened Dicts
  import opened Paths

  const CLANG := "clang"
  const LLVM_LINK := "llvm-link"
  const LLVM_AS := "llvm-as"
  const LLVM_DIS := "llvm-dis"

  /** The tool named `name` as the source writes its path: the name glued to the directory
      `TOOLS`, which `os.path.abspath` returns without a trailing slash. */
  function ToolAsWritten(tools: string, name: string): string
  {
    tools + name
  }

  /** The tool named `name` inside the directory `tools`. */
  function Tool(tools: string, name: string): (r: string)
    requires tools != "" && !EndsWith(tools, "/") && !AllSlashes(tools)
    requires name != "" && '/' !in name
    ensures Basename(r) == name && Dirname(r) == tools
  {
    BasenameOfJoin(tools, name);
    DirnameOfJoin(tools, name);
    PathJoin(tools, name)
  }

  /** The tools of the chain, in the order the module names them. */
  const TOOL_NAMES: seq<string> := [CLANG, LLVM_LINK, LLVM_AS, LLVM_DIS]

  /** The paths of the compiler, the linker, the assembler and the disassembler, each inside
      the tool directory as intended. */
  function Toolchain(tools: string): (r: seq<string>)
    requires tools != "" && !EndsWith(tools, "/") && !AllSlashes(tools)
    ensures |r| == |TOOL_NAMES|
    ensures forall i :: 0 <= i < |r| ==> Dirname(r[i]) == tools && Basename(r[i]) == TOOL_NAMES[i]
  {
    seq(|TOOL_NAMES|, i requires 0 <= i < |TOOL_NAMES| => Tool(tools, TOOL_NAMES[i]))
  }

  /** As written, the path names a file in the PARENT of the tool directory whose name is the
      last directory component followed by the tool name: `.../bin` + `clang` is `.../binclang`. */
  lemma ToolAsWrittenMissesDirectory(tools: string, name: string)
    requires tools != "" && !EndsWith(tools, "/") && '/' in tools
    requires name != "" && '/' !in name
    ensures Basename(ToolAsWritten(tools, name)) == Basename(tools) + name
    ensures Basename(ToolAsWritten(tools, name)) != name
  {
    var i :| 0 <= i < |tools| && tools[i] == '/';
    var k := LastIndexOf(tools, '/').value;
    var p := tools + name;
    assert p[k] == '/';
    assert p[k + 1..] == tools[k + 1..] + name;
    assert '/' !in p[k + 1..] by {
      assert '/' !in tools[k + 1..];
    }
    LastIndexOfAt(p, '/', k);
    assert tools[|tools| - 1] in tools[k + 1..] by { assert k < |tools| - 1; }
  }

  /** The failure `run_command` raises: the tool exited with a non-zero status. */
  datatype CompileError = CompileError(stderr: string)

  /** What the shell reports back for one command line. */
  datatype Completed = Completed(returncode: int, stderr: string)

  /** `run_command`: a non-zero exit status is an error carrying the error output; otherwise
      the error output is the warning, if there was any. */
  function RunCommand(proc: Completed): (r: Result<Option<string>, CompileError>)
    ensures r.Err? <==> proc.returncode != 0
    ensures r.Err? ==> r.error.stderr == proc.stderr
    ensures r.Ok? ==> (r.value.Some? <==> proc.stderr != "")
    ensures r.Ok? && r.value.Some? ==> r.value.value == proc.stderr
  {
    if proc.returncode != 0 then Err(CompileError(proc.stderr))
    else if proc.stderr != "" then Ok(Some(proc.stderr))
    else Ok(None)
  }

  /** `compile_file`'s command line. */
  function CompileCommand(compiler: string, cflags: string, dest: string, src: string): string
  {
    compiler + " " + cflags + " -o " + dest + " " + src
  }

  /** `link`'s command line. */
  function LinkCommand(linker: string, args: string, dest: string, files: seq<string>): string
  {
    linker + " " + args + " -o " + dest + " " + Join(files, " ")
  }

  /** `disassemble` and `assemble`: `tool -o dest src`. */
  function ConvertCommand(tool: string, dest: string, src: string): string
  {
    tool + " -o " + dest + " " + src
  }

  predicate Word(s: string)
  {
    ' ' !in s
  }

  /** The words of a command line made of single words and a run of flags. */
  lemma CommandWords(head: string, flags: string, tail: seq<string>)
    requires Word(head) && |tail| > 0 && forall i :: 0 <= i < |tail| ==> Word(tail[i])
    ensures Split(head + " " + flags + " " + Join(tail, " "), " ")
         == [head] + Split(flags, " ") + tail
  {
    var fl := Split(flags, " ");
    JoinSplit(flags, " ");
    JoinAppend([head], fl, " ");
    JoinAppend([head] + fl, tail, " ");
    forall k | 0 <= k < |fl| ensures ' ' !in fl[k] {
      SplitPieceNoSep(flags, k, ' ');
    }
    WordsJoined(head, fl, tail);
  }

  lemma WordsJoined(head: string, fl: seq<string>, tail: seq<string>)
    requires Word(head) && |tail| > 0
    requires forall i :: 0 <= i < |fl| ==> ' ' !in fl[i]
    requires forall i :: 0 <= i < |tail| ==> Word(tail[i])
    ensures Split(Join([head] + fl + tail, " "), " ") == [head] + fl + tail
  {
    var front := [head] + fl;
    assert forall k :: 0 <= k < |front| ==> ' ' !in front[k] by {
      forall k | 0 <= k < |front| ensures ' ' !in front[k] {
        if k > 0 { assert front[k] == fl[k - 1]; }
      }
    }
    AllWords(front, tail);
    SplitJoin(front + tail, " ");
  }

  lemma AllWords(front: seq<string>, tail: seq<string>)
    requires forall k :: 0 <= k < |front| ==> ' ' !in front[k]
    requires forall k :: 0 <= k < |tail| ==> ' ' !in tail[k]
    ensures forall k :: 0 <= k < |front + tail| ==> " "[0] !in (front + tail)[k]
  {
  }

  /** The shell sees the compiler, then the flags word by word, then `-o`, the destination
      and the source. */
  lemma CompileCommandWords(compiler: string, cflags: string, dest: string, src: string)
    requires Word(compiler) && Word(dest) && Word(src)
    ensures Split(CompileCommand(compiler, cflags, dest, src), " ")
         == [compiler] + Split(cflags, " ") + ["-o", dest, src]
  {
    var tail := ["-o", dest, src];
    JoinThree("-o", dest, src);
    CompileLayout(compiler, cflags, dest, src);
    CommandWords(compiler, cflags, tail);
  }

  lemma JoinThree(a: string, b: string, c: string)
    ensures Join([a, b, c], " ") == a + " " + (b + " " + c)
  {
    assert [a, b, c][1..] == [b, c] && [b, c][1..] == [c];
    assert Join([c], " ") == c;
    assert Join([b, c], " ") == b + " " + c;
  }

  lemma CompileLayout(compiler: string, cflags: string, dest: string, src: string)
    ensures CompileCommand(compiler, cflags, dest, src) == compiler + " " + cflags + " " + ("-o" + " " + (dest + " " + src))
  {
    var x := compiler + " " + cflags;
    assert " -o " == " " + "-o" + " ";
    calc {
      CompileCommand(compiler, cflags, dest, src);
      x + " -o " + dest + " " + src;
      { Assoc(x, " -o ", dest); }
      x + (" -o " + dest) + " " + src;
      { Assoc(x, " -o " + dest, " "); }
      x + (" -o " + dest + " ") + src;
      { Assoc(x, " -o " + dest + " ", src); }
      x + (" -o " + dest + " " + src);
      { assert " -o " + dest + " " + src == " " + ("-o" + " " + (dest + " " + src)); }
      x + (" " + ("-o" + " " + (dest + " " + src)));
      { Assoc(x, " ", "-o" + " " + (dest + " " + src)); }
      x + " " + ("-o" + " " + (dest + " " + src));
    }
  }

  /** The shell sees the linker, its arguments, `-o`, the destination and every input file. */
  lemma LinkCommandWords(linker: string, args: string, dest: string, files: seq<string>)
    requires Word(linker) && Word(dest) && |files| > 0 && forall i :: 0 <= i < |files| ==> Word(files[i])
    ensures Split(LinkCommand(linker, args, dest, files), " ")
         == [linker] + Split(args, " ") + ["-o", dest] + files
  {
    var tail := ["-o", dest] + files;
    JoinAppend(["-o", dest], files, " ");
    assert Join(["-o", dest], " ") == "-o " + dest by { assert ["-o", dest][1..] == [dest]; }
    assert LinkCommand(linker, args, dest, files) == linker + " " + args + " " + Join(tail, " ");
    CommandWords(linker, args, tail);
  }

  /** The shell's answer to each command line. */
  type Shell = string -> Completed

  /** `compile_file(dest, src, cflags)` with the compiler of the tool directory. */
  function CompileFile(compiler: string, shell: Shell, dest: string, src: string, cflags: string): Result<Option<string>, CompileError>
  {
    RunCommand(shell(CompileCommand(compiler, cflags, dest, src)))
  }

  /** The counters `compile_collection` keeps. */
  datatype Stats = Stats(skipped: nat, compiled: nat, failed: nat, warning: nat)

  /** The destinations that compiled, in the order of the collection. */
  function Compiled(srcs: Dict<string, string>, compiler: string, shell: Shell, cflags: string): (files: seq<string>)
    ensures |files| <= |srcs|
  {
    if |srcs| == 0 then []
    else
      var (src, dest) := srcs[|srcs| - 1];
      Compiled(srcs[..|srcs| - 1], compiler, shell, cflags)
        + (if CompileFile(compiler, shell, dest, src, cflags).Ok? then [dest] else [])
  }

  /** How many sources compiled with a warning. */
  function Warned(srcs: Dict<string, string>, compiler: string, shell: Shell, cflags: string): nat
  {
    if |srcs| == 0 then 0
    else
      var (src, dest) := srcs[|srcs| - 1];
      var out := CompileFile(compiler, shell, dest, src, cflags);
      Warned(srcs[..|srcs| - 1], compiler, shell, cflags) + (if out.Ok? && out.value.Some? then 1 else 0)
  }

  /** `compile_collection(srcs, cflags, cwd)`: every source is compiled to its destination;
      a failure is counted and skipped, a warning is counted, and the destinations that
      compiled are returned in order. */
  method CompileCollection(srcs: Dict<string, string>, cflags: string, compiler: string, shell: Shell)
    returns (files: seq<string>, stats: Stats)
    ensures files == Compiled(srcs, compiler, shell, cflags)
    ensures stats == Stats(0, |files|, |srcs| - |files|, Warned(srcs, compiler, shell, cflags))
  {
    files, stats := [], Stats(0, 0, 0, 0);
    for i := 0 to |srcs|
      invariant files == Compiled(srcs[..i], compiler, shell, cflags)
      invariant stats == Stats(0, |files|, i - |files|, Warned(srcs[..i], compiler, shell, cflags))
    {
      assert srcs[..i + 1][..i] == srcs[..i];
      var (src, dest) := srcs[i];
      var outcome := CompileFile(compiler, shell, dest, src, cflags);
      if outcome.Err? {
        stats := stats.(failed := stats.failed + 1);
        continue;
      }
      if outcome.value.Some? {
        stats := stats.(warning := stats.warning + 1);
      }
      stats := stats.(compiled := stats.compiled + 1);
      files := files + [dest];
    }
    assert srcs[..|srcs|] == srcs;
  }

  /** Every returned file is the destination of a source that compiled, and every source
      that compiled contributes its destination. */
  lemma {:induction false} CompiledIff(srcs: Dict<string, string>, compiler: string, shell: Shell, cflags: string, dest: string)
    ensures dest in Compiled(srcs, compiler, shell, cflags)
        <==> exists i :: 0 <= i < |srcs| && srcs[i].1 == dest && CompileFile(compiler, shell, dest, srcs[i].0, cflags).Ok?
    decreases |srcs|
  {
    if |srcs| > 0 {
      var init := srcs[..|srcs| - 1];
      CompiledIff(init, compiler, shell, cflags, dest);
      if exists i :: 0 <= i < |init| && init[i].1 == dest && CompileFile(compiler, shell, dest, init[i].0, cflags).Ok? {
        var i :| 0 <= i < |init| && init[i].1 == dest && CompileFile(compiler, shell, dest, init[i].0, cflags).Ok?;
        assert srcs[i] == init[i];
      }
      if exists i :: 0 <= i < |srcs| && srcs[i].1 == dest && CompileFile(compiler, shell, dest, srcs[i].0, cflags).Ok? {
        var i :| 0 <= i < |srcs| && srcs[i].1 == dest && CompileFile(compiler, shell, dest, srcs[i].0, cflags).Ok?;
        if i < |init| { assert init[i] == srcs[i]; }
      }
    }
  }

  /** Only sources that compiled can carry a warning. */
  lemma {:induction false} WarningsOnlyForCompiled(srcs: Dict<string, string>, compiler: string, shell: Shell, cflags: string)
    ensures Warned(srcs, compiler, shell, cflags) <= |Compiled(srcs, compiler, shell, cflags)|
    decreases |srcs|
  {
    if |srcs| > 0 {
      WarningsOnlyForCompiled(srcs[..|srcs| - 1], compiler, shell, cflags);
    }
  }

  /** When the tool chain answers every compilation with exit status zero, every destination
      is returned, in order, and nothing fails. */
  lemma {:induction false} AllSucceed(srcs: Dict<string, string>, compiler: string, shell: Shell, cflags: string)
    requires forall i :: 0 <= i < |srcs| ==> shell(CompileCommand(compiler, cflags, srcs[i].1, srcs[i].0)).returncode == 0
    ensures Compiled(srcs, compiler, shell, cflags) == seq(|srcs|, i requires 0 <= i < |srcs| => srcs[i].1)
    decreases |srcs|
  {
    if |srcs| > 0 {
      var init := srcs[..|srcs| - 1];
      assert forall i :: 0 <= i < |init| ==> init[i] == srcs[i];
      AllSucceed(init, compiler, shell, cflags);
    }
  }
}
