/** The test-harness generator (sputnik/crafter.py): the state a TestHarness keeps between
    `prepare` and `generate_test_harness`, and the C text it emits. The verifier's algorithm
    and the meaning of the two `lib_eval` comparisons are modelled in the Verifier module;
    here they are the lines of text the harness carries. */
module Crafter {
  import opened Wrappers
  import opened Text
  import opened Dicts
  import opened Language
  import Library
  import Rename
  import Prebuild
  import Tools

  const VERSION: string := "TestHarness 0.3"

  /** The placeholder `__init__` puts in `self.function`. */
  const FUNCTION_PLACEHOLDER: string := "<insert name of function here (not really HERE)"

  /** The two engines a harness is generated for; `engine_wrapper` picks the variant of a
      method by this value. */
  datatype Engine = Symex | Fuzzing

  /** The exception define_input_fuzzing raises for a type it has no input format for. */
  datatype InputError = UnsupportedType(typ: string)

  // ---------------------------------------------------------------------------
  // One-line emitters

  /** `generate_header_<engine>`. */
  function HeaderLines(engine: Engine): seq<string>
  {
    match engine
    case Symex => ["#include <klee/klee.h>"]
    case Fuzzing => ["#include <stdio.h>", "void abort(void);"]
  }

  /** `generate_assumption_<engine>`: both engines leave `main` early when an assumption
      does not hold. */
  function AssumptionCheck(expr: string): string
  {
    "if (!(" + expr + ")) return 0;"
  }

  /** `abort_<engine>`. */
  function AbortBody(engine: Engine): seq<string>
  {
    match engine
    case Symex => ["klee_report_error(\"\", 0, message, \"sputnik_error\");"]
    case Fuzzing => ["abort();"]
  }

  /** `indent` with its defaults: one tab in front of every line. */
  function Indented(lines: seq<string>): (r: seq<string>)
    ensures |r| == |lines| && forall i :: 0 <= i < |lines| ==> r[i] == "\t" + lines[i]
  {
    assert Tools.Prefix(1, "\t") == "\t" by {
      assert RepeatStr("\t", 1) == "\t" + RepeatStr("\t", 0);
    }
    Tools.Indent(Tools.Lines(lines)).lines
  }

  /** `generate_abort_function`. */
  function AbortFunction(engine: Engine): seq<string>
  {
    ["void sputnik_abort(char *message)", "{"] + Indented(AbortBody(engine)) + ["}"]
  }

  /** `generate_evaluation_function`: the two results compared with `==`. */
  function EvaluationFunction(): seq<string>
  {
    ["int lib_eval(int i, int j)", "{",
     "   if (eval_return_values[i] == eval_return_values[j])", "       return 0;",
     "   return 1;", "}"]
  }

  /** `generate_evaluation_function_array`: the first `width` characters compared. */
  function EvaluationFunctionArray(width: int): seq<string>
  {
    ["int lib_eval(int i, int j) {",
     "\tchar *a = eval_return_values[i];", "\tchar *b = eval_return_values[j];", "",
     "\tfor (size_t c = 0; c < " + IntStr(width) + "; c++)", "\t\tif (a[c] != b[c]) return 1;", "",
     "\treturn 0;", "}"]
  }

  /** `traditional_generate_verify_function` for n libraries. */
  function TraditionalVerifyFunction(n: nat): seq<string>
  {
    ["void verifier()", "{",
     "\tfor (size_t i = 0; i < " + NatStr(n) + "; i++) {",
     "\t\tfor (size_t j = 0; j < " + NatStr(n) + "; j++) {",
     "\t\t\tif (lib_eval(i, j) != 0)", "\t\t\t\tsputnik_abort(\"assertion error\");",
     "\t\t}", "\t}", "}"]
  }

  /** `generate_verify_function`: the setting "new" picks the clustering verifier, whose
      text (one element) enters as `clustering`; any other setting the pairwise one. */
  function VerifyFunction(kind: string, n: nat, clustering: string): seq<string>
  {
    if kind == "new" then [clustering] else TraditionalVerifyFunction(n)
  }

  /** The prototypes the harness declares before `main` when it compares libraries. */
  const HELPER_PROTOTYPES: seq<string> :=
    ["void verifier();", "int lib_eval(int i, int j);", "void sputnik_abort(char *message);"]

  /** Each helper definition opens with the declarator of its prototype. */
  lemma HelpersMatchPrototypes(engine: Engine, n: nat, width: int)
    ensures TraditionalVerifyFunction(n)[0] + ";" == HELPER_PROTOTYPES[0]
    ensures EvaluationFunction()[0] + ";" == HELPER_PROTOTYPES[1]
    ensures EvaluationFunctionArray(width)[0] == EvaluationFunction()[0] + " {"
    ensures AbortFunction(engine)[0] + ";" == HELPER_PROTOTYPES[2]
  {
  }

  // ---------------------------------------------------------------------------
  // Argument declarations and symbolic inputs

  /** `if arg.value`: a value that is neither None nor empty. */
  predicate HasValue(v: Variable)
  {
    v.value.Some? && v.value.value != ""
  }

  /** The ` = value` suffix of a declaration. */
  function ValueSuffix(v: Variable): string
  {
    if HasValue(v) then " = " + v.value.value else ""
  }

  /** A pointer without value to `void` or `char`: get_arguments lays it out as an array. */
  predicate IsBuffer(v: Variable)
  {
    IsPtr(v) && !HasValue(v) && (v.typ == "void" || v.typ == "char")
  }

  /** One line of get_arguments: a pointer with a value keeps its pointer type, a buffer
      becomes an array of `array_size` elements, and every other argument a single object
      of its base type. */
  function ArgumentLine(v: Variable): string
  {
    if IsPtr(v) && HasValue(v) then TypeStr(v) + " " + v.name + ValueSuffix(v) + ";"
    else if IsBuffer(v) then v.typ + " " + v.name + "[" + IntStr(v.arraySize) + "]" + ValueSuffix(v) + ";"
    else v.typ + " " + v.name + ValueSuffix(v) + ";"
  }

  /** The lines of get_arguments, one per argument in order. */
  function ArgumentLines(args: seq<Variable>): (r: seq<string>)
    ensures |r| == |args| && forall i :: 0 <= i < |args| ==> r[i] == ArgumentLine(args[i])
  {
    seq(|args|, i requires 0 <= i < |args| => ArgumentLine(args[i]))
  }

  lemma ArgumentLinesStep(args: seq<Variable>, i: nat)
    requires i < |args|
    ensures ArgumentLines(args[..i + 1]) == ArgumentLines(args[..i]) + [ArgumentLine(args[i])]
  {
  }

  /** `define_input_symex`: a `void`/`char` pointer is made symbolic as `array_size`
      elements, every other argument through its address. */
  function DefineInputSymex(v: Variable): seq<string>
  {
    if IsPtr(v) && (v.typ == "void" || v.typ == "char") then
      ["klee_make_symbolic(" + v.name + ", " + IntStr(v.arraySize) + " * sizeof(" + v.typ + "), \"" + v.name + "\");"]
    else
      ["klee_make_symbolic(&" + v.name + ", sizeof(" + v.name + "), \"" + v.name + "\");"]
  }

  /** How an argument without value is stored in `main`: an array of `count` elements of
      type `elem`, or one object of type `typ`. */
  datatype Storage = Buffer(elem: string, count: int) | Single(typ: string)

  function StorageOf(v: Variable): Storage
  {
    if IsBuffer(v) then Buffer(v.typ, v.arraySize) else Single(v.typ)
  }

  /** The C declaration of `name` with the given storage. */
  function Declare(name: string, s: Storage): string
  {
    match s
    case Buffer(e, c) => e + " " + name + "[" + IntStr(c) + "];"
    case Single(t) => t + " " + name + ";"
  }

  /** The klee call that makes all of the storage of `name` symbolic. */
  function MakeSymbolic(name: string, s: Storage): string
  {
    match s
    case Buffer(e, c) => "klee_make_symbolic(" + name + ", " + IntStr(c) + " * sizeof(" + e + "), \"" + name + "\");"
    case Single(_) => "klee_make_symbolic(&" + name + ", sizeof(" + name + "), \"" + name + "\");"
  }

  /** For an argument without value, the only ones define_input_space hands to the engine,
      get_arguments declares some storage and define_input_symex makes exactly that storage
      symbolic: the whole array of a buffer, the whole object otherwise. */
  lemma SymbolicInputIsDeclaredStorage(v: Variable)
    requires !HasValue(v)
    ensures ArgumentLine(v) == Declare(v.name, StorageOf(v))
    ensures DefineInputSymex(v) == [MakeSymbolic(v.name, StorageOf(v))]
  {
    if IsBuffer(v) {
      assert ArgumentLine(v) == v.typ + " " + v.name + "[" + IntStr(v.arraySize) + "]" + "" + ";";
    } else {
      assert ArgumentLine(v) == v.typ + " " + v.name + "" + ";";
    }
  }

  // ---------------------------------------------------------------------------
  // Fuzzing inputs

  /** What define_input_fuzzing reads for an argument: a `scanf` conversion, or for
      `wint_t` a raw four-byte `read`; each comes with the seed text every testcase gets. */
  datatype FuzzInput = Scanf(format: string, seed: string) | RawRead(seed: string)

  /** The types define_input_fuzzing has an input format for. */
  const FUZZ_TYPES: seq<string> :=
    ["int", "size_t", "char", "long int", "long long int", "long", "long long", "wint_t"]

  /** The table of define_input_fuzzing. */
  function FuzzInputOf(v: Variable): (r: Option<FuzzInput>)
    ensures r.Some? <==> v.typ in FUZZ_TYPES
    ensures r.Some? ==> EndsWith(r.value.seed, "\n")
    ensures r.Some? ==> (r.value.RawRead? <==> v.typ == "wint_t")
    ensures r.Some? && r.value.Scanf? ==> StartsWith(r.value.format, "%")
  {
    if v.typ == "int" then Some(Scanf("%d", "1234\n"))
    else if v.typ == "size_t" then Some(Scanf("%zu", "1234\n"))
    else if v.typ == "char" && IsPtr(v) then
      Some(Scanf("%" + IntStr(v.arraySize - 1) + "s", Repeat('A', v.arraySize) + "\n"))
    else if v.typ == "char" then Some(Scanf("%c", "A\n"))
    else if v.typ == "long int" then Some(Scanf("%ld", "1234\n"))
    else if v.typ == "long long int" then Some(Scanf("%lld", "1234\n"))
    else if v.typ == "long" then Some(Scanf("%l", "1234\n"))
    else if v.typ == "long long" then Some(Scanf("%ll", "1234\n"))
    else if v.typ == "wint_t" then Some(RawRead("AA\n"))
    else None
  }

  /** The statement that reads the input: into the pointer itself, or into the address of
      a plain variable. */
  function FuzzStatement(v: Variable, input: FuzzInput): string
  {
    var arg := if IsPtr(v) then v.name else "&" + v.name;
    match input
    case Scanf(fmt, _) => "scanf(\"" + fmt + "\", " + arg + ");"
    case RawRead(_) => "read(0, " + arg + ", 4);"
  }

  /** `{k: v + seed for k, v in testcases.items()}`. */
  function AppendSeed(testcases: Dict<string, string>, seed: string): (r: Dict<string, string>)
    ensures |r| == |testcases| && forall i :: 0 <= i < |r| ==> r[i] == (testcases[i].0, testcases[i].1 + seed)
  {
    seq(|testcases|, i requires 0 <= i < |testcases| => (testcases[i].0, testcases[i].1 + seed))
  }

  /** Appending seeds keeps the testcase names, their order and every earlier content, and
      two appends are one append of both seeds. */
  lemma AppendSeedKeeps(testcases: Dict<string, string>, a: string, b: string)
    ensures Keys(AppendSeed(testcases, a)) == Keys(testcases)
    ensures forall k :: Get(AppendSeed(testcases, a), k).Some? <==> Get(testcases, k).Some?
    ensures forall k :: Get(testcases, k).Some? ==> Get(AppendSeed(testcases, a), k) == Some(Get(testcases, k).value + a)
    ensures AppendSeed(AppendSeed(testcases, a), b) == AppendSeed(testcases, a + b)
    ensures AppendSeed(testcases, "") == testcases
  {
    var r := AppendSeed(testcases, a);
    forall k ensures Find(r, k) == Find(testcases, k) {
      FindSameKeys(testcases, r, k);
    }
    assert Keys(r) == Keys(testcases);
    forall i | 0 <= i < |testcases| ensures AppendSeed(r, b)[i] == AppendSeed(testcases, a + b)[i] {
      Assoc(testcases[i].1, a, b);
    }
    forall i | 0 <= i < |testcases| ensures AppendSeed(testcases, "")[i] == testcases[i] {
      assert testcases[i].1 + "" == testcases[i].1;
    }
  }

  /** What define_input_space does with the fuzzing engine to a list of arguments: the
      statements so far, the seed text appended to the testcases so far, and whether every
      argument had an input format (the first one without ends the run with an exception). */
  datatype FuzzPlan = FuzzPlan(code: seq<string>, seed: string, ok: bool)

  function FuzzSpace(args: seq<Variable>): FuzzPlan
  {
    if |args| == 0 then FuzzPlan([], "", true)
    else FuzzStep(FuzzSpace(args[..|args| - 1]), args[|args| - 1])
  }

  /** One argument more: nothing after a failure or for an argument with a value, else the
      argument's statement and seed, or the failure. */
  function FuzzStep(p: FuzzPlan, v: Variable): FuzzPlan
  {
    if !p.ok || HasValue(v) then p
    else match FuzzInputOf(v)
      case None => FuzzPlan(p.code, p.seed, false)
      case Some(input) => FuzzPlan(p.code + [FuzzStatement(v, input)], p.seed + input.seed, true)
  }

  lemma FuzzSpaceStep(args: seq<Variable>, i: nat)
    requires i < |args|
    ensures FuzzSpace(args[..i + 1]) == FuzzStep(FuzzSpace(args[..i]), args[i])
  {
    assert args[..i + 1][..i] == args[..i];
  }

  /** After the first unsupported argument nothing more is generated. */
  lemma {:induction false} FuzzSpaceStuck(args: seq<Variable>, i: nat)
    requires i <= |args| && !FuzzSpace(args[..i]).ok
    ensures FuzzSpace(args) == FuzzSpace(args[..i])
  {
    if i < |args| {
      var n := |args| - 1;
      assert args[..n][..i] == args[..i];
      FuzzSpaceStuck(args[..n], i);
      assert FuzzSpace(args) == FuzzStep(FuzzSpace(args[..n]), args[n]);
    } else {
      assert args[..i] == args;
    }
  }

  /** Every argument without value has a type define_input_fuzzing can read. */
  predicate FuzzSupported(args: seq<Variable>)
  {
    forall i :: 0 <= i < |args| && !HasValue(args[i]) ==> args[i].typ in FUZZ_TYPES
  }

  /** The fuzzing inputs are generated exactly when every argument without value has a
      supported type; then there is one statement per such argument. */
  lemma FuzzSpaceOk(args: seq<Variable>)
    ensures FuzzSpace(args).ok <==> FuzzSupported(args)
    ensures FuzzSpace(args).ok ==> |FuzzSpace(args).code| == CountInputs(args)
  {
    FuzzSpaceSupported(args);
    FuzzSpaceCount(args);
  }

  lemma {:induction false} FuzzSpaceSupported(args: seq<Variable>)
    ensures FuzzSpace(args).ok <==> FuzzSupported(args)
  {
    if |args| > 0 {
      var n := |args| - 1;
      var front := args[..n];
      FuzzSpaceSupported(front);
      assert FuzzSpace(args) == FuzzStep(FuzzSpace(front), args[n]);
      assert FuzzSupported(args) <==> FuzzSupported(front) && (HasValue(args[n]) || args[n].typ in FUZZ_TYPES) by {
        assert forall i :: 0 <= i < n ==> front[i] == args[i];
      }
    }
  }

  lemma {:induction false} FuzzSpaceCount(args: seq<Variable>)
    ensures FuzzSpace(args).ok ==> |FuzzSpace(args).code| == CountInputs(args)
  {
    if |args| > 0 {
      var n := |args| - 1;
      FuzzSpaceCount(args[..n]);
      assert FuzzSpace(args) == FuzzStep(FuzzSpace(args[..n]), args[n]);
    }
  }

  /** The number of arguments without value. */
  function CountInputs(args: seq<Variable>): nat
  {
    if |args| == 0 then 0
    else CountInputs(args[..|args| - 1]) + (if HasValue(args[|args| - 1]) then 0 else 1)
  }

  /** What define_input_space emits with the symbolic engine. */
  function SymexSpace(args: seq<Variable>): seq<string>
  {
    if |args| == 0 then []
    else
      var v := args[|args| - 1];
      SymexSpace(args[..|args| - 1]) + (if HasValue(v) then [] else DefineInputSymex(v))
  }

  lemma SymexSpaceStep(args: seq<Variable>, i: nat)
    requires i < |args|
    ensures SymexSpace(args[..i + 1]) == SymexSpace(args[..i]) + (if HasValue(args[i]) then [] else DefineInputSymex(args[i]))
  {
    assert args[..i + 1][..i] == args[..i];
  }

  /** With the symbolic engine every argument without value gets one klee call, in order,
      covering the storage get_arguments declares for it. */
  lemma SymexSpaceCovers(args: seq<Variable>)
    ensures |SymexSpace(args)| == CountInputs(args)
    ensures forall i :: 0 <= i < |args| && !HasValue(args[i]) ==>
              MakeSymbolic(args[i].name, StorageOf(args[i])) in SymexSpace(args)
  {
    SymexSpaceCount(args);
    forall i | 0 <= i < |args| && !HasValue(args[i])
      ensures MakeSymbolic(args[i].name, StorageOf(args[i])) in SymexSpace(args)
    {
      SymexSpaceHas(args, i);
    }
  }

  lemma {:induction false} SymexSpaceCount(args: seq<Variable>)
    ensures |SymexSpace(args)| == CountInputs(args)
  {
    if |args| > 0 {
      SymexSpaceCount(args[..|args| - 1]);
    }
  }

  lemma {:induction false} SymexSpaceHas(args: seq<Variable>, i: nat)
    requires i < |args| && !HasValue(args[i])
    ensures MakeSymbolic(args[i].name, StorageOf(args[i])) in SymexSpace(args)
  {
    var n := |args| - 1;
    var front := args[..n];
    assert SymexSpace(args) == SymexSpace(front) + (if HasValue(args[n]) then [] else DefineInputSymex(args[n]));
    if i < n {
      assert front[i] == args[i];
      SymexSpaceHas(front, i);
    } else {
      SymbolicInputIsDeclaredStorage(args[i]);
    }
  }

  // ---------------------------------------------------------------------------
  // Assumptions

  predicate IsCharPointer(v: Variable)
  {
    IsPtr(v) && v.typ == "char"
  }

  /** The assumption define_assumptions makes for a char pointer: its last element is the
      terminating NUL, or its first when the array width is 0. */
  function NulAssumption(v: Variable, arrayWidth: int): string
  {
    v.name + "[" + IntStr(if arrayWidth != 0 then v.arraySize - 1 else 0) + "] == '\\0'"
  }

  /** The assumptions define_assumptions adds for the cached arguments, in order. */
  function AssumptionsFor(args: seq<Variable>, arrayWidth: int): seq<string>
  {
    if |args| == 0 then []
    else
      var v := args[|args| - 1];
      AssumptionsFor(args[..|args| - 1], arrayWidth) + (if IsCharPointer(v) then [NulAssumption(v, arrayWidth)] else [])
  }

  function CountCharPointers(args: seq<Variable>): nat
  {
    if |args| == 0 then 0
    else CountCharPointers(args[..|args| - 1]) + (if IsCharPointer(args[|args| - 1]) then 1 else 0)
  }

  /** define_assumptions adds exactly one assumption per char-pointer argument and none for
      any other argument, each naming its own argument. */
  lemma OneAssumptionPerCharPointer(args: seq<Variable>, w: int)
    requires forall i :: 0 <= i < |args| ==> '[' !in args[i].name
    requires forall i, j :: 0 <= i < j < |args| ==> args[i].name != args[j].name
    ensures |AssumptionsFor(args, w)| == CountCharPointers(args)
    ensures forall s :: s in AssumptionsFor(args, w) ==>
              exists i :: 0 <= i < |args| && IsCharPointer(args[i]) && s == NulAssumption(args[i], w)
    ensures forall i :: 0 <= i < |args| ==> (NulAssumption(args[i], w) in AssumptionsFor(args, w) <==> IsCharPointer(args[i]))
  {
    AssumptionCount(args, w);
    AssumptionsOfCharPointers(args, w);
    CharPointersAssumed(args, w);
  }

  lemma {:induction false} AssumptionCount(args: seq<Variable>, w: int)
    ensures |AssumptionsFor(args, w)| == CountCharPointers(args)
  {
    if |args| > 0 {
      AssumptionCount(args[..|args| - 1], w);
    }
  }

  lemma {:induction false} AssumptionsOfCharPointers(args: seq<Variable>, w: int)
    ensures forall s :: s in AssumptionsFor(args, w) ==>
              exists i :: 0 <= i < |args| && IsCharPointer(args[i]) && s == NulAssumption(args[i], w)
  {
    if |args| > 0 {
      var n := |args| - 1;
      AssumptionsOfCharPointers(args[..n], w);
      assert forall i :: 0 <= i < n ==> args[..n][i] == args[i];
    }
  }

  lemma CharPointersAssumed(args: seq<Variable>, w: int)
    requires forall i :: 0 <= i < |args| ==> '[' !in args[i].name
    requires forall i, j :: 0 <= i < j < |args| ==> args[i].name != args[j].name
    ensures forall i :: 0 <= i < |args| ==> (NulAssumption(args[i], w) in AssumptionsFor(args, w) <==> IsCharPointer(args[i]))
  {
    forall i | 0 <= i < |args| ensures NulAssumption(args[i], w) in AssumptionsFor(args, w) <==> IsCharPointer(args[i]) {
      if IsCharPointer(args[i]) {
        CharPointerAssumed(args, w, i);
      } else {
        OtherNotAssumed(args, w, i);
      }
    }
  }

  lemma {:induction false} CharPointerAssumed(args: seq<Variable>, w: int, i: nat)
    requires i < |args| && IsCharPointer(args[i])
    ensures NulAssumption(args[i], w) in AssumptionsFor(args, w)
  {
    var n := |args| - 1;
    if i < n {
      assert args[..n][i] == args[i];
      CharPointerAssumed(args[..n], w, i);
    }
  }

  /** No assumption names an argument absent from the list. */
  lemma {:induction false} AbsentNotAssumed(args: seq<Variable>, w: int, u: Variable)
    requires '[' !in u.name && forall i :: 0 <= i < |args| ==> '[' !in args[i].name && args[i].name != u.name
    ensures NulAssumption(u, w) !in AssumptionsFor(args, w)
  {
    if |args| > 0 {
      var n := |args| - 1;
      assert forall i :: 0 <= i < n ==> args[..n][i] == args[i];
      AbsentNotAssumed(args[..n], w, u);
      DistinctAssumptions(u, args[n], w);
    }
  }

  lemma {:induction false} OtherNotAssumed(args: seq<Variable>, w: int, i: nat)
    requires i < |args| && !IsCharPointer(args[i])
    requires forall i :: 0 <= i < |args| ==> '[' !in args[i].name
    requires forall i, j :: 0 <= i < j < |args| ==> args[i].name != args[j].name
    ensures NulAssumption(args[i], w) !in AssumptionsFor(args, w)
  {
    var n := |args| - 1;
    assert forall j :: 0 <= j < n ==> args[..n][j] == args[j];
    if i == n {
      AbsentNotAssumed(args[..n], w, args[i]);
    } else {
      OtherNotAssumed(args[..n], w, i);
      DistinctAssumptions(args[i], args[n], w);
    }
  }

  /** Arguments of different names get different assumptions. */
  lemma DistinctAssumptions(u: Variable, v: Variable, w: int)
    requires '[' !in u.name && '[' !in v.name && u.name != v.name
    ensures NulAssumption(u, w) != NulAssumption(v, w)
  {
    var s := NulAssumption(u, w);
    var t := NulAssumption(v, w);
    assert s[..|u.name|] == u.name && s[|u.name|] == '[';
    assert t[..|v.name|] == v.name && t[|v.name|] == '[';
    IndexOfAt(s, '[', |u.name|);
    IndexOfAt(t, '[', |v.name|);
  }

  /** With a nonzero width, the assumed NUL of a char buffer is its last declared element. */
  lemma AssumedNulInsideBuffer(v: Variable, w: int)
    requires IsBuffer(v) && v.typ == "char" && w != 0 && v.arraySize >= 1
    ensures StorageOf(v) == Buffer("char", v.arraySize)
    ensures NulAssumption(v, w) == v.name + "[" + IntStr(v.arraySize - 1) + "] == '\\0'"
    ensures 0 <= v.arraySize - 1 < v.arraySize
  {
  }

  // ---------------------------------------------------------------------------
  // Return values and entry calls

  /** The lines of generate_return_values: a declaration of every result a call stores. */
  function ReturnValueLines(fs: seq<Function>): seq<string>
  {
    if |fs| == 0 then []
    else
      var f := fs[|fs| - 1];
      ReturnValueLines(fs[..|fs| - 1]) + (if ReturnsValue(f) then [VarStr(f.ret) + ";"] else [])
  }

  /** generate_return_values declares the result variable of exactly the calls that store
      one: every stored result is declared, and every declaration belongs to such a call. */
  lemma {:induction false} ReturnValuesDeclareStoredResults(fs: seq<Function>)
    ensures forall i :: 0 <= i < |fs| && ReturnsValue(fs[i]) ==> VarStr(fs[i].ret) + ";" in ReturnValueLines(fs)
    ensures forall line :: line in ReturnValueLines(fs) ==>
              exists i :: 0 <= i < |fs| && ReturnsValue(fs[i]) && line == VarStr(fs[i].ret) + ";"
    ensures forall i :: 0 <= i < |fs| && ReturnsValue(fs[i]) ==> StartsWith(Call(fs[i]), fs[i].ret.name + " = ")
  {
    if |fs| > 0 {
      var n := |fs| - 1;
      ReturnValuesDeclareStoredResults(fs[..n]);
      assert forall i :: 0 <= i < n ==> fs[..n][i] == fs[i];
      forall i | 0 <= i < |fs| && ReturnsValue(fs[i]) ensures StartsWith(Call(fs[i]), fs[i].ret.name + " = ") {
        var f := fs[i];
        assert Call(f) == (f.ret.name + " = ") + (f.name + "(" + Join(CallArgs(f.args), ", ") + ");");
      }
    }
  }

  /** generate_entry_declaration. */
  function EntryDeclarations(fs: seq<Function>): (r: seq<string>)
    ensures |r| == |fs| && forall i :: 0 <= i < |fs| ==> r[i] == Declaration(fs[i])
  {
    seq(|fs|, i requires 0 <= i < |fs| => Declaration(fs[i]))
  }

  /** generate_entry_calls. */
  function EntryCalls(fs: seq<Function>): (r: seq<string>)
    ensures |r| == |fs| && forall i :: 0 <= i < |fs| ==> r[i] == Call(fs[i])
  {
    seq(|fs|, i requires 0 <= i < |fs| => Call(fs[i]))
  }

  /** generate_assumptions. */
  function AssumptionChecks(assumptions: seq<string>): (r: seq<string>)
    ensures |r| == |assumptions| && forall i :: 0 <= i < |r| ==> r[i] == AssumptionCheck(assumptions[i])
  {
    seq(|assumptions|, i requires 0 <= i < |assumptions| => AssumptionCheck(assumptions[i]))
  }

  /** The names of the libraries, in order. */
  function LibNames(libs: seq<Library.Build>): (names: seq<string>)
    ensures |names| == |libs| && forall i :: 0 <= i < |libs| ==> names[i] == libs[i].libName
  {
    if |libs| == 0 then [] else LibNames(libs[..|libs| - 1]) + [libs[|libs| - 1].libName]
  }

  /** The name a library's entry gets from the signature setter: the renamed symbol the
      library's name table holds for the function, or the function's own name when the
      table does not hold it. */
  function EntryName(lib: Library.Build, f: string): string
    reads lib
  {
    match lib.Resolve(f)
    case Ok(n) => n
    case Err(_) => f
  }

  /** Two libraries whose tables both miss the function get the same entry: the function
      forked under its own name, with the one return variable `ret_<function>`, which
      generate_return_values then declares once per library. */
  lemma UnresolvedEntriesCollide(libs: seq<Library.Build>, sig: Signature, i: nat, j: nat)
    requires i < |libs| && j < |libs|
    requires "@" + sig.name !in Keys(libs[i].nameMapping) && "@" + sig.name !in Keys(libs[j].nameMapping)
    ensures ForkPairs(libs, sig)[i].1 == ForkPairs(libs, sig)[j].1 == Some(Fork(sig, sig.name))
    ensures Fork(sig, sig.name).ret.name == "ret_" + sig.name
    ensures var f := Fork(sig, sig.name);
            ReturnsValue(f) ==> ReturnValueLines([f, f]) == [VarStr(f.ret) + ";", VarStr(f.ret) + ";"]
  {
    assert libs[i].Resolve(sig.name).Err? && libs[j].Resolve(sig.name).Err?;
    DeclaredTwice(Fork(sig, sig.name));
  }

  lemma DeclaredTwice(f: Function)
    ensures ReturnsValue(f) ==> ReturnValueLines([f, f]) == [VarStr(f.ret) + ";", VarStr(f.ret) + ";"]
  {
    var line := VarStr(f.ret) + ";";
    assert [f, f][..1] == [f] && [f][..0] == [];
    assert ReturnValueLines([f]) == ReturnValueLines([]) + (if ReturnsValue(f) then [line] else []);
    assert ReturnValueLines([f, f]) == ReturnValueLines([f]) + (if ReturnsValue(f) then [line] else []);
  }

  /** The entry for a library whose table came from renaming a module with the library's
      prefix: a function the module defines is called under its renamed name, and a function
      the table does not hold (a macro such as `fdim`) under its own name. */
  lemma EntryNameResolves(lib: Library.Build, f: string, lines: seq<string>, prefix: string)
    ensures "@" + f !in Keys(lib.nameMapping) ==> EntryName(lib, f) == f
    ensures lib.nameMapping == Rename.Detected(lines, prefix) && f in Rename.Symbols(lines) ==>
              EntryName(lib, f) == Rename.Sub(prefix, f)
  {
    if lib.nameMapping == Rename.Detected(lines, prefix) && f in Rename.Symbols(lines) {
      Library.ResolveRenamed(lib, lines, prefix, f);
    }
  }

  /** The assignments the signature setter makes: one per library, in order. */
  function ForkPairs(libs: seq<Library.Build>, sig: Signature): (r: seq<(string, Option<Function>)>)
    reads libs
    ensures |r| == |libs|
  {
    seq(|libs|, i requires 0 <= i < |libs| reads libs => (libs[i].libName, Some(Fork(sig, EntryName(libs[i], sig.name)))))
  }

  /** After the setter, every library's entry is the signature forked under the entry
      name, unless a later library has the same name (the later one wins); entries of
      other names are untouched. */
  lemma SignatureEntries(entries: Dict<string, Option<Function>>, libs: seq<Library.Build>, sig: Signature, k: string)
    ensures k !in LibNames(libs) ==> Get(AssignAll(entries, ForkPairs(libs, sig)), k) == Get(entries, k)
    ensures forall i :: 0 <= i < |libs| && libs[i].libName == k && (forall j :: i < j < |libs| ==> libs[j].libName != k) ==>
              Get(AssignAll(entries, ForkPairs(libs, sig)), k) == Some(Some(Fork(sig, EntryName(libs[i], sig.name))))
  {
    var pairs := ForkPairs(libs, sig);
    if k !in LibNames(libs) {
      AssignAllUntouched(entries, pairs, k);
    }
    forall i | 0 <= i < |libs| && libs[i].libName == k && (forall j :: i < j < |libs| ==> libs[j].libName != k)
      ensures Get(AssignAll(entries, pairs), k) == Some(Some(Fork(sig, EntryName(libs[i], sig.name))))
    {
      AssignAllLast(entries, pairs, i);
    }
  }

  /** Every name has an entry holding a function. */
  predicate AllSet(entries: Dict<string, Option<Function>>, names: seq<string>)
  {
    forall k :: k in names ==> Get(entries, k).Some? && Get(entries, k).value.Some?
  }

  /** The entry of every name is named after the call wrapper of f, renamed with the name. */
  predicate CallWrappers(entries: Dict<string, Option<Function>>, names: seq<string>, f: string, sig: Signature)
    requires AllSet(entries, names)
  {
    forall k :: k in names ==> Get(entries, k).value.value.name == Rename.Sub(k, Prebuild.Wrapper(f, sig).name)
  }

  /** The entries `__init__` creates: every library name without a function. */
  function NoEntries(names: seq<string>): (r: seq<(string, Option<Function>)>)
    ensures |r| == |names| && forall i :: 0 <= i < |names| ==> r[i] == (names[i], None)
  {
    seq(|names|, i requires 0 <= i < |names| => (names[i], None))
  }

  /** After the setter every library name has a function. */
  lemma SignatureSetsEntries(entries: Dict<string, Option<Function>>, libs: seq<Library.Build>, sig: Signature)
    ensures AllSet(AssignAll(entries, ForkPairs(libs, sig)), LibNames(libs))
  {
    var pairs := ForkPairs(libs, sig);
    forall k | k in LibNames(libs)
      ensures Get(AssignAll(entries, pairs), k).Some? && Get(AssignAll(entries, pairs), k).value.Some?
    {
      var i :| 0 <= i < |libs| && LibNames(libs)[i] == k;
      var j := LastNamed(libs, i);
      AssignAllLast(entries, pairs, j);
    }
  }


  /** Entries named `<library>_lib_entry_<function>` are named after the renamed wrappers. */
  lemma EntriesNamedAfterWrappers(entries: Dict<string, Option<Function>>, names: seq<string>, f: string, sig: Signature)
    requires AllSet(entries, names)
    requires forall k :: k in names ==> Get(entries, k).value.value.name == WrapperEntry(k, f)
    ensures '\n' !in f ==> CallWrappers(entries, names, f, sig)
  {
    if '\n' !in f {
      forall k | k in names ensures Get(entries, k).value.value.name == Rename.Sub(k, Prebuild.Wrapper(f, sig).name) {
        WrapperEntryIsRenamedWrapper(k, f, sig);
      }
    }
  }

  /** The assignments generate_arguments makes: each argument under its name. */
  function ArgPairs(args: seq<Variable>): (r: seq<(string, Variable)>)
    ensures |r| == |args| && forall i :: 0 <= i < |args| ==> r[i] == (args[i].name, args[i])
  {
    seq(|args|, i requires 0 <= i < |args| => (args[i].name, args[i]))
  }

  /** After caching, an argument's name looks up the last argument of that name, and a name
      no argument has keeps what the cache held before. */
  lemma ArgumentCacheLookup(cache: Dict<string, Variable>, args: seq<Variable>, i: nat, other: string)
    requires i < |args| && forall j :: i < j < |args| ==> args[j].name != args[i].name
    requires forall j :: 0 <= j < |args| ==> args[j].name != other
    ensures Get(AssignAll(cache, ArgPairs(args)), args[i].name) == Some(args[i])
    ensures Get(AssignAll(cache, ArgPairs(args)), other) == Get(cache, other)
  {
    var pairs := ArgPairs(args);
    AssignAllLast(cache, pairs, i);
    AssignAllUntouched(cache, pairs, other);
  }

  /** The entry name `prepare` gives a library when it fetched the signature itself. */
  function WrapperEntry(library: string, f: string): string
  {
    library + "_lib_entry_" + f
  }

  /** That name is the name the library's call wrapper of f ends up with once the library is
      renamed with its own name as prefix: the harness calls the wrapper prebuild generated. */
  lemma WrapperEntryIsRenamedWrapper(library: string, f: string, sig: Signature)
    requires '\n' !in f
    ensures WrapperEntry(library, f) == Rename.Sub(library, Prebuild.Wrapper(f, sig).name)
    ensures Prebuild.Wrapper(f, sig).args == sig.args
  {
    Prebuild.WrapperRenamedIsEntry(library, f, sig);
  }

  // ---------------------------------------------------------------------------
  // The harness text

  /** The pieces generate_test_harness puts together. */
  datatype Parts = Parts(
    header: seq<string>, identifiers: string, propertySpace: seq<string>,
    declarations: seq<string>, variables: seq<string>, body: seq<string>,
    evaluation: seq<string>, verify: seq<string>, abort: seq<string>)

  /** The comment block and the header, up to the library names. */
  function Preamble(p: Parts): seq<string>
  {
    ["/**", " * The following stuff is generated by generate_test_harness()", " * Version: " + VERSION, " */", "",
     "// code from generate_header():"] + p.header + [""]
    + ["// libs_identifier to map an index to a library name:", p.identifiers, ""]
  }

  /** The helper prototypes block. */
  const PROTOTYPE_BLOCK: seq<string> := ["// various helper functions:"] + HELPER_PROTOTYPES + [""]

  /** generate_variables: the return values, the arguments and the (empty) environment. */
  function VariablesBlock(returnValues: seq<string>, arguments: seq<string>): seq<string>
  {
    ["// code from generate_return_values():"] + returnValues + [""]
    + ["// code from get_arguments():"] + arguments + [""]
    + ["// code from generate_environment():"] + [""]
  }

  /** The globals: property space, entry declarations and the variables. */
  function Globals(p: Parts): seq<string>
  {
    ["// code from get_property_space():"] + p.propertySpace + [""]
    + ["// code from generate_entry_declaration():"] + p.declarations + [""]
    + ["// code from generate_variables():"] + p.variables
  }

  /** The part of generate_test_harness_body every harness has. */
  function CommonBody(inputs: seq<string>, assumptions: seq<string>, calls: seq<string>): seq<string>
  {
    ["// code from define_input_space():"] + inputs + [""]
    + ["// code from generate_assumptions():"] + assumptions + [""]
    + ["// code from generate_entry_calls():"] + calls + [""]
  }

  /** The part of the body only a harness comparing libraries has. */
  function VerifyCallBlock(verifyPrep: seq<string>): seq<string>
  {
    ["// code from prepare_verify_call()"] + verifyPrep + [""] + ["verifier();"]
  }

  /** generate_test_harness_body; `many` is `len(self.libs) > 1`. */
  function BodyLines(inputs: seq<string>, assumptions: seq<string>, calls: seq<string>,
                     verifyPrep: seq<string>, many: bool): seq<string>
  {
    CommonBody(inputs, assumptions, calls) + (if many then VerifyCallBlock(verifyPrep) else [])
  }

  /** `get_property_space`: the result array, typed with the base type of the return. */
  function PropertySpace(sig: Signature, n: nat): seq<string>
  {
    [sig.ret.typ + " eval_return_values[" + NatStr(n) + "];"]
  }

  /** The statement of `prepare_verify_call` that stores the result `value` of library i. */
  function StoreResult(i: nat, value: string): string
  {
    "eval_return_values[" + NatStr(i) + "] = " + value + ";"
  }

  /** The `libs_identifier` line. */
  function Identifiers(names: seq<string>): string
  {
    var quoted := seq(|names|, i requires 0 <= i < |names| => "\"" + names[i] + "\"");
    "const char *libs_identifier[" + NatStr(|names|) + "] = { " + Join(quoted, ", ") + " };"
  }

  /** The pieces of a harness of the libraries `names` for the function `fs` calls, with
      the given variables and body; `clustering` is the text of the clustering verifier. */
  function HarnessParts(engine: Engine, kind: string, names: seq<string>, sig: Signature, fs: seq<Function>,
                        variables: seq<string>, body: seq<string>, clustering: string): Parts
  {
    Parts(HeaderLines(engine), Identifiers(names), PropertySpace(sig, |names|), EntryDeclarations(fs),
          variables, body, EvaluationFunction(), VerifyFunction(kind, |names|, clustering), AbortFunction(engine))
  }

  /** The helper definitions after `main`. */
  function HelperDefinitions(p: Parts): seq<string>
  {
    p.evaluation + [""] + p.verify + [""] + p.abort + [""]
  }

  /** The end of `main`. */
  const MAIN_CLOSE: seq<string> := ["", "\treturn 0;", "}", ""]

  /** generate_test_harness, as lines. */
  function HarnessLines(p: Parts, many: bool): seq<string>
  {
    Preamble(p) + (if many then PROTOTYPE_BLOCK else []) + Globals(p)
    + ["int main()", "{"] + Indented(p.body) + MAIN_CLOSE
    + (if many then HelperDefinitions(p) else [])
  }

  /** The harness as one text, lines separated by newlines. */
  function HarnessText(p: Parts, many: bool): string
  {
    Join(HarnessLines(p, many), "\n")
  }

  /** Indenting a concatenation indents each part. */
  lemma IndentedAppend(a: seq<string>, b: seq<string>)
    ensures Indented(a + b) == Indented(a) + Indented(b)
  {
  }

  /** A harness for one library is the comment block, the globals and a `main` that reads
      the inputs, checks the assumptions and calls the entry, nothing more. */
  lemma SingleLibraryHarness(p: Parts, inputs: seq<string>, assumptions: seq<string>, calls: seq<string>,
                             verifyPrep: seq<string>)
    requires p.body == BodyLines(inputs, assumptions, calls, verifyPrep, false)
    ensures HarnessLines(p, false) == Preamble(p) + Globals(p) + ["int main()", "{"]
                                      + Indented(CommonBody(inputs, assumptions, calls)) + MAIN_CLOSE
  {
    assert p.body == CommonBody(inputs, assumptions, calls);
  }

  /** The harness for several libraries inserts three blocks into that: the helper
      prototypes after the library names, the verifier call at the end of `main`, and the
      helper definitions after `main`. */
  lemma ManyLibrariesAddHelpers(p: Parts, inputs: seq<string>, assumptions: seq<string>, calls: seq<string>,
                                verifyPrep: seq<string>)
    requires p.body == BodyLines(inputs, assumptions, calls, verifyPrep, true)
    ensures HarnessLines(p, true) == Preamble(p) + PROTOTYPE_BLOCK + Globals(p) + ["int main()", "{"]
                                     + Indented(CommonBody(inputs, assumptions, calls))
                                     + Indented(VerifyCallBlock(verifyPrep)) + MAIN_CLOSE + HelperDefinitions(p)
  {
    IndentedAppend(CommonBody(inputs, assumptions, calls), VerifyCallBlock(verifyPrep));
  }

  // ---------------------------------------------------------------------------
  // The harness object

  /** A TestHarness: the libraries it compares (each represented by its build, which holds
      the library's name and its name table), the configuration and the state `prepare`
      builds up. */
  class TestHarness {
    const libs: seq<Library.Build>
    /** The class-wide `verifier` setting. */
    const verifierKind: string
    var entries: Dict<string, Option<Function>>
    var arrayWidth: int
    var signature: Option<Signature>
    var functionName: string
    var engine: Option<Engine>
    var argumentsCache: Dict<string, Variable>
    var testcasesFuzzing: Dict<string, string>
    var assumptions: seq<string>

    /** `__init__`: one empty entry per library name, the general array width, no signature,
        no engine, and a clean state. */
    constructor(libs: seq<Library.Build>, maxArrayWidth: int, verifierKind: string)
      ensures this.libs == libs && this.verifierKind == verifierKind
      ensures entries == AssignAll([], NoEntries(LibNames(libs)))
      ensures arrayWidth == maxArrayWidth && signature.None? && engine.None?
      ensures functionName == FUNCTION_PLACEHOLDER
      ensures argumentsCache == [] && testcasesFuzzing == [("default", "")] && assumptions == []
    {
      this.libs := libs;
      this.verifierKind := verifierKind;
      entries := AssignAll([], NoEntries(LibNames(libs)));
      arrayWidth := maxArrayWidth;
      signature := None;
      functionName := FUNCTION_PLACEHOLDER;
      engine := None;
      argumentsCache := [];
      testcasesFuzzing := [("default", "")];
      assumptions := [];
    }

    /** `clean_state`. */
    method CleanState()
      modifies this`argumentsCache, this`testcasesFuzzing, this`assumptions
      ensures argumentsCache == [] && testcasesFuzzing == [("default", "")] && assumptions == []
    {
      argumentsCache := [];
      testcasesFuzzing := [("default", "")];
      assumptions := [];
    }

    /** `set_engine_symex`. */
    method SetEngineSymex()
      modifies this`engine
      ensures engine == Some(Symex)
    {
      engine := Some(Symex);
    }

    /** `set_engine_fuzzing`: also back to the one default testcase. */
    method SetEngineFuzzing()
      modifies this`engine, this`testcasesFuzzing
      ensures engine == Some(Fuzzing) && testcasesFuzzing == [("default", "")]
    {
      engine := Some(Fuzzing);
      testcasesFuzzing := [("default", "")];
    }

    /** Every library name has an entry that is set. */
    predicate EntriesSet()
      reads this`entries
    {
      AllSet(entries, LibNames(libs))
    }

    /** The signature setter. No signature (None or an empty text) clears it. Otherwise the
        text is parsed with the current array width, a text that does not parse leaves
        everything as it was, and each library's entry becomes the signature forked under
        the library's renamed symbol, or under the function's own name when the library's
        table does not hold it. */
    method SetSignature(sgn: Option<string>) returns (error: Option<ParseError>)
      modifies this`signature, this`entries
      ensures sgn.None? || sgn.value == "" ==> error.None? && signature.None? && entries == old(entries)
      ensures sgn.Some? && sgn.value != "" && ParseSignature(sgn.value, arrayWidth).Err? ==>
                error == Some(ParseSignature(sgn.value, arrayWidth).error)
                && signature == old(signature) && entries == old(entries)
      ensures sgn.Some? && sgn.value != "" && ParseSignature(sgn.value, arrayWidth).Ok? ==>
                error.None? && signature == Some(ParseSignature(sgn.value, arrayWidth).value)
                && entries == AssignAll(old(entries), ForkPairs(libs, signature.value))
    {
      if sgn.None? || sgn.value == "" {
        signature := None;
        return None;
      }
      var parsed := ParseSignature(sgn.value, arrayWidth);
      if parsed.Err? {
        return Some(parsed.error);
      }
      signature := Some(parsed.value);
      ForkEntries(parsed.value);
      return None;
    }

    /** The loop of the signature setter: every library's entry becomes the signature
        forked under the library's entry name. */
    method ForkEntries(sig: Signature)
      modifies this`entries
      ensures entries == AssignAll(old(entries), ForkPairs(libs, sig))
    {
      ghost var pairs := ForkPairs(libs, sig);
      var i := 0;
      while i < |libs|
        invariant 0 <= i <= |libs|
        invariant entries == AssignAll(old(entries), pairs[..i])
      {
        var lib := libs[i];
        var name := EntryName(lib, sig.name);
        assert pairs[i] == (lib.libName, Some(Fork(sig, name)));
        AssignAllStep(old(entries), pairs, i);
        entries := Assign(entries, lib.libName, Some(Fork(sig, name)));
        i := i + 1;
      }
      assert pairs[..i] == pairs;
      assert pairs == ForkPairs(libs, sig);
    }

    /** The renaming in `prepare`: each library's entry is renamed
        `<library>_lib_entry_<function>`; its arguments and return variable stay. */
    method NameEntries()
      requires EntriesSet()
      modifies this`entries
      ensures Keys(entries) == Keys(old(entries))
      ensures forall k :: k in LibNames(libs) ==>
                Get(entries, k) == Some(Some(Get(old(entries), k).value.value.(name := WrapperEntry(k, functionName))))
      ensures forall k :: k !in LibNames(libs) ==> Get(entries, k) == Get(old(entries), k)
    {
      var names := LibNames(libs);
      var i := 0;
      while i < |libs|
        invariant 0 <= i <= |libs|
        invariant Keys(entries) == Keys(old(entries))
        invariant forall k :: k in names[..i] ==>
                    Get(entries, k) == Some(Some(Get(old(entries), k).value.value.(name := WrapperEntry(k, functionName))))
        invariant forall k :: k !in names[..i] ==> Get(entries, k) == Get(old(entries), k)
      {
        var k := libs[i].libName;
        assert k == names[i] && k in names;
        var f := Get(entries, k).value.value;
        entries := Assign(entries, k, Some(f.(name := WrapperEntry(k, functionName))));
        PrefixStep(names, i);
        i := i + 1;
      }
      assert names[..i] == names;
    }

    /** `generate_arguments`: every argument of the signature cached under its name. */
    method GenerateArguments()
      requires signature.Some?
      modifies this`argumentsCache
      ensures argumentsCache == AssignAll(old(argumentsCache), ArgPairs(signature.value.args))
    {
      var args := signature.value.args;
      ghost var pairs := ArgPairs(args);
      var i := 0;
      while i < |args|
        invariant 0 <= i <= |args|
        invariant argumentsCache == AssignAll(old(argumentsCache), pairs[..i])
      {
        AssignAllStep(old(argumentsCache), pairs, i);
        argumentsCache := Assign(argumentsCache, args[i].name, args[i]);
        i := i + 1;
      }
      assert pairs[..i] == pairs;
    }

    /** `define_assumptions`: the NUL assumption of every cached char pointer, appended. */
    method DefineAssumptions()
      modifies this`assumptions
      ensures assumptions == old(assumptions) + AssumptionsFor(Values(argumentsCache), arrayWidth)
    {
      var args := Values(argumentsCache);
      var i := 0;
      while i < |args|
        invariant 0 <= i <= |args|
        invariant assumptions == old(assumptions) + AssumptionsFor(args[..i], arrayWidth)
      {
        var arg := args[i];
        assert args[..i + 1][..i] == args[..i];
        if IsPtr(arg) && arg.typ == "char" {
          var index := if arrayWidth != 0 then arg.arraySize - 1 else 0;
          assumptions := assumptions + [arg.name + "[" + IntStr(index) + "] == '\\0'"];
        }
        i := i + 1;
      }
      assert args[..i] == args;
    }

    /** `prepare` with the default `_configure` (which sets nothing): a clean state; if no
        signature is set, the one fetched for the function is set; then the arguments and the
        assumptions. A fetched signature that does not parse ends it with the error. */
    method Prepare(raw: string) returns (error: Option<ParseError>)
      requires signature.Some? ==> EntriesSet()
      modifies this`argumentsCache, this`testcasesFuzzing, this`assumptions, this`signature, this`entries
      ensures old(signature).None? ==> (error.Some? <==> ParseSignature(raw + ";", arrayWidth).Err?)
      ensures error.None? ==> signature.Some? && EntriesSet()
      ensures error.None? ==> argumentsCache == AssignAll([], ArgPairs(signature.value.args))
      ensures error.None? ==> assumptions == AssumptionsFor(Values(argumentsCache), arrayWidth)
      ensures error.None? ==> testcasesFuzzing == [("default", "")]
      ensures error.None? && old(signature).None? && '\n' !in functionName ==> EntriesCallWrappers()
      ensures old(signature).Some? ==> error.None? && signature == old(signature) && entries == old(entries)
    {
      CleanState();
      error := PostConfigure(raw);
      if error.Some? {
        return;
      }
      ghost var configured := entries;
      PrepareInputs();
      assert entries == configured;
      assert [] + AssumptionsFor(Values(argumentsCache), arrayWidth) == AssumptionsFor(Values(argumentsCache), arrayWidth);
    }

    /** The post-configuration in `prepare`: without a signature, the one fetched for the
        function is set and the entries are named after the call wrappers; a signature that
        is set stays as it is. */
    method PostConfigure(raw: string) returns (error: Option<ParseError>)
      requires signature.Some? ==> EntriesSet()
      modifies this`signature, this`entries
      ensures old(signature).None? ==> (error.Some? <==> ParseSignature(raw + ";", arrayWidth).Err?)
      ensures error.None? ==> signature.Some? && EntriesSet()
      ensures error.None? && old(signature).None? && '\n' !in functionName ==> EntriesCallWrappers()
      ensures old(signature).Some? ==> error.None? && signature == old(signature) && entries == old(entries)
    {
      if signature.None? {
        error := FetchSignature(raw);
      } else {
        error := None;
      }
    }

    /** The end of `prepare`: the arguments of the signature cached by name, then the
        assumptions about them. */
    method PrepareInputs()
      requires signature.Some?
      modifies this`argumentsCache, this`assumptions
      ensures argumentsCache == AssignAll(old(argumentsCache), ArgPairs(signature.value.args))
      ensures assumptions == old(assumptions) + AssumptionsFor(Values(argumentsCache), arrayWidth)
    {
      GenerateArguments();
      DefineAssumptions();
    }

    /** Every library's entry is named after the call wrapper prebuild generated for the
        function, as the library's renaming leaves it. */
    predicate EntriesCallWrappers()
      reads this`entries, this`functionName, this`signature
      requires signature.Some? && EntriesSet()
    {
      CallWrappers(entries, LibNames(libs), functionName, signature.value)
    }

    /** The part of `prepare` that runs without a signature: the signature is taken from the
        function's declaration (`raw`, without its `;`) and every entry renamed
        `<library>_lib_entry_<function>`. */
    method FetchSignature(raw: string) returns (error: Option<ParseError>)
      requires signature.None?
      modifies this`signature, this`entries
      ensures error.Some? <==> ParseSignature(raw + ";", arrayWidth).Err?
      ensures error.Some? ==> error == Some(ParseSignature(raw + ";", arrayWidth).error) && signature.None?
      ensures error.None? ==> signature == Some(ParseSignature(raw + ";", arrayWidth).value) && EntriesSet()
      ensures error.None? && '\n' !in functionName ==> EntriesCallWrappers()
    {
      error := SetSignature(Some(raw + ";"));
      if error.Some? {
        return;
      }
      SignatureSetsEntries(old(entries), libs, signature.value);
      NameEntries();
      EntriesNamedAfterWrappers(entries, LibNames(libs), functionName, signature.value);
    }

    // ----- generating the text -----

    /** The entries, in the order of the dictionary. */
    function EntryFunctions(): (fs: seq<Function>)
      reads this`entries
      requires forall i :: 0 <= i < |entries| ==> entries[i].1.Some?
      ensures |fs| == |entries| && forall i :: 0 <= i < |entries| ==> fs[i] == entries[i].1.value
    {
      var es := entries;
      seq(|es|, i requires 0 <= i < |es| && es[i].1.Some? => es[i].1.value)
    }

    /** `generate_return_values`. */
    method GenerateReturnValues() returns (code: seq<string>)
      requires forall i :: 0 <= i < |entries| ==> entries[i].1.Some?
      ensures code == ReturnValueLines(EntryFunctions())
    {
      var fs := EntryFunctions();
      code := [];
      var i := 0;
      while i < |fs|
        invariant 0 <= i <= |fs|
        invariant code == ReturnValueLines(fs[..i])
      {
        var f := fs[i];
        assert fs[..i + 1][..i] == fs[..i];
        if !(f.ret.typ == "void" && f.ret.ptrDepth == 0) {
          code := code + [VarStr(f.ret) + ";"];
        }
        i := i + 1;
      }
      assert fs[..i] == fs;
    }

    /** `get_arguments`. */
    method GetArguments() returns (code: seq<string>)
      ensures code == ArgumentLines(Values(argumentsCache))
    {
      var args := Values(argumentsCache);
      code := [];
      var i := 0;
      while i < |args|
        invariant 0 <= i <= |args|
        invariant code == ArgumentLines(args[..i])
      {
        var arg := args[i];
        var vs := if HasValue(arg) then " = " + arg.value.value else "";
        var line;
        if IsPtr(arg) {
          if HasValue(arg) {
            line := TypeStr(arg) + " " + arg.name + vs + ";";
          } else if arg.typ == "void" || arg.typ == "char" {
            line := arg.typ + " " + arg.name + "[" + IntStr(arg.arraySize) + "]" + vs + ";";
          } else {
            line := arg.typ + " " + arg.name + vs + ";";
          }
        } else {
          line := arg.typ + " " + arg.name + vs + ";";
        }
        assert line == ArgumentLine(arg);
        ArgumentLinesStep(args, i);
        code := code + [line];
        i := i + 1;
      }
      assert args[..i] == args;
    }

    /** `define_input_fuzzing`: the input statement of the argument, with its seed appended
        to every testcase; an unsupported type raises and changes nothing. */
    method DefineInputFuzzing(v: Variable) returns (r: Result<seq<string>, InputError>)
      modifies this`testcasesFuzzing
      ensures r.Err? <==> v.typ !in FUZZ_TYPES
      ensures r.Err? ==> r.error == UnsupportedType(v.typ) && testcasesFuzzing == old(testcasesFuzzing)
      ensures r.Ok? ==> var input := FuzzInputOf(v).value;
                r.value == [FuzzStatement(v, input)] && testcasesFuzzing == AppendSeed(old(testcasesFuzzing), input.seed)
    {
      var input := FuzzInputOf(v);
      if input.None? {
        return Err(UnsupportedType(v.typ));
      }
      testcasesFuzzing := AppendSeed(testcasesFuzzing, input.value.seed);
      return Ok([FuzzStatement(v, input.value)]);
    }

    /** `define_input_space`: the input code of every cached argument without value, for
        the engine that is set. With the fuzzing engine the seeds pile up in the testcases,
        and an unsupported type stops the run after the seeds of the arguments before it. */
    method DefineInputSpace() returns (r: Result<seq<string>, InputError>)
      requires engine.Some?
      modifies this`testcasesFuzzing
      ensures engine.value == Symex ==> r == Ok(SymexSpace(Values(argumentsCache))) && testcasesFuzzing == old(testcasesFuzzing)
      ensures engine.value == Fuzzing ==>
                var plan := FuzzSpace(Values(argumentsCache));
                (r.Ok? <==> plan.ok) && (r.Ok? ==> r.value == plan.code)
                && testcasesFuzzing == AppendSeed(old(testcasesFuzzing), plan.seed)
    {
      var args := Values(argumentsCache);
      var code := [];
      AppendSeedKeeps(testcasesFuzzing, "", "");
      var i := 0;
      while i < |args|
        invariant 0 <= i <= |args|
        invariant engine.value == Symex ==> code == SymexSpace(args[..i]) && testcasesFuzzing == old(testcasesFuzzing)
        invariant engine.value == Fuzzing ==>
                    var plan := FuzzSpace(args[..i]);
                    plan.ok && code == plan.code && testcasesFuzzing == AppendSeed(old(testcasesFuzzing), plan.seed)
      {
        var arg := args[i];
        SymexSpaceStep(args, i);
        FuzzSpaceStep(args, i);
        if !HasValue(arg) {
          var more;
          if engine.value == Symex {
            more := DefineInputSymex(arg);
          } else {
            ghost var before := FuzzSpace(args[..i]);
            var step := DefineInputFuzzing(arg);
            if step.Err? {
              FuzzSpaceStuck(args, i + 1);
              return Err(step.error);
            }
            AppendSeedKeeps(old(testcasesFuzzing), before.seed, FuzzInputOf(arg).value.seed);
            more := step.value;
          }
          code := code + more;
        }
        i := i + 1;
      }
      assert args[..i] == args;
      return Ok(code);
    }

    /** The return variable of library i's entry. */
    function ResultName(i: nat): string
      reads this`entries
      requires i < |libs| && EntriesSet()
    {
      var k := libs[i].libName;
      assert k in LibNames(libs) by { assert LibNames(libs)[i] == k; }
      Get(entries, k).value.value.ret.name
    }

    /** `prepare_verify_call`: one line per library, in order, storing the result of library
        i at index i of `eval_return_values`. */
    function VerifyPrep(): (r: seq<string>)
      reads this`entries
      requires EntriesSet()
      ensures |r| == |libs|
      ensures forall i :: 0 <= i < |libs| ==> r[i] == StoreResult(i, ResultName(i))
    {
      VerifyPrepFrom(|libs|)
    }

    function VerifyPrepFrom(n: nat): (r: seq<string>)
      reads this`entries
      requires n <= |libs| && EntriesSet()
      ensures |r| == n
      ensures forall i :: 0 <= i < n ==> r[i] == StoreResult(i, ResultName(i))
    {
      if n == 0 then []
      else VerifyPrepFrom(n - 1) + [StoreResult(n - 1, ResultName(n - 1))]
    }

    /** The input code define_input_space generates for the engine that is set. */
    function ExpectedInputs(): seq<string>
      reads this`engine, this`argumentsCache
      requires engine.Some?
    {
      match engine.value
      case Symex => SymexSpace(Values(argumentsCache))
      case Fuzzing => FuzzSpace(Values(argumentsCache)).code
    }

    /** `generate_variables`. */
    method GenerateVariables() returns (code: seq<string>)
      requires forall i :: 0 <= i < |entries| ==> entries[i].1.Some?
      ensures code == VariablesBlock(ReturnValueLines(EntryFunctions()), ArgumentLines(Values(argumentsCache)))
    {
      var returnValues := GenerateReturnValues();
      var arguments := GetArguments();
      code := VariablesBlock(returnValues, arguments);
    }

    /** The body generate_test_harness_body produces for this state. */
    function ExpectedBody(): seq<string>
      reads this`engine, this`entries, this`argumentsCache, this`assumptions
      requires engine.Some? && EntriesSet()
      requires forall i :: 0 <= i < |entries| ==> entries[i].1.Some?
    {
      BodyLines(ExpectedInputs(), AssumptionChecks(assumptions), EntryCalls(EntryFunctions()), VerifyPrep(), |libs| > 1)
    }

    /** `generate_test_harness_body`: the inputs, the assumption checks, the entry calls and,
        with several libraries, the verifier call. It fails exactly when define_input_space
        does, which only the fuzzing engine can. */
    method GenerateTestHarnessBody() returns (r: Result<seq<string>, InputError>)
      requires engine.Some? && EntriesSet()
      requires forall i :: 0 <= i < |entries| ==> entries[i].1.Some?
      modifies this`testcasesFuzzing
      ensures r.Ok? <==> engine.value == Symex || FuzzSupported(Values(argumentsCache))
      ensures r.Ok? ==> r.value == old(ExpectedBody())
      ensures engine.value == Symex ==> testcasesFuzzing == old(testcasesFuzzing)
      ensures engine.value == Fuzzing ==>
                testcasesFuzzing == AppendSeed(old(testcasesFuzzing), FuzzSpace(Values(argumentsCache)).seed)
    {
      FuzzSpaceOk(Values(argumentsCache));
      var fs := EntryFunctions();
      var checks := AssumptionChecks(assumptions);
      var calls := EntryCalls(fs);
      var prep := VerifyPrep();
      var inputs := DefineInputSpace();
      if inputs.Err? {
        return Err(inputs.error);
      }
      var code := CommonBody(inputs.value, checks, calls);
      if |libs| > 1 {
        code := code + VerifyCallBlock(prep);
      }
      return Ok(code);
    }

    /** `generate_test_harness` with the default, scalar `lib_eval`; `clustering` is the
        text of the clustering verifier. With the fuzzing engine an argument type without
        input format raises before any text is produced; the seeds of the arguments before it
        stay appended to the testcases. */
    method GenerateTestHarness(clustering: string) returns (r: Result<string, InputError>)
      requires engine.Some? && signature.Some? && EntriesSet()
      requires forall i :: 0 <= i < |entries| ==> entries[i].1.Some?
      modifies this`testcasesFuzzing
      ensures r.Ok? <==> engine.value == Symex || FuzzSupported(Values(argumentsCache))
      ensures r.Ok? ==> r.value == HarnessText(old(ExpectedParts(clustering)), |libs| > 1)
      ensures engine.value == Symex ==> testcasesFuzzing == old(testcasesFuzzing)
      ensures engine.value == Fuzzing ==>
                testcasesFuzzing == AppendSeed(old(testcasesFuzzing), FuzzSpace(Values(argumentsCache)).seed)
    {
      ghost var expected := ExpectedParts(clustering);
      var fs := EntryFunctions();
      var variables := GenerateVariables();
      var p := HarnessParts(engine.value, verifierKind, LibNames(libs), signature.value, fs, variables, [], clustering);
      assert p.(body := expected.body) == expected;
      var body := GenerateTestHarnessBody();
      if body.Err? {
        return Err(body.error);
      }
      assert p.(body := body.value) == expected;
      r := Ok(HarnessText(p.(body := body.value), |libs| > 1));
    }

    /** The pieces of the harness for this state. */
    function ExpectedParts(clustering: string): Parts
      reads this`engine, this`signature, this`entries, this`argumentsCache, this`assumptions
      requires engine.Some? && signature.Some? && EntriesSet()
      requires forall i :: 0 <= i < |entries| ==> entries[i].1.Some?
    {
      var fs := EntryFunctions();
      HarnessParts(engine.value, verifierKind, LibNames(libs), signature.value, fs,
                   VariablesBlock(ReturnValueLines(fs), ArgumentLines(Values(argumentsCache))), ExpectedBody(), clustering)
    }
  }

  /** The last library with the same name as library i. */
  function LastNamed(libs: seq<Library.Build>, i: nat): (j: nat)
    requires i < |libs|
    ensures i <= j < |libs| && libs[j].libName == libs[i].libName
    ensures forall m :: j < m < |libs| ==> libs[m].libName != libs[i].libName
    decreases |libs| - i
  {
    if forall m :: i < m < |libs| ==> libs[m].libName != libs[i].libName then i
    else
      var m :| i < m < |libs| && libs[m].libName == libs[i].libName;
      LastNamed(libs, m)
  }
}
