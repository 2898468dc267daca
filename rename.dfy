/** Symbol renaming of LLVM IR text (sputnik/rename.py). Every global a module defines gets
    the library's prefix, so that several versions of one library can be linked into a
    single harness without their symbols clashing. */
module Rename {
  import opened Wrappers
  import opened Text
  import opened Dicts

  /** Number of leading underscores of `f`: what the group `([_]*)` of the renaming
      pattern captures. */
  function Lead(f: string): (n: nat)
    ensures n <= |f|
    ensures forall i :: 0 <= i < n ==> f[i] == '_'
    ensures n < |f| ==> f[n] != '_'
  {
    if |f| > 0 && f[0] == '_' then 1 + Lead(f[1..]) else 0
  }

  /** The text before the first line break: what the group `(.*)` captures, since `.`
      does not match '\n'. */
  function UpToBreak(s: string): (r: string)
    ensures '\n' !in r && |r| <= |s| && r == s[..|r|]
    ensures '\n' !in s ==> r == s
  {
    match IndexOf(s, '\n')
    case None => s
    case Some(i) => s[..i]
  }

  /** The renaming `sub` of sputnik/rename.py: the leading underscores of `f`, then the
      prefix and an underscore, then the rest of `f`. */
  function Sub(prefix: string, f: string): string
  {
    var u := Lead(f);
    f[..u] + prefix + "_" + UpToBreak(f[u..])
  }

  /** Leading underscores of an underscore run followed by anything. */
  lemma {:induction false} LeadAfterUnderscores(a: string, b: string)
    requires forall i :: 0 <= i < |a| ==> a[i] == '_'
    ensures Lead(a + b) == |a| + Lead(b)
    decreases |a|
  {
    if |a| > 0 {
      assert (a + b)[1..] == a[1..] + b;
      LeadAfterUnderscores(a[1..], b);
    } else {
      assert a + b == b;
    }
  }

  /** The leading underscores of `prefix + "_" + r` when `r` does not start with one. */
  function PrefixLead(prefix: string): nat
  {
    if forall i :: 0 <= i < |prefix| ==> prefix[i] == '_' then |prefix| + 1 else Lead(prefix)
  }

  lemma {:induction false} LeadOfMarked(prefix: string, r: string)
    requires |r| > 0 ==> r[0] != '_'
    ensures Lead(prefix + "_" + r) == PrefixLead(prefix)
    decreases |prefix|
  {
    var s := prefix + "_" + r;
    if |prefix| == 0 {
      assert s == "_" + r && s[1..] == r;
    } else if prefix[0] == '_' {
      assert s[1..] == prefix[1..] + "_" + r;
      LeadOfMarked(prefix[1..], r);
      if forall i :: 0 <= i < |prefix| ==> prefix[i] == '_' {
        assert forall i :: 0 <= i < |prefix| - 1 ==> prefix[1..][i] == '_';
      } else {
        var k :| 0 <= k < |prefix| && prefix[k] != '_';
        assert prefix[1..][k - 1] != '_';
      }
    } else {
      assert s[0] != '_';
    }
  }

  /** The number of leading underscores of a renamed symbol is that of the symbol plus a
      count that depends on the prefix only. */
  lemma LeadOfSub(prefix: string, f: string)
    ensures Lead(Sub(prefix, f)) == Lead(f) + PrefixLead(prefix)
  {
    var u := Lead(f);
    var r := UpToBreak(f[u..]);
    assert Sub(prefix, f) == f[..u] + (prefix + "_" + r);
    LeadAfterUnderscores(f[..u], prefix + "_" + r);
    LeadOfMarked(prefix, r);
  }

  /** For one prefix, renaming never maps two symbol names of one line to the same name. */
  lemma SubInjective(prefix: string, f: string, g: string)
    requires '\n' !in f && '\n' !in g
    ensures Sub(prefix, f) == Sub(prefix, g) ==> f == g
  {
    if Sub(prefix, f) == Sub(prefix, g) {
      LeadOfSub(prefix, f);
      LeadOfSub(prefix, g);
      var u := Lead(f);
      SubParts(prefix, f);
      SubParts(prefix, g);
      assert f[..u] == g[..u] && f[u..] == g[u..];
      assert f == f[..u] + f[u..] && g == g[..u] + g[u..];
    }
  }

  /** Where the parts of a symbol sit in its renamed form. */
  lemma SubParts(prefix: string, f: string)
    requires '\n' !in f
    ensures var u := Lead(f); var s := Sub(prefix, f);
            |s| == |f| + |prefix| + 1 && s[..u] == f[..u] && s[u + |prefix| + 1..] == f[u..]
  {
    NoBreakAfterLead(f);
    SubPartsOfRest(prefix, f, Lead(f));
  }

  lemma NoBreakAfterLead(f: string)
    requires '\n' !in f
    ensures UpToBreak(f[Lead(f)..]) == f[Lead(f)..]
  {
    SliceKeepsNoBreak(f, Lead(f), |f|);
    assert f[Lead(f)..|f|] == f[Lead(f)..];
  }

  lemma SubPartsOfRest(prefix: string, f: string, u: nat)
    requires u == Lead(f) && UpToBreak(f[u..]) == f[u..]
    ensures var s := Sub(prefix, f);
            |s| == |f| + |prefix| + 1 && s[..u] == f[..u] && s[u + |prefix| + 1..] == f[u..]
  {
    var m := prefix + "_" + f[u..];
    Assoc(f[..u] + prefix, "_", f[u..]);
    Assoc(f[..u], prefix, "_" + f[u..]);
    assert Sub(prefix, f) == f[..u] + m;
    ConcatParts(f[..u], m);
  }

  /** One symbol renamed with two different prefixes gives two different names. */
  lemma SubSeparatesPrefixes(p: string, q: string, f: string)
    ensures Sub(p, f) == Sub(q, f) ==> p == q
  {
    if Sub(p, f) == Sub(q, f) {
      var u := Lead(f);
      var s := Sub(p, f);
      assert s[u..u + |p|] == p;
      assert Sub(q, f)[u..u + |q|] == q;
    }
  }

  /** Across prefixes renaming is not injective: the symbol `b_x` of the library `a` and the
      symbol `x` of the library `a_b` both become `a_b_x`. */
  lemma SubCollidesAcrossPrefixes()
    ensures Sub("a", "b_x") == Sub("a_b", "x") == "a_b_x"
  {
    assert Lead("b_x") == 0 && Lead("x") == 0;
    assert UpToBreak("b_x") == "b_x" && UpToBreak("x") == "x";
  }

  /** Leading underscores stay in front of the prefix. */
  lemma SubKeepsLeadingUnderscores(prefix: string)
    ensures Sub(prefix, "__foo") == "__" + prefix + "_foo"
  {
    assert Lead("foo") == 0;
    assert Lead("_foo") == 1;
    assert Lead("__foo") == 2;
    assert "__foo"[2..] == "foo";
    assert UpToBreak("foo") == "foo";
  }

  /** The renamed entry wrapper of a library is the name the harness calls:
      `<library>_lib_entry_<function>`. */
  lemma WrapperEntryName(library: string, fn: string)
    requires '\n' !in fn
    ensures Sub(library, "lib_entry_" + fn) == library + "_lib_entry_" + fn
  {
    var f := "lib_entry_" + fn;
    assert Lead(f) == 0 by { assert f[0] == 'l'; }
    assert '\n' !in f by { assert forall i :: 0 <= i < 10 ==> f[i] == "lib_entry_"[i]; }
    SubNoBreak(library, f);
    assert f[..0] + library == library && f[0..] == f;
    Assoc(library, "_", f);
    Assoc(library + "_", "lib_entry_", fn);
    Assoc(library, "_", "lib_entry_");
  }

  /** Renaming a symbol that is a prefix of another symbol, and keeping the remaining
      characters, gives the renaming of the longer symbol, provided the shorter one is not
      made of underscores only. */
  lemma SubOfPrefix(prefix: string, short: string, long: string)
    requires '\n' !in long && StartsWith(long, short) && HasNonUnderscore(short)
    ensures Sub(prefix, short) + long[|short|..] == Sub(prefix, long)
  {
    var u := Lead(short);
    var rest := long[|short|..];
    assert Lead(long) == u by {
      var k :| 0 <= k < |short| && short[k] != '_';
      LeadOfPrefix(short, long, u);
    }
    assert '\n' !in short && long[..u] == short[..u] && long[u..] == short[u..] + rest by {
      assert short == long[..|short|];
      SliceKeepsNoBreak(long, 0, |short|);
    }
    SubNoBreak(prefix, short);
    SubNoBreak(prefix, long);
    SpliceTail(short[..u], prefix, "_", short[u..], rest, Sub(prefix, short), Sub(prefix, long));
  }

  lemma SpliceTail(a: string, p: string, q: string, b: string, r: string, x: string, y: string)
    requires x == a + p + q + b && y == a + p + q + (b + r)
    ensures x + r == y
  {
    Assoc(a + p + q, b, r);
  }

  lemma SubNoBreak(prefix: string, f: string)
    requires '\n' !in f
    ensures Sub(prefix, f) == f[..Lead(f)] + prefix + "_" + f[Lead(f)..]
  {
  }

  lemma LeadOfPrefix(short: string, long: string, u: nat)
    requires StartsWith(long, short) && u == Lead(short) && u < |short|
    ensures Lead(long) == u
  {
    assert long[..u] == short[..u] && long[u] == short[u];
    LeadAfterUnderscores(long[..u], long[u..]);
    assert long[..u] + long[u..] == long;
  }

  /** With a symbol made of underscores only, the rule fails: `_` renamed and followed by
      `_x` is not the renaming of `__x`. */
  lemma SubOfUnderscorePrefix()
    ensures Sub("p", "_") + "_x" == "_p__x" != "__p_x" == Sub("p", "__x")
  {
    assert Lead("") == 0 && Lead("_") == 1;
    assert Lead("x") == 0 && Lead("_x") == 1 && Lead("__x") == 2;
    assert "_"[1..] == "" && "__x"[2..] == "x";
    assert UpToBreak("") == "" && UpToBreak("x") == "x";
    assert "_p__x"[1] != "__p_x"[1];
  }

  /** Linkages that keep a global variable from being renamed. */
  const VARIABLE_EXCLUDED: seq<string> := ["internal", "private", "appending", "external"]

  /** Linkages that keep a function definition from being renamed. */
  const FUNCTION_EXCLUDED: seq<string> := ["internal", "private"]

  predicate StartsWithAny(s: string, ps: seq<string>)
  {
    exists i :: 0 <= i < |ps| && StartsWith(s, ps[i])
  }

  /** End of the longest run of non-whitespace characters of `s` starting at `from`. */
  function NonSpaceEnd(s: string, from: nat): (e: nat)
    requires from <= |s|
    ensures from <= e <= |s|
    ensures forall i :: from <= i < e ==> !IsSpace(s[i])
    ensures e < |s| ==> IsSpace(s[e])
    decreases |s| - from
  {
    if from < |s| && !IsSpace(s[from]) then NonSpaceEnd(s, from + 1) else from
  }

  /** End of the longest run of characters of `s` other than '(' and '"' starting at `from`. */
  function PlainEnd(s: string, from: nat): (e: nat)
    requires from <= |s|
    ensures from <= e <= |s|
    ensures forall i :: from <= i < e ==> s[i] != '(' && s[i] != '"'
    ensures e < |s| ==> s[e] == '(' || s[e] == '"'
    decreases |s| - from
  {
    if from < |s| && s[from] != '(' && s[from] != '"' then PlainEnd(s, from + 1) else from
  }

  /** The first alternative of the detection pattern, `@(\S+) = ` not followed by an excluded
      linkage: the name of a global variable the line defines. */
  function VariableSymbol(line: string): Option<string>
  {
    if |line| > 0 && line[0] == '@' then
      var e := NonSpaceEnd(line, 1);
      if 1 < e && StartsWith(line[e..], " = ") && !StartsWithAny(line[e + 3..], VARIABLE_EXCLUDED)
      then Some(line[1..e])
      else None
    else None
  }

  /** What the first alternative accepts, stated without a scan: an '@', a non-empty name
      without whitespace, " = ", and a rest that does not start with an excluded linkage. */
  predicate DefinesVariable(line: string, name: string)
  {
    |name| > 0 && (forall i :: 0 <= i < |name| ==> !IsSpace(name[i]))
    && StartsWith(line, "@" + name + " = ")
    && !StartsWithAny(line[|name| + 4..], VARIABLE_EXCLUDED)
  }

  /** The scanning matcher accepts exactly the lines the pattern describes. */
  lemma VariableSymbolIff(line: string, name: string)
    ensures VariableSymbol(line) == Some(name) <==> DefinesVariable(line, name)
  {
    if DefinesVariable(line, name) {
      DefinedVariableFound(line, name);
    }
    if VariableSymbol(line) == Some(name) {
      FoundVariableDefined(line, name);
    }
  }

  lemma DefinedVariableFound(line: string, name: string)
    requires DefinesVariable(line, name)
    ensures VariableSymbol(line) == Some(name)
  {
    var head := "@" + name + " = ";
    var e := |name| + 1;
    assert line[..e + 3] == head;
    assert line[1..e] == head[1..e] == name;
    assert line[e..e + 3] == head[e..] == " = ";
    assert line[e..][..3] == line[e..e + 3];
    assert NonSpaceEnd(line, 1) == e by {
      assert line[e] == ' ';
      assert forall i :: 1 <= i < e ==> line[i] == name[i - 1];
      NonSpaceEndAt(line, 1, e);
    }
  }

  lemma FoundVariableDefined(line: string, name: string)
    requires VariableSymbol(line) == Some(name)
    ensures DefinesVariable(line, name)
  {
    var e := NonSpaceEnd(line, 1);
    assert line[..|name| + 4] == "@" + name + " = ";
  }

  lemma NonSpaceEndAt(s: string, from: nat, e: nat)
    requires from <= e < |s| && IsSpace(s[e]) && forall i :: from <= i < e ==> !IsSpace(s[i])
    ensures NonSpaceEnd(s, from) == e
    decreases e - from
  {
    if from < e {
      NonSpaceEndAt(s, from + 1, e);
    }
  }

  /** The name after an '@' in a function definition: either characters other than '(' and
      '"', or a quoted string with its quotes, followed by '('. */
  function CalleeName(s: string): (r: Option<string>)
    ensures r.Some? ==> |r.value| > 0 && StartsWith(s, r.value + "(")
  {
    if |s| > 0 && s[0] == '"' then
      match IndexOf(s[1..], '"')
      case None => None
      case Some(q) =>
        if q + 2 < |s| && s[q + 2] == '(' then
          assert s[..q + 3] == s[..q + 2] + "(";
          Some(s[..q + 2])
        else None
    else
      var e := PlainEnd(s, 0);
      if 0 < e < |s| && s[e] == '(' then
        assert s[..e + 1] == s[..e] + "(";
        Some(s[..e])
      else None
  }

  /** The second alternative of the detection pattern, `define ` not followed by an
      excluded linkage, then everything up to the first '@', then the name and '('. */
  function FunctionSymbol(line: string): (r: Option<string>)
    ensures r.Some? ==> StartsWith(line, "define ") && !StartsWithAny(line[7..], FUNCTION_EXCLUDED)
    ensures r.Some? ==> exists a :: 7 <= a < |line| && line[a] == '@' && '@' !in line[7..a]
                                    && StartsWith(line[a + 1..], r.value + "(")
  {
    if StartsWith(line, "define ") && !StartsWithAny(line[7..], FUNCTION_EXCLUDED) then
      match IndexOf(line[7..], '@')
      case None => None
      case Some(a) =>
        var r := CalleeName(line[7 + a + 1..]);
        if r.Some? then
          assert line[7..][..a] == line[7..7 + a];
          assert line[7 + a + 1..] == line[7..][a + 1..];
          r
        else None
    else None
  }

  /** The symbol a line of a module defines, if any: the variable alternative is tried
      first. */
  function LineSymbol(line: string): (r: Option<string>)
    ensures r.Some? && '\n' !in line ==> '\n' !in r.value
  {
    SymbolInsideLine(line);
    if VariableSymbol(line).Some? then VariableSymbol(line) else FunctionSymbol(line)
  }

  lemma SymbolInsideLine(line: string)
    ensures VariableSymbol(line).Some? && '\n' !in line ==> '\n' !in VariableSymbol(line).value
    ensures FunctionSymbol(line).Some? && '\n' !in line ==> '\n' !in FunctionSymbol(line).value
  {
    if VariableSymbol(line).Some? && '\n' !in line {
      SliceKeepsNoBreak(line, 1, NonSpaceEnd(line, 1));
    }
    if FunctionSymbol(line).Some? && '\n' !in line {
      var n := FunctionSymbol(line).value;
      var a :| 7 <= a < |line| && line[a] == '@' && '@' !in line[7..a]
               && StartsWith(line[a + 1..], n + "(");
      StartsWithSlice(line, a + 1, n, "(");
      SliceKeepsNoBreak(line, a + 1, a + 1 + |n|);
    }
  }

  lemma StartsWithSlice(s: string, i: nat, n: string, c: string)
    requires i <= |s| && StartsWith(s[i..], n + c)
    ensures i + |n| <= |s| && s[i..i + |n|] == n
  {
    assert s[i..][..|n| + |c|][..|n|] == n;
  }

  lemma SliceKeepsNoBreak(s: string, i: nat, j: nat)
    requires i <= j <= |s| && '\n' !in s
    ensures '\n' !in s[i..j]
  {
    assert forall k :: i <= k < j ==> s[i..j][k - i] == s[k];
  }

  /** A definition `define <type> @name(...)` with a plain name is detected with that name. */
  lemma FunctionSymbolOfDefinition(line: string, t: string, name: string, rest: string)
    requires line == "define " + t + "@" + name + "(" + rest
    requires '@' !in t && !StartsWithAny(line[7..], FUNCTION_EXCLUDED)
    requires |name| > 0 && forall i :: 0 <= i < |name| ==> name[i] != '(' && name[i] != '"'
    ensures LineSymbol(line) == Some(name)
  {
    assert line[0] == 'd';
    assert line[..7] == "define ";
    assert line[7..] == t + "@" + name + "(" + rest;
    assert IndexOf(line[7..], '@') == Some(|t|) by {
      assert line[7..][..|t|] == t;
      IndexOfAt(line[7..], '@', |t|);
    }
    var s := line[7 + |t| + 1..];
    assert s == name + "(" + rest;
    assert PlainEnd(s, 0) == |name| by { PlainEndAt(s, 0, |name|); }
    assert s[..|name|] == name;
  }

  lemma PlainEndAt(s: string, from: nat, e: nat)
    requires from <= e < |s| && (s[e] == '(' || s[e] == '"')
    requires forall i :: from <= i < e ==> s[i] != '(' && s[i] != '"'
    ensures PlainEnd(s, from) == e
    decreases e - from
  {
    if from < e {
      PlainEndAt(s, from + 1, e);
    }
  }

  /** The symbols the lines define, in order, repetitions included. */
  function Symbols(lines: seq<string>): (names: seq<string>)
    ensures forall n :: n in names <==> exists k :: 0 <= k < |lines| && LineSymbol(lines[k]) == Some(n)
  {
    if |lines| == 0 then []
    else
      var prev := Symbols(lines[..|lines| - 1]);
      assert forall k :: 0 <= k < |lines| - 1 ==> lines[..|lines| - 1][k] == lines[k];
      match LineSymbol(lines[|lines| - 1])
      case None => prev
      case Some(n) => prev + [n]
  }

  /** An entry of a renaming table: '@' and a symbol, mapped to '@' and its renaming. */
  predicate IsRenaming(entry: (string, string), prefix: string)
  {
    |entry.0| > 0 && entry.0[0] == '@' && entry.1 == "@" + Sub(prefix, entry.0[1..])
  }

  /** The table `detect_names` builds from the lines of a module, line by line. Every
      key is a defined symbol, every defined symbol is a key, each once, and each is mapped
      to its renaming. */
  function Detected(lines: seq<string>, prefix: string): (m: Dict<string, string>)
    ensures UniqueKeys(m)
    ensures forall i :: 0 <= i < |m| ==> IsRenaming(m[i], prefix)
    ensures forall n :: "@" + n in Keys(m) <==> n in Symbols(lines)
  {
    if |lines| == 0 then []
    else
      var prev := Detected(lines[..|lines| - 1], prefix);
      match LineSymbol(lines[|lines| - 1])
      case None => prev
      case Some(n) =>
        DetectedStep(lines, prefix, prev, n);
        Assign(prev, "@" + n, "@" + Sub(prefix, n))
  }

  /** One defined symbol more keeps the table's three properties. */
  lemma DetectedStep(lines: seq<string>, prefix: string, prev: Dict<string, string>, n: string)
    requires |lines| > 0 && LineSymbol(lines[|lines| - 1]) == Some(n)
    requires UniqueKeys(prev) && forall i :: 0 <= i < |prev| ==> IsRenaming(prev[i], prefix)
    requires forall x :: "@" + x in Keys(prev) <==> x in Symbols(lines[..|lines| - 1])
    ensures var m := Assign(prev, "@" + n, "@" + Sub(prefix, n));
            UniqueKeys(m) && forall i :: 0 <= i < |m| ==> IsRenaming(m[i], prefix)
    ensures forall x :: "@" + x in Keys(Assign(prev, "@" + n, "@" + Sub(prefix, n))) <==> x in Symbols(lines)
  {
    AssignRenaming(prev, n, prefix);
    assert Symbols(lines) == Symbols(lines[..|lines| - 1]) + [n];
    AssignedSymbols(Keys(prev), Keys(Assign(prev, "@" + n, "@" + Sub(prefix, n))), Symbols(lines[..|lines| - 1]), n);
  }

  /** Marking one more symbol adds its marked name to the keys, and nothing else. */
  lemma AssignedSymbols(before: seq<string>, after: seq<string>, names: seq<string>, n: string)
    requires after == if "@" + n in before then before else before + ["@" + n]
    requires forall x :: "@" + x in before <==> x in names
    ensures forall x :: "@" + x in after <==> x in names + [n]
  {
    forall x ensures "@" + x in after <==> x in names + [n] {
      MarkedInjective(x, n);
    }
  }

  lemma MarkedInjective(x: string, n: string)
    ensures "@" + x == "@" + n ==> x == n
  {
    assert ("@" + x)[1..] == x && ("@" + n)[1..] == n;
  }

  lemma AssignRenaming(prev: Dict<string, string>, n: string, prefix: string)
    requires UniqueKeys(prev) && forall i :: 0 <= i < |prev| ==> IsRenaming(prev[i], prefix)
    ensures var m := Assign(prev, "@" + n, "@" + Sub(prefix, n));
            forall i :: 0 <= i < |m| ==> IsRenaming(m[i], prefix)
  {
    var m := Assign(prev, "@" + n, "@" + Sub(prefix, n));
    forall i | 0 <= i < |m| ensures IsRenaming(m[i], prefix) {
      UniqueGet(m, i);
      if m[i].0 == "@" + n {
        assert m[i].0[1..] == n;
      } else {
        assert Keys(m)[i] == m[i].0;
        var j :| 0 <= j < |prev| && Keys(prev)[j] == m[i].0;
        UniqueGet(prev, j);
      }
    }
  }

  /** In a table with unique keys, looking up the key of an entry finds that entry. */
  lemma UniqueGet(d: Dict<string, string>, i: nat)
    requires UniqueKeys(d) && i < |d|
    ensures Get(d, d[i].0) == Some(d[i].1)
  {
    match Find(d, d[i].0)
    case None =>
    case Some(j) =>
  }

  /** `detect_names` with the renaming `sub` of `rename`: scans the lines of the module
      and records every defined symbol with its renaming. */
  method DetectNames(lines: seq<string>, prefix: string) returns (mapping: Dict<string, string>)
    ensures mapping == Detected(lines, prefix)
  {
    mapping := [];
    var k := 0;
    while k < |lines|
      invariant k <= |lines|
      invariant mapping == Detected(lines[..k], prefix)
    {
      assert lines[..k + 1][..k] == lines[..k];
      var symbol := LineSymbol(lines[k]);
      if symbol.Some? {
        var name := symbol.value;
        mapping := Assign(mapping, "@" + name, "@" + Sub(prefix, name));
      }
      k := k + 1;
    }
    assert lines[..k] == lines;
  }

  /** Every key of the table is non-empty, so that the joined pattern never matches the
      empty string. */
  predicate NonEmptyKeys(m: Dict<string, string>)
  {
    forall i :: 0 <= i < |m| ==> |m[i].0| > 0
  }

  /** The entry whose key the joined pattern `key1|key2|...` matches at the start of `s`:
      the first-listed key that is a prefix of `s`. */
  function FirstKey(s: string, m: Dict<string, string>): (r: Option<nat>)
    ensures r.Some? ==> r.value < |m| && StartsWith(s, m[r.value].0)
    ensures r.Some? ==> forall j :: 0 <= j < r.value ==> !StartsWith(s, m[j].0)
    ensures r.None? ==> forall j :: 0 <= j < |m| ==> !StartsWith(s, m[j].0)
  {
    if |m| == 0 then None
    else if StartsWith(s, m[0].0) then Some(0)
    else match FirstKey(s, m[1..])
      case None => None
      case Some(j) => Some(j + 1)
  }

  /** The regular-expression substitution of one line: scanning from the left, a key found
      at the current position is replaced by its value and scanning resumes after it (the
      replacement is not scanned again); otherwise one character is kept. */
  function RewriteLine(line: string, m: Dict<string, string>): string
    requires NonEmptyKeys(m)
    decreases |line|
  {
    if |line| == 0 then ""
    else match FirstKey(line, m)
      case Some(i) => m[i].1 + RewriteLine(line[|m[i].0|..], m)
      case None => [line[0]] + RewriteLine(line[1..], m)
  }

  /** Every key starts with '@', as those `detect_names` produces. */
  predicate MarkedKeys(m: Dict<string, string>)
  {
    forall i :: 0 <= i < |m| ==> |m[i].0| > 0 && m[i].0[0] == '@'
  }

  /** Text without an '@' is copied unchanged, whatever follows it. */
  lemma {:induction false} CopyWithoutMarker(s: string, t: string, m: Dict<string, string>)
    requires MarkedKeys(m) && '@' !in s
    ensures RewriteLine(s + t, m) == s + RewriteLine(t, m)
    decreases |s|
  {
    if |s| > 0 {
      var l := s + t;
      assert FirstKey(l, m) == None by {
        forall j | 0 <= j < |m| ensures !StartsWith(l, m[j].0) {
          assert l[0] == s[0];
        }
      }
      assert l[1..] == s[1..] + t;
      CopyWithoutMarker(s[1..], t, m);
    } else {
      assert s + t == t;
    }
  }

  /** A line without '@' (no symbol reference) passes through substitution unchanged. */
  lemma LineWithoutMarkerUnchanged(line: string, m: Dict<string, string>)
    requires MarkedKeys(m) && '@' !in line
    ensures RewriteLine(line, m) == line
  {
    CopyWithoutMarker(line, "", m);
    assert line + "" == line;
  }

  predicate HasNonUnderscore(s: string)
  {
    exists i :: 0 <= i < |s| && s[i] != '_'
  }

  /** A reference `@name` to a detected symbol is rewritten to `@` and the renamed symbol,
      even when a key that is a prefix of it is listed first, provided no symbol is made of
      underscores only and no key reaches past the name. */
  lemma RewriteRenamesReference(m: Dict<string, string>, prefix: string, name: string, tail: string)
    requires forall i :: 0 <= i < |m| ==> IsRenaming(m[i], prefix) && HasNonUnderscore(m[i].0[1..])
    requires "@" + name in Keys(m) && '@' !in name && '\n' !in name
    requires forall i :: 0 <= i < |m| && StartsWith("@" + name + tail, m[i].0) ==> |m[i].0| <= |name| + 1
    ensures NonEmptyKeys(m)
    ensures RewriteLine("@" + name + tail, m) == "@" + Sub(prefix, name) + RewriteLine(tail, m)
  {
    var i := ReferenceKey(m, prefix, name, tail);
    KeyRenaming(prefix, m[i].0, m[i].1, name);
    RewriteWithKey(m, "@" + name + tail, tail, i, name[|m[i].0| - 1..], Sub(prefix, name));
  }

  /** The rewriting of a line whose first applicable key is entry `i`, when the text after
      the key holds no '@' before `tail`. */
  lemma RewriteWithKey(m: Dict<string, string>, line: string, tail: string, i: nat, rest: string,
                       subName: string)
    requires MarkedKeys(m) && FirstKey(line, m) == Some(i)
    requires line[|m[i].0|..] == rest + tail && '@' !in rest
    requires m[i].1 + rest == "@" + subName
    ensures NonEmptyKeys(m)
    ensures RewriteLine(line, m) == "@" + subName + RewriteLine(tail, m)
  {
    RewriteAt(line, m, i);
    CopyWithoutMarker(rest, tail, m);
    Assoc(m[i].1, rest, RewriteLine(tail, m));
  }

  /** The replacement of a key that is a prefix of a reference, followed by the rest of the
      reference, is the renaming of the whole reference. */
  lemma KeyRenaming(prefix: string, key: string, value: string, name: string)
    requires 1 <= |key| <= |name| + 1 && value == "@" + Sub(prefix, key[1..])
    requires HasNonUnderscore(key[1..]) && StartsWith(name, key[1..]) && '\n' !in name
    ensures value + name[|key| - 1..] == "@" + Sub(prefix, name)
  {
    var short := key[1..];
    SubOfPrefix(prefix, short, name);
    assert name[|short|..] == name[|key| - 1..];
    MarkJoin(value, Sub(prefix, short), name[|key| - 1..], Sub(prefix, name));
  }

  lemma MarkJoin(value: string, s: string, rest: string, whole: string)
    requires value == "@" + s && s + rest == whole
    ensures value + rest == "@" + whole
  {
    Assoc("@", s, rest);
  }

  /** The key `substitute` applies first at a reference `@name` lies inside the reference. */
  lemma ReferenceKey(m: Dict<string, string>, prefix: string, name: string, tail: string) returns (i: nat)
    requires forall i :: 0 <= i < |m| ==> IsRenaming(m[i], prefix) && HasNonUnderscore(m[i].0[1..])
    requires "@" + name in Keys(m) && '@' !in name
    requires forall i :: 0 <= i < |m| && StartsWith("@" + name + tail, m[i].0) ==> |m[i].0| <= |name| + 1
    ensures NonEmptyKeys(m) && MarkedKeys(m) && FirstKey("@" + name + tail, m) == Some(i)
    ensures 1 <= |m[i].0| <= |name| + 1 && m[i].1 == "@" + Sub(prefix, m[i].0[1..])
    ensures HasNonUnderscore(m[i].0[1..]) && StartsWith(name, m[i].0[1..])
    ensures ("@" + name + tail)[|m[i].0|..] == name[|m[i].0| - 1..] + tail
    ensures '@' !in name[|m[i].0| - 1..]
  {
    var line := "@" + name + tail;
    var k :| 0 <= k < |m| && m[k].0 == "@" + name;
    assert StartsWith(line, m[k].0) by { assert line[..|name| + 1] == "@" + name; }
    RenamingKeysMarked(m, prefix);
    i := FirstKey(line, m).value;
    KeyInsideName(name, tail, m[i].0);
  }

  /** The keys of a renaming table are marked, and so non-empty. */
  lemma RenamingKeysMarked(m: Dict<string, string>, prefix: string)
    requires forall i :: 0 <= i < |m| ==> IsRenaming(m[i], prefix)
    ensures NonEmptyKeys(m) && MarkedKeys(m)
  {
  }

  lemma RewriteAt(line: string, m: Dict<string, string>, i: nat)
    requires NonEmptyKeys(m) && FirstKey(line, m) == Some(i)
    ensures RewriteLine(line, m) == m[i].1 + RewriteLine(line[|m[i].0|..], m)
  {
  }

  lemma KeyInsideName(name: string, tail: string, key: string)
    requires StartsWith("@" + name + tail, key) && 1 <= |key| <= |name| + 1 && '@' !in name
    ensures StartsWith(name, key[1..])
    ensures ("@" + name + tail)[|key|..] == name[|key| - 1..] + tail
    ensures '@' !in name[|key| - 1..]
  {
    var line := "@" + name + tail;
    assert key == line[..|key|];
    assert key[1..] == name[..|key| - 1];
  }

  /** With the symbol `_` listed before `__x`, the reference `@__x` is not rewritten to the
      renaming of `__x`. */
  lemma UnderscoreSymbolMisrenames()
    ensures var m := [("@_", "@" + Sub("p", "_")), ("@__x", "@" + Sub("p", "__x"))];
            RewriteLine("@__x", m) == "@_p__x" != "@" + Sub("p", "__x")
  {
    SubOfUnderscorePrefix();
    var m := [("@_", "@" + Sub("p", "_")), ("@__x", "@" + Sub("p", "__x"))];
    UnderscoreKeyFirst(m, Sub("p", "_"), Sub("p", "__x"));
    assert "@_p__x"[2] != ("@" + Sub("p", "__x"))[2];
  }

  lemma UnderscoreKeyFirst(m: Dict<string, string>, a: string, b: string)
    requires m == [("@_", "@" + a), ("@__x", "@" + b)] && a + "_x" == "_p__x"
    ensures RewriteLine("@__x", m) == "@_p__x"
  {
    assert MarkedKeys(m);
    assert FirstKey("@__x", m) == Some(0) by { assert "@__x"[..2] == "@_"; }
    RewriteAt("@__x", m, 0);
    assert "@__x"[2..] == "_x";
    LineWithoutMarkerUnchanged("_x", m);
    Assoc("@", a, "_x");
  }

  /** The error `substitute` stops with: the substitution callback looks a matched text up
      in the table and finds nothing. */
  datatype SubstituteError = KeyError(key: string)

  /** The text `print(line, file=...)` writes for each line in turn. */
  function PrintedText(lines: seq<string>): string
  {
    if |lines| == 0 then "" else lines[0] + "\n" + PrintedText(lines[1..])
  }

  lemma {:induction false} PrintedTextAppend(lines: seq<string>, x: string)
    ensures PrintedText(lines + [x]) == PrintedText(lines) + x + "\n"
    decreases |lines|
  {
    if |lines| == 0 {
      assert PrintedText([x]) == x + "\n" + PrintedText([]);
    } else {
      assert (lines + [x])[1..] == lines[1..] + [x];
      PrintedTextAppend(lines[1..], x);
    }
  }

  /** Printed lines are the lines joined by line breaks, with a final line break. */
  lemma {:induction false} PrintedTextIsJoin(lines: seq<string>)
    ensures PrintedText(lines) == Join(lines + [""], "\n")
    decreases |lines|
  {
    if |lines| > 0 {
      PrintedTextIsJoin(lines[1..]);
      assert (lines + [""])[1..] == lines[1..] + [""];
    }
  }

  /** Each line of the content rewritten. */
  function RewriteAll(lines: seq<string>, m: Dict<string, string>): (r: seq<string>)
    requires NonEmptyKeys(m)
    ensures |r| == |lines| && forall i :: 0 <= i < |lines| ==> r[i] == RewriteLine(lines[i], m)
  {
    seq(|lines|, i requires 0 <= i < |lines| => RewriteLine(lines[i], m))
  }

  /** `substitute`: the text written to the destination, and the error it stops with. With
      an empty table the joined pattern is empty, it matches the empty string at the start of
      the first line and the lookup of "" fails before anything is written; otherwise every
      line is rewritten and printed. */
  method Substitute(content: string, mapping: Dict<string, string>)
    returns (written: string, error: Option<SubstituteError>)
    requires UniqueKeys(mapping) && NonEmptyKeys(mapping)
    ensures error.Some? <==> |mapping| == 0
    ensures error.Some? ==> error.value == KeyError("") && written == ""
    ensures error.None? ==> written == PrintedText(RewriteAll(Split(content, "\n"), mapping))
  {
    written := "";
    if |mapping| == 0 {
      return written, Some(KeyError(""));
    }
    var lines := Split(content, "\n");
    var k := 0;
    while k < |lines|
      invariant k <= |lines|
      invariant written == PrintedText(RewriteAll(lines[..k], mapping))
    {
      assert RewriteAll(lines[..k + 1], mapping) == RewriteAll(lines[..k], mapping) + [RewriteLine(lines[k], mapping)];
      PrintedTextAppend(RewriteAll(lines[..k], mapping), RewriteLine(lines[k], mapping));
      written := written + RewriteLine(lines[k], mapping) + "\n";
      k := k + 1;
    }
    assert lines[..k] == lines;
    error := None;
  }

  /** A rewritten line holds no line break when neither the line nor any value does. */
  lemma {:induction false} RewriteKeepsLine(line: string, m: Dict<string, string>)
    requires NonEmptyKeys(m) && '\n' !in line
    requires forall i :: 0 <= i < |m| ==> '\n' !in m[i].1
    ensures '\n' !in RewriteLine(line, m)
    decreases |line|
  {
    if |line| > 0 {
      match FirstKey(line, m)
      case Some(i) =>
        assert forall c :: c in line[|m[i].0|..] ==> c in line;
        RewriteKeepsLine(line[|m[i].0|..], m);
      case None =>
        assert forall c :: c in line[1..] ==> c in line;
        RewriteKeepsLine(line[1..], m);
    }
  }

  /** Substitution keeps the line structure: the text written splits into one line per line
      of the content, plus the empty piece after the final line break. */
  lemma SubstituteKeepsLines(content: string, m: Dict<string, string>)
    requires NonEmptyKeys(m) && forall i :: 0 <= i < |m| ==> '\n' !in m[i].1
    ensures var out := RewriteAll(Split(content, "\n"), m);
            Split(PrintedText(out), "\n") == out + [""]
  {
    var lines := Split(content, "\n");
    var out := RewriteAll(lines, m);
    forall k | 0 <= k < |lines| ensures '\n' !in out[k] {
      SplitPieceNoSep(content, k, '\n');
      RewriteKeepsLine(lines[k], m);
    }
    PrintedTextIsJoin(out);
    assert forall k :: 0 <= k < |out| + 1 ==> '\n' !in (out + [""])[k];
    SplitJoin(out + [""], "\n");
  }

  /** `rename`: detect the symbols the module defines, then rewrite the module with the
      table. The table is the result; a module that defines no symbol ends in the lookup
      error of `substitute`, after the destination was emptied. */
  method Rename(content: string, prefix: string)
    returns (written: string, result: Result<Dict<string, string>, SubstituteError>)
    ensures var m := Detected(Split(content, "\n"), prefix);
            && (result.Err? <==> |m| == 0)
            && (result.Ok? ==> result.value == m)
            && written == (if |m| == 0 then "" else PrintedText(RewriteAll(Split(content, "\n"), m)))
  {
    var mapping := DetectNames(Split(content, "\n"), prefix);
    var error;
    written, error := Substitute(content, mapping);
    if error.Some? {
      return written, Err(error.value);
    }
    return written, Ok(mapping);
  }

  /** Renaming keeps the line structure of the module when the prefix holds no line break:
      one written line per line of the content. */
  lemma RenameKeepsLines(content: string, prefix: string)
    requires '\n' !in prefix
    ensures var m := Detected(Split(content, "\n"), prefix);
            var out := RewriteAll(Split(content, "\n"), m);
            Split(PrintedText(out), "\n") == out + [""]
  {
    var m := Detected(Split(content, "\n"), prefix);
    forall i | 0 <= i < |m| ensures '\n' !in m[i].1 {
      DetectedValueNoBreak(content, prefix, i);
    }
    SubstituteKeepsLines(content, m);
  }

  lemma DetectedValueNoBreak(content: string, prefix: string, i: nat)
    requires '\n' !in prefix && i < |Detected(Split(content, "\n"), prefix)|
    ensures '\n' !in Detected(Split(content, "\n"), prefix)[i].1
  {
    var lines := Split(content, "\n");
    forall k | 0 <= k < |lines| ensures '\n' !in lines[k] {
      SplitPieceNoSep(content, k, '\n');
    }
    EntryNoBreak(lines, prefix, i);
  }

  lemma {:induction false} EntryNoBreak(lines: seq<string>, prefix: string, i: nat)
    requires '\n' !in prefix && i < |Detected(lines, prefix)|
    requires forall k :: 0 <= k < |lines| ==> '\n' !in lines[k]
    ensures '\n' !in Detected(lines, prefix)[i].1
    decreases |lines|
  {
    var init := lines[..|lines| - 1];
    assert forall k :: 0 <= k < |init| ==> '\n' !in init[k];
    var prev := Detected(init, prefix);
    var e := Detected(lines, prefix)[i];
    var last := LineSymbol(lines[|lines| - 1]);
    if last.Some? && e == ("@" + last.value, "@" + Sub(prefix, last.value)) {
      SubKeepsNoBreak(prefix, last.value);
    } else {
      assert e in prev;
      var j :| 0 <= j < |prev| && prev[j] == e;
      EntryNoBreak(init, prefix, j);
    }
  }

  lemma SubKeepsNoBreak(prefix: string, f: string)
    requires '\n' !in prefix && '\n' !in f
    ensures '\n' !in "@" + Sub(prefix, f)
  {
    var u := Lead(f);
    assert forall c :: c in f[..u] ==> c in f;
  }
}
