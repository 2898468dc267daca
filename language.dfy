/** The C declaration layer of the generator (sputnik/language.py): variables, signatures and
    functions, parsed from declaration text and printed back as C. */
module Language {
  import opened Wrappers
  import opened Text

  /** -1 marks an unknown array size. */
  const UNKNOWN_SIZE: int := -1

  /** A C variable. Every renaming in the generator acts on a copy, so a variable is a value
      and renaming is a functional update. */
  datatype Variable = Variable(typ: string, name: string, ptrDepth: nat, arraySize: int, value: Option<string>)

  /** A function signature: name, parameters and return variable. */
  datatype Signature = Signature(name: string, args: seq<Variable>, ret: Variable)

  /** A signature with an optional body. */
  datatype Function = Function(name: string, args: seq<Variable>, ret: Variable, body: Option<string>)

  /** The declaration text did not match the expected pattern. */
  datatype ParseError = NoMatch(line: string)

  predicate IsPtr(v: Variable)
  {
    v.ptrDepth > 0
  }

  /** The type followed by a space and one '*' per pointer level. */
  function TypeStr(v: Variable): string
  {
    v.typ + (if v.ptrDepth != 0 then " " + Repeat('*', v.ptrDepth) else "")
  }

  /** The variable as a C declarator: no space between the stars and the name. */
  function VarStr(v: Variable): string
  {
    if v.ptrDepth != 0 then TypeStr(v) + v.name else TypeStr(v) + " " + v.name
  }

  /** `Variable.__eq__`: name, type, depth and array size; the value is not compared. */
  predicate VariableEq(a: Variable, b: Variable)
  {
    a.name == b.name && a.typ == b.typ && a.ptrDepth == b.ptrDepth && a.arraySize == b.arraySize
  }

  function Rename(v: Variable, name: string): Variable
  {
    v.(name := name)
  }

  // ----- Variable.parse: `(?:const )?(.*)\s([*]*)([^;]*)[;]?` -----

  /** Largest position in [lo, hi) holding whitespace. */
  function LastSpace(s: string, lo: nat, hi: nat): (r: Option<nat>)
    requires lo <= hi <= |s|
    ensures r.Some? ==> lo <= r.value < hi
    decreases hi - lo
  {
    if hi == lo then None
    else if IsSpace(s[hi - 1]) then Some(hi - 1)
    else LastSpace(s, lo, hi - 1)
  }

  /** The whitespace found is the last one in the range; none is found only when the range
      holds none. */
  lemma {:induction false} LastSpaceSpec(s: string, lo: nat, hi: nat)
    requires lo <= hi <= |s|
    ensures var r := LastSpace(s, lo, hi);
            && (r.Some? ==> IsSpace(s[r.value]) && forall k :: r.value < k < hi ==> !IsSpace(s[k]))
            && (r.None? ==> forall k :: lo <= k < hi ==> !IsSpace(s[k]))
    decreases hi - lo
  {
    if hi > lo && !IsSpace(s[hi - 1]) {
      LastSpaceSpec(s, lo, hi - 1);
    }
  }

  /** End of the part of `s` from `start` that `.` can cover, plus the line break that ends
      it: `.` does not match '\n' but `\s` does. */
  function LineLimit(s: string, start: nat): (limit: nat)
    requires start <= |s|
    ensures start <= limit <= |s|
  {
    match IndexOf(s[start..], '\n')
    case None => |s|
    case Some(i) => start + i + 1
  }

  /** The line ends at the first line break from `start`, or at the end of the text. */
  lemma LineLimitSpec(s: string, start: nat)
    requires start <= |s|
    ensures var limit := LineLimit(s, start);
            && (forall k :: start <= k < limit - 1 ==> s[k] != '\n')
            && (limit < |s| ==> limit > start && s[limit - 1] == '\n')
  {
    match IndexOf(s[start..], '\n')
    case None =>
    case Some(i) =>
      assert forall k :: start <= k < start + i ==> s[k] == s[start..][..i][k - start];
  }

  /** End of the run of '*' starting at `from`. */
  function StarEnd(s: string, from: nat): (e: nat)
    requires from <= |s|
    ensures from <= e <= |s|
    decreases |s| - from
  {
    if from < |s| && s[from] == '*' then StarEnd(s, from + 1) else from
  }

  /** The run covers only stars and stops before a character that is not one. */
  lemma {:induction false} StarEndSpec(s: string, from: nat)
    requires from <= |s|
    ensures var e := StarEnd(s, from);
            (forall k :: from <= k < e ==> s[k] == '*') && (e < |s| ==> s[e] != '*')
    decreases |s| - from
  {
    if from < |s| && s[from] == '*' {
      StarEndSpec(s, from + 1);
    }
  }

  /** End of the run of characters other than ';' starting at `from`. */
  function NameEnd(s: string, from: nat): (e: nat)
    requires from <= |s|
    ensures from <= e <= |s|
    decreases |s| - from
  {
    if from < |s| && s[from] != ';' then NameEnd(s, from + 1) else from
  }

  /** The run holds no ';' and stops at one or at the end. */
  lemma {:induction false} NameEndSpec(s: string, from: nat)
    requires from <= |s|
    ensures var e := NameEnd(s, from);
            (forall k :: from <= k < e ==> s[k] != ';') && (e < |s| ==> s[e] == ';')
    decreases |s| - from
  {
    if from < |s| && s[from] != ';' {
      NameEndSpec(s, from + 1);
    }
  }

  /** The pattern without its optional `const ` prefix, matched from `start`. */
  function VariableFrom(line: string, start: nat, arraySize: int): (r: Option<Variable>)
    requires start <= |line|
  {
    match LastSpace(line, start, LineLimit(line, start))
    case None => None
    case Some(p) => Some(VariableAt(line, start, p, arraySize))
  }

  /** The variable read from `start` when the whitespace before the stars is at `p`. */
  function VariableAt(line: string, start: nat, p: nat, arraySize: int): Variable
    requires start <= p < |line|
  {
    var st := StarEnd(line, p + 1);
    var depth := st - (p + 1);
    Variable(line[start..p], line[st..NameEnd(line, st)], depth, if depth != 0 then arraySize else UNKNOWN_SIZE, None)
  }

  /** `Variable.parse`: the optional `const ` is tried first; without whitespace in the
      line nothing matches and the parse fails. */
  function ParseVariable(line: string, arraySize: int): (r: Result<Variable, ParseError>)
    ensures r.Ok? ==> r.value.arraySize == (if r.value.ptrDepth > 0 then arraySize else UNKNOWN_SIZE)
    ensures r.Ok? ==> r.value.value.None?
  {
    var withConst := if StartsWith(line, "const ") then VariableFrom(line, 6, arraySize) else None;
    if withConst.Some? then Ok(withConst.value)
    else match VariableFrom(line, 0, arraySize)
      case None => Err(NoMatch(line))
      case Some(v) => Ok(v)
  }

  /** A declarator fails to parse exactly when it holds no whitespace at all. */
  lemma ParseVariableFails(line: string, arraySize: int)
    ensures ParseVariable(line, arraySize).Err? <==> forall k :: 0 <= k < |line| ==> !IsSpace(line[k])
  {
    VariableFromNone(line, 0, arraySize);
    if ParseVariable(line, arraySize).Err? {
      NoSpaceAnywhere(line);
    } else if StartsWith(line, "const ") && VariableFrom(line, 6, arraySize).Some? {
      var p := LastSpace(line, 6, LineLimit(line, 6)).value;
      LastSpaceSpec(line, 6, LineLimit(line, 6));
      assert IsSpace(line[p]);
    }
  }

  /** Nothing is read from `start` exactly when the line from there holds no whitespace. */
  lemma VariableFromNone(line: string, start: nat, arraySize: int)
    requires start <= |line|
    ensures VariableFrom(line, start, arraySize).None? <==> forall k :: start <= k < LineLimit(line, start) ==> !IsSpace(line[k])
  {
    LastSpaceSpec(line, start, LineLimit(line, start));
  }

  lemma NoSpaceAnywhere(line: string)
    requires forall k :: 0 <= k < LineLimit(line, 0) ==> !IsSpace(line[k])
    ensures forall k :: 0 <= k < |line| ==> !IsSpace(line[k])
  {
    var limit := LineLimit(line, 0);
    LineLimitSpec(line, 0);
    if limit < |line| {
      assert false;
    }
  }

  // ----- Variable.parse read back against printing -----

  /** A variable whose printed form parses back: no line break in the type, and a name with
      no whitespace, no ';' and no leading '*'. */
  predicate WellFormedVariable(v: Variable)
  {
    (forall i :: 0 <= i < |v.typ| ==> v.typ[i] != '\n')
    && (forall i :: 0 <= i < |v.name| ==> !IsSpace(v.name[i]) && v.name[i] != ';')
    && (|v.name| > 0 ==> v.name[0] != '*')
  }

  /** What parsing keeps of a variable: the array size is the given one for pointers and
      unknown otherwise, and there is no value. */
  function Parsed(v: Variable, arraySize: int): Variable
  {
    Variable(v.typ, v.name, v.ptrDepth, if v.ptrDepth > 0 then arraySize else UNKNOWN_SIZE, None)
  }

  lemma LastSpaceIs(s: string, lo: nat, hi: nat, p: nat)
    requires lo <= p < hi <= |s| && IsSpace(s[p]) && forall k :: p < k < hi ==> !IsSpace(s[k])
    ensures LastSpace(s, lo, hi) == Some(p)
    decreases hi - lo
  {
    if p < hi - 1 {
      LastSpaceIs(s, lo, hi - 1, p);
    }
  }

  lemma StarEndIs(s: string, from: nat, e: nat)
    requires from <= e <= |s| && (forall k :: from <= k < e ==> s[k] == '*') && (e < |s| ==> s[e] != '*')
    ensures StarEnd(s, from) == e
    decreases e - from
  {
    if from < e {
      StarEndIs(s, from + 1, e);
    }
  }

  lemma NameEndAll(s: string, from: nat)
    requires from <= |s| && forall k :: from <= k < |s| ==> s[k] != ';'
    ensures NameEnd(s, from) == |s|
    decreases |s| - from
  {
    if from < |s| {
      NameEndAll(s, from + 1);
    }
  }

  lemma LineLimitAll(s: string, start: nat)
    requires start <= |s| && forall k :: start <= k < |s| ==> s[k] != '\n'
    ensures LineLimit(s, start) == |s|
  {
    assert '\n' !in s[start..] by {
      forall k | 0 <= k < |s| - start ensures s[start..][k] != '\n' {
        assert s[start..][k] == s[start + k];
      }
    }
  }

  lemma VariableFromAt(line: string, start: nat, p: nat, st: nat, typ: string, name: string, depth: nat, arraySize: int)
    requires start <= |line|
    requires LastSpace(line, start, LineLimit(line, start)) == Some(p)
    requires StarEnd(line, p + 1) == st && NameEnd(line, st) == |line|
    requires typ == line[start..p] && name == line[st..] && depth == st - (p + 1)
    ensures VariableFrom(line, start, arraySize)
         == Some(Variable(typ, name, depth, if depth != 0 then arraySize else UNKNOWN_SIZE, None))
  {
    VariableFromSome(line, start, p, arraySize);
    VariableAtIs(line, start, p, st, typ, name, depth, arraySize);
  }

  lemma VariableAtIs(line: string, start: nat, p: nat, st: nat, typ: string, name: string, depth: nat, arraySize: int)
    requires start <= p < |line|
    requires StarEnd(line, p + 1) == st && NameEnd(line, st) == |line|
    requires typ == line[start..p] && name == line[st..] && depth == st - (p + 1)
    ensures VariableAt(line, start, p, arraySize) == Variable(typ, name, depth, if depth != 0 then arraySize else UNKNOWN_SIZE, None)
  {
    assert line[st..NameEnd(line, st)] == line[st..];
  }

  lemma VariableFromSome(line: string, start: nat, p: nat, arraySize: int)
    requires start <= |line| && LastSpace(line, start, LineLimit(line, start)) == Some(p)
    ensures p < |line| && VariableFrom(line, start, arraySize) == Some(VariableAt(line, start, p, arraySize))
  {
  }

  /** The declarator of a well-formed variable, found at `start`, is read back. */
  lemma VariableFromPrinted(line: string, start: nat, v: Variable, arraySize: int)
    requires start <= |line| && line[start..] == VarStr(v) && WellFormedVariable(v)
    ensures VariableFrom(line, start, arraySize) == Some(Parsed(v, arraySize))
  {
    var p := start + |v.typ|;
    var st := p + 1 + v.ptrDepth;
    PrintedLayout(line, start, v);
    PrintedPositions(line, start, v);
    VariableFromLayout(line, start, v, arraySize);
  }

  /** Once the positions are known, the parts between them are the variable's. */
  lemma VariableFromLayout(line: string, start: nat, v: Variable, arraySize: int)
    requires var p := start + |v.typ|; var st := p + 1 + v.ptrDepth;
             && |line| == st + |v.name| && line[start..p] == v.typ && line[st..] == v.name
             && LastSpace(line, start, LineLimit(line, start)) == Some(p)
             && StarEnd(line, p + 1) == st && NameEnd(line, st) == |line|
    ensures VariableFrom(line, start, arraySize) == Some(Parsed(v, arraySize))
  {
    var p := start + |v.typ|;
    VariableFromAt(line, start, p, p + 1 + v.ptrDepth, v.typ, v.name, v.ptrDepth, arraySize);
  }

  /** In a printed declarator, the pattern's last whitespace, end of stars and end of name
      are where the printing put them. */
  lemma PrintedPositions(line: string, start: nat, v: Variable)
    requires PrintedAt(line, start, v) && WellFormedVariable(v)
    ensures var p := start + |v.typ|; var st := p + 1 + v.ptrDepth;
            && LastSpace(line, start, LineLimit(line, start)) == Some(p)
            && StarEnd(line, p + 1) == st && NameEnd(line, st) == |line|
  {
    PrintedSpace(line, start, v);
    PrintedStars(line, start, v);
    PrintedName(line, start, v);
  }

  /** Where the parts of a printed declarator sit in the line: the type, one space, the
      stars, the name. */
  predicate PrintedAt(line: string, start: nat, v: Variable)
  {
    var p := start + |v.typ|; var st := p + 1 + v.ptrDepth;
    && start <= |line| && |line| == st + |v.name|
    && line[start..p] == v.typ && line[p] == ' ' && line[st..] == v.name
    && (forall k :: p + 1 <= k < st ==> line[k] == '*')
  }

  lemma PrintedLayout(line: string, start: nat, v: Variable)
    requires start <= |line| && line[start..] == VarStr(v)
    ensures PrintedAt(line, start, v)
  {
    var p := start + |v.typ|;
    var st := p + 1 + v.ptrDepth;
    var stars := Repeat('*', v.ptrDepth);
    assert VarStr(v) == v.typ + " " + stars + v.name;
    assert line[start..][..|v.typ|] == v.typ;
    assert line[start..][|v.typ|] == ' ';
    assert line[start..][|v.typ| + 1 + v.ptrDepth..] == v.name;
    forall k | p + 1 <= k < st ensures line[k] == '*' {
      assert line[k] == line[start..][k - start];
      assert line[start..][k - start] == stars[k - p - 1];
    }
  }

  /** The space after the type is the last whitespace of the line. */
  lemma PrintedSpace(line: string, start: nat, v: Variable)
    requires PrintedAt(line, start, v) && WellFormedVariable(v)
    ensures LastSpace(line, start, LineLimit(line, start)) == Some(start + |v.typ|)
  {
    PrintedTail(line, start, v);
    LineLimitAll(line, start);
    LastSpaceIs(line, start, |line|, start + |v.typ|);
  }

  /** The stars after the space end where the name starts. */
  lemma PrintedStars(line: string, start: nat, v: Variable)
    requires PrintedAt(line, start, v) && WellFormedVariable(v)
    ensures StarEnd(line, start + |v.typ| + 1) == start + |v.typ| + 1 + v.ptrDepth
  {
    PrintedTail(line, start, v);
    StarEndIs(line, start + |v.typ| + 1, start + |v.typ| + 1 + v.ptrDepth);
  }

  /** The name runs to the end of the line. */
  lemma PrintedName(line: string, start: nat, v: Variable)
    requires PrintedAt(line, start, v) && WellFormedVariable(v)
    ensures NameEnd(line, start + |v.typ| + 1 + v.ptrDepth) == |line|
  {
    PrintedTail(line, start, v);
    NameEndAll(line, start + |v.typ| + 1 + v.ptrDepth);
  }

  lemma PrintedTail(line: string, start: nat, v: Variable)
    requires PrintedAt(line, start, v) && WellFormedVariable(v)
    ensures var p := start + |v.typ|; var st := p + 1 + v.ptrDepth;
            && (forall k :: start <= k < |line| ==> line[k] != '\n')
            && (forall k :: p < k < |line| ==> !IsSpace(line[k]))
            && (st < |line| ==> line[st] != '*')
            && (forall k :: st <= k < |line| ==> line[k] != ';')
  {
    var p := start + |v.typ|;
    var st := p + 1 + v.ptrDepth;
    forall k | st <= k < |line| ensures line[k] == v.name[k - st] {
      assert line[st..][k - st] == line[k];
    }
    forall k | start <= k < p ensures line[k] == v.typ[k - start] {
      assert line[start..p][k - start] == line[k];
    }
  }

  /** Printing a well-formed variable and parsing it back gives the variable (with the
      array-size rule of parsing applied). */
  lemma ParseVariablePrinted(v: Variable, arraySize: int)
    requires WellFormedVariable(v) && !StartsWith(v.typ + " ", "const ")
    ensures ParseVariable(VarStr(v), arraySize) == Ok(Parsed(v, arraySize))
  {
    var line := VarStr(v);
    assert line == v.typ + " " + Repeat('*', v.ptrDepth) + v.name;
    assert !StartsWith(line, "const ") by {
      if |v.typ| >= 5 {
        assert line[..6] == (v.typ + " ")[..6];
      } else {
        assert line[|v.typ|] == ' ' && "const "[|v.typ|] != ' ';
      }
    }
    VariableFromPrinted(line, 0, v, arraySize);
  }

  /** A leading `const ` is dropped. */
  lemma ParseVariableDropsConst(v: Variable, arraySize: int)
    requires WellFormedVariable(v)
    ensures ParseVariable("const " + VarStr(v), arraySize) == Ok(Parsed(v, arraySize))
  {
    var line := "const " + VarStr(v);
    assert line[6..] == VarStr(v);
    VariableFromPrinted(line, 6, v, arraySize);
  }

  // ----- Signature.parse: `(.*)\s([*]*)([^(]*)\(([^)]*)\);` with DOTALL -----

  /** Positions in a declaration: the end of the stars, the opening and the closing
      parenthesis. */
  datatype Tail = Tail(starsEnd: nat, open: nat, close: nat)

  /** Where `([*]*)([^(]*)\(([^)]*)\);` matches from `from`: the end of the stars, the
      opening parenthesis and the closing one, which a ';' follows. */
  function TailAt(s: string, from: nat): (r: Option<Tail>)
    requires from <= |s|
    ensures r.Some? ==> r.value.starsEnd == StarEnd(s, from)
    ensures r.Some? ==> r.value.starsEnd <= r.value.open < r.value.close && r.value.close + 1 < |s|
    ensures r.Some? ==> s[r.value.open] == '(' && s[r.value.close] == ')' && s[r.value.close + 1] == ';'
  {
    var st := StarEnd(s, from);
    match FirstFrom(s, st, '(')
    case None => None
    case Some(q) =>
      match FirstFrom(s, q + 1, ')')
      case None => None
      case Some(e) =>
        if e + 1 < |s| && s[e + 1] == ';' then Some(Tail(st, q, e)) else None
  }

  /** The first position at or after `from` holding `c`. */
  function FirstFrom(s: string, from: nat, c: char): (r: Option<nat>)
    requires from <= |s|
    ensures r.Some? ==> from <= r.value < |s| && s[r.value] == c
    decreases |s| - from
  {
    if from == |s| then None
    else if s[from] == c then Some(from)
    else FirstFrom(s, from + 1, c)
  }

  /** Nothing before the position found holds `c`; nothing at all does when none is found. */
  lemma {:induction false} FirstFromSpec(s: string, from: nat, c: char)
    requires from <= |s|
    ensures var r := FirstFrom(s, from, c);
            && (r.Some? ==> forall k :: from <= k < r.value ==> s[k] != c)
            && (r.None? ==> forall k :: from <= k < |s| ==> s[k] != c)
    decreases |s| - from
  {
    if from < |s| && s[from] != c {
      FirstFromSpec(s, from + 1, c);
    }
  }

  lemma FirstFromIs(s: string, from: nat, c: char, k: nat)
    requires from <= k < |s| && s[k] == c && forall j :: from <= j < k ==> s[j] != c
    ensures FirstFrom(s, from, c) == Some(k)
    decreases k - from
  {
    if from < k {
      FirstFromIs(s, from + 1, c, k);
    }
  }

  /** A match of the declaration pattern: the whitespace it splits at and the positions after. */
  datatype Match = Match(space: nat, tail: Tail)

  /** The number of stars between the split point and the name. */
  function Stars(m: Match): nat
    requires m.space < m.tail.starsEnd
  {
    m.tail.starsEnd - (m.space + 1)
  }

  /** Where the greedy `(.*)\s` settles: the last whitespace before `hi` after which the rest
      of the pattern matches. */
  function DeclarationSplit(s: string, hi: nat): (r: Option<Match>)
    requires hi <= |s|
    ensures r.Some? ==> r.value.space < hi && IsSpace(s[r.value.space]) && TailAt(s, r.value.space + 1) == Some(r.value.tail)
  {
    if hi == 0 then None
    else if IsSpace(s[hi - 1]) && TailAt(s, hi).Some? then Some(Match(hi - 1, TailAt(s, hi).value))
    else DeclarationSplit(s, hi - 1)
  }

  /** Each argument text parsed, failing with the first that does not parse. */
  function ParseAll(parts: seq<string>, arraySize: int): Result<seq<Variable>, ParseError>
  {
    if |parts| == 0 then Ok([])
    else match ParseVariable(parts[0], arraySize)
      case Err(e) => Err(e)
      case Ok(v) =>
        match ParseAll(parts[1..], arraySize)
        case Err(e) => Err(e)
        case Ok(vs) => Ok([v] + vs)
  }

  /** When every parameter parses, the list parses to those parameters, in order. */
  lemma {:induction false} ParseAllEach(parts: seq<string>, vs: seq<Variable>, arraySize: int)
    requires |vs| == |parts| && forall i :: 0 <= i < |parts| ==> ParseVariable(parts[i], arraySize) == Ok(vs[i])
    ensures ParseAll(parts, arraySize) == Ok(vs)
    decreases |parts|
  {
    if |parts| > 0 {
      ParseAllEach(parts[1..], vs[1..], arraySize);
      assert vs == [vs[0]] + vs[1..];
    }
  }

  /** One parameter that does not parse makes the whole list fail. */
  lemma {:induction false} ParseAllFailsAt(parts: seq<string>, i: nat, arraySize: int)
    requires i < |parts| && ParseVariable(parts[i], arraySize).Err?
    ensures ParseAll(parts, arraySize).Err?
    decreases i
  {
    if i > 0 && ParseVariable(parts[0], arraySize).Ok? {
      ParseAllFailsAt(parts[1..], i - 1, arraySize);
    }
  }

  /** A parsed list holds one parameter per text, each as parsing keeps it. */
  lemma {:induction false} ParseAllFixed(parts: seq<string>, arraySize: int)
    requires ParseAll(parts, arraySize).Ok?
    ensures |ParseAll(parts, arraySize).value| == |parts|
    ensures forall i :: 0 <= i < |parts| ==> ParseAll(parts, arraySize).value[i] == Parsed(ParseAll(parts, arraySize).value[i], arraySize)
    decreases |parts|
  {
    if |parts| > 0 {
      ParseAllFixed(parts[1..], arraySize);
      var v := ParseVariable(parts[0], arraySize).value;
      assert Parsed(v, arraySize) == v;
    }
  }

  /** The arguments of a declaration: none for `()`, else each `, `-separated part parsed. */
  function ArgsOf(argsText: string, arraySize: int): Result<seq<Variable>, ParseError>
  {
    if argsText == "" then Ok([]) else ParseAll(Split(argsText, ", "), arraySize)
  }

  function SignatureFrom(name: string, args: Result<seq<Variable>, ParseError>, ret: Variable): Result<Signature, ParseError>
  {
    match args
    case Err(err) => Err(err)
    case Ok(vs) => Ok(Signature(name, vs, ret))
  }

  /** `Signature.parse`: return type, pointer depth, name and the `, `-separated arguments;
      an empty argument list gives no arguments, and the return variable is `unnamed`. */
  function ParseSignature(line: string, arraySize: int): (r: Result<Signature, ParseError>)
    ensures r.Ok? ==> r.value.ret.name == "unnamed" && r.value.ret.arraySize == UNKNOWN_SIZE
  {
    match DeclarationSplit(line, |line|)
    case None => Err(NoMatch(line))
    case Some(m) => SignatureIn(line, m, arraySize)
  }

  /** The signature at a match: the name between the stars and the '(', the text between
      the parentheses as arguments, and the text before the split point as return type. */
  function SignatureIn(line: string, m: Match, arraySize: int): (r: Result<Signature, ParseError>)
    requires m.space < m.tail.starsEnd <= m.tail.open < m.tail.close <= |line|
  {
    SignatureOf(line[m.tail.starsEnd..m.tail.open], line[m.tail.open + 1..m.tail.close], line[..m.space], Stars(m), arraySize)
  }

  /** The signature with the given name, argument text, return type and pointer depth. */
  function SignatureOf(name: string, argsText: string, typ: string, depth: nat, arraySize: int): (r: Result<Signature, ParseError>)
    ensures r.Ok? ==> r.value.ret.name == "unnamed" && r.value.ret.arraySize == UNKNOWN_SIZE
  {
    SignatureFrom(name, ArgsOf(argsText, arraySize), Variable(typ, "unnamed", depth, UNKNOWN_SIZE, None))
  }

  // ----- printing -----

  /** The parameters as C declarators, separated by `, `. */
  function ArgList(args: seq<Variable>): string
  {
    Join(ArgTexts(args), ", ")
  }

  /** Each parameter as a C declarator. */
  function ArgTexts(args: seq<Variable>): (r: seq<string>)
    ensures |r| == |args| && forall i :: 0 <= i < |args| ==> r[i] == VarStr(args[i])
  {
    seq(|args|, i requires 0 <= i < |args| => VarStr(args[i]))
  }

  /** The declarator line of a function: no space before the name for a pointer return. */
  function Header(f: Function): string
  {
    (if IsPtr(f.ret) then TypeStr(f.ret) + f.name else TypeStr(f.ret) + " " + f.name)
    + "(" + ArgList(f.args) + ")"
  }

  /** `Function.declaration`. */
  function Declaration(f: Function): string
  {
    Header(f) + ";"
  }

  /** Each body line with a tab in front. */
  function Tabbed(lines: seq<string>): (r: seq<string>)
    ensures |r| == |lines| && forall i :: 0 <= i < |lines| ==> r[i] == "\t" + lines[i]
  {
    seq(|lines|, i requires 0 <= i < |lines| => "\t" + lines[i])
  }

  /** `Function.definition`: the header, `{`, the body lines tab-indented, `}`. */
  function Definition(f: Function, body: string): string
  {
    Join([Header(f), "{"] + Tabbed(Split(body, "\n")) + ["}"], "\n")
  }

  /** An argument of a call: one '&' per pointer level beyond the first. */
  function CallArg(a: Variable): string
  {
    Repeat('&', a.ptrDepth - 1) + a.name
  }

  /** Whether a call stores the result: all but a non-pointer `void` return. */
  predicate ReturnsValue(f: Function)
  {
    !(f.ret.typ == "void" && !IsPtr(f.ret))
  }

  /** `Function.call`. */
  function Call(f: Function): string
  {
    (if ReturnsValue(f) then f.ret.name + " = " else "")
    + f.name + "(" + Join(CallArgs(f.args), ", ") + ");"
  }

  /** `Signature.fork`: a function with the given name, the arguments copied and the return
      variable renamed `ret_<name>`. */
  function Fork(sig: Signature, name: string): (f: Function)
    ensures f.name == name && f.args == sig.args && f.body.None?
    ensures VariableEq(f.ret, sig.ret.(name := "ret_" + name))
  {
    Function(name, sig.args, Rename(sig.ret, "ret_" + name), None)
  }

  /** `Signature.__eq__`: names, return variables, and the arguments over the shorter of the
      two lists only. */
  predicate SignatureEq(a: Signature, b: Signature)
  {
    a.name == b.name && VariableEq(a.ret, b.ret)
    && forall i :: 0 <= i < |a.args| && i < |b.args| ==> VariableEq(a.args[i], b.args[i])
  }

  // ----- Signature.parse read back against printing -----

  /** A function name the declaration pattern reads back: no whitespace, no '(' and no
      leading '*'. */
  predicate PlainName(name: string)
  {
    (forall i :: 0 <= i < |name| ==> !IsSpace(name[i]) && name[i] != '(')
    && (|name| > 0 ==> name[0] != '*')
  }

  /** Argument texts the declaration pattern reads back: non-empty, without parentheses
      and commas. */
  predicate PlainParts(parts: seq<string>)
  {
    forall j :: 0 <= j < |parts| ==> parts[j] != "" && '(' !in parts[j] && ')' !in parts[j] && ',' !in parts[j]
  }

  /** A declaration in the layout the generator prints. */
  function DeclarationText(typ: string, depth: nat, name: string, parts: seq<string>): string
  {
    typ + " " + Repeat('*', depth) + name + "(" + Join(parts, ", ") + ");"
  }

  /** Where the parts of a printed declaration sit in its text. */
  predicate Layout(line: string, typ: string, depth: nat, name: string, a: string)
  {
    var st := |typ| + 1 + depth; var q := st + |name|; var e := q + 1 + |a|;
    && |line| == e + 2
    && line[..|typ|] == typ && line[|typ|] == ' '
    && (forall k :: |typ| + 1 <= k < st ==> line[k] == '*')
    && line[st..q] == name && line[q] == '(' && line[q + 1..e] == a
    && line[e] == ')' && line[e + 1] == ';'
  }

  lemma DeclarationLayout(typ: string, depth: nat, name: string, parts: seq<string>)
    ensures Layout(DeclarationText(typ, depth, name, parts), typ, depth, name, Join(parts, ", "))
  {
    var line := DeclarationText(typ, depth, name, parts);
    var stars := Repeat('*', depth);
    var a := Join(parts, ", ");
    var st := |typ| + 1 + depth;
    var q := st + |name|;
    assert line == typ + " " + stars + name + "(" + a + ");";
    forall k | |typ| + 1 <= k < st ensures line[k] == '*' {
      assert line[k] == stars[k - |typ| - 1];
    }
  }

  lemma NoOpenAfter(s: string, from: nat)
    requires from <= |s| && forall j :: from <= j < |s| ==> s[j] != '('
    ensures TailAt(s, from).None?
  {
  }

  lemma DeclarationSplitIs(s: string, hi: nat, p: nat)
    requires p < hi <= |s| && IsSpace(s[p]) && TailAt(s, p + 1).Some?
    requires forall k :: p < k < hi && IsSpace(s[k]) ==> TailAt(s, k + 1).None?
    ensures DeclarationSplit(s, hi) == Some(Match(p, TailAt(s, p + 1).value))
    decreases hi
  {
    if hi - 1 > p {
      DeclarationSplitIs(s, hi - 1, p);
    }
  }

  lemma TailAtIs(s: string, from: nat, st: nat, q: nat, e: nat)
    requires from <= st <= q < e && e + 1 < |s|
    requires (forall k :: from <= k < st ==> s[k] == '*') && s[st] != '*'
    requires (forall k :: st <= k < q ==> s[k] != '(') && s[q] == '('
    requires (forall k :: q < k < e ==> s[k] != ')') && s[e] == ')' && s[e + 1] == ';'
    ensures TailAt(s, from) == Some(Tail(st, q, e))
  {
    StarEndIs(s, from, st);
    FirstFromIs(s, st, '(', q);
    FirstFromIs(s, q + 1, ')', e);
  }

  /** The tail of the pattern matches right after the space that ends the return type. */
  lemma TailOfDeclaration(line: string, typ: string, depth: nat, name: string, a: string)
    requires Layout(line, typ, depth, name, a) && PlainName(name) && ')' !in a
    ensures TailAt(line, |typ| + 1) == Some(Tail(|typ| + 1 + depth, |typ| + 1 + depth + |name|,
                                             |typ| + 1 + depth + |name| + 1 + |a|))
  {
    var st := |typ| + 1 + depth;
    var q := st + |name|;
    var e := q + 1 + |a|;
    assert line[st] != '*' by { if |name| > 0 { assert line[st] == line[st..q][0]; } }
    forall k | st <= k < q ensures line[k] != '(' {
      assert line[k] == line[st..q][k - st];
    }
    forall k | q < k < e ensures line[k] != ')' {
      assert line[k] == line[q + 1..e][k - q - 1];
    }
    TailAtIs(line, |typ| + 1, st, q, e);
  }

  /** No later whitespace lets the tail of the pattern match. */
  lemma OnlyTypeSpaceSplits(line: string, typ: string, depth: nat, name: string, a: string)
    requires Layout(line, typ, depth, name, a) && PlainName(name) && '(' !in a
    ensures forall k :: |typ| < k < |line| && IsSpace(line[k]) ==> TailAt(line, k + 1).None?
  {
    var st := |typ| + 1 + depth;
    var q := st + |name|;
    var e := q + 1 + |a|;
    forall k | st <= k < q ensures !IsSpace(line[k]) {
      assert line[k] == line[st..q][k - st];
    }
    forall k | |typ| < k < |line| && IsSpace(line[k]) ensures TailAt(line, k + 1).None? {
      assert q < k < e;
      forall j | k + 1 <= j < |line| ensures line[j] != '(' {
        if j < e { assert line[j] == line[q + 1..e][j - q - 1]; }
      }
      NoOpenAfter(line, k + 1);
    }
  }

  lemma ParseAtLayout(line: string, typ: string, depth: nat, name: string, a: string, arraySize: int)
    requires Layout(line, typ, depth, name, a) && PlainName(name) && '(' !in a && ')' !in a
    ensures ParseSignature(line, arraySize) == SignatureOf(name, a, typ, depth, arraySize)
  {
    DeclarationPositions(line, typ, depth, name, a);
    ParseSignatureParts(line, typ, depth, name, a, arraySize);
  }

  /** In the printed layout, the pattern splits at the space after the return type. */
  lemma DeclarationPositions(line: string, typ: string, depth: nat, name: string, a: string)
    requires Layout(line, typ, depth, name, a) && PlainName(name) && '(' !in a && ')' !in a
    ensures Positions(line, typ, depth, name, a) && Pieces(line, typ, depth, name, a)
  {
    TailOfDeclaration(line, typ, depth, name, a);
    OnlyTypeSpaceSplits(line, typ, depth, name, a);
    DeclarationSplitIs(line, |line|, |typ|);
  }

  /** Where the pattern splits a declaration in the printed layout. */
  predicate Positions(line: string, typ: string, depth: nat, name: string, a: string)
  {
    var st := |typ| + 1 + depth; var q := st + |name|;
    && |line| == q + 1 + |a| + 2
    && DeclarationSplit(line, |line|) == Some(Match(|typ|, Tail(st, q, q + 1 + |a|)))
  }

  /** What the pattern finds at those positions. */
  predicate Pieces(line: string, typ: string, depth: nat, name: string, a: string)
  {
    var st := |typ| + 1 + depth; var q := st + |name|;
    && |line| == q + 1 + |a| + 2
    && line[..|typ|] == typ && line[st..q] == name && line[q + 1..q + 1 + |a|] == a
  }

  lemma ParseSignatureParts(line: string, typ: string, depth: nat, name: string, a: string, arraySize: int)
    requires Positions(line, typ, depth, name, a) && Pieces(line, typ, depth, name, a)
    ensures ParseSignature(line, arraySize) == SignatureOf(name, a, typ, depth, arraySize)
  {
    var m := DeclarationSplit(line, |line|).value;
    ParseSignatureUnfold(line, arraySize);
    MatchPieces(line, typ, depth, name, a, m);
    SignatureInParts(line, m, name, a, typ, depth, arraySize);
  }

  /** The signature at a match whose slices are known. */
  lemma SignatureInParts(line: string, m: Match, name: string, a: string, typ: string, depth: nat, arraySize: int)
    requires m.space < m.tail.starsEnd <= m.tail.open < m.tail.close <= |line|
    requires line[m.tail.starsEnd..m.tail.open] == name && line[m.tail.open + 1..m.tail.close] == a
    requires line[..m.space] == typ && Stars(m) == depth
    ensures SignatureIn(line, m, arraySize) == SignatureOf(name, a, typ, depth, arraySize)
  {
  }

  /** The slices between the positions of a match in the printed layout are its parts. */
  lemma MatchPieces(line: string, typ: string, depth: nat, name: string, a: string, m: Match)
    requires Pieces(line, typ, depth, name, a)
    requires var st := |typ| + 1 + depth; var q := st + |name|; m == Match(|typ|, Tail(st, q, q + 1 + |a|))
    ensures m.space < m.tail.starsEnd <= m.tail.open < m.tail.close <= |line|
    ensures line[m.tail.starsEnd..m.tail.open] == name && line[m.tail.open + 1..m.tail.close] == a
    ensures line[..m.space] == typ && Stars(m) == depth
  {
  }

  /** Parsing a declaration, once its split point is known. */
  lemma ParseSignatureUnfold(line: string, arraySize: int)
    requires DeclarationSplit(line, |line|).Some?
    ensures ParseSignature(line, arraySize) == SignatureIn(line, DeclarationSplit(line, |line|).value, arraySize)
  {
  }

  /** A successful signature carries the successfully parsed argument text. */
  lemma SignatureInOk(line: string, m: Match, arraySize: int)
    requires m.space < m.tail.starsEnd <= m.tail.open < m.tail.close <= |line|
    requires SignatureIn(line, m, arraySize).Ok?
    ensures ArgsOf(line[m.tail.open + 1..m.tail.close], arraySize).Ok?
    ensures SignatureIn(line, m, arraySize).value.args == ArgsOf(line[m.tail.open + 1..m.tail.close], arraySize).value
  {
  }

  /** Parsing a declaration in the printed layout recovers its parts: return type, pointer
      depth, name, and the arguments parsed one by one. */
  lemma ParseDeclarationText(typ: string, depth: nat, name: string, parts: seq<string>, arraySize: int)
    requires PlainName(name) && PlainParts(parts)
    ensures ParseSignature(DeclarationText(typ, depth, name, parts), arraySize)
         == SignatureFrom(name, ParseAll(parts, arraySize), Variable(typ, "unnamed", depth, UNKNOWN_SIZE, None))
  {
    var a := Join(parts, ", ");
    DeclarationLayout(typ, depth, name, parts);
    JoinWithout(parts, ", ", '(');
    JoinWithout(parts, ", ", ')');
    ParseAtLayout(DeclarationText(typ, depth, name, parts), typ, depth, name, a, arraySize);
    if |parts| == 0 {
      assert a == "";
    } else {
      JoinNonEmpty(parts, ", ");
      SplitJoin(parts, ", ");
    }
  }

  // ----- Function.declaration read back -----

  /** A parameter whose declarator survives the declaration pattern: well formed, with no
      `const ` for parsing to drop and no parenthesis or comma. */
  predicate PrintableArg(v: Variable)
  {
    WellFormedVariable(v) && !StartsWith(v.typ + " ", "const ")
    && '(' !in v.typ && ')' !in v.typ && ',' !in v.typ
    && '(' !in v.name && ')' !in v.name && ',' !in v.name
  }

  /** What parsing keeps of each parameter. */
  function ParsedArgs(args: seq<Variable>, arraySize: int): (r: seq<Variable>)
    ensures |r| == |args| && forall i :: 0 <= i < |args| ==> r[i] == Parsed(args[i], arraySize)
  {
    seq(|args|, i requires 0 <= i < |args| => Parsed(args[i], arraySize))
  }

  lemma VarStrLayout(v: Variable)
    ensures VarStr(v) == v.typ + " " + Repeat('*', v.ptrDepth) + v.name
  {
    if v.ptrDepth == 0 {
      assert Repeat('*', 0) == "";
    }
  }

  lemma PrintedArgsPlain(args: seq<Variable>)
    requires forall i :: 0 <= i < |args| ==> PrintableArg(args[i])
    ensures PlainParts(ArgTexts(args))
  {
    forall j | 0 <= j < |args|
      ensures VarStr(args[j]) != "" && '(' !in VarStr(args[j]) && ')' !in VarStr(args[j]) && ',' !in VarStr(args[j])
    {
      VarStrLayout(args[j]);
    }
  }

  /** The printed parameters parse back one by one. */
  lemma ParseAllPrinted(args: seq<Variable>, arraySize: int)
    requires forall i :: 0 <= i < |args| ==> PrintableArg(args[i])
    ensures ParseAll(ArgTexts(args), arraySize) == Ok(ParsedArgs(args, arraySize))
  {
    var parts := ArgTexts(args);
    forall i | 0 <= i < |parts| ensures ParseVariable(parts[i], arraySize) == Ok(Parsed(args[i], arraySize)) {
      ParseVariablePrinted(args[i], arraySize);
    }
    ParseAllEach(parts, ParsedArgs(args, arraySize), arraySize);
  }

  lemma DeclarationIsText(f: Function)
    ensures Declaration(f) == DeclarationText(f.ret.typ, f.ret.ptrDepth, f.name, ArgTexts(f.args))
  {
    var stars := Repeat('*', f.ret.ptrDepth);
    if f.ret.ptrDepth == 0 {
      assert stars == "";
    }
    assert Declaration(f) == f.ret.typ + " " + stars + f.name + "(" + ArgList(f.args) + ")" + ";";
  }

  /** Reading back a printed declaration: the name, the return type and depth, and every
      parameter as parsing keeps it; the return variable is `unnamed`. */
  lemma ParseDeclaration(f: Function, arraySize: int)
    requires PlainName(f.name) && forall i :: 0 <= i < |f.args| ==> PrintableArg(f.args[i])
    ensures ParseSignature(Declaration(f), arraySize)
         == Ok(Signature(f.name, ParsedArgs(f.args, arraySize),
                         Variable(f.ret.typ, "unnamed", f.ret.ptrDepth, UNKNOWN_SIZE, None)))
  {
    DeclarationIsText(f);
    PrintedArgsPlain(f.args);
    ParseDeclarationText(f.ret.typ, f.ret.ptrDepth, f.name, ArgTexts(f.args), arraySize);
    ParseAllPrinted(f.args, arraySize);
  }

  /** A parsed signature forked under a new name declares itself: parsing the declaration
      gives the same signature with the new name. */
  lemma ForkDeclarationRoundTrip(line: string, name: string, arraySize: int)
    requires ParseSignature(line, arraySize).Ok?
    requires PlainName(name)
    requires forall i :: 0 <= i < |ParseSignature(line, arraySize).value.args| ==>
               PrintableArg(ParseSignature(line, arraySize).value.args[i])
    ensures ParseSignature(Declaration(Fork(ParseSignature(line, arraySize).value, name)), arraySize)
         == Ok(ParseSignature(line, arraySize).value.(name := name))
  {
    var sig := ParseSignature(line, arraySize).value;
    var f := Fork(sig, name);
    ParseDeclaration(f, arraySize);
    ParsedArgsAreFixed(line, arraySize);
    assert ParsedArgs(f.args, arraySize) == sig.args;
  }

  /** Parameters that came from parsing are left as they are by parsing again. */
  lemma ParsedArgsAreFixed(line: string, arraySize: int)
    requires ParseSignature(line, arraySize).Ok?
    ensures var args := ParseSignature(line, arraySize).value.args;
            ParsedArgs(args, arraySize) == args
  {
    var m := DeclarationSplit(line, |line|).value;
    ParseSignatureUnfold(line, arraySize);
    SignatureInOk(line, m, arraySize);
    ArgsOfFixed(line[m.tail.open + 1..m.tail.close], arraySize);
  }

  /** Arguments that came from parsing are left as they are by parsing again. */
  lemma ArgsOfFixed(x: string, arraySize: int)
    requires ArgsOf(x, arraySize).Ok?
    ensures ParsedArgs(ArgsOf(x, arraySize).value, arraySize) == ArgsOf(x, arraySize).value
  {
    if x != "" {
      ParseAllFixed(Split(x, ", "), arraySize);
    }
  }

  // ----- equality -----

  lemma VariableEqIsEquivalence(a: Variable, b: Variable, c: Variable)
    ensures VariableEq(a, a)
    ensures VariableEq(a, b) ==> VariableEq(b, a)
    ensures VariableEq(a, b) && VariableEq(b, c) ==> VariableEq(a, c)
  {
  }

  /** The value of a variable takes no part in its equality. */
  lemma VariableEqIgnoresValue(v: Variable, value: Option<string>)
    ensures VariableEq(v, v.(value := value))
  {
  }

  /** Arguments beyond the shorter list are not compared: appending parameters to a
      signature leaves it equal to the original. */
  lemma SignatureEqIgnoresExtraArgs(sig: Signature, extra: seq<Variable>)
    ensures SignatureEq(sig, sig.(args := sig.args + extra))
    ensures SignatureEq(sig.(args := sig.args + extra), sig)
  {
    var longer := sig.args + extra;
    assert forall i :: 0 <= i < |sig.args| ==> longer[i] == sig.args[i];
  }

  /** Because of that, signature equality is not transitive. */
  lemma SignatureEqNotTransitive()
    ensures var ret := Variable("void", "unnamed", 0, UNKNOWN_SIZE, None);
            var x := Variable("int", "x", 0, UNKNOWN_SIZE, None);
            var y := Variable("char", "y", 0, UNKNOWN_SIZE, None);
            SignatureEq(Signature("foo", [x], ret), Signature("foo", [], ret))
            && SignatureEq(Signature("foo", [], ret), Signature("foo", [y], ret))
            && !SignatureEq(Signature("foo", [x], ret), Signature("foo", [y], ret))
  {
    var ret := Variable("void", "unnamed", 0, UNKNOWN_SIZE, None);
    var x := Variable("int", "x", 0, UNKNOWN_SIZE, None);
    var y := Variable("char", "y", 0, UNKNOWN_SIZE, None);
    assert !VariableEq(x, y);
    assert [x][0] == x && [y][0] == y;
  }

  // ----- Function.definition and Function.call -----

  /** The definition splits into the header line, `{`, each body line behind a tab, and `}`. */
  lemma DefinitionLines(f: Function, body: string)
    requires '\n' !in Header(f)
    ensures Split(Definition(f, body), "\n") == [Header(f), "{"] + Tabbed(Split(body, "\n")) + ["}"]
  {
    var lines := [Header(f), "{"] + Tabbed(Split(body, "\n")) + ["}"];
    forall k | 0 <= k < |lines| ensures '\n' !in lines[k] {
      if 2 <= k < |lines| - 1 {
        SplitPieceNoSep(body, k - 2, '\n');
        assert lines[k] == "\t" + Split(body, "\n")[k - 2];
      }
    }
    SplitJoin(lines, "\n");
  }

  /** The arguments of a call, in order. */
  function CallArgs(args: seq<Variable>): (r: seq<string>)
    ensures |r| == |args| && forall i :: 0 <= i < |args| ==> r[i] == CallArg(args[i])
  {
    seq(|args|, i requires 0 <= i < |args| => CallArg(args[i]))
  }

  /** A call argument is the name behind one '&' per pointer level beyond the first: none
      for plain variables and single pointers. */
  lemma CallArgAmpersands(a: Variable)
    ensures a.ptrDepth <= 1 ==> CallArg(a) == a.name
    ensures EndsWith(CallArg(a), a.name)
    ensures |CallArg(a)| - |a.name| == if a.ptrDepth == 0 then 0 else a.ptrDepth - 1
    ensures forall i :: 0 <= i < |CallArg(a)| - |a.name| ==> CallArg(a)[i] == '&'
  {
    assert CallArg(a)[|CallArg(a)| - |a.name|..] == a.name;
  }

  // ----- the in-file examples -----

  /** Variables as the examples parse them. */
  lemma ParseExamplePlain(arraySize: int)
    ensures ParseVariable("void x", arraySize) == Ok(Variable("void", "x", 0, UNKNOWN_SIZE, None))
  {
    ParsesAs(Variable("void", "x", 0, UNKNOWN_SIZE, None), "void x", arraySize);
  }

  lemma ParseExampleTwoWordType(arraySize: int)
    ensures ParseVariable("unsigned int x", arraySize) == Ok(Variable("unsigned int", "x", 0, UNKNOWN_SIZE, None))
  {
    ParsesAs(Variable("unsigned int", "x", 0, UNKNOWN_SIZE, None), "unsigned int x", arraySize);
  }

  lemma ParseExamplePointer(arraySize: int)
    ensures ParseVariable("struct foo *bar", arraySize) == Ok(Variable("struct foo", "bar", 1, arraySize, None))
  {
    ParsesAs(Variable("struct foo", "bar", 1, arraySize, None), "struct foo *bar", arraySize);
  }

  lemma ParseExampleSevenStars(arraySize: int)
    ensures ParseVariable("int *******x", arraySize) == Ok(Variable("int", "x", 7, arraySize, None))
  {
    assert Repeat('*', 7) == "*******";
    ParsesAs(Variable("int", "x", 7, arraySize, None), "int *******x", arraySize);
  }

  lemma ParsesAs(v: Variable, line: string, arraySize: int)
    requires |v.typ| > 0 && v.typ[0] != 'c' && forall i :: 0 <= i < |v.typ| ==> v.typ[i] != '\n'
    requires |v.name| > 0 && forall i :: 0 <= i < |v.name| ==> 'a' <= v.name[i] <= 'z'
    requires v == Parsed(v, arraySize) && line == v.typ + " " + Repeat('*', v.ptrDepth) + v.name
    ensures ParseVariable(line, arraySize) == Ok(v)
  {
    assert (v.typ + " ")[0] != "const "[0];
    VarStrLayout(v);
    ParseVariablePrinted(v, arraySize);
  }

  /** Variables as the examples print them. */
  lemma VariablePrintExamples()
    ensures TypeStr(Variable("void", "foo_bar", 0, UNKNOWN_SIZE, None)) == "void"
    ensures VarStr(Variable("void", "foo_bar", 0, UNKNOWN_SIZE, None)) == "void foo_bar"
    ensures TypeStr(Variable("void", "foo_bar", 2, UNKNOWN_SIZE, None)) == "void **"
    ensures VarStr(Variable("void", "foo_bar", 2, UNKNOWN_SIZE, None)) == "void **foo_bar"
  {
    assert Repeat('*', 2) == "**";
  }

  /** Declarations as the examples parse them. */
  lemma SignatureExampleNoArgs()
    ensures ParseSignature("void foo();", UNKNOWN_SIZE)
         == Ok(Signature("foo", [], Variable("void", "unnamed", 0, UNKNOWN_SIZE, None)))
  {
    var f := Function("foo", [], Variable("void", "unnamed", 0, UNKNOWN_SIZE, None), None);
    assert Declaration(f) == "void foo();";
    ParseDeclaration(f, UNKNOWN_SIZE);
  }

  /** The memcpy example: parsing drops the `const` of the source argument, so the forked
      declaration prints it without. */
  lemma MemcpyConstDropped(arraySize: int)
    ensures ParseVariable("const void *src", arraySize) == Ok(Variable("void", "src", 1, arraySize, None))
    ensures VarStr(Variable("void", "src", 1, arraySize, None)) == "void *src"
  {
    var src := Variable("void", "src", 1, arraySize, None);
    assert "const " + VarStr(src) == "const void *src";
    ParseVariableDropsConst(src, arraySize);
  }
}
