/** The in-file tests of sputnik/language.py that parse whole declarations: the five cases of
    `Signature.parse` and the three forked functions, each read from the test's own text.
    Every example is proved in two halves, the text of the declaration as the printer lays it
    out and the parse of that layout, so that no proof has to take a long literal apart. */
module LanguageExamples {
  import opened Wrappers
  import opened Text
  import opened Language

  // ----- generic steps -----

  /** A declaration laid out as a head up to '(', the argument text and `);`. */
  lemma TextOf(typ: string, depth: nat, name: string, parts: seq<string>, head: string, a: string, line: string)
    requires head == typ + " " + Repeat('*', depth) + name + "("
    requires a == Join(parts, ", ")
    requires line == head + a + ");"
    ensures DeclarationText(typ, depth, name, parts) == line
  {
  }

  /** A declaration in the printed layout whose parameter texts parse to `vs` parses to the
      signature with those parameters and an `unnamed` return. */
  lemma ParsesAsSignature(typ: string, depth: nat, name: string, parts: seq<string>, vs: seq<Variable>, arraySize: int)
    requires PlainName(name) && PlainParts(parts)
    requires |vs| == |parts| && forall i :: 0 <= i < |parts| ==> ParseVariable(parts[i], arraySize) == Ok(vs[i])
    ensures ParseSignature(DeclarationText(typ, depth, name, parts), arraySize)
         == Ok(Signature(name, vs, Variable(typ, "unnamed", depth, UNKNOWN_SIZE, None)))
  {
    ParseDeclarationText(typ, depth, name, parts, arraySize);
    ParseAllEach(parts, vs, arraySize);
  }

  /** The same for one, two and three parameters, each parameter's parse given on its own. */
  lemma ParsesWithOne(typ: string, depth: nat, name: string, p: string, v: Variable, arraySize: int)
    requires PlainName(name) && PlainParts([p])
    requires ParseVariable(p, arraySize) == Ok(v)
    ensures ParseSignature(DeclarationText(typ, depth, name, [p]), arraySize)
         == Ok(Signature(name, [v], Variable(typ, "unnamed", depth, UNKNOWN_SIZE, None)))
  {
    ParsesAsSignature(typ, depth, name, [p], [v], arraySize);
  }

  lemma ParsesWithTwo(typ: string, depth: nat, name: string, p: string, q: string, v: Variable, w: Variable, arraySize: int)
    requires PlainName(name) && PlainParts([p, q])
    requires ParseVariable(p, arraySize) == Ok(v) && ParseVariable(q, arraySize) == Ok(w)
    ensures ParseSignature(DeclarationText(typ, depth, name, [p, q]), arraySize)
         == Ok(Signature(name, [v, w], Variable(typ, "unnamed", depth, UNKNOWN_SIZE, None)))
  {
    ParsesAsSignature(typ, depth, name, [p, q], [v, w], arraySize);
  }

  lemma ParsesWithThree(typ: string, depth: nat, name: string, p: string, q: string, r: string,
                        u: Variable, v: Variable, w: Variable, arraySize: int)
    requires PlainName(name) && PlainParts([p, q, r])
    requires ParseVariable(p, arraySize) == Ok(u) && ParseVariable(q, arraySize) == Ok(v)
    requires ParseVariable(r, arraySize) == Ok(w)
    ensures ParseSignature(DeclarationText(typ, depth, name, [p, q, r]), arraySize)
         == Ok(Signature(name, [u, v, w], Variable(typ, "unnamed", depth, UNKNOWN_SIZE, None)))
  {
    ParsesAsSignature(typ, depth, name, [p, q, r], [u, v, w], arraySize);
  }

  /** Joining two or three texts. */
  lemma JoinTwo(a: string, b: string, sep: string)
    ensures Join([a, b], sep) == a + sep + b
  {
    assert [a, b][1..] == [b];
  }

  lemma JoinThree(a: string, b: string, c: string, sep: string)
    ensures Join([a, b, c], sep) == a + sep + b + sep + c
  {
    assert [a, b, c][1..] == [b, c];
    JoinTwo(b, c, sep);
  }

  /** A call laid out as the return variable, ` = `, the name and the argument text. */
  lemma CallOf(f: Function, a: string, line: string)
    requires ReturnsValue(f)
    requires a == Join(CallArgs(f.args), ", ")
    requires line == f.ret.name + " = " + f.name + "(" + a + ");"
    ensures Call(f) == line
  {
  }

  // ----- the parameters `int x, unsigned int **y` -----

  lemma ParamX(arraySize: int)
    ensures ParseVariable("int x", arraySize) == Ok(Variable("int", "x", 0, UNKNOWN_SIZE, None))
  {
    ParsesAs(Variable("int", "x", 0, UNKNOWN_SIZE, None), "int x", arraySize);
  }

  lemma ParamY(arraySize: int)
    ensures ParseVariable("unsigned int **y", arraySize) == Ok(Variable("unsigned int", "y", 2, arraySize, None))
  {
    assert Repeat('*', 2) == "**";
    ParsesAs(Variable("unsigned int", "y", 2, arraySize, None), "unsigned int **y", arraySize);
  }

  lemma JoinXY()
    ensures Join(["int x", "unsigned int **y"], ", ") == "int x, unsigned int **y"
  {
  }

  /** Any plain return type, depth and name around `int x, unsigned int **y` parses. */
  lemma ParsesWithXY(typ: string, depth: nat, name: string, arraySize: int)
    requires PlainName(name)
    ensures ParseSignature(DeclarationText(typ, depth, name, ["int x", "unsigned int **y"]), arraySize)
         == Ok(Signature(name, [Variable("int", "x", 0, UNKNOWN_SIZE, None), Variable("unsigned int", "y", 2, arraySize, None)],
                         Variable(typ, "unnamed", depth, UNKNOWN_SIZE, None)))
  {
    PlainXY();
    ParamX(arraySize);
    ParamY(arraySize);
    ParsesWithTwo(typ, depth, name, "int x", "unsigned int **y",
                  Variable("int", "x", 0, UNKNOWN_SIZE, None), Variable("unsigned int", "y", 2, arraySize, None), arraySize);
  }

  lemma PlainXY()
    ensures PlainParts(["int x", "unsigned int **y"])
  {
  }

  // ----- Variable, sputnik/language.py:251-264 -----

  /** A depth-0 variable is no pointer, a depth-2 one is, and renaming changes only the name. */
  lemma VariableExamples()
    ensures !IsPtr(Variable("void", "x", 0, UNKNOWN_SIZE, None))
    ensures IsPtr(Variable("void", "foo_bar", 2, UNKNOWN_SIZE, None))
    ensures Rename(Variable("void", "foo_bar", 2, UNKNOWN_SIZE, None), "bar") == Variable("void", "bar", 2, UNKNOWN_SIZE, None)
  {
  }

  // ----- Signature.parse, sputnik/language.py:284-313 -----

  /** `void foo(int x);`, under any default array size (the tests use -1). */
  lemma SignatureExampleOneArg(arraySize: int)
    ensures ParseSignature("void foo(int x);", arraySize)
         == Ok(Signature("foo", [Variable("int", "x", 0, UNKNOWN_SIZE, None)],
                         Variable("void", "unnamed", 0, UNKNOWN_SIZE, None)))
  {
    OneArgText();
    OneArgParses(arraySize);
  }

  lemma OneArgText()
    ensures DeclarationText("void", 0, "foo", ["int x"]) == "void foo(int x);"
  {
    assert Repeat('*', 0) == "";
  }

  lemma OneArgParses(arraySize: int)
    ensures ParseSignature(DeclarationText("void", 0, "foo", ["int x"]), arraySize)
         == Ok(Signature("foo", [Variable("int", "x", 0, UNKNOWN_SIZE, None)],
                         Variable("void", "unnamed", 0, UNKNOWN_SIZE, None)))
  {
    assert PlainName("foo") && PlainParts(["int x"]);
    ParamX(arraySize);
    ParsesWithOne("void", 0, "foo", "int x", Variable("int", "x", 0, UNKNOWN_SIZE, None), arraySize);
  }

  /** `void foo(int x, unsigned int **y);` */
  lemma SignatureExampleTwoArgs(arraySize: int)
    ensures ParseSignature("void foo(int x, unsigned int **y);", arraySize)
         == Ok(Signature("foo", [Variable("int", "x", 0, UNKNOWN_SIZE, None), Variable("unsigned int", "y", 2, arraySize, None)],
                         Variable("void", "unnamed", 0, UNKNOWN_SIZE, None)))
  {
    TwoArgsText();
    assert PlainName("foo");
    ParsesWithXY("void", 0, "foo", arraySize);
  }

  lemma TwoArgsText()
    ensures DeclarationText("void", 0, "foo", ["int x", "unsigned int **y"]) == "void foo(int x, unsigned int **y);"
  {
    assert "void foo(int x, unsigned int **y);" == "void foo(" + "int x, unsigned int **y" + ");";
    assert "void foo(" == "void" + " " + Repeat('*', 0) + "foo" + "(";
    JoinXY();
    TextOf("void", 0, "foo", ["int x", "unsigned int **y"], "void foo(", "int x, unsigned int **y", "void foo(int x, unsigned int **y);");
  }

  /** `unsigned long int _foo_bar(int x, unsigned int **y);`: a return type of three words. */
  lemma SignatureExampleLongReturn(arraySize: int)
    ensures ParseSignature("unsigned long int _foo_bar(int x, unsigned int **y);", arraySize)
         == Ok(Signature("_foo_bar", [Variable("int", "x", 0, UNKNOWN_SIZE, None), Variable("unsigned int", "y", 2, arraySize, None)],
                         Variable("unsigned long int", "unnamed", 0, UNKNOWN_SIZE, None)))
  {
    LongReturnText();
    PlainFooBar();
    ParsesWithXY("unsigned long int", 0, "_foo_bar", arraySize);
  }

  lemma PlainFooBar()
    ensures PlainName("_foo_bar")
  {
  }

  lemma LongReturnText()
    ensures DeclarationText("unsigned long int", 0, "_foo_bar", ["int x", "unsigned int **y"])
         == "unsigned long int _foo_bar(int x, unsigned int **y);"
  {
    LongReturnSplit();
    assert "unsigned long int _foo_bar(" == "unsigned long int" + " " + Repeat('*', 0) + "_foo_bar" + "(";
    JoinXY();
    TextOf("unsigned long int", 0, "_foo_bar", ["int x", "unsigned int **y"], "unsigned long int _foo_bar(",
           "int x, unsigned int **y", "unsigned long int _foo_bar(int x, unsigned int **y);");
  }

  lemma LongReturnSplit()
    ensures "unsigned long int _foo_bar(int x, unsigned int **y);"
         == "unsigned long int _foo_bar(" + "int x, unsigned int **y" + ");"
  {
  }

  /** `unsigned long int ****_foo_bar(int x, unsigned int **y);`: return depth 4. */
  lemma SignatureExampleFourStars(arraySize: int)
    ensures ParseSignature("unsigned long int ****_foo_bar(int x, unsigned int **y);", arraySize)
         == Ok(Signature("_foo_bar", [Variable("int", "x", 0, UNKNOWN_SIZE, None), Variable("unsigned int", "y", 2, arraySize, None)],
                         Variable("unsigned long int", "unnamed", 4, UNKNOWN_SIZE, None)))
  {
    FourStarsText();
    PlainFooBar();
    ParsesWithXY("unsigned long int", 4, "_foo_bar", arraySize);
  }

  lemma FourStarsText()
    ensures DeclarationText("unsigned long int", 4, "_foo_bar", ["int x", "unsigned int **y"])
         == "unsigned long int ****_foo_bar(int x, unsigned int **y);"
  {
    FourStarsSplit();
    FourStarsHead();
    JoinXY();
    TextOf("unsigned long int", 4, "_foo_bar", ["int x", "unsigned int **y"], "unsigned long int ****_foo_bar(",
           "int x, unsigned int **y", "unsigned long int ****_foo_bar(int x, unsigned int **y);");
  }

  lemma FourStarsSplit()
    ensures "unsigned long int ****_foo_bar(int x, unsigned int **y);"
         == "unsigned long int ****_foo_bar(" + "int x, unsigned int **y" + ");"
  {
  }

  lemma FourStarsHead()
    ensures "unsigned long int ****_foo_bar(" == "unsigned long int" + " " + Repeat('*', 4) + "_foo_bar" + "("
  {
    assert Repeat('*', 4) == "****";
  }

  // ----- Signature.fork and Function.declaration/call, sputnik/language.py:315-326 -----

  /** `int isdigit(int c);` forked under its own name declares and calls as the test expects. */
  lemma ForkExampleIsdigit(arraySize: int)
    ensures ParseSignature("int isdigit(int c);", arraySize).Ok?
    ensures var f := Fork(ParseSignature("int isdigit(int c);", arraySize).value, "isdigit");
            Declaration(f) == "int isdigit(int c);" && Call(f) == "ret_isdigit = isdigit(c);"
  {
    IsdigitParses(arraySize);
    IsdigitPrints();
  }

  lemma IsdigitParses(arraySize: int)
    ensures ParseSignature("int isdigit(int c);", arraySize)
         == Ok(Signature("isdigit", [Variable("int", "c", 0, UNKNOWN_SIZE, None)], Variable("int", "unnamed", 0, UNKNOWN_SIZE, None)))
  {
    IsdigitText();
    assert PlainName("isdigit") && PlainParts(["int c"]);
    ParamC(arraySize);
    ParsesWithOne("int", 0, "isdigit", "int c", Variable("int", "c", 0, UNKNOWN_SIZE, None), arraySize);
  }

  lemma IsdigitText()
    ensures DeclarationText("int", 0, "isdigit", ["int c"]) == "int isdigit(int c);"
  {
    assert Repeat('*', 0) == "";
  }

  lemma ParamC(arraySize: int)
    ensures ParseVariable("int c", arraySize) == Ok(Variable("int", "c", 0, UNKNOWN_SIZE, None))
  {
    ParsesAs(Variable("int", "c", 0, UNKNOWN_SIZE, None), "int c", arraySize);
  }

  lemma IsdigitPrints()
    ensures var f := Fork(Signature("isdigit", [Variable("int", "c", 0, UNKNOWN_SIZE, None)],
                                    Variable("int", "unnamed", 0, UNKNOWN_SIZE, None)), "isdigit");
            Declaration(f) == "int isdigit(int c);" && Call(f) == "ret_isdigit = isdigit(c);"
  {
    assert Repeat('&', -1) == "" && Repeat('&', 0) == "";
  }

  /** `unsigned int ***bar(size_t *x);` forked as `foo`. */
  lemma ForkExamplePointer(arraySize: int)
    ensures ParseSignature("unsigned int ***bar(size_t *x);", arraySize).Ok?
    ensures var f := Fork(ParseSignature("unsigned int ***bar(size_t *x);", arraySize).value, "foo");
            Declaration(f) == "unsigned int ***foo(size_t *x);" && Call(f) == "ret_foo = foo(x);"
  {
    PointerParses(arraySize);
    PointerPrints(arraySize);
  }

  lemma PointerParses(arraySize: int)
    ensures ParseSignature("unsigned int ***bar(size_t *x);", arraySize)
         == Ok(Signature("bar", [Variable("size_t", "x", 1, arraySize, None)], Variable("unsigned int", "unnamed", 3, UNKNOWN_SIZE, None)))
  {
    PointerText();
    assert PlainName("bar") && PlainParts(["size_t *x"]);
    ParamPointerX(arraySize);
    ParsesWithOne("unsigned int", 3, "bar", "size_t *x", Variable("size_t", "x", 1, arraySize, None), arraySize);
  }

  lemma ParamPointerX(arraySize: int)
    ensures ParseVariable("size_t *x", arraySize) == Ok(Variable("size_t", "x", 1, arraySize, None))
  {
    assert Repeat('*', 1) == "*";
    ParsesAs(Variable("size_t", "x", 1, arraySize, None), "size_t *x", arraySize);
  }

  lemma PointerText()
    ensures DeclarationText("unsigned int", 3, "bar", ["size_t *x"]) == "unsigned int ***bar(size_t *x);"
  {
    assert Repeat('*', 3) == "***";
  }

  lemma PointerPrints(arraySize: int)
    ensures var f := Fork(Signature("bar", [Variable("size_t", "x", 1, arraySize, None)],
                                    Variable("unsigned int", "unnamed", 3, UNKNOWN_SIZE, None)), "foo");
            Declaration(f) == "unsigned int ***foo(size_t *x);" && Call(f) == "ret_foo = foo(x);"
  {
    assert Repeat('*', 1) == "*" && Repeat('*', 3) == "***";
    assert Repeat('&', 0) == "";
  }

  /** `void *memcpy(void *dest, const void *src, size_t n);` forked as `foo`: the `const` of
      `src` is gone from the declaration, and the pointers are passed without `&`. */
  lemma ForkExampleMemcpy(arraySize: int)
    ensures ParseSignature("void *memcpy(void *dest, const void *src, size_t n);", arraySize).Ok?
    ensures var f := Fork(ParseSignature("void *memcpy(void *dest, const void *src, size_t n);", arraySize).value, "foo");
            Declaration(f) == "void *foo(void *dest, void *src, size_t n);" && Call(f) == "ret_foo = foo(dest, src, n);"
  {
    MemcpyParses(arraySize);
    MemcpyDeclares(arraySize);
    MemcpyCalls(arraySize);
  }

  /** The three parameters of memcpy as parsing keeps them. */
  function MemcpyArgs(arraySize: int): seq<Variable>
  {
    [Variable("void", "dest", 1, arraySize, None), Variable("void", "src", 1, arraySize, None), Variable("size_t", "n", 0, UNKNOWN_SIZE, None)]
  }

  lemma MemcpyParses(arraySize: int)
    ensures ParseSignature("void *memcpy(void *dest, const void *src, size_t n);", arraySize)
         == Ok(Signature("memcpy", MemcpyArgs(arraySize), Variable("void", "unnamed", 1, UNKNOWN_SIZE, None)))
  {
    MemcpyText();
    MemcpyPlain();
    ParamDest(arraySize);
    MemcpyConstDropped(arraySize);
    ParamN(arraySize);
    ParsesWithThree("void", 1, "memcpy", "void *dest", "const void *src", "size_t n",
                    Variable("void", "dest", 1, arraySize, None), Variable("void", "src", 1, arraySize, None),
                    Variable("size_t", "n", 0, UNKNOWN_SIZE, None), arraySize);
  }

  lemma MemcpyPlain()
    ensures PlainName("memcpy") && PlainParts(["void *dest", "const void *src", "size_t n"])
  {
  }

  lemma ParamDest(arraySize: int)
    ensures ParseVariable("void *dest", arraySize) == Ok(Variable("void", "dest", 1, arraySize, None))
  {
    assert Repeat('*', 1) == "*";
    ParsesAs(Variable("void", "dest", 1, arraySize, None), "void *dest", arraySize);
  }

  lemma ParamN(arraySize: int)
    ensures ParseVariable("size_t n", arraySize) == Ok(Variable("size_t", "n", 0, UNKNOWN_SIZE, None))
  {
    ParsesAs(Variable("size_t", "n", 0, UNKNOWN_SIZE, None), "size_t n", arraySize);
  }

  lemma MemcpyText()
    ensures DeclarationText("void", 1, "memcpy", ["void *dest", "const void *src", "size_t n"])
         == "void *memcpy(void *dest, const void *src, size_t n);"
  {
    MemcpySplit();
    MemcpyHead();
    MemcpyJoin();
    TextOf("void", 1, "memcpy", ["void *dest", "const void *src", "size_t n"], "void *memcpy(",
           "void *dest, const void *src, size_t n", "void *memcpy(void *dest, const void *src, size_t n);");
  }

  lemma MemcpySplit()
    ensures "void *memcpy(void *dest, const void *src, size_t n);" == "void *memcpy(" + "void *dest, const void *src, size_t n" + ");"
  {
  }

  lemma MemcpyHead()
    ensures "void *memcpy(" == "void" + " " + Repeat('*', 1) + "memcpy" + "("
  {
    assert Repeat('*', 1) == "*";
  }

  lemma MemcpyJoin()
    ensures Join(["void *dest", "const void *src", "size_t n"], ", ") == "void *dest, const void *src, size_t n"
  {
    JoinThree("void *dest", "const void *src", "size_t n", ", ");
  }

  lemma MemcpyDeclares(arraySize: int)
    ensures Declaration(Fork(Signature("memcpy", MemcpyArgs(arraySize), Variable("void", "unnamed", 1, UNKNOWN_SIZE, None)), "foo"))
         == "void *foo(void *dest, void *src, size_t n);"
  {
    var f := Fork(Signature("memcpy", MemcpyArgs(arraySize), Variable("void", "unnamed", 1, UNKNOWN_SIZE, None)), "foo");
    DeclarationIsText(f);
    MemcpyArgTexts(arraySize);
    ForkedMemcpyText();
  }

  lemma MemcpyArgTexts(arraySize: int)
    ensures ArgTexts(MemcpyArgs(arraySize)) == ["void *dest", "void *src", "size_t n"]
  {
    ArgTextsThree(Variable("void", "dest", 1, arraySize, None), Variable("void", "src", 1, arraySize, None),
                  Variable("size_t", "n", 0, UNKNOWN_SIZE, None));
    VarStrDest(arraySize);
    MemcpyConstDropped(arraySize);
    VarStrN();
  }

  lemma ArgTextsThree(u: Variable, v: Variable, w: Variable)
    ensures ArgTexts([u, v, w]) == [VarStr(u), VarStr(v), VarStr(w)]
  {
  }

  lemma VarStrDest(arraySize: int)
    ensures VarStr(Variable("void", "dest", 1, arraySize, None)) == "void *dest"
  {
    assert Repeat('*', 1) == "*";
  }

  lemma VarStrN()
    ensures VarStr(Variable("size_t", "n", 0, UNKNOWN_SIZE, None)) == "size_t n"
  {
  }

  lemma ForkedMemcpyText()
    ensures DeclarationText("void", 1, "foo", ["void *dest", "void *src", "size_t n"]) == "void *foo(void *dest, void *src, size_t n);"
  {
    ForkedMemcpySplit();
    assert "void *foo(" == "void" + " " + Repeat('*', 1) + "foo" + "(" by {
      assert Repeat('*', 1) == "*";
    }
    ForkedMemcpyJoin();
    TextOf("void", 1, "foo", ["void *dest", "void *src", "size_t n"], "void *foo(", "void *dest, void *src, size_t n",
           "void *foo(void *dest, void *src, size_t n);");
  }

  lemma ForkedMemcpySplit()
    ensures "void *foo(void *dest, void *src, size_t n);" == "void *foo(" + "void *dest, void *src, size_t n" + ");"
  {
  }

  lemma ForkedMemcpyJoin()
    ensures Join(["void *dest", "void *src", "size_t n"], ", ") == "void *dest, void *src, size_t n"
  {
    JoinThree("void *dest", "void *src", "size_t n", ", ");
  }

  lemma MemcpyCalls(arraySize: int)
    ensures Call(Fork(Signature("memcpy", MemcpyArgs(arraySize), Variable("void", "unnamed", 1, UNKNOWN_SIZE, None)), "foo"))
         == "ret_foo = foo(dest, src, n);"
  {
    var f := Fork(Signature("memcpy", MemcpyArgs(arraySize), Variable("void", "unnamed", 1, UNKNOWN_SIZE, None)), "foo");
    ForkedMemcpy(arraySize);
    MemcpyCallArgs(arraySize);
    JoinThree("dest", "src", "n", ", ");
    MemcpyCallSplit();
    CallOf(f, "dest, src, n", "ret_foo = foo(dest, src, n);");
  }

  lemma ForkedMemcpy(arraySize: int)
    ensures var f := Fork(Signature("memcpy", MemcpyArgs(arraySize), Variable("void", "unnamed", 1, UNKNOWN_SIZE, None)), "foo");
            ReturnsValue(f) && f.ret.name == "ret_foo" && f.name == "foo" && f.args == MemcpyArgs(arraySize)
  {
  }

  lemma MemcpyCallArgs(arraySize: int)
    ensures CallArgs(MemcpyArgs(arraySize)) == ["dest", "src", "n"]
  {
    var args := MemcpyArgs(arraySize);
    assert CallArgs(args) == [CallArg(args[0]), CallArg(args[1]), CallArg(args[2])];
    assert Repeat('&', 0) == "" && Repeat('&', -1) == "";
    assert CallArg(args[0]) == "dest" && CallArg(args[1]) == "src" && CallArg(args[2]) == "n";
  }

  lemma MemcpyCallSplit()
    ensures "ret_foo = foo(dest, src, n);" == "ret_foo" + " = " + "foo" + "(" + ("dest" + ", " + "src" + ", " + "n") + ");"
  {
  }
}
