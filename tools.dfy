/** The toolbox of the generator (sputnik/tools.py); only its text helper `indent` is
    modelled, the temporary-directory and file-copy helpers being file-system operations. */
module Tools {
  import opened Text

  /** What `indent` accepts: one line, or a list of lines (the `isinstance(code, list)` test). */
  datatype Code = Line(text: string) | Lines(lines: seq<string>)

  /** The prefix `indenter * indentation`, empty for a zero or negative count. */
  function Prefix(indentation: int, indenter: string): string
  {
    RepeatStr(indenter, indentation)
  }

  /** `indent`: the prefix in front of the line, or in front of every line of the list. */
  function Indent(code: Code, indentation: int := 1, indenter: string := "\t"): (r: Code)
    ensures r.Lines? <==> code.Lines?
    ensures r.Lines? ==> |r.lines| == |code.lines|
  {
    match code
    case Line(s) => Line(Prefix(indentation, indenter) + s)
    case Lines(ls) =>
      Lines(seq(|ls|, i requires 0 <= i < |ls| => Prefix(indentation, indenter) + ls[i]))
  }

  /** Removing the prefix from each indented line gives back the input, in order: indenting
      loses nothing and reorders nothing. */
  lemma IndentRoundTrip(code: Code, indentation: int, indenter: string)
    ensures var p := Prefix(indentation, indenter);
            match Indent(code, indentation, indenter)
            case Line(s) => StartsWith(s, p) && s[|p|..] == code.text
            case Lines(ls) => forall i :: 0 <= i < |ls| ==> StartsWith(ls[i], p) && ls[i][|p|..] == code.lines[i]
  {
    var p := Prefix(indentation, indenter);
    match code
    case Line(s) =>
      ConcatParts(p, s);
    case Lines(ls) =>
      forall i | 0 <= i < |ls| ensures StartsWith(p + ls[i], p) && (p + ls[i])[|p|..] == ls[i] {
        ConcatParts(p, ls[i]);
      }
  }

  /** With no indentation (or a negative one) the code is returned unchanged. */
  lemma IndentZero(code: Code, indentation: int, indenter: string)
    requires indentation <= 0
    ensures Indent(code, indentation, indenter) == code
  {
    assert Prefix(indentation, indenter) == "";
    match code
    case Line(s) =>
      assert "" + s == s;
    case Lines(ls) =>
      var r := Indent(code, indentation, indenter).lines;
      forall i | 0 <= i < |ls| ensures r[i] == ls[i] {
        assert "" + ls[i] == ls[i];
      }
  }

  /** Indenting twice adds the indentations. */
  lemma IndentTwice(code: Code, m: nat, n: nat, indenter: string)
    ensures Indent(Indent(code, m, indenter), n, indenter) == Indent(code, m + n, indenter)
  {
    RepeatStrAdd(indenter, n, m);
    var pm := Prefix(m, indenter);
    var pn := Prefix(n, indenter);
    assert pn + pm == Prefix(m + n, indenter);
    match code
    case Line(s) =>
      Assoc(pn, pm, s);
    case Lines(ls) =>
      var twice := Indent(Indent(code, m, indenter), n, indenter).lines;
      forall i | 0 <= i < |ls| ensures twice[i] == Prefix(m + n, indenter) + ls[i] {
        Assoc(pn, pm, ls[i]);
      }
  }
}
