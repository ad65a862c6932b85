/** internal/compiler.go: the bodyCompiler object, which parses tokens and emits code in one pass. */
module BodyCompilers {
  import opened Wrappers
  import opened Sequences
  import opened Tokenizer
  import opened NamedParams
  import opened Templates
  import opened GoFragment
  import opened Compiler
  import opened OnePass

  class BodyCompiler {
    var out: seq<Line>
    const tokens: seq<Tok>
    var pos: nat
    const params: Params
    const dialect: Dialect
    var needsStrconv: bool

    /** The cursor is in the list, and the strconv flag says what has been emitted. */
    ghost predicate Valid()
      reads this
    {
      pos <= |tokens| && (needsStrconv <==> WriteNumber in out)
    }

    constructor (tokens: seq<Tok>, params: Params, dialect: Dialect)
      ensures Valid() && pos == 0 && out == []
      ensures this.tokens == tokens && this.params == params && this.dialect == dialect
    {
      this.tokens, this.params, this.dialect := tokens, params, dialect;
      out, pos, needsStrconv := [], 0, false;
    }

    method WriteLine(line: Line)
      requires Valid() && line != WriteNumber
      modifies this`out
      ensures Valid() && out == old(out) + [line]
    {
      out := out + [line];
    }

    method EmitText(text: string)
      requires Valid()
      modifies this`out, this`needsStrconv
      ensures Valid() && out == old(out) + TextLines(dialect, text)
    {
      FindAllOrdered(text, 0);
      if dialect == Postgres {
        EmitTextPostgres(text);
      } else {
        EmitTextMySQL(text);
      }
    }

    method EmitTextMySQL(text: string)
      requires Valid()
      modifies this`out
      ensures Valid() && out == old(out) + FoldedText(text)
    {
      if |FindAll(text, 0)| == 0 {
        PlainFolded(text);
        if text != "" {
          WriteLine(WriteLit(text));
        }
        return;
      }
      var folded, paramNames := FoldPlaceholders(text);
      EmitFolded(folded, paramNames);
    }

    /** The end of emitTextMySQL: the literal, then its arguments. */
    method EmitFolded(folded: string, paramNames: seq<string>)
      requires Valid()
      modifies this`out
      ensures Valid() && out == old(out) + ([WriteLit(folded)] + AppendArgs(paramNames))
    {
      WriteLine(WriteLit(folded));
      for k := 0 to |paramNames|
        invariant Valid() && out == old(out) + ([WriteLit(folded)] + AppendArgs(paramNames[..k]))
      {
        WriteLine(AppendArg(paramNames[k]));
        assert AppendArgs(paramNames[..k + 1]) == AppendArgs(paramNames[..k]) + [AppendArg(paramNames[k])];
      }
      assert paramNames[..|paramNames|] == paramNames;
    }

    method EmitTextPostgres(text: string)
      requires Valid()
      requires Ordered(text, FindAll(text, 0), 0)
      modifies this`out, this`needsStrconv
      ensures Valid() && out == old(out) + SegmentedText(text, FindAll(text, 0), 0)
    {
      var matches, last: nat := FindAll(text, 0), 0;
      for k := 0 to |matches|
        invariant Valid() && last <= |text| && Ordered(text, matches[k..], last)
        invariant Segment(text, matches[k..], last, out) == Segment(text, matches, 0, old(out))
      {
        var m := matches[k];
        assert m == matches[k..][0] && matches[k + 1..] == matches[k..][1..];
        if m.start > last {
          WriteLine(WriteLit(text[last..m.start]));
        }
        EmitMatch(text, m);
        last := m.end;
      }
      assert matches[|matches|..] == [];
      if last < |text| {
        WriteLine(WriteLit(text[last..]));
      }
      SegmentIsText(text, matches, 0, old(out));
    }

    /** The body of emitTextPostgres's loop for one match, after the text before it. */
    method EmitMatch(text: string, m: Match)
      requires Valid() && m.In(text, m.start)
      modifies this`out, this`needsStrconv
      ensures Valid() && out == old(out) + MatchLines(text, m)
    {
      if m.nameStart < 0 {
        WriteLine(WriteLit(text[m.start..m.end]));
      } else {
        needsStrconv := true;
        out := out + [WriteNumber];
        WriteLine(AppendArg(text[m.nameStart..m.nameEnd]));
      }
    }

    method EmitDirect(paramName: string) returns (err: Option<CompileError>)
      requires Valid()
      modifies this`out
      ensures Valid()
      ensures paramName !in params ==> err == Some(UnknownParam(paramName)) && out == old(out)
      ensures paramName in params ==>
                var typ := params[paramName].typ;
                if typ == "*string" then err.None? && out == old(out) + [WriteDeref(paramName)]
                else if typ == "string" then err.None? && out == old(out) + [WriteVar(paramName)]
                else err == Some(UnsupportedType(typ, paramName)) && out == old(out)
    {
      if paramName !in params {
        return Some(UnknownParam(paramName));
      }
      var p := params[paramName];
      if p.typ == "*string" {
        WriteLine(WriteDeref(paramName));
      } else if p.typ == "string" {
        WriteLine(WriteVar(paramName));
      } else {
        return Some(UnsupportedType(p.typ, paramName));
      }
      return None;
    }

    method Walk() returns (err: Option<CompileError>)
      requires Valid()
      modifies this`out, this`pos, this`needsStrconv
      ensures Valid() && pos >= old(pos)
      ensures match Translate(dialect, params, tokens, old(pos), old(out))
              case Ok(lines, p) => err.None? && pos == p && out == lines
              case Err(e) => err == Some(e)
      decreases |tokens| - pos, 0
    {
      while pos < |tokens|
        invariant Valid() && old(pos) <= pos
        invariant Translate(dialect, params, tokens, old(pos), old(out)) == Translate(dialect, params, tokens, pos, out)
        decreases |tokens| - pos
      {
        var t := tokens[pos];
        match t.kind {
          case TokEnd | TokElse | TokElseIf =>
            return None; // caller handles
          case TokText =>
            pos := pos + 1;
            EmitText(t.text);
          case TokIf =>
            pos := pos + 1;
            err := EmitIfChain(t.text);
            if err.Some? {
              return err;
            }
          case TokSubst =>
            pos := pos + 1;
            err := EmitDirect(t.text);
            if err.Some? {
              return err;
            }
        }
      }
      return None;
    }

    method EmitIfChain(expr: string) returns (err: Option<CompileError>)
      requires Valid()
      modifies this`out, this`pos, this`needsStrconv
      ensures Valid() && pos >= old(pos)
      ensures match TranslateBranch(dialect, params, tokens, old(pos), old(out) + [OpenIf(expr)])
              case Ok(lines, p) => err.None? && pos == p && out == lines
              case Err(e) => err == Some(e)
      decreases |tokens| - pos, 1
    {
      WriteLine(OpenIf(expr));
      err := Walk();
      if err.Some? {
        return err;
      }
      err := EmitClauses();
    }

    /** The loop of emitIfChain, over the clauses after the first body. */
    method EmitClauses() returns (err: Option<CompileError>)
      requires Valid() && Stops(tokens, pos)
      modifies this`out, this`pos, this`needsStrconv
      ensures Valid() && pos >= old(pos)
      ensures match TranslateClauses(dialect, params, tokens, old(pos), old(out))
              case Ok(lines, p) => err.None? && pos == p && out == lines
              case Err(e) => err == Some(e)
      decreases |tokens| - pos, 0
    {
      while pos < |tokens|
        invariant Valid() && old(pos) <= pos && Stops(tokens, pos)
        invariant TranslateClauses(dialect, params, tokens, old(pos), old(out))
               == TranslateClauses(dialect, params, tokens, pos, out)
        decreases |tokens| - pos
      {
        var t := tokens[pos];
        pos := pos + 1;
        match t.kind {
          case TokEnd =>
            WriteLine(Close);
            return None;
          case TokElse =>
            WriteLine(ElseClause);
            err := Walk();
            if err.Some? {
              return err;
            }
            if pos >= |tokens| || tokens[pos].kind != TokEnd {
              return Some(ExpectedEndAfterElse);
            }
            pos := pos + 1;
            WriteLine(Close);
            return None;
          case TokElseIf =>
            WriteLine(ElseIfClause(t.text));
            err := Walk();
            if err.Some? {
              return err;
            }
          case _ =>
            assert false; // walk has stopped at a clause or at the end of the tokens
        }
      }
      return Some(MissingEnd);
    }
  }

  /** emitTextMySQL's first loop: the literal with ? in place, and the names bound, in order. */
  method FoldPlaceholders(text: string) returns (folded: string, paramNames: seq<string>)
    ensures folded == Render(MySQL, Atoms(text), 0) && paramNames == Bound(Atoms(text))
  {
    var matches, last: nat := FindAll(text, 0), 0;
    folded, paramNames := "", [];
    for k := 0 to |matches|
      invariant last <= |text| && Aligned(text, last) && matches[k..] == FindAll(text, last)
      invariant folded + Render(MySQL, AtomsFrom(text, last), 0) == Render(MySQL, Atoms(text), 0)
      invariant paramNames + Bound(AtomsFrom(text, last)) == Bound(Atoms(text))
    {
      var m := matches[k];
      assert m == matches[k..][0] && matches[k + 1..] == matches[k..][1..];
      FirstMatchAligned(text, last);
      FoldMatch(text, last);
      ghost var mark, names := MatchMark(text, m), MatchNames(text, m);
      Regroup(folded, text[last..m.start], mark, Render(MySQL, AtomsFrom(text, m.end), 0));
      Assoc(paramNames, names, Bound(AtomsFrom(text, m.end)));
      ghost var foldedWas, namesWas := folded, paramNames;
      folded := folded + text[last..m.start];
      if m.nameStart < 0 {
        folded := folded + text[m.start..m.end];
      } else {
        folded := folded + "?";
        paramNames := paramNames + [text[m.nameStart..m.nameEnd]];
      }
      assert folded == foldedWas + text[last..m.start] + mark && paramNames == namesWas + names;
      last := m.end;
    }
    assert matches[|matches|..] == [];
    FoldRest(text, last);
    folded := folded + text[last..];
  }

  lemma PlainFolded(text: string)
    requires FindAll(text, 0) == []
    ensures FoldedText(text) == if text == "" then [] else [WriteLit(text)]
  {
    FirstMatchAtoms(text, 0);
    assert Atoms(text) == Chars(text) by {
      assert text[0..|text|] == text;
    }
    RenderChars(MySQL, text, 0);
  }

  function MatchMark(text: string, m: Match): string
    requires m.start <= m.end <= |text|
  {
    if m.nameStart < 0 then text[m.start..m.end] else "?"
  }

  function MatchNames(text: string, m: Match): seq<string>
    requires m.nameStart < 0 || 0 <= m.nameStart <= m.nameEnd <= |text|
  {
    if m.nameStart < 0 then [] else [text[m.nameStart..m.nameEnd]]
  }

  /** What the text from last up to the end of the first match adds to the folded literal and the arguments. */
  lemma FoldMatch(text: string, last: nat)
    requires last <= |text| && Aligned(text, last) && FindAll(text, last) != []
    ensures var m, atoms := FindAll(text, last)[0], AtomsFrom(text, last);
            && m.In(text, last)
            && Render(MySQL, atoms, 0) ==
               text[last..m.start] + (MatchMark(text, m) + Render(MySQL, AtomsFrom(text, m.end), 0))
            && Bound(atoms) == MatchNames(text, m) + Bound(AtomsFrom(text, m.end))
  {
    FirstMatchAtoms(text, last);
    var m := FindAll(text, last)[0];
    var rest := AtomsFrom(text, m.end);
    RenderGap(MySQL, text[last..m.start], m.Atoms(text) + rest, 0);
    if m.nameStart < 0 {
      RenderGap(MySQL, text[m.start..m.end], rest, 0);
    } else {
      assert (m.Atoms(text) + rest)[1..] == rest;
      RenderFolded(MySQL, rest, 1, 0);
    }
  }

  lemma FoldRest(text: string, last: nat)
    requires last <= |text| && Aligned(text, last) && FindAll(text, last) == []
    ensures Render(MySQL, AtomsFrom(text, last), 0) == text[last..] && Bound(AtomsFrom(text, last)) == []
  {
    FirstMatchAtoms(text, last);
    assert Chars(text[last..|text|]) + [] == Chars(text[last..]);
    RenderChars(MySQL, text[last..], 0);
  }
}
