/** Parsing and emitting in one pass, with the output so far as an argument: the same as parsing, then emitting. */
module OnePass {
  import opened Wrappers
  import opened Sequences
  import opened Tokenizer
  import opened NamedParams
  import opened Templates
  import opened GoFragment
  import opened Compiler

  type Output = Parsed<seq<Line>>

  function Translate(d: Dialect, params: Params, toks: seq<Tok>, pos: nat, out: seq<Line>): (r: Output)
    requires pos <= |toks|
    ensures r.Ok? ==> pos <= r.pos <= |toks| && Stops(toks, r.pos)
    decreases |toks| - pos, 0
  {
    if Stops(toks, pos) then Ok(out, pos)
    else if toks[pos].kind.TokText? then
      Translate(d, params, toks, pos + 1, out + TextLines(d, toks[pos].text))
    else if toks[pos].kind.TokSubst? then
      match CheckSubst(params, toks[pos].text) {
        case Some(e) => Err(e)
        case None => Translate(d, params, toks, pos + 1, out + [SubstLine(toks[pos].text, params)])
      }
    else
      match TranslateBranch(d, params, toks, pos + 1, out + [OpenIf(toks[pos].text)])
      case Err(e) => Err(e)
      case Ok(out', p) => Translate(d, params, toks, p, out')
  }

  /** A body and the clauses after it. */
  function TranslateBranch(d: Dialect, params: Params, toks: seq<Tok>, pos: nat, out: seq<Line>): (r: Output)
    requires pos <= |toks|
    ensures r.Ok? ==> pos < r.pos <= |toks|
    decreases |toks| - pos, 2
  {
    match Translate(d, params, toks, pos, out)
    case Err(e) => Err(e)
    case Ok(out', p) => TranslateClauses(d, params, toks, p, out')
  }

  function TranslateClauses(d: Dialect, params: Params, toks: seq<Tok>, pos: nat, out: seq<Line>): (r: Output)
    requires pos <= |toks| && Stops(toks, pos)
    ensures r.Ok? ==> pos < r.pos <= |toks|
    decreases |toks| - pos, 1
  {
    if pos == |toks| then Err(MissingEnd)
    else if toks[pos].kind.TokEnd? then Ok(out + [Close], pos + 1)
    else if toks[pos].kind.TokElse? then
      match Translate(d, params, toks, pos + 1, out + [ElseClause]) {
        case Err(e) => Err(e)
        case Ok(out', p) =>
          if p == |toks| || !toks[p].kind.TokEnd? then Err(ExpectedEndAfterElse) else Ok(out' + [Close], p + 1)
      }
    else
      TranslateBranch(d, params, toks, pos + 1, out + [ElseIfClause(toks[pos].text)])
  }

  function Segment(text: string, ms: seq<Match>, last: nat, out: seq<Line>): seq<Line>
    requires last <= |text| && Ordered(text, ms, last)
    decreases ms
  {
    if ms == [] then
      if last < |text| then out + [WriteLit(text[last..])] else out
    else
      var gap := if last < ms[0].start then out + [WriteLit(text[last..ms[0].start])] else out;
      Segment(text, ms[1..], ms[0].end, gap + MatchLines(text, ms[0]))
  }

  lemma {:induction false} SegmentIsText(text: string, ms: seq<Match>, last: nat, out: seq<Line>)
    requires last <= |text| && Ordered(text, ms, last)
    ensures Segment(text, ms, last, out) == out + SegmentedText(text, ms, last)
    decreases ms
  {
    if ms != [] {
      var gap := Literal(text[last..ms[0].start]);
      var lines, rest := MatchLines(text, ms[0]), SegmentedText(text, ms[1..], ms[0].end);
      SegmentIsText(text, ms[1..], ms[0].end, out + gap + lines);
      Regroup(out, gap, lines, rest);
      assert out + [] == out;
    }
  }

  /** Both ways, from pos with output out, agree. */
  ghost predicate Agree(d: Dialect, params: Params, toks: seq<Tok>, pos: nat, out: seq<Line>)
    requires pos <= |toks|
  {
    Translate(d, params, toks, pos, out) ==
    match Parse(toks, params, pos)
    case Err(e) => Err(e)
    case Ok(t, p) => Ok(out + Emit(d, params, t), p)
  }

  /** The output of one pass is the old output followed by the code of the tree that Parse finds. */
  lemma {:induction false} TranslateIsParse(d: Dialect, params: Params, toks: seq<Tok>, pos: nat, out: seq<Line>)
    requires pos <= |toks|
    ensures Agree(d, params, toks, pos, out)
    decreases |toks| - pos, 1
  {
    if Stops(toks, pos) {
      assert out + Emit(d, params, Empty) == out;
    } else if toks[pos].kind.TokIf? {
      TranslateIfIsParse(d, params, toks, pos, out);
    } else {
      var text := toks[pos].text;
      var lines := if toks[pos].kind.TokText? then TextLines(d, text) else [SubstLine(text, params)];
      TranslateIsParse(d, params, toks, pos + 1, out + lines);
      var next := Parse(toks, params, pos + 1);
      if next.Ok? {
        Regroup(out, lines, Emit(d, params, next.tree), []);
      }
    }
  }

  lemma {:induction false} TranslateIfIsParse(d: Dialect, params: Params, toks: seq<Tok>, pos: nat, out: seq<Line>)
    requires pos < |toks| && toks[pos].kind.TokIf?
    ensures Agree(d, params, toks, pos, out)
    decreases |toks| - pos, 0
  {
    var cond := toks[pos].text;
    TranslateBranchIsParse(d, params, toks, pos + 1, out + [OpenIf(cond)]);
    var r := ParseIf(toks, params, pos + 1);
    if r.Ok? {
      var branch := IfLines(d, params, If(cond, r.tree.0, r.tree.1, Empty));
      Regroup(out, [OpenIf(cond)], Emit(d, params, r.tree.0) + EmitChain(d, params, r.tree.1), []);
      TranslateIsParse(d, params, toks, r.pos, out + branch);
      var next := Parse(toks, params, r.pos);
      if next.Ok? {
        Regroup(out, branch, Emit(d, params, next.tree), []);
      }
    }
  }

  lemma {:induction false} TranslateBranchIsParse(d: Dialect, params: Params, toks: seq<Tok>, pos: nat, out: seq<Line>)
    requires pos <= |toks|
    ensures TranslateBranch(d, params, toks, pos, out) ==
            match ParseIf(toks, params, pos)
            case Err(e) => Err(e)
            case Ok(bc, p) => Ok(out + (Emit(d, params, bc.0) + EmitChain(d, params, bc.1)), p)
    decreases |toks| - pos, 2
  {
    TranslateIsParse(d, params, toks, pos, out);
    var body := Parse(toks, params, pos);
    if body.Ok? {
      TranslateClausesIsParse(d, params, toks, body.pos, out + Emit(d, params, body.tree));
      var chain := ParseChain(toks, params, body.pos);
      if chain.Ok? {
        Regroup(out, Emit(d, params, body.tree), EmitChain(d, params, chain.tree), []);
      }
    }
  }

  lemma {:induction false} TranslateClausesIsParse(d: Dialect, params: Params, toks: seq<Tok>, pos: nat, out: seq<Line>)
    requires pos <= |toks| && Stops(toks, pos)
    ensures TranslateClauses(d, params, toks, pos, out) ==
            match ParseChain(toks, params, pos)
            case Err(e) => Err(e)
            case Ok(c, p) => Ok(out + EmitChain(d, params, c), p)
    decreases |toks| - pos, 1
  {
    if pos < |toks| && toks[pos].kind.TokElse? {
      TranslateIsParse(d, params, toks, pos + 1, out + [ElseClause]);
      var body := Parse(toks, params, pos + 1);
      if body.Ok? {
        Regroup(out, [ElseClause], Emit(d, params, body.tree), [Close]);
      }
    } else if pos < |toks| && toks[pos].kind.TokElseIf? {
      var clause := [ElseIfClause(toks[pos].text)];
      TranslateBranchIsParse(d, params, toks, pos + 1, out + clause);
      var r := ParseIf(toks, params, pos + 1);
      if r.Ok? {
        Regroup(out, clause, Emit(d, params, r.tree.0) + EmitChain(d, params, r.tree.1), []);
      }
    }
  }
}
