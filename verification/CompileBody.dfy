/** internal/compiler.go, CompileBody: a method's template to Go code, and what that code does when it is run. */
module CompileBody {
  import opened Wrappers
  import opened Sequences
  import opened Strings
  import opened Tokenizer
  import opened NamedParams
  import opened Templates
  import opened GoFragment
  import opened Compiler
  import opened OnePass
  import opened BodyCompilers

  /** QueryOther: the template starts with none of the four keywords. */
  datatype QueryKind = QuerySelect | QueryInsert | QueryUpdate | QueryDelete | QueryOther

  datatype ReturnKind = ReturnNothing | ReturnError | ReturnSingle | ReturnSlice | ReturnRowsOrID

  datatype Method = Method(
    name: string, sql: string, queryKind: QueryKind, params: seq<Param>,
    returnKind: ReturnKind, returnType: string, returnIsPtr: bool)

  datatype Code = Code(lines: seq<Line>, needsStrconv: bool)

  /** Parameters by name; of two with one name, the later. */
  function ParamMap(ps: seq<Param>): Params {
    if ps == [] then map[] else ParamMap(ps[..|ps| - 1])[ps[|ps| - 1].name := ps[|ps| - 1]]
  }

  /** Every name is in the map, with the last parameter of that name. */
  lemma {:induction false} ParamMapExact(ps: seq<Param>, name: string) returns (k: nat)
    ensures if name in ParamMap(ps)
            then k < |ps| && ps[k].name == name && ParamMap(ps)[name] == ps[k]
                 && forall j | k < j < |ps| :: ps[j].name != name
            else forall j | 0 <= j < |ps| :: ps[j].name != name
  {
    if ps == [] {
      return 0;
    }
    var last := |ps| - 1;
    if ps[last].name == name {
      return last;
    }
    k := ParamMapExact(ps[..last], name);
  }

  predicate AppendsReturning(d: Dialect, m: Method) {
    && d.Postgres? && m.queryKind.QueryInsert? && m.returnKind.ReturnRowsOrID?
    && !Contains(ToUpper(m.sql), "RETURNING")
  }

  /** The characters whose upper case is the letter in that place of RETURNING: dotless i is one of them. */
  const RETURNING_LETTERS: seq<string> := ["Rr", "Ee", "Tt", "Uu", "Rr", "Nn", "Ii\U{131}", "Nn", "Gg"]

  predicate ReturningAt(sql: string, i: int) {
    0 <= i <= |sql| - 9 && forall j | 0 <= j < 9 :: sql[i + j] in RETURNING_LETTERS[j]
  }

  predicate HasReturning(sql: string) {
    exists i | 0 <= i < |sql| :: ReturningAt(sql, i)
  }

  lemma UpperLetter(c: char, j: nat)
    requires j < 9
    ensures ToUpperChar(c) == "RETURNING"[j] <==> c in RETURNING_LETTERS[j]
  {
  }

  /** The clause is appended for Postgres inserts that return an id and whose template lacks the word, in any case. */
  lemma AppendsReturningExact(d: Dialect, m: Method)
    ensures AppendsReturning(d, m) <==>
            && d == Postgres && m.queryKind == QueryInsert && m.returnKind == ReturnRowsOrID
            && !HasReturning(m.sql)
  {
    var upper := ToUpper(m.sql);
    ContainsExact(upper, "RETURNING");
    forall i
      ensures StandsAt(upper, "RETURNING", i) <==> ReturningAt(m.sql, i)
    {
      forall j | 0 <= j < 9 && 0 <= i <= |m.sql| - 9
        ensures upper[i + j] == "RETURNING"[j] <==> m.sql[i + j] in RETURNING_LETTERS[j]
      {
        UpperLetter(m.sql[i + j], j);
      }
    }
  }

  /** The tree of a method's template. */
  function TreeOf(m: Method): Result<Template, CompileError> {
    match Lex(m.sql)
    case Failure(e) => Failure(LexFailed(e))
    case Success(toks) => ParseAll(toks, ParamMap(m.params))
  }

  const PROLOGUE := [DeclareBuilder, DeclareArgs]

  function Epilogue(d: Dialect, m: Method): seq<Line> {
    (if AppendsReturning(d, m) then [WriteLit(" RETURNING id")] else []) + [BindQuery]
  }

  function Body(d: Dialect, m: Method, t: Template): seq<Line> {
    PROLOGUE + Emit(d, ParamMap(m.params), t) + Epilogue(d, m)
  }

  method BuildParamMap(ps: seq<Param>) returns (paramMap: Params)
    ensures paramMap == ParamMap(ps)
  {
    paramMap := map[];
    for i := 0 to |ps|
      invariant paramMap == ParamMap(ps[..i])
    {
      assert ps[..i + 1][..i] == ps[..i];
      paramMap := paramMap[ps[i].name := ps[i]];
    }
    assert ps[..|ps|] == ps;
  }

  method CompileBody(d: Dialect, m: Method) returns (r: Result<Code, CompileError>)
    ensures match TreeOf(m)
            case Failure(e) => r == Failure(e)
            case Success(t) => r == Success(Code(Body(d, m, t), WriteNumber in Body(d, m, t)))
  {
    var lexed := Tokenize(m.sql);
    if lexed.Failure? {
      return Failure(LexFailed(lexed.error));
    }
    var tokens := lexed.value;
    var paramMap := BuildParamMap(m.params);
    var bc := new BodyCompiler(tokens, paramMap, d);
    bc.WriteLine(DeclareBuilder);
    bc.WriteLine(DeclareArgs);
    assert bc.out == PROLOGUE;
    var err := bc.Walk();
    TranslateIsParse(d, paramMap, tokens, 0, PROLOGUE);
    if err.Some? {
      return Failure(err.value);
    }
    if bc.pos < |bc.tokens| {
      return Failure(UnexpectedToken(bc.tokens[bc.pos].text));
    }
    ghost var was := bc.out;
    if d.Postgres? && m.queryKind.QueryInsert? && m.returnKind.ReturnRowsOrID?
       && !Contains(ToUpper(m.sql), "RETURNING") {
      bc.WriteLine(WriteLit(" RETURNING id"));
    }
    bc.WriteLine(BindQuery);
    assert bc.out == was + Epilogue(d, m);
    return Success(Code(bc.out, bc.needsStrconv));
  }

  // ---- Which templates are accepted ----

  lemma LexedPlain(sql: string)
    requires Lex(sql).Success?
    ensures PlainClauses(Lex(sql).value)
  {
    LexCanonical(sql);
  }

  /** Accepted means: the template scans to the flattening of a well-typed tree, which is then the one compiled. */
  lemma AcceptanceExact(m: Method, t: Template)
    ensures TreeOf(m) == Success(t) <==>
            Lex(m.sql) == Success(Flatten(t)) && WellTyped(t, ParamMap(m.params))
  {
    if Lex(m.sql).Success? {
      LexedPlain(m.sql);
      RecognitionExact(Lex(m.sql).value, ParamMap(m.params), t);
    }
  }

  // ---- What the code does ----

  function QueryText(d: Dialect, m: Method, atoms: seq<Atom>): string {
    Render(d, atoms, 0) + (if AppendsReturning(d, m) then " RETURNING id" else "")
  }

  /** Compiler correctness: in every environment the code builds the query and arguments that the template means. */
  lemma CompilerCorrect(d: Dialect, m: Method, t: Template, env: Env, start: Machine)
    requires TreeOf(m) == Success(t)
    requires start.frames.Bottom?
    ensures var atoms := Meaning(t, ParamMap(m.params), env);
            var query := QueryText(d, m, atoms);
            Run(Body(d, m, t), env, start) == Some(Machine(query, Values(Bound(atoms), env), Some(query), Bottom))
  {
    var params := ParamMap(m.params);
    var atoms := Meaning(t, params, env);
    var lines := Emit(d, params, t);
    var m1 := Machine("", [], start.query, Bottom);
    RunFirst(DeclareBuilder, [DeclareArgs], env, start);
    RunOne(DeclareArgs, env, start.(sb := ""));
    assert PROLOGUE == [DeclareBuilder] + [DeclareArgs];
    assert Run(PROLOGUE, env, start) == Some(m1);
    RunAppend(PROLOGUE + lines, Epilogue(d, m), env, start);
    RunAppend(PROLOGUE, lines, env, start);
    EmitCorrect(d, params, env, m1, t);
    var m2 := Wrote(d, env, m1, atoms);
    assert m2 == Machine(Render(d, atoms, 0), Values(Bound(atoms), env), start.query, Bottom);
    EpilogueRun(d, m, env, m2);
  }

  /** The query is the meaning's text, and the clause after it where it is appended. */
  lemma QueryExact(d: Dialect, m: Method, t: Template, env: Env, start: Machine)
    requires TreeOf(m) == Success(t)
    requires start.frames.Bottom?
    ensures Run(Body(d, m, t), env, start).Some?
    ensures var plain := Render(d, Meaning(t, ParamMap(m.params), env), 0);
            Run(Body(d, m, t), env, start).value.query ==
            Some(if d == Postgres && m.queryKind == QueryInsert && m.returnKind == ReturnRowsOrID
                    && !HasReturning(m.sql) then plain + " RETURNING id" else plain)
  {
    CompilerCorrect(d, m, t, env, start);
    AppendsReturningExact(d, m);
    var plain := Render(d, Meaning(t, ParamMap(m.params), env), 0);
    assert plain + "" == plain;
  }

  lemma EpilogueRun(d: Dialect, m: Method, env: Env, at: Machine)
    requires at.frames.Bottom?
    ensures var query := at.sb + (if AppendsReturning(d, m) then " RETURNING id" else "");
            Run(Epilogue(d, m), env, at) == Some(at.(sb := query, query := Some(query)))
  {
    if AppendsReturning(d, m) {
      RunFirst(WriteLit(" RETURNING id"), [BindQuery], env, at);
      RunOne(BindQuery, env, at.(sb := at.sb + " RETURNING id"));
    } else {
      assert Epilogue(d, m) == [BindQuery];
      RunOne(BindQuery, env, at);
      assert at.sb + "" == at.sb;
    }
  }

  // ---- Placeholders, and the dialects against each other ----

  /** The text before, between and after the bound parameters. */
  function Gaps(atoms: seq<Atom>): (gaps: seq<string>)
    ensures |gaps| == |Bound(atoms)| + 1
  {
    if atoms == [] then [""]
    else
      var gaps := Gaps(atoms[1..]);
      if atoms[0].Bind? then [""] + gaps else [[atoms[0].c] + gaps[0]] + gaps[1..]
  }

  /** The marks for n parameters after the first so many: a question mark each, or numbers that count on. */
  function Marks(d: Dialect, before: nat, n: nat): (marks: seq<string>)
    ensures |marks| == n
    ensures forall k | 0 <= k < n :: marks[k] == if d == Postgres then "$" + Itoa(before + k + 1) else "?"
  {
    seq(n, k requires 0 <= k < n => if d == Postgres then "$" + Itoa(before + k + 1) else "?")
  }

  function Interleave(gaps: seq<string>, marks: seq<string>): string
    requires |gaps| == |marks| + 1
  {
    if marks == [] then gaps[0] else gaps[0] + marks[0] + Interleave(gaps[1..], marks[1..])
  }

  lemma InterleaveFirst(c: char, gaps: seq<string>, marks: seq<string>)
    requires |gaps| == |marks| + 1
    ensures Interleave([[c] + gaps[0]] + gaps[1..], marks) == [c] + Interleave(gaps, marks)
  {
    assert ([[c] + gaps[0]] + gaps[1..])[1..] == gaps[1..];
  }

  lemma InterleaveMark(d: Dialect, gaps: seq<string>, before: nat)
    requires gaps != []
    ensures var n := |gaps| - 1;
            Interleave([""] + gaps, Marks(d, before, n + 1)) ==
            Placeholder(d, before + 1) + Interleave(gaps, Marks(d, before + 1, n))
  {
    var n := |gaps| - 1;
    var marks := Marks(d, before, n + 1);
    assert marks[1..] == Marks(d, before + 1, n) && ([""] + gaps)[1..] == gaps;
    assert marks[0] == Placeholder(d, before + 1);
    assert "" + marks[0] == marks[0];
  }

  lemma {:induction false} RenderInterleaves(d: Dialect, atoms: seq<Atom>, before: nat)
    ensures Render(d, atoms, before) == Interleave(Gaps(atoms), Marks(d, before, |Bound(atoms)|))
  {
    if atoms != [] {
      var gaps := Gaps(atoms[1..]);
      var n := |Bound(atoms[1..])|;
      match atoms[0]
      case Ch(c) =>
        RenderInterleaves(d, atoms[1..], before);
        InterleaveFirst(c, gaps, Marks(d, before, n));
      case Bind(_) =>
        RenderInterleaves(d, atoms[1..], before + 1);
        InterleaveMark(d, gaps, before);
    }
  }

  /**
   Dialect agreement and placeholder numbering. In any environment the codes for MySQL, SQLite and Postgres append
   one and the same argument list; between the same texts, the former two have "?" and the last has $1, $2, ..., one
   for each argument, and then the RETURNING clause if there is one.
   */
  lemma DialectsAgree(m: Method, t: Template, env: Env, start: Machine) returns (gaps: seq<string>)
    requires TreeOf(m) == Success(t)
    requires start.frames.Bottom?
    ensures var mysql, sqlite, postgres :=
              Run(Body(MySQL, m, t), env, start), Run(Body(SQLite, m, t), env, start),
              Run(Body(Postgres, m, t), env, start);
            && mysql == sqlite && mysql.Some? && postgres.Some?
            && mysql.value.args == postgres.value.args
            && |gaps| == |postgres.value.args| + 1
            && mysql.value.query == Some(Interleave(gaps, Marks(MySQL, 0, |mysql.value.args|)))
            && postgres.value.query == Some(Interleave(gaps, Marks(Postgres, 0, |postgres.value.args|))
                                            + (if AppendsReturning(Postgres, m) then " RETURNING id" else ""))
  {
    CompilerCorrect(MySQL, m, t, env, start);
    CompilerCorrect(SQLite, m, t, env, start);
    CompilerCorrect(Postgres, m, t, env, start);
    var atoms := Meaning(t, ParamMap(m.params), env);
    gaps := Gaps(atoms);
    RenderInterleaves(MySQL, atoms, 0);
    RenderInterleaves(Postgres, atoms, 0);
    RenderFolded(SQLite, atoms, 0, 0);
    assert QueryText(MySQL, m, atoms) == Render(MySQL, atoms, 0) == QueryText(SQLite, m, atoms);
  }

  /** The numbers written are all different. */
  lemma PlaceholdersDistinct(before: nat, n: nat, j: nat, k: nat)
    requires j < k < n
    ensures Marks(Postgres, before, n)[j] != Marks(Postgres, before, n)[k]
  {
    var marks := Marks(Postgres, before, n);
    assert marks[j][1..] == Itoa(before + j + 1);
    assert marks[k][1..] == Itoa(before + k + 1);
    if marks[j] == marks[k] {
      ItoaInjective(before + j + 1, before + k + 1);
    }
  }

  // ---- The block structure of the code ----

  /** A write or append line as text, different lines as different text. */
  function LineText(line: Line): string {
    match line
    case DeclareBuilder => "builder"
    case DeclareArgs => "args"
    case BindQuery => "query"
    case WriteNumber => "number"
    case WriteLit(s) => "L" + s
    case WriteVar(x) => "V" + x
    case WriteDeref(x) => "D" + x
    case AppendArg(x) => "A" + x
    case OpenIf(_) => ""
    case ElseIfClause(_) => ""
    case ElseClause => ""
    case Close => ""
  }

  /** A line as the template token in its place: clauses and braces as such, every other line as text. */
  function LineTok(line: Line): Tok {
    match line
    case OpenIf(c) => Tok(TokIf, c)
    case ElseIfClause(c) => Tok(TokElseIf, c)
    case ElseClause => Tok(TokElse, "")
    case Close => Tok(TokEnd, "")
    case _ => Tok(TokText, LineText(line))
  }

  /** Nothing of a line is lost in its token. */
  lemma LineTokInjective(a: Line, b: Line)
    requires LineTok(a) == LineTok(b)
    ensures a == b
  {
    var s := LineTok(a).text;
    if LineTok(a).kind.TokText? {
      assert s[0] == LineText(a)[0] == LineText(b)[0];
      assert s[1..] == LineText(a)[1..] == LineText(b)[1..];
    }
  }

  function LineToks(lines: seq<Line>): (toks: seq<Tok>)
    ensures |toks| == |lines| && forall i | 0 <= i < |lines| :: toks[i] == LineTok(lines[i])
  {
    seq(|lines|, i requires 0 <= i < |lines| => LineTok(lines[i]))
  }

  lemma LineToksAppend(a: seq<Line>, b: seq<Line>)
    ensures LineToks(a + b) == LineToks(a) + LineToks(b)
  {
  }

  lemma LineToksClause(line: Line, body: seq<Line>, rest: seq<Line>)
    ensures LineToks([line] + (body + rest)) == [LineTok(line)] + (LineToks(body) + LineToks(rest))
  {
    LineToksAppend([line], body + rest);
    LineToksAppend(body, rest);
    assert LineToks([line]) == [LineTok(line)];
  }

  /** Lines put before a tree, each as a text. */
  function WithLines(lines: seq<Line>, next: Template): Template {
    if lines == [] then next else Template.Text(LineText(lines[0]), WithLines(lines[1..], next))
  }

  /** The template with each text and each substitution replaced, in its place, by the lines emitted for it. */
  function LineTree(d: Dialect, params: Params, t: Template): Template {
    match t
    case Empty => Empty
    case Text(s, next) => WithLines(TextLines(d, s), LineTree(d, params, next))
    case Subst(name, next) => WithLines([SubstLine(name, params)], LineTree(d, params, next))
    case If(c, body, chain, next) =>
      If(c, LineTree(d, params, body), LineChain(d, params, chain), LineTree(d, params, next))
  }

  function LineChain(d: Dialect, params: Params, c: Chain): Chain {
    match c
    case End => End
    case Else(body) => Else(LineTree(d, params, body))
    case ElseIf(cond, body, chain) => ElseIf(cond, LineTree(d, params, body), LineChain(d, params, chain))
  }

  ghost predicate Plain(lines: seq<Line>) {
    forall line | line in lines :: LineTok(line).kind.TokText?
  }

  lemma {:induction false} SegmentedPlain(text: string, ms: seq<Match>, last: nat)
    requires last <= |text| && Ordered(text, ms, last)
    ensures Plain(SegmentedText(text, ms, last))
    decreases ms
  {
    if ms != [] {
      SegmentedPlain(text, ms[1..], ms[0].end);
    }
  }

  lemma TextPlain(d: Dialect, text: string)
    ensures Plain(TextLines(d, text))
  {
    FindAllOrdered(text, 0);
    SegmentedPlain(text, FindAll(text, 0), 0);
  }

  lemma {:induction false} WithLinesFlatten(lines: seq<Line>, next: Template)
    requires Plain(lines)
    ensures Flatten(WithLines(lines, next)) == LineToks(lines) + Flatten(next)
    ensures WellTyped(next, map[]) ==> WellTyped(WithLines(lines, next), map[])
    decreases lines
  {
    if lines == [] {
      assert LineToks(lines) + Flatten(next) == Flatten(next);
    } else {
      WithLinesFlatten(lines[1..], next);
      assert lines == [lines[0]] + lines[1..];
      LineToksAppend([lines[0]], lines[1..]);
      assert LineToks([lines[0]]) == [LineTok(lines[0])];
      Assoc([LineTok(lines[0])], LineToks(lines[1..]), Flatten(next));
    }
  }

  lemma {:induction false} EmitFlattens(d: Dialect, params: Params, t: Template)
    ensures LineToks(Emit(d, params, t)) == Flatten(LineTree(d, params, t))
    ensures WellTyped(LineTree(d, params, t), map[])
    decreases t, 1
  {
    match t
    case Empty =>
    case Text(s, next) =>
      EmitFlattens(d, params, next);
      TextPlain(d, s);
      WithLinesFlatten(TextLines(d, s), LineTree(d, params, next));
      LineToksAppend(TextLines(d, s), Emit(d, params, next));
    case Subst(name, next) =>
      EmitFlattens(d, params, next);
      WithLinesFlatten([SubstLine(name, params)], LineTree(d, params, next));
      LineToksAppend([SubstLine(name, params)], Emit(d, params, next));
    case If(c, body, chain, next) =>
      IfFlattens(d, params, t);
      EmitFlattens(d, params, next);
      LineToksAppend(IfLines(d, params, t), Emit(d, params, next));
      Regroup([Tok(TokIf, c)], Flatten(LineTree(d, params, body)), FlattenChain(LineChain(d, params, chain)),
              Flatten(LineTree(d, params, next)));
  }

  lemma {:induction false} IfFlattens(d: Dialect, params: Params, t: Template)
    requires t.If?
    ensures LineToks(IfLines(d, params, t)) ==
            [Tok(TokIf, t.cond)]
              + (Flatten(LineTree(d, params, t.body)) + FlattenChain(LineChain(d, params, t.chain)))
    ensures WellTyped(LineTree(d, params, t.body), map[]) && WellTypedChain(LineChain(d, params, t.chain), map[])
    decreases t, 0
  {
    EmitFlattens(d, params, t.body);
    ChainFlattens(d, params, t.chain);
    LineToksClause(OpenIf(t.cond), Emit(d, params, t.body), EmitChain(d, params, t.chain));
  }

  lemma {:induction false} ChainFlattens(d: Dialect, params: Params, c: Chain)
    ensures LineToks(EmitChain(d, params, c)) == FlattenChain(LineChain(d, params, c))
    ensures WellTypedChain(LineChain(d, params, c), map[])
    decreases c, 0
  {
    assert LineToks([Close]) == [Tok(TokEnd, "")];
    match c
    case End =>
    case Else(body) =>
      EmitFlattens(d, params, body);
      LineToksClause(ElseClause, Emit(d, params, body), [Close]);
    case ElseIf(cond, body, chain) =>
      EmitFlattens(d, params, body);
      ChainFlattens(d, params, chain);
      LineToksClause(ElseIfClause(cond), Emit(d, params, body), EmitChain(d, params, chain));
  }

  /**
   The whole emitted code, read line by line by the template grammar itself, gives back the template's ifs with every
   write and append line standing in the very branch of the text or substitution it was emitted for.
   */
  lemma BlocksReadBack(d: Dialect, params: Params, t: Template)
    ensures ParseAll(LineToks(Emit(d, params, t)), map[]) == Success(LineTree(d, params, t))
  {
    EmitFlattens(d, params, t);
    var toks := LineToks(Emit(d, params, t));
    ParseComplete(toks, map[], 0, LineTree(d, params, t), |toks|);
  }

  /** No prefix of the code has a clause or a closing brace out of place, and at its end every block is closed. */
  lemma PrefixesRun(d: Dialect, m: Method, t: Template, env: Env, start: Machine, k: nat)
    requires TreeOf(m) == Success(t)
    requires start.frames.Bottom? && k <= |Body(d, m, t)|
    ensures Run(Body(d, m, t)[..k], env, start).Some?
  {
    var lines := Body(d, m, t);
    CompilerCorrect(d, m, t, env, start);
    assert lines[..k] + lines[k..] == lines;
    RunAppend(lines[..k], lines[k..], env, start);
  }

  // ---- When run-time numbering, and so strconv, is needed ----

  predicate SomeTextBinds(toks: seq<Tok>) {
    exists tk | tk in toks :: tk.kind.TokText? && Bound(Atoms(tk.text)) != []
  }

  lemma {:induction false} SegmentedNumbers(text: string, last: nat)
    requires last <= |text| && Aligned(text, last)
    requires Ordered(text, FindAll(text, last), last)
    ensures WriteNumber in SegmentedText(text, FindAll(text, last), last) <==> Bound(AtomsFrom(text, last)) != []
    decreases |text| - last
  {
    FirstMatchAligned(text, last);
    FirstMatchAtoms(text, last);
    var ms := FindAll(text, last);
    if ms == [] {
      FoldRest(text, last);
    } else {
      FoldMatch(text, last);
      SegmentedNumbers(text, ms[0].end);
    }
  }

  lemma TextNumbers(d: Dialect, text: string)
    ensures WriteNumber in TextLines(d, text) <==> d.Postgres? && Bound(Atoms(text)) != []
  {
    FindAllOrdered(text, 0);
    SegmentedNumbers(text, 0);
  }

  lemma {:induction false} EmitNumbers(d: Dialect, params: Params, t: Template)
    ensures WriteNumber in Emit(d, params, t) <==> d.Postgres? && SomeTextBinds(Flatten(t))
    decreases t
  {
    match t
    case Empty =>
    case Text(s, next) =>
      TextNumbers(d, s);
      EmitNumbers(d, params, next);
      assert Flatten(t)[0] == Tok(TokText, s);
    case Subst(name, next) =>
      EmitNumbers(d, params, next);
    case If(c, body, chain, next) =>
      EmitNumbers(d, params, body);
      ChainNumbers(d, params, chain);
      EmitNumbers(d, params, next);
  }

  lemma {:induction false} ChainNumbers(d: Dialect, params: Params, c: Chain)
    ensures WriteNumber in EmitChain(d, params, c) <==> d.Postgres? && SomeTextBinds(FlattenChain(c))
    decreases c
  {
    match c
    case End =>
    case Else(body) => EmitNumbers(d, params, body);
    case ElseIf(_, body, chain) =>
      EmitNumbers(d, params, body);
      ChainNumbers(d, params, chain);
  }

  /** A method needs strconv exactly when it is compiled for Postgres and some template text binds a parameter. */
  lemma StrconvExact(d: Dialect, m: Method, t: Template)
    requires TreeOf(m) == Success(t)
    ensures WriteNumber in Body(d, m, t) <==> d.Postgres? && SomeTextBinds(Lex(m.sql).value)
  {
    AcceptanceExact(m, t);
    EmitNumbers(d, ParamMap(m.params), t);
  }
}
