/** The tree a template's tokens stand for, and the grammar walk and emitIfChain (internal/compiler.go) recognise. */
module Templates {
  import opened Wrappers
  import opened Tokenizer

  datatype Template =
    | Empty
    | Text(text: string, next: Template)
    | Subst(name: string, next: Template)
    | If(cond: string, body: Template, chain: Chain, next: Template)

  /** What may follow the body of an if: at most one else, and nothing after it but the end. */
  datatype Chain =
    | End
    | Else(body: Template)
    | ElseIf(cond: string, body: Template, chain: Chain)

  function Flatten(t: Template): seq<Tok> {
    match t
    case Empty => []
    case Text(s, next) => [Tok(TokText, s)] + Flatten(next)
    case Subst(name, next) => [Tok(TokSubst, name)] + Flatten(next)
    case If(cond, body, chain, next) => [Tok(TokIf, cond)] + (Flatten(body) + (FlattenChain(chain) + Flatten(next)))
  }

  function FlattenChain(c: Chain): (toks: seq<Tok>)
    ensures toks != [] && Stops(toks, 0)
  {
    match c
    case End => [Tok(TokEnd, "")]
    case Else(body) => [Tok(TokElse, "")] + (Flatten(body) + [Tok(TokEnd, "")])
    case ElseIf(cond, body, chain) => [Tok(TokElseIf, cond)] + (Flatten(body) + FlattenChain(chain))
  }

  /** The token at pos, if any, belongs to an enclosing if. */
  predicate Stops(toks: seq<Tok>, pos: nat)
    requires pos <= |toks|
  {
    pos < |toks| ==> toks[pos].kind.TokEnd? || toks[pos].kind.TokElse? || toks[pos].kind.TokElseIf?
  }

  datatype Param = Param(name: string, typ: string, isPtr: bool)

  type Params = map<string, Param>

  datatype CompileError =
    | LexFailed(lexError: LexError)
    | UnexpectedToken(text: string)
    | ExpectedEndAfterElse
    | MissingEnd
    | UnknownParam(name: string)
    | UnsupportedType(typ: string, name: string)

  function CheckSubst(params: Params, name: string): Option<CompileError> {
    if name !in params then Some(UnknownParam(name))
    else if params[name].typ != "*string" && params[name].typ != "string" then
      Some(UnsupportedType(params[name].typ, name))
    else None
  }

  /** Every substitution names a parameter of type string or *string. */
  predicate WellTyped(t: Template, params: Params) {
    match t
    case Empty => true
    case Text(_, next) => WellTyped(next, params)
    case Subst(name, next) => CheckSubst(params, name).None? && WellTyped(next, params)
    case If(_, body, chain, next) => WellTyped(body, params) && WellTypedChain(chain, params) && WellTyped(next, params)
  }

  predicate WellTypedChain(c: Chain, params: Params) {
    match c
    case End => true
    case Else(body) => WellTyped(body, params)
    case ElseIf(_, body, chain) => WellTyped(body, params) && WellTypedChain(chain, params)
  }

  // ---- What the one-pass recogniser makes of a token list ----

  datatype Parsed<+T> = Ok(tree: T, pos: nat) | Err(error: CompileError)

  /** walk: the tokens from pos up to one that an enclosing if must handle. */
  function Parse(toks: seq<Tok>, params: Params, pos: nat): (r: Parsed<Template>)
    requires pos <= |toks|
    ensures r.Ok? ==> pos <= r.pos <= |toks| && Stops(toks, r.pos)
    decreases |toks| - pos, 0
  {
    if Stops(toks, pos) then Ok(Empty, pos)
    else if toks[pos].kind.TokText? then
      match Parse(toks, params, pos + 1)
      case Err(e) => Err(e)
      case Ok(next, p) => Ok(Text(toks[pos].text, next), p)
    else if toks[pos].kind.TokSubst? then
      match CheckSubst(params, toks[pos].text) {
        case Some(e) => Err(e)
        case None =>
          match Parse(toks, params, pos + 1)
          case Err(e) => Err(e)
          case Ok(next, p) => Ok(Subst(toks[pos].text, next), p)
      }
    else
      match ParseIf(toks, params, pos + 1) {
        case Err(e) => Err(e)
        case Ok(bc, p) =>
          match Parse(toks, params, p)
          case Err(e) => Err(e)
          case Ok(next, q) => Ok(If(toks[pos].text, bc.0, bc.1, next), q)
      }
  }

  /** emitIfChain: a body and what follows it, through the closing end. */
  function ParseIf(toks: seq<Tok>, params: Params, pos: nat): (r: Parsed<(Template, Chain)>)
    requires pos <= |toks|
    ensures r.Ok? ==> pos < r.pos <= |toks|
    decreases |toks| - pos, 2
  {
    match Parse(toks, params, pos)
    case Err(e) => Err(e)
    case Ok(body, p) =>
      match ParseChain(toks, params, p)
      case Err(e) => Err(e)
      case Ok(chain, q) => Ok((body, chain), q)
  }

  /** The loop of emitIfChain, from just after a body. */
  function ParseChain(toks: seq<Tok>, params: Params, pos: nat): (r: Parsed<Chain>)
    requires pos <= |toks| && Stops(toks, pos)
    ensures r.Ok? ==> pos < r.pos <= |toks|
    decreases |toks| - pos, 1
  {
    if pos == |toks| then Err(MissingEnd)
    else if toks[pos].kind.TokEnd? then Ok(End, pos + 1)
    else if toks[pos].kind.TokElse? then
      match Parse(toks, params, pos + 1) {
        case Err(e) => Err(e)
        case Ok(body, p) =>
          if p == |toks| || !toks[p].kind.TokEnd? then Err(ExpectedEndAfterElse) else Ok(Else(body), p + 1)
      }
    else
      match ParseIf(toks, params, pos + 1)
      case Err(e) => Err(e)
      case Ok(bc, p) => Ok(ElseIf(toks[pos].text, bc.0, bc.1), p)
  }

  /** CompileBody's use of walk: the whole list must be consumed. */
  function ParseAll(toks: seq<Tok>, params: Params): Result<Template, CompileError> {
    match Parse(toks, params, 0)
    case Err(e) => Failure(e)
    case Ok(t, p) => if p < |toks| then Failure(UnexpectedToken(toks[p].text)) else Success(t)
  }

  // ---- Recognition is exact ----

  /** The tokens in the list that a scanner or printer gives End and Else carry no text. */
  predicate PlainClauses(toks: seq<Tok>) {
    forall tk | tk in toks :: tk.kind.TokEnd? || tk.kind.TokElse? ==> tk.text == ""
  }

  /** part stands in toks at pos. */
  ghost predicate Holds(toks: seq<Tok>, pos: nat, part: seq<Tok>) {
    pos + |part| <= |toks| && forall i {:trigger part[i]} | 0 <= i < |part| :: toks[pos + i] == part[i]
  }

  lemma HoldsSplit(toks: seq<Tok>, pos: nat, a: seq<Tok>, b: seq<Tok>)
    requires Holds(toks, pos, a + b)
    ensures Holds(toks, pos, a) && Holds(toks, pos + |a|, b)
  {
    assert forall i | 0 <= i < |b| :: toks[pos + (|a| + i)] == (a + b)[|a| + i] == b[i];
    assert forall i | 0 <= i < |a| :: toks[pos + i] == (a + b)[i] == a[i];
  }

  lemma HoldsFirst(toks: seq<Tok>, pos: nat, tk: Tok, b: seq<Tok>)
    requires Holds(toks, pos, [tk] + b)
    ensures pos < |toks| && toks[pos] == tk && Holds(toks, pos + 1, b)
  {
    HoldsSplit(toks, pos, [tk], b);
    assert toks[pos + 0] == [tk][0];
  }

  lemma HoldsJoin(toks: seq<Tok>, pos: nat, a: seq<Tok>, b: seq<Tok>)
    requires Holds(toks, pos, a) && Holds(toks, pos + |a|, b)
    ensures Holds(toks, pos, a + b)
  {
    forall i | 0 <= i < |a + b|
      ensures toks[pos + i] == (a + b)[i]
    {
      if i >= |a| {
        assert toks[pos + |a| + (i - |a|)] == b[i - |a|];
      }
    }
  }

  lemma HoldsOne(toks: seq<Tok>, pos: nat)
    requires pos < |toks|
    ensures Holds(toks, pos, [toks[pos]])
  {
  }

  ghost predicate Written(toks: seq<Tok>, params: Params, pos: nat, t: Template, end: nat) {
    Holds(toks, pos, Flatten(t)) && end == pos + |Flatten(t)| && WellTyped(t, params)
  }

  /** What Parse returns is written in the list, from pos to where it stopped. */
  lemma {:induction false} ParseSound(toks: seq<Tok>, params: Params, pos: nat)
    requires pos <= |toks| && PlainClauses(toks)
    requires Parse(toks, params, pos).Ok?
    ensures Written(toks, params, pos, Parse(toks, params, pos).tree, Parse(toks, params, pos).pos)
    decreases |toks| - pos, 1
  {
    if Stops(toks, pos) {
    } else if toks[pos].kind.TokIf? {
      ParseSoundIf(toks, params, pos);
    } else {
      ParseSound(toks, params, pos + 1);
      HoldsOne(toks, pos);
      HoldsJoin(toks, pos, [toks[pos]], Flatten(Parse(toks, params, pos + 1).tree));
    }
  }

  lemma {:induction false} ParseSoundIf(toks: seq<Tok>, params: Params, pos: nat)
    requires pos < |toks| && PlainClauses(toks) && toks[pos].kind.TokIf?
    requires Parse(toks, params, pos).Ok?
    ensures Written(toks, params, pos, Parse(toks, params, pos).tree, Parse(toks, params, pos).pos)
    decreases |toks| - pos, 0
  {
    var p, q := ParseIfParts(toks, params, pos);
    ParseSound(toks, params, pos + 1);
    ParseChainSound(toks, params, p);
    ParseSound(toks, params, q);
    var r := Parse(toks, params, pos);
    WrittenIf(toks, params, pos, r.tree.body, p, r.tree.chain, q, r.tree.next, r.pos);
  }

  /** The three calls that an accepted if is made of. */
  lemma ParseIfParts(toks: seq<Tok>, params: Params, pos: nat) returns (p: nat, q: nat)
    requires pos < |toks| && toks[pos].kind.TokIf?
    requires Parse(toks, params, pos).Ok?
    ensures var r := Parse(toks, params, pos);
            && r.tree.If? && r.tree.cond == toks[pos].text
            && Parse(toks, params, pos + 1) == Ok(r.tree.body, p)
            && pos < p < |toks| && Stops(toks, p)
            && ParseChain(toks, params, p) == Ok(r.tree.chain, q)
            && p < q <= |toks|
            && Parse(toks, params, q) == Ok(r.tree.next, r.pos)
  {
    p := Parse(toks, params, pos + 1).pos;
    q := ParseChain(toks, params, p).pos;
  }

  lemma ParseElseIfParts(toks: seq<Tok>, params: Params, pos: nat) returns (p: nat)
    requires pos < |toks| && toks[pos].kind.TokElseIf?
    requires ParseChain(toks, params, pos).Ok?
    ensures var r := ParseChain(toks, params, pos);
            && r.tree.ElseIf? && r.tree.cond == toks[pos].text
            && Parse(toks, params, pos + 1) == Ok(r.tree.body, p)
            && pos < p < |toks| && Stops(toks, p)
            && ParseChain(toks, params, p) == Ok(r.tree.chain, r.pos)
  {
    p := Parse(toks, params, pos + 1).pos;
  }

  lemma WrittenIf(toks: seq<Tok>, params: Params, pos: nat,
                  body: Template, p: nat, chain: Chain, q: nat, next: Template, end: nat)
    requires pos < |toks| && toks[pos].kind.TokIf?
    requires Written(toks, params, pos + 1, body, p)
    requires WrittenChain(toks, params, p, chain, q)
    requires Written(toks, params, q, next, end)
    ensures Written(toks, params, pos, If(toks[pos].text, body, chain, next), end)
  {
    HoldsIf(toks, pos, body, chain, next);
  }

  lemma HoldsIf(toks: seq<Tok>, pos: nat, body: Template, chain: Chain, next: Template)
    requires pos < |toks| && toks[pos].kind.TokIf?
    requires Holds(toks, pos + 1, Flatten(body))
    requires Holds(toks, pos + 1 + |Flatten(body)|, FlattenChain(chain))
    requires Holds(toks, pos + 1 + |Flatten(body)| + |FlattenChain(chain)|, Flatten(next))
    ensures Holds(toks, pos, Flatten(If(toks[pos].text, body, chain, next)))
  {
    HoldsJoin(toks, pos + 1 + |Flatten(body)|, FlattenChain(chain), Flatten(next));
    HoldsJoin(toks, pos + 1, Flatten(body), FlattenChain(chain) + Flatten(next));
    HoldsOne(toks, pos);
    HoldsJoin(toks, pos, [toks[pos]], Flatten(body) + (FlattenChain(chain) + Flatten(next)));
  }

  lemma {:induction false} ParseChainSound(toks: seq<Tok>, params: Params, pos: nat)
    requires pos <= |toks| && Stops(toks, pos) && PlainClauses(toks)
    requires ParseChain(toks, params, pos).Ok?
    ensures WrittenChain(toks, params, pos, ParseChain(toks, params, pos).tree, ParseChain(toks, params, pos).pos)
    decreases |toks| - pos, 1
  {
    HoldsOne(toks, pos);
    if toks[pos].kind.TokElse? {
      ParseSound(toks, params, pos + 1);
      var body := Parse(toks, params, pos + 1);
      HoldsOne(toks, body.pos);
      HoldsJoin(toks, pos + 1, Flatten(body.tree), [toks[body.pos]]);
      HoldsJoin(toks, pos, [toks[pos]], Flatten(body.tree) + [toks[body.pos]]);
    } else if toks[pos].kind.TokElseIf? {
      var p := ParseElseIfParts(toks, params, pos);
      ParseSound(toks, params, pos + 1);
      ParseChainSound(toks, params, p);
      var r := ParseChain(toks, params, pos).tree;
      HoldsJoin(toks, pos + 1, Flatten(r.body), FlattenChain(r.chain));
      HoldsJoin(toks, pos, [toks[pos]], Flatten(r.body) + FlattenChain(r.chain));
    }
  }

  /** Whatever tree is written in the list at pos, up to a stop, is what Parse returns. */
  lemma {:induction false} ParseComplete(toks: seq<Tok>, params: Params, pos: nat, t: Template, end: nat)
    requires Written(toks, params, pos, t, end) && Stops(toks, end)
    ensures Parse(toks, params, pos) == Ok(t, end)
    decreases t, 1
  {
    match t
    case Empty =>
    case Text(s, next) =>
      HoldsFirst(toks, pos, Tok(TokText, s), Flatten(next));
      ParseComplete(toks, params, pos + 1, next, end);
    case Subst(name, next) =>
      HoldsFirst(toks, pos, Tok(TokSubst, name), Flatten(next));
      ParseComplete(toks, params, pos + 1, next, end);
    case If(cond, body, chain, next) =>
      ParseCompleteIf(toks, params, pos, t, end);
  }

  lemma {:induction false} ParseCompleteIf(toks: seq<Tok>, params: Params, pos: nat, t: Template, end: nat)
    requires t.If? && Written(toks, params, pos, t, end) && Stops(toks, end)
    ensures Parse(toks, params, pos) == Ok(t, end)
    decreases t, 0
  {
    var p, q := SplitIf(toks, params, pos, t, end);
    ParseComplete(toks, params, pos + 1, t.body, p);
    ParseChainComplete(toks, params, p, t.chain, q);
    ParseComplete(toks, params, q, t.next, end);
    ParseIfStep(toks, params, pos, t.body, t.chain, t.next, p, q);
  }

  ghost predicate WrittenChain(toks: seq<Tok>, params: Params, pos: nat, c: Chain, end: nat) {
    Holds(toks, pos, FlattenChain(c)) && end == pos + |FlattenChain(c)| && WellTypedChain(c, params)
  }

  /** Where the parts of an if stand. */
  lemma SplitIf(toks: seq<Tok>, params: Params, pos: nat, t: Template, end: nat) returns (p: nat, q: nat)
    requires t.If? && Written(toks, params, pos, t, end)
    ensures pos < |toks| && toks[pos] == Tok(TokIf, t.cond)
    ensures Written(toks, params, pos + 1, t.body, p) && p < |toks| && Stops(toks, p)
    ensures WrittenChain(toks, params, p, t.chain, q)
    ensures Written(toks, params, q, t.next, end)
  {
    HoldsFirst(toks, pos, Tok(TokIf, t.cond), Flatten(t.body) + (FlattenChain(t.chain) + Flatten(t.next)));
    HoldsSplit(toks, pos + 1, Flatten(t.body), FlattenChain(t.chain) + Flatten(t.next));
    p := pos + 1 + |Flatten(t.body)|;
    HoldsSplit(toks, p, FlattenChain(t.chain), Flatten(t.next));
    HoldsClause(toks, p, t.chain);
    q := p + |FlattenChain(t.chain)|;
  }

  lemma ParseIfStep(toks: seq<Tok>, params: Params, pos: nat,
                    body: Template, chain: Chain, next: Template, p: nat, q: nat)
    requires pos < |toks| && toks[pos].kind.TokIf?
    requires Parse(toks, params, pos + 1) == Ok(body, p)
    requires ParseChain(toks, params, p) == Ok(chain, q)
    requires Parse(toks, params, q).Ok? && Parse(toks, params, q).tree == next
    ensures Parse(toks, params, pos) == Ok(If(toks[pos].text, body, chain, next), Parse(toks, params, q).pos)
  {
  }

  lemma HoldsClause(toks: seq<Tok>, pos: nat, c: Chain)
    requires Holds(toks, pos, FlattenChain(c))
    ensures pos < |toks| && Stops(toks, pos)
  {
    assert toks[pos + 0] == FlattenChain(c)[0];
  }

  lemma {:induction false} ParseChainComplete(toks: seq<Tok>, params: Params, pos: nat, c: Chain, end: nat)
    requires WrittenChain(toks, params, pos, c, end)
    ensures Stops(toks, pos)
    ensures ParseChain(toks, params, pos) == Ok(c, end)
    decreases c
  {
    HoldsClause(toks, pos, c);
    match c
    case End => HoldsFirst(toks, pos, Tok(TokEnd, ""), []);
    case Else(body) =>
      SplitElse(toks, params, pos, c, end);
      ParseComplete(toks, params, pos + 1, body, end - 1);
    case ElseIf(cond, body, chain) =>
      var p := SplitElseIf(toks, params, pos, c, end);
      ParseComplete(toks, params, pos + 1, body, p);
      ParseChainComplete(toks, params, p, chain, end);
  }

  lemma SplitElse(toks: seq<Tok>, params: Params, pos: nat, c: Chain, end: nat)
    requires c.Else? && WrittenChain(toks, params, pos, c, end)
    ensures end <= |toks| && toks[pos] == Tok(TokElse, "") && toks[end - 1] == Tok(TokEnd, "")
    ensures Written(toks, params, pos + 1, c.body, end - 1)
  {
    HoldsFirst(toks, pos, Tok(TokElse, ""), Flatten(c.body) + [Tok(TokEnd, "")]);
    HoldsSplit(toks, pos + 1, Flatten(c.body), [Tok(TokEnd, "")]);
    HoldsFirst(toks, end - 1, Tok(TokEnd, ""), []);
  }

  lemma SplitElseIf(toks: seq<Tok>, params: Params, pos: nat, c: Chain, end: nat) returns (p: nat)
    requires c.ElseIf? && WrittenChain(toks, params, pos, c, end)
    ensures pos < |toks| && toks[pos] == Tok(TokElseIf, c.cond)
    ensures Written(toks, params, pos + 1, c.body, p) && p < |toks| && Stops(toks, p)
    ensures WrittenChain(toks, params, p, c.chain, end)
  {
    HoldsFirst(toks, pos, Tok(TokElseIf, c.cond), Flatten(c.body) + FlattenChain(c.chain));
    HoldsSplit(toks, pos + 1, Flatten(c.body), FlattenChain(c.chain));
    p := pos + 1 + |Flatten(c.body)|;
    HoldsClause(toks, p, c.chain);
  }

  /** A token list is accepted exactly when it is the flattening of a well-typed tree, and that is the tree found. */
  lemma RecognitionExact(toks: seq<Tok>, params: Params, t: Template)
    requires PlainClauses(toks)
    ensures ParseAll(toks, params) == Success(t) <==> Flatten(t) == toks && WellTyped(t, params)
  {
    if ParseAll(toks, params) == Success(t) {
      ParseSound(toks, params, 0);
      assert toks == Flatten(t);
    }
    if Flatten(t) == toks && WellTyped(t, params) {
      ParseComplete(toks, params, 0, t, |toks|);
    }
  }

  predicate SubstTyped(tk: Tok, params: Params) {
    tk.kind.TokSubst? ==> tk.text in params && (params[tk.text].typ == "string" || params[tk.text].typ == "*string")
  }

  ghost predicate SubstsTyped(toks: seq<Tok>, params: Params) {
    forall tk | tk in toks :: SubstTyped(tk, params)
  }

  /** Well typed means: every substitution among the tokens names a parameter of type string or *string. */
  lemma {:induction false} WellTypedExact(t: Template, params: Params)
    ensures WellTyped(t, params) <==> SubstsTyped(Flatten(t), params)
  {
    match t
    case Empty =>
    case Text(s, next) =>
      WellTypedExact(next, params);
    case Subst(name, next) =>
      WellTypedExact(next, params);
      assert Flatten(t)[0] == Tok(TokSubst, name) && Flatten(t)[1..] == Flatten(next);
      assert SubstsTyped(Flatten(t), params) <==>
             SubstTyped(Flatten(t)[0], params) && SubstsTyped(Flatten(next), params);
    case If(_, body, chain, next) =>
      WellTypedExact(body, params);
      WellTypedChainExact(chain, params);
      WellTypedExact(next, params);
  }

  lemma {:induction false} WellTypedChainExact(c: Chain, params: Params)
    ensures WellTypedChain(c, params) <==> SubstsTyped(FlattenChain(c), params)
  {
    match c
    case End =>
    case Else(body) => WellTypedExact(body, params);
    case ElseIf(_, body, chain) =>
      WellTypedExact(body, params);
      WellTypedChainExact(chain, params);
  }

  // ---- The recogniser's errors, by a stack ----

  /** The ifs a position is inside, the innermost first: before its else, or after it. */
  datatype Blocks = Outside | InIf(outer: Blocks) | InElse(outer: Blocks)

  /** The first error met reading one token after the other with nothing but a stack of blocks; None if none is. */
  function StackError(toks: seq<Tok>, params: Params, pos: nat, blocks: Blocks): Option<CompileError>
    requires pos <= |toks|
    decreases |toks| - pos
  {
    if pos == |toks| then
      match blocks case Outside => None case InIf(_) => Some(MissingEnd) case InElse(_) => Some(ExpectedEndAfterElse)
    else
      var tk := toks[pos];
      match tk.kind
      case TokText => StackError(toks, params, pos + 1, blocks)
      case TokSubst =>
        if tk.text !in params then Some(UnknownParam(tk.text))
        else if params[tk.text].typ !in {"string", "*string"} then
          Some(UnsupportedType(params[tk.text].typ, tk.text))
        else StackError(toks, params, pos + 1, blocks)
      case TokIf => StackError(toks, params, pos + 1, InIf(blocks))
      case _ =>
        match blocks
        case Outside => Some(UnexpectedToken(tk.text))
        case InElse(outer) =>
          if tk.kind.TokEnd? then StackError(toks, params, pos + 1, outer) else Some(ExpectedEndAfterElse)
        case InIf(outer) =>
          StackError(toks, params, pos + 1,
                     if tk.kind.TokEnd? then outer else if tk.kind.TokElse? then InElse(outer) else blocks)
  }

  lemma {:induction false} ParseByStack(toks: seq<Tok>, params: Params, pos: nat, blocks: Blocks)
    requires pos <= |toks|
    ensures StackError(toks, params, pos, blocks) ==
            match Parse(toks, params, pos)
            case Err(e) => Some(e)
            case Ok(_, p) => StackError(toks, params, p, blocks)
    decreases |toks| - pos, 1
  {
    if Stops(toks, pos) {
    } else if toks[pos].kind.TokIf? {
      ParseByStack(toks, params, pos + 1, InIf(blocks));
      var body := Parse(toks, params, pos + 1);
      if body.Ok? {
        ParseChainByStack(toks, params, body.pos, blocks);
        var chain := ParseChain(toks, params, body.pos);
        if chain.Ok? {
          ParseByStack(toks, params, chain.pos, blocks);
        }
      }
    } else {
      ParseByStack(toks, params, pos + 1, blocks);
    }
  }

  lemma {:induction false} ParseChainByStack(toks: seq<Tok>, params: Params, pos: nat, blocks: Blocks)
    requires pos <= |toks| && Stops(toks, pos)
    ensures StackError(toks, params, pos, InIf(blocks)) ==
            match ParseChain(toks, params, pos)
            case Err(e) => Some(e)
            case Ok(_, p) => StackError(toks, params, p, blocks)
    decreases |toks| - pos, 1
  {
    if pos < |toks| && toks[pos].kind.TokElse? {
      ParseByStack(toks, params, pos + 1, InElse(blocks));
    } else if pos < |toks| && toks[pos].kind.TokElseIf? {
      ParseByStack(toks, params, pos + 1, InIf(blocks));
      var body := Parse(toks, params, pos + 1);
      if body.Ok? {
        ParseChainByStack(toks, params, body.pos, blocks);
      }
    }
  }

  /** The recursive recogniser rejects a list with exactly the error that the stack meets first. */
  lemma RejectionExact(toks: seq<Tok>, params: Params)
    ensures match ParseAll(toks, params)
            case Success(_) => StackError(toks, params, 0, Outside) == None
            case Failure(e) => StackError(toks, params, 0, Outside) == Some(e)
  {
    ParseByStack(toks, params, 0, Outside);
  }

  // ---- One token list, one tree ----

  function Names(t: Template): set<string> {
    match t
    case Empty => {}
    case Text(_, next) => Names(next)
    case Subst(name, next) => {name} + Names(next)
    case If(_, body, chain, next) => Names(body) + ChainNames(chain) + Names(next)
  }

  function ChainNames(c: Chain): set<string> {
    match c
    case End => {}
    case Else(body) => Names(body)
    case ElseIf(_, body, chain) => Names(body) + ChainNames(chain)
  }

  function AllStrings(names: set<string>): Params {
    map n | n in names :: Param(n, "string", false)
  }

  lemma {:induction false} NamedWellTyped(t: Template, names: set<string>)
    requires Names(t) <= names
    ensures WellTyped(t, AllStrings(names))
  {
    match t
    case Empty =>
    case Text(_, next) => NamedWellTyped(next, names);
    case Subst(_, next) => NamedWellTyped(next, names);
    case If(_, body, chain, next) =>
      NamedWellTyped(body, names);
      NamedWellTypedChain(chain, names);
      NamedWellTyped(next, names);
  }

  lemma {:induction false} NamedWellTypedChain(c: Chain, names: set<string>)
    requires ChainNames(c) <= names
    ensures WellTypedChain(c, AllStrings(names))
  {
    match c
    case End =>
    case Else(body) => NamedWellTyped(body, names);
    case ElseIf(_, body, chain) =>
      NamedWellTyped(body, names);
      NamedWellTypedChain(chain, names);
  }

  /** Flattening loses nothing. */
  lemma FlattenInjective(t: Template, u: Template)
    requires Flatten(t) == Flatten(u)
    ensures t == u
  {
    var names := Names(t) + Names(u);
    var toks := Flatten(t);
    NamedWellTyped(t, names);
    NamedWellTyped(u, names);
    ParseComplete(toks, AllStrings(names), 0, t, |toks|);
    ParseComplete(toks, AllStrings(names), 0, u, |toks|);
  }
}
