/** internal/tokenizer.go: cutting a SQL template into text and {{...}} actions. */
module Tokenizer {
  import opened Wrappers
  import opened Sequences
  import opened Strings

  datatype TokKind = TokText | TokIf | TokElseIf | TokElse | TokEnd | TokSubst

  /** text is the literal text, the condition of an if or else-if, or the name of a substitution. */
  datatype Tok = Tok(kind: TokKind, text: string)

  datatype LexError = Unclosed | UnrecognisedAction(action: string)

  predicate IsIdentStart(c: char) {
    c == '_' || 'a' <= c <= 'z' || 'A' <= c <= 'Z'
  }

  predicate IsIdentPart(c: char) {
    IsIdentStart(c) || '0' <= c <= '9'
  }

  predicate IsIdent(s: string) {
    s != "" && IsIdentStart(s[0]) && forall i | 0 < i < |s| :: IsIdentPart(s[i])
  }

  const LOWER := "abcdefghijklmnopqrstuvwxyz"
  const UPPER := "ABCDEFGHIJKLMNOPQRSTUVWXYZ"
  const LETTERS := "_" + LOWER + UPPER
  const DIGITS := "0123456789"

  /** The identifiers are the non-empty words over these characters and the digits that do not begin with a digit. */
  lemma IsIdentExact(s: string)
    ensures IsIdent(s) <==>
            && s != ""
            && s[0] in LETTERS
            && forall i | 0 <= i < |s| :: s[i] in LETTERS + DIGITS
  {
    forall c: char
      ensures IsIdentStart(c) <==> c in LETTERS
      ensures IsIdentPart(c) <==> c in LETTERS + DIGITS
    {
      IdentCharExact(c);
    }
  }

  lemma IdentCharExact(c: char)
    ensures IsIdentStart(c) <==> c in LETTERS
    ensures IsIdentPart(c) <==> c in LETTERS + DIGITS
  {
    LetterExact(c);
    assert c in DIGITS <==> '0' <= c <= '9';
  }

  lemma LetterExact(c: char)
    ensures c in LOWER <==> 'a' <= c <= 'z'
    ensures c in UPPER <==> 'A' <= c <= 'Z'
  {
  }

  function Classify(s: string): Result<Tok, LexError> {
    if s == "end" then Success(Tok(TokEnd, ""))
    else if s == "else" then Success(Tok(TokElse, ""))
    else if "else if " <= s then Success(Tok(TokElseIf, TrimSpace(s[|"else if"|..])))
    else if "if " <= s then Success(Tok(TokIf, TrimSpace(s[|"if"|..])))
    else if IsIdent(s) then Success(Tok(TokSubst, s))
    else Failure(UnrecognisedAction(s))
  }

  /** keyword, a space, perhaps more spaces, and the trimmed condition. */
  ghost predicate Conditional(s: string, keyword: string, cond: string) {
    cond != "" && Trimmed(cond) && exists pad :: Blank(pad) && s == keyword + " " + (pad + cond)
  }

  /** What each kind of action looks like inside its braces, trimmed. */
  ghost predicate ActionText(s: string, tk: Tok) {
    match tk.kind
    case TokText => false
    case TokIf => Conditional(s, "if", tk.text)
    case TokElseIf => Conditional(s, "else if", tk.text)
    case TokElse => s == "else" && tk.text == ""
    case TokEnd => s == "end" && tk.text == ""
    case TokSubst => s == tk.text && IsIdent(s) && s != "end" && s != "else"
  }

  /** An action is classified as a token if and only if it looks like that token. */
  lemma ClassifyExact(s: string, tk: Tok)
    requires Trimmed(s)
    ensures Classify(s) == Success(tk) <==> ActionText(s, tk)
  {
    ConditionExact(s, "if", tk.text);
    ConditionExact(s, "else if", tk.text);
    if s != "" {
      assert "if " <= s ==> s[0] == 'i' && s[2] == ' ';
      assert "else if " <= s ==> s[0] == 'e' && s[4] == ' ';
    }
  }

  lemma ConditionExact(s: string, keyword: string, cond: string)
    requires Trimmed(s)
    ensures Conditional(s, keyword, cond) <==>
            keyword + " " <= s && TrimSpace(s[|keyword|..]) == cond
  {
    if keyword + " " <= s {
      var rest := s[|keyword|..];
      assert s == keyword + rest && rest[0] == ' ';
      assert rest[|rest| - 1] == s[|s| - 1];
      TrimSpaceLeading(rest, cond);
      if TrimSpace(rest) == cond {
        var pad :| Blank(pad) && rest == pad + cond;
        assert pad != "" by { assert cond[0] != ' '; }
        assert s == keyword + " " + (pad[1..] + cond);
      }
      forall pad | Blank(pad) && s == keyword + " " + (pad + cond)
        ensures rest == (" " + pad) + cond && Blank(" " + pad)
      {
      }
    }
    forall pad | s == keyword + " " + (pad + cond)
      ensures keyword + " " <= s
    {
    }
  }

  type LexResult = Result<seq<Tok>, LexError>

  function After(prefix: seq<Tok>, r: LexResult): LexResult {
    match r
    case Success(rest) => Success(prefix + rest)
    case Failure(e) => Failure(e)
  }

  function LeadingText(text: string): seq<Tok> {
    if text == "" then [] else [Tok(TokText, text)]
  }

  /** What tokenize returns, as a function; LexSound and LexComplete say which texts it accepts and how it cuts them. */
  function Lex(sql: string): LexResult
    decreases |sql|
  {
    if sql == "" then Success([])
    else
      var open := IndexPair(sql, '{');
      if open < 0 then Success([Tok(TokText, sql)])
      else
        LexAction(sql[..open], sql[open + 2..])
  }

  /** after follows the opening braces, text precedes them. */
  function LexAction(text: string, after: string): LexResult
    decreases |after|
  {
    var close := IndexPair(after, '}');
    if close < 0 then Failure(Unclosed)
    else
      var tk :- Classify(TrimSpace(after[..close]));
      After(LeadingText(text) + [tk], Lex(after[close + 2..]))
  }

  lemma AfterAfter(a: seq<Tok>, b: seq<Tok>, r: LexResult)
    ensures After(a, After(b, r)) == After(a + b, r)
  {
    if r.Success? {
      assert a + (b + r.value) == a + b + r.value;
    }
  }

  lemma AfterNothing(r: LexResult)
    ensures After([], r) == r
  {
    if r.Success? {
      assert [] + r.value == r.value;
    }
  }

  /** The loop of tokenize, which shrinks its text from the left. */
  method Tokenize(template: string) returns (r: LexResult)
    ensures r == Lex(template)
  {
    var sql := template;
    var tokens: seq<Tok> := [];
    AfterNothing(Lex(sql));
    while |sql| > 0
      invariant Lex(template) == After(tokens, Lex(sql))
      decreases |sql|
    {
      var open := IndexPair(sql, '{');
      if open < 0 {
        tokens := tokens + [Tok(TokText, sql)];
        return Success(tokens);
      }
      ghost var tokensWas, leading := tokens, LeadingText(sql[..open]);
      if open > 0 {
        tokens := tokens + [Tok(TokText, sql[..open])];
      }
      sql := sql[open + 2..];
      var closeIdx := IndexPair(sql, '}');
      if closeIdx < 0 {
        return Failure(Unclosed);
      }
      var inner := TrimSpace(sql[..closeIdx]);
      sql := sql[closeIdx + 2..];
      var tk := Classify(inner);
      if tk.Failure? {
        return Failure(tk.error);
      }
      tokens := tokens + [tk.value];
      assert tokens == tokensWas + (leading + [tk.value]);
      AfterAfter(tokensWas, leading + [tk.value], Lex(sql));
    }
    assert tokens + [] == tokens;
    return Success(tokens);
  }

  // ---- What a cut of a template is, without reference to the scanner ----

  datatype Piece = TextPiece(text: string) | ActionPiece(inner: string)

  function Raw(p: Piece): string {
    match p
    case TextPiece(text) => text
    case ActionPiece(inner) => "{{" + inner + "}}"
  }

  function Concat(pieces: seq<Piece>): string {
    if pieces == [] then "" else Raw(pieces[0]) + Concat(pieces[1..])
  }

  /** A text piece is its token; an action is closed by the first braces in it and names its token inside. */
  ghost predicate Spells(p: Piece, tk: Tok) {
    match p
    case TextPiece(text) => tk == Tok(TokText, text) && text != "" && NoPair(text, '{')
    case ActionPiece(inner) => Clear(inner, '}') && Classify(TrimSpace(inner)) == Success(tk)
  }

  /** A text piece is never followed by another, and does not lend a brace to the action after it. */
  ghost predicate Fits(p: Piece, next: Piece) {
    p.TextPiece? ==> next.ActionPiece? && Clear(p.text, '{')
  }

  ghost predicate ValidCut(pieces: seq<Piece>, toks: seq<Tok>) {
    && |pieces| == |toks|
    && (pieces != [] ==>
          && Spells(pieces[0], toks[0])
          && (|pieces| > 1 ==> Fits(pieces[0], pieces[1]))
          && ValidCut(pieces[1..], toks[1..]))
  }

  lemma LexOpens(text: string, after: string)
    requires Clear(text, '{')
    ensures Lex(text + (['{', '{'] + after)) == LexAction(text, after)
  {
    IndexPairFinds(text, '{', after);
  }

  lemma RawAction(inner: string, rest: string)
    ensures Raw(ActionPiece(inner)) + rest == ['{', '{'] + (inner + (['}', '}'] + rest))
  {
  }

  /** One turn of the scanner, over the text before an action, the action and the rest. */
  lemma LexTurn(text: string, inner: string, rest: string)
    requires Clear(text, '{') && Clear(inner, '}')
    ensures Lex(text + (Raw(ActionPiece(inner)) + rest)) ==
            match Classify(TrimSpace(inner))
            case Failure(e) => Failure(e)
            case Success(tk) => After(LeadingText(text) + [tk], Lex(rest))
  {
    var after := inner + (['}', '}'] + rest);
    var sql := text + (['{', '{'] + after);
    RawAction(inner, rest);
    LexOpens(text, after);
    LexActionTurn(text, inner, rest);
  }

  lemma LexActionTurn(text: string, inner: string, rest: string)
    requires Clear(inner, '}')
    ensures LexAction(text, inner + (['}', '}'] + rest)) ==
            match Classify(TrimSpace(inner))
            case Failure(e) => Failure(e)
            case Success(tk) => After(LeadingText(text) + [tk], Lex(rest))
  {
    IndexPairFinds(inner, '}', rest);
  }

  /** Scanner output is a cut of the template: nothing is lost, and text pieces are as the cut demands. */
  lemma {:induction false} LexSound(sql: string) returns (pieces: seq<Piece>)
    requires Lex(sql).Success?
    ensures ValidCut(pieces, Lex(sql).value)
    ensures Concat(pieces) == sql
    decreases |sql|
  {
    if sql == "" {
      return [];
    }
    var open := IndexPair(sql, '{');
    if open < 0 {
      IndexPairAbsent(sql, '{');
      assert Concat([TextPiece(sql)]) == sql + Concat([]) == sql;
      return [TextPiece(sql)];
    }
    var text, inner, rest := Turn(sql);
    LexTurn(text, inner, rest);
    var restPieces := LexSound(rest);
    pieces := CutTurn(text, inner, restPieces, Lex(rest).value);
  }

  lemma Turn(sql: string) returns (text: string, inner: string, rest: string)
    requires IndexPair(sql, '{') >= 0
    requires IndexPair(sql[IndexPair(sql, '{') + 2..], '}') >= 0
    ensures Clear(text, '{') && Clear(inner, '}')
    ensures sql == text + (Raw(ActionPiece(inner)) + rest)
  {
    var after: string;
    text, after := IndexPairSplits(sql, '{');
    inner, rest := IndexPairSplits(after, '}');
    RawAction(inner, rest);
  }

  lemma CutTurn(text: string, inner: string, restPieces: seq<Piece>, rest: seq<Tok>) returns (pieces: seq<Piece>)
    requires Clear(text, '{') && Clear(inner, '}')
    requires Classify(TrimSpace(inner)).Success?
    requires ValidCut(restPieces, rest)
    ensures ValidCut(pieces, LeadingText(text) + [Classify(TrimSpace(inner)).value] + rest)
    ensures |pieces| > |restPieces| && pieces[|pieces| - |restPieces| - 1..] == [ActionPiece(inner)] + restPieces
    ensures Concat(pieces) == text + (Raw(ActionPiece(inner)) + Concat(restPieces))
  {
    var tk := Classify(TrimSpace(inner)).value;
    pieces := [ActionPiece(inner)] + restPieces;
    var toks := [tk] + rest;
    assert pieces[1..] == restPieces && toks[1..] == rest;
    if text != "" {
      var textTok := Tok(TokText, text);
      assert ([TextPiece(text)] + pieces)[1..] == pieces && ([textTok] + toks)[1..] == toks;
      assert LeadingText(text) + [tk] + rest == [textTok] + toks;
      pieces := [TextPiece(text)] + pieces;
    } else {
      assert LeadingText(text) + [tk] + rest == toks;
    }
  }

  lemma ActionFirst(pieces: seq<Piece>, toks: seq<Tok>)
    requires ValidCut(pieces, toks) && pieces != [] && pieces[0].ActionPiece?
    ensures Clear(pieces[0].inner, '}') && Classify(TrimSpace(pieces[0].inner)) == Success(toks[0])
    ensures ValidCut(pieces[1..], toks[1..])
    ensures Concat(pieces) == Raw(ActionPiece(pieces[0].inner)) + Concat(pieces[1..])
  {
  }

  lemma TextFirst(pieces: seq<Piece>, toks: seq<Tok>)
    requires ValidCut(pieces, toks) && |pieces| > 1 && pieces[0].TextPiece?
    ensures LeadingText(pieces[0].text) == [toks[0]] && Clear(pieces[0].text, '{')
    ensures ValidCut(pieces[1..], toks[1..]) && pieces[1].ActionPiece?
    ensures Concat(pieces) == pieces[0].text + Concat(pieces[1..])
  {
  }

  /** The first turn's worth of a cut: perhaps a text, and an action. */
  lemma FirstTurn(pieces: seq<Piece>, toks: seq<Tok>)
    returns (text: string, inner: string, pieces': seq<Piece>, toks': seq<Tok>)
    requires ValidCut(pieces, toks) && pieces != [] && (pieces[0].TextPiece? ==> |pieces| > 1)
    ensures Clear(text, '{') && Clear(inner, '}') && Classify(TrimSpace(inner)).Success?
    ensures toks == LeadingText(text) + [Classify(TrimSpace(inner)).value] + toks'
    ensures Concat(pieces) == text + (Raw(ActionPiece(inner)) + Concat(pieces'))
    ensures ValidCut(pieces', toks') && |pieces'| < |pieces| && pieces' == pieces[|pieces| - |pieces'|..]
  {
    if pieces[0].TextPiece? {
      TextFirst(pieces, toks);
      ActionFirst(pieces[1..], toks[1..]);
      text, inner, pieces', toks' := pieces[0].text, pieces[1].inner, pieces[2..], toks[2..];
      assert pieces[1..][1..] == pieces' && toks[1..][1..] == toks';
      assert toks == [toks[0]] + [toks[1]] + toks';
    } else {
      ActionFirst(pieces, toks);
      text, inner, pieces', toks' := "", pieces[0].inner, pieces[1..], toks[1..];
      assert toks == [] + [toks[0]] + toks';
      assert "" + Concat(pieces) == Concat(pieces);
    }
  }

  /** Every cut is the scanner's own: if pieces spell tokens and fit, their concatenation scans to those tokens. */
  lemma {:induction false} LexComplete(pieces: seq<Piece>, toks: seq<Tok>)
    requires ValidCut(pieces, toks)
    ensures Lex(Concat(pieces)) == Success(toks)
    decreases |pieces|
  {
    if pieces == [] {
    } else if |pieces| == 1 && pieces[0].TextPiece? {
      assert pieces[1..] == [] && Concat(pieces) == pieces[0].text + "" == pieces[0].text;
      IndexPairAbsent(pieces[0].text, '{');
      assert toks == [Tok(TokText, pieces[0].text)];
    } else {
      var text, inner, pieces', toks' := FirstTurn(pieces, toks);
      LexComplete(pieces', toks');
      LexTurn(text, inner, Concat(pieces'));
    }
  }

  /** The scanner accepts exactly the templates that have a cut, and returns what the cut spells. */
  lemma LexExact(sql: string, toks: seq<Tok>)
    ensures Lex(sql) == Success(toks) <==> exists pieces :: ValidCut(pieces, toks) && Concat(pieces) == sql
  {
    if Lex(sql) == Success(toks) {
      var pieces := LexSound(sql);
    }
    forall pieces | ValidCut(pieces, toks) && Concat(pieces) == sql
      ensures Lex(sql) == Success(toks)
    {
      LexComplete(pieces, toks);
    }
  }

  // ---- Which templates it rejects, and why ----

  /** What follows an opening brace pair and cannot be an action. */
  ghost predicate BadAction(after: string, e: LexError) {
    match e
    case Unclosed => NoPair(after, '}')
    case UnrecognisedAction(action) =>
      && (forall tk :: !ActionText(action, tk))
      && exists inner, more ::
           Clear(inner, '}') && action == TrimSpace(inner) && after == inner + (['}', '}'] + more)
  }

  ghost predicate Fault(rest: string, e: LexError) {
    exists text, after :: Clear(text, '{') && rest == text + (['{', '{'] + after) && BadAction(after, e)
  }

  /** Pieces that are a cut, up to and including an action, and then the fault. */
  ghost predicate FaultAfter(sql: string, e: LexError, pieces: seq<Piece>, toks: seq<Tok>, rest: string) {
    && ValidCut(pieces, toks)
    && (pieces != [] ==> pieces[|pieces| - 1].ActionPiece?)
    && sql == Concat(pieces) + rest
    && Fault(rest, e)
  }

  lemma BadActionFails(text: string, after: string, e: LexError)
    requires BadAction(after, e)
    ensures LexAction(text, after) == Failure(e)
  {
    match e
    case Unclosed => IndexPairAbsent(after, '}');
    case UnrecognisedAction(action) =>
      var inner, more :|
        Clear(inner, '}') && action == TrimSpace(inner) && after == inner + (['}', '}'] + more);
      IndexPairFinds(inner, '}', more);
      var lo, hi := TrimSpacePart(inner);
      if Classify(action).Success? {
        ClassifyExact(action, Classify(action).value);
      }
  }

  lemma {:induction false} LexPrefix(pieces: seq<Piece>, toks: seq<Tok>, rest: string)
    requires ValidCut(pieces, toks) && (pieces != [] ==> pieces[|pieces| - 1].ActionPiece?)
    ensures Lex(Concat(pieces) + rest) == After(toks, Lex(rest))
    decreases |pieces|
  {
    if pieces == [] {
      assert "" + rest == rest;
      AfterNothing(Lex(rest));
    } else {
      var text, inner, pieces', toks' := FirstTurn(pieces, toks);
      LexPrefix(pieces', toks', rest);
      LexTurn(text, inner, Concat(pieces') + rest);
      Regroup(text, Raw(ActionPiece(inner)), Concat(pieces'), rest);
      AfterAfter(LeadingText(text) + [Classify(TrimSpace(inner)).value], toks', Lex(rest));
    }
  }

  /** What follows an opening brace pair is no action, or is one with more after it. */
  lemma ReadAction(after: string) returns (bad: Option<LexError>, inner: string, more: string)
    ensures bad.Some? ==> BadAction(after, bad.value)
    ensures bad.None? ==>
              Clear(inner, '}') && after == inner + (['}', '}'] + more) && Classify(TrimSpace(inner)).Success?
  {
    inner, more := "", "";
    if IndexPair(after, '}') < 0 {
      IndexPairAbsent(after, '}');
      return Some(Unclosed), inner, more;
    }
    inner, more := IndexPairSplits(after, '}');
    var action := TrimSpace(inner);
    if Classify(action).Success? {
      return None, inner, more;
    }
    var lo, hi := TrimSpacePart(inner);
    forall tk
      ensures !ActionText(action, tk)
    {
      ClassifyExact(action, tk);
    }
    bad := Some(UnrecognisedAction(action));
  }

  lemma FaultFails(rest: string, e: LexError)
    requires Fault(rest, e)
    ensures Lex(rest) == Failure(e)
  {
    var text, after :| Clear(text, '{') && rest == text + (['{', '{'] + after) && BadAction(after, e);
    LexOpens(text, after);
    BadActionFails(text, after, e);
  }

  lemma FaultAtOnce(sql: string, e: LexError)
    requires Fault(sql, e)
    ensures FaultAfter(sql, e, [], [], sql)
  {
    assert Concat([]) + sql == sql;
  }

  lemma {:induction false} FindFault(sql: string) returns (pieces: seq<Piece>, toks: seq<Tok>, rest: string)
    requires Lex(sql).Failure?
    ensures FaultAfter(sql, Lex(sql).error, pieces, toks, rest)
    decreases |sql|
  {
    var text, after := IndexPairSplits(sql, '{');
    var bad, inner, more := ReadAction(after);
    if bad.Some? {
      assert Fault(sql, bad.value);
      FaultFails(sql, bad.value);
      FaultAtOnce(sql, bad.value);
      return [], [], sql;
    }
    RawAction(inner, more);
    LexTurn(text, inner, more);
    pieces, toks, rest := FindFault(more);
    pieces, toks := LaterFault(text, inner, more, Lex(more).error, pieces, toks, rest);
  }

  lemma LaterFault(text: string, inner: string, more: string, e: LexError,
                   restPieces: seq<Piece>, restToks: seq<Tok>, rest: string)
    returns (pieces: seq<Piece>, toks: seq<Tok>)
    requires Clear(text, '{') && Clear(inner, '}') && Classify(TrimSpace(inner)).Success?
    requires FaultAfter(more, e, restPieces, restToks, rest)
    ensures FaultAfter(text + (Raw(ActionPiece(inner)) + more), e, pieces, toks, rest)
  {
    pieces := CutTurn(text, inner, restPieces, restToks);
    toks := LeadingText(text) + [Classify(TrimSpace(inner)).value] + restToks;
    Regroup(text, Raw(ActionPiece(inner)), Concat(restPieces), rest);
    var n := |pieces| - |restPieces| - 1;
    assert pieces[|pieces| - 1] == pieces[n..][|restPieces|];
  }

  /** The scanner rejects a template for a reason exactly if, after some pieces of a cut, it has that fault. */
  lemma LexFails(sql: string, e: LexError)
    ensures Lex(sql) == Failure(e) <==> exists pieces, toks, rest :: FaultAfter(sql, e, pieces, toks, rest)
  {
    if Lex(sql) == Failure(e) {
      var pieces, toks, rest := FindFault(sql);
    }
    forall pieces, toks, rest | FaultAfter(sql, e, pieces, toks, rest)
      ensures Lex(sql) == Failure(e)
    {
      LexPrefix(pieces, toks, rest);
      FaultFails(rest, e);
    }
  }

  // ---- Which token lists the scanner can return, and printing them ----

  ghost predicate CanonicalTok(tk: Tok) {
    match tk.kind
    case TokText => tk.text != "" && NoPair(tk.text, '{')
    case TokIf => CanonicalCondition(tk.text)
    case TokElseIf => CanonicalCondition(tk.text)
    case TokElse => tk.text == ""
    case TokEnd => tk.text == ""
    case TokSubst => IsIdent(tk.text) && tk.text != "end" && tk.text != "else"
  }

  ghost predicate CanonicalCondition(s: string) {
    s != "" && Trimmed(s) && NoPair(s, '}')
  }

  ghost predicate Canonical(toks: seq<Tok>) {
    && (forall i | 0 <= i < |toks| :: CanonicalTok(toks[i]))
    && (forall i | 0 <= i < |toks| - 1 ::
          toks[i].kind.TokText? ==> !toks[i + 1].kind.TokText? && toks[i].text[|toks[i].text| - 1] != '{')
  }

  function PrintTok(tk: Tok): string {
    match tk.kind
    case TokText => tk.text
    case TokIf => "{{ if " + tk.text + " }}"
    case TokElseIf => "{{ else if " + tk.text + " }}"
    case TokElse => "{{ else }}"
    case TokEnd => "{{ end }}"
    case TokSubst => "{{ " + tk.text + " }}"
  }

  function Print(toks: seq<Tok>): string {
    if toks == [] then "" else PrintTok(toks[0]) + Print(toks[1..])
  }

  /** Printing a canonical token list and scanning it again gives the list back. */
  lemma PrintThenLex(toks: seq<Tok>)
    requires Canonical(toks)
    ensures Lex(Print(toks)) == Success(toks)
  {
    var pieces := PrintedCut(toks);
    LexComplete(pieces, toks);
  }

  lemma {:induction false} PrintedCut(toks: seq<Tok>) returns (pieces: seq<Piece>)
    requires Canonical(toks)
    ensures ValidCut(pieces, toks) && Concat(pieces) == Print(toks)
    ensures forall i | 0 <= i < |toks| :: pieces[i].TextPiece? <==> toks[i].kind.TokText?
    decreases |toks|
  {
    if toks == [] {
      pieces := [];
    } else {
      var rest := PrintedCut(toks[1..]);
      var p := PrintSpells(toks[0]);
      pieces := [p] + rest;
      assert pieces[1..] == rest;
      if |toks| > 1 {
        assert pieces[1].TextPiece? <==> toks[1..][0].kind.TokText?;
      }
    }
  }

  lemma PrintSpells(tk: Tok) returns (p: Piece)
    requires CanonicalTok(tk)
    ensures Spells(p, tk) && Raw(p) == PrintTok(tk)
    ensures p.TextPiece? <==> tk.kind.TokText?
  {
    match tk.kind
    case TokText => p := TextPiece(tk.text);
    case TokIf => p := PrintSpellsCondition(tk, "if ");
    case TokElseIf => p := PrintSpellsCondition(tk, "else if ");
    case TokElse => p := PrintSpellsAction(tk, "else");
    case TokEnd => p := PrintSpellsAction(tk, "end");
    case TokSubst => p := PrintSpellsAction(tk, tk.text);
  }

  lemma PrintSpellsCondition(tk: Tok, keyword: string) returns (p: Piece)
    requires CanonicalCondition(tk.text)
    requires keyword in {"if ", "else if "} && tk.kind == (if keyword == "if " then TokIf else TokElseIf)
    ensures Spells(p, tk) && p.ActionPiece? && Raw(p) == PrintTok(tk)
  {
    var inner := keyword + tk.text;
    forall k
      ensures !PairAt(inner, '}', k)
    {
      assert !PairAt(tk.text, '}', k - |keyword|);
    }
    TrimSpacePad(tk.text);
    assert inner[|keyword| - 1..] == " " + tk.text;
    p := PrintSpellsAction(tk, inner);
  }

  lemma PrintSpellsAction(tk: Tok, inner: string) returns (p: Piece)
    requires inner != "" && Trimmed(inner) && NoPair(inner, '}')
    requires PrintTok(tk) == "{{ " + inner + " }}"
    requires Classify(inner) == Success(tk)
    ensures Spells(p, tk) && p.ActionPiece? && Raw(p) == PrintTok(tk)
  {
    p := ActionPiece(" " + inner + " ");
    PaddedClear(inner);
    TrimSpacePad(inner);
    assert "{{ " + inner + " }}" == "{{" + (" " + inner + " ") + "}}";
  }

  lemma PaddedClear(inner: string)
    requires NoPair(inner, '}')
    ensures Clear(" " + inner + " ", '}')
  {
    forall k
      ensures !PairAt(" " + inner + " ", '}', k)
    {
      assert !PairAt(inner, '}', k - 1);
    }
  }

  /** Everything the scanner returns is canonical. */
  lemma LexCanonical(sql: string)
    requires Lex(sql).Success?
    ensures Canonical(Lex(sql).value)
  {
    var pieces := LexSound(sql);
    CutCanonical(pieces, Lex(sql).value);
  }

  lemma {:induction false} CutCanonical(pieces: seq<Piece>, toks: seq<Tok>)
    requires ValidCut(pieces, toks)
    ensures Canonical(toks)
    ensures forall i | 0 <= i < |toks| :: pieces[i].TextPiece? <==> toks[i].kind.TokText?
    decreases |toks|
  {
    if toks != [] {
      CutCanonical(pieces[1..], toks[1..]);
      if pieces[0].ActionPiece? {
        ActionCanonical(pieces[0].inner, toks[0]);
      }
      assert forall i | 0 < i < |toks| :: toks[i] == toks[1..][i - 1] && pieces[i] == pieces[1..][i - 1];
    }
  }

  lemma ActionCanonical(inner: string, tk: Tok)
    requires NoPair(inner, '}') && Classify(TrimSpace(inner)) == Success(tk)
    ensures !tk.kind.TokText? && CanonicalTok(tk)
  {
    var lo, hi := TrimSpacePart(inner);
    var s := TrimSpace(inner);
    assert forall k :: PairAt(s, '}', k) ==> PairAt(inner, '}', lo + k);
    if s != "end" && s != "else" {
      if "else if " <= s {
        ConditionCanonical(s, 7);
      } else if "if " <= s {
        ConditionCanonical(s, 2);
      }
    }
  }

  lemma ConditionCanonical(s: string, n: nat)
    requires Trimmed(s) && n < |s|
    requires NoPair(s, '}')
    ensures CanonicalCondition(TrimSpace(s[n..]))
  {
    var lo, hi := TrimSpacePart(s[n..]);
    var c := TrimSpace(s[n..]);
    assert forall k :: PairAt(c, '}', k) ==> PairAt(s, '}', n + lo + k);
    TrimSpaceNonEmpty(s[n..]);
  }

  lemma {:induction false} TrimSpaceNonEmpty(s: string)
    requires s != "" && !IsSpace(s[|s| - 1])
    ensures TrimSpace(s) != ""
  {
    if IsSpace(s[0]) {
      TrimSpaceNonEmpty(s[1..]);
    }
  }

  /** The canonical lists are exactly those the scanner can return. */
  lemma CanonicalExact(toks: seq<Tok>)
    ensures Canonical(toks) <==> exists sql :: Lex(sql) == Success(toks)
  {
    if Canonical(toks) {
      PrintThenLex(toks);
    }
    forall sql | Lex(sql) == Success(toks)
      ensures Canonical(toks)
    {
      LexCanonical(sql);
    }
  }
}
