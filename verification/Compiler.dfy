/** internal/compiler.go: the code emitted for a template tree, what a template means, and that the code computes it. */
module Compiler {
  import opened Wrappers
  import opened Sequences
  import opened Strings
  import opened Tokenizer
  import opened NamedParams
  import opened Templates
  import opened GoFragment

  datatype Dialect = MySQL | Postgres | SQLite

  // ---- What a template means, in no dialect ----

  /** The characters and bound parameters of the query a template stands for: the first true branch of every if. */
  function Meaning(t: Template, params: Params, env: Env): seq<Atom> {
    match t
    case Empty => []
    case Text(s, next) => Atoms(s) + Meaning(next, params, env)
    case Subst(name, next) => Chars(Substituted(name, params, env)) + Meaning(next, params, env)
    case If(cond, body, chain, next) =>
      (if env.cond(cond) then Meaning(body, params, env) else ChainMeaning(chain, params, env))
      + Meaning(next, params, env)
  }

  function ChainMeaning(c: Chain, params: Params, env: Env): seq<Atom> {
    match c
    case End => []
    case Else(body) => Meaning(body, params, env)
    case ElseIf(cond, body, chain) =>
      if env.cond(cond) then Meaning(body, params, env) else ChainMeaning(chain, params, env)
  }

  predicate IsPointer(name: string, params: Params) {
    name in params && params[name].typ == "*string"
  }

  /** A nil *string stands for nothing. */
  function Substituted(name: string, params: Params, env: Env): string {
    if !IsPointer(name, params) then env.text(name)
    else match env.pointee(name) { case None => "" case Some(s) => s }
  }

  /** A branch of an if: its condition, or none for an else. */
  datatype Branch = Branch(cond: Option<string>, body: Template) {

    predicate Open(env: Env) {
      cond.Some? ==> env.cond(cond.value)
    }
  }

  function Branches(c: Chain): seq<Branch> {
    match c
    case End => []
    case Else(body) => [Branch(None, body)]
    case ElseIf(cond, body, chain) => [Branch(Some(cond), body)] + Branches(chain)
  }

  ghost predicate FirstOpen(bs: seq<Branch>, env: Env, k: nat) {
    k <= |bs| && (k < |bs| ==> bs[k].Open(env)) && forall i | 0 <= i < k :: !bs[i].Open(env)
  }

  lemma FirstOpenStep(b: Branch, bs: seq<Branch>, env: Env, k: nat)
    requires FirstOpen([b] + bs, env, k)
    ensures if b.Open(env) then k == 0
            else k > 0 && FirstOpen(bs, env, k - 1) && (k <= |bs| ==> ([b] + bs)[k] == bs[k - 1])
  {
    assert ([b] + bs)[0] == b;
    assert forall i | 0 <= i < |bs| :: ([b] + bs)[i + 1] == bs[i];
  }

  lemma {:induction false} ChainTaken(c: Chain, params: Params, env: Env, k: nat)
    requires FirstOpen(Branches(c), env, k)
    ensures ChainMeaning(c, params, env) ==
            if k < |Branches(c)| then Meaning(Branches(c)[k].body, params, env) else []
  {
    match c
    case End =>
    case Else(body) =>
      FirstOpenStep(Branch(None, body), [], env, k);
    case ElseIf(cond, body, chain) =>
      FirstOpenStep(Branch(Some(cond), body), Branches(chain), env, k);
      if !env.cond(cond) {
        ChainTaken(chain, params, env, k - 1);
      }
  }

  /** An if means its first branch in order that is open, and nothing if none is. */
  lemma BranchTaken(t: Template, params: Params, env: Env, k: nat)
    requires t.If? && FirstOpen([Branch(Some(t.cond), t.body)] + Branches(t.chain), env, k)
    ensures var bs := [Branch(Some(t.cond), t.body)] + Branches(t.chain);
            Meaning(t, params, env) ==
            (if k < |bs| then Meaning(bs[k].body, params, env) else []) + Meaning(t.next, params, env)
  {
    FirstOpenStep(Branch(Some(t.cond), t.body), Branches(t.chain), env, k);
    if !env.cond(t.cond) {
      ChainTaken(t.chain, params, env, k - 1);
    }
  }

  /** The parameters bound, in order. */
  function Bound(atoms: seq<Atom>): seq<string> {
    if atoms == [] then [] else BoundBy(atoms[0]) + Bound(atoms[1..])
  }

  function BoundBy(a: Atom): seq<string> {
    if a.Bind? then [a.name] else []
  }

  function Values(names: seq<string>, env: Env): (vs: seq<Value>)
    ensures |vs| == |names| && forall i | 0 <= i < |names| :: vs[i] == env.value(names[i])
  {
    seq(|names|, i requires 0 <= i < |names| => env.value(names[i]))
  }

  function Placeholder(d: Dialect, k: nat): string {
    if d.Postgres? then "$" + Itoa(k) else "?"
  }

  /** The query text in a dialect: the j-th parameter bound is placeholder number before + j. */
  function Render(d: Dialect, atoms: seq<Atom>, before: nat): string {
    if atoms == [] then ""
    else RenderOne(d, atoms[0], before) + Render(d, atoms[1..], before + |BoundBy(atoms[0])|)
  }

  function RenderOne(d: Dialect, a: Atom, before: nat): string {
    match a { case Ch(c) => [c] case Bind(_) => Placeholder(d, before + 1) }
  }

  lemma {:induction false} BoundAppend(a: seq<Atom>, b: seq<Atom>)
    ensures Bound(a + b) == Bound(a) + Bound(b)
    decreases a
  {
    if a == [] {
      assert a + b == b;
    } else {
      AppendTail(a, b);
      BoundAppend(a[1..], b);
      Assoc(BoundBy(a[0]), Bound(a[1..]), Bound(b));
    }
  }

  lemma {:induction false} RenderAppend(d: Dialect, a: seq<Atom>, b: seq<Atom>, before: nat)
    ensures Render(d, a + b, before) == Render(d, a, before) + Render(d, b, before + |Bound(a)|)
    decreases a
  {
    if a == [] {
      assert a + b == b;
    } else {
      var n := before + |BoundBy(a[0])|;
      AppendTail(a, b);
      RenderAppend(d, a[1..], b, n);
      Assoc(RenderOne(d, a[0], before), Render(d, a[1..], n), Render(d, b, before + |Bound(a)|));
    }
  }

  lemma {:induction false} RenderChars(d: Dialect, s: string, before: nat)
    ensures Bound(Chars(s)) == [] && Render(d, Chars(s), before) == s
  {
    if s != "" {
      assert Chars(s)[1..] == Chars(s[1..]);
      RenderChars(d, s[1..], before);
    }
  }

  lemma RenderGap(d: Dialect, s: string, rest: seq<Atom>, before: nat)
    ensures Bound(Chars(s) + rest) == Bound(rest)
    ensures Render(d, Chars(s) + rest, before) == s + Render(d, rest, before)
  {
    BoundAppend(Chars(s), rest);
    RenderAppend(d, Chars(s), rest, before);
    RenderChars(d, s, before);
  }

  // ---- The code emitted ----

  function AppendArgs(names: seq<string>): (lines: seq<Line>)
    ensures |lines| == |names| && forall i | 0 <= i < |names| :: lines[i] == AppendArg(names[i])
  {
    seq(|names|, i requires 0 <= i < |names| => AppendArg(names[i]))
  }

  /** emitTextMySQL: one literal with every placeholder folded in, then the arguments. */
  function FoldedText(text: string): seq<Line> {
    if text == "" then [] else [WriteLit(Render(MySQL, Atoms(text), 0))] + AppendArgs(Bound(Atoms(text)))
  }

  function Literal(s: string): seq<Line> {
    if s == "" then [] else [WriteLit(s)]
  }

  function MatchLines(text: string, m: Match): seq<Line>
    requires m.start <= m.end <= |text| && (m.nameStart < 0 || 0 <= m.nameStart <= m.nameEnd <= |text|)
  {
    if m.nameStart < 0 then [WriteLit(text[m.start..m.end])]
    else [WriteNumber, AppendArg(text[m.nameStart..m.nameEnd])]
  }

  /** emitTextPostgres from position last: segment by segment. */
  function SegmentedText(text: string, ms: seq<Match>, last: nat): seq<Line>
    requires last <= |text| && Ordered(text, ms, last)
    decreases ms
  {
    if ms == [] then Literal(text[last..])
    else
      Literal(text[last..ms[0].start]) + (MatchLines(text, ms[0]) + SegmentedText(text, ms[1..], ms[0].end))
  }

  function TextLines(d: Dialect, text: string): seq<Line> {
    FindAllOrdered(text, 0);
    if d.Postgres? then SegmentedText(text, FindAll(text, 0), 0) else FoldedText(text)
  }

  function SubstLine(name: string, params: Params): Line {
    if IsPointer(name, params) then WriteDeref(name) else WriteVar(name)
  }

  function Emit(d: Dialect, params: Params, t: Template): seq<Line>
    decreases t, 1
  {
    match t
    case Empty => []
    case Text(s, next) => TextLines(d, s) + Emit(d, params, next)
    case Subst(name, next) => [SubstLine(name, params)] + Emit(d, params, next)
    case If(_, _, _, next) => IfLines(d, params, t) + Emit(d, params, next)
  }

  function IfLines(d: Dialect, params: Params, t: Template): seq<Line>
    requires t.If?
    decreases t, 0
  {
    [OpenIf(t.cond)] + (Emit(d, params, t.body) + EmitChain(d, params, t.chain))
  }

  function EmitChain(d: Dialect, params: Params, c: Chain): seq<Line>
    decreases c, 0
  {
    match c
    case End => [Close]
    case Else(body) => [ElseClause] + (Emit(d, params, body) + [Close])
    case ElseIf(cond, body, chain) => [ElseIfClause(cond)] + (Emit(d, params, body) + EmitChain(d, params, chain))
  }

  // ---- Running it ----

  /** The machine after writing atoms: their text in the dialect, and their arguments. */
  function Wrote(d: Dialect, env: Env, m: Machine, atoms: seq<Atom>): Machine {
    m.(sb := m.sb + Render(d, atoms, |m.args|), args := m.args + Values(Bound(atoms), env))
  }

  lemma WroteAppend(d: Dialect, env: Env, m: Machine, a: seq<Atom>, b: seq<Atom>)
    ensures Wrote(d, env, Wrote(d, env, m, a), b) == Wrote(d, env, m, a + b)
  {
    BoundAppend(a, b);
    RenderAppend(d, a, b, |m.args|);
    Assoc(m.sb, Render(d, a, |m.args|), Render(d, b, |m.args| + |Bound(a)|));
    ValuesAppend(Bound(a), Bound(b), env);
    Assoc(m.args, Values(Bound(a), env), Values(Bound(b), env));
  }

  lemma ValuesAppend(a: seq<string>, b: seq<string>, env: Env)
    ensures Values(a + b, env) == Values(a, env) + Values(b, env)
  {
  }

  lemma WroteNothing(d: Dialect, env: Env, m: Machine)
    ensures Wrote(d, env, m, []) == m
  {
  }

  /** What a fragment without open blocks does: it writes when control is there and nothing when it is not. */
  ghost predicate Writes(d: Dialect, env: Env, m: Machine, lines: seq<Line>, atoms: seq<Atom>) {
    Run(lines, env, m) == Some(if Active(m.frames) then Wrote(d, env, m, atoms) else m)
  }

  lemma WritesAppend(d: Dialect, env: Env, m: Machine, a: seq<Line>, as': seq<Atom>, b: seq<Line>, bs: seq<Atom>)
    requires Writes(d, env, m, a, as')
    requires Writes(d, env, Wrote(d, env, m, as'), b, bs) && Writes(d, env, m, b, bs)
    ensures Writes(d, env, m, a + b, as' + bs)
  {
    RunAppend(a, b, env, m);
    WroteAppend(d, env, m, as', bs);
  }

  lemma LiteralWrites(d: Dialect, env: Env, m: Machine, s: string)
    ensures Writes(d, env, m, Literal(s), Chars(s))
  {
    RenderChars(d, s, |m.args|);
    if s == "" {
      assert Chars(s) == [];
      WroteNothing(d, env, m);
    } else {
      RunOne(WriteLit(s), env, m);
      assert m.args + Values([], env) == m.args;
    }
  }

  lemma {:induction false} AppendArgsRun(env: Env, m: Machine, names: seq<string>)
    ensures Run(AppendArgs(names), env, m) ==
            Some(if Active(m.frames) then m.(args := m.args + Values(names, env)) else m)
    decreases names
  {
    if names == [] {
      assert m.args + Values(names, env) == m.args;
    } else {
      var m' := Step(AppendArg(names[0]), env, m).value;
      AppendArgsRun(env, m', names[1..]);
      assert AppendArgs(names) == [AppendArg(names[0])] + AppendArgs(names[1..]);
      RunFirst(AppendArg(names[0]), AppendArgs(names[1..]), env, m);
      assert names == [names[0]] + names[1..];
      ValuesAppend([names[0]], names[1..], env);
      assert Values([names[0]], env) == [env.value(names[0])];
      Assoc(m.args, [env.value(names[0])], Values(names[1..], env));
    }
  }

  /** Where the folded literal is placed among the arguments does not matter. */
  lemma {:induction false} RenderFolded(d: Dialect, atoms: seq<Atom>, k: nat, n: nat)
    requires !d.Postgres?
    ensures Render(d, atoms, k) == Render(MySQL, atoms, n)
  {
    if atoms != [] {
      RenderFolded(d, atoms[1..], k, n);
      RenderFolded(d, atoms[1..], k + 1, n + 1);
    }
  }

  lemma FoldedWrites(d: Dialect, env: Env, m: Machine, text: string)
    requires !d.Postgres?
    ensures Writes(d, env, m, FoldedText(text), Atoms(text))
  {
    var atoms := Atoms(text);
    if text == "" {
      WroteNothing(d, env, m);
    } else {
      RenderFolded(d, atoms, |m.args|, 0);
      var lit := WriteLit(Render(MySQL, atoms, 0));
      RunFirst(lit, AppendArgs(Bound(atoms)), env, m);
      AppendArgsRun(env, Step(lit, env, m).value, Bound(atoms));
    }
  }

  lemma MatchWrites(env: Env, m: Machine, text: string, at: Match)
    requires at.In(text, at.start)
    ensures Writes(Postgres, env, m, MatchLines(text, at), at.Atoms(text))
  {
    if at.nameStart < 0 {
      LiteralWrites(Postgres, env, m, text[at.start..at.end]);
    } else {
      var name := text[at.nameStart..at.nameEnd];
      assert MatchLines(text, at) == [WriteNumber] + [AppendArg(name)];
      RunFirst(WriteNumber, [AppendArg(name)], env, m);
      RunOne(AppendArg(name), env, Step(WriteNumber, env, m).value);
      WroteBind(env, m, name);
    }
  }

  lemma WroteBind(env: Env, m: Machine, name: string)
    ensures Wrote(Postgres, env, m, [Bind(name)]) ==
            m.(sb := m.sb + ("$" + Itoa(|m.args| + 1)), args := m.args + [env.value(name)])
  {
    var atoms := [Bind(name)];
    assert atoms[1..] == [];
    assert Bound(atoms) == [name] + [] == [name];
    assert Values([name], env) == [env.value(name)];
    assert Render(Postgres, atoms, |m.args|) == Placeholder(Postgres, |m.args| + 1) + "";
  }

  lemma {:induction false} SegmentedWrites(env: Env, m: Machine, text: string, last: nat)
    requires last <= |text| && Aligned(text, last)
    requires Ordered(text, FindAll(text, last), last)
    ensures Writes(Postgres, env, m, SegmentedText(text, FindAll(text, last), last), AtomsFrom(text, last))
    decreases |text| - last
  {
    FirstMatchAligned(text, last);
    FirstMatchAtoms(text, last);
    var ms := FindAll(text, last);
    if ms == [] {
      LiteralWrites(Postgres, env, m, text[last..]);
      assert Chars(text[last..|text|]) + [] == Chars(text[last..]);
    } else {
      var lit, at := text[last..ms[0].start], ms[0];
      var m1 := Wrote(Postgres, env, m, Chars(lit));
      var m2 := Wrote(Postgres, env, m1, at.Atoms(text));
      var m2' := Wrote(Postgres, env, m, at.Atoms(text));
      LiteralWrites(Postgres, env, m, lit);
      MatchWrites(env, m, text, at);
      MatchWrites(env, m1, text, at);
      SegmentedWrites(env, m, text, at.end);
      SegmentedWrites(env, m1, text, at.end);
      SegmentedWrites(env, m2, text, at.end);
      SegmentedWrites(env, m2', text, at.end);
      var rest := SegmentedText(text, ms[1..], at.end);
      WritesAppend(Postgres, env, m1, MatchLines(text, at), at.Atoms(text), rest, AtomsFrom(text, at.end));
      WritesAppend(Postgres, env, m, MatchLines(text, at), at.Atoms(text), rest, AtomsFrom(text, at.end));
      WritesAppend(Postgres, env, m, Literal(lit), Chars(lit),
                   MatchLines(text, at) + rest, at.Atoms(text) + AtomsFrom(text, at.end));
    }
  }

  lemma TextWrites(d: Dialect, env: Env, m: Machine, text: string)
    ensures Writes(d, env, m, TextLines(d, text), Atoms(text))
  {
    FindAllOrdered(text, 0);
    if d.Postgres? {
      SegmentedWrites(env, m, text, 0);
    } else {
      FoldedWrites(d, env, m, text);
    }
  }

  lemma SubstWrites(d: Dialect, params: Params, env: Env, m: Machine, name: string)
    ensures Writes(d, env, m, [SubstLine(name, params)], Chars(Substituted(name, params, env)))
  {
    var s := Substituted(name, params, env);
    RenderChars(d, s, |m.args|);
    RunOne(SubstLine(name, params), env, m);
    assert m.args + Values([], env) == m.args;
    assert s == "" ==> m.sb + s == m.sb;
  }

  /**
   What {{name}} is for a parameter that it accepts: a string's text, what a *string points to, or nothing if that is
   nil. The tree means it, the one line emitted says it, and running the line does it.
   */
  lemma SubstitutionExact(d: Dialect, params: Params, env: Env, m: Machine, name: string)
    requires name in params && (params[name].typ == "string" || params[name].typ == "*string")
    ensures CheckSubst(params, name).None?
    ensures var t := Template.Subst(name, Empty);
            var text := if params[name].typ == "string" then env.text(name)
                        else match env.pointee(name) { case None => "" case Some(s) => s };
            && Meaning(t, params, env) == Chars(text)
            && Emit(d, params, t) == [if params[name].typ == "*string" then WriteDeref(name) else WriteVar(name)]
            && Run(Emit(d, params, t), env, m) ==
               Some(if Active(m.frames) then m.(sb := m.sb + text) else m)
  {
    RunOne(SubstLine(name, params), env, m);
    assert m.sb + "" == m.sb;
    assert forall s :: Chars(s) + [] == Chars(s);
    assert [SubstLine(name, params)] + [] == [SubstLine(name, params)];
  }

  /** The emitted code writes what the template means: from any machine, in any dialect, at any depth of blocks. */
  lemma {:induction false} EmitCorrect(d: Dialect, params: Params, env: Env, m: Machine, t: Template)
    ensures Writes(d, env, m, Emit(d, params, t), Meaning(t, params, env))
    decreases t, 1
  {
    match t
    case Empty => WroteNothing(d, env, m);
    case Text(s, next) =>
      TextWrites(d, env, m, s);
      EmitCorrect(d, params, env, m, next);
      EmitCorrect(d, params, env, Wrote(d, env, m, Atoms(s)), next);
      WritesAppend(d, env, m, TextLines(d, s), Atoms(s), Emit(d, params, next), Meaning(next, params, env));
    case Subst(name, next) =>
      var s := Chars(Substituted(name, params, env));
      SubstWrites(d, params, env, m, name);
      EmitCorrect(d, params, env, m, next);
      EmitCorrect(d, params, env, Wrote(d, env, m, s), next);
      WritesAppend(d, env, m, [SubstLine(name, params)], s, Emit(d, params, next), Meaning(next, params, env));
    case If(cond, body, chain, next) =>
      var taken := if env.cond(cond) then Meaning(body, params, env) else ChainMeaning(chain, params, env);
      IfCorrect(d, params, env, m, t);
      EmitCorrect(d, params, env, m, next);
      EmitCorrect(d, params, env, Wrote(d, env, m, taken), next);
      WritesAppend(d, env, m, IfLines(d, params, t), taken, Emit(d, params, next), Meaning(next, params, env));
  }

  lemma {:induction false} IfCorrect(d: Dialect, params: Params, env: Env, m: Machine, t: Template)
    requires t.If?
    ensures Writes(d, env, m, IfLines(d, params, t),
                   if env.cond(t.cond) then Meaning(t.body, params, env) else ChainMeaning(t.chain, params, env))
    decreases t, 0
  {
    var m1 := Step(OpenIf(t.cond), env, m).value;
    var bodyAtoms, chainAtoms := Meaning(t.body, params, env), ChainMeaning(t.chain, params, env);
    EmitCorrect(d, params, env, m1, t.body);
    ChainCorrect(d, params, env, AfterBody(d, env, m1, bodyAtoms), t.chain);
    BranchRun(d, env, OpenIf(t.cond), m, m1,
              Emit(d, params, t.body), bodyAtoms, EmitChain(d, params, t.chain), chainAtoms);
  }

  function AfterBody(d: Dialect, env: Env, m: Machine, atoms: seq<Atom>): Machine {
    if Active(m.frames) then Wrote(d, env, m, atoms) else m
  }

  /** What the clauses after a body do: write only when no branch has been taken yet, and close the block. */
  ghost predicate Ends(d: Dialect, env: Env, m: Machine, lines: seq<Line>, atoms: seq<Atom>) {
    && m.frames.Frame?
    && Run(lines, env, m) ==
       Some((if m.frames.mode.Seeking? then Wrote(d, env, m, atoms) else m).(frames := m.frames.below))
  }

  /** A line that opens a branch, its body, and the clauses after it. */
  lemma BranchRun(d: Dialect, env: Env, opening: Line, m: Machine, m1: Machine,
                  body: seq<Line>, bodyAtoms: seq<Atom>, chain: seq<Line>, chainAtoms: seq<Atom>)
    requires Step(opening, env, m) == Some(m1)
    requires Writes(d, env, m1, body, bodyAtoms)
    requires Ends(d, env, AfterBody(d, env, m1, bodyAtoms), chain, chainAtoms)
    ensures Run([opening] + (body + chain), env, m) ==
            Some((match m1.frames.mode
                  case Taking => Wrote(d, env, m1, bodyAtoms)
                  case Seeking => Wrote(d, env, m1, chainAtoms)
                  case Past => m1).(frames := m1.frames.below))
  {
    RunFirst(opening, body + chain, env, m);
    RunAppend(body, chain, env, m1);
  }

  lemma {:induction false} ChainCorrect(d: Dialect, params: Params, env: Env, m: Machine, c: Chain)
    requires m.frames.Frame? && !m.frames.elseSeen
    ensures Ends(d, env, m, EmitChain(d, params, c), ChainMeaning(c, params, env))
    decreases c, 0
  {
    match c
    case End =>
      WroteNothing(d, env, m);
      RunOne(Close, env, m);
    case Else(body) =>
      var m1 := Step(ElseClause, env, m).value;
      var atoms := Meaning(body, params, env);
      EmitCorrect(d, params, env, m1, body);
      var m2 := AfterBody(d, env, m1, atoms);
      RunOne(Close, env, m2);
      WroteNothing(d, env, m2);
      BranchRun(d, env, ElseClause, m, m1, Emit(d, params, body), atoms, [Close], []);
    case ElseIf(cond, body, chain) =>
      var m1 := Step(ElseIfClause(cond), env, m).value;
      var atoms := Meaning(body, params, env);
      EmitCorrect(d, params, env, m1, body);
      ChainCorrect(d, params, env, AfterBody(d, env, m1, atoms), chain);
      BranchRun(d, env, ElseIfClause(cond), m, m1, Emit(d, params, body), atoms,
                EmitChain(d, params, chain), ChainMeaning(chain, params, env));
  }
}
