/** internal/generator.go: compiling a file's methods, choosing their templates, and its import block. */
module Generator {
  import opened Wrappers
  import opened Strings
  import opened Sorting
  import opened Tokenizer
  import opened Templates
  import opened GoFragment
  import opened Compiler
  import opened CompileBody
  import TypeText

  datatype Import = Import(path: string, alias: string)

  datatype Interface = Interface(name: string, packageName: string, imports: seq<Import>, methods: seq<Method>)

  datatype Request = Request(iface: Interface, structName: string)

  // ---- Which template renders a method ----

  datatype MethodTemplate = SelectOne | SelectMany | InsertIDReturning | InsertID | ExecRows | ExecErr | ExecVoid

  function TemplateFor(d: Dialect, m: Method): MethodTemplate {
    match m.returnKind
    case ReturnSingle => SelectOne
    case ReturnSlice => SelectMany
    case ReturnRowsOrID =>
      if m.queryKind.QueryInsert? && d.Postgres? then InsertIDReturning
      else if m.queryKind.QueryInsert? then InsertID
      else ExecRows
    case ReturnError => ExecErr
    case ReturnNothing => ExecVoid
  }

  /** The result types each template declares, for an element type and a pointer flag. */
  function DeclaredResults(tmpl: MethodTemplate, typ: string, isPtr: bool): seq<string> {
    match tmpl
    case SelectOne => ["*" + typ, "error"]
    case SelectMany => ["[]" + ((if isPtr then "*" else "") + typ), "error"]
    case InsertIDReturning => ["int", "error"]
    case InsertID => ["int", "error"]
    case ExecRows => ["int", "error"]
    case ExecErr => ["error"]
    case ExecVoid => []
  }

  /** The generated method declares the results that the interface's method was read from, in every dialect. */
  lemma SignaturePreserved(d: Dialect, m: Method, types: seq<string>)
    requires TypeText.Classify(types) == Success(TypeText.Shape(m.returnKind, m.returnType, m.returnIsPtr))
    ensures DeclaredResults(TemplateFor(d, m), m.returnType, m.returnIsPtr) == types
  {
    TypeText.AcceptedIsRendered(types);
  }

  /** What the integer of an (int, error) method is: read from a returned row, or one of the driver's two numbers. */
  datatype IntSource = ReturnedID | LastInsertID | RowsAffected

  function IntSourceOf(tmpl: MethodTemplate): Option<IntSource> {
    match tmpl
    case SelectOne => None
    case SelectMany => None
    case InsertIDReturning => Some(ReturnedID)
    case InsertID => Some(LastInsertID)
    case ExecRows => Some(RowsAffected)
    case ExecErr => None
    case ExecVoid => None
  }

  /**
   A method returns an integer exactly if it is declared to. It is the new row's id exactly if the query is an insert,
   taken from a row where the dialect is Postgres and from the driver elsewhere, and for every other query the number of
   rows affected. The remaining templates go by the return kind alone.
   */
  lemma TemplateExact(d: Dialect, m: Method)
    ensures IntSourceOf(TemplateFor(d, m)).Some? <==> m.returnKind == ReturnRowsOrID
    ensures m.returnKind == ReturnRowsOrID ==>
              && (IntSourceOf(TemplateFor(d, m)) == Some(ReturnedID) <==> m.queryKind == QueryInsert && d == Postgres)
              && (IntSourceOf(TemplateFor(d, m)) == Some(LastInsertID) <==> m.queryKind == QueryInsert && d != Postgres)
              && (IntSourceOf(TemplateFor(d, m)) == Some(RowsAffected) <==> m.queryKind != QueryInsert)
    ensures TemplateFor(d, m) == InsertID <==>
            m.returnKind == ReturnRowsOrID && m.queryKind == QueryInsert && d != Postgres
    ensures TemplateFor(d, m) == ExecRows <==> m.returnKind == ReturnRowsOrID && m.queryKind != QueryInsert
    ensures TemplateFor(d, m) == SelectOne <==> m.returnKind == ReturnSingle
    ensures TemplateFor(d, m) == SelectMany <==> m.returnKind == ReturnSlice
    ensures TemplateFor(d, m) == ExecErr <==> m.returnKind == ReturnError
    ensures TemplateFor(d, m) == ExecVoid <==> m.returnKind == ReturnNothing
  {
  }

  /** extractContext: the context expression, and the parameters a template may use. */
  function ExtractContext(params: seq<Param>): (string, seq<Param>) {
    if |params| > 0 && params[0].typ == "context.Context" then (params[0].name, params[1..])
    else ("context.Background()", params)
  }

  function Sql(m: Method): Method {
    m.(params := ExtractContext(m.params).1)
  }

  /** A leading context.Context becomes the context expression; without one there is a new context and nothing goes. */
  lemma ContextExact(params: seq<Param>)
    ensures var (ctxExpr, rest) := ExtractContext(params);
            if params != [] && params[0].typ == "context.Context"
            then params == [params[0]] + rest && ctxExpr == params[0].name
            else params == rest && ctxExpr == "context.Background()"
  {
  }

  /** The names a template may use are those of all parameters but that one. */
  lemma NamesOffered(m: Method, name: string)
    ensures name in ParamMap(Sql(m).params) <==>
            exists i | 0 <= i < |m.params| ::
              m.params[i].name == name && (i > 0 || m.params[0].typ != "context.Context")
  {
    var k := ParamMapExact(Sql(m).params, name);
    var n := |m.params| - |Sql(m).params|;
    assert forall i | 0 <= i < |Sql(m).params| :: Sql(m).params[i] == m.params[n + i];
    assert forall i | n <= i < |m.params| :: m.params[i] == Sql(m).params[i - n];
  }

  lemma PairedWith(d: Dialect, m: Method, plain: string, query: string)
    requires query == if d == Postgres && m.queryKind == QueryInsert && m.returnKind == ReturnRowsOrID
                         && !HasReturning(m.sql) then plain + " RETURNING id" else plain
    ensures TemplateFor(d, m).InsertIDReturning? <==>
            || query != plain
            || (d == Postgres && m.queryKind == QueryInsert && m.returnKind == ReturnRowsOrID && HasReturning(m.sql))
  {
    assert |plain + " RETURNING id"| > |plain|;
  }

  /**
   RETURNING pairing. Every run's query is the template's meaning, with the clause after it exactly for a Postgres
   insert that returns an id and whose template lacks the word; and the form that reads an id back from a returned row
   is chosen exactly when the query has been given the clause or, for such an insert, the template has the word.
   */
  lemma ReturningPaired(d: Dialect, m: Method, t: Template, env: Env, start: Machine)
    requires TreeOf(Sql(m)) == Success(t) && start.frames.Bottom?
    ensures var run := Run(Body(d, Sql(m), t), env, start);
            var plain := Render(d, Meaning(t, ParamMap(Sql(m).params), env), 0);
            var returnsID := d == Postgres && m.queryKind == QueryInsert && m.returnKind == ReturnRowsOrID;
            && run.Some?
            && run.value.query == Some(if returnsID && !HasReturning(m.sql) then plain + " RETURNING id" else plain)
            && (TemplateFor(d, m).InsertIDReturning? <==>
                run.value.query != Some(plain) || (returnsID && HasReturning(m.sql)))
  {
    QueryExact(d, Sql(m), t, env, start);
    var plain := Render(d, Meaning(t, ParamMap(Sql(m).params), env), 0);
    PairedWith(d, m, plain, Run(Body(d, Sql(m), t), env, start).value.query.value);
  }

  // ---- The import block ----

  function PathOf(i: Import): string {
    i.path
  }

  function BeforeSlash(path: string): string {
    if path == "" || path[0] == '/' then "" else [path[0]] + BeforeSlash(path[1..])
  }

  predicate IsStdlib(path: string) {
    '.' !in BeforeSlash(path)
  }

  /** Every dot has a slash somewhere before it. */
  predicate DotsBehindSlash(path: string) {
    forall i | 0 <= i < |path| && path[i] == '.' :: '/' in path[..i]
  }

  lemma {:induction false} StdlibExact(path: string)
    ensures IsStdlib(path) <==> DotsBehindSlash(path)
    decreases path
  {
    if path != "" && path[0] != '/' {
      StdlibExact(path[1..]);
      assert forall i | 0 < i < |path| :: path[..i] == [path[0]] + path[1..][..i - 1];
      assert path[..0] == [];
      assert forall i | 0 <= i < |path[1..]| :: path[1..][i] == path[i + 1];
    } else if path != "" {
      assert forall i | 0 < i < |path| :: path[..i][0] == '/';
    }
  }

  const STRCONV_IMPORT := Import("strconv", "")

  const BASE_IMPORTS: set<Import> :=
    {Import("context", ""), Import("strings", ""),
     Import("github.com/cockroachdb/errors", ""), Import("github.com/index0h/simplesql/simplesql", "")}

  function InterfaceImports(requests: seq<Request>): set<Import> {
    set r, i | r in requests && i in r.iface.imports :: i
  }

  function ImportSet(requests: seq<Request>, needsStrconv: bool): set<Import> {
    BASE_IMPORTS + (if needsStrconv then {STRCONV_IMPORT} else {}) + InterfaceImports(requests)
  }

  datatype BlockLine = ImportLine(imp: Import) | BlankLine

  function Lines(imports: seq<Import>): (ls: seq<BlockLine>)
    ensures |ls| == |imports| && forall i | 0 <= i < |ls| :: ls[i] == ImportLine(imports[i])
  {
    seq(|imports|, i requires 0 <= i < |imports| => ImportLine(imports[i]))
  }

  function Layout(std: seq<Import>, ext: seq<Import>): seq<BlockLine> {
    Lines(std) + (if std != [] && ext != [] then [BlankLine] else []) + Lines(ext)
  }

  function Stdlib(s: set<Import>): set<Import> {
    set i | i in s && IsStdlib(i.path)
  }

  ghost predicate IsLayout(s: set<Import>, std: seq<Import>, ext: seq<Import>) {
    SortOf(PathOf, multiset(Stdlib(s)), std) && SortOf(PathOf, multiset(s - Stdlib(s)), ext)
  }

  /** A block for a set of imports: the standard ones, a blank line if there are both kinds, the others; each sorted. */
  ghost predicate IsBlock(s: set<Import>, block: seq<BlockLine>) {
    exists std, ext :: IsLayout(s, std, ext) && block == Layout(std, ext)
  }

  method BuildImportBlock(requests: seq<Request>, needsStrconv: bool) returns (block: seq<BlockLine>)
    ensures IsBlock(ImportSet(requests, needsStrconv), block)
  {
    var imports := CollectImports(requests, needsStrconv);
    var std, ext := Split(imports);
    std := Sort(PathOf, std);
    ext := Sort(PathOf, ext);
    block := Layout(std, ext);
  }

  method CollectImports(requests: seq<Request>, needsStrconv: bool) returns (imports: set<Import>)
    ensures imports == ImportSet(requests, needsStrconv)
  {
    imports := BASE_IMPORTS;
    if needsStrconv {
      imports := imports + {STRCONV_IMPORT};
    }
    ghost var fixed := imports;
    for n := 0 to |requests|
      invariant imports == fixed + InterfaceImports(requests[..n])
    {
      var added := requests[n].iface.imports;
      for k := 0 to |added|
        invariant imports == fixed + InterfaceImports(requests[..n]) + Elements(added[..k])
      {
        imports := imports + {added[k]};
        assert added[..k + 1] == added[..k] + [added[k]];
      }
      assert added[..|added|] == added;
      InterfaceImportsSnoc(requests[..n], requests[n]);
      assert requests[..n + 1] == requests[..n] + [requests[n]];
    }
    assert requests[..|requests|] == requests;
  }

  function Elements(imports: seq<Import>): set<Import> {
    set i | i in imports
  }

  lemma InterfaceImportsSnoc(requests: seq<Request>, r: Request)
    ensures InterfaceImports(requests + [r]) == InterfaceImports(requests) + Elements(r.iface.imports)
  {
    forall i
      ensures i in InterfaceImports(requests + [r]) <==> i in InterfaceImports(requests) + Elements(r.iface.imports)
    {
      if i in Elements(r.iface.imports) {
        assert r in requests + [r];
      }
      if i in InterfaceImports(requests) {
        var q :| q in requests && i in q.iface.imports;
        assert q in requests + [r];
      }
    }
  }

  /** The loop over the set, in whatever order iteration gives its elements. */
  method Split(imports: set<Import>) returns (std: seq<Import>, ext: seq<Import>)
    ensures multiset(std) == multiset(Stdlib(imports)) && multiset(ext) == multiset(imports - Stdlib(imports))
  {
    std, ext := [], [];
    var left := imports;
    while left != {}
      invariant left <= imports
      invariant forall i :: multiset(std)[i] == if i in imports && i !in left && IsStdlib(i.path) then 1 else 0
      invariant forall i :: multiset(ext)[i] == if i in imports && i !in left && !IsStdlib(i.path) then 1 else 0
      decreases left
    {
      var i :| i in left;
      left := left - {i};
      if IsStdlib(i.path) {
        std := std + [i];
      } else {
        ext := ext + [i];
      }
    }
  }

  ghost predicate DistinctPaths(s: set<Import>) {
    forall x, y | x in s && y in s && x.path == y.path :: x == y
  }

  lemma KindsDistinct(s: set<Import>)
    requires DistinctPaths(s)
    ensures DistinctKeys(PathOf, multiset(Stdlib(s))) && DistinctKeys(PathOf, multiset(s - Stdlib(s)))
  {
  }

  lemma BlockUnique(s: set<Import>, block: seq<BlockLine>, other: seq<BlockLine>)
    requires IsBlock(s, block) && IsBlock(s, other) && DistinctPaths(s)
    ensures other == block
  {
    var std, ext :| IsLayout(s, std, ext) && block == Layout(std, ext);
    var std', ext' :| IsLayout(s, std', ext') && other == Layout(std', ext');
    KindsDistinct(s);
    SortUnique(PathOf, multiset(Stdlib(s)), std, std');
    SortUnique(PathOf, multiset(s - Stdlib(s)), ext, ext');
  }

  /** There is a block for any imports, and it is the only one exactly when no path is imported under two names. */
  lemma BlockDeterministic(s: set<Import>)
    ensures exists block :: IsBlock(s, block)
    ensures DistinctPaths(s) <==> forall block, other | IsBlock(s, block) && IsBlock(s, other) :: other == block
  {
    var std := SortExists(PathOf, multiset(Stdlib(s)));
    var ext := SortExists(PathOf, multiset(s - Stdlib(s)));
    var block := Layout(std, ext);
    assert IsLayout(s, std, ext) && IsBlock(s, block);
    if DistinctPaths(s) {
      forall block, other | IsBlock(s, block) && IsBlock(s, other)
        ensures other == block
      {
        BlockUnique(s, block, other);
      }
    } else {
      var other := OtherBlock(s, block);
    }
  }

  /** For instance an interface that imports context under its own name: the base import may stand on either side. */
  lemma ContextRenamed() returns (block: seq<BlockLine>, other: seq<BlockLine>)
    ensures var renamed := Interface("I", "p", [Import("context", "ctx")], []);
            var imports := ImportSet([Request(renamed, "")], false);
            IsBlock(imports, block) && IsBlock(imports, other) && block != other
  {
    var renamed := Interface("I", "p", [Import("context", "ctx")], []);
    var requests := [Request(renamed, "")];
    var imports := ImportSet(requests, false);
    assert renamed.imports[0] == Import("context", "ctx");
    assert requests[0] in requests && Import("context", "ctx") in requests[0].iface.imports;
    assert Import("context", "ctx") in imports && Import("context", "") in imports;
    assert !DistinctPaths(imports);
    BlockDeterministic(imports);
    block, other :| IsBlock(imports, block) && IsBlock(imports, other) && block != other;
  }

  lemma OtherBlock(s: set<Import>, block: seq<BlockLine>) returns (other: seq<BlockLine>)
    requires IsBlock(s, block) && !DistinctPaths(s)
    ensures IsBlock(s, other) && other != block
  {
    var std, ext :| IsLayout(s, std, ext) && block == Layout(std, ext);
    var x, y :| x in s && y in s && x.path == y.path && x != y;
    var std', ext' := OtherLayout(s, std, ext, x, y);
    other := Layout(std', ext');
    LayoutInjective(std, ext, std', ext');
  }

  lemma OtherLayout(s: set<Import>, std: seq<Import>, ext: seq<Import>, x: Import, y: Import)
    returns (std': seq<Import>, ext': seq<Import>)
    requires IsLayout(s, std, ext) && x in s && y in s && x.path == y.path && x != y
    ensures IsLayout(s, std', ext') && (std', ext') != (std, ext)
  {
    std', ext' := std, ext;
    if IsStdlib(x.path) {
      std' := SwapEqual(PathOf, multiset(Stdlib(s)), std, x, y);
    } else {
      ext' := SwapEqual(PathOf, multiset(s - Stdlib(s)), ext, x, y);
    }
  }

  lemma LayoutInjective(std: seq<Import>, ext: seq<Import>, std': seq<Import>, ext': seq<Import>)
    requires multiset(std) == multiset(std') && multiset(ext) == multiset(ext')
    ensures Layout(std, ext) == Layout(std', ext') ==> std == std' && ext == ext'
  {
    if Layout(std, ext) != Layout(std', ext') {
      return;
    }
    assert |std| == |multiset(std)| == |multiset(std')| == |std'|;
    assert |ext| == |multiset(ext)| == |multiset(ext')| == |ext'|;
    var between := if std != [] && ext != [] then [BlankLine] else [];
    forall k | 0 <= k < |std|
      ensures std[k] == std'[k]
    {
      assert Layout(std, ext)[k] == ImportLine(std[k]) && Layout(std', ext')[k] == ImportLine(std'[k]);
    }
    var start := |std| + |between|;
    forall k | 0 <= k < |ext|
      ensures ext[k] == ext'[k]
    {
      assert Layout(std, ext)[start + k] == ImportLine(ext[k]) && Layout(std', ext')[start + k] == ImportLine(ext'[k]);
    }
  }

  lemma {:induction false} LinesCount(xs: seq<Import>, i: Import)
    ensures multiset(Lines(xs))[ImportLine(i)] == multiset(xs)[i]
    decreases |xs|
  {
    if xs == [] {
      assert Lines(xs) == [];
    } else {
      var init, last := xs[..|xs| - 1], xs[|xs| - 1];
      LinesCount(init, i);
      assert xs == init + [last];
      assert Lines(xs) == Lines(init) + [ImportLine(last)];
    }
  }

  /** Every import of the set is rendered once, and no other. */
  lemma EachOnce(s: set<Import>, block: seq<BlockLine>, i: Import)
    requires IsBlock(s, block)
    ensures multiset(block)[ImportLine(i)] == if i in s then 1 else 0
  {
    var std, ext :| IsLayout(s, std, ext) && block == Layout(std, ext);
    LinesCount(std, i);
    LinesCount(ext, i);
  }

  lemma BaseExact(i: Import)
    ensures i in BASE_IMPORTS <==>
            i.alias == "" && i.path in {"context", "strings", "github.com/cockroachdb/errors",
                                        "github.com/index0h/simplesql/simplesql"}
  {
    assert i == Import(i.path, i.alias);
  }

  /** What is imported, once each: the four that every file needs, strconv if asked for, and the interfaces' own. */
  lemma ImportsExact(requests: seq<Request>, needsStrconv: bool, block: seq<BlockLine>, i: Import)
    requires IsBlock(ImportSet(requests, needsStrconv), block)
    ensures multiset(block)[ImportLine(i)] ==
            if || (i.alias == "" && i.path in {"context", "strings", "github.com/cockroachdb/errors",
                                               "github.com/index0h/simplesql/simplesql"})
               || (needsStrconv && i == Import("strconv", ""))
               || (exists r | r in requests :: i in r.iface.imports)
            then 1 else 0
  {
    EachOnce(ImportSet(requests, needsStrconv), block, i);
    BaseExact(i);
  }

  predicate Standard(line: BlockLine) {
    line.ImportLine? && DotsBehindSlash(line.imp.path)
  }

  predicate External(line: BlockLine) {
    line.ImportLine? && !DotsBehindSlash(line.imp.path)
  }

  /** Standard imports first and then the others, each kind by path. */
  ghost predicate InOrder(block: seq<BlockLine>) {
    forall i, j | 0 <= i < j < |block| && block[i].ImportLine? && block[j].ImportLine? ::
      && (Standard(block[j]) ==> Standard(block[i]))
      && (Standard(block[i]) == Standard(block[j]) ==> Leq(block[i].imp.path, block[j].imp.path))
  }

  /** One blank line between the two kinds if there are both, and no other. */
  ghost predicate Spaced(block: seq<BlockLine>) {
    && (forall k | 0 <= k < |block| && block[k].BlankLine? ::
          && 0 < k < |block| - 1
          && (forall i | 0 <= i < k :: Standard(block[i])) && (forall i | k < i < |block| :: External(block[i])))
    && (forall i, j | 0 <= i < |block| && 0 <= j < |block| && Standard(block[i]) && External(block[j]) ::
          BlankLine in block)
  }

  lemma BlockWellLaidOut(s: set<Import>, block: seq<BlockLine>)
    requires IsBlock(s, block)
    ensures InOrder(block) && Spaced(block)
  {
    var std: seq<Import>, ext: seq<Import> :| IsLayout(s, std, ext) && block == Layout(std, ext);
    KindsApart(s, std, ext);
    LayoutInOrder(std, ext);
    LayoutSpaced(std, ext);
  }

  lemma KindsApart(s: set<Import>, std: seq<Import>, ext: seq<Import>)
    requires IsLayout(s, std, ext)
    ensures forall k | 0 <= k < |std| :: DotsBehindSlash(std[k].path)
    ensures forall k | 0 <= k < |ext| :: !DotsBehindSlash(ext[k].path)
  {
    forall k | 0 <= k < |std|
      ensures DotsBehindSlash(std[k].path)
    {
      assert std[k] in multiset(std);
      StdlibExact(std[k].path);
    }
    forall k | 0 <= k < |ext|
      ensures !DotsBehindSlash(ext[k].path)
    {
      assert ext[k] in multiset(ext);
      StdlibExact(ext[k].path);
    }
  }

  lemma LayoutKinds(std: seq<Import>, ext: seq<Import>)
    requires forall k | 0 <= k < |std| :: DotsBehindSlash(std[k].path)
    requires forall k | 0 <= k < |ext| :: !DotsBehindSlash(ext[k].path)
    ensures var block := Layout(std, ext);
            var start := |block| - |ext|;
            && start == |std| + (if std != [] && ext != [] then 1 else 0)
            && (forall k | 0 <= k < |std| :: block[k] == ImportLine(std[k]) && Standard(block[k]))
            && (forall k | start <= k < |block| :: block[k] == ImportLine(ext[k - start]) && External(block[k]))
            && (start > |std| ==> block[|std|] == BlankLine)
  {
  }

  lemma LayoutInOrder(std: seq<Import>, ext: seq<Import>)
    requires Sorted(PathOf, std) && Sorted(PathOf, ext)
    requires forall k | 0 <= k < |std| :: DotsBehindSlash(std[k].path)
    requires forall k | 0 <= k < |ext| :: !DotsBehindSlash(ext[k].path)
    ensures InOrder(Layout(std, ext))
  {
    LayoutKinds(std, ext);
    var block := Layout(std, ext);
    var start := |block| - |ext|;
    forall i, j | 0 <= i < j < |block| && block[i].ImportLine? && block[j].ImportLine?
      ensures Standard(block[i]) == Standard(block[j]) ==> Leq(block[i].imp.path, block[j].imp.path)
    {
      if j < |std| {
        assert Leq(PathOf(std[i]), PathOf(std[j]));
      } else if i >= start {
        assert Leq(PathOf(ext[i - start]), PathOf(ext[j - start]));
      }
    }
  }

  lemma LayoutSpaced(std: seq<Import>, ext: seq<Import>)
    requires forall k | 0 <= k < |std| :: DotsBehindSlash(std[k].path)
    requires forall k | 0 <= k < |ext| :: !DotsBehindSlash(ext[k].path)
    ensures Spaced(Layout(std, ext))
  {
    LayoutKinds(std, ext);
  }

  // ---- Generate ----

  datatype CompiledMethod = CompiledMethod(source: Method, lines: seq<Line>, ctxExpr: string)

  datatype Unit = Unit(methods: seq<seq<CompiledMethod>>, block: seq<BlockLine>, needsStrconv: bool)

  /** c is what the compiler makes of m. */
  ghost predicate CompiledFrom(d: Dialect, m: Method, c: CompiledMethod) {
    && TreeOf(Sql(m)).Success?
    && c == CompiledMethod(m, Body(d, Sql(m), TreeOf(Sql(m)).value), ExtractContext(m.params).0)
  }

  ghost predicate AllCompiled(d: Dialect, ms: seq<Method>, cs: seq<CompiledMethod>) {
    |ms| == |cs| && forall i | 0 <= i < |ms| :: CompiledFrom(d, ms[i], cs[i])
  }

  /** Some method in the list numbers placeholders at run time. */
  ghost predicate SomeNumbers(cs: seq<CompiledMethod>) {
    exists c | c in cs :: WriteNumber in c.lines
  }

  /** e is the error of the first method in the list that does not compile. */
  ghost predicate FirstError(ms: seq<Method>, e: CompileError) {
    exists k | 0 <= k < |ms| ::
      TreeOf(Sql(ms[k])) == Failure(e) && forall j | 0 <= j < k :: TreeOf(Sql(ms[j])).Success?
  }

  ghost predicate NoError(ms: seq<Method>) {
    forall m | m in ms :: TreeOf(Sql(m)).Success?
  }

  lemma CompiledSnoc(d: Dialect, ms: seq<Method>, cs: seq<CompiledMethod>, m: Method, c: CompiledMethod)
    requires AllCompiled(d, ms, cs) && CompiledFrom(d, m, c)
    ensures AllCompiled(d, ms + [m], cs + [c])
    ensures SomeNumbers(cs + [c]) <==> SomeNumbers(cs) || WriteNumber in c.lines
  {
    assert (cs + [c])[|cs|] == c;
    assert forall x | x in cs :: x in cs + [c];
  }

  method CompileMethods(d: Dialect, ms: seq<Method>) returns (r: Result<seq<CompiledMethod>, CompileError>, needs: bool)
    ensures match r
            case Success(cs) => AllCompiled(d, ms, cs) && needs == SomeNumbers(cs)
            case Failure(e) => FirstError(ms, e)
  {
    var compiled: seq<CompiledMethod> := [];
    needs := false;
    for k := 0 to |ms|
      invariant AllCompiled(d, ms[..k], compiled) && needs == SomeNumbers(compiled)
    {
      var m := ms[k];
      var (ctxExpr, sqlParams) := ExtractContext(m.params);
      var code := CompileBody.CompileBody(d, m.(params := sqlParams));
      assert m.(params := sqlParams) == Sql(m);
      if code.Failure? {
        assert forall j | 0 <= j < k :: CompiledFrom(d, ms[..k][j], compiled[j]) && ms[j] == ms[..k][j];
        return Failure(code.error), needs;
      }
      if code.value.needsStrconv {
        needs := true;
      }
      var one := CompiledMethod(m, code.value.lines, ctxExpr);
      CompiledSnoc(d, ms[..k], compiled, m, one);
      assert ms[..k + 1] == ms[..k] + [m];
      compiled := compiled + [one];
    }
    assert ms[..|ms|] == ms;
    return Success(compiled), needs;
  }

  lemma CompiledNoError(d: Dialect, ms: seq<Method>, cs: seq<CompiledMethod>)
    requires AllCompiled(d, ms, cs)
    ensures NoError(ms)
  {
    forall m | m in ms
      ensures TreeOf(Sql(m)).Success?
    {
      var k :| 0 <= k < |ms| && ms[k] == m;
      assert CompiledFrom(d, ms[k], cs[k]);
    }
  }

  method Generate(d: Dialect, requests: seq<Request>) returns (r: Result<Unit, CompileError>)
    ensures match r
            case Success(u) =>
              && |u.methods| == |requests|
              && (forall n | 0 <= n < |requests| :: AllCompiled(d, requests[n].iface.methods, u.methods[n]))
              && (u.needsStrconv <==> exists n | 0 <= n < |requests| :: SomeNumbers(u.methods[n]))
              && IsBlock(ImportSet(requests, u.needsStrconv), u.block)
            case Failure(e) =>
              exists n | 0 <= n < |requests| ::
                FirstError(requests[n].iface.methods, e) && forall k | 0 <= k < n :: NoError(requests[k].iface.methods)
  {
    var needsStrconv, compiled: seq<seq<CompiledMethod>> := false, [];
    for n := 0 to |requests|
      invariant |compiled| == n
      invariant forall k | 0 <= k < n :: AllCompiled(d, requests[k].iface.methods, compiled[k])
      invariant needsStrconv <==> exists k | 0 <= k < n :: SomeNumbers(compiled[k])
    {
      var one, ns := CompileMethods(d, requests[n].iface.methods);
      if one.Failure? {
        forall k | 0 <= k < n
          ensures NoError(requests[k].iface.methods)
        {
          CompiledNoError(d, requests[k].iface.methods, compiled[k]);
        }
        return Failure(one.error);
      }
      if ns {
        needsStrconv := true;
      }
      compiled := compiled + [one.value];
    }
    var block := BuildImportBlock(requests, needsStrconv);
    return Success(Unit(compiled, block, needsStrconv));
  }

  /** A compiled method numbers placeholders exactly if it is for Postgres and its template's text binds a parameter. */
  lemma CompiledNumbers(d: Dialect, m: Method, c: CompiledMethod)
    requires CompiledFrom(d, m, c)
    ensures WriteNumber in c.lines <==> d.Postgres? && SomeTextBinds(Lex(m.sql).value)
  {
    StrconvExact(d, Sql(m), TreeOf(Sql(m)).value);
  }

  /** Import accounting: strconv is imported exactly when a compiled method needs it or an interface imports it. */
  lemma StrconvImported(requests: seq<Request>, u: Unit)
    requires IsBlock(ImportSet(requests, u.needsStrconv), u.block)
    ensures ImportLine(Import("strconv", "")) in u.block <==>
            u.needsStrconv || exists q | q in requests :: Import("strconv", "") in q.iface.imports
  {
    ImportsExact(requests, u.needsStrconv, u.block, Import("strconv", ""));
    assert "strconv"[3] == 'c' && "strings"[3] == 'i';
  }
}
