/** internal/parser.go: exprToString, and the shapes buildReturn decodes result types into. */
module TypeText {
  import opened Wrappers
  import opened CompileBody

  /** The type expressions exprToString knows, and one for all it does not. Array lengths are dropped. */
  datatype TypeExpr =
    | Ident(name: string)
    | Star(x: TypeExpr)
    | Array(elt: TypeExpr)
    | Selector(pkg: TypeExpr, sel: string)
    | MapOf(key: TypeExpr, value: TypeExpr)
    | Unsupported

  function Text(t: TypeExpr): string {
    match t
    case Ident(name) => name
    case Star(x) => "*" + Text(x)
    case Array(elt) => "[]" + Text(elt)
    case Selector(pkg, sel) => Text(pkg) + ("." + sel)
    case MapOf(k, v) => "map[" + (Text(k) + ("]" + Text(v)))
    case Unsupported => ""
  }

  predicate NameChar(c: char) {
    c != '*' && c != '[' && c != ']' && c != '.'
  }

  predicate Name(s: string) {
    s != "" && forall i | 0 <= i < |s| :: NameChar(s[i])
  }

  /** Types built from identifiers, package-qualified names, pointers, slices and maps. */
  predicate Expressible(t: TypeExpr) {
    match t
    case Ident(name) => Name(name)
    case Star(x) => Expressible(x)
    case Array(elt) => Expressible(elt)
    case Selector(pkg, sel) => pkg.Ident? && Name(pkg.name) && Name(sel)
    case MapOf(k, v) => Expressible(k) && Expressible(v)
    case Unsupported => false
  }

  /** What may follow a type inside another: nothing, or the bracket that closes a map's key. */
  predicate Stop(rest: string) {
    rest != "" ==> rest[0] == ']'
  }

  function NameLength(s: string): (n: nat)
    ensures n <= |s| && (n < |s| ==> !NameChar(s[n])) && forall i | 0 <= i < n :: NameChar(s[i])
  {
    if s != "" && NameChar(s[0]) then 1 + NameLength(s[1..]) else 0
  }

  lemma NameLengthOf(name: string, rest: string)
    requires Name(name) && (rest != "" ==> !NameChar(rest[0]))
    ensures NameLength(name + rest) == |name|
    ensures (name + rest)[..|name|] == name && (name + rest)[|name|..] == rest
  {
    assert forall i | 0 <= i < |name| :: (name + rest)[i] == name[i];
    assert rest != "" ==> (name + rest)[|name|] == rest[0];
  }

  /** A type's text, with more after it: how long the name at its start is, and what comes next, tells the kind. */
  lemma Beginning(t: TypeExpr, r: string)
    requires Expressible(t) && Stop(r)
    ensures var s := Text(t) + r;
            var n := NameLength(s);
            match t
            case Ident(name) => s[..n] == name && s[n..] == r && n > 0
            case Selector(pkg, sel) => s[..n] == pkg.name && s[n..] == "." + (sel + r) && n > 0
            case Star(x) => n == 0 && s != "" && s[0] == '*' && s[1..] == Text(x) + r
            case Array(x) => n == 0 && |s| > 1 && s[0] == '[' && s[2..] == Text(x) + r
            case MapOf(k, v) =>
              n == 3 && |s| > 3 && s[..4] == "map[" && s[4..] == Text(k) + ("]" + (Text(v) + r))
  {
    match t
    case Ident(name) => NameLengthOf(name, r);
    case Selector(pkg, sel) => NameThen(pkg.name, ".", sel, r);
    case Star(x) => MarkThen("*", Text(x), r);
    case Array(x) => MarkThen("[]", Text(x), r);
    case MapOf(k, v) => MapBegins(Text(k), Text(v), r);
  }

  lemma NameThen(name: string, mark: string, more: string, r: string)
    requires Name(name) && |mark| == 1 && !NameChar(mark[0])
    ensures var s := name + (mark + more) + r;
            NameLength(s) == |name| && s[..|name|] == name && s[|name|..] == mark + (more + r)
  {
    assert name + (mark + more) + r == name + (mark + (more + r));
    NameLengthOf(name, mark + (more + r));
  }

  lemma MarkThen(mark: string, more: string, r: string)
    requires mark != "" && !NameChar(mark[0])
    ensures var s := mark + more + r;
            NameLength(s) == 0 && |s| >= |mark| && s[0] == mark[0] && s[|mark|..] == more + r
  {
  }

  lemma MapBegins(k: string, v: string, r: string)
    ensures var s := "map[" + (k + ("]" + v)) + r;
            NameLength(s) == 3 && |s| > 3 && s[..4] == "map[" && s[4..] == k + ("]" + (v + r))
  {
    var more := k + ("]" + v);
    assert "map[" + more == "map" + ("[" + more);
    NameThen("map", "[", more, r);
    assert more + r == k + ("]" + (v + r));
  }

  /** The type at the start of a text, and the text after it, by Go's syntax of types. */
  function Read(s: string): (r: Option<(TypeExpr, string)>)
    ensures r.Some? ==> |r.value.1| < |s|
    decreases |s|
  {
    var n := NameLength(s);
    if "*" <= s then
      match Read(s[1..]) { case None => None case Some((x, rest)) => Some((Star(x), rest)) }
    else if "[]" <= s then
      match Read(s[2..]) { case None => None case Some((x, rest)) => Some((Array(x), rest)) }
    else if n == 3 && "map[" <= s then
      match Read(s[4..]) {
        case None => None
        case Some((k, rest)) =>
          if rest == "" || rest[0] != ']' then None
          else match Read(rest[1..]) { case None => None case Some((v, rest')) => Some((MapOf(k, v), rest')) }
      }
    else if n == 0 then None
    else if n == |s| || s[n] != '.' then Some((Ident(s[..n]), s[n..]))
    else
      var sel := NameLength(s[n + 1..]);
      if sel == 0 then None else Some((Selector(Ident(s[..n]), s[n + 1..n + 1 + sel]), s[n + 1 + sel..]))
  }

  lemma ReadSelector(t: TypeExpr, r: string)
    requires t.Selector? && Expressible(t) && Stop(r)
    ensures Read(Text(t) + r) == Some((t, r))
  {
    Beginning(t, r);
    var s, sel := Text(t) + r, t.sel;
    var n := NameLength(s);
    assert s[n + 1..] == sel + r by {
      assert s[n..][1..] == s[n + 1..] && ("." + (sel + r))[1..] == sel + r;
    }
    assert s[n] == '.' by {
      assert s[n..][0] == ("." + (sel + r))[0];
    }
    NameLengthOf(sel, r);
    assert s[n + 1 + |sel|..] == s[n + 1..][|sel|..] == r;
    assert s[n + 1..n + 1 + |sel|] == s[n + 1..][..|sel|] == sel;
  }

  /** Reading a type's text, with more after it, gives back the type and leaves what is after it. */
  lemma {:induction false} ReadText(t: TypeExpr, r: string)
    requires Expressible(t) && Stop(r)
    ensures Read(Text(t) + r) == Some((t, r))
    decreases t
  {
    Beginning(t, r);
    match t
    case Ident(_) =>
    case Selector(pkg, sel) => ReadSelector(t, r);
    case Star(x) => ReadText(x, r);
    case Array(x) => ReadText(x, r);
    case MapOf(k, v) =>
      ReadText(k, "]" + (Text(v) + r));
      assert ("]" + (Text(v) + r))[1..] == Text(v) + r;
      ReadText(v, r);
  }

  /** Unique reading: no type's text can be continued, or cut short, into another's. */
  lemma ReadUnique(t: TypeExpr, r: string, u: TypeExpr, s: string)
    requires Expressible(t) && Expressible(u) && Stop(r) && Stop(s)
    requires Text(t) + r == Text(u) + s
    ensures t == u && r == s
  {
    ReadText(t, r);
    ReadText(u, s);
  }

  /** exprToString loses nothing on expressible types. */
  lemma TextInjective(t: TypeExpr, u: TypeExpr)
    requires Expressible(t) && Expressible(u) && Text(t) == Text(u)
    ensures t == u
  {
    assert Text(t) + "" == Text(t) && Text(u) + "" == Text(u);
    ReadUnique(t, "", u, "");
  }

  // ---- Return shapes ----

  datatype Shape = Shape(kind: ReturnKind, typ: string, isPtr: bool)

  datatype SignatureError = UnsupportedAt(position: nat) | NotError | SecondNotError | BadFirst | TooMany(count: nat)

  /** The case analysis of buildReturn on the texts of the result types. */
  function Classify(types: seq<string>): Result<Shape, SignatureError> {
    if types == [] then Success(Shape(ReturnNothing, "", false))
    else if |types| == 1 then
      if types[0] == "error" then Success(Shape(ReturnError, "", false)) else Failure(NotError)
    else if |types| == 2 then
      if types[1] != "error" then Failure(SecondNotError)
      else
        var t := types[0];
        if t == "int" then Success(Shape(ReturnRowsOrID, "int", false))
        else if "[]*" <= t then Success(Shape(ReturnSlice, t[3..], true))
        else if "[]" <= t then Success(Shape(ReturnSlice, t[2..], false))
        else if "*" <= t then Success(Shape(ReturnSingle, t[1..], true))
        else Failure(BadFirst)
    else Failure(TooMany(|types|))
  }

  /** buildReturn's loop, one field a result; the position of an error counts from one. */
  method BuildReturn(results: seq<TypeExpr>) returns (r: Result<Shape, SignatureError>)
    ensures if forall i | 0 <= i < |results| :: Text(results[i]) != ""
            then r == Classify(Texts(results))
            else r.Failure? && r.error.UnsupportedAt? && 0 < r.error.position <= |results|
                 && Text(results[r.error.position - 1]) == ""
                 && forall i | 0 <= i < r.error.position - 1 :: Text(results[i]) != ""
    ensures r.Success? <==> Accepted(results)
  {
    if |results| == 0 {
      return Success(Shape(ReturnNothing, "", false));
    }
    var types := [];
    for i := 0 to |results|
      invariant types == Texts(results)[..i] && forall j | 0 <= j < i :: Text(results[j]) != ""
    {
      var t := Text(results[i]);
      if t == "" {
        return Failure(UnsupportedAt(i + 1));
      }
      types := types + [t];
    }
    assert types == Texts(results);
    return Classify(types);
  }

  function Texts(results: seq<TypeExpr>): (ts: seq<string>)
    ensures |ts| == |results| && forall i | 0 <= i < |results| :: ts[i] == Text(results[i])
  {
    seq(|results|, i requires 0 <= i < |results| => Text(results[i]))
  }

  /** The result types a shape stands for. */
  function Rendered(s: Shape): seq<string> {
    match s.kind
    case ReturnNothing => []
    case ReturnError => ["error"]
    case ReturnRowsOrID => ["int", "error"]
    case ReturnSlice => ["[]" + ((if s.isPtr then "*" else "") + s.typ), "error"]
    case ReturnSingle => ["*" + s.typ, "error"]
  }

  /** The shapes buildReturn can give. */
  predicate Canonical(s: Shape) {
    match s.kind
    case ReturnNothing => s.typ == "" && !s.isPtr
    case ReturnError => s.typ == "" && !s.isPtr
    case ReturnRowsOrID => s.typ == "int" && !s.isPtr
    case ReturnSlice => !s.isPtr ==> !("*" <= s.typ)
    case ReturnSingle => s.isPtr
  }

  /** Every accepted signature is decoded into a canonical shape that stands for it. */
  lemma AcceptedIsRendered(types: seq<string>)
    requires Classify(types).Success?
    ensures Rendered(Classify(types).value) == types && Canonical(Classify(types).value)
  {
    if |types| == 2 {
      var t := types[0];
      assert types == [t, "error"];
      if "[]*" <= t {
        assert t == "[]" + ("*" + t[3..]);
      } else if "[]" <= t {
        assert t == "[]" + ("" + t[2..]);
        assert |t| > 2 ==> t[2..][0] == t[2];
      } else if "*" <= t {
        assert t == "*" + t[1..];
      }
    }
  }

  /** And every canonical shape is decoded from what it stands for: the two correspond one to one. */
  lemma RenderedIsAccepted(s: Shape)
    requires Canonical(s)
    ensures Classify(Rendered(s)) == Success(s)
  {
    match s.kind
    case ReturnNothing =>
    case ReturnError =>
    case ReturnRowsOrID =>
    case ReturnSlice =>
      var t := Rendered(s)[0];
      assert t[0] == '[' && "int"[0] == 'i';
      assert t[..2] == "[]" && t[2..] == (if s.isPtr then "*" else "") + s.typ;
      if s.isPtr {
        assert t[..3] == "[]*" && t[3..] == s.typ;
      } else {
        assert t == "[]" + s.typ && t[2..] == s.typ;
        assert |t| > 2 ==> t[2] == s.typ[0];
        assert |t| > 2 && s.typ[0] == '*' ==> "*" <= s.typ;
      }
    case ReturnSingle =>
      var t := Rendered(s)[0];
      assert t[0] == '*' && "int"[0] == 'i' && "[]"[0] == '[' && "[]*"[0] == '[';
      assert t[1..] == s.typ && t[..1] == "*";
  }

  // ---- Which signatures are accepted, unsupported parts included ----

  /** Names are names, and only a package is qualified: all that Go's syntax lets through, supported or not. */
  predicate WellNamed(t: TypeExpr) {
    match t
    case Ident(name) => Name(name)
    case Star(x) => WellNamed(x)
    case Array(elt) => WellNamed(elt)
    case Selector(pkg, sel) => pkg.Ident? && Name(pkg.name) && Name(sel)
    case MapOf(k, v) => WellNamed(k) && WellNamed(v)
    case Unsupported => true
  }

  predicate HasUnsupported(t: TypeExpr) {
    match t
    case Ident(_) => false
    case Star(x) => HasUnsupported(x)
    case Array(elt) => HasUnsupported(elt)
    case Selector(pkg, _) => HasUnsupported(pkg)
    case MapOf(k, v) => HasUnsupported(k) || HasUnsupported(v)
    case Unsupported => true
  }

  /** A well-named type is expressible exactly when nothing in it is unsupported. */
  lemma {:induction false} ExpressibleExact(t: TypeExpr)
    requires WellNamed(t)
    ensures Expressible(t) <==> !HasUnsupported(t)
  {
    match t
    case Ident(_) =>
    case Star(x) => ExpressibleExact(x);
    case Array(elt) => ExpressibleExact(elt);
    case Selector(_, _) =>
    case MapOf(k, v) =>
      ExpressibleExact(k);
      ExpressibleExact(v);
    case Unsupported =>
  }

  /** A type has no text exactly when it is itself unsupported, whatever its parts. */
  lemma {:induction false} TextEmpty(t: TypeExpr)
    ensures Text(t) == "" <==> t.Unsupported? || t == Ident("")
  {
    if t.Selector? {
      assert |Text(t)| >= 1;
    }
  }

  /** What a type's text tells of the type: a name only an identifier, the prefixes only the outermost constructor. */
  lemma TextTells(t: TypeExpr)
    requires WellNamed(t)
    ensures Text(t) == "error" <==> t == Ident("error")
    ensures Text(t) == "int" <==> t == Ident("int")
    ensures "*" <= Text(t) <==> t.Star?
    ensures "[]" <= Text(t) <==> t.Array?
  {
    var s := Text(t);
    assert "error"[0] == 'e' && "int"[0] == 'i' && "[]"[0] == '[';
    match t
    case Ident(name) => assert NameChar(name[0]);
    case Star(_) => assert s[0] == '*' && s[..1] == "*";
    case Array(_) => assert s[0] == '[' && s[..2] == "[]";
    case Selector(pkg, sel) =>
      assert NameChar(pkg.name[0]) && s[0] == pkg.name[0] && s[|pkg.name|] == '.';
      assert '.' !in "error" && '.' !in "int";
    case MapOf(_, _) => assert s[0] == 'm';
    case Unsupported =>
  }

  /** buildReturn's answer to any result list: every type has text and the texts are accepted. */
  ghost predicate Accepted(results: seq<TypeExpr>) {
    (forall i | 0 <= i < |results| :: Text(results[i]) != "") && Classify(Texts(results)).Success?
  }

  /** The signatures accepted, as types: none, error alone, and int, any pointer or any slice followed by error. */
  lemma AcceptedExact(results: seq<TypeExpr>)
    requires forall i | 0 <= i < |results| :: WellNamed(results[i])
    ensures Accepted(results) <==>
            || results == []
            || results == [Ident("error")]
            || (|results| == 2 && results[1] == Ident("error")
                && (results[0] == Ident("int") || results[0].Star? || results[0].Array?))
  {
    forall i | 0 <= i < |results|
      ensures Text(results[i]) == "" <==> results[i].Unsupported?
    {
      TextEmpty(results[i]);
    }
    if |results| == 1 {
      TextTells(results[0]);
      assert Texts(results) == [Text(results[0])];
    } else if |results| == 2 {
      TextTells(results[0]);
      TextTells(results[1]);
      assert Texts(results) == [Text(results[0]), Text(results[1])];
      assert "[]*" <= Text(results[0]) ==> "[]" <= Text(results[0]);
    }
  }

  /** Where every type has text, which reason a signature is rejected for. */
  lemma RejectedExact(results: seq<TypeExpr>, e: SignatureError)
    requires forall i | 0 <= i < |results| :: WellNamed(results[i])
    ensures Classify(Texts(results)) == Failure(e) <==>
            match e
            case NotError => |results| == 1 && results[0] != Ident("error")
            case SecondNotError => |results| == 2 && results[1] != Ident("error")
            case BadFirst =>
              && |results| == 2 && results[1] == Ident("error")
              && results[0] != Ident("int") && !results[0].Star? && !results[0].Array?
            case TooMany(count) => |results| == count && count > 2
            case UnsupportedAt(_) => false
  {
    if |results| == 1 {
      TextTells(results[0]);
      assert Texts(results) == [Text(results[0])];
    } else if |results| == 2 {
      TextTells(results[0]);
      TextTells(results[1]);
      assert Texts(results) == [Text(results[0]), Text(results[1])];
      assert "[]*" <= Text(results[0]) ==> "[]" <= Text(results[0]);
    }
  }

  /**
   A signature with an unsupported type somewhere in it is rejected except in one family: the results are two, the
   second is error, and the first is a pointer or a slice, with the unsupported type anywhere below that.
   */
  lemma UnsupportedAccepted(results: seq<TypeExpr>)
    requires forall i | 0 <= i < |results| :: WellNamed(results[i])
    requires exists i | 0 <= i < |results| :: HasUnsupported(results[i])
    ensures Accepted(results) <==>
            |results| == 2 && results[1] == Ident("error") && (results[0].Star? || results[0].Array?)
  {
    AcceptedExact(results);
    assert !HasUnsupported(Ident("error")) && !HasUnsupported(Ident("int"));
  }

  /** For instance a pointer to a function type, as in (*func(), error), becomes a single row of a nameless type. */
  lemma UnsupportedInside()
    ensures Accepted([Star(Unsupported), Ident("error")])
    ensures Classify(Texts([Star(Unsupported), Ident("error")])) == Success(Shape(ReturnSingle, "", true))
    ensures !Expressible(Star(Unsupported))
  {
    var types := Texts([Star(Unsupported), Ident("error")]);
    assert types[0] == "*" + "" == "*";
  }
}
