/** simplesql/scan.go, collectTagIndex: from a struct type to the field path each column name is scanned into. */
module TagIndex {

  /** What reflection shows of a type: its fields if it is a struct, and nothing that matters here otherwise. */
  datatype GoType = Struct(fields: seq<Field>) | NonStruct(name: string)

  /** tag is the value under the key "db", empty if there is none. */
  datatype Field = Field(name: string, typ: GoType, anonymous: bool, tag: string) {

    predicate Embeds() {
      anonymous && typ.Struct?
    }

    predicate Tagged() {
      !Embeds() && tag != "" && tag != "-"
    }

    function Column(): string {
      BeforeComma(tag)
    }
  }

  /** strings.SplitN(s, ",", 2)[0]. */
  function BeforeComma(s: string): string {
    if s == "" || s[0] == ',' then "" else [s[0]] + BeforeComma(s[1..])
  }

  /** The tag is the column's name, perhaps with a comma and options after it. */
  predicate Labels(tag: string, column: string) {
    ',' !in column && (tag == column || column + "," <= tag)
  }

  lemma {:induction false} BeforeCommaExact(s: string, c: string)
    ensures BeforeComma(s) == c <==> Labels(s, c)
    decreases s
  {
    if s == "" || s[0] == ',' {
      assert s != "" ==> "" + "," == s[..1];
    } else {
      assert s == [s[0]] + s[1..];
      BeforeCommaExact(s[1..], BeforeComma(s[1..]));
      if c != "" && c[0] == s[0] {
        BeforeCommaExact(s[1..], c[1..]);
        assert c == [c[0]] + c[1..];
        assert (c + ",")[1..] == c[1..] + ",";
      }
    }
  }

  type Path = seq<nat>

  // ---- What a column's field is, without reference to the walk ----

  /** The path leads through embedded structs, and only those, to a field that is none. */
  predicate FieldPath(t: GoType, p: Path) {
    && t.Struct? && p != [] && p[0] < |t.fields|
    && var f := t.fields[p[0]];
       if |p| == 1 then !(f.anonymous && f.typ.Struct?)
       else f.anonymous && f.typ.Struct? && FieldPath(f.typ, p[1..])
  }

  /** Such a path, to a field tagged with the column's name. */
  predicate TaggedPath(t: GoType, p: Path, column: string) {
    && t.Struct? && p != [] && p[0] < |t.fields|
    && var f := t.fields[p[0]];
       if |p| == 1 then
         !(f.anonymous && f.typ.Struct?) && f.tag != "" && f.tag != "-" && Labels(f.tag, column)
       else f.anonymous && f.typ.Struct? && TaggedPath(f.typ, p[1..], column)
  }

  /** Declaration order, an embedded struct's fields standing where it is embedded. */
  predicate Before(p: Path, q: Path) {
    p != [] && q != [] && (p[0] < q[0] || (p[0] == q[0] && Before(p[1..], q[1..])))
  }

  /** Of the fields at index i and later, p is the last declared one with the column's tag. */
  ghost predicate LastTagged(t: GoType, i: nat, column: string, p: Path) {
    && TaggedPath(t, p, column) && p[0] >= i
    && forall q: Path :: TaggedPath(t, q, column) && q[0] >= i ==> q == p || Before(q, p)
  }

  ghost predicate NoneTagged(t: GoType, i: nat, column: string) {
    forall q: Path :: TaggedPath(t, q, column) ==> q[0] < i
  }

  // ---- The walk ----

  /** The map after visiting the fields of t from index i on, below prefix. */
  function Collect(t: GoType, i: nat, prefix: Path, m: map<string, Path>): map<string, Path>
    requires t.Struct? && i <= |t.fields|
    decreases t, |t.fields| - i
  {
    if i == |t.fields| then m
    else
      var f, idx := t.fields[i], prefix + [i];
      Collect(t, i + 1, prefix,
              if f.Embeds() then Collect(f.typ, 0, idx, m) else if f.Tagged() then m[f.Column() := idx] else m)
  }

  /** What the walk does to one column: the last declared field with that tag replaces whatever was there before. */
  lemma {:induction false} Collected(t: GoType, i: nat, prefix: Path, m: map<string, Path>, column: string)
    returns (found: bool, last: Path)
    requires t.Struct? && i <= |t.fields|
    ensures var r := Collect(t, i, prefix, m);
            if found then LastTagged(t, i, column, last) && column in r && r[column] == prefix + last
            else NoneTagged(t, i, column) && (column in r <==> column in m) && (column in m ==> r[column] == m[column])
    decreases t, |t.fields| - i
  {
    if i == |t.fields| {
      return false, [];
    }
    var f, idx := t.fields[i], prefix + [i];
    BeforeCommaExact(f.tag, column);
    var m' := if f.Embeds() then Collect(f.typ, 0, idx, m) else if f.Tagged() then m[f.Column() := idx] else m;
    found, last := Collected(t, i + 1, prefix, m', column);
    if f.Embeds() {
      var inFound, inLast := Collected(f.typ, 0, idx, m, column);
      InsideEmbedded(t, i, column);
      if !found && inFound {
        found, last := true, [i] + inLast;
        assert last[1..] == inLast && idx + inLast == prefix + last;
        assert TaggedPath(t, last, column);
      }
    } else if !found && f.Tagged() && f.Column() == column {
      found, last := true, [i];
      assert TaggedPath(t, last, column);
    }
  }

  /** Tagged paths through an embedded field are the tagged paths of its type. */
  lemma InsideEmbedded(t: GoType, i: nat, column: string)
    requires t.Struct? && i < |t.fields| && t.fields[i].Embeds()
    ensures forall q: Path :: TaggedPath(t, q, column) && q[0] == i ==> TaggedPath(t.fields[i].typ, q[1..], column)
  {
  }

  /** buildTagIndex's map. */
  function Index(t: GoType): map<string, Path>
    requires t.Struct?
  {
    Collect(t, 0, [], map[])
  }

  /** A column is in the index exactly when a field has its tag, and its path is the last such field's. */
  lemma IndexExact(t: GoType, column: string)
    requires t.Struct?
    ensures if column in Index(t) then LastTagged(t, 0, column, Index(t)[column])
            else forall p: Path :: !TaggedPath(t, p, column)
  {
    var found, last := Collected(t, 0, [], map[], column);
    if found {
      assert Index(t)[column] == [] + last == last;
    } else {
      assert forall p: Path :: p != [] ==> p[0] >= 0;
    }
  }

  /** For instance the column of a tagged field that is no embedded struct, whatever its type, is in the index. */
  lemma TaggedIndexed(t: GoType, i: nat, column: string)
    requires t.Struct? && i < |t.fields| && (!t.fields[i].anonymous || t.fields[i].typ.NonStruct?)
    requires t.fields[i].tag !in {"", "-"} && Labels(t.fields[i].tag, column)
    ensures column in Index(t)
  {
    IndexExact(t, column);
    assert TaggedPath(t, [i], column);
  }

  lemma BeforeIrreflexive(p: Path)
    ensures !Before(p, p)
  {
    if p != [] {
      BeforeIrreflexive(p[1..]);
    }
  }

  lemma {:induction false} BeforeAsymmetric(p: Path, q: Path)
    requires Before(p, q)
    ensures !Before(q, p) && p != q
    decreases p
  {
    BeforeIrreflexive(p);
    if p[0] == q[0] {
      BeforeAsymmetric(p[1..], q[1..]);
    }
  }

  /** There is only one last field, so the index holds it and no other. */
  lemma LastUnique(t: GoType, i: nat, column: string, p: Path, q: Path)
    requires LastTagged(t, i, column, p) && LastTagged(t, i, column, q)
    ensures p == q
  {
    if p != q {
      BeforeAsymmetric(p, q);
    }
  }

  // ---- Different columns, different places ----

  /** Neither path leads to or through the other's end. */
  predicate Unrelated(p: Path, q: Path) {
    p != [] && q != [] && (p[0] == q[0] ==> Unrelated(p[1..], q[1..]))
  }

  lemma {:induction false} TaggedPathLeads(t: GoType, p: Path, column: string)
    requires TaggedPath(t, p, column)
    ensures FieldPath(t, p)
    decreases p
  {
    if |p| > 1 {
      TaggedPathLeads(t.fields[p[0]].typ, p[1..], column);
    }
  }

  lemma {:induction false} TaggedPathColumn(t: GoType, p: Path, c: string, d: string)
    requires TaggedPath(t, p, c) && TaggedPath(t, p, d)
    ensures c == d
    decreases p
  {
    BeforeCommaExact(t.fields[p[0]].tag, c);
    BeforeCommaExact(t.fields[p[0]].tag, d);
    if |p| > 1 {
      TaggedPathColumn(t.fields[p[0]].typ, p[1..], c, d);
    }
  }

  /** Paths to fields are equal or unrelated: each ends at a field that is not embedded, so none goes on through it. */
  lemma {:induction false} FieldPathsUnrelated(t: GoType, p: Path, q: Path)
    requires FieldPath(t, p) && FieldPath(t, q)
    ensures p == q || Unrelated(p, q)
    decreases p
  {
    if p[0] == q[0] && |p| > 1 {
      FieldPathsUnrelated(t.fields[p[0]].typ, p[1..], q[1..]);
      assert p == [p[0]] + p[1..] && q == [q[0]] + q[1..];
    } else if p[0] == q[0] {
      assert p == [p[0]] == q;
    }
  }

  /** Distinct known columns have unrelated paths. */
  lemma ColumnsUnrelated(t: GoType, c: string, d: string)
    requires t.Struct? && c in Index(t) && d in Index(t) && c != d
    ensures Unrelated(Index(t)[c], Index(t)[d])
  {
    IndexExact(t, c);
    IndexExact(t, d);
    var p, q := Index(t)[c], Index(t)[d];
    TaggedPathLeads(t, p, c);
    TaggedPathLeads(t, q, d);
    FieldPathsUnrelated(t, p, q);
    if p == q {
      TaggedPathColumn(t, p, c, d);
    }
  }

  // ---- The walk in place, over a shared map of path slices ----

  /** append(append([]int{}, prefix...), i): a new slice each time. */
  method AppendIndex(prefix: array<nat>, i: nat) returns (idx: array<nat>)
    ensures fresh(idx) && idx[..] == prefix[..] + [i]
  {
    idx := new nat[prefix.Length + 1];
    forall k | 0 <= k < prefix.Length {
      idx[k] := prefix[k];
    }
    idx[prefix.Length] := i;
  }

  class Builder {
    var m: map<string, array<nat>>

    /** What the map says, path by path. */
    function View(): map<string, Path>
      reads this, m.Values
    {
      map column | column in m :: m[column][..]
    }

    constructor ()
      ensures m == map[]
    {
      m := map[];
    }

    /** Writes to the map only: slices stored before, and prefix, keep their contents. */
    method CollectTagIndex(t: GoType, prefix: array<nat>)
      requires t.Struct?
      modifies this
      ensures View() == Collect(t, 0, prefix[..], old(View()))
      ensures forall column | column in m :: m[column] in old(m.Values) || fresh(m[column])
      decreases t
    {
      ghost var below := prefix[..];
      for i := 0 to |t.fields|
        invariant prefix[..] == below
        invariant Collect(t, i, below, View()) == Collect(t, 0, below, old(View()))
        invariant forall column | column in m :: m[column] in old(m.Values) || fresh(m[column])
      {
        var f := t.fields[i];
        ghost var was := View();
        var idx := AppendIndex(prefix, i);
        if f.Embeds() {
          CollectTagIndex(f.typ, idx);
          continue;
        }
        if f.tag == "" || f.tag == "-" {
          continue;
        }
        m := m[BeforeComma(f.tag) := idx];
        assert View() == was[f.Column() := below + [i]];
      }
    }
  }

  /** The finished map, whose slices nothing writes to any more, as a value. */
  method BuildTagIndex(t: GoType) returns (index: map<string, Path>)
    requires t.Struct?
    ensures index == Index(t)
  {
    var builder := new Builder();
    var nothing := new nat[0];
    assert builder.View() == map[] && nothing[..] == [];
    builder.CollectTagIndex(t, nothing);
    return builder.View();
  }
}
