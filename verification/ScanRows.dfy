/** simplesql/scan.go: scan targets in a struct value, and the row loop. */
module ScanRows {
  import opened Wrappers
  import opened TagIndex

  /** A struct's fields, the zero value of any other type, or a scanned value. */
  datatype Val = StructVal(fields: seq<Val>) | ZeroVal(typ: string) | Cell(id: int)

  /** reflect.New(t).Elem(). */
  function Zero(t: GoType): Val {
    match t
    case NonStruct(name) => ZeroVal(name)
    case Struct(fields) => StructVal(seq(|fields|, i requires 0 <= i < |fields| => Zero(fields[i].typ)))
  }

  predicate HasPath(v: Val, p: Path) {
    p == [] || (v.StructVal? && p[0] < |v.fields| && HasPath(v.fields[p[0]], p[1..]))
  }

  /** reflect's FieldByIndex. */
  function Get(v: Val, p: Path): Val
    requires HasPath(v, p)
  {
    if p == [] then v else Get(v.fields[p[0]], p[1..])
  }

  /** A path is followed step by step, each step to the field of that index. */
  lemma {:induction false} GetSteps(v: Val, p: Path, i: nat)
    ensures HasPath(v, p + [i]) <==>
            HasPath(v, p) && Get(v, p).StructVal? && i < |Get(v, p).fields|
    ensures HasPath(v, p + [i]) ==> Get(v, p + [i]) == Get(v, p).fields[i]
    ensures Get(v, []) == v
    decreases p
  {
    if p == [] {
      assert [i][1..] == [] && [] + [i] == [i];
    } else {
      assert (p + [i])[1..] == p[1..] + [i];
      if v.StructVal? && p[0] < |v.fields| {
        GetSteps(v.fields[p[0]], p[1..], i);
      }
    }
  }

  /** Writing through the address of that field. */
  function Set(v: Val, p: Path, x: Val): Val
    requires HasPath(v, p)
    decreases p
  {
    if p == [] then x else StructVal(v.fields[p[0] := Set(v.fields[p[0]], p[1..], x)])
  }

  lemma {:induction false} GetSet(v: Val, p: Path, x: Val)
    requires HasPath(v, p)
    ensures HasPath(Set(v, p, x), p) && Get(Set(v, p, x), p) == x
    decreases p
  {
    if p != [] {
      GetSet(v.fields[p[0]], p[1..], x);
    }
  }

  lemma {:induction false} GetSetUnrelated(v: Val, p: Path, q: Path, x: Val)
    requires HasPath(v, p) && HasPath(v, q) && Unrelated(p, q)
    ensures HasPath(Set(v, p, x), q) && Get(Set(v, p, x), q) == Get(v, q)
    decreases p
  {
    if p[0] == q[0] {
      GetSetUnrelated(v.fields[p[0]], p[1..], q[1..], x);
    }
  }

  /** The type of the field at a path of any kind, if there is one. */
  function TypeAt(t: GoType, p: Path): Option<GoType> {
    if p == [] then Some(t)
    else if t.Struct? && p[0] < |t.fields| then TypeAt(t.fields[p[0]].typ, p[1..])
    else None
  }

  /** A zero value has the fields of its type, and in each that is no struct the zero value of that field's type. */
  lemma {:induction false} ZeroExact(t: GoType, p: Path)
    ensures HasPath(Zero(t), p) <==> TypeAt(t, p).Some?
    ensures HasPath(Zero(t), p) ==>
              match TypeAt(t, p).value
              case NonStruct(name) => Get(Zero(t), p) == ZeroVal(name)
              case Struct(fields) => Get(Zero(t), p).StructVal? && |Get(Zero(t), p).fields| == |fields|
    decreases p
  {
    if p != [] && t.Struct? && p[0] < |t.fields| {
      ZeroExact(t.fields[p[0]].typ, p[1..]);
    }
  }

  /** Field paths of a type lead to fields of it, and so resolve in its zero value. */
  lemma {:induction false} ZeroHasPath(t: GoType, p: Path)
    requires FieldPath(t, p)
    ensures HasPath(Zero(t), p)
    decreases p
  {
    if |p| > 1 {
      ZeroHasPath(t.fields[p[0]].typ, p[1..]);
    }
  }

  // ---- Targets ----

  datatype Target = Discard | FieldAt(path: Path)

  function TargetOf(index: map<string, Path>, column: string): Target {
    if column in index then FieldAt(index[column]) else Discard
  }

  function Targets(index: map<string, Path>, cols: seq<string>): (ts: seq<Target>)
    ensures |ts| == |cols| && forall i | 0 <= i < |cols| :: ts[i] == TargetOf(index, cols[i])
  {
    seq(|cols|, i requires 0 <= i < |cols| => TargetOf(index, cols[i]))
  }

  /** Filling the pointer array in place. */
  method FieldPointersFromIndex(cols: seq<string>, index: map<string, Path>) returns (ptrs: array<Target>)
    ensures fresh(ptrs) && ptrs.Length == |cols|
    ensures forall i | 0 <= i < |cols| ::
              ptrs[i] == if cols[i] in index then FieldAt(index[cols[i]]) else Discard
    ensures ptrs[..] == Targets(index, cols)
  {
    ptrs := new Target[|cols|](_ => Discard);
    for i := 0 to |cols|
      invariant ptrs[..i] == Targets(index, cols)[..i]
    {
      if cols[i] !in index {
        ptrs[i] := Discard;
        continue;
      }
      ptrs[i] := FieldAt(index[cols[i]]);
    }
    assert ptrs[..] == ptrs[..|cols|] && Targets(index, cols) == Targets(index, cols)[..|cols|];
  }

  /** The dynamic shapes of FieldPointers's argument; a nil pointer is no pointer to a struct. */
  datatype StructDest = NoStructPointer | ToStruct(obj: StructObj, typ: GoType)

  /** FieldPointers: the targets for one struct, or None for any other argument. */
  method FieldPointers(dest: StructDest, cols: seq<string>) returns (r: Option<array<Target>>)
    ensures r.Some? <==> dest.ToStruct? && dest.typ.Struct?
    ensures r.Some? ==> fresh(r.value) && r.value[..] == Targets(Index(dest.typ), cols)
  {
    if !dest.ToStruct? || !dest.typ.Struct? {
      return None;
    }
    var index := BuildTagIndex(dest.typ);
    var ptrs := FieldPointersFromIndex(cols, index);
    return Some(ptrs);
  }

  // ---- One row ----

  /** The struct after writing the first n cells through their targets, in order. */
  function Written(v: Val, ts: seq<Target>, cells: seq<Val>, n: nat): Val
    requires n <= |cells| <= |ts|
  {
    if n == 0 then v
    else
      var w := Written(v, ts, cells, n - 1);
      if ts[n - 1].FieldAt? && HasPath(w, ts[n - 1].path) then Set(w, ts[n - 1].path, cells[n - 1]) else w
  }

  function Decoded(t: GoType, cols: seq<string>, cells: seq<Val>): Val
    requires t.Struct? && |cells| <= |cols|
  {
    Written(Zero(t), Targets(Index(t), cols), cells, |cells|)
  }

  lemma TargetLeads(t: GoType, column: string)
    requires t.Struct? && column in Index(t)
    ensures FieldPath(t, Index(t)[column])
  {
    IndexExact(t, column);
    TaggedPathLeads(t, Index(t)[column], column);
  }

  ghost predicate Compatible(v: Val, p: Path, q: Path) {
    HasPath(v, p) && HasPath(v, q) && (p == q || Unrelated(p, q))
  }

  /** Targets that resolve in v, no two of which meet halfway, and none with q. */
  ghost predicate Apart(v: Val, ts: seq<Target>, q: Path) {
    && HasPath(v, q)
    && (forall i | 0 <= i < |ts| && ts[i].FieldAt? :: Compatible(v, ts[i].path, q))
    && (forall i, j | 0 <= i < |ts| && 0 <= j < |ts| && ts[i].FieldAt? && ts[j].FieldAt? ::
          Compatible(v, ts[i].path, ts[j].path))
  }

  /** The last of the first n targets that is q, or -1. */
  function LastAim(ts: seq<Target>, n: nat, q: Path): (k: int)
    requires n <= |ts|
    ensures -1 <= k < n
    ensures k >= 0 ==> ts[k] == FieldAt(q)
    ensures forall j | k < j < n :: ts[j] != FieldAt(q)
  {
    if n == 0 then -1 else if ts[n - 1] == FieldAt(q) then n - 1 else LastAim(ts, n - 1, q)
  }

  /** What writing a row does to one place: the last cell aimed at it stays, and without one it is as before. */
  lemma {:induction false} PlaceAfter(v: Val, ts: seq<Target>, cells: seq<Val>, n: nat, q: Path)
    requires n <= |cells| <= |ts| && Apart(v, ts, q)
    ensures var w, k := Written(v, ts, cells, n), LastAim(ts, n, q);
            HasPath(w, q) && Get(w, q) == if k >= 0 then cells[k] else Get(v, q)
    decreases n
  {
    if n > 0 {
      PlaceAfter(v, ts, cells, n - 1, q);
      if ts[n - 1].FieldAt? {
        var p := ts[n - 1].path;
        assert Compatible(v, p, q);
        PlaceAfter(v, ts, cells, n - 1, p);
        PutAfter(Written(v, ts, cells, n - 1), p, q, cells[n - 1]);
      }
    }
  }

  lemma PutAfter(w: Val, p: Path, q: Path, x: Val)
    requires Compatible(w, p, q)
    ensures HasPath(Set(w, p, x), q) && Get(Set(w, p, x), q) == if p == q then x else Get(w, q)
  {
    if p == q {
      GetSet(w, p, x);
    } else {
      GetSetUnrelated(w, p, q, x);
    }
  }

  lemma ColumnsApart(t: GoType, cols: seq<string>, q: Path)
    requires t.Struct? && FieldPath(t, q)
    ensures Apart(Zero(t), Targets(Index(t), cols), q)
  {
    var ts := Targets(Index(t), cols);
    ZeroHasPath(t, q);
    forall i | 0 <= i < |ts| && ts[i].FieldAt?
      ensures FieldPath(t, ts[i].path)
    {
      TargetLeads(t, cols[i]);
    }
    forall p, r | FieldPath(t, p) && FieldPath(t, r)
      ensures Compatible(Zero(t), p, r)
    {
      ZeroHasPath(t, p);
      ZeroHasPath(t, r);
      FieldPathsUnrelated(t, p, r);
    }
  }

  /** A known column's field holds the cell of that column's last occurrence. */
  lemma ColumnDecoded(t: GoType, cols: seq<string>, cells: seq<Val>, i: nat)
    requires t.Struct? && i < |cells| == |cols| && cols[i] in Index(t)
    requires forall j | i < j < |cols| :: cols[j] != cols[i]
    ensures var v := Decoded(t, cols, cells);
            HasPath(v, Index(t)[cols[i]]) && Get(v, Index(t)[cols[i]]) == cells[i]
  {
    var q, ts := Index(t)[cols[i]], Targets(Index(t), cols);
    TargetLeads(t, cols[i]);
    forall j | i < j < |cols|
      ensures ts[j] != FieldAt(q)
    {
      if cols[j] in Index(t) {
        ColumnsUnrelated(t, cols[j], cols[i]);
        UnrelatedDiffer(ts[j].path, q);
      }
    }
    ColumnsApart(t, cols, q);
    PlaceAfter(Zero(t), Targets(Index(t), cols), cells, |cells|, q);
  }

  lemma UnrelatedDiffer(p: Path, q: Path)
    requires Unrelated(p, q)
    ensures p != q
    decreases p
  {
    if p[0] == q[0] {
      UnrelatedDiffer(p[1..], q[1..]);
    }
  }

  /** A field that no column names, such as an untagged one or one hidden by a later tag, keeps its zero value. */
  lemma UnselectedZero(t: GoType, cols: seq<string>, cells: seq<Val>, q: Path)
    requires t.Struct? && |cells| == |cols| && FieldPath(t, q)
    requires forall c | c in cols && c in Index(t) :: Index(t)[c] != q
    ensures var v := Decoded(t, cols, cells);
            && HasPath(v, q) && TypeAt(t, q).Some?
            && (TypeAt(t, q).value.NonStruct? ==> Get(v, q) == ZeroVal(TypeAt(t, q).value.name))
            && (TypeAt(t, q).value.Struct? ==> HasPath(Zero(t), q) && Get(v, q) == Get(Zero(t), q))
  {
    ZeroExact(t, q);
    ColumnsApart(t, cols, q);
    PlaceAfter(Zero(t), Targets(Index(t), cols), cells, |cells|, q);
  }

  // ---- All rows ----

  datatype Error = BadDest | DriverError(id: int)

  function ErrorList(e: Option<Error>): seq<Error> {
    match e { case None => [] case Some(x) => [x] }
  }

  /** The cells converted up to the first that fails; all of them if none does. */
  datatype Row = Row(cells: seq<Val>, failure: Option<Error>)

  /** The driver delivers as many cells as there are columns, up to a failure. */
  ghost predicate RowsFit(cols: seq<string>, data: seq<Row>) {
    forall i | 0 <= i < |data| :: |data[i].cells| <= |cols| && (data[i].failure.None? ==> |data[i].cells| == |cols|)
  }

  class StructObj {
    var v: Val

    constructor (v: Val)
      ensures this.v == v
    {
      this.v := v;
    }
  }

  /** *sql.Rows: a script of what the driver will deliver, and how far it has been read. */
  class Rows {
    const columns: Result<seq<string>, Error>
    const data: seq<Row>
    const iterErr: Option<Error>
    const closeErr: Option<Error>
    var next: nat
    var closes: nat

    constructor (columns: Result<seq<string>, Error>, data: seq<Row>, iterErr: Option<Error>, closeErr: Option<Error>)
      requires columns.Success? ==> RowsFit(columns.value, data)
      ensures Valid() && next == 0 && closes == 0
      ensures this.columns == columns && this.data == data && this.iterErr == iterErr && this.closeErr == closeErr
    {
      this.columns, this.data, this.iterErr, this.closeErr := columns, data, iterErr, closeErr;
      next, closes := 0, 0;
    }

    ghost predicate Valid()
      reads this
    {
      next <= |data| && (columns.Success? ==> RowsFit(columns.value, data))
    }

    method Next() returns (ok: bool)
      requires Valid()
      modifies this`next
      ensures Valid() && ok == (old(next) < |data|) && next == (if ok then old(next) + 1 else old(next))
    {
      ok := next < |data|;
      next := if ok then next + 1 else next;
    }

    method Scan(elem: StructObj, ptrs: array<Target>) returns (err: Option<Error>)
      requires Valid() && columns.Success? && 0 < next && ptrs.Length == |columns.value|
      modifies elem
      ensures var row := data[next - 1];
              err == row.failure && elem.v == Written(old(elem.v), ptrs[..], row.cells, |row.cells|)
    {
      var row := data[next - 1];
      for k := 0 to |row.cells|
        invariant elem.v == Written(old(elem.v), ptrs[..], row.cells, k)
      {
        if ptrs[k].FieldAt? && HasPath(elem.v, ptrs[k].path) {
          elem.v := Set(elem.v, ptrs[k].path, row.cells[k]);
        }
      }
      return row.failure;
    }

    method Close() returns (err: Option<Error>)
      requires Valid()
      modifies this`closes
      ensures Valid() && closes == old(closes) + 1 && err == closeErr
    {
      closes := closes + 1;
      return closeErr;
    }
  }

  /** An element of the destination slice: a *T or a T. */
  datatype Elem = Ref(obj: StructObj) | Plain(v: Val)

  class SliceCell {
    var elems: seq<Elem>

    constructor (elems: seq<Elem>)
      ensures this.elems == elems
    {
      this.elems := elems;
    }
  }

  /** The dynamic shapes of ScanRows's second argument; base is T, whether the slice holds T or *T. */
  datatype Dest = NotPointer | NilPointer | ToNonSlice | ToSlice(slice: SliceCell, isPtr: bool, base: GoType)

  /** The first row from i on that does not scan, or the number of rows. */
  function FirstFailure(data: seq<Row>, i: nat): (k: nat)
    requires i <= |data|
    ensures i <= k <= |data|
    ensures k < |data| ==> data[k].failure.Some?
    ensures forall j | i <= j < k :: data[j].failure.None?
    decreases |data| - i
  {
    if i == |data| || data[i].failure.Some? then i else FirstFailure(data, i + 1)
  }

  ghost function DecodedRows(t: GoType, cols: seq<string>, data: seq<Row>, first: nat, end: nat): (vs: seq<Val>)
    requires t.Struct? && first <= end <= |data|
    requires RowsFit(cols, data)
    ensures |vs| == end - first && forall i | 0 <= i < |vs| :: vs[i] == Decoded(t, cols, data[first + i].cells)
  {
    seq(end - first, i requires 0 <= i < end - first => Decoded(t, cols, data[first + i].cells))
  }

  /** The first n objects, no two the same, hold the first n of vs. */
  ghost predicate Hold(objs: seq<StructObj>, vs: seq<Val>, n: nat)
    reads objs
  {
    && |objs| == n <= |vs|
    && (forall i | 0 <= i < n :: objs[i].v == vs[i])
    && (forall i, j | 0 <= i < j < n :: objs[i] != objs[j])
  }

  lemma HoldSnoc(objs: seq<StructObj>, vs: seq<Val>, n: nat, obj: StructObj)
    requires Hold(objs, vs, n) && obj !in objs && n < |vs| && obj.v == vs[n]
    ensures Hold(objs + [obj], vs, n + 1)
  {
  }

  /** What the first n rows add to the slice. */
  function Elements(isPtr: bool, objs: seq<StructObj>, vs: seq<Val>, n: nat): (es: seq<Elem>)
    requires n <= |objs| && n <= |vs|
    ensures |es| == n && forall i | 0 <= i < n :: es[i] == if isPtr then Ref(objs[i]) else Plain(vs[i])
  {
    seq(n, i requires 0 <= i < n => if isPtr then Ref(objs[i]) else Plain(vs[i]))
  }

  lemma ElementsSnoc(base: seq<Elem>, isPtr: bool, objs: seq<StructObj>, vs: seq<Val>, n: nat, obj: StructObj)
    requires |objs| == n < |vs|
    ensures base + Elements(isPtr, objs, vs, n) + [if isPtr then Ref(obj) else Plain(vs[n])]
         == base + Elements(isPtr, objs + [obj], vs, n + 1)
  {
  }

  /**
   The rows are closed exactly once, with any close error joined to the result; a wrong destination and a column
   error leave the slice alone; otherwise it grows by exactly the rows before the first that fails: by their decoded
   values, or by pointers to new objects, no two the same, that hold those values. The error is the first thing that
   went wrong, if anything did, and then the close error, if there is one; so it is nil exactly if nothing went wrong.
   */
  method ScanRows(rows: Rows, dest: Dest) returns (err: seq<Error>, ghost objs: seq<StructObj>)
    requires rows.Valid()
    modifies rows, if dest.ToSlice? then {dest.slice} else {}
    ensures rows.closes == old(rows.closes) + 1
    ensures dest.ToSlice? && (dest.base.NonStruct? || rows.columns.Failure?) ==>
              dest.slice.elems == old(dest.slice.elems)
    ensures dest.ToSlice? && dest.base.Struct? && rows.columns.Success? ==>
              var k := FirstFailure(rows.data, old(rows.next));
              var vs := DecodedRows(dest.base, rows.columns.value, rows.data, old(rows.next), k);
              && Hold(objs, vs, |vs|) && (forall i | 0 <= i < |objs| :: fresh(objs[i]))
              && dest.slice.elems == old(dest.slice.elems) + Elements(dest.isPtr, objs, vs, |vs|)
    ensures var k := FirstFailure(rows.data, old(rows.next));
            err == (if !dest.ToSlice? || dest.base.NonStruct? then [BadDest]
                    else if rows.columns.Failure? then [rows.columns.error]
                    else if k < |rows.data| then [rows.data[k].failure.value]
                    else if rows.iterErr.Some? then [rows.iterErr.value]
                    else []) + (if rows.closeErr.Some? then [rows.closeErr.value] else [])
    ensures err == [] <==>
            && dest.ToSlice? && dest.base.Struct? && rows.columns.Success?
            && (forall j | old(rows.next) <= j < |rows.data| :: rows.data[j].failure.None?)
            && rows.iterErr.None? && rows.closeErr.None?
  {
    var main;
    main, objs := ScanAll(rows, dest);
    var closeErr := rows.Close();
    return main + ErrorList(closeErr), objs;
  }

  /** ScanRows up to its deferred close. */
  method ScanAll(rows: Rows, dest: Dest) returns (err: seq<Error>, ghost objs: seq<StructObj>)
    requires rows.Valid()
    modifies rows`next, if dest.ToSlice? then {dest.slice} else {}
    ensures rows.Valid()
    ensures dest.ToSlice? && (dest.base.NonStruct? || rows.columns.Failure?) ==>
              dest.slice.elems == old(dest.slice.elems)
    ensures dest.ToSlice? && dest.base.Struct? && rows.columns.Success? ==>
              var k := FirstFailure(rows.data, old(rows.next));
              var vs := DecodedRows(dest.base, rows.columns.value, rows.data, old(rows.next), k);
              && Hold(objs, vs, |vs|) && (forall i | 0 <= i < |objs| :: fresh(objs[i]))
              && dest.slice.elems == old(dest.slice.elems) + Elements(dest.isPtr, objs, vs, |vs|)
    ensures var k := FirstFailure(rows.data, old(rows.next));
            err == (if !dest.ToSlice? || dest.base.NonStruct? then [BadDest]
                    else if rows.columns.Failure? then [rows.columns.error]
                    else if k < |rows.data| then [rows.data[k].failure.value]
                    else if rows.iterErr.Some? then [rows.iterErr.value]
                    else [])
  {
    if !dest.ToSlice? || !dest.base.Struct? {
      return [BadDest], [];
    }
    if rows.columns.Failure? {
      return [rows.columns.error], [];
    }
    var index := BuildTagIndex(dest.base);
    var loopErr;
    loopErr, objs := ScanLoop(rows, dest.slice, dest.isPtr, dest.base, rows.columns.value, index);
    return ErrorList(loopErr), objs;
  }

  /** The row loop of ScanRows. */
  method ScanLoop(rows: Rows, slice: SliceCell, isPtr: bool, t: GoType, cols: seq<string>, index: map<string, Path>)
    returns (err: Option<Error>, ghost objs: seq<StructObj>)
    requires rows.Valid() && rows.columns == Success(cols)
    requires t.Struct? && index == Index(t)
    modifies rows`next, slice
    ensures rows.Valid()
    ensures var k := FirstFailure(rows.data, old(rows.next));
            var vs := DecodedRows(t, cols, rows.data, old(rows.next), k);
            && Hold(objs, vs, |vs|) && (forall i | 0 <= i < |objs| :: fresh(objs[i]))
            && slice.elems == old(slice.elems) + Elements(isPtr, objs, vs, |vs|)
            && err == if k < |rows.data| then rows.data[k].failure else rows.iterErr
  {
    ghost var base, first := slice.elems, rows.next;
    ghost var k := FirstFailure(rows.data, first);
    ghost var vs := DecodedRows(t, cols, rows.data, first, k);
    objs := [];
    while true
      invariant first <= rows.next <= k
      invariant Hold(objs, vs, rows.next - first) && (forall i | 0 <= i < |objs| :: fresh(objs[i]))
      invariant slice.elems == base + Elements(isPtr, objs, vs, rows.next - first)
      decreases k - rows.next
    {
      var more := rows.Next();
      if !more {
        break;
      }
      var elem, scanErr := ScanRow(rows, t, cols, index);
      if scanErr.Some? {
        return scanErr, objs;
      }
      HoldSnoc(objs, vs, rows.next - 1 - first, elem);
      ElementsSnoc(base, isPtr, objs, vs, rows.next - 1 - first, elem);
      if isPtr {
        slice.elems := slice.elems + [Ref(elem)];
      } else {
        slice.elems := slice.elems + [Plain(elem.v)];
      }
      objs := objs + [elem];
    }
    return rows.iterErr, objs;
  }

  /** One turn of the row loop: a new struct, its field pointers, and the scan. */
  method ScanRow(rows: Rows, t: GoType, cols: seq<string>, index: map<string, Path>)
    returns (elem: StructObj, err: Option<Error>)
    requires rows.Valid() && rows.columns == Success(cols) && 0 < rows.next
    requires t.Struct? && index == Index(t)
    ensures fresh(elem) && err == rows.data[rows.next - 1].failure
    ensures elem.v == Decoded(t, cols, rows.data[rows.next - 1].cells)
  {
    elem := new StructObj(Zero(t));
    var ptrs := FieldPointersFromIndex(cols, index);
    err := rows.Scan(elem, ptrs);
  }
}
