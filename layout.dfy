// The row/column layout grid of pages and posts (app/admin/pages_views.py,
// app/admin/posts_views.py, app/models/page.py, app/models/post.py). The
// editor submits the grid as JSON, `[{rowIndex, columns: [{colIndex,
// colWidth, moduleInstanceId}, ...]}, ...]`; saving turns every column
// entry into one `PageLayout` / `PostLayout` row.

module Layout {
  import opened Common
  import opened Json
  import opened Sorting
  import opened Grouping

  /** The submitted `layout_json` field, as far as the save handlers tell texts apart. */
  datatype LayoutText =
    | Empty               // absent or ""
    | Whitespace          // non-empty, only white space (never decodes)
    | Decodes(value: Json) // a text `json.loads` decodes to `value`
    | Malformed           // any other text: `json.loads` raises JSONDecodeError

  /** One grid cell as stored: `row_index`, `col_index`, `col_width`, `module_instance_id`. */
  datatype CellSpec = CellSpec(row: int, col: int, width: int, instance: Option<int>)

  /** A layout row of the table, owned by a page (page_layout) or a post (post_layout). */
  datatype Cell = Cell(owner: nat, spec: CellSpec)

  /**
   * What an INSERT stores in a non-null integer column with a default: an
   * absent value or None is left out of the INSERT, so the default applies;
   * an integer (or a boolean, an int in Python) is stored; a string the
   * database reads as an integer (blanks, a sign, digits) is stored as that
   * integer; anything else is rejected at commit (None).
   */
  function IntColumn(v: Option<Json>, default: int): (r: Option<int>)
    ensures v.None? || v == Some(JNull) ==> r == Some(default)
    ensures forall s :: v == Some(JStr(s)) ==> r == ParseInt(s)
    ensures r.None? <==>
      v.Some? && !(v.value.JNull? || v.value.JInt? || v.value.JBool? || (v.value.JStr? && ParseInt(v.value.s).Some?))
  {
    match v
    case None => Some(default)
    case Some(JNull) => Some(default)
    case Some(JInt(i)) => Some(i)
    case Some(JBool(b)) => Some(if b then 1 else 0)
    case Some(JStr(s)) => ParseInt(s)
    case Some(_) => None
  }

  /**
   * The nullable `module_instance_id`: stored as given, with no check that
   * the instance exists; a string is stored as the integer it reads as, and
   * refused when it reads as none.
   */
  function InstanceColumn(v: Option<Json>): (r: Option<Option<int>>)
    ensures v.None? || v == Some(JNull) ==> r == Some(None)
    ensures forall i :: v == Some(JInt(i)) ==> r == Some(Some(i))
    ensures forall s :: v == Some(JStr(s)) ==> (r.Some? <==> ParseInt(s).Some?) && (r.Some? ==> r.value == ParseInt(s))
    ensures r.None? ==> v.Some? && (v.value.JStr? || v.value.JArr? || v.value.JObj?)
  {
    match v
    case None => Some(None)
    case Some(JNull) => Some(None)
    case Some(JInt(i)) => Some(Some(i))
    case Some(JBool(b)) => Some(Some(if b then 1 else 0))
    case Some(JStr(s)) => (match ParseInt(s) case Some(i) => Some(Some(i)) case None => None)
    case Some(_) => None
  }

  /** A column submitted as a string of digits is stored as their value, as the integer itself would be. */
  lemma {:induction false} DigitStringColumns(t: string, default: int)
    requires IsDigits(t)
    ensures IntColumn(Some(JStr(t)), default) == IntColumn(Some(JInt(DigitsValue(t))), default)
    ensures InstanceColumn(Some(JStr(t))) == InstanceColumn(Some(JInt(DigitsValue(t))))
  {
    ParseIntDigits(t);
  }

  /**
   * The values `for x in v` visits: an array's items, an object's keys, a
   * string's characters; None where `v` is not iterable.
   */
  function Iterate(v: Json): (r: Option<seq<Json>>)
    ensures v.JArr? ==> r == Some(v.items)
    ensures r.Some? && r.value != [] ==> v.JArr? || v.JObj? || v.JStr?
  {
    match v
    case JArr(items) => Some(items)
    case JObj(fields) => Some(seq(|fields|, i requires 0 <= i < |fields| => JStr(fields[i].0)))
    case JStr(s) => Some(seq(|s|, i requires 0 <= i < |s| => JStr([s[i]])))
    case _ => None
  }

  /**
   * One column entry: `colIndex` defaults to 0, `colWidth` to 3, the row's
   * `rowIndex` (absent: 0) is copied in. None where the entry is not an
   * object or a value cannot be stored.
   */
  function ColumnCell(col: Json, rowValue: Option<Json>): (r: Option<CellSpec>)
    ensures r.Some? ==> col.JObj?
    ensures col == JObj([]) && rowValue.None? ==> r == Some(CellSpec(0, 0, 3, None))
  {
    if !col.JObj? then None
    else
      var row := IntColumn(rowValue, 0);
      var c := IntColumn(Lookup(col.fields, "colIndex"), 0);
      var w := IntColumn(Lookup(col.fields, "colWidth"), 3);
      var m := InstanceColumn(Lookup(col.fields, "moduleInstanceId"));
      if row.Some? && c.Some? && w.Some? && m.Some? then Some(CellSpec(row.value, c.value, w.value, m.value))
      else None
  }

  /** The cells of a row's column entries, in order; None as soon as one entry fails. */
  function ColumnsCells(cols: seq<Json>, rowValue: Option<Json>): Option<seq<CellSpec>>
  {
    if cols == [] then Some([])
    else match ColumnsCells(cols[..|cols| - 1], rowValue)
      case None => None
      case Some(a) =>
        match ColumnCell(cols[|cols| - 1], rowValue)
        case None => None
        case Some(c) => Some(a + [c])
  }

  /** `row.get('columns', [])`, iterated. */
  function RowColumns(row: Json): Option<seq<Json>>
    requires row.JObj?
  {
    match Lookup(row.fields, "columns")
    case None => Some([])
    case Some(c) => Iterate(c)
  }

  /** The cells of one row entry; None where the entry is not an object or a column fails. */
  function RowCells(row: Json): Option<seq<CellSpec>>
  {
    if !row.JObj? then None
    else match RowColumns(row)
      case None => None
      case Some(cols) => ColumnsCells(cols, Lookup(row.fields, "rowIndex"))
  }

  function RowsCells(rows: seq<Json>): Option<seq<CellSpec>>
  {
    if rows == [] then Some([])
    else match RowsCells(rows[..|rows| - 1])
      case None => None
      case Some(a) =>
        match RowCells(rows[|rows| - 1])
        case None => None
        case Some(b) => Some(a + b)
  }

  /** All cells a decoded layout describes, or None where saving it raises. */
  function LayoutCells(v: Json): Option<seq<CellSpec>>
  {
    match Iterate(v)
    case None => None
    case Some(rows) => RowsCells(rows)
  }

  lemma {:induction false} ColumnsFailExtends(cols: seq<Json>, k: nat, rowValue: Option<Json>)
    requires k <= |cols| && ColumnsCells(cols[..k], rowValue).None?
    ensures ColumnsCells(cols, rowValue).None?
    decreases |cols| - k
  {
    if k < |cols| {
      assert cols[..k + 1][..k] == cols[..k];
      ColumnsFailExtends(cols, k + 1, rowValue);
    } else {
      assert cols[..k] == cols;
    }
  }

  lemma {:induction false} RowsFailExtends(rows: seq<Json>, k: nat)
    requires k <= |rows| && RowsCells(rows[..k]).None?
    ensures RowsCells(rows).None?
    decreases |rows| - k
  {
    if k < |rows| {
      assert rows[..k + 1][..k] == rows[..k];
      RowsFailExtends(rows, k + 1);
    } else {
      assert rows[..k] == rows;
    }
  }

  /**
   * The save loop of `page_form` / `admin_post_form`: for each row, for
   * each column, one cell. A failing entry abandons the whole layout.
   */
  method CollectCells(v: Json) returns (r: Option<seq<CellSpec>>)
    ensures r == LayoutCells(v)
  {
    var rows := Iterate(v);
    if rows.None? {
      return None;
    }
    var rs := rows.value;
    var acc: seq<CellSpec> := [];
    var i := 0;
    while i < |rs|
      invariant 0 <= i <= |rs|
      invariant RowsCells(rs[..i]) == Some(acc)
    {
      assert rs[..i + 1][..i] == rs[..i];
      var cells := CollectRowCells(rs[i]);
      if cells.None? {
        RowsFailExtends(rs, i + 1);
        return None;
      }
      acc := acc + cells.value;
      i := i + 1;
    }
    assert rs[..i] == rs;
    r := Some(acc);
  }

  /** The inner loop of the save: one cell per column of a row entry, or None where one fails. */
  method CollectRowCells(row: Json) returns (r: Option<seq<CellSpec>>)
    ensures r == RowCells(row)
  {
    if !row.JObj? {
      return None;
    }
    var rowValue := Lookup(row.fields, "rowIndex");
    var columns := RowColumns(row);
    if columns.None? {
      return None;
    }
    var cs := columns.value;
    var rowAcc: seq<CellSpec> := [];
    var j := 0;
    while j < |cs|
      invariant 0 <= j <= |cs|
      invariant ColumnsCells(cs[..j], rowValue) == Some(rowAcc)
    {
      assert cs[..j + 1][..j] == cs[..j];
      var cell := ColumnCell(cs[j], rowValue);
      if cell.None? {
        ColumnsFailExtends(cs, j + 1, rowValue);
        return None;
      }
      rowAcc := rowAcc + [cell.value];
      j := j + 1;
    }
    assert cs[..j] == cs;
    r := Some(rowAcc);
  }

  // ---------------------------------------------------------------------
  // The grid as the editor submits it, and the cells it yields.

  datatype GridCol = GridCol(col: int, width: int, instance: Option<int>)
  datatype GridRow = GridRow(row: int, columns: seq<GridCol>)

  function EncodeCol(c: GridCol): Json
  {
    JObj([("colIndex", JInt(c.col)), ("colWidth", JInt(c.width)),
          ("moduleInstanceId", if c.instance.Some? then JInt(c.instance.value) else JNull)])
  }

  function EncodeCols(cs: seq<GridCol>): (r: seq<Json>)
    ensures |r| == |cs|
  {
    if cs == [] then [] else EncodeCols(cs[..|cs| - 1]) + [EncodeCol(cs[|cs| - 1])]
  }

  function EncodeRow(r: GridRow): Json
  {
    JObj([("rowIndex", JInt(r.row)), ("columns", JArr(EncodeCols(r.columns)))])
  }

  function EncodeRows(g: seq<GridRow>): (r: seq<Json>)
    ensures |r| == |g|
  {
    if g == [] then [] else EncodeRows(g[..|g| - 1]) + [EncodeRow(g[|g| - 1])]
  }

  /** The JSON the editor submits for a grid. */
  function EncodeGrid(g: seq<GridRow>): Json
  {
    JArr(EncodeRows(g))
  }

  function RowSpecs(row: int, cs: seq<GridCol>): (r: seq<CellSpec>)
    ensures |r| == |cs|
  {
    if cs == [] then []
    else RowSpecs(row, cs[..|cs| - 1]) + [CellSpec(row, cs[|cs| - 1].col, cs[|cs| - 1].width, cs[|cs| - 1].instance)]
  }

  /** One cell per column entry, rows in order, columns in order within a row. */
  function Flatten(g: seq<GridRow>): seq<CellSpec>
  {
    if g == [] then [] else Flatten(g[..|g| - 1]) + RowSpecs(g[|g| - 1].row, g[|g| - 1].columns)
  }

  function ColumnCount(g: seq<GridRow>): nat
  {
    if g == [] then 0 else ColumnCount(g[..|g| - 1]) + |g[|g| - 1].columns|
  }

  lemma {:induction false} FlattenCount(g: seq<GridRow>)
    ensures |Flatten(g)| == ColumnCount(g)
  {
    if g != [] {
      FlattenCount(g[..|g| - 1]);
    }
  }

  lemma {:induction false} ColumnsRoundTrip(row: int, cs: seq<GridCol>)
    ensures ColumnsCells(EncodeCols(cs), Some(JInt(row))) == Some(RowSpecs(row, cs))
  {
    if cs != [] {
      var e := EncodeCols(cs);
      var c := cs[|cs| - 1];
      assert e[..|e| - 1] == EncodeCols(cs[..|cs| - 1]);
      assert e[|e| - 1] == EncodeCol(c);
      ColumnsRoundTrip(row, cs[..|cs| - 1]);
      var f := EncodeCol(c).fields;
      assert Lookup(f, "colIndex") == Some(JInt(c.col));
      assert Lookup(f[1..], "colWidth") == Some(JInt(c.width));
      assert Lookup(f[2..], "moduleInstanceId") == Some(f[2].1);
      assert ColumnCell(EncodeCol(c), Some(JInt(row))) == Some(CellSpec(row, c.col, c.width, c.instance));
    }
  }

  lemma {:induction false} RowsRoundTrip(g: seq<GridRow>)
    ensures RowsCells(EncodeRows(g)) == Some(Flatten(g))
  {
    if g != [] {
      var e := EncodeRows(g);
      assert e[..|e| - 1] == EncodeRows(g[..|g| - 1]);
      RowsRoundTrip(g[..|g| - 1]);
      var last := g[|g| - 1];
      ColumnsRoundTrip(last.row, last.columns);
      var f := EncodeRow(last).fields;
      assert Lookup(f[1..], "columns") == Some(JArr(EncodeCols(last.columns)));
      assert RowColumns(EncodeRow(last)) == Some(EncodeCols(last.columns));
      assert Lookup(f, "rowIndex") == Some(JInt(last.row));
    }
  }

  /**
   * Saving the JSON of a grid stores exactly one cell per column entry,
   * each with the row's index and the column's index, width and instance.
   */
  lemma {:induction false} GridRoundTrip(g: seq<GridRow>)
    ensures LayoutCells(EncodeGrid(g)) == Some(Flatten(g))
    ensures |Flatten(g)| == ColumnCount(g)
  {
    RowsRoundTrip(g);
    FlattenCount(g);
  }

  /** The cells a page save stores: blank text (after strip) gives none; malformed text no layout. */
  function PageFieldCells(t: LayoutText): Option<seq<CellSpec>>
  {
    match t
    case Empty => Some([])
    case Whitespace => Some([])
    case Decodes(v) => LayoutCells(v)
    case Malformed => None
  }

  /** The cells a post save stores: only "" counts as no layout; white space goes to `json.loads`. */
  function PostFieldCells(t: LayoutText): Option<seq<CellSpec>>
  {
    match t
    case Empty => Some([])
    case Whitespace => None
    case Decodes(v) => LayoutCells(v)
    case Malformed => None
  }

  // ---------------------------------------------------------------------
  // The layout table.

  /** The rows of the table that belong to `owner`, in table order. */
  function OwnedBy(cells: seq<Cell>, owner: nat): seq<Cell>
  {
    if cells == [] then []
    else OwnedBy(cells[..|cells| - 1], owner) + (if cells[|cells| - 1].owner == owner then [cells[|cells| - 1]] else [])
  }

  /** `filter_by(page_id=owner).delete()`: the table without the owner's rows. */
  function Others(cells: seq<Cell>, owner: nat): seq<Cell>
  {
    if cells == [] then []
    else Others(cells[..|cells| - 1], owner) + (if cells[|cells| - 1].owner != owner then [cells[|cells| - 1]] else [])
  }

  /** New rows for the owner, one per cell, in order. */
  function Place(owner: nat, specs: seq<CellSpec>): (r: seq<Cell>)
    ensures |r| == |specs|
    ensures forall i :: 0 <= i < |r| ==> r[i] == Cell(owner, specs[i])
  {
    seq(|specs|, i requires 0 <= i < |specs| => Cell(owner, specs[i]))
  }

  /** A row is the owner's exactly when it is in the table with that owner. */
  lemma {:induction false} OwnedByMembers(cells: seq<Cell>, owner: nat, c: Cell)
    ensures c in OwnedBy(cells, owner) <==> c in cells && c.owner == owner
  {
    if cells != [] {
      OwnedByMembers(cells[..|cells| - 1], owner, c);
      assert cells == cells[..|cells| - 1] + [cells[|cells| - 1]];
    }
  }

  lemma {:induction false} OwnedByAppend(a: seq<Cell>, b: seq<Cell>, o: nat)
    ensures OwnedBy(a + b, o) == OwnedBy(a, o) + OwnedBy(b, o)
    decreases |b|
  {
    if b != [] {
      assert (a + b)[..|a + b| - 1] == a + b[..|b| - 1];
      OwnedByAppend(a, b[..|b| - 1], o);
    } else {
      assert a + b == a;
    }
  }

  lemma {:induction false} OwnedByOthers(cells: seq<Cell>, owner: nat, o: nat)
    ensures OwnedBy(Others(cells, owner), o) == if o == owner then [] else OwnedBy(cells, o)
  {
    if cells != [] {
      var init := cells[..|cells| - 1];
      var last := cells[|cells| - 1];
      OwnedByOthers(init, owner, o);
      OwnedByAppend(Others(init, owner), if last.owner != owner then [last] else [], o);
    }
  }

  lemma {:induction false} OwnedByPlace(owner: nat, specs: seq<CellSpec>, o: nat)
    ensures OwnedBy(Place(owner, specs), o) == if o == owner then Place(owner, specs) else []
  {
    if specs != [] {
      var p := Place(owner, specs);
      assert p[..|p| - 1] == Place(owner, specs[..|specs| - 1]);
      OwnedByPlace(owner, specs[..|specs| - 1], o);
    }
  }

  /**
   * Replace semantics of an edit: after deleting the owner's rows and adding
   * new ones, the owner has exactly the new cells and every other owner
   * exactly the rows it had.
   */
  lemma {:induction false} ReplaceOwner(cells: seq<Cell>, owner: nat, specs: seq<CellSpec>)
    ensures OwnedBy(Others(cells, owner) + Place(owner, specs), owner) == Place(owner, specs)
    ensures forall o :: o != owner ==> OwnedBy(Others(cells, owner) + Place(owner, specs), o) == OwnedBy(cells, o)
  {
    OwnedByAppend(Others(cells, owner), Place(owner, specs), owner);
    OwnedByOthers(cells, owner, owner);
    OwnedByPlace(owner, specs, owner);
    forall o | o != owner
      ensures OwnedBy(Others(cells, owner) + Place(owner, specs), o) == OwnedBy(cells, o)
    {
      OwnedByAppend(Others(cells, owner), Place(owner, specs), o);
      OwnedByOthers(cells, owner, o);
      OwnedByPlace(owner, specs, o);
    }
  }

  /** Deleting an owner's rows leaves none of them and every other row. */
  lemma {:induction false} OthersSpec(cells: seq<Cell>, owner: nat)
    ensures OwnedBy(Others(cells, owner), owner) == []
    ensures forall o :: o != owner ==> OwnedBy(Others(cells, owner), o) == OwnedBy(cells, o)
  {
    OwnedByOthers(cells, owner, owner);
    forall o | o != owner
      ensures OwnedBy(Others(cells, owner), o) == OwnedBy(cells, o)
    {
      OwnedByOthers(cells, owner, o);
    }
  }

  function CellKey(c: Cell): (int, int)
  {
    (c.spec.row, c.spec.col)
  }

  /**
   * The editor's view: the owner's cells `order_by(row_index, col_index)`,
   * ties in table order.
   */
  function EditorCells(cells: seq<Cell>, owner: nat): (r: seq<Cell>)
  {
    SortBy(OwnedBy(cells, owner), CellKey)
  }

  /** The editor's cells are sorted by `(row_index, col_index)` and are exactly the owner's cells. */
  lemma {:induction false} EditorCellsSpec(cells: seq<Cell>, owner: nat)
    ensures SortedByKey(EditorCells(cells, owner), CellKey)
    ensures multiset(EditorCells(cells, owner)) == multiset(OwnedBy(cells, owner))
  {
    SortBySpec(OwnedBy(cells, owner), CellKey);
  }

  // ---------------------------------------------------------------------
  // Instance labels in the editor's module picker.

  /** A module instance as the layout code reads it. */
  datatype Instance = Instance(id: nat, moduleId: nat, moduleName: string, settings: Stored,
                               template: string, content: Option<string>)

  /** `ModuleInstance.query.get(id)`. */
  function FindInstance(instances: seq<Instance>, id: int): (r: Option<Instance>)
    ensures r.Some? ==> r.value in instances && r.value.id == id
    ensures r.None? ==> forall i :: i in instances ==> i.id != id
  {
    if instances == [] then None
    else if instances[0].id == id then Some(instances[0])
    else FindInstance(instances[1..], id)
  }

  /** `ModuleInstance.query.filter_by(id=id).update({'settings': s})`: only that row's settings change. */
  function WithSettings(instances: seq<Instance>, id: nat, s: Stored): (r: seq<Instance>)
    ensures |r| == |instances|
    ensures forall k :: 0 <= k < |r| ==>
      r[k] == if instances[k].id == id then instances[k].(settings := s) else instances[k]
  {
    seq(|instances|, k requires 0 <= k < |instances| =>
      if instances[k].id == id then instances[k].(settings := s) else instances[k])
  }

  /** After the update, the lookup finds the same row with the new settings. */
  lemma {:induction false} FindInstanceWithSettings(instances: seq<Instance>, id: nat, s: Stored)
    requires FindInstance(instances, id).Some?
    ensures FindInstance(WithSettings(instances, id, s), id) == Some(FindInstance(instances, id).value.(settings := s))
  {
    var r := WithSettings(instances, id, s);
    if instances[0].id != id {
      assert r[1..] == WithSettings(instances[1..], id, s);
      FindInstanceWithSettings(instances[1..], id, s);
    }
  }

  /** A row appended under a new id is the one the lookup finds. */
  lemma {:induction false} FindInstanceAppend(instances: seq<Instance>, i: Instance)
    requires forall x :: x in instances ==> x.id != i.id
    ensures FindInstance(instances + [i], i.id) == Some(i)
  {
    if instances != [] {
      assert (instances + [i])[1..] == instances[1..] + [i];
      FindInstanceAppend(instances[1..], i);
    }
  }

  /**
   * `json.loads(inst.settings or '{}').get('name') or <fallback><id>`: the
   * `name` setting when truthy, else the fallback label (pages `"Instance "`,
   * posts `"Instance #"`). None where the settings do not decode to an
   * object (the view fails).
   */
  function InstanceLabel(inst: Instance, fallback: string): (r: Option<Json>)
    ensures r.Some? <==> !StoredTruthy(inst.settings) || (inst.settings.JsonText? && inst.settings.value.JObj?)
    ensures r.Some? && inst.settings.JsonText? ==>
      match Lookup(inst.settings.value.fields, "name")
      case Some(n) => Truthy(n) ==> r == Some(n)
      case None => r == Some(JStr(fallback + NatToString(inst.id)))
    ensures !StoredTruthy(inst.settings) ==> r == Some(JStr(fallback + NatToString(inst.id)))
  {
    var settings := if StoredTruthy(inst.settings) then Loads(inst.settings) else Some(EmptyObject);
    match settings
    case None => None
    case Some(v) =>
      if !v.JObj? then None
      else match Lookup(v.fields, "name")
        case Some(n) => if Truthy(n) then Some(n) else Some(JStr(fallback + NatToString(inst.id)))
        case None => Some(JStr(fallback + NatToString(inst.id)))
  }

  predicate HasModule(instances: seq<Instance>, m: nat)
  {
    exists k :: 0 <= k < |instances| && instances[k].moduleId == m
  }

  /** Every label decodes: the view does not fail. */
  predicate AllLabelled(instances: seq<Instance>, fallback: string)
  {
    forall k :: 0 <= k < |instances| ==> InstanceLabel(instances[k], fallback).Some?
  }

  /** Each instance's `{'id', 'label'}` entry, keyed by its module. */
  function Labelled(instances: seq<Instance>, fallback: string): (r: seq<(nat, (nat, Json))>)
    requires AllLabelled(instances, fallback)
    ensures |r| == |instances|
  {
    seq(|instances|, k requires 0 <= k < |instances| && AllLabelled(instances, fallback) =>
      (instances[k].moduleId, (instances[k].id, InstanceLabel(instances[k], fallback).value)))
  }

  /**
   * `module_instances_by_module`: every module that has instances, mapped to
   * its instances' `{'id', 'label'}` entries in instance order; None where a
   * label fails.
   */
  method InstancesByModule(instances: seq<Instance>, fallback: string) returns (r: Option<map<nat, seq<(nat, Json)>>>)
    ensures r.Some? <==> AllLabelled(instances, fallback)
    ensures r.Some? ==> forall m :: m in r.value <==> HasModule(instances, m)
    ensures r.Some? ==> forall m :: ListAt(r.value, m) == Group(Labelled(instances, fallback), m)
  {
    var entries: seq<(nat, (nat, Json))> := [];
    var i := 0;
    while i < |instances|
      invariant 0 <= i <= |instances|
      invariant AllLabelled(instances[..i], fallback)
      invariant entries == Labelled(instances[..i], fallback)
    {
      var inst := instances[i];
      var lbl := InstanceLabel(inst, fallback);
      if lbl.None? {
        return None;
      }
      entries := entries + [(inst.moduleId, (inst.id, lbl.value))];
      i := i + 1;
    }
    assert instances[..i] == instances;
    var groups := GroupBy(entries);
    forall m
      ensures HasKey(entries, m) <==> HasModule(instances, m)
    {
      if HasModule(instances, m) {
        var k :| 0 <= k < |instances| && instances[k].moduleId == m;
        assert entries[k].0 == m;
      }
    }
    r := Some(groups);
  }
}
