// The storefront home page (`index` in app/views/main.py): the home page's
// layout cells, in (row, column) order, become one dictionary per cell bound
// to an existing module instance, with the instance's handler data merged
// over the cell's base keys.

module Render {
  import opened Common
  import opened Json
  import opened Sorting
  import opened Layout
  import opened Registry
  import opened FrontModules

  /** `name.lower().replace(" ", "_")`. */
  function ModuleSlug(name: string): (r: string)
    ensures |r| == |name|
    ensures forall i :: 0 <= i < |r| ==> r[i] != ' '
    ensures forall i :: 0 <= i < |name| && name[i] != ' ' ==> r[i] == LowerChar(name[i])
  {
    if name == [] then []
    else [if LowerChar(name[0]) == ' ' then '_' else LowerChar(name[0])] + ModuleSlug(name[1..])
  }

  const BaseKeys: set<string> := {"row_index", "col_index", "col_width", "module_name", "template", "settings", "content", "instance"}

  /** The keys every rendered cell starts from; the instance itself appears as its id. */
  function BaseData(c: CellSpec, inst: Instance): (r: map<string, Json>)
    ensures r.Keys == BaseKeys
    ensures r["module_name"] == JStr(ModuleSlug(inst.moduleName))
    ensures r["settings"] == FromJsonFilter(inst.settings)
  {
    map["row_index" := JInt(c.row), "col_index" := JInt(c.col), "col_width" := JInt(c.width),
        "module_name" := JStr(ModuleSlug(inst.moduleName)), "template" := JStr(inst.template),
        "settings" := FromJsonFilter(inst.settings),
        "content" := (if inst.content.Some? then JStr(inst.content.value) else JNull),
        "instance" := JInt(inst.id)]
  }

  /** Where a cell's extra data comes from. */
  datatype ExtraSource = FrontHandler | BannerFallback | TabsFallback | NoExtra

  /**
   * A registered class with `get_instance_data` answers; otherwise the
   * banner and tabs modules have a built-in fallback, and any other module
   * keeps the base keys only.
   */
  function ExtraSourceFor(table: map<string, HandlerClass>, name: string): (r: ExtraSource)
    ensures r == FrontHandler <==> name in table && table[name].hasFront
    ensures r == BannerFallback <==> !(name in table && table[name].hasFront) && name == "BannerModule"
    ensures r == TabsFallback <==> !(name in table && table[name].hasFront) && name == "TabsModule"
  {
    if name in table && table[name].hasFront then FrontHandler
    else if name == "BannerModule" then BannerFallback
    else if name == "TabsModule" then TabsFallback
    else NoExtra
  }

  /**
   * What the registered handler's `get_instance_data` returns for each
   * instance id (None where it raises); an id without an entry returns `{}`.
   */
  type HandlerOutputs = map<nat, Option<map<string, Json>>>

  function HandlerOutput(outputs: HandlerOutputs, id: nat): Option<map<string, Json>>
  {
    if id in outputs then outputs[id] else Some(map[])
  }

  /**
   * The dictionary of one rendered cell: the base keys, updated with the
   * handler's data or with the fallback's keys. None where the handler
   * raises, which fails the page.
   */
  function CellData(c: CellSpec, inst: Instance, table: map<string, HandlerClass>,
                    outputs: HandlerOutputs, db: Store): (r: Option<map<string, Json>>)
    ensures r.None? <==> ExtraSourceFor(table, inst.moduleName) == FrontHandler && HandlerOutput(outputs, inst.id).None?
  {
    var base := BaseData(c, inst);
    match ExtraSourceFor(table, inst.moduleName)
    case FrontHandler =>
      (match HandlerOutput(outputs, inst.id)
       case None => None
       case Some(out) => Some(base + out))
    case BannerFallback => Some(base + BannerParts(inst.id, db))
    case TabsFallback => Some(base + TabsParts(inst.id, db))
    case NoExtra => Some(base)
  }

  /** Handler data is merged over the base keys: the handler's keys win, the other base keys stay. */
  lemma {:induction false} HandlerKeysWin(c: CellSpec, inst: Instance, table: map<string, HandlerClass>, outputs: HandlerOutputs, db: Store)
    requires ExtraSourceFor(table, inst.moduleName) == FrontHandler && HandlerOutput(outputs, inst.id).Some?
    ensures var r := CellData(c, inst, table, outputs, db).value;
      var out := HandlerOutput(outputs, inst.id).value;
      && r.Keys == BaseKeys + out.Keys
      && (forall k :: k in out ==> r[k] == out[k])
      && (forall k :: k in BaseKeys && k !in out ==> r[k] == BaseData(c, inst)[k])
  {
  }

  /** A module without a handler or fallback keeps exactly the base keys. */
  lemma {:induction false} NoHandlerKeepsBase(c: CellSpec, inst: Instance, table: map<string, HandlerClass>, outputs: HandlerOutputs, db: Store)
    requires ExtraSourceFor(table, inst.moduleName) == NoExtra
    ensures CellData(c, inst, table, outputs, db) == Some(BaseData(c, inst))
  {
  }

  /** The banner and tabs fallbacks add their own keys and never touch a base key. */
  lemma {:induction false} FallbacksKeepBase(c: CellSpec, inst: Instance, table: map<string, HandlerClass>, outputs: HandlerOutputs, db: Store)
    requires ExtraSourceFor(table, inst.moduleName) in {BannerFallback, TabsFallback}
    ensures var r := CellData(c, inst, table, outputs, db).value;
      && r.Keys == BaseKeys + (if ExtraSourceFor(table, inst.moduleName) == BannerFallback
                               then {"banner", "banner_items"} else {"tabs_instance", "tab_items", "tab_products"})
      && forall k :: k in BaseKeys ==> r[k] == BaseData(c, inst)[k]
  {
    var base := BaseData(c, inst);
    if ExtraSourceFor(table, inst.moduleName) == BannerFallback {
      var parts := BannerParts(inst.id, db);
      assert parts.Keys == {"banner", "banner_items"};
      FallbackKeysApart();
      MergeKeepsBase(base, parts);
    } else {
      var parts := TabsParts(inst.id, db);
      FallbackKeysApart();
      MergeKeepsBase(base, parts);
    }
  }

  /** No fallback key is a base key. */
  lemma {:induction false} FallbackKeysApart()
    ensures {"banner", "banner_items"} !! BaseKeys
    ensures {"tabs_instance", "tab_items", "tab_products"} !! BaseKeys
  {
  }

  /** Adding keys the base lacks keeps every base value. */
  lemma {:induction false} MergeKeepsBase(base: map<string, Json>, parts: map<string, Json>)
    requires base.Keys == BaseKeys && parts.Keys !! BaseKeys
    ensures (base + parts).Keys == BaseKeys + parts.Keys
    ensures forall k :: k in BaseKeys ==> (base + parts)[k] == base[k]
  {
  }

  /** A cell is rendered when its instance id is truthy and names an existing instance. */
  predicate Renders(c: Cell, instances: seq<Instance>)
  {
    c.spec.instance.Some? && c.spec.instance.value != 0 && FindInstance(instances, c.spec.instance.value).Some?
  }

  /** The rendered cells, in the given order, each with its instance. */
  function Rendered(cells: seq<Cell>, instances: seq<Instance>): (r: seq<(Cell, Instance)>)
    ensures |r| <= |cells|
  {
    if cells == [] then []
    else
      var c := cells[|cells| - 1];
      Rendered(cells[..|cells| - 1], instances)
        + (if Renders(c, instances) then [(c, FindInstance(instances, c.spec.instance.value).value)] else [])
  }

  function PairKey(p: (Cell, Instance)): (int, int)
  {
    CellKey(p.0)
  }

  /** The dictionaries of the rendered cells, None when any handler raises. */
  function ModulesData(pairs: seq<(Cell, Instance)>, table: map<string, HandlerClass>,
                       outputs: HandlerOutputs, db: Store): Option<seq<map<string, Json>>>
  {
    if pairs == [] then Some([])
    else
      var p := pairs[|pairs| - 1];
      match ModulesData(pairs[..|pairs| - 1], table, outputs, db)
      case None => None
      case Some(prev) =>
        match CellData(p.0.spec, p.1, table, outputs, db)
        case None => None
        case Some(d) => Some(prev + [d])
  }

  lemma {:induction false} RenderedStep(cells: seq<Cell>, i: nat, instances: seq<Instance>)
    requires i < |cells|
    ensures Rendered(cells[..i + 1], instances) == Rendered(cells[..i], instances)
      + (if Renders(cells[i], instances) then [(cells[i], FindInstance(instances, cells[i].spec.instance.value).value)] else [])
  {
    assert cells[..i + 1][..i] == cells[..i];
  }

  lemma {:induction false} ModulesDataSnoc(pairs: seq<(Cell, Instance)>, x: (Cell, Instance),
                        table: map<string, HandlerClass>, outputs: HandlerOutputs, db: Store)
    ensures ModulesData(pairs + [x], table, outputs, db) ==
      (if ModulesData(pairs, table, outputs, db).None? || CellData(x.0.spec, x.1, table, outputs, db).None? then None
       else Some(ModulesData(pairs, table, outputs, db).value + [CellData(x.0.spec, x.1, table, outputs, db).value]))
  {
    assert (pairs + [x])[..|pairs|] == pairs;
  }

  /** Once the cells of a prefix fail, the whole page fails. */
  lemma {:induction false} RenderedFailExtends(cells: seq<Cell>, k: nat, instances: seq<Instance>,
                                               table: map<string, HandlerClass>, outputs: HandlerOutputs, db: Store)
    requires k <= |cells| && ModulesData(Rendered(cells[..k], instances), table, outputs, db).None?
    ensures ModulesData(Rendered(cells, instances), table, outputs, db).None?
    decreases |cells| - k
  {
    if k < |cells| {
      RenderedFailStep(cells, k, instances, table, outputs, db);
      RenderedFailExtends(cells, k + 1, instances, table, outputs, db);
    } else {
      assert cells[..k] == cells;
    }
  }

  lemma {:induction false} RenderedFailStep(cells: seq<Cell>, k: nat, instances: seq<Instance>,
                                            table: map<string, HandlerClass>, outputs: HandlerOutputs, db: Store)
    requires k < |cells| && ModulesData(Rendered(cells[..k], instances), table, outputs, db).None?
    ensures ModulesData(Rendered(cells[..k + 1], instances), table, outputs, db).None?
  {
    RenderedStep(cells, k, instances);
    var c := cells[k];
    var prev := Rendered(cells[..k], instances);
    if Renders(c, instances) {
      ModulesDataSnoc(prev, (c, FindInstance(instances, c.spec.instance.value).value), table, outputs, db);
    } else {
      assert prev + [] == prev;
    }
  }

  /** One turn of the `index` loop, as the specification sees it. */
  lemma {:induction false} IndexStep(cells: seq<Cell>, i: nat, instances: seq<Instance>, table: map<string, HandlerClass>,
                  outputs: HandlerOutputs, db: Store, acc: seq<map<string, Json>>)
    requires i < |cells| && ModulesData(Rendered(cells[..i], instances), table, outputs, db) == Some(acc)
    ensures !Renders(cells[i], instances) ==> ModulesData(Rendered(cells[..i + 1], instances), table, outputs, db) == Some(acc)
    ensures Renders(cells[i], instances) ==>
      var d := CellData(cells[i].spec, FindInstance(instances, cells[i].spec.instance.value).value, table, outputs, db);
      if d.Some? then ModulesData(Rendered(cells[..i + 1], instances), table, outputs, db) == Some(acc + [d.value])
      else ModulesData(Rendered(cells, instances), table, outputs, db).None?
  {
    RenderedStep(cells, i, instances);
    var c := cells[i];
    var prev := Rendered(cells[..i], instances);
    if Renders(c, instances) {
      ModulesDataSnoc(prev, (c, FindInstance(instances, c.spec.instance.value).value), table, outputs, db);
      if CellData(c.spec, FindInstance(instances, c.spec.instance.value).value, table, outputs, db).None? {
        RenderedFailExtends(cells, i + 1, instances, table, outputs, db);
      }
    } else {
      assert prev + [] == prev;
    }
  }

  /** The `index` loop over the home page's layout rows. */
  method Index(layout: seq<Cell>, homeId: nat, instances: seq<Instance>, table: map<string, HandlerClass>,
               outputs: HandlerOutputs, db: Store) returns (modules: Option<seq<map<string, Json>>>)
    ensures modules == ModulesData(Rendered(EditorCells(layout, homeId), instances), table, outputs, db)
  {
    var cells := EditorCells(layout, homeId);
    var acc: seq<map<string, Json>> := [];
    var i := 0;
    while i < |cells|
      invariant 0 <= i <= |cells|
      invariant ModulesData(Rendered(cells[..i], instances), table, outputs, db) == Some(acc)
    {
      var next := RenderCell(cells, i, instances, table, outputs, db, acc);
      if next.None? {
        return None;
      }
      acc := next.value;
      i := i + 1;
    }
    assert cells[..i] == cells;
    modules := Some(acc);
  }

  /**
   * One pass of the `index` loop: a cell without an instance id, or whose
   * instance is gone, adds nothing; otherwise its data is appended, and a
   * handler that raises fails the page.
   */
  method RenderCell(cells: seq<Cell>, i: nat, instances: seq<Instance>, table: map<string, HandlerClass>,
                    outputs: HandlerOutputs, db: Store, acc: seq<map<string, Json>>)
    returns (next: Option<seq<map<string, Json>>>)
    requires i < |cells| && ModulesData(Rendered(cells[..i], instances), table, outputs, db) == Some(acc)
    ensures next.None? ==> ModulesData(Rendered(cells, instances), table, outputs, db).None?
    ensures next.Some? ==> ModulesData(Rendered(cells[..i + 1], instances), table, outputs, db) == next
  {
    var c := cells[i];
    IndexStep(cells, i, instances, table, outputs, db, acc);
    if c.spec.instance.Some? && c.spec.instance.value != 0 {
      var inst := FindInstance(instances, c.spec.instance.value);
      if inst.Some? {
        var d := CellData(c.spec, inst.value, table, outputs, db);
        if d.None? {
          return None;
        }
        return Some(acc + [d.value]);
      }
    }
    next := Some(acc);
  }

  /** A cell is rendered, with its instance, exactly when it is in the input and `Renders` holds. */
  lemma {:induction false} RenderedMembers(cells: seq<Cell>, instances: seq<Instance>, p: (Cell, Instance))
    ensures p in Rendered(cells, instances) <==>
      p.0 in cells && Renders(p.0, instances) && FindInstance(instances, p.0.spec.instance.value) == Some(p.1)
  {
    if cells != [] {
      RenderedMembers(cells[..|cells| - 1], instances, p);
      assert cells == cells[..|cells| - 1] + [cells[|cells| - 1]];
    }
  }

  /** Rendering keeps the (row, column) order of the sorted cells. */
  lemma {:induction false} RenderedSorted(cells: seq<Cell>, instances: seq<Instance>)
    requires SortedByKey(cells, CellKey)
    ensures SortedByKey(Rendered(cells, instances), PairKey)
  {
    if cells != [] {
      var init := cells[..|cells| - 1];
      var prev := Rendered(init, instances);
      RenderedSorted(init, instances);
      forall p | p in prev
        ensures KeyLe(CellKey(p.0), CellKey(cells[|cells| - 1]))
      {
        RenderedMembers(init, instances, p);
        var j :| 0 <= j < |init| && init[j] == p.0;
        assert cells[j] == p.0;
      }
      var r := Rendered(cells, instances);
      forall a, b | 0 <= a < b < |r|
        ensures KeyLe(PairKey(r[a]), PairKey(r[b]))
      {
        if b >= |prev| {
          assert r[a] in prev;
        }
      }
    }
  }

  /**
   * The page's modules: one dictionary per rendered cell, in ascending
   * (row, column) order, each from that cell and its instance.
   */
  lemma {:induction false} IndexShape(layout: seq<Cell>, homeId: nat, instances: seq<Instance>, table: map<string, HandlerClass>,
                   outputs: HandlerOutputs, db: Store)
    ensures var pairs := Rendered(EditorCells(layout, homeId), instances);
      && SortedByKey(pairs, PairKey)
      && (forall p :: p in pairs ==> p.0 in layout && p.0.owner == homeId && Renders(p.0, instances))
      && (forall c :: c in layout && c.owner == homeId && Renders(c, instances) ==>
            exists p :: p in pairs && p.0 == c)
      && var m := ModulesData(pairs, table, outputs, db);
         m.Some? ==> |m.value| == |pairs| && forall k :: 0 <= k < |pairs| ==> Some(m.value[k]) == CellData(pairs[k].0.spec, pairs[k].1, table, outputs, db)
  {
    var cells := EditorCells(layout, homeId);
    var pairs := Rendered(cells, instances);
    EditorCellsSpec(layout, homeId);
    RenderedSorted(cells, instances);
    forall p | p in pairs
      ensures p.0 in layout && p.0.owner == homeId && Renders(p.0, instances)
    {
      RenderedMembers(cells, instances, p);
      SortByMembers(OwnedBy(layout, homeId), CellKey, p.0);
      OwnedByMembers(layout, homeId, p.0);
    }
    forall c | c in layout && c.owner == homeId && Renders(c, instances)
      ensures exists p :: p in pairs && p.0 == c
    {
      OwnedByMembers(layout, homeId, c);
      SortByMembers(OwnedBy(layout, homeId), CellKey, c);
      var p := (c, FindInstance(instances, c.spec.instance.value).value);
      RenderedMembers(cells, instances, p);
    }
    ModulesDataShape(pairs, table, outputs, db);
  }

  lemma {:induction false} ModulesDataShape(pairs: seq<(Cell, Instance)>, table: map<string, HandlerClass>,
                                            outputs: HandlerOutputs, db: Store)
    ensures var m := ModulesData(pairs, table, outputs, db);
      m.Some? ==> |m.value| == |pairs| && forall k :: 0 <= k < |pairs| ==> Some(m.value[k]) == CellData(pairs[k].0.spec, pairs[k].1, table, outputs, db)
  {
    if pairs != [] {
      var init := pairs[..|pairs| - 1];
      var x := pairs[|pairs| - 1];
      ModulesDataShape(init, table, outputs, db);
      assert pairs == init + [x];
      ModulesDataSnoc(init, x, table, outputs, db);
      var m := ModulesData(pairs, table, outputs, db);
      if m.Some? {
        var prev := ModulesData(init, table, outputs, db).value;
        assert m.value == prev + [CellData(x.0.spec, x.1, table, outputs, db).value];
        forall k | 0 <= k < |pairs|
          ensures Some(m.value[k]) == CellData(pairs[k].0.spec, pairs[k].1, table, outputs, db)
        {
          if k < |init| {
            assert pairs[k] == init[k];
            assert m.value[k] == prev[k];
          }
        }
      }
    }
  }
}
