// The tabs editor of the admin (app/admin/modules/product_tab.py). Saving
// writes the instance settings (`name` on create, `title` on update) and
// the tabs row, deletes the old tabs and commits; then one tab per
// `tabs[idx][field]` record is added, its columns depending on its mode,
// and committed. A malformed name or a category tab whose numbers do not
// parse fails the request after the first commit. Also the data the editor
// loads and the delete; the editor's `get_instance_data` is the storefront
// handler's (FrontModules.TabsInstanceData).

module AdminTabs {
  import opened Common
  import opened Json
  import opened Layout
  import opened Registry
  import opened ModuleForms
  import opened Tables
  import FrontModules

  /** The columns of a `tabs_instances` row. */
  datatype Tabs = Tabs(title: string)

  /**
   * The columns of a `tabs_items` row. A tab that leaves `limit_count`
   * unset gets the column default 8.
   */
  datatype Tab = Tab(title: string, mode: string, buttonText: string, categoryId: Option<int>,
                     limitCount: int, productIds: Option<string>)

  /** The tables the editor touches; `lastId` is the largest id handed out so far. */
  datatype TabsDb = TabsDb(instances: seq<Instance>, tabsRows: seq<Row<Tabs>>, tabs: seq<Row<Tab>>, lastId: nat)

  /** Ids and references lie at or below `lastId`, so a new id owns nothing yet. */
  predicate Valid(db: TabsDb)
  {
    (forall i :: i in db.instances ==> i.id <= db.lastId)
    && (forall t :: t in db.tabsRows ==> t.id <= db.lastId && t.owner <= db.lastId)
    && (forall t :: t in db.tabs ==> t.id <= db.lastId && t.owner <= db.lastId)
  }

  const DefaultTabsTitle: string := "Табы"
  const DefaultTabTitle: string := "Вкладка"
  const DefaultLimit: int := 8
  const SavedFlash: Flash := Flash("success", "Модуль «Табы» сохранён!")
  const DeletedFlash: Flash := Flash("success", "Экземпляр «Табы» удалён.")

  // ---------------------------------------------------------------------
  // Settings and rows built from the form

  function TitleJson(form: Form): Json
  {
    if Get(form, "module_title").Some? then JStr(Get(form, "module_title").value) else JNull
  }

  /** The settings a new instance gets: the module title under `name`. */
  function CreatedSettings(form: Form): (r: Json)
    ensures r.JObj? && Member(r, "name") == Some(TitleJson(form)) && Member(r, "title").None?
  {
    JObj([("name", TitleJson(form))])
  }

  /** The settings an existing instance gets: the module title under `title`. */
  function UpdatedSettings(form: Form): (r: Json)
    ensures r.JObj? && Member(r, "title") == Some(TitleJson(form)) && Member(r, "name").None?
  {
    JObj([("title", TitleJson(form))])
  }

  /** The tabs row's title: the module title, or "Табы" when it is missing or empty. */
  function TabsTitle(form: Form): (t: string)
    ensures Get(form, "module_title").Some? && Get(form, "module_title").value != "" ==> t == Get(form, "module_title").value
    ensures Get(form, "module_title").None? || Get(form, "module_title").value == "" ==> t == DefaultTabsTitle
  {
    match GetNonEmpty(form, "module_title")
    case Some(v) => v
    case None => DefaultTabsTitle
  }

  /** The name under which a custom tab's product selection is submitted. */
  function ProductIdsKey(idx: string): string
  {
    "tabs[" + idx + "][product_ids][]"
  }

  /**
   * The tab a record (submitted under index `idx`) becomes. The title
   * defaults to "Вкладка" and the mode to "category" when absent, the button
   * text to "". A category tab holds the category id (none when empty) and
   * the limit (8 when empty) and fails, where `int()` raises, only when one
   * of them is not a number; a custom tab holds the selected product ids
   * joined with commas; any other mode holds neither.
   */
  function NewTab(form: Form, idx: string, rec: Form): (r: Option<Tab>)
    ensures r.None? <==>
      (GetOr(rec, "mode", "category") == "category" &&
       ((GetNonEmpty(rec, "category_id").Some? && ParseInt(GetNonEmpty(rec, "category_id").value).None?)
        || IntOr(Get(rec, "limit_count"), DefaultLimit).None?))
    ensures r.Some? ==>
      var t := r.value;
      t.title == GetOr(rec, "tab_title", DefaultTabTitle) && t.mode == GetOr(rec, "mode", "category")
      && t.buttonText == OrEmpty(Get(rec, "button_text"))
      && (t.mode == "category" ==>
            t.productIds.None?
            && t.limitCount == IntOr(Get(rec, "limit_count"), DefaultLimit).value
            && (GetNonEmpty(rec, "category_id").None? ==> t.categoryId.None?)
            && (GetNonEmpty(rec, "category_id").Some? ==> t.categoryId == ParseInt(GetNonEmpty(rec, "category_id").value)))
      && (t.mode == "custom" ==>
            t.categoryId.None? && t.limitCount == DefaultLimit
            && t.productIds == Some(Join(GetList(form, ProductIdsKey(idx)), ",")))
      && (t.mode != "category" && t.mode != "custom" ==>
            t.categoryId.None? && t.productIds.None? && t.limitCount == DefaultLimit)
  {
    var title := GetOr(rec, "tab_title", DefaultTabTitle);
    var mode := GetOr(rec, "mode", "category");
    var button := OrEmpty(Get(rec, "button_text"));
    if mode == "category" then
      var category: Option<Option<int>> :=
        match GetNonEmpty(rec, "category_id")
        case Some(v) => (match ParseInt(v) case Some(n) => Some(Some(n)) case None => None)
        case None => Some(None);
      match (category, IntOr(Get(rec, "limit_count"), DefaultLimit))
      case (Some(c), Some(limit)) => Some(Tab(title, mode, button, c, limit, None))
      case _ => None
    else if mode == "custom" then
      Some(Tab(title, mode, button, None, DefaultLimit, Some(Join(GetList(form, ProductIdsKey(idx)), ","))))
    else
      Some(Tab(title, mode, button, None, DefaultLimit, None))
  }

  /** Each record's tab, in record order. */
  function TabResults(form: Form, rs: Records<string>): (r: seq<Option<Tab>>)
    ensures |r| == |rs| && forall j :: 0 <= j < |rs| ==> r[j] == NewTab(form, rs[j].0, rs[j].1)
  {
    seq(|rs|, j requires 0 <= j < |rs| => NewTab(form, rs[j].0, rs[j].1))
  }

  /** The tabs the loop adds, one per record in record order; None where one of them fails. */
  function TabsData(form: Form, rs: Records<string>): Option<seq<Tab>>
  {
    AllSome(TabResults(form, rs))
  }

  /** The tabs fail iff some record's tab fails; otherwise there is one tab per record. */
  lemma {:induction false} TabsDataSpec(form: Form, rs: Records<string>)
    ensures TabsData(form, rs).None? <==> exists j :: 0 <= j < |rs| && NewTab(form, rs[j].0, rs[j].1).None?
    ensures TabsData(form, rs).Some? ==>
      |TabsData(form, rs).value| == |rs|
      && forall j :: 0 <= j < |rs| ==> Some(TabsData(form, rs).value[j]) == NewTab(form, rs[j].0, rs[j].1)
  {
    AllSomeSpec(TabResults(form, rs));
  }

  /** The tab loop: one new row per record, numbered on from `last`; None where a tab fails. */
  method MakeTabs(form: Form, owner: nat, last: nat, rs: Records<string>) returns (made: Option<seq<Row<Tab>>>)
    ensures TabsData(form, rs).None? ==> made.None?
    ensures TabsData(form, rs).Some? ==> made == Some(NewRows(owner, last, TabsData(form, rs).value))
  {
    ghost var results := TabResults(form, rs);
    var rows: seq<Row<Tab>> := [];
    var j := 0;
    while j < |rs|
      invariant 0 <= j <= |rs|
      invariant AllSome(results[..j]).Some?
      invariant rows == NewRows(owner, last, AllSome(results[..j]).value)
    {
      var t := NewTab(form, rs[j].0, rs[j].1);
      RowsStep(results, j, owner, last, rows);
      if t.None? {
        return None;
      }
      rows := rows + [Row(last + 1 + |rows|, owner, t.value)];
      j := j + 1;
    }
    assert results[..|rs|] == results;
    made := Some(rows);
  }

  // ---------------------------------------------------------------------
  // Saving

  /**
   * The first phase, committed at line 48: the instance, the tabs row (the
   * instance's first, or a new one) with its title and, for an existing
   * row, its old tabs deleted. Gives the tables and the tabs row's id.
   */
  function Prepare(db: TabsDb, instances: seq<Instance>, iid: nat, last: nat, form: Form): (TabsDb, nat)
  {
    var found := FirstOwned(db.tabsRows, iid).Some?;
    var placed := FirstOrCreate(db.tabsRows, iid, last, Tabs(TabsTitle(form)));
    var tabs := if found then Disown(db.tabs, placed.1) else db.tabs;
    (TabsDb(instances, placed.0, tabs, placed.2), placed.1)
  }

  /**
   * The second phase: the tabs, one per record. A malformed name or a tab
   * that fails makes the request fail and the first phase's tables stay.
   */
  function Fill(db1: TabsDb, iid: nat, owner: nat, form: Form): (SaveResult, TabsDb)
  {
    match GroupFields(Items(form), "tabs[", false)
    case None => (Crashed, db1)
    case Some(rs) =>
      match TabsData(form, rs)
      case None => (Crashed, db1)
      case Some(ts) =>
        (Saved(iid, SavedFlash), db1.(tabs := db1.tabs + NewRows(owner, db1.lastId, ts), lastId := db1.lastId + |ts|))
  }

  /**
   * `save_instance(module_id, form, instance_id)` (instance id 0 when none
   * is given): the result and the tables afterwards.
   */
  function SaveSpec(db: TabsDb, modules: seq<Module>, moduleId: nat, form: Form, instanceId: nat): (SaveResult, TabsDb)
  {
    if moduleId == 0 then (MissingModuleId(MissingModuleFlash), db)
    else match Upsert(db.instances, modules, moduleId, instanceId, db.lastId, CreatedSettings(form), UpdatedSettings(form))
      case None => (Crashed, db)
      case Some((instances, iid, last)) =>
        var (db1, owner) := Prepare(db, instances, iid, last, form);
        Fill(db1, iid, owner, form)
  }

  /** The second phase over locals: the grouping loop, then the tab loop. */
  method FillTables(db1: TabsDb, iid: nat, owner: nat, form: Form) returns (res: SaveResult, db2: TabsDb)
    ensures res == Fill(db1, iid, owner, form).0
    ensures db2 == Fill(db1, iid, owner, form).1
  {
    db2 := db1;
    var grouped := GroupForm(Items(form), "tabs[", false);
    if grouped.None? {
      return Crashed, db2;
    }
    var made := MakeTabs(form, owner, db1.lastId, grouped.value);
    if made.None? {
      return Crashed, db2;
    }
    db2 := db1.(tabs := db1.tabs + made.value, lastId := db1.lastId + |made.value|);
    res := Saved(iid, SavedFlash);
  }

  /** What the first phase commits: the tabs row written, and no tabs left on it. */
  lemma {:induction false} PrepareSpec(db: TabsDb, instances: seq<Instance>, iid: nat, last: nat, form: Form)
    requires Valid(db) && last >= db.lastId && iid <= last
    requires forall i :: i in instances ==> i.id <= last
    ensures var (db1, owner) := Prepare(db, instances, iid, last, form);
      Valid(db1) && db1.instances == instances
      && FirstOwned(db1.tabsRows, iid) == Some(Row(owner, iid, Tabs(TabsTitle(form))))
      && (forall t :: t in db1.tabs ==> t.owner != owner)
      && (forall t :: t in db.tabs && t.owner != owner ==> t in db1.tabs)
  {
    FirstOrCreateSpec(db.tabsRows, iid, last, Tabs(TabsTitle(form)));
  }

  /** What the second phase adds when it succeeds: the tabs row's new tabs, and nothing else changes. */
  lemma {:induction false} FillSpec(db1: TabsDb, iid: nat, owner: nat, form: Form)
    requires Valid(db1) && owner <= db1.lastId
    requires forall t :: t in db1.tabs ==> t.owner != owner
    requires Fill(db1, iid, owner, form).0.Saved?
    ensures var (res, db2) := Fill(db1, iid, owner, form);
      var added := TabsData(form, GroupFields(Items(form), "tabs[", false).value).value;
      res.instanceId == iid && Valid(db2) && db2.instances == db1.instances && db2.tabsRows == db1.tabsRows
      && Owned(db2.tabs, owner) == NewRows(owner, db1.lastId, added)
      && (forall t :: t in db1.tabs ==> t in db2.tabs)
  {
    var added := TabsData(form, GroupFields(Items(form), "tabs[", false).value).value;
    OwnedAppendNew(db1.tabs, owner, db1.lastId, added);
    var db2 := Fill(db1, iid, owner, form).1;
    forall t | t in db2.tabs
      ensures t.id <= db2.lastId && t.owner <= db2.lastId
    {
      if t !in db1.tabs {
        var k :| 0 <= k < |added| && NewRows(owner, db1.lastId, added)[k] == t;
        NewRowsAt(owner, db1.lastId, added, k);
      }
    }
  }

  /** The new tabs hold, one by one, the tabs of the records. */
  lemma {:induction false} TabsAfter(owner: nat, last: nat, form: Form, rs: Records<string>)
    requires TabsData(form, rs).Some?
    ensures var rows := NewRows(owner, last, TabsData(form, rs).value);
      |rows| == |rs| && forall j :: 0 <= j < |rs| ==> Some(rows[j].data) == NewTab(form, rs[j].0, rs[j].1)
  {
    var ts := TabsData(form, rs).value;
    TabsDataSpec(form, rs);
    forall j | 0 <= j < |rs|
      ensures Some(NewRows(owner, last, ts)[j].data) == NewTab(form, rs[j].0, rs[j].1)
    {
      NewRowsAt(owner, last, ts, j);
    }
  }

  /**
   * After a save that succeeds: the instance holds the settings for its
   * case (`title` when it existed, `name` when new), its tabs row the
   * title, and its tabs are exactly one per record, in record order. Other
   * tabs rows keep their tabs, and the tables stay valid.
   */
  lemma {:induction false} SavedState(db: TabsDb, modules: seq<Module>, moduleId: nat, form: Form, instanceId: nat)
    requires Valid(db)
    requires SaveSpec(db, modules, moduleId, form, instanceId).0.Saved?
    ensures var (res, db2) := SaveSpec(db, modules, moduleId, form, instanceId);
      var rs := GroupFields(Items(form), "tabs[", false).value;
      var existing := instanceId != 0 && FindInstance(db.instances, instanceId).Some?;
      Valid(db2)
      && FindInstance(db2.instances, res.instanceId).Some?
      && FindInstance(db2.instances, res.instanceId).value.settings
           == Dumps(if existing then UpdatedSettings(form) else CreatedSettings(form))
      && FirstOwned(db2.tabsRows, res.instanceId).Some?
      && var row := FirstOwned(db2.tabsRows, res.instanceId).value;
         row.data == Tabs(TabsTitle(form))
         && |Owned(db2.tabs, row.id)| == |rs|
         && (forall j :: 0 <= j < |rs| ==> Some(Owned(db2.tabs, row.id)[j].data) == NewTab(form, rs[j].0, rs[j].1))
         && (forall t :: t in db.tabs && t.owner != row.id ==> t in db2.tabs)
  {
    var (c, u) := (CreatedSettings(form), UpdatedSettings(form));
    UpsertSpec(db.instances, modules, moduleId, instanceId, db.lastId, c, u);
    var (instances, iid, last) := Upsert(db.instances, modules, moduleId, instanceId, db.lastId, c, u).value;
    assert FindInstance(instances, iid).value in instances;
    PrepareSpec(db, instances, iid, last, form);
    var (db1, owner) := Prepare(db, instances, iid, last, form);
    FillSpec(db1, iid, owner, form);
    TabsAfter(owner, db1.lastId, form, GroupFields(Items(form), "tabs[", false).value);
  }

  /**
   * How a failing save ends once the instance is written: a malformed name
   * or a tab whose numbers do not parse leaves the tabs row written with
   * no tabs at all, the old ones deleted.
   */
  lemma {:induction false} CrashAfterCommit(db: TabsDb, modules: seq<Module>, moduleId: nat, form: Form, instanceId: nat)
    requires Valid(db) && moduleId != 0
    requires (instanceId != 0 && FindInstance(db.instances, instanceId).Some?) || FindModule(modules, moduleId).Some?
    ensures var (res, db2) := SaveSpec(db, modules, moduleId, form, instanceId);
      var iid := if instanceId != 0 && FindInstance(db.instances, instanceId).Some? then instanceId else db.lastId + 1;
      (res.Crashed? <==> GroupFields(Items(form), "tabs[", false).None?
                         || TabsData(form, GroupFields(Items(form), "tabs[", false).value).None?)
      && (res.Crashed? ==>
            FirstOwned(db2.tabsRows, iid).Some? && Owned(db2.tabs, FirstOwned(db2.tabsRows, iid).value.id) == [])
  {
    var (c, u) := (CreatedSettings(form), UpdatedSettings(form));
    UpsertSpec(db.instances, modules, moduleId, instanceId, db.lastId, c, u);
    var (instances, iid, last) := Upsert(db.instances, modules, moduleId, instanceId, db.lastId, c, u).value;
    assert FindInstance(instances, iid).value in instances;
    PrepareSpec(db, instances, iid, last, form);
    var (db1, owner) := Prepare(db, instances, iid, last, form);
    if Owned(db1.tabs, owner) != [] {
      assert Owned(db1.tabs, owner)[0] in Owned(db1.tabs, owner);
    }
  }

  // ---------------------------------------------------------------------
  // What the storefront reads back

  /** The pieces of a digit list joined with commas, read back the way the storefront does. */
  function DigitValues(ids: seq<string>): (r: seq<nat>)
    requires forall k :: 0 <= k < |ids| ==> IsDigits(ids[k])
    ensures |r| == |ids|
  {
    if ids == [] then []
    else
      assert IsDigits(ids[0]);
      [DigitsValue(ids[0])] + DigitValues(ids[1..])
  }

  lemma {:induction false} CustomIdsOfDigits(ids: seq<string>)
    requires forall k :: 0 <= k < |ids| ==> IsDigits(ids[k])
    ensures FrontModules.CustomIdsOf(ids) == DigitValues(ids)
  {
    if ids != [] {
      CustomIdsOfDigits(ids[1..]);
      StripNoSpace(ids[0]);
    }
  }

  /**
   * A custom tab saved with a selection of product ids shows exactly those
   * products on the storefront: the comma-joined text splits back into the
   * submitted ids.
   */
  lemma {:induction false} CustomSelectionRoundTrip(ids: seq<string>)
    requires |ids| >= 1 && forall k :: 0 <= k < |ids| ==> IsDigits(ids[k])
    ensures FrontModules.CustomIds(Join(ids, ",")) == DigitValues(ids)
  {
    forall k | 0 <= k < |ids|
      ensures ',' !in ids[k]
    {
      assert IsDigits(ids[k]);
      assert forall i :: 0 <= i < |ids[k]| ==> ids[k][i] != ',';
    }
    JoinSplit(ids, ',');
    assert [','] == ",";
    CustomIdsOfDigits(ids);
  }

  // ---------------------------------------------------------------------
  // Load and delete

  /**
   * `load_instance_data(instance_id)`: with no id, no instance, no tabs row
   * and no tabs; otherwise the instance (a 404, None, when it does not
   * exist), its first tabs row and that row's tabs. Either way the
   * categories and products, which the caller gives already ordered by name.
   */
  function LoadInstanceData(instanceId: nat, db: TabsDb, categoriesByName: seq<Json>, productsByName: seq<Json>)
    : (r: Option<map<string, Json>>)
    ensures instanceId == 0 ==> r == Some(map["module_instance" := JNull, "tabs_instance" := JNull, "items" := JArr([]),
                                              "categories" := JArr(categoriesByName), "products" := JArr(productsByName)])
    ensures instanceId != 0 ==> (r.None? <==> FindInstance(db.instances, instanceId).None?)
    ensures r.Some? ==> r.value.Keys == {"module_instance", "tabs_instance", "items", "categories", "products"}
    ensures r.Some? && instanceId != 0 ==>
      r.value["module_instance"] == JInt(instanceId)
      && r.value["tabs_instance"] == Ref(FirstOwned(db.tabsRows, instanceId))
      && (FirstOwned(db.tabsRows, instanceId).None? ==> r.value["items"] == JArr([]))
  {
    if instanceId == 0 then
      Some(map["module_instance" := JNull, "tabs_instance" := JNull, "items" := JArr([]),
               "categories" := JArr(categoriesByName), "products" := JArr(productsByName)])
    else if FindInstance(db.instances, instanceId).None? then None
    else
      var row := FirstOwned(db.tabsRows, instanceId);
      Some(map["module_instance" := JInt(instanceId),
               "tabs_instance" := Ref(row),
               "items" := JArr(if row.Some? then RowIds(Owned(db.tabs, row.value.id)) else []),
               "categories" := JArr(categoriesByName), "products" := JArr(productsByName)])
  }

  /** `del_instance` on an existing instance: its first tabs row's tabs, that row and the instance go. */
  function Deleted(db: TabsDb, instanceId: nat): TabsDb
  {
    match FirstOwned(db.tabsRows, instanceId)
    case None => db.(instances := DropInstance(db.instances, instanceId))
    case Some(t) => TabsDb(DropInstance(db.instances, instanceId), DropRow(db.tabsRows, t.id), Disown(db.tabs, t.id), db.lastId)
  }

  /** After the delete, loading the instance is a 404, its tabs row has no tabs, and other instances stay. */
  lemma {:induction false} DeletedSpec(db: TabsDb, instanceId: nat, categoriesByName: seq<Json>, productsByName: seq<Json>)
    requires instanceId != 0 && Valid(db)
    ensures var db2 := Deleted(db, instanceId);
      LoadInstanceData(instanceId, db2, categoriesByName, productsByName).None? && Valid(db2)
      && (forall i :: i in db.instances && i.id != instanceId ==> i in db2.instances)
      && (FirstOwned(db.tabsRows, instanceId).Some? ==>
            var t := FirstOwned(db.tabsRows, instanceId).value;
            t !in db2.tabsRows && Owned(db2.tabs, t.id) == [])
  {
    var db2 := Deleted(db, instanceId);
    if FirstOwned(db.tabsRows, instanceId).Some? {
      var t := FirstOwned(db.tabsRows, instanceId).value;
      if Owned(db2.tabs, t.id) != [] {
        assert Owned(db2.tabs, t.id)[0] in Owned(db2.tabs, t.id);
      }
    }
  }

  // ---------------------------------------------------------------------
  // The tables as the editor changes them

  class TabsStore {
    const modules: seq<Module>
    var instances: seq<Instance>
    var tabsRows: seq<Row<Tabs>>
    var tabs: seq<Row<Tab>>
    var lastId: nat
    /** The layout cells of pages and posts, which the deletion of an instance detaches. */
    const cells: LayoutCells

    function Db(): TabsDb
      reads this
    {
      TabsDb(instances, tabsRows, tabs, lastId)
    }

    constructor (modules: seq<Module>, db: TabsDb, cells: LayoutCells)
      ensures this.modules == modules && Db() == db
      ensures this.cells == cells
    {
      this.cells := cells;
      this.modules := modules;
      instances := db.instances;
      tabsRows := db.tabsRows;
      tabs := db.tabs;
      lastId := db.lastId;
    }

    /** `save_instance`: the tables end as `SaveSpec` describes, phase by phase. */
    method SaveInstance(moduleId: nat, form: Form, instanceId: nat) returns (res: SaveResult)
      modifies this
      ensures res == SaveSpec(old(Db()), modules, moduleId, form, instanceId).0
      ensures Db() == SaveSpec(old(Db()), modules, moduleId, form, instanceId).1
    {
      if moduleId == 0 {
        return MissingModuleId(MissingModuleFlash);
      }
      var upserted := Upsert(instances, modules, moduleId, instanceId, lastId, CreatedSettings(form), UpdatedSettings(form));
      if upserted.None? {
        return Crashed;
      }
      var (instances1, iid, last) := upserted.value;
      var (db1, owner) := Prepare(Db(), instances1, iid, last, form);
      // the first commit
      instances, tabsRows, tabs, lastId := db1.instances, db1.tabsRows, db1.tabs, db1.lastId;
      var db2;
      res, db2 := FillTables(db1, iid, owner, form);
      // the second commit
      tabs, lastId := db2.tabs, db2.lastId;
    }

    /**
     * `del_instance`: an unknown instance gives an error message and changes
     * nothing; otherwise the tables end as `Deleted` describes, and with the
     * instance the layout cells that showed it are detached.
     */
    method DeleteInstance(instanceId: nat) returns (flash: Flash)
      modifies this, cells
      ensures FindInstance(old(instances), instanceId).None? ==> flash == NotFoundFlash && Db() == old(Db())
      ensures FindInstance(old(instances), instanceId).Some? ==>
        flash == DeletedFlash && Db() == Deleted(old(Db()), instanceId)
      ensures if flash == DeletedFlash then cells.Detached(instanceId) else cells.Unchanged()
    {
      if FindInstance(instances, instanceId).None? {
        return NotFoundFlash;
      }
      var row := FirstOwned(tabsRows, instanceId);
      if row.Some? {
        tabs := Disown(tabs, row.value.id);
        tabsRows := DropRow(tabsRows, row.value.id);
      }
      cells.DetachInstance(instanceId);
      instances := DropInstance(instances, instanceId);
      flash := DeletedFlash;
    }
  }
}
