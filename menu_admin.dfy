// The menu editor's save around the item loop (`MenuModule.save_instance`
// in app/admin/modules/menu.py): find or create the module instance, bind
// it to a menu instance and a menu, write the instance's settings and its
// main-menu flag, delete the old items, then run the item loop of
// menu_save.dfy. The whole save is one transaction: any exception rolls
// everything back.

module MenuAdmin {
  import opened Common
  import opened Json
  import opened Layout
  import opened Registry
  import opened Tables
  import opened ModuleForms
  import opened MenuData
  import opened MenuSave

  const DefaultMenuName: string := "Основное меню"

  /**
   * The two readings of the save this model keeps: the code as written, and
   * the corrected one (a new menu per new menu instance, and targets
   * recovered from the instance's entries as they were before the save).
   */
  datatype Version = AsWritten | Corrected

  /** How the save ends: the transaction failed and was rolled back, or it committed and redirects to the editor. */
  datatype SaveOutcome = SaveFailed | SavedMenu(moduleId: nat, instanceId: nat)

  // ---------------------------------------------------------------------
  // The module instance

  /** The module instance the save writes to, the module it belongs to, and the largest id handed out. */
  datatype Found = Found(instances: seq<Instance>, id: nat, moduleId: nat, last: nat)

  /**
   * The settings a new instance stores: `'{}'` when the form's `settings`
   * is absent or empty, else the submitted text, which the JSON column
   * accepts only when it is JSON (`submitted` is its value, None when it is
   * not JSON).
   */
  function NewSettings(form: Form, submitted: Option<Json>): Option<Stored>
  {
    if GetNonEmpty(form, "settings").None? then Some(Dumps(EmptyObject))
    else if submitted.Some? then Some(Dumps(submitted.value))
    else None
  }

  /** `form_data.get('selected_template') or 'default'`. */
  function Template(form: Form): string
  {
    match GetNonEmpty(form, "selected_template")
    case Some(t) => t
    case None => "default"
  }

  /**
   * `ModuleInstance.query.get(instance_id) if instance_id`, or else a new
   * instance of the module; None where the insert fails (no such module, or
   * settings the JSON column refuses).
   */
  function ModuleInstanceFor(instances: seq<Instance>, modules: seq<Module>, moduleId: nat, instanceId: nat,
                             form: Form, submitted: Option<Json>, last: nat): (r: Option<Found>)
  {
    if instanceId != 0 && FindInstance(instances, instanceId).Some? then
      Some(Found(instances, instanceId, FindInstance(instances, instanceId).value.moduleId, last))
    else if FindModule(modules, moduleId).None? || NewSettings(form, submitted).None? then None
    else
      var i := Instance(last + 1, moduleId, FindModule(modules, moduleId).value.name,
                        NewSettings(form, submitted).value, Template(form), None);
      Some(Found(instances + [i], last + 1, moduleId, last + 1))
  }

  /**
   * An existing instance is used as it is; otherwise a new one of the module
   * is appended under a fresh id with the form's template; the step fails
   * only in the new-instance case, when the module is missing or the
   * settings are not JSON.
   */
  lemma {:induction false} ModuleInstanceSpec(instances: seq<Instance>, modules: seq<Module>, moduleId: nat, instanceId: nat,
                           form: Form, submitted: Option<Json>, last: nat)
    requires forall i :: i in instances ==> i.id <= last
    ensures var r := ModuleInstanceFor(instances, modules, moduleId, instanceId, form, submitted, last);
      var existing := instanceId != 0 && FindInstance(instances, instanceId).Some?;
      (r.None? <==> !existing && (FindModule(modules, moduleId).None? || NewSettings(form, submitted).None?))
      && (r.Some? ==>
            FindInstance(r.value.instances, r.value.id).Some?
            && FindInstance(r.value.instances, r.value.id).value.moduleId == r.value.moduleId
            && (forall i :: i in r.value.instances ==> i.id <= r.value.last)
            && r.value.instances[..|instances|] == instances
            && (existing ==> r.value == Found(instances, instanceId, FindInstance(instances, instanceId).value.moduleId, last))
            && (!existing ==>
                  r.value.id == last + 1 == r.value.last && r.value.moduleId == moduleId
                  && FindInstance(r.value.instances, r.value.id).value.template == Template(form)))
  {
    var r := ModuleInstanceFor(instances, modules, moduleId, instanceId, form, submitted, last);
    if r.Some? && !(instanceId != 0 && FindInstance(instances, instanceId).Some?) {
      FindInstanceAppend(instances, r.value.instances[|instances|]);
    }
  }

  // ---------------------------------------------------------------------
  // The menu instance

  /** The menus and menu instances after the lookup, the row the save configures, and the largest id handed out. */
  datatype Bound = Bound(menus: seq<Menu>, rows: seq<Row<MenuInstance>>, row: Row<MenuInstance>, last: nat)

  /**
   * The menu a new menu instance is bound to: as written, the first menu of
   * the table (`Menu.query.first()`), a new one only when there is none;
   * corrected, always a new one.
   */
  function MenuFor(menus: seq<Menu>, last: nat, v: Version): (seq<Menu>, nat, nat)
  {
    if v == AsWritten && menus != [] then (menus, menus[0].id, last)
    else (menus + [Menu(last + 1, DefaultMenuName)], last + 1, last + 1)
  }

  /** The instance's first menu instance, or a new one with the column defaults, bound to a menu. */
  function MenuInstanceFor(menus: seq<Menu>, rows: seq<Row<MenuInstance>>, iid: nat, last: nat, v: Version): Bound
  {
    match FirstOwned(rows, iid)
    case Some(m) => Bound(menus, rows, m, last)
    case None =>
      var (menus1, menuId, last1) := MenuFor(menus, last, v);
      var row := Row(last1 + 1, iid, DefaultInstance(menuId));
      Bound(menus1, rows + [row], row, last1 + 1)
  }

  /**
   * The menu instance is the instance's first one when it has one;
   * otherwise a new row with a fresh id, bound (corrected) to a new menu
   * numbered above every id handed out.
   */
  lemma {:induction false} MenuInstanceSpec(menus: seq<Menu>, rows: seq<Row<MenuInstance>>, iid: nat, last: nat, v: Version)
    requires (forall m :: m in menus ==> m.id <= last) && (forall x :: x in rows ==> x.id <= last)
    ensures var b := MenuInstanceFor(menus, rows, iid, last, v);
      b.row.owner == iid && FirstOwned(b.rows, iid) == Some(b.row)
      && (forall m :: m in b.menus ==> m.id <= b.last) && (forall x :: x in b.rows ==> x.id <= b.last)
      && b.rows[..|rows|] == rows && b.menus[..|menus|] == menus
      && (FirstOwned(rows, iid).Some? ==> b == Bound(menus, rows, FirstOwned(rows, iid).value, last))
      && (FirstOwned(rows, iid).None? ==>
            b.row.id == b.last > last && b.rows == rows + [b.row]
            && b.row.data == DefaultInstance(b.row.data.menuId)
            && (v == Corrected ==> b.row.data.menuId == last + 1))
  {
    var b := MenuInstanceFor(menus, rows, iid, last, v);
    if FirstOwned(rows, iid).None? {
      FirstOwnedAppend(rows, iid, b.row);
    }
  }

  // ---------------------------------------------------------------------
  // The instance's settings and the main-menu flag

  /** `bool(form_data.get(name, False))`: the field is present and not empty. */
  predicate Flag(form: Form, name: string)
  {
    GetNonEmpty(form, name).Some?
  }

  /**
   * The menu instance's columns after the form's settings: title (`''` when
   * absent), style (`'horizontal'`), depth (`int()` of the field, 3 when
   * absent), the icon, video and main flags; the other columns keep their
   * values. None where `int()` refuses the depth.
   */
  function Configured(form: Form, data: MenuInstance): (r: Option<MenuInstance>)
    ensures r.None? <==> IntGet(Get(form, "max_depth"), 3).None?
    ensures r.Some? ==>
      r.value.menuId == data.menuId && r.value.title == GetOr(form, "menu_title", "")
      && r.value.menuStyle == GetOr(form, "menu_style", "horizontal")
      && Some(r.value.maxDepth) == IntGet(Get(form, "max_depth"), 3)
      && r.value.showIcons == Flag(form, "show_icons") && r.value.enableVideos == Flag(form, "enable_videos")
      && r.value.isMain == Flag(form, "is_main")
      && r.value.customCssClass == data.customCssClass && r.value.targetBlank == data.targetBlank
      && r.value.enableAutoCatalog == data.enableAutoCatalog
  {
    match IntGet(Get(form, "max_depth"), 3)
    case None => None
    case Some(d) =>
      Some(data.(title := GetOr(form, "menu_title", ""), menuStyle := GetOr(form, "menu_style", "horizontal"),
                 maxDepth := d, showIcons := Flag(form, "show_icons"), enableVideos := Flag(form, "enable_videos"),
                 isMain := Flag(form, "is_main")))
  }

  /** `MenuModuleInstance.query.update({is_main: False})`. */
  function ClearMain(rows: seq<Row<MenuInstance>>): (r: seq<Row<MenuInstance>>)
    ensures |r| == |rows|
    ensures forall k :: 0 <= k < |r| ==> r[k] == rows[k].(data := rows[k].data.(isMain := false))
  {
    seq(|rows|, k requires 0 <= k < |rows| => rows[k].(data := rows[k].data.(isMain := false)))
  }

  /** The flag is cleared on every row first when this one becomes main; then the row is written. */
  function WithMain(rows: seq<Row<MenuInstance>>, row: Row<MenuInstance>): seq<Row<MenuInstance>>
  {
    if row.data.isMain then SetRow(ClearMain(rows), row) else SetRow(rows, row)
  }

  /**
   * Writing the configured row keeps at most one main menu: when the row
   * is main it is the only main one, and otherwise the others keep their
   * flags. Every other row keeps its columns but the flag.
   */
  lemma {:induction false} WithMainSpec(rows: seq<Row<MenuInstance>>, row: Row<MenuInstance>)
    requires IdsUnique(rows) && AtMostOneMain(rows)
    requires exists k :: 0 <= k < |rows| && rows[k].id == row.id && rows[k].owner == row.owner
    ensures var r := WithMain(rows, row);
      IdsUnique(r) && AtMostOneMain(r) && |r| == |rows|
      && (forall k :: 0 <= k < |r| ==> r[k].id == rows[k].id && r[k].owner == rows[k].owner)
      && (forall k :: 0 <= k < |r| && rows[k].id == row.id ==> r[k] == row)
      && (forall k :: 0 <= k < |r| && rows[k].id != row.id ==>
            r[k].data == rows[k].data.(isMain := rows[k].data.isMain && !row.data.isMain))
  {
    WithMainRows(rows, row);
    var r := WithMain(rows, row);
    forall j, k | 0 <= j < |r| && 0 <= k < |r| && r[j].data.isMain && r[k].data.isMain
      ensures j == k
    {
      if !row.data.isMain {
        assert rows[j].data.isMain && rows[k].data.isMain;
      }
    }
  }

  lemma {:induction false} WithMainRows(rows: seq<Row<MenuInstance>>, row: Row<MenuInstance>)
    requires IdsUnique(rows)
    requires exists k :: 0 <= k < |rows| && rows[k].id == row.id && rows[k].owner == row.owner
    ensures var r := WithMain(rows, row);
      |r| == |rows|
      && (forall k :: 0 <= k < |r| ==> r[k].id == rows[k].id && r[k].owner == rows[k].owner)
      && (forall k :: 0 <= k < |r| && rows[k].id == row.id ==> r[k] == row)
      && (forall k :: 0 <= k < |r| && rows[k].id != row.id ==>
            r[k].data == rows[k].data.(isMain := rows[k].data.isMain && !row.data.isMain))
  {
    var c := if row.data.isMain then ClearMain(rows) else rows;
    assert forall k :: 0 <= k < |c| ==>
      c[k].id == rows[k].id && c[k].owner == rows[k].owner
      && c[k].data == rows[k].data.(isMain := rows[k].data.isMain && !row.data.isMain);
    assert SetRow(c, row) == WithMain(rows, row);
  }

  // ---------------------------------------------------------------------
  // Deleting the old items

  /**
   * The item delete fails on a foreign key: a remaining extended row (of
   * another instance of the same menu) points at an item of the menu, or
   * an item of another menu has a parent in it. The menu's own items had
   * their parents cleared first.
   */
  predicate Blocked(items: seq<Row<MenuItem>>, exts: seq<Row<ItemExt>>, menuId: nat)
  {
    (exists x, y :: x in exts && y in items && y.owner == menuId && x.data.itemId == y.id)
    || (exists x, y :: x in items && y in items && x.owner != menuId && y.owner == menuId && x.data.parentId == Some(y.id))
  }

  // ---------------------------------------------------------------------
  // The save

  /** Everything the save has settled when the item loop starts. */
  datatype Plan = Plan(found: Found, menus: seq<Menu>, rows: seq<Row<MenuInstance>>, row: Row<MenuInstance>,
                       batch: Batch, start: Progress)

  /**
   * The stages before the item loop; None where one of them fails. The
   * loop starts from the tables without the instance's extended rows and
   * without the menu's items.
   */
  function PlanSave(db: MenuDb, modules: seq<Module>, images: seq<Image>, moduleId: nat, form: Form,
                    instanceId: nat, submitted: Option<Json>, v: Version): Option<Plan>
  {
    match ModuleInstanceFor(db.instances, modules, moduleId, instanceId, form, submitted, db.lastId)
    case None => None
    case Some(f) =>
      var b := MenuInstanceFor(db.menus, db.menuInstances, f.id, f.last, v);
      match Configured(form, b.row.data)
      case None => None
      case Some(data) =>
        var row := b.row.(data := data);
        var exts := Disown(db.exts, row.id);
        if Blocked(db.items, exts, data.menuId) then None
        else
          var rec := if v == AsWritten then Current else Previous(Joined(db.exts, db.items, row.id));
          Some(Plan(f, b.menus, WithMain(b.rows, row), row,
                    Batch(FormItems(form), data.menuId, row.id, rec, images),
                    Progress(Disown(db.items, data.menuId), exts, b.last, [])))
  }

  /** `save_instance`: the outcome and the tables after commit or rollback. */
  function SaveSpec(db: MenuDb, modules: seq<Module>, images: seq<Image>, moduleId: nat, form: Form,
                    instanceId: nat, submitted: Option<Json>, v: Version): (SaveOutcome, MenuDb)
  {
    match PlanSave(db, modules, images, moduleId, form, instanceId, submitted, v)
    case None => (SaveFailed, db)
    case Some(pl) =>
      match Run(pl.batch, pl.start, ItemCount(form))
      case None => (SaveFailed, db)
      case Some(p) =>
        (SavedMenu(pl.found.moduleId, pl.found.id),
         MenuDb(pl.found.instances, pl.menus, pl.rows, p.items, p.exts, p.last))
  }

  // ---------------------------------------------------------------------
  // What the stages before the loop settle

  lemma {:induction false} FirstOwnedAt<T>(rows: seq<Row<T>>, owner: nat, k: nat)
    requires k < |rows| && rows[k].owner == owner && forall j :: 0 <= j < k ==> rows[j].owner != owner
    ensures FirstOwned(rows, owner) == Some(rows[k])
  {
    if k > 0 {
      FirstOwnedAt(rows[1..], owner, k - 1);
    }
  }

  lemma {:induction false} FirstOwnedIndex<T>(rows: seq<Row<T>>, owner: nat)
    requires FirstOwned(rows, owner).Some?
    ensures exists k :: 0 <= k < |rows| && rows[k] == FirstOwned(rows, owner).value
                        && forall j :: 0 <= j < k ==> rows[j].owner != owner
  {
    if rows[0].owner != owner {
      FirstOwnedIndex(rows[1..], owner);
      var k :| 0 <= k < |rows| - 1 && rows[1..][k] == FirstOwned(rows, owner).value
               && forall j :: 0 <= j < k ==> rows[1..][j].owner != owner;
      assert rows[k + 1] == FirstOwned(rows, owner).value;
    } else {
      assert rows[0] == FirstOwned(rows, owner).value;
    }
  }

  /** After the flag is written, the instance's first menu instance is the configured row. */
  lemma {:induction false} FirstOwnedWithMain(rows: seq<Row<MenuInstance>>, row: Row<MenuInstance>)
    requires IdsUnique(rows) && FirstOwned(rows, row.owner).Some? && FirstOwned(rows, row.owner).value.id == row.id
    ensures FirstOwned(WithMain(rows, row), row.owner) == Some(row)
  {
    FirstOwnedIndex(rows, row.owner);
    var k :| 0 <= k < |rows| && rows[k] == FirstOwned(rows, row.owner).value
             && forall j :: 0 <= j < k ==> rows[j].owner != row.owner;
    WithMainRows(rows, row);
    FirstOwnedAt(WithMain(rows, row), row.owner, k);
  }

  /** The menu instances a plan writes: the configured row, found first for the instance, with the form's settings. */
  predicate RowsSettled(rows: seq<Row<MenuInstance>>, row: Row<MenuInstance>, iid: nat, form: Form)
  {
    row.owner == iid && FirstOwned(rows, iid) == Some(row)
    && IdsUnique(rows) && AtMostOneMain(rows)
    && row.data.title == GetOr(form, "menu_title", "")
    && row.data.menuStyle == GetOr(form, "menu_style", "horizontal")
    && Some(row.data.maxDepth) == IntGet(Get(form, "max_depth"), 3)
    && row.data.showIcons == Flag(form, "show_icons") && row.data.enableVideos == Flag(form, "enable_videos")
    && row.data.isMain == Flag(form, "is_main")
    && (row.data.isMain ==> forall x :: x in rows && x.data.isMain ==> x == row)
  }

  /**
   * What a plan holds on a valid database: the loop reads the form's items
   * and starts from the tables without the instance's extended rows and the
   * menu's items, with every id handed out so far at or below its `last`;
   * the menu instance is configured from the form, is the instance's first,
   * and is the only main one when the form says so.
   */
  lemma {:induction false} PlanShape(db: MenuDb, modules: seq<Module>, images: seq<Image>, moduleId: nat, form: Form,
                  instanceId: nat, submitted: Option<Json>, v: Version)
    requires Valid(db)
    requires PlanSave(db, modules, images, moduleId, form, instanceId, submitted, v).Some?
    ensures var pl := PlanSave(db, modules, images, moduleId, form, instanceId, submitted, v).value;
      var last := pl.start.last;
      pl.batch.items == FormItems(form) && pl.batch.images == images
      && pl.batch.inst == pl.row.id && pl.batch.menuId == pl.row.data.menuId
      && pl.batch.rec == (if v == AsWritten then Current else Previous(Joined(db.exts, db.items, pl.row.id)))
      && pl.start == Progress(Disown(db.items, pl.batch.menuId), Disown(db.exts, pl.row.id), last, [])
      && db.lastId <= last && pl.row.data.menuId <= last
      && (forall i :: i in pl.found.instances ==> i.id <= last)
      && (forall m :: m in pl.menus ==> m.id <= last)
      && (forall x :: x in pl.rows ==> x.id <= last && x.data.menuId <= last)
      && RowsSettled(pl.rows, pl.row, pl.found.id, form)
  {
    ModuleInstanceSpec(db.instances, modules, moduleId, instanceId, form, submitted, db.lastId);
    var f := ModuleInstanceFor(db.instances, modules, moduleId, instanceId, form, submitted, db.lastId).value;
    BoundShape(db.menus, db.menuInstances, f.id, f.last, v);
    var b := MenuInstanceFor(db.menus, db.menuInstances, f.id, f.last, v);
    var data := Configured(form, b.row.data).value;
    RowsShape(b.rows, b.row.(data := data), form, b.last);
  }

  /** The menu instances after the lookup keep the table's invariants, and the instance's first one is the row found or made. */
  lemma {:induction false} BoundShape(menus: seq<Menu>, rows: seq<Row<MenuInstance>>, iid: nat, last: nat, v: Version)
    requires IdsUnique(rows) && AtMostOneMain(rows)
    requires (forall m :: m in menus ==> m.id <= last) && (forall x :: x in rows ==> x.id <= last && x.data.menuId <= last)
    ensures var b := MenuInstanceFor(menus, rows, iid, last, v);
      last <= b.last && b.row.owner == iid && FirstOwned(b.rows, iid) == Some(b.row)
      && IdsUnique(b.rows) && AtMostOneMain(b.rows)
      && (forall m :: m in b.menus ==> m.id <= b.last)
      && (forall x :: x in b.rows ==> x.id <= b.last && x.data.menuId <= b.last)
  {
    MenuInstanceSpec(menus, rows, iid, last, v);
    var b := MenuInstanceFor(menus, rows, iid, last, v);
    if FirstOwned(rows, iid).None? {
      AppendFresh(rows, b.row, last);
    }
  }

  /** A row appended under a fresh id, not main, keeps ids distinct and at most one main menu. */
  lemma {:induction false} AppendFresh(rows: seq<Row<MenuInstance>>, row: Row<MenuInstance>, last: nat)
    requires IdsUnique(rows) && AtMostOneMain(rows)
    requires (forall x :: x in rows ==> x.id <= last) && row.id > last && !row.data.isMain
    ensures IdsUnique(rows + [row]) && AtMostOneMain(rows + [row])
  {
    var r := rows + [row];
    forall j, k | 0 <= j < |r| && 0 <= k < |r| && r[j].id == r[k].id
      ensures j == k
    {
      if j < |rows| {
        assert r[j] in rows;
      }
      if k < |rows| {
        assert r[k] in rows;
      }
    }
  }

  /** Writing the configured row into menu instances that keep the invariants settles them. */
  lemma {:induction false} RowsShape(rows: seq<Row<MenuInstance>>, row: Row<MenuInstance>, form: Form, last: nat)
    requires IdsUnique(rows) && AtMostOneMain(rows)
    requires FirstOwned(rows, row.owner).Some? && FirstOwned(rows, row.owner).value.id == row.id
    requires forall x :: x in rows ==> x.id <= last && x.data.menuId <= last
    requires row.data.menuId == FirstOwned(rows, row.owner).value.data.menuId
    requires Some(row.data) == Configured(form, FirstOwned(rows, row.owner).value.data)
    ensures forall x :: x in WithMain(rows, row) ==> x.id <= last && x.data.menuId <= last
    ensures RowsSettled(WithMain(rows, row), row, row.owner, form)
  {
    FirstOwnedIndex(rows, row.owner);
    assert FirstOwned(rows, row.owner).value in rows;
    WithMainSpec(rows, row);
    FirstOwnedWithMain(rows, row);
    WithMainBounded(rows, WithMain(rows, row), row, last);
  }

  /** The rows after writing `row` stay within `last`, and a main `row` is the only main one. */
  lemma {:induction false} WithMainBounded(rows: seq<Row<MenuInstance>>, r: seq<Row<MenuInstance>>, row: Row<MenuInstance>, last: nat)
    requires |r| == |rows|
    requires forall k :: 0 <= k < |r| ==> r[k].id == rows[k].id
    requires forall k :: 0 <= k < |r| && rows[k].id == row.id ==> r[k] == row
    requires forall k :: 0 <= k < |r| && rows[k].id != row.id ==>
      r[k].data == rows[k].data.(isMain := rows[k].data.isMain && !row.data.isMain)
    requires forall x :: x in rows ==> x.id <= last && x.data.menuId <= last
    requires row.id <= last && row.data.menuId <= last
    ensures forall x :: x in r ==> x.id <= last && x.data.menuId <= last && (row.data.isMain && x.data.isMain ==> x == row)
  {
    forall x | x in r
      ensures x.id <= last && x.data.menuId <= last && (row.data.isMain && x.data.isMain ==> x == row)
    {
      var k :| 0 <= k < |r| && r[k] == x;
      assert rows[k] in rows;
    }
  }

  // ---------------------------------------------------------------------
  // What the save leaves

  /**
   * The save is all or nothing: when it fails the tables are as they were;
   * and it fails exactly when a stage before the item loop fails or some
   * item the loop reaches is rejected.
   */
  lemma {:induction false} SaveAtomic(db: MenuDb, modules: seq<Module>, images: seq<Image>, moduleId: nat, form: Form,
                   instanceId: nat, submitted: Option<Json>, v: Version)
    ensures SaveSpec(db, modules, images, moduleId, form, instanceId, submitted, v).0.SaveFailed? ==>
      SaveSpec(db, modules, images, moduleId, form, instanceId, submitted, v).1 == db
    ensures SaveSpec(db, modules, images, moduleId, form, instanceId, submitted, v).0.SaveFailed?
      <==> PlanSave(db, modules, images, moduleId, form, instanceId, submitted, v).None?
           || exists k :: 0 <= k < ItemCount(form) && Rejected(FormItems(form)[k], images)
  {
    var pl := PlanSave(db, modules, images, moduleId, form, instanceId, submitted, v);
    if pl.Some? {
      RunFails(pl.value.batch, pl.value.start, ItemCount(form));
    }
  }

  /** A committed save keeps the tables valid: ids, foreign keys, parents before children, at most one main menu. */
  lemma {:induction false} SavedValid(db: MenuDb, modules: seq<Module>, images: seq<Image>, moduleId: nat, form: Form,
                   instanceId: nat, submitted: Option<Json>, v: Version)
    requires Valid(db)
    requires SaveSpec(db, modules, images, moduleId, form, instanceId, submitted, v).0.SavedMenu?
    ensures Valid(SaveSpec(db, modules, images, moduleId, form, instanceId, submitted, v).1)
  {
    PlanShape(db, modules, images, moduleId, form, instanceId, submitted, v);
    var pl := PlanSave(db, modules, images, moduleId, form, instanceId, submitted, v).value;
    var n := ItemCount(form);
    StartValid(db, pl.start, pl.batch.menuId, pl.row.id);
    LoopValid(pl.batch, pl.start, n);
    var p := Run(pl.batch, pl.start, n).value;
    ValidFrom(pl.found.instances, pl.menus, pl.rows, pl.start.last, p);
  }

  /** The rows the loop starts from are a valid database's rows minus the ones being replaced. */
  lemma {:induction false} StartValid(db: MenuDb, p0: Progress, menuId: nat, inst: nat)
    requires Valid(db) && db.lastId <= p0.last && menuId <= p0.last
    requires p0 == Progress(Disown(db.items, menuId), Disown(db.exts, inst), p0.last, [])
    ensures Bounded(p0) && ParentsBelow(p0.items) && forall x :: x in p0.items ==> x.owner <= p0.last
  {
  }

  lemma {:induction false} ValidFrom(instances: seq<Instance>, menus: seq<Menu>, rows: seq<Row<MenuInstance>>, last: nat, p: Progress)
    requires last <= p.last && Bounded(p) && ParentsBelow(p.items) && forall x :: x in p.items ==> x.owner <= p.last
    requires (forall i :: i in instances ==> i.id <= last) && (forall m :: m in menus ==> m.id <= last)
    requires (forall x :: x in rows ==> x.id <= last && x.data.menuId <= last)
    requires IdsUnique(rows) && AtMostOneMain(rows)
    ensures Valid(MenuDb(instances, menus, rows, p.items, p.exts, p.last))
  {
  }

  /** The item loop, started from rows of a valid database, leaves ids, owners and parents valid. */
  lemma {:induction false} LoopValid(b: Batch, p0: Progress, n: nat)
    requires n <= |b.items| && Run(b, p0, n).Some? && p0.made == []
    requires Bounded(p0) && ParentsBelow(p0.items) && b.menuId <= p0.last
    requires forall x :: x in p0.items ==> x.owner <= p0.last
    ensures var p := Run(b, p0, n).value;
      Bounded(p) && ParentsBelow(p.items) && p0.last <= p.last && forall x :: x in p.items ==> x.owner <= p.last
  {
    RunBounded(b, p0, n);
    ParentsResolved(b, p0, n);
    ItemsSaved(b, p0, n);
    OwnersBounded(b, p0, Run(b, p0, n).value, n);
  }

  /** Kept items keep their owners and saved items belong to the batch's menu, so all owners stay within `last`. */
  lemma {:induction false} OwnersBounded(b: Batch, p0: Progress, p: Progress, n: nat)
    requires n <= |b.items| && Extends(p0, p, n) && b.menuId <= p0.last
    requires forall x :: x in p0.items ==> x.owner <= p0.last
    requires forall k :: 0 <= k < n ==> ItemSaved(b, p0, p, k)
    ensures forall x :: x in p.items ==> x.owner <= p.last
  {
    forall x | x in p.items
      ensures x.owner <= p.last
    {
      var i :| 0 <= i < |p.items| && p.items[i] == x;
      if i < |p0.items| {
        assert x == p.items[..|p0.items|][i];
      } else {
        assert ItemSaved(b, p0, p, i - |p0.items|);
      }
    }
  }

  /** The plan and the loop's final state of a save that commits. */
  function Committed(db: MenuDb, modules: seq<Module>, images: seq<Image>, moduleId: nat, form: Form,
                   instanceId: nat, submitted: Option<Json>, v: Version): (r: (Plan, Progress))
    requires SaveSpec(db, modules, images, moduleId, form, instanceId, submitted, v).0.SavedMenu?
    ensures PlanSave(db, modules, images, moduleId, form, instanceId, submitted, v) == Some(r.0) && Run(r.0.batch, r.0.start, ItemCount(form)) == Some(r.1)
  {
    var pl := PlanSave(db, modules, images, moduleId, form, instanceId, submitted, v).value;
    (pl, Run(pl.batch, pl.start, ItemCount(form)).value)
  }

  /**
   * A committed save deletes the menu's items and the instance's extended
   * rows, keeps every other row in table order, and appends one item and
   * one extended row per titled form entry, in form order, each written
   * from its fields with its parent resolved.
   */
  lemma {:induction false} SavedItems(db: MenuDb, modules: seq<Module>, images: seq<Image>, moduleId: nat, form: Form,
                   instanceId: nat, submitted: Option<Json>, v: Version)
    requires Valid(db)
    requires SaveSpec(db, modules, images, moduleId, form, instanceId, submitted, v).0.SavedMenu?
    ensures var (pl, p) := Committed(db, modules, images, moduleId, form, instanceId, submitted, v);
      var db2 := SaveSpec(db, modules, images, moduleId, form, instanceId, submitted, v).1;
      var n := ItemCount(form);
      db2.items == p.items && db2.exts == p.exts && pl.batch.items == FormItems(form)
      && pl.start.items == Disown(db.items, pl.row.data.menuId) && pl.start.exts == Disown(db.exts, pl.row.id)
      && pl.batch.menuId == pl.row.data.menuId && pl.batch.inst == pl.row.id
      && Extends(pl.start, p, n)
      && (forall k :: 0 <= k < n ==> ItemSaved(pl.batch, pl.start, p, k) && ParentResolved(pl.batch, pl.start, p, k))
  {
    PlanShape(db, modules, images, moduleId, form, instanceId, submitted, v);
    var (pl, p) := Committed(db, modules, images, moduleId, form, instanceId, submitted, v);
    var n := ItemCount(form);
    StartValid(db, pl.start, pl.batch.menuId, pl.row.id);
    ItemsSaved(pl.batch, pl.start, n);
    ParentsResolved(pl.batch, pl.start, n);
  }

  /**
   * A committed save leaves the instance's first menu instance configured
   * from the form, and the only main menu when the form marks it main.
   */
  lemma {:induction false} SavedInstance(db: MenuDb, modules: seq<Module>, images: seq<Image>, moduleId: nat, form: Form,
                   instanceId: nat, submitted: Option<Json>, v: Version)
    requires Valid(db)
    requires SaveSpec(db, modules, images, moduleId, form, instanceId, submitted, v).0.SavedMenu?
    ensures var (pl, p) := Committed(db, modules, images, moduleId, form, instanceId, submitted, v);
      var (res, db2) := SaveSpec(db, modules, images, moduleId, form, instanceId, submitted, v);
      RowsSettled(db2.menuInstances, pl.row, res.instanceId, form)
      && FindInstance(db2.instances, res.instanceId).Some?
      && FindInstance(db2.instances, res.instanceId).value.moduleId == res.moduleId
  {
    PlanShape(db, modules, images, moduleId, form, instanceId, submitted, v);
    ModuleInstanceSpec(db.instances, modules, moduleId, instanceId, form, submitted, db.lastId);
  }

  /**
   * As written: a target missing from the form is copied from an earlier
   * item of the same save with the same title, or left empty; the targets
   * the instance held before the save are never consulted.
   */
  lemma {:induction false} TargetsAsWritten(db: MenuDb, modules: seq<Module>, images: seq<Image>, moduleId: nat, form: Form,
                         instanceId: nat, submitted: Option<Json>)
    requires Valid(db)
    requires SaveSpec(db, modules, images, moduleId, form, instanceId, submitted, AsWritten).0.SavedMenu?
    ensures var (pl, p) := Committed(db, modules, images, moduleId, form, instanceId, submitted, AsWritten);
      Extends(pl.start, p, ItemCount(form))
      && forall k :: 0 <= k < ItemCount(form) ==> TargetRecovered(pl.batch, pl.start, p, k)
  {
    PlanShape(db, modules, images, moduleId, form, instanceId, submitted, AsWritten);
    var (pl, p) := Committed(db, modules, images, moduleId, form, instanceId, submitted, AsWritten);
    StartValid(db, pl.start, pl.batch.menuId, pl.row.id);
    TargetsRecovered(pl.batch, pl.start, ItemCount(form));
  }

  /** Each submitted item's target: the form's, or the one `es` holds for an item of the same title. */
  predicate TargetsFrom(fs: seq<ItemFields>, p0: Progress, p: Progress, es: seq<Entry>)
    requires |p0.exts| + |fs| <= |p.exts|
  {
    forall k :: 0 <= k < |fs| ==>
      p.exts[|p0.exts| + k].data.targetId
      == if fs[k].target.Some? then fs[k].target else TargetOf(FirstTitled(es, fs[k].title))
  }

  /**
   * Corrected: a target missing from the form is the one the instance's
   * item of the same title held before the save.
   */
  lemma {:induction false} TargetsCorrected(db: MenuDb, modules: seq<Module>, images: seq<Image>, moduleId: nat, form: Form,
                         instanceId: nat, submitted: Option<Json>)
    requires SaveSpec(db, modules, images, moduleId, form, instanceId, submitted, Corrected).0.SavedMenu?
    ensures var (pl, p) := Committed(db, modules, images, moduleId, form, instanceId, submitted, Corrected);
      Extends(pl.start, p, ItemCount(form)) && |FormItems(form)| == ItemCount(form)
      && TargetsFrom(FormItems(form), pl.start, p, Joined(db.exts, db.items, pl.row.id))
  {
    var (pl, p) := Committed(db, modules, images, moduleId, form, instanceId, submitted, Corrected);
    PlanBatch(db, modules, images, moduleId, form, instanceId, submitted, Corrected);
    KeptFrom(pl.batch, pl.start, p, FormItems(form), Joined(db.exts, db.items, pl.row.id));
  }

  /** `TargetsKept` restated for a loop run whose batch and lookup are named. */
  lemma {:induction false} KeptFrom(b: Batch, p0: Progress, p: Progress, fs: seq<ItemFields>, es: seq<Entry>)
    requires b.items == fs && b.rec == Previous(es) && Run(b, p0, |fs|) == Some(p)
    ensures Extends(p0, p, |fs|) && TargetsFrom(fs, p0, p, es)
  {
    TargetsKept(b, p0, |fs|);
  }

  /** What the plan hands the item loop, read off the stages. */
  lemma {:induction false} PlanBatch(db: MenuDb, modules: seq<Module>, images: seq<Image>, moduleId: nat, form: Form,
                  instanceId: nat, submitted: Option<Json>, v: Version)
    requires PlanSave(db, modules, images, moduleId, form, instanceId, submitted, v).Some?
    ensures var pl := PlanSave(db, modules, images, moduleId, form, instanceId, submitted, v).value;
      pl.batch.items == FormItems(form) && pl.batch.images == images
      && pl.batch.inst == pl.row.id && pl.batch.menuId == pl.row.data.menuId
      && pl.batch.rec == (if v == AsWritten then Current else Previous(Joined(db.exts, db.items, pl.row.id)))
  {
  }

  // ---------------------------------------------------------------------
  // The two defects of `save_instance`

  /** A site with one menu module instance whose menu has one item, before a second menu instance is saved. */
  function SharedSite(): MenuDb
  {
    MenuDb([Instance(1, 1, "menu", Dumps(EmptyObject), "default", None)],
           [Menu(2, DefaultMenuName)],
           [Row(3, 1, DefaultInstance(2))],
           [Row(4, 2, MenuItem("Home", "/", None, 0))],
           [Row(5, 3, ItemExt(4, "custom", None, None, None, true, Some(""), Some(""), false, false, 0))],
           5)
  }

  /** The example site keeps the tables' invariants. */
  lemma {:induction false} SharedSiteValid()
    ensures Valid(SharedSite())
  {
    assert IdsUnique(SharedSite().menuInstances);
  }

  /**
   * As written, the new menu instance is bound to the first menu, which
   * another instance already shows; deleting that menu's items breaks the
   * other instance's extended rows, so saving a second menu module fails.
   */
  lemma {:induction false} SharedMenuFails()
    ensures SaveSpec(SharedSite(), [Module(1, "menu", "")], [], 1, [], 0, None, AsWritten).0 == SaveFailed
  {
    var db := SharedSite();
    var f := ModuleInstanceFor(db.instances, [Module(1, "menu", "")], 1, 0, [], None, db.lastId).value;
    assert f.id == 6 && f.last == 6;
    var b := MenuInstanceFor(db.menus, db.menuInstances, 6, 6, AsWritten);
    assert b.row == Row(7, 6, DefaultInstance(2));
    assert Disown(db.exts, 7) == db.exts;
    assert Blocked(db.items, db.exts, 2) by {
      assert db.exts[0] in db.exts && db.items[0] in db.items;
    }
  }

  /** Corrected, the same save gives the new instance a menu of its own and commits. */
  lemma {:induction false} SharedMenuCorrected()
    ensures SaveSpec(SharedSite(), [Module(1, "menu", "")], [], 1, [], 0, None, Corrected).0 == SavedMenu(1, 6)
  {
    var db := SharedSite();
    var f := ModuleInstanceFor(db.instances, [Module(1, "menu", "")], 1, 0, [], None, db.lastId).value;
    assert f.id == 6 && f.last == 6;
    var c := MenuInstanceFor(db.menus, db.menuInstances, 6, 6, Corrected);
    assert c.row == Row(8, 6, DefaultInstance(7));
    UnblockedFresh(db.items, Disown(db.exts, 8), 5, 7);
    assert ItemCount([]) == 0 by {
      assert !Titled([], 0);
    }
  }

  /** A menu numbered above every item's owner has no items, so nothing blocks deleting them. */
  lemma {:induction false} UnblockedFresh(items: seq<Row<MenuItem>>, exts: seq<Row<ItemExt>>, last: nat, menuId: nat)
    requires (forall y :: y in items ==> y.owner <= last) && last < menuId
    ensures !Blocked(items, exts, menuId)
  {
  }

  /**
   * Corrected, a menu instance created by the save has a menu of its own,
   * numbered above every id in the tables, so the delete of its old items
   * is never blocked: the plan fails only where the module instance or the
   * depth setting fails.
   */
  lemma {:induction false} FreshMenuUnblocked(db: MenuDb, modules: seq<Module>, images: seq<Image>, moduleId: nat, form: Form,
                           instanceId: nat, submitted: Option<Json>)
    requires Valid(db)
    requires ModuleInstanceFor(db.instances, modules, moduleId, instanceId, form, submitted, db.lastId).Some?
    requires FirstOwned(db.menuInstances,
                        ModuleInstanceFor(db.instances, modules, moduleId, instanceId, form, submitted, db.lastId).value.id).None?
    ensures PlanSave(db, modules, images, moduleId, form, instanceId, submitted, Corrected).Some?
            <==> IntGet(Get(form, "max_depth"), 3).Some?
  {
    ModuleInstanceSpec(db.instances, modules, moduleId, instanceId, form, submitted, db.lastId);
    var f := ModuleInstanceFor(db.instances, modules, moduleId, instanceId, form, submitted, db.lastId).value;
    MenuInstanceSpec(db.menus, db.menuInstances, f.id, f.last, Corrected);
    var b := MenuInstanceFor(db.menus, db.menuInstances, f.id, f.last, Corrected);
    assert db.lastId <= f.last < b.row.data.menuId;
    UnblockedFresh(db.items, Disown(db.exts, b.row.id), db.lastId, b.row.data.menuId);
    PlanSaveUnblocked(db, modules, images, moduleId, form, instanceId, submitted, Corrected, f, b);
  }

  /** With the module instance found and its delete unblocked, the plan fails only where the depth setting does. */
  lemma {:induction false} PlanSaveUnblocked(db: MenuDb, modules: seq<Module>, images: seq<Image>, moduleId: nat, form: Form,
                                             instanceId: nat, submitted: Option<Json>, v: Version, f: Found, b: Bound)
    requires ModuleInstanceFor(db.instances, modules, moduleId, instanceId, form, submitted, db.lastId) == Some(f)
    requires b == MenuInstanceFor(db.menus, db.menuInstances, f.id, f.last, v)
    requires !Blocked(db.items, Disown(db.exts, b.row.id), b.row.data.menuId)
    ensures PlanSave(db, modules, images, moduleId, form, instanceId, submitted, v).Some?
            <==> IntGet(Get(form, "max_depth"), 3).Some?
  {
  }

  /** One item titled "Home" with no target in the form, saved into instance 3 of menu 2. */
  function HomeBatch(rec: Recovery): Batch
  {
    Batch([ItemFields("Home", "page", "", None, None, None, "", "", Some(0), None)], 2, 3, rec, [])
  }

  /** The instance's "Home" entry before the save, pointing at page 9. */
  function HomeBefore(): Entry
  {
    (Row(5, 3, ItemExt(4, "page", Some(9), None, None, true, Some(""), Some(""), false, false, 0)),
     Row(4, 2, MenuItem("Home", "/", None, 0)))
  }

  /**
   * As written, re-saving the menu with the "Home" item's target left out
   * of the form loses the page it pointed at; corrected, the target is the
   * one the item held before.
   */
  lemma {:induction false} LostTargetExample()
    ensures Run(HomeBatch(Current), Progress([], [], 5, []), 1).Some?
    ensures Run(HomeBatch(Current), Progress([], [], 5, []), 1).value.exts[0].data.targetId == None
    ensures Run(HomeBatch(Previous([HomeBefore()])), Progress([], [], 5, []), 1).Some?
    ensures Run(HomeBatch(Previous([HomeBefore()])), Progress([], [], 5, []), 1).value.exts[0].data.targetId == Some(9)
  {
    var p0 := Progress([], [], 5, []);
    assert !Rejected(HomeBatch(Current).items[0], []);
    assert Run(HomeBatch(Current), p0, 0) == Some(p0);
    assert Run(HomeBatch(Previous([HomeBefore()])), p0, 0) == Some(p0);
    assert Joined([], [Row(6, 2, MenuItem("Home", "", None, 0))], 3) == [];
  }
}
