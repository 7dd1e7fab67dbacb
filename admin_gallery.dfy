// The gallery editor of the admin (app/admin/modules/gallery.py). Saving
// writes the instance settings and the gallery row, deletes the gallery's
// old items and commits; then one item per `images[idx][field]` record
// that names an image is added and committed. A malformed name fails the
// request after the first commit. Also the data the editor loads and the
// delete.

module AdminGallery {
  import opened Common
  import opened Json
  import opened Layout
  import opened Registry
  import opened ModuleForms
  import opened Tables

  /** The columns of a `gallery_instances` row; the title column is NOT NULL. */
  datatype Gallery = Gallery(title: string, description: string)

  /** The columns of a `gallery_items` row. */
  datatype Item = Item(imageId: int, caption: string)

  /** The tables the editor touches; `lastId` is the largest id handed out so far. */
  datatype GalleryDb = GalleryDb(instances: seq<Instance>, galleries: seq<Row<Gallery>>, items: seq<Row<Item>>,
                                 lastId: nat)

  /** Ids and references lie at or below `lastId`, so a new id owns nothing yet. */
  predicate Valid(db: GalleryDb)
  {
    (forall i :: i in db.instances ==> i.id <= db.lastId)
    && (forall g :: g in db.galleries ==> g.id <= db.lastId && g.owner <= db.lastId)
    && (forall t :: t in db.items ==> t.id <= db.lastId && t.owner <= db.lastId)
  }

  /** The column default of `gallery_instances.title`, taken by a new row given no title. */
  const DefaultTitle: string := "Моя галерея"
  const SavedFlash: Flash := Flash("success", "Галерея сохранена!")
  const DeletedFlash: Flash := Flash("success", "Экземпляр галереи успешно удалён.")

  // ---------------------------------------------------------------------
  // Settings and rows built from the form

  /** The settings dict, the same on create and update: the title as `name` (null when absent). */
  function Settings(form: Form): (r: Json)
    ensures r.JObj? && Member(r, "name") == Some(if Get(form, "title").Some? then JStr(Get(form, "title").value) else JNull)
  {
    JObj([("name", if Get(form, "title").Some? then JStr(Get(form, "title").value) else JNull)])
  }

  /**
   * The gallery row's columns: the submitted title, the description ""
   * when empty. An INSERT leaves out a title that is None, so a new row
   * takes the column default; an UPDATE writes NULL, which the NOT NULL
   * column refuses at the commit (None).
   */
  function GalleryOf(form: Form, isNew: bool): (g: Option<Gallery>)
    ensures g.None? <==> !isNew && Get(form, "title").None?
    ensures g.Some? && Get(form, "title").None? ==> g.value.title == DefaultTitle
    ensures g.Some? && Get(form, "title").Some? ==> g.value.title == Get(form, "title").value
    ensures g.Some? ==> g.value.description == OrEmpty(Get(form, "description"))
  {
    if !isNew && Get(form, "title").None? then None
    else Some(Gallery(GetOr(form, "title", DefaultTitle), OrEmpty(Get(form, "description"))))
  }

  /** A record names an image: its `image_id` parses to a non-zero number. */
  predicate Kept(rec: Form)
  {
    ImageId(rec, "image_id").Some? && ImageId(rec, "image_id").value != 0
  }

  /** The item a kept record becomes; the caption defaults to "". */
  function ItemOf(rec: Form): Item
    requires Kept(rec)
  {
    Item(ImageId(rec, "image_id").value, GetOr(rec, "caption", ""))
  }

  /** The items the loop adds: one per kept record, in record order. */
  function GalleryItems(rs: Records<string>): seq<Item>
  {
    if rs == [] then []
    else
      var rec := rs[|rs| - 1].1;
      GalleryItems(rs[..|rs| - 1]) + (if Kept(rec) then [ItemOf(rec)] else [])
  }

  /**
   * Every item comes from a record whose image id is a non-zero number, and
   * every such record gives its item.
   */
  lemma {:induction false} GalleryItemsSpec(rs: Records<string>)
    ensures |GalleryItems(rs)| <= |rs|
    ensures forall it :: it in GalleryItems(rs) ==>
      it.imageId != 0 && exists j :: 0 <= j < |rs| && Kept(rs[j].1) && it == ItemOf(rs[j].1)
    ensures forall j :: 0 <= j < |rs| && Kept(rs[j].1) ==> ItemOf(rs[j].1) in GalleryItems(rs)
  {
    forall it | it in GalleryItems(rs)
      ensures it.imageId != 0 && exists j :: 0 <= j < |rs| && Kept(rs[j].1) && it == ItemOf(rs[j].1)
    {
      var j := ItemSource(rs, it);
    }
    forall j | 0 <= j < |rs| && Kept(rs[j].1)
      ensures ItemOf(rs[j].1) in GalleryItems(rs)
    {
      ItemKept(rs, j);
    }
    GalleryItemsLength(rs);
  }

  lemma {:induction false} GalleryItemsLength(rs: Records<string>)
    ensures |GalleryItems(rs)| <= |rs|
  {
    if rs != [] {
      GalleryItemsLength(rs[..|rs| - 1]);
    }
  }

  /** The record an item comes from. */
  lemma {:induction false} ItemSource(rs: Records<string>, it: Item) returns (j: nat)
    requires it in GalleryItems(rs)
    ensures j < |rs| && Kept(rs[j].1) && it == ItemOf(rs[j].1) && it.imageId != 0
  {
    var init := rs[..|rs| - 1];
    if it in GalleryItems(init) {
      j := ItemSource(init, it);
      assert rs[j] == init[j];
    } else {
      j := |rs| - 1;
    }
  }

  /** A kept record's item is among the items. */
  lemma {:induction false} ItemKept(rs: Records<string>, j: nat)
    requires j < |rs| && Kept(rs[j].1)
    ensures ItemOf(rs[j].1) in GalleryItems(rs)
  {
    var init := rs[..|rs| - 1];
    if j < |init| {
      ItemKept(init, j);
      assert rs[j] == init[j];
    }
  }

  /** The item loop: one new row per kept record, numbered on from `last`. */
  method MakeItems(gid: nat, last: nat, rs: Records<string>) returns (rows: seq<Row<Item>>)
    ensures rows == NewRows(gid, last, GalleryItems(rs))
  {
    rows := [];
    var j := 0;
    while j < |rs|
      invariant 0 <= j <= |rs|
      invariant rows == NewRows(gid, last, GalleryItems(rs[..j]))
    {
      var rec := rs[j].1;
      assert rs[..j + 1][..j] == rs[..j];
      if Kept(rec) {
        NewRowsAppend(gid, last, GalleryItems(rs[..j]), ItemOf(rec));
        rows := rows + [Row(last + 1 + |rows|, gid, ItemOf(rec))];
      }
      j := j + 1;
    }
    assert rs[..|rs|] == rs;
  }

  // ---------------------------------------------------------------------
  // Saving

  /**
   * The first phase, committed at line 43: the instance, the gallery row
   * (the instance's first, or a new one) holding `g` and, for an existing
   * row, its old items deleted. Gives the tables and the gallery id.
   */
  function Prepare(db: GalleryDb, instances: seq<Instance>, iid: nat, last: nat, g: Gallery): (GalleryDb, nat)
  {
    var found := FirstOwned(db.galleries, iid).Some?;
    var placed := FirstOrCreate(db.galleries, iid, last, g);
    var items := if found then Disown(db.items, placed.1) else db.items;
    (GalleryDb(instances, placed.0, items, placed.2), placed.1)
  }

  /**
   * The second phase: the items, one per kept record. Where a name under
   * `images[` lacks its index or field the request fails and the first
   * phase's tables stay.
   */
  function Fill(db1: GalleryDb, iid: nat, gid: nat, form: Form): (SaveResult, GalleryDb)
  {
    match GroupFields(Items(form), "images[", false)
    case None => (Crashed, db1)
    case Some(rs) =>
      var added := GalleryItems(rs);
      (Saved(iid, SavedFlash), db1.(items := db1.items + NewRows(gid, db1.lastId, added), lastId := db1.lastId + |added|))
  }

  /**
   * `save_instance(module_id, form, instance_id)` (instance id 0 when none
   * is given): the result and the tables afterwards. An existing gallery
   * saved without a title fails the first commit, and nothing is written.
   */
  function SaveSpec(db: GalleryDb, modules: seq<Module>, moduleId: nat, form: Form, instanceId: nat): (SaveResult, GalleryDb)
  {
    if moduleId == 0 then (MissingModuleId(MissingModuleFlash), db)
    else match Upsert(db.instances, modules, moduleId, instanceId, db.lastId, Settings(form), Settings(form))
      case None => (Crashed, db)
      case Some((instances, iid, last)) =>
        match GalleryOf(form, FirstOwned(db.galleries, iid).None?)
        case None => (Crashed, db)
        case Some(g) =>
          var (db1, gid) := Prepare(db, instances, iid, last, g);
          Fill(db1, iid, gid, form)
  }

  /** The second phase over locals: the grouping loop, then the item loop. */
  method FillTables(db1: GalleryDb, iid: nat, gid: nat, form: Form) returns (res: SaveResult, db2: GalleryDb)
    ensures res == Fill(db1, iid, gid, form).0
    ensures db2 == Fill(db1, iid, gid, form).1
  {
    db2 := db1;
    var grouped := GroupForm(Items(form), "images[", false);
    if grouped.None? {
      return Crashed, db2;
    }
    var added := MakeItems(gid, db1.lastId, grouped.value);
    db2 := db1.(items := db1.items + added, lastId := db1.lastId + |added|);
    res := Saved(iid, SavedFlash);
  }

  /** What the first phase commits: the gallery row written, and no items left on it. */
  lemma {:induction false} PrepareSpec(db: GalleryDb, instances: seq<Instance>, iid: nat, last: nat, g: Gallery)
    requires Valid(db) && last >= db.lastId && iid <= last
    requires forall i :: i in instances ==> i.id <= last
    ensures var (db1, gid) := Prepare(db, instances, iid, last, g);
      Valid(db1) && db1.instances == instances
      && FirstOwned(db1.galleries, iid) == Some(Row(gid, iid, g))
      && (forall t :: t in db1.items ==> t.owner != gid)
      && (forall t :: t in db.items && t.owner != gid ==> t in db1.items)
  {
    FirstOrCreateSpec(db.galleries, iid, last, g);
  }

  /** What the second phase adds when it reaches the commit: the gallery's items are exactly the new ones. */
  lemma {:induction false} FillSpec(db1: GalleryDb, iid: nat, gid: nat, form: Form)
    requires Valid(db1) && gid <= db1.lastId
    requires forall t :: t in db1.items ==> t.owner != gid
    requires Fill(db1, iid, gid, form).0.Saved?
    ensures var (res, db2) := Fill(db1, iid, gid, form);
      var added := GalleryItems(GroupFields(Items(form), "images[", false).value);
      res.instanceId == iid && Valid(db2) && db2.instances == db1.instances && db2.galleries == db1.galleries
      && Owned(db2.items, gid) == NewRows(gid, db1.lastId, added)
      && (forall t :: t in db1.items ==> t in db2.items)
  {
    var added := GalleryItems(GroupFields(Items(form), "images[", false).value);
    OwnedAppendNew(db1.items, gid, db1.lastId, added);
    var db2 := Fill(db1, iid, gid, form).1;
    forall t | t in db2.items
      ensures t.id <= db2.lastId && t.owner <= db2.lastId
    {
      if t !in db1.items {
        var k :| 0 <= k < |added| && NewRows(gid, db1.lastId, added)[k] == t;
        NewRowsAt(gid, db1.lastId, added, k);
      }
    }
  }

  /**
   * How a save ends: a new instance naming a missing module, or an
   * existing gallery saved without a title, fails the first commit and
   * nothing is written; otherwise it fails exactly where a name under
   * `images[` is malformed, and then the first phase stays: the gallery
   * row is written and has no items.
   */
  lemma {:induction false} SaveOutcome(db: GalleryDb, modules: seq<Module>, moduleId: nat, form: Form, instanceId: nat)
    requires Valid(db) && moduleId != 0
    ensures var (res, db2) := SaveSpec(db, modules, moduleId, form, instanceId);
      var existing := instanceId != 0 && FindInstance(db.instances, instanceId).Some?;
      var iid := if existing then instanceId else db.lastId + 1;
      var untitled := existing && FirstOwned(db.galleries, instanceId).Some? && Get(form, "title").None?;
      ((!existing && FindModule(modules, moduleId).None?) || untitled ==> res.Crashed? && db2 == db)
      && ((existing || FindModule(modules, moduleId).Some?) && !untitled ==>
            (res.Crashed? <==> GroupFields(Items(form), "images[", false).None?)
            && FindInstance(db2.instances, iid).Some?
            && FirstOwned(db2.galleries, iid).Some?
            && (res.Crashed? ==> Owned(db2.items, FirstOwned(db2.galleries, iid).value.id) == []))
  {
    var s := Settings(form);
    UpsertSpec(db.instances, modules, moduleId, instanceId, db.lastId, s, s);
    if Upsert(db.instances, modules, moduleId, instanceId, db.lastId, s, s).Some? {
      var (instances, iid, last) := Upsert(db.instances, modules, moduleId, instanceId, db.lastId, s, s).value;
      assert FindInstance(instances, iid).value in instances;
      var g := GalleryOf(form, FirstOwned(db.galleries, iid).None?);
      if g.Some? {
        SaveSpecPhases(db, modules, moduleId, form, instanceId, instances, iid, last, g.value);
        PhasesOutcome(db, instances, iid, last, g.value, form);
      }
    }
  }

  /** Once the instance is written and the gallery row has its columns, a save is its two phases in turn. */
  lemma {:induction false} SaveSpecPhases(db: GalleryDb, modules: seq<Module>, moduleId: nat, form: Form, instanceId: nat,
                                          instances: seq<Instance>, iid: nat, last: nat, g: Gallery)
    requires moduleId != 0
    requires Upsert(db.instances, modules, moduleId, instanceId, db.lastId, Settings(form), Settings(form)) == Some((instances, iid, last))
    requires GalleryOf(form, FirstOwned(db.galleries, iid).None?) == Some(g)
    ensures SaveSpec(db, modules, moduleId, form, instanceId)
            == Fill(Prepare(db, instances, iid, last, g).0, iid, Prepare(db, instances, iid, last, g).1, form)
  {
  }

  /**
   * The body of `save_instance` on the tables as values: the tables after
   * the first commit, and after the second, which writes only items.
   */
  method SavePhases(db: GalleryDb, modules: seq<Module>, moduleId: nat, form: Form, instanceId: nat)
    returns (res: SaveResult, db1: GalleryDb, db2: GalleryDb)
    ensures res == SaveSpec(db, modules, moduleId, form, instanceId).0
    ensures db2 == SaveSpec(db, modules, moduleId, form, instanceId).1
    ensures db2 == db1.(items := db2.items, lastId := db2.lastId)
  {
    if moduleId == 0 {
      return MissingModuleId(MissingModuleFlash), db, db;
    }
    var upserted := Upsert(db.instances, modules, moduleId, instanceId, db.lastId, Settings(form), Settings(form));
    if upserted.None? {
      return Crashed, db, db;
    }
    var (instances1, iid, last) := upserted.value;
    var gallery := GalleryOf(form, FirstOwned(db.galleries, iid).None?);
    if gallery.None? {
      return Crashed, db, db;
    }
    SaveSpecPhases(db, modules, moduleId, form, instanceId, instances1, iid, last, gallery.value);
    var gid;
    db1, gid := Prepare(db, instances1, iid, last, gallery.value).0, Prepare(db, instances1, iid, last, gallery.value).1;
    res, db2 := FillTables(db1, iid, gid, form);
  }

  /** The two phases after the instance is written: the gallery row stays, and a failed second phase leaves it no items. */
  lemma {:induction false} PhasesOutcome(db: GalleryDb, instances: seq<Instance>, iid: nat, last: nat, g: Gallery, form: Form)
    requires Valid(db) && last >= db.lastId && iid <= last
    requires forall i :: i in instances ==> i.id <= last
    requires FindInstance(instances, iid).Some?
    ensures var (db1, gid) := Prepare(db, instances, iid, last, g);
      var (res, db2) := Fill(db1, iid, gid, form);
      (res.Crashed? <==> GroupFields(Items(form), "images[", false).None?)
      && FindInstance(db2.instances, iid).Some?
      && FirstOwned(db2.galleries, iid).Some?
      && (res.Crashed? ==> Owned(db2.items, FirstOwned(db2.galleries, iid).value.id) == [])
  {
    PrepareSpec(db, instances, iid, last, g);
    var (db1, gid) := Prepare(db, instances, iid, last, g);
    if Owned(db1.items, gid) != [] {
      assert Owned(db1.items, gid)[0] in Owned(db1.items, gid);
    }
  }

  /**
   * After a save that succeeds: the instance holds the new settings, its
   * gallery row the submitted title (the default for a new row given
   * none) and description, and the gallery's items are exactly one per
   * record naming an image, in record order. Other galleries keep their
   * items, and the tables stay valid.
   */
  lemma {:induction false} SavedState(db: GalleryDb, modules: seq<Module>, moduleId: nat, form: Form, instanceId: nat)
    requires Valid(db)
    requires SaveSpec(db, modules, moduleId, form, instanceId).0.Saved?
    ensures var (res, db2) := SaveSpec(db, modules, moduleId, form, instanceId);
      var added := GalleryItems(GroupFields(Items(form), "images[", false).value);
      Valid(db2)
      && FindInstance(db2.instances, res.instanceId).Some?
      && FindInstance(db2.instances, res.instanceId).value.settings == Dumps(Settings(form))
      && FirstOwned(db2.galleries, res.instanceId).Some?
      && var g := FirstOwned(db2.galleries, res.instanceId).value;
         g.data.title == GetOr(form, "title", DefaultTitle)
         && g.data.description == OrEmpty(Get(form, "description"))
         && |Owned(db2.items, g.id)| == |added|
         && (forall j :: 0 <= j < |added| ==> Owned(db2.items, g.id)[j].data == added[j])
         && (forall t :: t in db.items && t.owner != g.id ==> t in db2.items)
  {
    var s := Settings(form);
    UpsertSpec(db.instances, modules, moduleId, instanceId, db.lastId, s, s);
    var (instances, iid, last) := Upsert(db.instances, modules, moduleId, instanceId, db.lastId, s, s).value;
    assert FindInstance(instances, iid).value in instances;
    var gal := GalleryOf(form, FirstOwned(db.galleries, iid).None?).value;
    PrepareSpec(db, instances, iid, last, gal);
    var (db1, gid) := Prepare(db, instances, iid, last, gal);
    FillSpec(db1, iid, gid, form);
    var added := GalleryItems(GroupFields(Items(form), "images[", false).value);
    forall j | 0 <= j < |added|
      ensures NewRows(gid, db1.lastId, added)[j].data == added[j]
    {
      NewRowsAt(gid, db1.lastId, added, j);
    }
  }

  // ---------------------------------------------------------------------
  // Load and delete

  /**
   * `load_instance_data(instance_id)`: with no id, no instance, no gallery
   * and no items; otherwise the instance (a 404, None, when it does not
   * exist), its first gallery row and that gallery's items.
   */
  function LoadInstanceData(instanceId: nat, db: GalleryDb): (r: Option<map<string, Json>>)
    ensures instanceId == 0 ==> r == Some(map["module_instance" := JNull, "gallery" := JNull, "items" := JArr([])])
    ensures instanceId != 0 ==> (r.None? <==> FindInstance(db.instances, instanceId).None?)
    ensures r.Some? ==> r.value.Keys == {"module_instance", "gallery", "items"}
    ensures r.Some? && instanceId != 0 ==>
      r.value["module_instance"] == JInt(instanceId)
      && r.value["gallery"] == Ref(FirstOwned(db.galleries, instanceId))
      && (FirstOwned(db.galleries, instanceId).None? ==> r.value["items"] == JArr([]))
  {
    if instanceId == 0 then Some(map["module_instance" := JNull, "gallery" := JNull, "items" := JArr([])])
    else if FindInstance(db.instances, instanceId).None? then None
    else
      var gallery := FirstOwned(db.galleries, instanceId);
      Some(map["module_instance" := JInt(instanceId),
               "gallery" := Ref(gallery),
               "items" := JArr(if gallery.Some? then RowIds(Owned(db.items, gallery.value.id)) else [])])
  }

  /** A saved gallery loads with one item per record that named an image. */
  lemma {:induction false} SaveThenLoad(db: GalleryDb, modules: seq<Module>, moduleId: nat, form: Form, instanceId: nat)
    requires Valid(db)
    requires SaveSpec(db, modules, moduleId, form, instanceId).0.Saved?
    ensures var (res, db2) := SaveSpec(db, modules, moduleId, form, instanceId);
      var r := LoadInstanceData(res.instanceId, db2);
      r.Some? && r.value["gallery"] != JNull
      && r.value["items"] == JArr(RowIds(Owned(db2.items, FirstOwned(db2.galleries, res.instanceId).value.id)))
      && |r.value["items"].items| == |GalleryItems(GroupFields(Items(form), "images[", false).value)|
  {
    SavedState(db, modules, moduleId, form, instanceId);
    var s := Settings(form);
    UpsertSpec(db.instances, modules, moduleId, instanceId, db.lastId, s, s);
  }

  /** `del_instance` on an existing instance: its first gallery's items, that gallery and the instance go. */
  function Deleted(db: GalleryDb, instanceId: nat): GalleryDb
  {
    match FirstOwned(db.galleries, instanceId)
    case None => db.(instances := DropInstance(db.instances, instanceId))
    case Some(g) => GalleryDb(DropInstance(db.instances, instanceId), DropRow(db.galleries, g.id), Disown(db.items, g.id), db.lastId)
  }

  /** After the delete, loading the instance is a 404, its gallery has no items, and other instances stay. */
  lemma {:induction false} DeletedSpec(db: GalleryDb, instanceId: nat)
    requires instanceId != 0 && Valid(db)
    ensures var db2 := Deleted(db, instanceId);
      LoadInstanceData(instanceId, db2).None? && Valid(db2)
      && (forall i :: i in db.instances && i.id != instanceId ==> i in db2.instances)
      && (FirstOwned(db.galleries, instanceId).Some? ==>
            var g := FirstOwned(db.galleries, instanceId).value;
            g !in db2.galleries && Owned(db2.items, g.id) == [])
  {
    var db2 := Deleted(db, instanceId);
    if FirstOwned(db.galleries, instanceId).Some? {
      var g := FirstOwned(db.galleries, instanceId).value;
      if Owned(db2.items, g.id) != [] {
        assert Owned(db2.items, g.id)[0] in Owned(db2.items, g.id);
      }
    }
  }

  // ---------------------------------------------------------------------
  // The tables as the editor changes them

  class GalleryStore {
    const modules: seq<Module>
    var instances: seq<Instance>
    var galleries: seq<Row<Gallery>>
    var items: seq<Row<Item>>
    var lastId: nat
    /** The layout cells of pages and posts, which the deletion of an instance detaches. */
    const cells: LayoutCells

    function Db(): GalleryDb
      reads this
    {
      GalleryDb(instances, galleries, items, lastId)
    }

    constructor (modules: seq<Module>, db: GalleryDb, cells: LayoutCells)
      ensures this.modules == modules && Db() == db
      ensures this.cells == cells
    {
      this.cells := cells;
      this.modules := modules;
      instances := db.instances;
      galleries := db.galleries;
      items := db.items;
      lastId := db.lastId;
    }

    /** `save_instance`: the tables end as `SaveSpec` describes, phase by phase. */
    method SaveInstance(moduleId: nat, form: Form, instanceId: nat) returns (res: SaveResult)
      modifies this
      ensures res == SaveSpec(old(Db()), modules, moduleId, form, instanceId).0
      ensures Db() == SaveSpec(old(Db()), modules, moduleId, form, instanceId).1
    {
      var db1, db2;
      res, db1, db2 := SavePhases(Db(), modules, moduleId, form, instanceId);
      // the first commit
      instances, galleries, items, lastId := db1.instances, db1.galleries, db1.items, db1.lastId;
      // the second commit
      items, lastId := db2.items, db2.lastId;
    }

    /**
     * `del_instance`: an unknown instance gives an error message and changes
     * nothing; otherwise the tables end as `Deleted` describes, and with the
     * instance the layout cells that showed it are detached.
     */
    method DeleteInstance(instanceId: nat) returns (flash: Flash)
      modifies this, cells
      ensures FindInstance(old(instances), instanceId).None? ==> flash == NotFoundFlash && Db() == old(Db())
      ensures FindInstance(old(instances), instanceId).Some? ==>
        flash == DeletedFlash && Db() == Deleted(old(Db()), instanceId)
      ensures if flash == DeletedFlash then cells.Detached(instanceId) else cells.Unchanged()
    {
      if FindInstance(instances, instanceId).None? {
        return NotFoundFlash;
      }
      var gallery := FirstOwned(galleries, instanceId);
      if gallery.Some? {
        items := Disown(items, gallery.value.id);
        galleries := DropRow(galleries, gallery.value.id);
      }
      cells.DetachInstance(instanceId);
      instances := DropInstance(instances, instanceId);
      flash := DeletedFlash;
    }
  }
}
