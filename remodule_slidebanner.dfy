// The slide-banner editor of the remodule package
// (remodule/slidebanner/slidebanner.py). Saving writes the instance
// settings, then the banner row (the instance's first, or a new one) with
// its old cards deleted, and commits; a second phase groups the
// `banners[idx][field]` names and adds one card per index, then commits
// again. Also the data the editor and the storefront load, and the delete.

module RemoduleSlideBanner {
  import opened Common
  import opened Json
  import opened Layout
  import opened Registry
  import opened ModuleForms
  import opened Tables

  /** The columns of a `slidebanner_module_instances` row. */
  datatype SlideBanner = SlideBanner(title: string, cardsInRow: int)

  /** The columns of a `slidebanner_items` row. */
  datatype BannerItem = BannerItem(backgroundImageId: int, text: string, linkText: string, linkUrl: string)

  /** The tables the editor touches; `lastId` is the largest id handed out so far. */
  datatype SlideBannerDb = SlideBannerDb(instances: seq<Instance>, banners: seq<Row<SlideBanner>>,
                                         items: seq<Row<BannerItem>>, lastId: nat)

  /** Ids and references lie at or below `lastId`, so a new id owns nothing yet. */
  predicate Valid(db: SlideBannerDb)
  {
    (forall i :: i in db.instances ==> i.id <= db.lastId)
    && (forall b :: b in db.banners ==> b.id <= db.lastId && b.owner <= db.lastId)
    && (forall c :: c in db.items ==> c.id <= db.lastId && c.owner <= db.lastId)
  }

  const BannersPrefix := "banners["

  const SavedFlash: Flash := Flash("success", "Слайд-баннер сохранён!")
  const NoBannersFlash: Flash :=
    Flash("warning", "Предупреждение: баннеры не добавлены, сохранён только заголовок и настройки!")
  const DeletedFlash: Flash := Flash("success", "Экземпляр модуля успешно удалён.")

  // ---------------------------------------------------------------------
  // Settings and rows built from the form

  /**
   * The settings dict: the name ("" when missing), four checkboxes and the
   * scroll interval (5000 when missing). None where `int()` raises on a
   * submitted interval, before anything is written.
   */
  function Settings(form: Form): (r: Option<Json>)
    ensures r.None? <==> Get(form, "scroll_interval").Some? && ParseInt(Get(form, "scroll_interval").value).None?
  {
    match IntGet(Get(form, "scroll_interval"), 5000)
    case None => None
    case Some(interval) => Some(SettingsDict(form, interval))
  }

  /** The dict written for a given interval. */
  function SettingsDict(form: Form, interval: int): Json
  {
    JObj([("name", JStr(GetOr(form, "title", ""))),
          ("status", JBool(Flag(form, "status"))),
          ("show_arrows", JBool(Flag(form, "show_arrows"))),
          ("show_indicators", JBool(Flag(form, "show_indicators"))),
          ("auto_scroll", JBool(Flag(form, "auto_scroll"))),
          ("scroll_interval", JInt(interval))])
  }

  /**
   * What the stored settings say: the name is the title or "", each
   * checkbox is true iff its field is "on", and the interval is the
   * submitted number, or 5000 when none is submitted.
   */
  lemma {:induction false} SettingsFields(form: Form)
    requires Settings(form).Some?
    ensures Settings(form).value.JObj?
    ensures Member(Settings(form).value, "name") == Some(JStr(GetOr(form, "title", "")))
    ensures Member(Settings(form).value, "status") == Some(JBool(Get(form, "status") == Some("on")))
    ensures Member(Settings(form).value, "show_arrows") == Some(JBool(Get(form, "show_arrows") == Some("on")))
    ensures Member(Settings(form).value, "show_indicators") == Some(JBool(Get(form, "show_indicators") == Some("on")))
    ensures Member(Settings(form).value, "auto_scroll") == Some(JBool(Get(form, "auto_scroll") == Some("on")))
    ensures Get(form, "scroll_interval").None? ==> Member(Settings(form).value, "scroll_interval") == Some(JInt(5000))
    ensures Get(form, "scroll_interval").Some? ==>
      Member(Settings(form).value, "scroll_interval") == Some(JInt(ParseInt(Get(form, "scroll_interval").value).value))
  {
    var interval := IntGet(Get(form, "scroll_interval"), 5000).value;
    assert Settings(form) == Some(SettingsDict(form, interval));
    SettingsDictFields(form, interval);
  }

  lemma {:induction false} SettingsDictFields(form: Form, interval: int)
    ensures SettingsDict(form, interval).JObj?
    ensures Member(SettingsDict(form, interval), "name") == Some(JStr(GetOr(form, "title", "")))
    ensures Member(SettingsDict(form, interval), "status") == Some(JBool(Flag(form, "status")))
    ensures Member(SettingsDict(form, interval), "show_arrows") == Some(JBool(Flag(form, "show_arrows")))
    ensures Member(SettingsDict(form, interval), "show_indicators") == Some(JBool(Flag(form, "show_indicators")))
    ensures Member(SettingsDict(form, interval), "auto_scroll") == Some(JBool(Flag(form, "auto_scroll")))
    ensures Member(SettingsDict(form, interval), "scroll_interval") == Some(JInt(interval))
  {
    CarouselSettingsLookups(JStr(GetOr(form, "title", "")), JBool(Flag(form, "status")), JBool(Flag(form, "show_arrows")),
                    JBool(Flag(form, "show_indicators")), JBool(Flag(form, "auto_scroll")), JInt(interval));
  }

  /** The banner row's columns: the title ("" when missing) and the cards per row. */
  function BannerOf(form: Form, cardsInRow: int): SlideBanner
  {
    SlideBanner(GetOr(form, "title", ""), cardsInRow)
  }

  /** A card's background image: the submitted number, or 0 when it is missing or `int()` raises. */
  function BackgroundId(rec: Form): (n: int)
    ensures Get(rec, "background_image_id").Some? && ParseInt(Get(rec, "background_image_id").value).Some? ==>
      n == ParseInt(Get(rec, "background_image_id").value).value
    ensures Get(rec, "background_image_id").None? || ParseInt(Get(rec, "background_image_id").value).None? ==> n == 0
  {
    match IntGet(Get(rec, "background_image_id"), 0)
    case Some(n) => n
    case None => 0
  }

  /** The card a record becomes; the texts default to "". */
  function NewItem(rec: Form): BannerItem
  {
    BannerItem(BackgroundId(rec), GetOr(rec, "text", ""), GetOr(rec, "link_text", ""), GetOr(rec, "link_url", ""))
  }

  function BannerItems(rs: Records<string>): (r: seq<BannerItem>)
    ensures |r| == |rs| && forall j :: 0 <= j < |rs| ==> r[j] == NewItem(rs[j].1)
  {
    seq(|rs|, j requires 0 <= j < |rs| => NewItem(rs[j].1))
  }

  /** The form's card records; a `banners[` name with too few groups makes the loop raise (None). */
  function CardRecords(form: Form): Option<Records<string>>
  {
    GroupFields(Items(form), BannersPrefix, false)
  }

  /** The loop raises iff some `banners[` name lacks its index or field group. */
  lemma {:induction false} CardRecordsFail(form: Form)
    ensures CardRecords(form).None? <==> exists j :: 0 <= j < |Items(form)| && ModuleForms.Malformed(Items(form)[j].0, BannersPrefix)
  {
    var items := Items(form);
    GroupFieldsFails(items, BannersPrefix, false);
    assert GroupFields(items, BannersPrefix, false).None? <==> exists j :: 0 <= j < |items| && ModuleForms.Malformed(items[j].0, BannersPrefix);
  }

  /**
   * The warning flashed before the success message: "no banners" when the
   * form held no card record.
   */
  function Warnings(form: Form): seq<Flash>
  {
    if CardRecords(form) == Some([]) then [NoBannersFlash] else []
  }

  /** The warning is shown exactly when no submitted name starts with `banners[`. */
  lemma {:induction false} WarningsSpec(form: Form)
    requires CardRecords(form).Some?
    ensures Warnings(form) == [NoBannersFlash] <==>
      forall j :: 0 <= j < |Items(form)| ==> !StartsWith(Items(form)[j].0, BannersPrefix)
    ensures Warnings(form) != [NoBannersFlash] ==> Warnings(form) == []
  {
    var items := Items(form);
    var rs := CardRecords(form).value;
    GroupFieldsSpec(items, BannersPrefix, false);
    GroupFieldsFails(items, BannersPrefix, false);
    if rs == [] {
      forall j | 0 <= j < |items| ensures !StartsWith(items[j].0, BannersPrefix) {
        if StartsWith(items[j].0, BannersPrefix) {
          assert !ModuleForms.Malformed(items[j].0, BannersPrefix);
          var idx := Part(items[j].0, 1).value;
          assert Grouped(items[j].0, BannersPrefix, idx);
          assert HasIndex(items, BannersPrefix, idx);
        }
      }
    } else {
      assert RecordOf(rs, rs[0].0).Some?;
      var j :| 0 <= j < |items| && Grouped(items[j].0, BannersPrefix, rs[0].0);
      assert StartsWith(items[j].0, BannersPrefix);
    }
  }

  // ---------------------------------------------------------------------
  // Saving

  /**
   * The first phase, committed at line 63: the instance, the banner row
   * (the instance's first, or a new one) with its columns and, for an
   * existing row, its old cards deleted.
   */
  function Prepare(db: SlideBannerDb, instances: seq<Instance>, iid: nat, last: nat, banner: SlideBanner)
    : (SlideBannerDb, nat)
  {
    var found := FirstOwned(db.banners, iid).Some?;
    var placed := FirstOrCreate(db.banners, iid, last, banner);
    var items := if found then Disown(db.items, placed.1) else db.items;
    (SlideBannerDb(instances, placed.0, items, placed.2), placed.1)
  }

  /**
   * The second phase: one card per `banners[` index. A `banners[` name
   * with too few groups makes the request fail, and the first phase's
   * tables stay.
   */
  function Fill(db1: SlideBannerDb, iid: nat, owner: nat, form: Form): (SaveResult, SlideBannerDb)
  {
    match CardRecords(form)
    case None => (Crashed, db1)
    case Some(rs) =>
      (Saved(iid, SavedFlash),
       db1.(items := db1.items + NewRows(owner, db1.lastId, BannerItems(rs)), lastId := db1.lastId + |rs|))
  }

  /**
   * `save_instance(module_id, form, instance_id)` (instance id 0 when none
   * is given). A scroll interval or a cards-per-row value that `int()`
   * rejects fails the request before the first commit, so nothing is
   * written.
   */
  function SaveSpec(db: SlideBannerDb, modules: seq<Module>, moduleId: nat, form: Form, instanceId: nat)
    : (SaveResult, SlideBannerDb)
  {
    if moduleId == 0 then (MissingModuleId(MissingModuleFlash), db)
    else match Settings(form)
      case None => (Crashed, db)
      case Some(settings) =>
        match Upsert(db.instances, modules, moduleId, instanceId, db.lastId, settings, settings)
        case None => (Crashed, db)
        case Some((instances, iid, last)) =>
          match IntGet(Get(form, "cards_in_row"), 3)
          case None => (Crashed, db)
          case Some(cards) =>
            var (db1, owner) := Prepare(db, instances, iid, last, BannerOf(form, cards));
            Fill(db1, iid, owner, form)
  }

  /** The second phase over locals: the grouping loop, then the card loop. */
  method FillTables(db1: SlideBannerDb, iid: nat, owner: nat, form: Form) returns (res: SaveResult, db2: SlideBannerDb)
    ensures res == Fill(db1, iid, owner, form).0
    ensures db2 == Fill(db1, iid, owner, form).1
  {
    db2 := db1;
    var grouped := GroupForm(Items(form), BannersPrefix, false);
    if grouped.None? {
      return Crashed, db2;
    }
    var added := MakeRows(owner, db1.lastId, BannerItems(grouped.value));
    db2 := db1.(items := db1.items + added, lastId := db1.lastId + |grouped.value|);
    res := Saved(iid, SavedFlash);
  }

  /** What the first phase commits: the banner row written, and no cards left on it. */
  lemma {:induction false} PrepareSpec(db: SlideBannerDb, instances: seq<Instance>, iid: nat, last: nat, banner: SlideBanner)
    requires Valid(db) && last >= db.lastId && iid <= last
    requires forall i :: i in instances ==> i.id <= last
    ensures var (db1, owner) := Prepare(db, instances, iid, last, banner);
      Valid(db1) && db1.instances == instances
      && FirstOwned(db1.banners, iid) == Some(Row(owner, iid, banner))
      && (FirstOwned(db.banners, iid).None? ==> owner > db.lastId)
      && (forall c :: c in db1.items ==> c.owner != owner)
      && (forall c :: c in db.items && c.owner != owner ==> c in db1.items)
  {
    FirstOrCreateSpec(db.banners, iid, last, banner);
  }

  /** What the second phase adds when it succeeds: the banner's new cards, and nothing else changes. */
  lemma {:induction false} FillSpec(db1: SlideBannerDb, iid: nat, owner: nat, form: Form)
    requires Valid(db1) && owner <= db1.lastId
    requires forall c :: c in db1.items ==> c.owner != owner
    requires Fill(db1, iid, owner, form).0.Saved?
    ensures var (res, db2) := Fill(db1, iid, owner, form);
      var added := BannerItems(CardRecords(form).value);
      res.instanceId == iid && Valid(db2) && db2.instances == db1.instances && db2.banners == db1.banners
      && Owned(db2.items, owner) == NewRows(owner, db1.lastId, added)
      && (forall c :: c in db1.items ==> c in db2.items)
  {
    var added := BannerItems(CardRecords(form).value);
    OwnedAppendNew(db1.items, owner, db1.lastId, added);
    var db2 := Fill(db1, iid, owner, form).1;
    forall c | c in db2.items
      ensures c.id <= db2.lastId && c.owner <= db2.lastId
    {
      if c !in db1.items {
        var k :| 0 <= k < |added| && NewRows(owner, db1.lastId, added)[k] == c;
        NewRowsAt(owner, db1.lastId, added, k);
      }
    }
  }

  /** The new cards hold, one by one, the cards of the records, with fresh ids. */
  lemma {:induction false} ItemsAfter(owner: nat, last: nat, rs: Records<string>)
    ensures var rows := NewRows(owner, last, BannerItems(rs));
      |rows| == |rs|
      && (forall j :: 0 <= j < |rs| ==> rows[j].data == NewItem(rs[j].1))
      && (forall j :: 0 <= j < |rs| ==> rows[j].id > last)
  {
    forall j | 0 <= j < |rs|
      ensures NewRows(owner, last, BannerItems(rs))[j].data == NewItem(rs[j].1)
      ensures NewRows(owner, last, BannerItems(rs))[j].id > last
    {
      NewRowsAt(owner, last, BannerItems(rs), j);
    }
  }

  /**
   * After a save that succeeds: the instance holds the settings, its banner
   * row the title and cards per row, and its cards are exactly one per
   * `banners[` index, in first-seen order, with fresh ids. Other banners
   * keep their cards, and the tables stay valid.
   */
  lemma {:induction false} SavedState(db: SlideBannerDb, modules: seq<Module>, moduleId: nat, form: Form, instanceId: nat)
    requires Valid(db)
    requires SaveSpec(db, modules, moduleId, form, instanceId).0.Saved?
    ensures var (res, db2) := SaveSpec(db, modules, moduleId, form, instanceId);
      var rs := CardRecords(form).value;
      Valid(db2) && res.instanceId != 0
      && FindInstance(db2.instances, res.instanceId).Some?
      && FindInstance(db2.instances, res.instanceId).value.settings == Dumps(Settings(form).value)
      && FirstOwned(db2.banners, res.instanceId).Some?
      && var b := FirstOwned(db2.banners, res.instanceId).value;
         b.data == BannerOf(form, IntGet(Get(form, "cards_in_row"), 3).value)
         && |Owned(db2.items, b.id)| == |rs|
         && (forall j :: 0 <= j < |rs| ==> Owned(db2.items, b.id)[j].data == NewItem(rs[j].1))
         && (forall j :: 0 <= j < |rs| ==> Owned(db2.items, b.id)[j].id > db.lastId)
         && (forall c :: c in db.items && c.owner != b.id ==> c in db2.items)
  {
    var s := Settings(form).value;
    UpsertSpec(db.instances, modules, moduleId, instanceId, db.lastId, s, s);
    var (instances, iid, last) := Upsert(db.instances, modules, moduleId, instanceId, db.lastId, s, s).value;
    assert FindInstance(instances, iid).value in instances;
    var banner := BannerOf(form, IntGet(Get(form, "cards_in_row"), 3).value);
    PrepareSpec(db, instances, iid, last, banner);
    var (db1, owner) := Prepare(db, instances, iid, last, banner);
    FillSpec(db1, iid, owner, form);
    ItemsAfter(owner, db1.lastId, CardRecords(form).value);
  }

  /**
   * How a save ends: it fails with nothing written where the interval or
   * the cards per row is not a number or a new instance names a missing
   * module; it fails after the first commit where a `banners[` name is too
   * short, and then the banner row stays written with no cards.
   */
  lemma {:induction false} SaveOutcome(db: SlideBannerDb, modules: seq<Module>, moduleId: nat, form: Form, instanceId: nat)
    requires Valid(db) && moduleId != 0
    ensures var (res, db2) := SaveSpec(db, modules, moduleId, form, instanceId);
      var existing := instanceId != 0 && FindInstance(db.instances, instanceId).Some?;
      var early := Settings(form).None? || IntGet(Get(form, "cards_in_row"), 3).None?
        || (!existing && FindModule(modules, moduleId).None?);
      (early ==> res.Crashed? && db2 == db)
      && (!early ==>
            var iid := if existing then instanceId else db.lastId + 1;
            (res.Crashed? <==> CardRecords(form).None?)
            && FirstOwned(db2.banners, iid).Some?
            && (res.Crashed? ==> Owned(db2.items, FirstOwned(db2.banners, iid).value.id) == []))
  {
    if Settings(form).Some? {
      var s := Settings(form).value;
      UpsertSpec(db.instances, modules, moduleId, instanceId, db.lastId, s, s);
      var up := Upsert(db.instances, modules, moduleId, instanceId, db.lastId, s, s);
      if up.Some? && IntGet(Get(form, "cards_in_row"), 3).Some? {
        var (instances, iid, last) := up.value;
        assert FindInstance(instances, iid).value in instances;
        assert iid == if instanceId != 0 && FindInstance(db.instances, instanceId).Some? then instanceId else db.lastId + 1;
        SaveWritten(db, modules, moduleId, form, instanceId, instances, iid, last);
      }
    }
  }

  /** A save whose instance was written ends as its two phases do. */
  lemma {:induction false} SaveWritten(db: SlideBannerDb, modules: seq<Module>, moduleId: nat, form: Form, instanceId: nat,
                                       instances: seq<Instance>, iid: nat, last: nat)
    requires Valid(db) && moduleId != 0 && last >= db.lastId && iid <= last
    requires Settings(form).Some? && IntGet(Get(form, "cards_in_row"), 3).Some?
    requires Upsert(db.instances, modules, moduleId, instanceId, db.lastId, Settings(form).value, Settings(form).value)
             == Some((instances, iid, last))
    requires forall i :: i in instances ==> i.id <= last
    ensures var (res, db2) := SaveSpec(db, modules, moduleId, form, instanceId);
      (res.Crashed? <==> CardRecords(form).None?)
      && FirstOwned(db2.banners, iid).Some?
      && (res.Crashed? ==> Owned(db2.items, FirstOwned(db2.banners, iid).value.id) == [])
  {
    PhasesOutcome(db, instances, iid, last, BannerOf(form, IntGet(Get(form, "cards_in_row"), 3).value), form);
  }

  /** The two phases after the instance is written: the banner row is in place, and cards come only when the records parse. */
  lemma {:induction false} PhasesOutcome(db: SlideBannerDb, instances: seq<Instance>, iid: nat, last: nat,
                                         banner: SlideBanner, form: Form)
    requires Valid(db) && last >= db.lastId && iid <= last
    requires forall i :: i in instances ==> i.id <= last
    ensures var (db1, owner) := Prepare(db, instances, iid, last, banner);
      var (res, db2) := Fill(db1, iid, owner, form);
      (res.Crashed? <==> CardRecords(form).None?)
      && FirstOwned(db2.banners, iid).Some?
      && (res.Crashed? ==> Owned(db2.items, FirstOwned(db2.banners, iid).value.id) == [])
  {
    PrepareSpec(db, instances, iid, last, banner);
    var (db1, owner) := Prepare(db, instances, iid, last, banner);
    if Owned(db1.items, owner) != [] {
      assert Owned(db1.items, owner)[0] in Owned(db1.items, owner);
    }
  }

  // ---------------------------------------------------------------------
  // Load, storefront data and delete

  /** The cards of a banner row, or none when there is no row. */
  function ItemsOf(db: SlideBannerDb, banner: Option<Row<SlideBanner>>): seq<Row<BannerItem>>
  {
    if banner.Some? then Owned(db.items, banner.value.id) else []
  }

  /**
   * `load_instance_data(instance_id)`: with no id, no instance, no banner
   * and no cards; otherwise the instance (a 404, None, when it does not
   * exist), its first banner row and that banner's cards.
   */
  function LoadInstanceData(instanceId: nat, db: SlideBannerDb): (r: Option<map<string, Json>>)
    ensures instanceId == 0 ==> r == Some(map["module_instance" := JNull, "banner" := JNull, "banner_items" := JArr([])])
    ensures instanceId != 0 ==> (r.None? <==> FindInstance(db.instances, instanceId).None?)
    ensures r.Some? ==> r.value.Keys == {"module_instance", "banner", "banner_items"}
    ensures r.Some? && instanceId != 0 ==>
      r.value["module_instance"] == JInt(instanceId)
      && r.value["banner"] == Ref(FirstOwned(db.banners, instanceId))
      && r.value["banner_items"] == JArr(RowIds(ItemsOf(db, FirstOwned(db.banners, instanceId))))
  {
    if instanceId == 0 then Some(map["module_instance" := JNull, "banner" := JNull, "banner_items" := JArr([])])
    else if FindInstance(db.instances, instanceId).None? then None
    else
      var banner := FirstOwned(db.banners, instanceId);
      Some(map["module_instance" := JInt(instanceId), "banner" := Ref(banner),
               "banner_items" := JArr(RowIds(ItemsOf(db, banner)))])
  }

  /**
   * `get_instance_data(module_instance)`: the defaults for no instance;
   * otherwise the settings (`{}` when empty), the banner row and its cards.
   * None where the stored settings do not decode.
   */
  function InstanceData(inst: Option<Instance>, db: SlideBannerDb): (r: Option<map<string, Json>>)
    ensures inst.None? ==> r == Some(map["settings" := EmptyObject, "banner" := JNull, "banner_items" := JArr([])])
    ensures inst.Some? ==> (r.None? <==> inst.value.settings.BadText?)
    ensures r.Some? ==> r.value.Keys == {"settings", "banner", "banner_items"}
    ensures r.Some? && inst.Some? ==>
      r.value["settings"] == LoadSettings(inst.value.settings).value
      && r.value["banner"] == Ref(FirstOwned(db.banners, inst.value.id))
      && r.value["banner_items"] == JArr(RowIds(ItemsOf(db, FirstOwned(db.banners, inst.value.id))))
  {
    match inst
    case None => Some(map["settings" := EmptyObject, "banner" := JNull, "banner_items" := JArr([])])
    case Some(i) =>
      var banner := FirstOwned(db.banners, i.id);
      match LoadSettings(i.settings)
      case None => None
      case Some(settings) =>
        Some(map["settings" := settings, "banner" := Ref(banner), "banner_items" := JArr(RowIds(ItemsOf(db, banner)))])
  }

  /**
   * A saved slide banner loads again: the editor finds the instance, its
   * banner row and one card per record, and the storefront the settings
   * written.
   */
  lemma {:induction false} SaveThenLoad(db: SlideBannerDb, modules: seq<Module>, moduleId: nat, form: Form, instanceId: nat)
    requires Valid(db)
    requires SaveSpec(db, modules, moduleId, form, instanceId).0.Saved?
    ensures var (res, db2) := SaveSpec(db, modules, moduleId, form, instanceId);
      var r := LoadInstanceData(res.instanceId, db2);
      var inst := FindInstance(db2.instances, res.instanceId);
      r.Some? && r.value["banner"] != JNull
      && |r.value["banner_items"].items| == |CardRecords(form).value|
      && InstanceData(inst, db2).Some?
      && InstanceData(inst, db2).value["settings"] == Settings(form).value
  {
    SavedState(db, modules, moduleId, form, instanceId);
  }

  /** `del_instance` on an existing instance: its first banner's cards, that banner and the instance go. */
  function Deleted(db: SlideBannerDb, instanceId: nat): SlideBannerDb
  {
    match FirstOwned(db.banners, instanceId)
    case None => db.(instances := DropInstance(db.instances, instanceId))
    case Some(b) =>
      SlideBannerDb(DropInstance(db.instances, instanceId), DropRow(db.banners, b.id), Disown(db.items, b.id), db.lastId)
  }

  /** After the delete, loading the instance is a 404, its banner has no cards, and other instances stay. */
  lemma {:induction false} DeletedSpec(db: SlideBannerDb, instanceId: nat)
    requires instanceId != 0 && Valid(db)
    ensures var db2 := Deleted(db, instanceId);
      LoadInstanceData(instanceId, db2).None? && Valid(db2)
      && (forall i :: i in db.instances && i.id != instanceId ==> i in db2.instances)
      && (FirstOwned(db.banners, instanceId).Some? ==>
            var b := FirstOwned(db.banners, instanceId).value;
            b !in db2.banners && Owned(db2.items, b.id) == [])
  {
    var db2 := Deleted(db, instanceId);
    if FirstOwned(db.banners, instanceId).Some? {
      var b := FirstOwned(db.banners, instanceId).value;
      if Owned(db2.items, b.id) != [] {
        assert Owned(db2.items, b.id)[0] in Owned(db2.items, b.id);
      }
    }
  }

  // ---------------------------------------------------------------------
  // The tables as the editor changes them

  class SlideBannerStore {
    const modules: seq<Module>
    var instances: seq<Instance>
    var banners: seq<Row<SlideBanner>>
    var items: seq<Row<BannerItem>>
    var lastId: nat
    /** The layout cells of pages and posts, which the deletion of an instance detaches. */
    const cells: LayoutCells

    function Db(): SlideBannerDb
      reads this
    {
      SlideBannerDb(instances, banners, items, lastId)
    }

    constructor (modules: seq<Module>, db: SlideBannerDb, cells: LayoutCells)
      ensures this.modules == modules && Db() == db
      ensures this.cells == cells
    {
      this.cells := cells;
      this.modules := modules;
      instances := db.instances;
      banners := db.banners;
      items := db.items;
      lastId := db.lastId;
    }

    /**
     * `save_instance`: the tables end as `SaveSpec` describes, phase by
     * phase, and a save that gets through the grouping loop flashes the
     * warnings before its own message.
     */
    method SaveInstance(moduleId: nat, form: Form, instanceId: nat) returns (res: SaveResult, warnings: seq<Flash>)
      modifies this
      ensures res == SaveSpec(old(Db()), modules, moduleId, form, instanceId).0
      ensures Db() == SaveSpec(old(Db()), modules, moduleId, form, instanceId).1
      ensures warnings == if res.Saved? then Warnings(form) else []
    {
      warnings := [];
      if moduleId == 0 {
        return MissingModuleId(MissingModuleFlash), warnings;
      }
      var settings := Settings(form);
      if settings.None? {
        return Crashed, warnings;
      }
      var upserted := Upsert(instances, modules, moduleId, instanceId, lastId, settings.value, settings.value);
      if upserted.None? {
        return Crashed, warnings;
      }
      var cards := IntGet(Get(form, "cards_in_row"), 3);
      if cards.None? {
        return Crashed, warnings;
      }
      var (instances1, iid, last) := upserted.value;
      var (db1, owner) := Prepare(Db(), instances1, iid, last, BannerOf(form, cards.value));
      // the first commit
      instances, banners, items, lastId := db1.instances, db1.banners, db1.items, db1.lastId;
      var db2;
      res, db2 := FillTables(db1, iid, owner, form);
      if res.Saved? {
        warnings := Warnings(form);
      }
      // the second commit
      items, lastId := db2.items, db2.lastId;
    }

    /**
     * `del_instance`: an unknown instance gives an error message and changes
     * nothing; otherwise the tables end as `Deleted` describes, and with the
     * instance the layout cells that showed it are detached.
     */
    method DeleteInstance(instanceId: nat) returns (flash: Flash)
      modifies this, cells
      ensures FindInstance(old(instances), instanceId).None? ==> flash == NotFoundFlash && Db() == old(Db())
      ensures FindInstance(old(instances), instanceId).Some? ==>
        flash == DeletedFlash && Db() == Deleted(old(Db()), instanceId)
      ensures if flash == DeletedFlash then cells.Detached(instanceId) else cells.Unchanged()
    {
      if FindInstance(instances, instanceId).None? {
        return NotFoundFlash;
      }
      var banner := FirstOwned(banners, instanceId);
      if banner.Some? {
        items := Disown(items, banner.value.id);
        banners := DropRow(banners, banner.value.id);
      }
      cells.DetachInstance(instanceId);
      instances := DropInstance(instances, instanceId);
      flash := DeletedFlash;
    }
  }
}
