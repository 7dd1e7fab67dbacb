// The banner editor of the admin (app/admin/modules/banner.py). Saving
// writes the instance settings, the banner row (first or created) and, in
// place of the banner's old cards, one card per `banners[idx][field]`
// record; everything is committed once at the end. Also the data the editor
// loads and the delete.

module AdminBanner {
  import opened Common
  import opened Json
  import opened Layout
  import opened Registry
  import opened ModuleForms
  import opened Tables

  /** The columns of a `banner_instances` row. */
  datatype Banner = Banner(title: string, cardsInRow: int)

  /** The columns of a `banner_items` row. */
  datatype Card = Card(backgroundImageId: Option<int>, text: string, linkText: string, linkUrl: string)

  /** The tables the editor touches; `lastId` is the largest id handed out so far. */
  datatype BannerDb = BannerDb(instances: seq<Instance>, banners: seq<Row<Banner>>, cards: seq<Row<Card>>,
                               lastId: nat)

  /** Ids and references lie at or below `lastId`, so a new id owns nothing yet. */
  predicate Valid(db: BannerDb)
  {
    (forall i :: i in db.instances ==> i.id <= db.lastId)
    && (forall b :: b in db.banners ==> b.id <= db.lastId && b.owner <= db.lastId)
    && (forall c :: c in db.cards ==> c.id <= db.lastId && c.owner <= db.lastId)
  }

  const SavedFlash: Flash := Flash("success", "Баннер сохранён!")
  const DeletedFlash: Flash := Flash("success", "Экземпляр баннера удалён")

  // ---------------------------------------------------------------------
  // Settings and rows built from the form

  /**
   * The settings dict: the four checkboxes and the scroll interval (5000
   * when empty). None where `int()` raises on the interval, before anything
   * is written.
   */
  function Settings(form: Form): (r: Option<Json>)
    ensures r.None? <==> IntOr(Get(form, "scroll_interval"), 5000).None?
    ensures r.Some? ==> r.value.JObj?
  {
    match IntOr(Get(form, "scroll_interval"), 5000)
    case None => None
    case Some(interval) =>
      Some(JObj([("status", JBool(Flag(form, "status"))),
                 ("show_arrows", JBool(Flag(form, "show_arrows"))),
                 ("show_indicators", JBool(Flag(form, "show_indicators"))),
                 ("auto_scroll", JBool(Flag(form, "auto_scroll"))),
                 ("scroll_interval", JInt(interval))]))
  }

  /**
   * What the stored settings say: each checkbox setting is true iff its field
   * is "on", and the interval is the submitted number or 5000.
   */
  lemma {:induction false} SettingsFields(form: Form)
    requires Settings(form).Some?
    ensures Member(Settings(form).value, "status") == Some(JBool(Get(form, "status") == Some("on")))
    ensures Member(Settings(form).value, "show_arrows") == Some(JBool(Get(form, "show_arrows") == Some("on")))
    ensures Member(Settings(form).value, "show_indicators") == Some(JBool(Get(form, "show_indicators") == Some("on")))
    ensures Member(Settings(form).value, "auto_scroll") == Some(JBool(Get(form, "auto_scroll") == Some("on")))
    ensures Member(Settings(form).value, "scroll_interval") == Some(JInt(IntOr(Get(form, "scroll_interval"), 5000).value))
  {
    var interval := IntOr(Get(form, "scroll_interval"), 5000).value;
    SettingsLookups(JBool(Flag(form, "status")), JBool(Flag(form, "show_arrows")),
                    JBool(Flag(form, "show_indicators")), JBool(Flag(form, "auto_scroll")), JInt(interval));
  }

  /** Each of the five settings keys finds its own value. */
  lemma {:induction false} SettingsLookups(status: Json, arrows: Json, indicators: Json, scroll: Json, interval: Json)
    ensures var fields := [("status", status), ("show_arrows", arrows), ("show_indicators", indicators),
                           ("auto_scroll", scroll), ("scroll_interval", interval)];
      Lookup(fields, "status") == Some(status) && Lookup(fields, "show_arrows") == Some(arrows)
      && Lookup(fields, "show_indicators") == Some(indicators) && Lookup(fields, "auto_scroll") == Some(scroll)
      && Lookup(fields, "scroll_interval") == Some(interval)
  {
    var fields := [("status", status), ("show_arrows", arrows), ("show_indicators", indicators),
                   ("auto_scroll", scroll), ("scroll_interval", interval)];
    assert forall j, k :: 0 <= j < k < 5 ==>
      |fields[j].0| != |fields[k].0| || fields[j].0[1] != fields[k].0[1];
    LookupFirst(fields, 0, "status");
    LookupFirst(fields, 1, "show_arrows");
    LookupFirst(fields, 2, "show_indicators");
    LookupFirst(fields, 3, "auto_scroll");
    LookupFirst(fields, 4, "scroll_interval");
  }

  /** `cards_in_row`: the submitted number, or 3 when it is missing or not a number. */
  function CardsInRow(form: Form): (n: int)
    ensures Get(form, "cards_in_row").Some? && ParseInt(Get(form, "cards_in_row").value).Some? ==>
      n == ParseInt(Get(form, "cards_in_row").value).value
    ensures Get(form, "cards_in_row").None? || ParseInt(Get(form, "cards_in_row").value).None? ==> n == 3
  {
    match IntOr(Get(form, "cards_in_row"), 3)
    case Some(n) => n
    case None => 3
  }

  /** A card's background image: the submitted number when it parses and is positive, else none. */
  function BackgroundId(rec: Form): (r: Option<int>)
    ensures r.Some? <==>
      (Get(rec, "background_image_id").Some?
       && ParseInt(Get(rec, "background_image_id").value).Some?
       && ParseInt(Get(rec, "background_image_id").value).value > 0)
    ensures r.Some? ==> r == ParseInt(Get(rec, "background_image_id").value)
  {
    var n := match IntOr(Get(rec, "background_image_id"), 0) case Some(n) => n case None => 0;
    if n > 0 then Some(n) else None
  }

  /** The card a record becomes; the texts default to "". */
  function NewCard(rec: Form): Card
  {
    Card(BackgroundId(rec), OrEmpty(Get(rec, "text")), OrEmpty(Get(rec, "link_text")), OrEmpty(Get(rec, "link_url")))
  }

  /**
   * Every record names a positive image: a card without one is inserted with
   * a NULL `background_image_id`, which that NOT NULL column refuses.
   */
  predicate AllImaged(rs: Records<string>)
  {
    forall j :: 0 <= j < |rs| ==> BackgroundId(rs[j].1).Some?
  }

  function Cards(rs: Records<string>): seq<Card>
  {
    seq(|rs|, j requires 0 <= j < |rs| => NewCard(rs[j].1))
  }

  // ---------------------------------------------------------------------
  // Saving

  /** The form's card records; the banner editor skips names with too few groups, so grouping cannot fail. */
  function CardRecords(form: Form): (rs: Records<string>)
    ensures GroupFields(Items(form), "banners[", true) == Some(rs)
  {
    GroupFieldsFails(Items(form), "banners[", true);
    GroupFields(Items(form), "banners[", true).value
  }

  /** The columns the form gives the banner row; the title is "" when empty. */
  function BannerOf(form: Form): Banner
  {
    Banner(OrEmpty(Get(form, "title")), CardsInRow(form))
  }

  /**
   * `save_instance(module_id, form, instance_id)` (instance id 0 when none
   * is given): the result and the tables afterwards.
   */
  function SaveSpec(db: BannerDb, modules: seq<Module>, moduleId: nat, form: Form, instanceId: nat): (SaveResult, BannerDb)
  {
    if moduleId == 0 then (MissingModuleId(MissingModuleFlash), db)
    else match Settings(form)
      case None => (Crashed, db)
      case Some(settings) =>
        match Upsert(db.instances, modules, moduleId, instanceId, db.lastId, settings, settings)
        case None => (Crashed, db)
        case Some((instances, iid, last)) => Commit(db, instances, iid, last, form)
  }

  /**
   * Past the instance: the banner row is the instance's first one or a new
   * one; its old cards give way to one card per record. A card without an
   * image makes the one commit fail, and then nothing is written.
   */
  function Commit(db: BannerDb, instances: seq<Instance>, iid: nat, last: nat, form: Form): (SaveResult, BannerDb)
  {
    var placed := FirstOrCreate(db.banners, iid, last, BannerOf(form));
    var bid := placed.1;
    var kept := if FirstOwned(db.banners, iid).Some? then Disown(db.cards, bid) else db.cards;
    var rs := CardRecords(form);
    if !AllImaged(rs) then (Crashed, db)
    else (Saved(iid, SavedFlash), BannerDb(instances, placed.0, kept + NewRows(bid, placed.2, Cards(rs)), placed.2 + |rs|))
  }

  /**
   * The handler: the grouping loop and the card loop run over locals, and
   * the tables they give are what the one commit writes.
   */
  method Save(db: BannerDb, modules: seq<Module>, moduleId: nat, form: Form, instanceId: nat)
    returns (res: SaveResult, db2: BannerDb)
    ensures res == SaveSpec(db, modules, moduleId, form, instanceId).0
    ensures db2 == SaveSpec(db, modules, moduleId, form, instanceId).1
  {
    db2 := db;
    if moduleId == 0 {
      return MissingModuleId(MissingModuleFlash), db2;
    }
    var settings := Settings(form);
    if settings.None? {
      return Crashed, db2;
    }
    var upserted := Upsert(db.instances, modules, moduleId, instanceId, db.lastId, settings.value, settings.value);
    if upserted.None? {
      return Crashed, db2;
    }
    var (instances, iid, last) := upserted.value;
    var placed := FirstOrCreate(db.banners, iid, last, BannerOf(form));
    var bid := placed.1;
    var kept := if FirstOwned(db.banners, iid).Some? then Disown(db.cards, bid) else db.cards;
    var grouped := GroupForm(Items(form), "banners[", true);
    var rs := CardRecords(form);
    assert grouped == Some(rs);
    var added := MakeRows(bid, placed.2, Cards(rs));
    if !AllImaged(rs) {
      return Crashed, db2;
    }
    db2 := BannerDb(instances, placed.0, kept + added, placed.2 + |rs|);
    res := Saved(iid, SavedFlash);
    ghost var spec := Commit(db, instances, iid, last, form);
    assert spec.1.cards == db2.cards;
    assert spec.1.banners == db2.banners;
    assert spec.1 == db2;
  }

  /**
   * A save fails exactly where the interval is not a number, a new instance
   * names a missing module, or a card has no image; a failed save writes
   * nothing.
   */
  lemma {:induction false} SaveOutcome(db: BannerDb, modules: seq<Module>, moduleId: nat, form: Form, instanceId: nat)
    requires Valid(db)
    ensures var (res, db2) := SaveSpec(db, modules, moduleId, form, instanceId);
      (res.Crashed? <==>
         (moduleId != 0 && (Settings(form).None? ||
            ((instanceId == 0 || FindInstance(db.instances, instanceId).None?) && FindModule(modules, moduleId).None?)
            || !AllImaged(CardRecords(form)))))
      && (!res.Saved? ==> db2 == db)
  {
    if moduleId != 0 && Settings(form).Some? {
      var s := Settings(form).value;
      UpsertSpec(db.instances, modules, moduleId, instanceId, db.lastId, s, s);
    }
  }

  /** The cards an owner with no cards left has after the new ones are added. */
  lemma {:induction false} CardsAfter(kept: seq<Row<Card>>, bid: nat, last: nat, rs: Records<string>)
    requires forall c :: c in kept ==> c.owner != bid
    ensures var cards := Owned(kept + NewRows(bid, last, Cards(rs)), bid);
      |cards| == |rs| && forall j :: 0 <= j < |rs| ==> cards[j].id == last + 1 + j && cards[j].data == NewCard(rs[j].1)
  {
    OwnedAppendNew(kept, bid, last, Cards(rs));
    forall j | 0 <= j < |rs|
      ensures NewRows(bid, last, Cards(rs))[j].data == NewCard(rs[j].1)
    {
      NewRowsAt(bid, last, Cards(rs), j);
    }
  }

  /**
   * After a save that succeeds: the instance holds the new settings, its
   * banner row carries the title ("" when empty) and the cards per row, and
   * the banner's cards are exactly one per record, in record order, with
   * fresh ids. Other banners keep their cards, and the tables stay valid.
   */
  lemma {:induction false} SavedState(db: BannerDb, modules: seq<Module>, moduleId: nat, form: Form, instanceId: nat)
    requires Valid(db)
    requires SaveSpec(db, modules, moduleId, form, instanceId).0.Saved?
    ensures var (res, db2) := SaveSpec(db, modules, moduleId, form, instanceId);
      var rs := CardRecords(form);
      Valid(db2)
      && FindInstance(db2.instances, res.instanceId).Some?
      && FindInstance(db2.instances, res.instanceId).value.settings == Dumps(Settings(form).value)
      && FirstOwned(db2.banners, res.instanceId).Some?
      && var b := FirstOwned(db2.banners, res.instanceId).value;
         b.data == BannerOf(form)
         && |Owned(db2.cards, b.id)| == |rs|
         && (forall j :: 0 <= j < |rs| ==> Owned(db2.cards, b.id)[j].data == NewCard(rs[j].1))
         && (forall j :: 0 <= j < |rs| ==> Owned(db2.cards, b.id)[j].id > db.lastId)
         && (forall j :: 0 <= j < |rs| ==> Owned(db2.cards, b.id)[j].data.backgroundImageId.Some?)
         && (forall c :: c in db.cards && c.owner != b.id ==> c in db2.cards)
  {
    var settings := Settings(form).value;
    UpsertSpec(db.instances, modules, moduleId, instanceId, db.lastId, settings, settings);
    var (instances, iid, last) := Upsert(db.instances, modules, moduleId, instanceId, db.lastId, settings, settings).value;
    assert FindInstance(instances, iid).value in instances;
    CommitSpec(db, instances, iid, last, form);
  }

  lemma {:induction false} CommitSpec(db: BannerDb, instances: seq<Instance>, iid: nat, last: nat, form: Form)
    requires Valid(db) && last >= db.lastId
    requires forall i :: i in instances ==> i.id <= last
    requires iid <= last
    ensures Commit(db, instances, iid, last, form).0.Saved? <==> AllImaged(CardRecords(form))
    ensures AllImaged(CardRecords(form)) ==>
      var db2 := Commit(db, instances, iid, last, form).1;
      var rs := CardRecords(form);
      Valid(db2)
      && FirstOwned(db2.banners, iid).Some?
      && var b := FirstOwned(db2.banners, iid).value;
         b.data == BannerOf(form)
         && |Owned(db2.cards, b.id)| == |rs|
         && (forall j :: 0 <= j < |rs| ==> Owned(db2.cards, b.id)[j].data == NewCard(rs[j].1))
         && (forall j :: 0 <= j < |rs| ==> Owned(db2.cards, b.id)[j].id > db.lastId)
         && (forall c :: c in db.cards && c.owner != b.id ==> c in db2.cards)
  {
    if !AllImaged(CardRecords(form)) {
      return;
    }
    CommitValid(db, instances, iid, last, form);
    CommitRows(db, instances, iid, last, form);
  }

  /** The banner row and its cards after a commit that succeeds. */
  lemma {:induction false} CommitRows(db: BannerDb, instances: seq<Instance>, iid: nat, last: nat, form: Form)
    requires Valid(db) && last >= db.lastId
    requires iid <= last && AllImaged(CardRecords(form))
    ensures var db2 := Commit(db, instances, iid, last, form).1;
      var rs := CardRecords(form);
      FirstOwned(db2.banners, iid).Some?
      && var b := FirstOwned(db2.banners, iid).value;
         b.data == BannerOf(form)
         && |Owned(db2.cards, b.id)| == |rs|
         && (forall j :: 0 <= j < |rs| ==> Owned(db2.cards, b.id)[j].data == NewCard(rs[j].1))
         && (forall j :: 0 <= j < |rs| ==> Owned(db2.cards, b.id)[j].id > db.lastId)
         && (forall c :: c in db.cards && c.owner != b.id ==> c in db2.cards)
  {
    FirstOrCreateSpec(db.banners, iid, last, BannerOf(form));
    var placed := FirstOrCreate(db.banners, iid, last, BannerOf(form));
    var bid := placed.1;
    var kept := if FirstOwned(db.banners, iid).Some? then Disown(db.cards, bid) else db.cards;
    var rs := CardRecords(form);
    var db2 := Commit(db, instances, iid, last, form).1;
    assert db2.cards == kept + NewRows(bid, placed.2, Cards(rs));
    CardsAfter(kept, bid, placed.2, rs);
  }

  /** A commit that succeeds keeps every id and reference at or below the new `lastId`. */
  lemma {:induction false} CommitValid(db: BannerDb, instances: seq<Instance>, iid: nat, last: nat, form: Form)
    requires Valid(db) && last >= db.lastId
    requires forall i :: i in instances ==> i.id <= last
    requires iid <= last && AllImaged(CardRecords(form))
    ensures Valid(Commit(db, instances, iid, last, form).1)
  {
    FirstOrCreateSpec(db.banners, iid, last, BannerOf(form));
    var placed := FirstOrCreate(db.banners, iid, last, BannerOf(form));
    NewRowsWithin(placed.1, placed.2, Cards(CardRecords(form)));
  }

  // ---------------------------------------------------------------------
  // The first save of a banner, as written

  /**
   * `Commit` as the handler orders it: a new banner row is flushed (line
   * 58) before its title is set (line 61), so the INSERT gives the NOT
   * NULL `title` column, which has no default, a NULL; the database refuses
   * it, and nothing is written.
   */
  function CommitAsWritten(db: BannerDb, instances: seq<Instance>, iid: nat, last: nat, form: Form): (SaveResult, BannerDb)
  {
    if FirstOwned(db.banners, iid).None? then (Crashed, db) else Commit(db, instances, iid, last, form)
  }

  /**
   * The first save of a banner fails as written, where the corrected
   * commit, which gives the row its title before the INSERT, saves it with
   * that title.
   */
  lemma {:induction false} NewBannerRefused(db: BannerDb, instances: seq<Instance>, iid: nat, last: nat, form: Form)
    requires Valid(db) && last >= db.lastId && iid <= last
    requires forall i :: i in instances ==> i.id <= last
    requires FirstOwned(db.banners, iid).None? && AllImaged(CardRecords(form))
    ensures CommitAsWritten(db, instances, iid, last, form) == (Crashed, db)
    ensures var (res, db2) := Commit(db, instances, iid, last, form);
      res.Saved? && FirstOwned(db2.banners, iid).Some?
      && FirstOwned(db2.banners, iid).value.data.title == OrEmpty(Get(form, "title"))
  {
    CommitSpec(db, instances, iid, last, form);
  }

  /** `save_instance` as written: the handler's steps, with the commit as the handler orders it. */
  function SaveAsWritten(db: BannerDb, modules: seq<Module>, moduleId: nat, form: Form, instanceId: nat): (SaveResult, BannerDb)
  {
    if moduleId == 0 then (MissingModuleId(MissingModuleFlash), db)
    else match Settings(form)
      case None => (Crashed, db)
      case Some(settings) =>
        match Upsert(db.instances, modules, moduleId, instanceId, db.lastId, settings, settings)
        case None => (Crashed, db)
        case Some((instances, iid, last)) => CommitAsWritten(db, instances, iid, last, form)
  }

  /**
   * The save as written fails wherever the corrected save fails and, beyond
   * that, wherever the corrected save would create the instance's banner
   * row; a failure writes nothing, and otherwise both saves agree.
   */
  lemma {:induction false} SaveAsWrittenOutcome(db: BannerDb, modules: seq<Module>, moduleId: nat, form: Form, instanceId: nat)
    ensures var (res, db2) := SaveAsWritten(db, modules, moduleId, form, instanceId);
      var corrected := SaveSpec(db, modules, moduleId, form, instanceId);
      (res.Crashed? <==>
         corrected.0.Crashed? || (corrected.0.Saved? && FirstOwned(db.banners, corrected.0.instanceId).None?))
      && (res.Crashed? ==> db2 == db)
      && (!res.Crashed? ==> (res, db2) == corrected)
  {
  }

  // ---------------------------------------------------------------------
  // Load and delete

  /**
   * `load_instance_data(instance_id)`: with no id, no instance, no banner, no
   * cards and empty settings; otherwise the instance (a 404, None, when it
   * does not exist), its first banner row, that banner's cards and the
   * decoded settings (`{}` when empty; the request fails, None, on a text
   * the decoder rejects).
   */
  function LoadInstanceData(instanceId: nat, db: BannerDb): (r: Option<map<string, Json>>)
    ensures instanceId == 0 ==> r == Some(map["module_instance" := JNull, "banner" := JNull,
                                              "banner_items" := JArr([]), "settings" := EmptyObject])
    ensures instanceId != 0 ==> (r.None? <==>
      FindInstance(db.instances, instanceId).None? || FindInstance(db.instances, instanceId).value.settings.BadText?)
    ensures r.Some? ==> r.value.Keys == {"module_instance", "banner", "banner_items", "settings"}
    ensures r.Some? && instanceId != 0 ==>
      r.value["module_instance"] == JInt(instanceId)
      && r.value["banner"] == Ref(FirstOwned(db.banners, instanceId))
      && (FirstOwned(db.banners, instanceId).None? ==> r.value["banner_items"] == JArr([]))
  {
    if instanceId == 0 then
      Some(map["module_instance" := JNull, "banner" := JNull, "banner_items" := JArr([]), "settings" := EmptyObject])
    else match FindInstance(db.instances, instanceId)
      case None => None
      case Some(inst) =>
        match LoadSettings(inst.settings)
        case None => None
        case Some(settings) =>
          var banner := FirstOwned(db.banners, instanceId);
          Some(map["module_instance" := JInt(instanceId),
                   "banner" := Ref(banner),
                   "banner_items" := JArr(if banner.Some? then RowIds(Owned(db.cards, banner.value.id)) else []),
                   "settings" := settings])
  }

  /** What a successful save stores is what the editor loads next: the settings and one card per record. */
  lemma {:induction false} SaveThenLoad(db: BannerDb, modules: seq<Module>, moduleId: nat, form: Form, instanceId: nat)
    requires Valid(db)
    requires SaveSpec(db, modules, moduleId, form, instanceId).0.Saved?
    ensures var (res, db2) := SaveSpec(db, modules, moduleId, form, instanceId);
      var r := LoadInstanceData(res.instanceId, db2);
      r.Some? && r.value["settings"] == Settings(form).value
      && r.value["banner"] != JNull
      && r.value["banner_items"].JArr? && |r.value["banner_items"].items| == |CardRecords(form)|
  {
    SavedState(db, modules, moduleId, form, instanceId);
    var settings := Settings(form).value;
    UpsertSpec(db.instances, modules, moduleId, instanceId, db.lastId, settings, settings);
    var (res, db2) := SaveSpec(db, modules, moduleId, form, instanceId);
    LoadFound(res.instanceId, db2);
  }

  /** Loading an instance that has settings and a banner row gives them and that banner's cards. */
  lemma {:induction false} LoadFound(instanceId: nat, db: BannerDb)
    requires instanceId != 0 && FindInstance(db.instances, instanceId).Some?
    requires FindInstance(db.instances, instanceId).value.settings.JsonText?
    requires FirstOwned(db.banners, instanceId).Some?
    ensures var r := LoadInstanceData(instanceId, db);
      var b := FirstOwned(db.banners, instanceId).value;
      r.Some? && r.value["settings"] == FindInstance(db.instances, instanceId).value.settings.value
      && r.value["banner"] == JInt(b.id)
      && r.value["banner_items"] == JArr(RowIds(Owned(db.cards, b.id)))
  {
  }

  /**
   * `del_instance`: the cards of the instance's first banner, that banner
   * and the instance go.
   */
  function Deleted(db: BannerDb, instanceId: nat): BannerDb
  {
    match FirstOwned(db.banners, instanceId)
    case None => db.(instances := DropInstance(db.instances, instanceId))
    case Some(b) => BannerDb(DropInstance(db.instances, instanceId), DropRow(db.banners, b.id), Disown(db.cards, b.id), db.lastId)
  }

  /**
   * After the delete the instance is gone (loading it is a 404), its first
   * banner row and that banner's cards too, and every other instance stays.
   */
  lemma {:induction false} DeletedSpec(db: BannerDb, instanceId: nat)
    requires instanceId != 0 && Valid(db)
    ensures var db2 := Deleted(db, instanceId);
      LoadInstanceData(instanceId, db2).None? && Valid(db2)
      && (forall i :: i in db.instances && i.id != instanceId ==> i in db2.instances)
      && (FirstOwned(db.banners, instanceId).Some? ==>
            var b := FirstOwned(db.banners, instanceId).value;
            b !in db2.banners && Owned(db2.cards, b.id) == [])
  {
    var db2 := Deleted(db, instanceId);
    if FirstOwned(db.banners, instanceId).Some? {
      var b := FirstOwned(db.banners, instanceId).value;
      if Owned(db2.cards, b.id) != [] {
        assert Owned(db2.cards, b.id)[0] in Owned(db2.cards, b.id);
      }
    }
  }

  // ---------------------------------------------------------------------
  // The tables as the editor changes them

  class BannerStore {
    const modules: seq<Module>
    var instances: seq<Instance>
    var banners: seq<Row<Banner>>
    var cards: seq<Row<Card>>
    var lastId: nat
    /** The layout cells of pages and posts, which the deletion of an instance detaches. */
    const cells: LayoutCells

    function Db(): BannerDb
      reads this
    {
      BannerDb(instances, banners, cards, lastId)
    }

    constructor (modules: seq<Module>, db: BannerDb, cells: LayoutCells)
      ensures this.modules == modules && Db() == db
      ensures this.cells == cells
    {
      this.cells := cells;
      this.modules := modules;
      instances := db.instances;
      banners := db.banners;
      cards := db.cards;
      lastId := db.lastId;
    }

    /** `save_instance`: the tables end as `SaveSpec` describes, all in one commit. */
    method SaveInstance(moduleId: nat, form: Form, instanceId: nat) returns (res: SaveResult)
      modifies this
      ensures res == SaveSpec(old(Db()), modules, moduleId, form, instanceId).0
      ensures Db() == SaveSpec(old(Db()), modules, moduleId, form, instanceId).1
    {
      var db2;
      res, db2 := Save(Db(), modules, moduleId, form, instanceId);
      instances, banners, cards, lastId := db2.instances, db2.banners, db2.cards, db2.lastId;
    }

    /**
     * `del_instance`: a 404 (None) for an unknown instance, which changes
     * nothing; otherwise the banner rows and the instance are deleted, and
     * with the instance the layout cells that showed it are detached.
     */
    method DeleteInstance(instanceId: nat) returns (flash: Option<Flash>)
      modifies this, cells
      ensures FindInstance(old(instances), instanceId).None? ==> flash.None? && Db() == old(Db())
      ensures FindInstance(old(instances), instanceId).Some? ==>
        flash == Some(DeletedFlash) && Db() == Deleted(old(Db()), instanceId)
      ensures if flash.Some? then cells.Detached(instanceId) else cells.Unchanged()
    {
      if FindInstance(instances, instanceId).None? {
        return None;
      }
      var banner := FirstOwned(banners, instanceId);
      if banner.Some? {
        cards := Disown(cards, banner.value.id);
        banners := DropRow(banners, banner.value.id);
      }
      cells.DetachInstance(instanceId);
      instances := DropInstance(instances, instanceId);
      flash := Some(DeletedFlash);
    }
  }
}
