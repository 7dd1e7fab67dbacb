// The slider editor of the admin (app/admin/modules/slider.py). Saving
// writes the instance settings and the slider row and commits them; then
// one slide per submitted index is added, then the slide buttons. A failure
// in that second part rolls back to the first commit. The NOT NULL columns
// `slider_instances.title` and `slider_items.image_pc_id` and the
// `transition_type` enumeration refuse rows that leave them empty or out of
// range. Also here: the data
// the editor loads, the delete, and the instance data shared with the
// storefront handler.

module AdminSlider {
  import opened Common
  import opened Json
  import opened Layout
  import opened Registry
  import opened ModuleForms
  import FrontModules

  /** A `slider_instances` row. */
  datatype SliderRow = SliderRow(id: nat, instanceId: nat, title: Option<string>, width: Option<int>,
                                 transition: Option<string>, status: bool, showArrows: bool,
                                 showIndicators: bool)

  /** A `slider_items` row. */
  datatype Slide = Slide(id: nat, sliderId: nat, imagePc: Option<int>, imageMobile: Option<int>,
                         title: string, description: string, titleColor: Option<string>,
                         descriptionColor: Option<string>)

  /** A `slider_buttons` row. */
  datatype Button = Button(id: nat, slideId: nat, text: string, url: Option<string>,
                           bgColor: Option<string>, textColor: Option<string>, order: int)

  /** The tables the editor touches; `lastId` is the largest id handed out so far. */
  datatype SliderDb = SliderDb(instances: seq<Instance>, sliders: seq<SliderRow>, slides: seq<Slide>,
                               buttons: seq<Button>, lastId: nat)

  /** Every id and every slide's slider reference lies at or below `lastId`, so new ids are fresh. */
  predicate Valid(db: SliderDb)
  {
    (forall i :: i in db.instances ==> i.id <= db.lastId)
    && (forall s :: s in db.sliders ==> s.id <= db.lastId)
    && (forall s :: s in db.slides ==> s.id <= db.lastId && s.sliderId <= db.lastId)
    && (forall b :: b in db.buttons ==> b.id <= db.lastId)
  }

  const SavedFlash: Flash := Flash("success", "Слайдер сохранён!")
  const DeletedFlash: Flash := Flash("success", "Экземпляр модуля успешно удалён.")

  // ---------------------------------------------------------------------
  // Settings and rows built from the form

  /**
   * The settings dict: the title as `name`, the four checkboxes and the
   * scroll interval (5000 when empty). None where `int()` raises on the
   * interval, before anything is written.
   */
  function Settings(form: Form): (r: Option<Json>)
    ensures r.None? <==> IntOr(Get(form, "scroll_interval"), 5000).None?
    ensures r.Some? ==> r.value.JObj?
  {
    match IntOr(Get(form, "scroll_interval"), 5000)
    case None => None
    case Some(interval) => Some(SettingsDict(form, interval))
  }

  /** The dict written for a given interval. */
  function SettingsDict(form: Form, interval: int): Json
  {
    JObj([("name", if Get(form, "title").Some? then JStr(Get(form, "title").value) else JNull),
          ("status", JBool(Flag(form, "status"))),
          ("show_arrows", JBool(Flag(form, "show_arrows"))),
          ("show_indicators", JBool(Flag(form, "show_indicators"))),
          ("auto_scroll", JBool(Flag(form, "auto_scroll"))),
          ("scroll_interval", JInt(interval))])
  }

  /**
   * What the stored settings say: `name` is the submitted title (null when
   * absent), each checkbox setting is true iff its field is "on", and the
   * interval is the submitted number or 5000.
   */
  lemma {:induction false} SettingsFields(form: Form)
    requires Settings(form).Some?
    ensures Member(Settings(form).value, "name") ==
      Some(if Get(form, "title").Some? then JStr(Get(form, "title").value) else JNull)
    ensures Member(Settings(form).value, "status") == Some(JBool(Get(form, "status") == Some("on")))
    ensures Member(Settings(form).value, "show_arrows") == Some(JBool(Get(form, "show_arrows") == Some("on")))
    ensures Member(Settings(form).value, "show_indicators") == Some(JBool(Get(form, "show_indicators") == Some("on")))
    ensures Member(Settings(form).value, "auto_scroll") == Some(JBool(Get(form, "auto_scroll") == Some("on")))
    ensures Member(Settings(form).value, "scroll_interval") == Some(JInt(IntOr(Get(form, "scroll_interval"), 5000).value))
  {
    var interval := IntOr(Get(form, "scroll_interval"), 5000).value;
    assert Settings(form) == Some(SettingsDict(form, interval));
    SettingsDictFields(form, interval);
  }

  lemma {:induction false} SettingsDictFields(form: Form, interval: int)
    ensures SettingsDict(form, interval).JObj?
    ensures Member(SettingsDict(form, interval), "name") ==
      Some(if Get(form, "title").Some? then JStr(Get(form, "title").value) else JNull)
    ensures Member(SettingsDict(form, interval), "status") == Some(JBool(Flag(form, "status")))
    ensures Member(SettingsDict(form, interval), "show_arrows") == Some(JBool(Flag(form, "show_arrows")))
    ensures Member(SettingsDict(form, interval), "show_indicators") == Some(JBool(Flag(form, "show_indicators")))
    ensures Member(SettingsDict(form, interval), "auto_scroll") == Some(JBool(Flag(form, "auto_scroll")))
    ensures Member(SettingsDict(form, interval), "scroll_interval") == Some(JInt(interval))
  {
    CarouselSettingsLookups(if Get(form, "title").Some? then JStr(Get(form, "title").value) else JNull,
                            JBool(Flag(form, "status")), JBool(Flag(form, "show_arrows")),
                            JBool(Flag(form, "show_indicators")), JBool(Flag(form, "auto_scroll")), JInt(interval));
  }

  /** The slide a record becomes; title and description default to "", colours to None. */
  function NewSlide(id: nat, sliderId: nat, rec: Form): Slide
  {
    Slide(id, sliderId, ImageId(rec, "image_pc_id"), ImageId(rec, "image_mobile_id"),
          GetOr(rec, "title", ""), GetOr(rec, "description", ""),
          OrNone(Get(rec, "title_color")), OrNone(Get(rec, "description_color")))
  }

  /** The slides the loop adds: one per record, in record order, numbered from `last + 1`. */
  function NewSlides(sliderId: nat, last: nat, rs: Records<string>): seq<Slide>
  {
    seq(|rs|, j requires 0 <= j < |rs| => NewSlide(last + 1 + j, sliderId, rs[j].1))
  }

  /** Every record names a PC image: `image_pc_id` is NOT NULL, so the flush of a slide without one fails. */
  predicate AllPcImaged(rs: Records<string>)
  {
    rs == [] || (ImageId(rs[0].1, "image_pc_id").Some? && AllPcImaged(rs[1..]))
  }

  /** The slides can all be flushed exactly when each record's `image_pc_id` converts to a number. */
  lemma {:induction false} AllPcImagedMeans(rs: Records<string>)
    ensures AllPcImaged(rs) <==> forall j :: 0 <= j < |rs| ==> ImageId(rs[j].1, "image_pc_id").Some?
  {
    if rs != [] {
      AllPcImagedMeans(rs[1..]);
      assert forall j :: 1 <= j < |rs| ==> rs[j] == rs[1..][j - 1];
    }
  }

  /**
   * The slider row the form gives is one the first commit accepts: a title
   * (NOT NULL) and a transition that is absent or one of the enumeration's
   * `fade` and `slide`.
   */
  predicate RowAccepted(form: Form)
  {
    Get(form, "title").Some?
    && (Get(form, "transition_type").None? || Get(form, "transition_type").value in {"fade", "slide"})
  }

  /**
   * The slider row the form gives. `form.get("width", type=int)` and the
   * transition are None when absent (the width also when not a number);
   * an INSERT leaves a None column out, so a new row takes the column
   * defaults 100 and `slide`, while an UPDATE writes NULL.
   */
  function SliderColumns(sid: nat, iid: nat, form: Form, isNew: bool): (r: SliderRow)
    ensures r.id == sid && r.instanceId == iid && r.title == Get(form, "title")
    ensures GetInt(form, "width").Some? ==> r.width == GetInt(form, "width")
    ensures GetInt(form, "width").None? ==> r.width == (if isNew then Some(100) else None)
    ensures Get(form, "transition_type").Some? ==> r.transition == Get(form, "transition_type")
    ensures Get(form, "transition_type").None? ==> r.transition == (if isNew then Some("slide") else None)
    ensures r.status == Flag(form, "status") && r.showArrows == Flag(form, "show_arrows")
            && r.showIndicators == Flag(form, "show_indicators")
  {
    var width := if isNew && GetInt(form, "width").None? then Some(100) else GetInt(form, "width");
    var transition := if isNew && Get(form, "transition_type").None? then Some("slide") else Get(form, "transition_type");
    SliderRow(sid, iid, Get(form, "title"), width, transition,
              Flag(form, "status"), Flag(form, "show_arrows"), Flag(form, "show_indicators"))
  }

  lemma {:induction false} NewSlidesAt(sliderId: nat, last: nat, rs: Records<string>, j: nat)
    requires j < |rs|
    ensures |NewSlides(sliderId, last, rs)| == |rs|
    ensures NewSlides(sliderId, last, rs)[j] == NewSlide(last + 1 + j, sliderId, rs[j].1)
  {
  }

  lemma {:induction false} NewSlidesSnoc(sliderId: nat, last: nat, rs: Records<string>, j: nat)
    requires j < |rs|
    ensures NewSlides(sliderId, last, rs[..j + 1]) ==
      NewSlides(sliderId, last, rs[..j]) + [NewSlide(last + 1 + j, sliderId, rs[j].1)]
  {
  }

  // ---------------------------------------------------------------------
  // Buttons

  /** `key.startswith('slides[') and '][buttons][' in key`. */
  predicate IsButtonKey(key: string)
  {
    StartsWith(key, "slides[") && Contains(key, "][buttons][")
  }

  /**
   * The `buttons_tmp` loop: the fields of `slides[s][buttons][b][field]`
   * gathered under `(s, b)`. None where a name lacks the field group
   * (IndexError).
   */
  function ButtonGroups(items: Form): Option<Records<(string, string)>>
  {
    if items == [] then Some([])
    else
      var prev := ButtonGroups(items[..|items| - 1]);
      var key := items[|items| - 1].0;
      if prev.None? then None
      else if !IsButtonKey(key) then prev
      else match (Part(key, 1), Part(key, 3), Part(key, 4))
        case (Some(s), Some(b), Some(f)) => Some(Put(prev.value, (s, b), f, items[|items| - 1].1))
        case _ => None
  }

  lemma {:induction false} ButtonGroupsFailExtends(items: Form, k: nat)
    requires k <= |items| && ButtonGroups(items[..k]).None?
    ensures ButtonGroups(items).None?
    decreases |items|
  {
    if k < |items| {
      var init := items[..|items| - 1];
      assert init[..k] == items[..k];
      ButtonGroupsFailExtends(init, k);
    } else {
      assert items[..k] == items;
    }
  }

  /** The loop filling `buttons_tmp`. */
  method GroupButtons(items: Form) returns (r: Option<Records<(string, string)>>)
    ensures r == ButtonGroups(items)
  {
    var groups: Records<(string, string)> := [];
    var i := 0;
    while i < |items|
      invariant 0 <= i <= |items|
      invariant ButtonGroups(items[..i]) == Some(groups)
    {
      var (key, value) := items[i];
      assert items[..i + 1][..i] == items[..i];
      if IsButtonKey(key) {
        var s := Part(key, 1);
        var b := Part(key, 3);
        var f := Part(key, 4);
        if s.None? || b.None? || f.None? {
          ButtonGroupsFailExtends(items, i + 1);
          return None;
        }
        groups := Put(groups, (s.value, b.value), f.value, value);
      }
      i := i + 1;
    }
    assert items[..|items|] == items;
    r := Some(groups);
  }

  /**
   * A button from its fields: text defaults to "", the other texts to None,
   * and `order` is `int(b)`. None where `int(b)` raises.
   */
  function NewButton(id: nat, slideId: nat, bidx: string, data: Form): (r: Option<Button>)
    ensures r.Some? <==> ParseInt(bidx).Some?
    ensures r.Some? ==> r.value.id == id && r.value.slideId == slideId && Some(r.value.order) == ParseInt(bidx)
  {
    match ParseInt(bidx)
    case None => None
    case Some(order) =>
      Some(Button(id, slideId, OrEmpty(Get(data, "text")), OrNone(Get(data, "url")),
                  OrNone(Get(data, "bg_color")), OrNone(Get(data, "text_color")), order))
  }

  /**
   * The button loop: each group whose slide `locate` finds becomes a button
   * of that slide, numbered from `last + 1`; groups with no slide are
   * skipped. None where a button index is not an integer.
   */
  function ButtonsFrom(groups: Records<(string, string)>, locate: Locator, last: nat): Option<seq<Button>>
  {
    if groups == [] then Some([])
    else AddGroup(ButtonsFrom(groups[..|groups| - 1], locate, last), groups[|groups| - 1], locate, last)
  }

  /** One iteration of the button loop over the buttons made so far. */
  function AddGroup(prev: Option<seq<Button>>, g: ((string, string), Form), locate: Locator, last: nat): Option<seq<Button>>
  {
    if prev.None? then None
    else match Locate(locate, g.0.0)
      case None => prev
      case Some(slideId) =>
        match NewButton(last + 1 + |prev.value|, slideId, g.0.1, g.1)
        case None => None
        case Some(b) => Some(prev.value + [b])
  }

  /** Each button comes from a group whose slide `locate` finds, with that slide and `order == int(b)`. */
  lemma {:induction false} ButtonsFromSpec(groups: Records<(string, string)>, locate: Locator, last: nat)
    requires ButtonsFrom(groups, locate, last).Some?
    ensures forall k :: 0 <= k < |ButtonsFrom(groups, locate, last).value| ==>
      var b := ButtonsFrom(groups, locate, last).value[k];
      b.id == last + 1 + k
      && exists j :: 0 <= j < |groups| && Locate(locate, groups[j].0.0) == Some(b.slideId) && ParseInt(groups[j].0.1) == Some(b.order)
  {
    if groups != [] {
      var init := groups[..|groups| - 1];
      ButtonsFromSpec(init, locate, last);
      var prev := ButtonsFrom(init, locate, last).value;
      var bs := ButtonsFrom(groups, locate, last).value;
      forall k | 0 <= k < |bs|
        ensures bs[k].id == last + 1 + k
        ensures exists j :: 0 <= j < |groups| && Locate(locate, groups[j].0.0) == Some(bs[k].slideId) && ParseInt(groups[j].0.1) == Some(bs[k].order)
      {
        if k < |prev| {
          assert bs[k] == prev[k];
          var j :| 0 <= j < |init| && Locate(locate, init[j].0.0) == Some(prev[k].slideId) && ParseInt(init[j].0.1) == Some(prev[k].order);
          assert groups[j] == init[j];
        } else {
          assert Locate(locate, groups[|groups| - 1].0.0).Some?;
        }
      }
    }
  }

  lemma {:induction false} ButtonsFromStep(groups: Records<(string, string)>, locate: Locator, last: nat, k: nat)
    requires k < |groups|
    ensures ButtonsFrom(groups[..k + 1], locate, last) == AddGroup(ButtonsFrom(groups[..k], locate, last), groups[k], locate, last)
  {
    assert groups[..k + 1][..k] == groups[..k];
  }

  lemma {:induction false} ButtonsFromFailExtends(groups: Records<(string, string)>, locate: Locator, last: nat, k: nat)
    requires k <= |groups| && ButtonsFrom(groups[..k], locate, last).None?
    ensures ButtonsFrom(groups, locate, last).None?
    decreases |groups|
  {
    if k < |groups| {
      var init := groups[..|groups| - 1];
      assert init[..k] == groups[..k];
      ButtonsFromFailExtends(init, locate, last, k);
    } else {
      assert groups[..k] == groups;
    }
  }

  /**
   * The second phase of `save_instance` over the committed tables: the
   * slides and buttons the session gathers, kept only if the commit is
   * reached.
   */
  method FillTables(db1: SliderDb, iid: nat, sid: nat, form: Form) returns (res: SaveResult, db2: SliderDb)
    ensures res == Fill(db1, iid, sid, form).0
    ensures db2 == Fill(db1, iid, sid, form).1
    ensures db2 == db1.(slides := db2.slides, buttons := db2.buttons, lastId := db2.lastId)
  {
    var rs := GroupForm(Items(form), "slides[", false);
    if rs.None? {
      return Crashed, db1;
    }
    res, db2 := FillFromRecords(db1, iid, sid, form, rs.value);
  }

  /** The slide loop, whose flushes fail on a slide without a PC image, then the button loops. */
  method FillFromRecords(db1: SliderDb, iid: nat, sid: nat, form: Form, records: Records<string>)
    returns (res: SaveResult, db2: SliderDb)
    ensures res == FillRecords(db1, iid, sid, form, records).0
    ensures db2 == FillRecords(db1, iid, sid, form, records).1
    ensures db2 == db1.(slides := db2.slides, buttons := db2.buttons, lastId := db2.lastId)
  {
    if !AllPcImaged(records) {
      return Crashed, db1;
    }
    res, db2 := FillButtons(db1, iid, sid, form, records);
  }

  /** The slides made, then the button loops over the form, and the second commit. */
  method FillButtons(db1: SliderDb, iid: nat, sid: nat, form: Form, records: Records<string>)
    returns (res: SaveResult, db2: SliderDb)
    ensures res == ButtonsPhase(db1, iid, sid, form, records).0
    ensures db2 == ButtonsPhase(db1, iid, sid, form, records).1
    ensures db2 == db1.(slides := db2.slides, buttons := db2.buttons, lastId := db2.lastId)
  {
    db2 := db1;
    var items := Items(form);
    var added := MakeSlides(sid, db1.lastId, records);
    var grouped := GroupButtons(items);
    if grouped.None? {
      return Crashed, db2;
    }
    var made := MakeButtons(grouped.value, ByIndex(records, db1.lastId), db1.lastId + |records|);
    if made.None? {
      return Crashed, db2;
    }
    db2 := db1.(slides := db1.slides + added, buttons := db1.buttons + made.value,
                lastId := db1.lastId + |records| + |made.value|);
    res := Saved(iid, SavedFlash);
  }

  /** The slide loop: one new slide per record, numbered on from `last`. */
  method MakeSlides(sid: nat, last: nat, records: Records<string>) returns (added: seq<Slide>)
    ensures added == NewSlides(sid, last, records)
  {
    added := [];
    var j := 0;
    while j < |records|
      invariant 0 <= j <= |records|
      invariant added == NewSlides(sid, last, records[..j])
    {
      NewSlidesSnoc(sid, last, records, j);
      added := added + [NewSlide(last + 1 + j, sid, records[j].1)];
      j := j + 1;
    }
    assert records[..|records|] == records;
  }

  /**
   * The button loop: the buttons `ButtonsFrom` describes, numbered on from
   * `last`; None on a bad button index.
   */
  method MakeButtons(groups: Records<(string, string)>, locate: Locator, last: nat)
    returns (made: Option<seq<Button>>)
    ensures made == ButtonsFrom(groups, locate, last)
  {
    var added: seq<Button> := [];
    var k := 0;
    while k < |groups|
      invariant 0 <= k <= |groups|
      invariant ButtonsFrom(groups[..k], locate, last) == Some(added)
    {
      var next := ButtonStep(groups, locate, last, k, added);
      if next.None? {
        return None;
      }
      added := next.value;
      k := k + 1;
    }
    assert groups[..|groups|] == groups;
    made := Some(added);
  }

  /** One pass of the button loop: the group's button, if its slide is found; None when its index is not an integer. */
  method ButtonStep(groups: Records<(string, string)>, locate: Locator, last: nat, k: nat, added: seq<Button>)
    returns (next: Option<seq<Button>>)
    requires k < |groups| && ButtonsFrom(groups[..k], locate, last) == Some(added)
    ensures next.None? ==> ButtonsFrom(groups, locate, last).None?
    ensures next.Some? ==> ButtonsFrom(groups[..k + 1], locate, last) == next
  {
    var g := groups[k];
    ButtonsFromStep(groups, locate, last, k);
    var slide := Locate(locate, g.0.0);
    if slide.None? {
      return Some(added);
    }
    var b := NewButton(last + 1 + |added|, slide.value, g.0.1, g.1);
    if b.None? {
      ButtonsFromFailExtends(groups, locate, last, k + 1);
      return None;
    }
    next := Some(added + [b.value]);
  }

  /** The first position below `n` whose decimal text is `sidx`. */
  function FindPosition(sidx: string, n: nat): (r: Option<nat>)
    ensures r.Some? ==> r.value < n && NatToString(r.value) == sidx
    ensures r.None? ==> forall i :: 0 <= i < n ==> NatToString(i) != sidx
  {
    if n == 0 then None
    else match FindPosition(sidx, n - 1)
      case Some(i) => Some(i)
      case None => if NatToString(n - 1) == sidx then Some(n - 1) else None
  }


  /** The position of the record submitted under `idx`. */
  function RecordPosition(rs: Records<string>, idx: string): (r: Option<nat>)
    ensures r.Some? ==> r.value < |rs| && rs[r.value].0 == idx
    ensures r.None? ==> forall j :: 0 <= j < |rs| ==> rs[j].0 != idx
  {
    if rs == [] then None
    else if rs[|rs| - 1].0 == idx && RecordPosition(rs[..|rs| - 1], idx).None? then Some(|rs| - 1)
    else RecordPosition(rs[..|rs| - 1], idx)
  }

  /**
   * How a button's slide index selects its slide. As written
   * (`ByPosition`): `slides_map = {str(i): id}` over the slider's slides in
   * id order, so `sidx` selects the slide at enumeration position
   * `int(sidx)`, whatever index that slide was submitted under. Corrected
   * (`ByIndex`): `sidx` selects the slide created, with ids from
   * `last + 1`, from the record submitted under `sidx`.
   */
  datatype Locator = ByPosition(slideIds: seq<nat>) | ByIndex(rs: Records<string>, last: nat)

  /** The slide a slide index selects, if any. */
  function Locate(loc: Locator, sidx: string): Option<nat>
  {
    match loc
    case ByPosition(slideIds) =>
      (match FindPosition(sidx, |slideIds|)
       case Some(i) => Some(slideIds[i])
       case None => None)
    case ByIndex(rs, last) =>
      (match RecordPosition(rs, sidx)
       case Some(j) => Some(last + 1 + j)
       case None => None)
  }

  /** As written, a button lands on the slide whose enumeration position prints as its slide index. */
  lemma {:induction false} ButtonsAsWritten(groups: Records<(string, string)>, slideIds: seq<nat>, last: nat)
    requires ButtonsFrom(groups, ByPosition(slideIds), last).Some?
    ensures forall b :: b in ButtonsFrom(groups, ByPosition(slideIds), last).value ==>
      exists j, i :: 0 <= j < |groups| && 0 <= i < |slideIds| && NatToString(i) == groups[j].0.0 && b.slideId == slideIds[i]
  {
    ButtonsFromSpec(groups, ByPosition(slideIds), last);
    var bs := ButtonsFrom(groups, ByPosition(slideIds), last).value;
    forall b | b in bs
      ensures exists j, i :: 0 <= j < |groups| && 0 <= i < |slideIds| && NatToString(i) == groups[j].0.0 && b.slideId == slideIds[i]
    {
      var k :| 0 <= k < |bs| && bs[k] == b;
      var j :| 0 <= j < |groups| && Locate(ByPosition(slideIds), groups[j].0.0) == Some(b.slideId) && ParseInt(groups[j].0.1) == Some(b.order);
      var i := PositionOf(slideIds, groups[j].0.0, b.slideId);
    }
  }

  /** The position a slide index resolves to, as written. */
  lemma {:induction false} PositionOf(slideIds: seq<nat>, sidx: string, id: nat) returns (i: nat)
    requires Locate(ByPosition(slideIds), sidx) == Some(id)
    ensures i < |slideIds| && NatToString(i) == sidx && id == slideIds[i]
  {
    i := FindPosition(sidx, |slideIds|).value;
  }

  /** Corrected, a button lands on the slide made from the record submitted under its own slide index. */
  lemma {:induction false} ButtonsByIndex(groups: Records<(string, string)>, rs: Records<string>, last: nat, buttonsLast: nat)
    requires ButtonsFrom(groups, ByIndex(rs, last), buttonsLast).Some?
    ensures forall b :: b in ButtonsFrom(groups, ByIndex(rs, last), buttonsLast).value ==>
      exists j, p :: 0 <= j < |groups| && 0 <= p < |rs| && rs[p].0 == groups[j].0.0 && b.slideId == last + 1 + p
                     && Some(b.order) == ParseInt(groups[j].0.1)
  {
    var locate := ByIndex(rs, last);
    ButtonsFromSpec(groups, locate, buttonsLast);
    var bs := ButtonsFrom(groups, locate, buttonsLast).value;
    forall b | b in bs
      ensures exists j, p :: 0 <= j < |groups| && 0 <= p < |rs| && rs[p].0 == groups[j].0.0 && b.slideId == last + 1 + p
                             && Some(b.order) == ParseInt(groups[j].0.1)
    {
      var k :| 0 <= k < |bs| && bs[k] == b;
      var j :| 0 <= j < |groups| && Locate(locate, groups[j].0.0) == Some(b.slideId) && ParseInt(groups[j].0.1) == Some(b.order);
      var p := IndexOf(rs, last, groups[j].0.0, b.slideId);
      assert 0 <= j < |groups| && 0 <= p < |rs| && rs[p].0 == groups[j].0.0 && b.slideId == last + 1 + p
             && Some(b.order) == ParseInt(groups[j].0.1);
    }
  }

  /** The record a slide index resolves to, corrected. */
  lemma {:induction false} IndexOf(rs: Records<string>, last: nat, sidx: string, id: nat) returns (p: nat)
    requires Locate(ByIndex(rs, last), sidx) == Some(id)
    ensures p < |rs| && rs[p].0 == sidx && id == last + 1 + p
  {
    p := RecordPosition(rs, sidx).value;
  }

  /**
   * The form `slides[1][title]=A`, `slides[1][buttons][0][text]=Go` (one
   * slide, submitted under index 1, with one button). As written, the only
   * slide sits at position 0, so `slides_map` has only the key "0" and the
   * button is dropped; attached by index, it lands on that slide.
   */
  lemma {:induction false} DroppedButtonExample()
    ensures var rs := [("1", [("title", "A"), ("buttons", "Go")])];
      var groups := [(("1", "0"), [("text", "Go")])];
      ButtonsFrom(groups, ByPosition([11]), 11) == Some([])
      && ButtonsFrom(groups, ByIndex(rs, 10), 11) == Some([Button(12, 11, "Go", None, None, None, 0)])
  {
    var rs := [("1", [("title", "A"), ("buttons", "Go")])];
    var groups := [(("1", "0"), [("text", "Go")])];
    var data := [("text", "Go")];
    assert groups[..0] == [];
    assert ButtonsFrom(groups[..0], ByPosition([11]), 11) == Some([]);
    assert ButtonsFrom(groups[..0], ByIndex(rs, 10), 11) == Some([]);
    assert NatToString(0) == "0";
    assert "0" != "1";
    assert FindPosition("1", 1).None?;
    assert Locate(ByPosition([11]), "1").None?;
    assert rs[..0] == [];
    assert RecordPosition(rs, "1") == Some(0);
    assert Locate(ByIndex(rs, 10), "1") == Some(11);
    assert ParseInt("0") == Some(0) by {
      assert "0"[..0] == "";
      assert DigitsValue("0") == 0;
      ParseIntDigits("0");
    }
    assert Get(data, "text") == Some("Go");
    assert "url" != "text" && "bg_color" != "text" && "text_color" != "text";
    assert Get(data, "url").None? && Get(data, "bg_color").None? && Get(data, "text_color").None?;
    var b := Button(12, 11, "Go", None, None, None, 0);
    assert NewButton(11 + 1 + 0, 11, "0", data) == Some(b);
    assert groups[|groups| - 1] == (("1", "0"), data);
    var none: seq<Button> := [];
    assert none + [b] == [b];
  }

  // ---------------------------------------------------------------------
  // Table queries and updates

  /** `SliderModuleInstance.query.filter_by(module_instance_id=id).first()`. */
  function FirstSlider(sliders: seq<SliderRow>, instanceId: nat): (r: Option<SliderRow>)
    ensures r.Some? ==> r.value in sliders && r.value.instanceId == instanceId
    ensures r.None? <==> forall s :: s in sliders ==> s.instanceId != instanceId
  {
    if sliders == [] then None
    else if sliders[0].instanceId == instanceId then Some(sliders[0])
    else FirstSlider(sliders[1..], instanceId)
  }

  /** Writing the fields of the slider row `row.id`. */
  function UpdateSlider(sliders: seq<SliderRow>, row: SliderRow): (r: seq<SliderRow>)
    ensures |r| == |sliders|
    ensures forall k :: 0 <= k < |r| ==> r[k] == if sliders[k].id == row.id then row else sliders[k]
  {
    seq(|sliders|, k requires 0 <= k < |sliders| => if sliders[k].id == row.id then row else sliders[k])
  }

  function DropSlider(sliders: seq<SliderRow>, id: nat): (r: seq<SliderRow>)
    ensures forall s :: s in r <==> s in sliders && s.id != id
  {
    if sliders == [] then []
    else (if sliders[0].id == id then [] else [sliders[0]]) + DropSlider(sliders[1..], id)
  }

  /** `SliderItem.query.filter_by(slider_id=id).all()`, in table order. */
  function SlidesOf(slides: seq<Slide>, sliderId: nat): (r: seq<Slide>)
    ensures forall s :: s in r <==> s in slides && s.sliderId == sliderId
  {
    if slides == [] then []
    else (if slides[0].sliderId == sliderId then [slides[0]] else []) + SlidesOf(slides[1..], sliderId)
  }

  /** The slides of every other slider. */
  function DropSlidesOf(slides: seq<Slide>, sliderId: nat): (r: seq<Slide>)
    ensures forall s :: s in r <==> s in slides && s.sliderId != sliderId
  {
    if slides == [] then []
    else (if slides[0].sliderId == sliderId then [] else [slides[0]]) + DropSlidesOf(slides[1..], sliderId)
  }

  /** A button is cascaded away with its slide when that slide belongs to `sliderId`. */
  predicate OnSliderSlide(b: Button, slides: seq<Slide>, sliderId: nat)
  {
    exists s :: s in slides && s.id == b.slideId && s.sliderId == sliderId
  }

  /** The buttons that survive deleting the slides of `sliderId` through the ORM (delete-orphan cascade). */
  function KeepButtons(buttons: seq<Button>, slides: seq<Slide>, sliderId: nat): (r: seq<Button>)
    ensures forall b :: b in r <==> b in buttons && !OnSliderSlide(b, slides, sliderId)
  {
    if buttons == [] then []
    else
      var head := if OnSliderSlide(buttons[0], slides, sliderId) then [] else [buttons[0]];
      head + KeepButtons(buttons[1..], slides, sliderId)
  }

  function SlideIds(slides: seq<Slide>): (r: seq<Json>)
    ensures |r| == |slides| && forall k :: 0 <= k < |slides| ==> r[k] == JInt(slides[k].id)
  {
    seq(|slides|, k requires 0 <= k < |slides| => JInt(slides[k].id))
  }

  // ---------------------------------------------------------------------
  // Saving

  /**
   * The first phase, committed at line 70: the instance (its settings
   * replaced, or a new instance with template "default"), then the slider
   * row (found, with its old slides and their buttons deleted, or created),
   * with the title, width, transition and flags written. Gives the tables,
   * the instance id and the slider id; None where a new instance names a
   * module that does not exist (the foreign key fails on flush) or the
   * slider row is refused at the commit (no title, or a transition outside
   * the enumeration).
   */
  function Prepare(db: SliderDb, modules: seq<Module>, moduleId: nat, form: Form, instanceId: nat,
                   settings: Json): Option<(SliderDb, nat, nat)>
  {
    var existing := instanceId != 0 && FindInstance(db.instances, instanceId).Some?;
    if (!existing && FindModule(modules, moduleId).None?) || !RowAccepted(form) then None
    else
      var iid := if existing then instanceId else db.lastId + 1;
      var instances := if existing then WithSettings(db.instances, instanceId, Dumps(settings))
        else db.instances + [Instance(iid, moduleId, FindModule(modules, moduleId).value.name, Dumps(settings), "default", None)];
      var last := if existing then db.lastId else db.lastId + 1;
      var found := FirstSlider(db.sliders, iid);
      var sid := if found.Some? then found.value.id else last + 1;
      var row := SliderColumns(sid, iid, form, found.None?);
      if found.Some? then
        Some((SliderDb(instances, UpdateSlider(db.sliders, row), DropSlidesOf(db.slides, sid),
                       KeepButtons(db.buttons, db.slides, sid), last), iid, sid))
      else
        Some((SliderDb(instances, db.sliders + [row], db.slides, db.buttons, last + 1), iid, sid))
  }

  /**
   * `save_instance(module_id, form, instance_id)` (instance id 0 when none
   * is given): the result and the tables afterwards. The slides come from
   * `slides[i][field]`, one per distinct index; the buttons are attached,
   * corrected, to the slide submitted under their own slide index.
   */
  function SaveSpec(db: SliderDb, modules: seq<Module>, moduleId: nat, form: Form, instanceId: nat): (SaveResult, SliderDb)
  {
    if moduleId == 0 then (MissingModuleId(MissingModuleFlash), db)
    else match Settings(form)
      case None => (Crashed, db)
      case Some(settings) =>
        match Prepare(db, modules, moduleId, form, instanceId, settings)
        case None => (Crashed, db)
        case Some((db1, iid, sid)) => Fill(db1, iid, sid, form)
  }

  /**
   * The body of `save_instance` on the tables as values: the tables after
   * the first commit, and after the second, which writes only slides and
   * buttons.
   */
  method SavePhases(db: SliderDb, modules: seq<Module>, moduleId: nat, form: Form, instanceId: nat)
    returns (res: SaveResult, db1: SliderDb, db2: SliderDb)
    ensures res == SaveSpec(db, modules, moduleId, form, instanceId).0
    ensures db2 == SaveSpec(db, modules, moduleId, form, instanceId).1
    ensures db2 == db1.(slides := db2.slides, buttons := db2.buttons, lastId := db2.lastId)
  {
    if moduleId == 0 {
      return MissingModuleId(MissingModuleFlash), db, db;
    }
    var settings := Settings(form);
    if settings.None? {
      return Crashed, db, db;
    }
    var prepared := Prepare(db, modules, moduleId, form, instanceId, settings.value);
    if prepared.None? {
      return Crashed, db, db;
    }
    var iid, sid;
    db1, iid, sid := prepared.value.0, prepared.value.1, prepared.value.2;
    res, db2 := FillTables(db1, iid, sid, form);
  }

  /**
   * The second phase, over the tables the first committed: the slides, one
   * per grouped record, then their buttons. Where the form is malformed or
   * a slide has no PC image the request fails and the first phase's tables
   * stay.
   */
  function Fill(db1: SliderDb, iid: nat, sid: nat, form: Form): (SaveResult, SliderDb)
  {
    match GroupFields(Items(form), "slides[", false)
    case None => (Crashed, db1)
    case Some(rs) => FillRecords(db1, iid, sid, form, rs)
  }

  /** The second phase once the slide records are grouped: the slides' flushes, then the buttons. */
  function FillRecords(db1: SliderDb, iid: nat, sid: nat, form: Form, rs: Records<string>): (SaveResult, SliderDb)
  {
    if !AllPcImaged(rs) then (Crashed, db1) else ButtonsPhase(db1, iid, sid, form, rs)
  }

  /** Past the slides' flushes: the button loops and the second commit. */
  function ButtonsPhase(db1: SliderDb, iid: nat, sid: nat, form: Form, rs: Records<string>): (SaveResult, SliderDb)
  {
    match ButtonGroups(Items(form))
    case None => (Crashed, db1)
    case Some(groups) =>
      match ButtonsFrom(groups, ByIndex(rs, db1.lastId), db1.lastId + |rs|)
      case None => (Crashed, db1)
      case Some(bs) =>
        (Saved(iid, SavedFlash),
         db1.(slides := db1.slides + NewSlides(sid, db1.lastId, rs), buttons := db1.buttons + bs,
              lastId := db1.lastId + |rs| + |bs|))
  }

  /**
   * How a save ends. A missing module id is the only redirect with an error.
   * Before the first commit, an interval `int()` rejects, a new instance
   * naming a missing module, or a slider row without a title or with a
   * transition outside the enumeration fail the request with nothing
   * written. Past it, a failure keeps the first commit; a slide without a PC
   * image is such a failure, and a save that succeeds had every slide's
   * image.
   */
  lemma {:induction false} SaveOutcome(db: SliderDb, modules: seq<Module>, moduleId: nat, form: Form, instanceId: nat)
    ensures var (res, db2) := SaveSpec(db, modules, moduleId, form, instanceId);
      var newMissing := (instanceId == 0 || FindInstance(db.instances, instanceId).None?) && FindModule(modules, moduleId).None?;
      var grouped := GroupFields(Items(form), "slides[", false);
      (res.MissingModuleId? <==> moduleId == 0)
      && (moduleId != 0 && (Settings(form).None? || newMissing || !RowAccepted(form)) ==> res.Crashed? && db2 == db)
      && (moduleId != 0 && Settings(form).Some? && !newMissing && RowAccepted(form) ==>
            Prepare(db, modules, moduleId, form, instanceId, Settings(form).value).Some?
            && (res.Crashed? ==> db2 == Prepare(db, modules, moduleId, form, instanceId, Settings(form).value).value.0)
            && (grouped.Some? && !AllPcImaged(grouped.value) ==> res.Crashed?)
            && (res.Saved? ==> grouped.Some? && AllPcImaged(grouped.value)))
  {
    if moduleId != 0 && Settings(form).Some? {
      var settings := Settings(form).value;
      var prepared := Prepare(db, modules, moduleId, form, instanceId, settings);
      if prepared.Some? {
        var (db1, iid, sid) := prepared.value;
        FillOutcome(db1, iid, sid, form);
      }
    }
  }

  /** The second phase ends in a save or a failure that keeps the first commit; the failure covers every slide without a PC image. */
  lemma {:induction false} FillOutcome(db1: SliderDb, iid: nat, sid: nat, form: Form)
    ensures var (res, db2) := Fill(db1, iid, sid, form);
      var grouped := GroupFields(Items(form), "slides[", false);
      (res.Crashed? || res == Saved(iid, SavedFlash))
      && (res.Crashed? ==> db2 == db1)
      && (res.Saved? <==> grouped.Some? && AllPcImaged(grouped.value) && ButtonsPhase(db1, iid, sid, form, grouped.value).0.Saved?)
  {
  }

  lemma {:induction false} SlidesOfAppendNew(slides: seq<Slide>, sid: nat, last: nat, rs: Records<string>)
    requires forall s :: s in slides ==> s.sliderId != sid
    ensures SlidesOf(slides + NewSlides(sid, last, rs), sid) == NewSlides(sid, last, rs)
  {
    var added := NewSlides(sid, last, rs);
    SlidesOfForeign(slides, added, sid);
    forall k | 0 <= k < |added| ensures added[k].sliderId == sid {
      NewSlidesAt(sid, last, rs, k);
    }
    SlidesOfOwn(added, sid);
  }

  /** Slides of other sliders in front change nothing. */
  lemma {:induction false} SlidesOfForeign(slides: seq<Slide>, ys: seq<Slide>, sid: nat)
    requires forall s :: s in slides ==> s.sliderId != sid
    ensures SlidesOf(slides + ys, sid) == SlidesOf(ys, sid)
  {
    if slides != [] {
      assert (slides + ys)[1..] == slides[1..] + ys;
      SlidesOfForeign(slides[1..], ys, sid);
    } else {
      assert slides + ys == ys;
    }
  }

  /** Slides all on the slider are all kept, in order. */
  lemma {:induction false} SlidesOfOwn(ys: seq<Slide>, sid: nat)
    requires forall k :: 0 <= k < |ys| ==> ys[k].sliderId == sid
    ensures SlidesOf(ys, sid) == ys
  {
    if ys != [] {
      SlidesOfOwn(ys[1..], sid);
    }
  }

  /**
   * What the first phase commits: the instance with the new settings, its
   * slider row (the first one for the instance) with the submitted fields,
   * no slides left on that slider and every other slider's slides kept.
   */
  lemma {:induction false} PrepareSpec(db: SliderDb, modules: seq<Module>, moduleId: nat, form: Form, instanceId: nat, settings: Json)
    requires Valid(db)
    requires Prepare(db, modules, moduleId, form, instanceId, settings).Some?
    ensures var (db1, iid, sid) := Prepare(db, modules, moduleId, form, instanceId, settings).value;
      FindInstance(db1.instances, iid).Some? && FindInstance(db1.instances, iid).value.settings == Dumps(settings)
      && FirstSlider(db1.sliders, iid) == Some(SliderColumns(sid, iid, form, FirstSlider(db.sliders, iid).None?))
      && (forall s :: s in db1.slides ==> s.sliderId != sid)
      && (forall s :: s in db.slides && s.sliderId != sid ==> s in db1.slides)
  {
    PrepareInstance(db, modules, moduleId, form, instanceId, settings);
    PrepareSlider(db, modules, moduleId, form, instanceId, settings);
  }

  lemma {:induction false} PrepareInstance(db: SliderDb, modules: seq<Module>, moduleId: nat, form: Form, instanceId: nat,
                                           settings: Json)
    requires forall i :: i in db.instances ==> i.id <= db.lastId
    requires Prepare(db, modules, moduleId, form, instanceId, settings).Some?
    ensures var (db1, iid, sid) := Prepare(db, modules, moduleId, form, instanceId, settings).value;
      FindInstance(db1.instances, iid).Some? && FindInstance(db1.instances, iid).value.settings == Dumps(settings)
  {
    var (db1, iid, sid) := Prepare(db, modules, moduleId, form, instanceId, settings).value;
    if instanceId != 0 && FindInstance(db.instances, instanceId).Some? {
      assert iid == instanceId && db1.instances == WithSettings(db.instances, instanceId, Dumps(settings));
      FindInstanceWithSettings(db.instances, instanceId, Dumps(settings));
    } else {
      var added := Instance(db.lastId + 1, moduleId, FindModule(modules, moduleId).value.name, Dumps(settings), "default", None);
      assert iid == added.id && db1.instances == db.instances + [added];
      FindInstanceAppend(db.instances, added);
    }
  }

  lemma {:induction false} PrepareSlider(db: SliderDb, modules: seq<Module>, moduleId: nat, form: Form, instanceId: nat,
                                         settings: Json)
    requires Valid(db)
    requires Prepare(db, modules, moduleId, form, instanceId, settings).Some?
    ensures var (db1, iid, sid) := Prepare(db, modules, moduleId, form, instanceId, settings).value;
      FirstSlider(db1.sliders, iid) == Some(SliderColumns(sid, iid, form, FirstSlider(db.sliders, iid).None?))
      && (forall s :: s in db1.slides ==> s.sliderId != sid)
      && (forall s :: s in db.slides && s.sliderId != sid ==> s in db1.slides)
  {
    var (db1, iid, sid) := Prepare(db, modules, moduleId, form, instanceId, settings).value;
    var row := SliderColumns(sid, iid, form, FirstSlider(db.sliders, iid).None?);
    if FirstSlider(db.sliders, iid).Some? {
      FirstSliderUpdate(db.sliders, iid, row);
    } else {
      FirstSliderAppend(db.sliders, iid, row);
    }
  }

  /** What the second phase adds when it reaches the commit: exactly the new slides on the slider. */
  lemma {:induction false} FillSpec(db1: SliderDb, iid: nat, sid: nat, form: Form)
    requires forall s :: s in db1.slides ==> s.sliderId != sid
    requires Fill(db1, iid, sid, form).0.Saved?
    ensures var (res, db2) := Fill(db1, iid, sid, form);
      res.instanceId == iid && db2.instances == db1.instances && db2.sliders == db1.sliders
      && SlidesOf(db2.slides, sid) == NewSlides(sid, db1.lastId, GroupFields(Items(form), "slides[", false).value)
      && (forall s :: s in db1.slides ==> s in db2.slides)
  {
    SlidesOfAppendNew(db1.slides, sid, db1.lastId, GroupFields(Items(form), "slides[", false).value);
  }

  /**
   * After a save that succeeds: the instance holds the new settings, its
   * slider row carries the submitted fields, and the slider's slides are
   * exactly one per grouped record, in record order. Other sliders keep
   * their slides.
   */
  lemma {:induction false} SavedState(db: SliderDb, modules: seq<Module>, moduleId: nat, form: Form, instanceId: nat)
    requires Valid(db)
    requires SaveSpec(db, modules, moduleId, form, instanceId).0.Saved?
    ensures var (res, db2) := SaveSpec(db, modules, moduleId, form, instanceId);
      var rs := GroupFields(Items(form), "slides[", false).value;
      FindInstance(db2.instances, res.instanceId).Some?
      && FindInstance(db2.instances, res.instanceId).value.settings == Dumps(Settings(form).value)
      && FirstSlider(db2.sliders, res.instanceId).Some?
      && var row := FirstSlider(db2.sliders, res.instanceId).value;
         row.title == Get(form, "title") && row.status == Flag(form, "status")
         && (GetInt(form, "width").Some? ==> row.width == GetInt(form, "width"))
         && (Get(form, "transition_type").Some? ==> row.transition == Get(form, "transition_type"))
         && |SlidesOf(db2.slides, row.id)| == |rs|
         && (forall j :: 0 <= j < |rs| ==>
               SlidesOf(db2.slides, row.id)[j] == NewSlide(SlidesOf(db2.slides, row.id)[j].id, row.id, rs[j].1))
         && (forall s :: s in db.slides && s.sliderId != row.id ==> s in db2.slides)
  {
    var settings := Settings(form).value;
    PrepareSpec(db, modules, moduleId, form, instanceId, settings);
    var (db1, iid, sid) := Prepare(db, modules, moduleId, form, instanceId, settings).value;
    assert SaveSpec(db, modules, moduleId, form, instanceId) == Fill(db1, iid, sid, form);
    FillSpec(db1, iid, sid, form);
    var (res, db2) := Fill(db1, iid, sid, form);
    var rs := GroupFields(Items(form), "slides[", false).value;
    var added := NewSlides(sid, db1.lastId, rs);
    assert FirstSlider(db2.sliders, res.instanceId).value.id == sid;
    assert SlidesOf(db2.slides, sid) == added;
    forall j | 0 <= j < |rs|
      ensures added[j] == NewSlide(added[j].id, sid, rs[j].1)
    {
      NewSlidesAt(sid, db1.lastId, rs, j);
    }
  }

  lemma {:induction false} FirstSliderUpdate(sliders: seq<SliderRow>, iid: nat, row: SliderRow)
    requires FirstSlider(sliders, iid).Some? && row.id == FirstSlider(sliders, iid).value.id && row.instanceId == iid
    ensures FirstSlider(UpdateSlider(sliders, row), iid) == Some(row)
  {
    var u := UpdateSlider(sliders, row);
    if sliders[0].instanceId != iid {
      assert u[1..] == UpdateSlider(sliders[1..], row);
      if sliders[0].id == row.id {
        assert u[0] == row;
      } else {
        FirstSliderUpdate(sliders[1..], iid, row);
      }
    }
  }

  lemma {:induction false} FirstSliderAppend(sliders: seq<SliderRow>, iid: nat, row: SliderRow)
    requires FirstSlider(sliders, iid).None? && row.instanceId == iid
    ensures FirstSlider(sliders + [row], iid) == Some(row)
  {
    if sliders != [] {
      assert (sliders + [row])[1..] == sliders[1..] + [row];
      FirstSliderAppend(sliders[1..], iid, row);
    }
  }

  // ---------------------------------------------------------------------
  // Load, delete and the instance data

  /**
   * `load_instance_data(instance_id)`: with no id, no instance, no slider
   * and no slides; otherwise the instance (a 404, None, when it does not
   * exist), its slider row and that slider's slides.
   */
  function LoadInstanceData(instanceId: nat, db: SliderDb): (r: Option<map<string, Json>>)
    ensures instanceId == 0 ==> r == Some(map["module_instance" := JNull, "slider" := JNull, "slides" := JArr([])])
    ensures instanceId != 0 ==> (r.None? <==> FindInstance(db.instances, instanceId).None?)
    ensures r.Some? ==> r.value.Keys == {"module_instance", "slider", "slides"}
    ensures r.Some? && instanceId != 0 ==> r.value["module_instance"] == JInt(instanceId)
    ensures r.Some? && instanceId != 0 ==> (r.value["slider"] == JNull <==> FirstSlider(db.sliders, instanceId).None?)
    ensures r.Some? && instanceId != 0 && FirstSlider(db.sliders, instanceId).None? ==> r.value["slides"] == JArr([])
  {
    if instanceId == 0 then Some(map["module_instance" := JNull, "slider" := JNull, "slides" := JArr([])])
    else if FindInstance(db.instances, instanceId).None? then None
    else
      var slider := FirstSlider(db.sliders, instanceId);
      Some(map["module_instance" := JInt(instanceId),
               "slider" := if slider.Some? then JInt(slider.value.id) else JNull,
               "slides" := JArr(if slider.Some? then SlideIds(SlidesOf(db.slides, slider.value.id)) else [])])
  }

  /**
   * `get_instance_data(module_instance)`, the same in the editor and on the
   * storefront: defaults with no instance, else the decoded settings, the
   * slider row and its slides.
   */
  function InstanceData(inst: Option<Instance>, db: SliderDb): (r: Option<map<string, Json>>)
    ensures inst.None? ==> r == Some(map["settings" := EmptyObject, "slider" := JNull, "slides" := JArr([])])
    ensures inst.Some? ==> (r.None? <==> inst.value.settings.BadText?)
    ensures r.Some? ==> r.value.Keys == {"settings", "slider", "slides"}
  {
    match inst
    case None => Some(map["settings" := EmptyObject, "slider" := JNull, "slides" := JArr([])])
    case Some(i) =>
      match LoadSettings(i.settings)
      case None => None
      case Some(settings) =>
        var slider := FirstSlider(db.sliders, i.id);
        Some(map["settings" := settings,
                 "slider" := if slider.Some? then JInt(slider.value.id) else JNull,
                 "slides" := JArr(if slider.Some? then SlideIds(SlidesOf(db.slides, slider.value.id)) else [])])
  }

  /** The slider rows as the storefront handler sees them. */
  function AttachedRows(sliders: seq<SliderRow>): (r: seq<FrontModules.Attached>)
    ensures |r| == |sliders|
  {
    seq(|sliders|, k requires 0 <= k < |sliders| => FrontModules.Attached(sliders[k].id, sliders[k].instanceId))
  }

  function ChildRows(slides: seq<Slide>): (r: seq<FrontModules.ChildRow>)
    ensures |r| == |slides|
  {
    seq(|slides|, k requires 0 <= k < |slides| => FrontModules.ChildRow(slides[k].id, slides[k].sliderId))
  }

  lemma {:induction false} FirstAttachedRows(sliders: seq<SliderRow>, iid: nat)
    ensures FrontModules.FirstAttached(AttachedRows(sliders), iid) ==
      if FirstSlider(sliders, iid).Some? then Some(FrontModules.Attached(FirstSlider(sliders, iid).value.id, iid)) else None
  {
    if sliders != [] {
      assert AttachedRows(sliders)[1..] == AttachedRows(sliders[1..]);
      FirstAttachedRows(sliders[1..], iid);
    }
  }

  lemma {:induction false} ChildRowsAppend(a: seq<Slide>, b: seq<Slide>)
    ensures ChildRows(a + b) == ChildRows(a) + ChildRows(b)
  {
  }

  lemma {:induction false} ChildrenOfRows(slides: seq<Slide>, sid: nat)
    ensures FrontModules.ChildrenOf(ChildRows(slides), sid) == ChildRows(SlidesOf(slides, sid))
  {
    if slides != [] {
      assert ChildRows(slides)[1..] == ChildRows(slides[1..]);
      ChildrenOfRows(slides[1..], sid);
      var head := if slides[0].sliderId == sid then [slides[0]] else [];
      ChildRowsAppend(head, SlidesOf(slides[1..], sid));
    }
  }

  lemma {:induction false} RowIdsOfChildRows(slides: seq<Slide>)
    ensures FrontModules.RowIds(ChildRows(slides)) == SlideIds(slides)
  {
  }

  /** The editor's instance data is the storefront handler's, read over the same rows. */
  lemma {:induction false} InstanceDataAgrees(inst: Option<Instance>, db: SliderDb, store: FrontModules.Store)
    requires store.sliders == AttachedRows(db.sliders) && store.slides == ChildRows(db.slides)
    ensures InstanceData(inst, db) == FrontModules.SliderInstanceData(inst, store)
  {
    if inst.Some? {
      FirstAttachedRows(db.sliders, inst.value.id);
      var slider := FirstSlider(db.sliders, inst.value.id);
      if slider.Some? {
        ChildrenOfRows(db.slides, slider.value.id);
        RowIdsOfChildRows(SlidesOf(db.slides, slider.value.id));
      }
    }
  }

  /**
   * `del_instance` on a known instance: the slider's slides by a bulk
   * `Query.delete()`, which bypasses the ORM cascade to the buttons, then the
   * slider row and the instance. None where a button still sits on one of
   * those slides: the `slider_buttons.slide_id` foreign key refuses the bulk
   * delete and the request fails with nothing written.
   */
  function Deleted(db: SliderDb, instanceId: nat): Option<SliderDb>
  {
    match FirstSlider(db.sliders, instanceId)
    case None => Some(db.(instances := DropInstance(db.instances, instanceId)))
    case Some(s) =>
      if exists b :: b in db.buttons && OnSliderSlide(b, db.slides, s.id) then None
      else Some(db.(instances := DropInstance(db.instances, instanceId), sliders := DropSlider(db.sliders, s.id),
                    slides := DropSlidesOf(db.slides, s.id)))
  }

  /**
   * The delete fails exactly when a button sits on a slide of the
   * instance's slider. When it goes through, loading the instance is a 404,
   * every other instance and every button stays, the slider and its slides
   * are gone, the other sliders keep their slides, and no button is left
   * pointing at a slide the delete removed.
   */
  lemma {:induction false} DeletedSpec(db: SliderDb, instanceId: nat)
    requires instanceId != 0
    ensures Deleted(db, instanceId).None? <==>
      FirstSlider(db.sliders, instanceId).Some?
      && exists b :: b in db.buttons && OnSliderSlide(b, db.slides, FirstSlider(db.sliders, instanceId).value.id)
    ensures Deleted(db, instanceId).Some? ==>
      var db2 := Deleted(db, instanceId).value;
      LoadInstanceData(instanceId, db2).None?
      && (forall i :: i in db.instances && i.id != instanceId ==> i in db2.instances)
      && db2.buttons == db.buttons
      && (FirstSlider(db.sliders, instanceId).Some? ==>
            var sid := FirstSlider(db.sliders, instanceId).value.id;
            (forall r :: r in db2.sliders ==> r.id != sid)
            && (forall s :: s in db2.slides <==> s in db.slides && s.sliderId != sid))
      && (forall b, s :: b in db2.buttons && s in db.slides && s.id == b.slideId ==>
            exists t :: t in db2.slides && t.id == b.slideId)
  {
    var found := FirstSlider(db.sliders, instanceId);
    if Deleted(db, instanceId).Some? {
      var db2 := Deleted(db, instanceId).value;
      if found.Some? {
        var sid := found.value.id;
        forall b, s | b in db2.buttons && s in db.slides && s.id == b.slideId
          ensures exists t :: t in db2.slides && t.id == b.slideId
        {
          assert s in db2.slides;
        }
      }
    }
  }

  // ---------------------------------------------------------------------
  // The tables as the editor changes them

  class SliderStore {
    const modules: seq<Module>
    var instances: seq<Instance>
    var sliders: seq<SliderRow>
    var slides: seq<Slide>
    var buttons: seq<Button>
    var lastId: nat
    /** The layout cells of pages and posts, which the deletion of an instance detaches. */
    const cells: LayoutCells

    function Db(): SliderDb
      reads this
    {
      SliderDb(instances, sliders, slides, buttons, lastId)
    }

    constructor (modules: seq<Module>, db: SliderDb, cells: LayoutCells)
      ensures this.modules == modules && Db() == db
      ensures this.cells == cells
    {
      this.cells := cells;
      this.modules := modules;
      instances := db.instances;
      sliders := db.sliders;
      slides := db.slides;
      buttons := db.buttons;
      lastId := db.lastId;
    }

    /** `save_instance`: the tables end as `SaveSpec` describes, phase by phase. */
    method SaveInstance(moduleId: nat, form: Form, instanceId: nat) returns (res: SaveResult)
      modifies this
      ensures moduleId == 0 ==> res == MissingModuleId(MissingModuleFlash) && Db() == old(Db())
      ensures res == SaveSpec(old(Db()), modules, moduleId, form, instanceId).0
      ensures Db() == SaveSpec(old(Db()), modules, moduleId, form, instanceId).1
    {
      var db1, db2;
      res, db1, db2 := SavePhases(Db(), modules, moduleId, form, instanceId);
      // the first commit
      instances, sliders, slides, buttons, lastId := db1.instances, db1.sliders, db1.slides, db1.buttons, db1.lastId;
      // the second commit
      slides, buttons, lastId := db2.slides, db2.buttons, db2.lastId;
    }

    /**
     * `del_instance`: an unknown instance gives an error message and
     * changes nothing; otherwise the tables end as `Deleted` describes and
     * the layout cells that showed the instance are detached, or, where the
     * bulk delete of the slides is refused, the request fails (None) and
     * nothing changes.
     */
    method DeleteInstance(instanceId: nat) returns (flash: Option<Flash>)
      modifies this, cells
      ensures FindInstance(old(instances), instanceId).None? ==>
        flash == Some(NotFoundFlash) && Db() == old(Db())
      ensures FindInstance(old(instances), instanceId).Some? ==>
        match Deleted(old(Db()), instanceId)
        case None => flash.None? && Db() == old(Db())
        case Some(db2) => flash == Some(DeletedFlash) && Db() == db2
      ensures if flash == Some(DeletedFlash) then cells.Detached(instanceId) else cells.Unchanged()
    {
      if FindInstance(instances, instanceId).None? {
        return Some(NotFoundFlash);
      }
      var slider := FirstSlider(sliders, instanceId);
      if slider.Some? {
        if exists b :: b in buttons && OnSliderSlide(b, slides, slider.value.id) {
          return None;
        }
        slides := DropSlidesOf(slides, slider.value.id);
        sliders := DropSlider(sliders, slider.value.id);
      }
      cells.DetachInstance(instanceId);
      instances := DropInstance(instances, instanceId);
      flash := Some(DeletedFlash);
    }
  }
}
