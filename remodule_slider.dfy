// The slider editor of the `remodule` package (remodule/slider/slider.py),
// a variant of the admin slider that nests the slide buttons inside the
// slide records and stores them as one JSON text per slide. Saving writes
// the instance settings and the slider row, deletes the old slides and
// commits; then one slide per `slides[s][field]` index is added, its
// buttons (`slides[s][buttons][b][field]`) serialised into it, and
// committed. Also the data the editor loads, the delete, and the
// storefront's `get_instance_data`.

module RemoduleSlider {
  import opened Common
  import opened Json
  import opened Layout
  import opened Registry
  import opened ModuleForms
  import opened Tables

  /** The columns of a `slider_instances` row. */
  datatype Slider = Slider(title: Option<string>, width: int, transition: string,
                           status: bool, showArrows: bool, showIndicators: bool)

  /** The columns of a `slider_items` row; `buttons` is a JSON text column. */
  datatype Slide = Slide(imagePcId: int, imageMobileId: int, title: Option<string>, description: Option<string>,
                         textColor: string, buttons: Stored)

  /** The tables the editor touches; `lastId` is the largest id handed out so far. */
  datatype SliderDb = SliderDb(instances: seq<Instance>, sliders: seq<Row<Slider>>, slides: seq<Row<Slide>>, lastId: nat)

  /** Ids and references lie at or below `lastId`, so a new id owns nothing yet. */
  predicate Valid(db: SliderDb)
  {
    (forall i :: i in db.instances ==> i.id <= db.lastId)
    && (forall s :: s in db.sliders ==> s.id <= db.lastId && s.owner <= db.lastId)
    && (forall s :: s in db.slides ==> s.id <= db.lastId && s.owner <= db.lastId)
  }

  const SavedFlash: Flash := Flash("success", "Слайдер сохранён!")
  const DeletedFlash: Flash := Flash("success", "Экземпляр модуля успешно удалён.")

  // ---------------------------------------------------------------------
  // Settings and the slider row

  /** The instance settings, the same on create and update: the title and the status flag. */
  function Settings(form: Form): (r: Json)
    ensures r.JObj? && |r.fields| == 2
    ensures Member(r, "name") == Some(OptText(Get(form, "title")))
    ensures Member(r, "status") == Some(JBool(Get(form, "status") == Some("on")))
  {
    var fields := [("name", OptText(Get(form, "title"))), ("status", JBool(Flag(form, "status")))];
    assert fields[1..] == [fields[1]];
    JObj(fields)
  }

  /** `int(form.get("width", 100))`, falling back to 100 where `int()` raises. */
  function Width(form: Form): (w: int)
    ensures Get(form, "width").None? ==> w == 100
    ensures Get(form, "width").Some? && ParseInt(Get(form, "width").value).Some? ==> w == ParseInt(Get(form, "width").value).value
    ensures Get(form, "width").Some? && ParseInt(Get(form, "width").value).None? ==> w == 100
  {
    match Get(form, "width")
    case None => 100
    case Some(v) => if ParseInt(v).Some? then ParseInt(v).value else 100
  }

  /** The transition kind: the submitted one when it is `fade` or `slide`, `slide` otherwise. */
  function Transition(form: Form): (t: string)
    ensures t == "fade" || t == "slide"
    ensures Get(form, "transition_type") == Some("fade") ==> t == "fade"
    ensures Get(form, "transition_type") != Some("fade") ==> t == "slide"
  {
    var v := Get(form, "transition_type");
    if v == Some("fade") || v == Some("slide") then v.value else "slide"
  }

  /** The slider row's columns, written on create and update alike. */
  function SliderOf(form: Form): Slider
  {
    Slider(Get(form, "title"), Width(form), Transition(form),
           Flag(form, "status"), Flag(form, "show_arrows"), Flag(form, "show_indicators"))
  }

  // ---------------------------------------------------------------------
  // The nested parse of `slides[...]` names

  /** Where a submitted name goes: a field of a slide, or a field of one of its buttons. */
  datatype SlideKey =
    | FlatField(slide: string, field: string)
    | ButtonField(slide: string, button: string, field: string)

  const SlidesPrefix: string := "slides["

  /**
   * How the loop reads a name starting with `slides[`: the slide index is
   * the first bracket group; when the raw second piece contains `buttons`
   * the third and fourth groups are the button index and field, otherwise
   * the second group is the field. None where a piece is missing, which is
   * an IndexError.
   */
  function Classify(key: string): (r: Option<SlideKey>)
  {
    var pieces := Split(key, '[');
    if |pieces| < 3 || Part(key, 1).None? then None
    else if Contains(pieces[2], "buttons") then
      match (Part(key, 3), Part(key, 4))
      case (Some(b), Some(f)) => Some(ButtonField(Part(key, 1).value, b, f))
      case _ => None
    else Some(FlatField(Part(key, 1).value, Before(pieces[2], ']')))
  }

  /** A flat field never reads as `buttons`, so it never clobbers the slide's button dict. */
  lemma {:induction false} FlatFieldNotButtons(key: string)
    requires Classify(key).Some? && Classify(key).value.FlatField?
    ensures Classify(key).value.field != "buttons"
  {
    var p2 := Split(key, '[')[2];
    var f := Before(p2, ']');
    if f == "buttons" {
      assert p2[0..7] == f;
      assert OccursAt(p2, "buttons", 0);
    }
  }

  /** A name the template renders for a button field reads back as that button field. */
  lemma {:induction false} ButtonKeyRoundTrip(s: string, b: string, f: string)
    requires Plain(s) && Plain(b) && Plain(f)
    ensures StartsWith(Key("slides", [s, "buttons", b, f]), SlidesPrefix)
    ensures Classify(Key("slides", [s, "buttons", b, f])) == Some(ButtonField(s, b, f))
  {
    var gs := [s, "buttons", b, f];
    var key := Key("slides", gs);
    assert Key("slides", gs) == "slides" + "[" + s + "]" + Groups(gs[1..]);
    KeyPieces("slides", gs);
    KeyRoundTrip("slides", gs);
    assert Split(key, '[')[2] == "buttons]";
    assert "buttons]"[0..7] == "buttons";
    assert OccursAt("buttons]", "buttons", 0);
  }

  /** A name the template renders for a slide field reads back as that field. */
  lemma {:induction false} FlatKeyRoundTrip(s: string, f: string)
    requires Plain(s) && Plain(f) && !Contains(f, "buttons")
    ensures StartsWith(Key("slides", [s, f]), SlidesPrefix)
    ensures Classify(Key("slides", [s, f])) == Some(FlatField(s, f))
  {
    var gs := [s, f];
    var key := Key("slides", gs);
    assert Key("slides", gs) == "slides" + "[" + s + "]" + Groups(gs[1..]);
    KeyPieces("slides", gs);
    KeyRoundTrip("slides", gs);
    var p2 := f + "]";
    assert Split(key, '[')[2] == p2;
    ClosedNoButtons(f);
    BeforeAt(f, ']', "");
    assert f + [']'] + "" == p2;
    ClassifyFlat(key, s, p2);
  }

  /** Closing a group with `]` does not make "buttons" appear in it. */
  lemma {:induction false} ClosedNoButtons(f: string)
    requires !Contains(f, "buttons")
    ensures !Contains(f + "]", "buttons")
  {
    var p2 := f + "]";
    forall i | 0 <= i <= |p2| - 7 && OccursAt(p2, "buttons", i)
      ensures OccursAt(f, "buttons", i)
    {
      assert p2[i..i + 7][6] == 's' && p2[|f|] == ']';
      assert f[i..i + 7] == p2[i..i + 7];
    }
  }

  /** A name whose third group does not mention "buttons" is a flat field. */
  lemma {:induction false} ClassifyFlat(key: string, s: string, p2: string)
    requires |Split(key, '[')| >= 3 && Split(key, '[')[2] == p2 && Part(key, 1) == Some(s)
    requires !Contains(p2, "buttons")
    ensures Classify(key) == Some(FlatField(s, Before(p2, ']')))
  {
  }

  /** What the loop has gathered for one slide: its fields and its buttons by index. */
  datatype SlideDraft = SlideDraft(fields: Form, buttons: Records<string>)

  type Drafts = seq<(string, SlideDraft)>

  const EmptyDraft: SlideDraft := SlideDraft([], [])

  /** `slides[s]`, if present. */
  function DraftAt(ds: Drafts, s: string): (r: Option<SlideDraft>)
    ensures r.Some? <==> exists j :: 0 <= j < |ds| && ds[j].0 == s
  {
    if ds == [] then None
    else if ds[0].0 == s then Some(ds[0].1)
    else DraftAt(ds[1..], s)
  }

  predicate DistinctSlides(ds: Drafts)
  {
    forall i, j :: 0 <= i < j < |ds| ==> ds[i].0 != ds[j].0
  }

  /** `slides[s] = d`, appending `s` when it is new. */
  function WithDraft(ds: Drafts, s: string, d: SlideDraft): (r: Drafts)
  {
    if ds == [] then [(s, d)]
    else if ds[0].0 == s then [(s, d)] + ds[1..]
    else [ds[0]] + WithDraft(ds[1..], s, d)
  }

  lemma {:induction false} WithDraftSpec(ds: Drafts, s: string, d: SlideDraft, t: string)
    requires DistinctSlides(ds)
    ensures DistinctSlides(WithDraft(ds, s, d))
    ensures DraftAt(WithDraft(ds, s, d), t) == if t == s then Some(d) else DraftAt(ds, t)
  {
    if ds != [] && ds[0].0 != s {
      WithDraftSpec(ds[1..], s, d, t);
      assert DraftAt(ds[1..], ds[0].0).None? by {
        forall i | 0 <= i < |ds[1..]| ensures ds[1..][i].0 != ds[0].0 {
          assert ds[1..][i] == ds[i + 1];
        }
      }
      WithDraftSpec(ds[1..], s, d, ds[0].0);
    }
  }

  /** The current draft of a slide, or the empty one the loop creates on first sight. */
  function Current(ds: Drafts, s: string): SlideDraft
  {
    if DraftAt(ds, s).Some? then DraftAt(ds, s).value else EmptyDraft
  }

  /** One step of the loop: the value stored where the name says. */
  function Enter(ds: Drafts, k: SlideKey, value: string): Drafts
  {
    var d := Current(ds, k.slide);
    match k
    case FlatField(s, f) => WithDraft(ds, s, d.(fields := SetField(d.fields, f, value)))
    case ButtonField(s, b, f) => WithDraft(ds, s, d.(buttons := Put(d.buttons, b, f, value)))
  }

  /** The loop over `form.items()`: None where a `slides[` name is too short. */
  function SlideDrafts(items: Form): Option<Drafts>
  {
    if items == [] then Some([])
    else
      var prev := SlideDrafts(items[..|items| - 1]);
      var (key, value) := items[|items| - 1];
      if prev.None? then None
      else if !StartsWith(key, SlidesPrefix) then prev
      else match Classify(key)
        case None => None
        case Some(k) => Some(Enter(prev.value, k, value))
  }

  /** A `slides[` name the loop cannot read. */
  predicate Malformed(key: string)
  {
    StartsWith(key, SlidesPrefix) && Classify(key).None?
  }

  /** A `slides[` name the loop files under slide `s`. */
  predicate Names(key: string, s: string)
  {
    StartsWith(key, SlidesPrefix) && Classify(key).Some? && Classify(key).value.slide == s
  }

  /** A `slides[` name the loop files under button `b` of slide `s`. */
  predicate NamesButton(key: string, s: string, b: string)
  {
    Names(key, s) && Classify(key).value.ButtonField? && Classify(key).value.button == b
  }

  /** Some name is filed under slide `s`. */
  predicate HasSlide(items: Form, s: string)
  {
    exists j :: 0 <= j < |items| && Names(items[j].0, s)
  }

  /** Some name is filed under button `b` of slide `s`. */
  predicate HasButton(items: Form, s: string, b: string)
  {
    exists j :: 0 <= j < |items| && NamesButton(items[j].0, s, b)
  }

  /** The value the loop leaves in `slides[s][f]`: the last one submitted. */
  function LastFlat(items: Form, s: string, f: string): Option<string>
  {
    if items == [] then None
    else
      var key := items[|items| - 1].0;
      if StartsWith(key, SlidesPrefix) && Classify(key) == Some(FlatField(s, f)) then Some(items[|items| - 1].1)
      else LastFlat(items[..|items| - 1], s, f)
  }

  /** The value the loop leaves in `slides[s]['buttons'][b][f]`: the last one submitted. */
  function LastButton(items: Form, s: string, b: string, f: string): Option<string>
  {
    if items == [] then None
    else
      var key := items[|items| - 1].0;
      if StartsWith(key, SlidesPrefix) && Classify(key) == Some(ButtonField(s, b, f)) then Some(items[|items| - 1].1)
      else LastButton(items[..|items| - 1], s, b, f)
  }

  /** The parse fails iff some `slides[` name is too short. */
  lemma {:induction false} SlideDraftsFails(items: Form)
    ensures SlideDrafts(items).None? <==> exists j :: 0 <= j < |items| && Malformed(items[j].0)
  {
    if items != [] {
      var init := items[..|items| - 1];
      SlideDraftsFails(init);
      if exists j :: 0 <= j < |init| && Malformed(init[j].0) {
        var j :| 0 <= j < |init| && Malformed(init[j].0);
        assert items[j] == init[j];
      }
      if exists j :: 0 <= j < |items| && Malformed(items[j].0) {
        var j :| 0 <= j < |items| && Malformed(items[j].0);
        if j < |init| {
          assert init[j] == items[j];
        }
      }
    }
  }

  lemma {:induction false} HasSlideSnoc(items: Form, s: string)
    requires items != []
    ensures HasSlide(items, s) <==> HasSlide(items[..|items| - 1], s) || Names(items[|items| - 1].0, s)
  {
    var init := items[..|items| - 1];
    if HasSlide(items, s) && !Names(items[|items| - 1].0, s) {
      var j :| 0 <= j < |items| && Names(items[j].0, s);
      assert Names(init[j].0, s);
    }
    if HasSlide(init, s) {
      var j :| 0 <= j < |init| && Names(init[j].0, s);
      assert Names(items[j].0, s);
    }
  }

  lemma {:induction false} HasButtonSnoc(items: Form, s: string, b: string)
    requires items != []
    ensures HasButton(items, s, b) <==> HasButton(items[..|items| - 1], s, b) || NamesButton(items[|items| - 1].0, s, b)
  {
    var init := items[..|items| - 1];
    if HasButton(items, s, b) && !NamesButton(items[|items| - 1].0, s, b) {
      var j :| 0 <= j < |items| && NamesButton(items[j].0, s, b);
      assert NamesButton(init[j].0, s, b);
    }
    if HasButton(init, s, b) {
      var j :| 0 <= j < |init| && NamesButton(init[j].0, s, b);
      assert NamesButton(items[j].0, s, b);
    }
  }

  /** A button is only ever named under a slide that is named. */
  lemma {:induction false} HasButtonHasSlide(items: Form, s: string, b: string)
    requires HasButton(items, s, b)
    ensures HasSlide(items, s)
  {
    var j :| 0 <= j < |items| && NamesButton(items[j].0, s, b);
  }

  lemma {:induction false} LastFlatAbsent(items: Form, s: string, f: string)
    requires !HasSlide(items, s)
    ensures LastFlat(items, s, f).None?
  {
    if items != [] {
      HasSlideSnoc(items, s);
      LastFlatAbsent(items[..|items| - 1], s, f);
    }
  }

  lemma {:induction false} LastButtonAbsent(items: Form, s: string, b: string, f: string)
    requires !HasButton(items, s, b)
    ensures LastButton(items, s, b, f).None?
  {
    if items != [] {
      HasButtonSnoc(items, s, b);
      LastButtonAbsent(items[..|items| - 1], s, b, f);
    }
  }

  /** The drafts' shape: distinct slides, one per slide index named. */
  ghost predicate DraftsShape(items: Form, ds: Drafts)
  {
    DistinctSlides(ds) && forall s :: DraftAt(ds, s).Some? <==> HasSlide(items, s)
  }

  /** The fields of each slide hold the last value submitted for them. */
  ghost predicate DraftsFields(items: Form, ds: Drafts)
  {
    forall s, f :: DraftAt(ds, s).Some? ==> Get(DraftAt(ds, s).value.fields, f) == LastFlat(items, s, f)
  }

  /** The buttons of one slide: the button indices named for it, each field holding the last value. */
  ghost predicate ButtonsOk(items: Form, s: string, bs: Records<string>)
  {
    DistinctKeys(bs)
    && (forall b :: RecordOf(bs, b).Some? <==> HasButton(items, s, b))
    && (forall b, f :: RecordOf(bs, b).Some? ==> Get(RecordOf(bs, b).value, f) == LastButton(items, s, b, f))
  }

  ghost predicate DraftsButtons(items: Form, ds: Drafts)
  {
    forall s :: DraftAt(ds, s).Some? ==> ButtonsOk(items, s, DraftAt(ds, s).value.buttons)
  }

  /**
   * What the parse gathers: one draft per slide index named, each field
   * and each button field holding the last value submitted for it.
   */
  lemma {:induction false} SlideDraftsSpec(items: Form)
    requires SlideDrafts(items).Some?
    ensures DraftsShape(items, SlideDrafts(items).value)
    ensures DraftsFields(items, SlideDrafts(items).value)
    ensures DraftsButtons(items, SlideDrafts(items).value)
  {
    if items != [] {
      SlideDraftsSpec(items[..|items| - 1]);
      if StartsWith(items[|items| - 1].0, SlidesPrefix) {
        EnterStep(items);
      } else {
        SkipStep(items);
      }
    }
  }

  /** The step of `SlideDraftsSpec` for a name outside `slides[`. */
  lemma {:induction false} SkipStep(items: Form)
    requires items != [] && SlideDrafts(items).Some?
    requires !StartsWith(items[|items| - 1].0, SlidesPrefix)
    requires var init := items[..|items| - 1];
      DraftsShape(init, SlideDrafts(init).value) && DraftsFields(init, SlideDrafts(init).value)
      && DraftsButtons(init, SlideDrafts(init).value)
    ensures DraftsShape(items, SlideDrafts(items).value)
    ensures DraftsFields(items, SlideDrafts(items).value)
    ensures DraftsButtons(items, SlideDrafts(items).value)
  {
    var init := items[..|items| - 1];
    var ds := SlideDrafts(items).value;
    forall s ensures HasSlide(items, s) <==> HasSlide(init, s) {
      HasSlideSnoc(items, s);
    }
    forall s | DraftAt(ds, s).Some?
      ensures ButtonsOk(items, s, DraftAt(ds, s).value.buttons)
    {
      forall b ensures HasButton(items, s, b) <==> HasButton(init, s, b) {
        HasButtonSnoc(items, s, b);
      }
    }
  }

  /** The step of `SlideDraftsSpec` for a `slides[` name read without error. */
  lemma {:induction false} EnterStep(items: Form)
    requires items != [] && SlideDrafts(items).Some?
    requires StartsWith(items[|items| - 1].0, SlidesPrefix)
    requires var init := items[..|items| - 1];
      DraftsShape(init, SlideDrafts(init).value) && DraftsFields(init, SlideDrafts(init).value)
      && DraftsButtons(init, SlideDrafts(init).value)
    ensures DraftsShape(items, SlideDrafts(items).value)
    ensures DraftsFields(items, SlideDrafts(items).value)
    ensures DraftsButtons(items, SlideDrafts(items).value)
  {
    var init := items[..|items| - 1];
    var prev := SlideDrafts(init).value;
    var (key, value) := items[|items| - 1];
    var k := Classify(key).value;
    var s0 := k.slide;
    var d := Current(prev, s0);
    var ds := SlideDrafts(items).value;
    var d2 := if k.FlatField? then d.(fields := SetField(d.fields, k.field, value))
              else d.(buttons := Put(d.buttons, k.button, k.field, value));
    assert ds == WithDraft(prev, s0, d2);
    WithDraftSpec(prev, s0, d2, s0);
    forall s ensures DraftAt(ds, s).Some? <==> HasSlide(items, s) {
      WithDraftSpec(prev, s0, d2, s);
      HasSlideSnoc(items, s);
    }
    forall s, f | DraftAt(ds, s).Some?
      ensures Get(DraftAt(ds, s).value.fields, f) == LastFlat(items, s, f)
    {
      WithDraftSpec(prev, s0, d2, s);
      if s == s0 {
        if k.FlatField? {
          SetFieldGet(d.fields, k.field, value, f);
        }
        if DraftAt(prev, s0).None? {
          LastFlatAbsent(init, s0, f);
        }
      }
    }
    forall s | DraftAt(ds, s).Some?
      ensures ButtonsOk(items, s, DraftAt(ds, s).value.buttons)
    {
      WithDraftSpec(prev, s0, d2, s);
      if s == s0 && k.ButtonField? {
        ButtonsStepSame(items);
      } else {
        ButtonsStepOther(items, s);
      }
    }
  }

  /** The buttons of a slide that the last name does not add a button field to stay as they were. */
  lemma {:induction false} ButtonsStepOther(items: Form, s: string)
    requires items != [] && SlideDrafts(items).Some?
    requires StartsWith(items[|items| - 1].0, SlidesPrefix)
    requires var init := items[..|items| - 1];
      DraftsShape(init, SlideDrafts(init).value) && DraftsButtons(init, SlideDrafts(init).value)
    requires var k := Classify(items[|items| - 1].0).value; !(k.ButtonField? && k.slide == s)
    ensures var ds := SlideDrafts(items).value;
      var prev := SlideDrafts(items[..|items| - 1]).value;
      ButtonsOk(items, s, Current(prev, s).buttons)
  {
    var init := items[..|items| - 1];
    var prev := SlideDrafts(init).value;
    forall b ensures HasButton(items, s, b) <==> HasButton(init, s, b) {
      HasButtonSnoc(items, s, b);
    }
    if DraftAt(prev, s).None? {
      forall b ensures !HasButton(init, s, b) {
        if HasButton(init, s, b) {
          HasButtonHasSlide(init, s, b);
        }
      }
    }
  }

  /** The buttons of the slide the last name adds a button field to. */
  lemma {:induction false} ButtonsStepSame(items: Form)
    requires items != [] && SlideDrafts(items).Some?
    requires StartsWith(items[|items| - 1].0, SlidesPrefix)
    requires Classify(items[|items| - 1].0).value.ButtonField?
    requires var init := items[..|items| - 1];
      DraftsShape(init, SlideDrafts(init).value) && DraftsButtons(init, SlideDrafts(init).value)
    ensures var k := Classify(items[|items| - 1].0).value;
      var d := Current(SlideDrafts(items[..|items| - 1]).value, k.slide);
      ButtonsOk(items, k.slide, Put(d.buttons, k.button, k.field, items[|items| - 1].1))
  {
    var init := items[..|items| - 1];
    var prev := SlideDrafts(init).value;
    var (key, value) := items[|items| - 1];
    var k := Classify(key).value;
    var s := k.slide;
    var d := Current(prev, s);
    var bs := Put(d.buttons, k.button, k.field, value);
    CurrentButtonsOk(init, prev, s);
    PutSpec(d.buttons, k.button, k.field, value, k.button);
    forall b ensures RecordOf(bs, b).Some? <==> HasButton(items, s, b)
      ensures RecordOf(bs, b).Some? ==> forall f :: Get(RecordOf(bs, b).value, f) == LastButton(items, s, b, f)
    {
      ButtonPutAt(items, s, k.button, k.field, d.buttons, b);
    }
  }

  /** The buttons of the draft the loop works on for slide `s` are the ones the names so far describe. */
  lemma {:induction false} CurrentButtonsOk(items: Form, ds: Drafts, s: string)
    requires DraftsShape(items, ds) && DraftsButtons(items, ds)
    ensures ButtonsOk(items, s, Current(ds, s).buttons)
  {
    if DraftAt(ds, s).None? {
      forall b ensures !HasButton(items, s, b) {
        if HasButton(items, s, b) {
          HasButtonHasSlide(items, s, b);
        }
      }
    }
  }

  /** Button `b` of slide `s` after the last name's value is put into its buttons. */
  lemma {:induction false} ButtonPutAt(items: Form, s: string, kb: string, kf: string, before: Records<string>, b: string)
    requires items != [] && StartsWith(items[|items| - 1].0, SlidesPrefix)
    requires Classify(items[|items| - 1].0) == Some(ButtonField(s, kb, kf))
    requires ButtonsOk(items[..|items| - 1], s, before)
    ensures var bs := Put(before, kb, kf, items[|items| - 1].1);
      (RecordOf(bs, b).Some? <==> HasButton(items, s, b))
      && (RecordOf(bs, b).Some? ==> forall f :: Get(RecordOf(bs, b).value, f) == LastButton(items, s, b, f))
  {
    var init := items[..|items| - 1];
    var value := items[|items| - 1].1;
    var bs := Put(before, kb, kf, value);
    PutSpec(before, kb, kf, value, b);
    HasButtonSnoc(items, s, b);
    if b == kb {
      forall f ensures Get(RecordOf(bs, b).value, f) == LastButton(items, s, b, f) {
        var prevRec := if RecordOf(before, b).Some? then RecordOf(before, b).value else [];
        SetFieldGet(prevRec, kf, value, f);
        if f != kf && RecordOf(before, b).None? {
          LastButtonAbsent(init, s, b, f);
        }
      }
    }
  }

  /** The parsing loop, filling the nested dict in place. */
  method ParseSlides(items: Form) returns (r: Option<Drafts>)
    ensures r == SlideDrafts(items)
  {
    var ds: Drafts := [];
    var i := 0;
    while i < |items|
      invariant 0 <= i <= |items|
      invariant SlideDrafts(items[..i]) == Some(ds)
    {
      var (key, value) := items[i];
      assert items[..i + 1][..i] == items[..i];
      if StartsWith(key, SlidesPrefix) {
        var k := Classify(key);
        if k.None? {
          SlideDraftsFails(items[..i + 1]);
          SlideDraftsFails(items);
          assert items[..i + 1][i] == items[i];
          return None;
        }
        ds := Enter(ds, k.value, value);
      }
      i := i + 1;
    }
    assert items[..|items|] == items;
    r := Some(ds);
  }

  // ---------------------------------------------------------------------
  // Slides

  /** One button as the slide stores it: its four fields, null where not submitted. */
  function ButtonJson(rec: Form): (r: Json)
    ensures r.JObj? && |r.fields| == 4
  {
    JObj([("text", OptText(Get(rec, "text"))), ("link", OptText(Get(rec, "link"))),
          ("color", OptText(Get(rec, "color"))), ("text_color", OptText(Get(rec, "text_color")))])
  }

  /** The buttons of a slide, in the order their indices were first submitted. */
  function ButtonList(bs: Records<string>): (r: seq<Json>)
    ensures |r| == |bs| && forall j :: 0 <= j < |bs| ==> r[j] == ButtonJson(bs[j].1)
  {
    seq(|bs|, j requires 0 <= j < |bs| => ButtonJson(bs[j].1))
  }

  /** `json.loads(buttons) if buttons else []` on load; None where the text does not decode. */
  function DecodeButtons(t: Stored): (r: Option<Json>)
    ensures !StoredTruthy(t) ==> r == Some(JArr([]))
    ensures StoredTruthy(t) ==> r == Loads(t)
  {
    if StoredTruthy(t) then Loads(t) else Some(JArr([]))
  }

  /**
   * The buttons column: the JSON list of buttons, or NULL when the slide has
   * none. Loading it gives back the list, empty for NULL.
   */
  function ButtonsText(bs: Records<string>): (t: Stored)
    ensures t.NullText? <==> bs == []
    ensures DecodeButtons(t) == Some(JArr(ButtonList(bs)))
  {
    if bs == [] then NullText else Dumps(JArr(ButtonList(bs)))
  }

  /**
   * The slide a draft becomes: None where an image id is present but not a
   * number (an empty one included); the text colour defaults to black.
   */
  function NewSlide(d: SlideDraft): (r: Option<Slide>)
    ensures r.None? <==> IntGet(Get(d.fields, "image_pc_id"), 0).None? || IntGet(Get(d.fields, "image_mobile_id"), 0).None?
    ensures r.Some? ==>
      r.value.imagePcId == IntGet(Get(d.fields, "image_pc_id"), 0).value
      && r.value.imageMobileId == IntGet(Get(d.fields, "image_mobile_id"), 0).value
      && r.value.title == Get(d.fields, "title") && r.value.description == Get(d.fields, "description")
      && r.value.textColor == GetOr(d.fields, "text_color", "#000000")
      && r.value.buttons == ButtonsText(d.buttons)
  {
    match (IntGet(Get(d.fields, "image_pc_id"), 0), IntGet(Get(d.fields, "image_mobile_id"), 0))
    case (Some(pc), Some(mobile)) =>
      Some(Slide(pc, mobile, Get(d.fields, "title"), Get(d.fields, "description"),
                 GetOr(d.fields, "text_color", "#000000"), ButtonsText(d.buttons)))
    case _ => None
  }

  function SlideResults(ds: Drafts): (r: seq<Option<Slide>>)
    ensures |r| == |ds| && forall j :: 0 <= j < |ds| ==> r[j] == NewSlide(ds[j].1)
  {
    seq(|ds|, j requires 0 <= j < |ds| => NewSlide(ds[j].1))
  }

  /** The slides the loop adds, one per draft in draft order; None where one of them fails. */
  function SlidesData(ds: Drafts): Option<seq<Slide>>
  {
    AllSome(SlideResults(ds))
  }

  /** The slides fail iff some draft's slide fails; otherwise there is one slide per draft. */
  lemma {:induction false} SlidesDataSpec(ds: Drafts)
    ensures SlidesData(ds).None? <==> exists j :: 0 <= j < |ds| && NewSlide(ds[j].1).None?
    ensures SlidesData(ds).Some? ==>
      |SlidesData(ds).value| == |ds| && forall j :: 0 <= j < |ds| ==> Some(SlidesData(ds).value[j]) == NewSlide(ds[j].1)
  {
    AllSomeSpec(SlideResults(ds));
  }

  /** The slide loop: one new row per draft, numbered on from `last`; None where a slide fails. */
  method MakeSlides(owner: nat, last: nat, ds: Drafts) returns (made: Option<seq<Row<Slide>>>)
    ensures SlidesData(ds).None? ==> made.None?
    ensures SlidesData(ds).Some? ==> made == Some(NewRows(owner, last, SlidesData(ds).value))
  {
    ghost var results := SlideResults(ds);
    var rows: seq<Row<Slide>> := [];
    var j := 0;
    while j < |ds|
      invariant 0 <= j <= |ds|
      invariant AllSome(results[..j]).Some?
      invariant rows == NewRows(owner, last, AllSome(results[..j]).value)
    {
      var slide := NewSlide(ds[j].1);
      RowsStep(results, j, owner, last, rows);
      if slide.None? {
        return None;
      }
      rows := rows + [Row(last + 1 + |rows|, owner, slide.value)];
      j := j + 1;
    }
    assert results[..|ds|] == results;
    made := Some(rows);
  }

  // ---------------------------------------------------------------------
  // Saving

  /**
   * The first phase, committed at line 59: the instance, the slider row
   * (the instance's first, or a new one) with its columns and, for an
   * existing row, its old slides deleted.
   */
  function Prepare(db: SliderDb, instances: seq<Instance>, iid: nat, last: nat, form: Form): (SliderDb, nat)
  {
    var found := FirstOwned(db.sliders, iid).Some?;
    var placed := FirstOrCreate(db.sliders, iid, last, SliderOf(form));
    var slides := if found then Disown(db.slides, placed.1) else db.slides;
    (SliderDb(instances, placed.0, slides, placed.2), placed.1)
  }

  /**
   * The images foreign keys of a slide row: image ids start at 1, so an id
   * of 0 (what a missing one becomes) or below names no image and the
   * commit refuses the row. The mobile image column takes NULL, but the
   * editor never writes NULL there.
   */
  predicate Referable(s: Slide)
  {
    s.imagePcId > 0 && s.imageMobileId > 0
  }

  /** Every row of `rows` passes the images foreign keys. */
  predicate AllReferable(rows: seq<Row<Slide>>)
  {
    rows == [] || (Referable(rows[0].data) && AllReferable(rows[1..]))
  }

  lemma {:induction false} AllReferableMeans(rows: seq<Row<Slide>>)
    ensures AllReferable(rows) <==> forall j :: 0 <= j < |rows| ==> Referable(rows[j].data)
  {
    if rows != [] {
      AllReferableMeans(rows[1..]);
      assert forall j :: 1 <= j < |rows| ==> rows[j] == rows[1..][j - 1];
    }
  }

  /** A draft the second phase cannot write: its image id is not a number, or names no image. */
  predicate Refused(d: SlideDraft)
  {
    NewSlide(d).None? || !Referable(NewSlide(d).value)
  }

  /**
   * The second phase: the slides, one per slide index. A `slides[` name
   * that is too short, an image id that is not a number, or a slide the
   * images foreign keys refuse makes the request fail, and the first
   * phase's tables stay.
   */
  function Fill(db1: SliderDb, iid: nat, owner: nat, form: Form): (SaveResult, SliderDb)
  {
    match SlideDrafts(Items(form))
    case None => (Crashed, db1)
    case Some(ds) =>
      match SlidesData(ds)
      case None => (Crashed, db1)
      case Some(slides) =>
        var rows := NewRows(owner, db1.lastId, slides);
        if !AllReferable(rows) then (Crashed, db1)
        else (Saved(iid, SavedFlash), db1.(slides := db1.slides + rows, lastId := db1.lastId + |slides|))
  }

  /**
   * `save_instance(module_id, form, instance_id)` (instance id 0 when none
   * is given). The slider's title column is NOT NULL, so a form without a
   * title fails the first commit and nothing is written.
   */
  function SaveSpec(db: SliderDb, modules: seq<Module>, moduleId: nat, form: Form, instanceId: nat): (SaveResult, SliderDb)
  {
    if moduleId == 0 then (MissingModuleId(MissingModuleFlash), db)
    else match Upsert(db.instances, modules, moduleId, instanceId, db.lastId, Settings(form), Settings(form))
      case None => (Crashed, db)
      case Some((instances, iid, last)) =>
        if Get(form, "title").None? then (Crashed, db)
        else
          var (db1, owner) := Prepare(db, instances, iid, last, form);
          Fill(db1, iid, owner, form)
  }

  /** The second phase over locals: the parsing loop, then the slide loop. */
  method FillTables(db1: SliderDb, iid: nat, owner: nat, form: Form) returns (res: SaveResult, db2: SliderDb)
    ensures res == Fill(db1, iid, owner, form).0
    ensures db2 == Fill(db1, iid, owner, form).1
    ensures db2 == db1.(slides := db2.slides, lastId := db2.lastId)
  {
    db2 := db1;
    var parsed := ParseSlides(Items(form));
    if parsed.None? {
      return Crashed, db2;
    }
    var made := MakeSlides(owner, db1.lastId, parsed.value);
    if made.None? || !AllReferable(made.value) {
      return Crashed, db2;
    }
    db2 := db1.(slides := db1.slides + made.value, lastId := db1.lastId + |made.value|);
    res := Saved(iid, SavedFlash);
  }

  /** What the first phase commits: the slider row written, and no slides left on it. */
  lemma {:induction false} PrepareSpec(db: SliderDb, instances: seq<Instance>, iid: nat, last: nat, form: Form)
    requires Valid(db) && last >= db.lastId && iid <= last
    requires forall i :: i in instances ==> i.id <= last
    ensures var (db1, owner) := Prepare(db, instances, iid, last, form);
      Valid(db1) && db1.instances == instances
      && FirstOwned(db1.sliders, iid) == Some(Row(owner, iid, SliderOf(form)))
      && (forall t :: t in db1.slides ==> t.owner != owner)
      && (forall t :: t in db.slides && t.owner != owner ==> t in db1.slides)
  {
    FirstOrCreateSpec(db.sliders, iid, last, SliderOf(form));
  }

  /** What the second phase adds when it succeeds: the slider's new slides, and nothing else changes. */
  lemma {:induction false} FillSpec(db1: SliderDb, iid: nat, owner: nat, form: Form)
    requires Valid(db1) && owner <= db1.lastId
    requires forall t :: t in db1.slides ==> t.owner != owner
    requires Fill(db1, iid, owner, form).0.Saved?
    ensures var (res, db2) := Fill(db1, iid, owner, form);
      var added := SlidesData(SlideDrafts(Items(form)).value).value;
      res.instanceId == iid && Valid(db2) && db2.instances == db1.instances && db2.sliders == db1.sliders
      && Owned(db2.slides, owner) == NewRows(owner, db1.lastId, added)
      && AllReferable(Owned(db2.slides, owner))
      && (forall t :: t in db1.slides ==> t in db2.slides)
  {
    var added := SlidesData(SlideDrafts(Items(form)).value).value;
    OwnedAppendNew(db1.slides, owner, db1.lastId, added);
    var db2 := Fill(db1, iid, owner, form).1;
    forall t | t in db2.slides
      ensures t.id <= db2.lastId && t.owner <= db2.lastId
    {
      if t !in db1.slides {
        var k :| 0 <= k < |added| && NewRows(owner, db1.lastId, added)[k] == t;
        NewRowsAt(owner, db1.lastId, added, k);
      }
    }
  }

  /** The new slides hold, one by one, the slides of the drafts. */
  lemma {:induction false} SlidesAfter(owner: nat, last: nat, ds: Drafts)
    requires SlidesData(ds).Some?
    ensures var rows := NewRows(owner, last, SlidesData(ds).value);
      |rows| == |ds| && forall j :: 0 <= j < |ds| ==> Some(rows[j].data) == NewSlide(ds[j].1)
  {
    var slides := SlidesData(ds).value;
    SlidesDataSpec(ds);
    forall j | 0 <= j < |ds|
      ensures Some(NewRows(owner, last, slides)[j].data) == NewSlide(ds[j].1)
    {
      NewRowsAt(owner, last, slides, j);
    }
  }

  /**
   * After a save that succeeds: the instance holds the settings, its slider
   * row the submitted columns, and its slides are exactly one per slide
   * index, in first-seen order, each naming images. Other sliders keep
   * their slides, and the tables stay valid.
   */
  lemma {:induction false} SavedState(db: SliderDb, modules: seq<Module>, moduleId: nat, form: Form, instanceId: nat)
    requires Valid(db)
    requires SaveSpec(db, modules, moduleId, form, instanceId).0.Saved?
    ensures var (res, db2) := SaveSpec(db, modules, moduleId, form, instanceId);
      var ds := SlideDrafts(Items(form)).value;
      Valid(db2)
      && FindInstance(db2.instances, res.instanceId).Some?
      && FindInstance(db2.instances, res.instanceId).value.settings == Dumps(Settings(form))
      && FirstOwned(db2.sliders, res.instanceId).Some?
      && var row := FirstOwned(db2.sliders, res.instanceId).value;
         row.data == SliderOf(form)
         && |Owned(db2.slides, row.id)| == |ds|
         && (forall j :: 0 <= j < |ds| ==> Some(Owned(db2.slides, row.id)[j].data) == NewSlide(ds[j].1))
         && (forall j :: 0 <= j < |ds| ==> Referable(Owned(db2.slides, row.id)[j].data))
         && (forall t :: t in db.slides && t.owner != row.id ==> t in db2.slides)
  {
    var s := Settings(form);
    UpsertSpec(db.instances, modules, moduleId, instanceId, db.lastId, s, s);
    var (instances, iid, last) := Upsert(db.instances, modules, moduleId, instanceId, db.lastId, s, s).value;
    assert FindInstance(instances, iid).value in instances;
    PrepareSpec(db, instances, iid, last, form);
    var (db1, owner) := Prepare(db, instances, iid, last, form);
    FillSpec(db1, iid, owner, form);
    SlidesAfter(owner, db1.lastId, SlideDrafts(Items(form)).value);
    AllReferableMeans(Owned(Fill(db1, iid, owner, form).1.slides, owner));
  }

  /**
   * The second phase's verdict over the form: the `slides[` names do not
   * parse, or some slide index's draft is refused.
   */
  predicate SlidesRefused(form: Form)
  {
    SlideDrafts(Items(form)).None?
    || exists j :: 0 <= j < |SlideDrafts(Items(form)).value| && Refused(SlideDrafts(Items(form)).value[j].1)
  }

  /**
   * The second phase fails exactly where a name is too short, an image id
   * is not a number, or an image id names no image; a failure leaves the
   * first phase's tables, a success reports the instance.
   */
  lemma {:induction false} FillOutcome(db1: SliderDb, iid: nat, owner: nat, form: Form)
    ensures var (res, db2) := Fill(db1, iid, owner, form);
      (res.Crashed? <==> SlidesRefused(form))
      && (res.Crashed? ==> db2 == db1)
      && (!res.Crashed? ==> res == Saved(iid, SavedFlash))
  {
    if SlideDrafts(Items(form)).Some? {
      DraftsRefused(owner, db1.lastId, SlideDrafts(Items(form)).value);
    }
  }

  /** The slides of some drafts fail, or some of their rows is refused, iff some draft is refused. */
  lemma {:induction false} DraftsRefused(owner: nat, last: nat, ds: Drafts)
    ensures SlidesData(ds).None? || !AllReferable(NewRows(owner, last, SlidesData(ds).value))
            <==> exists j :: 0 <= j < |ds| && Refused(ds[j].1)
  {
    SlidesDataSpec(ds);
    if SlidesData(ds).Some? {
      var rows := NewRows(owner, last, SlidesData(ds).value);
      SlidesAfter(owner, last, ds);
      AllReferableMeans(rows);
      if !AllReferable(rows) {
        var j :| 0 <= j < |rows| && !Referable(rows[j].data);
        assert Refused(ds[j].1);
      } else {
        forall j | 0 <= j < |ds|
          ensures !Refused(ds[j].1)
        {
          assert Referable(rows[j].data);
        }
      }
    } else {
      var j :| 0 <= j < |ds| && NewSlide(ds[j].1).None?;
      assert Refused(ds[j].1);
    }
  }

  /**
   * How a save ends: a new instance naming a missing module, or a form
   * without a title (the NOT NULL column), fails the first commit and
   * nothing is written; otherwise it fails exactly where the slides are
   * refused, and then the slider row stays written with no slides.
   */
  lemma {:induction false} SaveOutcome(db: SliderDb, modules: seq<Module>, moduleId: nat, form: Form, instanceId: nat)
    requires Valid(db) && moduleId != 0
    ensures var (res, db2) := SaveSpec(db, modules, moduleId, form, instanceId);
      var existing := instanceId != 0 && FindInstance(db.instances, instanceId).Some?;
      var iid := if existing then instanceId else db.lastId + 1;
      ((!existing && FindModule(modules, moduleId).None?) || Get(form, "title").None? ==> res.Crashed? && db2 == db)
      && ((existing || FindModule(modules, moduleId).Some?) && Get(form, "title").Some? ==>
            (res.Crashed? <==> SlidesRefused(form))
            && FirstOwned(db2.sliders, iid).Some?
            && (res.Crashed? ==> Owned(db2.slides, FirstOwned(db2.sliders, iid).value.id) == []))
  {
    var s := Settings(form);
    var u := Upsert(db.instances, modules, moduleId, instanceId, db.lastId, s, s);
    UpsertSpec(db.instances, modules, moduleId, instanceId, db.lastId, s, s);
    if u.Some? && Get(form, "title").Some? {
      var (instances, iid, last) := u.value;
      assert FindInstance(instances, iid).value in instances;
      SaveWritten(db, modules, moduleId, form, instanceId, instances, iid, last);
    }
  }

  /** A save whose instance was written, with a title, ends as its two phases do. */
  lemma {:induction false} SaveWritten(db: SliderDb, modules: seq<Module>, moduleId: nat, form: Form, instanceId: nat,
                                       instances: seq<Instance>, iid: nat, last: nat)
    requires Valid(db) && moduleId != 0 && last >= db.lastId && iid <= last
    requires Upsert(db.instances, modules, moduleId, instanceId, db.lastId, Settings(form), Settings(form)) == Some((instances, iid, last))
    requires forall i :: i in instances ==> i.id <= last
    requires Get(form, "title").Some?
    ensures var (res, db2) := SaveSpec(db, modules, moduleId, form, instanceId);
      (res.Crashed? <==> SlidesRefused(form))
      && FirstOwned(db2.sliders, iid).Some?
      && (res.Crashed? ==> Owned(db2.slides, FirstOwned(db2.sliders, iid).value.id) == [])
  {
    SaveSpecPhases(db, modules, moduleId, form, instanceId, instances, iid, last);
    PhasesOutcome(db, instances, iid, last, form);
  }

  /**
   * The body of `save_instance` on the tables as values: the tables after
   * the first commit, and after the second, which writes only slides.
   */
  method SavePhases(db: SliderDb, modules: seq<Module>, moduleId: nat, form: Form, instanceId: nat)
    returns (res: SaveResult, db1: SliderDb, db2: SliderDb)
    ensures res == SaveSpec(db, modules, moduleId, form, instanceId).0
    ensures db2 == SaveSpec(db, modules, moduleId, form, instanceId).1
    ensures db2 == db1.(slides := db2.slides, lastId := db2.lastId)
  {
    if moduleId == 0 {
      return MissingModuleId(MissingModuleFlash), db, db;
    }
    var upserted := Upsert(db.instances, modules, moduleId, instanceId, db.lastId, Settings(form), Settings(form));
    if upserted.None? || Get(form, "title").None? {
      return Crashed, db, db;
    }
    var (instances1, iid, last) := upserted.value;
    var prepared := Prepare(db, instances1, iid, last, form);
    var owner;
    db1, owner := prepared.0, prepared.1;
    SaveSpecPhases(db, modules, moduleId, form, instanceId, instances1, iid, last);
    res, db2 := FillTables(db1, iid, owner, form);
  }

  /** Once the instance is written, a save is its two phases in turn. */
  lemma {:induction false} SaveSpecPhases(db: SliderDb, modules: seq<Module>, moduleId: nat, form: Form, instanceId: nat,
                                          instances: seq<Instance>, iid: nat, last: nat)
    requires moduleId != 0
    requires Upsert(db.instances, modules, moduleId, instanceId, db.lastId, Settings(form), Settings(form)) == Some((instances, iid, last))
    requires Get(form, "title").Some?
    ensures SaveSpec(db, modules, moduleId, form, instanceId).0
            == Fill(Prepare(db, instances, iid, last, form).0, iid, Prepare(db, instances, iid, last, form).1, form).0
    ensures SaveSpec(db, modules, moduleId, form, instanceId).1
            == Fill(Prepare(db, instances, iid, last, form).0, iid, Prepare(db, instances, iid, last, form).1, form).1
  {
  }

  /** The two phases after the instance is written: the slider row stays, and a failed second phase leaves it no slides. */
  lemma {:induction false} PhasesOutcome(db: SliderDb, instances: seq<Instance>, iid: nat, last: nat, form: Form)
    requires Valid(db) && last >= db.lastId && iid <= last
    requires forall i :: i in instances ==> i.id <= last
    ensures var (db1, owner) := Prepare(db, instances, iid, last, form);
      var (res, db2) := Fill(db1, iid, owner, form);
      (res.Crashed? <==> SlidesRefused(form))
      && FirstOwned(db2.sliders, iid).Some?
      && (res.Crashed? ==> Owned(db2.slides, FirstOwned(db2.sliders, iid).value.id) == [])
  {
    PrepareSpec(db, instances, iid, last, form);
    var (db1, owner) := Prepare(db, instances, iid, last, form);
    FillOutcome(db1, iid, owner, form);
    if Owned(db1.slides, owner) != [] {
      assert Owned(db1.slides, owner)[0] in Owned(db1.slides, owner);
    }
  }

  // ---------------------------------------------------------------------
  // Load, storefront data and delete

  /** A slide as handed to the templates: the row, its buttons decoded. */
  function SlideView(row: Row<Slide>): (r: Option<Json>)
    ensures r.None? <==> row.data.buttons.BadText?
  {
    match DecodeButtons(row.data.buttons)
    case None => None
    case Some(buttons) => Some(JObj([("id", JInt(row.id)), ("buttons", buttons)]))
  }

  /** The slides of a slider, buttons decoded, in id order; None where some text does not decode. */
  function SlideViews(rows: seq<Row<Slide>>): (r: Option<seq<Json>>)
    ensures r.None? <==> exists j :: 0 <= j < |rows| && rows[j].data.buttons.BadText?
  {
    var views := seq(|rows|, j requires 0 <= j < |rows| => SlideView(rows[j]));
    AllSomeSpec(views);
    assert forall j :: 0 <= j < |rows| ==> (views[j].None? <==> rows[j].data.buttons.BadText?);
    AllSome(views)
  }

  /** The slides of a slider row, or none when there is no row. */
  function SlidesOf(db: SliderDb, slider: Option<Row<Slider>>): seq<Row<Slide>>
  {
    if slider.Some? then Owned(db.slides, slider.value.id) else []
  }

  /**
   * `load_instance_data(instance_id)`: with no id, no instance, no slider
   * and no slides; otherwise the instance (a 404 when it does not exist),
   * its first slider row and that row's slides with their buttons decoded.
   * None where the request fails.
   */
  function LoadInstanceData(instanceId: nat, db: SliderDb): (r: Option<map<string, Json>>)
    ensures instanceId == 0 ==> r == Some(map["module_instance" := JNull, "slider" := JNull, "slides" := JArr([])])
    ensures instanceId != 0 ==>
      (r.None? <==> FindInstance(db.instances, instanceId).None?
                    || SlideViews(SlidesOf(db, FirstOwned(db.sliders, instanceId))).None?)
    ensures r.Some? ==> r.value.Keys == {"module_instance", "slider", "slides"}
    ensures r.Some? && instanceId != 0 ==>
      r.value["module_instance"] == JInt(instanceId)
      && r.value["slider"] == Ref(FirstOwned(db.sliders, instanceId))
      && r.value["slides"] == JArr(SlideViews(SlidesOf(db, FirstOwned(db.sliders, instanceId))).value)
  {
    if instanceId == 0 then Some(map["module_instance" := JNull, "slider" := JNull, "slides" := JArr([])])
    else if FindInstance(db.instances, instanceId).None? then None
    else
      var slider := FirstOwned(db.sliders, instanceId);
      match SlideViews(SlidesOf(db, slider))
      case None => None
      case Some(views) => Some(map["module_instance" := JInt(instanceId), "slider" := Ref(slider), "slides" := JArr(views)])
  }

  /**
   * `get_instance_data(module_instance)`: the defaults for no instance;
   * otherwise the settings (`{}` when empty), the slider row and its slides
   * with their buttons decoded. None where a stored text does not decode.
   */
  function InstanceData(inst: Option<Instance>, db: SliderDb): (r: Option<map<string, Json>>)
    ensures inst.None? ==> r == Some(map["settings" := EmptyObject, "slider" := JNull, "slides" := JArr([])])
    ensures inst.Some? ==>
      (r.None? <==> inst.value.settings.BadText? || SlideViews(SlidesOf(db, FirstOwned(db.sliders, inst.value.id))).None?)
    ensures r.Some? ==> r.value.Keys == {"settings", "slider", "slides"}
    ensures r.Some? && inst.Some? ==>
      r.value["settings"] == LoadSettings(inst.value.settings).value
      && r.value["slider"] == Ref(FirstOwned(db.sliders, inst.value.id))
  {
    match inst
    case None => Some(map["settings" := EmptyObject, "slider" := JNull, "slides" := JArr([])])
    case Some(i) =>
      var slider := FirstOwned(db.sliders, i.id);
      match (LoadSettings(i.settings), SlideViews(SlidesOf(db, slider)))
      case (Some(settings), Some(views)) => Some(map["settings" := settings, "slider" := Ref(slider), "slides" := JArr(views)])
      case _ => None
  }

  /**
   * A saved slider loads again: each slide comes back with the buttons
   * submitted for it, in order, and an empty list when it had none.
   */
  lemma {:induction false} SaveThenLoad(db: SliderDb, modules: seq<Module>, moduleId: nat, form: Form, instanceId: nat)
    requires Valid(db)
    requires SaveSpec(db, modules, moduleId, form, instanceId).0.Saved?
    ensures var (res, db2) := SaveSpec(db, modules, moduleId, form, instanceId);
      var ds := SlideDrafts(Items(form)).value;
      var r := LoadInstanceData(res.instanceId, db2);
      r.Some? && r.value["slider"] != JNull
      && |r.value["slides"].items| == |ds|
      && forall j :: 0 <= j < |ds| ==>
           r.value["slides"].items[j].JObj?
           && Member(r.value["slides"].items[j], "buttons") == Some(JArr(ButtonList(ds[j].1.buttons)))
  {
    SavedState(db, modules, moduleId, form, instanceId);
    var (res, db2) := SaveSpec(db, modules, moduleId, form, instanceId);
    var ds := SlideDrafts(Items(form)).value;
    var row := FirstOwned(db2.sliders, res.instanceId).value;
    SavedId(db, modules, moduleId, form, instanceId);
    LoadedSlides(Owned(db2.slides, row.id), ds);
  }

  /** A saved instance has a real id. */
  lemma {:induction false} SavedId(db: SliderDb, modules: seq<Module>, moduleId: nat, form: Form, instanceId: nat)
    requires Valid(db)
    requires SaveSpec(db, modules, moduleId, form, instanceId).0.Saved?
    ensures SaveSpec(db, modules, moduleId, form, instanceId).0.instanceId != 0
  {
    var s := Settings(form);
    UpsertSpec(db.instances, modules, moduleId, instanceId, db.lastId, s, s);
  }

  /** Slide rows written from drafts read back with the drafts' buttons. */
  lemma {:induction false} LoadedSlides(rows: seq<Row<Slide>>, ds: Drafts)
    requires |rows| == |ds|
    requires forall j :: 0 <= j < |ds| ==> Some(rows[j].data) == NewSlide(ds[j].1)
    ensures SlideViews(rows).Some? && |SlideViews(rows).value| == |ds|
    ensures forall j :: 0 <= j < |ds| ==>
      SlideViews(rows).value[j].JObj?
      && Member(SlideViews(rows).value[j], "buttons") == Some(JArr(ButtonList(ds[j].1.buttons)))
  {
    forall j | 0 <= j < |rows|
      ensures !rows[j].data.buttons.BadText?
      ensures SlideView(rows[j]).Some? && SlideView(rows[j]).value.JObj?
      ensures Member(SlideView(rows[j]).value, "buttons") == Some(JArr(ButtonList(ds[j].1.buttons)))
    {
      LoadedSlide(rows[j], ds[j].1);
    }
    AllSomeSpec(seq(|rows|, j requires 0 <= j < |rows| => SlideView(rows[j])));
  }

  lemma {:induction false} LoadedSlide(row: Row<Slide>, d: SlideDraft)
    requires Some(row.data) == NewSlide(d)
    ensures !row.data.buttons.BadText?
    ensures SlideView(row).Some? && SlideView(row).value.JObj?
    ensures Member(SlideView(row).value, "buttons") == Some(JArr(ButtonList(d.buttons)))
  {
    var fields := SlideView(row).value.fields;
    LookupFirst(fields, 1, "buttons");
  }

  /** `del_instance` on an existing instance: its first slider's slides, that slider and the instance go. */
  function Deleted(db: SliderDb, instanceId: nat): SliderDb
  {
    match FirstOwned(db.sliders, instanceId)
    case None => db.(instances := DropInstance(db.instances, instanceId))
    case Some(s) => SliderDb(DropInstance(db.instances, instanceId), DropRow(db.sliders, s.id), Disown(db.slides, s.id), db.lastId)
  }

  /** After the delete, loading the instance is a 404, its slider has no slides, and other instances stay. */
  lemma {:induction false} DeletedSpec(db: SliderDb, instanceId: nat)
    requires instanceId != 0 && Valid(db)
    ensures var db2 := Deleted(db, instanceId);
      LoadInstanceData(instanceId, db2).None? && Valid(db2)
      && (forall i :: i in db.instances && i.id != instanceId ==> i in db2.instances)
      && (FirstOwned(db.sliders, instanceId).Some? ==>
            var s := FirstOwned(db.sliders, instanceId).value;
            s !in db2.sliders && Owned(db2.slides, s.id) == [])
  {
    var db2 := Deleted(db, instanceId);
    if FirstOwned(db.sliders, instanceId).Some? {
      var s := FirstOwned(db.sliders, instanceId).value;
      if Owned(db2.slides, s.id) != [] {
        assert Owned(db2.slides, s.id)[0] in Owned(db2.slides, s.id);
      }
    }
  }

  // ---------------------------------------------------------------------
  // The tables as the editor changes them

  class SliderStore {
    const modules: seq<Module>
    var instances: seq<Instance>
    var sliders: seq<Row<Slider>>
    var slides: seq<Row<Slide>>
    var lastId: nat
    /** The layout cells of pages and posts, which the deletion of an instance detaches. */
    const cells: LayoutCells

    function Db(): SliderDb
      reads this
    {
      SliderDb(instances, sliders, slides, lastId)
    }

    constructor (modules: seq<Module>, db: SliderDb, cells: LayoutCells)
      ensures this.modules == modules && Db() == db
      ensures this.cells == cells
    {
      this.cells := cells;
      this.modules := modules;
      instances := db.instances;
      sliders := db.sliders;
      slides := db.slides;
      lastId := db.lastId;
    }

    /** `save_instance`: the tables end as `SaveSpec` describes, phase by phase. */
    method SaveInstance(moduleId: nat, form: Form, instanceId: nat) returns (res: SaveResult)
      modifies this
      ensures res == SaveSpec(old(Db()), modules, moduleId, form, instanceId).0
      ensures Db() == SaveSpec(old(Db()), modules, moduleId, form, instanceId).1
    {
      var db1, db2;
      res, db1, db2 := SavePhases(Db(), modules, moduleId, form, instanceId);
      // the first commit
      instances, sliders, slides, lastId := db1.instances, db1.sliders, db1.slides, db1.lastId;
      // the second commit
      slides, lastId := db2.slides, db2.lastId;
    }

    /**
     * `del_instance`: an unknown instance gives an error message and changes
     * nothing; otherwise the tables end as `Deleted` describes, and with the
     * instance the layout cells that showed it are detached.
     */
    method DeleteInstance(instanceId: nat) returns (flash: Flash)
      modifies this, cells
      ensures FindInstance(old(instances), instanceId).None? ==> flash == NotFoundFlash && Db() == old(Db())
      ensures FindInstance(old(instances), instanceId).Some? ==>
        flash == DeletedFlash && Db() == Deleted(old(Db()), instanceId)
      ensures if flash == DeletedFlash then cells.Detached(instanceId) else cells.Unchanged()
    {
      if FindInstance(instances, instanceId).None? {
        return NotFoundFlash;
      }
      var slider := FirstOwned(sliders, instanceId);
      if slider.Some? {
        slides := Disown(slides, slider.value.id);
        sliders := DropRow(sliders, slider.value.id);
      }
      cells.DetachInstance(instanceId);
      instances := DropInstance(instances, instanceId);
      flash := DeletedFlash;
    }
  }
}
