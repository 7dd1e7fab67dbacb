// Product options and variations (app/models/productOptions.py): the
// option list a product page shows, the variation list with its option
// summary, and the slug a variation is given.

module ProductOptions {
  import opened Common
  import opened UniqueSlugs
  import opened MenuData

  datatype OptionRow = OptionRow(id: nat, name: string, displayType: string, hasIndividualPhotos: bool)

  datatype ValueRow = ValueRow(id: nat, optionId: nat, value: string)

  /** `product_option_value_images`: a photo of an option value. */
  datatype ValueImage = ValueImage(optionValueId: nat, imageId: nat, order: int, isMain: bool)

  /** The tables the option queries read, each in id order. */
  datatype OptionTables = OptionTables(options: seq<OptionRow>, values: seq<ValueRow>,
                                       productValues: seq<(nat, nat)>, valueImages: seq<ValueImage>,
                                       images: seq<Image>)

  function OptionById(options: seq<OptionRow>, id: nat): (r: Option<OptionRow>)
    ensures r.Some? ==> r.value in options && r.value.id == id
    ensures r.None? <==> forall o :: o in options ==> o.id != id
  {
    if options == [] then None
    else if options[0].id == id then Some(options[0])
    else OptionById(options[1..], id)
  }

  // ---------------------------------------------------------------------
  // get_options_by_product_id

  datatype Photo = Photo(id: nat, path: string, order: int, isMain: bool)

  datatype ValueEntry = ValueEntry(id: nat, value: string, photos: seq<Photo>)

  datatype OptionEntry = OptionEntry(id: nat, name: string, displayType: string, hasIndividualPhotos: bool,
                                     values: seq<ValueEntry>)

  /** The option values associated with the product, in id order. */
  function ProductValues(values: seq<ValueRow>, productValues: seq<(nat, nat)>, productId: nat): (r: seq<ValueRow>)
    ensures forall v :: v in r <==> v in values && (productId, v.id) in productValues
  {
    if values == [] then []
    else
      (if (productId, values[0].id) in productValues then [values[0]] else [])
      + ProductValues(values[1..], productValues, productId)
  }

  /** The photos of a value: one per image relation whose image exists, with its order and main flag. */
  function Photos(rels: seq<ValueImage>, images: seq<Image>, valueId: nat): (r: seq<Photo>)
    ensures forall p :: p in r <==> (exists rel :: rel in rels && rel.optionValueId == valueId
                                       && ImageById(images, rel.imageId).Some?
                                       && p == Photo(rel.imageId, ImageById(images, rel.imageId).value.filename, rel.order, rel.isMain))
  {
    if rels == [] then []
    else
      var rel := rels[0];
      var img := ImageById(images, rel.imageId);
      var rest := Photos(rels[1..], images, valueId);
      assert forall x :: x in rels[1..] ==> x in rels;
      assert forall x :: x in rels ==> x == rel || x in rels[1..];
      (if rel.optionValueId == valueId && img.Some? then [Photo(img.value.id, img.value.filename, rel.order, rel.isMain)]
       else [])
      + rest
  }

  function ValueEntryOf(t: OptionTables, v: ValueRow): ValueEntry
  {
    ValueEntry(v.id, v.value, Photos(t.valueImages, t.images, v.id))
  }

  /** The option ids of `vs` without repeats, in first-seen order. */
  function FirstSeen(vs: seq<ValueRow>): (r: seq<nat>)
    ensures forall o :: o in r <==> exists v :: v in vs && v.optionId == o
    ensures forall j, k :: 0 <= j < k < |r| ==> r[j] != r[k]
  {
    if vs == [] then []
    else
      var init := FirstSeen(vs[..|vs| - 1]);
      assert forall v :: v in vs <==> v in vs[..|vs| - 1] || v == vs[|vs| - 1];
      if vs[|vs| - 1].optionId in init then init else init + [vs[|vs| - 1].optionId]
  }

  /** The entries of the values of option `o`, in order. */
  function ValuesFor(t: OptionTables, vs: seq<ValueRow>, o: nat): (r: seq<ValueEntry>)
    ensures (forall v :: v in vs ==> v.optionId != o) ==> r == []
  {
    if vs == [] then []
    else
      assert forall v :: v in vs[..|vs| - 1] ==> v in vs;
      ValuesFor(t, vs[..|vs| - 1], o) + (if vs[|vs| - 1].optionId == o then [ValueEntryOf(t, vs[|vs| - 1])] else [])
  }

  /**
   * The entry of option `o`, holding the given values. The option of a
   * value always exists (the foreign key `option_id`); the name-less
   * fallback stands for the attribute error a missing one would raise.
   */
  function EntryOf(t: OptionTables, o: nat, values: seq<ValueEntry>): OptionEntry
  {
    match OptionById(t.options, o)
    case Some(opt) => OptionEntry(o, opt.name, opt.displayType, opt.hasIndividualPhotos, values)
    case None => OptionEntry(o, "", "", false, values)
  }

  /** The position of option `o` in the list so far: the first entry with that id, or the end. */
  function IndexOfOption(r: seq<OptionEntry>, o: nat): (j: nat)
    ensures j <= |r| && (forall m :: 0 <= m < j ==> r[m].id != o) && (j < |r| ==> r[j].id == o)
  {
    if r == [] || r[0].id == o then 0 else 1 + IndexOfOption(r[1..], o)
  }

  /** One pass of the loop: a new option gets an entry at the end, a known one gets the value appended. */
  function AddValue(t: OptionTables, r: seq<OptionEntry>, v: ValueRow): seq<OptionEntry>
  {
    var j := IndexOfOption(r, v.optionId);
    if j == |r| then r + [EntryOf(t, v.optionId, [ValueEntryOf(t, v)])]
    else r[j := r[j].(values := r[j].values + [ValueEntryOf(t, v)])]
  }

  /** The option list the loop builds from the values `vs`. */
  function OptionList(t: OptionTables, vs: seq<ValueRow>): seq<OptionEntry>
  {
    if vs == [] then [] else AddValue(t, OptionList(t, vs[..|vs| - 1]), vs[|vs| - 1])
  }

  /**
   * `get_options_by_product_id(pid)`: the loop over the product's values
   * that files each value under its option, creating the option's entry
   * the first time the option is seen.
   */
  method GetOptionsByProductId(t: OptionTables, productId: nat) returns (r: seq<OptionEntry>)
    ensures r == OptionList(t, ProductValues(t.values, t.productValues, productId))
  {
    var vs := ProductValues(t.values, t.productValues, productId);
    r := [];
    var i := 0;
    while i < |vs|
      invariant i <= |vs|
      invariant r == OptionList(t, vs[..i])
    {
      OptionListStep(t, vs, i);
      r := FileValue(t, r, vs[i]);
      i := i + 1;
    }
    assert vs[..i] == vs;
  }

  /** Files one value: a new entry for a new option, else the value appended to its option's entry. */
  method FileValue(t: OptionTables, r: seq<OptionEntry>, v: ValueRow) returns (r': seq<OptionEntry>)
    ensures r' == AddValue(t, r, v)
  {
    var entry := ValueEntryOf(t, v);
    var j := FindOption(r, v.optionId);
    if j == |r| {
      r' := r + [EntryOf(t, v.optionId, [entry])];
    } else {
      r' := r[j := r[j].(values := r[j].values + [entry])];
    }
  }

  /** The search for the option's entry in the list built so far. */
  method FindOption(r: seq<OptionEntry>, o: nat) returns (j: nat)
    ensures j == IndexOfOption(r, o)
  {
    j := 0;
    while j < |r| && r[j].id != o
      invariant j <= |r|
      invariant forall m :: 0 <= m < j ==> r[m].id != o
    {
      j := j + 1;
    }
  }

  lemma {:induction false} OptionListStep(t: OptionTables, vs: seq<ValueRow>, i: nat)
    requires i < |vs|
    ensures OptionList(t, vs[..i + 1]) == AddValue(t, OptionList(t, vs[..i]), vs[i])
  {
    assert vs[..i + 1][..i] == vs[..i];
  }

  /**
   * The list holds one entry per option of the values, in first-seen
   * order, each with its option's own name and type and exactly the
   * entries of that option's values, in order.
   */
  lemma {:induction false} OptionListSpec(t: OptionTables, vs: seq<ValueRow>)
    ensures var r := OptionList(t, vs);
      |r| == |FirstSeen(vs)|
      && forall k :: 0 <= k < |r| ==> r[k] == EntryOf(t, FirstSeen(vs)[k], ValuesFor(t, vs, FirstSeen(vs)[k]))
  {
    if vs != [] {
      var init := vs[..|vs| - 1];
      OptionListSpec(t, init);
      if IndexOfOption(OptionList(t, init), vs[|vs| - 1].optionId) == |OptionList(t, init)| {
        NewOptionStep(t, vs);
      } else {
        KnownOptionStep(t, vs);
      }
    }
  }

  /** The list holds one entry per option seen, with that option's values. */
  ghost predicate Listed(t: OptionTables, vs: seq<ValueRow>)
  {
    var r := OptionList(t, vs);
    |r| == |FirstSeen(vs)|
    && forall k :: 0 <= k < |r| ==> r[k] == EntryOf(t, FirstSeen(vs)[k], ValuesFor(t, vs, FirstSeen(vs)[k]))
  }

  /** A value of an option not seen before adds the option's entry at the end. */
  lemma {:induction false} NewOptionStep(t: OptionTables, vs: seq<ValueRow>)
    requires vs != [] && Listed(t, vs[..|vs| - 1])
    requires IndexOfOption(OptionList(t, vs[..|vs| - 1]), vs[|vs| - 1].optionId) == |OptionList(t, vs[..|vs| - 1])|
    ensures Listed(t, vs)
  {
    var init := vs[..|vs| - 1];
    var v := vs[|vs| - 1];
    var o := v.optionId;
    var r := OptionList(t, init);
    var fs := FirstSeen(init);
    var r2 := OptionList(t, vs);
    var fs2 := FirstSeen(vs);
    assert o !in fs;
    assert fs2 == fs + [o];
    assert ValuesFor(t, init, o) == [];
    forall k | 0 <= k < |r2|
      ensures r2[k] == EntryOf(t, fs2[k], ValuesFor(t, vs, fs2[k]))
    {
      if k < |r| {
        assert fs2[k] == fs[k] != o;
      }
    }
  }

  /** A value of an option already seen is appended to that option's entry. */
  lemma {:induction false} KnownOptionStep(t: OptionTables, vs: seq<ValueRow>)
    requires vs != [] && Listed(t, vs[..|vs| - 1])
    requires IndexOfOption(OptionList(t, vs[..|vs| - 1]), vs[|vs| - 1].optionId) < |OptionList(t, vs[..|vs| - 1])|
    ensures Listed(t, vs)
  {
    var init := vs[..|vs| - 1];
    var v := vs[|vs| - 1];
    var o := v.optionId;
    var r := OptionList(t, init);
    var fs := FirstSeen(init);
    var j := IndexOfOption(r, o);
    var r2 := OptionList(t, vs);
    var fs2 := FirstSeen(vs);
    assert fs[j] == o by {
      assert r[j] == EntryOf(t, fs[j], ValuesFor(t, init, fs[j]));
    }
    assert fs2 == fs;
    forall k | 0 <= k < |r2|
      ensures r2[k] == EntryOf(t, fs2[k], ValuesFor(t, vs, fs2[k]))
    {
      if k == j {
        EntryWithValues(t, o, ValuesFor(t, init, o), ValuesFor(t, init, o) + [ValueEntryOf(t, v)]);
      } else {
        assert fs[k] != o;
      }
    }
  }

  /** Replacing the values of an option's entry gives the entry of those values. */
  lemma {:induction false} EntryWithValues(t: OptionTables, o: nat, a: seq<ValueEntry>, b: seq<ValueEntry>)
    ensures EntryOf(t, o, a).(values := b) == EntryOf(t, o, b)
  {
  }

  /** No option is listed twice. */
  lemma {:induction false} OptionsDistinct(t: OptionTables, vs: seq<ValueRow>)
    ensures var r := OptionList(t, vs);
      forall j, k :: 0 <= j < k < |r| ==> r[j].id != r[k].id
  {
    OptionListSpec(t, vs);
  }

  /** Every value is listed under its own option. */
  lemma {:induction false} ValueFiled(t: OptionTables, vs: seq<ValueRow>, v: ValueRow)
    requires v in vs
    ensures var r := OptionList(t, vs);
      exists k :: 0 <= k < |r| && r[k].id == v.optionId && ValueEntryOf(t, v) in r[k].values
  {
    OptionListSpec(t, vs);
    var fs := FirstSeen(vs);
    assert v.optionId in fs;
    var k :| 0 <= k < |fs| && fs[k] == v.optionId;
    ValuesForMember(t, vs, v);
    assert OptionList(t, vs)[k].id == v.optionId;
  }

  lemma {:induction false} ValuesForMember(t: OptionTables, vs: seq<ValueRow>, v: ValueRow)
    requires v in vs
    ensures ValueEntryOf(t, v) in ValuesFor(t, vs, v.optionId)
  {
    var init := vs[..|vs| - 1];
    if v != vs[|vs| - 1] {
      assert v in init;
      ValuesForMember(t, init, v);
    }
  }

  // ---------------------------------------------------------------------
  // get_variations_by_product_id

  datatype VariationRow = VariationRow(id: nat, productId: nat, sku: Option<string>, stock: Option<int>,
                                       slug: Option<string>, seoTitle: Option<string>,
                                       seoDescription: Option<string>, seoKeys: Option<string>,
                                       imageId: Option<nat>)

  /** `product_variation_option_values`: a value taking part in a variation. */
  datatype VariationValue = VariationValue(variationId: nat, optionValueId: nat)

  datatype ComboId = ComboId(optionId: nat, valueId: nat)

  /** What the variation dict holds for one variation (the price, a float, is left out). */
  datatype VariationEntry = VariationEntry(id: nat, sku: string, slug: string, stock: int, seoTitle: string,
                                           seoDescription: string, seoKeywords: string, imageId: Option<nat>,
                                           image: Option<Image>, optionValueIds: seq<nat>,
                                           comboIds: seq<ComboId>, comboHtml: string)

  /** A value row of a variation with its option's name, `""` for a missing value or option. */
  datatype Part = Part(optionId: Option<nat>, valueId: nat, name: string, value: string)

  function ValueById(values: seq<ValueRow>, id: nat): (r: Option<ValueRow>)
    ensures r.Some? ==> r.value in values && r.value.id == id
  {
    if values == [] then None
    else if values[0].id == id then Some(values[0])
    else ValueById(values[1..], id)
  }

  /** The part a link contributes: the value row and its option, when they exist. */
  function PartOf(t: OptionTables, link: VariationValue): (p: Part)
    ensures p.name != "" ==> (p.optionId.Some? && OptionById(t.options, p.optionId.value).Some?
      && ValueById(t.values, link.optionValueId).Some?
      && ValueById(t.values, link.optionValueId).value.optionId == p.optionId.value
      && p.valueId == link.optionValueId)
  {
    match ValueById(t.values, link.optionValueId)
    case None => Part(None, link.optionValueId, "", "")
    case Some(row) =>
      match OptionById(t.options, row.optionId)
      case None => Part(None, row.id, "", row.value)
      case Some(opt) => Part(Some(opt.id), row.id, opt.name, row.value)
  }

  /** A part is kept when both its option name and its value are non-empty. */
  predicate KeptPart(p: Part)
  {
    p.name != "" && p.value != ""
  }

  /** The kept parts of the variation's links, in link order. */
  function Kept(t: OptionTables, links: seq<VariationValue>): (r: seq<Part>)
    ensures forall p :: p in r ==> KeptPart(p) && exists l :: l in links && p == PartOf(t, l)
  {
    if links == [] then []
    else
      var init := links[..|links| - 1];
      var p := PartOf(t, links[|links| - 1]);
      assert forall l :: l in init ==> l in links;
      Kept(t, init) + (if KeptPart(p) then [p] else [])
  }

  /** `<strong>{name}:</strong> {value}<br>`. */
  function PartHtml(p: Part): string
  {
    "<strong>" + p.name + ":</strong> " + p.value + "<br>"
  }

  function HtmlOf(parts: seq<Part>): string
  {
    if parts == [] then "" else HtmlOf(parts[..|parts| - 1]) + PartHtml(parts[|parts| - 1])
  }

  function ValueIds(parts: seq<Part>): seq<nat>
  {
    seq(|parts|, k requires 0 <= k < |parts| => parts[k].valueId)
  }

  /** The id pairs of the parts whose option exists. */
  function ComboIds(parts: seq<Part>): seq<ComboId>
  {
    if parts == [] then []
    else
      var p := parts[|parts| - 1];
      ComboIds(parts[..|parts| - 1]) + (if p.optionId.Some? then [ComboId(p.optionId.value, p.valueId)] else [])
  }

  /** The inner loop over the variation's links: the summary, the value ids and the id pairs. */
  method Combo(t: OptionTables, links: seq<VariationValue>) returns (html: string, ids: seq<nat>, combo: seq<ComboId>)
    ensures html == HtmlOf(Kept(t, links)) && ids == ValueIds(Kept(t, links)) && combo == ComboIds(Kept(t, links))
  {
    html, ids, combo := "", [], [];
    var i := 0;
    while i < |links|
      invariant i <= |links|
      invariant html == HtmlOf(Kept(t, links[..i]))
      invariant ids == ValueIds(Kept(t, links[..i]))
      invariant combo == ComboIds(Kept(t, links[..i]))
    {
      var p := PartOf(t, links[i]);
      KeptStep(t, links, i);
      if KeptPart(p) {
        PartsSnoc(Kept(t, links[..i]), p);
        html := html + PartHtml(p);
        ids := ids + [p.valueId];
        if p.optionId.Some? {
          combo := combo + [ComboId(p.optionId.value, p.valueId)];
        }
      }
      i := i + 1;
    }
    assert links[..i] == links;
  }

  lemma {:induction false} KeptStep(t: OptionTables, links: seq<VariationValue>, i: nat)
    requires i < |links|
    ensures KeptPart(PartOf(t, links[i])) ==> Kept(t, links[..i + 1]) == Kept(t, links[..i]) + [PartOf(t, links[i])]
    ensures !KeptPart(PartOf(t, links[i])) ==> Kept(t, links[..i + 1]) == Kept(t, links[..i])
  {
    assert links[..i + 1][..i] == links[..i];
  }

  lemma {:induction false} PartsSnoc(ps: seq<Part>, p: Part)
    ensures HtmlOf(ps + [p]) == HtmlOf(ps) + PartHtml(p)
    ensures ValueIds(ps + [p]) == ValueIds(ps) + [p.valueId]
    ensures ComboIds(ps + [p]) == ComboIds(ps) + (if p.optionId.Some? then [ComboId(p.optionId.value, p.valueId)] else [])
  {
    assert (ps + [p])[..|ps|] == ps;
  }

  /**
   * Every kept part has an existing option, so the id pairs line up with
   * the value ids one for one, each pairing a value with its own option.
   */
  lemma {:induction false} ComboAligned(t: OptionTables, links: seq<VariationValue>)
    ensures var ps := Kept(t, links);
      var combo := ComboIds(ps);
      |combo| == |ps|
      && forall k :: 0 <= k < |ps| ==> (combo[k].valueId == ValueIds(ps)[k]
        && ValueById(t.values, combo[k].valueId).Some?
        && ValueById(t.values, combo[k].valueId).value.optionId == combo[k].optionId)
  {
    if links != [] {
      var init := links[..|links| - 1];
      ComboAligned(t, init);
      var ps := Kept(t, links);
      var p := PartOf(t, links[|links| - 1]);
      if KeptPart(p) {
        assert ps == Kept(t, init) + [p];
        assert p.optionId.Some?;
        PartsSnoc(Kept(t, init), p);
        assert ComboIds(ps) == ComboIds(Kept(t, init)) + [ComboId(p.optionId.value, p.valueId)];
      } else {
        assert ps == Kept(t, init);
      }
    }
  }

  /** The summary, value ids and pairs of variation `v`. */
  function VariationEntryFor(t: OptionTables, v: VariationRow, links: seq<VariationValue>): VariationEntry
  {
    var ps := Kept(t, LinksOf(links, v.id));
    var img := if v.imageId.Some? then ImageById(t.images, v.imageId.value) else None;
    VariationEntry(v.id, OrEmpty(v.sku), OrEmpty(v.slug), if v.stock.Some? then v.stock.value else 0,
                   OrEmpty(v.seoTitle), OrEmpty(v.seoDescription), OrEmpty(v.seoKeys), v.imageId,
                   img, ValueIds(ps), ComboIds(ps), HtmlOf(ps))
  }

  /** `x or ''` on a nullable text column. */
  function OrEmpty(s: Option<string>): string
  {
    if s.Some? then s.value else ""
  }

  function LinksOf(links: seq<VariationValue>, variationId: nat): (r: seq<VariationValue>)
    ensures forall l :: l in r <==> l in links && l.variationId == variationId
  {
    if links == [] then []
    else (if links[0].variationId == variationId then [links[0]] else []) + LinksOf(links[1..], variationId)
  }

  /** The entries of the product's variations, in id order. */
  function VariationList(t: OptionTables, variations: seq<VariationRow>, links: seq<VariationValue>,
                         productId: nat): (r: seq<VariationEntry>)
    ensures forall e :: e in r ==> (exists v :: v in variations && v.productId == productId
                                              && e == VariationEntryFor(t, v, links))
  {
    if variations == [] then []
    else
      var init := variations[..|variations| - 1];
      var v := variations[|variations| - 1];
      assert forall w :: w in init ==> w in variations;
      VariationList(t, init, links, productId) + (if v.productId == productId then [VariationEntryFor(t, v, links)] else [])
  }

  /** Every variation of the product has its entry. */
  lemma {:induction false} VariationListComplete(t: OptionTables, variations: seq<VariationRow>,
                                                 links: seq<VariationValue>, productId: nat, v: VariationRow)
    requires v in variations && v.productId == productId
    ensures VariationEntryFor(t, v, links) in VariationList(t, variations, links, productId)
  {
    var init := variations[..|variations| - 1];
    if v != variations[|variations| - 1] {
      assert v in init;
      VariationListComplete(t, init, links, productId, v);
    }
  }

  /**
   * `get_variations_by_product_id(pid)`: one entry per variation of the
   * product, in id order; its option value ids, id pairs and summary all
   * come from the parts with a non-empty option name and value.
   */
  method GetVariationsByProductId(t: OptionTables, variations: seq<VariationRow>, links: seq<VariationValue>,
                                  productId: nat)
    returns (r: seq<VariationEntry>)
    ensures r == VariationList(t, variations, links, productId)
  {
    r := [];
    var i := 0;
    while i < |variations|
      invariant i <= |variations|
      invariant r == VariationList(t, variations[..i], links, productId)
    {
      var v := variations[i];
      assert variations[..i + 1][..i] == variations[..i];
      if v.productId == productId {
        var html, ids, combo := Combo(t, LinksOf(links, v.id));
        var img := if v.imageId.Some? then ImageById(t.images, v.imageId.value) else None;
        r := r + [VariationEntry(v.id, OrEmpty(v.sku), OrEmpty(v.slug), if v.stock.Some? then v.stock.value else 0,
                                 OrEmpty(v.seoTitle), OrEmpty(v.seoDescription), OrEmpty(v.seoKeys), v.imageId,
                                 img, ids, combo, html)];
      }
      i := i + 1;
    }
    assert variations[..i] == variations;
  }

  // ---------------------------------------------------------------------
  // ProductVariation.generate_slug

  /** `f"product-{pid}-{'-'.join(names)}"`. */
  function DefaultBase(productId: nat, names: seq<string>): string
  {
    "product-" + NatToString(productId) + "-" + Join(names, "-")
  }

  /** Slugs of the other variations (for an unsaved variation, `id != NULL` matches every saved row). */
  function OtherVariationSlugs(slugs: seq<(nat, Option<string>)>, selfId: Option<nat>): set<string>
  {
    set x | x in slugs && x.1.Some? && (selfId.Some? ==> x.0 != selfId.value) :: x.1.value
  }

  /** `slug LIKE 'base%'`: some other slug starts with the base. */
  predicate PrefixTaken(taken: set<string>, base: string)
  {
    exists s :: s in taken && StartsWith(s, base)
  }

  /** A variation being saved: its id (None before the first flush), product, value names and slug. */
  class Variation {
    var id: Option<nat>
    var productId: nat
    var valueNames: seq<string>
    var slug: Option<string>

    constructor (id: Option<nat>, productId: nat, valueNames: seq<string>, slug: Option<string>)
      ensures this.id == id && this.productId == productId && this.valueNames == valueNames && this.slug == slug
    {
      this.id, this.productId, this.valueNames, this.slug := id, productId, valueNames, slug;
    }

    /** The base: the current slug when set, else the product id and value names. */
    function Base(): string
      reads this
    {
      if slug.Some? && slug.value != "" then slug.value else DefaultBase(productId, valueNames)
    }

    /**
     * `generate_slug()`: the base when no other slug starts with it;
     * otherwise `base-2`, `base-3`, ..., the first that no other variation
     * holds. The result is never held by another variation.
     */
    method GenerateSlug(slugs: seq<(nat, Option<string>)>)
      modifies this
      ensures id == old(id) && productId == old(productId) && valueNames == old(valueNames)
      ensures slug.Some? && slug.value !in OtherVariationSlugs(slugs, id)
      ensures !PrefixTaken(OtherVariationSlugs(slugs, id), old(Base())) ==> slug == Some(old(Base()))
      ensures PrefixTaken(OtherVariationSlugs(slugs, id), old(Base())) ==>
        exists n :: FirstFreeFrom(OtherVariationSlugs(slugs, id), old(Base()) + "-", "", 2, n)
          && slug == Some(Suffixed(old(Base()), n))
    {
      var base := Base();
      var taken := OtherVariationSlugs(slugs, id);
      if PrefixTaken(taken, base) {
        var n := FirstFreeCounter(taken, base + "-", "", 2);
        slug := Some(Suffixed(base, n));
      } else {
        assert base !in taken by {
          if base in taken {
            assert StartsWith(base, base);
          }
        }
        slug := Some(base);
      }
    }
  }

  /**
   * The `LIKE` test looks for any slug extending the base, so a base no
   * other variation holds still gets a counter when another slug merely
   * starts with it.
   */
  lemma {:induction false} FreeBaseSuffixed()
    ensures var taken := {"product-1-red-xl"};
      var base := "product-1-red";
      base !in taken && PrefixTaken(taken, base)
      && FirstFreeFrom(taken, base + "-", "", 2, 2) && Suffixed(base, 2) == "product-1-red-2"
  {
    var taken := {"product-1-red-xl"};
    assert StartsWith("product-1-red-xl", "product-1-red");
    assert Suffixed("product-1-red", 2) == "product-1-red-2" by {
      assert NatToString(2) == "2";
    }
  }
}
