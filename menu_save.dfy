// Saving the menu editor (`MenuModule.save_instance` in
// app/admin/modules/menu.py). The form carries items as indexed fields
// `menu_item_<i>_<field>`; the save finds or creates the module instance and
// its menu instance, writes the instance's settings, deletes the old items
// and then creates one item (a `menu_items` row and its `menu_items_extended`
// row) per index 0, 1, 2, ... until the first index without a title. The
// whole save is one transaction: any exception rolls everything back.

module MenuSave {
  import opened Common
  import opened Json
  import opened Layout
  import opened Registry
  import opened ModuleForms
  import opened Tables
  import opened MenuData

  // ---------------------------------------------------------------------
  // The indexed fields

  /** The name of field `f` of the item at form index `i`: `menu_item_<i>_<f>`. */
  function ItemKey(i: nat, f: string): string
  {
    "menu_item_" + NatToString(i) + "_" + f
  }

  /** Distinct indices give distinct field names. */
  lemma {:induction false} ItemKeyInjective(i: nat, j: nat, f: string)
    requires ItemKey(i, f) == ItemKey(j, f)
    ensures i == j
  {
    var a := ItemKey(i, f);
    var n := |NatToString(i)|;
    assert |NatToString(j)| == n;
    assert NatToString(i) == a[10..10 + n];
    assert NatToString(j) == a[10..10 + n];
    NatToStringInjective(i, j);
  }

  /** The form has a title for index `i`, so the loop creates that item. */
  predicate Titled(form: Form, i: nat)
  {
    Get(form, ItemKey(i, "title")).Some?
  }

  lemma {:induction false} TitleKeysCount(n: nat)
    ensures |set j | 0 <= j < n :: ItemKey(j, "title")| == n
  {
    if n > 0 {
      TitleKeysCount(n - 1);
      var a := set j | 0 <= j < n - 1 :: ItemKey(j, "title");
      var b := set j | 0 <= j < n :: ItemKey(j, "title");
      assert b == a + {ItemKey(n - 1, "title")};
      if ItemKey(n - 1, "title") in a {
        var j :| 0 <= j < n - 1 && ItemKey(j, "title") == ItemKey(n - 1, "title");
        ItemKeyInjective(j, n - 1, "title");
      }
    }
  }

  lemma {:induction false} SubsetCount(a: set<string>, b: set<string>)
    requires a <= b
    ensures |a| <= |b|
    decreases |a|
  {
    if a != {} {
      var x :| x in a;
      SubsetCount(a - {x}, b - {x});
    }
  }

  lemma {:induction false} NamesCount(form: Form)
    ensures |set k | 0 <= k < |form| :: form[k].0| <= |form|
  {
    if form != [] {
      var init := form[..|form| - 1];
      NamesCount(init);
      var a := set k | 0 <= k < |init| :: init[k].0;
      var b := set k | 0 <= k < |form| :: form[k].0;
      forall x | x in b
        ensures x in a + {form[|form| - 1].0}
      {
        var k :| 0 <= k < |form| && form[k].0 == x;
        if k < |init| {
          assert init[k] == form[k];
        }
      }
      SubsetCount(b, a + {form[|form| - 1].0});
    }
  }

  /** A form that titles the indices below `n` has at least `n` fields: the loop is bounded. */
  lemma {:induction false} TitledBound(form: Form, n: nat)
    requires forall j :: 0 <= j < n ==> Titled(form, j)
    ensures n <= |form|
  {
    var keys := set j | 0 <= j < n :: ItemKey(j, "title");
    var names := set k | 0 <= k < |form| :: form[k].0;
    TitleKeysCount(n);
    NamesCount(form);
    forall x | x in keys
      ensures x in names
    {
      var j :| 0 <= j < n && ItemKey(j, "title") == x;
      assert Titled(form, j);
      var k :| 0 <= k < |form| && form[k].0 == x;
    }
    SubsetCount(keys, names);
  }

  /** The first index at or after `i` that has no title. */
  function TitledFrom(form: Form, i: nat): (n: nat)
    requires forall j :: 0 <= j < i ==> Titled(form, j)
    ensures i <= n && !Titled(form, n)
    ensures forall j :: 0 <= j < n ==> Titled(form, j)
    decreases |form| - i
  {
    if !Titled(form, i) then i
    else
      TitledBound(form, i + 1);
      TitledFrom(form, i + 1)
  }

  /**
   * How many items the loop reads: the indices 0 .. n-1 all have a title and
   * index n has none, so exactly that prefix of the form is saved.
   */
  function ItemCount(form: Form): (n: nat)
    ensures !Titled(form, n) && forall j :: 0 <= j < n ==> Titled(form, j)
  {
    TitledFrom(form, 0)
  }


  // ---------------------------------------------------------------------
  // One item's fields

  /**
   * The fields the loop reads for one form index: the title, the type
   * (`'custom'` when absent), the URL kept for a custom or external item,
   * the target, icon and video ids when all digits, the description and
   * CSS class (`''` when absent), the position (`int()` of the field, the
   * index when absent, None where `int()` raises) and the parent reference.
   */
  datatype ItemFields = ItemFields(title: string, itemType: string, url: string, target: Option<nat>,
                                   icon: Option<nat>, video: Option<nat>, description: string,
                                   customClass: string, position: Option<int>, parentRef: Option<nat>)

  /** The fields of the item at form index `i`. */
  function FieldsAt(form: Form, i: nat): ItemFields
    requires Titled(form, i)
  {
    var itemType := GetOr(form, ItemKey(i, "type"), "custom");
    ItemFields(Get(form, ItemKey(i, "title")).value, itemType,
               if itemType == "custom" || itemType == "external" then GetOr(form, ItemKey(i, "custom_url"), "") else "",
               DigitId(Get(form, ItemKey(i, "target_id"))),
               DigitId(Get(form, ItemKey(i, "icon_id"))),
               DigitId(Get(form, ItemKey(i, "video_id"))),
               GetOr(form, ItemKey(i, "description"), ""),
               GetOr(form, ItemKey(i, "custom_class"), ""),
               IntGet(Get(form, ItemKey(i, "position")), i),
               DigitId(Get(form, ItemKey(i, "parent_id"))))
  }

  /** The fields of every item the loop reads, in form order. */
  function FormItems(form: Form): (r: seq<ItemFields>)
    ensures |r| == ItemCount(form)
  {
    seq(ItemCount(form), i requires 0 <= i < ItemCount(form) => FieldsAt(form, i))
  }

  /**
   * The parent id a reference resolves to: below 1000 it is a form index,
   * looked up among the items made so far (`menu_items_map`); from 1000 up
   * it is a row id, looked up in the item table as it stands.
   */
  function ResolveParent(ref: Option<nat>, made: seq<nat>, items: seq<Row<MenuItem>>): Option<nat>
  {
    match ref
    case None => None
    case Some(p) =>
      if p < 1000 then (if p < |made| then Some(made[p]) else None)
      else if RowById(items, p).Some? then Some(p)
      else None
  }

  /** The first entry whose base item carries `title`. */
  function FirstTitled(es: seq<Entry>, title: string): (r: Option<Entry>)
    ensures r.Some? ==> r.value in es && r.value.1.data.title == title
    ensures r.None? <==> forall e :: e in es ==> e.1.data.title != title
  {
    if es == [] then None
    else if es[0].1.data.title == title then Some(es[0])
    else FirstTitled(es[1..], title)
  }

  /** The target id of an entry found by title, if one was found. */
  function TargetOf(e: Option<Entry>): Option<nat>
  {
    if e.Some? then e.value.0.data.targetId else None
  }

  /**
   * Where a target missing from the form is looked up: among the
   * instance's extended rows as they stand when the item is written (the
   * query `save_instance` makes), or among the instance's entries as they
   * were before the save began.
   */
  datatype Recovery = Current | Previous(entries: seq<Entry>)

  /** The target of the first entry whose item has `title`, under the chosen lookup. */
  function Recovered(rec: Recovery, exts: seq<Row<ItemExt>>, items: seq<Row<MenuItem>>, inst: nat, title: string): Option<nat>
  {
    match rec
    case Current => TargetOf(FirstTitled(Joined(exts, items, inst), title))
    case Previous(es) => TargetOf(FirstTitled(es, title))
  }

  /** An icon or video id the `images` foreign key accepts: none, or an existing image. */
  predicate ImageRef(images: seq<Image>, v: Option<nat>)
  {
    v.None? || ImageById(images, v.value).Some?
  }

  /** The values the `item_type` column's enumeration admits. */
  predicate KnownType(t: string)
  {
    t in ["page", "category", "post_category", "post", "all_posts", "external", "catalog", "custom"]
  }

  /**
   * What makes an item fail the save: a position `int()` rejects, a type the
   * column's enumeration refuses, or an icon or video naming no image.
   */
  predicate Rejected(f: ItemFields, images: seq<Image>)
  {
    f.position.None? || !KnownType(f.itemType) || !ImageRef(images, f.icon) || !ImageRef(images, f.video)
  }

  // ---------------------------------------------------------------------
  // The loop

  /**
   * The loop's state: the item and extended tables as flushed so far, the
   * largest id handed out, and the ids of the items made so far by form
   * index (`menu_items_map`).
   */
  datatype Progress = Progress(items: seq<Row<MenuItem>>, exts: seq<Row<ItemExt>>, last: nat, made: seq<nat>)

  /**
   * What every pass of the loop reads: the items' fields, the menu the
   * items belong to, the menu instance their extended rows belong to, where
   * a missing target is looked up, and the `images` table.
   */
  datatype Batch = Batch(items: seq<ItemFields>, menuId: nat, inst: nat, rec: Recovery, images: seq<Image>)

  /** The `menu_items` row item `i` becomes, numbered after `p.last`. */
  function NewItem(b: Batch, p: Progress, i: nat): Row<MenuItem>
    requires i < |b.items| && b.items[i].position.Some?
  {
    var f := b.items[i];
    Row(p.last + 1, b.menuId, MenuItem(f.title, f.url, ResolveParent(f.parentRef, p.made, p.items), f.position.value))
  }

  /**
   * The `menu_items_extended` row of item `i`: its target is the submitted
   * one, or else the one recovered; the catalog flag is on, the other flags
   * off, and the sort order is the position.
   */
  function NewExt(b: Batch, p: Progress, items: seq<Row<MenuItem>>, i: nat): Row<ItemExt>
    requires i < |b.items| && b.items[i].position.Some?
  {
    var f := b.items[i];
    Row(p.last + 2, b.inst, ItemExt(p.last + 1, f.itemType,
                                    if f.target.Some? then f.target else Recovered(b.rec, p.exts, items, b.inst, f.title),
                                    f.icon, f.video, true, Some(f.customClass), Some(f.description),
                                    false, false, f.position.value))
  }

  /** One pass of the loop for index `i`; None where the save fails. */
  function Step(b: Batch, p: Progress, i: nat): Option<Progress>
    requires i < |b.items|
  {
    if Rejected(b.items[i], b.images) then None
    else
      var items := p.items + [NewItem(b, p, i)];
      Some(Progress(items, p.exts + [NewExt(b, p, items, i)], p.last + 2, p.made + [p.last + 1]))
  }

  /** The first `n` passes of the loop from `p0`. */
  function Run(b: Batch, p0: Progress, n: nat): Option<Progress>
    requires n <= |b.items|
  {
    if n == 0 then Some(p0)
    else match Run(b, p0, n - 1)
      case None => None
      case Some(p) => Step(b, p, n - 1)
  }

  lemma {:induction false} RunStaysFailed(b: Batch, p0: Progress, k: nat, m: nat)
    requires k <= m <= |b.items|
    requires Run(b, p0, k).None?
    ensures Run(b, p0, m).None?
    decreases m
  {
    if k < m {
      RunStaysFailed(b, p0, k, m - 1);
    }
  }

  lemma {:induction false} RunNext(b: Batch, p0: Progress, i: nat, p: Progress)
    requires i < |b.items|
    requires Run(b, p0, i) == Some(p)
    ensures Run(b, p0, i + 1) == Step(b, p, i)
  {
  }

  // ---------------------------------------------------------------------
  // What a successful run leaves

  /** `p` extends `q` by `n` items, `n` extended rows and `n` ids, and has handed out `2 * n` more ids. */
  predicate Extends(q: Progress, p: Progress, n: nat)
  {
    |p.items| == |q.items| + n && |p.exts| == |q.exts| + n && |p.made| == |q.made| + n
    && p.last == q.last + 2 * n
    && p.items[..|q.items|] == q.items && p.exts[..|q.exts|] == q.exts && p.made[..|q.made|] == q.made
  }

  lemma {:induction false} ExtendsTrans(a: Progress, b: Progress, c: Progress, m: nat, n: nat)
    requires Extends(a, b, m) && Extends(b, c, n)
    ensures Extends(a, c, m + n)
  {
    assert c.items[..|a.items|] == c.items[..|b.items|][..|a.items|];
    assert c.exts[..|a.exts|] == c.exts[..|b.exts|][..|a.exts|];
    assert c.made[..|a.made|] == c.made[..|b.made|][..|a.made|];
  }

  /** A successful pass: the item was not rejected and both rows were appended. */
  lemma {:induction false} StepAt(b: Batch, q: Progress, k: nat)
    requires k < |b.items| && Step(b, q, k).Some?
    ensures !Rejected(b.items[k], b.images)
    ensures var item := NewItem(b, q, k);
      Step(b, q, k).value == Progress(q.items + [item], q.exts + [NewExt(b, q, q.items + [item], k)], q.last + 2, q.made + [item.id])
  {
  }

  /**
   * Every state the loop passes through is a prefix of the later ones: the
   * state after `k` passes is extended by the remaining `n - k`.
   */
  lemma {:induction false} RunGrows(b: Batch, p0: Progress, k: nat, n: nat)
    requires k <= n <= |b.items|
    requires Run(b, p0, n).Some?
    ensures Run(b, p0, k).Some? && Extends(Run(b, p0, k).value, Run(b, p0, n).value, n - k)
    decreases n
  {
    var p := Run(b, p0, n).value;
    if k == n {
      assert p.items[..|p.items|] == p.items && p.exts[..|p.exts|] == p.exts && p.made[..|p.made|] == p.made;
    } else {
      var r := Run(b, p0, n - 1);
      assert r.Some?;
      RunGrows(b, p0, k, n - 1);
      StepAt(b, r.value, n - 1);
      ExtendsTrans(Run(b, p0, k).value, r.value, p, n - 1 - k, 1);
    }
  }

  /** Ids handed out so far are bounded by `last`. */
  predicate Bounded(p: Progress)
  {
    (forall x :: x in p.items ==> x.id <= p.last) && (forall x :: x in p.exts ==> x.id <= p.last)
  }

  lemma {:induction false} RunBounded(b: Batch, p0: Progress, n: nat)
    requires n <= |b.items| && Bounded(p0) && Run(b, p0, n).Some?
    ensures Bounded(Run(b, p0, n).value)
  {
    if n > 0 {
      var r := Run(b, p0, n - 1);
      assert r.Some?;
      RunBounded(b, p0, n - 1);
      StepAt(b, r.value, n - 1);
    }
  }

  /** The state after `k` passes is read off the final state: its tables are prefixes of the final ones. */
  lemma {:induction false} RunPrefix(b: Batch, p0: Progress, n: nat, k: nat)
    requires k <= n <= |b.items|
    requires Run(b, p0, n).Some?
    ensures Run(b, p0, k).Some?
    ensures var q := Run(b, p0, k).value;
      var p := Run(b, p0, n).value;
      Extends(p0, q, k) && Extends(p0, p, n)
      && p.items[..|p0.items| + k] == q.items && p.exts[..|p0.exts| + k] == q.exts && p.made[..|p0.made| + k] == q.made
  {
    RunGrows(b, p0, k, n);
    RunGrows(b, p0, 0, k);
    RunGrows(b, p0, 0, n);
  }

  /**
   * Pass `k` of a successful run: its item was not rejected, and the rows
   * it added sit at offset `k` in the final tables, built from the state
   * the first `k` passes left.
   */
  lemma {:induction false} RunAt(b: Batch, p0: Progress, n: nat, k: nat)
    requires k < n <= |b.items|
    requires Run(b, p0, n).Some?
    ensures Run(b, p0, k).Some? && !Rejected(b.items[k], b.images)
    ensures Extends(p0, Run(b, p0, n).value, n)
    ensures var q := Run(b, p0, k).value;
      var p := Run(b, p0, n).value;
      var item := NewItem(b, q, k);
      p.items[|p0.items| + k] == item
      && p.exts[|p0.exts| + k] == NewExt(b, q, q.items + [item], k)
      && p.made[|p0.made| + k] == item.id
    decreases n
  {
    var r := Run(b, p0, n - 1);
    assert r.Some?;
    StepAt(b, r.value, n - 1);
    RunGrows(b, p0, 0, n);
    if k < n - 1 {
      RunAt(b, p0, n - 1, k);
      RunGrows(b, p0, n - 1, n);
      ExtendsAt(p0, r.value, Run(b, p0, n).value, n - 1, k);
    } else {
      RunGrows(b, p0, 0, k);
    }
  }

  /** The rows a pass added stay where they are when the loop goes on. */
  lemma {:induction false} ExtendsAt(p0: Progress, q: Progress, p: Progress, m: nat, k: nat)
    requires Extends(p0, q, m) && Extends(q, p, 1) && k < m
    ensures p.items[|p0.items| + k] == q.items[|p0.items| + k]
    ensures p.exts[|p0.exts| + k] == q.exts[|p0.exts| + k]
    ensures p.made[|p0.made| + k] == q.made[|p0.made| + k]
  {
    assert p.items[..|q.items|][|p0.items| + k] == p.items[|p0.items| + k];
    assert p.exts[..|q.exts|][|p0.exts| + k] == p.exts[|p0.exts| + k];
    assert p.made[..|q.made|][|p0.made| + k] == p.made[|p0.made| + k];
  }

  /**
   * The loop fails exactly when some item it reaches is rejected: a
   * position `int()` refuses, an unknown type, or an icon or video naming
   * no image.
   */
  lemma {:induction false} RunFails(b: Batch, p0: Progress, n: nat)
    requires n <= |b.items|
    ensures Run(b, p0, n).None? <==> exists k :: 0 <= k < n && Rejected(b.items[k], b.images)
  {
    if Run(b, p0, n).Some? {
      forall k | 0 <= k < n
        ensures !Rejected(b.items[k], b.images)
      {
        RunAt(b, p0, n, k);
      }
    } else if n > 0 {
      if Run(b, p0, n - 1).None? {
        RunFails(b, p0, n - 1);
      } else {
        assert Rejected(b.items[n - 1], b.images);
      }
    }
  }

  /**
   * What the loop writes for form index `k`: a `menu_items` row of the menu
   * with the submitted title, URL and position, and right after it an
   * extended row of the instance pointing at it, with the submitted type,
   * media that exist, class and description, the catalog flag on, and the
   * position as sort order.
   */
  predicate ItemSaved(b: Batch, p0: Progress, p: Progress, k: nat)
    requires k < |b.items|
    requires |p0.items| + k < |p.items| && |p0.exts| + k < |p.exts| && |p0.made| + k < |p.made|
  {
    var f := b.items[k];
    var it := p.items[|p0.items| + k];
    var e := p.exts[|p0.exts| + k];
    it.id == p0.last + 2 * k + 1 && it.owner == b.menuId && p.made[|p0.made| + k] == it.id
    && it.data.title == f.title && it.data.url == f.url && f.position == Some(it.data.position)
    && e.id == it.id + 1 && e.owner == b.inst && e.data.itemId == it.id
    && e.data.itemType == f.itemType && KnownType(f.itemType) && e.data.sortOrder == it.data.position
    && e.data.iconId == f.icon && ImageRef(b.images, f.icon)
    && e.data.videoId == f.video && ImageRef(b.images, f.video)
    && e.data.customClass == Some(f.customClass) && e.data.description == Some(f.description)
    && e.data.showInCatalog && !e.data.openInNewTab && !e.data.isFeatured
  }

  /** A successful loop writes one item and one extended row per titled form index, in form order. */
  lemma {:induction false} ItemsSaved(b: Batch, p0: Progress, n: nat)
    requires n <= |b.items| && Run(b, p0, n).Some?
    ensures Extends(p0, Run(b, p0, n).value, n)
    ensures forall k :: 0 <= k < n ==> ItemSaved(b, p0, Run(b, p0, n).value, k)
  {
    RunGrows(b, p0, 0, n);
    forall k | 0 <= k < n
      ensures ItemSaved(b, p0, Run(b, p0, n).value, k)
    {
      ItemSavedAt(b, p0, n, k);
    }
  }

  lemma ItemSavedAt(b: Batch, p0: Progress, n: nat, k: nat)
    requires k < n <= |b.items| && Run(b, p0, n).Some?
    ensures Extends(p0, Run(b, p0, n).value, n)
    ensures ItemSaved(b, p0, Run(b, p0, n).value, k)
  {
    RunAt(b, p0, n, k);
  }

  /**
   * The parent the item at form index `k` was given: a reference below 1000
   * names the item made from that earlier form index (a later or its own
   * index gives no parent); from 1000 up it names a row that was in the
   * table when the item was written; anything else gives no parent.
   */
  predicate ParentResolved(b: Batch, p0: Progress, p: Progress, k: nat)
    requires k < |b.items| && |p0.items| + k < |p.items|
  {
    var par := p.items[|p0.items| + k].data.parentId;
    match b.items[k].parentRef
    case None => par.None?
    case Some(r) =>
      if r < 1000 then par == (if r < k then Some(p.items[|p0.items| + r].id) else None)
      else par == (if RowById(p.items[..|p0.items| + k], r).Some? then Some(r) else None)
  }

  lemma {:induction false} ParentAt(b: Batch, p0: Progress, n: nat, k: nat)
    requires k < n <= |b.items| && Run(b, p0, n).Some? && p0.made == []
    ensures Extends(p0, Run(b, p0, n).value, n)
    ensures ParentResolved(b, p0, Run(b, p0, n).value, k)
  {
    ItemAt(b, p0, n, k);
    RunPrefix(b, p0, n, k);
    var p := Run(b, p0, n).value;
    var q := Run(b, p0, k).value;
    var ref := b.items[k].parentRef;
    if ref.Some? && ref.value < k {
      MadeAt(b, p0, n, ref.value);
      assert q.made[ref.value] == p.made[ref.value];
    }
    ParentFrom(b, p0, q, p, k);
  }

  /** The item pass `k` wrote, read off `RunAt`. */
  lemma {:induction false} ItemAt(b: Batch, p0: Progress, n: nat, k: nat)
    requires k < n <= |b.items| && Run(b, p0, n).Some?
    ensures Run(b, p0, k).Some? && b.items[k].position.Some? && Extends(p0, Run(b, p0, n).value, n)
    ensures Run(b, p0, n).value.items[|p0.items| + k] == NewItem(b, Run(b, p0, k).value, k)
  {
    RunAt(b, p0, n, k);
  }

  /** The id pass `k` recorded in `menu_items_map` is the id of the item it wrote. */
  lemma {:induction false} MadeAt(b: Batch, p0: Progress, n: nat, k: nat)
    requires k < n <= |b.items| && Run(b, p0, n).Some?
    ensures Extends(p0, Run(b, p0, n).value, n)
    ensures Run(b, p0, n).value.made[|p0.made| + k] == Run(b, p0, n).value.items[|p0.items| + k].id
  {
    RunAt(b, p0, n, k);
  }

  /** `ParentAt` for named states: `q` before pass `k`, `p` after it and later passes. */
  lemma {:induction false} ParentFrom(b: Batch, p0: Progress, q: Progress, p: Progress, k: nat)
    requires k < |b.items| && b.items[k].position.Some? && |p0.items| + k < |p.items|
    requires p.items[|p0.items| + k] == NewItem(b, q, k) && p.items[..|p0.items| + k] == q.items
    requires var ref := b.items[k].parentRef;
      ref.Some? && ref.value < 1000 ==>
        (|q.made| == k && (ref.value < k ==> q.made[ref.value] == p.items[|p0.items| + ref.value].id))
    ensures ParentResolved(b, p0, p, k)
  {
  }

  lemma {:induction false} ParentBelow(b: Batch, p0: Progress, n: nat, k: nat)
    requires k < n <= |b.items| && Run(b, p0, n).Some? && p0.made == [] && Bounded(p0)
    ensures Extends(p0, Run(b, p0, n).value, n)
    ensures var x := Run(b, p0, n).value.items[|p0.items| + k];
      x.data.parentId.Some? ==> x.data.parentId.value < x.id
  {
    RunAt(b, p0, n, k);
    RunPrefix(b, p0, n, k);
    RunBounded(b, p0, k);
    ParentAt(b, p0, n, k);
    var p := Run(b, p0, n).value;
    var ref := b.items[k].parentRef;
    if ref.Some? && ref.value < 1000 && ref.value < k {
      RunAt(b, p0, n, ref.value);
    } else if ref.Some? && ref.value >= 1000 && RowById(p.items[..|p0.items| + k], ref.value).Some? {
      assert RowById(p.items[..|p0.items| + k], ref.value).value in Run(b, p0, k).value.items;
    }
  }

  /**
   * Parent references resolve as the form means them, and since each parent
   * was written before its child, parents stay below their children's ids.
   */
  lemma {:induction false} ParentsResolved(b: Batch, p0: Progress, n: nat)
    requires n <= |b.items| && Run(b, p0, n).Some? && p0.made == [] && Bounded(p0)
    ensures Extends(p0, Run(b, p0, n).value, n)
    ensures forall k :: 0 <= k < n ==> ParentResolved(b, p0, Run(b, p0, n).value, k)
    ensures ParentsBelow(p0.items) ==> ParentsBelow(Run(b, p0, n).value.items)
  {
    RunGrows(b, p0, 0, n);
    var p := Run(b, p0, n).value;
    forall k | 0 <= k < n
      ensures ParentResolved(b, p0, p, k)
    {
      ParentAt(b, p0, n, k);
    }
    if ParentsBelow(p0.items) {
      forall x | x in p.items && x.data.parentId.Some?
        ensures x.data.parentId.value < x.id
      {
        var i :| 0 <= i < |p.items| && p.items[i] == x;
        if i < |p0.items| {
          assert x == p.items[..|p0.items|][i];
        } else {
          ParentBelow(b, p0, n, i - |p0.items|);
        }
      }
    }
  }

  // ---------------------------------------------------------------------
  // Targets

  /** The entry (extended row, item) the loop made for form index `j`. */
  function NewEntry(p0: Progress, p: Progress, j: nat): Entry
    requires |p0.items| + j < |p.items| && |p0.exts| + j < |p.exts|
  {
    (p.exts[|p0.exts| + j], p.items[|p0.items| + j])
  }

  /**
   * The numbering a run leaves (see `ItemSaved`): the rows before it keep
   * their place, and the item for index `m` has id `p0.last + 2 * m + 1`
   * and an extended row of the instance pointing at it.
   */
  predicate Numbered(p0: Progress, p: Progress, inst: nat, n: nat)
  {
    |p.items| == |p0.items| + n && |p.exts| == |p0.exts| + n
    && p.items[..|p0.items|] == p0.items && p.exts[..|p0.exts|] == p0.exts
    && forall m :: 0 <= m < n ==>
         NewEntry(p0, p, m).1.id == p0.last + 2 * m + 1
         && NewEntry(p0, p, m).0.owner == inst && NewEntry(p0, p, m).0.data.itemId == p0.last + 2 * m + 1
  }

  lemma {:induction false} NumberedOf(b: Batch, p0: Progress, p: Progress, n: nat)
    requires n <= |b.items|
    requires Extends(p0, p, n) && forall k :: 0 <= k < n ==> ItemSaved(b, p0, p, k)
    ensures Numbered(p0, p, b.inst, n)
  {
    forall m | 0 <= m < n
      ensures NewEntry(p0, p, m).1.id == p0.last + 2 * m + 1
      ensures NewEntry(p0, p, m).0.owner == b.inst && NewEntry(p0, p, m).0.data.itemId == p0.last + 2 * m + 1
    {
      assert ItemSaved(b, p0, p, m);
    }
  }

  /** Among the rows before a run and the items it wrote up to index `k`, the id made for index `j` names only that item. */
  lemma {:induction false} NewIdUnique(p0: Progress, p: Progress, inst: nat, n: nat, k: nat, j: nat, x: Row<MenuItem>)
    requires j <= k < n && Numbered(p0, p, inst, n) && Bounded(p0)
    requires x in p.items[..|p0.items| + k + 1] && x.id == p0.last + 2 * j + 1
    ensures x == p.items[|p0.items| + j]
  {
    var i :| 0 <= i < |p0.items| + k + 1 && p.items[..|p0.items| + k + 1][i] == x;
    assert NewEntry(p0, p, i - |p0.items|).1 == x;
  }

  /** What the target query joins while the item for index `k` is written. */
  function JoinedBefore(p0: Progress, p: Progress, inst: nat, k: nat): seq<Entry>
    requires |p0.items| + k < |p.items| && |p0.exts| + k <= |p.exts|
  {
    Joined(p.exts[..|p0.exts| + k], p.items[..|p0.items| + k + 1], inst)
  }

  /**
   * When no earlier extended row belongs to the instance, the rows the
   * target query joins while item `k` is written are exactly the entries
   * the loop made for the indices before `k`.
   */
  lemma {:induction false} EntriesBefore(p0: Progress, p: Progress, inst: nat, n: nat, k: nat)
    requires k < n && Numbered(p0, p, inst, n) && Bounded(p0)
    requires forall x :: x in p0.exts ==> x.owner != inst
    ensures forall e :: e in JoinedBefore(p0, p, inst, k) <==> exists j :: 0 <= j < k && e == NewEntry(p0, p, j)
  {
    EntriesBeforeNew(p0, p, inst, n, k);
    EntriesBeforeAll(p0, p, inst, n, k);
  }

  /** Every entry the query joins before pass `k` is one an earlier pass wrote. */
  lemma {:induction false} EntriesBeforeNew(p0: Progress, p: Progress, inst: nat, n: nat, k: nat)
    requires k < n && Numbered(p0, p, inst, n) && Bounded(p0)
    requires forall x :: x in p0.exts ==> x.owner != inst
    ensures forall e :: e in JoinedBefore(p0, p, inst, k) ==> exists j :: 0 <= j < k && e == NewEntry(p0, p, j)
  {
    forall e | e in JoinedBefore(p0, p, inst, k)
      ensures exists j :: 0 <= j < k && e == NewEntry(p0, p, j)
    {
      InJoined(p.exts[..|p0.exts| + k], p.items[..|p0.items| + k + 1], inst, e);
      var j := JoinedIndex(p0, p, inst, n, k, e);
    }
  }

  lemma {:induction false} InJoined(exts: seq<Row<ItemExt>>, items: seq<Row<MenuItem>>, inst: nat, e: Entry)
    requires e in Joined(exts, items, inst)
    ensures e.0 in exts && e.0.owner == inst && RowById(items, e.0.data.itemId) == Some(e.1)
  {
  }

  /** The pass that wrote an entry the query joins before pass `k`. */
  lemma {:induction false} JoinedIndex(p0: Progress, p: Progress, inst: nat, n: nat, k: nat, e: Entry) returns (j: nat)
    requires k < n && Numbered(p0, p, inst, n) && Bounded(p0)
    requires forall x :: x in p0.exts ==> x.owner != inst
    requires e.0 in p.exts[..|p0.exts| + k] && e.0.owner == inst
    requires RowById(p.items[..|p0.items| + k + 1], e.0.data.itemId) == Some(e.1)
    ensures j < k && e == NewEntry(p0, p, j)
  {
    var items := p.items[..|p0.items| + k + 1];
    j := ExtIndex(p0.exts, p.exts, inst, k, e.0);
    assert e.0.data.itemId == p0.last + 2 * j + 1 by {
      assert e.0 == NewEntry(p0, p, j).0;
    }
    assert e.1 in items && e.1.id == p0.last + 2 * j + 1;
    NewIdUnique(p0, p, inst, n, k, j, e.1);
  }

  /** An extended row of the instance among the first `k` the run wrote, when none before the run belongs to it. */
  lemma {:induction false} ExtIndex(before: seq<Row<ItemExt>>, after: seq<Row<ItemExt>>, inst: nat, k: nat, x: Row<ItemExt>)
    returns (j: nat)
    requires |before| + k <= |after| && after[..|before|] == before
    requires forall y :: y in before ==> y.owner != inst
    requires x in after[..|before| + k] && x.owner == inst
    ensures j < k && x == after[|before| + j]
  {
    var i :| 0 <= i < |before| + k && after[i] == x;
    if i < |before| {
      assert false;
    }
    j := i - |before|;
  }

  /** Every entry an earlier pass wrote is joined by the query before pass `k`. */
  lemma {:induction false} EntriesBeforeAll(p0: Progress, p: Progress, inst: nat, n: nat, k: nat)
    requires k < n && Numbered(p0, p, inst, n) && Bounded(p0)
    requires forall x :: x in p0.exts ==> x.owner != inst
    ensures forall j :: 0 <= j < k ==> NewEntry(p0, p, j) in JoinedBefore(p0, p, inst, k)
  {
    forall j | 0 <= j < k
      ensures NewEntry(p0, p, j) in JoinedBefore(p0, p, inst, k)
    {
      EntryJoined(p0, p, inst, n, k, j);
    }
  }

  lemma {:induction false} EntryJoined(p0: Progress, p: Progress, inst: nat, n: nat, k: nat, j: nat)
    requires j < k < n && Numbered(p0, p, inst, n) && Bounded(p0)
    ensures NewEntry(p0, p, j) in JoinedBefore(p0, p, inst, k)
  {
    var exts := p.exts[..|p0.exts| + k];
    var items := p.items[..|p0.items| + k + 1];
    var e := NewEntry(p0, p, j);
    assert e.0 in exts && e.1 in items by {
      assert exts[|p0.exts| + j] == e.0;
      assert items[|p0.items| + j] == e.1;
    }
    assert e.0.owner == inst && e.0.data.itemId == e.1.id == p0.last + 2 * j + 1;
    forall z | z in items && z.id == e.1.id
      ensures z == e.1
    {
      NewIdUnique(p0, p, inst, n, k, j, z);
    }
    JoinedHas(exts, items, inst, e.0, e.1);
  }

  /** An extended row of the instance joins the one item that carries its id. */
  lemma {:induction false} JoinedHas(exts: seq<Row<ItemExt>>, items: seq<Row<MenuItem>>, inst: nat, x: Row<ItemExt>, y: Row<MenuItem>)
    requires x in exts && x.owner == inst && x.data.itemId == y.id && y in items
    requires forall z :: z in items && z.id == y.id ==> z == y
    ensures (x, y) in Joined(exts, items, inst)
  {
    var r := RowById(items, y.id);
    assert r == Some(y);
  }

  /**
   * The target of the item at form index `k` when the form names one;
   * otherwise the one copied from an earlier item of the same title.
   */
  predicate TargetRecovered(b: Batch, p0: Progress, p: Progress, k: nat)
    requires k < |b.items| && |p0.exts| + k < |p.exts|
  {
    var f := b.items[k];
    var t := p.exts[|p0.exts| + k].data.targetId;
    (f.target.Some? ==> t == f.target)
    && (f.target.None? && (forall j :: 0 <= j < k ==> b.items[j].title != f.title) ==> t.None?)
    && (f.target.None? && (exists j :: 0 <= j < k && b.items[j].title == f.title) ==>
          exists j :: 0 <= j < k && b.items[j].title == f.title && t == p.exts[|p0.exts| + j].data.targetId)
  }

  lemma {:induction false} SliceSnoc<T>(s: seq<T>, i: nat)
    requires i < |s|
    ensures s[..i + 1] == s[..i] + [s[i]]
  {
  }

  /** The target rule, given the row the pass wrote, read as a statement about the earlier items. */
  lemma {:induction false} TargetFrom(b: Batch, p0: Progress, p: Progress, n: nat, k: nat)
    requires k < n <= |b.items|
    requires Bounded(p0) && forall x :: x in p0.exts ==> x.owner != b.inst
    requires Extends(p0, p, n) && Numbered(p0, p, b.inst, n)
    requires forall j :: 0 <= j < n ==> NewEntry(p0, p, j).1.data.title == b.items[j].title
    requires var f := b.items[k];
      p.exts[|p0.exts| + k].data.targetId
      == if f.target.Some? then f.target else TargetOf(FirstTitled(JoinedBefore(p0, p, b.inst, k), f.title))
    ensures TargetRecovered(b, p0, p, k)
  {
    var f := b.items[k];
    if f.target.None? {
      EntriesBefore(p0, p, b.inst, n, k);
      var es := JoinedBefore(p0, p, b.inst, k);
      var found := FirstTitled(es, f.title);
      if found.Some? {
        TitledFound(b, p0, p, n, k, found.value);
      } else {
        TitledNone(b, p0, p, n, k, es);
      }
    }
  }

  /** An entry an earlier pass wrote, found by the title of item `k`, names an earlier item of that title. */
  lemma {:induction false} TitledFound(b: Batch, p0: Progress, p: Progress, n: nat, k: nat, e: Entry)
    requires k < n <= |b.items| && |p0.items| + n <= |p.items| && |p0.exts| + n <= |p.exts|
    requires forall j :: 0 <= j < n ==> NewEntry(p0, p, j).1.data.title == b.items[j].title
    requires (exists j :: 0 <= j < k && e == NewEntry(p0, p, j)) && e.1.data.title == b.items[k].title
    ensures exists j :: 0 <= j < k && b.items[j].title == b.items[k].title && e.0.data.targetId == p.exts[|p0.exts| + j].data.targetId
  {
    var j :| 0 <= j < k && e == NewEntry(p0, p, j);
    assert b.items[j].title == b.items[k].title;
  }

  /** When no joined entry carries the title of item `k`, no earlier item does. */
  lemma {:induction false} TitledNone(b: Batch, p0: Progress, p: Progress, n: nat, k: nat, es: seq<Entry>)
    requires k < n <= |b.items| && |p0.items| + n <= |p.items| && |p0.exts| + n <= |p.exts|
    requires forall j :: 0 <= j < n ==> NewEntry(p0, p, j).1.data.title == b.items[j].title
    requires forall j :: 0 <= j < k ==> NewEntry(p0, p, j) in es
    requires forall e :: e in es ==> e.1.data.title != b.items[k].title
    ensures forall j :: 0 <= j < k ==> b.items[j].title != b.items[k].title
  {
    forall j | 0 <= j < k
      ensures b.items[j].title != b.items[k].title
    {
      assert NewEntry(p0, p, j) in es;
    }
  }

  /** The target pass `k` wrote, read against the final tables: the submitted one, or the first match the query joins. */
  lemma {:induction false} TargetAt(b: Batch, p0: Progress, n: nat, k: nat)
    requires k < n <= |b.items|
    requires b.rec == Current && Run(b, p0, n).Some?
    ensures Extends(p0, Run(b, p0, n).value, n)
    ensures var f := b.items[k];
      var p := Run(b, p0, n).value;
      p.exts[|p0.exts| + k].data.targetId
      == if f.target.Some? then f.target else TargetOf(FirstTitled(JoinedBefore(p0, p, b.inst, k), f.title))
  {
    RunAt(b, p0, n, k);
    RunPrefix(b, p0, n, k);
    TargetStep(b, p0, Run(b, p0, k).value, Run(b, p0, n).value, k);
  }

  /** The target pass `k` wrote, from the state `q` the pass started in and the final state `p` it is a prefix of. */
  lemma {:induction false} TargetStep(b: Batch, p0: Progress, q: Progress, p: Progress, k: nat)
    requires k < |b.items| && b.items[k].position.Some? && b.rec == Current
    requires |p0.items| + k < |p.items| && |p0.exts| + k < |p.exts|
    requires p.items[..|p0.items| + k] == q.items && p.exts[..|p0.exts| + k] == q.exts
    requires p.items[|p0.items| + k] == NewItem(b, q, k)
    requires p.exts[|p0.exts| + k] == NewExt(b, q, q.items + [NewItem(b, q, k)], k)
    ensures var f := b.items[k];
      p.exts[|p0.exts| + k].data.targetId
      == if f.target.Some? then f.target else TargetOf(FirstTitled(JoinedBefore(p0, p, b.inst, k), f.title))
  {
    var item := NewItem(b, q, k);
    JoinedSnoc(p0, q, p, b.inst, k, item);
    ExtTarget(b, q, q.items + [item], k);
  }

  /** The rows the target query joins while pass `k` writes `item`, read off the final tables. */
  lemma {:induction false} JoinedSnoc(p0: Progress, q: Progress, p: Progress, inst: nat, k: nat, item: Row<MenuItem>)
    requires |p0.items| + k < |p.items| && |p0.exts| + k <= |p.exts|
    requires p.items[..|p0.items| + k] == q.items && p.exts[..|p0.exts| + k] == q.exts
    requires p.items[|p0.items| + k] == item
    ensures JoinedBefore(p0, p, inst, k) == Joined(q.exts, q.items + [item], inst)
  {
    SliceSnoc(p.items, |p0.items| + k);
  }

  lemma {:induction false} ExtTarget(b: Batch, q: Progress, items: seq<Row<MenuItem>>, k: nat)
    requires k < |b.items| && b.items[k].position.Some? && b.rec == Current
    ensures var f := b.items[k];
      NewExt(b, q, items, k).data.targetId
      == if f.target.Some? then f.target else TargetOf(FirstTitled(Joined(q.exts, items, b.inst), f.title))
  {
  }

  /**
   * The target lookup of `save_instance` runs after the instance's old
   * extended rows are deleted, so all it can find is an item written
   * earlier in the same save: a missing target is copied from an earlier
   * item of the form with the same title, and is empty when there is none,
   * whatever the instance held before.
   */
  lemma {:induction false} TargetsRecovered(b: Batch, p0: Progress, n: nat)
    requires n <= |b.items| && b.rec == Current && Run(b, p0, n).Some?
    requires Bounded(p0) && forall x :: x in p0.exts ==> x.owner != b.inst
    ensures Extends(p0, Run(b, p0, n).value, n)
    ensures forall k :: 0 <= k < n ==> TargetRecovered(b, p0, Run(b, p0, n).value, k)
  {
    ItemsSaved(b, p0, n);
    var p := Run(b, p0, n).value;
    NumberedOf(b, p0, p, n);
    forall j | 0 <= j < n
      ensures NewEntry(p0, p, j).1.data.title == b.items[j].title
    {
      assert ItemSaved(b, p0, p, j);
    }
    forall k | 0 <= k < n
      ensures TargetRecovered(b, p0, p, k)
    {
      TargetAt(b, p0, n, k);
      TargetFrom(b, p0, p, n, k);
    }
  }

  /**
   * With the lookup among the instance's entries from before the save, an
   * item the form sends without a target keeps the target of the first old
   * entry with its title.
   */
  lemma {:induction false} TargetsKept(b: Batch, p0: Progress, n: nat)
    requires n <= |b.items| && b.rec.Previous? && Run(b, p0, n).Some?
    ensures Extends(p0, Run(b, p0, n).value, n)
    ensures forall k :: 0 <= k < n ==>
      Run(b, p0, n).value.exts[|p0.exts| + k].data.targetId
      == if b.items[k].target.Some? then b.items[k].target else TargetOf(FirstTitled(b.rec.entries, b.items[k].title))
  {
    RunGrows(b, p0, 0, n);
    forall k | 0 <= k < n
      ensures Run(b, p0, n).value.exts[|p0.exts| + k].data.targetId
              == if b.items[k].target.Some? then b.items[k].target else TargetOf(FirstTitled(b.rec.entries, b.items[k].title))
    {
      RunAt(b, p0, n, k);
    }
  }

  // ---------------------------------------------------------------------
  // The loop as written

  /** The fields the loop body reads for index `i`, each with its default. */
  method ReadFields(form: Form, i: nat) returns (f: ItemFields)
    requires Titled(form, i)
    ensures f == FieldsAt(form, i)
  {
    var title := Get(form, ItemKey(i, "title")).value;
    var itemType := GetOr(form, ItemKey(i, "type"), "custom");
    var url := "";
    if itemType == "custom" || itemType == "external" {
      url := GetOr(form, ItemKey(i, "custom_url"), "");
    }
    var target := DigitId(Get(form, ItemKey(i, "target_id")));
    var icon := DigitId(Get(form, ItemKey(i, "icon_id")));
    var video := DigitId(Get(form, ItemKey(i, "video_id")));
    var description := GetOr(form, ItemKey(i, "description"), "");
    var customClass := GetOr(form, ItemKey(i, "custom_class"), "");
    var position := IntGet(Get(form, ItemKey(i, "position")), i);
    var parentRef := DigitId(Get(form, ItemKey(i, "parent_id")));
    f := ItemFields(title, itemType, url, target, icon, video, description, customClass, position, parentRef);
  }

  /** One pass of the loop body on the fields read: check them, resolve the parent and the target, add both rows. */
  method SaveItem(f: ItemFields, b: Batch, p: Progress, i: nat) returns (r: Option<Progress>)
    requires i < |b.items| && b.items[i] == f
    ensures r == Step(b, p, i)
  {
    if f.position.None? || !KnownType(f.itemType) || !ImageRef(b.images, f.icon) || !ImageRef(b.images, f.video) {
      return None;
    }
    var parent := ResolveParent(f.parentRef, p.made, p.items);
    var item := Row(p.last + 1, b.menuId, MenuItem(f.title, f.url, parent, f.position.value));
    var items := p.items + [item];
    var target := f.target;
    if target.None? {
      target := Recovered(b.rec, p.exts, items, b.inst, f.title);
    }
    var ext := Row(p.last + 2, b.inst, ItemExt(item.id, f.itemType, target, f.icon, f.video, true, Some(f.customClass),
                                               Some(f.description), false, false, f.position.value));
    assert item == NewItem(b, p, i);
    assert ext == NewExt(b, p, items, i);
    r := Some(Progress(items, p.exts + [ext], p.last + 2, p.made + [item.id]));
  }

  /** The `while True` loop of `save_instance`, from the state the deletes leave. */
  method SaveItems(form: Form, menuId: nat, inst: nat, rec: Recovery, images: seq<Image>, p0: Progress)
    returns (r: Option<Progress>)
    ensures r == Run(Batch(FormItems(form), menuId, inst, rec, images), p0, ItemCount(form))
  {
    var b := Batch(FormItems(form), menuId, inst, rec, images);
    var p := p0;
    var i := 0;
    while Titled(form, i)
      invariant i <= ItemCount(form)
      invariant Run(b, p0, i) == Some(p)
      decreases ItemCount(form) - i
    {
      assert i < ItemCount(form);
      RunNext(b, p0, i, p);
      var f := ReadFields(form, i);
      var next := SaveItem(f, b, p, i);
      if next.None? {
        RunStaysFailed(b, p0, i + 1, ItemCount(form));
        return None;
      }
      p := next.value;
      i := i + 1;
    }
    r := Some(p);
  }
}
