// The menu's generated product catalogue
// (`MenuItemExtended.get_catalog_items`, app/models/modules/menu.py): one
// node per category of a level, ordered by sort order and then name, each
// carrying the next level below it, down to a maximum depth. Also the
// instance method `build_menu_structure` of the same file, which lists an
// instance's items and hangs the catalogue under its catalog items.

module MenuCatalog {
  import opened Common
  import opened Sorting
  import opened Tables
  import opened Categories
  import opened MenuData
  import opened MenuTargets

  /** A catalogue node: `{'id', 'title', 'url', 'slug', 'description', 'image_id', 'children'}`. */
  datatype CatalogItem = CatalogItem(id: nat, title: string, url: string, slug: string,
                                     description: Option<string>, imageId: Option<nat>, children: seq<CatalogItem>)

  // ---------------------------------------------------------------------
  // ORDER BY sort_order, name

  /** Lexicographic order of texts by code point. */
  predicate TextLe(a: string, b: string)
    decreases |a|
  {
    a == [] || (b != [] && (a[0] < b[0] || (a[0] == b[0] && TextLe(a[1..], b[1..]))))
  }

  lemma {:induction false} TextLeTotal(a: string, b: string)
    ensures TextLe(a, b) || TextLe(b, a)
    decreases |a|
  {
    if a != [] && b != [] && a[0] == b[0] {
      TextLeTotal(a[1..], b[1..]);
    }
  }

  /** The `(sort_order, name)` order of categories. */
  predicate NameKeyLe(x: Category, y: Category)
  {
    x.sortOrder < y.sortOrder || (x.sortOrder == y.sortOrder && TextLe(x.name, y.name))
  }

  predicate SortedByName(s: seq<Category>)
  {
    forall i, j :: 0 <= i < j < |s| ==> NameKeyLe(s[i], s[j])
  }

  /** Puts `x` in front of the first category it does not follow. */
  function InsertByName(x: Category, s: seq<Category>): (r: seq<Category>)
    requires SortedByName(s)
    ensures SortedByName(r)
    ensures multiset(r) == multiset(s) + multiset{x}
    ensures |r| == |s| + 1
  {
    if s == [] || NameKeyLe(x, s[0]) then
      InsertFront(x, s);
      [x] + s
    else
      TextLeTotal(x.name, s[0].name);
      var rest := InsertByName(x, s[1..]);
      assert s == [s[0]] + s[1..];
      InsertBehind(s[0], s[1..], x, rest);
      [s[0]] + rest
  }

  lemma {:induction false} TextLeTrans(a: string, b: string, c: string)
    requires TextLe(a, b) && TextLe(b, c)
    ensures TextLe(a, c)
    decreases |a|
  {
    if a != [] && a[0] == b[0] && b[0] == c[0] {
      TextLeTrans(a[1..], b[1..], c[1..]);
    }
  }

  /** A category that does not follow the head of a sorted list goes in front of all of it. */
  lemma {:induction false} InsertFront(x: Category, s: seq<Category>)
    requires SortedByName(s) && (s == [] || NameKeyLe(x, s[0]))
    ensures SortedByName([x] + s)
  {
    var r := [x] + s;
    forall i, j | 0 <= i < j < |r|
      ensures NameKeyLe(r[i], r[j])
    {
      if i == 0 {
        assert r[j] == s[j - 1];
        if j > 1 {
          assert NameKeyLe(s[0], s[j - 1]);
          if x.sortOrder == s[0].sortOrder == s[j - 1].sortOrder {
            TextLeTrans(x.name, s[0].name, s[j - 1].name);
          }
        }
      } else {
        assert r[i] == s[i - 1] && r[j] == s[j - 1];
      }
    }
  }

  /** The head of a sorted list, put back in front of the rest with `x` inserted, keeps the list sorted. */
  lemma {:induction false} InsertBehind(h: Category, tail: seq<Category>, x: Category, rest: seq<Category>)
    requires SortedByName([h] + tail) && NameKeyLe(h, x)
    requires SortedByName(rest) && multiset(rest) == multiset(tail) + multiset{x}
    ensures SortedByName([h] + rest)
  {
    forall k | 0 <= k < |rest|
      ensures NameKeyLe(h, rest[k])
    {
      assert rest[k] in multiset(rest);
      if rest[k] != x {
        assert rest[k] in multiset(tail);
        var j :| 0 <= j < |tail| && tail[j] == rest[k];
        assert ([h] + tail)[0] == h && ([h] + tail)[j + 1] == tail[j];
        assert NameKeyLe(([h] + tail)[0], ([h] + tail)[j + 1]);
      }
    }
    var r := [h] + rest;
    forall i, j | 0 <= i < j < |r|
      ensures NameKeyLe(r[i], r[j])
    {
      if i == 0 {
        assert r[j] == rest[j - 1];
      } else {
        assert r[i] == rest[i - 1] && r[j] == rest[j - 1];
      }
    }
  }

  /** Stable insertion sort by `(sort_order, name)`. */
  function SortByName(s: seq<Category>): (r: seq<Category>)
    ensures SortedByName(r)
    ensures multiset(r) == multiset(s)
    ensures |r| == |s|
  {
    if s == [] then []
    else
      assert s == [s[0]] + s[1..];
      InsertByName(s[0], SortByName(s[1..]))
  }

  // ---------------------------------------------------------------------
  // get_catalog_items

  /** The categories one level lists: the roots (parent null or 0) when `parent` is None, else `parent`'s children. */
  predicate AtLevel(c: Category, parent: Option<nat>)
  {
    if parent.None? then c.parentId.None? || c.parentId == Some(0) else c.parentId == parent
  }

  function LevelRows(t: seq<Category>, parent: Option<nat>): (r: seq<Category>)
    ensures forall c :: c in r <==> c in t && AtLevel(c, parent)
  {
    if t == [] then []
    else
      assert forall c :: c in t <==> c == t[0] || c in t[1..];
      (if AtLevel(t[0], parent) then [t[0]] else []) + LevelRows(t[1..], parent)
  }

  /** The level's query: its categories by `(sort_order, name)`. */
  function Level(t: seq<Category>, parent: Option<nat>): seq<Category>
  {
    SortByName(LevelRows(t, parent))
  }

  /** A level lists exactly the categories at that level, ordered by `(sort_order, name)`. */
  lemma {:induction false} LevelSpec(t: seq<Category>, parent: Option<nat>)
    ensures SortedByName(Level(t, parent))
    ensures |Level(t, parent)| == |LevelRows(t, parent)|
    ensures forall c :: c in Level(t, parent) <==> c in t && AtLevel(c, parent)
  {
    var r := LevelRows(t, parent);
    forall c ensures c in Level(t, parent) <==> c in r {
      assert c in Level(t, parent) <==> c in multiset(Level(t, parent));
      assert c in r <==> c in multiset(r);
    }
  }

  /** The node of one category, over the subtree given. */
  function NodeOf(c: Category, children: seq<CatalogItem>): CatalogItem
  {
    CatalogItem(c.id, c.name, "/category/" + c.slug, c.slug, c.description, c.imageId, children)
  }

  /** `get_catalog_items(parent, max_depth, depth)`. */
  function CatalogItems(t: seq<Category>, parent: Option<nat>, maxDepth: int, depth: int): seq<CatalogItem>
    decreases maxDepth - depth, 1
  {
    if depth >= maxDepth then [] else CatalogLevel(t, Level(t, parent), maxDepth, depth)
  }

  /** The loop of one level: a node per category, each with the next level below it. */
  function CatalogLevel(t: seq<Category>, cats: seq<Category>, maxDepth: int, depth: int): (r: seq<CatalogItem>)
    requires depth < maxDepth
    ensures |r| == |cats|
    decreases maxDepth - depth, 0, |cats|
  {
    if cats == [] then []
    else [NodeOf(cats[0], CatalogItems(t, Some(cats[0].id), maxDepth, depth + 1))] + CatalogLevel(t, cats[1..], maxDepth, depth)
  }

  lemma {:induction false} CatalogLevelAt(t: seq<Category>, cats: seq<Category>, maxDepth: int, depth: int, i: nat)
    requires depth < maxDepth && i < |cats|
    ensures CatalogLevel(t, cats, maxDepth, depth)[i] == NodeOf(cats[i], CatalogItems(t, Some(cats[i].id), maxDepth, depth + 1))
    decreases i
  {
    if i > 0 {
      CatalogLevelAt(t, cats[1..], maxDepth, depth, i - 1);
    }
  }

  /**
   * Below the depth limit a level has one node per category of that level,
   * in `(sort_order, name)` order; each node links to `/category/<slug>`,
   * carries the category's id and name and holds the category's own level
   * one step deeper. At or past the limit the level is empty.
   */
  lemma {:induction false} CatalogItemsSpec(t: seq<Category>, parent: Option<nat>, maxDepth: int, depth: int)
    ensures depth >= maxDepth ==> CatalogItems(t, parent, maxDepth, depth) == []
    ensures depth < maxDepth ==>
      var r := CatalogItems(t, parent, maxDepth, depth);
      var cats := Level(t, parent);
      |r| == |cats| == |LevelRows(t, parent)|
      && SortedByName(cats)
      && (forall c :: c in cats <==> c in t && AtLevel(c, parent))
      && forall i :: 0 <= i < |r| ==>
           r[i].id == cats[i].id && r[i].title == cats[i].name && r[i].url == "/category/" + cats[i].slug
           && r[i].children == CatalogItems(t, Some(cats[i].id), maxDepth, depth + 1)
  {
    LevelSpec(t, parent);
    if depth < maxDepth {
      forall i | 0 <= i < |Level(t, parent)| {
        CatalogLevelAt(t, Level(t, parent), maxDepth, depth, i);
      }
    }
  }

  /** The number of levels of a catalogue. */
  function Height(items: seq<CatalogItem>): nat
    decreases items
  {
    if items == [] then 0
    else
      var below := 1 + Height(items[0].children);
      var rest := Height(items[1..]);
      if below < rest then rest else below
  }

  /** The catalogue is at most `max_depth - depth` levels deep. */
  lemma {:induction false} CatalogHeight(t: seq<Category>, parent: Option<nat>, maxDepth: int, depth: int)
    ensures depth >= maxDepth ==> Height(CatalogItems(t, parent, maxDepth, depth)) == 0
    ensures depth < maxDepth ==> Height(CatalogItems(t, parent, maxDepth, depth)) <= maxDepth - depth
    decreases maxDepth - depth, 1
  {
    if depth < maxDepth {
      LevelHeight(t, Level(t, parent), maxDepth, depth);
    }
  }

  lemma {:induction false} LevelHeight(t: seq<Category>, cats: seq<Category>, maxDepth: int, depth: int)
    requires depth < maxDepth
    ensures Height(CatalogLevel(t, cats, maxDepth, depth)) <= maxDepth - depth
    decreases maxDepth - depth, 0, |cats|
  {
    if cats != [] {
      var r := CatalogLevel(t, cats, maxDepth, depth);
      CatalogHeight(t, Some(cats[0].id), maxDepth, depth + 1);
      LevelHeight(t, cats[1..], maxDepth, depth);
      assert r[1..] == CatalogLevel(t, cats[1..], maxDepth, depth);
    }
  }

  /** `get_catalog_items`: the level's query, then a loop appending one node per category. */
  method GetCatalogItems(t: seq<Category>, parent: Option<nat>, maxDepth: int, depth: int) returns (items: seq<CatalogItem>)
    ensures items == CatalogItems(t, parent, maxDepth, depth)
    decreases maxDepth - depth, 1
  {
    if depth >= maxDepth {
      return [];
    }
    var cats := Level(t, parent);
    items := [];
    var i := 0;
    while i < |cats|
      invariant 0 <= i <= |cats|
      invariant CatalogLevel(t, cats, maxDepth, depth) == items + CatalogLevel(t, cats[i..], maxDepth, depth)
    {
      var children := GetCatalogItems(t, Some(cats[i].id), maxDepth, depth + 1);
      assert cats[i..][1..] == cats[i + 1..];
      items := items + [NodeOf(cats[i], children)];
      i := i + 1;
    }
    assert cats[i..] == [];
  }

  // ---------------------------------------------------------------------
  // MenuItemExtended.build_menu_structure

  /** One entry of the instance method's structure; `id` is the extended row's id. */
  datatype StructureEntry = StructureEntry(id: nat, title: string, url: string, itemType: string,
                                           iconId: Option<nat>, videoId: Option<nat>, description: Option<string>,
                                           customClass: Option<string>, openInNewTab: bool, isFeatured: bool,
                                           children: seq<CatalogItem>)

  /** `ORDER BY MenuItem.position, MenuItemExtended.sort_order`. */
  function PositionSortKey(e: Entry): (int, int)
  {
    (e.1.data.position, e.0.data.sortOrder)
  }

  /**
   * The entry of one extended row: its resolved title and URL, its columns,
   * and for a catalog row shown in the catalogue, the whole catalogue down to
   * the instance's `max_depth`. None where the row's menu instance is
   * missing (reading its `max_depth` fails).
   */
  function StructureEntryOf(c: Content, instances: seq<Row<MenuInstance>>, e: Entry): (r: Option<StructureEntry>)
    ensures r.None? <==> e.0.data.itemType == "catalog" && e.0.data.showInCatalog && RowById(instances, e.0.owner).None?
  {
    var x := e.0.data;
    var entry := StructureEntry(e.0.id, TargetTitle(c, x, Some(e.1.data)), DynamicUrl(c, x, Some(e.1.data)), x.itemType,
                                x.iconId, x.videoId, x.description, x.customClass, x.openInNewTab, x.isFeatured, []);
    if x.itemType == "catalog" && x.showInCatalog then
      match RowById(instances, e.0.owner)
      case Some(inst) => Some(entry.(children := CatalogItems(c.categories, None, inst.data.maxDepth, 0)))
      case None => None
    else Some(entry)
  }

  /** The instance's rows in `(position, sort_order)` order. */
  function InstanceEntries(db: MenuDb, inst: nat): seq<Entry>
  {
    SortBy(Joined(db.exts, db.items, inst), PositionSortKey)
  }

  function StructureOf(c: Content, instances: seq<Row<MenuInstance>>, es: seq<Entry>): (r: Option<seq<StructureEntry>>)
    ensures r.Some? ==> |r.value| == |es|
  {
    if es == [] then Some([])
    else
      match StructureEntryOf(c, instances, es[0])
      case None => None
      case Some(x) =>
        match StructureOf(c, instances, es[1..])
        case None => None
        case Some(rest) => Some([x] + rest)
  }

  /**
   * The structure fails only where some catalog row has no menu instance;
   * otherwise it has one entry per row of the instance, in
   * `(position, sort_order)` order, and only catalog rows shown in the
   * catalogue have children.
   */
  lemma {:induction false} StructureOfSpec(c: Content, instances: seq<Row<MenuInstance>>, es: seq<Entry>)
    ensures StructureOf(c, instances, es).None? <==> exists k :: 0 <= k < |es| && StructureEntryOf(c, instances, es[k]).None?
    ensures StructureOf(c, instances, es).Some? ==>
      forall k :: 0 <= k < |es| ==>
        StructureEntryOf(c, instances, es[k]) == Some(StructureOf(c, instances, es).value[k])
        && StructureOf(c, instances, es).value[k].id == es[k].0.id
        && (StructureOf(c, instances, es).value[k].children != [] ==> es[k].0.data.itemType == "catalog" && es[k].0.data.showInCatalog)
  {
    if es != [] {
      StructureOfSpec(c, instances, es[1..]);
      if StructureOf(c, instances, es).Some? {
        forall k | 1 <= k < |es|
          ensures StructureOf(c, instances, es).value[k] == StructureOf(c, instances, es[1..]).value[k - 1]
        {
        }
      } else if StructureEntryOf(c, instances, es[0]).Some? {
        var k :| 0 <= k < |es[1..]| && StructureEntryOf(c, instances, es[1..][k]).None?;
        assert es[k + 1] == es[1..][k];
      }
      forall k | 1 <= k < |es| ensures es[k] == es[1..][k - 1] { }
    }
  }

  /** The entries built so far, in front of the rest of the loop's outcome. */
  function Prepend<T>(acc: seq<T>, rest: Option<seq<T>>): Option<seq<T>>
  {
    if rest.Some? then Some(acc + rest.value) else None
  }

  /** `build_menu_structure`: the query, then a loop appending one entry per row. */
  method BuildMenuStructure(c: Content, db: MenuDb, inst: nat) returns (r: Option<seq<StructureEntry>>)
    ensures r == StructureOf(c, db.menuInstances, InstanceEntries(db, inst))
  {
    var es := InstanceEntries(db, inst);
    var acc: seq<StructureEntry> := [];
    var i := 0;
    assert es[0..] == es;
    assert StructureOf(c, db.menuInstances, es).Some? ==> [] + StructureOf(c, db.menuInstances, es).value == StructureOf(c, db.menuInstances, es).value;
    while i < |es|
      invariant 0 <= i <= |es|
      invariant StructureOf(c, db.menuInstances, es) == Prepend(acc, StructureOf(c, db.menuInstances, es[i..]))
    {
      assert es[i..][0] == es[i] && es[i..][1..] == es[i + 1..];
      var entry := StructureEntryOf(c, db.menuInstances, es[i]);
      if entry.None? {
        return None;
      }
      var rest := StructureOf(c, db.menuInstances, es[i + 1..]);
      if rest.Some? {
        assert acc + ([entry.value] + rest.value) == (acc + [entry.value]) + rest.value;
      }
      acc := acc + [entry.value];
      i := i + 1;
    }
    assert es[i..] == [];
    assert acc + [] == acc;
    r := Some(acc);
  }
}
