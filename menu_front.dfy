// The storefront side of the navigation menu (app/views/modules/menu.py)
// and the header menu every page receives (app/__init__.py): an instance's
// items become nodes in position order, catalog points receive the
// generated catalogue, nodes are nested under their parents, and the
// breadcrumb trail is the path to the first node with the current URL.

module MenuFront {
  import opened Common
  import opened Sorting
  import opened Layout
  import opened Tables
  import opened Categories
  import opened MenuData
  import opened MenuTargets
  import opened MenuCatalog

  /** An icon or video: `{'id', 'filename', 'url'}`. */
  datatype Media = Media(id: nat, filename: string, url: string)

  /** A node id: a base menu item's id, or `"catalog_<id>"` for a catalogue node. */
  datatype NodeId = ItemNode(item: nat) | CatalogNode(category: nat)

  /** The `parent_id` and `position` keys, which only item nodes carry. */
  datatype Place = Place(parentId: Option<nat>, position: int)

  /** One node of the menu as the template receives it. */
  datatype MenuNode = MenuNode(id: NodeId, title: string, url: string, itemType: string,
                               description: Option<string>, customClass: Option<string>,
                               openInNewTab: bool, isFeatured: bool, place: Option<Place>,
                               icon: Option<Media>, video: Option<Media>, children: seq<MenuNode>)

  /** `item.get('parent_id')`. */
  function ParentOf(n: MenuNode): Option<nat>
  {
    if n.place.Some? then n.place.value.parentId else None
  }

  const UploadsPath: string := "/static/uploads/"
  const VideosPath: string := "/static/uploads/videos/"

  /** An image reference as media: none for an unset or zero id or a missing image. */
  function MediaOf(images: seq<Image>, id: Option<nat>, path: string): (r: Option<Media>)
    ensures r.Some? <==> TruthyId(id) && ImageById(images, id.value).Some?
    ensures r.Some? ==> r.value.id == id.value && r.value.url == path + r.value.filename
  {
    if TruthyId(id) then
      match ImageById(images, id.value)
      case Some(img) => Some(Media(img.id, img.filename, path + img.filename))
      case None => None
    else None
  }

  // ---------------------------------------------------------------------
  // format_catalog_items

  /** `format_catalog_items`: every catalogue node as a menu node, recursively. */
  function FormatCatalogItems(images: seq<Image>, items: seq<CatalogItem>): (r: seq<MenuNode>)
    ensures |r| == |items|
    decreases items
  {
    if items == [] then []
    else
      var it := items[0];
      [MenuNode(CatalogNode(it.id), it.title, it.url, "category", it.description, Some("catalog-item"),
                false, false, None, MediaOf(images, it.imageId, UploadsPath), None,
                FormatCatalogItems(images, it.children))]
      + FormatCatalogItems(images, items[1..])
  }

  /** The number of levels of a menu. */
  function NodeHeight(nodes: seq<MenuNode>): nat
    decreases nodes
  {
    if nodes == [] then 0
    else
      var below := 1 + NodeHeight(nodes[0].children);
      var rest := NodeHeight(nodes[1..]);
      if below < rest then rest else below
  }

  /**
   * Each catalogue node becomes a node with id `catalog_<id>`, the same
   * title and URL, type `category` and class `catalog-item`, opening in the
   * same tab, with its children formatted the same way; the formatted menu
   * is exactly as deep as the catalogue.
   */
  lemma {:induction false} FormatCatalogItemsSpec(images: seq<Image>, items: seq<CatalogItem>)
    ensures forall i :: 0 <= i < |items| ==>
      var n := FormatCatalogItems(images, items)[i];
      n.id == CatalogNode(items[i].id) && n.title == items[i].title && n.url == items[i].url
      && n.itemType == "category" && n.customClass == Some("catalog-item") && !n.openInNewTab && !n.isFeatured
      && n.place.None? && n.video.None? && n.children == FormatCatalogItems(images, items[i].children)
    ensures NodeHeight(FormatCatalogItems(images, items)) == Height(items)
    decreases items
  {
    if items != [] {
      var r := FormatCatalogItems(images, items);
      FormatCatalogItemsSpec(images, items[0].children);
      FormatCatalogItemsSpec(images, items[1..]);
      assert r[1..] == FormatCatalogItems(images, items[1..]);
      forall i | 1 <= i < |items|
        ensures r[i] == FormatCatalogItems(images, items[1..])[i - 1] && items[i] == items[1..][i - 1]
      {
      }
    }
  }

  // ---------------------------------------------------------------------
  // build_menu_structure

  /** `s.rstrip('/')`. */
  function TrimSlashes(s: string): (r: string)
    ensures r <= s && (r == [] || r[|r| - 1] != '/')
    ensures forall k :: |r| <= k < |s| ==> s[k] == '/'
    decreases |s|
  {
    if s != [] && s[|s| - 1] == '/' then TrimSlashes(s[..|s| - 1]) else s
  }

  /** An item that receives the catalogue: type `catalog`, or a custom or external link to `/catalog`. */
  predicate IsCatalogPoint(x: ItemExt, item: MenuItem)
  {
    x.itemType == "catalog" || ((x.itemType == "custom" || x.itemType == "external") && TrimSlashes(item.url) == CatalogUrl)
  }

  /**
   * The catalogue under a catalog point: the level below the target category,
   * or the roots when there is no target; when that is empty and there is a
   * single root, the level below that root.
   */
  function CatalogUnder(cats: seq<Category>, target: Option<nat>, maxDepth: int): seq<CatalogItem>
  {
    var start := if TruthyId(target) then Some(target.value) else None;
    var found := CatalogItems(cats, start, maxDepth, 0);
    if found != [] then found
    else
      var roots := CatalogItems(cats, None, 1, 0);
      if |roots| == 1 then CatalogItems(cats, Some(roots[0].id), maxDepth, 0) else []
  }

  /**
   * The fallback in terms of the table: when the first try is empty, the
   * catalogue is the level below the only root category if there is exactly
   * one, and empty otherwise.
   */
  lemma {:induction false} CatalogUnderSpec(cats: seq<Category>, target: Option<nat>, maxDepth: int)
    ensures var start := if TruthyId(target) then Some(target.value) else None;
      var found := CatalogItems(cats, start, maxDepth, 0);
      (found != [] ==> CatalogUnder(cats, target, maxDepth) == found)
      && (found == [] && |LevelRows(cats, None)| == 1 ==>
            CatalogUnder(cats, target, maxDepth) == CatalogItems(cats, Some(LevelRows(cats, None)[0].id), maxDepth, 0))
      && (found == [] && |LevelRows(cats, None)| != 1 ==> CatalogUnder(cats, target, maxDepth) == [])
  {
    CatalogItemsSpec(cats, None, 1, 0);
    var rows := LevelRows(cats, None);
    if |rows| == 1 {
      var lv := Level(cats, None);
      assert multiset(lv) == multiset(rows);
      assert lv[0] in multiset(rows);
      assert lv[0] == rows[0];
    }
  }

  /** The node of one extended row and its base item; id, parent and position come from the base item. */
  function NodeOfEntry(c: Content, maxDepth: int, e: Entry): MenuNode
  {
    var x := e.0.data;
    var item := e.1;
    MenuNode(ItemNode(item.id), TargetTitle(c, x, Some(item.data)), DynamicUrl(c, x, Some(item.data)), x.itemType,
             x.description, x.customClass, x.openInNewTab, x.isFeatured,
             Some(Place(item.data.parentId, item.data.position)),
             MediaOf(c.images, x.iconId, UploadsPath), MediaOf(c.images, x.videoId, VideosPath),
             if IsCatalogPoint(x, item.data) then FormatCatalogItems(c.images, CatalogUnder(c.categories, x.targetId, maxDepth))
             else [])
  }

  /** The query of `get_instance_data`: the instance's rows in base-item position order. */
  function PositionKey(e: Entry): (int, int)
  {
    (e.1.data.position, 0)
  }

  function FrontEntries(db: MenuDb, inst: nat): seq<Entry>
  {
    SortBy(Joined(db.exts, db.items, inst), PositionKey)
  }

  function Structure(c: Content, maxDepth: int, es: seq<Entry>): (r: seq<MenuNode>)
    ensures |r| == |es|
  {
    seq(|es|, k requires 0 <= k < |es| => NodeOfEntry(c, maxDepth, es[k]))
  }

  /**
   * One node per row, in order: it carries the base item's id, parent and
   * position, the resolved title and URL, and children only when the row is
   * a catalog point.
   */
  lemma {:induction false} StructureSpec(c: Content, maxDepth: int, es: seq<Entry>)
    ensures forall k :: 0 <= k < |es| ==>
      var n := Structure(c, maxDepth, es)[k];
      n.id == ItemNode(es[k].1.id)
      && n.place == Some(Place(es[k].1.data.parentId, es[k].1.data.position))
      && n.title == TargetTitle(c, es[k].0.data, Some(es[k].1.data))
      && n.url == DynamicUrl(c, es[k].0.data, Some(es[k].1.data))
      && (n.children != [] ==> IsCatalogPoint(es[k].0.data, es[k].1.data))
  {
  }

  /** `build_menu_structure`: a loop appending one node per row. */
  method BuildMenuStructure(c: Content, maxDepth: int, es: seq<Entry>) returns (nodes: seq<MenuNode>)
    ensures nodes == Structure(c, maxDepth, es)
  {
    nodes := [];
    var i := 0;
    while i < |es|
      invariant 0 <= i <= |es|
      invariant nodes == Structure(c, maxDepth, es[..i])
    {
      assert Structure(c, maxDepth, es[..i + 1]) == Structure(c, maxDepth, es[..i]) + [NodeOfEntry(c, maxDepth, es[i])];
      nodes := nodes + [NodeOfEntry(c, maxDepth, es[i])];
      i := i + 1;
    }
    assert es[..i] == es;
  }

  // ---------------------------------------------------------------------
  // build_hierarchical_menu

  function ItemIds(nodes: seq<MenuNode>): set<nat>
  {
    set n | n in nodes && n.id.ItemNode? :: n.id.item
  }

  /** The nodes hung directly under `parent`, in order. */
  function Matching(nodes: seq<MenuNode>, parent: Option<nat>): (r: seq<MenuNode>)
    ensures forall n :: n in r ==> n in nodes && ParentOf(n) == parent
  {
    if nodes == [] then []
    else (if ParentOf(nodes[0]) == parent then [nodes[0]] else []) + Matching(nodes[1..], parent)
  }

  /**
   * `build_hierarchical_menu(items, parent)`; `path` holds the item ids
   * whose calls are still open. Reaching one of them again repeats a call
   * already in progress, so the source recurses until Python's recursion
   * limit stops it: that outcome is None.
   */
  function Build(all: seq<MenuNode>, parent: Option<nat>, path: set<nat>): Option<seq<MenuNode>>
    requires path <= ItemIds(all)
    decreases |ItemIds(all) - path|, 2
  {
    BuildLevel(all, all, parent, path)
  }

  /** The loop over `items`: each node's contribution in order, failing when one does. */
  function BuildLevel(all: seq<MenuNode>, rest: seq<MenuNode>, parent: Option<nat>, path: set<nat>): Option<seq<MenuNode>>
    requires path <= ItemIds(all) && forall n :: n in rest ==> n in all
    decreases |ItemIds(all) - path|, 1, |rest|
  {
    if rest == [] then Some([])
    else Concat(BuildHead(all, rest[0], parent, path), BuildLevel(all, rest[1..], parent, path))
  }

  function Concat<T>(a: Option<seq<T>>, b: Option<seq<T>>): Option<seq<T>>
  {
    if a.Some? && b.Some? then Some(a.value + b.value) else None
  }

  /**
   * One pass of the loop: nothing for a node under another parent; for a
   * match, the node with its children built below it and its own children
   * after them.
   */
  function BuildHead(all: seq<MenuNode>, n: MenuNode, parent: Option<nat>, path: set<nat>): Option<seq<MenuNode>>
    requires path <= ItemIds(all) && n in all
    decreases |ItemIds(all) - path|, 0
  {
    if ParentOf(n) != parent then Some([])
    else match n.id
      case CatalogNode(_) => Some([n])
      case ItemNode(k) =>
        if k in path then None
        else
          assert k in ItemIds(all);
          assert ItemIds(all) - (path + {k}) < ItemIds(all) - path;
          match Build(all, Some(k), path + {k})
          case None => None
          case Some(kids) => Some([n.(children := kids + n.children)])
  }

  /**
   * Where the level is built, it holds exactly the nodes whose parent is
   * `parent`, in input order; each keeps its fields, and its children are
   * the nodes built below it followed by the children it already had.
   */
  lemma {:induction false} BuildLevelSpec(all: seq<MenuNode>, rest: seq<MenuNode>, parent: Option<nat>, path: set<nat>)
    requires path <= ItemIds(all) && forall n :: n in rest ==> n in all
    requires BuildLevel(all, rest, parent, path).Some?
    ensures var r := BuildLevel(all, rest, parent, path).value;
      var m := Matching(rest, parent);
      |r| == |m|
      && forall i :: 0 <= i < |r| ==>
           r[i].(children := []) == m[i].(children := [])
           && (m[i].id.ItemNode? ==>
                 m[i].id.item !in path
                 && Build(all, Some(m[i].id.item), path + {m[i].id.item}).Some?
                 && r[i].children == Build(all, Some(m[i].id.item), path + {m[i].id.item}).value + m[i].children)
           && (m[i].id.CatalogNode? ==> r[i] == m[i])
    decreases |rest|
  {
    if rest != [] {
      BuildLevelSpec(all, rest[1..], parent, path);
      var r := BuildLevel(all, rest, parent, path).value;
      var tail := BuildLevel(all, rest[1..], parent, path).value;
      var m := Matching(rest, parent);
      var mt := Matching(rest[1..], parent);
      if ParentOf(rest[0]) == parent {
        assert r[1..] == tail && m[1..] == mt;
        forall i | 1 <= i < |r|
          ensures r[i] == tail[i - 1] && m[i] == mt[i - 1]
        {
        }
      } else {
        assert r == tail && m == mt;
      }
    }
  }

  /** `build_hierarchical_menu(items)` from the top: the nodes without a parent. */
  function HierarchicalMenu(nodes: seq<MenuNode>): Option<seq<MenuNode>>
  {
    Build(nodes, None, {})
  }

  /** Every item node's parent is an item id below its own. */
  predicate NodesParentsBelow(nodes: seq<MenuNode>)
  {
    forall n :: n in nodes && ParentOf(n).Some? ==> n.id.ItemNode? && ParentOf(n).value < n.id.item
  }

  /** A level is built when its first node is and the rest of the level is. */
  lemma {:induction false} BuildLevelStep(all: seq<MenuNode>, rest: seq<MenuNode>, parent: Option<nat>, path: set<nat>)
    requires path <= ItemIds(all) && forall n :: n in rest ==> n in all
    requires rest != [] && BuildLevel(all, rest[1..], parent, path).Some?
    requires ParentOf(rest[0]) == parent && rest[0].id.ItemNode? ==>
      rest[0].id.item !in path && rest[0].id.item in ItemIds(all)
      && Build(all, Some(rest[0].id.item), path + {rest[0].id.item}).Some?
    ensures BuildLevel(all, rest, parent, path).Some?
  {
  }

  /**
   * On nodes whose parents come before them, every call terminates: the ids
   * on the open path lie at or below the parent being matched, and a
   * matching node's id lies above it.
   */
  lemma {:induction false} BuildAcyclic(all: seq<MenuNode>, rest: seq<MenuNode>, parent: Option<nat>, path: set<nat>)
    requires path <= ItemIds(all) && forall n :: n in rest ==> n in all
    requires NodesParentsBelow(all)
    requires forall x :: x in path ==> parent.Some? && x <= parent.value
    ensures BuildLevel(all, rest, parent, path).Some?
    decreases |ItemIds(all) - path|, |rest|
  {
    if rest != [] {
      var n := rest[0];
      BuildAcyclic(all, rest[1..], parent, path);
      if ParentOf(n) == parent && n.id.ItemNode? {
        var k := n.id.item;
        assert n in all;
        assert k in ItemIds(all);
        assert k !in path by {
          if parent.Some? {
            assert parent.value < k;
          }
        }
        assert ItemIds(all) - (path + {k}) < ItemIds(all) - path;
        BuildAcyclic(all, all, Some(k), path + {k});
      }
      BuildLevelStep(all, rest, parent, path);
    }
  }

  /** Items whose parents name each other are never reached from the top and do not show. */
  lemma {:induction false} ParentCycleDropped(a: MenuNode, b: MenuNode)
    requires a.id == ItemNode(1) && ParentOf(a) == Some(2)
    requires b.id == ItemNode(2) && ParentOf(b) == Some(1)
    ensures HierarchicalMenu([a, b]) == Some([])
  {
    var all := [a, b];
    assert all[0] == a && all[1..] == [b] && [b][1..] == [];
    assert BuildHead(all, a, None, {}) == Some([]) && BuildHead(all, b, None, {}) == Some([]);
    assert BuildLevel(all, [], None, {}) == Some([]);
    assert [b][0] == b;
    var none: seq<MenuNode> := [];
    assert none + none == none;
    assert Concat(BuildHead(all, b, None, {}), BuildLevel(all, [], None, {})) == Some([]);
    assert BuildLevel(all, [b], None, {}) == Concat(BuildHead(all, [b][0], None, {}), BuildLevel(all, [b][1..], None, {}));
    assert BuildLevel(all, [b], None, {}) == Some([]);
    assert BuildLevel(all, all, None, {}) == Concat(BuildHead(all, all[0], None, {}), BuildLevel(all, all[1..], None, {}));
    assert BuildLevel(all, all, None, {}) == Some(none);
  }

  /**
   * Two nodes with the same id make a call repeat one in progress: under
   * item 1 hangs item 2, under which hangs a second item 1, whose call is
   * item 1's again. The outcome is None.
   */
  lemma {:induction false} RepeatedIdNeverEnds(c: MenuNode, d: MenuNode, e: MenuNode)
    requires c.id == ItemNode(1) && ParentOf(c) == None
    requires d.id == ItemNode(2) && ParentOf(d) == Some(1)
    requires e.id == ItemNode(1) && ParentOf(e) == Some(2)
    ensures HierarchicalMenu([c, d, e]) == None
  {
    var all := [c, d, e];
    assert c in all && d in all && e in all;
    assert ItemIds(all) == {1, 2};
    assert all[0] == c && all[1..] == [d, e] && [d, e][0] == d && [d, e][1..] == [e] && [e][0] == e;
    // under item 2 (items 1 and 2 open): the second item 1 repeats an open call
    assert BuildHead(all, e, Some(2), {1, 2}) == None;
    assert BuildLevel(all, [e], Some(2), {1, 2}) == Concat(BuildHead(all, e, Some(2), {1, 2}), BuildLevel(all, [e][1..], Some(2), {1, 2}));
    assert BuildLevel(all, [d, e], Some(2), {1, 2}) == Concat(BuildHead(all, d, Some(2), {1, 2}), BuildLevel(all, [e], Some(2), {1, 2}));
    assert BuildLevel(all, all, Some(2), {1, 2}) == Concat(BuildHead(all, c, Some(2), {1, 2}), BuildLevel(all, [d, e], Some(2), {1, 2}));
    assert Build(all, Some(2), {1, 2}) == None;
    // under item 1: item 2 matches
    assert {1} + {2} == {1, 2};
    assert BuildHead(all, d, Some(1), {1}) == None;
    assert BuildLevel(all, [d, e], Some(1), {1}) == Concat(BuildHead(all, d, Some(1), {1}), BuildLevel(all, [e], Some(1), {1}));
    assert BuildLevel(all, all, Some(1), {1}) == Concat(BuildHead(all, c, Some(1), {1}), BuildLevel(all, [d, e], Some(1), {1}));
    assert Build(all, Some(1), {1}) == None;
    // from the top: item 1 matches
    var empty: set<nat> := {};
    assert empty + {1} == {1};
    assert BuildHead(all, c, None, {}) == None;
    assert BuildLevel(all, all, None, {}) == Concat(BuildHead(all, c, None, {}), BuildLevel(all, all[1..], None, {}));
  }

  /** `build_hierarchical_menu`: the loop over the items, recursing for each match. */
  method BuildHierarchicalMenu(all: seq<MenuNode>, parent: Option<nat>, path: set<nat>) returns (tree: Option<seq<MenuNode>>)
    requires path <= ItemIds(all)
    ensures tree == Build(all, parent, path)
    decreases |ItemIds(all) - path|, 2
  {
    var acc: seq<MenuNode> := [];
    var i := 0;
    assert all[0..] == all;
    assert BuildLevel(all, all, parent, path).Some? ==>
      [] + BuildLevel(all, all, parent, path).value == BuildLevel(all, all, parent, path).value;
    while i < |all|
      invariant 0 <= i <= |all|
      invariant Build(all, parent, path) == Prepend(acc, BuildLevel(all, all[i..], parent, path))
    {
      assert all[i..][0] == all[i] && all[i..][1..] == all[i + 1..];
      var h := AddNode(all, all[i], parent, path);
      PrependConcat(acc, h, BuildLevel(all, all[i + 1..], parent, path));
      if h.None? {
        return None;
      }
      acc := acc + h.value;
      i := i + 1;
    }
    assert all[i..] == [];
    assert acc + [] == acc;
    tree := Some(acc);
  }

  /** Appending one pass's nodes to what the loop holds: the pass's failure is the whole level's. */
  lemma {:induction false} PrependConcat<T>(acc: seq<T>, h: Option<seq<T>>, rest: Option<seq<T>>)
    ensures h.Some? ==> Prepend(acc, Concat(h, rest)) == Prepend(acc + h.value, rest)
    ensures h.None? ==> Prepend(acc, Concat(h, rest)) == None
  {
    if h.Some? && rest.Some? {
      assert acc + (h.value + rest.value) == (acc + h.value) + rest.value;
    }
  }

  /** The body of the loop for one node, recursing for a match. */
  method AddNode(all: seq<MenuNode>, n: MenuNode, parent: Option<nat>, path: set<nat>) returns (h: Option<seq<MenuNode>>)
    requires path <= ItemIds(all) && n in all
    ensures h == BuildHead(all, n, parent, path)
    decreases |ItemIds(all) - path|, 0
  {
    if ParentOf(n) != parent {
      return Some([]);
    }
    match n.id
    case CatalogNode(_) =>
      h := Some([n]);
    case ItemNode(k) =>
      if k in path {
        return None;
      }
      assert k in ItemIds(all);
      assert ItemIds(all) - (path + {k}) < ItemIds(all) - path;
      var kids := BuildHierarchicalMenu(all, Some(k), path + {k});
      if kids.None? {
        return None;
      }
      h := Some([n.(children := kids.value + n.children)]);
  }

  // ---------------------------------------------------------------------
  // get_breadcrumbs

  /** `find_path`: the first node in pre-order whose URL is `url`, with its ancestors. */
  function FindPath(nodes: seq<MenuNode>, url: string): (r: Option<seq<MenuNode>>)
    ensures r.Some? ==> r.value != [] && r.value[0] in nodes && r.value[|r.value| - 1].url == url
    decreases nodes
  {
    if nodes == [] then None
    else if nodes[0].url == url then Some([nodes[0]])
    else match FindPath(nodes[0].children, url)
      case Some(p) => Some([nodes[0]] + p)
      case None => FindPath(nodes[1..], url)
  }

  /** Some node of the menu, at any depth, has URL `url`. */
  predicate Occurs(nodes: seq<MenuNode>, url: string)
    decreases nodes
  {
    nodes != [] && (nodes[0].url == url || Occurs(nodes[0].children, url) || Occurs(nodes[1..], url))
  }

  /** A path from the top: each node is a child of the one before it, and only the last has URL `url`. */
  predicate IsTrail(p: seq<MenuNode>, url: string)
  {
    (forall i :: 0 <= i < |p| - 1 ==> p[i + 1] in p[i].children && p[i].url != url)
  }

  /**
   * The search finds a trail exactly when some node has the URL: it runs
   * from a top node down through children to a node with that URL, passing
   * no other node with it.
   */
  lemma {:induction false} FindPathSpec(nodes: seq<MenuNode>, url: string)
    ensures FindPath(nodes, url).Some? <==> Occurs(nodes, url)
    ensures FindPath(nodes, url).Some? ==> IsTrail(FindPath(nodes, url).value, url)
    decreases nodes
  {
    if nodes != [] {
      FindPathSpec(nodes[0].children, url);
      FindPathSpec(nodes[1..], url);
      if nodes[0].url != url && FindPath(nodes[0].children, url).Some? {
        var p := FindPath(nodes[0].children, url).value;
        var q := [nodes[0]] + p;
        forall i | 0 <= i < |q| - 1
          ensures q[i + 1] in q[i].children && q[i].url != url
        {
          if i > 0 {
            assert q[i] == p[i - 1] && q[i + 1] == p[i];
          }
        }
      }
    }
  }

  /** One breadcrumb: `{'title', 'url', 'is_current'}`. */
  datatype Crumb = Crumb(title: string, url: string, isCurrent: bool)

  /** `get_breadcrumbs(current_url, menu_items)`. */
  function Breadcrumbs(url: string, nodes: seq<MenuNode>): (r: seq<Crumb>)
    ensures r == [] <==> !Occurs(nodes, url)
    ensures r != [] ==> r[|r| - 1].isCurrent && r[|r| - 1].url == url
    ensures forall i :: 0 <= i < |r| - 1 ==> !r[i].isCurrent
  {
    FindPathSpec(nodes, url);
    match FindPath(nodes, url)
    case None => []
    case Some(p) => seq(|p|, i requires 0 <= i < |p| => Crumb(p[i].title, p[i].url, p[i].url == url))
  }

  // ---------------------------------------------------------------------
  // get_instance_data

  /** Why the storefront data is the error dict: no menu instance, or the nesting never ends. */
  datatype MenuError = NoMenuInstance | RecursionLimit

  const NoMenuInstanceMessage: string := "Экземпляр модуля меню не найден"

  /** The storefront data: the error dict (with no items), or the instance's settings, nodes and tree. */
  datatype FrontMenu =
    | MenuFailure(error: MenuError)
    | FrontMenu(title: string, menuStyle: string, showIcons: bool, enableVideos: bool, maxDepth: int,
                items: seq<MenuNode>, tree: seq<MenuNode>)

  /** `MenuModule.get_instance_data(module_instance)`. */
  function GetInstanceData(c: Content, db: MenuDb, moduleInstanceId: nat): (r: FrontMenu)
    ensures r == MenuFailure(NoMenuInstance) <==> FirstOwned(db.menuInstances, moduleInstanceId).None?
    ensures r.FrontMenu? ==>
      var mi := FirstOwned(db.menuInstances, moduleInstanceId).value;
      r.items == Structure(c, mi.data.maxDepth, FrontEntries(db, mi.id))
      && Some(r.tree) == HierarchicalMenu(r.items)
      && r.title == mi.data.title && r.maxDepth == mi.data.maxDepth
  {
    match FirstOwned(db.menuInstances, moduleInstanceId)
    case None => MenuFailure(NoMenuInstance)
    case Some(mi) =>
      var items := Structure(c, mi.data.maxDepth, FrontEntries(db, mi.id));
      match HierarchicalMenu(items)
      case None => MenuFailure(RecursionLimit)
      case Some(tree) =>
        FrontMenu(mi.data.title, mi.data.menuStyle, mi.data.showIcons, mi.data.enableVideos, mi.data.maxDepth, items, tree)
  }

  /** Nodes built from a table whose parents come before their items nest without end-less recursion. */
  lemma {:induction false} StructureParentsBelow(c: Content, db: MenuDb, maxDepth: int, inst: nat)
    requires ParentsBelow(db.items)
    ensures NodesParentsBelow(Structure(c, maxDepth, FrontEntries(db, inst)))
  {
    var es := FrontEntries(db, inst);
    SortBySpec(Joined(db.exts, db.items, inst), PositionKey);
    var ns := Structure(c, maxDepth, es);
    forall n | n in ns && ParentOf(n).Some?
      ensures n.id.ItemNode? && ParentOf(n).value < n.id.item
    {
      var k :| 0 <= k < |ns| && ns[k] == n;
      assert es[k] in multiset(es);
      assert es[k] in Joined(db.exts, db.items, inst) by {
        assert es[k] in multiset(Joined(db.exts, db.items, inst));
      }
      assert es[k].1 in db.items;
    }
  }

  /** On a valid database the storefront data is never the recursion error. */
  lemma {:induction false} GetInstanceDataTerminates(c: Content, db: MenuDb, moduleInstanceId: nat)
    requires Valid(db)
    ensures GetInstanceData(c, db, moduleInstanceId) != MenuFailure(RecursionLimit)
  {
    match FirstOwned(db.menuInstances, moduleInstanceId)
    case None =>
    case Some(mi) =>
      var items := Structure(c, mi.data.maxDepth, FrontEntries(db, mi.id));
      StructureParentsBelow(c, db, mi.data.maxDepth, mi.id);
      BuildAcyclic(items, items, None, {});
  }

  // ---------------------------------------------------------------------
  // The header menu (app/__init__.py)

  /** The first menu instance with the main flag. */
  function FirstMain(rows: seq<Row<MenuInstance>>): (r: Option<Row<MenuInstance>>)
    ensures r.Some? ==> r.value in rows && r.value.data.isMain
    ensures r.None? <==> forall x :: x in rows ==> !x.data.isMain
  {
    if rows == [] then None
    else if rows[0].data.isMain then Some(rows[0])
    else
      assert forall x :: x in rows ==> x == rows[0] || x in rows[1..];
      FirstMain(rows[1..])
  }

  /** The header menu: the main instance's module instance and its storefront data. */
  datatype MainMenuContext = MainMenuContext(moduleInstance: Instance, data: FrontMenu)

  /** `_build_main_menu_context()`. */
  function BuildMainMenuContext(c: Content, db: MenuDb): (r: Option<MainMenuContext>)
    ensures r.None? <==>
      FirstMain(db.menuInstances).None?
      || FindInstance(db.instances, FirstMain(db.menuInstances).value.owner).None?
      || GetInstanceData(c, db, FirstMain(db.menuInstances).value.owner).MenuFailure?
    ensures r.Some? ==>
      r.value.moduleInstance == FindInstance(db.instances, FirstMain(db.menuInstances).value.owner).value
      && r.value.data == GetInstanceData(c, db, r.value.moduleInstance.id) && r.value.data.FrontMenu?
  {
    match FirstMain(db.menuInstances)
    case None => None
    case Some(main) =>
      match FindInstance(db.instances, main.owner)
      case None => None
      case Some(inst) =>
        var data := GetInstanceData(c, db, inst.id);
        if data.MenuFailure? then None else Some(MainMenuContext(inst, data))
  }

  /** What `inject_main_menu` puts in every template's context: the single key `main_menu`. */
  datatype TemplateContext = TemplateContext(mainMenu: Option<MainMenuContext>)

  function InjectMainMenu(c: Content, db: MenuDb): (r: TemplateContext)
    ensures r.mainMenu.Some? ==> r.mainMenu.value.moduleInstance in db.instances && r.mainMenu.value.data.FrontMenu?
  {
    TemplateContext(BuildMainMenuContext(c, db))
  }

  /**
   * With at most one main instance, the header menu, when there is one, is
   * the module instance of that instance; on a valid database it is missing
   * only when there is no main instance, its module instance is gone, or that
   * module instance has no menu instance.
   */
  lemma {:induction false} MainMenuOfTheMainInstance(c: Content, db: MenuDb)
    requires Valid(db)
    ensures BuildMainMenuContext(c, db).Some? ==>
      forall k :: 0 <= k < |db.menuInstances| && db.menuInstances[k].data.isMain ==>
        BuildMainMenuContext(c, db).value.moduleInstance.id == db.menuInstances[k].owner
    ensures BuildMainMenuContext(c, db).None? <==>
      FirstMain(db.menuInstances).None?
      || FindInstance(db.instances, FirstMain(db.menuInstances).value.owner).None?
      || FirstOwned(db.menuInstances, FirstMain(db.menuInstances).value.owner).None?
  {
    if FirstMain(db.menuInstances).Some? {
      var main := FirstMain(db.menuInstances).value;
      GetInstanceDataTerminates(c, db, main.owner);
      forall k | 0 <= k < |db.menuInstances| && db.menuInstances[k].data.isMain
        ensures db.menuInstances[k] == main
      {
        var j :| 0 <= j < |db.menuInstances| && db.menuInstances[j] == main;
      }
    }
  }
}
