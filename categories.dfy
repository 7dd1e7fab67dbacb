// The product category tree (app/models/category.py) and the walkers over
// it that the catalogue, the admin forms and the product queries share.
// The `categories` table is a sequence of rows; `parent_id` links a row to
// its parent. Every walker recurses once per tree level and takes a `fuel`
// bound (the table size is enough for an acyclic table); the source itself
// has no bound and does not terminate on a cyclic table.

module Categories {
  import opened Common
  import opened Sorting

  /** A `categories` row; `description` and `image_id` are read by the menu's catalog. */
  datatype Category = Category(id: nat, name: string, parentId: Option<nat>, slug: string, sortOrder: int,
                               description: Option<string>, imageId: Option<nat>)

  /** The `ORDER BY sort_order, id` key. */
  function SortKey(c: Category): (int, int)
  {
    (c.sortOrder, c.id)
  }

  /** `filter_by(parent_id=p)` with no ordering: the matching rows in table order. */
  function ChildRows(t: seq<Category>, p: Option<nat>): seq<Category>
  {
    if t == [] then []
    else (if t[0].parentId == p then [t[0]] else []) + ChildRows(t[1..], p)
  }

  lemma {:induction false} ChildRowsMembers(t: seq<Category>, p: Option<nat>)
    ensures forall c :: c in ChildRows(t, p) <==> c in t && c.parentId == p
  {
    if t != [] {
      ChildRowsMembers(t[1..], p);
      assert t == [t[0]] + t[1..];
    }
  }

  /** `filter_by(parent_id=p).order_by(sort_order, id)`. */
  function OrderedChildren(t: seq<Category>, p: Option<nat>): seq<Category>
  {
    SortBy(ChildRows(t, p), SortKey)
  }

  /**
   * `getSybCategoryByID(p)` and every `order_by(sort_order, id)` child query:
   * exactly the rows whose parent is `p`, ascending by sort order and then id.
   */
  lemma {:induction false} OrderedChildrenSpec(t: seq<Category>, p: Option<nat>)
    ensures SortedByKey(OrderedChildren(t, p), SortKey)
    ensures forall c :: c in OrderedChildren(t, p) <==> c in t && c.parentId == p
  {
    ChildRowsMembers(t, p);
    SortBySpec(ChildRows(t, p), SortKey);
    forall c ensures c in OrderedChildren(t, p) <==> c in ChildRows(t, p) {
      SortByMembers(ChildRows(t, p), SortKey, c);
    }
  }

  // ---------------------------------------------------------------------
  // get_category_tree
  // ---------------------------------------------------------------------

  /** `{'category': cat, 'children': [...]}`. */
  datatype Node = Node(category: Category, children: seq<Node>)

  /** The tree below `p`: one node per direct child, in order, each with its own subtree. */
  function Tree(t: seq<Category>, p: Option<nat>, fuel: nat): seq<Node>
    decreases fuel, 0
  {
    if fuel == 0 then [] else Forest(t, OrderedChildren(t, p), fuel - 1)
  }

  function Forest(t: seq<Category>, kids: seq<Category>, fuel: nat): (r: seq<Node>)
    decreases fuel, 1, |kids|
  {
    if kids == [] then [] else [Node(kids[0], Tree(t, Some(kids[0].id), fuel))] + Forest(t, kids[1..], fuel)
  }

  /** A forest has one node per category given, in order, each carrying that category's subtree. */
  lemma {:induction false} ForestShape(t: seq<Category>, kids: seq<Category>, fuel: nat)
    ensures |Forest(t, kids, fuel)| == |kids|
    ensures forall i :: 0 <= i < |kids| ==> Forest(t, kids, fuel)[i] == Node(kids[i], Tree(t, Some(kids[i].id), fuel))
    decreases |kids|
  {
    if kids != [] {
      ForestShape(t, kids[1..], fuel);
    }
  }

  /** `get_category_tree(p)`: one node per direct child of `p`, in `(sort_order, id)` order, each with its own subtree. */
  lemma {:induction false} TreeShape(t: seq<Category>, p: Option<nat>, fuel: nat)
    requires fuel > 0
    ensures |Tree(t, p, fuel)| == |OrderedChildren(t, p)|
    ensures forall i :: 0 <= i < |OrderedChildren(t, p)| ==>
      Tree(t, p, fuel)[i] == Node(OrderedChildren(t, p)[i], Tree(t, Some(OrderedChildren(t, p)[i].id), fuel - 1))
  {
    ForestShape(t, OrderedChildren(t, p), fuel - 1);
  }

  /** `get_category_tree(p)`: the children of `p`, then the loop over them. */
  method GetCategoryTree(t: seq<Category>, p: Option<nat>, fuel: nat) returns (nodes: seq<Node>)
    ensures nodes == Tree(t, p, fuel)
    decreases fuel, 0
  {
    if fuel == 0 {
      return [];
    }
    nodes := TreeLoop(t, OrderedChildren(t, p), fuel - 1);
  }

  /** The loop of `get_category_tree`: append one node per child, with its subtree. */
  method TreeLoop(t: seq<Category>, kids: seq<Category>, fuel: nat) returns (nodes: seq<Node>)
    ensures nodes == Forest(t, kids, fuel)
    decreases fuel, 1
  {
    nodes := [];
    var i := 0;
    assert kids[0..] == kids;
    while i < |kids|
      invariant 0 <= i <= |kids|
      invariant Forest(t, kids, fuel) == nodes + Forest(t, kids[i..], fuel)
    {
      var children := GetCategoryTree(t, Some(kids[i].id), fuel);
      assert kids[i..][1..] == kids[i + 1..];
      assert Forest(t, kids[i..], fuel) == [Node(kids[i], children)] + Forest(t, kids[i + 1..], fuel);
      nodes := nodes + [Node(kids[i], children)];
      i := i + 1;
    }
    assert kids[i..] == [];
  }

  // ---------------------------------------------------------------------
  // build_category_list
  // ---------------------------------------------------------------------

  /** Depth-first listing of a tree: each node, at its level, followed by its subtree. */
  function Preorder(nodes: seq<Node>, level: nat): seq<(Category, nat)>
    decreases nodes
  {
    if nodes == [] then []
    else [(nodes[0].category, level)] + Preorder(nodes[0].children, level + 1) + Preorder(nodes[1..], level)
  }

  lemma {:induction false} PreorderForestCons(t: seq<Category>, kids: seq<Category>, fuel: nat, level: nat)
    requires kids != []
    ensures Preorder(Forest(t, kids, fuel), level)
      == [(kids[0], level)] + Preorder(Tree(t, Some(kids[0].id), fuel), level + 1) + Preorder(Forest(t, kids[1..], fuel), level)
  {
    var f := Forest(t, kids, fuel);
    assert f[0] == Node(kids[0], Tree(t, Some(kids[0].id), fuel));
    assert f[1..] == Forest(t, kids[1..], fuel);
  }

  /** Entry `k` has an earlier entry, one level up, that is its parent. */
  predicate ParentEarlier(r: seq<(Category, nat)>, k: int)
    requires 0 <= k < |r|
  {
    exists j :: 0 <= j < k && r[j].1 + 1 == r[k].1 && Some(r[j].0.id) == r[k].0.parentId
  }

  /** Entry `k` is at `level` or deeper; at `level` it is a child of `p`, deeper its parent comes earlier. */
  predicate EntryOk(r: seq<(Category, nat)>, k: int, p: Option<nat>, level: nat)
    requires 0 <= k < |r|
  {
    level <= r[k].1
    && (r[k].1 == level ==> r[k].0.parentId == p)
    && (r[k].1 > level ==> ParentEarlier(r, k))
  }

  /**
   * The listing's shape: levels start at `level`; an entry at `level` is a
   * child of `p`; a deeper entry has its parent earlier, one level up.
   */
  predicate LevelsFollowParents(r: seq<(Category, nat)>, p: Option<nat>, level: nat)
  {
    forall k :: 0 <= k < |r| ==> EntryOk(r, k, p, level)
  }

  predicate AllIn(r: seq<(Category, nat)>, t: seq<Category>)
  {
    forall k :: 0 <= k < |r| ==> r[k].0 in t
  }

  /** One entry of `[(c, level)] + a + b` has the shape `LevelsFollowParents` asks of it. */
  lemma {:induction false} LevelsConsAt(c: Category, a: seq<(Category, nat)>, b: seq<(Category, nat)>, p: Option<nat>, level: nat, k: nat)
    requires c.parentId == p
    requires LevelsFollowParents(a, Some(c.id), level + 1)
    requires LevelsFollowParents(b, p, level)
    requires k < 1 + |a| + |b|
    ensures EntryOk([(c, level)] + a + b, k, p, level)
  {
    var r := [(c, level)] + a + b;
    if 1 <= k < 1 + |a| {
      var k' := k - 1;
      assert r[k] == a[k'];
      assert EntryOk(a, k', Some(c.id), level + 1);
      if a[k'].1 > level + 1 {
        assert ParentEarlier(a, k');
        var j' :| 0 <= j' < k' && a[j'].1 + 1 == a[k'].1 && Some(a[j'].0.id) == a[k'].0.parentId;
        assert r[j' + 1] == a[j'];
      } else {
        assert r[0] == (c, level);
      }
    } else if 1 + |a| <= k {
      var k' := k - 1 - |a|;
      assert r[k] == b[k'];
      assert EntryOk(b, k', p, level);
      if b[k'].1 > level {
        assert ParentEarlier(b, k');
        var j' :| 0 <= j' < k' && b[j'].1 + 1 == b[k'].1 && Some(b[j'].0.id) == b[k'].0.parentId;
        assert r[j' + 1 + |a|] == b[j'];
      }
    }
  }

  /** A node's entry, its subtree one level down, then its later siblings keep the shape. */
  lemma {:induction false} LevelsCons(t: seq<Category>, c: Category, a: seq<(Category, nat)>, b: seq<(Category, nat)>, p: Option<nat>, level: nat)
    requires c in t && c.parentId == p
    requires LevelsFollowParents(a, Some(c.id), level + 1) && AllIn(a, t)
    requires LevelsFollowParents(b, p, level) && AllIn(b, t)
    ensures LevelsFollowParents([(c, level)] + a + b, p, level)
    ensures AllIn([(c, level)] + a + b, t)
  {
    var r := [(c, level)] + a + b;
    forall k | 0 <= k < |r| ensures EntryOk(r, k, p, level) {
      LevelsConsAt(c, a, b, p, level, k);
    }
    forall k | 0 <= k < |r| ensures r[k].0 in t {
      if 1 <= k < 1 + |a| {
        assert r[k] == a[k - 1];
      } else if 1 + |a| <= k {
        assert r[k] == b[k - 1 - |a|];
      }
    }
  }

  /**
   * `build_category_list(p, level)`: every entry is a category of the table,
   * entries at `level` are children of `p`, and every deeper entry follows
   * its parent's entry, one level further in.
   */
  lemma {:induction false} CategoryListShape(t: seq<Category>, p: Option<nat>, level: nat, fuel: nat)
    ensures LevelsFollowParents(Preorder(Tree(t, p, fuel), level), p, level)
    ensures AllIn(Preorder(Tree(t, p, fuel), level), t)
    decreases fuel, 0
  {
    if fuel > 0 {
      OrderedChildrenSpec(t, p);
      ForestListShape(t, OrderedChildren(t, p), p, level, fuel - 1);
    }
  }

  lemma {:induction false} ForestListShape(t: seq<Category>, kids: seq<Category>, p: Option<nat>, level: nat, fuel: nat)
    requires forall c :: c in kids ==> c in t && c.parentId == p
    ensures LevelsFollowParents(Preorder(Forest(t, kids, fuel), level), p, level)
    ensures AllIn(Preorder(Forest(t, kids, fuel), level), t)
    decreases fuel, 1, |kids|
  {
    if kids != [] {
      CategoryListShape(t, Some(kids[0].id), level + 1, fuel);
      ForestListShape(t, kids[1..], p, level, fuel);
      PreorderForestCons(t, kids, fuel, level);
      LevelsCons(t, kids[0], Preorder(Tree(t, Some(kids[0].id), fuel), level + 1), Preorder(Forest(t, kids[1..], fuel), level), p, level);
    }
  }

  /** `build_category_list(p, level)`: the children of `p`, then the loop over them. */
  method BuildCategoryList(t: seq<Category>, p: Option<nat>, level: nat, fuel: nat) returns (results: seq<(Category, nat)>)
    ensures results == Preorder(Tree(t, p, fuel), level)
    decreases fuel, 0
  {
    if fuel == 0 {
      return [];
    }
    results := ListLoop(t, OrderedChildren(t, p), level, fuel - 1);
  }

  /** The loop of `build_category_list`: each child, then its own listing one level down. */
  method ListLoop(t: seq<Category>, kids: seq<Category>, level: nat, fuel: nat) returns (results: seq<(Category, nat)>)
    ensures results == Preorder(Forest(t, kids, fuel), level)
    decreases fuel, 1
  {
    results := [];
    var i := 0;
    assert kids[0..] == kids;
    while i < |kids|
      invariant 0 <= i <= |kids|
      invariant Preorder(Forest(t, kids, fuel), level) == results + Preorder(Forest(t, kids[i..], fuel), level)
    {
      var sub := BuildCategoryList(t, Some(kids[i].id), level + 1, fuel);
      PreorderForestCons(t, kids[i..], fuel, level);
      assert kids[i..][1..] == kids[i + 1..];
      results := results + [(kids[i], level)] + sub;
      i := i + 1;
    }
    assert kids[i..] == [];
  }

  // ---------------------------------------------------------------------
  // getPcats
  // ---------------------------------------------------------------------

  /** `getPcats()`: name and slug of every root category, in `(sort_order, id)` order. */
  method GetPcats(t: seq<Category>) returns (results: seq<(string, string)>)
    ensures |results| == |OrderedChildren(t, None)|
    ensures forall i :: 0 <= i < |results| ==>
      results[i] == (OrderedChildren(t, None)[i].name, OrderedChildren(t, None)[i].slug)
  {
    var roots := OrderedChildren(t, None);
    results := [];
    var i := 0;
    while i < |roots|
      invariant 0 <= i <= |roots|
      invariant |results| == i
      invariant forall k :: 0 <= k < i ==> results[k] == (roots[k].name, roots[k].slug)
    {
      results := results + [(roots[i].name, roots[i].slug)];
      i := i + 1;
    }
  }

  // ---------------------------------------------------------------------
  // full_name
  // ---------------------------------------------------------------------

  /** The row with id `id`, if any (the `parent` relationship). */
  function Find(t: seq<Category>, id: nat): (r: Option<Category>)
    ensures r.Some? ==> r.value in t && r.value.id == id
    ensures r.None? ==> forall c :: c in t ==> c.id != id
  {
    if t == [] then None else if t[0].id == id then Some(t[0]) else Find(t[1..], id)
  }

  function Parent(t: seq<Category>, c: Category): Option<Category>
  {
    if c.parentId.Some? then Find(t, c.parentId.value) else None
  }

  /** `full_name()`: the parent's full name, `" > "`, then the own name. */
  function FullName(t: seq<Category>, c: Category, fuel: nat): string
    decreases fuel
  {
    if fuel > 0 && Parent(t, c).Some? then FullName(t, Parent(t, c).value, fuel - 1) + " > " + c.name
    else c.name
  }

  /** The chain of categories from the topmost ancestor down to `c`. */
  function Ancestry(t: seq<Category>, c: Category, fuel: nat): (r: seq<Category>)
    ensures |r| >= 1 && r[|r| - 1] == c
    ensures forall i :: 0 <= i < |r| - 1 ==> r[i] in t && Some(r[i].id) == r[i + 1].parentId
    ensures |r| <= fuel ==> Parent(t, r[0]).None?
    decreases fuel
  {
    if fuel > 0 && Parent(t, c).Some? then Ancestry(t, Parent(t, c).value, fuel - 1) + [c]
    else [c]
  }

  function Names(cs: seq<Category>): (r: seq<string>)
    ensures |r| == |cs| && forall i :: 0 <= i < |cs| ==> r[i] == cs[i].name
  {
    seq(|cs|, i requires 0 <= i < |cs| => cs[i].name)
  }

  lemma {:induction false} JoinSnoc(parts: seq<string>, x: string, sep: string)
    requires parts != []
    ensures Join(parts + [x], sep) == Join(parts, sep) + sep + x
    decreases |parts|
  {
    if |parts| > 1 {
      assert (parts + [x])[1..] == parts[1..] + [x];
      JoinSnoc(parts[1..], x, sep);
    }
  }

  /** The full name is the ancestor chain's names joined by `" > "`. */
  lemma {:induction false} FullNameIsChain(t: seq<Category>, c: Category, fuel: nat)
    ensures FullName(t, c, fuel) == Join(Names(Ancestry(t, c, fuel)), " > ")
    decreases fuel
  {
    if fuel > 0 && Parent(t, c).Some? {
      var up := Ancestry(t, Parent(t, c).value, fuel - 1);
      FullNameIsChain(t, Parent(t, c).value, fuel - 1);
      assert Names(up + [c]) == Names(up) + [c.name];
      JoinSnoc(Names(up), c.name, " > ");
    }
  }

  // ---------------------------------------------------------------------
  // Subtree id lists
  // ---------------------------------------------------------------------

  /** The children a walker visits: `ordered` for `(sort_order, id)` order, else table order. */
  function Kids(t: seq<Category>, p: Option<nat>, ordered: bool): seq<Category>
  {
    if ordered then OrderedChildren(t, p) else ChildRows(t, p)
  }

  lemma {:induction false} KidsMembers(t: seq<Category>, p: Option<nat>, ordered: bool)
    ensures forall c :: c in Kids(t, p, ordered) <==> c in t && c.parentId == p
  {
    OrderedChildrenSpec(t, p);
    ChildRowsMembers(t, p);
  }

  /**
   * `ids = [root]`, then, for each child, the child's own list: the root
   * followed by its descendants in preorder.
   */
  function SubtreeIds(t: seq<Category>, root: nat, fuel: nat, ordered: bool): seq<nat>
    decreases fuel, 0
  {
    [root] + (if fuel == 0 then [] else IdsBelow(t, Kids(t, Some(root), ordered), fuel - 1, ordered))
  }

  function IdsBelow(t: seq<Category>, kids: seq<Category>, fuel: nat, ordered: bool): seq<nat>
    decreases fuel, 1, |kids|
  {
    if kids == [] then [] else SubtreeIds(t, kids[0].id, fuel, ordered) + IdsBelow(t, kids[1..], fuel, ordered)
  }

  /** `x` is `root` or lies at most `n` levels below it. */
  ghost predicate Below(t: seq<Category>, x: nat, root: nat, n: nat)
    decreases n
  {
    x == root || (n > 0 && exists c :: c in t && c.parentId == Some(root) && Below(t, x, c.id, n - 1))
  }

  /** The list starts with the root and holds exactly the ids of its subtree. */
  lemma {:induction false} SubtreeIdsMembers(t: seq<Category>, root: nat, fuel: nat, ordered: bool)
    ensures SubtreeIds(t, root, fuel, ordered)[0] == root
    ensures forall x :: x in SubtreeIds(t, root, fuel, ordered) <==> Below(t, x, root, fuel)
    decreases fuel, 0
  {
    if fuel > 0 {
      var kids := Kids(t, Some(root), ordered);
      KidsMembers(t, Some(root), ordered);
      IdsBelowMembers(t, kids, fuel - 1, ordered);
    }
  }

  lemma {:induction false} IdsBelowMembers(t: seq<Category>, kids: seq<Category>, fuel: nat, ordered: bool)
    ensures forall x :: x in IdsBelow(t, kids, fuel, ordered) <==> exists c :: c in kids && Below(t, x, c.id, fuel)
    decreases fuel, 1, |kids|
  {
    if kids != [] {
      SubtreeIdsMembers(t, kids[0].id, fuel, ordered);
      IdsBelowMembers(t, kids[1..], fuel, ordered);
      forall x | Below(t, x, kids[0].id, fuel) ensures x in IdsBelow(t, kids, fuel, ordered) {
      }
      forall x | x in IdsBelow(t, kids, fuel, ordered) ensures exists c :: c in kids && Below(t, x, c.id, fuel) {
        if x !in SubtreeIds(t, kids[0].id, fuel, ordered) {
          assert x in IdsBelow(t, kids[1..], fuel, ordered);
          var c :| c in kids[1..] && Below(t, x, c.id, fuel);
        }
      }
      forall x, c | c in kids && Below(t, x, c.id, fuel) ensures x in IdsBelow(t, kids, fuel, ordered) {
        if c != kids[0] {
          assert c in kids[1..];
        }
      }
    }
  }

  /** `get_all_subcategories(id)` of the storefront views: the id, then its descendants in table-order preorder. */
  function AllSubcategories(t: seq<Category>, id: nat): (r: seq<nat>)
    ensures r != [] && r[0] == id
    ensures forall x :: x in r <==> Below(t, x, id, |t|)
  {
    SubtreeIdsMembers(t, id, |t|, false);
    SubtreeIds(t, id, |t|, false)
  }
}
