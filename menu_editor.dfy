// The rest of the menu editor in app/admin/modules/menu.py: what the edit
// form is filled with (`load_instance_data`), the nested item tree
// (`build_menu_tree`), deleting a menu module instance (`del_instance`) and
// the automatic items for a category's subcategories
// (`create_subcategories_menu_items`); and the tables the editor changes,
// held in one class.

module MenuEditor {
  import opened Common
  import opened Json
  import opened Sorting
  import opened Tables
  import opened Categories
  import opened Layout
  import opened Registry
  import opened ModuleForms
  import opened MenuData
  import opened MenuSave
  import opened MenuAdmin

  // ---------------------------------------------------------------------
  // load_instance_data

  /** One entry of the form's `items` list: the `menu_items` row merged with its extended row, if it has one. */
  datatype EditorItem = EditorItem(id: nat, title: string, url: string, position: int, parentId: Option<nat>,
                                   itemType: string, targetId: Option<nat>, iconId: Option<nat>, videoId: Option<nat>,
                                   videoFilename: Option<string>, description: Option<string>,
                                   customClass: Option<string>, showInCatalog: bool, openInNewTab: bool,
                                   isFeatured: bool, sortOrder: int)

  /** The menu settings the form shows. */
  datatype EditorSettings = EditorSettings(title: string, menuStyle: string, maxDepth: int, showIcons: bool,
                                           enableVideos: bool)

  /**
   * What the form is filled with: the fixed defaults of a new menu (no
   * instance id, or an instance without a menu instance), or the stored
   * settings and items; `moduleInstanceId` is None when the module instance
   * itself is gone.
   */
  datatype EditorData =
    | NewMenu
    | Existing(moduleInstanceId: Option<nat>, settings: EditorSettings, isMain: bool, items: seq<EditorItem>)

  /** The settings of the new-menu defaults; its item list is empty. */
  const NewMenuSettings: EditorSettings := EditorSettings("Новое меню", "horizontal", 3, false, false)

  /** The title shown for a stored menu instance whose title is empty. */
  const UntitledMenu := "Меню сайта"

  /** `MenuItemExtended.query.filter_by(menu_instance_id=inst, menu_item_id=itemId).first()`. */
  function FirstExt(exts: seq<Row<ItemExt>>, inst: nat, itemId: nat): (r: Option<Row<ItemExt>>)
    ensures r.Some? ==> r.value in exts && r.value.owner == inst && r.value.data.itemId == itemId
    ensures r.None? <==> forall x :: x in exts ==> !(x.owner == inst && x.data.itemId == itemId)
  {
    if exts == [] then None
    else if exts[0].owner == inst && exts[0].data.itemId == itemId then Some(exts[0])
    else FirstExt(exts[1..], inst, itemId)
  }

  /** The file name of the item's video, when it has an extended row naming an existing image. */
  function VideoName(images: seq<Image>, ext: Option<Row<ItemExt>>): (r: Option<string>)
    ensures r.Some? <==> ext.Some? && TruthyId(ext.value.data.videoId) && ImageById(images, ext.value.data.videoId.value).Some?
  {
    if ext.Some? && TruthyId(ext.value.data.videoId) then
      match ImageById(images, ext.value.data.videoId.value)
      case Some(img) => Some(img.filename)
      case None => None
    else None
  }

  /** The entry of one base item: its own columns, and the extended row's or the defaults for the rest. */
  function EditorItemOf(images: seq<Image>, exts: seq<Row<ItemExt>>, inst: nat, base: Row<MenuItem>): (r: EditorItem)
  {
    var ext := FirstExt(exts, inst, base.id);
    var b := base.data;
    match ext
    case None =>
      EditorItem(base.id, b.title, b.url, b.position, b.parentId, "custom", None, None, None, None,
                 Some(""), Some(""), false, false, false, b.position)
    case Some(e) =>
      EditorItem(base.id, b.title, b.url, b.position, b.parentId, e.data.itemType, e.data.targetId,
                 e.data.iconId, e.data.videoId, VideoName(images, ext), e.data.description, e.data.customClass,
                 e.data.showInCatalog, e.data.openInNewTab, e.data.isFeatured, e.data.sortOrder)
  }

  /** `ORDER BY position`; rows of equal position stay in table order. */
  function ItemPosition(x: Row<MenuItem>): (int, int)
  {
    (x.data.position, 0)
  }

  /** `MenuItem.query.filter_by(menu_id=menuId).order_by(MenuItem.position)`. */
  function MenuOrder(items: seq<Row<MenuItem>>, menuId: nat): (r: seq<Row<MenuItem>>)
  {
    SortBy(Owned(items, menuId), ItemPosition)
  }

  /** The menu's items by position: sorted, and exactly the items of that menu. */
  lemma {:induction false} MenuOrderSpec(items: seq<Row<MenuItem>>, menuId: nat)
    ensures SortedByKey(MenuOrder(items, menuId), ItemPosition)
    ensures multiset(MenuOrder(items, menuId)) == multiset(Owned(items, menuId))
  {
    SortBySpec(Owned(items, menuId), ItemPosition);
  }

  /** The form's item list for menu instance `m`: one entry per item of its menu, by position. */
  function EditorItems(db: MenuDb, images: seq<Image>, m: Row<MenuInstance>): (r: seq<EditorItem>)
  {
    if m.data.menuId == 0 then []
    else
      var base := MenuOrder(db.items, m.data.menuId);
      seq(|base|, k requires 0 <= k < |base| => EditorItemOf(images, db.exts, m.id, base[k]))
  }

  /** `load_instance_data(instance_id)`, contents options aside. */
  function EditorDataOf(db: MenuDb, images: seq<Image>, instanceId: nat): (r: EditorData)
  {
    if instanceId == 0 then NewMenu
    else
      match FirstOwned(db.menuInstances, instanceId)
      case None => NewMenu
      case Some(m) =>
        Existing(if FindInstance(db.instances, instanceId).Some? then Some(instanceId) else None,
                 EditorSettings(if m.data.title == "" then UntitledMenu else m.data.title, m.data.menuStyle,
                                m.data.maxDepth, m.data.showIcons, m.data.enableVideos),
                 m.data.isMain, EditorItems(db, images, m))
  }

  /** The loop of `load_instance_data` over the menu's items, in position order. */
  method LoadItems(base: seq<Row<MenuItem>>, exts: seq<Row<ItemExt>>, images: seq<Image>, inst: nat)
    returns (items: seq<EditorItem>)
    ensures |items| == |base|
    ensures forall k :: 0 <= k < |base| ==> items[k] == EditorItemOf(images, exts, inst, base[k])
  {
    items := [];
    var i := 0;
    while i < |base|
      invariant i <= |base| && |items| == i
      invariant forall k :: 0 <= k < i ==> items[k] == EditorItemOf(images, exts, inst, base[k])
    {
      var ext := FirstExt(exts, inst, base[i].id);
      var video: Option<string> := None;
      if ext.Some? && TruthyId(ext.value.data.videoId) {
        var img := ImageById(images, ext.value.data.videoId.value);
        if img.Some? {
          video := Some(img.value.filename);
        }
      }
      var b := base[i].data;
      var entry;
      if ext.None? {
        entry := EditorItem(base[i].id, b.title, b.url, b.position, b.parentId, "custom", None, None, None, None,
                            Some(""), Some(""), false, false, false, b.position);
      } else {
        var e := ext.value.data;
        entry := EditorItem(base[i].id, b.title, b.url, b.position, b.parentId, e.itemType, e.targetId,
                            e.iconId, e.videoId, video, e.description, e.customClass,
                            e.showInCatalog, e.openInNewTab, e.isFeatured, e.sortOrder);
      }
      items := items + [entry];
      i := i + 1;
    }
  }

  /** The entries are in ascending position order. */
  predicate ByPosition(r: seq<EditorItem>)
  {
    forall j, k :: 0 <= j < k < |r| ==> r[j].position <= r[k].position
  }

  /** Every item of the menu has an entry with its id, title and parent. */
  predicate Covers(r: seq<EditorItem>, items: seq<Row<MenuItem>>, menuId: nat)
  {
    forall x :: x in items && x.owner == menuId ==>
      exists k :: 0 <= k < |r| && r[k].id == x.id && r[k].title == x.data.title && r[k].parentId == x.data.parentId
  }

  /** Each entry's type, target and order come from its extended row in menu instance `inst`, or are the defaults. */
  predicate ExtsMerged(r: seq<EditorItem>, exts: seq<Row<ItemExt>>, inst: nat)
  {
    forall k :: 0 <= k < |r| ==>
      var ext := FirstExt(exts, inst, r[k].id);
      (ext.None? ==> r[k].itemType == "custom" && r[k].targetId.None? && r[k].sortOrder == r[k].position)
      && (ext.Some? ==> r[k].itemType == ext.value.data.itemType && r[k].targetId == ext.value.data.targetId
                        && r[k].sortOrder == ext.value.data.sortOrder)
  }

  /** One entry: the base row's own columns, and its extended row's type, target and order, or the defaults. */
  lemma {:induction false} EditorItemOfSpec(images: seq<Image>, exts: seq<Row<ItemExt>>, inst: nat, base: Row<MenuItem>)
    ensures var r := EditorItemOf(images, exts, inst, base);
      r.id == base.id && r.title == base.data.title && r.parentId == base.data.parentId
      && r.position == base.data.position && r.url == base.data.url
      && ExtsMerged([r], exts, inst)
  {
  }

  /**
   * The item list of a menu instance bound to a menu: one entry per item
   * of the menu, ordered by position, each carrying its own columns and
   * those of its extended row in this menu instance, or the defaults.
   */
  lemma {:induction false} EditorItemsSpec(db: MenuDb, images: seq<Image>, m: Row<MenuInstance>)
    requires m.data.menuId != 0
    ensures var r := EditorItems(db, images, m);
      |r| == |Owned(db.items, m.data.menuId)| && ByPosition(r)
      && Covers(r, db.items, m.data.menuId) && ExtsMerged(r, db.exts, m.id)
  {
    var r := EditorItems(db, images, m);
    var base := MenuOrder(db.items, m.data.menuId);
    MenuOrderSpec(db.items, m.data.menuId);
    forall k | 0 <= k < |r|
      ensures r[k] == EditorItemOf(images, db.exts, m.id, base[k])
      ensures r[k].id == base[k].id && r[k].title == base[k].data.title && r[k].parentId == base[k].data.parentId
      ensures r[k].position == base[k].data.position
      ensures ExtsMerged([r[k]], db.exts, m.id)
    {
      EditorItemOfSpec(images, db.exts, m.id, base[k]);
    }
    forall j, k | 0 <= j < k < |r|
      ensures r[j].position <= r[k].position
    {
      assert KeyLe(ItemPosition(base[j]), ItemPosition(base[k]));
    }
    forall x | x in db.items && x.owner == m.data.menuId
      ensures exists k :: 0 <= k < |r| && r[k].id == x.id && r[k].title == x.data.title && r[k].parentId == x.data.parentId
    {
      var k := OrderIndex(db.items, m.data.menuId, x);
      assert r[k].id == x.id;
    }
    forall k | 0 <= k < |r|
      ensures var ext := FirstExt(db.exts, m.id, r[k].id);
        (ext.None? ==> r[k].itemType == "custom" && r[k].targetId.None? && r[k].sortOrder == r[k].position)
        && (ext.Some? ==> r[k].itemType == ext.value.data.itemType && r[k].targetId == ext.value.data.targetId
                          && r[k].sortOrder == ext.value.data.sortOrder)
    {
      assert [r[k]][0] == r[k];
    }
  }

  /** Where an item of the menu sits in the position order. */
  lemma {:induction false} OrderIndex(items: seq<Row<MenuItem>>, menuId: nat, x: Row<MenuItem>) returns (k: nat)
    requires x in items && x.owner == menuId
    ensures k < |MenuOrder(items, menuId)| && MenuOrder(items, menuId)[k] == x
  {
    var base := MenuOrder(items, menuId);
    MenuOrderSpec(items, menuId);
    assert x in multiset(Owned(items, menuId));
    assert x in multiset(base);
    k :| 0 <= k < |base| && base[k] == x;
  }

  /**
   * What the form is filled with: the defaults exactly when there is no
   * instance id or no menu instance for it; otherwise the first menu
   * instance's settings (an empty title shown as the default one) and its
   * menu's items, none for a menu instance without a menu.
   */
  lemma {:induction false} EditorDataSpec(db: MenuDb, images: seq<Image>, instanceId: nat)
    ensures var r := EditorDataOf(db, images, instanceId);
      (r.NewMenu? <==> instanceId == 0 || FirstOwned(db.menuInstances, instanceId).None?)
      && (r.Existing? ==>
            var m := FirstOwned(db.menuInstances, instanceId).value;
            (r.moduleInstanceId.Some? <==> FindInstance(db.instances, instanceId).Some?)
            && r.settings.title != "" && (m.data.title != "" ==> r.settings.title == m.data.title)
            && r.isMain == m.data.isMain && r.settings.maxDepth == m.data.maxDepth
            && r.settings.menuStyle == m.data.menuStyle
            && (m.data.menuId == 0 ==> r.items == [])
            && (m.data.menuId != 0 ==>
                  |r.items| == |Owned(db.items, m.data.menuId)| && ByPosition(r.items)
                  && Covers(r.items, db.items, m.data.menuId) && ExtsMerged(r.items, db.exts, m.id)))
  {
    var r := EditorDataOf(db, images, instanceId);
    if r.Existing? {
      var m := FirstOwned(db.menuInstances, instanceId).value;
      if m.data.menuId != 0 {
        EditorItemsSpec(db, images, m);
      }
    }
  }

  // ---------------------------------------------------------------------
  // build_menu_tree

  /**
   * A node of the editor's tree: the entry and its children. An empty
   * `children` stands for the entry without a `children` key, which the
   * source attaches only when there are children.
   */
  datatype TreeNode = TreeNode(item: EditorItem, children: seq<TreeNode>)

  /** Every parent id is below the id of its child, as the save numbers them: the parent links have no cycle. */
  predicate ParentsFirst(items: seq<EditorItem>)
  {
    forall x :: x in items && x.parentId.Some? ==> x.parentId.value < x.id
  }

  function MaxItemId(items: seq<EditorItem>): (m: nat)
    ensures forall x :: x in items ==> x.id <= m
  {
    if items == [] then 0
    else
      var m := MaxItemId(items[..|items| - 1]);
      assert forall x :: x in items ==> x in items[..|items| - 1] || x == items[|items| - 1];
      if items[|items| - 1].id > m then items[|items| - 1].id else m
  }

  /** The parent argument as a number below every child's id: -1 for the top level. */
  function Level(parent: Option<nat>): int
  {
    if parent.None? then -1 else parent.value
  }

  /** The entries whose parent is `parent`, in input order. */
  function Children(items: seq<EditorItem>, parent: Option<nat>): (r: seq<EditorItem>)
  {
    if items == [] then []
    else Children(items[..|items| - 1], parent) + (if items[|items| - 1].parentId == parent then [items[|items| - 1]] else [])
  }

  /** The children are exactly the entries whose parent is `parent`. */
  lemma {:induction false} ChildrenMembers(items: seq<EditorItem>, parent: Option<nat>)
    ensures forall x :: x in Children(items, parent) <==> x in items && x.parentId == parent
  {
    if items != [] {
      var init := items[..|items| - 1];
      ChildrenMembers(init, parent);
      assert forall x :: x in items <==> x in init || x == items[|items| - 1];
    }
  }

  /** `build_menu_tree(items, parent)`: the children of `parent`, in input order, each with its own subtree. */
  function MenuTree(items: seq<EditorItem>, parent: Option<nat>): seq<TreeNode>
    requires ParentsFirst(items)
    decreases MaxItemId(items) - Level(parent), 1
  {
    ChildrenMembers(items, parent);
    Grow(items, parent, Children(items, parent))
  }

  function Grow(items: seq<EditorItem>, parent: Option<nat>, cs: seq<EditorItem>): (r: seq<TreeNode>)
    requires ParentsFirst(items)
    requires forall c :: c in cs ==> c in items && c.parentId == parent
    ensures |r| == |cs|
    decreases MaxItemId(items) - Level(parent), 0, |cs|
  {
    if cs == [] then []
    else
      var init := cs[..|cs| - 1];
      var c := cs[|cs| - 1];
      assert forall x :: x in init ==> x in cs;
      Grow(items, parent, init) + [TreeNode(c, MenuTree(items, Some(c.id)))]
  }

  /** The loop of `build_menu_tree`: each entry whose parent matches is appended with its subtree. */
  method BuildMenuTree(items: seq<EditorItem>, parent: Option<nat>) returns (tree: seq<TreeNode>)
    requires ParentsFirst(items)
    ensures tree == MenuTree(items, parent)
    decreases MaxItemId(items) - Level(parent), 1
  {
    tree := [];
    var i := 0;
    while i < |items|
      invariant i <= |items|
      invariant forall c :: c in Children(items[..i], parent) ==> c in items && c.parentId == parent
      invariant tree == Grow(items, parent, Children(items[..i], parent))
    {
      tree := AddTreeEntry(items, parent, i, tree);
      i := i + 1;
    }
    assert items[..i] == items;
  }

  /** One pass of the loop above: entry `i` becomes a node, with its subtree, when its parent matches. */
  method AddTreeEntry(items: seq<EditorItem>, parent: Option<nat>, i: nat, tree: seq<TreeNode>) returns (next: seq<TreeNode>)
    requires ParentsFirst(items) && i < |items|
    requires forall c :: c in Children(items[..i], parent) ==> c in items && c.parentId == parent
    requires tree == Grow(items, parent, Children(items[..i], parent))
    ensures forall c :: c in Children(items[..i + 1], parent) ==> c in items && c.parentId == parent
    ensures next == Grow(items, parent, Children(items[..i + 1], parent))
    decreases MaxItemId(items) - Level(parent), 0
  {
    ChildrenMembers(items[..i + 1], parent);
    TreeStep(items, parent, i);
    next := tree;
    if items[i].parentId == parent {
      assert Level(parent) < items[i].id <= MaxItemId(items) by {
        assert items[i] in items;
      }
      var children := BuildMenuTree(items, Some(items[i].id));
      next := tree + [TreeNode(items[i], children)];
    }
  }

  /** One more entry read: the tree grows by that entry's node when its parent matches. */
  lemma {:induction false} TreeStep(items: seq<EditorItem>, parent: Option<nat>, i: nat)
    requires ParentsFirst(items) && i < |items|
    requires forall c :: c in Children(items[..i], parent) ==> c in items && c.parentId == parent
    requires forall c :: c in Children(items[..i + 1], parent) ==> c in items && c.parentId == parent
    ensures Grow(items, parent, Children(items[..i + 1], parent))
            == Grow(items, parent, Children(items[..i], parent))
               + (if items[i].parentId == parent then [TreeNode(items[i], MenuTree(items, Some(items[i].id)))] else [])
  {
    ChildrenSnoc(items, parent, i);
    var cs := Children(items[..i], parent);
    if items[i].parentId == parent {
      GrowSnoc(items, parent, cs, items[i]);
    } else {
      assert cs + [] == cs;
    }
  }

  lemma {:induction false} ChildrenSnoc(items: seq<EditorItem>, parent: Option<nat>, i: nat)
    requires i < |items|
    ensures Children(items[..i + 1], parent)
            == Children(items[..i], parent) + (if items[i].parentId == parent then [items[i]] else [])
  {
    assert items[..i + 1][..i] == items[..i];
  }

  lemma {:induction false} GrowSnoc(items: seq<EditorItem>, parent: Option<nat>, cs: seq<EditorItem>, c: EditorItem)
    requires ParentsFirst(items)
    requires forall x :: x in cs + [c] ==> x in items && x.parentId == parent
    ensures Grow(items, parent, cs + [c]) == Grow(items, parent, cs) + [TreeNode(c, MenuTree(items, Some(c.id)))]
  {
    assert (cs + [c])[..|cs|] == cs;
  }

  /**
   * Every node of `nodes` lies in `items` and hangs under `parent`, and
   * every entry of `items` whose parent is `parent` has exactly one node,
   * in input order; the same holds below each node, with the node as the
   * parent.
   */
  predicate Linked(items: seq<EditorItem>, parent: Option<nat>, nodes: seq<TreeNode>)
    decreases nodes
  {
    |nodes| == |Children(items, parent)|
    && (forall k :: 0 <= k < |nodes| ==> nodes[k].item == Children(items, parent)[k])
    && (forall k :: 0 <= k < |nodes| ==> Linked(items, Some(nodes[k].item.id), nodes[k].children))
  }

  /**
   * The tree is linked all the way down: the top level is exactly the
   * entries under `parent`, in input order, and each node's children are
   * exactly the entries under it.
   */
  lemma {:induction false} MenuTreeLinked(items: seq<EditorItem>, parent: Option<nat>)
    requires ParentsFirst(items)
    ensures Linked(items, parent, MenuTree(items, parent))
    decreases MaxItemId(items) - Level(parent), 1
  {
    ChildrenMembers(items, parent);
    GrowLinked(items, parent, Children(items, parent));
  }

  lemma {:induction false} GrowLinked(items: seq<EditorItem>, parent: Option<nat>, cs: seq<EditorItem>)
    requires ParentsFirst(items)
    requires forall c :: c in cs ==> c in items && c.parentId == parent
    ensures forall k :: 0 <= k < |cs| ==> Grow(items, parent, cs)[k].item == cs[k]
    ensures forall k :: 0 <= k < |cs| ==>
      Linked(items, Some(cs[k].id), Grow(items, parent, cs)[k].children)
    decreases MaxItemId(items) - Level(parent), 0, |cs|
  {
    if cs != [] {
      var init := cs[..|cs| - 1];
      var c := cs[|cs| - 1];
      assert cs == init + [c];
      GrowLinked(items, parent, init);
      MenuTreeLinked(items, Some(c.id));
      GrowSnoc(items, parent, init, c);
      var r := Grow(items, parent, cs);
      var r0 := Grow(items, parent, init);
      assert r == r0 + [TreeNode(c, MenuTree(items, Some(c.id)))];
      forall k | 0 <= k < |cs|
        ensures r[k].item == cs[k] && Linked(items, Some(cs[k].id), r[k].children)
      {
        if k < |init| {
          assert r[k] == r0[k];
        }
      }
    }
  }

  // ---------------------------------------------------------------------
  // del_instance

  /**
   * How `del_instance` ends: the module instance is missing (an error
   * message), the deletion raised (the caller falls back to the generic
   * delete), or everything was deleted and committed.
   */
  datatype DeleteOutcome = InstanceMissing | DeleteRaised | InstanceDeleted

  const InstanceMissingFlash: Flash := Flash("danger", "Ошибка: Экземпляр модуля не найден!")
  const MenuDeletedFlash: Flash := Flash("success", "Экземпляр меню успешно удалён.")

  /** The message flashed for each outcome that answers the request itself. */
  function DeleteFlash(out: DeleteOutcome): Option<Flash>
  {
    match out
    case InstanceMissing => Some(InstanceMissingFlash)
    case DeleteRaised => None
    case InstanceDeleted => Some(MenuDeletedFlash)
  }

  /** `Menu.query.filter_by(id=id).delete()`. */
  function DropMenu(menus: seq<Menu>, id: nat): (r: seq<Menu>)
    ensures forall m :: m in r <==> m in menus && m.id != id
  {
    if menus == [] then []
    else (if menus[0].id == id then [] else [menus[0]]) + DropMenu(menus[1..], id)
  }

  /**
   * As written. The extended rows are deleted by `filter_by(menu_id=...)`,
   * a column `menu_items_extended` does not have, so the query raises
   * before anything is deleted whenever the instance has a menu instance;
   * only an instance without one is deleted.
   */
  function DeleteAsWritten(db: MenuDb, instanceId: nat): (DeleteOutcome, MenuDb)
  {
    if FindInstance(db.instances, instanceId).None? then (InstanceMissing, db)
    else if FirstOwned(db.menuInstances, instanceId).Some? then (DeleteRaised, db)
    else (InstanceDeleted, db.(instances := DropInstance(db.instances, instanceId)))
  }

  /**
   * The deletes of the corrected version that a foreign key refuses: an
   * item of the menu is still referenced by another menu instance's
   * extended row or is the parent of another menu's item, or another menu
   * instance shows the same menu or belongs to the same module instance.
   */
  predicate DeleteConflict(db: MenuDb, m: Row<MenuInstance>)
  {
    Blocked(db.items, Disown(db.exts, m.id), m.data.menuId)
    || exists x :: x in db.menuInstances && x.id != m.id && (x.data.menuId == m.data.menuId || x.owner == m.owner)
  }

  /**
   * Corrected: the menu instance's extended rows, then its menu's items
   * (parents cleared first, as the save does), the menu, the menu instance
   * and the module instance are deleted in one transaction, which a
   * foreign-key conflict rolls back.
   */
  function DeleteCorrected(db: MenuDb, instanceId: nat): (DeleteOutcome, MenuDb)
  {
    if FindInstance(db.instances, instanceId).None? then (InstanceMissing, db)
    else
      match FirstOwned(db.menuInstances, instanceId)
      case None => (InstanceDeleted, db.(instances := DropInstance(db.instances, instanceId)))
      case Some(m) =>
        if DeleteConflict(db, m) then (DeleteRaised, db)
        else
          (InstanceDeleted,
           MenuDb(DropInstance(db.instances, instanceId), DropMenu(db.menus, m.data.menuId),
                  DropRow(db.menuInstances, m.id), Disown(db.items, m.data.menuId), Disown(db.exts, m.id),
                  db.lastId))
  }

  /**
   * As written, a menu module instance that has a menu instance can never
   * be deleted here: the deletion raises and leaves every table as it was.
   */
  lemma {:induction false} DeleteStuck(db: MenuDb, instanceId: nat)
    requires FindInstance(db.instances, instanceId).Some? && FirstOwned(db.menuInstances, instanceId).Some?
    ensures DeleteAsWritten(db, instanceId) == (DeleteRaised, db)
    ensures DeleteCorrected(db, instanceId).0 == InstanceDeleted <==> !DeleteConflict(db, FirstOwned(db.menuInstances, instanceId).value)
  {
  }

  /** On the example site the as-written delete of the menu's module instance raises; the corrected one deletes it. */
  lemma {:induction false} DeleteExample()
    ensures DeleteAsWritten(SharedSite(), 1) == (DeleteRaised, SharedSite())
    ensures DeleteCorrected(SharedSite(), 1).0 == InstanceDeleted
  {
    var db := SharedSite();
    var m := db.menuInstances[0];
    assert FirstOwned(db.menuInstances, 1) == Some(m);
    assert Disown(db.exts, 3) == [];
    assert Disown(db.exts, m.id) == [];
    assert !Blocked(db.items, [], 2);
    assert !DeleteConflict(db, m);
  }

  /**
   * Corrected: a missing instance changes nothing; a conflict changes
   * nothing; otherwise nothing of the instance is left (no module
   * instance, no menu instance, no item of its menu, no extended row of
   * its menu instance, not the menu) and every other row is kept. The
   * tables stay valid.
   */
  lemma {:induction false} DeleteCorrectedSpec(db: MenuDb, instanceId: nat)
    requires Valid(db)
    ensures var (out, db2) := DeleteCorrected(db, instanceId);
      (out == InstanceMissing <==> FindInstance(db.instances, instanceId).None?)
      && (out != InstanceDeleted ==> db2 == db)
      && (out == DeleteRaised <==>
            FindInstance(db.instances, instanceId).Some? && FirstOwned(db.menuInstances, instanceId).Some?
            && DeleteConflict(db, FirstOwned(db.menuInstances, instanceId).value))
      && (out == InstanceDeleted ==>
            Valid(db2)
            && FindInstance(db2.instances, instanceId).None? && FirstOwned(db2.menuInstances, instanceId).None?
            && (forall i :: i in db.instances && i.id != instanceId ==> i in db2.instances))
  {
    var (out, db2) := DeleteCorrected(db, instanceId);
    if out == InstanceDeleted {
      var m := FirstOwned(db.menuInstances, instanceId);
      if m.Some? {
        DeletedRows(db, m.value);
      }
    }
  }

  /** After a committed corrected delete, the menu instance's rows are all gone and the rest is kept. */
  lemma {:induction false} DeletedRows(db: MenuDb, m: Row<MenuInstance>)
    requires Valid(db) && m in db.menuInstances && !DeleteConflict(db, m)
    ensures var db2 := MenuDb(DropInstance(db.instances, m.owner), DropMenu(db.menus, m.data.menuId),
                              DropRow(db.menuInstances, m.id), Disown(db.items, m.data.menuId), Disown(db.exts, m.id),
                              db.lastId);
      Valid(db2) && FirstOwned(db2.menuInstances, m.owner).None?
      && (forall x :: x in db2.items <==> x in db.items && x.owner != m.data.menuId)
      && (forall x :: x in db2.exts <==> x in db.exts && x.owner != m.id)
      && (forall x :: x in db2.menuInstances <==> x in db.menuInstances && x.id != m.id)
      && (forall x :: x in db2.menus <==> x in db.menus && x.id != m.data.menuId)
  {
    var rows := DropRow(db.menuInstances, m.id);
    DropRowKeeps(db.menuInstances, m.id);
  }

  /** Deleting a row keeps the ids of the others distinct and at most one of them main. */
  lemma {:induction false} DropRowKeeps(rows: seq<Row<MenuInstance>>, id: nat)
    requires IdsUnique(rows) && AtMostOneMain(rows)
    ensures IdsUnique(DropRow(rows, id)) && AtMostOneMain(DropRow(rows, id))
  {
    if rows != [] {
      DropRowKeeps(rows[1..], id);
      var rest := DropRow(rows[1..], id);
      var r := DropRow(rows, id);
      if rows[0].id != id {
        assert r == [rows[0]] + rest;
        forall x | x in rest
          ensures x.id != rows[0].id && !(x.data.isMain && rows[0].data.isMain)
        {
          var i :| 0 <= i < |rows[1..]| && rows[1..][i] == x;
          assert rows[i + 1] == x;
        }
        ConsKeeps(rows[0], rest);
      }
    }
  }

  /** A row put in front of rows it clashes with in neither id nor main flag keeps both invariants. */
  lemma {:induction false} ConsKeeps(head: Row<MenuInstance>, rest: seq<Row<MenuInstance>>)
    requires IdsUnique(rest) && AtMostOneMain(rest)
    requires forall x :: x in rest ==> x.id != head.id && !(x.data.isMain && head.data.isMain)
    ensures IdsUnique([head] + rest) && AtMostOneMain([head] + rest)
  {
    var r := [head] + rest;
    assert forall k :: 0 < k < |r| ==> r[k] == rest[k - 1] && r[k] in rest;
  }

  // ---------------------------------------------------------------------
  // create_subcategories_menu_items

  /** One entry of the returned list; every such item has the type `'category'`. */
  datatype CreatedItem = CreatedItem(id: nat, title: string, url: string, parentId: Option<nat>, position: int,
                                     targetId: nat)

  /** `max(position)` over the menu's items `or 0`: no items, or a largest position of 0, give 0. */
  function MaxPosition(items: seq<Row<MenuItem>>, menuId: nat): int
  {
    if items == [] then 0
    else
      var rest := MaxPosition(items[1..], menuId);
      if items[0].owner != menuId then rest
      else if (forall x :: x in items[1..] ==> x.owner != menuId) || items[0].data.position > rest then items[0].data.position
      else rest
  }

  /** The result bounds every position of the menu's items, is 0 when the menu has none, and is otherwise one of them or 0. */
  lemma {:induction false} MaxPositionSpec(items: seq<Row<MenuItem>>, menuId: nat)
    ensures var r := MaxPosition(items, menuId);
      (forall x :: x in items && x.owner == menuId ==> x.data.position <= r)
      && ((forall x :: x in items ==> x.owner != menuId) ==> r == 0)
      && (r == 0 || exists x :: x in items && x.owner == menuId && x.data.position == r)
  {
    if items != [] {
      MaxPositionSpec(items[1..], menuId);
      assert forall x :: x in items[1..] ==> x in items;
      assert forall x :: x in items ==> x == items[0] || x in items[1..];
    }
  }

  /**
   * The parent the new items hang under: the item of this menu instance's
   * first `'category'` entry that targets the category; when there is no
   * such entry, the item numbered by `parentRef`, if it is all digits and
   * exists; otherwise none.
   */
  function SubcategoryParent(db: MenuDb, inst: nat, categoryId: nat, parentRef: Option<string>): Option<nat>
  {
    if categoryId == 0 then None
    else
      match CategoryEntry(db.exts, inst, categoryId)
      case Some(e) =>
        (match RowById(db.items, e.data.itemId) case Some(x) => Some(x.id) case None => None)
      case None =>
        match DigitId(parentRef)
        case Some(v) => (match RowById(db.items, v) case Some(x) => Some(x.id) case None => None)
        case None => None
  }

  /** The parent found is an existing item: the one the category's entry points at, or the one `parentRef` numbers. */
  lemma {:induction false} SubcategoryParentSpec(db: MenuDb, inst: nat, categoryId: nat, parentRef: Option<string>)
    ensures var r := SubcategoryParent(db, inst, categoryId, parentRef);
      r.Some? ==> exists x :: x in db.items && x.id == r.value
  {
  }

  /** `filter_by(menu_instance_id=inst, target_id=categoryId, item_type='category').first()`. */
  function CategoryEntry(exts: seq<Row<ItemExt>>, inst: nat, categoryId: nat): (r: Option<Row<ItemExt>>)
    ensures r.Some? ==> r.value in exts && r.value.owner == inst && r.value.data.targetId == Some(categoryId)
                        && r.value.data.itemType == "category"
    ensures r.None? <==> forall x :: x in exts ==>
      !(x.owner == inst && x.data.targetId == Some(categoryId) && x.data.itemType == "category")
  {
    if exts == [] then None
    else if exts[0].owner == inst && exts[0].data.targetId == Some(categoryId) && exts[0].data.itemType == "category"
    then Some(exts[0])
    else CategoryEntry(exts[1..], inst, categoryId)
  }

  /** What pass `k` of the loop writes for subcategory `c`: the item, its extended row and the returned entry. */
  function SubItem(c: Category, k: nat, menuId: nat, parent: Option<nat>, maxPos: int, last: nat): Row<MenuItem>
  {
    Row(last + 2 * k + 1, menuId, MenuItem(c.name, "/category/" + c.slug, parent, maxPos + k + 1))
  }

  function SubExt(c: Category, k: nat, inst: nat, maxPos: int, last: nat): Row<ItemExt>
  {
    Row(last + 2 * k + 2, inst,
        ItemExt(last + 2 * k + 1, "category", Some(c.id), None, None, true, None, None, false, false, maxPos + k + 1))
  }

  function SubCreated(c: Category, k: nat, parent: Option<nat>, maxPos: int, last: nat): CreatedItem
  {
    CreatedItem(last + 2 * k + 1, c.name, "/category/" + c.slug, parent, maxPos + k + 1, c.id)
  }

  /** The base items, extended rows and returned entries the loop writes for `subs`, in order. */
  function NewItems(subs: seq<Category>, menuId: nat, parent: Option<nat>, maxPos: int, last: nat): (r: seq<Row<MenuItem>>)
    ensures |r| == |subs|
  {
    seq(|subs|, k requires 0 <= k < |subs| => SubItem(subs[k], k, menuId, parent, maxPos, last))
  }

  function NewExts(subs: seq<Category>, inst: nat, maxPos: int, last: nat): (r: seq<Row<ItemExt>>)
    ensures |r| == |subs|
  {
    seq(|subs|, k requires 0 <= k < |subs| => SubExt(subs[k], k, inst, maxPos, last))
  }

  function NewCreated(subs: seq<Category>, parent: Option<nat>, maxPos: int, last: nat): (r: seq<CreatedItem>)
    ensures |r| == |subs|
  {
    seq(|subs|, k requires 0 <= k < |subs| => SubCreated(subs[k], k, parent, maxPos, last))
  }

  /** `create_subcategories_menu_items(category_id, menu_instance_id, parent_menu_item_id)`: the list returned and the tables after commit. */
  function SubcategoriesSpec(db: MenuDb, cats: seq<Category>, categoryId: nat, iid: nat, parentRef: Option<string>)
    : (seq<CreatedItem>, MenuDb)
  {
    if CategoryById(cats, categoryId).None? then ([], db)
    else
      match FirstOwned(db.menuInstances, iid)
      case None => ([], db)
      case Some(m) =>
        var subs := OrderedChildren(cats, Some(categoryId));
        var maxPos := MaxPosition(db.items, m.data.menuId);
        var parent := SubcategoryParent(db, m.id, categoryId, parentRef);
        (NewCreated(subs, parent, maxPos, db.lastId),
         db.(items := db.items + NewItems(subs, m.data.menuId, parent, maxPos, db.lastId),
             exts := db.exts + NewExts(subs, m.id, maxPos, db.lastId),
             lastId := db.lastId + 2 * |subs|))
  }

  /** The loop of `create_subcategories_menu_items`: one item and one extended row per subcategory, in order. */
  method AddSubcategoryItems(subs: seq<Category>, menuId: nat, inst: nat, parent: Option<nat>, maxPos: int,
                             items0: seq<Row<MenuItem>>, exts0: seq<Row<ItemExt>>, last0: nat)
    returns (created: seq<CreatedItem>, items: seq<Row<MenuItem>>, exts: seq<Row<ItemExt>>, last: nat)
    ensures created == NewCreated(subs, parent, maxPos, last0) && last == last0 + 2 * |subs|
    ensures items == items0 + NewItems(subs, menuId, parent, maxPos, last0)
    ensures exts == exts0 + NewExts(subs, inst, maxPos, last0)
  {
    created, items, exts, last := [], items0, exts0, last0;
    var i := 0;
    while i < |subs|
      invariant i <= |subs| && |created| == i && last == last0 + 2 * i
      invariant |items| == |items0| + i && items[..|items0|] == items0
      invariant |exts| == |exts0| + i && exts[..|exts0|] == exts0
      invariant forall k :: 0 <= k < i ==>
        created[k] == SubCreated(subs[k], k, parent, maxPos, last0)
        && items[|items0| + k] == SubItem(subs[k], k, menuId, parent, maxPos, last0)
        && exts[|exts0| + k] == SubExt(subs[k], k, inst, maxPos, last0)
    {
      var c := subs[i];
      var position := maxPos + i + 1;
      var item := Row(last + 1, menuId, MenuItem(c.name, "/category/" + c.slug, parent, position));
      var ext := Row(last + 2, inst, ItemExt(item.id, "category", Some(c.id), None, None, true, None, None, false, false,
                                             position));
      items := items + [item];
      exts := exts + [ext];
      created := created + [CreatedItem(item.id, c.name, "/category/" + c.slug, parent, position, c.id)];
      last := last + 2;
      i := i + 1;
    }
    assert created == NewCreated(subs, parent, maxPos, last0);
    assert items == items0 + NewItems(subs, menuId, parent, maxPos, last0);
    assert exts == exts0 + NewExts(subs, inst, maxPos, last0);
  }

  /**
   * Nothing is created, and nothing changes, when the category or the menu
   * instance is missing. Otherwise rows are only appended: the existing
   * items and extended rows are kept as they were, no other table changes,
   * one item and one extended row are added per returned entry, and the
   * tables stay valid.
   */
  lemma {:induction false} SubcategoriesAppend(db: MenuDb, cats: seq<Category>, categoryId: nat, iid: nat, parentRef: Option<string>)
    requires Valid(db)
    ensures var (created, db2) := SubcategoriesSpec(db, cats, categoryId, iid, parentRef);
      (CategoryById(cats, categoryId).None? || FirstOwned(db.menuInstances, iid).None? ==> created == [] && db2 == db)
      && |db2.items| == |db.items| + |created| && db2.items[..|db.items|] == db.items
      && |db2.exts| == |db.exts| + |created| && db2.exts[..|db.exts|] == db.exts
      && db2.menuInstances == db.menuInstances && db2.menus == db.menus && db2.instances == db.instances
      && Valid(db2)
  {
    if CategoryById(cats, categoryId).Some? && FirstOwned(db.menuInstances, iid).Some? {
      var m := FirstOwned(db.menuInstances, iid).value;
      var subs := OrderedChildren(cats, Some(categoryId));
      var maxPos := MaxPosition(db.items, m.data.menuId);
      var parent := SubcategoryParent(db, m.id, categoryId, parentRef);
      SubcategoryParentSpec(db, m.id, categoryId, parentRef);
      SubcategoriesValid(db, subs, m, parent, maxPos);
    }
  }

  /**
   * When the category and the menu instance exist, one entry is returned per
   * direct subcategory, in `(sort_order, id)` order; each names the item
   * appended for it in the instance's menu, whose extended row in this
   * instance points back at it; all hang under the same parent, and their
   * positions rise one by one from above every position the menu had.
   */
  lemma {:induction false} SubcategoriesCreated(db: MenuDb, cats: seq<Category>, categoryId: nat, iid: nat, parentRef: Option<string>)
    requires CategoryById(cats, categoryId).Some? && FirstOwned(db.menuInstances, iid).Some?
    ensures var (created, db2) := SubcategoriesSpec(db, cats, categoryId, iid, parentRef);
      var m := FirstOwned(db.menuInstances, iid).value;
      var subs := OrderedChildren(cats, Some(categoryId));
      |created| == |subs| && |db2.items| == |db.items| + |subs| && |db2.exts| == |db.exts| + |subs|
      && (forall k :: 0 <= k < |created| ==>
            created[k].targetId == subs[k].id && created[k].title == subs[k].name
            && created[k].url == "/category/" + subs[k].slug
            && db2.items[|db.items| + k].id == created[k].id
            && db2.items[|db.items| + k].owner == m.data.menuId
            && db2.items[|db.items| + k].data.position == created[k].position
            && db2.exts[|db.exts| + k].owner == m.id
            && db2.exts[|db.exts| + k].data.itemId == created[k].id
            && db2.exts[|db.exts| + k].data.targetId == Some(subs[k].id)
            && created[k].parentId == created[0].parentId)
      && (forall k :: 0 <= k < |created| ==> forall x :: x in db.items && x.owner == m.data.menuId ==>
            x.data.position < created[k].position)
      && (forall j, k :: 0 <= j < k < |created| ==> created[j].position < created[k].position)
  {
    var m := FirstOwned(db.menuInstances, iid).value;
    var subs := OrderedChildren(cats, Some(categoryId));
    var maxPos := MaxPosition(db.items, m.data.menuId);
    var parent := SubcategoryParent(db, m.id, categoryId, parentRef);
    SubcategoriesFound(db, cats, categoryId, iid, parentRef, m, subs, maxPos, parent);
    var r := SubcategoriesSpec(db, cats, categoryId, iid, parentRef);
    CreatedAgree(db, subs, m, parent, maxPos, r.0, r.1);
  }

  /** `SubcategoriesCreated` for the entries and tables the spec gives, named. */
  lemma {:induction false} CreatedAgree(db: MenuDb, subs: seq<Category>, m: Row<MenuInstance>, parent: Option<nat>, maxPos: int,
                                        created: seq<CreatedItem>, db2: MenuDb)
    requires maxPos == MaxPosition(db.items, m.data.menuId)
    requires created == NewCreated(subs, parent, maxPos, db.lastId)
    requires db2.items == db.items + NewItems(subs, m.data.menuId, parent, maxPos, db.lastId)
    requires db2.exts == db.exts + NewExts(subs, m.id, maxPos, db.lastId)
    ensures |created| == |subs| && |db2.items| == |db.items| + |subs| && |db2.exts| == |db.exts| + |subs|
    ensures forall k :: 0 <= k < |created| ==>
            created[k].targetId == subs[k].id && created[k].title == subs[k].name
            && created[k].url == "/category/" + subs[k].slug
            && db2.items[|db.items| + k].id == created[k].id
            && db2.items[|db.items| + k].owner == m.data.menuId
            && db2.items[|db.items| + k].data.position == created[k].position
            && db2.exts[|db.exts| + k].owner == m.id
            && db2.exts[|db.exts| + k].data.itemId == created[k].id
            && db2.exts[|db.exts| + k].data.targetId == Some(subs[k].id)
            && created[k].parentId == created[0].parentId
    ensures forall k :: 0 <= k < |created| ==> forall x :: x in db.items && x.owner == m.data.menuId ==>
            x.data.position < created[k].position
    ensures forall j, k :: 0 <= j < k < |created| ==> created[j].position < created[k].position
  {
    CreatedRows(db.items, db.exts, subs, m.data.menuId, m.id, parent, maxPos, db.lastId);
    MaxPositionSpec(db.items, m.data.menuId);
  }

  /** The entries, items and extended rows the loop writes agree index by index, with positions rising from `maxPos + 1`. */
  lemma {:induction false} CreatedRows(items0: seq<Row<MenuItem>>, exts0: seq<Row<ItemExt>>, subs: seq<Category>,
                                       menuId: nat, inst: nat, parent: Option<nat>, maxPos: int, last: nat)
    ensures var created := NewCreated(subs, parent, maxPos, last);
      var items := items0 + NewItems(subs, menuId, parent, maxPos, last);
      var exts := exts0 + NewExts(subs, inst, maxPos, last);
      (forall k :: 0 <= k < |created| ==>
            created[k].targetId == subs[k].id && created[k].title == subs[k].name
            && created[k].url == "/category/" + subs[k].slug
            && items[|items0| + k].id == created[k].id
            && items[|items0| + k].owner == menuId
            && items[|items0| + k].data.position == created[k].position
            && exts[|exts0| + k].owner == inst
            && exts[|exts0| + k].data.itemId == created[k].id
            && exts[|exts0| + k].data.targetId == Some(subs[k].id)
            && created[k].parentId == parent && created[k].position == maxPos + k + 1)
  {
  }

  /** The appended rows keep the tables valid: fresh ids, owners that exist, parents numbered below their children. */
  lemma {:induction false} SubcategoriesValid(db: MenuDb, subs: seq<Category>, m: Row<MenuInstance>, parent: Option<nat>, maxPos: int)
    requires Valid(db) && m in db.menuInstances
    requires parent.Some? ==> parent.value <= db.lastId
    ensures Valid(db.(items := db.items + NewItems(subs, m.data.menuId, parent, maxPos, db.lastId),
                      exts := db.exts + NewExts(subs, m.id, maxPos, db.lastId),
                      lastId := db.lastId + 2 * |subs|))
  {
    var items := db.items + NewItems(subs, m.data.menuId, parent, maxPos, db.lastId);
    var exts := db.exts + NewExts(subs, m.id, maxPos, db.lastId);
    var last := db.lastId + 2 * |subs|;
    forall x | x in items
      ensures x.id <= last && x.owner <= last
      ensures x.data.parentId.Some? ==> x.data.parentId.value < x.id
    {
      if x !in db.items {
        var k :| 0 <= k < |subs| && x == NewItems(subs, m.data.menuId, parent, maxPos, db.lastId)[k];
      }
    }
    forall x | x in exts
      ensures x.id <= last
    {
      if x !in db.exts {
        var k :| 0 <= k < |subs| && x == NewExts(subs, m.id, maxPos, db.lastId)[k];
      }
    }
  }

  /** The body of `create_subcategories_menu_items` on the tables as values. */
  method AddSubcategories(db: MenuDb, cats: seq<Category>, categoryId: nat, iid: nat, parentRef: Option<string>)
    returns (r: (seq<CreatedItem>, MenuDb))
    ensures r.0 == SubcategoriesSpec(db, cats, categoryId, iid, parentRef).0
    ensures r.1 == SubcategoriesSpec(db, cats, categoryId, iid, parentRef).1
  {
    if CategoryById(cats, categoryId).None? {
      return ([], db);
    }
    var m := FirstOwned(db.menuInstances, iid);
    if m.None? {
      return ([], db);
    }
    var subs := OrderedChildren(cats, Some(categoryId));
    var maxPos := MaxPosition(db.items, m.value.data.menuId);
    var parent := SubcategoryParent(db, m.value.id, categoryId, parentRef);
    var created, items, exts, last := AddSubcategoryItems(subs, m.value.data.menuId, m.value.id, parent, maxPos,
                                                         db.items, db.exts, db.lastId);
    r := (created, db.(items := items, exts := exts, lastId := last));
    SubcategoriesFound(db, cats, categoryId, iid, parentRef, m.value, subs, maxPos, parent);
  }

  lemma {:induction false} SubcategoriesFound(db: MenuDb, cats: seq<Category>, categoryId: nat, iid: nat, parentRef: Option<string>,
                                              m: Row<MenuInstance>, subs: seq<Category>, maxPos: int, parent: Option<nat>)
    requires CategoryById(cats, categoryId).Some? && FirstOwned(db.menuInstances, iid) == Some(m)
    requires subs == OrderedChildren(cats, Some(categoryId)) && maxPos == MaxPosition(db.items, m.data.menuId)
    requires parent == SubcategoryParent(db, m.id, categoryId, parentRef)
    ensures SubcategoriesSpec(db, cats, categoryId, iid, parentRef).0 == NewCreated(subs, parent, maxPos, db.lastId)
    ensures SubcategoriesSpec(db, cats, categoryId, iid, parentRef).1
      == db.(items := db.items + NewItems(subs, m.data.menuId, parent, maxPos, db.lastId),
              exts := db.exts + NewExts(subs, m.id, maxPos, db.lastId),
              lastId := db.lastId + 2 * |subs|)
  {
  }

  // ---------------------------------------------------------------------
  // The tables as the editor changes them

  /** The menu tables, with the module registry, image table and category tree they read. */
  /** The body of `save_instance` on the tables: the outcome and the tables it leaves. */
  method SaveTables(db: MenuDb, modules: seq<Module>, images: seq<Image>, moduleId: nat, form: Form,
                    instanceId: nat, submitted: Option<Json>) returns (res: SaveOutcome, db2: MenuDb)
    ensures res == SaveSpec(db, modules, images, moduleId, form, instanceId, submitted, Corrected).0
    ensures db2 == SaveSpec(db, modules, images, moduleId, form, instanceId, submitted, Corrected).1
  {
    var plan := PlanSave(db, modules, images, moduleId, form, instanceId, submitted, Corrected);
    if plan.None? {
      return SaveFailed, db;
    }
    var pl := plan.value;
    PlanBatch(db, modules, images, moduleId, form, instanceId, submitted, Corrected);
    var p := SaveItems(form, pl.batch.menuId, pl.batch.inst, pl.batch.rec, images, pl.start);
    if p.None? {
      return SaveFailed, db;
    }
    db2 := MenuDb(pl.found.instances, pl.menus, pl.rows, p.value.items, p.value.exts, p.value.last);
    res := SavedMenu(pl.found.moduleId, pl.found.id);
  }

  class MenuStore {
    const modules: seq<Module>
    const images: seq<Image>
    const categories: seq<Category>
    var instances: seq<Instance>
    var menus: seq<Menu>
    var menuInstances: seq<Row<MenuInstance>>
    var items: seq<Row<MenuItem>>
    var exts: seq<Row<ItemExt>>
    var lastId: nat
    /** The layout cells of pages and posts, which the deletion of an instance detaches. */
    const cells: LayoutCells

    function Db(): MenuDb
      reads this
    {
      MenuDb(instances, menus, menuInstances, items, exts, lastId)
    }

    constructor (modules: seq<Module>, images: seq<Image>, categories: seq<Category>, db: MenuDb, cells: LayoutCells)
      ensures this.modules == modules && this.images == images && this.categories == categories && Db() == db
      ensures this.cells == cells
    {
      this.cells := cells;
      this.modules := modules;
      this.images := images;
      this.categories := categories;
      instances, menus, menuInstances := db.instances, db.menus, db.menuInstances;
      items, exts, lastId := db.items, db.exts, db.lastId;
    }

    /**
     * `save_instance`, with the two corrections: a new menu instance gets a
     * menu of its own, and the targets of the items are recovered from the
     * rows the save deletes. Either every table is committed or none.
     */
    method SaveInstance(moduleId: nat, form: Form, instanceId: nat, submitted: Option<Json>) returns (res: SaveOutcome)
      modifies this
      ensures res == SaveSpec(old(Db()), modules, images, moduleId, form, instanceId, submitted, Corrected).0
      ensures Db() == SaveSpec(old(Db()), modules, images, moduleId, form, instanceId, submitted, Corrected).1
    {
      var db2;
      res, db2 := SaveTables(Db(), modules, images, moduleId, form, instanceId, submitted);
      instances, menus, menuInstances := db2.instances, db2.menus, db2.menuInstances;
      items, exts, lastId := db2.items, db2.exts, db2.lastId;
    }

    /**
     * `del_instance`, corrected: the instance with its menu instance, menu,
     * items and extended rows, or nothing; deleting the instance detaches
     * the layout cells that showed it.
     */
    method DeleteInstance(instanceId: nat) returns (out: DeleteOutcome)
      modifies this, cells
      ensures out == DeleteCorrected(old(Db()), instanceId).0
      ensures Db() == DeleteCorrected(old(Db()), instanceId).1
      ensures if out == InstanceDeleted then cells.Detached(instanceId) else cells.Unchanged()
    {
      if FindInstance(instances, instanceId).None? {
        return InstanceMissing;
      }
      var m := FirstOwned(menuInstances, instanceId);
      if m.Some? {
        if DeleteConflict(Db(), m.value) {
          return DeleteRaised;
        }
        exts := Disown(exts, m.value.id);
        items := Disown(items, m.value.data.menuId);
        menus := DropMenu(menus, m.value.data.menuId);
        menuInstances := DropRow(menuInstances, m.value.id);
      }
      instances := DropInstance(instances, instanceId);
      out := InstanceDeleted;
      assert Db() == DeleteCorrected(old(Db()), instanceId).1;
      cells.DetachInstance(instanceId);
    }

    /** `create_subcategories_menu_items`: the rows for the category's direct subcategories, appended in one commit. */
    method CreateSubcategories(categoryId: nat, iid: nat, parentRef: Option<string>) returns (created: seq<CreatedItem>)
      modifies this
      ensures created == SubcategoriesSpec(old(Db()), categories, categoryId, iid, parentRef).0
      ensures Db() == SubcategoriesSpec(old(Db()), categories, categoryId, iid, parentRef).1
    {
      var db := AddSubcategories(Db(), categories, categoryId, iid, parentRef);
      created := db.0;
      instances, menus, menuInstances := db.1.instances, db.1.menus, db.1.menuInstances;
      items, exts, lastId := db.1.items, db.1.exts, db.1.lastId;
    }

    /** `load_instance_data`, contents options aside; it changes nothing. */
    method LoadInstanceData(instanceId: nat) returns (data: EditorData)
      ensures data == EditorDataOf(Db(), images, instanceId)
    {
      if instanceId == 0 {
        return NewMenu;
      }
      var m := FirstOwned(menuInstances, instanceId);
      if m.None? {
        return NewMenu;
      }
      var row := m.value;
      var loaded: seq<EditorItem> := [];
      if row.data.menuId != 0 {
        loaded := LoadItems(MenuOrder(items, row.data.menuId), exts, images, row.id);
      }
      var id := if FindInstance(instances, instanceId).Some? then Some(instanceId) else None;
      var title := if row.data.title == "" then UntitledMenu else row.data.title;
      data := Existing(id, EditorSettings(title, row.data.menuStyle, row.data.maxDepth, row.data.showIcons,
                                          row.data.enableVideos), row.data.isMain, loaded);
    }
  }
}
