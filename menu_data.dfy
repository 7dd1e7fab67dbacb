// The tables of the navigation-menu module (app/models/menu.py,
// app/models/modules/menu.py): menus, their items, the menu instances that
// bind a module instance to a menu, and the extended rows that give an item
// its type, target and media. Also the content tables the menu links to
// (pages, product categories, post categories, posts, images).

module MenuData {
  import opened Common
  import opened Layout
  import opened Tables
  import opened Categories

  /** A page, a post or a post category as a menu target: its id, title (or name) and slug. */
  datatype Entity = Entity(id: nat, title: string, slug: string)

  /** An `images` row: the uploaded file's name. */
  datatype Image = Image(id: nat, filename: string)

  /** The content a menu item may point at. */
  datatype Content = Content(pages: seq<Entity>, categories: seq<Category>, postCategories: seq<Entity>,
                             posts: seq<Entity>, images: seq<Image>)

  /** A `menu_items` row; its `Row` owner is `menu_id`. */
  datatype MenuItem = MenuItem(title: string, url: string, parentId: Option<nat>, position: int)

  /** A `menu_items_extended` row; its `Row` owner is `menu_instance_id`. */
  datatype ItemExt = ItemExt(itemId: nat, itemType: string, targetId: Option<nat>, iconId: Option<nat>,
                             videoId: Option<nat>, showInCatalog: bool, customClass: Option<string>,
                             description: Option<string>, openInNewTab: bool, isFeatured: bool, sortOrder: int)

  /** A `menu_instances` row; its `Row` owner is `module_instance_id`. */
  datatype MenuInstance = MenuInstance(menuId: nat, title: string, showIcons: bool, maxDepth: int,
                                       enableVideos: bool, menuStyle: string, customCssClass: string,
                                       targetBlank: bool, enableAutoCatalog: bool, isMain: bool)

  /** A `menus` row. */
  datatype Menu = Menu(id: nat, name: string)

  /** The tables the menu editor reads and writes; `lastId` is the largest id handed out so far. */
  datatype MenuDb = MenuDb(instances: seq<Instance>, menus: seq<Menu>, menuInstances: seq<Row<MenuInstance>>,
                           items: seq<Row<MenuItem>>, exts: seq<Row<ItemExt>>, lastId: nat)

  /** The column defaults of a new `MenuModuleInstance` (app/models/modules/menu.py:23-31). */
  function DefaultInstance(menuId: nat): (r: MenuInstance)
    ensures r.menuId == menuId && !r.isMain && r.maxDepth == 3 && r.enableAutoCatalog
  {
    MenuInstance(menuId, "Меню сайта", true, 3, false, "horizontal", "", false, true, false)
  }

  /** `Query.get(id)` on a table of rows. */
  function RowById<T>(rows: seq<Row<T>>, id: nat): (r: Option<Row<T>>)
    ensures r.Some? ==> r.value in rows && r.value.id == id
    ensures r.None? <==> forall x :: x in rows ==> x.id != id
  {
    if rows == [] then None
    else if rows[0].id == id then Some(rows[0])
    else RowById(rows[1..], id)
  }

  /** `Page.query.get(id)` and the like. */
  function EntityById(t: seq<Entity>, id: nat): (r: Option<Entity>)
    ensures r.Some? ==> r.value in t && r.value.id == id
    ensures r.None? <==> forall e :: e in t ==> e.id != id
  {
    if t == [] then None
    else if t[0].id == id then Some(t[0])
    else EntityById(t[1..], id)
  }

  /** `Category.query.get(id)`. */
  function CategoryById(t: seq<Category>, id: nat): (r: Option<Category>)
    ensures r.Some? ==> r.value in t && r.value.id == id
    ensures r.None? <==> forall c :: c in t ==> c.id != id
  {
    if t == [] then None
    else if t[0].id == id then Some(t[0])
    else CategoryById(t[1..], id)
  }

  /** `Image.query.get(id)`. */
  function ImageById(t: seq<Image>, id: nat): (r: Option<Image>)
    ensures r.Some? ==> r.value in t && r.value.id == id
    ensures r.None? <==> forall i :: i in t ==> i.id != id
  {
    if t == [] then None
    else if t[0].id == id then Some(t[0])
    else ImageById(t[1..], id)
  }

  /** Python truthiness of a nullable integer column: set and non-zero. */
  predicate TruthyId(v: Option<nat>)
  {
    v.Some? && v.value != 0
  }

  /** `int(v) if v and str(v).isdigit() else None`. */
  function DigitId(v: Option<string>): (r: Option<nat>)
    ensures r.Some? <==> v.Some? && IsDigits(v.value)
    ensures r.Some? ==> ParseInt(v.value) == Some(r.value as int)
  {
    if v.Some? && IsDigits(v.value) then
      ParseIntDigits(v.value);
      Some(DigitsValue(v.value))
    else None
  }

  // ---------------------------------------------------------------------
  // Invariants the menu code keeps

  /** Every item's parent was created before it: a parent id is below the item's own id. */
  predicate ParentsBelow(items: seq<Row<MenuItem>>)
  {
    forall x :: x in items && x.data.parentId.Some? ==> x.data.parentId.value < x.id
  }

  /** At most one menu instance carries the main-menu flag. */
  predicate AtMostOneMain(rows: seq<Row<MenuInstance>>)
  {
    forall j, k :: 0 <= j < |rows| && 0 <= k < |rows| && rows[j].data.isMain && rows[k].data.isMain ==> j == k
  }

  /** No two rows share an id (the primary key). */
  predicate IdsUnique<T>(rows: seq<Row<T>>)
  {
    forall j, k :: 0 <= j < |rows| && 0 <= k < |rows| && rows[j].id == rows[k].id ==> j == k
  }

  /**
   * Ids lie at or below `lastId`, and so do the menus that items and menu
   * instances name; menu instances have distinct ids, parents come before
   * their items, and at most one menu is main.
   */
  predicate Valid(db: MenuDb)
  {
    (forall i :: i in db.instances ==> i.id <= db.lastId)
    && (forall m :: m in db.menus ==> m.id <= db.lastId)
    && (forall r :: r in db.menuInstances ==> r.id <= db.lastId)
    && (forall r :: r in db.items ==> r.id <= db.lastId)
    && (forall r :: r in db.exts ==> r.id <= db.lastId)
    && (forall r :: r in db.items ==> r.owner <= db.lastId)
    && (forall r :: r in db.menuInstances ==> r.data.menuId <= db.lastId)
    && IdsUnique(db.menuInstances)
    && ParentsBelow(db.items)
    && AtMostOneMain(db.menuInstances)
  }

  // ---------------------------------------------------------------------
  // The join every menu query makes

  /** An extended row with the base item it belongs to. */
  type Entry = (Row<ItemExt>, Row<MenuItem>)

  /**
   * `MenuItemExtended.query.filter_by(menu_instance_id=inst).join(MenuItem)`:
   * the instance's extended rows, in table order, each with its base item;
   * a row whose base item is missing drops out of the inner join.
   */
  function Joined(exts: seq<Row<ItemExt>>, items: seq<Row<MenuItem>>, inst: nat): (r: seq<Entry>)
    ensures forall e :: e in r <==> e.0 in exts && e.0.owner == inst && RowById(items, e.0.data.itemId) == Some(e.1)
  {
    if exts == [] then []
    else
      var rest := Joined(exts[1..], items, inst);
      var x := exts[0];
      assert forall y :: y in exts <==> y == x || y in exts[1..];
      if x.owner == inst && RowById(items, x.data.itemId).Some? then [(x, RowById(items, x.data.itemId).value)] + rest
      else rest
  }
}
