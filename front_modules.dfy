// The storefront handlers of the content modules (app/views/modules/banner.py,
// slider.py, product_tab.py): each turns a module instance into the data its
// template renders. Database objects appear in that data by their id
// (`JInt(id)`), a missing object as `JNull`, a list of objects as the array
// of their ids.

module FrontModules {
  import opened Common
  import opened Json
  import opened Layout
  import opened Products

  /** A per-type instance row (`banner_instances`, `slider_instances`, `tabs_instances`). */
  datatype Attached = Attached(id: nat, instanceId: nat)

  /** A child row of such an instance (`banner_items`, `slider_items`) and the id of its parent. */
  datatype ChildRow = ChildRow(id: nat, parentId: nat)

  /** A `tabs_items` row. */
  datatype TabItem = TabItem(id: nat, tabsId: nat, mode: string, categoryId: Option<int>,
                             productIds: Option<string>, limitCount: Option<nat>)

  /** The rows of the content-module tables the handlers query. */
  datatype Store = Store(banners: seq<Attached>, bannerItems: seq<ChildRow>,
                         sliders: seq<Attached>, slides: seq<ChildRow>,
                         tabs: seq<Attached>, tabItems: seq<TabItem>,
                         products: seq<ProductRow>)

  /** `filter_by(module_instance_id=id).first()`. */
  function FirstAttached(rows: seq<Attached>, instanceId: nat): (r: Option<Attached>)
    ensures r.Some? ==> r.value in rows && r.value.instanceId == instanceId
    ensures r.None? <==> forall a :: a in rows ==> a.instanceId != instanceId
  {
    if rows == [] then None
    else if rows[0].instanceId == instanceId then Some(rows[0])
    else FirstAttached(rows[1..], instanceId)
  }

  /** `filter_by(<parent>_id=parent).all()`, in table order. */
  function ChildrenOf(rows: seq<ChildRow>, parent: nat): (r: seq<ChildRow>)
    ensures forall c :: c in r <==> c in rows && c.parentId == parent
  {
    if rows == [] then []
    else (if rows[0].parentId == parent then [rows[0]] else []) + ChildrenOf(rows[1..], parent)
  }

  function RowIds(rows: seq<ChildRow>): (r: seq<Json>)
    ensures |r| == |rows| && forall k :: 0 <= k < |rows| ==> r[k] == JInt(rows[k].id)
  {
    seq(|rows|, k requires 0 <= k < |rows| => JInt(rows[k].id))
  }

  function Ref(a: Option<Attached>): (r: Json)
    ensures r == JNull <==> a.None?
  {
    if a.Some? then JInt(a.value.id) else JNull
  }

  /** The child rows of an instance's per-type row: none when that row is missing. */
  function ItemsOf(a: Option<Attached>, rows: seq<ChildRow>): (r: Json)
    ensures a.None? ==> r == JArr([])
    ensures a.Some? ==> r == JArr(RowIds(ChildrenOf(rows, a.value.id)))
  {
    if a.Some? then JArr(RowIds(ChildrenOf(rows, a.value.id))) else JArr([])
  }

  // ---------------------------------------------------------------------
  // Banner and slider

  /** The queried part of the banner data: the banner row and its items (also the index fallback). */
  function BannerParts(instanceId: nat, db: Store): map<string, Json>
  {
    var banner := FirstAttached(db.banners, instanceId);
    map["banner" := Ref(banner), "banner_items" := ItemsOf(banner, db.bannerItems)]
  }

  /**
   * `BannerModule.get_instance_data`: defaults for no instance; otherwise the
   * decoded settings, the banner row and its items. Settings the decoder
   * rejects make the call raise (None).
   */
  function BannerInstanceData(inst: Option<Instance>, db: Store): (r: Option<map<string, Json>>)
    ensures inst.None? ==> r == Some(map["settings" := EmptyObject, "banner" := JNull, "banner_items" := JArr([])])
    ensures inst.Some? ==> (r.None? <==> inst.value.settings.BadText?)
    ensures r.Some? ==> r.value.Keys == {"settings", "banner", "banner_items"}
    ensures r.Some? && inst.Some? ==>
      r.value["settings"] == LoadSettings(inst.value.settings).value
      && r.value["banner"] == Ref(FirstAttached(db.banners, inst.value.id))
      && r.value["banner_items"] == ItemsOf(FirstAttached(db.banners, inst.value.id), db.bannerItems)
  {
    match inst
    case None => Some(map["settings" := EmptyObject, "banner" := JNull, "banner_items" := JArr([])])
    case Some(i) =>
      match LoadSettings(i.settings)
      case None => None
      case Some(settings) => Some(BannerParts(i.id, db)["settings" := settings])
  }

  /**
   * `SliderModule.get_instance_data`: the same shape with the slider row
   * (the `slider_instance` back reference) and its slides.
   */
  function SliderInstanceData(inst: Option<Instance>, db: Store): (r: Option<map<string, Json>>)
    ensures inst.None? ==> r == Some(map["settings" := EmptyObject, "slider" := JNull, "slides" := JArr([])])
    ensures inst.Some? ==> (r.None? <==> inst.value.settings.BadText?)
    ensures r.Some? ==> r.value.Keys == {"settings", "slider", "slides"}
    ensures r.Some? && inst.Some? ==>
      r.value["settings"] == LoadSettings(inst.value.settings).value
      && r.value["slider"] == Ref(FirstAttached(db.sliders, inst.value.id))
      && r.value["slides"] == ItemsOf(FirstAttached(db.sliders, inst.value.id), db.slides)
  {
    match inst
    case None => Some(map["settings" := EmptyObject, "slider" := JNull, "slides" := JArr([])])
    case Some(i) =>
      match LoadSettings(i.settings)
      case None => None
      case Some(settings) =>
        var slider := FirstAttached(db.sliders, i.id);
        Some(map["settings" := settings, "slider" := Ref(slider), "slides" := ItemsOf(slider, db.slides)])
  }

  // ---------------------------------------------------------------------
  // Tabs

  /** `query.limit(n)`: the first `n` rows; no limit when `n` is None. */
  function Limit(rows: seq<ProductRow>, n: Option<nat>): (r: seq<ProductRow>)
    ensures n.None? ==> r == rows
    ensures n.Some? ==> |r| == (if n.value < |rows| then n.value else |rows|)
    ensures r <= rows
  {
    if n.Some? && n.value < |rows| then rows[..n.value] else rows
  }

  function InCategory(rows: seq<ProductRow>, c: int): (r: seq<ProductRow>)
    ensures forall p :: p in r <==> p in rows && p.categoryId.Some? && p.categoryId.value == c
  {
    if rows == [] then []
    else (if rows[0].categoryId.Some? && rows[0].categoryId.value == c then [rows[0]] else []) + InCategory(rows[1..], c)
  }

  /**
   * The ids of a custom tab: the comma-separated pieces that are digits
   * once stripped, read as integers.
   */
  function CustomIds(productIds: string): (r: seq<nat>)
  {
    CustomIdsOf(Split(productIds, ','))
  }

  function CustomIdsOf(pieces: seq<string>): (r: seq<nat>)
    ensures |r| <= |pieces|
  {
    if pieces == [] then []
    else
      var rest := CustomIdsOf(pieces[1..]);
      var s := Strip(pieces[0]);
      if IsDigits(s) then [DigitsValue(s)] + rest else rest
  }

  function WithIds(rows: seq<ProductRow>, ids: seq<nat>): (r: seq<ProductRow>)
    ensures forall p :: p in r <==> p in rows && p.id in ids
  {
    if rows == [] then []
    else (if rows[0].id in ids then [rows[0]] else []) + WithIds(rows[1..], ids)
  }

  /**
   * The products of one tab, by mode: a category tab with a category takes
   * that category's products up to `limit_count`; a custom tab with ids
   * takes the products with those ids; an `all` tab takes the first
   * `limit_count or 8` products; anything else has none.
   */
  function TabProducts(item: TabItem, products: seq<ProductRow>): (r: seq<ProductRow>)
    ensures forall p :: p in r ==> p in products
    ensures item.mode == "category" && item.categoryId.Some? && item.categoryId.value != 0 ==>
      (forall p :: p in r <==> p in Limit(InCategory(products, item.categoryId.value), item.limitCount))
      && (item.limitCount.Some? ==> |r| <= item.limitCount.value)
    ensures item.mode == "custom" && item.productIds.Some? && item.productIds.value != "" ==>
      forall p :: p in r <==> p in products && p.id in CustomIds(item.productIds.value)
    ensures item.mode == "all" ==>
      r <= products
      && |r| == (var n := if item.limitCount.Some? && item.limitCount.value != 0 then item.limitCount.value else 8;
                 if n < |products| then n else |products|)
    ensures (!(item.mode == "category" && item.categoryId.Some? && item.categoryId.value != 0)
             && !(item.mode == "custom" && item.productIds.Some? && item.productIds.value != "")
             && item.mode != "all") ==> r == []
  {
    if item.mode == "category" && item.categoryId.Some? && item.categoryId.value != 0 then
      var r := Limit(InCategory(products, item.categoryId.value), item.limitCount);
      assert forall p :: p in r ==> p in InCategory(products, item.categoryId.value);
      r
    else if item.mode == "custom" && item.productIds.Some? && item.productIds.value != "" then
      WithIds(products, CustomIds(item.productIds.value))
    else if item.mode == "all" then
      var r := Limit(products, Some(if item.limitCount.Some? && item.limitCount.value != 0 then item.limitCount.value else 8));
      assert forall p :: p in r ==> p in products;
      r
    else []
  }

  function ProductIds(rows: seq<ProductRow>): (r: seq<Json>)
    ensures |r| == |rows| && forall k :: 0 <= k < |rows| ==> r[k] == JInt(rows[k].id)
  {
    seq(|rows|, k requires 0 <= k < |rows| => JInt(rows[k].id))
  }

  function TabsOf(items: seq<TabItem>, tabsId: nat): (r: seq<TabItem>)
    ensures forall t :: t in r <==> t in items && t.tabsId == tabsId
  {
    if items == [] then []
    else (if items[0].tabsId == tabsId then [items[0]] else []) + TabsOf(items[1..], tabsId)
  }

  /** The `tab_products` entries, one per tab in tab order, keyed by the tab id's decimal text. */
  function TabEntries(items: seq<TabItem>, products: seq<ProductRow>): (r: seq<(string, Json)>)
    ensures |r| == |items|
  {
    if items == [] then []
    else
      var last := items[|items| - 1];
      TabEntries(items[..|items| - 1], products) + [(NatToString(last.id), JArr(ProductIds(TabProducts(last, products))))]
  }

  /** The loop that fills `tab_products`, one entry per tab item. */
  method TabProductsLoop(items: seq<TabItem>, products: seq<ProductRow>) returns (entries: seq<(string, Json)>)
    ensures entries == TabEntries(items, products)
  {
    entries := [];
    var i := 0;
    while i < |items|
      invariant 0 <= i <= |items|
      invariant entries == TabEntries(items[..i], products)
    {
      assert items[..i + 1][..i] == items[..i];
      var chosen := TabProducts(items[i], products);
      entries := entries + [(NatToString(items[i].id), JArr(ProductIds(chosen)))];
      i := i + 1;
    }
    assert items[..i] == items;
  }

  /** Entry `k` of `tab_products` belongs to tab `k` and holds that tab's products. */
  lemma {:induction false} TabEntriesAt(items: seq<TabItem>, products: seq<ProductRow>, k: nat)
    requires k < |items|
    ensures TabEntries(items, products)[k] == (NatToString(items[k].id), JArr(ProductIds(TabProducts(items[k], products))))
  {
    if k < |items| - 1 {
      TabEntriesAt(items[..|items| - 1], products, k);
    }
  }

  /** Every tab item has an entry in `tab_products`, holding that tab's products. */
  lemma {:induction false} EveryTabHasProducts(items: seq<TabItem>, products: seq<ProductRow>, k: nat)
    requires k < |items|
    ensures Lookup(TabEntries(items, products), NatToString(items[k].id)).Some?
  {
    var e := TabEntries(items, products);
    TabEntriesAt(items, products, k);
    LookupFinds(e, k);
  }

  lemma {:induction false} LookupFinds(fields: seq<(string, Json)>, k: nat)
    requires k < |fields|
    ensures Lookup(fields, fields[k].0).Some?
  {
    if k > 0 && fields[0].0 != fields[k].0 {
      LookupFinds(fields[1..], k - 1);
    }
  }

  /** The queried part of the tabs data: the tabs row, its tabs and their products (also the index fallback). */
  function TabsParts(instanceId: nat, db: Store): (r: map<string, Json>)
    ensures r.Keys == {"tabs_instance", "tab_items", "tab_products"}
    ensures FirstAttached(db.tabs, instanceId).None? ==> r["tab_items"] == JArr([]) && r["tab_products"] == JObj([])
  {
    var tabs := FirstAttached(db.tabs, instanceId);
    if tabs.None? then
      map["tabs_instance" := JNull, "tab_items" := JArr([]), "tab_products" := JObj([])]
    else
      var items := TabsOf(db.tabItems, tabs.value.id);
      map["tabs_instance" := Ref(tabs),
          "tab_items" := JArr(seq(|items|, k requires 0 <= k < |items| => JInt(items[k].id))),
          "tab_products" := JObj(TabEntries(items, db.products))]
  }

  /**
   * `TabsModule.get_instance_data` (storefront): defaults for no instance;
   * otherwise the decoded settings and the tabs parts. Settings the decoder
   * rejects make the call raise (None).
   */
  function TabsInstanceData(inst: Option<Instance>, db: Store): (r: Option<map<string, Json>>)
    ensures inst.None? ==> r == Some(map["settings" := EmptyObject, "tabs_instance" := JNull, "tab_items" := JArr([]), "tab_products" := JObj([])])
    ensures inst.Some? ==> (r.None? <==> inst.value.settings.BadText?)
    ensures r.Some? ==> r.value.Keys == {"settings", "tabs_instance", "tab_items", "tab_products"}
    ensures r.Some? && inst.Some? ==>
      r.value["settings"] == LoadSettings(inst.value.settings).value
      && (FirstAttached(db.tabs, inst.value.id).None? ==> r.value["tab_items"] == JArr([]) && r.value["tab_products"] == JObj([]))
  {
    match inst
    case None => Some(map["settings" := EmptyObject, "tabs_instance" := JNull, "tab_items" := JArr([]), "tab_products" := JObj([])])
    case Some(i) =>
      match LoadSettings(i.settings)
      case None => None
      case Some(settings) => Some(TabsParts(i.id, db)["settings" := settings])
  }
}
