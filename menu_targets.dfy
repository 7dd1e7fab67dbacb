// How a menu item's target resolves to a URL and a title
// (`MenuItemExtended.get_dynamic_url`, `get_target_title` and
// `generate_url_by_type` in app/models/modules/menu.py). A typed item points
// at a page, a product category, a post category or a post by id; the
// catalog item is fixed; every other item shows its base item's URL and title.

module MenuTargets {
  import opened Common
  import opened Categories
  import opened MenuData

  /** The item types whose target is a content row. */
  predicate IsEntityType(t: string)
  {
    t == "page" || t == "category" || t == "post_category" || t == "post"
  }

  /** The URL path of each content kind. */
  function UrlPrefix(t: string): string
    requires IsEntityType(t)
  {
    if t == "page" then "/page/"
    else if t == "category" then "/category/"
    else if t == "post_category" then "/blog/category/"
    else "/blog/"
  }

  /** The title shown when the target row no longer exists. */
  function NotFoundTitle(t: string): string
    requires IsEntityType(t)
  {
    if t == "page" then "Страница не найдена"
    else if t == "category" then "Категория не найдена"
    else if t == "post_category" then "Категория статей не найдена"
    else "Статья не найдена"
  }

  const CatalogUrl: string := "/catalog"
  const CatalogTitle: string := "Каталог товаров"
  const UntitledTitle: string := "Без названия"

  /** The target row of a typed item, as title (or name) and slug, if it exists. */
  function TargetEntity(c: Content, t: string, id: nat): (r: Option<Entity>)
    requires IsEntityType(t)
    ensures t == "category" ==> (r.Some? <==> CategoryById(c.categories, id).Some?)
    ensures t == "category" && r.Some? ==>
      r.value == Entity(id, CategoryById(c.categories, id).value.name, CategoryById(c.categories, id).value.slug)
    ensures t == "page" ==> r == EntityById(c.pages, id)
    ensures t == "post_category" ==> r == EntityById(c.postCategories, id)
    ensures t == "post" ==> r == EntityById(c.posts, id)
  {
    if t == "category" then
      match CategoryById(c.categories, id)
      case Some(x) => Some(Entity(id, x.name, x.slug))
      case None => None
    else if t == "page" then EntityById(c.pages, id)
    else if t == "post_category" then EntityById(c.postCategories, id)
    else EntityById(c.posts, id)
  }

  /** Whether the item's type and target id select a content row. */
  predicate Targeted(ext: ItemExt)
  {
    IsEntityType(ext.itemType) && TruthyId(ext.targetId)
  }

  /** `get_dynamic_url`; `item` is the base menu item the extended row belongs to, if it exists. */
  function DynamicUrl(c: Content, ext: ItemExt, item: Option<MenuItem>): string
  {
    if Targeted(ext) then
      match TargetEntity(c, ext.itemType, ext.targetId.value)
      case Some(e) => UrlPrefix(ext.itemType) + e.slug
      case None => "#"
    else if ext.itemType == "catalog" then CatalogUrl
    else if item.Some? then item.value.url
    else "#"
  }

  /** `get_target_title`. */
  function TargetTitle(c: Content, ext: ItemExt, item: Option<MenuItem>): string
  {
    if Targeted(ext) then
      match TargetEntity(c, ext.itemType, ext.targetId.value)
      case Some(e) => e.title
      case None => NotFoundTitle(ext.itemType)
    else if ext.itemType == "catalog" then CatalogTitle
    else if item.Some? then item.value.title
    else UntitledTitle
  }

  /** The rows of a content kind, each as id, title (a category's name) and slug. */
  function KindRows(c: Content, t: string): seq<Entity>
    requires IsEntityType(t)
  {
    if t == "category" then seq(|c.categories|, k requires 0 <= k < |c.categories| =>
                                  Entity(c.categories[k].id, c.categories[k].name, c.categories[k].slug))
    else if t == "page" then c.pages
    else if t == "post_category" then c.postCategories
    else c.posts
  }

  /** `TargetEntity` finds a row of the kind exactly when one carries the id, and what it finds is such a row. */
  lemma {:induction false} TargetEntityInRows(c: Content, t: string, id: nat)
    requires IsEntityType(t)
    ensures TargetEntity(c, t, id).Some? ==> TargetEntity(c, t, id).value in KindRows(c, t)
    ensures TargetEntity(c, t, id).None? <==> forall e :: e in KindRows(c, t) ==> e.id != id
  {
    if t == "category" {
      var rows := KindRows(c, t);
      match CategoryById(c.categories, id)
      case Some(x) => {
        var k :| 0 <= k < |c.categories| && c.categories[k] == x;
        assert rows[k] == TargetEntity(c, t, id).value;
      }
      case None => {
        forall e | e in rows ensures e.id != id {
          var k :| 0 <= k < |rows| && rows[k] == e;
          assert c.categories[k] in c.categories;
        }
      }
    }
  }

  /**
   * `get_dynamic_url` and `get_target_title` read the same row: a targeted
   * item whose link is live links to a row of its kind carrying the target
   * id and shows that row's title; its link is `#` exactly when no row of
   * the kind carries the id, and it then shows the kind's not-found title.
   * Any other item but the catalog item takes link and title from its base
   * item.
   */
  lemma {:induction false} ResolveSameRow(c: Content, ext: ItemExt, item: Option<MenuItem>)
    ensures Targeted(ext) && DynamicUrl(c, ext, item) != "#" ==>
      exists e :: e in KindRows(c, ext.itemType) && e.id == ext.targetId.value
        && DynamicUrl(c, ext, item) == UrlPrefix(ext.itemType) + e.slug && TargetTitle(c, ext, item) == e.title
    ensures Targeted(ext) ==>
      (DynamicUrl(c, ext, item) == "#" <==> forall e :: e in KindRows(c, ext.itemType) ==> e.id != ext.targetId.value)
    ensures Targeted(ext) && DynamicUrl(c, ext, item) == "#" ==> TargetTitle(c, ext, item) == NotFoundTitle(ext.itemType)
    ensures !Targeted(ext) && ext.itemType != "catalog" && item.Some? ==>
      DynamicUrl(c, ext, item) == item.value.url && TargetTitle(c, ext, item) == item.value.title
  {
    if Targeted(ext) {
      var t, id := ext.itemType, ext.targetId.value;
      TargetEntityInRows(c, t, id);
      var found := TargetEntity(c, t, id);
      if found.Some? {
        assert (UrlPrefix(t) + found.value.slug)[0] == '/';
      }
    }
  }

  /** `generate_url_by_type(item_type, target_id)`. */
  function UrlByType(c: Content, t: string, target: Option<nat>): (r: string)
    ensures r != "#" <==> IsEntityType(t) && TruthyId(target) && TargetEntity(c, t, target.value).Some?
    ensures r != "#" ==> r == UrlPrefix(t) + TargetEntity(c, t, target.value).value.slug
  {
    if !TruthyId(target) then "#"
    else if IsEntityType(t) then
      match TargetEntity(c, t, target.value)
      case Some(e) =>
        assert (UrlPrefix(t) + e.slug)[0] == '/';
        UrlPrefix(t) + e.slug
      case None => "#"
    else "#"
  }

  /**
   * The URL a saved item shows agrees with the one the editor generates for
   * its type and target, whenever the type names a content row; a targeted
   * URL is never `#` unless the row is missing.
   */
  lemma {:induction false} DynamicUrlByType(c: Content, ext: ItemExt, item: Option<MenuItem>)
    requires IsEntityType(ext.itemType)
    ensures TruthyId(ext.targetId) ==> DynamicUrl(c, ext, item) == UrlByType(c, ext.itemType, ext.targetId)
    ensures TruthyId(ext.targetId) ==>
      (DynamicUrl(c, ext, item) == "#" <==> TargetEntity(c, ext.itemType, ext.targetId.value).None?)
  {
  }
}
