// Pages and their layouts in the admin (app/admin/pages_views.py): the
// page form saves the page row first, then replaces the page's layout
// cells; deleting a page removes its cells, then the page.

module Pages {
  import opened Common
  import opened Json
  import opened Slugify
  import opened Layout

  datatype Page = Page(id: nat, title: string, slug: string)

  /** How a POST to the page form ends. */
  datatype PageFormResult =
    | NotFound              // `get_or_404` on an unknown page id
    | ServerError           // the page commit raises (NULL title, duplicate slug)
    | Saved(flashes: seq<Flash>) // redirect to the page list with these messages

  const SavedFlash: Flash := Flash("success", "Страница успешно сохранена!")
  const ParseErrorFlash: Flash := Flash("danger", "Ошибка разбора данных макета")
  const LayoutErrorFlash: Flash := Flash("danger", "Ошибка при сохранении макета")
  const DeletedFlash: Flash := Flash("success", "Страница удалена")

  /** How `page_delete` ends. */
  datatype PageDeleteResult =
    | DeleteNotFound          // `get_or_404` on an unknown page id
    | DeleteRefused           // the commit raises: the site's home page is still this page
    | DeleteDone(flash: Flash) // redirect to the page list with this message

  predicate HasPage(pages: seq<Page>, id: nat)
  {
    exists p :: p in pages && p.id == id
  }

  /** The page row after the commit: replaced in place when the id exists, appended otherwise. */
  function PutPage(pages: seq<Page>, p: Page): (r: seq<Page>)
    ensures p in r
    ensures forall q :: q in r && q.id != p.id <==> q in pages && q.id != p.id
  {
    if pages == [] then [p]
    else if pages[0].id == p.id then [p] + pages[1..]
    else [pages[0]] + PutPage(pages[1..], p)
  }

  function DropPage(pages: seq<Page>, id: nat): (r: seq<Page>)
    ensures forall q :: q in r <==> q in pages && q.id != id
  {
    if pages == [] then []
    else (if pages[0].id == id then [] else [pages[0]]) + DropPage(pages[1..], id)
  }

  /** The unique constraint on `pages.slug`: another page already holds it. */
  predicate SlugClash(pages: seq<Page>, slug: string, id: nat)
  {
    exists q :: q in pages && q.id != id && q.slug == slug
  }

  /** `request.form.get('slug') or generate_slug(title)`. */
  function SubmittedSlug(form: Form): (s: string)
    ensures s != ""
    ensures GetNonEmpty(form, "slug").Some? ==> s == GetNonEmpty(form, "slug").value
    ensures GetNonEmpty(form, "slug").None? ==> IsSlug(s)
  {
    PageSlugIsSlug(Get(form, "title"));
    match GetNonEmpty(form, "slug")
    case Some(s) => s
    case None => PageSlug(Get(form, "title"))
  }

  /**
   * The page table, the `page_layout` table, and the `home_page_id` of the
   * site settings row, a foreign key to `pages`.
   */
  class PageSite {
    var pages: seq<Page>
    var layout: seq<Cell>
    var homePageId: Option<nat>

    constructor (pages: seq<Page>, layout: seq<Cell>, homePageId: Option<nat>)
      ensures this.pages == pages && this.layout == layout && this.homePageId == homePageId
    {
      this.pages := pages;
      this.layout := layout;
      this.homePageId := homePageId;
    }

    /** The `home_page_id` foreign key holds: the home page, when set, is a page. */
    predicate HomeExists()
      reads this
    {
      homePageId.Some? ==> HasPage(pages, homePageId.value)
    }

    /**
     * POST to `page_form(page_id)`; `page_id` 0 creates a page, which the
     * database numbers `newId`. The page row is committed before the layout
     * is looked at. Then, only when an existing page is edited, its cells
     * are deleted; the submitted grid is added cell by cell and committed.
     * A JSON error or a failing cell leaves the old cells (the delete is
     * never committed) and adds a danger message; the success message and
     * the redirect follow in every case.
     */
    method PageForm(pageId: nat, newId: nat, form: Form, field: LayoutText) returns (res: PageFormResult)
      requires pageId == 0 ==> !HasPage(pages, newId)
      modifies this
      ensures pageId != 0 && !HasPage(old(pages), pageId) ==> res == NotFound && pages == old(pages) && layout == old(layout)
      ensures homePageId == old(homePageId) && (old(HomeExists()) ==> HomeExists())
      ensures var id := if pageId != 0 then pageId else newId;
        (pageId == 0 || HasPage(old(pages), pageId)) ==>
          if Get(form, "title").None? || SlugClash(old(pages), SubmittedSlug(form), id) then
            res == ServerError && pages == old(pages) && layout == old(layout)
          else
            pages == PutPage(old(pages), Page(id, Get(form, "title").value, SubmittedSlug(form)))
            && match field
               case Malformed => res == Saved([ParseErrorFlash, SavedFlash]) && layout == old(layout)
               case _ =>
                 match PageFieldCells(field)
                 case None => res == Saved([LayoutErrorFlash, SavedFlash]) && layout == old(layout)
                 case Some(specs) =>
                   res == Saved([SavedFlash])
                   && layout == (if pageId != 0 then Others(old(layout), id) else old(layout)) + Place(id, specs)
    {
      if pageId != 0 && !HasPage(pages, pageId) {
        return NotFound;
      }
      var id := if pageId != 0 then pageId else newId;
      var title := Get(form, "title");
      var slug := SubmittedSlug(form);
      if title.None? || SlugClash(pages, slug, id) {
        return ServerError;
      }
      pages := PutPage(pages, Page(id, title.value, slug));
      var cells: Option<seq<CellSpec>>;
      match field {
        case Malformed =>
          return Saved([ParseErrorFlash, SavedFlash]);
        case Empty =>
          cells := Some([]);
        case Whitespace =>
          cells := Some([]);
        case Decodes(v) =>
          cells := CollectCells(v);
      }
      if cells.None? {
        return Saved([LayoutErrorFlash, SavedFlash]);
      }
      var kept := if pageId != 0 then Others(layout, id) else layout;
      layout := kept + Place(id, cells.value);
      res := Saved([SavedFlash]);
    }

    /**
     * `page_delete(page_id)`: the page's cells, then the page itself, and a
     * success message; an unknown id is a 404 and changes nothing. The
     * site's home page is refused by the `home_page_id` foreign key at the
     * commit, which rolls the cells' delete back too.
     */
    method PageDelete(pageId: nat) returns (res: PageDeleteResult)
      modifies this
      ensures res.DeleteNotFound? <==> !HasPage(old(pages), pageId)
      ensures res.DeleteRefused? <==> HasPage(old(pages), pageId) && old(homePageId) == Some(pageId)
      ensures res.DeleteDone? ==> res.flash == DeletedFlash
      ensures res.DeleteDone? ==> pages == DropPage(old(pages), pageId) && layout == Others(old(layout), pageId)
      ensures !res.DeleteDone? ==> pages == old(pages) && layout == old(layout)
      ensures homePageId == old(homePageId)
      ensures old(HomeExists()) ==> HomeExists()
    {
      if !HasPage(pages, pageId) {
        return DeleteNotFound;
      }
      if homePageId == Some(pageId) {
        return DeleteRefused;
      }
      layout := Others(layout, pageId);
      pages := DropPage(pages, pageId);
      res := DeleteDone(DeletedFlash);
    }
  }
}
