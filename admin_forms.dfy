// The slug handling of the admin forms (app/admin/forms.py): the category
// form derives, cleans and de-duplicates its slug against the `categories`
// table; the post-category and post forms only fill in a missing slug; the
// parent pickers label each category with a dash indent per tree level.

module AdminForms {
  import opened Common
  import opened Slugify
  import opened UniqueSlugs
  import opened Categories

  /** Every slug in the `categories` table. */
  function Slugs(t: seq<Category>): set<string>
  {
    set c | c in t :: c.slug
  }

  /**
   * `Category.query.filter(Category.slug == slug, Category.id != cat_id)`
   * finds a row. With `cat_id` None the filter becomes `id IS NOT NULL`,
   * which every row passes.
   */
  predicate TakenByOther(t: seq<Category>, slug: string, catId: Option<nat>)
  {
    exists c :: c in t && c.slug == slug && (catId.Some? ==> c.id != catId.value)
  }

  /** `slugify(name) or 'category'`. */
  function NameBase(name: string): (b: string)
    ensures b != "" && IsSlug(b)
  {
    TranslitSlugifyIsSlug(name);
    FallbackSlugs();
    if TranslitSlugify(name) != "" then TranslitSlugify(name) else "category"
  }

  /** The first row holding `slug`, as `filter_by(slug=...).first()` returns it. */
  function FirstWithSlug(t: seq<Category>, slug: string): (r: Option<Category>)
    ensures r.Some? ==> r.value in t && r.value.slug == slug
    ensures r.None? ==> slug !in Slugs(t)
  {
    if t == [] then None else if t[0].slug == slug then Some(t[0]) else FirstWithSlug(t[1..], slug)
  }

  /**
   * `CategoryForm.validate_slug`: an error (false) iff a slug was given and
   * the first category holding it is not the one being edited.
   */
  function ValidateCategorySlug(slug: string, categoryId: Option<nat>, t: seq<Category>): (ok: bool)
  {
    if slug == "" then true
    else match FirstWithSlug(t, slug)
      case None => true
      case Some(existing) => categoryId.Some? && existing.id == categoryId.value
  }

  /**
   * With slugs unique in the table (the column's unique constraint), the
   * check fails exactly when another category already uses the slug.
   */
  lemma {:induction false} ValidateCategorySlugSpec(slug: string, categoryId: Option<nat>, t: seq<Category>)
    requires forall a, b :: a in t && b in t && a.slug == b.slug ==> a == b
    ensures !ValidateCategorySlug(slug, categoryId, t) <==> slug != "" && TakenByOther(t, slug, categoryId)
  {
    if slug != "" {
      match FirstWithSlug(t, slug)
      case None =>
      case Some(existing) =>
        if categoryId.Some? && existing.id == categoryId.value {
          forall c | c in t && c.slug == slug ensures c.id == categoryId.value {
          }
        }
    }
  }

  /** A hierarchical label prefix: `"— "` once per level. */
  function Indent(level: nat): (r: string)
    ensures |r| == 2 * level
    ensures forall k :: 0 <= k < |r| ==> r[k] == if k % 2 == 0 then '—' else ' '
  {
    if level == 0 then ""
    else
      var rest := Indent(level - 1);
      var r := "— " + rest;
      assert forall k :: 2 <= k < |r| ==> r[k] == rest[k - 2];
      r
  }

  /**
   * `get_hierarchical_categories()`: the category listing in preorder, each
   * category labelled with its indent and name.
   */
  method HierarchicalCategories(t: seq<Category>) returns (r: seq<(Category, string)>)
    ensures var listing := Preorder(Tree(t, None, |t|), 0);
      |r| == |listing|
      && forall i :: 0 <= i < |r| ==> r[i] == (listing[i].0, Indent(listing[i].1) + listing[i].0.name)
  {
    var listing := BuildCategoryList(t, None, 0, |t|);
    r := [];
    var i := 0;
    while i < |listing|
      invariant 0 <= i <= |listing|
      invariant |r| == i
      invariant forall k :: 0 <= k < i ==> r[k] == (listing[k].0, Indent(listing[k].1) + listing[k].0.name)
    {
      var (category, level) := listing[i];
      r := r + [(category, Indent(level) + category.name)];
      i := i + 1;
    }
  }

  /** The category edit form's `name` and `slug` fields. */
  class CategoryForm {
    var name: string
    var slug: string

    constructor (name: string, slug: string)
      ensures this.name == name && this.slug == slug
    {
      this.name := name;
      this.slug := slug;
    }

    /**
     * `process_slug(cat_id)`:
     * - no slug given: the slug of the name (or `'category'`), made unique;
     * - a slug whose cleaned form is empty: the same, from the name;
     * - otherwise the cleaned slug, kept when no other category uses it
     *   and made unique when one does.
     * The uniqueness check covers every row, the edited one included.
     */
    method ProcessSlug(catId: Option<nat>, t: seq<Category>)
      modifies this
      ensures name == old(name)
      ensures old(slug) == "" || TranslitSlugify(old(slug)) == "" ==>
        slug !in Slugs(t) && UniqueSlugOf(NameBase(old(name)), Slugs(t), slug)
      ensures old(slug) != "" && TranslitSlugify(old(slug)) != "" && TakenByOther(t, TranslitSlugify(old(slug)), catId) ==>
        slug !in Slugs(t) && UniqueSlugOf(TranslitSlugify(old(slug)), Slugs(t), slug)
      ensures old(slug) != "" && TranslitSlugify(old(slug)) != "" && !TakenByOther(t, TranslitSlugify(old(slug)), catId) ==>
        slug == TranslitSlugify(old(slug))
    {
      if slug == "" {
        slug := GenerateUniqueSlug(NameBase(name), Slugs(t));
      } else {
        var base := TranslitSlugify(slug);
        if base == "" {
          slug := GenerateUniqueSlug(NameBase(name), Slugs(t));
        } else if TakenByOther(t, base, catId) {
          slug := GenerateUniqueSlug(base, Slugs(t));
        } else {
          slug := base;
        }
      }
    }
  }

  /**
   * What `process_slug` leaves behind: a well-formed, non-empty slug that no
   * other category uses (the edited category may already hold it).
   */
  lemma {:induction false} ProcessedSlugIsFree(name: string, given: string, catId: Option<nat>, t: seq<Category>, slug: string)
    requires given == "" || TranslitSlugify(given) == "" ==>
      slug !in Slugs(t) && UniqueSlugOf(NameBase(name), Slugs(t), slug)
    requires given != "" && TranslitSlugify(given) != "" && TakenByOther(t, TranslitSlugify(given), catId) ==>
      slug !in Slugs(t) && UniqueSlugOf(TranslitSlugify(given), Slugs(t), slug)
    requires given != "" && TranslitSlugify(given) != "" && !TakenByOther(t, TranslitSlugify(given), catId) ==>
      slug == TranslitSlugify(given)
    ensures slug != "" && IsSlug(slug)
    ensures !TakenByOther(t, slug, catId)
  {
    TranslitSlugifyIsSlug(given);
    var base := if given == "" || TranslitSlugify(given) == "" then NameBase(name) else TranslitSlugify(given);
    if base in Slugs(t) && slug != base {
      var n :| FirstFreeFrom(Slugs(t), base + "-", "", 1, n) && slug == Suffixed(base, n);
      SuffixedIsSlug(base, n);
    }
    if slug in Slugs(t) {
      assert !TakenByOther(t, TranslitSlugify(given), catId);
    }
  }

  /**
   * The post-category and post forms' `process_slug`: only a missing slug
   * is filled in, from the name (or title), made unique against the
   * `categories` table (the product categories), not against their own table.
   */
  class SlugFillForm {
    var title: string
    var slug: string

    constructor (title: string, slug: string)
      ensures this.title == title && this.slug == slug
    {
      this.title := title;
      this.slug := slug;
    }

    method ProcessSlug(t: seq<Category>)
      modifies this
      ensures title == old(title)
      ensures old(slug) != "" ==> slug == old(slug)
      ensures old(slug) == "" ==> slug !in Slugs(t) && UniqueSlugOf(TranslitSlugify(old(title)), Slugs(t), slug)
    {
      if slug == "" {
        slug := GenerateUniqueSlug(TranslitSlugify(title), Slugs(t));
      }
    }
  }

  /**
   * The post-category and post forms' `validate_slug`: an error (false) iff a
   * slug was given and any row of their own table already uses it, the
   * edited row included.
   */
  function ValidateOwnSlug(slug: string, ownSlugs: set<string>): (ok: bool)
    ensures !ok <==> slug != "" && slug in ownSlugs
  {
    !(slug != "" && slug in ownSlugs)
  }
}
