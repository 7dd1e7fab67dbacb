// Products (app/models/product.py): the slug a product gets when it is
// saved, and the catalogue query for every product of a category subtree.

module Products {
  import opened Common
  import opened Slugify
  import opened UniqueSlugs
  import opened Categories

  datatype ProductRow = ProductRow(id: nat, name: string, slug: string, categoryId: Option<nat>)

  /**
   * Slugs held by rows other than `selfId`. The query's `Product.id !=
   * self.id` becomes `id IS NOT NULL` for a product not yet saved (id
   * None), so then every row counts.
   */
  function OtherSlugs(products: seq<ProductRow>, selfId: Option<nat>): set<string>
  {
    set p | p in products && (selfId.Some? ==> p.id != selfId.value) :: p.slug
  }

  /** `_slugify(name) or 'product'` for no slug, `_slugify(slug) or 'product'` otherwise. */
  function ProductBase(name: string, slug: string): (b: string)
    ensures b != "" && IsSlug(b)
  {
    TranslitSlugifyIsSlug(name);
    TranslitSlugifyIsSlug(slug);
    FallbackSlugs();
    var cleaned := if slug == "" then TranslitSlugify(name) else TranslitSlugify(slug);
    if cleaned != "" then cleaned else "product"
  }

  /** The product being saved: its id (None before the first flush), name and slug. */
  class Product {
    var id: Option<nat>
    var name: string
    var slug: string

    constructor (id: Option<nat>, name: string, slug: string)
      ensures this.id == id && this.name == name && this.slug == slug
    {
      this.id := id;
      this.name := name;
      this.slug := slug;
    }

    /**
     * `process_slug()`: the base slug if no other product has it, else
     * `base-2`, `base-3`, ... , the first one free. The counter starts
     * at 2: `base-1` is never tried.
     */
    method ProcessSlug(products: seq<ProductRow>)
      modifies this
      ensures id == old(id) && name == old(name)
      ensures var base := ProductBase(old(name), old(slug));
        slug !in OtherSlugs(products, id)
        && (base !in OtherSlugs(products, id) ==> slug == base)
        && (base in OtherSlugs(products, id) ==>
              exists n :: FirstFreeFrom(OtherSlugs(products, id), base + "-", "", 2, n) && slug == Suffixed(base, n))
    {
      var base := ProductBase(name, slug);
      var taken := OtherSlugs(products, id);
      if base !in taken {
        slug := base;
      } else {
        var n := FirstFreeCounter(taken, base + "-", "", 2);
        slug := Suffixed(base, n);
      }
    }
  }

  /** The slug `process_slug` settles on is a non-empty, well-formed slug no other product holds. */
  lemma {:induction false} ProductSlugIsSlug(base: string, taken: set<string>, slug: string)
    requires base != "" && IsSlug(base)
    requires slug !in taken
    requires base !in taken ==> slug == base
    requires base in taken ==> exists n :: FirstFreeFrom(taken, base + "-", "", 2, n) && slug == Suffixed(base, n)
    ensures slug != "" && IsSlug(slug) && slug !in taken
    ensures base in taken ==> slug != base + "-1"
  {
    if base in taken {
      var n :| FirstFreeFrom(taken, base + "-", "", 2, n) && slug == Suffixed(base, n);
      SuffixedIsSlug(base, n);
      if slug == base + "-1" {
        assert Candidate(base + "-", n, "") == Candidate(base + "-", 1, "");
        CandidateInjective(base + "-", "", n, 1);
      }
    }
  }

  /** `get_all_subcategory_ids(id)`: the id, then its descendants in `(sort_order, id)` preorder. */
  function AllSubcategoryIds(t: seq<Category>, id: nat): (r: seq<nat>)
    ensures r != [] && r[0] == id
    ensures forall x :: x in r <==> Below(t, x, id, |t|)
  {
    SubtreeIdsMembers(t, id, |t|, true);
    SubtreeIds(t, id, |t|, true)
  }

  /** `getProductsByCategoryID(id)`: the products (table order) whose category lies in the subtree. */
  function ProductsByCategory(products: seq<ProductRow>, t: seq<Category>, id: nat): (r: seq<ProductRow>)
    ensures forall p :: p in r <==> p in products && p.categoryId.Some? && Below(t, p.categoryId.value, id, |t|)
  {
    var ids := AllSubcategoryIds(t, id);
    if products == [] then []
    else
      (if products[0].categoryId.Some? && products[0].categoryId.value in ids then [products[0]] else [])
      + ProductsByCategory(products[1..], t, id)
  }
}
