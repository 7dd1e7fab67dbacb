// Blog posts and post categories (app/models/post.py,
// app/models/post_category.py, app/admin/posts_views.py): slug generation,
// the post form with its layout, the category filter of the post list and
// the deletion of a post category together with the posts of its subtree.
// Post categories have the same columns as product categories and are
// modelled with the same `Category` rows.

module Posts {
  import opened Common
  import opened Json
  import opened Slugify
  import opened UniqueSlugs
  import opened Categories
  import opened Layout

  datatype PostRow = PostRow(id: nat, title: string, slug: string, categoryId: Option<nat>)

  /**
   * Slugs of the posts other than `selfId`; for a post not yet saved the
   * filter `Post.id != None` is `id IS NOT NULL`, so every row counts.
   */
  function OtherPostSlugs(posts: seq<PostRow>, selfId: Option<nat>): set<string>
  {
    set p | p in posts && (selfId.Some? ==> p.id != selfId.value) :: p.slug
  }

  /** `.replace(" ", "-")`. */
  function SpacesToDashes(s: string): (r: string)
    ensures |r| == |s|
    ensures forall i :: 0 <= i < |s| ==> r[i] == if s[i] == ' ' then '-' else s[i]
  {
    if s == [] then [] else [if s[0] == ' ' then '-' else s[0]] + SpacesToDashes(s[1..])
  }

  /**
   * The base of `Post.generate_slug(base_slug)`: `base_slug`, or
   * `slugify(title)` when none is given, then lowercased with spaces
   * turned into dashes (the transliteration step is not modelled: the
   * given base is taken as already transliterated).
   */
  function PostBase(title: string, baseSlug: string): string
  {
    SpacesToDashes(Lower(if baseSlug == "" then AsciiSlugify(title) else baseSlug))
  }

  /** Without a given base the normalising step changes nothing: the base is `slugify(title)`. */
  lemma {:induction false} PostBaseOfTitle(title: string)
    ensures PostBase(title, "") == AsciiSlugify(title)
    ensures IsSlug(PostBase(title, ""))
  {
    AsciiSlugifyIdempotent(title);
    SlugSurvivesNormalising(AsciiSlugify(title));
  }

  lemma {:induction false} SlugSurvivesNormalising(s: string)
    requires IsSlug(s)
    ensures SpacesToDashes(Lower(s)) == s
  {
    var l := Lower(s);
    assert forall i :: 0 <= i < |s| ==> IsSlugChar(s[i]);
    assert forall i :: 0 <= i < |s| ==> l[i] == s[i];
    assert l == s;
    var d := SpacesToDashes(s);
    assert forall i :: 0 <= i < |s| ==> d[i] == s[i];
  }

  /** A post being saved: its id (None before the first flush), title and slug. */
  class PostDraft {
    var id: Option<nat>
    var title: string
    var slug: string

    constructor (id: Option<nat>, title: string, slug: string)
      ensures this.id == id && this.title == title && this.slug == slug
    {
      this.id := id;
      this.title := title;
      this.slug := slug;
    }

    /**
     * `Post.generate_slug(base_slug)`: the base when no other post holds
     * it, else `base-1`, `base-2`, ..., the first free; the slug is both
     * stored and returned.
     */
    method GenerateSlug(posts: seq<PostRow>, baseSlug: string) returns (s: string)
      modifies this
      ensures id == old(id) && title == old(title)
      ensures s == slug
      ensures slug !in OtherPostSlugs(posts, id)
      ensures UniqueSlugOf(PostBase(old(title), baseSlug), OtherPostSlugs(posts, id), slug)
    {
      slug := GenerateUniqueSlug(PostBase(title, baseSlug), OtherPostSlugs(posts, id));
      s := slug;
    }
  }

  /** Every slug of the post-category table. */
  function CategorySlugs(t: seq<Category>): set<string>
  {
    set c | c in t :: c.slug
  }

  /** A post category being saved. */
  class PostCategoryDraft {
    var id: Option<nat>
    var name: string
    var slug: string

    constructor (id: Option<nat>, name: string, slug: string)
      ensures this.id == id && this.name == name && this.slug == slug
    {
      this.id := id;
      this.name := name;
      this.slug := slug;
    }

    /**
     * `PostCategory.generate_slug(base_slug)`: the base (`slugify(name)`
     * when none is given) when no row holds it, else the first free
     * `base-n`, n >= 1. Every row counts, this category's own included.
     */
    method GenerateSlug(t: seq<Category>, baseSlug: string)
      modifies this
      ensures id == old(id) && name == old(name)
      ensures slug !in CategorySlugs(t)
      ensures UniqueSlugOf(if baseSlug == "" then AsciiSlugify(old(name)) else baseSlug, CategorySlugs(t), slug)
    {
      var base := if baseSlug == "" then AsciiSlugify(name) else baseSlug;
      slug := GenerateUniqueSlug(base, CategorySlugs(t));
    }
  }

  /** What `PostCategory.__eq__` may be compared with. */
  datatype PyValue = PostCategoryValue(id: Option<nat>) | OtherValue

  /** `__eq__`: a post category equals exactly the post categories with the same id. */
  function PostCategoryEq(selfId: Option<nat>, other: PyValue): (r: bool)
    ensures r <==> other.PostCategoryValue? && other.id == selfId
  {
    match other
    case PostCategoryValue(id) => id == selfId
    case OtherValue => false
  }

  /** `__hash__` is `hash(self.id)`: the hash depends on the id alone. */
  function PostCategoryHashKey(selfId: Option<nat>): Option<nat>
  {
    selfId
  }

  /** Equal post categories hash alike, and equality is an equivalence on post categories. */
  lemma {:induction false} PostCategoryEqHash(a: Option<nat>, b: Option<nat>, c: Option<nat>)
    ensures PostCategoryEq(a, PostCategoryValue(b)) ==> PostCategoryHashKey(a) == PostCategoryHashKey(b)
    ensures PostCategoryEq(a, PostCategoryValue(a))
    ensures PostCategoryEq(a, PostCategoryValue(b)) == PostCategoryEq(b, PostCategoryValue(a))
    ensures PostCategoryEq(a, PostCategoryValue(b)) && PostCategoryEq(b, PostCategoryValue(c)) ==> PostCategoryEq(a, PostCategoryValue(c))
    ensures !PostCategoryEq(a, OtherValue)
  {
  }

  // ---------------------------------------------------------------------
  // The post list

  /** `get_post_category_tree_ids(id)`: the id, then its descendants in preorder, children in table order. */
  function PostCategoryTreeIds(t: seq<Category>, id: nat): (r: seq<nat>)
    ensures r != [] && r[0] == id
    ensures forall x :: x in r <==> Below(t, x, id, |t|)
  {
    SubtreeIdsMembers(t, id, |t|, false);
    SubtreeIds(t, id, |t|, false)
  }

  /** `build_post_category_list()`: `(category, level)` pairs in `(sort_order, id)` preorder. */
  method PostCategoryList(t: seq<Category>) returns (r: seq<(Category, nat)>)
    ensures r == Preorder(Tree(t, None, |t|), 0)
    ensures LevelsFollowParents(r, None, 0) && AllIn(r, t)
  {
    r := BuildCategoryList(t, None, 0, |t|);
    CategoryListShape(t, None, 0, |t|);
  }

  /** `Post.title.ilike('%q%')`, without the LIKE wildcards inside `q`. */
  predicate TitleMatches(title: string, q: string)
  {
    Contains(Lower(title), Lower(q))
  }

  function SearchPosts(posts: seq<PostRow>, q: string): (r: seq<PostRow>)
    ensures forall p :: p in r <==> p in posts && TitleMatches(p.title, q)
  {
    if posts == [] then []
    else (if TitleMatches(posts[0].title, q) then [posts[0]] else []) + SearchPosts(posts[1..], q)
  }

  function PostsInCategories(posts: seq<PostRow>, ids: seq<nat>): (r: seq<PostRow>)
    ensures forall p :: p in r <==> p in posts && p.categoryId.Some? && p.categoryId.value in ids
  {
    if posts == [] then []
    else
      var head := if posts[0].categoryId.Some? && posts[0].categoryId.value in ids then [posts[0]] else [];
      head + PostsInCategories(posts[1..], ids)
  }

  /**
   * `admin_posts`: the posts whose title contains `search` (case aside),
   * restricted, when a category is given, to posts in its subtree. A
   * category parameter that is not an integer makes the view fail (None).
   */
  function AdminPostList(posts: seq<PostRow>, t: seq<Category>, search: string, category: string): (r: Option<seq<PostRow>>)
    ensures category == "" ==> r == Some(if search != "" then SearchPosts(posts, search) else posts)
    ensures category != "" && ParseInt(category).None? ==> r.None?
    ensures category != "" && ParseInt(category).Some? && ParseInt(category).value < 0 ==> r == Some([])
    ensures category != "" && ParseInt(category).Some? && ParseInt(category).value >= 0 ==>
      r.Some? && forall p :: p in r.value <==>
        p in posts && (search != "" ==> TitleMatches(p.title, search))
        && p.categoryId.Some? && Below(t, p.categoryId.value, ParseInt(category).value, |t|)
  {
    var found := if search != "" then SearchPosts(posts, search) else posts;
    if category == "" then Some(found)
    else match ParseInt(category)
      case None => None
      case Some(i) =>
        if i < 0 then Some([])  // `category_id IN (i)` matches no row: ids are never negative
        else Some(PostsInCategories(found, PostCategoryTreeIds(t, i)))
  }

  // ---------------------------------------------------------------------
  // Saving a post, deleting a post category

  predicate HasPost(posts: seq<PostRow>, id: nat)
  {
    exists p :: p in posts && p.id == id
  }

  predicate HasCategory(t: seq<Category>, id: nat)
  {
    exists c :: c in t && c.id == id
  }

  /** The committed post row: replaced in place when the id exists, appended otherwise. */
  function PutPost(posts: seq<PostRow>, p: PostRow): (r: seq<PostRow>)
    ensures p in r
    ensures forall q :: q in r && q.id != p.id <==> q in posts && q.id != p.id
  {
    if posts == [] then [p]
    else if posts[0].id == p.id then [p] + posts[1..]
    else [posts[0]] + PutPost(posts[1..], p)
  }

  function DropPost(posts: seq<PostRow>, id: nat): (r: seq<PostRow>)
    ensures forall q :: q in r <==> q in posts && q.id != id
  {
    if posts == [] then []
    else (if posts[0].id == id then [] else [posts[0]]) + DropPost(posts[1..], id)
  }

  /** The posts left after deleting each of `ids` in turn. */
  function DropPosts(posts: seq<PostRow>, ids: seq<nat>): seq<PostRow>
  {
    if ids == [] then posts else DropPost(DropPosts(posts, ids[..|ids| - 1]), ids[|ids| - 1])
  }

  /** The layout rows left after deleting those of each of `ids` in turn. */
  function DropOwners(cells: seq<Cell>, ids: seq<nat>): seq<Cell>
  {
    if ids == [] then cells else Others(DropOwners(cells, ids[..|ids| - 1]), ids[|ids| - 1])
  }

  lemma {:induction false} DropPostsMembers(posts: seq<PostRow>, ids: seq<nat>)
    ensures forall q :: q in DropPosts(posts, ids) <==> q in posts && q.id !in ids
  {
    if ids != [] {
      DropPostsMembers(posts, ids[..|ids| - 1]);
      assert ids == ids[..|ids| - 1] + [ids[|ids| - 1]];
    }
  }

  lemma {:induction false} DropOwnersSpec(cells: seq<Cell>, ids: seq<nat>, o: nat)
    ensures OwnedBy(DropOwners(cells, ids), o) == if o in ids then [] else OwnedBy(cells, o)
  {
    if ids != [] {
      DropOwnersSpec(cells, ids[..|ids| - 1], o);
      OwnedByOthers(DropOwners(cells, ids[..|ids| - 1]), ids[|ids| - 1], o);
      assert ids == ids[..|ids| - 1] + [ids[|ids| - 1]];
    }
  }

  /**
   * The ORM's handling of the deleted category's `children` backref:
   * their `parent_id` is set to NULL, so they become top-level categories.
   */
  function Orphan(t: seq<Category>, id: nat): (r: seq<Category>)
    ensures |r| == |t|
    ensures forall i :: 0 <= i < |t| ==>
      r[i] == if t[i].parentId == Some(id) then t[i].(parentId := None) else t[i]
  {
    if t == [] then []
    else [if t[0].parentId == Some(id) then t[0].(parentId := None) else t[0]] + Orphan(t[1..], id)
  }

  function DropCategory(t: seq<Category>, id: nat): (r: seq<Category>)
    ensures forall c :: c in r <==> c in t && c.id != id
  {
    if t == [] then []
    else (if t[0].id == id then [] else [t[0]]) + DropCategory(t[1..], id)
  }

  /** The post is filed in a category of the subtree of `id`. */
  predicate InSubtree(t: seq<Category>, p: PostRow, id: nat)
  {
    p.categoryId.Some? && p.categoryId.value in PostCategoryTreeIds(t, id)
  }

  /**
   * The ids of the posts `get_all_posts_in_category(id)` collects, in
   * table order (the source visits them category by category; the order
   * does not change what is deleted).
   */
  function SubtreePostIds(posts: seq<PostRow>, t: seq<Category>, id: nat): (r: seq<nat>)
    ensures forall x :: x in r <==> exists p :: p in posts && p.id == x && InSubtree(t, p, id)
  {
    if posts == [] then []
    else (if InSubtree(t, posts[0], id) then [posts[0].id] else []) + SubtreePostIds(posts[1..], t, id)
  }

  datatype PostFormResult =
    | PostNotFound           // `get_or_404` on an unknown post id
    | SlugRejected           // the post commit fails on the unique slug
    | LayoutCrash(slug: string) // post committed, then `json.loads` raised: a server error
    | PostSaved(slug: string)   // post and layout committed

  const PostDeleteErrorPrefix: string := "Ошибка при удалении категории постов"

  /** `if post_id:`: the post to edit, when an id is given and is not 0; otherwise a new post. */
  function Edited(postId: Option<nat>): (r: Option<nat>)
    ensures r.Some? <==> postId.Some? && postId.value != 0
    ensures r.Some? ==> r == postId
  {
    if postId.Some? && postId.value != 0 then postId else None
  }

  /** The post table, the `post_layout` table and the post-category table. */
  class PostSite {
    var posts: seq<PostRow>
    var layout: seq<Cell>
    var categories: seq<Category>

    constructor (posts: seq<PostRow>, layout: seq<Cell>, categories: seq<Category>)
      ensures this.posts == posts && this.layout == layout && this.categories == categories
    {
      this.posts := posts;
      this.layout := layout;
      this.categories := categories;
    }

    /**
     * POST to `admin_post_form(post_id)`: the post row takes the submitted
     * fields, its slug the submitted one or `generate_slug()`, and is
     * committed. Only for an existing post are its cells deleted; the
     * layout field is decoded without a guard: an empty field stores no
     * cells, any text `json.loads` rejects (white space included) raises
     * after the post was committed, and the old cells stay.
     */
    method PostForm(postId: Option<nat>, newId: nat, title: string, givenSlug: string,
                    categoryId: Option<nat>, field: LayoutText) returns (res: PostFormResult)
      requires Edited(postId).None? ==> !HasPost(posts, newId)
      modifies this
      ensures categories == old(categories)
      ensures Edited(postId).Some? && !HasPost(old(posts), Edited(postId).value) ==>
        res == PostNotFound && posts == old(posts) && layout == old(layout)
      ensures res.SlugRejected? ==>
        (posts == old(posts) && layout == old(layout)
         && givenSlug != "" && exists q :: q in old(posts) && q.slug == givenSlug && q.id != (if Edited(postId).Some? then Edited(postId).value else newId))
      ensures res.LayoutCrash? || res.PostSaved? ==>
        var id := if Edited(postId).Some? then Edited(postId).value else newId;
        posts == PutPost(old(posts), PostRow(id, title, res.slug, categoryId))
        && (givenSlug != "" ==> res.slug == givenSlug)
        && (givenSlug == "" ==> UniqueSlugOf(PostBase(title, ""), OtherPostSlugs(old(posts), Edited(postId)), res.slug))
        && (res.LayoutCrash? <==> PostFieldCells(field).None?)
        && (res.LayoutCrash? ==> layout == old(layout))
        && (res.PostSaved? ==> layout == (if Edited(postId).Some? then Others(old(layout), id) else old(layout)) + Place(id, PostFieldCells(field).value))
      ensures res != PostNotFound ==> Edited(postId).None? || HasPost(old(posts), Edited(postId).value)
    {
      var edited := Edited(postId);
      if edited.Some? && !HasPost(posts, edited.value) {
        return PostNotFound;
      }
      var id := if edited.Some? then edited.value else newId;
      var draft := new PostDraft(edited, title, givenSlug);
      var slug := givenSlug;
      if givenSlug == "" {
        slug := draft.GenerateSlug(posts, "");
      }
      if givenSlug != "" && exists q :: q in posts && q.slug == slug && q.id != id {
        return SlugRejected;
      }
      posts := PutPost(posts, PostRow(id, title, slug, categoryId));
      var cells: Option<seq<CellSpec>>;
      match field {
        case Empty =>
          cells := Some([]);
        case Whitespace =>
          cells := None;
        case Malformed =>
          cells := None;
        case Decodes(v) =>
          cells := CollectCells(v);
      }
      if cells.None? {
        return LayoutCrash(slug);
      }
      var kept := if edited.Some? then Others(layout, id) else layout;
      layout := kept + Place(id, cells.value);
      res := PostSaved(slug);
    }

    /**
     * `admin_post_categories_delete(id)`: every post of the category's
     * subtree loses its cells and is deleted, then the category; its direct
     * subcategories remain, now at the top level. An unknown id raises
     * inside the guarded block: rollback and an error message.
     */
    method DeletePostCategory(catId: nat) returns (flash: Flash)
      modifies this
      ensures !HasCategory(old(categories), catId) ==>
        flash.category == "error" && PostDeleteErrorPrefix <= flash.message
        && posts == old(posts) && layout == old(layout) && categories == old(categories)
      ensures HasCategory(old(categories), catId) ==>
        var victims := SubtreePostIds(old(posts), old(categories), catId);
        flash.category == "success"
        && posts == DropPosts(old(posts), victims)
        && layout == DropOwners(old(layout), victims)
        && categories == Orphan(DropCategory(old(categories), catId), catId)
    {
      var found := FindCategory(categories, catId);
      if found.None? {
        return Flash("error", PostDeleteErrorPrefix + ": 404 Not Found");
      }
      var category := found.value;
      var victims := SubtreePostIds(posts, categories, catId);
      var i := 0;
      while i < |victims|
        invariant 0 <= i <= |victims|
        invariant posts == DropPosts(old(posts), victims[..i])
        invariant layout == DropOwners(old(layout), victims[..i])
        invariant categories == old(categories)
      {
        assert victims[..i + 1][..i] == victims[..i];
        layout := Others(layout, victims[i]);
        posts := DropPost(posts, victims[i]);
        i := i + 1;
      }
      assert victims[..i] == victims;
      categories := Orphan(DropCategory(categories, catId), catId);
      flash := Flash("success", "Категория постов \"" + category.name + "\" и все посты в ней успешно удалены");
    }
  }

  /** `Category.query.get(id)`. */
  function FindCategory(t: seq<Category>, id: nat): (r: Option<Category>)
    ensures r.Some? ==> r.value in t && r.value.id == id
    ensures r.None? <==> !HasCategory(t, id)
  {
    if t == [] then None else if t[0].id == id then Some(t[0]) else FindCategory(t[1..], id)
  }

  /**
   * After the delete no post of the subtree and none of its cells is left;
   * every other post and every other owner's cells remain.
   */
  lemma {:induction false} DeleteSubtreeEffect(posts: seq<PostRow>, cells: seq<Cell>, t: seq<Category>, catId: nat, o: nat)
    ensures var victims := SubtreePostIds(posts, t, catId);
      (forall q :: q in DropPosts(posts, victims) <==>
         q in posts && !(exists p :: p in posts && p.id == q.id && InSubtree(t, p, catId)))
      && OwnedBy(DropOwners(cells, victims), o) == if o in victims then [] else OwnedBy(cells, o)
  {
    var victims := SubtreePostIds(posts, t, catId);
    DropPostsMembers(posts, victims);
    DropOwnersSpec(cells, victims, o);
  }
}
