# A verified model of the CMS page-composition engine

This project models, in Dafny, the core of a Flask content-management
system with a small shop. Pages and blog posts are built on a row/column
layout grid. Each cell of the grid holds an instance of a content module:
slider, banner, gallery, product tabs, navigation menu, or the slider and
slide-banner variants of the `remodule` package. Admin handlers save those
instances from indexed form fields. Storefront handlers turn them into the
data their templates render. Around that engine sit:

- the navigation menu, which is saved from a flat field stream, resolves
  its targets, expands the product catalogue and is nested into a tree with
  breadcrumbs;
- the header menu every page receives;
- the slug generators and their uniqueness counters;
- the category-tree walkers;
- the product option and variation lists;
- the cart options and the favourites table;
- the review paging;
- the product page script's variation matcher and image slider.

The database is a set of in-memory tables: sequences of rows in id order,
held in classes whose methods change them under `modifies` clauses.
Flask's `request.form` is an ordered multi-dictionary. A flash and redirect
is an outcome value. Every loop of the source is a method proved against a
specification function, and the properties the code promises are lemmas
about those functions. Among them:

- round trips between what the editors render and what the saves read back;
- replace semantics for layout cells and module children;
- ordering, and "every node once";
- termination of the menu tree;
- at most one main menu;
- all-or-nothing saves.

The files follow the source:

- `common`, `json`, `sorting`, `grouping`: shared vocabulary.
- `slugify`, `unique_slugs`: slugs.
- `categories`, `products`, `product_options`, `product_admin`, `storefront`, `product_page`: the shop.
- `layout`, `pages`, `posts`, `render`: the layout grid.
- `registry`, `module_forms`, `tables`: module handlers and their tables.
- `admin_banner`, `admin_gallery`, `admin_slider`, `admin_tabs`, `front_modules`, `remodule_slider`, `remodule_slidebanner`: the content modules.
- `admin_forms`: the admin forms.
- `menu_data`, `menu_targets`, `menu_catalog`, `menu_front`, `menu_save`, `menu_admin`, `menu_editor`: the navigation menu.

## Model

| member | source | states |
|---|---|---|
| Slugify.SlugTextIsSlug | app/models/base.py:22-24 | lowercasing, dash-joining every run outside `[a-zA-Z0-9]` and stripping dashes always yields a slug: lowercase letters and digits with single inner dashes and no dash at either end |
| Slugify.SlugTextKeepsAlnum | app/admin/forms.py:34-36 | every letter and digit of the input survives, lowercased and in order |
| Slugify.SlugTextFixesSlugs | app/admin/forms.py:34-36 | a text that is already a slug is returned unchanged |
| Slugify.SlugTextIdempotent | app/admin/forms.py:29-36 | slugifying twice gives the same slug as slugifying once |
| Slugify.AsciiOnly | app/models/base.py:21 | `encode('ascii', 'ignore')` leaves only characters below 128 |
| Slugify.AsciiOnlyKeepsAscii | app/models/base.py:21 | an all-ASCII text passes the ASCII filter unchanged |
| Slugify.AsciiSlugifyIdempotent | app/models/base.py:11-24 | `BaseModel.slugify` (and the identical `slugify` of app/admin/views.py and `PostCategory.slugify`) yields a slug and is idempotent |
| Slugify.TranslitSlugifyIsSlug | app/admin/forms.py:29-36 | the forms' `slugify` yields a slug, is idempotent and keeps every letter and digit of the transliterated text |
| Slugify.PageSlugIsSlug | app/admin/pages_views.py:164-176 | `generate_slug(title)` is never empty and always a slug; it is the slugified title whenever that is non-empty, else `'page'` |
| UniqueSlugs.FirstFreeCounter | app/admin/forms.py:39-45 | the counter loop stops at the first counter from its start whose candidate text is not taken; it terminates because taken candidates have bounded counters |
| UniqueSlugs.TakenCounterBound | app/admin/forms.py:42-44 | a counter whose candidate is taken is below `10^L`, `L` the longest taken text, so the loop ends |
| UniqueSlugs.GenerateUniqueSlug | app/admin/forms.py:39-45 | `generate_unique_slug` returns a slug not in the table: the base if free, else the first free `base-n` from 1 |
| UniqueSlugs.FirstFreeUnique | app/admin/forms.py:42-44 | only one counter can be the first free one |
| UniqueSlugs.UniqueSlugDeterministic | app/admin/forms.py:39-45 | the generated slug is determined by the base and the set of taken slugs |
| UniqueSlugs.CandidateInjective | app/admin/forms.py:43 | different counters give different candidates |
| UniqueSlugs.SuffixedIsSlug | app/models/post_category.py:48-51 | appending `-n` to a non-empty slug keeps it a slug |
| Sorting.InsertSpec | app/views/main.py:92 | inserting into a key-sorted list keeps it sorted, adds exactly the one element and keeps every other |
| Sorting.SortBy | app/views/main.py:92 | `sorted(..., key=(row, col))`: the result is ordered by the key and is a permutation of the input (same multiset, same length) |
| Sorting.SortByMembers | app/models/category.py:37 | an `ORDER BY` query returns exactly the rows it was given |
| Grouping.HasKeySnoc | app/admin/module_views.py:18-19 | a key occurs in the entries after one more append iff it occurred before or is the appended key |
| Grouping.GroupBy | app/admin/module_views.py:14-19 | the `setdefault(key, []).append(inst)` loop files every value under its key, in entry order; exactly the keys that occur are present |
| Grouping.GroupMembers | app/admin/module_views.py:19 | a value is listed under `k` exactly when the entry `(k, value)` occurs |
| Grouping.GroupSizes | app/admin/module_views.py:19 | no group is longer than the input, and a key that never occurs has no group |
| Json.OptText | app/admin/posts_views.py:349 | a missing column value is JSON null, a present one its text |
| Json.Lookup | app/__init__.py:57 | `dict.get`: a value is found iff some field carries the key, and the found pair is a field |
| Json.LookupFirst | app/__init__.py:57 | the first field with the key is the one returned |
| Json.Loads | app/views/modules/banner.py:42 | `json.loads` succeeds exactly on texts that encode a value |
| Json.Dumps | app/admin/modules/banner.py:113 | `json.dumps` gives a non-empty text that `json.loads` decodes back to the value |
| Json.FromJsonFilter | app/__init__.py:53-59 | the `from_json` filter: an empty value and a rejected text both give `{}`, a valid text its decoded value |
| Json.FromJsonInvertsDumps | app/__init__.py:53-59 | `from_json` inverts `json.dumps` for every value |
| Json.LoadSettings | app/views/modules/banner.py:42 | `json.loads(settings) if settings else {}`: empty settings give `{}`, valid ones their value, a rejected text makes the call fail |
| Common.NatToStringRoundTrip | app/admin/forms.py:43 | `str(counter)` is all digits and reads back as the same number |
| Common.NatToStringNoSign | app/admin/forms.py:43 | a rendered counter never starts with a minus sign |
| Common.NatToStringInjective | app/admin/forms.py:43 | distinct counters render as distinct texts |
| Common.Strip | app/admin/modules/slider.py:89 | `str.strip()`: the result neither starts nor ends with whitespace |
| Common.StripSlice | app/admin/modules/slider.py:89 | `str.strip()` keeps a slice `s[i..j]` of the input with only whitespace before `i` and from `j` on; with `Strip`'s own contract the result neither starts nor ends with whitespace |
| Common.StripNoSpace | app/admin/modules/menu.py:36 | stripping a text with no surrounding whitespace leaves it unchanged |
| Common.ParseIntRoundTrip | app/admin/modules/slider.py:91 | `int(str(i)) == i` for every integer |
| Common.ParseIntDigits | app/admin/modules/slider.py:34 | an all-digit text parses to its decimal value |
| Common.Lower | app/admin/forms.py:34 | `str.lower()` keeps the length and lowercases each character in place |
| Common.Split | app/admin/modules/slider.py:130 | `str.split(sep)` returns at least one piece |
| Common.SplitJoin | app/admin/modules/slider.py:130-133 | joining the pieces with the separator gives back the text, and no piece holds the separator |
| Common.JoinSplit | app/admin/modules/slider.py:130-133 | splitting pieces joined by a separator they do not contain gives back the pieces |
| Common.Before | app/admin/modules/slider.py:131 | `text.split(sep)[0]` is a prefix free of the separator, followed by the separator when shorter |
| Common.BeforeIsFirstPiece | app/admin/modules/slider.py:131 | `Before` is the first piece `split` returns |
| Common.Get | app/admin/modules/slider.py:34 | `form.get(name)` finds a value iff the name was submitted, and it is the first value under that name |
| Common.GetList | app/admin/modules/product_tab.py:81 | `form.getlist(name)` holds only and every values submitted under the name |
| Common.GetListAppend | app/admin/modules/product_tab.py:81 | `form.getlist(name)` over two concatenated submissions is the two results in order |
| Common.GetListSnoc | app/admin/modules/product_tab.py:81 | one more submitted pair appends its value to `getlist` exactly when its name matches: the values under the name, in submission order, repetitions kept |
| Common.Items | app/admin/views.py:810 | `form.items()` is no longer than the submission |
| Common.ItemsAgreeWithGet | app/admin/views.py:810 | `form.items()` names each submitted field once, with the value `form.get` returns for it |
| Common.WithoutGet | app/admin/views.py:810 | dropping one name does not change what `get` returns for another |
| Common.GetWithout | app/admin/views.py:810 | after dropping a name, `get` finds nothing under it |
| Tables.FirstOwned | app/admin/modules/banner.py:54 | `filter_by(owner).first()` finds a row iff the owner has one, and the row found is the owner's |
| Tables.Owned | app/admin/modules/banner.py:112 | `filter_by(owner).all()` holds exactly the owner's rows |
| Tables.Disown | app/admin/modules/banner.py:70-72 | deleting an owner's rows leaves exactly the rows of other owners |
| Tables.DropRow | app/admin/modules/banner.py:134-135 | deleting a row by id leaves exactly the rows with other ids |
| Tables.SetRow | app/admin/modules/banner.py:49-51 | updating a row by id replaces that row and no other, at its place |
| Tables.NewRows | app/admin/modules/banner.py:86-99 | the insert loop adds one row per entry |
| Tables.NewRowsAppend | app/admin/modules/banner.py:92-99 | one more entry adds one more row, numbered after the others |
| Tables.RowIds | app/admin/modules/banner.py:119-124 | the rows handed to the template, one id per row in order |
| Tables.MakeRows | app/admin/modules/banner.py:86-99 | the insert loop builds exactly the rows numbered on from `last` |
| Tables.FirstOwnedSet | app/admin/modules/banner.py:60-67 | the owner's first row, given new columns, is still the owner's first row |
| Tables.FirstOwnedAppend | app/admin/modules/banner.py:55-58 | a row created for an owner that had none becomes its first row |
| Tables.OwnedAppendNew | app/admin/modules/banner.py:86-99 | rows inserted for an owner with no rows left are exactly the owner's rows afterwards |
| Tables.ReplaceOwned | app/admin/modules/banner.py:69-99 | delete-then-insert: the owner ends with exactly the new rows, and every other owner's row stays |
| Tables.FirstOrCreateSpec | app/admin/modules/banner.py:54-58 | after first-or-create the owner's first row is the one written: the old row under its id or a new row under a fresh id; other rows stay |
| Tables.UpsertSpec | app/admin/modules/banner.py:39-51 | the module instance is found under the id the editor continues with, holding the new settings; a created one gets a fresh id; every other instance stays |
| ModuleForms.Part | app/admin/modules/slider.py:143-146 | `key.split("[")[n].split("]")[0]` exists iff there are more than n pieces, and holds no bracket |
| ModuleForms.KeyPieces | app/admin/modules/slider.py:143 | splitting a rendered `prefix[g1][g2]…` name at `[` gives the prefix and each group followed by `]` |
| ModuleForms.KeyRoundTrip | app/admin/modules/slider.py:143-146 | parsing a rendered input name gives back the prefix and every group, and nothing past the last |
| ModuleForms.SetField | app/admin/modules/banner.py:84 | `d[field] = value` adds at most one field |
| ModuleForms.SetFieldGet | app/admin/modules/banner.py:84 | after `d[field] = value`, reading `field` gives the value and every other field is unchanged |
| ModuleForms.RecordOf | app/admin/modules/banner.py:86 | a record is found iff its index was filed |
| ModuleForms.Put | app/admin/modules/banner.py:84 | `setdefault(idx, {})[field] = value` adds at most one record |
| ModuleForms.PutSpec | app/admin/modules/banner.py:84 | the record for the index is created when missing and gets the field; every other record is kept; indices stay distinct |
| ModuleForms.GroupFieldsFails | app/admin/modules/slider.py:143-146 | grouping fails (an `IndexError`) iff some name with the prefix has too few bracket groups and the handler does not skip it |
| ModuleForms.GroupFieldsSpec | app/admin/modules/banner.py:75-84 | one record per distinct index some grouped name carries, each field holding the last value submitted for it |
| ModuleForms.GroupFieldsFailExtends | app/admin/modules/slider.py:143-146 | once a prefix of the form fails, the whole form fails |
| ModuleForms.GroupForm | app/admin/modules/banner.py:75-84 | the `form.items()` loop fills the dict of dicts exactly as `GroupFields` specifies |
| ModuleForms.Flag | app/admin/modules/banner.py:31-34 | a checkbox is set iff the form sends `"on"` for it |
| ModuleForms.IntOr | app/admin/modules/banner.py:35 | `int(value or default)`: the default for a missing or empty value, the parsed number otherwise, failure where `int()` raises |
| ModuleForms.IntGet | app/admin/modules/slider.py:34 | `int(form.get(name, default))`: the default for a missing field, the parse of the text otherwise |
| ModuleForms.OrNone | app/admin/modules/banner.py:95-97 | `value or None`: present exactly for a non-empty text, and then that text |
| ModuleForms.OrEmpty | app/admin/modules/banner.py:95-97 | `value or ''`: the text when present, empty otherwise |
| ModuleForms.ImageId | app/admin/modules/slider.py:89-99 | an image id field is used exactly when it is present and parses as an integer, and is then that integer |
| ModuleForms.AllSomeSpec | app/admin/modules/slider.py:86-99 | a run of conversions fails iff some conversion fails; otherwise it holds every value in order |
| Categories.ChildRowsMembers | app/models/category.py:37 | `filter_by(parent_id=p)` returns exactly the rows whose parent is `p` |
| Categories.OrderedChildrenSpec | app/models/category.py:77-79 | the child query returns exactly the rows whose parent is `p`, ascending by `(sort_order, id)` |
| Categories.ForestShape | app/models/category.py:38-44 | the loop makes one node per child, in order, each carrying that child's subtree |
| Categories.TreeShape | app/models/category.py:27-44 | `get_category_tree(p)`: one node per direct child of `p` in `(sort_order, id)` order, each with its own subtree |
| Categories.GetCategoryTree | app/models/category.py:27-44 | the recursive method builds exactly the tree `Tree` specifies |
| Categories.TreeLoop | app/models/category.py:38-43 | the loop appends exactly one node per child, with its subtree |
| Categories.CategoryListShape | app/models/category.py:52-63 | `build_category_list(p, level)`: every entry is a category; entries at `level` are children of `p`; each deeper entry directly follows its parent's subtree start, one level further in |
| Categories.ForestListShape | app/models/category.py:59-62 | listing a run of children of `p` keeps the same shape |
| Categories.BuildCategoryList | app/models/category.py:52-63 | the recursive method lists the categories in preorder with their levels, as `Preorder` specifies |
| Categories.ListLoop | app/models/category.py:59-62 | each child's entry is followed by its own listing one level down |
| Categories.GetPcats | app/models/category.py:65-71 | `getPcats()`: the name and slug of every root category, one entry per root in `(sort_order, id)` order |
| Categories.Find | app/models/category.py:21 | the `parent` relationship finds the row with that id when there is one, and otherwise there is none |
| Categories.Ancestry | app/models/category.py:46-49 | the chain ends with the category itself, each entry is the parent of the next, and the chain starts at a root when it is shorter than the bound |
| Categories.FullNameIsChain | app/models/category.py:46-49 | `full_name()` is the names of the ancestor chain, topmost first, joined by `" > "` |
| Categories.KidsMembers | app/admin/views.py:1534 | the children visited, ordered or not, are exactly the rows whose parent is `p` |
| Categories.SubtreeIdsMembers | app/admin/views.py:1531-1537 | `get_category_tree_ids(root)` starts with the root and holds exactly the ids of its subtree |
| Categories.IdsBelowMembers | app/admin/views.py:1535-1536 | the ids the loop collects are exactly those below some child visited |
| Layout.IntColumn | app/admin/pages_views.py:89-95 | an absent or null value leaves the column's default; an integer or boolean is stored; a string is stored exactly when it reads as an integer (blanks, a sign, digits), as that integer; anything else is rejected at commit |
| Layout.DigitStringColumns | app/admin/pages_views.py:82-93 | a column submitted as a string of digits, such as `"6"`, is stored exactly as the integer 6 would be, in the integer columns and in `module_instance_id` |
| Layout.InstanceColumn | app/admin/pages_views.py:85 | `module_instance_id` is stored as given, null when absent; a string is stored as the integer it reads as, and refused at commit when it reads as none |
| Layout.Iterate | app/admin/pages_views.py:76 | `for x in v` visits an array's items; only arrays, objects and strings can be iterated |
| Layout.ColumnCell | app/admin/pages_views.py:82-95 | a column entry must be an object; an empty one with no row index gives cell `(0, 0, 3, None)` |
| Layout.ColumnsFailExtends | app/admin/pages_views.py:82-96 | one failing column entry fails the whole row |
| Layout.RowsFailExtends | app/admin/pages_views.py:76-96 | one failing row fails the whole layout |
| Layout.CollectCells | app/admin/pages_views.py:66-107 | the nested save loop collects exactly the cells `LayoutCells` specifies, or abandons the layout |
| Layout.CollectRowCells | app/admin/pages_views.py:77-96 | the column loop of one row entry yields exactly the cells `RowCells` specifies, or fails on a malformed row or column |
| Layout.FlattenCount | app/admin/pages_views.py:82 | a grid has one cell per column entry |
| Layout.ColumnsRoundTrip | app/admin/pages_views.py:82-95 | the encoded columns of a row are stored back as the same cells with that row's index |
| Layout.RowsRoundTrip | app/admin/pages_views.py:76-95 | the encoded rows are stored back as the grid's cells in order |
| Layout.GridRoundTrip | app/admin/pages_views.py:63-96 | saving the editor's JSON of a grid stores exactly one cell per column entry with its row index, column index, width and instance |
| Layout.Place | app/admin/pages_views.py:89-96 | one new layout row per cell, for the page, in order |
| Layout.OwnedByMembers | app/admin/pages_views.py:114 | a row belongs to the page exactly when it is in the table with that page's id |
| Layout.OwnedByAppend | app/admin/pages_views.py:96 | the owner's rows of two tables together are the rows of each |
| Layout.OwnedByOthers | app/admin/pages_views.py:60 | after the delete the page has no rows and other pages keep theirs |
| Layout.OwnedByPlace | app/admin/pages_views.py:89-96 | the new rows all belong to the page |
| Layout.ReplaceOwner | app/admin/pages_views.py:60-96 | saving replaces the page's layout: the page ends with exactly the new cells and every other page exactly its old rows |
| Layout.OthersSpec | app/admin/pages_views.py:156 | deleting a page's layout leaves none of its rows and every other page's rows |
| Layout.EditorCellsSpec | app/admin/pages_views.py:113-115 | the editor's cells: the page's rows sorted by `(row_index, col_index)`, a permutation of them |
| Layout.FindInstance | app/admin/modules/banner.py:39 | `ModuleInstance.query.get(id)` finds the instance with that id when there is one |
| Layout.WithSettings | app/admin/modules/banner.py:49-51 | the update changes only that instance's settings |
| Layout.FindInstanceWithSettings | app/admin/modules/banner.py:49-51 | after the update the instance is found with the new settings |
| Layout.FindInstanceAppend | app/admin/modules/banner.py:41-47 | an instance added under a new id is the one found under it |
| Layout.InstanceLabel | app/admin/pages_views.py:129-131 | an instance's label: its `name` setting when truthy, else `"Instance <id>"`; the view fails where the settings do not decode to an object |
| Layout.Labelled | app/admin/pages_views.py:133-136 | one `{id, label}` entry per instance |
| Layout.InstancesByModule | app/admin/pages_views.py:124-136 | every module with instances maps to its instances' `{id, label}` entries in order; the view fails iff some label fails |
| Pages.PutPage | app/admin/pages_views.py:52-53 | the committed page is in the table, and every other page is kept as it was |
| Pages.DropPage | app/admin/pages_views.py:158 | deleting a page leaves exactly the pages with other ids |
| Pages.SubmittedSlug | app/admin/pages_views.py:46 | `form.get('slug') or generate_slug(title)`: the submitted slug when non-empty, otherwise a well-formed generated slug; never empty |
| Pages.PageSite.PageForm | app/admin/pages_views.py:30-110 | an unknown page id is a 404 and changes nothing; otherwise the page row is committed, and the layout is replaced (for an existing page) or added; a layout that fails leaves the cells as they were; the home page reference stays valid |
| Pages.PageSite.PageDelete | app/admin/pages_views.py:151-161 | deleting a known page that is not the site's home page removes its cells and the page, with the success message; the home page is refused by the `home_page_id` foreign key (app/models/site_setings.py:41) and nothing changes; an unknown id is a 404 and changes nothing; the home page reference stays valid |
| Posts.SpacesToDashes | app/models/post.py:36 | `.replace(" ", "-")` keeps the length and turns exactly the spaces into dashes |
| Posts.PostBaseOfTitle | app/models/post.py:32-36 | with no base given, the base is `slugify(title)`, already a slug |
| Posts.SlugSurvivesNormalising | app/models/post.py:36 | lowercasing and dashing spaces leave a slug unchanged |
| Posts.PostDraft.GenerateSlug | app/models/post.py:32-48 | the stored and returned slug is the base or the first free `base-n` (n from 1), held by no other post |
| Posts.PostCategoryDraft.GenerateSlug | app/models/post_category.py:44-52 | the slug is the base (`slugify(name)` when none is given) or the first free `base-n`, held by no row of the table, this category's own included |
| Posts.PostCategoryEq | app/models/post_category.py:54-57 | `__eq__` holds exactly for another post category with the same id |
| Posts.PostCategoryEqHash | app/models/post_category.py:54-60 | equal post categories hash alike; equality is reflexive, symmetric and transitive; nothing else equals a post category |
| Posts.PostCategoryTreeIds | app/admin/posts_views.py:231-237 | `get_post_category_tree_ids(id)` starts with the id and holds exactly the ids of its subtree |
| Posts.PostCategoryList | app/admin/posts_views.py:246-255 | `build_post_category_list()` lists the categories in `(sort_order, id)` preorder, each entry a category, each level one below its parent's |
| Posts.SearchPosts | app/admin/posts_views.py:225-226 | the search keeps exactly the posts whose title contains the query, ignoring the case of ASCII letters |
| Posts.PostsInCategories | app/admin/posts_views.py:240 | the category filter keeps exactly the posts whose category is among the ids |
| Posts.AdminPostList | app/admin/posts_views.py:213-241 | no category: the search alone; a non-integer category makes the view fail; a negative id matches nothing; otherwise the search restricted to the posts of the subtree |
| Posts.PutPost | app/admin/posts_views.py:299-300 | the committed post is in the table, every other post is kept |
| Posts.DropPost | app/admin/posts_views.py:374-379 | deleting a post leaves exactly the posts with other ids |
| Posts.DropPostsMembers | app/admin/posts_views.py:190-195 | deleting the collected posts leaves exactly the posts not collected |
| Posts.DropOwnersSpec | app/admin/posts_views.py:194 | deleting the collected posts' cells leaves none of theirs and every other owner's |
| Posts.Orphan | app/models/post_category.py:16 | the deleted category's direct children lose their parent and every other row is unchanged |
| Posts.DropCategory | app/admin/posts_views.py:198 | deleting the category leaves exactly the other rows |
| Posts.SubtreePostIds | app/admin/posts_views.py:171-185 | `get_all_posts_in_category(id)` collects exactly the posts whose category lies in the subtree |
| Posts.PostSite.PostForm | app/admin/posts_views.py:263-334 | a missing or 0 post id creates a new post; an unknown post is a 404 that changes nothing; otherwise the post row is committed with the submitted slug or a generated unique one; a layout text `json.loads` rejects raises after that commit and leaves the old cells; else the cells are replaced (existing post) or added |
| Posts.PostSite.DeletePostCategory | app/admin/posts_views.py:164-208 | a known category: every post of its subtree and their cells are deleted, then the category, its children becoming top-level; an unknown id rolls back with the error message |
| Posts.FindCategory | app/admin/posts_views.py:167 | `query.get(id)` finds a row iff the id is in the table, and it has that id |
| Posts.DeleteSubtreeEffect | app/admin/posts_views.py:186-199 | after the delete no post of the subtree and none of its cells is left, and every other post and every other owner's cells remain |
| Products.ProductBase | app/models/product.py:107-115 | `_slugify(name or slug) or 'product'` is always a non-empty slug |
| Products.Product.ProcessSlug | app/models/product.py:88-128 | the slug is the base when no other product holds it, else the first free `base-n` with n counting from 2 |
| Products.ProductSlugIsSlug | app/models/product.py:117-128 | the slug `process_slug` settles on is a non-empty slug no other product holds, and never `base-1` |
| Products.AllSubcategoryIds | app/models/product.py:132-137 | `get_all_subcategory_ids(id)` starts with the id and holds exactly the ids of its subtree |
| Products.ProductsByCategory | app/models/product.py:139-142 | the products whose category lies in the subtree, and only those |
| Registry.FirstNamed | app/views/main.py:64-68 | the class found carries the name, is a class with `get_instance_data` or `save_instance`, and has `get_instance_data` when asked for a front class |
| Registry.FirstEligibleFront | app/views/main.py:64-75 | a front class named `n` implies an eligible one; a first eligible class with `get_instance_data` is also the first front class |
| Registry.FrontFoldAt | app/views/main.py:54-75 | one name of the front registry: present iff some eligible class has it, mapped to the first class with `get_instance_data` if any, else the first eligible class |
| Registry.FrontFoldSpec | app/views/main.py:54-75 | the whole front registry: the same for every name |
| Registry.FrontPriority | app/views/main.py:70-75 | when any eligible class of a name has `get_instance_data`, the registered class has it too |
| Registry.FirstNamedFinds | app/views/main.py:64-68 | an eligible class is always found under its name |
| Registry.FrontFoldAppend | app/views/main.py:54-56 | registering two namespaces in turn is registering their concatenation |
| Registry.RegisterFront | app/views/main.py:62-75 | the attribute loop registers one namespace as `FrontFold` specifies |
| Registry.BuildFrontRegistry | app/views/main.py:54-77 | the loading loop, front namespace before admin for each file, builds `FrontFold` of all scanned classes |
| Registry.LastSaver | app/admin/module_views.py:43-45 | the class found carries the name and has `save_instance` |
| Registry.AdminFoldSpec | app/admin/module_views.py:36-45 | the admin registry maps each name to its last class with `save_instance` and holds no other name |
| Registry.AdminFoldAppend | app/admin/module_views.py:36-38 | scanning two files in turn is scanning their concatenation |
| Registry.AdminRegistry.constructor | app/admin/module_views.py:28 | the cache starts empty |
| Registry.AdminRegistry.Load | app/admin/module_views.py:31-48 | the first call scans and caches the admin registry; later calls return the cached table unchanged |
| Registry.FindModule | app/admin/module_views.py:55 | `Module.query.get(id)` finds the module with that id when there is one |
| Registry.FormContext | app/admin/module_views.py:66-73 | the GET context holds `module` and `instance_id`, over the handler's keys, which are otherwise kept |
| Registry.EditModuleInstance | app/admin/module_views.py:54-78 | an unknown module is a 404; a POST goes to `save_instance` or gets the error message; a GET renders `creation_template` (or `all_modules.html`) with the context |
| Registry.InstanceTable.DeleteModuleInstance | app/admin/module_views.py:84-106 | an unknown module is a 404; when a handler's `del_instance` returns, either it found no instance and nothing changed, or the instance and its editor rows are gone and the page and post cells that showed it show no module; when it raises from a failed flush or commit, the instance lookup that follows raises too and the request fails with nothing changed; when it raises otherwise, or there is none, an unknown instance is a 404 after the queued message; the generic delete fails and rolls everything back with the error message exactly when an editor row (menu, banner, slider, gallery, tabs) references the instance; otherwise the instance is gone and the page and post cells that showed it show no module |
| Registry.LayoutCells.DetachInstance | app/models/page.py:41-48 | deleting an instance through the session leaves every page and post cell that showed it with no module and changes no other cell |
| Registry.Release | app/admin/modules/gallery.py:106-112 | once a handler has deleted an instance, no editor row references it and every other editor row remains |
| Registry.Detach | app/models/page.py:41-48 | the layout cells after their instance is deleted: same length, owners and positions, no cell shows the deleted instance, and every other cell is untouched |
| Registry.DropInstance | app/admin/module_views.py:98-99 | the generic delete leaves exactly the instances with other ids |
| Registry.ByModule | app/admin/module_views.py:18-19 | each instance paired with its module id, in order |
| Registry.ModulesList | app/admin/module_views.py:12-25 | `instances_by_module` maps exactly the modules with instances to their instances, in order |
| Registry.InstanceUnderOneKey | app/admin/module_views.py:18-19 | each instance is listed under its own module and no other |
| Render.ModuleSlug | app/views/main.py:109 | `name.lower().replace(" ", "_")` keeps the length, has no spaces and lowercases every other character |
| Render.BaseData | app/views/main.py:96-114 | a cell's base keys: row, column, width, module slug, template, settings decoded with every failure as `{}`, content and the instance |
| Render.ExtraSourceFor | app/views/main.py:117-133 | a registered class with `get_instance_data` answers; otherwise `BannerModule` and `TabsModule` have built-in fallbacks; others add nothing |
| Render.CellData | app/views/main.py:117-166 | a cell fails (and the page with it) exactly when its handler answers and raises |
| Render.HandlerKeysWin | app/views/main.py:121 | `module_data.update(handler data)`: the handler's keys win, the other base keys stay |
| Render.NoHandlerKeepsBase | app/views/main.py:163-164 | a module with no handler or fallback keeps exactly the base keys |
| Render.FallbacksKeepBase | app/views/main.py:124-162 | the banner and tabs fallbacks add their own keys and never change a base key |
| Render.Rendered | app/views/main.py:92-95 | no more cells are rendered than there are layout cells |
| Render.RenderedFailExtends | app/views/main.py:92-121 | once a cell fails, the whole page fails |
| Render.IndexStep | app/views/main.py:92-168 | one loop turn: a cell with no existing instance adds nothing; otherwise one more dictionary |
| Render.Index | app/views/main.py:82-173 | the `index` loop builds exactly the modules data of the sorted, rendered cells |
| Render.RenderedMembers | app/views/main.py:93-95 | a cell is rendered with its instance exactly when it names an existing instance |
| Render.RenderedSorted | app/views/main.py:92 | the rendered cells keep ascending (row, column) order |
| Render.IndexShape | app/views/main.py:91-168 | one dictionary per rendered cell, in ascending (row, column) order, each from that cell and its instance |
| Render.ModulesDataShape | app/views/main.py:105-168 | each dictionary is the cell's data, and there are as many as rendered cells |
| FrontModules.FirstAttached | app/views/modules/banner.py:45 | `filter_by(module_instance_id=id).first()` finds a row iff one is attached to the instance, and it is attached |
| FrontModules.ChildrenOf | app/views/modules/banner.py:48 | `filter_by(banner_id=…).all()` holds exactly the rows of that parent |
| FrontModules.ItemsOf | app/views/modules/banner.py:48 | the items of a missing parent row are `[]`, otherwise exactly the parent's rows |
| FrontModules.BannerInstanceData | app/views/modules/banner.py:32-57 | no instance: the defaults; otherwise the decoded settings, the banner row and its items; settings the decoder rejects make the call raise |
| FrontModules.SliderInstanceData | app/views/modules/slider.py:19-37 | no instance: the defaults; otherwise the decoded settings, the slider row and its slides; rejected settings raise |
| FrontModules.Limit | app/views/modules/product_tab.py:40 | `limit(n)` gives the first `min(n, rows)` rows; no limit keeps them all |
| FrontModules.InCategory | app/views/modules/product_tab.py:40 | the products of exactly that category |
| FrontModules.CustomIdsOf | app/views/modules/product_tab.py:48 | the ids read from the comma list are at most as many as its pieces |
| FrontModules.WithIds | app/views/modules/product_tab.py:50 | `filter(id.in_(ids))` keeps exactly the products whose id is listed |
| FrontModules.TabProducts | app/views/modules/product_tab.py:37-66 | a category tab: that category's products up to `limit_count`; a custom tab: the listed products; an `all` tab: the first `limit_count or 8`; any other tab: none; always products of the table |
| FrontModules.TabsOf | app/views/modules/product_tab.py:32 | exactly the tabs of that tabs row |
| FrontModules.TabEntries | app/views/modules/product_tab.py:35-66 | one `tab_products` entry per tab item |
| FrontModules.TabProductsLoop | app/views/modules/product_tab.py:37-66 | the loop fills `tab_products` exactly as `TabEntries` specifies |
| FrontModules.TabEntriesAt | app/views/modules/product_tab.py:44-66 | entry `k` is keyed by tab `k`'s id and holds that tab's products |
| FrontModules.EveryTabHasProducts | app/views/modules/product_tab.py:37-66 | every tab item has an entry in `tab_products` |
| FrontModules.TabsParts | app/views/modules/product_tab.py:29-73 | the tabs row, its tabs and their products; with no tabs row, no tabs and no products |
| FrontModules.TabsInstanceData | app/views/modules/product_tab.py:15-73 | no instance: the defaults; otherwise the decoded settings and the tabs parts; rejected settings raise |
| AdminBanner.Settings | app/admin/modules/banner.py:30-36 | the settings dict exists exactly when the interval converts, and is an object |
| AdminBanner.SettingsFields | app/admin/modules/banner.py:30-36 | each checkbox setting is true iff its field is "on", and the interval is the submitted number or 5000 |
| AdminBanner.CardsInRow | app/admin/modules/banner.py:62-65 | `cards_in_row`: the submitted number when it parses, else 3 |
| AdminBanner.BackgroundId | app/admin/modules/banner.py:88-94 | a card's background image: the submitted number when it parses and is positive, else none |
| AdminBanner.CardRecords | app/admin/modules/banner.py:75-84 | the card records are the grouping of `banners[idx][field]` names, which skips short names and so never fails |
| AdminBanner.Save | app/admin/modules/banner.py:17-104 | the handler's loops over locals produce exactly the outcome and tables `SaveSpec` specifies, with the banner row given its title before the INSERT: the corrected order (see Findings) |
| AdminBanner.SaveOutcome | app/admin/modules/banner.py:35-101 | for the corrected commit order (see Findings), a save fails exactly where the interval is not a number, a new instance names a missing module, or a card has no positive image id (the NOT NULL `background_image_id` refuses it at the commit); a failed save writes nothing |
| AdminBanner.CardsAfter | app/admin/modules/banner.py:86-99 | a banner with no cards left ends with exactly one card per record, in record order |
| AdminBanner.SavedState | app/admin/modules/banner.py:38-101 | after a successful save the instance holds the new settings, its banner row the title and cards per row, and its cards are exactly one per record with fresh ids, each with an image; other banners keep their cards; the tables stay valid |
| AdminBanner.CommitSpec | app/admin/modules/banner.py:53-101 | the commit, with the title given before the banner row's INSERT (the corrected order of the Findings table), succeeds exactly when every card has an image; it then writes the banner row first or created, replaces its cards and keeps every other banner's |
| AdminBanner.CommitRows | app/admin/modules/banner.py:53-101 | after a successful commit the banner row holds the title and cards per row, its cards are one per record in order with fresh ids, and other banners' cards stay |
| AdminBanner.CommitValid | app/admin/modules/banner.py:53-101 | a successful commit keeps every id and reference at or below the new id counter |
| AdminBanner.SaveAsWrittenOutcome | app/admin/modules/banner.py:17-104 | the save as written fails wherever the corrected save fails and also wherever it would create the instance's banner row (a new instance, or one without a banner row); a failure writes nothing, and otherwise the two saves agree |
| AdminBanner.NewBannerRefused | app/admin/modules/banner.py:53-61 | as written, the first save of a banner is refused (the row is flushed before its NOT NULL title is set) and writes nothing, where the corrected commit saves the row with its title |
| AdminBanner.LoadInstanceData | app/admin/modules/banner.py:106-124 | no id: no instance, banner or cards and `{}`; otherwise the instance (a 404 when unknown), its first banner row, that banner's cards and the decoded settings (`{}` when empty; a rejected text fails the request) |
| AdminBanner.SaveThenLoad | app/admin/modules/banner.py:17-124 | what a successful save stores is what the editor loads next: the settings and one card per record |
| AdminBanner.LoadFound | app/admin/modules/banner.py:109-113 | loading an instance with settings and a banner row gives them and that banner's cards |
| AdminBanner.DeletedSpec | app/admin/modules/banner.py:126-138 | after the delete the instance is gone, with its first banner row and that banner's cards; every other instance stays |
| AdminBanner.BannerStore.SaveInstance | app/admin/modules/banner.py:17-104 | the store's tables end as `SaveSpec` describes, in one commit, with the corrected commit order (see Findings) |
| AdminBanner.BannerStore.DeleteInstance | app/admin/modules/banner.py:126-138 | an unknown instance is a 404 that changes nothing; otherwise the tables end as `Deleted` describes; the page and post cells change exactly when the instance is deleted: each that showed it then shows no module |
| AdminForms.NameBase | app/admin/forms.py:81-83 | `slugify(name) or 'category'` is a non-empty slug |
| AdminForms.FirstWithSlug | app/admin/forms.py:74 | `filter_by(slug=…).first()` finds a row with that slug, or there is none |
| AdminForms.ValidateCategorySlugSpec | app/admin/forms.py:72-77 | with unique slugs, the check fails exactly when another category already uses the given slug |
| AdminForms.Indent | app/admin/forms.py:163 | `"— " * level` is `2 * level` characters, dash and space alternating |
| AdminForms.HierarchicalCategories | app/admin/forms.py:151-167 | the category listing in preorder, each labelled with its level's indent and its name |
| AdminForms.CategoryForm.ProcessSlug | app/admin/forms.py:79-103 | no slug, or one that cleans to nothing: the name's slug (or `category`) made unique; a cleaned slug another category uses: made unique; otherwise the cleaned slug as is |
| AdminForms.ProcessedSlugIsFree | app/admin/forms.py:79-103 | `process_slug` leaves a non-empty slug no other category uses |
| AdminForms.SlugFillForm.ProcessSlug | app/admin/forms.py:376-379 | a given slug is kept; a missing one becomes the first free slug of the title |
| AdminForms.ValidateOwnSlug | app/admin/forms.py:370-374 | the post forms' check fails iff a slug was given and any row of their table uses it, the edited row included |
| AdminGallery.Settings | app/admin/modules/gallery.py:23 | the settings are an object whose `name` is the submitted title, null when absent |
| AdminGallery.GalleryOf | app/admin/modules/gallery.py:35-43 | the gallery title is the submitted one; with none, a new row takes the column default (an INSERT leaves out None) and an existing one is refused (an UPDATE writes NULL into the NOT NULL column); the description is "" when empty |
| AdminGallery.GalleryItemsSpec | app/admin/modules/gallery.py:58-73 | every item comes from a record whose image id is a non-zero number, and every such record gives its item |
| AdminGallery.MakeItems | app/admin/modules/gallery.py:58-73 | the item loop adds exactly one row per kept record, numbered on from `last` |
| AdminGallery.FillTables | app/admin/modules/gallery.py:48-75 | the grouping loop and the item loop give exactly the outcome `Fill` specifies |
| AdminGallery.PrepareSpec | app/admin/modules/gallery.py:17-44 | the first commit writes the gallery row and leaves it no items |
| AdminGallery.FillSpec | app/admin/modules/gallery.py:48-75 | when the second phase commits, the gallery's items are exactly the new ones |
| AdminGallery.SaveOutcome | app/admin/modules/gallery.py:11-79 | a new instance naming a missing module, or an existing gallery saved without a title (commit at line 43), fails with nothing written; otherwise the save fails exactly where a name under `images[` is malformed, and then the first commit stays: the gallery row written and empty |
| AdminGallery.PhasesOutcome | app/admin/modules/gallery.py:32-75 | once the instance is written, the second phase fails iff a name under `images[` is malformed, and the gallery row stays with no items |
| AdminGallery.SavePhases | app/admin/modules/gallery.py:11-79 | the save ends in the specified outcome and tables, and the second commit changes only items and the id counter |
| AdminGallery.SavedState | app/admin/modules/gallery.py:11-79 | after a successful save the instance holds the new settings, the gallery row the submitted title (the column default for a new row given none) and description, and its items are exactly one per record naming an image, in order; other galleries keep theirs; the tables stay valid |
| AdminGallery.LoadInstanceData | app/admin/modules/gallery.py:81-96 | no id: no instance, gallery or items; otherwise the instance (a 404 when unknown), its first gallery row and that gallery's items |
| AdminGallery.SaveThenLoad | app/admin/modules/gallery.py:11-96 | a saved gallery loads with one item per record that named an image |
| AdminGallery.DeletedSpec | app/admin/modules/gallery.py:98-114 | after the delete, loading the instance is a 404, its gallery has no items, and other instances stay |
| AdminGallery.GalleryStore.SaveInstance | app/admin/modules/gallery.py:11-79 | the store's tables end as `SaveSpec` describes, phase by phase |
| AdminGallery.GalleryStore.DeleteInstance | app/admin/modules/gallery.py:98-114 | an unknown instance gives the error message and changes nothing; otherwise the tables end as `Deleted` describes; the page and post cells change exactly when the instance is deleted: each that showed it then shows no module |
| AdminTabs.CreatedSettings | app/admin/modules/product_tab.py:28 | a new instance's settings hold the module title under `name` and no `title` |
| AdminTabs.UpdatedSettings | app/admin/modules/product_tab.py:35 | an existing instance's settings hold the module title under `title` and no `name` |
| AdminTabs.TabsTitle | app/admin/modules/product_tab.py:47 | the tabs row's title is the module title, or "Табы" when missing or empty |
| AdminTabs.NewTab | app/admin/modules/product_tab.py:66-92 | a record's tab: title "Вкладка" and mode "category" by default; a category tab holds the category id and the limit (8 when empty) and fails where `int()` raises; a custom tab the comma-joined selection |
| AdminTabs.TabResults | app/admin/modules/product_tab.py:66-92 | one tab result per record, in order |
| AdminTabs.TabsDataSpec | app/admin/modules/product_tab.py:66-92 | the tabs fail iff some record's tab fails; otherwise one tab per record |
| AdminTabs.MakeTabs | app/admin/modules/product_tab.py:66-92 | the tab loop adds exactly one row per record numbered on from `last`, or fails where a tab fails |
| AdminTabs.FillTables | app/admin/modules/product_tab.py:53-94 | the grouping loop and the tab loop give exactly the outcome `Fill` specifies |
| AdminTabs.PrepareSpec | app/admin/modules/product_tab.py:22-48 | the first commit writes the tabs row and leaves it no tabs |
| AdminTabs.FillSpec | app/admin/modules/product_tab.py:53-94 | when the second phase commits, the tabs row's tabs are exactly the new ones and nothing else changes |
| AdminTabs.TabsAfter | app/admin/modules/product_tab.py:66-92 | the new tab rows hold the records' tabs one by one |
| AdminTabs.SavedState | app/admin/modules/product_tab.py:15-99 | after a successful save the instance holds the settings for its case, the tabs row the title, and its tabs are exactly one per record in order; other tabs rows keep theirs; the tables stay valid |
| AdminTabs.CrashAfterCommit | app/admin/modules/product_tab.py:48-94 | a malformed name or a tab whose numbers do not parse fails after the first commit, leaving the tabs row written with no tabs |
| AdminTabs.DigitValues | app/views/modules/product_tab.py:48 | one value per digit piece |
| AdminTabs.CustomIdsOfDigits | app/views/modules/product_tab.py:48-50 | the storefront reads each digit piece back as its number |
| AdminTabs.CustomSelectionRoundTrip | app/admin/modules/product_tab.py:81-84 | a custom tab saved with a selection of ids shows exactly those products: the comma-joined text splits back into the submitted ids |
| AdminTabs.LoadInstanceData | app/admin/modules/product_tab.py:101-127 | no id: no instance, tabs row or tabs; otherwise the instance (a 404 when unknown), its first tabs row and that row's tabs; either way the categories and products |
| AdminTabs.DeletedSpec | app/admin/modules/product_tab.py:129-147 | after the delete, loading the instance is a 404, its tabs row has no tabs, and other instances stay |
| AdminTabs.TabsStore.SaveInstance | app/admin/modules/product_tab.py:15-99 | the store's tables end as `SaveSpec` describes, phase by phase |
| AdminTabs.TabsStore.DeleteInstance | app/admin/modules/product_tab.py:129-147 | an unknown instance gives the error message and changes nothing; otherwise the tables end as `Deleted` describes; the page and post cells change exactly when the instance is deleted: each that showed it then shows no module |
| AdminSlider.Settings | app/admin/modules/slider.py:27-35 | the settings dict exists exactly when the interval converts, and is an object |
| AdminSlider.SettingsFields | app/admin/modules/slider.py:27-35 | `name` is the submitted title (null when absent), each checkbox setting is true iff its field is "on", the interval is the submitted number or 5000 |
| AdminSlider.NewSlidesAt | app/admin/modules/slider.py:86-117 | one slide per record; slide j gets id `last + 1 + j`, the slider and record j's fields |
| AdminSlider.ButtonGroupsFailExtends | app/admin/modules/slider.py:141-147 | once a button name of the form is malformed, the whole grouping fails |
| AdminSlider.GroupButtons | app/admin/modules/slider.py:140-147 | the loop filling `buttons_tmp` gives exactly `ButtonGroups` |
| AdminSlider.NewButton | app/admin/modules/slider.py:153-160 | a button exists iff `int(bidx)` converts; it carries the slide and `order == int(bidx)` |
| AdminSlider.ButtonsFromSpec | app/admin/modules/slider.py:148-161 | each button made comes from a group whose slide index is found, with that slide and `order == int(b)` |
| AdminSlider.ButtonsFromFailExtends | app/admin/modules/slider.py:148-161 | one bad button index fails the whole button loop |
| AdminSlider.FillTables | app/admin/modules/slider.py:74-162 | the second phase over the committed tables gives exactly the outcome `Fill` specifies, buttons placed by the corrected rule (see Findings) |
| AdminSlider.FillFromRecords | app/admin/modules/slider.py:86-117 | over grouped records, a slide without a PC image fails the flush with the first commit kept; otherwise the button phase follows |
| AdminSlider.FillButtons | app/admin/modules/slider.py:86-162 | the slide loop and the button loops give exactly the outcome `ButtonsPhase` specifies, buttons placed by the corrected rule |
| AdminSlider.AllPcImagedMeans | app/models/modules/slider.py:32 | the slides can all be flushed exactly when every record's `image_pc_id` converts to a number (the column is NOT NULL) |
| AdminSlider.FillOutcome | app/admin/modules/slider.py:74-162 | the second phase ends in the save or in a failure that keeps the first commit, and it saves only when every slide has its PC image |
| AdminSlider.SaveOutcome | app/admin/modules/slider.py:18-162 | a missing module id is the only error redirect; an interval `int()` rejects, a new instance with a missing module, a slider row without a title (NOT NULL) or with a transition outside `fade`/`slide` fail with nothing written; past the first commit a failure keeps that commit, and a slide without a PC image is one |
| AdminSlider.MakeSlides | app/admin/modules/slider.py:86-117 | the slide loop adds exactly one new slide per record, numbered on from `last` |
| AdminSlider.MakeButtons | app/admin/modules/slider.py:148-161 | the button loop makes exactly the buttons `ButtonsFrom` describes, or fails on a bad index |
| AdminSlider.FindPosition | app/admin/modules/slider.py:139 | the position found prints as the slide index and is in range; none when no position does |
| AdminSlider.RecordPosition | app/admin/modules/slider.py:74-84 | the position of the record submitted under `idx`, or none when no record was |
| AdminSlider.ButtonsAsWritten | app/admin/modules/slider.py:139-151 | as written, a button lands on the slide whose enumeration position prints as the button's slide index |
| AdminSlider.ButtonsByIndex | app/admin/modules/slider.py:139-151 | corrected, a button lands on the slide made from the record submitted under its own slide index |
| AdminSlider.DroppedButtonExample | app/admin/modules/slider.py:139-151 | a single slide submitted under index 1 with one button: as written the button is dropped, by index it is kept |
| AdminSlider.FirstSlider | app/admin/modules/slider.py:49 | `filter_by(module_instance_id=id).first()` finds the instance's slider row when there is one |
| AdminSlider.UpdateSlider | app/admin/modules/slider.py:62-68 | writing the slider row's fields replaces that row and no other |
| AdminSlider.DropSlider | app/admin/modules/slider.py:208 | deleting the slider row leaves exactly the other rows |
| AdminSlider.SlidesOf | app/admin/modules/slider.py:58 | exactly the slides of that slider |
| AdminSlider.DropSlidesOf | app/admin/modules/slider.py:205 | deleting a slider's slides leaves exactly the slides of the other sliders |
| AdminSlider.KeepButtons | app/admin/modules/slider.py:57-61 | the ORM delete cascades to the buttons: exactly the buttons not on the slider's slides remain |
| AdminSlider.SlideIds | app/admin/modules/slider.py:177 | one id per slide, in order |
| AdminSlider.SlidesOfAppendNew | app/admin/modules/slider.py:86-117 | slides added to a slider with none left are exactly its slides |
| AdminSlider.SliderColumns | app/admin/modules/slider.py:50-68 | the slider row holds the submitted title, width and transition and the three flags; a width or transition that is None becomes the column default (100, `slide`) on a new row and NULL on an existing one |
| AdminSlider.PrepareSpec | app/admin/modules/slider.py:23-70 | the first commit: the instance with the new settings, its first slider row with the columns `SliderColumns` gives (defaults on a new row), no slides left on it, every other slider's slides kept |
| AdminSlider.FillSpec | app/admin/modules/slider.py:74-162 | when the second phase commits, the slider's slides are exactly the new ones |
| AdminSlider.SavedState | app/admin/modules/slider.py:14-166 | after a successful save the instance holds the new settings, the slider row the submitted title, status, and width and transition when given, and its slides are exactly one per record in order; other sliders keep theirs |
| AdminSlider.FirstSliderUpdate | app/admin/modules/slider.py:62-70 | the instance's slider row, updated, is still its first |
| AdminSlider.FirstSliderAppend | app/admin/modules/slider.py:51-55 | a slider row created for an instance with none becomes its first |
| AdminSlider.LoadInstanceData | app/admin/modules/slider.py:168-187 | no id: no instance, slider or slides; otherwise the instance (a 404 when unknown), its slider row and that slider's slides |
| AdminSlider.InstanceData | app/admin/modules/slider.py:219-243 | no instance: the defaults; otherwise the decoded settings, the slider row and its slides; rejected settings raise |
| AdminSlider.InstanceDataAgrees | app/views/modules/slider.py:19-37 | the editor's `get_instance_data` is the storefront handler's over the same rows |
| AdminSlider.SliderStore.SaveInstance | app/admin/modules/slider.py:14-166 | a missing module id gives the error and writes nothing; otherwise the tables end as `SaveSpec` describes, buttons placed by the corrected rule (see Findings) |
| AdminSlider.SavePhases | app/admin/modules/slider.py:14-162 | the save ends in the outcome and tables `SaveSpec` specifies, buttons placed by the corrected rule (see Findings), and the second commit changes only slides, buttons and the id counter |
| AdminSlider.DeletedSpec | app/admin/modules/slider.py:200-213 | the delete fails exactly when a button sits on a slide of the instance's slider (the bulk delete bypasses the cascade and the `slider_buttons.slide_id` foreign key refuses it); when it goes through the instance is a 404, the slider row and its slides are gone, every other instance and every button stays, and no button is left pointing at a removed slide |
| AdminSlider.SliderStore.DeleteInstance | app/admin/modules/slider.py:189-217 | an unknown instance gives the error and changes nothing; a delete the foreign key refuses fails the request and changes nothing; otherwise the tables end as `Deleted` describes; the page and post cells change exactly when the instance is deleted: each that showed it then shows no module |
| RemoduleSlider.Settings | remodule/slider/slider.py:29 | the settings hold exactly `name` (the title, null when absent) and `status` (true iff "on") |
| RemoduleSlider.Width | remodule/slider/slider.py:49-52 | `int(form.get("width", 100))`, or 100 where `int()` raises |
| RemoduleSlider.Transition | remodule/slider/slider.py:54 | the transition is `fade` only when submitted so, `slide` otherwise |
| RemoduleSlider.FlatFieldNotButtons | remodule/slider/slider.py:71-79 | a name taken as a plain slide field never reads as `buttons` |
| RemoduleSlider.ButtonKeyRoundTrip | remodule/slider/slider.py:66-76 | a rendered `slides[s][buttons][b][f]` name reads back as that button field |
| RemoduleSlider.FlatKeyRoundTrip | remodule/slider/slider.py:66-79 | a rendered `slides[s][f]` name reads back as that slide field |
| RemoduleSlider.DraftAt | remodule/slider/slider.py:68 | a slide draft is found iff its index was filed |
| RemoduleSlider.WithDraftSpec | remodule/slider/slider.py:68-79 | writing a draft replaces or adds that index's draft and keeps every other; indices stay distinct |
| RemoduleSlider.SlideDraftsFails | remodule/slider/slider.py:64-79 | the parse fails (an `IndexError`) iff some `slides[` name has too few bracket groups |
| RemoduleSlider.HasButtonHasSlide | remodule/slider/slider.py:68-76 | a button is only ever filed under a slide that is filed |
| RemoduleSlider.SlideDraftsSpec | remodule/slider/slider.py:63-79 | one draft per slide index named, each field and each button field holding the last value submitted for it |
| RemoduleSlider.ParseSlides | remodule/slider/slider.py:63-79 | the parsing loop fills the nested dict exactly as `SlideDrafts` specifies |
| RemoduleSlider.ButtonJson | remodule/slider/slider.py:85-90 | a stored button is an object with exactly its four fields |
| RemoduleSlider.ButtonList | remodule/slider/slider.py:83-90 | one stored button per submitted button index, in first-submission order |
| RemoduleSlider.DecodeButtons | remodule/slider/slider.py:120 | `json.loads(buttons) if buttons else []` |
| RemoduleSlider.ButtonsText | remodule/slider/slider.py:99 | the buttons column is NULL exactly when the slide has none, and decodes back to the button list |
| RemoduleSlider.NewSlide | remodule/slider/slider.py:92-100 | a slide fails iff an image id is present and not a number; the text colour defaults to black |
| RemoduleSlider.SlideResults | remodule/slider/slider.py:82-101 | one slide result per draft, in order |
| RemoduleSlider.SlidesDataSpec | remodule/slider/slider.py:82-101 | the slides fail iff some draft's slide fails; otherwise one per draft |
| RemoduleSlider.MakeSlides | remodule/slider/slider.py:82-101 | the slide loop adds exactly one new row per draft numbered on from `last`, or fails where a slide fails |
| RemoduleSlider.FillTables | remodule/slider/slider.py:63-103 | the parsing loop and the slide loop give exactly the outcome `Fill` specifies |
| RemoduleSlider.PrepareSpec | remodule/slider/slider.py:23-59 | the first commit writes the slider row and leaves it no slides |
| RemoduleSlider.FillSpec | remodule/slider/slider.py:63-103 | when the second phase commits, the slider's slides are exactly the new ones and nothing else changes |
| RemoduleSlider.SlidesAfter | remodule/slider/slider.py:82-101 | the new slide rows hold the drafts' slides one by one |
| RemoduleSlider.SavedState | remodule/slider/slider.py:14-107 | after a successful save the instance holds the settings, the slider row the submitted columns, and its slides are exactly one per slide index in first-seen order, each with positive image ids; other sliders keep theirs; the tables stay valid |
| RemoduleSlider.AllReferableMeans | remodule/slider/slider.py:94-95 | the recursive foreign-key check holds iff every row's PC and mobile image ids are positive |
| RemoduleSlider.DraftsRefused | remodule/slider/slider.py:82-103 | the slide loop fails or the commit refuses a row iff some draft has an image id that is not a number or is not positive (0 when missing) |
| RemoduleSlider.FillOutcome | remodule/slider/slider.py:63-103 | the second phase fails iff a name is too short or some draft is refused, keeping the first commit's tables; otherwise it reports the instance |
| RemoduleSlider.SaveOutcome | remodule/slider/slider.py:14-107 | a new instance naming a missing module, or a form without a title (NOT NULL column, first commit at line 59), fails with nothing written; otherwise the save fails exactly where a name is too short or an image id is not a number or names no image (0 when missing, refused at line 103), and the slider row stays written with no slides |
| RemoduleSlider.SlideView | remodule/slider/slider.py:119-120 | a slide's view fails exactly when its buttons text does not decode |
| RemoduleSlider.SlideViews | remodule/slider/slider.py:118-120 | the slides' views fail exactly when some buttons text does not decode |
| RemoduleSlider.LoadInstanceData | remodule/slider/slider.py:109-130 | no id: no instance, slider or slides; otherwise the instance (a 404 when unknown), its first slider row and its slides with buttons decoded |
| RemoduleSlider.InstanceData | remodule/slider/slider.py:154-177 | no instance: the defaults; otherwise the settings (`{}` when empty), the slider row and its slides with buttons decoded; a text that does not decode fails |
| RemoduleSlider.SaveThenLoad | remodule/slider/slider.py:14-130 | a saved slider loads each slide back with the buttons submitted for it, in order, and an empty list when it had none |
| RemoduleSlider.SavedId | remodule/slider/slider.py:106-107 | a saved instance has a real id |
| RemoduleSlider.LoadedSlides | remodule/slider/slider.py:92-120 | slide rows written from drafts read back with the drafts' buttons |
| RemoduleSlider.LoadedSlide | remodule/slider/slider.py:99-120 | one slide written from a draft reads back with that draft's buttons |
| RemoduleSlider.DeletedSpec | remodule/slider/slider.py:132-152 | after the delete, loading the instance is a 404, its slider has no slides, and other instances stay |
| RemoduleSlider.SliderStore.SaveInstance | remodule/slider/slider.py:14-107 | the store's tables end as `SaveSpec` describes, phase by phase |
| RemoduleSlider.SavePhases | remodule/slider/slider.py:14-103 | the save ends in the specified outcome and tables, and the second commit changes only slides and the id counter |
| RemoduleSlider.SliderStore.DeleteInstance | remodule/slider/slider.py:132-152 | an unknown instance gives the error and changes nothing; otherwise the tables end as `Deleted` describes; the page and post cells change exactly when the instance is deleted: each that showed it then shows no module |
| RemoduleSlideBanner.Settings | remodule/slidebanner/slidebanner.py:27-34 | the settings dict fails exactly when a submitted interval does not convert |
| RemoduleSlideBanner.SettingsFields | remodule/slidebanner/slidebanner.py:27-34 | `name` is the title or "", each checkbox is true iff its field is "on", the interval is the submitted number or 5000 when none is submitted |
| RemoduleSlideBanner.SettingsDictFields | remodule/slidebanner/slidebanner.py:27-34 | the dict holds each of the six settings as computed |
| RemoduleSlideBanner.BackgroundId | remodule/slidebanner/slidebanner.py:84-88 | a card's background image: the submitted number, or 0 when missing or `int()` raises |
| RemoduleSlideBanner.BannerItems | remodule/slidebanner/slidebanner.py:83-97 | one card per record, in order |
| RemoduleSlideBanner.CardRecordsFail | remodule/slidebanner/slidebanner.py:68-75 | the loop raises iff some `banners[` name lacks its index or field group |
| RemoduleSlideBanner.WarningsSpec | remodule/slidebanner/slidebanner.py:78-80 | the warning is shown exactly when no submitted name starts with `banners[`, and otherwise none |
| RemoduleSlideBanner.FillTables | remodule/slidebanner/slidebanner.py:67-100 | the grouping loop and the card loop give exactly the outcome `Fill` specifies |
| RemoduleSlideBanner.PrepareSpec | remodule/slidebanner/slidebanner.py:25-63 | the first commit writes the banner row and leaves it no cards |
| RemoduleSlideBanner.FillSpec | remodule/slidebanner/slidebanner.py:67-100 | when the second phase commits, the banner's cards are exactly the new ones and nothing else changes |
| RemoduleSlideBanner.ItemsAfter | remodule/slidebanner/slidebanner.py:83-97 | the new card rows hold the records' cards one by one, with fresh ids |
| RemoduleSlideBanner.SavedState | remodule/slidebanner/slidebanner.py:18-105 | after a successful save the instance holds the settings, the banner row the title and cards per row, and its cards are exactly one per index in first-seen order with fresh ids; other banners keep theirs; the tables stay valid |
| RemoduleSlideBanner.SaveOutcome | remodule/slidebanner/slidebanner.py:18-105 | a save fails with nothing written where the interval or cards per row is not a number or a new instance names a missing module; it fails after the first commit where a `banners[` name is too short, leaving the banner row with no cards |
| RemoduleSlideBanner.LoadInstanceData | remodule/slidebanner/slidebanner.py:107-123 | no id: no instance, banner or cards; otherwise the instance (a 404 when unknown), its first banner row and that banner's cards |
| RemoduleSlideBanner.InstanceData | remodule/slidebanner/slidebanner.py:145-163 | no instance: the defaults; otherwise the settings (`{}` when empty), the banner row and its cards; rejected settings raise |
| RemoduleSlideBanner.SaveThenLoad | remodule/slidebanner/slidebanner.py:18-163 | a saved slide banner loads with its banner row and one card per record, and the storefront sees the settings written |
| RemoduleSlideBanner.DeletedSpec | remodule/slidebanner/slidebanner.py:125-143 | after the delete, loading the instance is a 404, its banner has no cards, and other instances stay |
| RemoduleSlideBanner.SlideBannerStore.SaveInstance | remodule/slidebanner/slidebanner.py:18-105 | the store's tables end as `SaveSpec` describes, and a save that passes the grouping flashes the warnings |
| RemoduleSlideBanner.SlideBannerStore.DeleteInstance | remodule/slidebanner/slidebanner.py:125-143 | an unknown instance gives the error and changes nothing; otherwise the tables end as `Deleted` describes; the page and post cells change exactly when the instance is deleted: each that showed it then shows no module |
| MenuData.DefaultInstance | app/models/modules/menu.py:15-31 | a new menu instance is bound to its menu, is not the main menu, has depth 3 and the auto catalogue on |
| MenuData.RowById | app/models/modules/menu.py:231 | `query.get(id)` finds the row with that id, or there is none |
| MenuData.EntityById | app/models/modules/menu.py:95-97 | `Page.query.get(id)` finds the row with that id, or there is none |
| MenuData.CategoryById | app/models/modules/menu.py:99-101 | `Category.query.get(id)` finds the row with that id, or there is none |
| MenuData.ImageById | app/admin/modules/menu.py:163 | `Image.query.get(id)` finds the row with that id, or there is none |
| MenuData.DigitId | app/admin/modules/menu.py:156 | `int(v) if v and str(v).isdigit() else None` exists exactly for an all-digit text, and is its value |
| MenuData.Joined | app/models/modules/menu.py:229-231 | the inner join keeps exactly the instance's extended rows whose base item exists, each with that item |
| MenuTargets.TargetEntity | app/models/modules/menu.py:94-109 | a typed item's target is the row of its kind with that id, when it exists |
| MenuTargets.ResolveSameRow | app/models/modules/menu.py:88-147 | link and title of a targeted item come from one row: a live link is the kind's path plus the slug of a row carrying the target id, and the title is that row's; the link is `#` exactly when no row of the kind has the id, with the kind's not-found title; other items but the catalog take both from their base item |
| MenuTargets.TargetEntityInRows | app/models/modules/menu.py:94-109 | the lookup finds a row of the kind exactly when one carries the id, and finds such a row |
| MenuTargets.UrlByType | app/models/modules/menu.py:150-179 | `generate_url_by_type` is not `#` exactly when the type names a content row and that row exists, and is then the kind's prefix plus the row's slug |
| MenuTargets.DynamicUrlByType | app/models/modules/menu.py:88-179 | a saved typed item's URL agrees with the one the editor generates for its type and target |
| MenuCatalog.TextLeTotal | app/models/modules/menu.py:197 | the name order is total |
| MenuCatalog.InsertByName | app/models/modules/menu.py:197 | inserting into a list sorted by `(sort_order, name)` keeps it sorted and adds exactly the one category |
| MenuCatalog.TextLeTrans | app/models/modules/menu.py:197 | the name order is transitive |
| MenuCatalog.SortByName | app/models/modules/menu.py:197 | `order_by(sort_order, name)` is sorted and a permutation of the level |
| MenuCatalog.LevelRows | app/models/modules/menu.py:193-205 | a level holds exactly the categories under that parent; the root level takes `parent_id` NULL or 0 |
| MenuCatalog.LevelSpec | app/models/modules/menu.py:193-205 | a level lists exactly its categories, ordered by `(sort_order, name)` |
| MenuCatalog.CatalogLevel | app/models/modules/menu.py:207-223 | one node per category of the level |
| MenuCatalog.CatalogLevelAt | app/models/modules/menu.py:209-223 | node i is category i's node, holding the next level below it |
| MenuCatalog.CatalogItemsSpec | app/models/modules/menu.py:182-225 | below the depth limit one node per category of the level in `(sort_order, name)` order, each linking to `/category/<slug>` and holding its own level one deeper; at the limit nothing |
| MenuCatalog.CatalogHeight | app/models/modules/menu.py:189-190 | the catalogue is at most `max_depth - depth` levels deep |
| MenuCatalog.GetCatalogItems | app/models/modules/menu.py:182-225 | the level's query and loop build exactly `CatalogItems` |
| MenuCatalog.StructureEntryOf | app/models/modules/menu.py:235-254 | an entry fails exactly for a catalog row shown in the catalogue whose menu instance is missing |
| MenuCatalog.StructureOf | app/models/modules/menu.py:233-256 | one entry per row |
| MenuCatalog.StructureOfSpec | app/models/modules/menu.py:227-258 | the structure fails only where some catalog row has no instance; otherwise one entry per row in `(position, sort_order)` order, and only catalog rows shown in the catalogue have children |
| MenuCatalog.BuildMenuStructure | app/models/modules/menu.py:227-258 | the query and loop build exactly `StructureOf` the instance's rows |
| MenuFront.MediaOf | app/views/modules/menu.py:89-106 | an icon or video is attached exactly when its id is set and the image exists, with that id and the uploads path followed by the file name as URL |
| MenuFront.FormatCatalogItemsSpec | app/views/modules/menu.py:159-204 | every catalogue node becomes a node `catalog_<id>` of type `category` and class `catalog-item` with the same title and URL, children formatted recursively, and the formatted menu is exactly as deep as the catalogue |
| MenuFront.TrimSlashes | app/views/modules/menu.py:128 | stripping trailing slashes yields a prefix of the URL that does not end in `/`, and only slashes were removed |
| MenuFront.CatalogUnderSpec | app/views/modules/menu.py:133-148 | a catalog point's catalogue starts at its target or at the roots; when that is empty and there is exactly one root category, the level below that root is used, otherwise nothing |
| MenuFront.StructureSpec | app/views/modules/menu.py:85-156 | one node per extended row, in position order, carrying the base item's id, parent and position, the resolved title and URL, and generated children only for catalog points |
| MenuFront.BuildMenuStructure | app/views/modules/menu.py:71-156 | the loop appending one node per row yields exactly the structure of all rows |
| MenuFront.Matching | app/views/modules/menu.py:224-225 | the nodes matched at a level are nodes of the list whose parent is the one being built |
| MenuFront.BuildLevelSpec | app/views/modules/menu.py:224-239 | a built level holds exactly the nodes whose parent matches, in input order, each keeping its fields, with children made of the nodes built beneath it followed by the children it already had |
| MenuFront.BuildLevelStep | app/views/modules/menu.py:224-239 | a level is built when its first matching node's subtree and the rest of the level are built |
| MenuFront.BuildAcyclic | app/views/modules/menu.py:207-242 | when every parent id is smaller than its item's id, the recursion always ends |
| MenuFront.ParentCycleDropped | app/views/modules/menu.py:224-239 | two items naming each other as parent are never reached from the top and do not appear in the tree |
| MenuFront.RepeatedIdNeverEnds | app/views/modules/menu.py:226-227 | two nodes with the same id beneath each other make the recursion repeat a call in progress, so it never ends |
| MenuFront.BuildHierarchicalMenu | app/views/modules/menu.py:207-242 | the recursive loop builds exactly the tree the level specification describes |
| MenuFront.AddNode | app/views/modules/menu.py:226-239 | one loop step: a matching node with its recursively built children followed by its existing children |
| MenuFront.FindPath | app/views/modules/menu.py:258-270 | a found path is non-empty, starts at a top node and ends at a node with the URL |
| MenuFront.FindPathSpec | app/views/modules/menu.py:258-270 | a path is found exactly when some node has the URL; it descends through children from a top node to a node with the URL and passes no earlier node with it |
| MenuFront.Breadcrumbs | app/views/modules/menu.py:245-284 | the trail is empty exactly when no node has the URL; otherwise only its last crumb is current and it carries the URL |
| MenuFront.GetInstanceData | app/views/modules/menu.py:18-68 | the "not found" error exactly when the module instance has no menu instance; otherwise the instance's fields, the structure of its items in position order and the tree built from it |
| MenuFront.StructureParentsBelow | app/views/modules/menu.py:111-119 | nodes built from a table whose parents precede their items keep that order, since id and parent come from the base item |
| MenuFront.GetInstanceDataTerminates | app/views/modules/menu.py:46-68 | on a valid database the storefront data is never the recursion failure |
| MenuFront.FirstMain | app/__init__.py:138 | the first menu instance flagged main, and none exactly when no instance is flagged |
| MenuFront.BuildMainMenuContext | app/__init__.py:125-154 | no header menu exactly when there is no main instance, its module instance is missing, or its data is the error; otherwise that module instance with its storefront data |
| MenuFront.InjectMainMenu | app/__init__.py:157-163 | a header menu put into the template context is an existing module instance with storefront data |
| MenuFront.MainMenuOfTheMainInstance | app/__init__.py:138-151 | on a valid database with at most one main instance the header menu belongs to that instance, and is missing only when there is no main instance, its module instance or its menu instance |
| MenuSave.TitledBound | app/admin/modules/menu.py:148-151 | a form that titles every index below `n` has at least `n` fields, so the `while True` loop is bounded |
| MenuSave.TitledFrom | app/admin/modules/menu.py:148-226 | counting on from a titled prefix stops at an index without a title, all indices before it titled |
| MenuSave.ItemCount | app/admin/modules/menu.py:146-226 | the loop reads exactly the indices 0 .. n-1, which all have a title, and stops at index n, which has none |
| MenuSave.FormItems | app/admin/modules/menu.py:149-175 | one set of item fields per index the loop reads |
| MenuSave.FirstTitled | app/admin/modules/menu.py:208-210 | the first joined entry whose item has the title, and none exactly when no entry has it |
| MenuSave.StepAt | app/admin/modules/menu.py:195-224 | a successful pass means the item was not rejected and both its item row and its extended row were appended |
| MenuSave.RunGrows | app/admin/modules/menu.py:148-226 | every state the loop passes through is extended by the remaining passes, one item and one extended row each |
| MenuSave.RunPrefix | app/admin/modules/menu.py:148-226 | the tables after `k` passes are prefixes of the final tables |
| MenuSave.RunAt | app/admin/modules/menu.py:195-224 | pass `k` of a successful save was not rejected and its rows sit at offset `k` of the new rows, built from the state the earlier passes left |
| MenuSave.RunFails | app/admin/modules/menu.py:174-227 | the save fails exactly when some item it reaches is rejected: a position `int()` refuses, a type the column refuses, or an icon or video naming no image |
| MenuSave.ItemsSaved | app/admin/modules/menu.py:195-224 | a successful loop writes one item and one extended row per titled index, in form order, with the title, URL by type, position, sort order equal to the position, and the item's menu and instance |
| MenuSave.ParentsResolved | app/admin/modules/menu.py:175-204 | a reference below 1000 resolves only to an item written earlier in the same save, one from 1000 up to an existing row, anything else to no parent; so parents stay below their children's ids |
| MenuSave.NewIdUnique | app/admin/modules/menu.py:202-204 | the id written for index `j` names only that item among the rows written so far |
| MenuSave.EntriesBefore | app/admin/modules/menu.py:137-210 | once the instance's old extended rows are deleted, the rows the target query joins while item `k` is written are exactly the entries written for the indices before `k` |
| MenuSave.TargetsRecovered | app/admin/modules/menu.py:155-212 | a target missing from the form is copied from an earlier item of the same form with the same title, and is empty when there is none, whatever the instance held before |
| MenuSave.TargetsKept | app/admin/modules/menu.py:154-212 | with the lookup made among the instance's entries from before the save, an item sent without a target keeps the target of the first old entry with its title |
| MenuSave.ReadFields | app/admin/modules/menu.py:149-175 | reading index `i` yields its fields with their defaults: type `custom`, URL only for custom and external items, digit-only ids, position defaulting to the index |
| MenuSave.SaveItem | app/admin/modules/menu.py:177-224 | one pass of the loop body is the specified step: rejection, or both rows appended with the resolved parent and target |
| MenuSave.SaveItems | app/admin/modules/menu.py:146-226 | the loop over the form computes the specified run over exactly the titled prefix of the form |
| MenuAdmin.ModuleInstanceSpec | app/admin/modules/menu.py:91-99 | an existing instance is used as it is; otherwise a new instance of the module is appended under a fresh id with the form's settings and template; only that case can fail, when the module is missing or the settings are not JSON |
| MenuAdmin.MenuInstanceSpec | app/admin/modules/menu.py:103-119 | the instance's first menu instance is used when there is one; otherwise a new one under a fresh id, bound to a menu |
| MenuAdmin.Configured | app/admin/modules/menu.py:122-133 | the menu instance's title, style, depth, icon, video and main flags come from the form with their defaults, the other columns kept; the save fails exactly when `int()` refuses the depth |
| MenuAdmin.ClearMain | app/admin/modules/menu.py:131 | every menu instance keeps its columns but loses the main flag |
| MenuAdmin.WithMainSpec | app/admin/modules/menu.py:127-134 | after the flag is written there is at most one main menu: the saved row when it is main, otherwise the others keep their flags; every other row keeps its columns |
| MenuAdmin.PlanShape | app/admin/modules/menu.py:87-145 | before the item loop the instance's extended rows and the menu's items are gone, the menu instance is configured from the form, and every id handed out lies below the next one |
| MenuAdmin.SaveAtomic | app/admin/modules/menu.py:87-234 | the save is all or nothing: a failed save leaves the tables as they were, and it fails exactly when a stage before the loop fails or an item the loop reaches is rejected |
| MenuAdmin.SavedValid | app/admin/modules/menu.py:87-227 | a committed save keeps the tables valid: distinct ids, existing owners, parents before children, at most one main menu |
| MenuAdmin.LoopValid | app/admin/modules/menu.py:146-226 | the item loop started from a valid database's remaining rows leaves ids, owners and parents valid |
| MenuAdmin.Committed | app/admin/modules/menu.py:87-227 | a committed save is a successful plan followed by a successful run of the loop over the form's items |
| MenuAdmin.SavedItems | app/admin/modules/menu.py:136-226 | a committed save drops the menu's items and the instance's extended rows, keeps every other row in order, and appends one item and one extended row per titled form index, each written from its fields with its parent resolved |
| MenuAdmin.SavedInstance | app/admin/modules/menu.py:103-134 | after a committed save the instance's first menu instance is configured from the form, and is the only main menu when the form marks it main |
| MenuAdmin.TargetsAsWritten | app/admin/modules/menu.py:137-212 | as written, a target missing from the form is copied from an earlier item of the same save with the same title or left empty; the targets the instance held before are never consulted |
| MenuAdmin.TargetsCorrected | app/admin/modules/menu.py:154-212 | corrected, a target missing from the form is the one the instance's item of the same title held before the save |
| MenuAdmin.SharedMenuFails | app/admin/modules/menu.py:107-143 | as written, a second menu module is bound to the first menu, which another instance shows; deleting that menu's items breaks the other instance's extended rows, so the save fails |
| MenuAdmin.SharedMenuCorrected | app/admin/modules/menu.py:107-119 | corrected, the same save gives the new instance a menu of its own and commits |
| MenuAdmin.FreshMenuUnblocked | app/admin/modules/menu.py:107-143 | corrected, a new menu instance's menu is numbered above every id, so deleting its items is never blocked and the plan fails only where the module instance or the depth fails |
| MenuAdmin.LostTargetExample | app/admin/modules/menu.py:155-212 | re-saving a menu whose "Home" item comes without its target loses the page it pointed at as written, and keeps it corrected |
| MenuEditor.FirstExt | app/admin/modules/menu.py:277-280 | the first extended row of the instance for the item, and none exactly when there is none |
| MenuEditor.VideoName | app/admin/modules/menu.py:281-285 | a video file name exactly when the item has an extended row naming an existing video |
| MenuEditor.MenuOrderSpec | app/admin/modules/menu.py:273 | the menu's items sorted by position, a permutation of exactly the items of that menu |
| MenuEditor.LoadItems | app/admin/modules/menu.py:274-304 | the loop yields one entry per item of the menu, in order, each the specified editor entry |
| MenuEditor.EditorItemOfSpec | app/admin/modules/menu.py:286-303 | an entry carries the base item's own columns and its extended row's type, target, flags and order, or the defaults `custom`, none, `''`, false and the position |
| MenuEditor.EditorItemsSpec | app/admin/modules/menu.py:272-304 | the form's item list is one entry per item of the menu, ordered by position, each with its own columns and those of its extended row in this menu instance |
| MenuEditor.EditorDataSpec | app/admin/modules/menu.py:237-330 | the defaults exactly when there is no instance id or no menu instance for it; otherwise the first menu instance's settings, with an empty title shown as the default title, and its menu's items |
| MenuEditor.ChildrenMembers | app/admin/modules/menu.py:345-346 | the entries matched at a level are exactly those whose parent is the one being built |
| MenuEditor.BuildMenuTree | app/admin/modules/menu.py:333-351 | the loop appends each entry whose parent matches, with its subtree, yielding the specified tree |
| MenuEditor.MenuTreeLinked | app/admin/modules/menu.py:333-351 | the tree is linked all the way down: a level is exactly the entries under its parent in input order, and every node's children are exactly the entries under it |
| MenuEditor.DropMenu | app/admin/modules/menu.py:375 | the menus left are exactly those with another id |
| MenuEditor.DeleteStuck | app/admin/modules/menu.py:368-384 | as written, a module instance with a menu instance can never be deleted: the query on a column extended rows do not have raises and the tables stay as they were; corrected, it is deleted unless a row of another instance depends on it |
| MenuEditor.DeleteExample | app/admin/modules/menu.py:368-384 | on an example site the as-written delete of the menu module instance raises while the corrected one deletes it |
| MenuEditor.DeleteCorrectedSpec | app/admin/modules/menu.py:354-387 | corrected: a missing instance or a conflict changes nothing; otherwise the module instance, its menu instance, its menu, the menu's items and the instance's extended rows are gone, every other row is kept, and the tables stay valid |
| MenuEditor.MaxPositionSpec | app/admin/modules/menu.py:433 | the largest position among the menu's items, or 0 when there is none |
| MenuEditor.SubcategoryParentSpec | app/admin/modules/menu.py:437-456 | the parent the new items hang under is an existing item: the item of the first `category` entry targeting the category, else the item numbered by the all-digit reference |
| MenuEditor.CategoryEntry | app/admin/modules/menu.py:439-445 | the first extended row of the instance of type `category` targeting the category, and none exactly when there is none |
| MenuEditor.AddSubcategoryItems | app/admin/modules/menu.py:464-496 | the loop appends one item and one extended row per subcategory, in order, and returns one entry each |
| MenuEditor.SubcategoriesAppend | app/admin/modules/menu.py:390-507 | nothing is created or changed when the category or the menu instance is missing; otherwise existing rows are kept, one item and one extended row are appended per returned entry, and the tables stay valid |
| MenuEditor.SubcategoriesCreated | app/admin/modules/menu.py:427-496 | one entry per direct subcategory in `(sort_order, id)` order, each naming the item appended for it, titled with the name and linked to `/category/<slug>`, under one parent, with positions rising by one above the largest |
| MenuEditor.SubcategoriesValid | app/admin/modules/menu.py:464-498 | the appended rows keep the tables valid: fresh ids, existing owners, parents numbered below their children |
| MenuEditor.MenuStore.SaveInstance | app/admin/modules/menu.py:81-234 | the save, corrected: the tables become the specified outcome, every table committed or none |
| MenuEditor.SaveTables | app/admin/modules/menu.py:81-234 | the save, corrected, on the tables as values: the outcome and the tables are those `SaveSpec` specifies |
| MenuEditor.MenuStore.DeleteInstance | app/admin/modules/menu.py:354-387 | the corrected delete: the tables become the specified outcome; when the instance is deleted, each page and post cell that showed it shows no module, and otherwise no cell changes |
| MenuEditor.MenuStore.CreateSubcategories | app/admin/modules/menu.py:390-507 | the rows for the category's direct subcategories are appended in one commit, as specified |
| MenuEditor.MenuStore.LoadInstanceData | app/admin/modules/menu.py:237-330 | the form data is the specified editor data, and no table changes |
| Storefront.StoredOptions | app/models/cart.py:26-28 | the column holds text exactly when the options are truthy, and that text decodes back to the options |
| Storefront.CartItem.GetSelectedOptions | app/models/cart.py:17-24 | `{}` for an empty column and for text the decoder rejects, the decoded value otherwise |
| Storefront.CartItem.SetSelectedOptions | app/models/cart.py:26-28 | the column becomes the stored form of the options, and any dict reads back unchanged |
| Storefront.OptionsRoundTrip | app/models/cart.py:17-28 | storing then reading gives back every dict (the empty one via None and `{}`) and every truthy value; a falsy non-dict reads back as `{}` |
| Storefront.FindFavorite | app/models/favorite.py:24-27 | the first row of the customer and product pair, and none exactly when there is no such row |
| Storefront.DroppedRows | app/models/favorite.py:37-39 | the rows left are exactly those of other pairs |
| Storefront.AddIdempotent | app/models/favorite.py:22-35 | adding a pair twice leaves the table as adding it once |
| Storefront.AddKeepsUnique | app/models/favorite.py:22-35 | adding keeps each pair in at most one row, gives a new row an id above the old ones, and the pair is present afterwards |
| Storefront.DropKeepsUnique | app/models/favorite.py:37-39 | deleting keeps the pairs unique and removes the pair, so the check then answers false |
| Storefront.FavoriteTable.CheckFavorite | app/models/favorite.py:41-46 | true exactly when a row for the pair exists |
| Storefront.FavoriteTable.AddFavorite | app/models/favorite.py:22-35 | the existing row when the pair is present, otherwise a new row appended and committed; the pair is present afterwards and the table stays valid |
| Storefront.FavoriteTable.DeleteFavorite | app/models/favorite.py:37-39 | no row of the pair remains, every other row is kept, and the table stays valid |
| Storefront.ResolveVariationId | app/views/main.py:1457-1467 | none for an empty selection; otherwise the first variation in id order whose value ids as a set equal the selected values as a set, none when no variation matches, and the `set()` error exactly when a selected value is unhashable and there is a variation to compare |
| Storefront.Values | app/views/main.py:1462 | the dict's values in key order |
| Storefront.SelectionMatches | app/views/main.py:1465 | the selection matches a variation exactly when both name the same integer ids, in any order and with repeats |
| Storefront.ArgInt | app/views/main.py:476-477 | a query argument is the default when missing and its `int()` value when it parses |
| Storefront.PageLimit | app/views/main.py:477-479 | the page size is at least 1: the argument when it is at least 1, and 2 otherwise |
| Storefront.ReviewsPageSpec | app/views/main.py:476-489 | a page is the `limit` reviews from the offset on, or what is left; `has_more` holds exactly when reviews remain after it, and then the page is full |
| Storefront.CollectedIsRest | app/views/main.py:483-489 | following the pages from any offset shows every later review exactly once, in order |
| ProductOptions.OptionById | app/models/productOptions.py:58 | the option with the id, and none exactly when no option has it |
| ProductOptions.ProductValues | app/models/productOptions.py:47-52 | exactly the option values associated with the product |
| ProductOptions.Photos | app/models/productOptions.py:71-79 | one photo per image relation of the value whose image exists, with its id, file name, order and main flag |
| ProductOptions.FirstSeen | app/models/productOptions.py:54-89 | the options of the values without repeats, each appearing exactly when some value belongs to it |
| ProductOptions.ValuesFor | app/models/productOptions.py:81-85 | an option none of the values belongs to gets no value entries |
| ProductOptions.IndexOfOption | app/models/productOptions.py:62 | the position of the option's entry in the list built so far, or the end when it has none |
| ProductOptions.GetOptionsByProductId | app/models/productOptions.py:46-89 | the loop over the product's values builds the specified option list |
| ProductOptions.FileValue | app/models/productOptions.py:58-85 | one value filed: a new entry for an option not seen yet, else the value appended to its option's entry |
| ProductOptions.FindOption | app/models/productOptions.py:62 | the search returns the position of the option's entry, or the end |
| ProductOptions.OptionListSpec | app/models/productOptions.py:46-89 | one entry per option of the values, in first-seen order, each with its option's own name, display type and photo flag, and exactly the entries of that option's values, in order |
| ProductOptions.OptionsDistinct | app/models/productOptions.py:62-69 | no option is listed twice |
| ProductOptions.ValueFiled | app/models/productOptions.py:81-85 | every value is listed under its own option |
| ProductOptions.PartOf | app/models/productOptions.py:179-184 | a link contributes a non-empty name only when its value row and that value's option exist |
| ProductOptions.Kept | app/models/productOptions.py:179-194 | the parts kept are exactly links' parts with a non-empty option name and value, in link order |
| ProductOptions.Combo | app/models/productOptions.py:174-194 | the inner loop yields the summary, value ids and id pairs of the kept parts |
| ProductOptions.ComboAligned | app/models/productOptions.py:188-194 | every kept part has an existing option, so the id pairs line up one for one with the value ids, each pairing a value with its own option |
| ProductOptions.VariationList | app/models/productOptions.py:169-222 | the entries are those of the product's variations, in id order |
| ProductOptions.VariationListComplete | app/models/productOptions.py:173-220 | every variation of the product has its entry |
| ProductOptions.GetVariationsByProductId | app/models/productOptions.py:169-222 | the loop over the product's variations builds the specified list |
| ProductOptions.Variation.GenerateSlug | app/models/productOptions.py:225-248 | the slug becomes the base when no other slug starts with it, otherwise the first of `base-2`, `base-3`, ... no other variation holds; it is never another variation's slug and nothing else changes |
| ProductOptions.FreeBaseSuffixed | app/models/productOptions.py:235-238 | the prefix test means a base no other variation holds still gets a counter when another slug merely starts with it |
| ProductAdmin.NewStatus | app/admin/views.py:95-99 | the status after a POST is the stripped `status` field when that is non-empty, and the current status otherwise |
| ProductAdmin.Order.PostStatus | app/admin/views.py:91-100 | the POST sets the order's status to the specified new status |
| ProductAdmin.StatusNotRestricted | app/admin/views.py:96-99 | any non-blank stripped text becomes the status, listed or not; a form without the field changes nothing |
| ProductAdmin.DirectoryParent | app/admin/views.py:439-458 | a new directory's parent is none for `''`, for `'0'` and for text `int()` rejects, and the integer otherwise |
| ProductAdmin.UploadDirectory | app/admin/views.py:615-632 | an upload's directory is the integer when it parses, is not 0 and names an existing directory, and the root otherwise |
| ProductAdmin.RootSpellings | app/admin/views.py:620-626 | `int()` rejects `''` and `'None'` and reads `'0'` as 0, so the explicit test of those spellings changes nothing |
| ProductAdmin.ZeroSpellings | app/admin/views.py:452-626 | the two normalisations disagree on a zero written as `"00"`: parent 0 for a new directory, the root for an upload |
| ProductAdmin.DigitTokens | app/admin/views.py:866 | at most one id per comma-separated piece, keeping only all-digit pieces |
| ProductAdmin.ImageIdsRoundTrip | app/admin/views.py:790-866 | saving the field the editor rendered gives back the same image ids in the same order |
| ProductAdmin.OtherProductImages | app/admin/views.py:869-871 | the rows left are exactly those of other products |
| ProductAdmin.ProductImages.ReplaceImages | app/admin/views.py:862-888 | it succeeds iff the field's ids are positive and distinct (the primary key and the images foreign key); then the product's rows are replaced by one row per id, in order, with its position as `order`, none for an empty field, and other products' rows kept; otherwise the rows stay as they were |
| ProductAdmin.NumberImages | app/admin/views.py:874-881 | the insert loop makes one row per id, in order, each with its position as `order`, and stops exactly when an id is 0 or repeats an earlier one |
| ProductAdmin.RunEnd | app/admin/views.py:812 | a greedy `\d+` or `\w+` run from a position stops at the first character outside the class |
| ProductAdmin.BracketMatch | app/admin/views.py:812-815 | a match of `prefix[<digits>][<word>]` starts with the prefix and a bracket and carries a non-empty field |
| ProductAdmin.FieldKeyRoundTrip | app/admin/views.py:812-941 | a rendered `prefix[i][field]` name is read back as its index and field, with the anchored and the unanchored pattern |
| ProductAdmin.GroupBracketed | app/admin/views.py:809-818 | the loop grouping the form's keys by index builds the specified records |
| ProductAdmin.BracketedSpec | app/admin/views.py:809-948 | one record per index some matching key carries, in the order indices first appear, each field holding the last value submitted for it |
| ProductAdmin.PickSpec | app/admin/views.py:820-835 | every result comes from a record, and every record that yields a result has it kept |
| ProductAdmin.RelatedOf | app/admin/views.py:821-835 | a record yields a relation of this product exactly when its `product_id` and `link_text` are non-empty |
| ProductAdmin.RelatedRowsSpec | app/admin/views.py:820-835 | every new relation belongs to the product and comes from a record, and every usable record gives its relation |
| ProductAdmin.BuildRelated | app/admin/views.py:820-835 | the loop creates the specified rows, one per usable record |
| ProductAdmin.RowsOf | app/admin/views.py:806 | exactly the relations of the product |
| ProductAdmin.OtherRows | app/admin/views.py:806 | exactly the relations of other products |
| ProductAdmin.RelatedTable.SaveRelated | app/admin/views.py:800-844 | the product's old relations are deleted and one row per usable record added, in one transaction; a failed commit rolls back the delete too |
| ProductAdmin.SavedRelations | app/admin/views.py:806-839 | after a committed save the product's relations are exactly the new rows and the others' are untouched |
| ProductAdmin.AttributeOf | app/admin/views.py:905-908 | a record gives its `(name, value)` pair exactly when both are non-empty |
| ProductAdmin.AttributePairsSpec | app/admin/views.py:894-925 | every attribute pair comes from a record with both fields non-empty, and every such record gives its pair |
| ProductAdmin.ValueNames | app/admin/views.py:983-987 | the comma-separated value names with blanks stripped, none empty |
| ProductAdmin.OptionOf | app/admin/views.py:950-957 | a record asks for an option exactly when its stripped name is non-blank, and the option is named |
| ProductAdmin.OptionSpecsSpec | app/admin/views.py:938-971 | every option is named and comes from a record, and every record with a non-blank name gives its option |
| ProductAdmin.ValueNamesRoundTrip | app/admin/views.py:983-987 | names without commas or surrounding blanks survive being joined and split again |
| ProductAdmin.Names | app/admin/views.py:1009-1013 | the submitted field names, one per field |
| ProductAdmin.RegenerateRule | app/admin/views.py:1008-1014 | variations are regenerated exactly when the flag is set or combo data comes without an existing variation id; an existing id without the flag never regenerates |
| ProductAdmin.CopyName | app/admin/views.py:1861-1868 | the copy is named `"<name> (копия n)"` for the smallest `n >= 1` that no product has yet |
| ProductPage.Span | app/static/js/product.js:690 | a greedy run of a character class stops at the first character outside it |
| ProductPage.ValueMatch | app/static/js/product.js:690 | the value part of the pattern, when it matches, ends after the `<br>` and past where it started |
| ProductPage.NameMatch | app/static/js/product.js:690 | the name part of the pattern, when it matches, ends past where it started |
| ProductPage.MatchAt | app/static/js/product.js:690-696 | a match at a position ends past it, so the scan always advances |
| ProductPage.ParsePairs | app/static/js/product.js:689-696 | the `regex.exec` loop collects exactly the pairs the scan of the summary finds, trimmed, in order |
| ProductPage.MatchPartAt | app/static/js/product.js:690-695 | the summary of one part whose name has no `:` or `<` and whose value has no `<` is matched whole, yielding its trimmed name and value |
| ProductPage.ScanHtmlOf | app/static/js/product.js:686-696 | the summary the server writes for a variation is read back as the trimmed name and value of every part, in order, when names hold no `:` or `<` and values no `<` |
| ProductPage.SameValuesIff | app/static/js/product.js:657-661 | equal set sizes plus inclusion is exactly equality of the selected and the variation's value sets |
| ProductPage.FirstExact | app/static/js/product.js:647-665 | the first variation with exactly the selected value set, and none exactly when no variation has it |
| ProductPage.FirstCombo | app/static/js/product.js:684-704 | the first variation whose summary pairs include every selected pair, and none exactly when there is none |
| ProductPage.FirstPartial | app/static/js/product.js:707-724 | the first variation sharing a selected value, and none exactly when there is none |
| ProductPage.MatchNullIff | app/static/js/product.js:635-732 | the result is null exactly when there are no variations, and otherwise is one of them |
| ProductPage.ExactFirst | app/static/js/product.js:647-665 | a variation with exactly the selected value ids wins over every later rule: the first such is returned |
| ProductPage.ComboFindsWrittenParts | app/static/js/product.js:684-704 | with no exact match, a variation whose summary includes every selected pair is found by its summary |
| ProductPage.FindMatchingVariation | app/static/js/product.js:630-734 | the script's three searches with early returns, then the first variation, compute the specified match |
| ProductPage.AllIn | app/static/js/product.js:698 | true exactly when every selected pair is among the found pairs |
| ProductPage.AnyIn | app/static/js/product.js:714-716 | true exactly when some selected id is among the variation's ids |
| ProductPage.BuildSelectedPairs | app/static/js/product.js:669-681 | the loop over the selection yields the specified pairs: the trimmed option name and value of every selected value whose option and value exist |
| ProductPage.SortPhotos | app/static/js/product.js:436-446 | the photos end up in ascending `order`, a stable sort and a permutation of the same photos; an empty list is left alone |
| ProductPage.OneActive | app/static/js/product.js:1041-1043 | exactly the current slide is active |
| ProductPage.ImageSlider.constructor | app/static/js/product.js:1033-1034 | slide 0 is current and nothing runs after set-up |
| ProductPage.ImageSlider.Activate | app/static/js/product.js:1041-1043 | after clearing the class the current slide is the only active one |
| ProductPage.ImageSlider.ShowNextSlide | app/static/js/product.js:1036-1047 | the next slide, wrapping to the first, becomes the only active one |
| ProductPage.ImageSlider.MouseEnter | app/static/js/product.js:1050-1054 | entering starts the automatic advance and keeps the current slide |
| ProductPage.ImageSlider.Tick | app/static/js/product.js:1053 | each tick while running shows the next slide |
| ProductPage.ImageSlider.MouseLeave | app/static/js/product.js:1057-1069 | leaving stops the advance and makes the first slide the only active one |
| ProductPage.ImageSlider.Click | app/static/js/product.js:1072-1083 | a click stops the advance and shows the next slide |
| ProductPage.InitSlider | app/static/js/product.js:1014-1034 | a slider is set up exactly for a card with more than one slide, starting at slide 0 with nothing running |
| ProductPage.NextIsMod | app/static/js/product.js:1042 | `(current + 1) % totalSlides` is the next slide, wrapping after the last |
| ProductPage.SliderCycle | app/static/js/product.js:1036-1083 | advancing walks through the following slides in order, and `total` advances bring the slider back to the slide it started on |
| Categories.AllSubcategories | app/views/main.py:36-42 | `get_all_subcategories(id)` starts with the id and holds exactly the ids of its subtree |

## Left out

**Outside the model: I/O, the environment, foreign code**

- Rendering is out: templates, HTML responses, flash message texts and redirect URLs. A flash and redirect is kept only as its outcome kind and category.
- Logging is out: the `print` and `console.log` calls and the application logger.
- The database engine is replaced by sequences of rows in id order.
  - An SQL query without `ORDER BY` is read in id order, and ties of an `ORDER BY` keep id order.
  - Database errors are modelled where the model holds both ends: a foreign key a delete would break or set to NULL, a NOT NULL or unique column, a value an enumeration column refuses, an image id of 0 or below, and an id repeated under a unique pair.
  - A foreign key written by an INSERT or UPDATE to a row the model does not hold is not checked. The database refuses such a row at commit, the model stores it. This concerns the image ids of RemoduleSlider, AdminSlider, AdminBanner and AdminGallery slides, cards and items (positive ids naming no image; the gallery also takes negative ones), the tab category ids of AdminTabs, `module_instance_id` in Layout.InstanceColumn and Pages.PageSite.PageForm, the customer and product of Storefront.FavoriteTable.AddFavorite, and positive image ids naming no image in ProductAdmin.ProductImages.ReplaceImages.
  - Text is compared by code point. The database's `utf8mb4_unicode_ci` collation compares case-insensitively (Cyrillic included), which affects the ordering and equality the lines below name.
- ORM sessions are reduced to their commits: what a rollback restores is the state at the last commit.
- Concurrency between requests is out: every request runs alone.
- JSON text is not parsed character by character, because `json` is a foreign library. A stored column is a value, an empty or null text, or text the decoder rejects.
- Unicode transliteration is not modelled, because `unidecode` and the NFKD tables are foreign data.
  - The slug helpers that transliterate take the already-transliterated text.
  - The helpers that normalise and drop non-ASCII characters simply drop them, so the accent-stripping case is not captured.
- Python's `int()` is modelled as optional surrounding blanks, an optional sign and ASCII digits. Underscore separators and non-ASCII digits are not accepted.
- Handler discovery is replaced by the list of classes each namespace exposes, with the capability flags the code tests. This covers the directory listing, `importlib` and attribute lookup.
- The product page script's DOM and jQuery are out.
  - The timer is replaced by explicit ticks (`ProductPage.ImageSlider.Tick`).
  - `parseInt` yielding NaN is out: the selection is a list of integer pairs.
  - A missing `window.productOptions` counts as an empty option list.
  - Variations are visited in ascending id order, the order a JavaScript object gives integer keys.

**Walkers and fuel**

- Categories: the category walkers (`Tree`, `Forest`, `SubtreeIds`, `FullName`, `Ancestry`) take a fuel bound, which the size of the table meets for an acyclic table. The source has no bound and does not terminate on a table whose parents form a cycle.

**Contracts stated weaker than the source**

- MenuFront.GetInstanceData: of the storefront menu's `except Exception` branch, only the endless recursion of a repeated item id is modelled. Database errors raised inside the handler are not. Also, `build_hierarchical_menu` writes `children` into the same dictionaries that `menu_items` lists (app/views/modules/menu.py:229-236), so the source's flat `menu_items` entries carry their children; the model's flat entries do not.
- MenuFront.StructureSpec: a failure while one item is built, which skips only that item in the source, is not modelled. In the model no item fails.
- MenuEditor.MenuStore.LoadInstanceData: the `contentOptions` entry (`get_content_options`, the page, category and post pickers of the editor) is not modelled.
- ProductOptions.GetVariationsByProductId: the `price` entry, `float(price)`, is floating point and is not modelled.
- ProductAdmin.CopyName: only the name of the copy is modelled. The columns copied from the original and the `-copy-n` slug are not. Names are compared case-sensitively, unlike the collation.
- ProductAdmin.AttributePairsSpec: only which `(name, value)` pairs the form asks for is modelled. Finding or creating the `Attribute` and `AttributeValue` rows is not.
- ProductAdmin.OptionSpecsSpec: only which options the form asks for is modelled. Finding or creating the option and option value rows and their associations is not.
- ProductAdmin.RegenerateRule: only the rule deciding whether variations are regenerated is modelled. Rebuilding the variations from the combo fields is not.
- Storefront.ReviewsPageSpec: the approved reviews of the product, newest first, are an input. The query that selects and orders them is not modelled.
- AdminBanner.Save: it follows the corrected commit order of the Findings table, in which the new banner row gets its title before the INSERT. As written, every save that creates a banner row fails; AdminBanner.SaveAsWrittenOutcome states that save.
- AdminBanner.SaveOutcome: its failure set is the corrected save's. As written, a save that would create the banner row (a new instance, or one with no banner row) fails as well; AdminBanner.SaveAsWrittenOutcome states this.
- AdminBanner.BannerStore.SaveInstance: like AdminBanner.Save, it commits in the corrected order; AdminBanner.SaveAsWrittenOutcome states how the save as written differs.
- AdminSlider.SavePhases: like `SliderStore.SaveInstance`, `FillTables` and `FillButtons`, it attaches buttons by the corrected rule of the Findings table (the slide submitted under the button's slide index). The placement as written is `ByPosition`, and `ButtonsAsWritten` and `DroppedButtonExample` state it.
- Posts.SearchPosts: `ILIKE` is modelled as containment after Common.Lower, which folds ASCII letters only. The database folds every letter, Cyrillic included, so a query `новости` finds a title `Новости` in the source and not in the model. The `%` and `_` wildcards inside the search text are not modelled either.
- Common.Lower: only ASCII letters are lowered. Python's `str.lower()` lowers every cased letter, Cyrillic included; the callers modelled here apply it to slugs, form flags and the search above.
- MenuCatalog.SortByName: names are ordered by code point (MenuCatalog.TextLe). `order_by(Category.name)` follows the case-insensitive collation, so names that differ in case or script may come out in another order.
- MenuCatalog.LevelSpec: the `(sort_order, name)` order inherits the code-point comparison of MenuCatalog.SortByName.
- Pages.PageSite.PageForm: a slug clashes only with an identical slug. The unique index on `pages.slug` compares under the case-insensitive collation, so a form submitting `About` where `about` exists fails at the commit in the source and is saved in the model.
- AdminForms.FirstWithSlug: `filter_by(slug=…)` is modelled as code-point equality. Under the collation it also finds a slug that differs only in case or in trailing spaces.
- MenuSave.FirstTitled: `MenuItem.title == item_title` is modelled as code-point equality. The collation is case-insensitive and ignores trailing spaces, so `home` matches `Home ` in the source and not in the model.
- MenuSave.TargetsRecovered: "the same title" is code-point equality, through MenuSave.FirstTitled, not the collation's.
- MenuSave.TargetsKept: the title match is by code point, through MenuSave.FirstTitled, not under the collation.
- MenuAdmin.TargetsAsWritten: the same-title lookup is by code point, through MenuSave.FirstTitled, not under the collation.
- MenuAdmin.TargetsCorrected: the same-title lookup is by code point, through MenuSave.FirstTitled, not under the collation.
- Posts.PostDraft.GenerateSlug: a slug counts as taken only when an identical slug exists. The unique index compares under the collation, so there a slug that differs only in case also collides.
- Posts.PostCategoryDraft.GenerateSlug: slugs are compared case-sensitively, unlike the collation (as for Posts.PostDraft.GenerateSlug).
- Products.Product.ProcessSlug: slugs are compared case-sensitively, unlike the collation.
- AdminForms.CategoryForm.ProcessSlug: slugs are compared case-sensitively, unlike the collation.
- AdminForms.ValidateOwnSlug: slugs are compared case-sensitively, unlike `filter_by(slug=…)` under the collation.
- ProductOptions.Variation.GenerateSlug: `LIKE base%` is modelled as a prefix test. A `_` or `%` inside the base, which LIKE reads as a wildcard, is not, and the prefix test is case-sensitive where LIKE is not. The `value_names` argument is modelled in general though its only caller passes none.
- MenuData.DigitId: `str.isdigit()` is modelled for ASCII digits only; Unicode digits such as superscripts, which it also accepts, are not.
- Layout.IntColumn: a string is read as an integer the way `int()` reads it (blanks, a sign, ASCII digits). MySQL also stores a string with a fraction or an exponent, such as `"6.5"` or `"6e0"`, rounded to an integer, and the model refuses it. Refusing other strings assumes the server's default strict SQL mode, since the connection sets no mode; without strict mode MySQL would store 0 with a warning.
- Layout.InstanceColumn: the string reading is the same as for Layout.IntColumn, with the same two gaps: a string with a fraction or an exponent is refused, and the refusal assumes strict SQL mode.
- ProductAdmin.DigitTokens: `x.strip().isdigit()` is modelled for ASCII digits only. The source also keeps a piece such as `٣`, which `int()` reads as 3, and a piece such as `²`, on which `int()` raises and the view fails.
- ProductAdmin.RunEnd: `\d` and `\w` are modelled as the ASCII classes; Python's Unicode classes also take non-ASCII digits and letters.
- Json.Loads: numbers are integers only. A stored JSON text with a fraction or exponent is not modelled.
- ProductAdmin.StatusNotRestricted: `Order.status` is a String(50) column; a status longer than 50 characters, which the database refuses, is not modelled.
- AdminForms.ValidateCategorySlugSpec: the category view never calls `validate()`, so the check does not run there; the member models the validator on its own.
- FrontModules.CustomIdsOf: the storefront tabs also pass the comma list straight into a raw `IN` list, which differs from the digit pieces on non-digit text; only the digit pieces are modelled.
- Render.Index: the data each handler adds is an input (its keys and whether it raises), not tied to the FrontModules specifications of that handler.
- Registry.InstanceTable.DeleteModuleInstance: how a handler's own `del_instance` ends (it returns, raises before a flush, or raises from a flush or commit) is a parameter, because the handler code is another module's. A handler that returns is taken to have done what every `del_instance` here does: delete its own editor rows and the instance and commit, or change nothing when the instance is unknown. Its own tables are modelled in each editor's store.
- `get_menu_by_location` (app/views/modules/menu.py:287-316) is not part of this model. It wraps `get_instance_data` for a fake instance.

## Findings

| source | as written | input that shows it | evidently intended | confidence | as-written member | corrected member |
|---|---|---|---|---|---|---|
| app/admin/modules/menu.py:107-119 | a new menu instance is bound to `Menu.query.first()`, the menu another menu instance already shows, and the save then deletes every item of that menu (lines 139-142) while the other instance's extended rows still point at them | a site with one menu module whose menu has an item; the admin creates a second menu module and saves it | a new menu instance gets a menu of its own | not executed | MenuAdmin.SharedMenuFails | MenuAdmin.FreshMenuUnblocked |
| app/admin/modules/menu.py:137,155-160,207-212 | a target missing from the form is looked up among the instance's extended rows after line 137 deleted them all, so only items saved earlier in the same request can match | re-saving a menu whose "Home" item pointed at page 9, with the item's `target_id` field left out | the item keeps the target it held before the save | not executed | MenuAdmin.LostTargetExample | MenuAdmin.TargetsCorrected |
| app/admin/modules/menu.py:368-384 | `del_instance` filters `MenuItemExtended` by `menu_id`, a column the extended rows do not have, so the delete raises for every module instance that has a menu instance | deleting the module instance of any saved menu | the instance's extended rows, its menu's items, the menu, the menu instance and the module instance are deleted | not executed | MenuEditor.DeleteStuck | MenuEditor.DeleteCorrectedSpec |
| app/admin/modules/banner.py:53-61 | a new `BannerModuleInstance` is flushed before its title is set, so its INSERT gives NULL to `title`, a NOT NULL column with no default (app/models/modules/banner.py:13) | creating any new banner module instance | the row is inserted with the submitted title ("" when empty) | not executed | AdminBanner.NewBannerRefused | AdminBanner.CommitSpec |
| app/admin/modules/slider.py:139-161 | slide buttons are attached through `{str(i): slide.id}` over the slider's slides by enumeration position, not through the index the slide was submitted under | one slide submitted as `slides[1][...]` with a button `slides[1][buttons][0][text]=Go`: no slide sits at position 1, so the button is dropped | a button lands on the slide made from the record with its own slide index | not executed | AdminSlider.DroppedButtonExample | AdminSlider.ButtonsByIndex |
