// Storefront helpers around the cart and the product page: the options a
// cart line stores (app/models/cart.py), the favourites table
// (app/models/favorite.py), the variation an order line records and the
// "show more" paging of product reviews (app/views/main.py).

module Storefront {
  import opened Common
  import opened Json

  // ---------------------------------------------------------------------
  // Cart line options

  /** What `set_selected_options(options)` stores: `json.dumps(options) if options else None`. */
  function StoredOptions(options: Json): (t: Stored)
    ensures Truthy(options) <==> StoredTruthy(t)
    ensures Truthy(options) ==> Loads(t) == Some(options)
  {
    if Truthy(options) then Dumps(options) else NullText
  }

  /** A cart line; only its `selected_options` column is modelled. */
  class CartItem {
    var selectedOptions: Stored

    constructor (selectedOptions: Stored)
      ensures this.selectedOptions == selectedOptions
    {
      this.selectedOptions := selectedOptions;
    }

    /**
     * `get_selected_options()`: `{}` for an empty column and for text the
     * decoder rejects, the decoded value otherwise.
     */
    function GetSelectedOptions(): (r: Json)
      reads this
      ensures !StoredTruthy(selectedOptions) ==> r == EmptyObject
      ensures selectedOptions.BadText? ==> r == EmptyObject
      ensures selectedOptions.JsonText? ==> r == selectedOptions.value
    {
      if !StoredTruthy(selectedOptions) then EmptyObject
      else match Loads(selectedOptions)
        case Some(v) => v
        case None => EmptyObject
    }

    /** `set_selected_options(options)`. */
    method SetSelectedOptions(options: Json)
      modifies this
      ensures selectedOptions == StoredOptions(options)
      ensures options.JObj? ==> GetSelectedOptions() == options
    {
      selectedOptions := if Truthy(options) then Dumps(options) else NullText;
      OptionsRoundTrip(options);
    }
  }

  /**
   * Reading back what was stored gives the options again for every dict
   * (the empty one is stored as None and read back as `{}`) and for every
   * truthy value; a falsy non-dict (`0`, `""`, `[]`, `false`, `null`) reads
   * back as `{}`.
   */
  lemma {:induction false} OptionsRoundTrip(options: Json)
    ensures options.JObj? || Truthy(options) ==> FromJsonFilter(StoredOptions(options)) == options
    ensures !options.JObj? && !Truthy(options) ==> FromJsonFilter(StoredOptions(options)) == EmptyObject
  {
  }

  // ---------------------------------------------------------------------
  // Favourites

  datatype Favorite = Favorite(id: nat, productId: nat, customerId: nat)

  /** The unique constraint on `(product_id, customer_id)`: no row repeats the pair of a row before it. */
  predicate PairsUnique(rows: seq<Favorite>)
  {
    rows == [] || (FindFavorite(rows[1..], rows[0].customerId, rows[0].productId).None? && PairsUnique(rows[1..]))
  }

  /** `Favorite.query.filter_by(customer_id=c, product_id=p).first()`. */
  function FindFavorite(rows: seq<Favorite>, customerId: nat, productId: nat): (r: Option<Favorite>)
    ensures r.Some? ==> r.value in rows && r.value.customerId == customerId && r.value.productId == productId
    ensures r.None? <==> forall x :: x in rows ==> !(x.customerId == customerId && x.productId == productId)
  {
    if rows == [] then None
    else if rows[0].customerId == customerId && rows[0].productId == productId then Some(rows[0])
    else FindFavorite(rows[1..], customerId, productId)
  }

  /** The table after `addFavorite(c, p)`: unchanged when the pair is there, one new row otherwise. */
  function AddedRows(rows: seq<Favorite>, last: nat, customerId: nat, productId: nat): seq<Favorite>
  {
    if FindFavorite(rows, customerId, productId).Some? then rows
    else rows + [Favorite(last + 1, productId, customerId)]
  }

  /** The table after `deleteFavorite(c, p)`: every row of the pair removed. */
  function DroppedRows(rows: seq<Favorite>, customerId: nat, productId: nat): (r: seq<Favorite>)
    ensures forall x :: x in r <==> x in rows && !(x.customerId == customerId && x.productId == productId)
  {
    if rows == [] then []
    else
      (if rows[0].customerId == customerId && rows[0].productId == productId then [] else [rows[0]])
      + DroppedRows(rows[1..], customerId, productId)
  }

  /** Adding a pair twice leaves the table as adding it once. */
  lemma {:induction false} AddIdempotent(rows: seq<Favorite>, last: nat, customerId: nat, productId: nat)
    ensures var once := AddedRows(rows, last, customerId, productId);
      AddedRows(once, last + 1, customerId, productId) == once
  {
    var once := AddedRows(rows, last, customerId, productId);
    if FindFavorite(rows, customerId, productId).None? {
      assert once[|once| - 1] in once;
    }
  }

  /** Adding keeps the pairs unique and fresh ids above the old ones; afterwards the pair is present. */
  lemma {:induction false} AddKeepsUnique(rows: seq<Favorite>, last: nat, customerId: nat, productId: nat)
    requires PairsUnique(rows)
    ensures var r := AddedRows(rows, last, customerId, productId);
      PairsUnique(r) && FindFavorite(r, customerId, productId).Some?
      && (forall x :: x in rows ==> x in r)
      && (forall x :: x in r && x !in rows ==> x.id == last + 1)
  {
    var r := AddedRows(rows, last, customerId, productId);
    if FindFavorite(rows, customerId, productId).None? {
      assert r[|r| - 1] in r;
      SnocUnique(rows, Favorite(last + 1, productId, customerId));
    }
  }

  /** Appending a row whose pair is absent keeps the pairs unique. */
  lemma {:induction false} SnocUnique(rows: seq<Favorite>, f: Favorite)
    requires PairsUnique(rows) && FindFavorite(rows, f.customerId, f.productId).None?
    ensures PairsUnique(rows + [f])
    decreases |rows|
  {
    if rows != [] {
      assert (rows + [f])[1..] == rows[1..] + [f];
      assert rows[0] in rows;
      assert forall x :: x in rows[1..] ==> x in rows;
      SnocUnique(rows[1..], f);
    } else {
      assert (rows + [f])[1..] == [];
    }
  }

  /** Deleting keeps the pairs unique and removes the pair: `checkFavorite` is then false. */
  lemma {:induction false} DropKeepsUnique(rows: seq<Favorite>, customerId: nat, productId: nat)
    requires PairsUnique(rows)
    ensures var r := DroppedRows(rows, customerId, productId);
      PairsUnique(r) && FindFavorite(r, customerId, productId).None?
    decreases |rows|
  {
    if rows != [] {
      DropKeepsUnique(rows[1..], customerId, productId);
      var rest := DroppedRows(rows[1..], customerId, productId);
      var r := DroppedRows(rows, customerId, productId);
      if rows[0].customerId == customerId && rows[0].productId == productId {
        assert r == rest;
      } else {
        assert r == [rows[0]] + rest && r[1..] == rest;
        assert FindFavorite(rest, rows[0].customerId, rows[0].productId).None?;
      }
    }
  }

  /** The favourites table. */
  class FavoriteTable {
    var rows: seq<Favorite>
    var lastId: nat

    /** The unique pair constraint, and ids at or below the autoincrement counter. */
    predicate Valid()
      reads this
    {
      PairsUnique(rows) && forall x :: x in rows ==> x.id <= lastId
    }

    constructor ()
      ensures Valid() && rows == [] && lastId == 0
    {
      rows, lastId := [], 0;
    }

    /** `checkFavorite(c, p)`: true iff a row for the pair exists. */
    function CheckFavorite(customerId: nat, productId: nat): (r: bool)
      reads this
      ensures r <==> exists x :: x in rows && x.customerId == customerId && x.productId == productId
    {
      FindFavorite(rows, customerId, productId).Some?
    }

    /** `addFavorite(c, p)`: the existing row, or a new one inserted and committed. */
    method AddFavorite(customerId: nat, productId: nat) returns (f: Favorite)
      requires Valid()
      modifies this
      ensures Valid() && rows == AddedRows(old(rows), old(lastId), customerId, productId)
      ensures f in rows && f.customerId == customerId && f.productId == productId
      ensures old(FindFavorite(rows, customerId, productId)).Some? ==>
        f == old(FindFavorite(rows, customerId, productId)).value && lastId == old(lastId)
      ensures CheckFavorite(customerId, productId)
    {
      AddKeepsUnique(rows, lastId, customerId, productId);
      var existing := FindFavorite(rows, customerId, productId);
      if existing.Some? {
        return existing.value;
      }
      f := Favorite(lastId + 1, productId, customerId);
      rows := rows + [f];
      lastId := lastId + 1;
    }

    /** `deleteFavorite(c, p)`: afterwards no row for the pair remains. */
    method DeleteFavorite(customerId: nat, productId: nat)
      requires Valid()
      modifies this
      ensures Valid() && rows == DroppedRows(old(rows), customerId, productId) && lastId == old(lastId)
      ensures !CheckFavorite(customerId, productId)
    {
      DropKeepsUnique(rows, customerId, productId);
      rows := DroppedRows(rows, customerId, productId);
    }
  }

  // ---------------------------------------------------------------------
  // The variation an order line records

  /** A variation of the product as `get_variations_by_product_id` lists it: its id and option value ids. */
  datatype VariationIds = VariationIds(id: nat, optionValueIds: seq<nat>)

  /** Python's set elements compare `True == 1` and `False == 0`. */
  function PyKey(v: Json): Json
  {
    if v.JBool? then JInt(if v.b then 1 else 0) else v
  }

  /** Lists and dicts cannot go into a Python set. */
  predicate Hashable(v: Json)
  {
    !v.JArr? && !v.JObj?
  }

  function SelectedSet(values: seq<Json>): set<Json>
  {
    set v | v in values :: PyKey(v)
  }

  function VariationSet(ids: seq<nat>): set<Json>
  {
    set x | x in ids :: JInt(x)
  }

  /** How `_resolve_variation_id` ends. */
  datatype Resolved = NoVariation | VariationOf(id: nat) | Unhashable

  /**
   * `_resolve_variation_id(product_id, selected)`: None for an empty
   * selection, else the first variation (in id order) whose value ids,
   * as a set, equal the set of selected values. A string value never
   * equals an integer id. A list or dict among the values makes `set()`
   * raise once there is a variation to compare with.
   */
  method ResolveVariationId(selected: seq<(string, Json)>, variations: seq<VariationIds>) returns (r: Resolved)
    ensures selected == [] ==> r == NoVariation
    ensures r.VariationOf? ==>
      exists k :: 0 <= k < |variations| && variations[k].id == r.id
        && SelectedSet(Values(selected)) == VariationSet(variations[k].optionValueIds)
        && (forall j :: 0 <= j < k ==> SelectedSet(Values(selected)) != VariationSet(variations[j].optionValueIds))
    ensures r == NoVariation && selected != [] ==> forall v :: v in variations ==>
      SelectedSet(Values(selected)) != VariationSet(v.optionValueIds)
    ensures r == Unhashable <==> selected != [] && variations != [] && exists v :: v in Values(selected) && !Hashable(v)
  {
    if selected == [] {
      return NoVariation;
    }
    var values := Values(selected);
    if variations != [] && exists v :: v in values && !Hashable(v) {
      return Unhashable;
    }
    var i := 0;
    while i < |variations|
      invariant i <= |variations|
      invariant forall j :: 0 <= j < i ==> SelectedSet(values) != VariationSet(variations[j].optionValueIds)
    {
      if SelectedSet(values) == VariationSet(variations[i].optionValueIds) {
        return VariationOf(variations[i].id);
      }
      i := i + 1;
    }
    r := NoVariation;
  }

  /** `list(d.values())`. */
  function Values(fields: seq<(string, Json)>): (r: seq<Json>)
    ensures |r| == |fields| && forall i :: 0 <= i < |fields| ==> r[i] == fields[i].1
  {
    seq(|fields|, i requires 0 <= i < |fields| => fields[i].1)
  }

  /** The selection matches a variation exactly when both name the same integer ids, in any order and with repeats. */
  lemma {:induction false} SelectionMatches(values: seq<Json>, ids: seq<nat>)
    requires forall v :: v in values ==> v.JInt? && v.i >= 0
    ensures SelectedSet(values) == VariationSet(ids) <==>
      (forall v :: v in values ==> v.i in ids) && (forall x :: x in ids ==> JInt(x) in values)
  {
    if SelectedSet(values) == VariationSet(ids) {
      forall v | v in values
        ensures v.i in ids
      {
        assert PyKey(v) in SelectedSet(values);
      }
      forall x | x in ids
        ensures JInt(x) in values
      {
        assert JInt(x) in VariationSet(ids);
      }
    }
  }

  // ---------------------------------------------------------------------
  // Review paging

  /**
   * Werkzeug's `request.args.get(name, default, type=int)`: the default when
   * the argument is missing or `int()` rejects it.
   */
  function ArgInt(v: Option<string>, default: int): (r: int)
    ensures v.None? ==> r == default
    ensures v.Some? && ParseInt(v.value).Some? ==> r == ParseInt(v.value).value
  {
    if v.Some? && ParseInt(v.value).Some? then ParseInt(v.value).value else default
  }

  /** `offset = get('offset', 0, int) or 0`. */
  function PageOffset(v: Option<string>): int
  {
    ArgInt(v, 0)
  }

  /** `limit = get('limit', 2, int) or 2`, then 2 again below 1. */
  function PageLimit(v: Option<string>): (r: nat)
    ensures r >= 1
    ensures ArgInt(v, 2) >= 1 ==> r == ArgInt(v, 2)
    ensures ArgInt(v, 2) < 1 ==> r == 2
  {
    var l := ArgInt(v, 2);
    var l2 := if l == 0 then 2 else l;
    if l2 < 1 then 2 else l2
  }

  /** One response of `get_product_reviews`. */
  datatype ReviewPage<T> = ReviewPage(reviews: seq<T>, nextOffset: int, hasMore: bool)

  /**
   * The approved reviews newest first, `offset(offset).limit(limit)`.
   * MySQL refuses a negative OFFSET, so the request then fails (None).
   */
  function ReviewsPage<T>(all: seq<T>, offset: int, limit: nat): (r: Option<ReviewPage<T>>)
    requires limit >= 1
  {
    if offset < 0 then None
    else
      var lo := if offset <= |all| then offset else |all|;
      var hi := if lo + limit <= |all| then lo + limit else |all|;
      var page := all[lo..hi];
      Some(ReviewPage(page, offset + |page|, offset + |page| < |all|))
  }

  /**
   * A page is the `limit` reviews from `offset` on, or what is left;
   * `has_more` holds exactly when reviews remain after it, and then the
   * page is full.
   */
  lemma {:induction false} ReviewsPageSpec<T>(all: seq<T>, offset: int, limit: nat)
    requires limit >= 1
    ensures var r := ReviewsPage(all, offset, limit);
      (r.None? <==> offset < 0)
      && (r.Some? ==>
            r.value.nextOffset == offset + |r.value.reviews|
            && |r.value.reviews| <= limit
            && (offset <= |all| ==> r.value.reviews == all[offset..offset + |r.value.reviews|])
            && (offset >= |all| ==> r.value.reviews == [])
            && (r.value.hasMore <==> r.value.nextOffset < |all|)
            && (r.value.hasMore ==> |r.value.reviews| == limit)
            && (!r.value.hasMore && offset <= |all| ==> r.value.nextOffset == |all|))
  {
  }

  /** The reviews a client collects by following `next_offset` from `offset` until `has_more` is false. */
  function Collected<T>(all: seq<T>, offset: nat, limit: nat): (r: seq<T>)
    requires limit >= 1
    decreases |all| - offset
  {
    var p := ReviewsPage(all, offset, limit).value;
    if p.hasMore then p.reviews + Collected(all, p.nextOffset, limit) else p.reviews
  }

  /** Following the pages from any offset shows every later review exactly once, in order. */
  lemma {:induction false} CollectedIsRest<T>(all: seq<T>, offset: nat, limit: nat)
    requires limit >= 1 && offset <= |all|
    ensures Collected(all, offset, limit) == all[offset..]
    decreases |all| - offset
  {
    ReviewsPageSpec(all, offset, limit);
    var p := ReviewsPage(all, offset, limit).value;
    if p.hasMore {
      CollectedIsRest(all, p.nextOffset, limit);
      assert all[offset..] == all[offset..p.nextOffset] + all[p.nextOffset..];
    }
  }
}
