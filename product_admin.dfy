// The product editor's form handling (app/admin/views.py): the order
// status update, the directory ids, the additional-image id list, the
// bracketed `prefix[idx][field]` inputs for related products, attributes
// and options, the rule deciding whether variations are regenerated, and
// the name of a copied product. The admin `slugify` carries the same code
// as `BaseModel.slugify` and is `Slugify.AsciiSlugify`.

module ProductAdmin {
  import opened Common
  import opened ModuleForms
  import opened UniqueSlugs

  // ---------------------------------------------------------------------
  // Order status

  /** The statuses the order page offers; they are only shown, never enforced. */
  const AllowedStatuses: seq<string> := ["new", "processing", "paid", "shipped", "completed", "canceled"]

  /** The status after a POST: the stripped `status` field when non-empty, else the current one. */
  function NewStatus(current: string, form: Form): (r: string)
    ensures r == current || r == Strip(GetOr(form, "status", ""))
    ensures r != current ==> r != ""
  {
    var s := Strip(GetOr(form, "status", ""));
    if s != "" then s else current
  }

  /** An order whose status the admin order page changes. */
  class Order {
    var status: string

    constructor (status: string)
      ensures this.status == status
    {
      this.status := status;
    }

    /** `admin_order_view` on POST. */
    method PostStatus(form: Form)
      modifies this
      ensures status == NewStatus(old(status), form)
    {
      var s := Strip(GetOr(form, "status", ""));
      if s != "" {
        status := s;
      }
    }
  }

  /**
   * Any non-blank text becomes the status, whether or not it is one of
   * `AllowedStatuses`; a form without the field changes nothing.
   */
  lemma {:induction false} StatusNotRestricted(current: string, s: string)
    requires s != "" && Strip(s) == s
    ensures NewStatus(current, [("status", s)]) == s
    ensures NewStatus(current, []) == current
  {
    assert Strip("") == "";
  }

  // ---------------------------------------------------------------------
  // Directory ids

  /**
   * `parent_id` of a new directory: None for `''` and `'0'` and for text
   * `int()` rejects, the integer otherwise.
   */
  function DirectoryParent(raw: string): (r: Option<int>)
    ensures r.Some? <==> raw != "0" && ParseInt(raw).Some?
    ensures r.Some? ==> r == ParseInt(raw)
  {
    if raw != "" && raw != "0" then ParseInt(raw) else None
  }

  /**
   * `directory_id` of an upload: the integer when it parses, is not 0 and
   * names an existing directory; None (the root) otherwise.
   */
  function UploadDirectory(raw: Option<string>, directories: set<int>): (r: Option<int>)
    ensures r.Some? <==> raw.Some? && ParseInt(raw.value).Some? && ParseInt(raw.value).value != 0
                         && ParseInt(raw.value).value in directories
    ensures r.Some? ==> r == ParseInt(raw.value)
  {
    match raw
    case None => None
    case Some(s) =>
      if s == "" || s == "None" || s == "0" then
        RootSpellings();
        None
      else
        match ParseInt(s)
        case None => None
        case Some(d) => if d == 0 || d !in directories then None else Some(d)
  }

  /** `int()` rejects `''` and `'None'` and reads `'0'` as 0, so the explicit test of these spellings changes nothing. */
  lemma {:induction false} RootSpellings()
    ensures ParseInt("").None? && ParseInt("None").None? && ParseInt("0") == Some(0)
  {
    NoneRejected();
    ZeroRead();
  }

  lemma {:induction false} NoneRejected()
    ensures ParseInt("None").None?
  {
    var s := "None";
    assert s[0] == 'N' && s[|s| - 1] == 'e';
    LetterRejected(s);
  }

  /** A text starting with a letter is no integer. */
  lemma {:induction false} LetterRejected(s: string)
    requires s != [] && 'A' <= s[0] <= 'z' && 'A' <= s[|s| - 1] <= 'z'
    ensures ParseInt(s).None?
  {
    StripNoSpace(s);
    assert !IsDigitChar(s[0]);
  }

  lemma {:induction false} ZeroRead()
    ensures ParseInt("0") == Some(0)
  {
    var s := "0";
    assert IsDigits(s);
    ParseIntDigits(s);
    assert s[..0] == "";
    assert DigitsValue(s) == 0;
  }

  /**
   * The two normalisations disagree on a zero written differently: `"00"`
   * becomes parent 0 for a new directory but the root for an upload.
   */
  lemma {:induction false} ZeroSpellings(directories: set<int>)
    ensures DirectoryParent("00") == Some(0)
    ensures UploadDirectory(Some("00"), directories).None?
  {
    assert Strip("00") == "00";
    assert IsDigits("00") && DigitsValue("00") == 0 by {
      assert "00"[..1] == "0";
    }
  }

  // ---------------------------------------------------------------------
  // Additional images

  /** `[int(x) for x in pieces if x.strip().isdigit()]`. */
  function DigitTokens(pieces: seq<string>): (r: seq<nat>)
    ensures |r| <= |pieces|
  {
    if pieces == [] then []
    else
      (if IsDigits(Strip(pieces[0])) then [DigitsValue(Strip(pieces[0]))] else [])
      + DigitTokens(pieces[1..])
  }

  /** The ids in the hidden `additional_image_ids` field, in their order. */
  function AdditionalImageIds(data: string): seq<nat>
  {
    DigitTokens(Split(data, ','))
  }

  /** `",".join(str(id) ...)`: how the editor fills the field from the stored order. */
  function IdTexts(ids: seq<nat>): (r: seq<string>)
    ensures |r| == |ids|
  {
    seq(|ids|, k requires 0 <= k < |ids| => NatToString(ids[k]))
  }

  lemma {:induction false} DigitTokensOfTexts(ids: seq<nat>)
    ensures DigitTokens(IdTexts(ids)) == ids
  {
    var texts := IdTexts(ids);
    forall k | 0 <= k < |ids| ensures IsDigits(Strip(texts[k])) && DigitsValue(Strip(texts[k])) == ids[k] {
      DigitTokenOfNat(ids[k]);
    }
    TokensRead(texts, ids);
  }

  /** Pieces that each strip to the digits of an id read back as those ids. */
  lemma {:induction false} TokensRead(texts: seq<string>, ids: seq<nat>)
    requires |texts| == |ids|
    requires forall k :: 0 <= k < |ids| ==> IsDigits(Strip(texts[k])) && DigitsValue(Strip(texts[k])) == ids[k]
    ensures DigitTokens(texts) == ids
  {
    if ids != [] {
      DigitTokensCons(texts);
      TokensRead(texts[1..], ids[1..]);
    }
  }

  lemma {:induction false} DigitTokensCons(pieces: seq<string>)
    requires pieces != [] && IsDigits(Strip(pieces[0]))
    ensures DigitTokens(pieces) == [DigitsValue(Strip(pieces[0]))] + DigitTokens(pieces[1..])
  {
  }

  /** The decimal text of one id is a token that reads back as that id. */
  lemma {:induction false} DigitTokenOfNat(n: nat)
    ensures IsDigits(Strip(NatToString(n))) && DigitsValue(Strip(NatToString(n))) == n
  {
    var s := NatToString(n);
    NatToStringRoundTrip(n);
    assert IsDigitChar(s[0]) && IsDigitChar(s[|s| - 1]);
    StripNoSpace(s);
  }

  /** Saving the field the editor rendered gives back the same ids in the same order. */
  lemma {:induction false} ImageIdsRoundTrip(ids: seq<nat>)
    ensures AdditionalImageIds(Join(IdTexts(ids), ",")) == ids
  {
    var texts := IdTexts(ids);
    if ids != [] {
      NoCommaInTexts(ids);
      JoinSplit(texts, ',');
      DigitTokensOfTexts(ids);
    } else {
      assert Join(texts, ",") == "";
      assert Split("", ',') == [""];
      assert DigitTokens([""]) == [];
    }
  }

  lemma {:induction false} NoCommaInTexts(ids: seq<nat>)
    ensures forall k :: 0 <= k < |IdTexts(ids)| ==> ',' !in IdTexts(ids)[k]
  {
    forall k | 0 <= k < |ids| ensures ',' !in NatToString(ids[k]) {
      NatToStringRoundTrip(ids[k]);
    }
  }

  /** `product_images`: an image of a product at a position. */
  datatype ProductImage = ProductImage(productId: int, imageId: nat, order: nat)

  function OtherProductImages(rows: seq<ProductImage>, productId: int): (r: seq<ProductImage>)
    ensures forall x :: x in r <==> x in rows && x.productId != productId
  {
    if rows == [] then []
    else (if rows[0].productId != productId then [rows[0]] else []) + OtherProductImages(rows[1..], productId)
  }

  /** The rows for the ids, each at its position in the list. */
  function Numbered(productId: int, ids: seq<nat>): (r: seq<ProductImage>)
    ensures |r| == |ids|
  {
    seq(|ids|, k requires 0 <= k < |ids| => ProductImage(productId, ids[k], k))
  }

  /** The `product_images` association table. */
  class ProductImages {
    var rows: seq<ProductImage>

    constructor (rows: seq<ProductImage>)
      ensures this.rows == rows
    {
      this.rows := rows;
    }

    /**
     * The save: the product's rows are deleted, then one row per id of the
     * field is inserted with its position as `order` (none for an empty
     * field); the other products' rows are kept. An insert the table
     * refuses raises, and the rollback leaves the rows as they were.
     */
    method ReplaceImages(productId: int, data: string) returns (ok: bool)
      modifies this
      ensures ok <==> Insertable(AdditionalImageIds(data))
      ensures ok ==> rows == OtherProductImages(old(rows), productId) + Numbered(productId, AdditionalImageIds(data))
      ensures !ok ==> rows == old(rows)
    {
      var kept := OtherProductImages(rows, productId);
      var ids := if data != "" then AdditionalImageIds(data) else [];
      assert data == "" ==> AdditionalImageIds(data) == [];
      var added := NumberImages(productId, ids);
      if added.None? {
        return false;
      }
      rows := kept + added.value;
      ok := true;
    }
  }

  /**
   * The ids one product's rows can hold: the primary key (product_id,
   * image_id) refuses an id given twice, and the images foreign key an id
   * of 0, which names no image.
   */
  predicate Insertable(ids: seq<nat>)
  {
    (forall k :: 0 <= k < |ids| ==> ids[k] > 0)
    && forall i, j :: 0 <= i < j < |ids| ==> ids[i] != ids[j]
  }

  /**
   * The insert loop of the save: one row per id, at its position; None at
   * the first insert the table refuses.
   */
  method NumberImages(productId: int, ids: seq<nat>) returns (added: Option<seq<ProductImage>>)
    ensures added.Some? <==> Insertable(ids)
    ensures added.Some? ==> added.value == Numbered(productId, ids)
  {
    var made: seq<ProductImage> := [];
    var i := 0;
    while i < |ids|
      invariant i <= |ids|
      invariant Insertable(ids[..i])
      invariant made == Numbered(productId, ids[..i])
    {
      if ids[i] == 0 {
        return None;
      }
      if ids[i] in ids[..i] {
        var j :| 0 <= j < i && ids[..i][j] == ids[i];
        assert ids[j] == ids[i];
        return None;
      }
      made := made + [ProductImage(productId, ids[i], i)];
      i := i + 1;
    }
    assert ids[..i] == ids;
    added := Some(made);
  }

  // ---------------------------------------------------------------------
  // Bracketed inputs: `re.match(r'prefix\[(\d+)\]\[(\w+)\]', key)`

  /** `\w` on ASCII text. */
  predicate IsWordChar(c: char)
  {
    'a' <= c <= 'z' || 'A' <= c <= 'Z' || '0' <= c <= '9' || c == '_'
  }

  predicate InClass(c: char, word: bool)
  {
    if word then IsWordChar(c) else IsDigitChar(c)
  }

  /** Where a greedy `\d+` (or `\w+`, for `word`) starting at `i` stops. */
  function RunEnd(s: string, i: nat, word: bool): (j: nat)
    requires i <= |s|
    ensures i <= j <= |s|
    ensures forall k :: i <= k < j ==> InClass(s[k], word)
    ensures j < |s| ==> !InClass(s[j], word)
    decreases |s| - i
  {
    if i < |s| && InClass(s[i], word) then RunEnd(s, i + 1, word) else i
  }

  /**
   * A match of `prefix[<digits>][<word>]` at the start of `key`: the index
   * as `int()` reads it, the field, and where the match ends.
   */
  function BracketMatch(key: string, prefix: string): (r: Option<(nat, string, nat)>)
    ensures r.Some? ==> StartsWith(key, prefix + "[") && r.value.1 != "" && r.value.2 <= |key|
  {
    var a := |prefix| + 1;
    if !StartsWith(key, prefix + "[") then None
    else
      var b := RunEnd(key, a, false);
      if b == a || b + 1 >= |key| || key[b] != ']' || key[b + 1] != '[' then None
      else
        var c := RunEnd(key, b + 2, true);
        if c == b + 2 || c >= |key| || key[c] != ']' then None
        else
          assert AllDigitChars(key[a..b]) by {
            forall m | 0 <= m < b - a ensures IsDigitChar(key[a..b][m]) {
              assert InClass(key[a + m], false);
            }
          }
          Some((DigitsValue(key[a..b]), key[b + 2..c], c + 1))
  }

  /** Python's `$`: the end of the text, or just before a final newline. */
  predicate AtEnd(key: string, e: nat)
  {
    e == |key| || (e + 1 == |key| && key[e] == '\n')
  }

  /** The index and field a key is filed under; `anchored` adds the `^...$` of the options pattern. */
  function FieldOf(key: string, prefix: string, anchored: bool): Option<(nat, string)>
  {
    match BracketMatch(key, prefix)
    case None => None
    case Some((i, f, e)) => if anchored && !AtEnd(key, e) then None else Some((i, f))
  }

  /** The name a template renders for index `i` and field `f`. */
  function FieldKey(prefix: string, i: nat, f: string): string
  {
    prefix + "[" + NatToString(i) + "][" + f + "]"
  }

  /** A rendered name is read back as its index and field, with either pattern. */
  lemma {:induction false} FieldKeyRoundTrip(prefix: string, i: nat, f: string, anchored: bool)
    requires f != "" && forall k :: 0 <= k < |f| ==> IsWordChar(f[k])
    ensures FieldOf(FieldKey(prefix, i, f), prefix, anchored) == Some((i, f))
  {
    var d := NatToString(i);
    var p := prefix + "[";
    var key := FieldKey(prefix, i, f);
    NatToStringRoundTrip(i);
    assert key == p + (d + ("][" + (f + "]")));
    var a := |p|;
    var b := a + |d|;
    var c := b + 2 + |f|;
    assert key[..a] == p;
    assert key[a..b] == d;
    assert key[b] == ']' && key[b + 1] == '[';
    assert key[b + 2..c] == f;
    assert key[c] == ']' && c + 1 == |key|;
    forall k | 0 <= k < |d| ensures InClass(d[k], false) {
      assert IsDigitChar(d[k]);
    }
    MatchParts(key, prefix, d, f);
  }

  /** The match of a key laid out as `prefix[d][f]`. */
  lemma {:induction false} MatchParts(key: string, prefix: string, d: string, f: string)
    requires d != [] && f != []
    requires |key| == |prefix| + |d| + |f| + 4
    requires key[..|prefix| + 1] == prefix + "["
    requires key[|prefix| + 1..|prefix| + 1 + |d|] == d
    requires key[|prefix| + 1 + |d|] == ']' && key[|prefix| + 2 + |d|] == '['
    requires key[|prefix| + 3 + |d|..|key| - 1] == f && key[|key| - 1] == ']'
    requires forall k :: 0 <= k < |d| ==> InClass(d[k], false)
    requires forall k :: 0 <= k < |f| ==> InClass(f[k], true)
    ensures AllDigitChars(d)
    ensures BracketMatch(key, prefix) == Some((DigitsValue(d), f, |key|))
  {
    var a := |prefix| + 1;
    var b := a + |d|;
    var c := b + 2 + |f|;
    assert c == |key| - 1;
    assert StartsWith(key, prefix + "[");
    assert !InClass(key[b], false);
    RunEndOver(key, a, d, false);
    assert !InClass(key[c], true);
    RunEndOver(key, b + 2, f, true);
    assert forall k :: 0 <= k < |d| ==> IsDigitChar(d[k]);
    assert key[a..b] == d;
  }

  /** A greedy run over the text `t` found at `i` stops right after it. */
  lemma {:induction false} RunEndOver(s: string, i: nat, t: string, word: bool)
    requires i + |t| < |s| && s[i..i + |t|] == t
    requires forall k :: 0 <= k < |t| ==> InClass(t[k], word)
    requires !InClass(s[i + |t|], word)
    ensures RunEnd(s, i, word) == i + |t|
  {
    forall k | i <= k < i + |t| ensures InClass(s[k], word) {
      assert s[k] == s[i..i + |t|][k - i];
    }
    RunEndAt(s, i, i + |t|, word);
  }

  lemma {:induction false} RunEndAt(s: string, i: nat, j: nat, word: bool)
    requires i <= j < |s|
    requires forall k :: i <= k < j ==> InClass(s[k], word)
    requires !InClass(s[j], word)
    ensures RunEnd(s, i, word) == j
    decreases j - i
  {
    if i < j {
      RunEndAt(s, i + 1, j, word);
    }
  }

  /** The loop over `form.items()` filling `raw[idx][field] = val` for the keys that match. */
  function Bracketed(items: Form, prefix: string, anchored: bool): Records<nat>
  {
    if items == [] then []
    else
      var prev := Bracketed(items[..|items| - 1], prefix, anchored);
      match FieldOf(items[|items| - 1].0, prefix, anchored)
      case None => prev
      case Some((i, f)) => Put(prev, i, f, items[|items| - 1].1)
  }

  method GroupBracketed(items: Form, prefix: string, anchored: bool) returns (r: Records<nat>)
    ensures r == Bracketed(items, prefix, anchored)
  {
    r := [];
    var i := 0;
    while i < |items|
      invariant i <= |items|
      invariant r == Bracketed(items[..i], prefix, anchored)
    {
      var (key, value) := items[i];
      assert items[..i + 1][..i] == items[..i];
      match FieldOf(key, prefix, anchored) {
        case None =>
        case Some((idx, field)) => r := Put(r, idx, field, value);
      }
      i := i + 1;
    }
    assert items[..i] == items;
  }

  /** Some key is filed under index `i`. */
  predicate HasEntry(items: Form, prefix: string, anchored: bool, i: nat)
  {
    exists j :: 0 <= j < |items| && FieldOf(items[j].0, prefix, anchored).Some?
                && FieldOf(items[j].0, prefix, anchored).value.0 == i
  }

  /** The value of the last key filed under index `i` and field `f`. */
  function LastField(items: Form, prefix: string, anchored: bool, i: nat, f: string): Option<string>
  {
    if items == [] then None
    else if FieldOf(items[|items| - 1].0, prefix, anchored) == Some((i, f)) then Some(items[|items| - 1].1)
    else LastField(items[..|items| - 1], prefix, anchored, i, f)
  }

  lemma {:induction false} HasEntrySnoc(items: Form, prefix: string, anchored: bool, i: nat)
    requires items != []
    ensures var last := FieldOf(items[|items| - 1].0, prefix, anchored);
      HasEntry(items, prefix, anchored, i) <==>
        HasEntry(items[..|items| - 1], prefix, anchored, i) || (last.Some? && last.value.0 == i)
  {
    var init := items[..|items| - 1];
    if HasEntry(init, prefix, anchored, i) {
      var j :| 0 <= j < |init| && FieldOf(init[j].0, prefix, anchored).Some?
               && FieldOf(init[j].0, prefix, anchored).value.0 == i;
      assert items[j] == init[j];
    }
    if HasEntry(items, prefix, anchored, i) {
      var j :| 0 <= j < |items| && FieldOf(items[j].0, prefix, anchored).Some?
               && FieldOf(items[j].0, prefix, anchored).value.0 == i;
      if j < |init| {
        assert items[j] == init[j];
      }
    }
  }

  lemma {:induction false} LastFieldAbsent(items: Form, prefix: string, anchored: bool, i: nat, f: string)
    requires !HasEntry(items, prefix, anchored, i)
    ensures LastField(items, prefix, anchored, i, f).None?
  {
    if items != [] {
      HasEntrySnoc(items, prefix, anchored, i);
      LastFieldAbsent(items[..|items| - 1], prefix, anchored, i, f);
    }
  }

  /**
   * The grouped records: one per index some matching key carries, in the
   * order the indices first appear, each field holding the last value
   * submitted for it.
   */
  lemma {:induction false} BracketedSpec(items: Form, prefix: string, anchored: bool)
    ensures DistinctKeys(Bracketed(items, prefix, anchored))
    ensures forall i :: RecordOf(Bracketed(items, prefix, anchored), i).Some? <==> HasEntry(items, prefix, anchored, i)
    ensures forall i, f :: RecordOf(Bracketed(items, prefix, anchored), i).Some? ==>
      Get(RecordOf(Bracketed(items, prefix, anchored), i).value, f) == LastField(items, prefix, anchored, i, f)
  {
    if items != [] {
      var init := items[..|items| - 1];
      BracketedSpec(init, prefix, anchored);
      var prev := Bracketed(init, prefix, anchored);
      var rs := Bracketed(items, prefix, anchored);
      var (key, value) := items[|items| - 1];
      match FieldOf(key, prefix, anchored)
      case None =>
        forall i ensures RecordOf(rs, i).Some? <==> HasEntry(items, prefix, anchored, i) {
          HasEntrySnoc(items, prefix, anchored, i);
        }
      case Some((i0, f0)) =>
        assert rs == Put(prev, i0, f0, value);
        PutSpec(prev, i0, f0, value, i0);
        forall i ensures RecordOf(rs, i).Some? <==> HasEntry(items, prefix, anchored, i)
          ensures RecordOf(rs, i).Some? ==> forall f :: Get(RecordOf(rs, i).value, f) == LastField(items, prefix, anchored, i, f)
        {
          PutSpec(prev, i0, f0, value, i);
          HasEntrySnoc(items, prefix, anchored, i);
          if i == i0 {
            forall f ensures Get(RecordOf(rs, i).value, f) == LastField(items, prefix, anchored, i, f) {
              SetFieldGet(if RecordOf(prev, i0).Some? then RecordOf(prev, i0).value else [], f0, value, f);
              if f != f0 && RecordOf(prev, i0).None? {
                LastFieldAbsent(init, prefix, anchored, i0, f);
              }
            }
          }
        }
    }
  }

  // ---------------------------------------------------------------------
  // The records turned into rows: `for idx, data in raw.items()` with a skip

  /** What a loop over the records keeps: the result of each record that gives one, in record order. */
  function Pick<T>(rs: Records<nat>, f: Form -> Option<T>): (r: seq<T>)
    ensures |r| <= |rs|
  {
    if rs == [] then []
    else (if f(rs[0].1).Some? then [f(rs[0].1).value] else []) + Pick(rs[1..], f)
  }

  /** Every result comes from a record, and every record that gives a result has it kept. */
  lemma {:induction false} PickSpec<T>(rs: Records<nat>, f: Form -> Option<T>)
    ensures forall x :: x in Pick(rs, f) ==> exists k :: 0 <= k < |rs| && f(rs[k].1) == Some(x)
    ensures forall k :: 0 <= k < |rs| && f(rs[k].1).Some? ==> f(rs[k].1).value in Pick(rs, f)
  {
    if rs != [] {
      PickSpec(rs[1..], f);
      forall x | x in Pick(rs, f)
        ensures exists k :: 0 <= k < |rs| && f(rs[k].1) == Some(x)
      {
        if x !in Pick(rs[1..], f) {
          assert f(rs[0].1) == Some(x);
        } else {
          var k :| 0 <= k < |rs[1..]| && f(rs[1..][k].1) == Some(x);
          assert rs[k + 1] == rs[1..][k];
        }
      }
      forall k | 0 <= k < |rs| && f(rs[k].1).Some?
        ensures f(rs[k].1).value in Pick(rs, f)
      {
        if k > 0 {
          assert rs[1..][k - 1] == rs[k];
        }
      }
    }
  }

  // ---------------------------------------------------------------------
  // Related products

  datatype RelatedRow = RelatedRow(productId: int, relatedId: int, linkText: string, sortOrder: int)

  /**
   * The row one `related_products[idx]` record asks for: both `product_id`
   * and `link_text` must be non-empty, and a number `int()` rejects skips
   * the record.
   */
  function RelatedOf(data: Form, productId: int): (r: Option<RelatedRow>)
    ensures r.Some? <==> GetNonEmpty(data, "product_id").Some? && GetNonEmpty(data, "link_text").Some?
                         && ParseInt(Get(data, "product_id").value).Some? && IntOr(Get(data, "sort_order"), 0).Some?
    ensures r.Some? ==> r.value.productId == productId
                        && Some(r.value.relatedId) == ParseInt(Get(data, "product_id").value)
                        && r.value.linkText == Strip(Get(data, "link_text").value)
                        && Some(r.value.sortOrder) == IntOr(Get(data, "sort_order"), 0)
  {
    var pid := GetNonEmpty(data, "product_id");
    var link := GetNonEmpty(data, "link_text");
    if pid.None? || link.None? then None
    else
      match (ParseInt(pid.value), IntOr(Get(data, "sort_order"), 0))
      case (Some(rid), Some(so)) => Some(RelatedRow(productId, rid, Strip(link.value), so))
      case _ => None
  }

  /** The rows of the records, in record order. */
  function RelatedRows(rs: Records<nat>, productId: int): seq<RelatedRow>
  {
    Pick(rs, data => RelatedOf(data, productId))
  }

  /** Every row belongs to the product and comes from a record; every record that asks for a row has it. */
  lemma {:induction false} RelatedRowsSpec(rs: Records<nat>, productId: int)
    ensures forall row :: row in RelatedRows(rs, productId) ==>
      row.productId == productId && exists k :: 0 <= k < |rs| && RelatedOf(rs[k].1, productId) == Some(row)
    ensures forall k :: 0 <= k < |rs| && RelatedOf(rs[k].1, productId).Some? ==>
      RelatedOf(rs[k].1, productId).value in RelatedRows(rs, productId)
  {
    PickSpec(rs, data => RelatedOf(data, productId));
  }

  /** The loop creating one row per usable record. */
  method BuildRelated(rs: Records<nat>, productId: int) returns (rows: seq<RelatedRow>)
    ensures rows == RelatedRows(rs, productId)
  {
    rows := [];
    var i := |rs|;
    while i > 0
      invariant 0 <= i <= |rs|
      invariant rows == Pick(rs[i..], data => RelatedOf(data, productId))
    {
      i := i - 1;
      assert rs[i..][1..] == rs[i + 1..];
      var row := RelatedOf(rs[i].1, productId);
      if row.Some? {
        rows := [row.value] + rows;
      }
    }
  }

  /** No two rows relate the same pair of products (`unique_related_product`). */
  predicate PairsDistinct(rows: seq<RelatedRow>)
  {
    forall j, k :: 0 <= j < k < |rows| ==>
      (rows[j].productId, rows[j].relatedId) != (rows[k].productId, rows[k].relatedId)
  }

  /** The commit succeeds: every related product exists and no pair repeats. */
  predicate Committable(rows: seq<RelatedRow>, products: set<int>)
  {
    (forall k :: 0 <= k < |rows| ==> rows[k].relatedId in products) && PairsDistinct(rows)
  }

  function RowsOf(rows: seq<RelatedRow>, productId: int): (r: seq<RelatedRow>)
    ensures forall x :: x in r <==> x in rows && x.productId == productId
  {
    if rows == [] then []
    else (if rows[0].productId == productId then [rows[0]] else []) + RowsOf(rows[1..], productId)
  }

  function OtherRows(rows: seq<RelatedRow>, productId: int): (r: seq<RelatedRow>)
    ensures forall x :: x in r <==> x in rows && x.productId != productId
  {
    if rows == [] then []
    else (if rows[0].productId != productId then [rows[0]] else []) + OtherRows(rows[1..], productId)
  }

  /** How the related-products save ends: committed (with the info flash when any key matched), or rolled back. */
  datatype RelatedOutcome = Updated(announced: bool) | RolledBack

  /** The `related_products` table against the ids of the existing products. */
  class RelatedTable {
    var rows: seq<RelatedRow>
    const products: set<int>

    constructor (rows: seq<RelatedRow>, products: set<int>)
      ensures this.rows == rows && this.products == products
    {
      this.rows, this.products := rows, products;
    }

    /**
     * The product form's POST: the product's old relations are deleted and
     * one row per usable record is added, in one transaction; a failed
     * commit rolls back the delete as well.
     */
    method SaveRelated(productId: int, form: Form) returns (out: RelatedOutcome)
      modifies this
      ensures var rs := Bracketed(Items(form), "related_products", false);
        var added := RelatedRows(rs, productId);
        if Committable(added, products) then rows == OtherRows(old(rows), productId) + added && out == Updated(rs != [])
        else rows == old(rows) && out == RolledBack
    {
      var rs := GroupBracketed(Items(form), "related_products", false);
      var added := BuildRelated(rs, productId);
      RelatedRowsSpec(rs, productId);
      if Committable(added, products) {
        rows := OtherRows(rows, productId) + added;
        out := Updated(rs != []);
      } else {
        out := RolledBack;
      }
    }
  }

  /** After a committed save the product's relations are exactly the new rows and the others' are untouched. */
  lemma {:induction false} SavedRelations(old_: seq<RelatedRow>, productId: int, added: seq<RelatedRow>)
    requires forall row :: row in added ==> row.productId == productId
    ensures RowsOf(OtherRows(old_, productId) + added, productId) == added
    ensures OtherRows(OtherRows(old_, productId) + added, productId) == OtherRows(old_, productId)
  {
    OwnRowsOnly(OtherRows(old_, productId), added, productId);
  }

  lemma {:induction false} OwnRowsOnly(others: seq<RelatedRow>, added: seq<RelatedRow>, productId: int)
    requires forall row :: row in others ==> row.productId != productId
    requires forall row :: row in added ==> row.productId == productId
    ensures RowsOf(others + added, productId) == added
    ensures OtherRows(others + added, productId) == others
  {
    if others == [] {
      assert others + added == added;
      AddedRowsOnly(added, productId);
    } else {
      assert (others + added)[1..] == others[1..] + added;
      OwnRowsOnly(others[1..], added, productId);
    }
  }

  lemma {:induction false} AddedRowsOnly(added: seq<RelatedRow>, productId: int)
    requires forall row :: row in added ==> row.productId == productId
    ensures RowsOf(added, productId) == added && OtherRows(added, productId) == []
  {
    if added != [] {
      AddedRowsOnly(added[1..], productId);
    }
  }

  // ---------------------------------------------------------------------
  // Attributes and options

  /** The `(name, value)` pair of one `attributes[idx]` record, when both are non-empty. */
  function AttributeOf(data: Form): (r: Option<(string, string)>)
    ensures r.Some? <==> GetNonEmpty(data, "name").Some? && GetNonEmpty(data, "value").Some?
    ensures r.Some? ==> r.value == (GetNonEmpty(data, "name").value, GetNonEmpty(data, "value").value)
                        && r.value.0 != "" && r.value.1 != ""
  {
    var name := GetNonEmpty(data, "name");
    var value := GetNonEmpty(data, "value");
    if name.Some? && value.Some? then Some((name.value, value.value)) else None
  }

  /** The pairs of the records, in record order. */
  function AttributePairs(rs: Records<nat>): seq<(string, string)>
  {
    Pick(rs, AttributeOf)
  }

  /** Every pair comes from a record with both fields non-empty, and every such record gives its pair. */
  lemma {:induction false} AttributePairsSpec(rs: Records<nat>)
    ensures forall p :: p in AttributePairs(rs) ==>
      p.0 != "" && p.1 != "" && exists k :: 0 <= k < |rs| && AttributeOf(rs[k].1) == Some(p)
    ensures forall k :: 0 <= k < |rs| && AttributeOf(rs[k].1).Some? ==> AttributeOf(rs[k].1).value in AttributePairs(rs)
  {
    PickSpec(rs, AttributeOf);
  }

  /** An option the form asks for: its name, display type, photo flag and value names. */
  datatype OptionSpec = OptionSpec(name: string, displayType: string, hasIndividualPhotos: bool, values: seq<string>)

  /** `[v.strip() for v in text.split(',') if v.strip()]`. */
  function ValueNames(pieces: seq<string>): (r: seq<string>)
    ensures forall k :: 0 <= k < |r| ==> r[k] != ""
  {
    if pieces == [] then []
    else (if Strip(pieces[0]) != "" then [Strip(pieces[0])] else []) + ValueNames(pieces[1..])
  }

  /**
   * The option one `options[idx]` record asks for (the `existing_option_id`
   * field holds its name), None when the name is blank.
   */
  function OptionOf(data: Form): (r: Option<OptionSpec>)
    ensures r.Some? <==> Strip(GetOr(data, "existing_option_id", "")) != ""
    ensures r.Some? ==> r.value.name != ""
  {
    var name := Strip(GetOr(data, "existing_option_id", ""));
    if name == "" then None
    else
      Some(OptionSpec(name, Strip(GetOr(data, "display_type", "select")),
                      Strip(GetOr(data, "has_individual_photos", "false")) == "true",
                      ValueNames(Split(Strip(GetOr(data, "values_ids", "")), ','))))
  }

  /** The options of the records in record order, from the `^options[idx][field]$` keys. */
  function OptionSpecs(rs: Records<nat>): seq<OptionSpec>
  {
    Pick(rs, OptionOf)
  }

  /** Every option is named and comes from a record; every record with a non-blank name gives its option. */
  lemma {:induction false} OptionSpecsSpec(rs: Records<nat>)
    ensures forall o :: o in OptionSpecs(rs) ==> o.name != "" && exists k :: 0 <= k < |rs| && OptionOf(rs[k].1) == Some(o)
    ensures forall k :: 0 <= k < |rs| && OptionOf(rs[k].1).Some? ==> OptionOf(rs[k].1).value in OptionSpecs(rs)
  {
    PickSpec(rs, OptionOf);
  }

  /** Names already free of commas and surrounding blanks survive a join and re-split. */
  lemma {:induction false} ValueNamesRoundTrip(names: seq<string>)
    requires |names| >= 1
    requires forall k :: 0 <= k < |names| ==> Clean(names[k]) && ',' !in names[k]
    ensures ValueNames(Split(Join(names, ","), ',')) == names
  {
    JoinSplit(names, ',');
    ValueNamesFixed(names);
  }

  /** A value name with no surrounding blanks. */
  predicate Clean(n: string)
  {
    n != "" && Strip(n) == n
  }

  lemma {:induction false} ValueNamesFixed(names: seq<string>)
    requires forall k :: 0 <= k < |names| ==> Clean(names[k])
    ensures ValueNames(names) == names
  {
    if names != [] {
      ValueNamesCons(names);
      ValueNamesFixed(names[1..]);
      assert names == [names[0]] + names[1..];
    }
  }

  lemma {:induction false} ValueNamesCons(pieces: seq<string>)
    requires pieces != [] && Clean(pieces[0])
    ensures ValueNames(pieces) == [pieces[0]] + ValueNames(pieces[1..])
  {
  }

  // ---------------------------------------------------------------------
  // Whether the variations are regenerated

  /** The submitted names, `request.form.keys()`. */
  function Names(form: Form): (r: seq<string>)
    ensures |r| == |form|
  {
    seq(|form|, k requires 0 <= k < |form| => form[k].0)
  }

  /** `^variations\[\d+\]\[(combo|combo_ids)\]\[`. */
  predicate ComboKey(key: string)
  {
    match BracketMatch(key, "variations")
    case None => false
    case Some((_, f, e)) => (f == "combo" || f == "combo_ids") && e < |key| && key[e] == '['
  }

  /** `^variations\[(\d+)\]\[id\]$`. */
  predicate IdKey(key: string)
  {
    var m := FieldOf(key, "variations", true);
    m.Some? && m.value.1 == "id"
  }

  predicate HasVariationFields(names: seq<string>)
  {
    exists k :: 0 <= k < |names| && StartsWith(names[k], "variations[")
  }

  predicate HasComboData(names: seq<string>)
  {
    exists k :: 0 <= k < |names| && ComboKey(names[k])
  }

  predicate HasExistingIds(names: seq<string>)
  {
    exists k :: 0 <= k < |names| && IdKey(names[k])
  }

  /** `regenerate_variations` is `1`, `true` or `yes` in any letter case. */
  predicate RegenerateFlag(form: Form)
  {
    Lower(GetOr(form, "regenerate_variations", "")) in ["1", "true", "yes"]
  }

  /** `regenerate_flag or (has_variation_fields and has_combo_data and not has_existing_ids)`. */
  predicate ShouldRegenerate(form: Form)
  {
    var names := Names(form);
    RegenerateFlag(form) || (HasVariationFields(names) && HasComboData(names) && !HasExistingIds(names))
  }

  /**
   * A combo key is itself a variation field, so the rule is: the flag, or
   * combo data with no existing variation id. Submitting an existing id
   * without the flag never regenerates.
   */
  lemma {:induction false} RegenerateRule(form: Form)
    ensures ShouldRegenerate(form) <==>
      RegenerateFlag(form) || (HasComboData(Names(form)) && !HasExistingIds(Names(form)))
    ensures HasExistingIds(Names(form)) && !RegenerateFlag(form) ==> !ShouldRegenerate(form)
  {
    var names := Names(form);
    if HasComboData(names) {
      var k :| 0 <= k < |names| && ComboKey(names[k]);
      assert StartsWith(names[k], "variations[");
    }
  }

  // ---------------------------------------------------------------------
  // Copying a product

  /**
   * `copy_product`: `"<name> (копия n)"` for the smallest `n >= 1` whose
   * name no product has yet.
   */
  method CopyName(name: string, names: set<string>) returns (copy: string)
    ensures copy !in names
    ensures exists n :: FirstFreeFrom(names, name + " (копия ", ")", 1, n) && copy == Candidate(name + " (копия ", n, ")")
  {
    var n := FirstFreeCounter(names, name + " (копия ", ")", 1);
    copy := Candidate(name + " (копия ", n, ")");
  }
}
