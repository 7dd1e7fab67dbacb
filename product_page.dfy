// The product page script (app/static/js/product.js): choosing the
// variation that matches the selected option values, reading the option
// pairs back out of a variation's `combo_html`, ordering a value's photos,
// and the image slider of a product card.

module ProductPage {
  import opened Common
  import opened Sorting
  import opened ProductOptions

  // ---------------------------------------------------------------------
  // Reading `combo_html`: /<strong>([^:<]+):<\/strong>\s*([^<]+)<br\s*\/?\>/gi

  /**
   * The characters `String.prototype.trim` removes and the regular
   * expression class `\s` matches: the ASCII blanks and line ends, the
   * no-break spaces, the Unicode space separators, the line and paragraph
   * separators and the byte order mark.
   */
  predicate IsJsSpace(c: char)
  {
    var n := c as int;
    n == 0x20 || 0x09 <= n <= 0x0D || n == 0xA0 || n == 0x1680 || 0x2000 <= n <= 0x200A
    || n == 0x2028 || n == 0x2029 || n == 0x202F || n == 0x205F || n == 0x3000 || n == 0xFEFF
  }

  datatype CharClass = NameChars | ValueChars | Spaces

  /** `[^:<]`, `[^<]` and `\s`. */
  predicate In(c: char, cls: CharClass)
  {
    match cls
    case NameChars => c != ':' && c != '<'
    case ValueChars => c != '<'
    case Spaces => IsJsSpace(c)
  }

  /** Where a greedy run of the class starting at `i` stops. */
  function Span(s: string, i: nat, cls: CharClass): (j: nat)
    requires i <= |s|
    ensures i <= j <= |s|
    ensures forall k :: i <= k < j ==> In(s[k], cls)
    ensures j < |s| ==> !In(s[j], cls)
    decreases |s| - i
  {
    if i < |s| && In(s[i], cls) then Span(s, i + 1, cls) else i
  }

  /** Where the text `s[lo..j]` ends once its trailing blanks are dropped. */
  function TrimEndAt(s: string, j: nat, lo: nat): (r: nat)
    requires lo <= j <= |s|
    ensures lo <= r <= j
    decreases j - lo
  {
    if j > lo && IsJsSpace(s[j - 1]) then TrimEndAt(s, j - 1, lo) else j
  }

  /** `String.prototype.trim`. */
  function Trim(s: string): string
  {
    var a := Span(s, 0, Spaces);
    s[a..TrimEndAt(s, |s|, a)]
  }

  /** The text at `i` is `lit` up to letter case (the `i` flag); `lit` is lower case. */
  predicate LowerAt(s: string, i: nat, lit: string)
  {
    i + |lit| <= |s| && forall k :: 0 <= k < |lit| ==> LowerChar(s[i + k]) == lit[k]
  }

  /** After `<br`: `\s*\/?\>`; where the match ends, if it is there. */
  function BreakEnd(s: string, i: nat): (r: Option<nat>)
    requires i <= |s|
    ensures r.Some? ==> i < r.value <= |s|
  {
    var e := Span(s, i, Spaces);
    var e' := if e < |s| && s[e] == '/' then e + 1 else e;
    if e' < |s| && s[e'] == '>' then Some(e' + 1) else None
  }

  /**
   * From the value on: `\s*([^<]+)<br\s*\/?\>`; the trimmed value and where
   * the match ends. `\s*([^<]+)` together cover the longest run of non-`<`
   * characters, and group 2 differs from that run only by leading blanks,
   * which the trim removes anyway.
   */
  function ValueMatch(s: string, c: nat): (r: Option<(string, nat)>)
    requires c <= |s|
    ensures r.Some? ==> c < r.value.1 <= |s|
  {
    var d := Span(s, c, ValueChars);
    if d == c || !LowerAt(s, d, "<br") then None
    else
      match BreakEnd(s, d + 3)
      case None => None
      case Some(e) => Some((Trim(s[c..d]), e))
  }

  /** From the name on: `([^:<]+):<\/strong>` and the value; the pair and where the match ends. */
  function NameMatch(s: string, a: nat): (r: Option<((string, string), nat)>)
    requires a <= |s|
    ensures r.Some? ==> a < r.value.1 <= |s|
  {
    var b := Span(s, a, NameChars);
    if b == a || b >= |s| || s[b] != ':' || !LowerAt(s, b + 1, "</strong>") then None
    else
      match ValueMatch(s, b + 10)
      case None => None
      case Some((v, e)) => Some(((Trim(s[a..b]), v), e))
  }

  /** A match starting at `i`: the trimmed name and value and where the match ends. */
  function MatchAt(s: string, i: nat): (r: Option<((string, string), nat)>)
    requires i <= |s|
    ensures r.Some? ==> i < r.value.1 <= |s|
  {
    if !LowerAt(s, i, "<strong>") then None else NameMatch(s, i + 8)
  }

  /** The pairs `regex.exec` finds from `i` on, resuming after each match. */
  function Scan(s: string, i: nat): seq<(string, string)>
    requires i <= |s|
    decreases |s| - i
  {
    if i == |s| then []
    else
      match MatchAt(s, i)
      case Some((p, e)) => [p] + Scan(s, e)
      case None => Scan(s, i + 1)
  }

  /** The `while ((m = regex.exec(html)) !== null)` loop. */
  method ParsePairs(html: string) returns (pairs: seq<(string, string)>)
    ensures pairs == Scan(html, 0)
  {
    pairs := [];
    var i := 0;
    while i < |html|
      invariant i <= |html|
      invariant pairs + Scan(html, i) == Scan(html, 0)
      decreases |html| - i
    {
      var m := MatchAt(html, i);
      ScanStep(html, i, pairs);
      if m.Some? {
        pairs := pairs + [m.value.0];
        i := m.value.1;
      } else {
        i := i + 1;
      }
    }
  }

  /** One pass of the scan: a match at `i` contributes its pair and the scan goes on after it; otherwise one character on. */
  lemma {:induction false} ScanStep(s: string, i: nat, pairs: seq<(string, string)>)
    requires i < |s|
    ensures MatchAt(s, i).Some? ==>
      pairs + Scan(s, i) == (pairs + [MatchAt(s, i).value.0]) + Scan(s, MatchAt(s, i).value.1)
    ensures MatchAt(s, i).None? ==> Scan(s, i) == Scan(s, i + 1)
  {
    var m := MatchAt(s, i);
    if m.Some? {
      assert Scan(s, i) == [m.value.0] + Scan(s, m.value.1);
    }
  }

  /** The pairs a summary is written from: the trimmed option name and value of each part. */
  function PairsOf(parts: seq<Part>): (r: seq<(string, string)>)
    ensures |r| == |parts|
  {
    seq(|parts|, k requires 0 <= k < |parts| => (Trim(parts[k].name), Trim(parts[k].value)))
  }

  /** A part the pattern reads back: a non-empty name without `:` or `<`, a value without `<`. */
  predicate Readable(p: Part)
  {
    p.name != "" && ':' !in p.name && '<' !in p.name && '<' !in p.value
  }

  lemma {:induction false} SpanAt(s: string, i: nat, j: nat, cls: CharClass)
    requires i <= j < |s|
    requires forall k :: i <= k < j ==> In(s[k], cls)
    requires !In(s[j], cls)
    ensures Span(s, i, cls) == j
    decreases j - i
  {
    if i < j {
      SpanAt(s, i + 1, j, cls);
    }
  }

  lemma {:induction false} SpanShift(x: string, y: string, i: nat, cls: CharClass)
    requires i <= |y|
    ensures Span(x + y, |x| + i, cls) == |x| + Span(y, i, cls)
    decreases |y| - i
  {
    if i < |y| {
      assert (x + y)[|x| + i] == y[i];
      if In(y[i], cls) {
        SpanShift(x, y, i + 1, cls);
      }
    }
  }

  lemma {:induction false} TrimEndShift(x: string, y: string, j: nat, lo: nat)
    requires lo <= j <= |y|
    ensures TrimEndAt(x + y, |x| + j, |x| + lo) == |x| + TrimEndAt(y, j, lo)
    decreases j - lo
  {
    if j > lo {
      assert (x + y)[|x| + j - 1] == y[j - 1];
      TrimEndShift(x, y, j - 1, lo);
    }
  }

  /** A blank in front of a text does not change its trimmed form. */
  lemma {:induction false} TrimBlankFront(v: string)
    ensures Trim(" " + v) == Trim(v)
  {
    var s := " " + v;
    var a := Span(v, 0, Spaces);
    var b := TrimEndAt(v, |v|, a);
    SpanShift(" ", v, 0, Spaces);
    TrimEndShift(" ", v, |v|, a);
    BlankFrontSlice(v, a, b);
    TrimOf(s, 1 + a, 1 + b);
  }

  lemma {:induction false} TrimOf(s: string, a: nat, b: nat)
    requires a <= |s| && Span(s, 0, Spaces) == a && TrimEndAt(s, |s|, a) == b
    ensures Trim(s) == s[a..b]
  {
  }

  lemma {:induction false} BlankFrontSlice(v: string, a: nat, b: nat)
    requires a <= b <= |v|
    ensures (" " + v)[1 + a..1 + b] == v[a..b]
  {
    var s := " " + v;
    forall k | 0 <= k < b - a ensures s[1 + a..1 + b][k] == v[a..b][k] {
      assert s[1 + a + k] == v[a + k];
    }
  }

  /** The pieces of one summary. */
  lemma {:induction false} PartPieces(p: Part)
    ensures var h, n, v := PartHtml(p), p.name, p.value;
      |h| == |n| + |v| + 23 && h[..8] == "<strong>" && h[8..8 + |n|] == n && h[8 + |n|] == ':'
      && h[9 + |n|..18 + |n|] == "</strong>" && h[18 + |n|..19 + |n| + |v|] == " " + v
      && h[19 + |n| + |v|..] == "<br>"
  {
    var h, n, v := PartHtml(p), p.name, p.value;
    assert h == "<strong>" + n + ":</strong>" + " " + v + "<br>";
  }

  /** A piece of a text written at `i` is found at the same offset from `i`. */
  lemma {:induction false} Piece(s: string, i: nat, h: string, a: nat, b: nat)
    requires i + |h| <= |s| && s[i..i + |h|] == h && a <= b <= |h|
    ensures s[i + a..i + b] == h[a..b]
  {
    forall k | 0 <= k < b - a ensures s[i + a..i + b][k] == h[a..b][k] {
      assert s[i + a + k] == s[i..i + |h|][a + k];
    }
  }

  /** A lower-case literal written at `i` is matched there. */
  lemma {:induction false} LiteralAt(s: string, i: nat, lit: string)
    requires i + |lit| <= |s| && s[i..i + |lit|] == lit
    requires forall k :: 0 <= k < |lit| ==> !('A' <= lit[k] <= 'Z')
    ensures LowerAt(s, i, lit)
  {
    forall k | 0 <= k < |lit| ensures LowerChar(s[i + k]) == lit[k] {
      assert s[i + k] == s[i..i + |lit|][k];
    }
  }

  /** The value of a summary at `c` is the run up to the `<` of `<br>`. */
  lemma {:induction false} ValueAt(s: string, c: nat, v: string)
    requires '<' !in v && c + |v| + 5 <= |s|
    requires s[c..c + 1 + |v|] == " " + v
    requires s[c + 1 + |v|..c + 5 + |v|] == "<br>"
    ensures ValueMatch(s, c) == Some((Trim(v), c + |v| + 5))
  {
    var d := c + 1 + |v|;
    forall k | c <= k < d ensures In(s[k], ValueChars) {
      assert s[k] == s[c..d][k - c];
    }
    assert s[d] == s[d..d + 4][0] == '<';
    assert s[d + 3] == s[d..d + 4][3] == '>';
    SpanAt(s, c, d, ValueChars);
    assert s[d..d + 3] == s[d..d + 4][..3] == "<br";
    LiteralAt(s, d, "<br");
    ValueMatchOf(s, c, d, Trim(s[c..d]), d + 4);
    TrimBlankFront(v);
  }

  lemma {:induction false} ValueMatchOf(s: string, c: nat, d: nat, v: string, e: nat)
    requires c < d && d + 3 < |s| && Span(s, c, ValueChars) == d && LowerAt(s, d, "<br")
    requires s[d + 3] == '>' && v == Trim(s[c..d]) && e == d + 4
    ensures ValueMatch(s, c) == Some((v, e))
  {
    assert Span(s, d + 3, Spaces) == d + 3;
  }

  /** The name and value of a summary at `a`, the position after `<strong>`. */
  lemma {:induction false} NameAt(s: string, a: nat, n: string, v: string)
    requires n != [] && ':' !in n && '<' !in n && '<' !in v
    requires a + |n| + |v| + 15 <= |s|
    requires s[a..a + |n|] == n && s[a + |n|] == ':'
    requires s[a + 1 + |n|..a + 10 + |n|] == "</strong>"
    requires s[a + 10 + |n|..a + 11 + |n| + |v|] == " " + v
    requires s[a + 11 + |n| + |v|..a + 15 + |n| + |v|] == "<br>"
    ensures NameMatch(s, a) == Some(((Trim(n), Trim(v)), a + |n| + |v| + 15))
  {
    var b := a + |n|;
    NameSpan(s, a, n);
    LiteralAt(s, b + 1, "</strong>");
    ValueAt(s, b + 10, v);
    var e := b + 10 + |v| + 5;
    assert s[a..b] == n;
    NameMatchOf(s, a, b, (Trim(n), Trim(v)), e);
  }

  /** The name class stops exactly at the colon after the name. */
  lemma {:induction false} NameSpan(s: string, a: nat, n: string)
    requires ':' !in n && '<' !in n && a + |n| < |s|
    requires s[a..a + |n|] == n && s[a + |n|] == ':'
    ensures Span(s, a, NameChars) == a + |n|
  {
    var b := a + |n|;
    forall k | a <= k < b ensures In(s[k], NameChars) {
      assert s[k] == s[a..b][k - a];
    }
    SpanAt(s, a, b, NameChars);
  }

  lemma {:induction false} NameMatchOf(s: string, a: nat, b: nat, p: (string, string), e: nat)
    requires a < b < |s| && Span(s, a, NameChars) == b && s[b] == ':'
    requires LowerAt(s, b + 1, "</strong>") && b + 10 <= |s|
    requires ValueMatch(s, b + 10) == Some((p.1, e)) && p.0 == Trim(s[a..b])
    ensures NameMatch(s, a) == Some((p, e))
  {
  }

  /** Where the pieces of a summary written at `i` lie. */
  lemma {:induction false} PartLaidOut(s: string, i: nat, p: Part)
    requires i + |PartHtml(p)| <= |s| && s[i..i + |PartHtml(p)|] == PartHtml(p)
    ensures var n, v := p.name, p.value;
      |PartHtml(p)| == |n| + |v| + 23 && s[i..i + 8] == "<strong>"
      && s[i + 8..i + 8 + |n|] == n && s[i + 8 + |n|] == ':'
      && s[i + 9 + |n|..i + 18 + |n|] == "</strong>"
      && s[i + 18 + |n|..i + 19 + |n| + |v|] == " " + v
      && s[i + 19 + |n| + |v|..i + 23 + |n| + |v|] == "<br>"
  {
    var h, n, v := PartHtml(p), p.name, p.value;
    PartPieces(p);
    Piece(s, i, h, 0, 8);
    Piece(s, i, h, 8, 8 + |n|);
    assert s[i + 8 + |n|] == s[i..i + |h|][8 + |n|];
    Piece(s, i, h, 9 + |n|, 18 + |n|);
    Piece(s, i, h, 18 + |n|, 19 + |n| + |v|);
    Piece(s, i, h, 19 + |n| + |v|, |h|);
  }

  lemma {:induction false} MatchAtOf(s: string, i: nat, p: (string, string), e: nat)
    requires i + 8 <= |s| && LowerAt(s, i, "<strong>") && NameMatch(s, i + 8) == Some((p, e))
    ensures MatchAt(s, i) == Some((p, e))
  {
  }

  /** The summary of a readable part at `i` is matched whole there. */
  lemma {:induction false} MatchPartAt(s: string, i: nat, p: Part)
    requires Readable(p)
    requires i + |PartHtml(p)| <= |s| && s[i..i + |PartHtml(p)|] == PartHtml(p)
    ensures MatchAt(s, i) == Some(((Trim(p.name), Trim(p.value)), i + |PartHtml(p)|))
  {
    PartLaidOut(s, i, p);
    MatchLaidOut(s, i, p.name, p.value);
  }

  /** A summary laid out piece by piece at `i` is matched whole there. */
  lemma {:induction false} MatchLaidOut(s: string, i: nat, n: string, v: string)
    requires n != [] && ':' !in n && '<' !in n && '<' !in v
    requires i + |n| + |v| + 23 <= |s| && s[i..i + 8] == "<strong>"
    requires s[i + 8..i + 8 + |n|] == n && s[i + 8 + |n|] == ':'
    requires s[i + 9 + |n|..i + 18 + |n|] == "</strong>"
    requires s[i + 18 + |n|..i + 19 + |n| + |v|] == " " + v
    requires s[i + 19 + |n| + |v|..i + 23 + |n| + |v|] == "<br>"
    ensures MatchAt(s, i) == Some(((Trim(n), Trim(v)), i + |n| + |v| + 23))
  {
    LiteralAt(s, i, "<strong>");
    NameAt(s, i + 8, n, v);
    MatchAtOf(s, i, (Trim(n), Trim(v)), i + |n| + |v| + 23);
  }

  /** `HtmlOf` read from the front: the first part's summary, then the rest. */
  lemma {:induction false} HtmlOfFront(parts: seq<Part>)
    requires parts != []
    ensures HtmlOf(parts) == PartHtml(parts[0]) + HtmlOf(parts[1..])
  {
    if |parts| > 1 {
      var init := parts[..|parts| - 1];
      HtmlOfFront(init);
      assert init[1..] == parts[1..][..|parts[1..]| - 1];
      assert init[0] == parts[0];
    }
  }

  lemma {:induction false} PairsOfFront(parts: seq<Part>)
    requires parts != []
    ensures PairsOf(parts) == [(Trim(parts[0].name), Trim(parts[0].value))] + PairsOf(parts[1..])
  {
  }

  /** The first summary and the rest, as written from `i`. */
  lemma {:induction false} PartSplit(s: string, i: nat, parts: seq<Part>)
    requires parts != [] && i <= |s| && s[i..] == HtmlOf(parts)
    ensures var l := |PartHtml(parts[0])|;
      i + l <= |s| && s[i..i + l] == PartHtml(parts[0]) && s[i + l..] == HtmlOf(parts[1..])
  {
    var l := |PartHtml(parts[0])|;
    HtmlOfFront(parts);
    assert s[i..][..l] == s[i..i + l];
    assert s[i..][l..] == s[i + l..];
  }

  lemma {:induction false} ScanOf(s: string, i: nat, p: (string, string), e: nat)
    requires i < |s| && MatchAt(s, i) == Some((p, e))
    ensures Scan(s, i) == [p] + Scan(s, e)
  {
  }

  /** Summaries written from `i` to the end are read back part by part. */
  lemma {:induction false} ScanHtmlAt(s: string, i: nat, parts: seq<Part>)
    requires i <= |s| && s[i..] == HtmlOf(parts)
    requires forall k :: 0 <= k < |parts| ==> Readable(parts[k])
    ensures Scan(s, i) == PairsOf(parts)
    decreases |parts|
  {
    if parts == [] {
      assert |s[i..]| == 0;
    } else {
      var p := parts[0];
      var e := i + |PartHtml(p)|;
      PartSplit(s, i, parts);
      MatchPartAt(s, i, p);
      ScanOf(s, i, (Trim(p.name), Trim(p.value)), e);
      ScanHtmlAt(s, e, parts[1..]);
      PairsOfFront(parts);
    }
  }

  /**
   * The summary `get_variations_by_product_id` writes is read back as the
   * trimmed name and value of every part, in order, when the names hold
   * no `:` or `<` and the values no `<`.
   */
  lemma {:induction false} ScanHtmlOf(parts: seq<Part>)
    requires forall k :: 0 <= k < |parts| ==> Readable(parts[k])
    ensures Scan(HtmlOf(parts), 0) == PairsOf(parts)
  {
    var s := HtmlOf(parts);
    assert s[0..] == s;
    ScanHtmlAt(s, 0, parts);
  }

  // ---------------------------------------------------------------------
  // findMatchingVariation

  function SetOf(s: seq<int>): set<int>
  {
    set x | x in s
  }

  /** The exact test: both id sets have the same size and every selected id is in the variation's set. */
  predicate SameValues(selected: seq<int>, ids: seq<int>)
  {
    |SetOf(selected)| == |SetOf(ids)| && SetOf(selected) <= SetOf(ids)
  }

  /** Equal size and inclusion is set equality. */
  lemma {:induction false} SameValuesIff(selected: seq<int>, ids: seq<int>)
    ensures SameValues(selected, ids) <==> SetOf(selected) == SetOf(ids)
  {
    var a, b := SetOf(selected), SetOf(ids);
    if a <= b && |a| == |b| {
      var d := b - a;
      assert b == a + d;
      assert a * d == {};
      assert |a + d| == |a| + |d|;
      assert d == {};
    }
  }

  function ValueIdsOf(v: VariationEntry): seq<int>
  {
    seq(|v.optionValueIds|, k requires 0 <= k < |v.optionValueIds| => v.optionValueIds[k] as int)
  }

  predicate Exact(v: VariationEntry, selected: seq<int>)
  {
    |v.optionValueIds| > 0 && SameValues(selected, ValueIdsOf(v))
  }

  /** Its summary is non-empty, yields pairs, and holds every selected pair. */
  predicate ComboHolds(v: VariationEntry, pairs: seq<(string, string)>)
  {
    var found := Scan(v.comboHtml, 0);
    v.comboHtml != "" && |found| > 0 && forall k :: 0 <= k < |pairs| ==> pairs[k] in found
  }

  predicate Partial(v: VariationEntry, selected: seq<int>)
  {
    |v.optionValueIds| > 0 && exists k :: 0 <= k < |selected| && selected[k] in ValueIdsOf(v)
  }

  /** The first variation passing the exact test. */
  function FirstExact(vs: seq<VariationEntry>, selected: seq<int>): (r: Option<VariationEntry>)
    ensures r.Some? ==> r.value in vs && Exact(r.value, selected)
    ensures r.None? <==> forall k :: 0 <= k < |vs| ==> !Exact(vs[k], selected)
  {
    if vs == [] then None
    else if Exact(vs[0], selected) then Some(vs[0])
    else
      var r := FirstExact(vs[1..], selected);
      assert forall k :: 0 < k < |vs| ==> vs[k] == vs[1..][k - 1];
      r
  }

  function FirstCombo(vs: seq<VariationEntry>, pairs: seq<(string, string)>): (r: Option<VariationEntry>)
    ensures r.Some? ==> r.value in vs && ComboHolds(r.value, pairs)
    ensures r.None? <==> forall k :: 0 <= k < |vs| ==> !ComboHolds(vs[k], pairs)
  {
    if vs == [] then None
    else if ComboHolds(vs[0], pairs) then Some(vs[0])
    else
      var r := FirstCombo(vs[1..], pairs);
      assert forall k :: 0 < k < |vs| ==> vs[k] == vs[1..][k - 1];
      r
  }

  function FirstPartial(vs: seq<VariationEntry>, selected: seq<int>): (r: Option<VariationEntry>)
    ensures r.Some? ==> r.value in vs && Partial(r.value, selected)
    ensures r.None? <==> forall k :: 0 <= k < |vs| ==> !Partial(vs[k], selected)
  {
    if vs == [] then None
    else if Partial(vs[0], selected) then Some(vs[0])
    else
      var r := FirstPartial(vs[1..], selected);
      assert forall k :: 0 < k < |vs| ==> vs[k] == vs[1..][k - 1];
      r
  }

  /** The selected value ids, in the order of the selection. */
  function SelectedIds(selection: seq<(int, int)>): seq<int>
  {
    seq(|selection|, k requires 0 <= k < |selection| => selection[k].1)
  }

  function FindOptionEntry(options: seq<OptionEntry>, id: int): (r: Option<OptionEntry>)
    ensures r.Some? ==> r.value in options && r.value.id == id
  {
    if options == [] then None
    else if options[0].id == id then Some(options[0])
    else FindOptionEntry(options[1..], id)
  }

  function FindValueEntry(values: seq<ValueEntry>, id: int): (r: Option<ValueEntry>)
    ensures r.Some? ==> r.value in values && r.value.id == id
  {
    if values == [] then None
    else if values[0].id == id then Some(values[0])
    else FindValueEntry(values[1..], id)
  }

  /** The pair one selection contributes: the trimmed option name and value, when both are listed. */
  function PairOf(options: seq<OptionEntry>, choice: (int, int)): Option<(string, string)>
  {
    match FindOptionEntry(options, choice.0)
    case None => None
    case Some(o) =>
      match FindValueEntry(o.values, choice.1)
      case None => None
      case Some(v) => Some((Trim(o.name), Trim(v.value)))
  }

  /** `selectedPairs`, in selection order, skipping choices whose option or value is not listed. */
  function SelectedPairs(selection: seq<(int, int)>, options: seq<OptionEntry>): seq<(string, string)>
  {
    if selection == [] then []
    else
      var p := PairOf(options, selection[|selection| - 1]);
      SelectedPairs(selection[..|selection| - 1], options) + (if p.Some? then [p.value] else [])
  }

  /**
   * `findMatchingVariation(selectedOptions)`: null without variations;
   * otherwise the first exact match, then the first whose summary holds
   * every selected pair, then the first sharing a value id, then the first
   * variation.
   */
  function MatchSpec(selection: seq<(int, int)>, options: seq<OptionEntry>, vs: seq<VariationEntry>): Option<VariationEntry>
  {
    var selected := SelectedIds(selection);
    var pairs := SelectedPairs(selection, options);
    if vs == [] then None
    else if FirstExact(vs, selected).Some? then FirstExact(vs, selected)
    else if |pairs| > 0 && FirstCombo(vs, pairs).Some? then FirstCombo(vs, pairs)
    else if FirstPartial(vs, selected).Some? then FirstPartial(vs, selected)
    else Some(vs[0])
  }

  /** The result is null exactly when there are no variations, and is otherwise one of them. */
  lemma {:induction false} MatchNullIff(selection: seq<(int, int)>, options: seq<OptionEntry>, vs: seq<VariationEntry>)
    ensures MatchSpec(selection, options, vs).None? <==> vs == []
    ensures MatchSpec(selection, options, vs).Some? ==> MatchSpec(selection, options, vs).value in vs
  {
  }

  /** A variation with exactly the selected value ids wins: the first such one is returned. */
  lemma {:induction false} ExactFirst(selection: seq<(int, int)>, options: seq<OptionEntry>, vs: seq<VariationEntry>, k: nat)
    requires k < |vs| && |vs[k].optionValueIds| > 0
    requires SetOf(SelectedIds(selection)) == SetOf(ValueIdsOf(vs[k]))
    requires forall j :: 0 <= j < k ==> !Exact(vs[j], SelectedIds(selection))
    ensures MatchSpec(selection, options, vs) == Some(vs[k])
  {
    SameValuesIff(SelectedIds(selection), ValueIdsOf(vs[k]));
    ExactAt(vs, SelectedIds(selection), k);
  }

  lemma {:induction false} ExactAt(vs: seq<VariationEntry>, selected: seq<int>, k: nat)
    requires k < |vs| && Exact(vs[k], selected)
    requires forall j :: 0 <= j < k ==> !Exact(vs[j], selected)
    ensures FirstExact(vs, selected) == Some(vs[k])
  {
    if k > 0 {
      assert forall j :: 0 <= j < k - 1 ==> vs[1..][j] == vs[j + 1];
      ExactAt(vs[1..], selected, k - 1);
    }
  }

  /**
   * With no exact match, a variation whose summary was written from parts
   * whose trimmed pairs include every selected pair is found by its summary.
   */
  lemma {:induction false} ComboFindsWrittenParts(v: VariationEntry, parts: seq<Part>, pairs: seq<(string, string)>)
    requires parts != [] && v.comboHtml == HtmlOf(parts)
    requires forall k :: 0 <= k < |parts| ==> Readable(parts[k])
    requires forall k :: 0 <= k < |pairs| ==> pairs[k] in PairsOf(parts)
    ensures ComboHolds(v, pairs)
  {
    ScanHtmlOf(parts);
    HtmlOfFront(parts);
  }

  /** The script's loops: three searches with an early return, then the first variation. */
  method FindMatchingVariation(selection: seq<(int, int)>, options: seq<OptionEntry>, vs: seq<VariationEntry>)
    returns (r: Option<VariationEntry>)
    ensures r == MatchSpec(selection, options, vs)
  {
    if vs == [] {
      return None;
    }
    var selected := SelectedIds(selection);
    var i := 0;
    while i < |vs|
      invariant i <= |vs|
      invariant FirstExact(vs, selected) == FirstExact(vs[i..], selected)
    {
      assert vs[i..][1..] == vs[i + 1..];
      if |vs[i].optionValueIds| > 0 && SameValues(selected, ValueIdsOf(vs[i])) {
        return Some(vs[i]);
      }
      i := i + 1;
    }
    var pairs := BuildSelectedPairs(selection, options);
    if |pairs| > 0 {
      i := 0;
      while i < |vs|
        invariant i <= |vs|
        invariant FirstCombo(vs, pairs) == FirstCombo(vs[i..], pairs)
      {
        assert vs[i..][1..] == vs[i + 1..];
        var html := vs[i].comboHtml;
        if html != "" {
          var found := ParsePairs(html);
          if |found| > 0 && AllIn(pairs, found) {
            return Some(vs[i]);
          }
        }
        i := i + 1;
      }
    }
    i := 0;
    while i < |vs|
      invariant i <= |vs|
      invariant FirstPartial(vs, selected) == FirstPartial(vs[i..], selected)
    {
      assert vs[i..][1..] == vs[i + 1..];
      if |vs[i].optionValueIds| > 0 && AnyIn(selected, ValueIdsOf(vs[i])) {
        return Some(vs[i]);
      }
      i := i + 1;
    }
    r := Some(vs[0]);
  }

  /** `selectedPairs.every(sp => pairs.some(...))`. */
  function AllIn(pairs: seq<(string, string)>, found: seq<(string, string)>): (b: bool)
    ensures b <==> forall k :: 0 <= k < |pairs| ==> pairs[k] in found
  {
    forall k :: 0 <= k < |pairs| ==> pairs[k] in found
  }

  /** `selectedValueIds.some(id => ids.includes(id))`. */
  function AnyIn(selected: seq<int>, ids: seq<int>): (b: bool)
    ensures b <==> exists k :: 0 <= k < |selected| && selected[k] in ids
  {
    exists k :: 0 <= k < |selected| && selected[k] in ids
  }

  /** The loop over `Object.entries(selectedOptions)` filling `selectedPairs`. */
  method BuildSelectedPairs(selection: seq<(int, int)>, options: seq<OptionEntry>) returns (pairs: seq<(string, string)>)
    ensures pairs == SelectedPairs(selection, options)
  {
    pairs := [];
    var i := 0;
    while i < |selection|
      invariant i <= |selection|
      invariant pairs == SelectedPairs(selection[..i], options)
    {
      var p := PairOf(options, selection[i]);
      assert selection[..i + 1][..i] == selection[..i];
      if p.Some? {
        pairs := pairs + [p.value];
      }
      i := i + 1;
    }
    assert selection[..i] == selection;
  }

  // ---------------------------------------------------------------------
  // updateProductImages: `photos.sort((a, b) => a.order - b.order)`

  function OrderKey(p: Photo): (int, int)
  {
    (p.order, 0)
  }

  /**
   * The photos are put in ascending `order`, a stable sort of the same
   * photos (an empty list is left alone).
   */
  method SortPhotos(photos: array<Photo>)
    modifies photos
    ensures photos[..] == SortBy(old(photos[..]), OrderKey)
    ensures SortedByKey(photos[..], OrderKey) && multiset(photos[..]) == multiset(old(photos[..]))
  {
    SortBySpec(photos[..], OrderKey);
    var sorted := SortBy(photos[..], OrderKey);
    var i := 0;
    while i < photos.Length
      invariant i <= photos.Length == |sorted|
      invariant forall k :: 0 <= k < i ==> photos[k] == sorted[k]
    {
      photos[i] := sorted[i];
      i := i + 1;
    }
    assert photos[..] == sorted;
  }

  // ---------------------------------------------------------------------
  // initProductImageSliders

  /** The slide list with exactly slide `c` active. */
  function OneActive(total: nat, c: nat): (r: seq<bool>)
    ensures |r| == total
    ensures c < total ==> forall k :: 0 <= k < total ==> (r[k] <==> k == c)
  {
    seq(total, k => k == c)
  }

  /** The slider of one product card, built only for two or more slides. */
  class ImageSlider {
    /** The `active` class of each slide. */
    const slides: array<bool>
    var current: nat
    /** `slideInterval` is set: the automatic advance is running. */
    var running: bool

    predicate Valid()
      reads this
    {
      slides.Length >= 2 && current < slides.Length
    }

    /** The state right after set-up: slide 0 current, nothing running, the page's classes as they were. */
    constructor (slides: array<bool>)
      requires slides.Length >= 2
      ensures Valid() && this.slides == slides && current == 0 && !running
    {
      this.slides := slides;
      current := 0;
      running := false;
    }

    /** `$slides.removeClass('active')`, then the current slide gets the class. */
    method Activate()
      requires Valid()
      modifies slides
      ensures slides[..] == OneActive(slides.Length, current)
    {
      var k := 0;
      while k < slides.Length
        invariant k <= slides.Length
        invariant forall j :: 0 <= j < k ==> !slides[j]
      {
        slides[k] := false;
        k := k + 1;
      }
      slides[current] := true;
    }

    /** `showNextSlide()`: the next slide, wrapping to the first, is the only active one. */
    method ShowNextSlide()
      requires Valid()
      modifies this, slides
      ensures Valid() && running == old(running)
      ensures current == (old(current) + 1) % slides.Length
      ensures slides[..] == OneActive(slides.Length, current)
    {
      current := (current + 1) % slides.Length;
      Activate();
    }

    /** `mouseenter`: the automatic advance starts. */
    method MouseEnter()
      modifies this
      ensures running && current == old(current)
    {
      running := true;
    }

    /** A tick of the 1.5-second interval while it runs. */
    method Tick()
      requires Valid() && running
      modifies this, slides
      ensures Valid() && running
      ensures current == (old(current) + 1) % slides.Length
      ensures slides[..] == OneActive(slides.Length, current)
    {
      ShowNextSlide();
    }

    /** `mouseleave`: the advance stops and the first slide is the only active one. */
    method MouseLeave()
      requires Valid()
      modifies this, slides
      ensures Valid() && !running && current == 0
      ensures slides[..] == OneActive(slides.Length, 0)
    {
      running := false;
      current := 0;
      Activate();
    }

    /** `click`: the advance stops and the next slide is shown. */
    method Click()
      requires Valid()
      modifies this, slides
      ensures Valid() && !running
      ensures current == (old(current) + 1) % slides.Length
      ensures slides[..] == OneActive(slides.Length, current)
    {
      running := false;
      ShowNextSlide();
    }
  }

  /** A slider is set up only for a card with more than one slide. */
  method InitSlider(slides: array<bool>) returns (s: ImageSlider?)
    ensures s == null <==> slides.Length <= 1
    ensures s != null ==> fresh(s) && s.Valid() && s.slides == slides && s.current == 0 && !s.running
  {
    if slides.Length <= 1 {
      return null;
    }
    s := new ImageSlider(slides);
  }

  /** The slide after `c`, wrapping to the first. */
  function Next(c: nat, total: nat): nat
  {
    if c + 1 >= total then 0 else c + 1
  }

  /** `(current + 1) % totalSlides` is that slide. */
  lemma {:induction false} NextIsMod(c: nat, total: nat)
    requires c < total
    ensures (c + 1) % total == Next(c, total)
  {
  }

  /** The slide index after `n` advances from `c`. */
  function Advanced(c: nat, total: nat, n: nat): nat
  {
    if n == 0 then c else Next(Advanced(c, total, n - 1), total)
  }

  lemma {:induction false} AdvancedCompose(c: nat, total: nat, m: nat, n: nat)
    ensures Advanced(c, total, m + n) == Advanced(Advanced(c, total, m), total, n)
  {
    if n > 0 {
      AdvancedCompose(c, total, m, n - 1);
    }
  }

  lemma {:induction false} AdvancedUpward(c: nat, total: nat, n: nat)
    requires c + n < total
    ensures Advanced(c, total, n) == c + n
  {
    if n > 0 {
      AdvancedUpward(c, total, n - 1);
    }
  }

  /**
   * Advancing goes through the following slides in order, and `total`
   * advances (clicks or ticks) bring the slider back to the slide it started on.
   */
  lemma {:induction false} SliderCycle(c: nat, total: nat)
    requires c < total
    ensures forall n :: 0 <= n < total - c ==> Advanced(c, total, n) == c + n
    ensures Advanced(c, total, total) == c
  {
    forall n | 0 <= n < total - c ensures Advanced(c, total, n) == c + n {
      AdvancedUpward(c, total, n);
    }
    AdvancedUpward(c, total, total - c - 1);
    assert Advanced(c, total, total - c) == 0;
    AdvancedCompose(c, total, total - c, c);
    if c > 0 {
      AdvancedUpward(0, total, c);
    }
  }
}
