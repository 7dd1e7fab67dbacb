// URL slugs. Every slug helper of the CMS lowercases its input, turns each
// run of characters outside [a-zA-Z0-9] into one '-', and strips dashes
// from both ends; they differ only in how non-ASCII text is first reduced
// to ASCII and in the fallback for an empty result.

module Slugify {
  import opened Common

  predicate IsAsciiAlnum(c: char)
  {
    'a' <= c <= 'z' || 'A' <= c <= 'Z' || '0' <= c <= '9'
  }

  predicate IsSlugChar(c: char)
  {
    'a' <= c <= 'z' || '0' <= c <= '9' || c == '-'
  }

  predicate NoDoubleDash(s: string)
  {
    forall i :: 0 <= i < |s| - 1 ==> !(s[i] == '-' && s[i + 1] == '-')
  }

  predicate SlugChars(s: string)
  {
    forall i :: 0 <= i < |s| ==> IsSlugChar(s[i])
  }

  predicate NoUpper(s: string)
  {
    forall i :: 0 <= i < |s| ==> !('A' <= s[i] <= 'Z')
  }

  /** A well-formed slug: lowercase letters, digits and single inner dashes. */
  predicate IsSlug(s: string)
  {
    SlugChars(s) && NoDoubleDash(s) && (s != [] ==> s[0] != '-' && s[|s| - 1] != '-')
  }

  /** The letters and digits of a text, in order. */
  function AlnumOf(s: string): seq<char>
  {
    if s == [] then [] else (if IsAsciiAlnum(s[0]) then [s[0]] else []) + AlnumOf(s[1..])
  }

  /** The first position at or after `i` holding a letter or digit (or the end). */
  function NextAlnum(s: string, i: nat): (j: nat)
    requires i <= |s|
    ensures i <= j <= |s|
    ensures j < |s| ==> IsAsciiAlnum(s[j])
    ensures forall k :: i <= k < j ==> !IsAsciiAlnum(s[k])
    decreases |s| - i
  {
    if i < |s| && !IsAsciiAlnum(s[i]) then NextAlnum(s, i + 1) else i
  }

  /** `re.sub(r'[^a-zA-Z0-9]+', '-', s[i:])`. */
  function DashRunsFrom(s: string, i: nat): string
    requires i <= |s|
    decreases |s| - i
  {
    if i == |s| then []
    else if IsAsciiAlnum(s[i]) then [s[i]] + DashRunsFrom(s, i + 1)
    else "-" + DashRunsFrom(s, NextAlnum(s, i + 1))
  }

  function DashRuns(s: string): string
  {
    DashRunsFrom(s, 0)
  }

  /** Number of dashes at the start of `s[i..]`, as an index. */
  function LeadEnd(s: string, i: nat): (n: nat)
    requires i <= |s|
    ensures i <= n <= |s|
    ensures n < |s| ==> s[n] != '-'
    ensures forall k :: i <= k < n ==> s[k] == '-'
    decreases |s| - i
  {
    if i < |s| && s[i] == '-' then LeadEnd(s, i + 1) else i
  }

  /** The end of `s[lo..j]` once its trailing dashes are dropped. */
  function TrailStart(s: string, lo: nat, j: nat): (n: nat)
    requires lo <= j <= |s|
    ensures lo <= n <= j
    ensures n > lo ==> s[n - 1] != '-'
    ensures forall k :: n <= k < j ==> s[k] == '-'
    decreases j
  {
    if j > lo && s[j - 1] == '-' then TrailStart(s, lo, j - 1) else j
  }

  /** `s.strip('-')`. */
  function StripDashes(s: string): string
  {
    var lo := LeadEnd(s, 0);
    s[lo..TrailStart(s, lo, |s|)]
  }

  /**
   * The shared slug pipeline on ASCII text:
   * `re.sub(r'[^a-zA-Z0-9]+', '-', text.lower()).strip('-')`.
   */
  function SlugText(s: string): string
  {
    StripDashes(DashRuns(Lower(s)))
  }

  /** `value.encode('ascii', 'ignore').decode('ascii')`: drops every non-ASCII character. */
  function AsciiOnly(s: string): (r: string)
    ensures forall i :: 0 <= i < |r| ==> r[i] as int < 128
  {
    if s == [] then [] else (if s[0] as int < 128 then [s[0]] else []) + AsciiOnly(s[1..])
  }

  /**
   * `BaseModel.slugify` (also `PostCategory.slugify` and the admin views'
   * `slugify`, which carry the same code): ASCII-only, then the pipeline.
   */
  function AsciiSlugify(value: string): string
  {
    SlugText(AsciiOnly(value))
  }

  /**
   * The forms' `slugify` and `Product._slugify`: the input is the
   * transliterated (ASCII) text, then the pipeline.
   */
  function TranslitSlugify(transliterated: string): string
  {
    SlugText(transliterated)
  }

  /** The pages' `generate_slug(title)`: the pipeline on `title or ''`, else "page". */
  function PageSlug(title: Option<string>): string
  {
    var base := SlugText(if title.Some? then title.value else "");
    if base != "" then base else "page"
  }

  // ---------------------------------------------------------------------
  // Properties of the pipeline
  // ---------------------------------------------------------------------

  lemma {:induction false} DashRunsShape(s: string, i: nat)
    requires i <= |s| && NoUpper(s)
    ensures SlugChars(DashRunsFrom(s, i))
    ensures NoDoubleDash(DashRunsFrom(s, i))
    ensures i < |s| && IsAsciiAlnum(s[i]) ==> DashRunsFrom(s, i) != [] && DashRunsFrom(s, i)[0] == s[i]
    decreases |s| - i
  {
    if i < |s| {
      var r := DashRunsFrom(s, i);
      var j := if IsAsciiAlnum(s[i]) then i + 1 else NextAlnum(s, i + 1);
      DashRunsShape(s, j);
      var t := DashRunsFrom(s, j);
      assert r[1..] == t;
      forall k | 0 <= k < |r| - 1 ensures !(r[k] == '-' && r[k + 1] == '-') {
        if k > 0 {
          assert r[k] == t[k - 1] && r[k + 1] == t[k];
        }
      }
      forall k | 0 <= k < |r| ensures IsSlugChar(r[k]) {
        if k > 0 {
          assert r[k] == t[k - 1];
        }
      }
    }
  }

  lemma {:induction false} AlnumOfAppend(a: string, b: string)
    ensures AlnumOf(a + b) == AlnumOf(a) + AlnumOf(b)
  {
    if a == [] {
      assert a + b == b;
    } else {
      AlnumOfAppend(a[1..], b);
      assert (a + b)[0] == a[0];
      assert (a + b)[1..] == a[1..] + b;
    }
  }

  lemma {:induction false} AlnumOfNone(s: string)
    requires forall k :: 0 <= k < |s| ==> !IsAsciiAlnum(s[k])
    ensures AlnumOf(s) == []
  {
    if s != [] {
      AlnumOfNone(s[1..]);
    }
  }

  lemma {:induction false} DashRunsKeepsAlnum(s: string, i: nat)
    requires i <= |s|
    ensures AlnumOf(DashRunsFrom(s, i)) == AlnumOf(s[i..])
    decreases |s| - i
  {
    if i < |s| {
      var r := DashRunsFrom(s, i);
      if IsAsciiAlnum(s[i]) {
        DashRunsKeepsAlnum(s, i + 1);
        assert r == [s[i]] + DashRunsFrom(s, i + 1);
        AlnumOfAppend([s[i]], DashRunsFrom(s, i + 1));
        assert s[i..] == [s[i]] + s[i + 1..];
        AlnumOfAppend([s[i]], s[i + 1..]);
      } else {
        var j := NextAlnum(s, i + 1);
        DashRunsKeepsAlnum(s, j);
        AlnumOfAppend("-", DashRunsFrom(s, j));
        assert s[i..] == s[i..j] + s[j..];
        AlnumOfAppend(s[i..j], s[j..]);
        AlnumOfNone(s[i..j]);
      }
    }
  }

  lemma {:induction false} NoDoubleDashSlice(s: string, lo: nat, hi: nat)
    requires lo <= hi <= |s| && NoDoubleDash(s)
    ensures NoDoubleDash(s[lo..hi])
  {
    var r := s[lo..hi];
    forall i | 0 <= i < |r| - 1 ensures !(r[i] == '-' && r[i + 1] == '-') {
      assert r[i] == s[lo + i] && r[i + 1] == s[lo + i + 1];
    }
  }

  lemma {:induction false} LowerNoUpper(s: string)
    ensures NoUpper(Lower(s))
  {
  }

  /**
   * Every slug helper's output is lowercase letters, digits and dashes,
   * never starts or ends with a dash, and never holds two dashes in a row.
   */
  lemma {:induction false} SlugTextIsSlug(s: string)
    ensures IsSlug(SlugText(s))
  {
    var d := DashRuns(Lower(s));
    LowerNoUpper(s);
    DashRunsShape(Lower(s), 0);
    var lo := LeadEnd(d, 0);
    var hi := TrailStart(d, lo, |d|);
    NoDoubleDashSlice(d, lo, hi);
    var r := SlugText(s);
    assert r == d[lo..hi];
    forall i | 0 <= i < |r| ensures IsSlugChar(r[i]) {
      assert r[i] == d[lo + i];
    }
  }

  /** Dropping non-alphanumeric ends of a text keeps its letters and digits. */
  lemma {:induction false} AlnumOfTrimmed(d: string, lo: nat, hi: nat)
    requires lo <= hi <= |d|
    requires forall k :: 0 <= k < lo ==> !IsAsciiAlnum(d[k])
    requires forall k :: hi <= k < |d| ==> !IsAsciiAlnum(d[k])
    ensures AlnumOf(d[lo..hi]) == AlnumOf(d)
  {
    var a, m, z := d[..lo], d[lo..hi], d[hi..];
    assert d == (a + m) + z;
    AlnumOfAppend(a + m, z);
    AlnumOfAppend(a, m);
    AlnumOfNone(a);
    AlnumOfNone(z);
  }

  /** The letters and digits of the input all survive, lowercased and in order. */
  lemma {:induction false} SlugTextKeepsAlnum(s: string)
    ensures AlnumOf(SlugText(s)) == AlnumOf(Lower(s))
  {
    var l := Lower(s);
    var d := DashRuns(l);
    DashRunsKeepsAlnum(l, 0);
    assert l[0..] == l;
    var lo := LeadEnd(d, 0);
    var hi := TrailStart(d, lo, |d|);
    AlnumOfTrimmed(d, lo, hi);
  }

  lemma {:induction false} DashRunsFixes(t: string, i: nat)
    requires i <= |t| && SlugChars(t) && NoDoubleDash(t)
    requires i < |t| ==> t[i] != '-' || i == 0 || t[i - 1] != '-'
    ensures DashRunsFrom(t, i) == t[i..]
    decreases |t| - i
  {
    if i < |t| {
      DashRunsFixes(t, i + 1);
      if !IsAsciiAlnum(t[i]) {
        assert t[i] == '-';
        assert NextAlnum(t, i + 1) == i + 1;
      }
      assert t[i..] == [t[i]] + t[i + 1..];
    }
  }

  /** Slugifying a slug changes nothing. */
  lemma {:induction false} SlugTextFixesSlugs(t: string)
    requires IsSlug(t)
    ensures SlugText(t) == t
  {
    assert Lower(t) == t;
    DashRunsFixes(t, 0);
    assert t[0..] == t;
    assert LeadEnd(t, 0) == 0;
  }

  /** `slugify(slugify(x)) == slugify(x)`. */
  lemma {:induction false} SlugTextIdempotent(s: string)
    ensures SlugText(SlugText(s)) == SlugText(s)
  {
    SlugTextIsSlug(s);
    SlugTextFixesSlugs(SlugText(s));
  }

  lemma {:induction false} AsciiOnlyKeepsAscii(s: string)
    requires forall i :: 0 <= i < |s| ==> s[i] as int < 128
    ensures AsciiOnly(s) == s
  {
    if s != [] {
      AsciiOnlyKeepsAscii(s[1..]);
    }
  }

  /** `BaseModel.slugify` yields a slug and is idempotent. */
  lemma {:induction false} AsciiSlugifyIdempotent(value: string)
    ensures IsSlug(AsciiSlugify(value))
    ensures AsciiSlugify(AsciiSlugify(value)) == AsciiSlugify(value)
  {
    var r := AsciiSlugify(value);
    SlugTextIsSlug(AsciiOnly(value));
    AsciiOnlyKeepsAscii(r);
    SlugTextFixesSlugs(r);
  }

  /** The forms' `slugify` yields a slug, is idempotent and keeps every letter and digit. */
  lemma {:induction false} TranslitSlugifyIsSlug(value: string)
    ensures IsSlug(TranslitSlugify(value))
    ensures TranslitSlugify(TranslitSlugify(value)) == TranslitSlugify(value)
    ensures AlnumOf(TranslitSlugify(value)) == AlnumOf(Lower(value))
  {
    SlugTextIsSlug(value);
    SlugTextIdempotent(value);
    SlugTextKeepsAlnum(value);
  }

  lemma {:induction false} PageFallbackIsSlug()
    ensures IsSlug("page")
  {
    var p := "page";
    assert p[0] == 'p' && p[1] == 'a' && p[2] == 'g' && p[3] == 'e';
  }

  /** A page slug is never empty and is always a well-formed slug. */
  lemma {:induction false} PageSlugIsSlug(title: Option<string>)
    ensures PageSlug(title) != [] && IsSlug(PageSlug(title))
    ensures title.Some? && SlugText(title.value) != "" ==> PageSlug(title) == SlugText(title.value)
  {
    var t := if title.Some? then title.value else "";
    var b := SlugText(t);
    SlugTextIsSlug(t);
    PageFallbackIsSlug();
    assert PageSlug(title) == if b != "" then b else "page";
  }

  /** The fixed fallbacks `'category'` and `'product'` are slugs. */
  lemma {:induction false} FallbackSlugs()
    ensures IsSlug("category") && IsSlug("product")
  {
    var c := "category";
    assert c[0] == 'c' && c[1] == 'a' && c[2] == 't' && c[3] == 'e' && c[4] == 'g' && c[5] == 'o' && c[6] == 'r' && c[7] == 'y';
    var p := "product";
    assert p[0] == 'p' && p[1] == 'r' && p[2] == 'o' && p[3] == 'd' && p[4] == 'u' && p[5] == 'c' && p[6] == 't';
  }
}
