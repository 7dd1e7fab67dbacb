// Shared vocabulary: optional values, the parts of Python's string and
// integer handling the CMS relies on, and Flask's submitted form as an
// ordered multi-dictionary.

module Common {

  datatype Option<T> = None | Some(value: T)

  /** A flashed message: Flask category ("success", "danger", ...) and text. */
  datatype Flash = Flash(category: string, message: string)

  // ---------------------------------------------------------------------
  // Characters and digits
  // ---------------------------------------------------------------------

  predicate IsDigitChar(c: char) { '0' <= c <= '9' }

  predicate AllDigitChars(s: string) { forall i :: 0 <= i < |s| ==> IsDigitChar(s[i]) }

  /** Python's `str.isdigit()` on ASCII text: non-empty and digits only. */
  predicate IsDigits(s: string) { |s| > 0 && AllDigitChars(s) }

  function DigitChar(d: nat): char
    requires d < 10
  {
    ('0' as int + d) as char
  }

  function DigitsValue(s: string): nat
    requires AllDigitChars(s)
  {
    if s == [] then 0 else 10 * DigitsValue(s[..|s| - 1]) + (s[|s| - 1] as int - '0' as int)
  }

  /** `str(n)` for a non-negative integer. */
  function NatToString(n: nat): string
  {
    if n < 10 then [DigitChar(n)] else NatToString(n / 10) + [DigitChar(n % 10)]
  }

  /** `str(i)` for any integer. */
  function IntToString(i: int): string
  {
    if i < 0 then "-" + NatToString(-i) else NatToString(i)
  }

  lemma {:induction false} NatToStringRoundTrip(n: nat)
    ensures IsDigits(NatToString(n))
    ensures DigitsValue(NatToString(n)) == n
  {
    if n >= 10 {
      NatToStringRoundTrip(n / 10);
      var s := NatToString(n);
      assert s[..|s| - 1] == NatToString(n / 10);
    }
  }

  /** Decimal rendering never starts with a minus sign. */
  lemma {:induction false} NatToStringNoSign(n: nat)
    ensures NatToString(n)[0] != '-'
  {
    NatToStringRoundTrip(n);
  }

  /** `str` is injective on naturals: distinct counters give distinct text. */
  lemma {:induction false} NatToStringInjective(a: nat, b: nat)
    requires NatToString(a) == NatToString(b)
    ensures a == b
  {
    NatToStringRoundTrip(a);
    NatToStringRoundTrip(b);
  }

  // ---------------------------------------------------------------------
  // Whitespace, case and the `int()` conversion
  // ---------------------------------------------------------------------

  /** ASCII characters for which Python's `str.isspace()` holds. */
  predicate IsSpace(c: char) { c == ' ' || 9 <= c as int <= 13 || 28 <= c as int <= 31 }

  function TrimLeft(s: string): (r: string)
    ensures |r| <= |s| && r == s[|s| - |r|..]
    ensures r != [] ==> !IsSpace(r[0])
  {
    if s != [] && IsSpace(s[0]) then TrimLeft(s[1..]) else s
  }

  function TrimRight(s: string): (r: string)
    ensures |r| <= |s| && r == s[..|r|]
    ensures r != [] ==> !IsSpace(r[|r| - 1])
  {
    if s != [] && IsSpace(s[|s| - 1]) then TrimRight(s[..|s| - 1]) else s
  }

  /** Python's `str.strip()` with no argument (ASCII whitespace). */
  function Strip(s: string): (r: string)
    ensures r != [] ==> !IsSpace(r[0]) && !IsSpace(r[|r| - 1])
  {
    TrimRight(TrimLeft(s))
  }

  /** Only whitespace is cut from the front. */
  lemma {:induction false} TrimLeftCutsSpace(s: string)
    ensures forall k :: 0 <= k < |s| - |TrimLeft(s)| ==> IsSpace(s[k])
  {
    if s != [] && IsSpace(s[0]) {
      TrimLeftCutsSpace(s[1..]);
      assert forall k :: 1 <= k < |s| ==> s[k] == s[1..][k - 1];
    }
  }

  /** Only whitespace is cut from the end. */
  lemma {:induction false} TrimRightCutsSpace(s: string)
    ensures forall k :: |TrimRight(s)| <= k < |s| ==> IsSpace(s[k])
  {
    if s != [] && IsSpace(s[|s| - 1]) {
      TrimRightCutsSpace(s[..|s| - 1]);
    }
  }

  /**
   * `str.strip()` keeps the slice `s[i..j]` left once the whitespace before
   * `i` and from `j` on is cut off: the input is that whitespace, the result
   * and that whitespace, and the result neither starts nor ends with
   * whitespace.
   */
  lemma {:induction false} StripSlice(s: string)
    ensures exists i, j :: 0 <= i <= j <= |s| && Strip(s) == s[i..j]
                           && (forall k :: 0 <= k < i ==> IsSpace(s[k]))
                           && (forall k :: j <= k < |s| ==> IsSpace(s[k]))
  {
    var t := TrimLeft(s);
    var r := TrimRight(t);
    var i := |s| - |t|;
    TrimLeftCutsSpace(s);
    TrimRightCutsSpace(t);
    assert r == s[i..i + |r|];
    assert forall k :: i + |r| <= k < |s| ==> s[k] == t[k - i];
  }

  /** Stripping text with no surrounding whitespace leaves it unchanged. */
  lemma {:induction false} StripNoSpace(s: string)
    requires s != [] ==> !IsSpace(s[0]) && !IsSpace(s[|s| - 1])
    ensures Strip(s) == s
  {
  }

  /** Python's `int(text)`: optional whitespace, optional sign, decimal digits. */
  function ParseInt(s: string): Option<int>
  {
    var t := Strip(s);
    if |t| > 0 && (t[0] == '-' || t[0] == '+') then
      if IsDigits(t[1..]) then
        Some(if t[0] == '-' then -(DigitsValue(t[1..]) as int) else DigitsValue(t[1..]))
      else None
    else if IsDigits(t) then Some(DigitsValue(t))
    else None
  }

  /** `int(str(i)) == i`. */
  lemma {:induction false} ParseIntRoundTrip(i: int)
    ensures ParseInt(IntToString(i)) == Some(i)
  {
    if i < 0 {
      NatToStringRoundTrip(-i);
      ParseNegative(NatToString(-i));
    } else {
      NatToStringRoundTrip(i);
      ParseIntDigits(NatToString(i));
    }
  }

  /** A minus sign followed by digits parses to the negated value. */
  lemma {:induction false} ParseNegative(d: string)
    requires IsDigits(d)
    ensures ParseInt("-" + d) == Some(-(DigitsValue(d) as int))
  {
    var t := "-" + d;
    assert t[|t| - 1] == d[|d| - 1];
    StripNoSpace(t);
    assert t[1..] == d;
  }

  /** An all-digit text parses to its decimal value. */
  lemma {:induction false} ParseIntDigits(s: string)
    requires IsDigits(s)
    ensures ParseInt(s) == Some(DigitsValue(s) as int)
  {
    StripNoSpace(s);
  }

  function LowerChar(c: char): char
  {
    if 'A' <= c <= 'Z' then (c as int + 32) as char else c
  }

  /** Python's `str.lower()` on ASCII letters. */
  function Lower(s: string): (r: string)
    ensures |r| == |s|
    ensures forall i :: 0 <= i < |s| ==> r[i] == LowerChar(s[i])
  {
    if s == [] then [] else [LowerChar(s[0])] + Lower(s[1..])
  }

  // ---------------------------------------------------------------------
  // Splitting and joining
  // ---------------------------------------------------------------------

  /** Python's `text.split(sep)` for a one-character separator. */
  function Split(s: string, sep: char): (r: seq<string>)
    ensures |r| >= 1
  {
    if s == [] then [""]
    else
      var rest := Split(s[1..], sep);
      if s[0] == sep then [""] + rest else [[s[0]] + rest[0]] + rest[1..]
  }

  /** Python's `sep.join(parts)`. */
  function Join(parts: seq<string>, sep: string): string
  {
    if parts == [] then ""
    else if |parts| == 1 then parts[0]
    else parts[0] + sep + Join(parts[1..], sep)
  }

  /** Splitting and re-joining gives back the text, and no piece holds the separator. */
  lemma {:induction false} SplitJoin(s: string, sep: char)
    ensures Join(Split(s, sep), [sep]) == s
    ensures forall k :: 0 <= k < |Split(s, sep)| ==> sep !in Split(s, sep)[k]
  {
    if s != [] {
      SplitJoin(s[1..], sep);
      var rest := Split(s[1..], sep);
      if s[0] != sep {
        if |rest| == 1 {
        } else {
          assert Join(rest, [sep]) == rest[0] + [sep] + Join(rest[1..], [sep]);
        }
      }
    }
  }

  /** A text with no separator stays whole at the front of the first piece. */
  lemma {:induction false} SplitNoSep(a: string, rest: string, sep: char)
    requires sep !in a
    ensures Split(a + rest, sep) == [a + Split(rest, sep)[0]] + Split(rest, sep)[1..]
  {
    if a == [] {
      assert a + rest == rest;
      var r := Split(rest, sep);
      assert a + r[0] == r[0];
      assert [r[0]] + r[1..] == r;
    } else {
      assert (a + rest)[1..] == a[1..] + rest;
      SplitNoSep(a[1..], rest, sep);
      assert [a[0]] + (a[1..] + Split(rest, sep)[0]) == a + Split(rest, sep)[0];
    }
  }

  /** Joining pieces free of the separator and splitting again gives back the pieces. */
  lemma {:induction false} JoinSplit(parts: seq<string>, sep: char)
    requires |parts| >= 1 && forall k :: 0 <= k < |parts| ==> sep !in parts[k]
    ensures Split(Join(parts, [sep]), sep) == parts
  {
    if |parts| == 1 {
      SplitNoSep(parts[0], [], sep);
      assert parts[0] + [] == parts[0];
    } else {
      var tail := Join(parts[1..], [sep]);
      JoinSplit(parts[1..], sep);
      assert Join(parts, [sep]) == parts[0] + ([sep] + tail);
      SplitNoSep(parts[0], [sep] + tail, sep);
      assert ([sep] + tail)[1..] == tail;
      assert parts[0] + "" == parts[0];
    }
  }

  /** Python's `text.split(sep)[0]`: everything before the first separator. */
  function Before(s: string, sep: char): (r: string)
    ensures r <= s && sep !in r
    ensures |r| < |s| ==> s[|r|] == sep
  {
    if s == [] || s[0] == sep then "" else [s[0]] + Before(s[1..], sep)
  }

  lemma {:induction false} BeforeIsFirstPiece(s: string, sep: char)
    ensures Split(s, sep)[0] == Before(s, sep)
  {
    if s != [] && s[0] != sep {
      BeforeIsFirstPiece(s[1..], sep);
    }
  }

  predicate StartsWith(s: string, prefix: string) { prefix <= s }

  /** Python's `needle in text` for strings. */
  predicate Contains(s: string, needle: string)
  {
    exists i :: 0 <= i <= |s| - |needle| && OccursAt(s, needle, i)
  }

  predicate OccursAt(s: string, needle: string, i: int)
  {
    0 <= i <= |s| - |needle| && s[i..i + |needle|] == needle
  }

  // ---------------------------------------------------------------------
  // The submitted form
  // ---------------------------------------------------------------------

  /**
   * Flask's `request.form`: the submitted fields in order. A name may occur
   * more than once (multi-select inputs).
   */
  type Form = seq<(string, string)>

  /** `form.get(name)`: the first value submitted under that name. */
  function Get(f: Form, name: string): (r: Option<string>)
    ensures r.Some? <==> exists i :: 0 <= i < |f| && f[i].0 == name
    ensures r.Some? ==> exists i :: 0 <= i < |f| && f[i] == (name, r.value) && forall j :: 0 <= j < i ==> f[j].0 != name
  {
    if f == [] then None
    else if f[0].0 == name then Some(f[0].1)
    else Get(f[1..], name)
  }

  /** `form.get(name, default)`. */
  function GetOr(f: Form, name: string, default: string): string
  {
    match Get(f, name)
    case Some(v) => v
    case None => default
  }

  /** Python truthiness of `form.get(name)`: present and non-empty. */
  function GetNonEmpty(f: Form, name: string): Option<string>
  {
    match Get(f, name)
    case Some(v) => if v != "" then Some(v) else None
    case None => None
  }

  /** `form.get(name, type=int)`: the first value converted, or None when absent or not an integer. */
  function GetInt(f: Form, name: string): Option<int>
  {
    match Get(f, name)
    case Some(v) => ParseInt(v)
    case None => None
  }

  /** `form.getlist(name)`: every value submitted under that name, in order. */
  function GetList(f: Form, name: string): (r: seq<string>)
    ensures |r| <= |f|
    ensures forall v :: v in r <==> (name, v) in f
  {
    if f == [] then []
    else if f[0].0 == name then [f[0].1] + GetList(f[1..], name)
    else GetList(f[1..], name)
  }

  /**
   * `getlist` distributes over concatenated submissions: together with
   * `GetListSnoc`, this fixes the result's contents and order.
   */
  lemma {:induction false} GetListAppend(f: Form, g: Form, name: string)
    ensures GetList(f + g, name) == GetList(f, name) + GetList(g, name)
  {
    if f == [] {
      assert f + g == g;
    } else {
      assert (f + g)[0] == f[0] && (f + g)[1..] == f[1..] + g;
      GetListAppend(f[1..], g, name);
    }
  }

  /** One more submitted pair adds its value at the end exactly when its name matches. */
  lemma {:induction false} GetListSnoc(f: Form, n: string, v: string, name: string)
    ensures GetList(f + [(n, v)], name) == GetList(f, name) + (if n == name then [v] else [])
  {
    GetListAppend(f, [(n, v)], name);
  }

  function Without(f: Form, name: string): (r: Form)
    ensures |r| <= |f|
    ensures forall p :: p in r <==> p in f && p.0 != name
  {
    if f == [] then []
    else if f[0].0 == name then Without(f[1..], name)
    else [f[0]] + Without(f[1..], name)
  }

  /**
   * `form.items()`: each submitted name once, in first-submission order,
   * paired with its first value.
   */
  function Items(f: Form): (r: Form)
    ensures |r| <= |f|
    decreases |f|
  {
    if f == [] then [] else [f[0]] + Items(Without(f[1..], f[0].0))
  }

  predicate DistinctNames(f: Form)
  {
    forall i, j :: 0 <= i < j < |f| ==> f[i].0 != f[j].0
  }

  lemma {:induction false} WithoutGet(f: Form, drop: string, name: string)
    requires name != drop
    ensures Get(Without(f, drop), name) == Get(f, name)
  {
    if f != [] {
      WithoutGet(f[1..], drop, name);
    }
  }

  lemma {:induction false} GetWithout(f: Form, name: string)
    ensures Get(Without(f, name), name) == None
  {
  }

  /**
   * Iterating `form.items()` visits every submitted name exactly once, with
   * the value `form.get` returns for it.
   */
  lemma {:induction false} ItemsAgreeWithGet(f: Form)
    ensures DistinctNames(Items(f))
    ensures forall name, v :: (name, v) in Items(f) <==> Get(f, name) == Some(v)
    decreases |f|
  {
    if f != [] {
      var rest := Without(f[1..], f[0].0);
      ItemsAgreeWithGet(rest);
      var r := Items(f);
      assert r == [f[0]] + Items(rest);
      forall name, v ensures (name, v) in r <==> Get(f, name) == Some(v) {
        if name == f[0].0 {
          GetWithout(f[1..], f[0].0);
          assert (name, v) !in Items(rest);
        } else {
          WithoutGet(f[1..], f[0].0, name);
        }
      }
      forall i, j | 0 <= i < j < |r| ensures r[i].0 != r[j].0 {
        if i == 0 {
          var q := r[j];
          assert q in Items(rest);
          assert Get(rest, q.0) == Some(q.1);
          GetWithout(f[1..], f[0].0);
        }
      }
    }
  }
}
