// The submitted forms of the content-module editors (slider, banner,
// gallery, tabs): repeated inputs are named `prefix[idx][field]`, and each
// handler walks `form.items()` to gather them into one record per index,
// a dict of dicts in which a later value for the same field wins.

module ModuleForms {
  import opened Common

  /**
   * `key.split("[")[n].split("]")[0]`: the text of the n-th bracket group
   * (n = 0 is the prefix). None where there are too few pieces, which is an
   * IndexError in Python.
   */
  function Part(key: string, n: nat): (r: Option<string>)
    ensures r.Some? <==> n < |Split(key, '[')|
    ensures r.Some? ==> '[' !in r.value && ']' !in r.value
  {
    SplitJoin(key, '[');
    var pieces := Split(key, '[');
    if n < |pieces| then Some(Before(pieces[n], ']')) else None
  }

  /** A bracket-free name, as the editors' templates put in each group. */
  predicate Plain(s: string) { '[' !in s && ']' !in s }

  /** The bracket groups `[g1][g2]...` of an input name. */
  function Groups(gs: seq<string>): string
  {
    if gs == [] then "" else "[" + gs[0] + "]" + Groups(gs[1..])
  }

  /**
   * The input name an editor template renders: `prefix[idx][field]`, or
   * `prefix[idx][buttons][b][field]` for the slide buttons.
   */
  function Key(prefix: string, gs: seq<string>): string
  {
    prefix + Groups(gs)
  }

  lemma {:induction false} SplitPlain(a: string, sep: char)
    requires sep !in a
    ensures Split(a, sep) == [a]
  {
    if a != [] {
      SplitPlain(a[1..], sep);
      assert [a[0]] + a[1..] == a;
    }
  }

  lemma {:induction false} SplitAt(a: string, sep: char, b: string)
    requires sep !in a
    ensures Split(a + [sep] + b, sep) == [a] + Split(b, sep)
  {
    if a == [] {
      assert a + [sep] + b == [sep] + b;
      assert ([sep] + b)[1..] == b;
    } else {
      assert (a + [sep] + b)[1..] == a[1..] + [sep] + b;
      SplitAt(a[1..], sep, b);
      assert [a[0]] + a[1..] == a;
    }
  }

  lemma {:induction false} BeforeAt(a: string, sep: char, b: string)
    requires sep !in a
    ensures Before(a + [sep] + b, sep) == a
  {
    if a == [] {
      assert (a + [sep] + b)[0] == sep;
    } else {
      assert (a + [sep] + b)[1..] == a[1..] + [sep] + b;
      BeforeAt(a[1..], sep, b);
      assert [a[0]] + a[1..] == a;
    }
  }

  lemma {:induction false} BeforePlain(a: string, sep: char)
    requires sep !in a
    ensures Before(a, sep) == a
  {
    if a != [] {
      BeforePlain(a[1..], sep);
      assert [a[0]] + a[1..] == a;
    }
  }

  /** The pieces `split("[")` gives for a rendered name: the prefix, then each group with its `]`. */
  lemma {:induction false} KeyPieces(prefix: string, gs: seq<string>)
    requires '[' !in prefix
    requires forall k :: 0 <= k < |gs| ==> Plain(gs[k])
    ensures Split(Key(prefix, gs), '[') == [prefix] + seq(|gs|, k requires 0 <= k < |gs| => gs[k] + "]")
    decreases |gs|
  {
    if gs == [] {
      assert Key(prefix, gs) == prefix;
      SplitPlain(prefix, '[');
    } else {
      var head := gs[0] + "]";
      assert Key(prefix, gs) == prefix + ['['] + Key(head, gs[1..]);
      SplitAt(prefix, '[', Key(head, gs[1..]));
      KeyPieces(head, gs[1..]);
    }
  }

  /** Parsing a rendered name gives back its prefix and every group, and nothing past them. */
  lemma {:induction false} KeyRoundTrip(prefix: string, gs: seq<string>)
    requires Plain(prefix)
    requires forall k :: 0 <= k < |gs| ==> Plain(gs[k])
    ensures Part(Key(prefix, gs), 0) == Some(prefix)
    ensures forall n :: 1 <= n <= |gs| ==> Part(Key(prefix, gs), n) == Some(gs[n - 1])
    ensures Part(Key(prefix, gs), |gs| + 1).None?
  {
    KeyPieces(prefix, gs);
    BeforePlain(prefix, ']');
    forall n | 1 <= n <= |gs| ensures Part(Key(prefix, gs), n) == Some(gs[n - 1]) {
      BeforeAt(gs[n - 1], ']', "");
      assert gs[n - 1] + [']'] + "" == gs[n - 1] + "]";
    }
  }

  // ---------------------------------------------------------------------
  // Records: a dict of dicts in insertion order

  /** One entry per index, each holding its fields (a form with distinct names). */
  type Records<K> = seq<(K, Form)>

  /** `d[field] = value` on a dict kept in insertion order. */
  function SetField(rec: Form, field: string, value: string): (r: Form)
    ensures |r| == |rec| || |r| == |rec| + 1
  {
    if rec == [] then [(field, value)]
    else if rec[0].0 == field then [(field, value)] + rec[1..]
    else [rec[0]] + SetField(rec[1..], field, value)
  }

  /** Reading a field after setting it: the new value there, the old ones elsewhere. */
  lemma {:induction false} SetFieldGet(rec: Form, field: string, value: string, other: string)
    ensures Get(SetField(rec, field, value), other) == if other == field then Some(value) else Get(rec, other)
  {
    if rec != [] && rec[0].0 != field {
      SetFieldGet(rec[1..], field, value, other);
    }
  }

  /** `records[k]`, if present. */
  function RecordOf<K(==)>(rs: Records<K>, k: K): (r: Option<Form>)
    ensures r.Some? <==> exists j :: 0 <= j < |rs| && rs[j].0 == k
  {
    if rs == [] then None
    else if rs[0].0 == k then Some(rs[0].1)
    else RecordOf(rs[1..], k)
  }

  predicate DistinctKeys<K(==)>(rs: Records<K>)
  {
    forall i, j :: 0 <= i < j < |rs| ==> rs[i].0 != rs[j].0
  }

  /** `records.setdefault(k, {})[field] = value`. */
  function Put<K(==)>(rs: Records<K>, k: K, field: string, value: string): (r: Records<K>)
    ensures |r| == |rs| || |r| == |rs| + 1
  {
    if rs == [] then [(k, [(field, value)])]
    else if rs[0].0 == k then [(k, SetField(rs[0].1, field, value))] + rs[1..]
    else [rs[0]] + Put(rs[1..], k, field, value)
  }

  /**
   * Putting a field creates the entry for `k` when it is missing and keeps
   * every other entry; keys stay distinct.
   */
  lemma {:induction false} PutSpec<K>(rs: Records<K>, k: K, field: string, value: string, other: K)
    requires DistinctKeys(rs)
    ensures DistinctKeys(Put(rs, k, field, value))
    ensures RecordOf(Put(rs, k, field, value), other) ==
      if other == k then Some(SetField(if RecordOf(rs, k).Some? then RecordOf(rs, k).value else [], field, value))
      else RecordOf(rs, other)
  {
    if rs != [] && rs[0].0 != k {
      PutSpec(rs[1..], k, field, value, other);
      assert RecordOf(rs[1..], rs[0].0).None? by {
        forall i | 0 <= i < |rs[1..]| ensures rs[1..][i].0 != rs[0].0 {
          assert rs[1..][i] == rs[i + 1];
        }
      }
      PutSpec(rs[1..], k, field, value, rs[0].0);
    }
  }

  // ---------------------------------------------------------------------
  // Grouping `prefix[idx][field]` inputs

  /** A submitted name that the grouping loop files under `idx`. */
  predicate Grouped(key: string, prefix: string, idx: string)
  {
    StartsWith(key, prefix) && Part(key, 1) == Some(idx) && Part(key, 2).Some?
  }

  /**
   * The loop over `form.items()`: names starting with `prefix` are split on
   * brackets and stored under their index and field. A name with too few
   * groups raises IndexError (None), unless the handler skips such names
   * (`lenient`, the banner editor's `len(parts) < 3` guard).
   */
  function GroupFields(items: Form, prefix: string, lenient: bool): Option<Records<string>>
  {
    if items == [] then Some([])
    else
      var prev := GroupFields(items[..|items| - 1], prefix, lenient);
      var key := items[|items| - 1].0;
      if prev.None? then None
      else if !StartsWith(key, prefix) then prev
      else match (Part(key, 1), Part(key, 2))
        case (Some(idx), Some(field)) => Some(Put(prev.value, idx, field, items[|items| - 1].1))
        case _ => if lenient then prev else None
  }

  /** The value the loop leaves in `records[idx][field]`: the last one submitted. */
  function LastValue(items: Form, prefix: string, idx: string, field: string): Option<string>
  {
    if items == [] then None
    else
      var key := items[|items| - 1].0;
      if Grouped(key, prefix, idx) && Part(key, 2) == Some(field) then Some(items[|items| - 1].1)
      else LastValue(items[..|items| - 1], prefix, idx, field)
  }

  /** Some submitted name is filed under `idx`. */
  predicate HasIndex(items: Form, prefix: string, idx: string)
  {
    exists j :: 0 <= j < |items| && Grouped(items[j].0, prefix, idx)
  }

  /** A name starts with the prefix but lacks the index or field group. */
  predicate Malformed(key: string, prefix: string)
  {
    StartsWith(key, prefix) && Part(key, 2).None?
  }

  lemma {:induction false} GroupFieldsFails(items: Form, prefix: string, lenient: bool)
    ensures GroupFields(items, prefix, lenient).None? <==>
      !lenient && exists j :: 0 <= j < |items| && Malformed(items[j].0, prefix)
  {
    if items != [] {
      var init := items[..|items| - 1];
      GroupFieldsFails(init, prefix, lenient);
      var key := items[|items| - 1].0;
      if StartsWith(key, prefix) && Part(key, 1).None? {
        assert Part(key, 2).None?;
      }
      if exists j :: 0 <= j < |items| && Malformed(items[j].0, prefix) {
        var j :| 0 <= j < |items| && Malformed(items[j].0, prefix);
        if j < |init| {
          assert Malformed(init[j].0, prefix);
        }
      }
    }
  }

  /**
   * The grouped records: one per distinct index that some grouped name
   * carries, each field holding the last value submitted for it.
   */
  lemma {:induction false} GroupFieldsSpec(items: Form, prefix: string, lenient: bool)
    requires GroupFields(items, prefix, lenient).Some?
    ensures DistinctKeys(GroupFields(items, prefix, lenient).value)
    ensures forall idx :: RecordOf(GroupFields(items, prefix, lenient).value, idx).Some? <==> HasIndex(items, prefix, idx)
    ensures forall idx, field :: RecordOf(GroupFields(items, prefix, lenient).value, idx).Some? ==>
      Get(RecordOf(GroupFields(items, prefix, lenient).value, idx).value, field) == LastValue(items, prefix, idx, field)
  {
    if items != [] {
      var init := items[..|items| - 1];
      GroupFieldsSpec(init, prefix, lenient);
      var prev := GroupFields(init, prefix, lenient).value;
      var rs := GroupFields(items, prefix, lenient).value;
      var (key, value) := items[|items| - 1];
      if StartsWith(key, prefix) && Part(key, 1).Some? && Part(key, 2).Some? {
        var idx0 := Part(key, 1).value;
        var f0 := Part(key, 2).value;
        assert rs == Put(prev, idx0, f0, value);
        forall idx ensures RecordOf(rs, idx).Some? <==> HasIndex(items, prefix, idx)
          ensures RecordOf(rs, idx).Some? ==> forall field :: Get(RecordOf(rs, idx).value, field) == LastValue(items, prefix, idx, field)
        {
          PutSpec(prev, idx0, f0, value, idx);
          HasIndexSnoc(items, prefix, idx);
          if idx == idx0 {
            forall field ensures Get(RecordOf(rs, idx).value, field) == LastValue(items, prefix, idx, field) {
              SetFieldGet(if RecordOf(prev, idx0).Some? then RecordOf(prev, idx0).value else [], f0, value, field);
              if field != f0 && RecordOf(prev, idx0).None? {
                assert !HasIndex(init, prefix, idx0);
                LastValueAbsent(init, prefix, idx0, field);
              }
            }
          }
        }
        PutSpec(prev, idx0, f0, value, idx0);
      } else {
        assert StartsWith(key, prefix) ==> Part(key, 1).None? || Part(key, 2).None?;
        forall idx ensures RecordOf(rs, idx).Some? <==> HasIndex(items, prefix, idx)
          ensures RecordOf(rs, idx).Some? ==> forall field :: Get(RecordOf(rs, idx).value, field) == LastValue(items, prefix, idx, field)
        {
          HasIndexSnoc(items, prefix, idx);
        }
      }
    }
  }

  lemma {:induction false} HasIndexSnoc(items: Form, prefix: string, idx: string)
    requires items != []
    ensures HasIndex(items, prefix, idx) <==>
      HasIndex(items[..|items| - 1], prefix, idx) || Grouped(items[|items| - 1].0, prefix, idx)
  {
    var init := items[..|items| - 1];
    if HasIndex(items, prefix, idx) && !Grouped(items[|items| - 1].0, prefix, idx) {
      var j :| 0 <= j < |items| && Grouped(items[j].0, prefix, idx);
      assert Grouped(init[j].0, prefix, idx);
    }
    if HasIndex(init, prefix, idx) {
      var j :| 0 <= j < |init| && Grouped(init[j].0, prefix, idx);
      assert Grouped(items[j].0, prefix, idx);
    }
  }

  lemma {:induction false} LastValueAbsent(items: Form, prefix: string, idx: string, field: string)
    requires !HasIndex(items, prefix, idx)
    ensures LastValue(items, prefix, idx, field).None?
  {
    if items != [] {
      HasIndexSnoc(items, prefix, idx);
      LastValueAbsent(items[..|items| - 1], prefix, idx, field);
    }
  }

  lemma {:induction false} GroupFieldsFailExtends(items: Form, k: nat, prefix: string, lenient: bool)
    requires k <= |items| && GroupFields(items[..k], prefix, lenient).None?
    ensures GroupFields(items, prefix, lenient).None?
  {
    GroupFieldsFails(items[..k], prefix, lenient);
    var j :| 0 <= j < k && Malformed(items[..k][j].0, prefix);
    assert Malformed(items[j].0, prefix);
    GroupFieldsFails(items, prefix, lenient);
  }

  /** The handlers' loop over `form.items()`, filling the dict of dicts in place. */
  method GroupForm(items: Form, prefix: string, lenient: bool) returns (r: Option<Records<string>>)
    ensures r == GroupFields(items, prefix, lenient)
  {
    var records: Records<string> := [];
    var i := 0;
    while i < |items|
      invariant 0 <= i <= |items|
      invariant GroupFields(items[..i], prefix, lenient) == Some(records)
    {
      var (key, value) := items[i];
      assert items[..i + 1][..i] == items[..i];
      if StartsWith(key, prefix) {
        var idx := Part(key, 1);
        var field := Part(key, 2);
        if idx.Some? && field.Some? {
          records := Put(records, idx.value, field.value, value);
        } else if !lenient {
          GroupFieldsFailExtends(items, i + 1, prefix, lenient);
          return None;
        }
      }
      i := i + 1;
    }
    assert items[..|items|] == items;
    r := Some(records);
  }

  // ---------------------------------------------------------------------
  // Coercions shared by the editors

  /** A checkbox: `form.get(name) == "on"`. */
  function Flag(form: Form, name: string): (b: bool)
    ensures b <==> Get(form, name) == Some("on")
  {
    Get(form, name) == Some("on")
  }

  /**
   * `int(value or default)`: the default for a missing or empty value, the
   * parsed number otherwise, None where `int()` raises.
   */
  function IntOr(v: Option<string>, default: int): (r: Option<int>)
    ensures (v.None? || v.value == "") ==> r == Some(default)
    ensures v.Some? && v.value != "" ==> r == ParseInt(v.value)
  {
    if v.Some? && v.value != "" then ParseInt(v.value) else Some(default)
  }

  /** `int(form.get(name, default))`: the default when the field is missing; None where `int()` raises. */
  function IntGet(v: Option<string>, default: int): (r: Option<int>)
    ensures v.None? ==> r == Some(default)
    ensures v.Some? ==> r == ParseInt(v.value)
  {
    match v
    case None => Some(default)
    case Some(t) => ParseInt(t)
  }

  /** `value or None` for a text column. */
  function OrNone(v: Option<string>): (r: Option<string>)
    ensures r.Some? <==> v.Some? && v.value != ""
    ensures r.Some? ==> r == v
  {
    if v.Some? && v.value != "" then v else None
  }

  /** `value or ''` for a text column. */
  function OrEmpty(v: Option<string>): (r: string)
    ensures v.Some? ==> r == v.value
    ensures v.None? ==> r == ""
  {
    if v.Some? then v.value else ""
  }

  // ---------------------------------------------------------------------
  // Outcomes shared by the editors

  /** What `save_instance` ends in. */
  datatype SaveResult =
    | MissingModuleId(flash: Flash)            // redirect to the module list; nothing written
    | Crashed                                  // the request fails with a server error
    | Saved(instanceId: nat, flash: Flash)     // redirect back to the editor of this instance

  const MissingModuleFlash: Flash := Flash("danger", "Ошибка: module_id не передан!")
  const NotFoundFlash: Flash := Flash("danger", "Ошибка: Экземпляр модуля не найден!")

  /** An image id field: the integer when the text is non-blank and parses, None otherwise. */
  function ImageId(rec: Form, field: string): (r: Option<int>)
    ensures r.Some? <==> Get(rec, field).Some? && ParseInt(Get(rec, field).value).Some?
    ensures r.Some? ==> r == ParseInt(Get(rec, field).value)
  {
    match Get(rec, field)
    case Some(v) => if v != "" && Strip(v) != "" then ParseInt(v) else None
    case None => None
  }

  // ---------------------------------------------------------------------
  // A loop over records that fails as soon as one record does

  /** The values of a run of steps in order, or None when some step fails. */
  function AllSome<T>(xs: seq<Option<T>>): Option<seq<T>>
  {
    if xs == [] then Some([])
    else
      match AllSome(xs[..|xs| - 1])
      case None => None
      case Some(vs) => if xs[|xs| - 1].None? then None else Some(vs + [xs[|xs| - 1].value])
  }

  /** One more step of a run that has not failed: it fails the whole run, or adds its value. */
  lemma {:induction false} AllSomeStep<T>(xs: seq<Option<T>>, j: nat)
    requires j < |xs| && AllSome(xs[..j]).Some?
    ensures xs[j].None? ==> AllSome(xs).None?
    ensures xs[j].Some? ==> AllSome(xs[..j + 1]) == Some(AllSome(xs[..j]).value + [xs[j].value])
  {
    assert xs[..j + 1][..j] == xs[..j];
    if xs[j].None? {
      AllSomeSpec(xs);
    }
  }

  /** The run fails iff some step fails; otherwise it holds every step's value in order. */
  lemma {:induction false} AllSomeSpec<T>(xs: seq<Option<T>>)
    ensures AllSome(xs).None? <==> exists j :: 0 <= j < |xs| && xs[j].None?
    ensures AllSome(xs).Some? ==>
      |AllSome(xs).value| == |xs| && forall j :: 0 <= j < |xs| ==> Some(AllSome(xs).value[j]) == xs[j]
  {
    if xs != [] {
      var init := xs[..|xs| - 1];
      AllSomeSpec(init);
      if exists j :: 0 <= j < |init| && init[j].None? {
        var j :| 0 <= j < |init| && init[j].None?;
        assert xs[j] == init[j];
      }
      if exists j :: 0 <= j < |xs| && xs[j].None? {
        var j :| 0 <= j < |xs| && xs[j].None?;
        if j < |init| {
          assert init[j] == xs[j];
        }
      }
      if AllSome(xs).Some? {
        var vs := AllSome(init).value;
        forall j | 0 <= j < |xs|
          ensures Some(AllSome(xs).value[j]) == xs[j]
        {
          if j < |init| {
            assert init[j] == xs[j];
            assert AllSome(xs).value[j] == vs[j];
          }
        }
      }
    }
  }
}
