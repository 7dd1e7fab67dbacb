// Grouping a sequence of keyed entries into a dictionary of lists, as
// `defaultdict(list)` / `dict.setdefault(key, []).append(value)` loops do in
// the admin views.

module Grouping {

  /** The values filed under `k`, in entry order. */
  function Group<V>(entries: seq<(nat, V)>, k: nat): seq<V>
  {
    if entries == [] then []
    else Group(entries[..|entries| - 1], k) + (if entries[|entries| - 1].0 == k then [entries[|entries| - 1].1] else [])
  }

  predicate HasKey<V>(entries: seq<(nat, V)>, k: nat)
  {
    exists i :: 0 <= i < |entries| && entries[i].0 == k
  }

  /** The list a dictionary holds for `k`, empty when the key is absent. */
  function ListAt<V>(groups: map<nat, seq<V>>, k: nat): seq<V>
  {
    if k in groups then groups[k] else []
  }

  lemma {:induction false} HasKeySnoc<V>(entries: seq<(nat, V)>, k: nat)
    requires entries != []
    ensures HasKey(entries, k) <==> HasKey(entries[..|entries| - 1], k) || entries[|entries| - 1].0 == k
  {
    var init := entries[..|entries| - 1];
    if HasKey(entries, k) && entries[|entries| - 1].0 != k {
      var i :| 0 <= i < |entries| && entries[i].0 == k;
      assert init[i].0 == k;
    }
    if HasKey(init, k) {
      var i :| 0 <= i < |init| && init[i].0 == k;
      assert entries[i].0 == k;
    }
  }

  /**
   * The `setdefault(key, []).append(value)` loop: every key that occurs gets
   * the list of its values, in entry order, and no other key is present.
   */
  method GroupBy<V>(entries: seq<(nat, V)>) returns (groups: map<nat, seq<V>>)
    ensures forall k :: k in groups <==> HasKey(entries, k)
    ensures forall k :: ListAt(groups, k) == Group(entries, k)
  {
    groups := map[];
    var i := 0;
    while i < |entries|
      invariant 0 <= i <= |entries|
      invariant forall k :: k in groups <==> HasKey(entries[..i], k)
      invariant forall k :: ListAt(groups, k) == Group(entries[..i], k)
    {
      groups := FileEntry(entries, i, groups);
      i := i + 1;
    }
    assert entries[..i] == entries;
  }

  /** One pass of the loop above: entry `i` is appended to its key's list. */
  method FileEntry<V>(entries: seq<(nat, V)>, i: nat, groups: map<nat, seq<V>>) returns (next: map<nat, seq<V>>)
    requires i < |entries|
    requires forall k :: k in groups <==> HasKey(entries[..i], k)
    requires forall k :: ListAt(groups, k) == Group(entries[..i], k)
    ensures forall k :: k in next <==> HasKey(entries[..i + 1], k)
    ensures forall k :: ListAt(next, k) == Group(entries[..i + 1], k)
  {
    var (key, value) := entries[i];
    var pre := entries[..i + 1];
    assert pre[..i] == entries[..i] && pre[i] == (key, value);
    next := groups[key := ListAt(groups, key) + [value]];
    forall k
      ensures k in next <==> HasKey(pre, k)
      ensures ListAt(next, k) == Group(pre, k)
    {
      HasKeySnoc(pre, k);
      GroupSnoc(pre, k);
      assert ListAt(next, k) == ListAt(groups, k) + (if key == k then [value] else []);
    }
  }

  lemma {:induction false} GroupSnoc<V>(entries: seq<(nat, V)>, k: nat)
    requires entries != []
    ensures Group(entries, k) == Group(entries[..|entries| - 1], k)
      + (if entries[|entries| - 1].0 == k then [entries[|entries| - 1].1] else [])
  {
  }

  /** A value is filed under `k` exactly when the entry `(k, value)` occurs. */
  lemma {:induction false} GroupMembers<V>(entries: seq<(nat, V)>, k: nat, v: V)
    ensures v in Group(entries, k) <==> (k, v) in entries
  {
    if entries != [] {
      var init := entries[..|entries| - 1];
      GroupMembers(init, k, v);
      assert entries == init + [entries[|entries| - 1]];
    }
  }

  /** A group never holds more values than there are entries, and a key that never occurs holds none. */
  lemma {:induction false} GroupSizes<V>(entries: seq<(nat, V)>, k: nat)
    ensures |Group(entries, k)| <= |entries|
    ensures !HasKey(entries, k) ==> Group(entries, k) == []
  {
    if entries != [] {
      GroupSizes(entries[..|entries| - 1], k);
      HasKeySnoc(entries, k);
    }
  }
}
