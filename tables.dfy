// The rows the content-module editors keep (banner, gallery and tabs rows
// with their items): each row has an id and the id of the row that owns it
// (`module_instance_id`, `banner_id`, `gallery_id`, `tabs_id`). Tables are
// sequences in id order; new rows take ids above the largest handed out.
// Also the step every editor starts with: find the module instance or create
// it, writing its settings.

module Tables {
  import opened Common
  import opened Json
  import opened Layout
  import opened Registry
  import opened ModuleForms

  /** A row of a per-type table: its id, its owner's id and its own columns. */
  datatype Row<T> = Row(id: nat, owner: nat, data: T)

  /** `filter_by(<owner>=owner).first()`. */
  function FirstOwned<T>(rows: seq<Row<T>>, owner: nat): (r: Option<Row<T>>)
    ensures r.Some? ==> r.value in rows && r.value.owner == owner
    ensures r.None? <==> forall x :: x in rows ==> x.owner != owner
  {
    if rows == [] then None
    else if rows[0].owner == owner then Some(rows[0])
    else FirstOwned(rows[1..], owner)
  }

  /** `filter_by(<owner>=owner).all()`, in table order. */
  function Owned<T(==,!new)>(rows: seq<Row<T>>, owner: nat): (r: seq<Row<T>>)
    ensures forall x :: x in r <==> x in rows && x.owner == owner
  {
    if rows == [] then []
    else (if rows[0].owner == owner then [rows[0]] else []) + Owned(rows[1..], owner)
  }

  /** The table after deleting every row of `owner` (a bulk or a per-row delete alike). */
  function Disown<T(==,!new)>(rows: seq<Row<T>>, owner: nat): (r: seq<Row<T>>)
    ensures forall x :: x in r <==> x in rows && x.owner != owner
  {
    if rows == [] then []
    else (if rows[0].owner == owner then [] else [rows[0]]) + Disown(rows[1..], owner)
  }

  /** The table after deleting the row with id `id`. */
  function DropRow<T(==,!new)>(rows: seq<Row<T>>, id: nat): (r: seq<Row<T>>)
    ensures forall x :: x in r <==> x in rows && x.id != id
  {
    if rows == [] then []
    else (if rows[0].id == id then [] else [rows[0]]) + DropRow(rows[1..], id)
  }

  /** The table after the row with `row.id` takes the new columns of `row`. */
  function SetRow<T>(rows: seq<Row<T>>, row: Row<T>): (r: seq<Row<T>>)
    ensures |r| == |rows|
    ensures forall k :: 0 <= k < |r| ==> r[k] == if rows[k].id == row.id then row else rows[k]
  {
    if rows == [] then []
    else [if rows[0].id == row.id then row else rows[0]] + SetRow(rows[1..], row)
  }

  /** The rows an insert loop adds for `owner`, one per entry, numbered from `last + 1`. */
  function NewRows<T>(owner: nat, last: nat, data: seq<T>): (r: seq<Row<T>>)
    ensures |r| == |data|
  {
    seq(|data|, j requires 0 <= j < |data| => Row(last + 1 + j, owner, data[j]))
  }

  lemma {:induction false} NewRowsAt<T>(owner: nat, last: nat, data: seq<T>, j: nat)
    requires j < |data|
    ensures NewRows(owner, last, data)[j] == Row(last + 1 + j, owner, data[j])
  {
  }

  /** The new rows belong to `owner` and take the ids after `last`. */
  lemma {:induction false} NewRowsWithin<T>(owner: nat, last: nat, data: seq<T>)
    ensures forall r :: r in NewRows(owner, last, data) ==> r.owner == owner && last < r.id <= last + |data|
  {
    forall r | r in NewRows(owner, last, data)
      ensures r.owner == owner && last < r.id <= last + |data|
    {
      var k :| 0 <= k < |data| && NewRows(owner, last, data)[k] == r;
    }
  }

  lemma {:induction false} NewRowsSnoc<T>(owner: nat, last: nat, data: seq<T>, j: nat)
    requires j < |data|
    ensures NewRows(owner, last, data[..j + 1]) == NewRows(owner, last, data[..j]) + [Row(last + 1 + j, owner, data[j])]
  {
  }

  lemma {:induction false} NewRowsAppend<T>(owner: nat, last: nat, data: seq<T>, x: T)
    ensures NewRows(owner, last, data + [x]) == NewRows(owner, last, data) + [Row(last + 1 + |data|, owner, x)]
  {
    assert forall j :: 0 <= j < |data| ==> (data + [x])[j] == data[j];
  }

  /**
   * One pass of a loop that writes a row per result: a failed result fails
   * the whole run, a value is appended as the next numbered row.
   */
  lemma {:induction false} RowsStep<T>(xs: seq<Option<T>>, j: nat, owner: nat, last: nat, rows: seq<Row<T>>)
    requires j < |xs| && AllSome(xs[..j]).Some? && rows == NewRows(owner, last, AllSome(xs[..j]).value)
    ensures xs[j].None? ==> AllSome(xs).None?
    ensures xs[j].Some? ==>
      (AllSome(xs[..j + 1]).Some?
       && rows + [Row(last + 1 + |rows|, owner, xs[j].value)] == NewRows(owner, last, AllSome(xs[..j + 1]).value))
  {
    AllSomeStep(xs, j);
    if xs[j].Some? {
      var vs := AllSome(xs[..j]).value;
      assert AllSome(xs[..j + 1]).value == vs + [xs[j].value];
      NewRowsAppend(owner, last, vs, xs[j].value);
      assert |rows| == |vs|;
    }
  }

  /** Rows as the ids a template receives. */
  function RowIds<T>(rows: seq<Row<T>>): (r: seq<Json>)
    ensures |r| == |rows| && forall k :: 0 <= k < |rows| ==> r[k] == JInt(rows[k].id)
  {
    seq(|rows|, k requires 0 <= k < |rows| => JInt(rows[k].id))
  }

  function Ref<T>(row: Option<Row<T>>): (r: Json)
    ensures r == JNull <==> row.None?
  {
    if row.Some? then JInt(row.value.id) else JNull
  }

  /** The insert loop: one row per entry, numbered on from `last`. */
  method MakeRows<T>(owner: nat, last: nat, data: seq<T>) returns (rows: seq<Row<T>>)
    ensures rows == NewRows(owner, last, data)
  {
    rows := [];
    var j := 0;
    while j < |data|
      invariant 0 <= j <= |data|
      invariant rows == NewRows(owner, last, data[..j])
    {
      NewRowsSnoc(owner, last, data, j);
      rows := rows + [Row(last + 1 + j, owner, data[j])];
      j := j + 1;
    }
    assert data[..|data|] == data;
  }

  // ---------------------------------------------------------------------
  // Facts about the queries after an editor's changes

  /** The owner's first row, given new columns, is still its first row. */
  lemma {:induction false} FirstOwnedSet<T>(rows: seq<Row<T>>, owner: nat, row: Row<T>)
    requires FirstOwned(rows, owner).Some? && row.id == FirstOwned(rows, owner).value.id && row.owner == owner
    ensures FirstOwned(SetRow(rows, row), owner) == Some(row)
  {
    var u := SetRow(rows, row);
    if rows[0].owner != owner {
      assert u[1..] == SetRow(rows[1..], row);
      if rows[0].id != row.id {
        FirstOwnedSet(rows[1..], owner, row);
      }
    }
  }

  /** A row appended for an owner that had none is its first row. */
  lemma {:induction false} FirstOwnedAppend<T>(rows: seq<Row<T>>, owner: nat, row: Row<T>)
    requires FirstOwned(rows, owner).None? && row.owner == owner
    ensures FirstOwned(rows + [row], owner) == Some(row)
  {
    if rows != [] {
      assert (rows + [row])[1..] == rows[1..] + [row];
      FirstOwnedAppend(rows[1..], owner, row);
    }
  }

  /** Rows added for an owner that had none left are exactly the owner's rows afterwards. */
  lemma {:induction false} OwnedAppendNew<T(!new)>(rows: seq<Row<T>>, owner: nat, last: nat, data: seq<T>)
    requires forall x :: x in rows ==> x.owner != owner
    ensures Owned(rows + NewRows(owner, last, data), owner) == NewRows(owner, last, data)
    decreases |rows| + |data|
  {
    var added := NewRows(owner, last, data);
    if rows != [] {
      assert (rows + added)[1..] == rows[1..] + added;
      OwnedAppendNew(rows[1..], owner, last, data);
    } else if data != [] {
      assert rows + added == added;
      assert added[1..] == NewRows(owner, last + 1, data[1..]);
      OwnedAppendNew([], owner, last + 1, data[1..]);
      assert [] + NewRows(owner, last + 1, data[1..]) == NewRows(owner, last + 1, data[1..]);
    }
  }

  /** After deleting an owner's rows and adding new ones, the owner has exactly the new rows. */
  lemma {:induction false} ReplaceOwned<T(!new)>(rows: seq<Row<T>>, owner: nat, last: nat, data: seq<T>)
    ensures Owned(Disown(rows, owner) + NewRows(owner, last, data), owner) == NewRows(owner, last, data)
    ensures forall x :: x in rows && x.owner != owner ==> x in Disown(rows, owner) + NewRows(owner, last, data)
  {
    OwnedAppendNew(Disown(rows, owner), owner, last, data);
  }

  /**
   * `filter_by(<owner>=owner).first()`, or a new row when there is none: the
   * owner's first row takes the columns `data`, or a row numbered `last + 1`
   * is appended. Gives the table, the row's id and the largest id handed out.
   */
  function FirstOrCreate<T>(rows: seq<Row<T>>, owner: nat, last: nat, data: T): (seq<Row<T>>, nat, nat)
  {
    match FirstOwned(rows, owner)
    case Some(found) => (SetRow(rows, Row(found.id, owner, data)), found.id, last)
    case None => (rows + [Row(last + 1, owner, data)], last + 1, last + 1)
  }

  /**
   * After the first-or-create, the owner's first row is the one written: the
   * old first row kept its id, or a fresh id was handed out. Other rows stay.
   */
  lemma {:induction false} FirstOrCreateSpec<T(!new)>(rows: seq<Row<T>>, owner: nat, last: nat, data: T)
    requires forall x :: x in rows ==> x.id <= last
    ensures var (rows2, id, last2) := FirstOrCreate(rows, owner, last, data);
      FirstOwned(rows2, owner) == Some(Row(id, owner, data))
      && (FirstOwned(rows, owner).Some? ==> id == FirstOwned(rows, owner).value.id && last2 == last)
      && (FirstOwned(rows, owner).None? ==> id == last + 1 == last2)
      && (forall x :: x in rows2 ==> x.id <= last2)
      && (forall x :: x in rows2 ==> x in rows || x == Row(id, owner, data))
      && (forall x :: x in rows && x.id != id ==> x in rows2)
  {
    var (rows2, id, last2) := FirstOrCreate(rows, owner, last, data);
    match FirstOwned(rows, owner)
    case Some(found) =>
      FirstOwnedSet(rows, owner, Row(found.id, owner, data));
      assert found in rows;
      SetRowRows(rows, Row(found.id, owner, data), last);
    case None =>
      FirstOwnedAppend(rows, owner, Row(last + 1, owner, data));
  }

  /** Writing a row over the one with its id keeps every other row and adds no id above `last`. */
  lemma {:induction false} SetRowRows<T>(rows: seq<Row<T>>, row: Row<T>, last: nat)
    requires forall x :: x in rows ==> x.id <= last
    requires row.id <= last
    ensures forall x :: x in rows && x.id != row.id ==> x in SetRow(rows, row)
    ensures forall x :: x in SetRow(rows, row) ==> x.id <= last && (x in rows || x == row)
  {
    var r := SetRow(rows, row);
    forall x | x in rows && x.id != row.id
      ensures x in r
    {
      var k :| 0 <= k < |rows| && rows[k] == x;
      assert r[k] == x;
    }
    forall x | x in r
      ensures x.id <= last && (x in rows || x == row)
    {
      var k :| 0 <= k < |r| && r[k] == x;
      assert rows[k] in rows;
    }
  }

  // ---------------------------------------------------------------------
  // The module instance

  /**
   * The instance an editor writes to: the one `instance_id` names when it
   * exists (its settings replaced by `updated`), otherwise a new instance of
   * the module with the settings `created` and template "default". Gives the
   * instance table, the instance id and the largest id handed out; None
   * where a new instance names a module that does not exist (the foreign
   * key fails on flush).
   */
  function Upsert(instances: seq<Instance>, modules: seq<Module>, moduleId: nat, instanceId: nat, last: nat,
                  created: Json, updated: Json): Option<(seq<Instance>, nat, nat)>
  {
    if instanceId != 0 && FindInstance(instances, instanceId).Some? then
      Some((WithSettings(instances, instanceId, Dumps(updated)), instanceId, last))
    else if FindModule(modules, moduleId).None? then None
    else
      Some((instances + [Instance(last + 1, moduleId, FindModule(modules, moduleId).value.name, Dumps(created), "default", None)],
            last + 1, last + 1))
  }

  /**
   * The instance is found under the id the editor goes on with, holding the
   * settings written; a new instance gets a fresh id; every other instance
   * is kept.
   */
  lemma {:induction false} UpsertSpec(instances: seq<Instance>, modules: seq<Module>, moduleId: nat, instanceId: nat, last: nat,
                   created: Json, updated: Json)
    requires forall i :: i in instances ==> i.id <= last
    ensures var r := Upsert(instances, modules, moduleId, instanceId, last, created, updated);
      r.None? <==> (instanceId == 0 || FindInstance(instances, instanceId).None?) && FindModule(modules, moduleId).None?
    ensures var r := Upsert(instances, modules, moduleId, instanceId, last, created, updated);
      r.Some? ==>
        var (instances2, iid, last2) := r.value;
        var existing := instanceId != 0 && FindInstance(instances, instanceId).Some?;
        FindInstance(instances2, iid).Some?
        && FindInstance(instances2, iid).value.settings == Dumps(if existing then updated else created)
        && (existing ==> iid == instanceId && last2 == last)
        && (!existing ==> iid == last + 1 == last2 && FindInstance(instances2, iid).value.moduleId == moduleId)
        && (forall i :: i in instances2 ==> i.id <= last2)
        && (forall i :: i in instances && i.id != iid ==> i in instances2)
  {
    var r := Upsert(instances, modules, moduleId, instanceId, last, created, updated);
    if instanceId != 0 && FindInstance(instances, instanceId).Some? {
      FindInstanceWithSettings(instances, instanceId, Dumps(updated));
      var w := WithSettings(instances, instanceId, Dumps(updated));
      forall i | i in instances && i.id != instanceId
        ensures i in w
      {
        var k :| 0 <= k < |instances| && instances[k] == i;
        assert w[k] == i;
      }
      forall i | i in w
        ensures i.id <= last
      {
        var k :| 0 <= k < |w| && w[k] == i;
        assert instances[k] in instances;
      }
    } else if r.Some? {
      var added := Instance(last + 1, moduleId, FindModule(modules, moduleId).value.name, Dumps(created), "default", None);
      FindInstanceAppend(instances, added);
    }
  }
}
