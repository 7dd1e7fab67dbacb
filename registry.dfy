// The module handler registries (app/views/main.py, app/admin/module_views.py).
// Handler classes are found by scanning the module files; the scan itself
// (directory listing, imports, attribute lookup) is replaced by the list of
// classes each namespace exposes, with the capability flags the code tests.

module Registry {
  import opened Common
  import opened Json
  import opened Grouping
  import opened Layout

  /** A class found in a module file, with the methods `hasattr` looks for. */
  datatype HandlerClass = HandlerClass(name: string, hasFront: bool, hasSave: bool, hasLoad: bool, hasDel: bool)

  /**
   * One file of the front modules directory: the classes of the front module
   * and of the admin module of the same file name; None where the import fails.
   */
  datatype ModuleFile = ModuleFile(front: Option<seq<HandlerClass>>, admin: Option<seq<HandlerClass>>)

  function Classes(ns: Option<seq<HandlerClass>>): seq<HandlerClass>
  {
    if ns.Some? then ns.value else []
  }

  /** The classes in the order the front scan meets them: per file, the front module before the admin one. */
  function Scan(files: seq<ModuleFile>): seq<HandlerClass>
  {
    if files == [] then []
    else Scan(files[..|files| - 1]) + Classes(files[|files| - 1].front) + Classes(files[|files| - 1].admin)
  }

  /** The front table takes classes with `get_instance_data` or `save_instance`. */
  predicate FrontEligible(c: HandlerClass) { c.hasFront || c.hasSave }

  /**
   * One step of the front scan: a new name is added; an existing entry is
   * replaced only when it lacks `get_instance_data` and the new class has it.
   */
  function FrontInsert(table: map<string, HandlerClass>, c: HandlerClass): map<string, HandlerClass>
  {
    if !FrontEligible(c) then table
    else if c.name !in table then table[c.name := c]
    else if !table[c.name].hasFront && c.hasFront then table[c.name := c]
    else table
  }

  function FrontFold(table: map<string, HandlerClass>, s: seq<HandlerClass>): map<string, HandlerClass>
  {
    if s == [] then table else FrontInsert(FrontFold(table, s[..|s| - 1]), s[|s| - 1])
  }

  /** The first class of `s` named `n` that satisfies `front` (has `get_instance_data`) or just eligibility. */
  function FirstNamed(s: seq<HandlerClass>, n: string, front: bool): (r: Option<HandlerClass>)
    ensures r.Some? ==> r.value in s && r.value.name == n && FrontEligible(r.value) && (front ==> r.value.hasFront)
  {
    if s == [] then None
    else
      var prev := FirstNamed(s[..|s| - 1], n, front);
      var c := s[|s| - 1];
      if prev.Some? then prev
      else if c.name == n && FrontEligible(c) && (!front || c.hasFront) then Some(c)
      else None
  }

  /** What the front table should hold for `n`: the first class with `get_instance_data`, else the first eligible one. */
  function FrontChoice(s: seq<HandlerClass>, n: string): Option<HandlerClass>
  {
    if FirstNamed(s, n, true).Some? then FirstNamed(s, n, true) else FirstNamed(s, n, false)
  }

  lemma {:induction false} FirstEligibleFront(s: seq<HandlerClass>, n: string)
    ensures FirstNamed(s, n, true).Some? ==> FirstNamed(s, n, false).Some?
    ensures FirstNamed(s, n, false).Some? && FirstNamed(s, n, false).value.hasFront ==>
      FirstNamed(s, n, true) == FirstNamed(s, n, false)
  {
    if s != [] {
      FirstEligibleFront(s[..|s| - 1], n);
    }
  }

  /**
   * The front registry: a name is present iff some eligible class has it,
   * and it maps to the first class with `get_instance_data` when there is
   * one, else to the first eligible class.
   */
  lemma {:induction false} FrontFoldAt(s: seq<HandlerClass>, n: string)
    ensures n in FrontFold(map[], s) <==> FirstNamed(s, n, false).Some?
    ensures n in FrontFold(map[], s) ==> Some(FrontFold(map[], s)[n]) == FrontChoice(s, n)
  {
    if s != [] {
      var init := s[..|s| - 1];
      FrontFoldAt(init, n);
      FirstEligibleFront(init, n);
      FirstEligibleFront(s, n);
    }
  }

  /**
   * The front registry: a name is present iff some eligible class has it,
   * and it maps to the first class with `get_instance_data` when there is
   * one, else to the first eligible class.
   */
  lemma {:induction false} FrontFoldSpec(s: seq<HandlerClass>)
    ensures forall n :: (n in FrontFold(map[], s) <==> FirstNamed(s, n, false).Some?)
    ensures forall n :: n in FrontFold(map[], s) ==> Some(FrontFold(map[], s)[n]) == FrontChoice(s, n)
  {
    forall n
      ensures n in FrontFold(map[], s) <==> FirstNamed(s, n, false).Some?
      ensures n in FrontFold(map[], s) ==> Some(FrontFold(map[], s)[n]) == FrontChoice(s, n)
    {
      FrontFoldAt(s, n);
    }
  }

  /** Front classes win: when any eligible class named `n` has `get_instance_data`, the table's entry has it. */
  lemma FrontPriority(s: seq<HandlerClass>, k: nat)
    requires k < |s| && s[k].hasFront
    ensures s[k].name in FrontFold(map[], s) && FrontFold(map[], s)[s[k].name].hasFront
  {
    FrontFoldSpec(s);
    FirstNamedFinds(s, k, true);
  }

  lemma {:induction false} FirstNamedFinds(s: seq<HandlerClass>, k: nat, front: bool)
    requires k < |s| && FrontEligible(s[k]) && (front ==> s[k].hasFront)
    ensures FirstNamed(s, s[k].name, front).Some?
  {
    if k < |s| - 1 {
      FirstNamedFinds(s[..|s| - 1], k, front);
    }
  }

  lemma {:induction false} FrontFoldAppend(t: map<string, HandlerClass>, a: seq<HandlerClass>, b: seq<HandlerClass>)
    ensures FrontFold(t, a + b) == FrontFold(FrontFold(t, a), b)
    decreases |b|
  {
    if b == [] {
      assert a + b == a;
    } else {
      assert (a + b)[..|a + b| - 1] == a + b[..|b| - 1];
      FrontFoldAppend(t, a, b[..|b| - 1]);
    }
  }

  /** Register one namespace's classes into the front table. */
  method RegisterFront(table: map<string, HandlerClass>, classes: seq<HandlerClass>) returns (r: map<string, HandlerClass>)
    ensures r == FrontFold(table, classes)
  {
    r := table;
    var j := 0;
    while j < |classes|
      invariant 0 <= j <= |classes|
      invariant r == FrontFold(table, classes[..j])
    {
      assert classes[..j + 1][..j] == classes[..j];
      r := FrontInsert(r, classes[j]);
      j := j + 1;
    }
    assert classes[..j] == classes;
  }

  /** The loading loop of app/views/main.py: for each file, the front module, then the admin module. */
  method BuildFrontRegistry(files: seq<ModuleFile>) returns (table: map<string, HandlerClass>)
    ensures table == FrontFold(map[], Scan(files))
  {
    table := map[];
    var i := 0;
    while i < |files|
      invariant 0 <= i <= |files|
      invariant table == FrontFold(map[], Scan(files[..i]))
    {
      var f := files[i];
      assert files[..i + 1][..i] == files[..i];
      FrontFoldAppend(map[], Scan(files[..i]), Classes(f.front));
      FrontFoldAppend(map[], Scan(files[..i]) + Classes(f.front), Classes(f.admin));
      table := RegisterFront(table, Classes(f.front));
      table := RegisterFront(table, Classes(f.admin));
      i := i + 1;
    }
    assert files[..i] == files;
  }

  // ---------------------------------------------------------------------
  // The admin registry

  /** The classes the admin scan meets: every module of the admin modules directory, None where the import fails. */
  function AdminScan(files: seq<Option<seq<HandlerClass>>>): seq<HandlerClass>
  {
    if files == [] then [] else AdminScan(files[..|files| - 1]) + Classes(files[|files| - 1])
  }

  /** `_admin_module_classes[attr] = obj` for each class with `save_instance`: the later one wins. */
  function AdminFold(table: map<string, HandlerClass>, s: seq<HandlerClass>): map<string, HandlerClass>
  {
    if s == [] then table
    else
      var t := AdminFold(table, s[..|s| - 1]);
      var c := s[|s| - 1];
      if c.hasSave then t[c.name := c] else t
  }

  /** The last class of `s` named `n` with `save_instance`. */
  function LastSaver(s: seq<HandlerClass>, n: string): (r: Option<HandlerClass>)
    ensures r.Some? ==> r.value in s && r.value.name == n && r.value.hasSave
  {
    if s == [] then None
    else if s[|s| - 1].name == n && s[|s| - 1].hasSave then Some(s[|s| - 1])
    else LastSaver(s[..|s| - 1], n)
  }

  /** The admin registry maps each name to its last class with `save_instance`, and holds no other name. */
  lemma {:induction false} AdminFoldSpec(s: seq<HandlerClass>)
    ensures forall n :: (n in AdminFold(map[], s) <==> LastSaver(s, n).Some?)
    ensures forall n :: n in AdminFold(map[], s) ==> Some(AdminFold(map[], s)[n]) == LastSaver(s, n)
  {
    if s != [] {
      AdminFoldSpec(s[..|s| - 1]);
    }
  }

  lemma {:induction false} AdminFoldAppend(t: map<string, HandlerClass>, a: seq<HandlerClass>, b: seq<HandlerClass>)
    ensures AdminFold(t, a + b) == AdminFold(AdminFold(t, a), b)
    decreases |b|
  {
    if b == [] {
      assert a + b == a;
    } else {
      assert (a + b)[..|a + b| - 1] == a + b[..|b| - 1];
      AdminFoldAppend(t, a, b[..|b| - 1]);
    }
  }

  /** `_load_admin_module_classes()` and its module-global cache. */
  class AdminRegistry {
    var cache: Option<map<string, HandlerClass>>

    constructor ()
      ensures cache.None?
    {
      cache := None;
    }

    /** The first call scans and caches; every later call returns the cached table unchanged. */
    method Load(files: seq<Option<seq<HandlerClass>>>) returns (table: map<string, HandlerClass>)
      modifies this
      ensures old(cache).Some? ==> table == old(cache).value && cache == old(cache)
      ensures old(cache).None? ==> table == AdminFold(map[], AdminScan(files)) && cache == Some(table)
    {
      if cache.Some? {
        return cache.value;
      }
      table := map[];
      var i := 0;
      while i < |files|
        invariant 0 <= i <= |files|
        invariant table == AdminFold(map[], AdminScan(files[..i]))
      {
        var classes := Classes(files[i]);
        assert files[..i + 1][..i] == files[..i];
        AdminFoldAppend(map[], AdminScan(files[..i]), classes);
        var j := 0;
        var t := table;
        while j < |classes|
          invariant 0 <= j <= |classes|
          invariant t == AdminFold(table, classes[..j])
        {
          assert classes[..j + 1][..j] == classes[..j];
          if classes[j].hasSave {
            t := t[classes[j].name := classes[j]];
          }
          j := j + 1;
        }
        assert classes[..j] == classes;
        table := t;
        i := i + 1;
      }
      assert files[..i] == files;
      cache := Some(table);
    }
  }

  // ---------------------------------------------------------------------
  // Admin dispatch

  datatype Module = Module(id: nat, name: string, creationTemplate: string)

  function FindModule(modules: seq<Module>, id: nat): (r: Option<Module>)
    ensures r.Some? ==> r.value in modules && r.value.id == id
    ensures r.None? ==> forall m :: m in modules ==> m.id != id
  {
    if modules == [] then None else if modules[0].id == id then Some(modules[0]) else FindModule(modules[1..], id)
  }

  /** The handler a module's name selects, if the table has one. */
  function HandlerFor(table: map<string, HandlerClass>, name: string): Option<HandlerClass>
  {
    if name in table then Some(table[name]) else None
  }

  const NoHandlerFlash: Flash := Flash("danger", "Обработчик модуля не найден.")

  datatype EditResult =
    | ModuleNotFound
    | DelegatedSave(handler: HandlerClass)   // the handler's `save_instance` answers the POST
    | NoHandler(flash: Flash)                // redirect to the module list
    | RenderForm(template: string, context: map<string, Json>)

  /**
   * `create_or_edit_module_instance`. A POST goes to the handler's
   * `save_instance`, or gets an error message. A GET renders
   * `admin/modules/<creation_template or 'all_modules.html'>` with the
   * handler's `load_instance_data` (here `loaded`), over which `module`
   * (the module, by id) and `instance_id` are always written.
   */
  /**
   * The form context: the handler's data when it is used, with `module`
   * (the module, by id) and `instance_id` always written over it.
   */
  function FormContext(loaded: map<string, Json>, useLoaded: bool, moduleId: nat, instanceId: Option<nat>): (c: map<string, Json>)
    ensures "module" in c && c["module"] == JInt(moduleId)
    ensures "instance_id" in c && c["instance_id"] == (if instanceId.Some? then JInt(instanceId.value) else JNull)
    ensures forall k :: k != "module" && k != "instance_id" ==>
      (k in c <==> useLoaded && k in loaded) && (k in c ==> c[k] == loaded[k])
  {
    var base: map<string, Json> := if useLoaded then loaded else map[];
    base["module" := JInt(moduleId)]["instance_id" := if instanceId.Some? then JInt(instanceId.value) else JNull]
  }

  /**
   * `create_or_edit_module_instance`. A POST goes to the handler's
   * `save_instance`, or gets an error message. A GET renders
   * `admin/modules/<creation_template or 'all_modules.html'>` with the
   * handler's `load_instance_data` (here `loaded`) when it has one.
   */
  function EditModuleInstance(modules: seq<Module>, table: map<string, HandlerClass>, moduleId: nat,
                              instanceId: Option<nat>, isPost: bool, loaded: map<string, Json>): (r: EditResult)
    ensures FindModule(modules, moduleId).None? <==> r == ModuleNotFound
    ensures r != ModuleNotFound ==>
      var m := FindModule(modules, moduleId).value;
      var h := HandlerFor(table, m.name);
      if isPost then
        (if h.Some? && h.value.hasSave then r == DelegatedSave(h.value) else r == NoHandler(NoHandlerFlash))
      else
        r.RenderForm?
        && r.context == FormContext(loaded, h.Some? && h.value.hasLoad, moduleId, instanceId)
        && r.template == "admin/modules/" + (if m.creationTemplate != "" then m.creationTemplate else "all_modules.html")
  {
    match FindModule(modules, moduleId)
    case None => ModuleNotFound
    case Some(m) =>
      var h := HandlerFor(table, m.name);
      if isPost then
        if h.Some? && h.value.hasSave then DelegatedSave(h.value) else NoHandler(NoHandlerFlash)
      else
        var name := if m.creationTemplate != "" then m.creationTemplate else "all_modules.html";
        RenderForm("admin/modules/" + name, FormContext(loaded, h.Some? && h.value.hasLoad, m.id, instanceId))
  }

  const HandlerDeleteErrorFlash: Flash := Flash("danger", "Ошибка удаления через обработчик: ")
  const InstanceDeletedFlash: Flash := Flash("success", "Экземпляр модуля удалён.")
  const DeleteErrorFlash: Flash := Flash("danger", "Ошибка удаления: ")

  datatype DeleteResult =
    | DeleteNotFound(flashes: seq<Flash>)          // a 404, after any queued messages
    | DelegatedDelete(handler: HandlerClass)       // the handler's `del_instance` answered
    | GenericDelete(flashes: seq<Flash>)           // the fallback ran; redirect to the module list
    | ServerError(flashes: seq<Flash>)             // the fallback's lookup raised; the request fails

  /**
   * How a handler's `del_instance` ends: it returns; it raises before the
   * session flushes (a Python error, or a statement the database refuses as
   * it runs, as a bulk delete refused by a foreign key is); or it raises from
   * a flush or a commit, after which the session answers every query with an
   * error until it is rolled back.
   */
  datatype HandlerRun = Returned | RaisedBeforeFlush | FlushFailed

  /**
   * The module instances table and the rows that point at it, as the generic
   * delete changes them. The layout cells of pages and posts (`LayoutCells`)
   * hold a nullable `module_instance_id` behind the `page_cells`/`post_cells`
   * backrefs (app/models/page.py:41,48; app/models/post.py:58,65). Every editor row
   * (menu, banner, slider, gallery, tabs: the models under app/models/modules) holds a
   * NOT NULL one behind a one-to-one backref; `editorOwners` lists the
   * instance id of each such row.
   */
  class InstanceTable {
    var instances: seq<Instance>
    const cells: LayoutCells
    var editorOwners: seq<nat>

    constructor (instances: seq<Instance>, cells: LayoutCells, editorOwners: seq<nat>)
      ensures this.instances == instances && this.cells == cells && this.editorOwners == editorOwners
    {
      this.instances := instances;
      this.cells := cells;
      this.editorOwners := editorOwners;
    }

    /**
     * `delete_module_instance`: a handler with `del_instance` deletes. When
     * it returns, either it found no instance and changed nothing, or it
     * deleted its own editor rows and the instance and committed, which
     * detaches the layout cells as the generic delete does (a remaining
     * editor row of another kind would have failed that commit). When it
     * raises, a danger message is queued. After a failed flush the
     * lookup of the instance (outside any `try`) raises too, so the request
     * fails and the session is rolled back; after any other raise the
     * generic delete of the `ModuleInstance` runs, as it does when there is
     * no such handler. Deleting the instance through the session first sets
     * the foreign key of every dependent row to NULL: the layout cells
     * accept it and no longer show a module, an editor row refuses it, so
     * the commit fails and is rolled back.
     */
    method DeleteModuleInstance(modules: seq<Module>, table: map<string, HandlerClass>, moduleId: nat,
                                instanceId: nat, run: HandlerRun) returns (res: DeleteResult)
      modifies this, cells
      ensures FindModule(modules, moduleId).None? ==>
        res == DeleteNotFound([]) && Unchanged() && editorOwners == old(editorOwners)
      ensures FindModule(modules, moduleId).Some? ==>
        var h := HandlerFor(table, FindModule(modules, moduleId).value.name);
        var delegated := h.Some? && h.value.hasDel;
        var queued := if delegated then [HandlerDeleteErrorFlash] else [];
        if delegated && run.Returned? then
          res == DelegatedDelete(h.value)
          && (if !HasInstance(old(instances), instanceId) then Unchanged() && editorOwners == old(editorOwners)
              else
                instances == DropInstance(old(instances), instanceId) && cells.Detached(instanceId)
                && editorOwners == Release(old(editorOwners), instanceId))
        else if delegated && run.FlushFailed? then
          res == ServerError(queued) && Unchanged() && editorOwners == old(editorOwners)
        else if !HasInstance(old(instances), instanceId) then
          res == DeleteNotFound(queued) && Unchanged() && editorOwners == old(editorOwners)
        else if instanceId in old(editorOwners) then
          res == GenericDelete(queued + [DeleteErrorFlash]) && Unchanged() && editorOwners == old(editorOwners)
        else
          res == GenericDelete(queued + [InstanceDeletedFlash])
          && instances == DropInstance(old(instances), instanceId) && cells.Detached(instanceId)
          && editorOwners == old(editorOwners)
    {
      var m := FindModule(modules, moduleId);
      if m.None? {
        return DeleteNotFound([]);
      }
      var h := HandlerFor(table, m.value.name);
      var flashes: seq<Flash> := [];
      if h.Some? && h.value.hasDel {
        if run.Returned? {
          if HasInstance(instances, instanceId) {
            // the handler deleted its own rows and the instance, and committed
            instances := DropInstance(instances, instanceId);
            cells.DetachInstance(instanceId);
            editorOwners := Release(editorOwners, instanceId);
          }
          return DelegatedDelete(h.value);
        }
        flashes := flashes + [HandlerDeleteErrorFlash];
        if run.FlushFailed? {
          return ServerError(flashes);
        }
      }
      if !HasInstance(instances, instanceId) {
        return DeleteNotFound(flashes);
      }
      if instanceId in editorOwners {
        res := GenericDelete(flashes + [DeleteErrorFlash]);
      } else {
        instances := DropInstance(instances, instanceId);
        cells.DetachInstance(instanceId);
        res := GenericDelete(flashes + [InstanceDeletedFlash]);
      }
    }

    /** Nothing in the table or the cells has changed. */
    twostate predicate Unchanged()
      reads this, cells
    {
      instances == old(instances) && cells.Unchanged()
    }
  }

  /**
   * The layout cells of pages and posts, as every editor's `del_instance`
   * sees them through the session: deleting a `ModuleInstance` sets the
   * nullable `module_instance_id` of each cell that showed it to NULL
   * (app/models/page.py:48, app/models/post.py:65).
   */
  class LayoutCells {
    var pageCells: seq<Cell>
    var postCells: seq<Cell>

    constructor (pageCells: seq<Cell>, postCells: seq<Cell>)
      ensures this.pageCells == pageCells && this.postCells == postCells
    {
      this.pageCells := pageCells;
      this.postCells := postCells;
    }

    /** The cells as the ORM leaves them once the instance `id` is deleted. */
    method DetachInstance(id: nat)
      modifies this
      ensures Detached(id)
    {
      pageCells := Detach(pageCells, id);
      postCells := Detach(postCells, id);
    }

    /** Every cell that showed the instance `id` now shows no module; nothing else changed. */
    twostate predicate Detached(id: nat)
      reads this
    {
      pageCells == Detach(old(pageCells), id) && postCells == Detach(old(postCells), id)
    }

    /** No cell has changed. */
    twostate predicate Unchanged()
      reads this
    {
      pageCells == old(pageCells) && postCells == old(postCells)
    }
  }

  /** A cell whose module is the instance `id`. */
  predicate Shows(c: Cell, id: nat)
  {
    c.spec.instance == Some(id)
  }

  /** The cells once the instance `id` is gone: each cell that showed it shows no module. */
  function Detach(cells: seq<Cell>, id: nat): (r: seq<Cell>)
    ensures |r| == |cells|
    ensures forall k :: 0 <= k < |r| ==> !Shows(r[k], id)
    ensures forall k :: 0 <= k < |r| ==>
      r[k].owner == cells[k].owner
      && r[k].spec.row == cells[k].spec.row && r[k].spec.col == cells[k].spec.col
      && r[k].spec.width == cells[k].spec.width
      && (!Shows(cells[k], id) ==> r[k] == cells[k])
      && (Shows(cells[k], id) ==> r[k].spec.instance.None?)
  {
    if cells == [] then []
    else
      var c := cells[0];
      var d := if Shows(c, id) then Cell(c.owner, c.spec.(instance := None)) else c;
      [d] + Detach(cells[1..], id)
  }

  /** The editor rows left once those of the instance `id` are deleted. */
  function Release(owners: seq<nat>, id: nat): (r: seq<nat>)
    ensures forall o :: o in r <==> o in owners && o != id
  {
    if owners == [] then []
    else (if owners[0] == id then [] else [owners[0]]) + Release(owners[1..], id)
  }

  predicate HasInstance(instances: seq<Instance>, id: nat)
  {
    exists i :: i in instances && i.id == id
  }

  function DropInstance(instances: seq<Instance>, id: nat): (r: seq<Instance>)
    ensures forall i :: i in r <==> i in instances && i.id != id
  {
    if instances == [] then []
    else (if instances[0].id == id then [] else [instances[0]]) + DropInstance(instances[1..], id)
  }

  /** `modules_list`: each instance keyed by its module. */
  function ByModule(instances: seq<Instance>): (r: seq<(nat, Instance)>)
    ensures |r| == |instances|
    ensures forall k :: 0 <= k < |r| ==> r[k] == (instances[k].moduleId, instances[k])
  {
    seq(|instances|, k requires 0 <= k < |instances| => (instances[k].moduleId, instances[k]))
  }

  /** `instances_by_module`: the groups of `modules_list`. */
  method ModulesList(instances: seq<Instance>) returns (groups: map<nat, seq<Instance>>)
    ensures forall m :: m in groups <==> HasKey(ByModule(instances), m)
    ensures forall m :: ListAt(groups, m) == Group(ByModule(instances), m)
  {
    groups := GroupBy(ByModule(instances));
  }

  /** Every instance is listed under its own module's key, and under no other. */
  lemma {:induction false} InstanceUnderOneKey(instances: seq<Instance>, inst: Instance, m: nat)
    ensures inst in Group(ByModule(instances), m) <==> inst in instances && inst.moduleId == m
  {
    var e := ByModule(instances);
    GroupMembers(e, m, inst);
    if (m, inst) in e {
      var k :| 0 <= k < |e| && e[k] == (m, inst);
      assert instances[k] == inst;
    }
    if inst in instances && inst.moduleId == m {
      var k :| 0 <= k < |instances| && instances[k] == inst;
      assert e[k] == (m, inst);
    }
  }
}
