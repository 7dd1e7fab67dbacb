// JSON values as the CMS stores them in text columns (module settings,
// layout structures, cart options), and the decoding fallbacks used by the
// template filter `from_json`.

module Json {
  import opened Common

  datatype Json =
    | JNull
    | JBool(b: bool)
    | JInt(i: int)
    | JStr(s: string)
    | JArr(items: seq<Json>)
    | JObj(fields: seq<(string, Json)>)

  const EmptyObject: Json := JObj([])

  /** A text column or form value as JSON: the text, or null for None. */
  function OptText(v: Option<string>): (r: Json)
    ensures v.None? <==> r == JNull
    ensures v.Some? ==> r == JStr(v.value)
  {
    if v.Some? then JStr(v.value) else JNull
  }

  /** Python truthiness of a decoded value. */
  predicate Truthy(v: Json)
  {
    match v
    case JNull => false
    case JBool(b) => b
    case JInt(i) => i != 0
    case JStr(s) => s != ""
    case JArr(items) => items != []
    case JObj(fields) => fields != []
  }

  /** `d.get(key)` on a decoded object: the value stored under `key`, if any. */
  function Lookup(fields: seq<(string, Json)>, key: string): (r: Option<Json>)
    ensures r.Some? <==> exists i :: 0 <= i < |fields| && fields[i].0 == key
    ensures r.Some? ==> (key, r.value) in fields
  {
    if fields == [] then None
    else if fields[0].0 == key then Some(fields[0].1)
    else Lookup(fields[1..], key)
  }

  /** The first field named `key` is the one `get` returns. */
  lemma {:induction false} LookupFirst(fields: seq<(string, Json)>, k: nat, key: string)
    requires k < |fields| && fields[k].0 == key
    requires forall j :: 0 <= j < k ==> fields[j].0 != key
    ensures Lookup(fields, key) == Some(fields[k].1)
  {
    if k > 0 {
      LookupFirst(fields[1..], k - 1, key);
    }
  }

  /** In the settings dict of the slider editors, each of the six keys finds its own value. */
  lemma {:induction false} CarouselSettingsLookups(name: Json, status: Json, arrows: Json, indicators: Json, scroll: Json, interval: Json)
    ensures var fields := [("name", name), ("status", status), ("show_arrows", arrows),
                           ("show_indicators", indicators), ("auto_scroll", scroll), ("scroll_interval", interval)];
      Lookup(fields, "name") == Some(name) && Lookup(fields, "status") == Some(status)
      && Lookup(fields, "show_arrows") == Some(arrows) && Lookup(fields, "show_indicators") == Some(indicators)
      && Lookup(fields, "auto_scroll") == Some(scroll) && Lookup(fields, "scroll_interval") == Some(interval)
  {
    var fields := [("name", name), ("status", status), ("show_arrows", arrows),
                   ("show_indicators", indicators), ("auto_scroll", scroll), ("scroll_interval", interval)];
    assert forall j, k :: 0 <= j < k < 6 ==>
      |fields[j].0| != |fields[k].0| || fields[j].0[1] != fields[k].0[1];
    LookupFirst(fields, 0, "name");
    LookupFirst(fields, 1, "status");
    LookupFirst(fields, 2, "show_arrows");
    LookupFirst(fields, 3, "show_indicators");
    LookupFirst(fields, 4, "auto_scroll");
    LookupFirst(fields, 5, "scroll_interval");
  }

  /** `value.get(key)` where `value` may not be an object (then the call fails). */
  function Member(v: Json, key: string): Option<Json>
    requires v.JObj?
  {
    Lookup(v.fields, key)
  }

  /**
   * The content of a text column that holds JSON. The character syntax is
   * not modelled: a non-empty text is either the encoding of some value or
   * text the decoder rejects.
   */
  datatype Stored =
    | NullText             // SQL NULL / Python None
    | EmptyText            // ""
    | JsonText(value: Json) // a text `json.loads` decodes to `value`
    | BadText              // a text `json.loads` rejects

  /** Python truthiness of the column value. */
  predicate StoredTruthy(t: Stored) { t.JsonText? || t.BadText? }

  /** `json.loads(text)`: the decoded value, or None where it raises. */
  function Loads(t: Stored): (r: Option<Json>)
    ensures r.Some? <==> t.JsonText?
  {
    if t.JsonText? then Some(t.value) else None
  }

  /** `json.dumps(value)`: a non-empty text that decodes back to `value`. */
  function Dumps(v: Json): (t: Stored)
    ensures StoredTruthy(t) && Loads(t) == Some(v)
  {
    JsonText(v)
  }

  /**
   * The Jinja filter `from_json` (app/__init__.py): an empty value gives `{}`,
   * a decodable text its value, and a text the decoder rejects `{}` again.
   */
  function FromJsonFilter(t: Stored): (r: Json)
    ensures !StoredTruthy(t) ==> r == EmptyObject
    ensures t.BadText? ==> r == EmptyObject
    ensures t.JsonText? ==> r == t.value
  {
    if !StoredTruthy(t) then EmptyObject
    else match Loads(t)
      case Some(v) => v
      case None => EmptyObject
  }

  /** `from_json` never fails and inverts `json.dumps`. */
  lemma {:induction false} FromJsonInvertsDumps(v: Json)
    ensures FromJsonFilter(Dumps(v)) == v
  {
  }

  /**
   * Settings of a module instance as read by the storefront modules:
   * `json.loads(settings) if settings else {}`. A text the decoder rejects
   * makes the call fail, which is the `None` result here.
   */
  function LoadSettings(t: Stored): (r: Option<Json>)
    ensures !StoredTruthy(t) ==> r == Some(EmptyObject)
    ensures t.JsonText? ==> r == Some(t.value)
    ensures t.BadText? ==> r.None?
  {
    if StoredTruthy(t) then Loads(t) else Some(EmptyObject)
  }
}
