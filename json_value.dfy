/**
 * The Python values that travel as JSON through the service: request bodies,
 * the dictionaries handed to the result store and the records read back.
 * Text encoding is not modelled; a value is what `json.loads` returns or what
 * `json.dumps` is given.
 */
module JsonValue {
  import opened Text
  import opened Maybe

  /**
   * `Obj` keeps the dictionary's insertion order; `Foreign` is any Python
   * object `json.dumps` cannot encode (a function, a set, ...), named by its
   * type.
   */
  datatype Data =
    | Null
    | Bool(b: bool)
    | Num(n: int)
    | Str(s: string)
    | Arr(items: seq<Data>)
    | Obj(fields: seq<Field>)
    | Foreign(typeName: string)

  datatype Field = Field(key: string, value: Data)

  /** Python truthiness: `None`, `False`, `0` and empty strings, lists and dicts are false. */
  predicate Truthy(d: Data) {
    match d
    case Null => false
    case Bool(b) => b
    case Num(n) => n != 0
    case Str(s) => s != ""
    case Arr(items) => items != []
    case Obj(fields) => fields != []
    case Foreign(_) => true
  }

  /** Whether the dictionary has `key`. */
  predicate HasKey(fields: seq<Field>, key: string) {
    exists i :: 0 <= i < |fields| && fields[i].key == key
  }

  /** `dict.get(key)`: the value of the last binding of `key`, as a dict built from these pairs keeps. */
  function Get(fields: seq<Field>, key: string): (r: Option<Data>)
    ensures r.Some? <==> HasKey(fields, key)
    ensures r.Some? ==> exists i :: 0 <= i < |fields| && fields[i] == Field(key, r.value)
  {
    if fields == [] then None
    else if fields[|fields| - 1].key == key then Some(fields[|fields| - 1].value)
    else
      var r := Get(fields[..|fields| - 1], key);
      assert r.Some? ==> exists i :: 0 <= i < |fields| - 1 && fields[i] == Field(key, r.value);
      r
  }

  /** Whether a value `json.dumps` rejects occurs anywhere inside `d`. */
  ghost predicate HasForeign(d: Data) {
    match d
    case Foreign(_) => true
    case Arr(items) => exists i :: 0 <= i < |items| && HasForeign(items[i])
    case Obj(fields) => exists i :: 0 <= i < |fields| && HasForeign(fields[i].value)
    case _ => false
  }

  /** Whether `Foreign(name)` occurs inside `d`. */
  ghost predicate HasForeignNamed(d: Data, name: string) {
    match d
    case Foreign(n) => n == name
    case Arr(items) => exists i :: 0 <= i < |items| && HasForeignNamed(items[i], name)
    case Obj(fields) => exists i :: 0 <= i < |fields| && HasForeignNamed(fields[i].value, name)
    case _ => false
  }

  /**
   * The type name in the TypeError `json.dumps(d)` raises: the first
   * unencodable value in encoding order (list items in order, dict values in
   * insertion order), or None when `d` encodes.
   */
  function Unencodable(d: Data): (r: Option<string>)
    ensures r.None? <==> !HasForeign(d)
    ensures r.Some? ==> HasForeignNamed(d, r.value)
  {
    match d
    case Foreign(n) => Some(n)
    case Arr(items) => UnencodableItems(items)
    case Obj(fields) => UnencodableFields(fields)
    case _ => None
  }

  function UnencodableItems(items: seq<Data>): (r: Option<string>)
    ensures r.None? <==> forall i :: 0 <= i < |items| ==> !HasForeign(items[i])
    ensures r.Some? ==> exists i :: 0 <= i < |items| && HasForeignNamed(items[i], r.value)
  {
    if items == [] then None
    else
      match Unencodable(items[0])
      case Some(n) => Some(n)
      case None =>
        var r := UnencodableItems(items[1..]);
        assert forall i :: 1 <= i < |items| ==> items[i] == items[1..][i - 1];
        r
  }

  function UnencodableFields(fields: seq<Field>): (r: Option<string>)
    ensures r.None? <==> forall i :: 0 <= i < |fields| ==> !HasForeign(fields[i].value)
    ensures r.Some? ==> exists i :: 0 <= i < |fields| && HasForeignNamed(fields[i].value, r.value)
  {
    if fields == [] then None
    else
      match Unencodable(fields[0].value)
      case Some(n) => Some(n)
      case None =>
        var r := UnencodableFields(fields[1..]);
        assert forall i :: 1 <= i < |fields| ==> fields[i] == fields[1..][i - 1];
        r
  }

  /** `json.dumps(d)` succeeds. */
  predicate Serializable(d: Data) {
    Unencodable(d).None?
  }

  /**
   * Python's `key in d` for a string `key`: dictionary key, list element or
   * substring; None when `in` raises TypeError (numbers, booleans, None).
   */
  function PyIn(key: string, d: Data): (r: Option<bool>)
    ensures r.None? <==> (d.Null? || d.Bool? || d.Num? || d.Foreign?)
    ensures d.Obj? ==> r == Some(HasKey(d.fields, key))
    ensures d.Arr? ==> r == Some(Str(key) in d.items)
  {
    match d
    case Obj(fields) => Some(HasKey(fields, key))
    case Arr(items) => Some(Str(key) in items)
    case Str(s) => Some(Contains(s, key))
    case _ => None
  }
}
