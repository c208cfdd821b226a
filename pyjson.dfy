/**
  The values that Python's json.loads produces (an RFC 8259 value tree) and the
  few Python operators the request pipeline applies to them: truthiness, the
  `in` operator, subscripting with a string key and `dict.get`. Each operator
  either yields a value or raises the Python exception it raises on a value of
  the wrong type.
 */
module PyJson {
  import opened Outcomes

  /** A decoded JSON value. An object decodes to a Python dict, so a key
      occurs once (json.loads keeps the last duplicate). A number is an int
      when its text has no fraction and no exponent, a float otherwise; a float
      is kept as the exact decimal `mantissa * 10^exponent`. */
  datatype Json =
    | JNull
    | JBool(b: bool)
    | JInt(i: int)
    | JFloat(mantissa: int, exponent: int)
    | JString(s: string)
    | JArray(elems: seq<Json>)
    | JObject(members: map<string, Json>)

  /** The exceptions the modelled operators raise, with the text `str(e)` gives. */
  datatype PyError =
    | TypeError(message: string)
    | AttributeError(message: string)
    | KeyError(key: string)
  {
    function Message(): string {
      match this
      case TypeError(m) => m
      case AttributeError(m) => m
      case KeyError(k) => "'" + k + "'"
    }
  }

  /** Python's name for the type of the decoded value. */
  function TypeName(v: Json): string {
    match v
    case JNull => "NoneType"
    case JBool(_) => "bool"
    case JInt(_) => "int"
    case JFloat(_, _) => "float"
    case JString(_) => "str"
    case JArray(_) => "list"
    case JObject(_) => "dict"
  }

  /** Python truthiness (`not v` is its negation): the falsy values are
      None, False, zero, and the empty str, list and dict. */
  function Truthy(v: Json): (r: bool)
    ensures !r <==> v == JNull || v == JBool(false) || v == JInt(0) || (v.JFloat? && v.mantissa == 0)
                    || v == JString("") || v == JArray([]) || v == JObject(map[])
  {
    match v
    case JNull => false
    case JBool(b) => b
    case JInt(i) => i != 0
    case JFloat(m, _) => m != 0
    case JString(s) => s != []
    case JArray(es) => es != []
    case JObject(m) => m != map[]
  }

  predicate OccursAt(s: string, p: string, i: int) {
    0 <= i && i + |p| <= |s| && s[i..i + |p|] == p
  }

  /** `p in s` for two Python strings: `p` is a substring of `s`. */
  predicate ContainsSubstring(s: string, p: string) {
    exists i | 0 <= i <= |s| :: OccursAt(s, p, i)
  }

  /** The values `in` can probe without raising: dict, list and str. */
  predicate IsContainer(c: Json) {
    c.JObject? || c.JArray? || c.JString?
  }

  /** What `key in c` means for each kind of container: a dict key, a list
      element equal to the string, or a substring. */
  predicate Member(key: string, c: Json)
    requires IsContainer(c)
  {
    match c
    case JObject(m) => key in m
    case JArray(es) => JString(key) in es
    case JString(s) => ContainsSubstring(s, key)
  }

  /** Python's `key in c` for a string `key`. */
  function PyIn(key: string, c: Json): (r: Result<bool, PyError>)
    ensures r.Success? <==> IsContainer(c)
    ensures r.Success? ==> (r.value <==> Member(key, c))
  {
    if IsContainer(c) then Success(Member(key, c))
    else Failure(TypeError("argument of type '" + TypeName(c) + "' is not iterable"))
  }

  /** `all(k in c for k in keys)`: stops at the first key that is absent and
      raises when the first probe raises. */
  function AllIn(keys: seq<string>, c: Json): (r: Result<bool, PyError>)
    ensures IsContainer(c) ==> r == Success(forall i :: 0 <= i < |keys| ==> Member(keys[i], c))
    ensures !IsContainer(c) ==> (r.Failure? <==> keys != [])
  {
    if keys == [] then Success(true)
    else
      var here :- PyIn(keys[0], c);
      if !here then Success(false) else AllIn(keys[1..], c)
  }

  /** `c[key]` for a string `key`. */
  function GetItem(c: Json, key: string): (r: Result<Json, PyError>)
    ensures r.Success? <==> c.JObject? && key in c.members
    ensures r.Success? ==> r.value == c.members[key]
  {
    match c
    case JObject(m) => if key in m then Success(m[key]) else Failure(KeyError(key))
    case JArray(_) => Failure(TypeError("list indices must be integers or slices, not str"))
    case JString(_) => Failure(TypeError("string indices must be integers, not 'str'"))
    case _ => Failure(TypeError("'" + TypeName(c) + "' object is not subscriptable"))
  }

  /** `c.get(key, default)`: only a dict has the method. */
  function GetOr(c: Json, key: string, default: Json): (r: Result<Json, PyError>)
    ensures r.Success? <==> c.JObject?
    ensures r.Success? ==> r.value == if key in c.members then c.members[key] else default
  {
    if c.JObject? then Success(if key in c.members then c.members[key] else default)
    else Failure(AttributeError("'" + TypeName(c) + "' object has no attribute 'get'"))
  }
}
