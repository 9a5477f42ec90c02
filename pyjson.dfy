/**
 * A parsed JSON document as Python's `json` module hands it to the pipeline
 * (the value of `response.json()`), together with the handful of Python
 * operations the pipeline applies to such values: truthiness, `dict.get`,
 * iteration, the `in` operator, hashing into a set and `str()`.
 *
 * Python raises an exception when one of these operations meets a value of
 * the wrong shape (`None.get(...)`, `for x in 5`, `{[]}`); the model returns
 * `Err` with the exception's class instead.
 */
module PyJson {

  datatype Json =
    | JNull
    | JBool(b: bool)
    | JInt(n: int)
    | JStr(s: string)
    | JArr(items: seq<Json>)
    | JObj(fields: map<string, Json>)

  /** The exceptions the pipeline's field access can raise. */
  datatype PyError = AttributeError | TypeError

  datatype Option<+T> = None | Some(value: T)

  /** A computation that either returns a value or raises (and `:-` propagates the raise). */
  datatype Result<+T> = Ok(value: T) | Err(error: PyError) {
    predicate IsFailure() {
      Err?
    }

    function PropagateFailure<U>(): Result<U>
      requires Err?
    {
      Err(error)
    }

    function Extract(): T
      requires Ok?
    {
      value
    }
  }

  const EmptyObject: Json := JObj(map[])
  const EmptyArray: Json := JArr([])

  /** Python's truth value of a JSON value: `None`, `False`, `0`, `""`, `[]` and `{}` are false. */
  predicate Truthy(v: Json) {
    match v
    case JNull => false
    case JBool(b) => b
    case JInt(n) => n != 0
    case JStr(s) => |s| > 0
    case JArr(a) => |a| > 0
    case JObj(m) => |m| > 0
  }

  lemma FalsyValues(v: Json)
    ensures !Truthy(v) <==>
      v == JNull || v == JBool(false) || v == JInt(0) || v == JStr("") || v == EmptyArray || v == EmptyObject
  {
    if v.JObj? && |v.fields| == 0 {
      assert v.fields == map[];
    }
  }

  /** `d.get(key, default)` on a value already known to be a dict. */
  function Lookup(m: map<string, Json>, key: string, default: Json): Json {
    if key in m then m[key] else default
  }

  /** `v.get(key, default)`: only a dict has `.get`; anything else raises AttributeError. */
  function Get(v: Json, key: string, default: Json): (r: Result<Json>)
    ensures r.Ok? <==> v.JObj?
    ensures r.Ok? ==> (key in v.fields ==> r.value == v.fields[key]) && (key !in v.fields ==> r.value == default)
    ensures r.Err? ==> r.error == AttributeError
  {
    if v.JObj? then Ok(Lookup(v.fields, key, default)) else Err(AttributeError)
  }

  /**
   * The items a `for` loop visits when the loop body starts by calling `.get`
   * on each item. A list yields its elements and a string its one-character
   * strings; a dict yields its keys, which are strings, so a non-empty dict
   * raises AttributeError at the first item's `.get` (and the order of the keys
   * never matters); `None`, booleans and numbers are not iterable.
   */
  function Members(v: Json): (r: Result<seq<Json>>)
    ensures v.JArr? ==> r == Ok(v.items)
    ensures v.JStr? ==> r.Ok? && |r.value| == |v.s| && forall i :: 0 <= i < |v.s| ==> r.value[i] == JStr([v.s[i]])
    ensures v.JObj? ==> (r.Ok? <==> |v.fields| == 0) && (r.Ok? ==> r.value == [])
    ensures (v.JNull? || v.JBool? || v.JInt?) ==> r == Err(TypeError)
  {
    match v
    case JArr(a) => Ok(a)
    case JStr(s) => Ok(seq(|s|, i requires 0 <= i < |s| => JStr([s[i]])))
    case JObj(m) => if |m| == 0 then Ok([]) else Err(AttributeError)
    case _ => Err(TypeError)
  }

  /** The set of values a `for` loop over `v` yields: elements, characters, or dict keys. */
  function IterationSet(v: Json): (r: Result<set<Json>>)
    ensures r.Ok? <==> (v.JArr? || v.JStr? || v.JObj?)
    ensures r.Err? ==> r.error == TypeError
    ensures v.JArr? ==> forall x :: x in r.value <==> x in v.items
    ensures v.JObj? ==> forall x :: x in r.value <==> x.JStr? && x.s in v.fields
    ensures v.JStr? ==> forall x :: x in r.value <==> exists i :: 0 <= i < |v.s| && x == JStr([v.s[i]])
  {
    match v
    case JArr(a) => Ok(set x | x in a)
    case JStr(s) => Ok(set i | 0 <= i < |s| :: JStr([s[i]]))
    case JObj(m) => Ok(set k | k in m :: JStr(k))
    case _ => Err(TypeError)
  }

  /** Only immutable values can be members of a Python set. */
  predicate Hashable(v: Json) {
    !v.JArr? && !v.JObj?
  }

  predicate OccursAt(t: string, s: string, i: int) {
    0 <= i <= |s| - |t| && s[i..i + |t|] == t
  }

  predicate IsSubstring(t: string, s: string) {
    exists i :: 0 <= i <= |s| - |t| && OccursAt(t, s, i)
  }

  /**
   * `needle in container`: element equality for a list, substring for a
   * string, key membership for a dict; TypeError for anything else.
   */
  function In(needle: string, container: Json): (r: Result<bool>)
    ensures container.JArr? ==> r == Ok(JStr(needle) in container.items)
    ensures container.JObj? ==> r == Ok(needle in container.fields)
    ensures container.JStr? ==> r.Ok? && (r.value <==> IsSubstring(needle, container.s))
    ensures (container.JNull? || container.JBool? || container.JInt?) ==> r == Err(TypeError)
  {
    match container
    case JArr(a) => Ok(JStr(needle) in a)
    case JStr(s) => Ok(IsSubstring(needle, s))
    case JObj(m) => Ok(needle in m)
    case _ => Err(TypeError)
  }

  function DigitChar(d: nat): (c: char)
    requires d < 10
  {
    ('0' as int + d) as char
  }

  /** The number a string of decimal digits stands for, most significant digit first. */
  function DigitsValue(s: string): nat
    requires forall i :: 0 <= i < |s| ==> '0' <= s[i] <= '9'
    decreases |s|
  {
    if |s| == 0 then 0
    else DigitsValue(s[..|s| - 1]) * 10 + (s[|s| - 1] as int - '0' as int)
  }

  /** Decimal digits of `n`, most significant first, without leading zeros: the text `str(n)`. */
  function NatToString(n: nat): (r: string)
    ensures |r| > 0
    ensures forall i :: 0 <= i < |r| ==> '0' <= r[i] <= '9'
    ensures |r| > 1 ==> r[0] != '0'
    ensures DigitsValue(r) == n
  {
    if n < 10 then [DigitChar(n)]
    else
      var prefix := NatToString(n / 10);
      var r := prefix + [DigitChar(n % 10)];
      assert r[..|prefix|] == prefix;
      r
  }

  /**
   * Python's `str(v)` for the hashable values an f-string can meet here: a
   * string is itself; `None`, `True` and `False` are their names; an integer
   * is its decimal digits, after a `-` when it is negative.
   */
  function Format(v: Json): (r: string)
    requires Hashable(v)
    ensures v.JStr? ==> r == v.s
    ensures v.JNull? ==> r == "None"
    ensures v.JBool? ==> r == (if v.b then "True" else "False")
    ensures v.JInt? && v.n >= 0 ==>
      |r| > 0 && (|r| > 1 ==> r[0] != '0') &&
      (forall i :: 0 <= i < |r| ==> '0' <= r[i] <= '9') && DigitsValue(r) == v.n
    ensures v.JInt? && v.n < 0 ==>
      |r| > 1 && r[0] == '-' && r[1] != '0' &&
      (forall i :: 1 <= i < |r| ==> '0' <= r[i] <= '9') && DigitsValue(r[1..]) == -v.n
  {
    match v
    case JNull => "None"
    case JBool(b) => if b then "True" else "False"
    case JInt(n) =>
      if n < 0 then
        var digits := NatToString(-n);
        assert ("-" + digits)[1..] == digits;
        "-" + digits
      else NatToString(n)
    case JStr(s) => s
  }
}
