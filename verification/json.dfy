/** The request body as the handlers see it after `request.get_json()`, and the
    few Python operations they apply to it: `dict.get`, subscripting with a
    string key, `== 0`, `in`, and `str()` of a non-negative int. */
module Json {

  /** The outcome of a Python expression that may raise an exception. */
  datatype Eval<+T> = Raised | Value(value: T)

  /** A parsed JSON document. Numbers with a fractional part are not modelled. */
  datatype Json =
    | Null
    | Bool(b: bool)
    | Int(i: int)
    | Str(s: string)
    | Arr(items: seq<Json>)
    | Obj(fields: map<string, Json>)

  /** `d.get(key, default)` for a dict `d`; `d.get(key)` is the case `default == Null`. */
  function Field(fields: map<string, Json>, key: string, default: Json): Json
  {
    if key in fields then fields[key] else default
  }

  /** `v[key]` with a string key: a dict holding the key answers, a dict without
      it raises KeyError, and every other value raises TypeError. */
  function Subscript(v: Json, key: string): (r: Eval<Json>)
    ensures r.Value? <==> v.Obj? && key in v.fields
    ensures r.Value? ==> r.value == v.fields[key]
  {
    if v.Obj? && key in v.fields then Value(v.fields[key]) else Raised
  }

  /** Python's `v == n` for an int `n`. `bool` is a subclass of `int`, so
      `False == 0` and `True == 1`; a string never equals an int. */
  predicate EqualsInt(v: Json, n: int)
  {
    match v
    case Int(i) => i == n
    case Bool(b) => (if b then 1 else 0) == n
    case _ => false
  }

  /** `n in v` only evaluates for a list or a dict; a string, a number, a bool
      or None raises TypeError. */
  predicate IsContainer(v: Json)
  {
    v.Arr? || v.Obj?
  }

  /** `n in v` for a container: a list compares its items with `==`; the keys of
      a JSON object are strings, so no int is ever among them. */
  predicate Listed(v: Json, n: int)
  {
    v.Arr? && exists k :: 0 <= k < |v.items| && EqualsInt(v.items[k], n)
  }

  /** `n in v`, raising where Python raises. */
  function Contains(v: Json, n: int): (r: Eval<bool>)
    ensures r.Raised? <==> !IsContainer(v)
    ensures r == Value(true) <==> v.Arr? && exists k :: 0 <= k < |v.items| && EqualsInt(v.items[k], n)
  {
    if IsContainer(v) then Value(Listed(v, n)) else Raised
  }

  /** `n in xs` for a list holds exactly when the list holds the int `n`, or
      holds `false` and `n` is 0, or holds `true` and `n` is 1; `n in d` for a
      JSON object is always false. */
  lemma ContainsMeansEqualItem(xs: seq<Json>, fields: map<string, Json>, n: int)
    ensures Contains(Arr(xs), n) == Value(true) <==>
      Int(n) in xs || (n == 0 && Bool(false) in xs) || (n == 1 && Bool(true) in xs)
    ensures Contains(Obj(fields), n) == Value(false)
  {
  }

  predicate IsDigits(s: string)
  {
    forall k :: 0 <= k < |s| ==> '0' <= s[k] <= '9'
  }

  function DigitChar(d: nat): (c: char)
    requires d < 10
  {
    ('0' as int + d) as char
  }

  /** The number a string of decimal digits denotes. */
  function ParseDecimal(s: string): nat
    requires IsDigits(s)
  {
    if s == [] then 0 else ParseDecimal(s[..|s| - 1]) * 10 + (s[|s| - 1] as int - '0' as int)
  }

  /** `str(n)` for a non-negative int: the canonical decimal numeral of `n`. */
  function Decimal(n: nat): (r: string)
    ensures 1 <= |r|
    ensures IsDigits(r)
    ensures 1 < |r| ==> r[0] != '0'
    ensures ParseDecimal(r) == n
  {
    if n < 10 then [DigitChar(n)]
    else
      var prefix := Decimal(n / 10);
      var r := prefix + [DigitChar(n % 10)];
      assert r[..|r| - 1] == prefix;
      r
  }

  /** Distinct category ids give distinct `str(cat_id)` filter values. */
  lemma DecimalInjective(a: nat, b: nat)
    requires Decimal(a) == Decimal(b)
    ensures a == b
  {
  }
}
