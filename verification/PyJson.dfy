/** JSON documents as Python holds them after `json.loads`, with the three ways
    the code reads them: `dict.get`, truthiness and `str`. */
module PyJson {
  import opened Text

  datatype Json =
    | Null
    | Bool(b: bool)
    | Num(n: int)
    | Str(s: string)
    | Arr(items: seq<Json>)
    | Obj(fields: map<string, Json>)

  /** `d.get(key, default)` on a dictionary. */
  function Get(o: Json, key: string, default: Json): Json
    requires o.Obj?
  {
    if key in o.fields then o.fields[key] else default
  }

  /** `bool(j)`. */
  predicate Truthy(j: Json) {
    match j
    case Null => false
    case Bool(b) => b
    case Num(n) => n != 0
    case Str(s) => s != ""
    case Arr(items) => items != []
    case Obj(fields) => fields != map[]
  }

  /** `str(j)`. The text of a list or a dictionary is abbreviated, so that two of them used as an id are taken
      for the same id. */
  function PyStr(j: Json): string {
    match j
    case Null => "None"
    case Bool(b) => if b then "True" else "False"
    case Num(n) => if n < 0 then "-" + Decimal(-n) else Decimal(n)
    case Str(s) => s
    case Arr(items) => "[...]"
    case Obj(fields) => "{...}"
  }

  lemma {:induction false} PyStrNotEmpty(j: Json)
    requires Truthy(j)
    ensures PyStr(j) != ""
  {
    if j.Num? {
      DecimalDigits(if j.n < 0 then -j.n else j.n);
    }
  }

  /** Python's falsy values. */
  lemma {:induction false} FalsyExactly(j: Json)
    ensures !Truthy(j) <==> j in {Null, Bool(false), Num(0), Str(""), Arr([]), Obj(map[])}
  {
  }

  /** What `str` makes of constants and numbers: a number's text reads back as the number. */
  lemma {:induction false} StrExactly(n: int)
    ensures PyStr(Null) == "None" && PyStr(Bool(true)) == "True" && PyStr(Bool(false)) == "False"
    ensures n >= 0 ==> AllDigits(PyStr(Num(n))) && NumberOf(PyStr(Num(n))) == n
    ensures n > 0 ==> PyStr(Num(-n)) == "-" + PyStr(Num(n))
  {
    if n >= 0 {
      NumberOfDecimal(n);
    }
  }

  /** What `d.get(key, "")` reads as text. */
  ghost predicate Says(fields: map<string, Json>, key: string, text: string) {
    if key in fields then text == PyStr(fields[key]) else text == ""
  }
}
