/** JSON values as the program receives them from `JSON.parse`, with JavaScript's
    property access, optional chaining and truthiness. */
module Json {
  import opened Wrappers
  import opened Text

  /** A parsed JSON value.  A number is held as its `String(n)` rendering; an
      object's members are listed in the order `Object.entries` enumerates them. */
  datatype Json =
    | Null
    | Bool(b: bool)
    | Num(repr: string)
    | Str(s: string)
    | Arr(items: seq<Json>)
    | Obj(fields: seq<(string, Json)>)

  /** JavaScript truthiness: `null`, `false`, `0`, `NaN` and `""` are falsy. */
  predicate Truthy(j: Json) {
    match j
    case Null => false
    case Bool(b) => b
    case Num(r) => r != "0" && r != "NaN"
    case Str(s) => s != ""
    case Arr(_) => true
    case Obj(_) => true
  }

  /** The first member named `key` of a member list. */
  function Lookup(fields: seq<(string, Json)>, key: string): (r: Option<Json>)
    ensures r.Some? ==> exists i :: 0 <= i < |fields| && fields[i] == (key, r.value)
    ensures r.None? ==> forall i :: 0 <= i < |fields| ==> fields[i].0 != key
  {
    if fields == [] then None
    else if fields[0].0 == key then Some(fields[0].1)
    else Lookup(fields[1..], key)
  }

  /** `j?.[key]`: `None` stands for `undefined`.  Only objects have members. */
  function Field(j: Option<Json>, key: string): (r: Option<Json>)
    ensures j.None? ==> r.None?
    ensures j.Some? && !j.value.Obj? ==> r.None?
  {
    match j
    case Some(Obj(fs)) => Lookup(fs, key)
    case _ => None
  }

  /** `j?.k1?.k2?…`: a chain of optional member accesses. */
  function Path(j: Option<Json>, keys: seq<string>): (r: Option<Json>)
    ensures j.None? ==> r.None?
    decreases |keys|
  {
    if keys == [] then j else Path(Field(j, keys[0]), keys[1..])
  }

  /** `a ?? b` over possibly-absent values: the first that is neither `undefined` nor `null`. */
  function Coalesce(xs: seq<Option<Json>>): (r: Option<Json>)
    ensures r.Some? ==> r.value != Null && exists i :: 0 <= i < |xs| && xs[i] == r
    ensures r.None? ==> forall i :: 0 <= i < |xs| ==> xs[i].None? || xs[i] == Some(Null)
  {
    if xs == [] then None
    else if xs[0].Some? && xs[0].value != Null then xs[0]
    else Coalesce(xs[1..])
  }

  /** The first element of a `??` chain that is present decides it. */
  lemma {:induction false} CoalesceFirst(xs: seq<Option<Json>>, i: nat)
    requires i < |xs| && xs[i].Some? && xs[i].value != Null
    requires forall k :: 0 <= k < i ==> xs[k].None? || xs[k] == Some(Null)
    ensures Coalesce(xs) == xs[i]
  {
    if i > 0 {
      CoalesceFirst(xs[1..], i - 1);
    }
  }
  // ---------------------------------------------------------------------------
  // String conversion

  /** `String(v)` (`v.toString()`) for a present value; an array renders its elements
      joined by commas, with `null` elements as empty strings. */
  function ToStr(j: Json): string
    decreases j, 1
  {
    match j
    case Null => "null"
    case Bool(b) => if b then "true" else "false"
    case Num(r) => r
    case Str(s) => s
    case Arr(items) => ItemsToStr(items)
    case Obj(_) => "[object Object]"
  }

  function ItemsToStr(items: seq<Json>): string
    decreases items, 0
  {
    if items == [] then ""
    else
      var first := if items[0] == Null then "" else ToStr(items[0]);
      if |items| == 1 then first else first + "," + ItemsToStr(items[1..])
  }

  /** `(v || '').toString()` for a possibly-absent value. */
  function TextOr(j: Option<Json>, d: string): (r: string)
    ensures j.None? ==> r == d
    ensures j.Some? && j.value.Str? && j.value.s != "" ==> r == j.value.s
  {
    if j.Some? && Truthy(j.value) then ToStr(j.value) else d
  }

  // ---------------------------------------------------------------------------
  // JSON.stringify

  function HexDigit(n: nat): (r: char)
    requires n < 16
    ensures IsAsciiDigit(r) || ('a' <= r <= 'f')
  {
    if n < 10 then ('0' as int + n) as char else ('a' as int + n - 10) as char
  }

  /** How `JSON.stringify` writes one character of a string. */
  function EscapeChar(c: char): (r: string)
    ensures r != []
    ensures '\n' !in r
    ensures c >= ' ' && c != '"' && c != '\\' ==> r == [c]
  {
    if c == '"' then "\\\""
    else if c == '\\' then "\\\\"
    else if c == '\U{0008}' then "\\b"
    else if c == '\U{000C}' then "\\f"
    else if c == '\n' then "\\n"
    else if c == '\r' then "\\r"
    else if c == '\t' then "\\t"
    else if c < ' ' then "\\u00" + [HexDigit(c as int / 16), HexDigit(c as int % 16)]
    else [c]
  }

  function Escape(s: string): (r: string)
    ensures '\n' !in r
    ensures |r| >= |s|
  {
    if s == [] then [] else EscapeChar(s[0]) + Escape(s[1..])
  }

  /** `JSON.stringify(s)` for a string. */
  function Quote(s: string): (r: string)
    ensures |r| >= 2 && r[0] == '"' && r[|r| - 1] == '"'
    ensures '\n' !in r
  {
    "\"" + Escape(s) + "\""
  }

  /** `JSON.stringify(v)`: numbers as their rendering, members in order. */
  function Stringify(j: Json): string
    decreases j, 1
  {
    match j
    case Null => "null"
    case Bool(b) => if b then "true" else "false"
    case Num(r) => r
    case Str(s) => Quote(s)
    case Arr(items) => "[" + ItemsStringify(items) + "]"
    case Obj(fields) => "{" + MembersStringify(fields) + "}"
  }

  function ItemsStringify(items: seq<Json>): string
    decreases items, 0
  {
    if items == [] then ""
    else if |items| == 1 then Stringify(items[0])
    else Stringify(items[0]) + "," + ItemsStringify(items[1..])
  }

  function MembersStringify(fields: seq<(string, Json)>): string
    decreases fields, 0
  {
    if fields == [] then ""
    else
      assert fields[0] in fields && fields[0].1 < fields[0];
      var m := Quote(fields[0].0) + ":" + Stringify(fields[0].1);
      if |fields| == 1 then m else m + "," + MembersStringify(fields[1..])
  }

  /** A one-member object whose value is a string or a boolean is written on one line,
      between braces. */
  lemma SingleMemberLine(key: string, v: Json)
    requires v.Str? || v.Bool?
    ensures var t := Stringify(Obj([(key, v)]));
      t == "{" + Quote(key) + ":" + Stringify(v) + "}" && '\n' !in t
  {
    var t := Stringify(Obj([(key, v)]));
    assert MembersStringify([(key, v)]) == Quote(key) + ":" + Stringify(v);
    assert t == "{" + Quote(key) + ":" + Stringify(v) + "}";
    if v.Bool? {
      assert '\n' !in Stringify(v);
    }
    NoNewlineConcat("{" + Quote(key) + ":", Stringify(v), "}");
  }

  lemma NoNewlineConcat(a: string, b: string, c: string)
    requires '\n' !in a && '\n' !in b && '\n' !in c
    ensures '\n' !in a + b + c
  {
  }
}
