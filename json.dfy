/**
 * JSON values as the handlers see them after `request.json()`/`JSON.parse`, with the
 * JavaScript operations applied to them: property access, truthiness, `String(v)` and
 * `JSON.stringify`. Numbers are integers here (see README, "Left out").
 */
module Json {
  import opened Wrappers
  import JsString
  import Hex

  datatype Json =
    | JNull
    | JBool(b: bool)
    | JNum(n: int)
    | JStr(s: string)
    | JArr(items: seq<Json>)
    | JObj(fields: seq<Field>)

  /** One `"key": value` member of an object, in source order. */
  datatype Field = Field(key: string, value: Json)

  /** The value of `key` in an object's members; a later duplicate overrides an earlier one, as in `JSON.parse`. */
  function Lookup(fields: seq<Field>, key: string): Option<Json>
  {
    if fields == [] then None
    else if fields[|fields| - 1].key == key then Some(fields[|fields| - 1].value)
    else Lookup(fields[..|fields| - 1], key)
  }

  /** A key is found iff some member has it, and the value found is that of such a member. */
  lemma {:induction false} LookupFound(fields: seq<Field>, key: string)
    ensures Lookup(fields, key).None? <==> forall i :: 0 <= i < |fields| ==> fields[i].key != key
    ensures Lookup(fields, key).Some? ==>
      exists i :: 0 <= i < |fields| && fields[i] == Field(key, Lookup(fields, key).value)
    decreases |fields|
  {
    if fields != [] && fields[|fields| - 1].key != key {
      var init := fields[..|fields| - 1];
      LookupFound(init, key);
      if Lookup(fields, key).Some? {
        var i :| 0 <= i < |init| && init[i] == Field(key, Lookup(fields, key).value);
        assert fields[i] == init[i];
      }
    }
  }

  /** A member not overridden by a later one with the same key is the value of its key. */
  lemma {:induction false} LookupAt(fields: seq<Field>, i: nat)
    requires i < |fields|
    requires forall j :: i < j < |fields| ==> fields[j].key != fields[i].key
    ensures Lookup(fields, fields[i].key) == Some(fields[i].value)
    decreases |fields|
  {
    if i < |fields| - 1 {
      LookupAt(fields[..|fields| - 1], i);
    }
  }

  /** `v[key]` for a parsed JSON value: the member of an object, `undefined` (None) for anything else. */
  function Member(v: Json, key: string): Option<Json>
  {
    if v.JObj? then Lookup(v.fields, key) else None
  }

  /** The object as a JavaScript object is: one value per key, the last duplicate winning. */
  function AsMap(fields: seq<Field>): (m: map<string, Json>)
    ensures forall k :: (k in m) == Lookup(fields, k).Some?
    ensures forall k :: k in m ==> Lookup(fields, k) == Some(m[k])
  {
    if fields == [] then map[]
    else AsMap(fields[..|fields| - 1])[fields[|fields| - 1].key := fields[|fields| - 1].value]
  }

  /** JavaScript truthiness of a value that may be `undefined`. */
  predicate Truthy(v: Option<Json>)
  {
    match v
    case None => false
    case Some(JNull) => false
    case Some(JBool(b)) => b
    case Some(JNum(n)) => n != 0
    case Some(JStr(s)) => s != ""
    case Some(_) => true
  }

  /** `String(v)`, as a template literal or `new Error(v)` converts a value. */
  function ToJsString(v: Json): string
  {
    match v
    case JNull => "null"
    case JBool(b) => if b then "true" else "false"
    case JNum(n) => JsString.IntToString(n)
    case JStr(s) => s
    case JArr(items) => JoinElements(items)
    case JObj(_) => "[object Object]"
  }

  /** `Array.prototype.join(",")`: `null` elements become the empty string. */
  function JoinElements(items: seq<Json>): string
  {
    if items == [] then ""
    else
      var first := if items[0].JNull? then "" else ToJsString(items[0]);
      if |items| == 1 then first else first + "," + JoinElements(items[1..])
  }

  /** The escape `JSON.stringify` writes for one character of a string. */
  function EscapeChar(c: char): string
  {
    if c == '"' then "\\\""
    else if c == '\\' then "\\\\"
    else if c == '\U{0008}' then "\\b"
    else if c == '\t' then "\\t"
    else if c == '\n' then "\\n"
    else if c == '\U{000C}' then "\\f"
    else if c == '\r' then "\\r"
    else if (c as int) < 0x20 then "\\u00" + [Hex.HexChar(c as int / 16), Hex.HexChar(c as int % 16)]
    else [c]
  }

  function Escape(s: string): (e: string)
    ensures |e| >= |s|
  {
    if s == [] then "" else EscapeChar(s[0]) + Escape(s[1..])
  }

  /**
   * The escape of a character can be read back from the head of any text it starts: a
   * character other than `\\` stands for itself, `\\` and the letter after it name the
   * character, and `\\u00` is followed by its two hex digits.
   */
  lemma EscapeCharHead(c: char, d: char, x: string, y: string)
    requires EscapeChar(c) + x == EscapeChar(d) + y
    ensures c == d && x == y
  {
    var z := EscapeChar(c) + x;
    assert z[0] == EscapeChar(c)[0] == EscapeChar(d)[0];
    if z[0] != '\\' {
      assert EscapeChar(c) == [c] && EscapeChar(d) == [d];
    } else {
      assert z[1] == EscapeChar(c)[1] == EscapeChar(d)[1];
      if z[1] == 'u' {
        assert |EscapeChar(c)| == 6 && |EscapeChar(d)| == 6;
        assert z[4] == Hex.HexChar(c as int / 16) == Hex.HexChar(d as int / 16);
        assert z[5] == Hex.HexChar(c as int % 16) == Hex.HexChar(d as int % 16);
      }
    }
    assert EscapeChar(c) == EscapeChar(d);
    assert x == z[|EscapeChar(c)|..] == y;
  }

  /** Different strings have different escapes, so a string literal determines its string. */
  lemma {:induction false} EscapeInjective(s: string, t: string)
    requires Escape(s) == Escape(t)
    ensures s == t
  {
    if s != [] && t != [] {
      EscapeCharHead(s[0], t[0], Escape(s[1..]), Escape(t[1..]));
      EscapeInjective(s[1..], t[1..]);
      assert s == [s[0]] + s[1..] && t == [t[0]] + t[1..];
    }
  }

  /** A string literal as `JSON.stringify` writes it. */
  function Quote(s: string): string
  {
    "\"" + Escape(s) + "\""
  }

  /** `JSON.stringify(v)`: no whitespace, members in their order. */
  function Stringify(v: Json): string
  {
    match v
    case JNull => "null"
    case JBool(b) => if b then "true" else "false"
    case JNum(n) => JsString.IntToString(n)
    case JStr(s) => Quote(s)
    case JArr(items) => "[" + StringifyItems(items) + "]"
    case JObj(fields) => "{" + StringifyFields(fields) + "}"
  }

  function StringifyItems(items: seq<Json>): string
  {
    if items == [] then "" else Stringify(items[0]) + StringifyMoreItems(items[1..])
  }

  function StringifyMoreItems(items: seq<Json>): string
  {
    if items == [] then "" else "," + Stringify(items[0]) + StringifyMoreItems(items[1..])
  }

  function StringifyField(f: Field): string
  {
    Quote(f.key) + ":" + Stringify(f.value)
  }

  function StringifyFields(fields: seq<Field>): string
  {
    if fields == [] then "" else StringifyField(fields[0]) + StringifyMoreFields(fields[1..])
  }

  function StringifyMoreFields(fields: seq<Field>): string
  {
    if fields == [] then "" else "," + StringifyField(fields[0]) + StringifyMoreFields(fields[1..])
  }

  /** Appending a member appends `,` and its serialisation. */
  lemma {:induction false} StringifyFieldsSnoc(fields: seq<Field>, f: Field)
    requires fields != []
    ensures StringifyFields(fields + [f]) == StringifyFields(fields) + "," + StringifyField(f)
  {
    assert (fields + [f])[0] == fields[0] && (fields + [f])[1..] == fields[1..] + [f];
    StringifyMoreFieldsSnoc(fields[1..], f);
  }

  lemma {:induction false} StringifyMoreFieldsSnoc(fields: seq<Field>, f: Field)
    ensures StringifyMoreFields(fields + [f]) == StringifyMoreFields(fields) + "," + StringifyField(f)
  {
    if fields == [] {
      assert [] + [f] == [f] && [f][1..] == [];
    } else {
      assert (fields + [f])[0] == fields[0] && (fields + [f])[1..] == fields[1..] + [f];
      StringifyMoreFieldsSnoc(fields[1..], f);
    }
  }
}
