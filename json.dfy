/**
 * Decoded JSON as the payment provider returns it, with Python's truth
 * values, `dict.get`, `str()` and the URL search of `_find_first_url`.
 */
module Json {
  import opened Wrappers
  import opened Text

  /** An object keeps its members in insertion order, as a Python dict does. */
  datatype Json =
    | JNull
    | JBool(b: bool)
    | JNum(n: int)
    | JStr(s: string)
    | JArr(items: seq<Json>)
    | JObj(fields: seq<Field>)

  datatype Field = Field(key: string, value: Json)

  /** Python's truth value: None, False, 0, "" and empty containers are false. */
  predicate Truthy(j: Json) {
    match j
    case JNull => false
    case JBool(b) => b
    case JNum(n) => n != 0
    case JStr(s) => s != ""
    case JArr(items) => items != []
    case JObj(fields) => fields != []
  }

  /** Python's `a or b`. */
  function Or(a: Json, b: Json): Json {
    if Truthy(a) then a else b
  }

  /** The value of the first member at or after index `i` with the given key. */
  function FieldValue(fields: seq<Field>, key: string, i: nat): Json
    requires i <= |fields|
    decreases |fields| - i
  {
    if i == |fields| then JNull
    else if fields[i].key == key then fields[i].value
    else FieldValue(fields, key, i + 1)
  }

  /**
   * `obj.get(key)`: the member's value, or None when absent. A value that is
   * not an object is read as having no members.
   */
  function Get(j: Json, key: string): Json {
    match j
    case JObj(fields) => FieldValue(fields, key, 0)
    case _ => JNull
  }

  /**
   * `(v or {}).get(key)` raises AttributeError exactly when `v` is truthy
   * but not an object; so does `v.get(key)` on a `v` already known to be
   * truthy. Nothing in the handlers catches it.
   */
  predicate GetRaises(j: Json) {
    Truthy(j) && !j.JObj?
  }

  /** `str(v)` for the scalar values; containers are rendered as "". */
  function Str(j: Json): string {
    match j
    case JNull => "None"
    case JBool(b) => if b then "True" else "False"
    case JNum(n) => IntToString(n)
    case JStr(s) => s
    case _ => ""
  }

  /** The strings `_find_first_url` accepts: absolute http or https URLs. */
  predicate IsUrl(s: string) {
    StartsWith(s, "http://") || StartsWith(s, "https://")
  }

  /**
   * `_find_first_url`: depth-first over object values and array items in
   * order, the first string that is a URL.
   */
  function FindFirstUrl(j: Json): (r: Option<string>)
    ensures r.Some? ==> IsUrl(r.value)
    decreases j
  {
    match j
    case JStr(s) => if IsUrl(s) then Some(s) else None
    case JArr(items) => FirstUrlInItems(items)
    case JObj(fields) => FirstUrlInFields(fields)
    case _ => None
  }

  function FirstUrlInItems(items: seq<Json>): (r: Option<string>)
    ensures r.Some? ==> IsUrl(r.value)
    decreases items
  {
    if |items| == 0 then None
    else match FindFirstUrl(items[0])
      case Some(u) => Some(u)
      case None => FirstUrlInItems(items[1..])
  }

  function FirstUrlInFields(fields: seq<Field>): (r: Option<string>)
    ensures r.Some? ==> IsUrl(r.value)
    decreases fields
  {
    if |fields| == 0 then None
    else match FindFirstUrl(fields[0].value)
      case Some(u) => Some(u)
      case None => FirstUrlInFields(fields[1..])
  }

  // ---------------------------------------------------------------------
  // Reference definition: all strings of the tree, in search order
  // ---------------------------------------------------------------------

  /** Every string value of the tree, object values and array items in order. */
  function Strings(j: Json): seq<string>
    decreases j
  {
    match j
    case JStr(s) => [s]
    case JArr(items) => ItemStrings(items)
    case JObj(fields) => FieldStrings(fields)
    case _ => []
  }

  function ItemStrings(items: seq<Json>): seq<string>
    decreases items
  {
    if |items| == 0 then [] else Strings(items[0]) + ItemStrings(items[1..])
  }

  function FieldStrings(fields: seq<Field>): seq<string>
    decreases fields
  {
    if |fields| == 0 then [] else Strings(fields[0].value) + FieldStrings(fields[1..])
  }

  /** The first URL of a list of strings. */
  function FirstUrl(ss: seq<string>): Option<string> {
    if |ss| == 0 then None
    else if IsUrl(ss[0]) then Some(ss[0])
    else FirstUrl(ss[1..])
  }

  lemma {:induction false} FirstUrlAppend(a: seq<string>, b: seq<string>)
    ensures FirstUrl(a + b) == if FirstUrl(a).Some? then FirstUrl(a) else FirstUrl(b)
  {
    if |a| > 0 {
      assert (a + b)[1..] == a[1..] + b;
      FirstUrlAppend(a[1..], b);
    } else {
      assert a + b == b;
    }
  }

  /** `_find_first_url` returns the first URL among all strings of the tree. */
  lemma {:induction false} FindFirstUrlIsFirst(j: Json)
    ensures FindFirstUrl(j) == FirstUrl(Strings(j))
    decreases j
  {
    match j
    case JStr(s) =>
    case JArr(items) => ItemsFirst(items);
    case JObj(fields) => FieldsFirst(fields);
    case _ =>
  }

  lemma {:induction false} ItemsFirst(items: seq<Json>)
    ensures FirstUrlInItems(items) == FirstUrl(ItemStrings(items))
    decreases items
  {
    if |items| > 0 {
      FindFirstUrlIsFirst(items[0]);
      ItemsFirst(items[1..]);
      FirstUrlAppend(Strings(items[0]), ItemStrings(items[1..]));
    }
  }

  lemma {:induction false} FieldsFirst(fields: seq<Field>)
    ensures FirstUrlInFields(fields) == FirstUrl(FieldStrings(fields))
    decreases fields
  {
    if |fields| > 0 {
      FindFirstUrlIsFirst(fields[0].value);
      FieldsFirst(fields[1..]);
      FirstUrlAppend(Strings(fields[0].value), FieldStrings(fields[1..]));
    }
  }

  /** FirstUrl finds a URL exactly when one is listed, and it is the earliest. */
  lemma {:induction false} FirstUrlSpec(ss: seq<string>)
    ensures FirstUrl(ss).None? <==> forall i :: 0 <= i < |ss| ==> !IsUrl(ss[i])
    ensures FirstUrl(ss).Some? ==>
      exists k :: 0 <= k < |ss| && ss[k] == FirstUrl(ss).value && forall i :: 0 <= i < k ==> !IsUrl(ss[i])
  {
    if |ss| > 0 && !IsUrl(ss[0]) {
      FirstUrlSpec(ss[1..]);
      if FirstUrl(ss).Some? {
        var k :| 0 <= k < |ss| - 1 && ss[1..][k] == FirstUrl(ss).value && forall i :: 0 <= i < k ==> !IsUrl(ss[1..][i]);
        assert ss[k + 1] == FirstUrl(ss).value;
        assert forall i :: 0 <= i < k + 1 ==> !IsUrl(ss[i]) by {
          forall i | 0 <= i < k + 1 ensures !IsUrl(ss[i]) {
            if i > 0 { assert ss[i] == ss[1..][i - 1]; }
          }
        }
      }
    }
  }
}
