/**
  The WHERE-clause helpers of neo4j/dbUtils.js. `whereTemplate` renders one
  `name.key={param}` condition; `dbWhere` joins the conditions for a list of
  keys. As written, `dbWhere` cannot run (see DbWhereAsWritten); DbWhere is
  the function its body evidently means.
*/
module DbUtils {
  import opened JsValues

  /** `paramKey || key`: an absent or empty parameter name falls back to the key. */
  function ParamName(key: string, paramKey: Option<string>): (p: string)
    ensures paramKey.Some? && paramKey.value != "" ==> p == paramKey.value
    ensures paramKey.None? || paramKey.value == "" ==> p == key
  {
    if paramKey.Some? && paramKey.value != "" then paramKey.value else key
  }

  /** `${name}.${key}={${paramKey || key}}`. */
  function WhereTemplate(name: string, key: string, paramKey: Option<string>): (t: string)
    ensures |t| == |name| + |key| + |ParamName(key, paramKey)| + 4
  {
    name + "." + key + "={" + ParamName(key, paramKey) + "}"
  }

  /** Without a parameter name the condition compares the key with the parameter of the same name. */
  lemma WhereTemplateFallsBack(name: string, key: string)
    ensures WhereTemplate(name, key, None) == WhereTemplate(name, key, Some(""))
    ensures WhereTemplate(name, key, None) == WhereTemplate(name, key, Some(key))
  {
  }

  /** Splits at the first occurrence of `c`. */
  function SplitAtFirst(s: string, c: char): (r: Option<(string, string)>)
    ensures r.Some? ==> c !in r.value.0 && s == r.value.0 + [c] + r.value.1
    ensures r.None? <==> c !in s
  {
    if s == [] then None
    else if s[0] == c then
      assert s == [] + [c] + s[1..];
      Some(([], s[1..]))
    else
      match SplitAtFirst(s[1..], c)
      case None => None
      case Some((before, after)) =>
        assert s == [s[0]] + s[1..];
        Some(([s[0]] + before, after))
  }

  /** A prefix split at its first `c` stays split there whatever follows it. */
  lemma {:induction false} SplitAtFirstOfConcat(a: string, c: char, b: string)
    requires c !in a
    ensures SplitAtFirst(a + [c] + b, c) == Some((a, b))
  {
    if a != [] {
      assert (a + [c] + b)[1..] == a[1..] + [c] + b;
      SplitAtFirstOfConcat(a[1..], c, b);
      assert [a[0]] + a[1..] == a;
    }
  }

  /** Reads a condition back into its name, key and parameter name. */
  function ParseTemplate(t: string): Option<(string, string, string)> {
    match SplitAtFirst(t, '.')
    case None => None
    case Some((name, rest)) =>
      match SplitAtFirst(rest, '=')
      case None => None
      case Some((key, param)) =>
        if |param| >= 2 && param[0] == '{' && param[|param| - 1] == '}' then
          Some((name, key, param[1..|param| - 1]))
        else None
  }

  /** The rendered condition reads back exactly, for a name without '.' and a key without '='. */
  lemma ParseWhereTemplate(name: string, key: string, paramKey: Option<string>)
    requires '.' !in name && '=' !in key
    ensures ParseTemplate(WhereTemplate(name, key, paramKey)) == Some((name, key, ParamName(key, paramKey)))
  {
    var p := ParamName(key, paramKey);
    var rest := key + "={" + p + "}";
    assert WhereTemplate(name, key, paramKey) == name + ['.'] + rest;
    SplitAtFirstOfConcat(name, '.', rest);
    var param := "{" + p + "}";
    assert rest == key + ['='] + param;
    SplitAtFirstOfConcat(key, '=', param);
    assert param[1..|param| - 1] == p;
  }

  /** `items.join(sep)`. */
  function Join(items: seq<string>, sep: string): string {
    if items == [] then ""
    else if |items| == 1 then items[0]
    else Join(items[..|items| - 1], sep) + sep + items[|items| - 1]
  }

  /** Joining one more item appends the separator and that item. */
  lemma JoinSnoc(items: seq<string>, item: string, sep: string)
    requires items != []
    ensures Join(items + [item], sep) == Join(items, sep) + sep + item
  {
    assert (items + [item])[..|items|] == items;
  }

  /** One condition per key, in key order, with no explicit parameter name. */
  function Conditions(name: string, keys: seq<string>): (cs: seq<string>)
    ensures |cs| == |keys|
    ensures forall i :: 0 <= i < |keys| ==> cs[i] == WhereTemplate(name, keys[i], None)
  {
    seq(|keys|, i requires 0 <= i < |keys| => WhereTemplate(name, keys[i], None))
  }

  /** One `{name, key, paramKey}` entry of the array form. */
  datatype WhereSpec = WhereSpec(name: string, key: string, paramKey: Option<string>)

  /** `name` is either one variable name or an array of specs (`_.isArray(name)`). */
  datatype WhereName = Single(name: string) | Many(specs: seq<WhereSpec>)

  /**
    `dbWhere(name, keys)` as evidently meant: with a single name and a
    non-empty `keys`, `WHERE` and the conditions joined by ` AND `; with an
    array of specs the conditions are computed and dropped, so the result is
    `undefined` (None), as it is for absent or empty `keys`.
  */
  function DbWhere(name: WhereName, keys: Option<seq<string>>): (r: Option<string>)
    ensures r.Some? <==> name.Single? && keys.Some? && |keys.value| > 0
    ensures r.Some? ==> r.value == "WHERE " + Join(Conditions(name.name, keys.value), " AND ")
  {
    match name
    case Many(_) => None
    case Single(n) =>
      if keys.Some? && |keys.value| > 0 then Some("WHERE " + Join(Conditions(n, keys.value), " AND "))
      else None
  }

  /** With one key the clause is that one condition. */
  lemma DbWhereOneKey(name: string, key: string)
    ensures DbWhere(Single(name), Some([key])) == Some("WHERE " + name + "." + key + "={" + key + "}")
  {
    var t := WhereTemplate(name, key, None);
    assert Conditions(name, [key]) == [t];
    assert Join([t], " AND ") == t;
    assert t == name + "." + key + "={" + key + "}";
    assert DbWhere(Single(name), Some([key])) == Some("WHERE " + t);
    assert "WHERE " + t == "WHERE " + name + "." + key + "={" + key + "}";
  }

  /** One more key adds ` AND ` and its condition at the end: conditions follow key order. */
  lemma DbWhereMoreKeys(name: string, keys: seq<string>, key: string)
    requires keys != []
    ensures DbWhere(Single(name), Some(keys + [key])).value
         == DbWhere(Single(name), Some(keys)).value + " AND " + WhereTemplate(name, key, None)
  {
    assert Conditions(name, keys + [key]) == Conditions(name, keys) + [WhereTemplate(name, key, None)];
    JoinSnoc(Conditions(name, keys), WhereTemplate(name, key, None), " AND ");
  }

  /** The value thrown when the module-level `_` is read but was never bound. */
  const UnboundLodash: Value :=
    Obj(map["name" := Str("ReferenceError"), "message" := Str("_ is not defined")])

  /**
    `dbWhere` as written: its first step evaluates `_.isArray(name)`, and the
    module never binds `_`, so every call throws (the `_whereTemplate` it
    would call next does not exist either).
  */
  function DbWhereAsWritten(name: WhereName, keys: Option<seq<string>>): (r: Result<Option<string>>)
    ensures r.Thrown? && r.error.Obj? && Get(r.error.fields, "name") == Str("ReferenceError")
  {
    Thrown(UnboundLodash)
  }

  /** Where the corrected function returns a clause, the code as written throws instead. */
  lemma DbWhereAsWrittenNeverAnswers(name: string, keys: seq<string>)
    requires keys != []
    ensures DbWhere(Single(name), Some(keys)).Some?
    ensures DbWhereAsWritten(Single(name), Some(keys)).Thrown?
  {
  }
}
