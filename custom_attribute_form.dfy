// The custom-attribute step of the software form: each raw input value is
// converted to its attribute's kind, and the submitted object keeps the
// converted values of the defined attributes that were filled in.
module CustomAttributeForm {
  import opened Wrappers
  import opened Catalogi
  import Catalog

  datatype AttributeKind = BooleanKind | StringKind | NumberKind | DateKind | UrlKind

  /** The part of an attribute definition the form reads: its name and kind. */
  datatype Definition = Definition(name: string, kind: AttributeKind)

  /** Calling `toLowerCase` on a number or a date: it is not a function there. */
  datatype TypeError = ToLowerCaseNotAFunction

  /** `String.prototype.toLowerCase` on ASCII letters; other characters are kept. */
  function Lower(s: string): (r: string)
    ensures |r| == |s|
    ensures forall i | 0 <= i < |s| :: r[i] == if 'A' <= s[i] <= 'Z' then (s[i] as int + 32) as char else s[i]
  {
    seq(|s|, i requires 0 <= i < |s| => if 'A' <= s[i] <= 'Z' then (s[i] as int + 32) as char else s[i])
  }

  /**
   * `convertRawAttributeValueToCorrectType`; `Ok(None)` is `undefined`.
   * `toNumber` stands for JavaScript's `+` on a string.
   */
  function Convert(kind: AttributeKind, raw: AttributeValue, toNumber: string -> AttributeValue): (r: Result<Option<AttributeValue>, TypeError>)
    ensures kind in {StringKind, DateKind, UrlKind} ==> r == Ok(if Truthy(raw) then Some(raw) else None)
    ensures kind == NumberKind ==> r.Ok? && (r.value.None? <==> raw.Null?)
    ensures kind == NumberKind && raw.Number? ==> r == Ok(Some(raw))
    ensures kind == NumberKind && raw.Bool? ==> r == Ok(Some(Number(if raw.b then 1 else 0)))
    ensures kind == NumberKind && raw.Date? ==> r == Ok(Some(Number(raw.ms)))
    ensures kind == NumberKind && raw.Text? ==> r == Ok(Some(toNumber(raw.s)))
    ensures kind == BooleanKind ==> (r.Err? <==> raw.Number? || raw.Date?)
    ensures kind == BooleanKind && raw.Bool? ==> r == Ok(Some(raw))
    ensures kind == BooleanKind && raw.Text? ==>
      r == Ok(if Lower(raw.s) == "true" then Some(Bool(true))
              else if Lower(raw.s) == "false" then Some(Bool(false))
              else if raw.s == "not applicable" then Some(Null)
              else None)
    ensures kind == BooleanKind && raw.Null? ==> r == Ok(None)
  {
    match kind
    case StringKind | DateKind | UrlKind => Ok(if Truthy(raw) then Some(raw) else None)
    case NumberKind =>
      Ok(match raw
         case Null => None
         case Bool(b) => Some(Number(if b then 1 else 0))
         case Number(_) => Some(raw)
         case Date(ms) => Some(Number(ms))
         case Text(s) => Some(toNumber(s)))
    case BooleanKind =>
      match raw
      case Bool(_) => Ok(Some(raw))
      case Number(_) => Err(ToLowerCaseNotAFunction)
      case Date(_) => Err(ToLowerCaseNotAFunction)
      case Null => Ok(None)
      case Text(s) =>
        var l := Lower(s);
        Ok(if l == "true" then Some(Bool(true))
           else if l == "false" then Some(Bool(false))
           else if s == "not applicable" then Some(Null)
           else None)
  }

  /** "true" and "false" are recognised in any letter case; only the exact "not applicable" gives null. */
  lemma BooleanSpellings()
    ensures Convert(BooleanKind, Text("TRUE"), s => Null) == Ok(Some(Bool(true)))
    ensures Convert(BooleanKind, Text("False"), s => Null) == Ok(Some(Bool(false)))
    ensures Convert(BooleanKind, Text("Not applicable"), s => Null) == Ok(None)
    ensures Convert(BooleanKind, Text("not applicable"), s => Null) == Ok(Some(Null))
  {
    assert Lower("TRUE") == "true";
    assert Lower("False") == "false";
    assert Lower("Not applicable") == "not applicable";
    assert Lower("not applicable") == "not applicable";
  }

  /** `attributeDefinitions.find(def => def.name === name)`. */
  function FindDefinition(defs: seq<Definition>, name: string): (r: Option<Definition>)
    decreases |defs|
    ensures r.Some? <==> exists i | 0 <= i < |defs| :: defs[i].name == name
    ensures r.Some? ==> r.value in defs && r.value.name == name
  {
    if defs == [] then None
    else if defs[0].name == name then Some(defs[0])
    else
      assert forall i | 1 <= i < |defs| :: defs[i] == defs[1..][i - 1];
      FindDefinition(defs[1..], name)
  }

  /** `find` returns the first definition of the name: no earlier definition has it. */
  lemma {:induction false} FindDefinitionFirst(defs: seq<Definition>, name: string)
    decreases |defs|
    ensures var r := FindDefinition(defs, name);
      r.Some? ==> exists i | 0 <= i < |defs| :: defs[i] == r.value && forall j | 0 <= j < i :: defs[j].name != name
  {
    if defs != [] && defs[0].name != name {
      var t := defs[1..];
      FindDefinitionFirst(t, name);
      var r := FindDefinition(t, name);
      if r.Some? {
        var i :| 0 <= i < |t| && t[i] == r.value && forall j | 0 <= j < i :: t[j].name != name;
        forall j | 0 <= j < i + 1 ensures defs[j].name != name {
          if j > 0 { assert defs[j] == t[j - 1]; }
        }
        assert defs[i + 1] == r.value;
      }
    } else if defs != [] {
      assert defs[0] == FindDefinition(defs, name).value;
    }
  }

  /** `{ ...acc, [k]: v }`: a new key goes last, an existing one keeps its place. */
  function Put<V>(acc: Catalog.Entries<V>, k: string, v: V): (r: Catalog.Entries<V>)
    decreases |acc|
    ensures Catalog.Lookup(r, k) == Some(v)
    ensures forall j | j != k :: Catalog.Lookup(r, j) == Catalog.Lookup(acc, j)
    ensures forall j :: j in Catalog.Keys(r) <==> j in Catalog.Keys(acc) || j == k
  {
    if acc == [] then [(k, v)]
    else
      var n := |acc| - 1;
      assert Catalog.Keys(acc) == Catalog.Keys(acc[..n]) + [acc[n].0];
      if acc[n].0 == k then
        assert Catalog.Keys(acc[..n] + [(k, v)]) == Catalog.Keys(acc[..n]) + [k];
        acc[..n] + [(k, v)]
      else
        var r := Put(acc[..n], k, v) + [acc[n]];
        assert Catalog.Keys(r) == Catalog.Keys(Put(acc[..n], k, v)) + [acc[n].0];
        r
  }

  /** The submitted value of one key, when it has a definition and a defined raw value. */
  function Submitted(values: Catalog.Entries<Option<AttributeValue>>, defs: seq<Definition>, k: string): Option<(Definition, AttributeValue)>
  {
    var def := FindDefinition(defs, k);
    var raw := Catalog.Lookup(values, k);
    if def.Some? && raw.Some? && raw.value.Some? then Some((def.value, raw.value.value)) else None
  }

  /**
   * The submit-time `reduce` over `keys` (recursive from the last key): keys
   * without a definition or without a value are skipped, the others converted;
   * a conversion that throws aborts the submit.
   */
  function Reduce(keys: seq<string>, values: Catalog.Entries<Option<AttributeValue>>, defs: seq<Definition>, toNumber: string -> AttributeValue): (r: Result<Catalog.Entries<Option<AttributeValue>>, TypeError>)
    decreases |keys|
  {
    if keys == [] then Ok([])
    else
      var n := |keys| - 1;
      var acc := Reduce(keys[..n], values, defs, toNumber);
      var k := keys[n];
      if acc.Err? then acc
      else
        var sub := Submitted(values, defs, k);
        if sub.None? then acc
        else
          var c := Convert(sub.value.0.kind, sub.value.1, toNumber);
          if c.Err? then Err(c.error) else Ok(Put(acc.value, k, c.value))
  }

  /** What the reduce makes of one key: `None` when skipped, else the conversion of its raw value. */
  function Outcome(values: Catalog.Entries<Option<AttributeValue>>, defs: seq<Definition>, toNumber: string -> AttributeValue, k: string): Option<Result<Option<AttributeValue>, TypeError>>
  {
    var sub := Submitted(values, defs, k);
    if sub.None? then None else Some(Convert(sub.value.0.kind, sub.value.1, toNumber))
  }

  predicate Throws(values: Catalog.Entries<Option<AttributeValue>>, defs: seq<Definition>, toNumber: string -> AttributeValue, k: string)
  {
    var o := Outcome(values, defs, toNumber, k);
    o.Some? && o.value.Err?
  }

  /** One step of the reduce fails iff the steps before it failed or this key throws. */
  lemma ReduceStep(keys: seq<string>, values: Catalog.Entries<Option<AttributeValue>>, defs: seq<Definition>, toNumber: string -> AttributeValue)
    requires keys != []
    ensures Reduce(keys, values, defs, toNumber).Err? <==>
      Reduce(keys[..|keys| - 1], values, defs, toNumber).Err? || Throws(values, defs, toNumber, keys[|keys| - 1])
  {
  }

  /** The reduce fails iff the conversion of some visited key throws. */
  lemma {:induction false} ReduceFails(keys: seq<string>, values: Catalog.Entries<Option<AttributeValue>>, defs: seq<Definition>, toNumber: string -> AttributeValue)
    decreases |keys|
    ensures Reduce(keys, values, defs, toNumber).Err? <==> exists i | 0 <= i < |keys| :: Throws(values, defs, toNumber, keys[i])
  {
    if keys != [] {
      var n := |keys| - 1;
      var prefix := keys[..n];
      ReduceFails(prefix, values, defs, toNumber);
      ReduceStep(keys, values, defs, toNumber);
      if Reduce(prefix, values, defs, toNumber).Err? {
        var i :| 0 <= i < n && Throws(values, defs, toNumber, prefix[i]);
        assert prefix[i] == keys[i];
      } else if Throws(values, defs, toNumber, keys[n]) {
        assert Reduce(keys, values, defs, toNumber).Err?;
      } else {
        forall i | 0 <= i < |keys|
          ensures !Throws(values, defs, toNumber, keys[i])
        {
          if i < n {
            assert prefix[i] == keys[i];
          }
        }
      }
    }
  }

  /** A reduce that succeeds holds exactly the visited keys that are not skipped, each with its converted value. */
  lemma {:induction false} ReduceHolds(keys: seq<string>, values: Catalog.Entries<Option<AttributeValue>>, defs: seq<Definition>, toNumber: string -> AttributeValue, k: string)
    requires Reduce(keys, values, defs, toNumber).Ok?
    decreases |keys|
    ensures var r := Reduce(keys, values, defs, toNumber).value;
      && (k in Catalog.Keys(r) <==> k in keys && Outcome(values, defs, toNumber, k).Some?)
      && (k in Catalog.Keys(r) ==> Outcome(values, defs, toNumber, k) == Some(Ok(Catalog.Lookup(r, k).value)))
  {
    if keys != [] {
      var n := |keys| - 1;
      assert forall j :: j in keys <==> j in keys[..n] || j == keys[n];
      ReduceHolds(keys[..n], values, defs, toNumber, k);
    }
  }

  /** `onSubmit(valuesWithCorrectType)`: the reduce over `Object.keys(values)`. */
  function SubmitValues(values: Catalog.Entries<Option<AttributeValue>>, defs: seq<Definition>, toNumber: string -> AttributeValue): Result<Catalog.Entries<Option<AttributeValue>>, TypeError>
  {
    Reduce(Catalog.Keys(values), values, defs, toNumber)
  }

  /** Submitting fails iff a defined, filled-in boolean attribute holds a number or a date. */
  lemma SubmitFails(values: Catalog.Entries<Option<AttributeValue>>, defs: seq<Definition>, toNumber: string -> AttributeValue)
    ensures SubmitValues(values, defs, toNumber).Err? <==>
      exists k | k in Catalog.Keys(values) :: Throws(values, defs, toNumber, k)
  {
    var ks := Catalog.Keys(values);
    ReduceFails(ks, values, defs, toNumber);
    if exists k | k in ks :: Throws(values, defs, toNumber, k) {
      var k :| k in ks && Throws(values, defs, toNumber, k);
      var i :| 0 <= i < |ks| && ks[i] == k;
    }
  }

  /** A key is thrown by `Throws` only when it is defined as a boolean and its raw value is a number or a date. */
  lemma ThrowsMeaning(values: Catalog.Entries<Option<AttributeValue>>, defs: seq<Definition>, toNumber: string -> AttributeValue, k: string)
    ensures Throws(values, defs, toNumber, k) <==>
      && FindDefinition(defs, k).Some? && FindDefinition(defs, k).value.kind == BooleanKind
      && Catalog.Lookup(values, k).Some? && Catalog.Lookup(values, k).value.Some?
      && (Catalog.Lookup(values, k).value.value.Number? || Catalog.Lookup(values, k).value.value.Date?)
  {
  }

  /** A submitted object has only defined, filled-in keys, each holding its converted raw value. */
  lemma SubmitKeepsDefinedKeys(values: Catalog.Entries<Option<AttributeValue>>, defs: seq<Definition>, toNumber: string -> AttributeValue, k: string)
    requires SubmitValues(values, defs, toNumber).Ok?
    ensures var r := SubmitValues(values, defs, toNumber).value;
      && (k in Catalog.Keys(r) <==>
            (exists i | 0 <= i < |defs| :: defs[i].name == k) && Catalog.Lookup(values, k).Some? && Catalog.Lookup(values, k).value.Some?)
      && (k in Catalog.Keys(r) ==>
            Convert(FindDefinition(defs, k).value.kind, Catalog.Lookup(values, k).value.value, toNumber) == Ok(Catalog.Lookup(r, k).value))
  {
    ReduceHolds(Catalog.Keys(values), values, defs, toNumber, k);
  }
}
