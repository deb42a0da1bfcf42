/** Properties of the extractor that relate several getters, or a getter to
    the shape of the wrapped value. */
module ParserLaws {
  import opened JsValue
  import opened UnknownParser
  import IsoTimestamp

  /** Construction accepts exactly the roots whose `typeof` is "object":
      `null`, arrays and plain objects. */
  lemma RootGuard(data: Value, constructorName: string)
    ensures New(data, constructorName).Constructed? <==> data.Null? || data.Arr? || data.Obj?
    ensures data.Undefined? || data.Str? || data.Num? || data.Bool? || data.Func? ==>
              New(data, constructorName) == Rejected(RootNotObject(TypeOf(data), constructorName))
  {
  }

  /** `typeof null === 'object'` lets a `null` root through the constructor,
      but then every getter throws when it reads `null[prop]`, whatever the
      requirement. */
  lemma NullRootFailsEveryGetter(p: Parser, keys: set<string>, prop: string, req: Requirement)
    requires p.data.Null?
    ensures GetArray(p, prop, req) == Threw(CannotReadProperty(prop))
    ensures GetString(p, prop, req) == Threw(CannotReadProperty(prop))
    ensures GetNumber(p, prop, req) == Threw(CannotReadProperty(prop))
    ensures GetBoolean(p, prop, req) == Threw(CannotReadProperty(prop))
    ensures GetIsoDate(p, prop, req) == Threw(CannotReadProperty(prop))
    ensures GetStringAsEnumKey(p, keys, prop, req) == Threw(CannotReadProperty(prop))
    ensures GetArrayOfEnumKeys(p, keys, prop, req) == Threw(CannotReadProperty(prop))
  {
  }

  /** An optional call on a field that reads as `undefined` yields
      `undefined` and never throws, for every getter. */
  lemma OptionalUndefinedIsAbsent(p: Parser, keys: set<string>, prop: string)
    requires Field(p, prop) == Some(Undefined)
    ensures GetArray(p, prop, Optional) == Absent
    ensures GetString(p, prop, Optional) == Absent
    ensures GetNumber(p, prop, Optional) == Absent
    ensures GetBoolean(p, prop, Optional) == Absent
    ensures GetIsoDate(p, prop, Optional) == Absent
    ensures GetStringAsEnumKey(p, keys, prop, Optional) == Absent
    ensures GetArrayOfEnumKeys(p, keys, prop, Optional) == Absent
  {
  }

  /** A `'REQUIRED'` call never yields `undefined`, and on a missing field it
      throws. */
  lemma RequiredNeverAbsent(p: Parser, keys: set<string>, prop: string)
    ensures !GetArray(p, prop, Required).Absent?
    ensures !GetString(p, prop, Required).Absent?
    ensures !GetNumber(p, prop, Required).Absent?
    ensures !GetBoolean(p, prop, Required).Absent?
    ensures !GetIsoDate(p, prop, Required).Absent?
    ensures !GetStringAsEnumKey(p, keys, prop, Required).Absent?
    ensures !GetArrayOfEnumKeys(p, keys, prop, Required).Absent?
    ensures Field(p, prop) == Some(Undefined) ==>
              && GetArray(p, prop, Required) == Threw(NotAssignable(prop, "undefined", "array"))
              && GetString(p, prop, Required) == Threw(NotAssignable(prop, "undefined", "string"))
              && GetNumber(p, prop, Required) == Threw(NotAssignable(prop, "undefined", "number"))
              && GetBoolean(p, prop, Required) == Threw(NotAssignable(prop, "undefined", "boolean"))
              && GetIsoDate(p, prop, Required) == Threw(NotParsableAsDate(prop, "undefined"))
              && GetStringAsEnumKey(p, keys, prop, Required) == Threw(NotAssignableAsEnumKey(prop, "undefined"))
              && GetArrayOfEnumKeys(p, keys, prop, Required) == Threw(NotAssignable(prop, "undefined", "array"))
  {
  }

  /** Only `undefined` counts as missing: a field holding `null` is present,
      so every getter that checks it throws, required or not. */
  lemma NullFieldIsPresent(p: Parser, keys: set<string>, prop: string, req: Requirement)
    requires Field(p, prop) == Some(Null)
    ensures GetArray(p, prop, req) == Threw(NotAssignable(prop, "object", "array"))
    ensures GetString(p, prop, req) == Threw(NotAssignable(prop, "object", "string"))
    ensures GetNumber(p, prop, req) == Threw(NotAssignable(prop, "object", "number"))
    ensures GetBoolean(p, prop, req) == Threw(NotAssignable(prop, "object", "boolean"))
    ensures GetIsoDate(p, prop, req) == Threw(NotParsableAsDate(prop, "object"))
    ensures GetArrayOfEnumKeys(p, keys, prop, req) == Threw(NotAssignable(prop, "object", "array"))
    ensures req == Required ==> GetStringAsEnumKey(p, keys, prop, req) == Threw(NotAssignableAsEnumKey(prop, "object"))
  {
  }

  function Succeeded<T>(o: Outcome<T>): nat {
    if o.Got? then 1 else 0
  }

  /** No coercion: at most one of the typed getters accepts a given field. */
  lemma NoCoercion(p: Parser, prop: string, req: Requirement)
    ensures Succeeded(GetString(p, prop, req)) + Succeeded(GetNumber(p, prop, req))
          + Succeeded(GetBoolean(p, prop, req)) + Succeeded(GetArray(p, prop, req)) <= 1
  {
  }

  /** Once the gate is passed, each primitive getter returns the field's value
      unchanged exactly when its `typeof` matches, and throws otherwise. */
  lemma PrimitivesReturnUnchanged(p: Parser, prop: string, req: Requirement, v: Value)
    requires Field(p, prop) == Some(v) && Checked(req, v)
    ensures forall x :: GetString(p, prop, req) == Got(x) <==> v == Str(x)
    ensures forall x :: GetNumber(p, prop, req) == Got(x) <==> v == Num(x)
    ensures forall x :: GetBoolean(p, prop, req) == Got(x) <==> v == Bool(x)
    ensures !v.Str? ==> GetString(p, prop, req).Threw?
    ensures !v.Num? ==> GetNumber(p, prop, req).Threw?
    ensures !v.Bool? ==> GetBoolean(p, prop, req).Threw?
  {
  }

  /** `getArray` accepts exactly the values for which `Array.isArray` holds,
      and returns the array itself without looking at its elements. */
  lemma ArrayReturnsUnchanged(p: Parser, prop: string, req: Requirement, v: Value)
    requires Field(p, prop) == Some(v) && Checked(req, v)
    ensures forall xs :: GetArray(p, prop, req) == Got(xs) <==> v == Arr(xs)
    ensures !v.Arr? ==> GetArray(p, prop, req) == Threw(NotAssignable(prop, TypeOf(v), "array"))
  {
  }

  /** A getter depends on nothing but the field it reads: two parsers whose
      roots agree on `prop` give the same outcome on every getter, and so a
      repeated call gives the same outcome. */
  lemma ReadsOnlyItsField(p: Parser, q: Parser, keys: set<string>, prop: string, req: Requirement)
    requires Field(p, prop) == Field(q, prop)
    ensures GetArray(p, prop, req) == GetArray(q, prop, req)
    ensures GetString(p, prop, req) == GetString(q, prop, req)
    ensures GetNumber(p, prop, req) == GetNumber(q, prop, req)
    ensures GetBoolean(p, prop, req) == GetBoolean(q, prop, req)
    ensures GetIsoDate(p, prop, req) == GetIsoDate(q, prop, req)
    ensures GetStringAsEnumKey(p, keys, prop, req) == GetStringAsEnumKey(q, keys, prop, req)
    ensures GetArrayOfEnumKeys(p, keys, prop, req) == GetArrayOfEnumKeys(q, keys, prop, req)
  {
  }

  /** The enum-key getter checks only in its required branch: on a field
      holding a valid key a required call returns it, while an optional call
      yields `undefined`; an optional call on an invalid value does not throw. */
  lemma EnumKeyOptionalIsUnchecked(p: Parser, keys: set<string>, prop: string, v: Value)
    requires Field(p, prop) == Some(v)
    ensures GetStringAsEnumKey(p, keys, prop, Optional) == Absent
    ensures IsEnumKey(keys, v) ==> GetStringAsEnumKey(p, keys, prop, Required) == Got(v.s)
    ensures !IsEnumKey(keys, v) ==> GetStringAsEnumKey(p, keys, prop, Required).Threw?
  {
  }

  /** `getArrayOfEnumKeys` succeeds exactly when `getArray` does and every
      element is a string among the keys; it then returns the same array. */
  lemma EnumArrayRefinesArray(p: Parser, keys: set<string>, prop: string, req: Requirement)
    ensures GetArrayOfEnumKeys(p, keys, prop, req).Got? <==>
              GetArray(p, prop, req).Got?
              && forall i :: 0 <= i < |GetArray(p, prop, req).value| ==> IsEnumKey(keys, GetArray(p, prop, req).value[i])
    ensures GetArrayOfEnumKeys(p, keys, prop, req).Got? ==>
              var ks := GetArrayOfEnumKeys(p, keys, prop, req).value;
              var items := GetArray(p, prop, req).value;
              |ks| == |items| && forall i :: 0 <= i < |items| ==> items[i] == Str(ks[i]) && ks[i] in keys
    ensures GetArrayOfEnumKeys(p, keys, prop, req).Absent? <==> GetArray(p, prop, req).Absent?
  {
  }

  /** An element that is not a string among the keys makes the whole call
      throw, however many elements before it are valid. */
  lemma AnyBadElementFails(p: Parser, keys: set<string>, prop: string, req: Requirement, items: seq<Value>, i: nat)
    requires Field(p, prop) == Some(Arr(items))
    requires i < |items| && !IsEnumKey(keys, items[i])
    ensures GetArrayOfEnumKeys(p, keys, prop, req).Threw?
  {
  }

  /** The empty array passes both array getters, required or not. */
  lemma EmptyArrayPasses(p: Parser, keys: set<string>, prop: string, req: Requirement)
    requires Field(p, prop) == Some(Arr([]))
    ensures GetArray(p, prop, req) == Got([])
    ensures GetArrayOfEnumKeys(p, keys, prop, req) == Got([])
  {
  }

  /** A date field is accepted exactly when it holds a string containing a
      timestamp; a string with no `T` is rejected as not a valid date. */
  lemma IsoDateNeedsTime(p: Parser, prop: string, req: Requirement, s: string)
    requires Field(p, prop) == Some(Str(s))
    ensures GetIsoDate(p, prop, req) == Got(s) <==> IsoTimestamp.Test(s)
    ensures (forall x :: 0 <= x < |s| ==> s[x] != 'T') ==> GetIsoDate(p, prop, req) == Threw(NotValidDate(prop, s))
  {
  }

  /** The calendar date alone is rejected; out-of-calendar digits in a full
      timestamp are accepted. */
  lemma IsoDateExamples(prop: string)
    ensures GetIsoDate(Parser(Obj(map[prop := Str("2021-04-01")])), prop, Required)
              == Threw(NotValidDate(prop, "2021-04-01"))
    ensures GetIsoDate(Parser(Obj(map[prop := Str("2021-19-39T29:00Z")])), prop, Required)
              == Got("2021-19-39T29:00Z")
  {
    IsoTimestamp.BareDateRejected();
    IsoTimestamp.DigitRangesOnlyAccepted();
  }

  const Numbers: set<string> := {"ONE", "TWO", "THREE"}

  /** (`Num(0)` is the encoding of +0.) Against the keys {ONE, TWO, THREE}: "TWO" is returned, "FOUR" is not a
      key, and ["ONE", "FOUR"] fails on its second element. */
  lemma EnumExamples(prop: string)
    ensures GetStringAsEnumKey(Parser(Obj(map[prop := Str("TWO")])), Numbers, prop, Required) == Got("TWO")
    ensures GetStringAsEnumKey(Parser(Obj(map[prop := Str("FOUR")])), Numbers, prop, Required)
              == Threw(NoMatchingEnumKey(prop, "FOUR"))
    ensures GetArrayOfEnumKeys(Parser(Obj(map[prop := Arr([Str("ONE"), Str("FOUR")])])), Numbers, prop, Required)
              == Threw(ArrayValueNotEnumKey(prop, "string"))
    ensures GetArrayOfEnumKeys(Parser(Obj(map[prop := Arr([Str("ONE"), Num(0)])])), Numbers, prop, Optional)
              == Threw(ArrayValueNotString(prop, "number"))
  {
  }

  /** The string cases of the repository's test suite; `0x405E_C000_0000_0000`
      is the binary64 encoding of 123. */
  lemma StringCases()
    ensures GetString(Parser(Obj(map["reqString" := Str("test")])), "reqString", Required) == Got("test")
    ensures GetString(Parser(Obj(map["str" := Str("non-req")])), "str", Optional) == Got("non-req")
    ensures GetString(Parser(Obj(map["reqNum" := Num(0x405E_C000_0000_0000)])), "reqString", Required).Threw?
    ensures GetString(Parser(Obj(map["reqNum" := Num(0x405E_C000_0000_0000)])), "str", Optional) == Absent
    ensures GetString(Parser(Obj(map["str" := Num(0x405E_C000_0000_0000)])), "str", Optional)
              == Threw(NotAssignable("str", "number", "string"))
  {
  }

  /** On an array root, a field name that spells an index reads that element. */
  lemma ArrayRootIndexRead(items: seq<Value>, i: nat, req: Requirement)
    requires i < |items| <= MaxArrayIndex + 1
    ensures Field(Parser(Arr(items)), DecimalString(i)) == Some(items[i])
    ensures items[i].Str? ==> GetString(Parser(Arr(items)), DecimalString(i), req) == Got(items[i].s)
  {
    ArrayPropertyAt(items, DecimalString(i));
  }
}
