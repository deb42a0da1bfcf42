/** `UnknownParser<T>`: a validating field extractor over an untyped value.

    The parser wraps one value at construction and never changes it, so it is
    a datatype here and every getter is a function of the wrapped value, the
    field name and the `'REQUIRED'` marker. A getter either returns the
    field's value unchanged (`Got`), returns `undefined` (`Absent`), or throws
    a `TypeError` (`Threw`) whose message the `ParseError` tag stands for. */
module UnknownParser {
  import opened JsValue
  import IsoTimestamp

  /** The optional last argument of every getter: `'REQUIRED'` or left out. */
  datatype Requirement = Required | Optional

  /** The `TypeError`s the parser throws, one per message. */
  datatype ParseError =
      /** the root passed to the constructor is not an object */
    | RootNotObject(actual: string, constructorName: string)
      /** the runtime error of reading a property of a `null` root */
    | CannotReadProperty(prop: string)
      /** the field has the wrong `typeof` (or is not an array) */
    | NotAssignable(prop: string, actual: string, expected: string)
    | NotParsableAsDate(prop: string, actual: string)
    | NotValidDate(prop: string, value: string)
    | NotAssignableAsEnumKey(prop: string, actual: string)
    | NoMatchingEnumKey(prop: string, value: string)
    | ArrayValueNotString(prop: string, actual: string)
    | ArrayValueNotEnumKey(prop: string, actual: string)

  /** What a getter yields. */
  datatype Outcome<+T> = Got(value: T) | Absent | Threw(error: ParseError)

  /** What the constructor yields. */
  datatype Construction = Constructed(parser: Parser) | Rejected(error: ParseError)

  /** A value for which `typeof data === 'object'`: `null`, an array or an object. */
  type ObjectValue = v: Value | v.Null? || v.Arr? || v.Obj? witness Null

  /** The parser's only state: the root it was constructed with. */
  datatype Parser = Parser(data: ObjectValue)

  /** `new UnknownParser(data, constructorName)` */
  function New(data: Value, constructorName: string): (r: Construction)
    ensures r.Constructed? <==> TypeOf(data) == "object"
    ensures r.Constructed? ==> r.parser.data == data
    ensures r.Rejected? ==> r.error == RootNotObject(TypeOf(data), constructorName)
  {
    TypeOfDiscriminates(data);
    if TypeOf(data) == "object" then Constructed(Parser(data))
    else Rejected(RootNotObject(TypeOf(data), constructorName))
  }

  /** `this.data[prop]`: `None` stands for the runtime error of reading a
      property of `null`. */
  function Field(p: Parser, prop: string): (r: Option<Value>)
    ensures r.None? <==> p.data.Null?
  {
    if p.data.Null? then None else Some(Property(p.data, prop))
  }

  /** `required === 'REQUIRED' || value !== undefined`: the gate every getter
      but `getStringAsEnumKey` passes before it checks the value. Only
      `undefined` counts as missing. */
  predicate Checked(req: Requirement, v: Value): (checked: bool)
    ensures !checked <==> req == Optional && TypeOf(v) == "undefined"
  {
    req == Required || v != Undefined
  }

  /** `getArray(prop, required?)` */
  function GetArray(p: Parser, prop: string, req: Requirement): (r: Outcome<seq<Value>>)
    ensures Field(p, prop).None? ==> r == Threw(CannotReadProperty(prop))
    ensures Field(p, prop).Some? ==>
              var v := Field(p, prop).value;
              && (r.Absent? <==> req == Optional && v == Undefined)
              && (r.Got? <==> Checked(req, v) && v.Arr?)
              && (r.Got? ==> v == Arr(r.value))
              && (r.Threw? ==> r.error == NotAssignable(prop, TypeOf(v), "array"))
  {
    match Field(p, prop)
    case None => Threw(CannotReadProperty(prop))
    case Some(v) =>
      if !Checked(req, v) then Absent
      else if v.Arr? then Got(v.items)
      else Threw(NotAssignable(prop, TypeOf(v), "array"))
  }

  /** `getString(prop, required?)` */
  function GetString(p: Parser, prop: string, req: Requirement): (r: Outcome<string>)
    ensures Field(p, prop).None? ==> r == Threw(CannotReadProperty(prop))
    ensures Field(p, prop).Some? ==>
              var v := Field(p, prop).value;
              && (r.Absent? <==> req == Optional && v == Undefined)
              && (r.Got? <==> Checked(req, v) && TypeOf(v) == "string")
              && (r.Got? ==> v == Str(r.value))
              && (r.Threw? ==> r.error == NotAssignable(prop, TypeOf(v), "string"))
  {
    match Field(p, prop)
    case None => Threw(CannotReadProperty(prop))
    case Some(v) =>
      if !Checked(req, v) then Absent
      else if v.Str? then Got(v.s)
      else Threw(NotAssignable(prop, TypeOf(v), "string"))
  }

  /** `getNumber(prop, required?)` */
  function GetNumber(p: Parser, prop: string, req: Requirement): (r: Outcome<bv64>)
    ensures Field(p, prop).None? ==> r == Threw(CannotReadProperty(prop))
    ensures Field(p, prop).Some? ==>
              var v := Field(p, prop).value;
              && (r.Absent? <==> req == Optional && v == Undefined)
              && (r.Got? <==> Checked(req, v) && TypeOf(v) == "number")
              && (r.Got? ==> v == Num(r.value))
              && (r.Threw? ==> r.error == NotAssignable(prop, TypeOf(v), "number"))
  {
    match Field(p, prop)
    case None => Threw(CannotReadProperty(prop))
    case Some(v) =>
      if !Checked(req, v) then Absent
      else if v.Num? then Got(v.bits)
      else Threw(NotAssignable(prop, TypeOf(v), "number"))
  }

  /** `getBoolean(prop, required?)` */
  function GetBoolean(p: Parser, prop: string, req: Requirement): (r: Outcome<bool>)
    ensures Field(p, prop).None? ==> r == Threw(CannotReadProperty(prop))
    ensures Field(p, prop).Some? ==>
              var v := Field(p, prop).value;
              && (r.Absent? <==> req == Optional && v == Undefined)
              && (r.Got? <==> Checked(req, v) && TypeOf(v) == "boolean")
              && (r.Got? ==> v == Bool(r.value))
              && (r.Threw? ==> r.error == NotAssignable(prop, TypeOf(v), "boolean"))
  {
    match Field(p, prop)
    case None => Threw(CannotReadProperty(prop))
    case Some(v) =>
      if !Checked(req, v) then Absent
      else if v.Bool? then Got(v.b)
      else Threw(NotAssignable(prop, TypeOf(v), "boolean"))
  }

  /** `getIsoDate(prop, required?)`, returning the accepted string rather than
      the `Date` built from it. */
  function GetIsoDate(p: Parser, prop: string, req: Requirement): (r: Outcome<string>)
    ensures Field(p, prop).None? ==> r == Threw(CannotReadProperty(prop))
    ensures Field(p, prop).Some? ==>
              var v := Field(p, prop).value;
              && (r.Absent? <==> req == Optional && v == Undefined)
              && (r.Got? <==> Checked(req, v) && v.Str? && IsoTimestamp.ContainsTimestamp(v.s))
              && (r.Got? ==> v == Str(r.value))
              && (r.Threw? && !v.Str? ==> r.error == NotParsableAsDate(prop, TypeOf(v)))
              && (r.Threw? && v.Str? ==> r.error == NotValidDate(prop, v.s))
  {
    match Field(p, prop)
    case None => Threw(CannotReadProperty(prop))
    case Some(v) =>
      if !Checked(req, v) then Absent
      else if !v.Str? then Threw(NotParsableAsDate(prop, TypeOf(v)))
      else if !IsoTimestamp.Test(v.s) then Threw(NotValidDate(prop, v.s))
      else Got(v.s)
  }

  /** `getStringAsEnumKey(e, prop, required?)`, with `keys` standing for
      `Object.keys(e)`. The value is checked only when the call is
      `'REQUIRED'`; otherwise the getter yields `undefined` whatever the
      field holds (after the read itself, which throws on a `null` root). */
  function GetStringAsEnumKey(p: Parser, keys: set<string>, prop: string, req: Requirement): (r: Outcome<string>)
    ensures Field(p, prop).None? ==> r == Threw(CannotReadProperty(prop))
    ensures Field(p, prop).Some? ==>
              var v := Field(p, prop).value;
              && (r.Absent? <==> req == Optional)
              && (r.Got? <==> req == Required && v.Str? && v.s in keys)
              && (r.Got? ==> v == Str(r.value))
              && (r.Threw? && !v.Str? ==> r.error == NotAssignableAsEnumKey(prop, TypeOf(v)))
              && (r.Threw? && v.Str? ==> r.error == NoMatchingEnumKey(prop, v.s))
  {
    match Field(p, prop)
    case None => Threw(CannotReadProperty(prop))
    case Some(v) =>
      if req == Required then
        if !v.Str? then Threw(NotAssignableAsEnumKey(prop, TypeOf(v)))
        else if v.s !in keys then Threw(NoMatchingEnumKey(prop, v.s))
        else Got(v.s)
      else Absent
  }

  /** An element the enum-array getter accepts: a string among the keys. */
  predicate IsEnumKey(keys: set<string>, v: Value) {
    v.Str? && v.s in keys
  }

  /** The position of the first element the `forEach` of `getArrayOfEnumKeys`
      would throw on, counting from `from`; `None` when every element passes. */
  function FirstNonKey(items: seq<Value>, keys: set<string>, from: nat): (r: Option<nat>)
    requires from <= |items|
    ensures r.None? <==> forall i :: from <= i < |items| ==> IsEnumKey(keys, items[i])
    ensures r.Some? ==> from <= r.value < |items| && !IsEnumKey(keys, items[r.value])
    ensures r.Some? ==> forall i :: from <= i < r.value ==> IsEnumKey(keys, items[i])
    decreases |items| - from
  {
    if from == |items| then None
    else if !IsEnumKey(keys, items[from]) then Some(from)
    else FirstNonKey(items, keys, from + 1)
  }

  /** The strings of an array whose every element is a string. */
  function Strings(items: seq<Value>): (r: seq<string>)
    requires forall i :: 0 <= i < |items| ==> items[i].Str?
    ensures |r| == |items| && forall i :: 0 <= i < |items| ==> items[i] == Str(r[i])
  {
    if items == [] then [] else [items[0].s] + Strings(items[1..])
  }

  /** `getArrayOfEnumKeys(e, prop, required?)`, with `keys` standing for
      `Object.keys(e)`. The array is returned unchanged (as its strings); the
      error names the first element that is not a string, or not a key. */
  function GetArrayOfEnumKeys(p: Parser, keys: set<string>, prop: string, req: Requirement): (r: Outcome<seq<string>>)
    ensures Field(p, prop).None? ==> r == Threw(CannotReadProperty(prop))
    ensures Field(p, prop).Some? ==>
              var v := Field(p, prop).value;
              && (r.Absent? <==> req == Optional && v == Undefined)
              && (r.Got? <==> Checked(req, v) && v.Arr? && forall i :: 0 <= i < |v.items| ==> IsEnumKey(keys, v.items[i]))
              && (r.Got? ==> |r.value| == |v.items| && forall i :: 0 <= i < |v.items| ==> v.items[i] == Str(r.value[i]))
              && (r.Threw? && !v.Arr? ==> r.error == NotAssignable(prop, TypeOf(v), "array"))
              && (r.Threw? && v.Arr? ==>
                    exists i :: 0 <= i < |v.items| && !IsEnumKey(keys, v.items[i])
                             && (forall j :: 0 <= j < i ==> IsEnumKey(keys, v.items[j]))
                             && r.error == (if v.items[i].Str? then ArrayValueNotEnumKey(prop, "string")
                                            else ArrayValueNotString(prop, TypeOf(v.items[i]))))
  {
    match Field(p, prop)
    case None => Threw(CannotReadProperty(prop))
    case Some(v) =>
      if !Checked(req, v) then Absent
      else if !v.Arr? then Threw(NotAssignable(prop, TypeOf(v), "array"))
      else
        match FirstNonKey(v.items, keys, 0)
        case Some(i) =>
          if !v.items[i].Str? then Threw(ArrayValueNotString(prop, TypeOf(v.items[i])))
          else Threw(ArrayValueNotEnumKey(prop, TypeOf(v.items[i])))
        case None => Got(Strings(v.items))
  }
}
