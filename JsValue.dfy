/** JavaScript values as the parser observes them: through `typeof`,
    `Array.isArray` and a property read `data[prop]`. */
module JsValue {

  datatype Option<+T> = None | Some(value: T)

  /** An untyped value, e.g. the result of decoding a JSON document. */
  datatype Value =
    | Undefined
    | Null
    | Str(s: string)
      /** a JavaScript number, kept as its IEEE-754 binary64 bit pattern; the parser never inspects it */
    | Num(bits: bv64)
    | Bool(b: bool)
    | Arr(items: seq<Value>)
    | Obj(fields: map<string, Value>)
      /** a callable; only its identity matters */
    | Func(id: nat)

  /** The JavaScript `typeof` operator. */
  function TypeOf(v: Value): (t: string)
    ensures t in {"undefined", "object", "string", "number", "boolean", "function"}
    ensures t == "object" <==> v.Null? || v.Arr? || v.Obj?
  {
    match v
    case Undefined => "undefined"
    case Null => "object"
    case Str(_) => "string"
    case Num(_) => "number"
    case Bool(_) => "boolean"
    case Arr(_) => "object"
    case Obj(_) => "object"
    case Func(_) => "function"
  }

  /** `typeof v` names exactly one variant, except "object", which is shared by
      `null`, arrays and plain objects. */
  lemma TypeOfDiscriminates(v: Value)
    ensures TypeOf(v) == "undefined" <==> v.Undefined?
    ensures TypeOf(v) == "string" <==> v.Str?
    ensures TypeOf(v) == "number" <==> v.Num?
    ensures TypeOf(v) == "boolean" <==> v.Bool?
    ensures TypeOf(v) == "function" <==> v.Func?
    ensures TypeOf(v) == "object" <==> v.Null? || v.Arr? || v.Obj?
  {
  }

  predicate IsDigit(c: char) {
    '0' <= c <= '9'
  }

  predicate AllDigits(p: string) {
    forall k :: 0 <= k < |p| ==> IsDigit(p[k])
  }

  function DigitValue(c: char): (d: nat)
    requires IsDigit(c)
    ensures d < 10
  {
    (c as int) - ('0' as int)
  }

  function DigitChar(d: nat): (c: char)
    requires d < 10
    ensures IsDigit(c) && DigitValue(c) == d
  {
    (('0' as int) + d) as char
  }

  /** The value of a string of decimal digits, most significant first. */
  function ParseDecimal(p: string): nat
    requires AllDigits(p)
  {
    if |p| == 0 then 0 else 10 * ParseDecimal(p[..|p| - 1]) + DigitValue(p[|p| - 1])
  }

  /** The decimal spelling of `n` that JavaScript's ToString produces. */
  function DecimalString(n: nat): (p: string)
    ensures |p| > 0 && AllDigits(p)
    ensures p[0] != '0' || p == "0"
  {
    if n < 10 then [DigitChar(n)] else DecimalString(n / 10) + [DigitChar(n % 10)]
  }

  /** The largest array index of ECMAScript: 2^32 - 2. */
  const MaxArrayIndex: nat := 0xFFFF_FFFE

  /** `p` is an array index when it is the canonical decimal spelling of a
      number no larger than MaxArrayIndex: no sign, no leading zero. */
  function ArrayIndex(p: string): Option<nat> {
    if |p| > 0 && AllDigits(p) && (p[0] != '0' || p == "0") && ParseDecimal(p) <= MaxArrayIndex
    then Some(ParseDecimal(p))
    else None
  }

  lemma {:induction false} ParseDecimalString(n: nat)
    ensures ParseDecimal(DecimalString(n)) == n
  {
    var p := DecimalString(n);
    if n >= 10 {
      ParseDecimalString(n / 10);
      assert p[..|p| - 1] == DecimalString(n / 10);
    }
  }

  lemma {:induction false} LeadingNonZeroIsPositive(p: string)
    requires |p| > 0 && AllDigits(p) && p[0] != '0'
    ensures ParseDecimal(p) > 0
  {
    if |p| > 1 {
      LeadingNonZeroIsPositive(p[..|p| - 1]);
    }
  }

  lemma {:induction false} DecimalStringOfParse(p: string)
    requires |p| > 0 && AllDigits(p) && (p[0] != '0' || p == "0")
    ensures DecimalString(ParseDecimal(p)) == p
  {
    if |p| > 1 {
      var q := p[..|p| - 1];
      LeadingNonZeroIsPositive(q);
      DecimalStringOfParse(q);
      assert p == q + [p[|p| - 1]];
    }
  }

  /** Array indices are exactly the canonical spellings of 0 .. MaxArrayIndex. */
  lemma ArrayIndexIsCanonical(p: string, n: nat)
    ensures ArrayIndex(p) == Some(n) <==> n <= MaxArrayIndex && p == DecimalString(n)
  {
    if ArrayIndex(p) == Some(n) {
      DecimalStringOfParse(p);
    }
    if n <= MaxArrayIndex && p == DecimalString(n) {
      ParseDecimalString(n);
    }
  }

  /** Every canonical spelling of an index is recognised as that index. */
  lemma SpellingIsIndex(prop: string)
    ensures forall j: nat :: j <= MaxArrayIndex && prop == DecimalString(j) ==> ArrayIndex(prop) == Some(j)
  {
    forall j: nat | j <= MaxArrayIndex && prop == DecimalString(j)
      ensures ArrayIndex(prop) == Some(j)
    {
      ArrayIndexIsCanonical(prop, j);
    }
  }

  /** The reading `root[prop]`: on a plain object one of its own properties,
      on an array one of its index properties, and `undefined` when there is
      none. */
  function Property(root: Value, prop: string): (v: Value)
    requires root.Arr? || root.Obj?
    ensures root.Obj? ==> v == (if prop in root.fields then root.fields[prop] else Undefined)
    ensures root.Arr? ==>
              forall i :: 0 <= i < |root.items| && i <= MaxArrayIndex && prop == DecimalString(i) ==> v == root.items[i]
    ensures root.Arr? && v != Undefined ==>
              exists i :: 0 <= i < |root.items| && i <= MaxArrayIndex && prop == DecimalString(i) && v == root.items[i]
  {
    match root
    case Obj(fields) => if prop in fields then fields[prop] else Undefined
    case Arr(items) =>
      SpellingIsIndex(prop);
      match ArrayIndex(prop)
      case Some(i) =>
        ArrayIndexIsCanonical(prop, i);
        if i < |items| then items[i] else Undefined
      case None => Undefined
  }

  /** Reading an array with the decimal spelling of an index in range gives
      that element; any other name reads as `undefined`. */
  lemma ArrayPropertyAt(items: seq<Value>, prop: string)
    requires |items| <= MaxArrayIndex + 1
    ensures forall i :: 0 <= i < |items| && prop == DecimalString(i) ==> Property(Arr(items), prop) == items[i]
    ensures (forall i :: 0 <= i < |items| ==> prop != DecimalString(i)) ==> Property(Arr(items), prop) == Undefined
  {
    forall i | 0 <= i < |items| && prop == DecimalString(i)
      ensures Property(Arr(items), prop) == items[i]
    {
      ArrayIndexIsCanonical(prop, i);
    }
    if ArrayIndex(prop).Some? {
      ArrayIndexIsCanonical(prop, ArrayIndex(prop).value);
    }
  }
}
