// The predefined variable types of the scripting language: their names,
// which type may be assigned from which, the parsing of type keywords, the
// typing of host values and the conversion of a host value to a type.

module C4Types {
  import opened Common

  datatype C4Type = UNKNOWN | ANY | BOOL | INT | ID | STRING | ARRAY | OBJECT | REFERENCE | PROPLIST

  /** The enum constant's name, as the host language prints it. */
  function EnumName(t: C4Type): string
  {
    match t
    case UNKNOWN => "UNKNOWN"
    case ANY => "ANY"
    case BOOL => "BOOL"
    case INT => "INT"
    case ID => "ID"
    case STRING => "STRING"
    case ARRAY => "ARRAY"
    case OBJECT => "OBJECT"
    case REFERENCE => "REFERENCE"
    case PROPLIST => "PROPLIST"
  }

  /** The lower-cased constant name, which `toString` caches. */
  function LowercaseName(t: C4Type): string
  {
    match t
    case UNKNOWN => "unknown"
    case ANY => "any"
    case BOOL => "bool"
    case INT => "int"
    case ID => "id"
    case STRING => "string"
    case ARRAY => "array"
    case OBJECT => "object"
    case REFERENCE => "reference"
    case PROPLIST => "proplist"
  }

  /** The cached name is the constant name lower-cased. */
  lemma LowercaseNameIsLowerCase(t: C4Type)
    ensures LowercaseName(t) == ToLower(EnumName(t))
  {
    var u := EnumName(t);
    var l := LowercaseName(t);
    assert |l| == |u|;
    forall k | 0 <= k < |u|
      ensures l[k] == ToLowerChar(u[k])
    {
    }
  }

  /**
   * `toString(special)`: the lower-cased constant name, except that a
   * reference prints as `&` unless the special spelling is asked for.
   */
  function ToString(t: C4Type, special: bool): string
  {
    if !special && t == REFERENCE then "&" else LowercaseName(t)
  }

  /** The types `makeType` recognises by their printed name. */
  const OFFICIAL_TYPES: seq<C4Type> := [BOOL, INT, ID, STRING, ARRAY, OBJECT, PROPLIST]

  /** The first of `types` whose printed name is `arg`. */
  function FindByName(types: seq<C4Type>, arg: string): (r: Option<C4Type>)
    ensures r.Some? ==> r.value in types && ToString(r.value, false) == arg
    ensures r.None? ==> forall t :: t in types ==> ToString(t, false) != arg
  {
    if types == [] then None
    else if ToString(types[0], false) == arg then Some(types[0])
    else FindByName(types[1..], arg)
  }

  /**
   * `makeType(arg, allowSpecial)`: an official type by its name; with
   * `allowSpecial`, also "dword" (the former DWORD, now INT), "any" and
   * "reference"; "&" always; anything else is UNKNOWN.
   */
  function MakeType(arg: string, allowSpecial: bool): (r: C4Type)
    ensures r in OFFICIAL_TYPES ==> ToString(r, false) == arg || (allowSpecial && r == INT && arg == "dword")
    ensures r == ANY ==> allowSpecial && arg == "any"
    ensures r == REFERENCE ==> arg == "&" || (allowSpecial && arg == "reference")
  {
    match FindByName(OFFICIAL_TYPES, arg)
    case Some(t) => t
    case None =>
      if allowSpecial && arg == "dword" then INT
      else if allowSpecial && arg == "any" then ANY
      else if arg == "&" || (allowSpecial && arg == "reference") then REFERENCE
      else UNKNOWN
  }

  /**
   * Parsing a printed type gives the type back, for every type but ANY,
   * which is only recognised with the special spellings allowed.
   */
  lemma MakeTypeOfToString(t: C4Type, allowSpecial: bool)
    ensures t != ANY || allowSpecial ==> MakeType(ToString(t, false), allowSpecial) == t
    ensures t == ANY && !allowSpecial ==> MakeType(ToString(t, false), allowSpecial) == UNKNOWN
  {
  }

  /** With the special spellings allowed, the special printing of every type parses back to it. */
  lemma MakeTypeOfSpecialToString(t: C4Type)
    ensures MakeType(ToString(t, true), true) == t
  {
    if t == REFERENCE {
      assert MakeType("reference", true) == REFERENCE;
    } else {
      assert ToString(t, true) == ToString(t, false);
      MakeTypeOfToString(t, true);
    }
  }

  /** A string that names no type and is not a special spelling parses as UNKNOWN. */
  lemma MakeTypeOfUnknownName(arg: string, allowSpecial: bool)
    requires forall t :: t != UNKNOWN ==> arg != ToString(t, false) && arg != ToString(t, true)
    requires arg != "dword"
    ensures MakeType(arg, allowSpecial) == UNKNOWN
  {
    assert arg != ToString(ANY, false) && arg != ToString(REFERENCE, true);
  }

  /** `canBeAssignedFrom`: whether a value of type `other` may be stored where `target` is expected. */
  predicate CanBeAssignedFrom(target: C4Type, other: C4Type)
  {
    if other == target then true
    else match other
      case UNKNOWN | ANY | REFERENCE => true
      case _ =>
        match target
        case ANY | UNKNOWN | REFERENCE | BOOL => true
        case INT => other == BOOL
        case PROPLIST => other == ID || other == OBJECT
        case _ => false
  }

  /** The assignability rules, stated as a whole. */
  lemma AssignabilityRules(target: C4Type, other: C4Type)
    ensures CanBeAssignedFrom(target, target)
    ensures other in {UNKNOWN, ANY, REFERENCE} ==> CanBeAssignedFrom(target, other)
    ensures target in {ANY, UNKNOWN, REFERENCE, BOOL} ==> CanBeAssignedFrom(target, other)
    ensures target == INT ==> (CanBeAssignedFrom(INT, other) <==> other in {INT, BOOL, UNKNOWN, ANY, REFERENCE})
    ensures target == PROPLIST ==> (CanBeAssignedFrom(PROPLIST, other) <==> other in {PROPLIST, ID, OBJECT, UNKNOWN, ANY, REFERENCE})
    ensures target in {ID, STRING, ARRAY, OBJECT} ==>
      (CanBeAssignedFrom(target, other) <==> other in {target, UNKNOWN, ANY, REFERENCE})
  {
  }

  /**
   * A host value handed to `typeFrom` and `convert`: null, a string, a
   * number (an integer of any width; `intValue` keeps its low 32 bits), a
   * boolean, a definition id, an array, a map, or any other object.
   */
  datatype HostValue =
    | Null
    | Str(s: string)
    | Number(n: int)
    | Boolean(b: bool)
    | IdValue(id: string)
    | ArrayValue(elements: seq<HostValue>)
    | MapValue(entries: seq<(HostValue, HostValue)>)
    | OtherObject

  /**
   * `typeFrom(value)` as written. Its array test asks whether the value is
   * an instance of `java.lang.reflect.Array`, a class of static helpers of
   * which no instance exists, so arrays fall through to ANY.
   */
  function TypeFromAsWritten(value: HostValue): (r: C4Type)
    ensures value.ArrayValue? ==> r == ANY
  {
    match value
    case Str(_) => STRING
    case Number(_) => INT
    case Boolean(_) => BOOL
    case IdValue(_) => ID
    case MapValue(_) => PROPLIST
    case _ => ANY
  }

  /** `typeFrom(value)` with the array test meaning what it evidently means. */
  function TypeFrom(value: HostValue): (r: C4Type)
    ensures value.ArrayValue? ==> r == ARRAY
    ensures r != ARRAY ==> r == TypeFromAsWritten(value)
    ensures r == ANY <==> value.Null? || value.OtherObject?
  {
    match value
    case Str(_) => STRING
    case Number(_) => INT
    case Boolean(_) => BOOL
    case IdValue(_) => ID
    case ArrayValue(_) => ARRAY
    case MapValue(_) => PROPLIST
    case _ => ANY
  }

  /** The value `intValue` gives for a number: its low 32 bits as a signed int. */
  function IntValue(n: int): (r: int)
    ensures IsInt32(r)
    ensures IsInt32(n) ==> r == n
  {
    Wrap32(n)
  }

  /**
   * `convert(value)` for the receiver type `target`, parameterised by the
   * typing function it relies on: values already of the type are returned as
   * they are; numbers become booleans (non-zero) for BOOL; ANY takes any
   * value; every other combination fails.
   */
  function ConvertWith(target: C4Type, value: HostValue, typeOf: HostValue -> C4Type): (r: Option<HostValue>)
    ensures typeOf(value) == target ==> r == Some(value)
    ensures target == ANY ==> r == Some(value)
    ensures r.Some? && r.value != value ==> target == BOOL && typeOf(value) == INT && value.Number?
  {
    var valueType := typeOf(value);
    if valueType == target then Some(value)
    else if target == BOOL && valueType == INT && value.Number? then Some(Boolean(IntValue(value.n) != 0))
    else if target == ANY then Some(value)
    else None
  }

  /** `convert` as written, on top of `typeFromAsWritten`. */
  function ConvertAsWritten(target: C4Type, value: HostValue): (r: Option<HostValue>)
    ensures target == ANY ==> r == Some(value)
  {
    ConvertWith(target, value, TypeFromAsWritten)
  }

  /** `convert` on top of the corrected `typeFrom`. */
  function Convert(target: C4Type, value: HostValue): (r: Option<HostValue>)
    ensures target == ANY ==> r == Some(value)
  {
    ConvertWith(target, value, TypeFrom)
  }

  /** Converting an array to ARRAY fails as written, because arrays are typed ANY. */
  lemma ArrayConversionFailsAsWritten(elements: seq<HostValue>)
    ensures TypeFromAsWritten(ArrayValue(elements)) == ANY
    ensures ConvertAsWritten(ARRAY, ArrayValue(elements)).None?
  {
  }

  /** With the corrected typing every value converts to its own type unchanged. */
  lemma ConvertToOwnType(value: HostValue)
    ensures Convert(TypeFrom(value), value) == Some(value)
  {
  }

  /** Conversion to BOOL: booleans stay, numbers become "non-zero", everything else but null-like values fails. */
  lemma ConvertToBool(value: HostValue)
    ensures value.Boolean? ==> Convert(BOOL, value) == Some(value)
    ensures value.Number? ==> Convert(BOOL, value) == Some(Boolean(IntValue(value.n) != 0))
    ensures !value.Boolean? && !value.Number? ==> Convert(BOOL, value).None?
  {
  }

  /** A successful conversion yields a value the target type accepts. */
  lemma ConvertedValueFits(target: C4Type, value: HostValue)
    requires Convert(target, value).Some?
    ensures CanBeAssignedFrom(target, TypeFrom(Convert(target, value).value))
  {
  }
}
