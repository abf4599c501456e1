// Script directives such as `#strict`, `#include ID` and `#appendto ID`:
// their kinds, how a kind is named and how a directive is printed.

module Directives {
  import opened Common

  datatype DirectiveType = STRICT | INCLUDE | APPENDTO

  /** `C4DirectiveType.values()`, in declaration order. */
  const VALUES: seq<DirectiveType> := [STRICT, INCLUDE, APPENDTO]

  /** `d.ordinal()`: the position of `d` among the values. */
  function Ordinal(d: DirectiveType): (r: nat)
    ensures r < |VALUES| && VALUES[r] == d
  {
    match d
    case STRICT => 0
    case INCLUDE => 1
    case APPENDTO => 2
  }

  /** The enum constant's name, as the host language prints it. */
  function EnumName(d: DirectiveType): string
  {
    match d
    case STRICT => "STRICT"
    case INCLUDE => "INCLUDE"
    case APPENDTO => "APPENDTO"
  }

  /** `toString()`: the cached lower-cased constant name. */
  function ToString(d: DirectiveType): string
  {
    match d
    case STRICT => "strict"
    case INCLUDE => "include"
    case APPENDTO => "appendto"
  }

  /** The printed kind is the constant name lower-cased. */
  lemma ToStringIsLoweredName(d: DirectiveType)
    ensures ToString(d) == ToLower(EnumName(d))
  {
    var u := EnumName(d);
    var l := ToString(d);
    assert |l| == |u|;
    forall k | 0 <= k < |u|
      ensures l[k] == ToLowerChar(u[k])
    {
    }
  }

  /** The first of `types` printed as `arg`. */
  function FindType(types: seq<DirectiveType>, arg: string): (r: Option<DirectiveType>)
    ensures r.Some? ==> r.value in types && ToString(r.value) == arg
    ensures r.None? <==> forall i :: 0 <= i < |types| ==> ToString(types[i]) != arg
  {
    if types == [] then None
    else if ToString(types[0]) == arg then Some(types[0])
    else FindType(types[1..], arg)
  }

  /** `makeType(arg)`: the kind printed as `arg`, tried in declaration order, or null. */
  method MakeType(arg: string) returns (r: Option<DirectiveType>)
    ensures r == FindType(VALUES, arg)
  {
    var i := 0;
    while i < |VALUES|
      invariant 0 <= i <= |VALUES|
      invariant FindType(VALUES, arg) == FindType(VALUES[i..], arg)
    {
      assert VALUES[i..][1..] == VALUES[i + 1..];
      if ToString(VALUES[i]) == arg {
        return Some(VALUES[i]);
      }
      i := i + 1;
    }
    return None;
  }

  /** `makeType` accepts exactly "strict", "include" and "appendto". */
  lemma MakeTypeAccepts(arg: string)
    ensures FindType(VALUES, arg).Some? <==> arg in {"strict", "include", "appendto"}
  {
    if arg in {"strict", "include", "appendto"} {
      var d := if arg == "strict" then STRICT else if arg == "include" then INCLUDE else APPENDTO;
      assert ToString(VALUES[Ordinal(d)]) == arg;
    }
  }

  /** `makeType` reads every printed kind back as that kind. */
  lemma MakeTypeOfToString(d: DirectiveType)
    ensures FindType(VALUES, ToString(d)) == Some(d)
  {
    assert VALUES[1..] == [INCLUDE, APPENDTO];
    assert VALUES[1..][1..] == [APPENDTO];
    assert FindType([APPENDTO], ToString(d)).Some? ==> d == APPENDTO;
    match d
    case STRICT =>
    case INCLUDE =>
      assert FindType(VALUES[1..], ToString(d)) == Some(INCLUDE);
    case APPENDTO =>
      assert FindType(VALUES[1..][1..], ToString(d)) == Some(APPENDTO);
  }

  /**
   * A directive: its kind and its argument. The kind is None when the
   * directive was made from a string `makeType` did not recognise.
   */
  datatype Directive = Directive(dirType: Option<DirectiveType>, content: Option<string>)

  /** `new Directive(type, content)` with the kind given by its name. */
  function FromStrings(typeName: string, content: Option<string>): (r: Directive)
    ensures r.content == content
    ensures r.dirType.Some? <==> typeName in {"strict", "include", "appendto"}
    ensures r.dirType.Some? ==> ToString(r.dirType.value) == typeName
  {
    MakeTypeAccepts(typeName);
    Directive(FindType(VALUES, typeName), content)
  }

  /** Whether the directive prints an argument: a present, non-empty content. */
  predicate HasArgument(d: Directive)
  {
    d.content.Some? && d.content.value != ""
  }

  /**
   * `toString()`: "#kind argument", or "#kind" without an argument. A
   * directive without a kind makes the source throw NullPointerException;
   * the model requires a kind.
   */
  function Text(d: Directive): (r: string)
    requires d.dirType.Some?
  {
    if HasArgument(d) then "#" + ToString(d.dirType.value) + " " + d.content.value
    else "#" + ToString(d.dirType.value)
  }

  /** `getName()`: the lower-cased constant name of the kind (a directive without one throws in the source). */
  function GetName(d: Directive): (r: string)
    requires d.dirType.Some?
    ensures r == ToLower(EnumName(d.dirType.value))
  {
    ToStringIsLoweredName(d.dirType.value);
    ToString(d.dirType.value)
  }

  /**
   * Reading a printed directive back: after the '#' comes the kind, up to
   * the first space, and after that space the argument.
   */
  function ReadText(text: string): (r: Option<(Option<DirectiveType>, Option<string>)>)
  {
    if text == [] || text[0] != '#' then None
    else
      var space := IndexOfFrom(text, ' ', 1);
      if space < 0 then Some((FindType(VALUES, text[1..]), None))
      else Some((FindType(VALUES, text[1..space]), Some(text[space + 1..])))
  }

  /** A printed directive reads back as its kind and its argument (an empty argument is not printed). */
  lemma ReadTextOfText(d: Directive)
    requires d.dirType.Some?
    ensures ReadText(Text(d)) == Some((d.dirType, if HasArgument(d) then d.content else None))
  {
    var name := ToString(d.dirType.value);
    MakeTypeOfToString(d.dirType.value);
    KindHasNoSpace(d.dirType.value);
    if HasArgument(d) {
      var arg := d.content.value;
      assert Text(d) == "#" + name + (" " + arg);
      KindThenRest(name, " " + arg);
      assert (" " + arg)[1..] == arg;
    } else {
      assert Text(d) == "#" + name + "";
      KindThenRest(name, "");
    }
  }

  /** After "#" and a kind without spaces, the first space (from position 1) is where the rest starts with one. */
  lemma KindThenRest(name: string, rest: string)
    requires forall k :: 0 <= k < |name| ==> name[k] != ' '
    ensures ("#" + name + rest)[1..1 + |name|] == name && ("#" + name + rest)[1 + |name|..] == rest
    ensures rest == [] ==> IndexOfFrom("#" + name + rest, ' ', 1) == -1
    ensures rest != [] && rest[0] == ' ' ==> IndexOfFrom("#" + name + rest, ' ', 1) == 1 + |name|
  {
    var text := "#" + name + rest;
    assert forall k :: 1 <= k < 1 + |name| ==> text[k] == name[k - 1];
    assert text[1..1 + |name|] == name;
    if rest != [] && rest[0] == ' ' {
      assert text[1 + |name|] == ' ';
    }
  }

  /** No printed kind holds a space. */
  lemma KindHasNoSpace(d: DirectiveType)
    ensures forall k :: 0 <= k < |ToString(d)| ==> ToString(d)[k] != ' '
  {
    match d
    case STRICT =>
    case INCLUDE =>
    case APPENDTO =>
  }

  /** `arrayOfDirectiveStrings()`: each kind's printed name at its ordinal. */
  method ArrayOfDirectiveStrings() returns (result: array<string>)
    ensures result.Length == |VALUES|
    ensures forall d :: result[Ordinal(d)] == ToString(d)
  {
    result := new string[|VALUES|];
    var i := 0;
    while i < |VALUES|
      invariant 0 <= i <= |VALUES|
      invariant forall j :: 0 <= j < i ==> result[Ordinal(VALUES[j])] == ToString(VALUES[j])
    {
      result[Ordinal(VALUES[i])] := ToString(VALUES[i]);
      i := i + 1;
    }
  }
}
