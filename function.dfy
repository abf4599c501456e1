// Functions of the scripting language: their visibility keywords, their
// parameters and local variables, the lookup of a name among them and the
// printing of a function's signature and header.

module Functions {
  import opened Common
  import opened Keywords
  import C4Types
  import Variables

  datatype FunctionScope = FUNC_GLOBAL | FUNC_PUBLIC | FUNC_PROTECTED | FUNC_PRIVATE

  /** The enum constant's name, as the host language prints it and `valueOf` reads it. */
  function EnumName(s: FunctionScope): (r: string)
    ensures |r| > 5 && r[..5] == "FUNC_"
  {
    match s
    case FUNC_GLOBAL => "FUNC_GLOBAL"
    case FUNC_PUBLIC => "FUNC_PUBLIC"
    case FUNC_PROTECTED => "FUNC_PROTECTED"
    case FUNC_PRIVATE => "FUNC_PRIVATE"
  }

  /** `C4FunctionScope.valueOf(s)`: the constant with that exact name, None where it throws. */
  function ValueOf(s: string): (r: Option<FunctionScope>)
    ensures r.Some? ==> EnumName(r.value) == s
    ensures r.None? ==> forall f: FunctionScope :: EnumName(f) != s
  {
    if s == "FUNC_GLOBAL" then Some(FUNC_GLOBAL)
    else if s == "FUNC_PUBLIC" then Some(FUNC_PUBLIC)
    else if s == "FUNC_PROTECTED" then Some(FUNC_PROTECTED)
    else if s == "FUNC_PRIVATE" then Some(FUNC_PRIVATE)
    else None
  }

  /** The visibility keywords `makeScope` reads before falling back to the constant names. */
  function KeywordScope(s: string): (r: Option<FunctionScope>)
    ensures r.Some? <==> s in {PUBLIC, PROTECTED, PRIVATE, GLOBAL}
  {
    if s == PUBLIC then Some(FUNC_PUBLIC)
    else if s == PROTECTED then Some(FUNC_PROTECTED)
    else if s == PRIVATE then Some(FUNC_PRIVATE)
    else if s == GLOBAL then Some(FUNC_GLOBAL)
    else None
  }

  /**
   * `makeScope(scopeString)` as written: null is public, the four keywords
   * their scopes, a constant name its constant. Any other string reaches
   * `valueOf`, which throws IllegalArgumentException (None here), so the
   * closing `return FUNC_PUBLIC` is never reached.
   */
  function MakeScopeAsWritten(scopeString: Option<string>): (r: Option<FunctionScope>)
    ensures scopeString.None? ==> r == Some(FUNC_PUBLIC)
    ensures scopeString.Some? && KeywordScope(scopeString.value).Some? ==> r == KeywordScope(scopeString.value)
    ensures r.None? <==> scopeString.Some? && KeywordScope(scopeString.value).None? && ValueOf(scopeString.value).None?
  {
    if scopeString.None? then Some(FUNC_PUBLIC)
    else if KeywordScope(scopeString.value).Some? then KeywordScope(scopeString.value)
    else ValueOf(scopeString.value)
  }

  /** `makeScope(scopeString)` as evidently intended: a string naming no scope falls back to public. */
  function MakeScope(scopeString: Option<string>): (r: FunctionScope)
    ensures MakeScopeAsWritten(scopeString).Some? ==> r == MakeScopeAsWritten(scopeString).value
    ensures MakeScopeAsWritten(scopeString).None? ==> r == FUNC_PUBLIC
  {
    match MakeScopeAsWritten(scopeString)
    case Some(s) => s
    case None => FUNC_PUBLIC
  }

  /** As written, a string naming no scope, such as "static", throws instead of giving public. */
  lemma MakeScopeAsWrittenThrows()
    ensures MakeScopeAsWritten(Some("static")).None?
    ensures MakeScope(Some("static")) == FUNC_PUBLIC
  {
    assert EnumName(FUNC_GLOBAL) != "static";
  }

  /** `toString()`, which caches the constant name without its "FUNC_" prefix, lower-cased. */
  function ToString(s: FunctionScope): string
  {
    match s
    case FUNC_GLOBAL => GLOBAL
    case FUNC_PUBLIC => PUBLIC
    case FUNC_PROTECTED => PROTECTED
    case FUNC_PRIVATE => PRIVATE
  }

  /** The printed scope is the constant name without "FUNC_", lower-cased: the visibility keyword. */
  lemma ToStringIsLoweredName(s: FunctionScope)
    ensures ToString(s) == ToLower(EnumName(s)[5..])
  {
    var u := EnumName(s)[5..];
    var l := ToString(s);
    assert |l| == |u|;
    forall k | 0 <= k < |u|
      ensures l[k] == ToLowerChar(u[k])
    {
    }
  }

  /** Every scope printed by `toString` is read back by `makeScope` as itself (also as written). */
  lemma MakeScopeOfToString(s: FunctionScope)
    ensures MakeScopeAsWritten(Some(ToString(s))) == Some(s)
    ensures MakeScope(Some(ToString(s))) == s
  {
  }

  /** The outcome of `findVariable`: the shared `this` variable, a declared variable, or null. */
  datatype Found = ThisVariable | Declared(v: Variables.C4Variable) | NotFound

  /** The first variable of `vars` named `name`. */
  function FirstNamed(vars: seq<Variables.C4Variable>, name: string): (r: Option<Variables.C4Variable>)
    ensures r.Some? ==> r.value in vars && r.value.name == name
    ensures r.None? <==> forall i :: 0 <= i < |vars| ==> vars[i].name != name
  {
    if vars == [] then None
    else if vars[0].name == name then Some(vars[0])
    else FirstNamed(vars[1..], name)
  }

  /**
   * What `findVariable(name)` finds: "this" is the shared `this` variable;
   * otherwise the first local variable of that name, then the first
   * parameter, else nothing.
   */
  function Resolve(name: string, localVars: seq<Variables.C4Variable>, parameters: seq<Variables.C4Variable>): (r: Found)
    ensures r == ThisVariable <==> name == "this"
    ensures r.Declared? ==> r.v.name == name && (r.v in localVars || r.v in parameters)
    ensures r == NotFound <==>
      (&& name != "this"
       && (forall i :: 0 <= i < |localVars| ==> localVars[i].name != name)
       && (forall i :: 0 <= i < |parameters| ==> parameters[i].name != name))
  {
    if name == "this" then ThisVariable
    else match FirstNamed(localVars, name)
      case Some(v) => Declared(v)
      case None =>
        match FirstNamed(parameters, name)
        case Some(p) => Declared(p)
        case None => NotFound
  }

  /** A local variable hides a parameter of the same name. */
  lemma LocalsShadowParameters(name: string, localVars: seq<Variables.C4Variable>, parameters: seq<Variables.C4Variable>, i: int)
    requires name != "this"
    requires 0 <= i < |localVars| && localVars[i].name == name
    ensures Resolve(name, localVars, parameters).Declared?
    ensures Resolve(name, localVars, parameters).v in localVars
  {
  }

  /** A parameter is found when no local variable carries its name. */
  lemma ParameterFoundWithoutLocal(name: string, localVars: seq<Variables.C4Variable>, parameters: seq<Variables.C4Variable>, i: int)
    requires name != "this"
    requires forall j :: 0 <= j < |localVars| ==> localVars[j].name != name
    requires 0 <= i < |parameters| && parameters[i].name == name
    ensures Resolve(name, localVars, parameters).Declared?
    ensures Resolve(name, localVars, parameters).v in parameters
  {
  }

  /** How one parameter is printed: "type name" when it has a known type, else "name". */
  function ParameterText(p: Variables.C4Variable): (r: string)
    reads p
  {
    if p.varType.Some? && p.varType.value != C4Types.UNKNOWN then C4Types.ToString(p.varType.value, false) + " " + p.name
    else p.name
  }

  /** The printed parameters, in order. */
  function ParameterTexts(ps: seq<Variables.C4Variable>): (r: seq<string>)
    reads ps
    ensures |r| == |ps|
  {
    if ps == [] then [] else ParameterTexts(ps[..|ps| - 1]) + [ParameterText(ps[|ps| - 1])]
  }

  /** The parameter list as it should read: the printed parameters separated by ", ". */
  function ParameterList(ps: seq<Variables.C4Variable>): string
    reads ps
  {
    Join(ParameterTexts(ps), ", ")
  }

  /** What the loop of `printParameterString` appends: each printed parameter followed by ", ". */
  function Appended(ps: seq<Variables.C4Variable>): string
    reads ps
  {
    if ps == [] then "" else Appended(ps[..|ps| - 1]) + ParameterText(ps[|ps| - 1]) + ", "
  }

  /** One more turn of the loop appends the next parameter and ", ". */
  lemma AppendedStep(ps: seq<Variables.C4Variable>, i: int)
    requires 0 <= i < |ps|
    ensures Appended(ps[..i + 1]) == Appended(ps[..i]) + ParameterText(ps[i]) + ", "
  {
    assert ps[..i + 1][..i] == ps[..i];
  }

  /** Appending a text and ", " to a prefixed string extends what follows the prefix. */
  lemma AppendThenSeparate(output: string, acc: string, text: string)
    ensures output + (acc + text + ", ") == output + acc + text + ", "
  {
  }

  /** The loop leaves the parameter list followed by one ", ", the two characters the source then deletes. */
  lemma {:induction false} AppendedIsListAndSeparator(ps: seq<Variables.C4Variable>)
    requires ps != []
    ensures Appended(ps) == ParameterList(ps) + ", "
  {
    var n := |ps|;
    var front := ps[..n - 1];
    if n > 1 {
      AppendedIsListAndSeparator(front);
      JoinAppend(ParameterTexts(front), ParameterText(ps[n - 1]), ", ");
    } else {
      assert ParameterTexts(ps) == [ParameterText(ps[0])];
    }
  }

  /** Each variable created by `createParameters(num)`: "par" and its number. */
  function ParameterName(i: int): (r: string)
    ensures |r| > 3 && r[..3] == "par" && r[3..] == IntToString(i)
  {
    "par" + IntToString(i)
  }

  /** Created parameters have distinct names. */
  lemma ParameterNamesDistinct(i: int, j: int)
    requires IsInt32(i) && IsInt32(j) && i != j
    ensures ParameterName(i) != ParameterName(j)
  {
    ParseIntOfIntToString(i);
    ParseIntOfIntToString(j);
  }

  class C4Function {
    const name: string
    var visibility: FunctionScope
    var parameters: seq<Variables.C4Variable>
    var localVars: seq<Variables.C4Variable>
    /** Whether the function is declared in the old `visibility name:` form. */
    var isOldStyle: bool

    /** `new C4Function()`: global, unnamed, without parameters or local variables. */
    constructor ()
      ensures name == "" && visibility == FUNC_GLOBAL && parameters == [] && localVars == [] && !isOldStyle
    {
      name := "";
      visibility := FUNC_GLOBAL;
      parameters := [];
      localVars := [];
      isOldStyle := false;
    }

    /**
     * `new C4Function(name, parent, scopeString)`, the visibility as the
     * corrected `MakeScope` reads it: public where `makeScope` as written throws.
     */
    constructor Named(name: string, scopeString: Option<string>)
      ensures this.name == name && visibility == MakeScope(scopeString)
      ensures parameters == [] && localVars == [] && !isOldStyle
    {
      this.name := name;
      visibility := MakeScope(scopeString);
      parameters := [];
      localVars := [];
      isOldStyle := false;
    }

    /** `findVariable(fieldName)`: "this", then the local variables, then the parameters. */
    method FindVariable(fieldName: string) returns (r: Found)
      ensures r == Resolve(fieldName, localVars, parameters)
    {
      if fieldName == "this" {
        return ThisVariable;
      }
      var i := 0;
      while i < |localVars|
        invariant 0 <= i <= |localVars|
        invariant FirstNamed(localVars, fieldName) == FirstNamed(localVars[i..], fieldName)
      {
        assert localVars[i..][1..] == localVars[i + 1..];
        if localVars[i].name == fieldName {
          return Declared(localVars[i]);
        }
        i := i + 1;
      }
      var j := 0;
      while j < |parameters|
        invariant 0 <= j <= |parameters|
        invariant FirstNamed(parameters, fieldName) == FirstNamed(parameters[j..], fieldName)
      {
        assert parameters[j..][1..] == parameters[j + 1..];
        if parameters[j].name == fieldName {
          return Declared(parameters[j]);
        }
        j := j + 1;
      }
      return NotFound;
    }

    /**
     * `createParameters(num)`: a function without parameters gets `num`
     * fresh untyped `var` parameters par0, par1, ...; a function that has
     * parameters keeps them.
     */
    method CreateParameters(num: int)
      modifies this
      ensures old(parameters) != [] ==> parameters == old(parameters)
      ensures old(parameters) == [] ==> |parameters| == if num < 0 then 0 else num
      ensures old(parameters) == [] ==> forall i :: 0 <= i < |parameters| ==>
        && fresh(parameters[i])
        && parameters[i].name == ParameterName(i)
        && parameters[i].scope == Some(Variables.VAR_VAR)
        && parameters[i].varType == Some(C4Types.UNKNOWN)
      ensures localVars == old(localVars) && visibility == old(visibility) && isOldStyle == old(isOldStyle)
    {
      if |parameters| == 0 {
        var n := if num < 0 then 0 else num;
        var i := 0;
        while i < n
          invariant 0 <= i <= n
          invariant |parameters| == i
          invariant forall k :: 0 <= k < i ==>
            && fresh(parameters[k])
            && parameters[k].name == ParameterName(k)
            && parameters[k].scope == Some(Variables.VAR_VAR)
            && parameters[k].varType == Some(C4Types.UNKNOWN)
          invariant localVars == old(localVars) && visibility == old(visibility) && isOldStyle == old(isOldStyle)
        {
          var p := new Variables.C4Variable.Scoped("par" + IntToString(i), Some(Variables.VAR_VAR));
          parameters := parameters + [p];
          i := i + 1;
        }
      }
    }

    /** The loop of `printParameterString`: appends each parameter followed by ", ". */
    method AppendParameters(output: string) returns (r: string)
      ensures r == output + Appended(parameters)
    {
      var ps := parameters;
      r := output;
      var i := 0;
      assert ps[..0] == [] && Appended([]) == "";
      assert r == output + Appended(ps[..0]);
      while i < |ps|
        invariant 0 <= i <= |ps|
        invariant r == output + Appended(ps[..i])
      {
        var text := ParameterText(ps[i]);
        AppendedStep(ps, i);
        AppendThenSeparate(output, Appended(ps[..i]), text);
        r := r + text + ", ";
        i := i + 1;
      }
      assert ps[..|ps|] == ps;
    }

    /**
     * `printParameterString(output)`: appends each parameter and ", ", then
     * drops the last two characters when the text ends in a space, which
     * leaves the parameters separated by ", " and nothing after the last.
     */
    method PrintParameterString(output: string) returns (r: string)
      ensures r == output + ParameterList(parameters)
    {
      r := output;
      if |parameters| > 0 {
        r := AppendParameters(output);
        AppendedIsListAndSeparator(parameters);
        assert r == (output + ParameterList(parameters)) + ", ";
        if |r| > 0 && r[|r| - 1] == ' ' {
          r := r[..|r| - 2];
        }
      }
    }

    /** `getLongParameterString(withFuncName)`: the parameter list, wrapped as "name(...)" when asked. */
    method GetLongParameterString(withFuncName: bool) returns (r: string)
      ensures withFuncName ==> r == name + "(" + ParameterList(parameters) + ")"
      ensures !withFuncName ==> r == ParameterList(parameters)
    {
      r := "";
      if withFuncName {
        r := name + "(";
      }
      r := PrintParameterString(r);
      if withFuncName {
        r := r + ")";
      }
    }

    /**
     * `printHeader(output, oldStyle)`: the old style is "visibility name:",
     * the new one "visibility func name(parameters)".
     */
    method PrintHeader(output: string, oldStyle: bool) returns (r: string)
      ensures oldStyle ==> r == output + ToString(visibility) + " " + name + ":"
      ensures !oldStyle ==> r == output + ToString(visibility) + " " + FUNC + " " + name + "(" + ParameterList(parameters) + ")"
    {
      r := output + ToString(visibility);
      if !oldStyle {
        r := r + " " + FUNC;
      }
      r := r + " " + name;
      if !oldStyle {
        r := r + "(";
        r := PrintParameterString(r);
        r := r + ")";
      } else {
        r := r + ":";
      }
    }

    /** `printHeader(output)`: in the function's own style. */
    method PrintOwnHeader(output: string) returns (r: string)
      ensures isOldStyle ==> r == output + ToString(visibility) + " " + name + ":"
      ensures !isOldStyle ==> r == output + ToString(visibility) + " " + FUNC + " " + name + "(" + ParameterList(parameters) + ")"
    {
      r := PrintHeader(output, isOldStyle);
    }
  }
}
