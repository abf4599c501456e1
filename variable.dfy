// Variables of the scripting language: their scope keywords, their type
// (which type inference may change unless it is locked), their constant
// value and their location in the source.

module Variables {
  import opened Common
  import opened Keywords
  import opened C4Types

  datatype VariableScope = VAR_STATIC | VAR_LOCAL | VAR_VAR | VAR_CONST

  /** `C4VariableScope.makeScope(s)`: the scope a declaration keyword names, or null. */
  function MakeScope(s: string): (r: Option<VariableScope>)
    ensures r.Some? ==> s in {VAR_NAMED, LOCAL_NAMED, GLOBAL_NAMED, GLOBAL_NAMED + " " + CONST}
    ensures s !in {VAR_NAMED, LOCAL_NAMED, GLOBAL_NAMED, GLOBAL_NAMED + " " + CONST} ==> r.None?
  {
    if s == VAR_NAMED then Some(VAR_VAR)
    else if s == LOCAL_NAMED then Some(VAR_LOCAL)
    else if s == GLOBAL_NAMED then Some(VAR_STATIC)
    else if s == GLOBAL_NAMED + " " + CONST then Some(VAR_CONST)
    else None
  }

  /** `toKeyword()`: how a declaration of this scope is written. */
  function ToKeyword(scope: VariableScope): string
  {
    match scope
    case VAR_CONST => GLOBAL_NAMED + " " + CONST
    case VAR_STATIC => GLOBAL_NAMED
    case VAR_LOCAL => LOCAL_NAMED
    case VAR_VAR => VAR_NAMED
  }

  /** `makeScope` and `toKeyword` are inverse: every scope's keyword parses back to it... */
  lemma MakeScopeOfKeyword(scope: VariableScope)
    ensures MakeScope(ToKeyword(scope)) == Some(scope)
  {
  }

  /** ...and every keyword that parses is the keyword of the scope it gives. */
  lemma KeywordOfMakeScope(s: string)
    requires MakeScope(s).Some?
    ensures ToKeyword(MakeScope(s).value) == s
  {
  }

  /** A scope is global when it is static or a static constant. */
  predicate IsGlobalScope(scope: Option<VariableScope>)
  {
    scope == Some(VAR_STATIC) || scope == Some(VAR_CONST)
  }

  /** The global scopes are exactly those whose keyword starts with "static". */
  lemma GlobalScopesAreStatic(scope: VariableScope)
    ensures IsGlobalScope(Some(scope)) <==> |ToKeyword(scope)| >= 6 && ToKeyword(scope)[..6] == GLOBAL_NAMED
  {
  }

  class C4Variable {
    const name: string
    var scope: Option<VariableScope>
    /** The declared or inferred type; None is the source's null. */
    var varType: Option<C4Type>
    /** An explicit type that type inference must not change. */
    var typeLocked: bool
    var constValue: Option<HostValue>
    var description: string
    /** The source range of the declaration, both ends included by `isAt`. */
    var start: int
    var end: int

    /** `new C4Variable(name, type)`: no scope. */
    constructor Typed(name: string, t: C4Type)
      ensures this.name == name && varType == Some(t) && scope.None? && !typeLocked && constValue.None?
    {
      this.name := name;
      varType := Some(t);
      scope := None;
      typeLocked := false;
      constValue := None;
      description := "";
    }

    /** `new C4Variable(name, scope)`: type UNKNOWN, empty description. */
    constructor Scoped(name: string, scope: Option<VariableScope>)
      ensures this.name == name && this.scope == scope && varType == Some(UNKNOWN) && description == ""
      ensures !typeLocked && constValue.None?
    {
      this.name := name;
      this.scope := scope;
      varType := Some(UNKNOWN);
      typeLocked := false;
      constValue := None;
      description := "";
    }

    /** `new C4Variable(name, scopeString)`: the scope as `makeScope` reads the keyword. */
    constructor Declared(name: string, scopeString: string)
      ensures this.name == name && scope == MakeScope(scopeString) && varType == Some(UNKNOWN)
      ensures !typeLocked && constValue.None?
    {
      this.name := name;
      scope := MakeScope(scopeString);
      varType := Some(UNKNOWN);
      typeLocked := false;
      constValue := None;
      description := "";
    }

    /** `new C4Variable(name, type, desc, scope)`. */
    constructor Full(name: string, t: C4Type, desc: string, scope: VariableScope)
      ensures this.name == name && varType == Some(t) && description == desc && this.scope == Some(scope)
      ensures !typeLocked && constValue.None?
    {
      this.name := name;
      varType := Some(t);
      description := desc;
      this.scope := Some(scope);
      typeLocked := false;
      constValue := None;
    }

    /** The variable `THIS` stands for: "this", an object, declared with `var`, its type locked. */
    constructor This(desc: string)
      ensures name == "this" && varType == Some(OBJECT) && scope == Some(VAR_VAR) && typeLocked
      ensures description == desc && constValue.None?
    {
      name := "this";
      varType := Some(OBJECT);
      description := desc;
      scope := Some(VAR_VAR);
      typeLocked := true;
      constValue := None;
    }

    /** `new C4Variable()`: no name, declared with `var`, no type yet. */
    constructor ()
      ensures name == "" && scope == Some(VAR_VAR) && varType.None? && !typeLocked && constValue.None?
    {
      name := "";
      scope := Some(VAR_VAR);
      varType := None;
      typeLocked := false;
      constValue := None;
      description := "";
    }

    /** `getType()`: never null; a missing type is replaced by UNKNOWN, and stored. */
    method GetType() returns (r: C4Type)
      modifies this
      ensures old(varType).Some? ==> r == old(varType).value
      ensures old(varType).None? ==> r == UNKNOWN
      ensures varType == Some(r)
      ensures typeLocked == old(typeLocked) && scope == old(scope) && constValue == old(constValue)
    {
      if varType.None? {
        varType := Some(UNKNOWN);
      }
      return varType.value;
    }

    /** `forceType(type)`: sets the type even when it is locked. */
    method ForceType(t: C4Type)
      modifies this
      ensures varType == Some(t)
      ensures typeLocked == old(typeLocked) && scope == old(scope) && constValue == old(constValue)
    {
      varType := Some(t);
    }

    /** `forceType(type, typeLocked)`: sets the type and whether it is locked. */
    method ForceTypeAndLock(t: C4Type, locked: bool)
      modifies this
      ensures varType == Some(t) && typeLocked == locked
      ensures scope == old(scope) && constValue == old(constValue)
    {
      ForceType(t);
      typeLocked := locked;
    }

    /** `setType(type)`: sets the type unless it is locked, in which case nothing changes. */
    method SetType(t: C4Type)
      modifies this
      ensures old(typeLocked) ==> varType == old(varType)
      ensures !old(typeLocked) ==> varType == Some(t)
      ensures typeLocked == old(typeLocked) && scope == old(scope) && constValue == old(constValue)
    {
      if typeLocked {
        return;
      }
      ForceType(t);
    }

    /**
     * `setConstValue(value)` on top of the corrected `typeFrom`: a value it
     * cannot type (null or an object of another kind) throws
     * InvalidParameterException and is not stored; any other value, arrays
     * included, is stored.
     */
    method SetConstValue(value: HostValue) returns (thrown: bool)
      modifies this
      ensures thrown <==> value.Null? || value.OtherObject?
      ensures thrown ==> constValue == old(constValue)
      ensures !thrown ==> constValue == Some(value)
      ensures varType == old(varType) && typeLocked == old(typeLocked) && scope == old(scope)
    {
      if TypeFrom(value) == ANY {
        return true;
      }
      constValue := Some(value);
      return false;
    }

    /**
     * `setConstValue(value)` as written: `typeFrom` types arrays ANY as well
     * (see `C4Types.TypeFromAsWritten`), so an array throws too and is not
     * stored.
     */
    method SetConstValueAsWritten(value: HostValue) returns (thrown: bool)
      modifies this
      ensures thrown <==> value.Null? || value.OtherObject? || value.ArrayValue?
      ensures thrown ==> constValue == old(constValue)
      ensures !thrown ==> constValue == Some(value)
      ensures varType == old(varType) && typeLocked == old(typeLocked) && scope == old(scope)
    {
      if TypeFromAsWritten(value) == ANY {
        return true;
      }
      constValue := Some(value);
      return false;
    }

    /** Sets the source range of the declaration. */
    method SetLocation(start: int, end: int)
      modifies this
      ensures this.start == start && this.end == end
      ensures varType == old(varType) && typeLocked == old(typeLocked) && scope == old(scope) && constValue == old(constValue)
    {
      this.start := start;
      this.end := end;
    }

    /** `isGlobal()`: whether the variable is static or a static constant. */
    function IsGlobal(): (r: bool)
      reads this
      ensures r <==> IsGlobalScope(scope)
    {
      IsGlobalScope(scope)
    }

    /** `isAt(offset)`: whether `offset` lies in the declaration's range, both ends included. */
    function IsAt(offset: int): (r: bool)
      reads this
      ensures r <==> start <= offset <= end
    {
      offset >= start && offset <= end
    }

    /** `isActualParm()`: every parameter but the "..." of variadic functions. */
    function IsActualParm(): (r: bool)
      ensures r <==> name != "..."
    {
      name != "..."
    }
  }
}
