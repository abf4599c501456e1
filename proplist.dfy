// A proplist declaration (`{key: value, ...}`): a list of component
// variables, looked up by name, to which assignments add components.

module Proplists {
  import opened Common
  import opened C4Types

  /** A component variable, as far as the proplist looks at it: its name and declared type. */
  datatype Variable = Variable(name: string, varType: C4Type)

  /** The first component named `name`, if any. */
  function FirstNamed(components: seq<Variable>, name: string): (r: Option<Variable>)
    ensures r.Some? ==> r.value in components && r.value.name == name
    ensures r.None? <==> forall i :: 0 <= i < |components| ==> components[i].name != name
  {
    if components == [] then None
    else if components[0].name == name then Some(components[0])
    else FirstNamed(components[1..], name)
  }

  /** The component found is the first one carrying the name. */
  lemma {:induction false} FirstNamedAt(components: seq<Variable>, name: string, i: int)
    requires 0 <= i < |components| && components[i].name == name
    requires forall j :: 0 <= j < i ==> components[j].name != name
    ensures FirstNamed(components, name) == Some(components[i])
  {
    if i > 0 {
      FirstNamedAt(components[1..], name, i - 1);
    }
  }

  /** No two components share a name. */
  ghost predicate UniqueNames(components: seq<Variable>)
  {
    forall i, j :: 0 <= i < j < |components| ==> components[i].name != components[j].name
  }

  /** With unique names, the component found by name is the one component of that name. */
  lemma FirstNamedIsUnique(components: seq<Variable>, i: int)
    requires UniqueNames(components)
    requires 0 <= i < |components|
    ensures FirstNamed(components, components[i].name) == Some(components[i])
  {
    FirstNamedAt(components, components[i].name, i);
  }

  class ProplistDeclaration {
    /** The component variables, in the order they were added. */
    var components: seq<Variable>
    /** Whether the proplist was built by separate assignments rather than one `{...}` expression. */
    var adHoc: bool

    /** `adHocDeclaration()`: an ad-hoc proplist with no components. */
    constructor AdHocDeclaration()
      ensures adHoc && components == []
    {
      adHoc := true;
      components := [];
    }

    /** `new ProplistDeclaration(components)`: an explicit proplist taking over the given components. */
    constructor (components: seq<Variable>)
      ensures !adHoc && this.components == components
    {
      adHoc := false;
      this.components := components;
    }

    /** `findComponent(name)`: the first component named `name`, or null. */
    method FindComponent(name: string) returns (r: Option<Variable>)
      ensures r == FirstNamed(components, name)
    {
      var i := 0;
      while i < |components|
        invariant 0 <= i <= |components|
        invariant FirstNamed(components, name) == FirstNamed(components[i..], name)
      {
        assert components[i..][1..] == components[i + 1..];
        if components[i].name == name {
          return Some(components[i]);
        }
        i := i + 1;
      }
      return None;
    }

    /**
     * `addComponent(variable)`: a component with the same name, when there
     * is one, is returned and nothing is added; otherwise the variable is
     * appended and returned. Names that were unique stay unique.
     */
    method AddComponent(variable: Variable) returns (r: Variable)
      modifies this
      ensures FirstNamed(old(components), variable.name).Some? ==>
        r == FirstNamed(old(components), variable.name).value && components == old(components)
      ensures FirstNamed(old(components), variable.name).None? ==>
        r == variable && components == old(components) + [variable]
      ensures r.name == variable.name && r in components
      ensures adHoc == old(adHoc)
      ensures UniqueNames(old(components)) ==> UniqueNames(components)
    {
      var found := FindComponent(variable.name);
      if found.Some? {
        return found.value;
      }
      components := components + [variable];
      return variable;
    }
  }
}
