// Declarations of scripts: the heuristic that tells constant names apart,
// and the walks up a declaration's parents that name it, locate it and
// find its enclosing declarations.
//
// A declaration's parents are given as its chain: the declaration itself,
// then its parent, that parent's parent, and so on up to the declaration
// that has no parent.

module Declarations {
  import opened Common

  /**
   * A declaration as the walks up its parents see it: its name, whether it
   * is an index entity (a script or definition stored in an index), and an
   * identity that tells declarations with equal names apart.
   */
  datatype Decl = Decl(name: string, isIndexEntity: bool, identity: int)

  // ---------------------------------------------------------------------
  // looksLikeConstName
  // ---------------------------------------------------------------------

  predicate IsUpper(c: char)
  {
    ToUpperChar(c) == c
  }

  /**
   * What looks like the name of a constant: a prefix in capitals, then
   * optionally an underscore (not the first character) and a rest that
   * holds no further underscore; the rest is not checked for capitals.
   */
  ghost predicate ConstNameShape(name: string)
  {
    var k := IndexOfFrom(name, '_', 1);
    var prefixEnd := if k < 0 then |name| else k;
    && (forall j :: 0 <= j < prefixEnd ==> IsUpper(name[j]))
    && (k < 0 || IndexOfFrom(name, '_', k + 1) < 0)
  }

  /** `looksLikeConstName(name)`. */
  method LooksLikeConstName(name: string) returns (r: bool)
    ensures r <==> ConstNameShape(name)
  {
    ghost var k := IndexOfFrom(name, '_', 1);
    var underscore := false;
    var i := 0;
    while i < |name|
      invariant 0 <= i <= |name|
      invariant underscore <==> 1 <= k < i
      invariant !underscore ==> forall j :: 0 <= j < i ==> IsUpper(name[j])
      invariant underscore ==> forall j :: 0 <= j < k ==> IsUpper(name[j])
      invariant underscore ==> forall j :: k < j < i ==> name[j] != '_'
    {
      var c := name[i];
      if i > 0 && c == '_' {
        if !underscore {
          underscore := true;
        } else {
          assert IndexOfFrom(name, '_', k + 1) >= 0;
          return false;
        }
      }
      if !underscore {
        if ToUpperChar(c) != c {
          return false;
        }
      }
      i := i + 1;
    }
    if !underscore {
      assert ToUpper(name) == name;
    }
    return underscore || name == ToUpper(name);
  }

  /** A name in capitals with at most one underscore after its first character looks like a constant. */
  lemma CapitalsLookConst(name: string)
    requires forall j :: 0 <= j < |name| ==> IsUpper(name[j])
    requires forall i, j :: 1 <= i < j < |name| ==> !(name[i] == '_' && name[j] == '_')
    ensures ConstNameShape(name)
  {
    var k := IndexOfFrom(name, '_', 1);
    if k >= 0 {
      assert IndexOfFrom(name, '_', k + 1) < 0;
    }
  }

  /** Two underscores after the first character never look like a constant, even in capitals. */
  lemma SecondUnderscoreRejects(name: string, i: int, j: int)
    requires 1 <= i < j < |name| && name[i] == '_' && name[j] == '_'
    ensures !ConstNameShape(name)
  {
    var k := IndexOfFrom(name, '_', 1);
    assert k >= 0 && k <= i;
    assert IndexOfFrom(name, '_', k + 1) >= 0 by {
      if k < i {
        assert name[i] == '_';
      } else {
        assert name[j] == '_';
      }
    }
  }

  /** A lower-case letter in the capital prefix rejects the name. */
  lemma LowerCaseInPrefixRejects(name: string, i: int)
    requires 0 <= i < |name| && !IsUpper(name[i])
    requires forall j :: 1 <= j < i ==> name[j] != '_'
    ensures !ConstNameShape(name)
  {
    assert name[i] != '_';
  }

  // ---------------------------------------------------------------------
  // The chain of parents
  // ---------------------------------------------------------------------

  /** The names along a chain. */
  function Names(chain: seq<Decl>): (r: seq<string>)
    ensures |r| == |chain| && forall i :: 0 <= i < |chain| ==> r[i] == chain[i].name
  {
    seq(|chain|, i requires 0 <= i < |chain| => chain[i].name)
  }

  /** `s` from its last element to its first. */
  function Reverse<T>(s: seq<T>): (r: seq<T>)
    ensures |r| == |s| && forall i :: 0 <= i < |s| ==> r[i] == s[|s| - 1 - i]
  {
    if s == [] then [] else Reverse(s[1..]) + [s[0]]
  }

  /**
   * `qualifiedName()`: the parent's qualified name, "::" and the own name;
   * the own name alone for a declaration without a parent.
   */
  function QualifiedName(chain: seq<Decl>): string
    requires |chain| >= 1
  {
    if |chain| == 1 then chain[0].name
    else QualifiedName(chain[1..]) + "::" + chain[0].name
  }

  /** The qualified name lists the names from the topmost declaration down, separated by "::". */
  lemma {:induction false} QualifiedNameIsJoin(chain: seq<Decl>)
    requires |chain| >= 1
    ensures QualifiedName(chain) == Join(Reverse(Names(chain)), "::")
  {
    if |chain| > 1 {
      QualifiedNameIsJoin(chain[1..]);
      assert Names(chain) == [chain[0].name] + Names(chain[1..]);
      assert Reverse(Names(chain)) == Reverse(Names(chain[1..])) + [chain[0].name];
      JoinAppend(Reverse(Names(chain[1..])), chain[0].name, "::");
    } else {
      assert Reverse(Names(chain)) == [chain[0].name];
    }
  }

  /** Whether `parent` is among the declarations above the first of the chain. */
  ghost predicate Above(chain: seq<Decl>, parent: Decl)
  {
    exists i :: 1 <= i < |chain| && chain[i] == parent
  }

  /** `containedIn(parent)`: walks from the parent upwards looking for `parent`. */
  method ContainedIn(chain: seq<Decl>, parent: Decl) returns (r: bool)
    requires |chain| >= 1
    ensures r <==> Above(chain, parent)
  {
    var i := 1;
    while i < |chain|
      invariant 1 <= i <= |chain|
      invariant forall j :: 1 <= j < i ==> chain[j] != parent
    {
      if chain[i] == parent {
        return true;
      }
      i := i + 1;
    }
    return false;
  }

  /** Containment is transitive: what contains a container contains the declaration. */
  lemma ContainedInTransitive(chain: seq<Decl>, j: int, ancestor: Decl)
    requires 1 <= j < |chain|
    requires Above(chain[j..], ancestor)
    ensures Above(chain, ancestor)
  {
    var i :| 1 <= i < |chain[j..]| && chain[j..][i] == ancestor;
    assert chain[j + i] == ancestor;
  }

  /** The index of the first index entity of the chain, or its length when there is none. */
  function FirstIndexEntity(chain: seq<Decl>): (r: int)
    ensures 0 <= r <= |chain|
    ensures r < |chain| ==> chain[r].isIndexEntity
    ensures forall i :: 0 <= i < r ==> !chain[i].isIndexEntity
  {
    if chain == [] then 0
    else if chain[0].isIndexEntity then 0
    else 1 + FirstIndexEntity(chain[1..])
  }

  /** Puts `name` in front of the path built so far, with a '.' only when that path is not empty. */
  function Prepend(name: string, path: string): string
  {
    if |path| > 0 then name + "." + path else name
  }

  /** The path built from the declarations `ds`, the first of them innermost. */
  function PathOf(ds: seq<Decl>): string
  {
    if ds == [] then "" else Prepend(ds[|ds| - 1].name, PathOf(ds[..|ds| - 1]))
  }

  /** `pathRelativeToIndexEntity()`: the names from below the nearest index entity down to the declaration. */
  method PathRelativeToIndexEntity(chain: seq<Decl>) returns (r: string)
    ensures r == PathOf(chain[..FirstIndexEntity(chain)])
  {
    r := "";
    var i := 0;
    while i < |chain|
      invariant 0 <= i <= FirstIndexEntity(chain)
      invariant r == PathOf(chain[..i])
    {
      if chain[i].isIndexEntity {
        break;
      }
      if |r| > 0 {
        r := "." + r;
      }
      r := chain[i].name + r;
      assert chain[..i + 1][..i] == chain[..i];
      i := i + 1;
    }
  }

  /** With non-empty names, the path lists the names from the outermost down, separated by '.'. */
  lemma {:induction false} PathOfIsJoin(ds: seq<Decl>)
    requires forall i :: 0 <= i < |ds| ==> ds[i].name != ""
    ensures PathOf(ds) == Join(Reverse(Names(ds)), ".")
  {
    if ds != [] {
      var front := ds[..|ds| - 1];
      PathOfIsJoin(front);
      assert Names(ds) == Names(front) + [ds[|ds| - 1].name];
      assert Reverse(Names(ds)) == [ds[|ds| - 1].name] + Reverse(Names(front));
      if front != [] {
        assert Reverse(Names(ds))[1..] == Reverse(Names(front));
        assert |PathOf(front)| > 0 by {
          PathOfNonEmpty(front);
        }
      }
    }
  }

  /** A path of declarations with names is not empty. */
  lemma PathOfNonEmpty(ds: seq<Decl>)
    requires ds != []
    requires ds[|ds| - 1].name != ""
    ensures |PathOf(ds)| > 0
  {
  }

  /** The index of the last (outermost) declaration of the chain that `isOfType` accepts. */
  function LastOfType(chain: seq<Decl>, isOfType: Decl -> bool): (r: Option<int>)
    ensures r.Some? ==> 0 <= r.value < |chain| && isOfType(chain[r.value])
    ensures r.Some? ==> forall j :: r.value < j < |chain| ==> !isOfType(chain[j])
    ensures r.None? ==> forall j :: 0 <= j < |chain| ==> !isOfType(chain[j])
  {
    if chain == [] then None
    else if isOfType(chain[|chain| - 1]) then Some(|chain| - 1)
    else LastOfType(chain[..|chain| - 1], isOfType)
  }

  /**
   * `topLevelParentDeclarationOfType(type)`: walks from the declaration up
   * and keeps the last one of the type (`isOfType` stands for the class
   * test), so the outermost one.
   */
  method TopLevelParentDeclarationOfType(chain: seq<Decl>, isOfType: Decl -> bool) returns (r: Option<Decl>)
    ensures LastOfType(chain, isOfType).None? ==> r.None?
    ensures LastOfType(chain, isOfType).Some? ==> r == Some(chain[LastOfType(chain, isOfType).value])
  {
    r := None;
    var i := 0;
    while i < |chain|
      invariant 0 <= i <= |chain|
      invariant LastOfType(chain[..i], isOfType).None? ==> r.None?
      invariant LastOfType(chain[..i], isOfType).Some? ==> r == Some(chain[LastOfType(chain[..i], isOfType).value])
    {
      assert chain[..i + 1][..i] == chain[..i];
      if isOfType(chain[i]) {
        r := Some(chain[i]);
      }
      i := i + 1;
    }
    assert chain[..|chain|] == chain;
  }
}
