// Control flow of script statements: how a `{ ... }` block and an
// `if (...) ... else ...` statement fold the control flows of the
// statements inside them, how they evaluate, and how a block is edited
// and printed.

module Statements {
  import opened Common

  /**
   * How execution leaves a statement. The constants are ordered from the
   * most "continuing" to the least, and that order is what an `if`
   * statement compares.
   */
  datatype ControlFlow = Continue | NextIteration | BreakLoop | Return

  /** `cf.ordinal()`. */
  function Ordinal(cf: ControlFlow): (r: nat)
    ensures r == 0 <==> cf == Continue
  {
    match cf
    case Continue => 0
    case NextIteration => 1
    case BreakLoop => 2
    case Return => 3
  }

  /** The ordinal tells the flows apart. */
  lemma OrdinalInjective(a: ControlFlow, b: ControlFlow)
    ensures Ordinal(a) == Ordinal(b) <==> a == b
  {
  }

  /** What evaluating a statement yields: null, a boolean, or some other object. */
  datatype Value = Null | BoolValue(b: bool) | OtherValue(id: int)

  /**
   * A statement. `Simple` stands for every kind of statement that is
   * neither a block nor an `if`: its own control flow and the outcome of
   * evaluating it are given, the outcome being the value it yields or None
   * where its evaluation throws (a `ControlFlowException` such as a
   * `return`, or any other exception).
   */
  datatype Node =
    | Simple(flow: ControlFlow, outcome: Option<Value>)
    | Block(statements: seq<Node>)
    | If(condition: Node, body: Node, elseExpr: Option<Node>)

  // ---------------------------------------------------------------------
  // controlFlow()
  // ---------------------------------------------------------------------

  /** The more continuing of two flows: the one with the smaller ordinal, `b` on a tie. */
  function MostOptimistic(a: ControlFlow, b: ControlFlow): (r: ControlFlow)
    ensures r == a || r == b
    ensures Ordinal(r) <= Ordinal(a) && Ordinal(r) <= Ordinal(b)
  {
    if Ordinal(a) < Ordinal(b) then a else b
  }

  /** `controlFlow()` of a statement. */
  function FlowOf(n: Node): ControlFlow
    decreases n
  {
    match n
    case Simple(flow, _) => flow
    case Block(ss) => BlockFlow(ss)
    case If(_, body, elseExpr) =>
      MostOptimistic(FlowOf(body), if elseExpr.Some? then FlowOf(elseExpr.value) else Continue)
  }

  /**
   * `Block.controlFlow()` over the statements `ss`: the flow of the first
   * statement that does not continue, or Continue.
   */
  function BlockFlow(ss: seq<Node>): ControlFlow
    decreases ss
  {
    if ss == [] then Continue
    else
      var before := BlockFlow(ss[..|ss| - 1]);
      if before != Continue then before else FlowOf(ss[|ss| - 1])
  }

  /** Once some statement breaks, statements added after it do not change the block's flow. */
  lemma {:induction false} BlockFlowOfExtension(ss: seq<Node>, more: seq<Node>)
    requires BlockFlow(ss) != Continue
    ensures BlockFlow(ss + more) == BlockFlow(ss)
    decreases |more|
  {
    if more != [] {
      var front := more[..|more| - 1];
      assert (ss + more)[..|ss + more| - 1] == ss + front;
      BlockFlowOfExtension(ss, front);
    } else {
      assert ss + more == ss;
    }
  }

  /** A block continues exactly when each of its statements does. */
  lemma {:induction false} BlockFlowContinues(ss: seq<Node>)
    ensures BlockFlow(ss) == Continue <==> forall i :: 0 <= i < |ss| ==> FlowOf(ss[i]) == Continue
  {
    if ss != [] {
      var front := ss[..|ss| - 1];
      BlockFlowContinues(front);
      assert forall i :: 0 <= i < |front| ==> front[i] == ss[i];
    }
  }

  /** The block's flow is that of its first statement that does not continue. */
  lemma BlockFlowIsFirstBreaking(ss: seq<Node>, i: int)
    requires 0 <= i < |ss| && FlowOf(ss[i]) != Continue
    requires forall j :: 0 <= j < i ==> FlowOf(ss[j]) == Continue
    ensures BlockFlow(ss) == FlowOf(ss[i])
  {
    var upTo := ss[..i + 1];
    assert upTo[..i] == ss[..i];
    BlockFlowContinues(ss[..i]);
    assert BlockFlow(upTo) == FlowOf(ss[i]);
    BlockFlowOfExtension(upTo, ss[i + 1..]);
    assert upTo + ss[i + 1..] == ss;
  }

  /** Without an else branch an `if` always counts as continuing. */
  lemma IfWithoutElseContinues(condition: Node, body: Node)
    ensures FlowOf(If(condition, body, None)) == Continue
  {
  }

  /**
   * An `if` takes the more continuing of its branches' flows: it is one of
   * them, and its ordinal is at most either.
   */
  lemma IfFlowIsMostOptimistic(condition: Node, body: Node, elseExpr: Node)
    ensures FlowOf(If(condition, body, Some(elseExpr))) in {FlowOf(body), FlowOf(elseExpr)}
    ensures Ordinal(FlowOf(If(condition, body, Some(elseExpr)))) <= Ordinal(FlowOf(body))
    ensures Ordinal(FlowOf(If(condition, body, Some(elseExpr)))) <= Ordinal(FlowOf(elseExpr))
  {
  }

  /** An `if` breaks only when both branches break. */
  lemma IfBreaksOnlyIfBothBreak(condition: Node, body: Node, elseExpr: Option<Node>)
    ensures FlowOf(If(condition, body, elseExpr)) != Continue <==>
      elseExpr.Some? && FlowOf(body) != Continue && FlowOf(elseExpr.value) != Continue
  {
  }

  // ---------------------------------------------------------------------
  // possibleControlFlows()
  // ---------------------------------------------------------------------

  /** `possibleControlFlows()` of a statement; a simple statement's is its own flow alone. */
  function PossibleFlows(n: Node): set<ControlFlow>
    decreases n
  {
    match n
    case Simple(flow, _) => {flow}
    case Block(ss) => BlockPossibleFlows(ss)
    case If(_, body, elseExpr) =>
      {Continue} + PossibleFlows(body) + (if elseExpr.Some? then PossibleFlows(elseExpr.value) else {})
  }

  /**
   * `Block.possibleControlFlows()` over `ss`: the flow of the first
   * statement that does not continue, alone; when every statement
   * continues, the union of their possible flows.
   */
  function BlockPossibleFlows(ss: seq<Node>): set<ControlFlow>
    decreases ss
  {
    if ss == [] then {}
    else
      var front := ss[..|ss| - 1];
      var last := ss[|ss| - 1];
      if BlockFlow(front) != Continue then BlockPossibleFlows(front)
      else if FlowOf(last) != Continue then {FlowOf(last)}
      else BlockPossibleFlows(front) + PossibleFlows(last)
  }

  /** The union of the possible flows of `ss`. */
  function UnionOfPossibleFlows(ss: seq<Node>): set<ControlFlow>
  {
    if ss == [] then {} else UnionOfPossibleFlows(ss[..|ss| - 1]) + PossibleFlows(ss[|ss| - 1])
  }

  /** A block whose statements all continue may end any way one of them may. */
  lemma {:induction false} BlockPossibleFlowsWhenContinuing(ss: seq<Node>)
    requires forall i :: 0 <= i < |ss| ==> FlowOf(ss[i]) == Continue
    ensures BlockPossibleFlows(ss) == UnionOfPossibleFlows(ss)
  {
    if ss != [] {
      var front := ss[..|ss| - 1];
      assert forall i :: 0 <= i < |front| ==> front[i] == ss[i];
      BlockFlowContinues(front);
      BlockPossibleFlowsWhenContinuing(front);
    }
  }

  /** A block whose flow is decided by a breaking statement may end only that way. */
  lemma {:induction false} BlockPossibleFlowsWhenBreaking(ss: seq<Node>)
    requires BlockFlow(ss) != Continue
    ensures BlockPossibleFlows(ss) == {BlockFlow(ss)}
  {
    var front := ss[..|ss| - 1];
    if BlockFlow(front) != Continue {
      BlockPossibleFlowsWhenBreaking(front);
    }
  }

  /** An `if` may always continue, and may end any way either branch may. */
  lemma IfPossibleFlowsCoverBranches(condition: Node, body: Node, elseExpr: Option<Node>)
    ensures Continue in PossibleFlows(If(condition, body, elseExpr))
    ensures PossibleFlows(body) <= PossibleFlows(If(condition, body, elseExpr))
    ensures elseExpr.Some? ==> PossibleFlows(elseExpr.value) <= PossibleFlows(If(condition, body, elseExpr))
  {
  }

  // ---------------------------------------------------------------------
  // evaluate()
  // ---------------------------------------------------------------------

  /**
   * `evaluate(context)`: the value a statement yields, or None where the
   * evaluation throws. What a statement inside throws propagates out of a
   * block or an `if`; besides, an `if` whose condition yields null throws,
   * since the condition's value is asked whether it equals false.
   */
  function Evaluate(n: Node): Option<Value>
    decreases n
  {
    match n
    case Simple(_, outcome) => outcome
    case Block(ss) => if EvaluateAll(ss) then Some(Null) else None
    case If(condition, body, elseExpr) =>
      var c := Evaluate(condition);
      if c.None? || c.value == Null then None
      else if c.value != BoolValue(false) then Evaluate(body)
      else if elseExpr.Some? then Evaluate(elseExpr.value)
      else Some(Null)
  }

  /** Whether evaluating each of `ss` in turn gets through without throwing. */
  function EvaluateAll(ss: seq<Node>): bool
    decreases ss
  {
    ss == [] || (EvaluateAll(ss[..|ss| - 1]) && Evaluate(ss[|ss| - 1]).Some?)
  }

  /** An `if` whose condition yields anything but null or false yields what its body yields. */
  lemma IfRunsBodyUnlessFalse(condition: Node, body: Node, elseExpr: Option<Node>)
    requires Evaluate(condition).Some? && Evaluate(condition).value !in {Null, BoolValue(false)}
    ensures Evaluate(If(condition, body, elseExpr)) == Evaluate(body)
  {
  }

  /** An `if` throws when its condition throws or yields null, whatever its branches are. */
  lemma IfThrowsWithCondition(condition: Node, body: Node, elseExpr: Option<Node>)
    requires Evaluate(condition).None? || Evaluate(condition) == Some(Null)
    ensures Evaluate(If(condition, body, elseExpr)).None?
  {
  }

  /** An `if` whose condition yields false yields its else branch's value, or null without one. */
  lemma IfRunsElseWhenFalse(condition: Node, body: Node, elseExpr: Option<Node>)
    requires Evaluate(condition) == Some(BoolValue(false))
    ensures elseExpr.Some? ==> Evaluate(If(condition, body, elseExpr)) == Evaluate(elseExpr.value)
    ensures elseExpr.None? ==> Evaluate(If(condition, body, elseExpr)) == Some(Null)
  {
  }

  /** Swapping the branches under a condition of true and one of false yields the same. */
  lemma IfBranchesSwap(body: Node, elseExpr: Node, f: ControlFlow)
    ensures Evaluate(If(Simple(f, Some(BoolValue(true))), body, Some(elseExpr))) ==
            Evaluate(If(Simple(f, Some(BoolValue(false))), elseExpr, Some(body)))
  {
  }

  /** A block yields null when every statement in it evaluates, and throws otherwise. */
  lemma {:induction false} BlockEvaluatesToNull(ss: seq<Node>)
    ensures Evaluate(Block(ss)) == Some(Null) <==> forall i :: 0 <= i < |ss| ==> Evaluate(ss[i]).Some?
    ensures Evaluate(Block(ss)) != Some(Null) ==> Evaluate(Block(ss)).None?
  {
    EvaluateAllEach(ss);
  }

  /** `EvaluateAll` holds exactly when each statement evaluates. */
  lemma {:induction false} EvaluateAllEach(ss: seq<Node>)
    ensures EvaluateAll(ss) <==> forall i :: 0 <= i < |ss| ==> Evaluate(ss[i]).Some?
  {
    if ss != [] {
      var front := ss[..|ss| - 1];
      EvaluateAllEach(front);
      assert forall i :: 0 <= i < |front| ==> front[i] == ss[i];
    }
  }

  // ---------------------------------------------------------------------
  // IfStatement.subElements() / setSubElements()
  // ---------------------------------------------------------------------

  /** `subElements()` of an `if`: condition, body and else branch, the last possibly null. */
  function IfSubElements(n: Node): (r: seq<Option<Node>>)
    requires n.If?
    ensures |r| == 3 && r[0] == Some(n.condition) && r[1] == Some(n.body) && r[2] == n.elseExpr
  {
    [Some(n.condition), Some(n.body), n.elseExpr]
  }

  /** `setSubElements(elms)` of an `if`: the first three elements become condition, body and else branch. */
  function IfSetSubElements(n: Node, elms: seq<Option<Node>>): (r: Node)
    requires n.If?
    requires |elms| >= 3 && elms[0].Some? && elms[1].Some?
    ensures r.If? && IfSubElements(r) == elms[..3]
  {
    If(elms[0].value, elms[1].value, elms[2])
  }

  /** Setting an `if`'s own sub-elements leaves it as it was. */
  lemma IfSetOwnSubElements(n: Node)
    requires n.If?
    ensures IfSetSubElements(n, IfSubElements(n)) == n
  {
  }

  // ---------------------------------------------------------------------
  // Block: the statement list, edited in place
  // ---------------------------------------------------------------------

  /** The index of the first statement equal to `s`, or `|ss|` when there is none. */
  function FirstIndexOf(ss: seq<Node>, s: Node): (r: int)
    ensures 0 <= r <= |ss|
    ensures r < |ss| ==> ss[r] == s
    ensures forall j :: 0 <= j < r ==> ss[j] != s
    ensures r < |ss| <==> s in ss
  {
    if ss == [] then 0
    else if ss[0] == s then 0
    else 1 + FirstIndexOf(ss[1..], s)
  }

  /** `ss` with its first statement equal to `s` left out; `ss` itself when there is none. */
  function RemoveFirst(ss: seq<Node>, s: Node): (r: seq<Node>)
  {
    var i := FirstIndexOf(ss, s);
    if i == |ss| then ss else ss[..i] + ss[i + 1..]
  }

  /** Removing takes out exactly one occurrence, when there is one, and nothing else. */
  lemma RemoveFirstCount(ss: seq<Node>, s: Node)
    ensures s in ss ==> multiset(RemoveFirst(ss, s)) == multiset(ss) - multiset{s}
    ensures s !in ss ==> RemoveFirst(ss, s) == ss
  {
    var i := FirstIndexOf(ss, s);
    if i < |ss| {
      assert ss == ss[..i] + [s] + ss[i + 1..];
      assert multiset(ss) == multiset(ss[..i]) + multiset{s} + multiset(ss[i + 1..]);
    }
  }

  /** Removing keeps the other statements in their order: the ones before and the ones after. */
  lemma RemoveFirstKeepsOrder(ss: seq<Node>, s: Node)
    requires s in ss
    ensures |RemoveFirst(ss, s)| == |ss| - 1
    ensures forall j :: 0 <= j < FirstIndexOf(ss, s) ==> RemoveFirst(ss, s)[j] == ss[j]
    ensures forall j :: FirstIndexOf(ss, s) <= j < |ss| - 1 ==> RemoveFirst(ss, s)[j] == ss[j + 1]
  {
    var i := FirstIndexOf(ss, s);
    var r := ss[..i] + ss[i + 1..];
    assert RemoveFirst(ss, s) == r;
    forall j | i <= j < |ss| - 1
      ensures r[j] == ss[j + 1]
    {
      assert r[j] == ss[i + 1..][j - i];
    }
  }

  /** One line of a printed block: indentation, the statement, a line break. */
  function Indent(depth: int): (r: string)
    ensures |r| == if depth > 0 then depth else 0
    ensures forall k :: 0 <= k < |r| ==> r[k] == '\t'
  {
    if depth <= 0 then "" else Indent(depth - 1) + "\t"
  }

  /**
   * The statements' lines of a printed block at `depth`, each statement
   * printed by `printer` one level deeper than the block.
   */
  function StatementLines(ss: seq<Node>, depth: int, printer: (Node, int) -> string): string
  {
    if ss == [] then ""
    else StatementLines(ss[..|ss| - 1], depth, printer) + Indent(depth + 1) + printer(ss[|ss| - 1], depth + 1) + "\n"
  }

  /** What `printBlock` prints: "{", a line per statement, and the closing "}" indented to `depth`. */
  function BlockText(ss: seq<Node>, depth: int, printer: (Node, int) -> string): string
  {
    "{\n" + StatementLines(ss, depth, printer) + Indent(depth) + "}"
  }

  /** The number of line breaks in `s`. */
  function LineBreaks(s: string): nat
  {
    if s == [] then 0 else LineBreaks(s[..|s| - 1]) + (if s[|s| - 1] == '\n' then 1 else 0)
  }

  /** Line breaks of a concatenation add up. */
  lemma {:induction false} LineBreaksAppend(a: string, b: string)
    ensures LineBreaks(a + b) == LineBreaks(a) + LineBreaks(b)
    decreases |b|
  {
    if b == [] {
      assert a + b == a;
    } else {
      var front := b[..|b| - 1];
      assert (a + b)[..|a + b| - 1] == a + front;
      LineBreaksAppend(a, front);
    }
  }

  /** Whether `s` holds no '\n'. */
  predicate SingleLine(s: string)
  {
    forall k :: 0 <= k < |s| ==> s[k] != '\n'
  }

  /** A string without '\n' holds no line break. */
  lemma {:induction false} NoLineBreaks(s: string)
    requires SingleLine(s)
    ensures LineBreaks(s) == 0
  {
    if s != [] {
      NoLineBreaks(s[..|s| - 1]);
    }
  }

  /** When no statement prints a line break, a printed block has one line per statement between its braces. */
  lemma {:induction false} StatementLinesCount(ss: seq<Node>, depth: int, printer: (Node, int) -> string)
    requires forall i :: 0 <= i < |ss| ==> SingleLine(printer(ss[i], depth + 1))
    ensures LineBreaks(StatementLines(ss, depth, printer)) == |ss|
  {
    if ss != [] {
      var front := ss[..|ss| - 1];
      var last := ss[|ss| - 1];
      assert forall i :: 0 <= i < |front| ==> front[i] == ss[i];
      StatementLinesCount(front, depth, printer);
      NoLineBreaks(Indent(depth + 1));
      NoLineBreaks(printer(last, depth + 1));
      LineBreaksAppend(StatementLines(front, depth, printer), Indent(depth + 1));
      LineBreaksAppend(StatementLines(front, depth, printer) + Indent(depth + 1), printer(last, depth + 1));
      LineBreaksAppend(StatementLines(front, depth, printer) + Indent(depth + 1) + printer(last, depth + 1), "\n");
    }
  }

  /** A printed block opens with "{" and a line break, closes with "}", and has one line per statement. */
  lemma BlockTextShape(ss: seq<Node>, depth: int, printer: (Node, int) -> string)
    requires forall i :: 0 <= i < |ss| ==> SingleLine(printer(ss[i], depth + 1))
    ensures BlockText(ss, depth, printer)[..2] == "{\n"
    ensures BlockText(ss, depth, printer)[|BlockText(ss, depth, printer)| - 1] == '}'
    ensures LineBreaks(BlockText(ss, depth, printer)) == |ss| + 1
  {
    var lines := StatementLines(ss, depth, printer);
    StatementLinesCount(ss, depth, printer);
    NoLineBreaks(Indent(depth));
    LineBreaksAppend("{\n", lines);
    LineBreaksAppend("{\n" + lines, Indent(depth));
    LineBreaksAppend("{\n" + lines + Indent(depth), "}");
    assert LineBreaks("{\n") == 1 by {
      assert "{\n"[..1] == "{";
    }
  }

  /** `Block.printBlock(statements, builder, depth)`: appends the printed block to `output`. */
  method PrintBlock(statements: seq<Node>, output: string, depth: int, printer: (Node, int) -> string) returns (r: string)
    ensures r == output + BlockText(statements, depth, printer)
  {
    r := output + "{\n";
    var i := 0;
    while i < |statements|
      invariant 0 <= i <= |statements|
      invariant r == output + "{\n" + StatementLines(statements[..i], depth, printer)
    {
      assert statements[..i + 1][..i] == statements[..i];
      r := r + Indent(depth + 1) + printer(statements[i], depth + 1) + "\n";
      i := i + 1;
    }
    assert statements[..i] == statements;
    r := r + Indent(depth) + "}";
  }

  class BlockStatement {
    /** The statements of the block, in order. */
    var statements: seq<Node>

    /** `new Block(statements)`. */
    constructor (statements: seq<Node>)
      ensures this.statements == statements
    {
      this.statements := statements;
    }

    /** The block as a statement. */
    function AsNode(): (r: Node)
      reads this
      ensures r.Block? && r.statements == statements
    {
      Block(statements)
    }

    /** `controlFlow()`: the flow of the first statement that does not continue, or Continue. */
    method ControlFlowOf() returns (r: ControlFlow)
      ensures r == FlowOf(AsNode())
      ensures r == Continue <==> forall i :: 0 <= i < |statements| ==> FlowOf(statements[i]) == Continue
    {
      var ss := statements;
      var i := 0;
      while i < |ss|
        invariant 0 <= i <= |ss|
        invariant forall j :: 0 <= j < i ==> FlowOf(ss[j]) == Continue
      {
        var cf := FlowOf(ss[i]);
        if cf != Continue {
          BlockFlowIsFirstBreaking(ss, i);
          return cf;
        }
        i := i + 1;
      }
      BlockFlowContinues(ss);
      return Continue;
    }

    /**
     * `possibleControlFlows()`: the first breaking statement's flow alone,
     * or the union of the statements' possible flows.
     */
    method PossibleControlFlows() returns (r: set<ControlFlow>)
      ensures r == PossibleFlows(AsNode())
    {
      var ss := statements;
      r := {};
      var i := 0;
      while i < |ss|
        invariant 0 <= i <= |ss|
        invariant forall j :: 0 <= j < i ==> FlowOf(ss[j]) == Continue
        invariant r == UnionOfPossibleFlows(ss[..i])
      {
        var cf := FlowOf(ss[i]);
        if cf != Continue {
          BlockFlowIsFirstBreaking(ss, i);
          BlockPossibleFlowsWhenBreaking(ss);
          return {cf};
        }
        assert ss[..i + 1][..i] == ss[..i];
        r := r + PossibleFlows(ss[i]);
        i := i + 1;
      }
      assert ss[..i] == ss;
      BlockPossibleFlowsWhenContinuing(ss);
    }

    /** `subElements()`: the statements. */
    function SubElements(): (r: seq<Node>)
      reads this
      ensures r == AsNode().statements
    {
      statements
    }

    /** `setSubElements(elms)`: a copy of `elms` becomes the statements. */
    method SetSubElements(elms: seq<Node>)
      modifies this
      ensures SubElements() == elms
    {
      statements := elms;
    }

    /** `addStatements(statements)`: appends the new statements in their order. */
    method AddStatements(more: seq<Node>)
      modifies this
      ensures statements == old(statements) + more
    {
      statements := statements + more;
    }

    /** `removeStatement(s)`: drops the first statement equal to `s`, if any. */
    method RemoveStatement(s: Node)
      modifies this
      ensures statements == RemoveFirst(old(statements), s)
    {
      statements := RemoveFirst(statements, s);
    }
  }
}
