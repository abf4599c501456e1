// The index of a project: its definitions in buckets by id, its other
// scripts and its scenarios, and the declarations by name. Scripts added
// while an iteration over the index is running are queued and added when
// the last iteration ends.

module Indexes {
  import opened Common
  import Declarations

  datatype ScriptKind = PlainScript | DefinitionScript | ScenarioScript

  /**
   * A script as the index sees it: an identity (the index compares
   * scripts as objects), its kind, and for definitions their id (None for
   * a definition without one). A scenario is a kind of definition.
   */
  datatype Script = Script(identity: int, kind: ScriptKind, id: Option<string>)

  /** The order-sensitive contents of the index. */
  datatype Contents = Contents(definitions: map<string, seq<Script>>, scripts: seq<Script>, scenarios: seq<Script>)

  /** No element occurs twice. */
  predicate Distinct<T(==)>(s: seq<T>)
  {
    forall i, j :: 0 <= i < j < |s| ==> s[i] != s[j]
  }

  /**
   * What every operation keeps: a bucket holds only definitions with its
   * id, none twice, and neither list holds a script twice.
   */
  ghost predicate ValidContents(c: Contents)
  {
    && (forall k :: k in c.definitions ==> Distinct(c.definitions[k]))
    && (forall k, i :: k in c.definitions && 0 <= i < |c.definitions[k]| ==> c.definitions[k][i].id == Some(k))
    && Distinct(c.scripts)
    && Distinct(c.scenarios)
  }

  /** `indexOf(items, item)` on a bucket: the first position of `x`, or -1. */
  function Position(s: seq<Script>, x: Script): (r: int)
    ensures -1 <= r < |s|
    ensures r == -1 <==> x !in s
    ensures r >= 0 ==> s[r] == x && x !in s[..r]
  {
    if s == [] then -1
    else if s[0] == x then 0
    else
      var p := Position(s[1..], x);
      assert s[1..][..p + 1] == s[..p + 2][1..];
      if p == -1 then -1 else p + 1
  }

  /** The bucket for `id`; an absent bucket reads as no definitions. */
  function Bucket(c: Contents, id: string): seq<Script>
  {
    if id in c.definitions then c.definitions[id] else []
  }

  /**
   * The bucket update of `addDefinition`: a definition without id is
   * ignored; one already in its bucket leaves it alone; otherwise it is
   * appended, a missing bucket being created.
   */
  function WithDefinition(c: Contents, d: Script): (r: Contents)
    ensures r.scripts == c.scripts && r.scenarios == c.scenarios
    ensures d.id.None? ==> r == c
    ensures d.id.Some? ==> r.definitions.Keys == c.definitions.Keys + {d.id.value}
    ensures d.id.Some? ==> forall k :: k in c.definitions && k != d.id.value ==> r.definitions[k] == c.definitions[k]
    ensures d.id.Some? && d in Bucket(c, d.id.value) ==> r == c
    ensures d.id.Some? && d !in Bucket(c, d.id.value) ==> r.definitions[d.id.value] == Bucket(c, d.id.value) + [d]
  {
    if d.id.None? then c
    else
      var id := d.id.value;
      if id !in c.definitions then c.(definitions := c.definitions[id := [d]])
      else if Position(c.definitions[id], d) != -1 then c
      else c.(definitions := c.definitions[id := c.definitions[id] + [d]])
  }

  /** What `addScript` does when no iteration is running: each kind goes to its own place, never twice. */
  function AddDirect(c: Contents, s: Script): (r: Contents)
  {
    match s.kind
    case ScenarioScript => if s in c.scenarios then c else c.(scenarios := c.scenarios + [s])
    case DefinitionScript => WithDefinition(c, s)
    case PlainScript => if s in c.scripts then c else c.(scripts := c.scripts + [s])
  }

  /** Adding the scripts `ss` one after the other. */
  function AddAll(c: Contents, ss: seq<Script>): Contents
  {
    if ss == [] then c else AddDirect(AddAll(c, ss[..|ss| - 1]), ss[|ss| - 1])
  }

  /** Adding a script keeps the index consistent. */
  lemma AddDirectValid(c: Contents, s: Script)
    requires ValidContents(c)
    ensures ValidContents(AddDirect(c, s))
  {
    if s.kind == DefinitionScript {
      WithDefinitionValid(c, s);
    }
  }

  /** Adding a definition to its bucket keeps the index consistent. */
  lemma WithDefinitionValid(c: Contents, s: Script)
    requires ValidContents(c)
    ensures ValidContents(WithDefinition(c, s))
  {
    var r := WithDefinition(c, s);
    if s.id.Some? && s !in Bucket(c, s.id.value) {
      var id := s.id.value;
      forall k, i | k in r.definitions && 0 <= i < |r.definitions[k]|
        ensures r.definitions[k][i].id == Some(k)
      {
        if k != id {
          assert r.definitions[k][i] == c.definitions[k][i];
        }
      }
    }
  }

  /** Adding a queue of scripts keeps the index consistent. */
  lemma {:induction false} AddAllValid(c: Contents, ss: seq<Script>)
    requires ValidContents(c)
    ensures ValidContents(AddAll(c, ss))
  {
    if ss != [] {
      AddAllValid(c, ss[..|ss| - 1]);
      AddDirectValid(AddAll(c, ss[..|ss| - 1]), ss[|ss| - 1]);
    }
  }

  /** Adding the same script twice is adding it once. */
  lemma AddDirectIdempotent(c: Contents, s: Script)
    ensures AddDirect(AddDirect(c, s), s) == AddDirect(c, s)
  {
    if s.kind == DefinitionScript && s.id.Some? {
      assert s in Bucket(WithDefinition(c, s), s.id.value);
    }
  }

  /** After adding a definition with an id, it is in its bucket, and is the last one when it was new. */
  lemma AddedDefinitionIsLast(c: Contents, d: Script)
    requires d.id.Some?
    ensures d in Bucket(WithDefinition(c, d), d.id.value)
    ensures d !in Bucket(c, d.id.value) ==> LastDefinitionWithId(WithDefinition(c, d), d.id.value) == Some(d)
  {
  }

  /** `removeElement(items, index)`: the bucket without its element at `index`. */
  function RemoveAt(s: seq<Script>, index: int): (r: seq<Script>)
    requires 0 <= index < |s|
    ensures |r| == |s| - 1
  {
    s[..index] + s[index + 1..]
  }

  /**
   * The bucket update of `removeDefinition` for a definition that is not a
   * scenario: a definition without id, or not in its bucket, changes
   * nothing; otherwise it is taken out of its bucket, which stays even
   * when it becomes empty.
   */
  function WithoutDefinition(c: Contents, d: Script): (r: Contents)
    ensures r.scripts == c.scripts && r.scenarios == c.scenarios
    ensures r.definitions.Keys == c.definitions.Keys
    ensures d.id.Some? ==> d !in Bucket(r, d.id.value) || !Distinct(Bucket(c, d.id.value))
    ensures d.id.Some? ==> forall k :: k in c.definitions && k != d.id.value ==> r.definitions[k] == c.definitions[k]
  {
    if d.id.None? || d.id.value !in c.definitions then c
    else
      var bucket := c.definitions[d.id.value];
      var index := Position(bucket, d);
      if index == -1 then c
      else
        RemoveAtDistinct(bucket, index);
        c.(definitions := c.definitions[d.id.value := RemoveAt(bucket, index)])
  }

  /** Taking an element out of a list without repetitions leaves no copy of it. */
  lemma RemoveAtDistinct(s: seq<Script>, index: int)
    requires 0 <= index < |s|
    ensures Distinct(s) ==> s[index] !in RemoveAt(s, index)
  {
    if Distinct(s) {
      forall j | 0 <= j < |RemoveAt(s, index)|
        ensures RemoveAt(s, index)[j] != s[index]
      {
        if j < index {
          assert RemoveAt(s, index)[j] == s[j];
        } else {
          assert RemoveAt(s, index)[j] == s[j + 1];
        }
      }
    }
  }

  /** Removing a definition just added gives back the bucket it was added to (an absent one as empty). */
  lemma RemoveUndoesAdd(c: Contents, d: Script)
    requires d.id.Some? && d !in Bucket(c, d.id.value)
    ensures Bucket(WithoutDefinition(WithDefinition(c, d), d), d.id.value) == Bucket(c, d.id.value)
    ensures forall k :: k in c.definitions ==> WithoutDefinition(WithDefinition(c, d), d).definitions[k] == c.definitions[k]
  {
    var added := WithDefinition(c, d);
    var id := d.id.value;
    assert added.definitions[id] == Bucket(c, id) + [d];
    assert Position(added.definitions[id], d) == |Bucket(c, id)|;
    assert RemoveAt(added.definitions[id], |Bucket(c, id)|) == Bucket(c, id);
  }

  /** `lastDefinitionWithId(id)`: the last definition of its bucket, None for a missing or empty bucket. */
  function LastDefinitionWithId(c: Contents, id: string): (r: Option<Script>)
    ensures r.None? <==> Bucket(c, id) == []
    ensures r.Some? ==> r.value in Bucket(c, id) && r.value == Bucket(c, id)[|Bucket(c, id)| - 1]
  {
    if id in c.definitions && |c.definitions[id]| > 0 then Some(c.definitions[id][|c.definitions[id]| - 1]) else None
  }

  /** The definitions a sink is handed from one bucket, and whether it asked to abort. */
  function VisitBucket(bucket: seq<Script>, abort: Script -> bool): (r: (seq<Script>, bool))
    ensures r.0 <= bucket
    ensures !r.1 ==> r.0 == bucket
    ensures r.1 ==> r.0 != [] && abort(r.0[|r.0| - 1])
    ensures forall i :: 0 <= i < |r.0| - 1 ==> !abort(r.0[i])
    ensures !r.1 ==> forall i :: 0 <= i < |bucket| ==> !abort(bucket[i])
  {
    if bucket == [] then ([], false)
    else
      var prev := VisitBucket(bucket[..|bucket| - 1], abort);
      if prev.1 then prev
      else (bucket, abort(bucket[|bucket| - 1]))
  }

  /**
   * The definitions a sink is handed over the buckets of `order` (the
   * iteration order of the map), and whether it asked to abort: every
   * definition up to and including the first one the sink aborts at.
   */
  function VisitBuckets(defs: map<string, seq<Script>>, order: seq<string>, abort: Script -> bool): (r: (seq<Script>, bool))
  {
    if order == [] then ([], false)
    else
      var prev := VisitBuckets(defs, order[..|order| - 1], abort);
      if prev.1 then prev
      else
        var last := order[|order| - 1];
        var b := VisitBucket(if last in defs then defs[last] else [], abort);
        (prev.0 + b.0, b.1)
  }

  /** Once the sink has aborted, later buckets add nothing. */
  lemma {:induction false} AbortIsFinal(defs: map<string, seq<Script>>, order: seq<string>, abort: Script -> bool, j: int)
    requires 0 <= j <= |order|
    requires VisitBuckets(defs, order[..j], abort).1
    ensures VisitBuckets(defs, order, abort) == VisitBuckets(defs, order[..j], abort)
    decreases |order|
  {
    if j < |order| {
      assert order[..|order| - 1][..j] == order[..j];
      AbortIsFinal(defs, order[..|order| - 1], abort, j);
    } else {
      assert order[..j] == order;
    }
  }

  /**
   * `remaining` is `defs` after the walk has got past the first `upTo`
   * buckets of `order`: buckets are only ever dropped, and a bucket is
   * dropped exactly when it is empty and the walk reached it without an
   * abort.
   */
  ghost predicate Pruned(defs: map<string, seq<Script>>, order: seq<string>, abort: Script -> bool, remaining: map<string, seq<Script>>, upTo: int)
    requires 0 <= upTo <= |order|
  {
    && (forall i :: 0 <= i < |order| ==> order[i] in defs)
    && (forall k :: k in remaining ==> k in defs && remaining[k] == defs[k])
    && (forall i :: 0 <= i < upTo ==> (order[i] in remaining <==> defs[order[i]] != [] || VisitBuckets(defs, order[..i], abort).1))
    && (forall i :: upTo <= i < |order| ==> order[i] in remaining)
  }

  /** Getting past bucket `j` without an abort drops it when it is empty. */
  lemma PrunedStep(defs: map<string, seq<Script>>, order: seq<string>, abort: Script -> bool, remaining: map<string, seq<Script>>, j: int)
    requires Distinct(order) && 0 <= j < |order|
    requires Pruned(defs, order, abort, remaining, j) && !VisitBuckets(defs, order[..j], abort).1
    ensures Pruned(defs, order, abort, if remaining[order[j]] == [] then remaining - {order[j]} else remaining, j + 1)
  {
  }

  /** After an abort at bucket `j`, nothing more is dropped: the pruning is complete. */
  lemma PrunedAbort(defs: map<string, seq<Script>>, order: seq<string>, abort: Script -> bool, remaining: map<string, seq<Script>>, j: int)
    requires 0 <= j < |order|
    requires Pruned(defs, order, abort, remaining, j)
    requires VisitBucket(remaining[order[j]], abort).1
    requires forall i :: j + 1 <= i <= |order| ==> VisitBuckets(defs, order[..i], abort).1
    requires !VisitBuckets(defs, order[..j], abort).1
    ensures Pruned(defs, order, abort, remaining, |order|)
  {
    assert remaining[order[j]] != [];
  }

  /** One more bucket of the walk, when it has not aborted yet. */
  lemma VisitBucketsStep(defs: map<string, seq<Script>>, order: seq<string>, abort: Script -> bool, j: int)
    requires 0 <= j < |order| && order[j] in defs
    requires !VisitBuckets(defs, order[..j], abort).1
    ensures VisitBuckets(defs, order[..j + 1], abort).0 == VisitBuckets(defs, order[..j], abort).0 + VisitBucket(defs[order[j]], abort).0
    ensures VisitBuckets(defs, order[..j + 1], abort).1 == VisitBucket(defs[order[j]], abort).1
  {
    assert order[..j + 1][..j] == order[..j];
  }

  /** After an abort at bucket `j - 1`, every longer prefix has aborted and the walk's result is fixed. */
  lemma AbortsLater(defs: map<string, seq<Script>>, order: seq<string>, abort: Script -> bool, j: int)
    requires 0 <= j <= |order|
    requires VisitBuckets(defs, order[..j], abort).1
    ensures VisitBuckets(defs, order, abort) == VisitBuckets(defs, order[..j], abort)
    ensures forall i :: j <= i <= |order| ==> VisitBuckets(defs, order[..i], abort).1
  {
    AbortIsFinal(defs, order, abort, j);
    forall i | j <= i <= |order|
      ensures VisitBuckets(defs, order[..i], abort).1
    {
      assert order[..i][..j] == order[..j];
      AbortIsFinal(defs, order[..i], abort, j);
    }
  }

  /** The inner loop of `allDefinitionsInternal`: hands one bucket's definitions to the sink until it aborts. */
  method HandBucket(bucket: seq<Script>, abort: Script -> bool) returns (handed: seq<Script>, stop: bool)
    ensures handed == VisitBucket(bucket, abort).0 && stop == VisitBucket(bucket, abort).1
  {
    handed := [];
    var n := 0;
    while n < |bucket|
      invariant 0 <= n <= |bucket|
      invariant handed == bucket[..n]
      invariant VisitBucket(bucket[..n], abort) == (bucket[..n], false)
    {
      assert bucket[..n + 1][..n] == bucket[..n];
      handed := handed + [bucket[n]];
      if abort(bucket[n]) {
        assert bucket[..n + 1] == bucket[..n + 1][..n + 1];
        AbortIsFinalInBucket(bucket, abort, n + 1);
        return handed, true;
      }
      n := n + 1;
    }
    assert bucket[..n] == bucket;
    return handed, false;
  }

  /** Once the sink has aborted within a bucket, the rest of the bucket is not handed over. */
  lemma {:induction false} AbortIsFinalInBucket(bucket: seq<Script>, abort: Script -> bool, n: int)
    requires 0 <= n <= |bucket|
    requires VisitBucket(bucket[..n], abort).1
    ensures VisitBucket(bucket, abort) == VisitBucket(bucket[..n], abort)
    decreases |bucket|
  {
    if n < |bucket| {
      assert bucket[..|bucket| - 1][..n] == bucket[..n];
      AbortIsFinalInBucket(bucket[..|bucket| - 1], abort, n);
    } else {
      assert bucket[..n] == bucket;
    }
  }

  /** Without an abort, every definition of every bucket reaches the sink, bucket after bucket. */
  lemma {:induction false} VisitWithoutAbort(defs: map<string, seq<Script>>, order: seq<string>, abort: Script -> bool)
    requires forall k, i :: k in defs && 0 <= i < |defs[k]| ==> !abort(defs[k][i])
    ensures !VisitBuckets(defs, order, abort).1
    ensures VisitBuckets(defs, order, abort).0 == Flatten(defs, order)
  {
    if order != [] {
      VisitWithoutAbort(defs, order[..|order| - 1], abort);
    }
  }

  /** The buckets of `order`, one after the other. */
  function Flatten(defs: map<string, seq<Script>>, order: seq<string>): seq<Script>
  {
    if order == [] then []
    else Flatten(defs, order[..|order| - 1]) + (if order[|order| - 1] in defs then defs[order[|order| - 1]] else [])
  }

  /**
   * The loop of `allDefinitionsInternal(sink)` on the map itself: hands
   * the buckets over in the order `order`, stops when the sink aborts and
   * drops each empty bucket it gets past.
   */
  method WalkBuckets(defs: map<string, seq<Script>>, order: seq<string>, abort: Script -> bool)
    returns (aborted: bool, handed: seq<Script>, remaining: map<string, seq<Script>>)
    requires Distinct(order) && forall k :: k in defs <==> k in order
    ensures handed == VisitBuckets(defs, order, abort).0
    ensures aborted == VisitBuckets(defs, order, abort).1
    ensures Pruned(defs, order, abort, remaining, |order|)
  {
    remaining := defs;
    handed := [];
    var j := 0;
    while j < |order|
      invariant 0 <= j <= |order|
      invariant handed == VisitBuckets(defs, order[..j], abort).0
      invariant !VisitBuckets(defs, order[..j], abort).1
      invariant Pruned(defs, order, abort, remaining, j)
    {
      var key := order[j];
      var bucket := remaining[key];
      VisitBucketsStep(defs, order, abort, j);
      var part, stop := HandBucket(bucket, abort);
      handed := handed + part;
      if stop {
        AbortsLater(defs, order, abort, j + 1);
        PrunedAbort(defs, order, abort, remaining, j);
        return true, handed, remaining;
      }
      PrunedStep(defs, order, abort, remaining, j);
      if bucket == [] {
        remaining := remaining - {key};
      }
      j := j + 1;
    }
    assert order[..j] == order;
    aborted := false;
  }

  class Index {
    var definitions: map<string, seq<Script>>
    var scripts: seq<Script>
    var scenarios: seq<Script>
    /** Scripts added while an iteration was running, in the order they came. */
    var pendingScriptAdds: seq<Script>
    /** How many iterations over the index are running. */
    var pendingScriptIterations: int
    /** The declarations of the index's scripts, by name. */
    var declarationMap: map<string, seq<Declarations.Decl>>

    function State(): Contents
      reads this
    {
      Contents.Contents(definitions, scripts, scenarios)
    }

    /** The contents are consistent, and scripts are queued only while an iteration runs. */
    ghost predicate Valid()
      reads this
    {
      && ValidContents(State())
      && pendingScriptIterations >= 0
      && (pendingScriptIterations == 0 ==> pendingScriptAdds == [])
    }

    /** An empty index. */
    constructor ()
      ensures Valid()
      ensures definitions == map[] && scripts == [] && scenarios == [] && declarationMap == map[]
      ensures pendingScriptAdds == [] && pendingScriptIterations == 0
    {
      definitions := map[];
      scripts := [];
      scenarios := [];
      pendingScriptAdds := [];
      pendingScriptIterations := 0;
      declarationMap := map[];
    }

    /**
     * `addDefinition(definition)`: ignored without an id; queued while an
     * iteration runs; otherwise added to its bucket unless already there.
     */
    method AddDefinition(definition: Script)
      modifies this
      ensures definition.id.None? ==> State() == old(State()) && pendingScriptAdds == old(pendingScriptAdds)
      ensures definition.id.Some? && old(pendingScriptIterations) > 0 ==>
        State() == old(State()) && pendingScriptAdds == old(pendingScriptAdds) + [definition]
      ensures definition.id.Some? && old(pendingScriptIterations) <= 0 ==>
        State() == WithDefinition(old(State()), definition) && pendingScriptAdds == old(pendingScriptAdds)
      ensures pendingScriptIterations == old(pendingScriptIterations) && declarationMap == old(declarationMap)
      ensures ValidContents(old(State())) ==> ValidContents(State())
      ensures old(Valid()) ==> Valid()
    {
      if ValidContents(State()) {
        WithDefinitionValid(State(), definition);
      }
      if definition.id.None? {
        return;
      }
      var id := definition.id.value;
      if pendingScriptIterations > 0 {
        pendingScriptAdds := pendingScriptAdds + [definition];
        return;
      }
      if id !in definitions {
        definitions := definitions[id := [definition]];
      } else if Position(definitions[id], definition) == -1 {
        definitions := definitions[id := definitions[id] + [definition]];
      }
    }

    /**
     * `addScript(script)`: null is ignored; while an iteration runs the
     * script is queued; otherwise a scenario joins the scenarios, a
     * definition its bucket, any other script the scripts, none twice.
     */
    method AddScript(script: Option<Script>)
      modifies this
      ensures script.None? ==> State() == old(State()) && pendingScriptAdds == old(pendingScriptAdds)
      ensures script.Some? && old(pendingScriptIterations) > 0 ==>
        State() == old(State()) && pendingScriptAdds == old(pendingScriptAdds) + [script.value]
      ensures script.Some? && old(pendingScriptIterations) <= 0 ==>
        State() == AddDirect(old(State()), script.value) && pendingScriptAdds == old(pendingScriptAdds)
      ensures pendingScriptIterations == old(pendingScriptIterations) && declarationMap == old(declarationMap)
      ensures ValidContents(old(State())) ==> ValidContents(State())
      ensures old(Valid()) ==> Valid()
    {
      if script.Some? && ValidContents(State()) {
        AddDirectValid(State(), script.value);
      }
      if script.None? {
        return;
      }
      var s := script.value;
      if pendingScriptIterations > 0 {
        pendingScriptAdds := pendingScriptAdds + [s];
        return;
      }
      match s.kind
      case ScenarioScript =>
        if s !in scenarios {
          scenarios := scenarios + [s];
        }
      case DefinitionScript =>
        AddDefinition(s);
      case PlainScript =>
        if s !in scripts {
          scripts := scripts + [s];
        }
    }

    /** `startScriptIteration()`: one more iteration is running; adds are queued from now on. */
    method StartScriptIteration()
      requires Valid()
      modifies this
      ensures Valid()
      ensures pendingScriptIterations == old(pendingScriptIterations) + 1
      ensures State() == old(State()) && pendingScriptAdds == old(pendingScriptAdds) && declarationMap == old(declarationMap)
    {
      pendingScriptIterations := pendingScriptIterations + 1;
    }

    /**
     * `endScriptIteration()`: one iteration fewer; when none is left, the
     * queued scripts are added in the order they came and the queue is
     * emptied. It is called only after `startScriptIteration`.
     */
    method EndScriptIteration()
      requires Valid() && pendingScriptIterations >= 1
      modifies this
      ensures Valid()
      ensures pendingScriptIterations == old(pendingScriptIterations) - 1
      ensures pendingScriptIterations > 0 ==> State() == old(State()) && pendingScriptAdds == old(pendingScriptAdds)
      ensures pendingScriptIterations == 0 ==> State() == AddAll(old(State()), old(pendingScriptAdds)) && pendingScriptAdds == []
      ensures declarationMap == old(declarationMap)
    {
      pendingScriptIterations := pendingScriptIterations - 1;
      if pendingScriptIterations == 0 {
        ghost var queue := pendingScriptAdds;
        ghost var start := State();
        var i := 0;
        while pendingScriptAdds != []
          invariant 0 <= i <= |queue|
          invariant pendingScriptAdds == queue[i..]
          invariant State() == AddAll(start, queue[..i])
          invariant pendingScriptIterations == 0 && declarationMap == old(declarationMap)
          decreases |pendingScriptAdds|
        {
          var s := pendingScriptAdds[0];
          pendingScriptAdds := pendingScriptAdds[1..];
          AddScript(Some(s));
          assert queue[..i + 1][..i] == queue[..i];
          i := i + 1;
        }
        assert queue[..i] == queue;
        AddAllValid(start, queue);
      }
    }

    /**
     * `removeDefinition(definition)`: a scenario is removed from the
     * scenarios (its first occurrence); any other definition as
     * `WithoutDefinition` says. The notification of the other scripts is
     * not modelled.
     */
    method RemoveDefinition(definition: Script)
      requires Valid()
      modifies this
      ensures Valid()
      ensures definition.kind == ScenarioScript ==>
        definitions == old(definitions) && scripts == old(scripts) && scenarios == RemoveFirstScript(old(scenarios), definition)
      ensures definition.kind != ScenarioScript ==> State() == WithoutDefinition(old(State()), definition)
      ensures pendingScriptAdds == old(pendingScriptAdds) && pendingScriptIterations == old(pendingScriptIterations)
      ensures declarationMap == old(declarationMap)
    {
      if definition.kind == ScenarioScript {
        scenarios := RemoveFirstScript(scenarios, definition);
        return;
      }
      if definition.id.None? {
        return;
      }
      var id := definition.id.value;
      if id in definitions {
        var index := Position(definitions[id], definition);
        if index != -1 {
          definitions := definitions[id := RemoveAt(definitions[id], index)];
        }
      }
      assert State() == WithoutDefinition(old(State()), definition);
      WithoutDefinitionValid(old(State()), definition);
    }

    /** `addToDeclarationMap(field)`: the declaration is appended to the ones of its name. */
    method AddToDeclarationMap(field: Declarations.Decl)
      modifies this
      ensures field.name in old(declarationMap) ==> declarationMap == old(declarationMap)[field.name := old(declarationMap)[field.name] + [field]]
      ensures field.name !in old(declarationMap) ==> declarationMap == old(declarationMap)[field.name := [field]]
      ensures State() == old(State()) && pendingScriptAdds == old(pendingScriptAdds)
      ensures pendingScriptIterations == old(pendingScriptIterations)
      ensures old(Valid()) ==> Valid()
    {
      if field.name in declarationMap {
        declarationMap := declarationMap[field.name := declarationMap[field.name] + [field]];
      } else {
        declarationMap := declarationMap[field.name := [field]];
      }
    }

    /**
     * `allDefinitionsInternal(sink)`: hands the definitions to the sink
     * bucket by bucket in the map's iteration order `order`, stopping when
     * the sink aborts (`abort` says where); each empty bucket the walk gets
     * past is removed. Returns whether the sink aborted and what it was
     * handed.
     */
    method AllDefinitionsInternal(order: seq<string>, abort: Script -> bool) returns (aborted: bool, handed: seq<Script>)
      requires Distinct(order) && forall k :: k in definitions <==> k in order
      modifies this
      ensures handed == VisitBuckets(old(definitions), order, abort).0
      ensures aborted == VisitBuckets(old(definitions), order, abort).1
      ensures Pruned(old(definitions), order, abort, definitions, |order|)
      ensures scripts == old(scripts) && scenarios == old(scenarios) && pendingScriptAdds == old(pendingScriptAdds)
      ensures pendingScriptIterations == old(pendingScriptIterations) && declarationMap == old(declarationMap)
      ensures old(Valid()) ==> Valid()
    {
      var remaining;
      aborted, handed, remaining := WalkBuckets(definitions, order, abort);
      definitions := remaining;
      if old(Valid()) {
        forall k, i | k in definitions && 0 <= i < |definitions[k]|
          ensures definitions[k][i].id == Some(k)
        {
          assert definitions[k] == old(definitions)[k];
        }
      }
    }

    /**
     * `allDefinitions(sink)`: the walk above inside one iteration, so that
     * scripts added meanwhile are queued; when this was the only
     * iteration, the queue (empty in a valid index) is flushed at the end.
     */
    method AllDefinitions(order: seq<string>, abort: Script -> bool) returns (handed: seq<Script>)
      requires Valid()
      requires Distinct(order) && forall k :: k in definitions <==> k in order
      modifies this
      ensures Valid()
      ensures handed == VisitBuckets(old(definitions), order, abort).0
      ensures Pruned(old(definitions), order, abort, definitions, |order|)
      ensures scripts == old(scripts) && scenarios == old(scenarios) && pendingScriptAdds == old(pendingScriptAdds)
      ensures pendingScriptIterations == old(pendingScriptIterations)
    {
      StartScriptIteration();
      var aborted;
      aborted, handed := AllDefinitionsInternal(order, abort);
      EndScriptIteration();
      assert AddAll(old(State()).(definitions := definitions), []) == old(State()).(definitions := definitions);
    }
  }

  /** `list.remove(x)` on the scenarios: the first occurrence of `x` is taken out. */
  function RemoveFirstScript(s: seq<Script>, x: Script): (r: seq<Script>)
    ensures x !in s ==> r == s
    ensures x in s ==> r == RemoveAt(s, Position(s, x))
  {
    if Position(s, x) == -1 then s else RemoveAt(s, Position(s, x))
  }

  /** Removing a definition keeps the index consistent. */
  lemma WithoutDefinitionValid(c: Contents, d: Script)
    requires ValidContents(c)
    ensures ValidContents(WithoutDefinition(c, d))
  {
    var r := WithoutDefinition(c, d);
    if d.id.Some? && d.id.value in c.definitions && Position(c.definitions[d.id.value], d) != -1 {
      var id := d.id.value;
      var bucket := c.definitions[id];
      var index := Position(bucket, d);
      forall k, i | k in r.definitions && 0 <= i < |r.definitions[k]|
        ensures r.definitions[k][i].id == Some(k)
      {
        if k == id {
          if i < index {
            assert r.definitions[k][i] == bucket[i];
          } else {
            assert r.definitions[k][i] == bucket[i + 1];
          }
        } else {
          assert r.definitions[k] == c.definitions[k];
        }
      }
      forall k | k in r.definitions
        ensures Distinct(r.definitions[k])
      {
        if k == id {
          var rb := r.definitions[k];
          forall a, b | 0 <= a < b < |rb|
            ensures rb[a] != rb[b]
          {
            var a' := if a < index then a else a + 1;
            var b' := if b < index then b else b + 1;
            assert rb[a] == bucket[a'] && rb[b] == bucket[b'];
          }
        } else {
          assert r.definitions[k] == c.definitions[k];
        }
      }
    }
  }
}
