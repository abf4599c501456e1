// An ini entry value made of key/value components, written `K=V;K=V`
// (for example `CLNK=1;STIN=10`). How a single component is read from its
// text is left to the concrete value class; here it is a parameter.

module ArrayValues {
  import opened Common

  /** The separators `setInput` splits at: the regular expression `;|,`. */
  const SEPARATORS: set<char> := {';', ','}

  /** Offset of part `i` in the input, counting one separator after each earlier part. */
  function PartOffset(parts: seq<string>, i: nat): (r: nat)
    requires i <= |parts|
    ensures r >= i
  {
    if i == 0 then 0 else PartOffset(parts, i - 1) + |parts[i - 1]| + 1
  }

  /** Whether `s` contains the character `c`. */
  predicate Contains(s: string, c: char)
  {
    exists k :: 0 <= k < |s| && s[k] == c
  }

  /**
   * One part as `setInput` reads it: a part without '=' is invalid; other
   * parts go to the component parser, which may decline (null or an
   * `IllegalArgumentException`).
   */
  function ReadPart<K, V>(part: string, offset: nat, parse: (nat, string) -> Option<(K, V)>): (r: Option<(K, V)>)
    ensures !Contains(part, '=') ==> r.None?
    ensures Contains(part, '=') ==> r == parse(offset, part)
  {
    if Contains(part, '=') then parse(offset, part) else None
  }

  /**
   * The components read from `parts`, in order, and the parts that could
   * not be read, in order.
   */
  function ReadParts<K, V>(parts: seq<string>, parse: (nat, string) -> Option<(K, V)>): (r: (seq<(K, V)>, seq<string>))
    ensures |r.0| + |r.1| == |parts|
    decreases |parts|
  {
    if parts == [] then ([], [])
    else
      var n := |parts| - 1;
      var prev := ReadParts(parts[..n], parse);
      match ReadPart(parts[n], PartOffset(parts, n), parse)
      case Some(kv) => (prev.0 + [kv], prev.1)
      case None => (prev.0, prev.1 + [parts[n]])
  }

  /**
   * The loop of `setInput`: each part, with the offset at which it starts,
   * goes to the component parser when it contains '='; the components read
   * are collected in order, and so are the parts that could not be read.
   */
  method ReadAllParts<K, V>(parts: seq<string>, parse: (nat, string) -> Option<(K, V)>) returns (components: seq<(K, V)>, invalidParts: seq<string>)
    ensures components == ReadParts(parts, parse).0
    ensures invalidParts == ReadParts(parts, parse).1
  {
    components := [];
    invalidParts := [];
    var off := 0;
    var i := 0;
    while i < |parts|
      invariant 0 <= i <= |parts|
      invariant off == PartOffset(parts, i)
      invariant components == ReadParts(parts[..i], parse).0
      invariant invalidParts == ReadParts(parts[..i], parse).1
    {
      ghost var next := parts[..i + 1];
      assert next[..i] == parts[..i] && next[i] == parts[i];
      PartOffsetOfPrefix(parts, i + 1, i);
      var part := parts[i];
      var valid := false;
      if Contains(part, '=') {
        var kv := parse(off, part);
        if kv.Some? {
          components := components + [kv.value];
          valid := true;
        }
      }
      if !valid {
        invalidParts := invalidParts + [part];
      }
      off := off + |part| + 1;
      i := i + 1;
    }
    assert parts[..i] == parts;
  }

  lemma PartOffsetOfPrefix(parts: seq<string>, k: nat, i: nat)
    requires i <= k <= |parts|
    ensures PartOffset(parts[..k], i) == PartOffset(parts, i)
  {
    if i > 0 {
      PartOffsetOfPrefix(parts, k, i - 1);
      assert parts[..k][i - 1] == parts[i - 1];
    }
  }

  /** Parts without '=' never reach the component parser: with none containing it, all are reported. */
  lemma {:induction false} ReadPartsWithoutEquals<K, V>(parts: seq<string>, parse: (nat, string) -> Option<(K, V)>)
    requires forall i :: 0 <= i < |parts| ==> !Contains(parts[i], '=')
    ensures ReadParts(parts, parse) == ([], parts)
    decreases |parts|
  {
    if parts != [] {
      var n := |parts| - 1;
      var prefix := parts[..n];
      forall i | 0 <= i < n
        ensures !Contains(prefix[i], '=')
      {
        assert prefix[i] == parts[i];
      }
      ReadPartsWithoutEquals(prefix, parse);
      assert ReadPart(parts[n], PartOffset(parts, n), parse).None?;
      assert parts == prefix + [parts[n]];
    }
  }

  /**
   * A component parser that accepts every part yields one component per
   * part, component i being part i's, and no invalid part.
   */
  lemma {:induction false} ReadPartsAllValid<K, V>(parts: seq<string>, parse: (nat, string) -> Option<(K, V)>)
    requires forall i :: 0 <= i < |parts| ==> ReadPart(parts[i], PartOffset(parts, i), parse).Some?
    ensures |ReadParts(parts, parse).0| == |parts|
    ensures forall i :: 0 <= i < |parts| ==>
              ReadParts(parts, parse).0[i] == ReadPart(parts[i], PartOffset(parts, i), parse).value
    ensures ReadParts(parts, parse).1 == []
    decreases |parts|
  {
    if parts != [] {
      var n := |parts| - 1;
      PrefixPartsRead(parts, n, parse);
      ReadPartsAllValid(parts[..n], parse);
      var prev := ReadParts(parts[..n], parse);
      var kv := ReadPart(parts[n], PartOffset(parts, n), parse).value;
      var r := ReadParts(parts, parse);
      assert r == (prev.0 + [kv], prev.1);
      assert |prev.0| == n;
      forall i | 0 <= i < |parts|
        ensures r.0[i] == ReadPart(parts[i], PartOffset(parts, i), parse).value
      {
        if i < n {
          assert r.0[i] == prev.0[i];
        } else {
          assert r.0[i] == kv;
        }
      }
    }
  }

  /** Each part of a prefix is read as in the whole list, at the same offset. */
  lemma PrefixPartsRead<K, V>(parts: seq<string>, n: nat, parse: (nat, string) -> Option<(K, V)>)
    requires n <= |parts|
    ensures forall i :: 0 <= i < n ==>
              ReadPart(parts[..n][i], PartOffset(parts[..n], i), parse) == ReadPart(parts[i], PartOffset(parts, i), parse)
  {
    forall i | 0 <= i < n
      ensures ReadPart(parts[..n][i], PartOffset(parts[..n], i), parse) == ReadPart(parts[i], PartOffset(parts, i), parse)
    {
      PartOffsetOfPrefix(parts, n, i);
      assert parts[..n][i] == parts[i];
    }
  }

  /** The first component whose key equals `key`. */
  function FirstWithKey<K(==), V>(components: seq<(K, V)>, key: K): (r: Option<(K, V)>)
    ensures r.None? <==> forall i :: 0 <= i < |components| ==> components[i].0 != key
    ensures r.Some? ==> exists i :: 0 <= i < |components| && components[i] == r.value && r.value.0 == key &&
                                   forall j :: 0 <= j < i ==> components[j].0 != key
  {
    if components == [] then None
    else if components[0].0 == key then Some(components[0])
    else
      var r := FirstWithKey(components[1..], key);
      assert forall i :: 1 <= i < |components| ==> components[i] == components[1..][i - 1];
      if r.Some? then
        ghost var i :| 0 <= i < |components[1..]| && components[1..][i] == r.value && r.value.0 == key &&
                       forall j :: 0 <= j < i ==> components[1..][j].0 != key;
        assert components[i + 1] == r.value;
        r
      else r
  }

  /** `KeyValuePair.toString`: key, '=', value. */
  function PairToString<K, V>(kv: (K, V), keyString: K -> string, valueString: V -> string): string
  {
    keyString(kv.0) + "=" + valueString(kv.1)
  }

  /** The printed components, one string each. */
  function PairStrings<K, V>(components: seq<(K, V)>, keyString: K -> string, valueString: V -> string): (r: seq<string>)
    ensures |r| == |components|
    ensures forall i :: 0 <= i < |r| ==> r[i] == PairToString(components[i], keyString, valueString)
  {
    seq(|components|, i requires 0 <= i < |components| => PairToString(components[i], keyString, valueString))
  }

  /** A tree node wrapping one key or one value, as `subElements` produces them. */
  datatype Node<K, V> = KeyNode(key: K) | ValueNode(value: V)

  /** The nodes of `subElements`: key and value of each component, alternating. */
  function Flatten<K, V>(components: seq<(K, V)>): (r: seq<Node<K, V>>)
    ensures |r| == 2 * |components|
    ensures forall j :: 0 <= j < |components| ==>
      r[2 * j] == KeyNode(components[j].0) && r[2 * j + 1] == ValueNode(components[j].1)
  {
    if components == [] then []
    else [KeyNode(components[0].0), ValueNode(components[0].1)] + Flatten(components[1..])
  }

  /** Whether `nodes` alternate key node, value node (a trailing odd node is allowed). */
  predicate Alternating<K, V>(nodes: seq<Node<K, V>>)
  {
    forall j :: 0 <= j < |nodes| / 2 ==> nodes[2 * j].KeyNode? && nodes[2 * j + 1].ValueNode?
  }

  /** The components `setSubElements` builds: one per complete key/value pair of nodes. */
  function Pairs<K, V>(nodes: seq<Node<K, V>>): (r: seq<(K, V)>)
    requires Alternating(nodes)
    ensures |r| == |nodes| / 2
    ensures forall j :: 0 <= j < |r| ==> r[j] == (nodes[2 * j].key, nodes[2 * j + 1].value)
  {
    seq(|nodes| / 2, j requires 0 <= j < |nodes| / 2 => (nodes[2 * j].key, nodes[2 * j + 1].value))
  }

  /** `setSubElements(subElements())` restores the components. */
  lemma PairsOfFlatten<K, V>(components: seq<(K, V)>)
    ensures Alternating(Flatten(components))
    ensures Pairs(Flatten(components)) == components
  {
  }

  class ArrayValue<K(==), V> {
    var components: seq<(K, V)>

    /** `new ArrayValue()`: no components. */
    constructor Empty()
      ensures components == []
    {
      components := [];
    }

    /** `add(id, num)`: appends a component. */
    method Add(key: K, value: V)
      modifies this
      ensures components == old(components) + [(key, value)]
    {
      components := components + [(key, value)];
    }

    /** `find(key)`: the first component with that key, or null. */
    method Find(key: K) returns (r: Option<(K, V)>)
      ensures r == FirstWithKey(components, key)
    {
      var i := 0;
      while i < |components|
        invariant 0 <= i <= |components|
        invariant FirstWithKey(components, key) == FirstWithKey(components[i..], key)
      {
        if components[i].0 == key {
          return Some(components[i]);
        }
        assert components[i..][1..] == components[i + 1..];
        i := i + 1;
      }
      return None;
    }

    /** `toString()`: the printed components separated by ';', with none after the last. */
    method ToString(keyString: K -> string, valueString: V -> string) returns (r: string)
      ensures r == Join(PairStrings(components, keyString, valueString), ";")
    {
      var strs := PairStrings(components, keyString, valueString);
      var builder := "";
      var i := 0;
      while i < |components|
        invariant 0 <= i <= |components|
        invariant i == 0 ==> builder == ""
        invariant 0 < i ==> builder == Join(strs[..i], ";") + (if i < |components| then ";" else "")
      {
        if i > 0 {
          assert strs[..i + 1] == strs[..i] + [strs[i]];
          JoinAppend(strs[..i], strs[i], ";");
        } else {
          assert strs[..1] == [strs[0]];
        }
        builder := builder + PairToString(components[i], keyString, valueString);
        if i + 1 < |components| {
          builder := builder + ";";
        }
        i := i + 1;
      }
      assert strs[..i] == strs;
      return builder;
    }

    /**
     * `setInput(input)`: clears the components, then reads every part of
     * the input split at ';' and ','. Readable parts become components in
     * input order; the unreadable ones are returned, and when there are
     * any the source throws (after the components have been set).
     */
    method SetInput(input: string, parse: (nat, string) -> Option<(K, V)>) returns (invalidParts: seq<string>)
      modifies this
      ensures components == ReadParts(JavaSplit(input, SEPARATORS), parse).0
      ensures invalidParts == ReadParts(JavaSplit(input, SEPARATORS), parse).1
    {
      components := [];
      var parts := JavaSplit(input, SEPARATORS);
      components, invalidParts := ReadAllParts(parts, parse);
    }

    /** `subElements()`: key and value of each component, alternating. */
    method SubElements() returns (nodes: seq<Node<K, V>>)
      ensures nodes == Flatten(components)
    {
      nodes := [];
      var j := 0;
      while j < |components|
        invariant 0 <= j <= |components|
        invariant nodes == Flatten(components[..j])
      {
        FlattenAppend(components[..j], components[j]);
        assert components[..j + 1] == components[..j] + [components[j]];
        nodes := nodes + [KeyNode(components[j].0), ValueNode(components[j].1)];
        j := j + 1;
      }
      assert components[..j] == components;
    }

    /**
     * `setSubElements(elms)`: one component per key/value pair of nodes; a
     * trailing unpaired node is ignored. The unchecked casts of the source
     * are modelled by requiring keys and values to alternate.
     */
    method SetSubElements(elms: seq<Node<K, V>>)
      requires Alternating(elms)
      modifies this
      ensures components == Pairs(elms)
    {
      components := [];
      var i := 0;
      while i + 1 < |elms|
        invariant 0 <= i <= |elms| && i % 2 == 0
        invariant components == Pairs(elms)[..i / 2]
      {
        assert Pairs(elms)[..i / 2 + 1] == Pairs(elms)[..i / 2] + [Pairs(elms)[i / 2]];
        components := components + [(elms[i].key, elms[i + 1].value)];
        i := i + 2;
      }
      assert i / 2 == |elms| / 2;
    }
  }

  lemma FlattenAppend<K, V>(components: seq<(K, V)>, kv: (K, V))
    ensures Flatten(components + [kv]) == Flatten(components) + [KeyNode(kv.0), ValueNode(kv.1)]
  {
    var a := Flatten(components + [kv]);
    var b := Flatten(components) + [KeyNode(kv.0), ValueNode(kv.1)];
    assert |a| == |b|;
    forall k | 0 <= k < |a|
      ensures a[k] == b[k]
    {
      var j := k / 2;
      var c := components + [kv];
      assert k == 2 * j || k == 2 * j + 1;
      assert c[j] == if j < |components| then components[j] else kv;
      assert a[2 * j] == KeyNode(c[j].0) && a[2 * j + 1] == ValueNode(c[j].1);
      if j < |components| {
        assert b[2 * j] == Flatten(components)[2 * j] && b[2 * j + 1] == Flatten(components)[2 * j + 1];
      }
    }
  }
}
