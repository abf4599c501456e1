// The texture map of a scenario: which palette index each
// "material-texture" pair is drawn with. Indices are looked up by pair and,
// on request, allocated for pairs not seen yet.

module TextureMaps {
  import opened Common

  /** The key a material and texture are stored under: "material-texture". */
  function Combo(material: string, texture: string): (r: string)
    ensures |r| == |material| + 1 + |texture|
    ensures r[..|material|] == material && r[|material|] == '-' && r[|material| + 1..] == texture
  {
    material + "-" + texture
  }

  /** No two pairs share an index. */
  ghost predicate Injective(m: map<string, int>)
  {
    forall a, b :: a in m && b in m && a != b ==> m[a] != m[b]
  }

  /** Every stored index is a real one (0 means "none"). */
  ghost predicate Positive(m: map<string, int>)
  {
    forall a :: a in m ==> m[a] >= 1
  }

  /** The integers `lo` up to but excluding `hi`. */
  function Range(lo: int, hi: int): (r: set<int>)
    ensures forall k :: k in r <==> lo <= k < hi
    decreases hi - lo
  {
    if lo >= hi then {} else Range(lo, hi - 1) + {hi - 1}
  }

  /** If 1 up to `j` are all used, there are at least `j - 1` used indices. */
  lemma {:induction false} UsedPrefixBound(used: set<int>, j: int)
    requires 1 <= j
    requires forall k :: 1 <= k < j ==> k in used
    ensures j - 1 <= |used|
    decreases j
  {
    if j > 1 {
      UsedPrefixBound(used - {j - 1}, j - 1);
      assert used == (used - {j - 1}) + {j - 1};
    }
  }

  /** The smallest index from `j` on that is not in `used`. */
  function FreeIndexFrom(used: set<int>, j: int): (r: int)
    requires 1 <= j
    requires forall k :: 1 <= k < j ==> k in used
    ensures r >= j && r !in used
    ensures forall k :: 1 <= k < r ==> k in used
    decreases |used| + 1 - j
  {
    if j in used then
      UsedPrefixBound(used, j + 1);
      FreeIndexFrom(used, j + 1)
    else j
  }

  /** The index a new pair gets: the smallest positive index no pair has. */
  function FreeIndex(m: map<string, int>): (r: int)
    ensures r >= 1 && r !in m.Values
    ensures forall k :: 1 <= k < r ==> k in m.Values
  {
    FreeIndexFrom(m.Values, 1)
  }

  /** The index `GetIndex` as written gives a new pair: one more than the number of pairs. */
  function FreeIndexAsWritten(m: map<string, int>): (r: int)
    ensures r >= 1
  {
    |m| + 1
  }

  /**
   * `GetIndex` on the map `m` for the key `combo`, with the allocation
   * `next`: the stored index of a known key, leaving the map alone; for an
   * unknown key, the allocated index, stored, when adding is asked for, and
   * 0 otherwise. Returns the index and the new map.
   */
  function LookupWith(m: map<string, int>, combo: string, add: bool, next: map<string, int> -> int): (r: (int, map<string, int>))
    ensures combo in m ==> r.0 == m[combo] && r.1 == m
    ensures combo !in m && add ==> r.0 == next(m) && r.1 == m[combo := r.0]
    ensures combo !in m && !add ==> r.0 == 0 && r.1 == m
  {
    if combo in m then (m[combo], m)
    else if add then (next(m), m[combo := next(m)])
    else (0, m)
  }

  /** `GetIndex` with new pairs given the smallest free index. */
  function Lookup(m: map<string, int>, combo: string, add: bool): (r: (int, map<string, int>))
    ensures combo !in m && add ==> r.0 !in m.Values && r.0 >= 1
  {
    LookupWith(m, combo, add, FreeIndex)
  }

  /** `GetIndex` as written. */
  function LookupAsWritten(m: map<string, int>, combo: string, add: bool): (r: (int, map<string, int>))
    ensures combo !in m && add ==> r.0 == |m| + 1
  {
    LookupWith(m, combo, add, FreeIndexAsWritten)
  }

  /** Asking twice for the same pair gives the same index and leaves the map as the first call left it. */
  lemma LookupIdempotent(m: map<string, int>, combo: string, add: bool)
    ensures Lookup(Lookup(m, combo, add).1, combo, add) == Lookup(m, combo, add)
  {
    var first := Lookup(m, combo, add);
    if combo !in m && add {
      assert combo in first.1 && first.1[combo] == first.0;
    }
  }

  /** Allocating the smallest free index keeps indices distinct and positive. */
  lemma LookupKeepsIndicesDistinct(m: map<string, int>, combo: string, add: bool)
    requires Injective(m) && Positive(m)
    ensures Injective(Lookup(m, combo, add).1) && Positive(Lookup(m, combo, add).1)
  {
    var r := Lookup(m, combo, add);
    if combo !in m && add {
      forall a, b | a in r.1 && b in r.1 && a != b
        ensures r.1[a] != r.1[b]
      {
        if a == combo {
          assert r.1[b] == m[b] && m[b] in m.Values;
        } else if b == combo {
          assert r.1[a] == m[a] && m[a] in m.Values;
        }
      }
    }
  }

  /**
   * As written, a new pair can be given an index that another pair already
   * has: with only "Earth-Rough" at index 2, "Rock-Smooth" also gets 2.
   */
  lemma AsWrittenIndexCollides()
    ensures var m := map["Earth-Rough" := 2];
      && Injective(m) && Positive(m)
      && LookupAsWritten(m, "Rock-Smooth", true).0 == 2
      && !Injective(LookupAsWritten(m, "Rock-Smooth", true).1)
  {
    var m := map["Earth-Rough" := 2];
    assert "Rock-Smooth" != "Earth-Rough";
    assert |m| == 1;
    var after := LookupAsWritten(m, "Rock-Smooth", true).1;
    assert after["Rock-Smooth"] == after["Earth-Rough"];
  }

  /** While the indices are exactly 1 to the number of pairs, the correction allocates what the source does. */
  lemma FreeIndexMatchesAsWrittenWhenDense(m: map<string, int>)
    requires m.Values == Range(1, |m| + 1)
    ensures FreeIndex(m) == FreeIndexAsWritten(m)
  {
    assert |m| + 1 !in m.Values;
  }

  /**
   * `GetIndexMatTex(materialTexture, defaultTexture, addIfNotExist, _)` on
   * the map `m`: the text is split at '-' (None when splitting leaves no
   * part, where the source indexes an empty array); the first part is the
   * material, the second, if any, the texture. The pair with the texture is
   * tried first, then the pair with the default texture, and a result of 0
   * falls back to the default entry 1. New indices are allocated with the
   * corrected `FreeIndex`, not with the source's `size()+1`.
   */
  function MatTex(m: map<string, int>, materialTexture: string, defaultTexture: Option<string>, add: bool)
    : (r: (Option<int>, map<string, int>))
    ensures r.0.None? <==> JavaSplit(materialTexture, {'-'}) == []
    ensures r.0.None? ==> r.1 == m
    ensures r.0.Some? ==> r.0.value != 0
  {
    var split := JavaSplit(materialTexture, {'-'});
    if |split| == 0 then (None, m)
    else
      var material := split[0];
      var first := if |split| > 1 then Lookup(m, Combo(material, split[1]), add) else (0, m);
      if first.0 != 0 then (Some(first.0), first.1)
      else
        var second := if defaultTexture.Some? then Lookup(first.1, Combo(material, defaultTexture.value), add) else (0, first.1);
        if second.0 != 0 then (Some(second.0), second.1) else (Some(1), second.1)
  }

  /**
   * For a text "material-texture" whose parts hold no '-', with adding
   * enabled and positive indices, the result is the pair's index (found or
   * newly allocated) and the default texture is never consulted.
   */
  lemma MatTexOfPair(m: map<string, int>, material: string, texture: string, defaultTexture: Option<string>, add: bool)
    requires !HasDelimiter(material, {'-'}) && !HasDelimiter(texture, {'-'}) && texture != ""
    requires Positive(m) && add
    ensures MatTex(m, Combo(material, texture), defaultTexture, add) == (Some(Lookup(m, Combo(material, texture), add).0), Lookup(m, Combo(material, texture), add).1)
  {
    SplitOfJoin([material, texture], '-');
    assert Join([material, texture], ['-']) == Combo(material, texture);
    var first := Lookup(m, Combo(material, texture), add);
    assert first.0 != 0 by {
      if Combo(material, texture) in m {
        assert m[Combo(material, texture)] >= 1;
      }
    }
  }

  /**
   * Without adding, a text naming only a material whose default pair is
   * unknown falls back to the default entry 1 and changes nothing.
   */
  lemma MatTexFallsBackToOne(m: map<string, int>, material: string, defaultTexture: Option<string>)
    requires !HasDelimiter(material, {'-'})
    requires defaultTexture.Some? ==> Combo(material, defaultTexture.value) !in m
    ensures MatTex(m, material, defaultTexture, false) == (Some(1), m)
  {
  }

  /** Looking up existing pairs and falling back never changes the map; only adding does. */
  lemma MatTexWithoutAddKeepsMap(m: map<string, int>, materialTexture: string, defaultTexture: Option<string>)
    ensures MatTex(m, materialTexture, defaultTexture, false).1 == m
  {
  }

  class TextureMap {
    /** The index of each "material-texture" pair. */
    var indices: map<string, int>

    /** `new TextureMap()`: no pairs. */
    constructor ()
      ensures indices == map[]
    {
      indices := map[];
    }

    /** `put(combo, index)`, as the constructor does for each `index=material-texture` line. */
    method Put(combo: string, index: int)
      modifies this
      ensures indices == old(indices)[combo := index]
    {
      indices := indices[combo := index];
    }

    /** `GetIndex(material, texture, addIfNotExist)`, with new pairs given the smallest free index. */
    method GetIndex(material: string, texture: string, addIfNotExist: bool) returns (r: int)
      modifies this
      ensures r == Lookup(old(indices), Combo(material, texture), addIfNotExist).0
      ensures indices == Lookup(old(indices), Combo(material, texture), addIfNotExist).1
    {
      var combo := material + "-" + texture;
      if combo in indices {
        return indices[combo];
      }
      if addIfNotExist {
        r := FreeIndex(indices);
        indices := indices[combo := r];
        return r;
      }
      return 0;
    }

    /**
     * `GetIndexMatTex(materialTexture, defaultTexture, addIfNotExist, errorIfFailed)`
     * with the corrected allocation of `GetIndex`; the error text is unused.
     */
    method GetIndexMatTex(materialTexture: string, defaultTexture: Option<string>, addIfNotExist: bool) returns (r: Option<int>)
      modifies this
      ensures r == MatTex(old(indices), materialTexture, defaultTexture, addIfNotExist).0
      ensures indices == MatTex(old(indices), materialTexture, defaultTexture, addIfNotExist).1
    {
      var split := JavaSplit(materialTexture, {'-'});
      if |split| == 0 {
        return None;
      }
      var material := split[0];
      var matTex := 0;
      if |split| > 1 {
        matTex := GetIndex(material, split[1], addIfNotExist);
        if matTex != 0 {
          return Some(matTex);
        }
      }
      if defaultTexture.Some? {
        matTex := GetIndex(material, defaultTexture.value, addIfNotExist);
        if matTex != 0 {
          return Some(matTex);
        }
      }
      return Some(1);
    }

    /** `GetIndexMatTex(materialTexture)`, with the corrected allocation: no default texture, adding enabled. */
    method GetIndexMatTexOf(materialTexture: string) returns (r: Option<int>)
      modifies this
      ensures r == MatTex(old(indices), materialTexture, None, true).0
      ensures indices == MatTex(old(indices), materialTexture, None, true).1
    {
      r := GetIndexMatTex(materialTexture, None, true);
    }

    /** `GetIndexMatTex(name, tex)`, with the corrected allocation: `tex` as the default texture, adding enabled. */
    method GetIndexMatTexWithDefault(name: string, tex: string) returns (r: Option<int>)
      modifies this
      ensures r == MatTex(old(indices), name, Some(tex), true).0
      ensures indices == MatTex(old(indices), name, Some(tex), true).1
    {
      r := GetIndexMatTex(name, Some(tex), true);
    }
  }
}
