// Array helpers of the plugin's utility class: concatenation, slicing,
// null removal, identity search, element-wise conversion and filtering.
// Java arrays stay Dafny arrays, because the helpers sometimes hand back the
// very array they were given rather than a copy. A Java array that may hold
// nulls is an `array<Option<T>>`; a Java array reference that may itself be
// null is an `array?<T>`.

module ArrayUtil {
  import opened Common

  /** The elements of a possibly-null array; a null array contributes none. */
  function Elements<T>(a: array?<T>): (r: seq<T>)
    reads a
    ensures a == null ==> r == []
    ensures a != null ==> |r| == a.Length && forall i :: 0 <= i < a.Length ==> r[i] == a[i]
  {
    if a == null then [] else a[..]
  }

  /** The non-null elements of `s`, in order. */
  function NonNull<T>(s: seq<Option<T>>): (r: seq<Option<T>>)
    ensures |r| <= |s|
    ensures forall i :: 0 <= i < |r| ==> r[i].Some?
    ensures forall x :: x in r ==> x in s
  {
    if s == [] then []
    else if s[0].Some? then [s[0]] + NonNull(s[1..])
    else NonNull(s[1..])
  }

  /** The non-null elements of `s` that satisfy `keep`, in order. */
  function Kept<T>(s: seq<Option<T>>, keep: T -> bool): (r: seq<Option<T>>)
    ensures |r| <= |s|
    ensures forall i :: 0 <= i < |r| ==> r[i].Some? && keep(r[i].value)
    ensures forall x :: x in r ==> x in s
  {
    if s == [] then []
    else if s[0].Some? && keep(s[0].value) then [s[0]] + Kept(s[1..], keep)
    else Kept(s[1..], keep)
  }

  function CountNonNull<T>(s: seq<Option<T>>): (r: nat)
    ensures r <= |s|
  {
    if s == [] then 0 else (if s[0].Some? then 1 else 0) + CountNonNull(s[1..])
  }

  lemma {:induction false} NonNullOfPrefix<T>(s: seq<Option<T>>, i: nat)
    requires i < |s|
    ensures NonNull(s[..i+1]) == NonNull(s[..i]) + (if s[i].Some? then [s[i]] else [])
    ensures CountNonNull(s[..i+1]) == CountNonNull(s[..i]) + (if s[i].Some? then 1 else 0)
    decreases i
  {
    if i == 0 {
      assert s[..1] == [s[0]];
      assert s[..1][1..] == [];
    } else {
      var t := s[1..];
      assert s[..i+1][1..] == t[..i];
      assert s[..i][1..] == t[..i-1];
      assert t[i-1] == s[i];
      NonNullOfPrefix(t, i - 1);
    }
  }

  lemma {:induction false} KeptOfPrefix<T>(s: seq<Option<T>>, keep: T -> bool, i: nat)
    requires i < |s|
    ensures Kept(s[..i+1], keep) == Kept(s[..i], keep) + (if s[i].Some? && keep(s[i].value) then [s[i]] else [])
    decreases i
  {
    if i == 0 {
      assert s[..1] == [s[0]];
      assert s[..1][1..] == [];
    } else {
      var t := s[1..];
      assert s[..i+1][1..] == t[..i];
      assert s[..i][1..] == t[..i-1];
      assert t[i-1] == s[i];
      KeptOfPrefix(t, keep, i - 1);
    }
  }

  lemma {:induction false} CountNonNullOfPrefix<T>(s: seq<Option<T>>, i: nat)
    requires i <= |s|
    ensures CountNonNull(s[..i]) <= CountNonNull(s)
    decreases |s| - i
  {
    if i < |s| {
      NonNullOfPrefix(s, i);
      CountNonNullOfPrefix(s, i + 1);
    } else {
      assert s[..i] == s;
    }
  }

  /** The non-null elements are as many as `CountNonNull` says. */
  lemma {:induction false} NonNullLength<T>(s: seq<Option<T>>)
    ensures |NonNull(s)| == CountNonNull(s)
  {
    if s != [] {
      NonNullLength(s[1..]);
    }
  }

  /** Removing nulls changes nothing exactly when there are none. */
  lemma {:induction false} NonNullIdentity<T>(s: seq<Option<T>>)
    ensures CountNonNull(s) == |s| <==> forall i :: 0 <= i < |s| ==> s[i].Some?
    ensures CountNonNull(s) == |s| ==> NonNull(s) == s
  {
    if s != [] {
      NonNullIdentity(s[1..]);
      if CountNonNull(s) == |s| {
        assert s == [s[0]] + s[1..];
      }
      assert forall i :: 1 <= i < |s| ==> s[i] == s[1..][i-1];
    }
  }

  /** Removing nulls is the filter that keeps everything. */
  lemma {:induction false} NonNullIsKeptAll<T>(s: seq<Option<T>>)
    ensures NonNull(s) == Kept(s, _ => true)
  {
    if s != [] {
      NonNullIsKeptAll(s[1..]);
    }
  }

  /**
   * `concat(a, b)`: the elements of `a` followed by those of `b`. When `a`
   * is null or empty the result is `b` itself; when `b` is null or empty it
   * is `a` itself; only when both hold elements is a new array built.
   */
  method Concat<T>(a: array?<T>, b: array?<T>) returns (r: array<T>)
    ensures r[..] == Elements(a) + Elements(b)
    ensures (a == null || a.Length == 0) && b != null ==> r == b
    ensures a != null && a.Length > 0 && (b == null || b.Length == 0) ==> r == a
    ensures (a == null || a.Length == 0) && b == null ==> fresh(r)
    ensures a != null && a.Length > 0 && b != null && b.Length > 0 ==> fresh(r)
  {
    var alen := if a != null then a.Length else 0;
    var blen := if b != null then b.Length else 0;
    if alen == 0 {
      if b != null {
        return b;
      }
      r := new T[0];
      return;
    }
    if blen == 0 {
      return a;
    }
    var first := a[0];
    r := new T[alen + blen](_ => first);
    var i := 0;
    while i < alen
      invariant 0 <= i <= alen
      invariant r[..i] == a[..i]
    {
      r[i] := a[i];
      i := i + 1;
    }
    var j := 0;
    while j < blen
      invariant 0 <= j <= blen
      invariant r[..alen] == a[..]
      invariant r[alen..alen + j] == b[..j]
    {
      r[alen + j] := b[j];
      j := j + 1;
    }
    assert r[..] == r[..alen] + r[alen..alen + blen];
  }

  /** `concat(first, rest...)`: `first` at index 0, then `rest` in order, in a new array. */
  method ConcatFirst<T>(first: T, rest: array<T>) returns (r: array<T>)
    ensures fresh(r)
    ensures r[..] == [first] + rest[..]
  {
    r := new T[1 + rest.Length](_ => first);
    r[0] := first;
    var i := 0;
    while i < rest.Length
      invariant 0 <= i <= rest.Length
      invariant r[0] == first
      invariant r[1..1 + i] == rest[..i]
    {
      r[1 + i] := rest[i];
      i := i + 1;
    }
    assert r[..] == [r[0]] + r[1..];
  }

  /**
   * `arrayRange(source, start, length)`: a new array holding the `length`
   * elements of `source` from `start` on. With a length of zero nothing is
   * read, so any start gives an empty array; otherwise Java throws when
   * the range leaves the source, so the range is required to lie inside it.
   */
  method ArrayRange<T>(source: array<T>, start: int, length: nat) returns (r: array<T>)
    requires length == 0 || (0 <= start && start + length <= source.Length)
    ensures fresh(r)
    ensures r.Length == length
    ensures forall i :: 0 <= i < length ==> r[i] == source[start + i]
  {
    if length == 0 {
      r := new T[0];
      return;
    }
    var filler := source[start];
    r := new T[length](_ => filler);
    var i := 0;
    while i < length
      invariant 0 <= i <= length
      invariant forall k :: 0 <= k < i ==> r[k] == source[start + k]
    {
      r[i] := source[start + i];
      i := i + 1;
    }
  }

  /** `boundChecked(items, index)`: the element at `index`, or null outside the array. */
  function BoundChecked<T>(items: array<T>, index: int): (r: Option<T>)
    reads items
    ensures r.Some? <==> 0 <= index < items.Length
    ensures r.Some? ==> r.value == items[index]
  {
    if 0 <= index < items.Length then Some(items[index]) else None
  }

  /** `firstOrNull(arr)`: the first element, or null for a null or empty array. */
  function FirstOrNull<T>(arr: array?<T>): (r: Option<T>)
    reads arr
    ensures r.Some? <==> |Elements(arr)| > 0
    ensures r.Some? ==> r.value == Elements(arr)[0]
  {
    if arr != null && arr.Length > 0 then Some(arr[0]) else None
  }

  /** The first element is the bound-checked element at index 0. */
  lemma FirstIsBoundCheckedZero<T>(arr: array<T>)
    ensures FirstOrNull(arr) == BoundChecked(arr, 0)
  {
  }

  /** Concatenating an element in front makes it the first element. */
  method FirstOfConcat<T>(first: T, rest: array<T>) returns (r: Option<T>)
    ensures r == Some(first)
  {
    var c := ConcatFirst(first, rest);
    r := FirstOrNull(c);
  }

  /**
   * `removeNullElements(array)`: the non-null elements in their order. The
   * argument itself is returned when it holds no null; otherwise the
   * elements are counted and copied into a new array.
   */
  method RemoveNullElements<T>(arr: array<Option<T>>) returns (r: array<Option<T>>)
    ensures r[..] == NonNull(old(arr[..]))
    ensures forall i :: 0 <= i < r.Length ==> r[i].Some?
    ensures (forall i :: 0 <= i < arr.Length ==> arr[i].Some?) ==> r == arr
    ensures (exists i :: 0 <= i < arr.Length && arr[i].None?) ==> fresh(r)
  {
    var actualCount := 0;
    var i := 0;
    while i < arr.Length
      invariant 0 <= i <= arr.Length
      invariant actualCount == CountNonNull(arr[..i])
    {
      NonNullOfPrefix(arr[..], i);
      assert arr[..i+1] == arr[..][..i+1] && arr[..i] == arr[..][..i];
      if arr[i].Some? {
        actualCount := actualCount + 1;
      }
      i := i + 1;
    }
    assert arr[..i] == arr[..];
    NonNullIdentity(arr[..]);
    NonNullLength(arr[..]);
    if actualCount == arr.Length {
      return arr;
    }
    r := new Option<T>[actualCount](_ => None);
    actualCount := 0;
    i := 0;
    while i < arr.Length
      invariant 0 <= i <= arr.Length
      invariant actualCount == CountNonNull(arr[..i]) == |NonNull(arr[..i])|
      invariant r.Length == CountNonNull(arr[..]) && actualCount <= r.Length
      invariant r[..actualCount] == NonNull(arr[..i])
    {
      NonNullOfPrefix(arr[..], i);
      assert arr[..i+1] == arr[..][..i+1] && arr[..i] == arr[..][..i];
      NonNullLength(arr[..i+1]);
      CountNonNullOfPrefix(arr[..], i + 1);
      if arr[i].Some? {
        r[actualCount] := arr[i];
        actualCount := actualCount + 1;
      }
      i := i + 1;
    }
    assert arr[..i] == arr[..];
  }

  /**
   * `indexOf(item, items)`: the first index holding `item`, or -1. The Java
   * code compares references; here it is the element type's equality.
   */
  method IndexOf<T(==)>(item: T, items: array<T>) returns (r: int)
    ensures -1 <= r < items.Length
    ensures r == -1 <==> item !in items[..]
    ensures r >= 0 ==> items[r] == item && item !in items[..r]
  {
    var index := 0;
    while index < items.Length
      invariant 0 <= index <= items.Length
      invariant item !in items[..index]
    {
      if items[index] == item {
        return index;
      }
      assert items[..index+1] == items[..index] + [items[index]];
      index := index + 1;
    }
    assert items[..index] == items[..];
    return -1;
  }

  /** `map(elms, converter)`: a new array with `converter` applied at each position. */
  method Map<From, To>(elms: array<From>, converter: From -> To) returns (r: array<To>)
    ensures fresh(r)
    ensures r.Length == elms.Length
    ensures forall i :: 0 <= i < r.Length ==> r[i] == converter(elms[i])
  {
    if elms.Length == 0 {
      r := new To[0];
      return;
    }
    var filler := converter(elms[0]);
    r := new To[elms.Length](_ => filler);
    var i := 0;
    while i < r.Length
      invariant 0 <= i <= r.Length
      invariant forall k :: 0 <= k < i ==> r[k] == converter(elms[k])
    {
      r[i] := converter(elms[i]);
      i := i + 1;
    }
  }

  /**
   * `filter(array, predicate)`: a new array of the elements the predicate
   * accepts, in order. The array is walked with `arrayIterable`, which skips
   * null elements, so nulls never reach the predicate or the result.
   */
  method Filter<T>(arr: array<Option<T>>, keep: T -> bool) returns (r: array<Option<T>>)
    ensures fresh(r)
    ensures r[..] == Kept(arr[..], keep)
  {
    var list: seq<Option<T>> := [];
    var i := 0;
    while i < arr.Length
      invariant 0 <= i <= arr.Length
      invariant list == Kept(arr[..i], keep)
    {
      KeptOfPrefix(arr[..], keep, i);
      assert arr[..i+1] == arr[..][..i+1] && arr[..i] == arr[..][..i];
      if arr[i].Some? && keep(arr[i].value) {
        list := list + [arr[i]];
      }
      i := i + 1;
    }
    assert arr[..i] == arr[..];
    r := new Option<T>[|list|](k requires 0 <= k < |list| => list[k]);
  }
}
