// String tables (`StringTblXX.txt`): lines of `key=value` that scripts
// refer to as `$key$` inside string literals. This module reads a table
// from its text, finds the `$...$` region around a position, and expands
// the references in a string.

module StringTables {
  import opened Common
  import opened Scanner

  /** A table entry: key, value and the text range of its line. */
  datatype NameValueAssignment = NameValueAssignment(start: int, end: int, key: string, value: string)

  /** The character a string table entry is read up to. */
  const EQUALS: seq<char> := ['=']

  /**
   * One turn of the `readStringTbl` loop at `pos` (not yet at the end):
   * skip whitespace; a '#' starts a comment running to the line end; any
   * other line is `key=value`, where a missing line end leaves the value
   * empty, and a line without '=' is skipped to the end of the text.
   * Returns where the cursor ends up and the entry read, if any.
   */
  function ReadStep(s: string, pos: nat): (r: (int, Option<NameValueAssignment>))
    requires pos < |s|
    ensures r.0 > pos
  {
    var p := pos + RunLength(s, pos, WHITESPACE_DELIMITERS);
    if CodeAt(s, p) == '#' as int then
      var lineEnd := match FindDelimiter(s, p + 1, NEWLINE_DELIMITERS)
        case Some(k) => k
        case None => PastEnd(s, p + 1);
      (lineEnd, None)
    else KeyValueStep(s, p)
  }

  /**
   * A `key=value` line whose key starts at `p`: the key runs to the first
   * '=', the value from there to the line end, or is empty when no line end
   * follows; without '=' the rest of the text is skipped.
   */
  function KeyValueStep(s: string, p: nat): (r: (int, Option<NameValueAssignment>))
    ensures r.0 > p || (r.0 == p && p == |s| && r.1.None?) || p > |s|
    ensures r.1.Some? ==> r.1.value.start == p && p + |r.1.value.key| < |s|
    ensures r.1.Some? ==> s[p..p + |r.1.value.key|] == r.1.value.key && s[p + |r.1.value.key|] == '='
  {
    match FindDelimiter(s, p, EQUALS)
    case None => (PastEnd(s, p), None)
    case Some(k) =>
      match FindDelimiter(s, k + 1, NEWLINE_DELIMITERS)
      case Some(m) => (m, Some(NameValueAssignment(p, m, s[p..k], s[k + 1..m])))
      case None => (PastEnd(s, k + 1), Some(NameValueAssignment(p, PastEnd(s, k + 1), s[p..k], "")))
  }

  /** The table `readStringTbl` builds from `s`, starting at `pos` with entries `tbl`. */
  function ReadEntries(s: string, pos: int, tbl: map<string, NameValueAssignment>): map<string, NameValueAssignment>
    requires 0 <= pos
    decreases |s| - pos
  {
    if pos >= |s| then tbl
    else ReadEntries(s, ReadStep(s, pos).0, WithEntry(tbl, ReadStep(s, pos).1))
  }

  /** `tbl` with `entry`, when there is one, stored under its key. */
  function WithEntry(tbl: map<string, NameValueAssignment>, entry: Option<NameValueAssignment>): (r: map<string, NameValueAssignment>)
    ensures entry.None? ==> r == tbl
    ensures entry.Some? ==> r == tbl[entry.value.key := entry.value]
  {
    if entry.Some? then tbl[entry.value.key := entry.value] else tbl
  }

  /** Whether `e` is a well-formed entry of `s`, stored under its own key. */
  predicate EntryOf(s: string, key: string, e: NameValueAssignment)
  {
    && e.key == key
    && 0 <= e.start && e.start + |key| < |s|
    && s[e.start..e.start + |key|] == key
    && s[e.start + |key|] == '='
    && (forall k :: 0 <= k < |key| ==> key[k] != '=')
    && (forall k :: 0 <= k < |e.value| ==> e.value[k] != '\n' && e.value[k] != '\r')
  }

  /** Every step yields a well-formed entry: key without '=', value without line breaks. */
  lemma ReadStepEntry(s: string, pos: nat)
    requires pos < |s|
    ensures ReadStep(s, pos).1.Some? ==> EntryOf(s, ReadStep(s, pos).1.value.key, ReadStep(s, pos).1.value)
  {
    var p := pos + RunLength(s, pos, WHITESPACE_DELIMITERS);
    if CodeAt(s, p) != '#' as int {
      match FindDelimiter(s, p, EQUALS)
      case None =>
      case Some(k) =>
        forall j | p <= j < k ensures s[j] != '=' {
          assert !IsDelimiter(s[j] as int, EQUALS);
        }
        var key := s[p..k];
        assert forall j :: 0 <= j < |key| ==> key[j] == s[p + j];
        match FindDelimiter(s, k + 1, NEWLINE_DELIMITERS)
        case Some(m) =>
          var value := s[k + 1..m];
          forall j | k + 1 <= j < m ensures s[j] != '\n' && s[j] != '\r' {
            assert !IsDelimiter(s[j] as int, NEWLINE_DELIMITERS);
            assert '\n' in NEWLINE_DELIMITERS && '\r' in NEWLINE_DELIMITERS;
          }
          assert forall j :: 0 <= j < |value| ==> value[j] == s[k + 1 + j];
        case None =>
    }
  }

  /** Every entry of a table read from `s` is a well-formed entry of `s`, under its own key. */
  lemma {:induction false} ReadEntriesWellFormed(s: string, pos: int, tbl: map<string, NameValueAssignment>)
    requires 0 <= pos
    requires forall key :: key in tbl ==> EntryOf(s, key, tbl[key])
    ensures forall key :: key in ReadEntries(s, pos, tbl) ==> EntryOf(s, key, ReadEntries(s, pos, tbl)[key])
    decreases |s| - pos
  {
    if pos < |s| {
      ReadStepEntry(s, pos);
      ReadEntriesWellFormed(s, ReadStep(s, pos).0, WithEntry(tbl, ReadStep(s, pos).1));
    }
  }

  /** A line whose first visible character is '#' adds no entry. */
  lemma CommentLineAddsNothing(s: string, pos: nat)
    requires pos < |s|
    requires CodeAt(s, pos + RunLength(s, pos, WHITESPACE_DELIMITERS)) == '#' as int
    ensures ReadStep(s, pos).1.None?
  {
  }

  /** A later entry with the same key replaces an earlier one. */
  lemma LaterEntryWins(s: string, pos: nat, tbl: map<string, NameValueAssignment>)
    requires pos < |s|
    requires ReadStep(s, pos).1.Some?
    ensures ReadEntries(s, pos, tbl) ==
      ReadEntries(s, ReadStep(s, pos).0, tbl[ReadStep(s, pos).1.value.key := ReadStep(s, pos).1.value])
  {
  }

  /** A well-terminated `key=value` line yields exactly that entry. */
  lemma KeyValueLine(key: string, value: string, rest: string)
    requires |key| > 0 && key[0] !in WHITESPACE_DELIMITERS && key[0] != '#'
    requires forall k :: 0 <= k < |key| ==> key[k] != '='
    requires forall k :: 0 <= k < |value| ==> value[k] != '\n' && value[k] != '\r'
    ensures ReadStep(key + "=" + value + "\n" + rest, 0) ==
      (|key| + 1 + |value|, Some(NameValueAssignment(0, |key| + 1 + |value|, key, value)))
  {
    var s := key + "=" + value + "\n" + rest;
    assert s[0] == key[0];
    assert !IsDelimiter(CodeAt(s, 0), WHITESPACE_DELIMITERS);
    assert s[|key|] == '=' && '=' in EQUALS;
    forall j | 0 <= j < |key| ensures !IsDelimiter(s[j] as int, EQUALS) {
      assert s[j] == key[j];
    }
    assert s[|key| + 1 + |value|] == '\n' && '\n' in NEWLINE_DELIMITERS;
    forall j | |key| + 1 <= j < |key| + 1 + |value| ensures !IsDelimiter(s[j] as int, NEWLINE_DELIMITERS) {
      assert s[j] == value[j - |key| - 1];
    }
    RunLengthAt(s, 0, 0, WHITESPACE_DELIMITERS);
    FindDelimiterAt(s, 0, EQUALS, |key|);
    FindDelimiterAt(s, |key| + 1, NEWLINE_DELIMITERS, |key| + 1 + |value|);
    assert s[0..|key|] == key;
    assert s[|key| + 1..|key| + 1 + |value|] == value;
  }

  lemma FindDelimiterAt(s: string, from: nat, delims: seq<char>, k: nat)
    requires from <= k < |s|
    requires IsDelimiter(s[k] as int, delims)
    requires forall j :: from <= j < k ==> !IsDelimiter(s[j] as int, delims)
    ensures FindDelimiter(s, from, delims) == Some(k)
    decreases k - from
  {
    if from < k {
      FindDelimiterAt(s, from + 1, delims, k);
    }
  }

  class StringTbl {
    var entries: map<string, NameValueAssignment>

    /** `new StringTbl()`: an empty table. */
    constructor ()
      ensures entries == map[]
    {
      entries := map[];
    }

    /** `addTblEntry(key, value, start, end)`: stores the entry, replacing any under the same key. */
    method AddTblEntry(key: string, value: string, start: int, end: int)
      modifies this
      ensures entries == old(entries)[key := NameValueAssignment(start, end, key, value)]
    {
      entries := entries[key := NameValueAssignment(start, end, key, value)];
    }

    /** `findDeclaration(name)`: the entry stored under `name`, if any. */
    function FindDeclaration(name: string): (r: Option<NameValueAssignment>)
      reads this
      ensures r.Some? <==> name in entries
      ensures r.Some? ==> r.value == entries[name]
    {
      if name in entries then Some(entries[name]) else None
    }
  }

  /**
   * `readStringTbl(reader, tbl)`: scans `text` with a buffered scanner and
   * adds every `key=value` line to `tbl`.
   */
  method ReadStringTbl(text: string, tbl: StringTbl)
    modifies tbl
    ensures tbl.entries == ReadEntries(text, 0, old(tbl.entries))
  {
    var scanner := new BufferedScanner(text);
    while !scanner.ReachedEOF()
      invariant fresh(scanner) && scanner.buffer == text
      invariant 0 <= scanner.offset
      invariant ReadEntries(text, 0, old(tbl.entries)) == ReadEntries(text, scanner.offset, tbl.entries)
      decreases |text| - scanner.offset
    {
      ghost var pos := scanner.offset;
      ghost var before := tbl.entries;
      ReadOneLine(scanner, tbl);
      assert ReadEntries(text, pos, before) == ReadEntries(text, scanner.offset, tbl.entries);
    }
  }

  /** One turn of the `readStringTbl` loop, performing `ReadStep`. */
  method ReadOneLine(scanner: BufferedScanner, tbl: StringTbl)
    requires 0 <= scanner.offset < |scanner.buffer|
    modifies scanner, tbl
    ensures scanner.offset == ReadStep(scanner.buffer, old(scanner.offset)).0
    ensures tbl.entries == WithEntry(old(tbl.entries), ReadStep(scanner.buffer, old(scanner.offset)).1)
  {
    ghost var text := scanner.buffer;
    ghost var pos := scanner.offset;
    ghost var p := pos + RunLength(text, pos, WHITESPACE_DELIMITERS);
    var _ := scanner.EatWhitespace();
    assert scanner.offset == p && scanner.buffer == text;
    var c := scanner.Read();
    if c == '#' as int {
      assert CodeAt(text, p) == '#' as int;
      assert scanner.offset == p + 1;
      var _ := scanner.ReadStringUntil(NEWLINE_DELIMITERS);
    } else {
      assert CodeAt(text, p) != '#' as int;
      scanner.Unread();
      assert scanner.offset == p;
      ReadKeyValue(scanner, tbl);
    }
  }

  /** The `key=value` part of a `readStringTbl` turn, performing `KeyValueStep`. */
  method ReadKeyValue(scanner: BufferedScanner, tbl: StringTbl)
    requires 0 <= scanner.offset
    modifies scanner, tbl
    ensures scanner.offset == KeyValueStep(scanner.buffer, old(scanner.offset)).0
    ensures tbl.entries == WithEntry(old(tbl.entries), KeyValueStep(scanner.buffer, old(scanner.offset)).1)
  {
    ghost var text := scanner.buffer;
    var start := scanner.GetPosition();
    ghost var found := FindDelimiter(text, start, EQUALS);
    var key := scanner.ReadStringUntil(EQUALS);
    var eq := scanner.Read();
    if eq == '=' as int {
      assert found.Some? && key == Some(text[start..found.value]);
      ghost var lineEnd := FindDelimiter(text, found.value + 1, NEWLINE_DELIMITERS);
      var value := scanner.ReadStringUntil(NEWLINE_DELIMITERS);
      if value.None? {
        assert lineEnd.None? && scanner.offset == PastEnd(text, found.value + 1);
        value := Some("");
      } else {
        assert lineEnd.Some? && scanner.offset == lineEnd.value;
      }
      tbl.AddTblEntry(key.value, value.value, start, scanner.GetPosition());
    } else {
      assert found.None?;
      scanner.Unread();
    }
  }

  /** A text region with the text it covers, as `EntityRegion` carries it. */
  datatype EntityRegion = EntityRegion(start: int, length: int, text: string)

  /**
   * `entryRegionInString(stringValue, exprStart, offset)`: the `$...$`
   * around `offset` — the last '$' before it and the first '$' at or after
   * it. The region is shifted by `exprStart + 1` (past the literal's
   * opening quote) and covers both dollars; its text lies between them.
   */
  function EntryRegionInString(stringValue: string, exprStart: int, offset: int): (r: Option<EntityRegion>)
    ensures r.Some? <==> LastIndexOfFrom(stringValue, '$', offset - 1) != -1 && IndexOfFrom(stringValue, '$', offset) != -1
    ensures r.Some? ==>
      var first := LastIndexOfFrom(stringValue, '$', offset - 1);
      var second := IndexOfFrom(stringValue, '$', offset);
      && first < second
      && stringValue[first] == '$' && stringValue[second] == '$'
      && r.value.start == exprStart + 1 + first
      && r.value.length == second - first + 1
      && r.value.text == stringValue[first + 1..second]
      && (forall k :: 0 <= k < |r.value.text| ==> r.value.text[k] != '$')
  {
    var firstDollar := LastIndexOfFrom(stringValue, '$', offset - 1);
    var secondDollar := IndexOfFrom(stringValue, '$', offset);
    if firstDollar != -1 && secondDollar != -1 then
      var entry := stringValue[firstDollar + 1..secondDollar];
      assert forall k :: 0 <= k < |entry| ==> entry[k] == stringValue[firstDollar + 1 + k];
      Some(EntityRegion(exprStart + 1 + firstDollar, secondDollar - firstDollar + 1, entry))
    else None
  }

  /**
   * `entryForLanguagePref(stringValue, exprStart, offset, container, returnNullIfNotFound)`:
   * the `$...$` region around `offset` together with the entry of
   * `table` (the container's string table for the preferred language,
   * None when it has none) named by the region's text. With
   * `returnNullIfNotFound`, a region whose entry is missing gives None.
   */
  function EntryForLanguagePref(stringValue: string, exprStart: int, offset: int,
                                table: Option<map<string, NameValueAssignment>>,
                                returnNullIfNotFound: bool): (r: Option<(EntityRegion, Option<NameValueAssignment>)>)
    ensures r.Some? ==> EntryRegionInString(stringValue, exprStart, offset) == Some(r.value.0)
    ensures r.Some? && r.value.1.Some? ==>
      table.Some? && r.value.0.text in table.value && r.value.1.value == table.value[r.value.0.text]
    ensures r.Some? && r.value.1.None? ==> table.None? || r.value.0.text !in table.value
    ensures r.Some? && returnNullIfNotFound ==> r.value.1.Some?
    ensures r.None? ==> (EntryRegionInString(stringValue, exprStart, offset).None? ||
      (returnNullIfNotFound && (table.None? || EntryRegionInString(stringValue, exprStart, offset).value.text !in table.value)))
  {
    match EntryRegionInString(stringValue, exprStart, offset)
    case None => None
    case Some(region) =>
      var e := if table.Some? && region.text in table.value then Some(table.value[region.text]) else None;
      if e.None? && returnNullIfNotFound then None else Some((region, e))
  }

  /** What `evaluateEntries` returns. */
  datatype EvaluationResult = EvaluationResult(
    evaluated: string,
    singleDeclarationRegionUsed: Option<EntityRegion>,
    anySubstitutionsApplied: bool)

  /**
   * The variables of the `evaluateEntries` loop: the text built so far, the
   * last region substituted, the `moreThanOneSubstitution` flag, whether any
   * substitution was applied, and how many were.
   */
  datatype EvalState = EvalState(out: string, reg: Option<EntityRegion>, more: bool, applied: bool, count: nat)

  const INITIAL_STATE := EvalState("", None, false, false, 0)

  /**
   * The substitution `evaluateEntries` makes for the '$' at `i`: the region
   * from it to the next '$' and the value its text names in `table`.
   */
  function SubstitutionAt(value: string, i: nat, table: Option<map<string, NameValueAssignment>>): (r: Option<(EntityRegion, string)>)
    requires i < |value| && value[i] == '$'
    ensures r.Some? ==> table.Some? && r.value.0.text in table.value && r.value.1 == table.value[r.value.0.text].value
    ensures r.Some? ==> r.value.0.start == i + 1 && r.value.0.length >= 2 && i + r.value.0.length <= |value|
    ensures r.Some? ==> value[i + 1..i + r.value.0.length - 1] == r.value.0.text && value[i + r.value.0.length - 1] == '$'
    ensures r.None? ==> (IndexOfFrom(value, '$', i + 1) == -1 || table.None? ||
      value[i + 1..IndexOfFrom(value, '$', i + 1)] !in table.value)
  {
    match EntryForLanguagePref(value, 0, i + 1, table, true)
    case None => None
    case Some((region, e)) => Some((region, e.value.value))
  }

  /**
   * One turn of the `evaluateEntries` loop at `i`. A '$' that is not the
   * last character starts a substitution when its region names an entry;
   * with `evaluateEscapes`, a backslash that is not the last character is
   * dropped and the character after it copied; every other character is
   * copied. As written, every such '$' sets `moreThanOneSubstitution` to
   * whether a region was already substituted; `corrected` sets it only when
   * a second substitution is actually made.
   */
  function EvalStep(value: string, i: nat, table: Option<map<string, NameValueAssignment>>,
                    escapes: bool, corrected: bool, st: EvalState): (r: (nat, EvalState))
    requires i < |value|
    ensures i < r.0 <= |value|
  {
    if i + 1 < |value| && value[i] == '$' then
      var sub := SubstitutionAt(value, i, table);
      if sub.Some? then
        (i + sub.value.0.length, EvalState(st.out + sub.value.1, Some(sub.value.0), st.reg.Some?, true, st.count + 1))
      else
        (i + 1, st.(out := st.out + [value[i]], more := if corrected then st.more else st.reg.Some?))
    else if i + 1 < |value| && value[i] == '\\' && escapes then
      (i + 2, st.(out := st.out + [value[i + 1]]))
    else
      (i + 1, st.(out := st.out + [value[i]]))
  }

  /** The loop of `evaluateEntries` from position `i` in state `st` to its end. */
  function EvalFrom(value: string, i: nat, table: Option<map<string, NameValueAssignment>>,
                    escapes: bool, corrected: bool, st: EvalState): EvalState
    decreases |value| - i
  {
    if i >= |value| then st
    else
      var (next, st') := EvalStep(value, i, table, escapes, corrected, st);
      EvalFrom(value, next, table, escapes, corrected, st')
  }

  /** One turn of the loop followed by the rest of it. */
  lemma EvalFromUnfold(value: string, i: nat, table: Option<map<string, NameValueAssignment>>,
                       escapes: bool, corrected: bool, st: EvalState)
    requires i < |value|
    ensures EvalFrom(value, i, table, escapes, corrected, st) ==
      EvalFrom(value, EvalStep(value, i, table, escapes, corrected, st).0, table, escapes, corrected,
               EvalStep(value, i, table, escapes, corrected, st).1)
  {
  }

  /** The result `evaluateEntries` builds from its final loop state. */
  function Finish(st: EvalState): EvaluationResult
  {
    EvaluationResult(st.out, if st.more then None else st.reg, st.applied)
  }

  /** `evaluateEntries(context, value, evaluateEscapes)`, as written (`corrected` false) or corrected. */
  function EvaluateEntriesWith(value: string, table: Option<map<string, NameValueAssignment>>,
                               escapes: bool, corrected: bool): EvaluationResult
  {
    Finish(EvalFrom(value, 0, table, escapes, corrected, INITIAL_STATE))
  }

  /** The loop keeps: a region is recorded exactly when a substitution was made, and, corrected, the flag counts past one. */
  predicate Consistent(st: EvalState, corrected: bool)
  {
    && (st.reg.Some? <==> st.count > 0)
    && (st.applied <==> st.count > 0)
    && (corrected ==> (st.more <==> st.count > 1))
    && (!corrected && st.more ==> st.count > 0)
  }

  lemma {:induction false} EvalFromConsistent(value: string, i: nat, table: Option<map<string, NameValueAssignment>>,
                                              escapes: bool, corrected: bool, st: EvalState)
    requires Consistent(st, corrected)
    ensures Consistent(EvalFrom(value, i, table, escapes, corrected, st), corrected)
    ensures EvalFrom(value, i, table, escapes, corrected, st).count >= st.count
    decreases |value| - i
  {
    if i < |value| {
      var (next, st') := EvalStep(value, i, table, escapes, corrected, st);
      EvalFromConsistent(value, next, table, escapes, corrected, st');
    }
  }

  /**
   * With the correction, a single region is reported exactly when exactly
   * one substitution was made, and substitutions are reported applied
   * exactly when there was at least one.
   */
  lemma SingleRegionIffOneSubstitution(value: string, table: Option<map<string, NameValueAssignment>>, escapes: bool)
    ensures var final := EvalFrom(value, 0, table, escapes, true, INITIAL_STATE);
      && (EvaluateEntriesWith(value, table, escapes, true).singleDeclarationRegionUsed.Some? <==> final.count == 1)
      && (EvaluateEntriesWith(value, table, escapes, true).anySubstitutionsApplied <==> final.count > 0)
  {
    EvalFromConsistent(value, 0, table, escapes, true, INITIAL_STATE);
  }

  /** As written, too, a reported region implies that substitutions were applied. */
  lemma RegionImpliesApplied(value: string, table: Option<map<string, NameValueAssignment>>, escapes: bool, corrected: bool)
    ensures EvaluateEntriesWith(value, table, escapes, corrected).singleDeclarationRegionUsed.Some? ==>
      EvaluateEntriesWith(value, table, escapes, corrected).anySubstitutionsApplied
  {
    EvalFromConsistent(value, 0, table, escapes, corrected, INITIAL_STATE);
  }

  /** Text with neither '$' nor (when escapes are evaluated) a backslash is copied unchanged. */
  lemma {:induction false} EvalFromPlain(value: string, i: nat, table: Option<map<string, NameValueAssignment>>,
                                         escapes: bool, corrected: bool, st: EvalState)
    requires i <= |value|
    requires forall k :: i <= k < |value| ==> value[k] != '$' && (escapes ==> value[k] != '\\')
    ensures EvalFrom(value, i, table, escapes, corrected, st) == st.(out := st.out + value[i..])
    decreases |value| - i
  {
    if i < |value| {
      var st' := st.(out := st.out + [value[i]]);
      assert EvalStep(value, i, table, escapes, corrected, st) == (i + 1, st');
      EvalFromPlain(value, i + 1, table, escapes, corrected, st');
      assert st.out + [value[i]] + value[i + 1..] == st.out + value[i..];
    }
  }

  lemma PlainTextUnchanged(value: string, table: Option<map<string, NameValueAssignment>>, escapes: bool, corrected: bool)
    requires forall k :: 0 <= k < |value| ==> value[k] != '$' && (escapes ==> value[k] != '\\')
    ensures EvaluateEntriesWith(value, table, escapes, corrected) == EvaluationResult(value, None, false)
  {
    EvalFromPlain(value, 0, table, escapes, corrected, INITIAL_STATE);
  }

  /** A string that is exactly one reference `$key$` to an entry evaluates to the entry's value, with its region. */
  lemma SingleReference(key: string, table: map<string, NameValueAssignment>, escapes: bool, corrected: bool)
    requires forall k :: 0 <= k < |key| ==> key[k] != '$'
    requires key in table
    ensures EvaluateEntriesWith("$" + key + "$", Some(table), escapes, corrected) ==
      EvaluationResult(table[key].value, Some(EntityRegion(1, |key| + 2, key)), true)
  {
    var value := "$" + key + "$";
    var second := |key| + 1;
    assert value[1..second] == key;
    assert IndexOfFrom(value, '$', 1) == second by {
      assert value[second] == '$';
      forall k | 1 <= k < second ensures value[k] != '$' {
        assert value[k] == key[k - 1];
      }
    }
    assert LastIndexOfFrom(value, '$', 0) == 0;
    var region := EntityRegion(1, |key| + 2, key);
    assert SubstitutionAt(value, 0, Some(table)) == Some((region, table[key].value));
    var st := EvalState(table[key].value, Some(region), false, true, 1);
    assert value[0] == '$' && 1 < |value|;
    var step := EvalStep(value, 0, Some(table), escapes, corrected, INITIAL_STATE);
    assert step.0 == |value|;
    assert step.1.out == st.out;
    assert step.1.reg == st.reg;
    assert step.1.more == st.more;
    assert step.1.count == 1;
    EvalFromUnfold(value, 0, Some(table), escapes, corrected, INITIAL_STATE);
  }

  /**
   * With escapes evaluated, a backslash followed by any character stands
   * for that character; otherwise both are copied.
   */
  lemma BackslashEscape(c: char, table: Option<map<string, NameValueAssignment>>, corrected: bool)
    ensures EvaluateEntriesWith(['\\', c], table, true, corrected).evaluated == [c]
    ensures EvaluateEntriesWith(['\\', c], table, false, corrected).evaluated == ['\\', c]
  {
    var value := ['\\', c];
    var escaped := INITIAL_STATE.(out := [c]);
    assert |value| == 2 && value[0] == '\\' && value[1] == c;
    var step := EvalStep(value, 0, table, true, corrected, INITIAL_STATE);
    assert step.0 == 2;
    assert step.1 == escaped;
    EvalFromUnfold(value, 0, table, true, corrected, INITIAL_STATE);
    var copied := INITIAL_STATE.(out := ['\\']);
    var step' := EvalStep(value, 0, table, false, corrected, INITIAL_STATE);
    assert step'.0 == 1 && step'.1 == copied;
    EvalFromUnfold(value, 0, table, false, corrected, INITIAL_STATE);
    var step'' := EvalStep(value, 1, table, false, corrected, copied);
    assert step''.0 == 2 && step''.1 == copied.(out := ['\\', c]);
    EvalFromUnfold(value, 1, table, false, corrected, copied);
  }

  /**
   * As written, a '$' that starts no substitution but comes after one
   * still sets `moreThanOneSubstitution`: with `a` in the table, "$a$ $x"
   * makes one substitution and yet reports no single region. The corrected
   * loop reports the region.
   */
  lemma StrayDollarHidesRegion(e: NameValueAssignment)
    ensures EvalFrom("$a$ $x", 0, Some(map["a" := e]), false, false, INITIAL_STATE).count == 1
    ensures EvaluateEntriesWith("$a$ $x", Some(map["a" := e]), false, false).singleDeclarationRegionUsed.None?
    ensures EvaluateEntriesWith("$a$ $x", Some(map["a" := e]), false, true).singleDeclarationRegionUsed ==
      Some(EntityRegion(1, 3, "a"))
  {
    StrayDollarRun(e, false);
    StrayDollarRun(e, true);
  }

  /** The evaluation of "$a$ $x", with and without the correction. */
  lemma StrayDollarRun(e: NameValueAssignment, corrected: bool)
    ensures EvalFrom("$a$ $x", 0, Some(map["a" := e]), false, corrected, INITIAL_STATE) ==
      EvalState(e.value + " $x", Some(EntityRegion(1, 3, "a")), !corrected, true, 1)
  {
    StrayDollarHead(e, corrected);
    StrayDollarTail(e, corrected);
  }

  /** Up to the stray '$': the substitution of "a" and the blank after it. */
  lemma StrayDollarHead(e: NameValueAssignment, corrected: bool)
    ensures EvalFrom("$a$ $x", 0, Some(map["a" := e]), false, corrected, INITIAL_STATE) ==
      EvalFrom("$a$ $x", 4, Some(map["a" := e]), false, corrected,
               EvalState(e.value + " ", Some(EntityRegion(1, 3, "a")), false, true, 1))
  {
    var value := "$a$ $x";
    var table := Some(map["a" := e]);
    var s3 := EvalState(e.value, Some(EntityRegion(1, 3, "a")), false, true, 1);
    StrayStepAt0(e, corrected);
    EvalFromUnfold(value, 0, table, false, corrected, INITIAL_STATE);
    StrayStepAt3(e, corrected);
    EvalFromUnfold(value, 3, table, false, corrected, s3);
  }

  /** The '$' at 0 substitutes "a" and moves past its closing '$'. */
  lemma StrayStepAt0(e: NameValueAssignment, corrected: bool)
    ensures EvalStep("$a$ $x", 0, Some(map["a" := e]), false, corrected, INITIAL_STATE) ==
      (3, EvalState(e.value, Some(EntityRegion(1, 3, "a")), false, true, 1))
  {
    StrayDollarSubstitutions(e);
    var value := "$a$ $x";
    assert value[0] == '$';
    assert INITIAL_STATE.out + e.value == e.value;
  }

  /** The blank at 3 is copied. */
  lemma StrayStepAt3(e: NameValueAssignment, corrected: bool)
    ensures EvalStep("$a$ $x", 3, Some(map["a" := e]), false, corrected,
                     EvalState(e.value, Some(EntityRegion(1, 3, "a")), false, true, 1)) ==
      (4, EvalState(e.value + " ", Some(EntityRegion(1, 3, "a")), false, true, 1))
  {
    var value := "$a$ $x";
    assert value[3] == ' ';
    assert e.value + [value[3]] == e.value + " ";
  }

  /** From the stray '$' on: it opens no substitution, and only the loop as written counts it. */
  lemma StrayDollarTail(e: NameValueAssignment, corrected: bool)
    ensures EvalFrom("$a$ $x", 4, Some(map["a" := e]), false, corrected,
                     EvalState(e.value + " ", Some(EntityRegion(1, 3, "a")), false, true, 1)) ==
      EvalState(e.value + " $x", Some(EntityRegion(1, 3, "a")), !corrected, true, 1)
  {
    var value := "$a$ $x";
    var table := Some(map["a" := e]);
    var s4 := EvalState(e.value + " ", Some(EntityRegion(1, 3, "a")), false, true, 1);
    var s5 := EvalState(e.value + " $", Some(EntityRegion(1, 3, "a")), !corrected, true, 1);
    StrayStepAt4(e, corrected);
    EvalFromUnfold(value, 4, table, false, corrected, s4);
    StrayStepAt5(e, corrected);
    EvalFromUnfold(value, 5, table, false, corrected, s5);
  }

  /** The stray '$' at 4 is copied; the loop as written marks a second substitution. */
  lemma StrayStepAt4(e: NameValueAssignment, corrected: bool)
    ensures EvalStep("$a$ $x", 4, Some(map["a" := e]), false, corrected,
                     EvalState(e.value + " ", Some(EntityRegion(1, 3, "a")), false, true, 1)) ==
      (5, EvalState(e.value + " $", Some(EntityRegion(1, 3, "a")), !corrected, true, 1))
  {
    StrayDollarSubstitutions(e);
    var value := "$a$ $x";
    assert value[4] == '$';
    assert (e.value + " ") + [value[4]] == e.value + " $";
  }

  /** The last character is copied. */
  lemma StrayStepAt5(e: NameValueAssignment, corrected: bool)
    ensures EvalStep("$a$ $x", 5, Some(map["a" := e]), false, corrected,
                     EvalState(e.value + " $", Some(EntityRegion(1, 3, "a")), !corrected, true, 1)) ==
      (6, EvalState(e.value + " $x", Some(EntityRegion(1, 3, "a")), !corrected, true, 1))
  {
    var value := "$a$ $x";
    assert value[5] == 'x';
    assert (e.value + " $") + [value[5]] == e.value + " $x";
  }

  /** The '$' at 0 opens the substitution of "a"; the one at 4 opens none. */
  lemma StrayDollarSubstitutions(e: NameValueAssignment)
    ensures SubstitutionAt("$a$ $x", 0, Some(map["a" := e])) == Some((EntityRegion(1, 3, "a"), e.value))
    ensures SubstitutionAt("$a$ $x", 4, Some(map["a" := e])).None?
  {
    var value := "$a$ $x";
    assert IndexOfFrom(value, '$', 1) == 2;
    assert LastIndexOfFrom(value, '$', 0) == 0;
    assert value[1..2] == "a";
    assert IndexOfFrom(value, '$', 5) == -1;
  }

  /** One turn of the `evaluateEntries` loop, performing `EvalStep` with the correction. */
  method EvaluateAt(value: string, i: nat, table: Option<map<string, NameValueAssignment>>, evaluateEscapes: bool,
                    builder: string, reg: Option<EntityRegion>, moreThanOneSubstitution: bool,
                    substitutionsApplied: bool, ghost count: nat)
    returns (i': nat, builder': string, reg': Option<EntityRegion>, more': bool, applied': bool, ghost count': nat)
    requires i < |value|
    ensures (i', EvalState(builder', reg', more', applied', count')) ==
      EvalStep(value, i, table, evaluateEscapes, true, EvalState(builder, reg, moreThanOneSubstitution, substitutionsApplied, count))
  {
    i', builder', reg', more', applied', count' := i, builder, reg, moreThanOneSubstitution, substitutionsApplied, count;
    if i + 1 < |value| {
      if value[i] == '$' {
        var region := EntryForLanguagePref(value, 0, i + 1, table, true);
        if region.Some? {
          more' := reg.Some?;
          applied' := true;
          builder' := builder + region.value.1.value.value;
          i' := i + region.value.0.length;
          reg' := Some(region.value.0);
          count' := count + 1;
          return;
        }
      } else if value[i] == '\\' && evaluateEscapes {
        // Both arms of the inner switch copy the character after the backslash.
        i' := i + 1;
        builder' := builder + [value[i']];
        i' := i' + 1;
        return;
      }
    }
    builder' := builder + [value[i]];
    i' := i + 1;
  }

  /**
   * `evaluateEntries(context, value, evaluateEscapes)` with the flag set
   * only when a second substitution is made.
   */
  method EvaluateEntries(value: string, table: Option<map<string, NameValueAssignment>>, evaluateEscapes: bool)
    returns (r: EvaluationResult)
    ensures r == EvaluateEntriesWith(value, table, evaluateEscapes, true)
  {
    var builder := "";
    var reg: Option<EntityRegion> := None;
    var moreThanOneSubstitution := false;
    var substitutionsApplied := false;
    ghost var count := 0;
    var i := 0;
    while i < |value|
      invariant 0 <= i <= |value|
      invariant EvalFrom(value, 0, table, evaluateEscapes, true, INITIAL_STATE) ==
        EvalFrom(value, i, table, evaluateEscapes, true, EvalState(builder, reg, moreThanOneSubstitution, substitutionsApplied, count))
      decreases |value| - i
    {
      EvalFromUnfold(value, i, table, evaluateEscapes, true,
        EvalState(builder, reg, moreThanOneSubstitution, substitutionsApplied, count));
      i, builder, reg, moreThanOneSubstitution, substitutionsApplied, count :=
        EvaluateAt(value, i, table, evaluateEscapes, builder, reg, moreThanOneSubstitution, substitutionsApplied, count);
    }
    return EvaluationResult(builder, if moreThanOneSubstitution then None else reg, substitutionsApplied);
  }
}
