// The reader of Windows-ini style configuration files (`IniUnit`): it
// splits a text into `[Section]` headers, each followed by `key=value`
// entries, skipping comments, and keeps the sections both in a map by name
// and in a list in file order.
//
// The functions at the top of the module say, of a text and a cursor
// position, what each parsing step yields and where it leaves the cursor;
// the methods of the class, which drive the scanner, are proved to do
// exactly that.

module IniUnits {
  import opened Common
  import opened Scanner

  /** An entry: where it starts (its key) and ends (its value), its key, and its value (null when no line end follows). */
  datatype IniEntry = IniEntry(start: int, end: int, key: string, value: Option<string>)

  /** A section: where its header starts and ends, its name and its entries by key. */
  datatype Section = Section(start: int, end: int, name: string, entries: map<string, IniEntry>)

  /** What a parsing step yields and where it leaves the cursor. */
  datatype Step<T> = Step(result: T, next: int)

  /** The characters `parseEntry` skips between '=' and the value. */
  const ENTRY_BLANKS: seq<char> := [' ', '\t']
  /** The characters that end a section name. */
  const SECTION_NAME_END: seq<char> := [']', '\n', '\r']
  /** The character that ends a ';' or '#' comment. */
  const LINE_END: seq<char> := ['\n']

  // ---------------------------------------------------------------------
  // Where the scanner's loops leave the cursor
  // ---------------------------------------------------------------------

  /** Where `eat(delims)` leaves the cursor: past the run of `delims`; nowhere else at the end. */
  function EatRun(s: string, i: int, delims: seq<char>): (r: int)
    requires 0 <= i
    ensures i <= r
    ensures i < |s| ==> r <= |s|
    ensures i >= |s| ==> r == i
  {
    if i < |s| then i + RunLength(s, i, delims) else i
  }

  /** Where `readStringUntil(delims)` leaves the cursor: on the delimiter, or past the end. */
  function UntilDelimiter(s: string, i: int, delims: seq<char>): (r: int)
    requires 0 <= i
    ensures i <= r
    ensures i < |s| ==> r <= |s|
  {
    match FindDelimiter(s, i, delims)
    case Some(k) => k
    case None => PastEnd(s, i)
  }

  /** What `readStringUntil(delims)` reads: up to the delimiter, or null when there is none. */
  function ReadUntil(s: string, i: int, delims: seq<char>): (r: Option<string>)
    requires 0 <= i
    ensures r.Some? ==> forall k :: 0 <= k < |r.value| ==> !IsDelimiter(r.value[k] as int, delims)
  {
    match FindDelimiter(s, i, delims)
    case Some(k) => Some(s[i..k])
    case None => None
  }

  /** Where `eatUntil(delims)` leaves the cursor: just past the delimiter, or past the end. */
  function PastDelimiter(s: string, i: int, delims: seq<char>): (r: int)
    requires 0 <= i
    ensures i < r
    ensures i < |s| ==> r <= |s|
  {
    match FindDelimiter(s, i, delims)
    case Some(k) => k + 1
    case None => PastEnd(s, i)
  }

  // ---------------------------------------------------------------------
  // skipComment()
  // ---------------------------------------------------------------------

  /** The first position at or after `i` that does not hold a NUL character. */
  function SkipNuls(s: string, i: int): (p: int)
    requires 0 <= i
    ensures i <= p && CodeAt(s, p) != 0
    ensures forall k :: i <= k < p ==> CodeAt(s, k) == 0
    decreases |s| - i
  {
    if CodeAt(s, i) == 0 then SkipNuls(s, i + 1) else i
  }

  /** Where the block-comment loop stops: just past the first "*" "/" pair, or at the end. */
  function BlockCommentEnd(s: string, i: int): (r: int)
    requires 0 <= i
    ensures i <= r
    ensures i <= |s| ==> r <= |s|
    decreases |s| - i
  {
    if i >= |s| then i
    else if s[i] == '*' && CodeAt(s, i + 1) == '/' as int then i + 2
    else BlockCommentEnd(s, i + 1)
  }

  /** A block comment ends just past the first closing pair; without one, it runs to the end. */
  lemma {:induction false} BlockCommentEndIsPair(s: string, i: int)
    requires 0 <= i <= |s|
    ensures BlockCommentEnd(s, i) == match FindPair(s, i, '*', '/') case Some(k) => k + 2 case None => |s|
    decreases |s| - i
  {
    if i < |s| && !(s[i] == '*' && CodeAt(s, i + 1) == '/' as int) {
      BlockCommentEndIsPair(s, i + 1);
      if i + 1 < |s| {
        assert !(s[i] == '*' && s[i + 1] == '/');
      }
    }
  }

  /**
   * `skipComment()`: after any NUL characters, a ';' or '#' comment runs
   * to the line end, a "//" comment to the line end and a block comment to
   * its closing pair, each followed by whitespace, and the comment is
   * consumed; anything else is put back and nothing is consumed but the
   * NULs.
   */
  function SkipCommentSpec(s: string, i: int): (r: Step<bool>)
    requires 0 <= i
    ensures r.result ==> i < |s| && i < r.next <= |s| + 1
    ensures !r.result ==> r.next == SkipNuls(s, i)
  {
    CommentAt(s, SkipNuls(s, i))
  }

  /** `skipComment()` once the NULs are behind: the comment that opens at `p`, if any. */
  function CommentAt(s: string, p: int): (r: Step<bool>)
    requires 0 <= p && CodeAt(s, p) != 0
    ensures r.result ==> p < |s| && p < r.next <= |s| + 1
    ensures !r.result ==> r.next == p
  {
    var c := CodeAt(s, p);
    if c == ';' as int || c == '#' as int then
      Step(true, EatRun(s, UntilDelimiter(s, p + 1, LINE_END), WHITESPACE_DELIMITERS))
    else if c == '/' as int then
      var c2 := CodeAt(s, p + 1);
      if c2 == '/' as int then Step(true, EatRun(s, PastDelimiter(s, p + 2, NEWLINE_DELIMITERS), WHITESPACE_DELIMITERS))
      else if c2 == '*' as int then Step(true, EatRun(s, BlockCommentEnd(s, p + 2), WHITESPACE_DELIMITERS))
      else Step(false, p)
    else Step(false, p)
  }

  /** A ';' or '#' comment is consumed up to and including its line end. */
  lemma LineCommentSkipped(s: string, i: int)
    requires 0 <= i < |s| && (s[i] == ';' || s[i] == '#')
    ensures SkipCommentSpec(s, i).result
    ensures match FindDelimiter(s, i + 1, LINE_END)
              case Some(k) => SkipCommentSpec(s, i).next > k
              case None => SkipCommentSpec(s, i).next >= |s|
  {
    var k := UntilDelimiter(s, i + 1, LINE_END);
    if FindDelimiter(s, i + 1, LINE_END).Some? {
      assert s[k] == '\n' by {
        DelimiterIn(s[k], LINE_END);
      }
      IsDelimiterOf('\n', WHITESPACE_DELIMITERS);
      assert RunLength(s, k, WHITESPACE_DELIMITERS) > 0;
    }
  }

  /** A "//" comment is consumed up to and including its line end. */
  lemma SlashCommentSkipped(s: string, i: int)
    requires 0 <= i && i + 1 < |s| && s[i] == '/' && s[i + 1] == '/'
    ensures SkipCommentSpec(s, i).result
    ensures match FindDelimiter(s, i + 2, NEWLINE_DELIMITERS)
              case Some(k) => SkipCommentSpec(s, i).next > k
              case None => SkipCommentSpec(s, i).next >= |s|
  {
  }

  /** A block comment is consumed up to and including its closing pair. */
  lemma BlockCommentSkipped(s: string, i: int)
    requires 0 <= i && i + 1 < |s| && s[i] == '/' && s[i + 1] == '*'
    ensures SkipCommentSpec(s, i).result
    ensures match FindPair(s, i + 2, '*', '/')
              case Some(k) => SkipCommentSpec(s, i).next >= k + 2
              case None => SkipCommentSpec(s, i).next >= |s|
  {
    BlockCommentEndIsPair(s, i + 2);
  }

  /** Text that opens no comment is left where it is. */
  lemma NoCommentKept(s: string, i: int)
    requires 0 <= i < |s| && s[i] != '\0' && s[i] != ';' && s[i] != '#'
    requires s[i] == '/' ==> i + 1 < |s| && s[i + 1] != '/' && s[i + 1] != '*'
    ensures !SkipCommentSpec(s, i).result && SkipCommentSpec(s, i).next == i
  {
  }

  /** `while (skipComment());`: where the cursor stops once no further comment follows. */
  function SkipAllComments(s: string, i: int): (r: int)
    requires 0 <= i
    ensures i <= r
    ensures !SkipCommentSpec(s, r).result && SkipCommentSpec(s, r).next == r
    decreases |s| - i
  {
    var st := SkipCommentSpec(s, i);
    if st.result then SkipAllComments(s, st.next) else st.next
  }

  // ---------------------------------------------------------------------
  // parseEntry()
  // ---------------------------------------------------------------------

  /**
   * `parseEntry(section, modifyMarkers)`: after comments and whitespace, a
   * '[' ends the section's entries and the cursor goes back to where the
   * whitespace began; the end of the input ends them too. Otherwise the
   * key is the identifier there, followed by whitespace and one character
   * (meant to be '='), blanks, and the value up to the line end; the line
   * ends are consumed. A configuration-free reader keeps each entry as read.
   */
  function EntrySpec(s: string, i: int): (r: Step<Option<IniEntry>>)
    requires 0 <= i
    ensures r.result.Some? ==> i < |s| && i < r.next
    ensures i <= r.next
  {
    EntryAt(s, SkipAllComments(s, i))
  }

  /** The part of `parseEntry` after the comments, which end at `p`. */
  function EntryAt(s: string, p: int): (r: Step<Option<IniEntry>>)
    requires 0 <= p
    ensures r.result.Some? ==> p <= r.result.value.start < |s| && r.result.value.start < r.next
    ensures p <= r.next
  {
    var w := EatRun(s, p, WHITESPACE_DELIMITERS);
    if CodeAt(s, w) == '[' as int then Step(None, p)
    else if w >= |s| then Step(None, w)
    else
      var e := EntryBody(s, w);
      Step(Some(e.result), e.next)
  }

  /**
   * An entry whose key starts at `w`: the identifier there, whitespace and
   * one character (meant to be '='), blanks, and the value up to the line
   * end; the line ends after it are consumed.
   */
  function EntryBody(s: string, w: int): (r: Step<IniEntry>)
    requires 0 <= w < |s|
    ensures r.result.start == w < r.result.end <= r.next
  {
    var v := ValueStart(s, w);
    var valEnd := UntilDelimiter(s, v, NEWLINE_DELIMITERS);
    Step(IniEntry(w, valEnd, WordAt(s, w), ReadUntil(s, v, NEWLINE_DELIMITERS)), EatRun(s, valEnd, NEWLINE_DELIMITERS))
  }

  /** Where the value of an entry whose key starts at `w` begins. */
  function ValueStart(s: string, w: int): (r: int)
    requires 0 <= w
    ensures w + WordLength(s, w) < r
  {
    EatRun(s, EatRun(s, w + WordLength(s, w), WHITESPACE_DELIMITERS) + 1, ENTRY_BLANKS)
  }

  /** When a section header follows, the entry parser reads nothing and rewinds to before the whitespace. */
  lemma EntryStopsAtSection(s: string, i: int)
    requires 0 <= i
    requires CodeAt(s, EatRun(s, SkipAllComments(s, i), WHITESPACE_DELIMITERS)) == '[' as int
    ensures EntrySpec(s, i).result.None? && EntrySpec(s, i).next == SkipAllComments(s, i)
  {
  }

  /**
   * An entry read once the comments end at `i` starts after `i` on the
   * identifier it names, and its value holds no line end.
   */
  lemma EntryShape(s: string, i: int)
    requires 0 <= i && EntryAt(s, i).result.Some?
    ensures var e := EntryAt(s, i).result.value;
      && i <= e.start < e.end
      && e.start + |e.key| <= |s| && s[e.start..e.start + |e.key|] == e.key
      && (forall k :: 0 <= k < |e.key| ==> IsWordPart(e.key[k] as int))
      && s[e.start] != '['
      && (e.value.Some? ==> forall k :: 0 <= k < |e.value.value| ==> e.value.value[k] !in NEWLINE_DELIMITERS)
  {
    var e := EntryAt(s, i).result.value;
    var w := e.start;
    forall k | 0 <= k < |e.key|
      ensures IsWordPart(e.key[k] as int)
    {
      assert e.key[k] == s[w + k];
      assert IsWordPart(CodeAt(s, w + k));
    }
    if e.value.Some? {
      forall k | 0 <= k < |e.value.value|
        ensures e.value.value[k] !in NEWLINE_DELIMITERS
      {
        NotDelimiter(e.value.value[k], NEWLINE_DELIMITERS);
      }
    }
  }

  /** A character of `delims` counts as a delimiter when read. */
  lemma NotDelimiter(c: char, delims: seq<char>)
    requires !IsDelimiter(c as int, delims)
    ensures c !in delims
  {
  }

  /** A character read as a delimiter is one of `delims`. */
  lemma DelimiterIn(c: char, delims: seq<char>)
    requires IsDelimiter(c as int, delims)
    ensures c in delims
  {
    var d :| d in delims && d as int == c as int;
    assert d == c;
  }

  /** A character of `delims` is a delimiter. */
  lemma IsDelimiterOf(c: char, delims: seq<char>)
    requires c in delims
    ensures IsDelimiter(c as int, delims)
  {
    assert c in delims && c as int == c as int;
  }

  /** `while ((entry = parseEntry(...)) != null)`: the entries read one after another. */
  function EntriesFrom(s: string, i: int): (r: Step<seq<IniEntry>>)
    requires 0 <= i
    ensures i <= r.next
    decreases |s| - i
  {
    var e := EntrySpec(s, i);
    if e.result.None? then Step([], e.next)
    else
      var rest := EntriesFrom(s, e.next);
      Step([e.result.value] + rest.result, rest.next)
  }

  // ---------------------------------------------------------------------
  // Maps filled by `put` in list order
  // ---------------------------------------------------------------------


  /** The map that `put(keyOf(x), x)` for each `x` of `l` in turn fills. */
  function KeyedMap<T>(l: seq<T>, keyOf: T -> string): map<string, T>
  {
    if l == [] then map[] else KeyedMap(l[..|l| - 1], keyOf)[keyOf(l[|l| - 1]) := l[|l| - 1]]
  }

  /**
   * Moving one element from the front of a remainder to the end of what was
   * taken keeps their concatenation, and puts the element into the map.
   */
  lemma TakeOne<T>(taken: seq<T>, x: T, rest: seq<T>, keyOf: T -> string)
    ensures (taken + [x]) + rest == taken + ([x] + rest)
    ensures KeyedMap(taken + [x], keyOf) == KeyedMap(taken, keyOf)[keyOf(x) := x]
  {
    assert (taken + [x])[..|taken|] == taken;
  }

  /** The map holds exactly the keys of the list, each for the last element with that key. */
  lemma {:induction false} KeyedMapIsLast<T>(l: seq<T>, keyOf: T -> string, key: string)
    ensures key in KeyedMap(l, keyOf) <==> exists i :: 0 <= i < |l| && keyOf(l[i]) == key
    ensures key in KeyedMap(l, keyOf) ==>
      exists i :: 0 <= i < |l| && KeyedMap(l, keyOf)[key] == l[i] && keyOf(l[i]) == key && forall j :: i < j < |l| ==> keyOf(l[j]) != key
  {
    if l != [] {
      var front := l[..|l| - 1];
      KeyedMapIsLast(front, keyOf, key);
      assert forall i :: 0 <= i < |front| ==> front[i] == l[i];
      if keyOf(l[|l| - 1]) != key && key in KeyedMap(front, keyOf) {
        var i :| 0 <= i < |front| && KeyedMap(front, keyOf)[key] == front[i] &&
          keyOf(front[i]) == key && forall j :: i < j < |front| ==> keyOf(front[j]) != key;
        assert KeyedMap(l, keyOf)[key] == l[i];
      }
    }
  }

  function EntryKey(e: IniEntry): string { e.key }
  function SectionName(s: Section): string { s.name }

  // ---------------------------------------------------------------------
  // parseSection() and parse()
  // ---------------------------------------------------------------------

  /** A section header: where it starts and ends, and the name between its brackets. */
  datatype Header = Header(start: int, end: int, name: string)

  /**
   * The head of `parseSection(modifyMarkers)`: after whitespace, a '['
   * opens a header whose name runs up to ']'; a line end or the end of the
   * input before it yields null. Anything but '[' is put back and yields
   * null.
   */
  function HeaderSpec(s: string, i: int): (r: Step<Option<Header>>)
    requires 0 <= i
    ensures r.result.Some? ==> i <= r.result.value.start < r.result.value.end == r.next <= |s|
  {
    var w := EatRun(s, i, WHITESPACE_DELIMITERS);
    if CodeAt(s, w) != '[' as int then Step(None, w)
    else
      match FindDelimiter(s, w + 1, SECTION_NAME_END)
      case None => Step(None, PastEnd(s, w + 1) + 1)
      case Some(k) =>
        if s[k] != ']' then Step(None, k + 1)
        else Step(Some(Header(w, k + 1, s[w + 1..k])), k + 1)
  }

  /**
   * A header read at `i` starts, after whitespace only, on a '[', and ends
   * with the ']' that closes its name; the name holds neither ']' nor a
   * line end.
   */
  lemma HeaderShape(s: string, i: int)
    requires 0 <= i && HeaderSpec(s, i).result.Some?
    ensures var h := HeaderSpec(s, i).result.value;
      && s[h.start] == '[' && s[h.end - 1] == ']' && s[h.start + 1..h.end - 1] == h.name
      && (forall k :: i <= k < h.start ==> IsDelimiter(CodeAt(s, k), WHITESPACE_DELIMITERS))
      && (forall k :: 0 <= k < |h.name| ==> h.name[k] !in SECTION_NAME_END)
  {
    var h := HeaderSpec(s, i).result.value;
    var w := h.start;
    var k := h.end - 1;
    assert FindDelimiter(s, w + 1, SECTION_NAME_END) == Some(k);
    forall j | 0 <= j < |h.name|
      ensures h.name[j] !in SECTION_NAME_END
    {
      assert h.name[j] == s[w + 1 + j];
      NotDelimiter(s[w + 1 + j], SECTION_NAME_END);
    }
  }

  /** `parseSection(modifyMarkers)`: a header and the entries that follow it. */
  function SectionSpec(s: string, i: int): (r: Step<Option<Section>>)
    requires 0 <= i
    ensures r.result.Some? ==> i <= r.result.value.start < r.result.value.end <= r.next && r.result.value.start < |s|
  {
    var h := HeaderSpec(s, i);
    if h.result.None? then Step(None, h.next)
    else
      var entries := EntriesFrom(s, h.next);
      var hd := h.result.value;
      Step(Some(Section(hd.start, hd.end, hd.name, KeyedMap(entries.result, EntryKey))), entries.next)
  }

  /** The sections read one after another from position `i` until one fails to parse. */
  function SectionsFrom(s: string, i: int): (r: seq<Section>)
    requires 0 <= i
    decreases |s| - i
  {
    var sec := SectionSpec(s, i);
    if sec.result.None? then [] else [sec.result.value] + SectionsFrom(s, sec.next)
  }

  /** Parsed sections lie in file order: each starts at or after `i`, inside the text, and after the one before. */
  lemma {:induction false} SectionsAscending(s: string, i: int)
    requires 0 <= i
    ensures forall a :: 0 <= a < |SectionsFrom(s, i)| ==> i <= SectionsFrom(s, i)[a].start < |s|
    ensures forall a, b :: 0 <= a < b < |SectionsFrom(s, i)| ==> SectionsFrom(s, i)[a].start < SectionsFrom(s, i)[b].start
    decreases |s| - i
  {
    var sec := SectionSpec(s, i);
    if sec.result.Some? {
      var rest := SectionsFrom(s, sec.next);
      SectionsAscending(s, sec.next);
      var all := SectionsFrom(s, i);
      assert all == [sec.result.value] + rest;
      assert forall a :: 0 < a < |all| ==> all[a] == rest[a - 1];
    }
  }

  /** The text of a section header: `sectionToString(section)`. */
  function SectionToString(name: string): (r: string)
  {
    "[" + name + "]"
  }

  /** A printed header reads back as the header of that name, whatever follows it. */
  lemma SectionToStringParses(name: string, rest: string)
    requires forall k :: 0 <= k < |name| ==> name[k] !in SECTION_NAME_END
    ensures HeaderSpec(SectionToString(name) + rest, 0).result == Some(Header(0, |name| + 2, name))
  {
    var s := SectionToString(name) + rest;
    assert s[0] == '[';
    assert !IsDelimiter('[' as int, WHITESPACE_DELIMITERS);
    assert RunLength(s, 0, WHITESPACE_DELIMITERS) == 0;
    forall k | 1 <= k < |name| + 1
      ensures !IsDelimiter(s[k] as int, SECTION_NAME_END)
    {
      assert s[k] == name[k - 1];
    }
    assert s[|name| + 1] == ']';
    IsDelimiterOf(']', SECTION_NAME_END);
    assert FindDelimiter(s, 1, SECTION_NAME_END) == Some(|name| + 1) by {
      FindDelimiterAt(s, 1, |name| + 1, SECTION_NAME_END);
    }
    assert s[1..|name| + 1] == name;
  }

  /** The first delimiter at or after `from` is at `k` when `k` holds one and nothing before it does. */
  lemma {:induction false} FindDelimiterAt(s: string, from: int, k: int, delims: seq<char>)
    requires 0 <= from <= k < |s|
    requires IsDelimiter(s[k] as int, delims)
    requires forall j :: from <= j < k ==> !IsDelimiter(s[j] as int, delims)
    ensures FindDelimiter(s, from, delims) == Some(k)
    decreases k - from
  {
    if from < k {
      FindDelimiterAt(s, from + 1, k, delims);
    }
  }

  // ---------------------------------------------------------------------
  // sectionAtOffset()
  // ---------------------------------------------------------------------

  /** Where the walk of `sectionAtOffset` sees a section start: pushed by `addIfOverOffset` when beyond `offset`. */
  function AdjustedStart(sec: Section, offset: int, addIfOverOffset: int): int
  {
    if sec.start > offset then sec.start + addIfOverOffset else sec.start
  }

  /**
   * `sectionAtOffset(offset, addIfOverOffset)` over the sections `l` still
   * to walk, `found` being the last section passed so far.
   */
  function AtOffset(l: seq<Section>, offset: int, addIfOverOffset: int, found: Option<Section>): Option<Section>
  {
    if l == [] then found
    else if AdjustedStart(l[0], offset, addIfOverOffset) > offset then found
    else AtOffset(l[1..], offset, addIfOverOffset, Some(l[0]))
  }

  /** The index of the last section of `l` starting at or before `offset`. */
  function LastStartingBefore(l: seq<Section>, offset: int): (r: Option<nat>)
    ensures r.Some? ==> r.value < |l| && l[r.value].start <= offset
    ensures r.Some? ==> forall j :: r.value < j < |l| ==> l[j].start > offset
    ensures r.None? ==> forall j :: 0 <= j < |l| ==> l[j].start > offset
  {
    if l == [] then None
    else if l[|l| - 1].start <= offset then Some(|l| - 1)
    else LastStartingBefore(l[..|l| - 1], offset)
  }

  /** Sections whose starts ascend. */
  ghost predicate Ascending(l: seq<Section>)
  {
    forall a, b :: 0 <= a < b < |l| ==> l[a].start < l[b].start
  }

  /**
   * For sections in file order and a non-negative push, the walk finds the
   * last section starting at or before `offset`.
   */
  lemma {:induction false} AtOffsetIsLastStartingBefore(l: seq<Section>, offset: int, addIfOverOffset: int, found: Option<Section>)
    requires Ascending(l) && addIfOverOffset >= 0
    ensures LastStartingBefore(l, offset).None? ==> AtOffset(l, offset, addIfOverOffset, found) == found
    ensures LastStartingBefore(l, offset).Some? ==>
      AtOffset(l, offset, addIfOverOffset, found) == Some(l[LastStartingBefore(l, offset).value])
  {
    if l != [] {
      if l[0].start <= offset {
        AtOffsetIsLastStartingBefore(l[1..], offset, addIfOverOffset, Some(l[0]));
        LastStartingBeforeOfTail(l, offset);
      }
    }
  }

  /** With ascending starts and a first section at or before `offset`, the last such lies in the tail, or is the first. */
  lemma LastStartingBeforeOfTail(l: seq<Section>, offset: int)
    requires |l| > 0 && l[0].start <= offset
    ensures LastStartingBefore(l, offset).Some?
    ensures LastStartingBefore(l[1..], offset).None? ==> LastStartingBefore(l, offset).value == 0
    ensures LastStartingBefore(l[1..], offset).Some? ==>
      LastStartingBefore(l, offset).value == LastStartingBefore(l[1..], offset).value + 1
  {
    var r := LastStartingBefore(l, offset);
    var t := LastStartingBefore(l[1..], offset);
    if t.Some? {
      assert l[t.value + 1].start <= offset;
    }
  }

  class IniUnit {
    /** The scanner over the configuration text. */
    const reader: BufferedScanner
    /** The sections by name; of sections sharing a name, the last one read. */
    var sectionsMap: map<string, Section>
    /** All sections, in file order. */
    var sectionsList: seq<Section>

    /** `new IniUnit(text)`: a reader over `text` that has read no sections yet. */
    constructor (text: string)
      ensures fresh(reader) && reader.buffer == text && reader.offset == 0
      ensures sectionsMap == map[] && sectionsList == []
    {
      reader := new BufferedScanner(text);
      sectionsMap := map[];
      sectionsList := [];
    }

    /** The NUL-skipping loop of `skipComment()`: reads up to and including the first other code. */
    method ReadPastNuls() returns (c: int)
      requires 0 <= reader.offset
      modifies reader
      ensures reader.offset == SkipNuls(reader.buffer, old(reader.offset)) + 1
      ensures c == CodeAt(reader.buffer, reader.offset - 1)
    {
      ghost var i := reader.offset;
      c := reader.Read();
      while c == 0
        invariant 1 <= reader.offset && c == CodeAt(reader.buffer, reader.offset - 1)
        invariant SkipNuls(reader.buffer, reader.offset - 1) == SkipNuls(reader.buffer, i)
        decreases |reader.buffer| - reader.offset
      {
        c := reader.Read();
      }
    }

    /** The block-comment loop of `skipComment()`: reads up to and including the closing pair. */
    method SkipBlockComment()
      requires 0 <= reader.offset
      modifies reader
      ensures reader.offset == BlockCommentEnd(reader.buffer, old(reader.offset))
    {
      ghost var i := reader.offset;
      var closed := false;
      while !closed && !reader.ReachedEOF()
        invariant i <= reader.offset
        invariant !closed ==> BlockCommentEnd(reader.buffer, reader.offset) == BlockCommentEnd(reader.buffer, i)
        invariant closed ==> reader.offset == BlockCommentEnd(reader.buffer, i)
        decreases |reader.buffer| - reader.offset, if closed then 0 else 1
      {
        var d := reader.Read();
        if d == '*' as int {
          var d2 := reader.Read();
          if d2 == '/' as int {
            closed := true;
          } else {
            reader.Unread();
          }
        }
      }
    }

    /** `skipComment()`. */
    method SkipComment() returns (r: bool)
      requires 0 <= reader.offset
      modifies reader
      ensures r == SkipCommentSpec(reader.buffer, old(reader.offset)).result
      ensures reader.offset == SkipCommentSpec(reader.buffer, old(reader.offset)).next
    {
      var c := ReadPastNuls();
      r := SkipCommentAfter(c);
    }

    /** The part of `skipComment()` after the NULs, with `c` the character just read. */
    method SkipCommentAfter(c: int) returns (r: bool)
      requires 1 <= reader.offset && c == CodeAt(reader.buffer, reader.offset - 1) && c != 0
      modifies reader
      ensures r == CommentAt(reader.buffer, old(reader.offset) - 1).result
      ensures reader.offset == CommentAt(reader.buffer, old(reader.offset) - 1).next
    {
      ghost var s := reader.buffer;
      ghost var p := reader.offset - 1;
      if c == ';' as int || c == '#' as int {
        var line := reader.ReadStringUntil(LINE_END);
        assert reader.offset == UntilDelimiter(s, p + 1, LINE_END);
        var blanks := reader.EatWhitespace();
        return true;
      } else if c == '/' as int {
        var c2 := reader.Read();
        if c2 == '/' as int {
          reader.MoveUntil(NEWLINE_DELIMITERS);
          assert reader.offset == PastDelimiter(s, p + 2, NEWLINE_DELIMITERS);
          var blanks := reader.EatWhitespace();
          return true;
        } else if c2 == '*' as int {
          SkipBlockComment();
          var blanks := reader.EatWhitespace();
          return true;
        } else {
          reader.Unread();
          reader.Unread();
          return false;
        }
      } else {
        reader.Unread();
        return false;
      }
    }

    /** `while (skipComment());`. */
    method SkipComments()
      requires 0 <= reader.offset
      modifies reader
      ensures reader.offset == SkipAllComments(reader.buffer, old(reader.offset))
    {
      ghost var i := reader.offset;
      while true
        invariant 0 <= reader.offset
        invariant SkipAllComments(reader.buffer, reader.offset) == SkipAllComments(reader.buffer, i)
        decreases |reader.buffer| - reader.offset
      {
        var more := SkipComment();
        if !more {
          break;
        }
      }
    }

    /** `parseEntry(section, modifyMarkers)`, without the markers it reports. */
    method ParseEntry() returns (r: Option<IniEntry>)
      requires 0 <= reader.offset
      modifies reader
      ensures r == EntrySpec(reader.buffer, old(reader.offset)).result
      ensures reader.offset == EntrySpec(reader.buffer, old(reader.offset)).next
    {
      SkipComments();
      r := ReadEntry();
    }

    /** The part of `parseEntry` after the comments. */
    method ReadEntry() returns (r: Option<IniEntry>)
      requires 0 <= reader.offset
      modifies reader
      ensures r == EntryAt(reader.buffer, old(reader.offset)).result
      ensures reader.offset == EntryAt(reader.buffer, old(reader.offset)).next
    {
      ghost var s := reader.buffer;
      var start := reader.GetPosition();
      var blanks := reader.EatWhitespace();
      ghost var w := EatRun(s, start, WHITESPACE_DELIMITERS);
      assert reader.offset == w;
      var c := reader.Read();
      if c == '[' as int {
        reader.Seek(start);
        return None;
      }
      reader.Unread();
      if reader.ReachedEOF() {
        return None;
      }
      ghost var spec := EntryBody(s, w);
      var entry := ReadEntryBody();
      assert entry == spec.result;
      return Some(entry);
    }

    /** The key and value of an entry whose key starts at the cursor. */
    method ReadEntryBody() returns (r: IniEntry)
      requires 0 <= reader.offset < |reader.buffer|
      modifies reader
      ensures r == EntryBody(reader.buffer, old(reader.offset)).result
      ensures reader.offset == EntryBody(reader.buffer, old(reader.offset)).next
    {
      ghost var s := reader.buffer;
      var keyStart := reader.GetPosition();
      var key := reader.ReadWord();
      ghost var n := WordLength(s, keyStart);
      assert key == Some(WordAt(s, keyStart)) && reader.offset == keyStart + n;
      var blanks := reader.EatWhitespace();
      ghost var e := EatRun(s, keyStart + n, WHITESPACE_DELIMITERS);
      assert reader.offset == e;
      var equals := reader.Read();  // '=' is expected here; another character only causes a marker
      blanks := reader.Eat(ENTRY_BLANKS);
      ghost var v := ValueStart(s, keyStart);
      assert reader.offset == v;
      var value := reader.ReadStringUntil(NEWLINE_DELIMITERS);
      assert value == ReadUntil(s, v, NEWLINE_DELIMITERS);
      var valEnd := reader.GetPosition();
      assert valEnd == UntilDelimiter(s, v, NEWLINE_DELIMITERS);
      blanks := reader.Eat(NEWLINE_DELIMITERS);
      assert reader.offset == EatRun(s, valEnd, NEWLINE_DELIMITERS);
      ghost var spec := EntryBody(s, keyStart);
      assert spec.result.key == key.value;
      assert spec.result.value == value;
      return IniEntry(keyStart, valEnd, key.value, value);
    }

    /** The head of `parseSection(modifyMarkers)`, without the markers it reports. */
    method ReadHeader() returns (r: Option<Header>)
      requires 0 <= reader.offset
      modifies reader
      ensures r == HeaderSpec(reader.buffer, old(reader.offset)).result
      ensures reader.offset == HeaderSpec(reader.buffer, old(reader.offset)).next
    {
      var blanks := reader.EatWhitespace();
      var start := reader.GetPosition();
      var c := reader.Read();
      if c == '[' as int {
        var name := reader.ReadStringUntil(SECTION_NAME_END);
        var close := reader.Read();
        if close != ']' as int {
          return None;
        }
        var end := reader.GetPosition();
        return Some(Header(start, end, name.value));
      } else {
        reader.Unread();
        return None;
      }
    }

    /** One turn of the entry loop: the first of the entries from the cursor, if any. */
    method NextEntry() returns (r: Option<IniEntry>)
      requires 0 <= reader.offset
      modifies reader
      ensures r.None? ==> EntriesFrom(reader.buffer, old(reader.offset)) == Step([], reader.offset)
      ensures r.Some? ==> old(reader.offset) < reader.offset
      ensures r.Some? ==> EntriesFrom(reader.buffer, old(reader.offset)) == Step([r.value] + EntriesFrom(reader.buffer, reader.offset).result, EntriesFrom(reader.buffer, reader.offset).next)
    {
      r := ParseEntry();
    }

    /** The entry loop of `parseSection`: each entry goes into the map under its key. */
    method ReadEntries() returns (entries: map<string, IniEntry>)
      requires 0 <= reader.offset
      modifies reader
      ensures entries == KeyedMap(EntriesFrom(reader.buffer, old(reader.offset)).result, EntryKey)
      ensures reader.offset == EntriesFrom(reader.buffer, old(reader.offset)).next
    {
      ghost var s := reader.buffer;
      ghost var from := reader.offset;
      ghost var got: seq<IniEntry> := [];
      entries := map[];
      while true
        invariant from <= reader.offset
        invariant got + EntriesFrom(s, reader.offset).result == EntriesFrom(s, from).result
        invariant EntriesFrom(s, reader.offset).next == EntriesFrom(s, from).next
        invariant entries == KeyedMap(got, EntryKey)
        decreases |s| - reader.offset
      {
        ghost var rest := EntriesFrom(s, reader.offset);
        var entry := NextEntry();
        if entry.None? {
          break;
        }
        entries := entries[entry.value.key := entry.value];
        TakeOne(got, entry.value, EntriesFrom(s, reader.offset).result, EntryKey);
        got := got + [entry.value];
      }
      assert got == EntriesFrom(s, from).result;
    }

    /** `parseSection(modifyMarkers)`, without the markers it reports. */
    method ParseSection() returns (r: Option<Section>)
      requires 0 <= reader.offset
      modifies reader
      ensures r == SectionSpec(reader.buffer, old(reader.offset)).result
      ensures reader.offset == SectionSpec(reader.buffer, old(reader.offset)).next
    {
      var header := ReadHeader();
      if header.None? {
        return None;
      }
      var entries := ReadEntries();
      return Some(Section(header.value.start, header.value.end, header.value.name, entries));
    }

    /** One turn of the section loop: the first of the sections from the cursor, if any. */
    method NextSection() returns (r: Option<Section>)
      requires 0 <= reader.offset
      modifies reader
      ensures r.None? ==> SectionsFrom(reader.buffer, old(reader.offset)) == []
      ensures r.Some? ==> old(reader.offset) < reader.offset
      ensures r.Some? ==> SectionsFrom(reader.buffer, old(reader.offset)) == [r.value] + SectionsFrom(reader.buffer, reader.offset)
    {
      r := ParseSection();
    }

    /**
     * `parse(modifyMarkers)`: forgets the sections read before, then reads
     * sections from the start of the text until one fails to parse; each
     * goes into the list and, by its name, into the map.
     */
    method Parse()
      modifies this, reader
      ensures sectionsList == SectionsFrom(reader.buffer, 0)
      ensures sectionsMap == KeyedMap(sectionsList, SectionName)
    {
      sectionsList := [];
      sectionsMap := map[];
      reader.Seek(0);
      while true
        invariant 0 <= reader.offset
        invariant sectionsList + SectionsFrom(reader.buffer, reader.offset) == SectionsFrom(reader.buffer, 0)
        invariant sectionsMap == KeyedMap(sectionsList, SectionName)
        decreases |reader.buffer| - reader.offset
      {
        var section := NextSection();
        if section.None? {
          break;
        }
        sectionsMap := sectionsMap[section.value.name := section.value];
        TakeOne(sectionsList, section.value, SectionsFrom(reader.buffer, reader.offset), SectionName);
        sectionsList := sectionsList + [section.value];
      }
    }

    /** `sectionWithName(name)`: the section of that name, or null. */
    function SectionWithName(name: string): (r: Option<Section>)
      reads this
      ensures r.Some? <==> name in sectionsMap
      ensures r.Some? ==> r.value == sectionsMap[name]
    {
      if name in sectionsMap then Some(sectionsMap[name]) else None
    }

    /** `sectionAtOffset(offset, addIfOverOffset)`: walks the sections in order while they start at or before `offset`. */
    method SectionAtOffset(offset: int, addIfOverOffset: int) returns (r: Option<Section>)
      ensures r == AtOffset(sectionsList, offset, addIfOverOffset, None)
    {
      var sections := sectionsList;
      r := None;
      var i := 0;
      while i < |sections|
        invariant 0 <= i <= |sections|
        invariant AtOffset(sections[i..], offset, addIfOverOffset, r) == AtOffset(sections, offset, addIfOverOffset, None)
      {
        assert sections[i..][1..] == sections[i + 1..];
        var start := sections[i].start;
        if start > offset {
          start := start + addIfOverOffset;
        }
        if start > offset {
          break;
        }
        r := Some(sections[i]);
        i := i + 1;
      }
    }
  }

  /** Section `i` of `l` is named `name` and no later one is. */
  predicate IsLastNamed(l: seq<Section>, i: int, name: string)
  {
    0 <= i < |l| && l[i].name == name && forall j :: i < j < |l| ==> l[j].name != name
  }

  /** After parsing, the section found by name is the last one in the file carrying that name. */
  lemma ParsedSectionWithName(unit: IniUnit, name: string)
    requires unit.sectionsMap == KeyedMap(unit.sectionsList, SectionName)
    ensures unit.SectionWithName(name).Some? <==> exists i :: 0 <= i < |unit.sectionsList| && unit.sectionsList[i].name == name
    ensures unit.SectionWithName(name).Some? ==>
      exists i :: IsLastNamed(unit.sectionsList, i, name) && unit.SectionWithName(name).value == unit.sectionsList[i]
  {
    KeyedMapIsLast(unit.sectionsList, SectionName, name);
  }

  /** After parsing, `sectionAtOffset` with a non-negative push finds the last section starting at or before `offset`. */
  lemma ParsedSectionAtOffset(unit: IniUnit, offset: int, addIfOverOffset: int)
    requires unit.sectionsList == SectionsFrom(unit.reader.buffer, 0) && addIfOverOffset >= 0
    ensures var last := LastStartingBefore(unit.sectionsList, offset);
      && (last.None? ==> AtOffset(unit.sectionsList, offset, addIfOverOffset, None).None?)
      && (last.Some? ==> AtOffset(unit.sectionsList, offset, addIfOverOffset, None) == Some(unit.sectionsList[last.value]))
  {
    SectionsAscending(unit.reader.buffer, 0);
    AtOffsetIsLastStartingBefore(unit.sectionsList, offset, addIfOverOffset, None);
  }
}
