# C4DT core, modelled in Dafny

C4DT is an Eclipse plugin for editing scripts of the Clonk game engines. This
project models the parts of it that are plain, sequential logic, and proves
what they promise:

- the `BufferedScanner` cursor and the script parser's recognisers for
  numbers, operators, IDs and comments (`scanner.dfy`, `script_parser.dfy`);
- the 204-byte C4Group header: its little-endian integers, its writer and
  the checks of its reader (`group_header.dfy`);
- the text formats: StringTbl `key=value` tables and `$key$` substitution
  (`string_tbl.dfy`), DefCore integer arrays (`integer_array.dfy`),
  `K=V;K=V` array values (`array_value.dfy`) and INI units
  (`ini_unit.dfy`, `ini_section.dfy`);
- the containers updated in place: ini sections (a map beside a list),
  proplist components kept unique by name (`proplist.dfy`), texture-map
  index allocation (`texture_map.dfy`) and the index of definitions, whose
  additions wait while a script iteration runs (`index.dfy`);
- the enums and small rules: type assignability and conversion
  (`types.dfy`), function and variable scopes and their keywords
  (`function.dfy`, `variable.dfy`, `keywords.dfy`), directives
  (`directive.dfy`), the constant-name heuristic and the walks up a
  declaration's parents (`declaration.dfy`), and control flow through
  blocks and if-statements (`statements.dfy`);
- the array helpers of the utility class (`array_util.dfy`).

`common.dfy` holds what the host language's library provides to all of
these: `Option` and `Result`, `String.split`, `trim`, `Integer.parseInt`,
decimal rendering, joining, ASCII case mapping and 32-bit wrap-around.

Each Java class whose fields its methods update is a Dafny `class` with
those fields; its methods are proved against functions on values, and what
the source promises is proved about those functions as lemmas. Pure helpers
and enums are datatypes and functions. Where the source throws, the model
returns an `Option` or a `Result`, or the error the exception reports.

## Model

| member | source | states |
|---|---|---|
| ArrayUtil.Concat | C4DT/src/net/arctics/clonk/util/ArrayUtil.java:16-29 | the result holds a's elements then b's; with a null or empty `a` it is `b` itself, with an empty `b` it is `a` itself, otherwise a fresh array |
| ArrayUtil.ConcatFirst | C4DT/src/net/arctics/clonk/util/ArrayUtil.java:32-38 | a fresh array holding `first` at index 0 followed by `rest` in order |
| ArrayUtil.ArrayRange | C4DT/src/net/arctics/clonk/util/ArrayUtil.java:40-47 | a fresh array of `length` elements with result[i] == source[start+i] |
| ArrayUtil.FirstOrNull | C4DT/src/net/arctics/clonk/util/ArrayUtil.java:49-51 | present exactly when the array is non-null and non-empty, and then its first element |
| ArrayUtil.BoundChecked | C4DT/src/net/arctics/clonk/util/ArrayUtil.java:147-149 | present exactly when 0 <= index < length, and then the element at index |
| ArrayUtil.FirstIsBoundCheckedZero | C4DT/src/net/arctics/clonk/util/ArrayUtil.java:49-51 | `firstOrNull` agrees with `boundChecked` at index 0 on every non-null array |
| ArrayUtil.FirstOfConcat | C4DT/src/net/arctics/clonk/util/ArrayUtil.java:32-38 | the first element of `concat(first, rest)` is `first` |
| ArrayUtil.RemoveNullElements | C4DT/src/net/arctics/clonk/util/ArrayUtil.java:53-68 | the result is the non-null elements in their order; it is the same array when nothing was null and a fresh one otherwise |
| ArrayUtil.NonNullLength | C4DT/src/net/arctics/clonk/util/ArrayUtil.java:53-58 | the non-null elements are as many as the counting loop counts |
| ArrayUtil.NonNullIdentity | C4DT/src/net/arctics/clonk/util/ArrayUtil.java:57-67 | removing nulls changes nothing exactly when there are no nulls |
| ArrayUtil.NonNullIsKeptAll | C4DT/src/net/arctics/clonk/util/ArrayUtil.java:53-68 | removing nulls is the filter whose predicate accepts everything |
| ArrayUtil.IndexOf | C4DT/src/net/arctics/clonk/util/ArrayUtil.java:151-158 | -1 exactly when the item does not occur; otherwise an index holding it with no earlier occurrence |
| ArrayUtil.Map | C4DT/src/net/arctics/clonk/util/ArrayUtil.java:181-186 | a fresh array of the same length with the converter applied at each position |
| ArrayUtil.Filter | C4DT/src/net/arctics/clonk/util/ArrayUtil.java:85-94 | a fresh array of the non-null elements the predicate accepts, in order |
| ArrayValues.ReadPart | main/src/net/arctics/clonk/ini/ArrayValue.java:71-82 | a part without '=' is invalid; a part with '=' is whatever the component parser returns for it at its offset |
| ArrayValues.ReadParts | main/src/net/arctics/clonk/ini/ArrayValue.java:64-92 | every part ends up either as a component or as an invalid part |
| ArrayValues.ReadAllParts | main/src/net/arctics/clonk/ini/ArrayValue.java:69-91 | the loop collects the components and the invalid parts in input order, with the offset advancing by each part's length plus one |
| ArrayValues.PartOffsetOfPrefix | main/src/net/arctics/clonk/ini/ArrayValue.java:90 | a part's offset depends only on the parts before it |
| ArrayValues.ReadPartsWithoutEquals | main/src/net/arctics/clonk/ini/ArrayValue.java:71-89 | when no part contains '=', there are no components and every part is invalid |
| ArrayValues.ReadPartsAllValid | main/src/net/arctics/clonk/ini/ArrayValue.java:73-83 | when every part is read, all of them become components in order and none is invalid |
| ArrayValues.FirstWithKey | main/src/net/arctics/clonk/ini/ArrayValue.java:26-33 | absent exactly when no component has the key; otherwise the first component with that key |
| ArrayValues.PairStrings | main/src/net/arctics/clonk/ini/ArrayValue.java:51-62 | one rendered pair per component, in order |
| ArrayValues.Flatten | main/src/net/arctics/clonk/ini/ArrayValue.java:109-117 | twice as many nodes as components, key at 2j and value at 2j+1 |
| ArrayValues.Pairs | main/src/net/arctics/clonk/ini/ArrayValue.java:119-124 | one component per key/value node pair, in order |
| ArrayValues.PairsOfFlatten | main/src/net/arctics/clonk/ini/ArrayValue.java:109-124 | `setSubElements(subElements())` gives back the same components |
| ArrayValues.FlattenAppend | main/src/net/arctics/clonk/ini/ArrayValue.java:24-25 | adding a component appends its key node and value node to the sub-elements |
| ArrayValues.ArrayValue.Empty | main/src/net/arctics/clonk/ini/ArrayValue.java:23 | a new value has no components |
| ArrayValues.ArrayValue.Add | main/src/net/arctics/clonk/ini/ArrayValue.java:24-25 | `add` appends the pair at the end of the components |
| ArrayValues.ArrayValue.Find | main/src/net/arctics/clonk/ini/ArrayValue.java:26-33 | `find` returns the first component with an equal key, or null |
| ArrayValues.ArrayValue.ToString | main/src/net/arctics/clonk/ini/ArrayValue.java:51-62 | the rendered pairs joined with ';', with no trailing separator |
| ArrayValues.ArrayValue.SetInput | main/src/net/arctics/clonk/ini/ArrayValue.java:64-97 | the old components are replaced by those read from the parts of a split at ';' or ','; the invalid parts, whose presence makes the method throw, are returned in order |
| ArrayValues.ArrayValue.SubElements | main/src/net/arctics/clonk/ini/ArrayValue.java:109-117 | the components flattened to alternating key and value nodes |
| ArrayValues.ArrayValue.SetSubElements | main/src/net/arctics/clonk/ini/ArrayValue.java:119-124 | the components become the consecutive key/value pairs of the nodes |
| Declarations.LooksLikeConstName | C4DT/src/net/arctics/clonk/parser/Declaration.java:346-360 | true exactly when the capitals run up to the first underscore after index 0 and no second underscore follows it (`ConstNameShape`) |
| Declarations.CapitalsLookConst | C4DT/src/net/arctics/clonk/parser/Declaration.java:346-360 | a name in capitals with at most one underscore after its first character looks like a constant |
| Declarations.SecondUnderscoreRejects | C4DT/src/net/arctics/clonk/parser/Declaration.java:350-354 | a second underscore after index 0 rejects the name, even in capitals |
| Declarations.LowerCaseInPrefixRejects | C4DT/src/net/arctics/clonk/parser/Declaration.java:355-358 | a character that is not a capital before the first underscore rejects the name |
| Declarations.QualifiedNameIsJoin | C4DT/src/net/arctics/clonk/parser/Declaration.java:460-465 | the qualified name is the names from the topmost declaration down, joined by "::"; a declaration without a parent has its own name |
| Declarations.ContainedIn | C4DT/src/net/arctics/clonk/parser/Declaration.java:472-477 | true exactly when `parent` is a strict ancestor of the declaration |
| Declarations.ContainedInTransitive | C4DT/src/net/arctics/clonk/parser/Declaration.java:472-477 | an ancestor of an ancestor is an ancestor |
| Declarations.FirstIndexEntity | C4DT/src/net/arctics/clonk/parser/Declaration.java:443-454 | the position of the nearest index entity in the chain, with no index entity below it |
| Declarations.PathRelativeToIndexEntity | C4DT/src/net/arctics/clonk/parser/Declaration.java:443-454 | the path of the declarations below the nearest index entity, innermost last |
| Declarations.PathOfIsJoin | C4DT/src/net/arctics/clonk/parser/Declaration.java:443-454 | for named declarations the path is their names from the outermost down, joined by '.' |
| Declarations.TopLevelParentDeclarationOfType | C4DT/src/net/arctics/clonk/parser/Declaration.java:116-122 | the outermost declaration of the chain that has the type, or null when none has it |
| Declarations.LastOfType | C4DT/src/net/arctics/clonk/parser/Declaration.java:116-122 | the chosen declaration has the type and none above it has it; absent exactly when none has it |
| Directives.Ordinal | C4DT/src/net/arctics/clonk/parser/c4script/Directive.java:17-20 | each kind sits at its ordinal among `values()` |
| Directives.ToStringIsLoweredName | C4DT/src/net/arctics/clonk/parser/c4script/Directive.java:22-34 | a kind prints as its constant name lower-cased |
| Directives.FindType | C4DT/src/net/arctics/clonk/parser/c4script/Directive.java:24-29 | the first kind of the list printed as `arg`; absent exactly when no kind prints as it |
| Directives.MakeType | C4DT/src/net/arctics/clonk/parser/c4script/Directive.java:24-29 | the loop returns the first kind printed as `arg`, or null |
| Directives.MakeTypeAccepts | C4DT/src/net/arctics/clonk/parser/c4script/Directive.java:24-29 | `makeType` accepts exactly "strict", "include" and "appendto" |
| Directives.MakeTypeOfToString | C4DT/src/net/arctics/clonk/parser/c4script/Directive.java:24-34 | `makeType(d.toString()) == d` for every kind |
| Directives.FromStrings | C4DT/src/net/arctics/clonk/parser/c4script/Directive.java:46-48 | a directive made from a kind name keeps its content and has a kind exactly when the name is one of the three printed kinds |
| Directives.GetName | C4DT/src/net/arctics/clonk/parser/c4script/Directive.java:72-74 | the name is the kind's constant name lower-cased |
| Directives.ReadTextOfText | C4DT/src/net/arctics/clonk/parser/c4script/Directive.java:65-69 | the printed directive is '#', the kind, and the content after one space when the content is non-empty; reading it back gives that kind and content |
| Directives.ArrayOfDirectiveStrings | C4DT/src/net/arctics/clonk/parser/c4script/Directive.java:99-104 | an array of one string per kind, with each kind's printed name at its ordinal |
| Functions.ValueOf | Clonk/src/net/arctics/clonk/parser/C4Function.java:158 | `valueOf` yields the constant whose name is exactly the string, and throws (None) when no constant has that name |
| Functions.KeywordScope | Clonk/src/net/arctics/clonk/parser/C4Function.java:154-157 | a scope is read exactly from "public", "protected", "private" and "global" |
| Functions.MakeScopeAsWritten | Clonk/src/net/arctics/clonk/parser/C4Function.java:152-160 | null is public, the four keywords give their scopes, and it fails exactly when the string is neither a keyword nor a constant name, because `valueOf` throws |
| Functions.MakeScopeAsWrittenThrows | Clonk/src/net/arctics/clonk/parser/C4Function.java:158-159 | "static" makes `makeScope` as written throw, while the corrected version returns public |
| Functions.MakeScope | Clonk/src/net/arctics/clonk/parser/C4Function.java:152-160 | agrees with the method as written wherever that returns, and is public where it throws |
| Functions.ToStringIsLoweredName | Clonk/src/net/arctics/clonk/parser/C4Function.java:162-167 | a scope prints as its constant name without "FUNC_", lower-cased |
| Functions.MakeScopeOfToString | Clonk/src/net/arctics/clonk/parser/C4Function.java:152-167 | `makeScope(s.toString()) == s` for every scope, both as written and corrected |
| Functions.FirstNamed | Clonk/src/net/arctics/clonk/parser/C4Function.java:264-271 | the first variable with the name; absent exactly when none has it |
| Functions.Resolve | Clonk/src/net/arctics/clonk/parser/C4Function.java:261-273 | "this" resolves to THIS; otherwise the variable found has the name and is a local or a parameter; nothing is found exactly when neither list has the name |
| Functions.LocalsShadowParameters | Clonk/src/net/arctics/clonk/parser/C4Function.java:264-267 | a local variable with the name is found before any parameter |
| Functions.ParameterFoundWithoutLocal | Clonk/src/net/arctics/clonk/parser/C4Function.java:268-271 | without a local of that name, a parameter with it is found |
| Functions.C4Function.FindVariable | Clonk/src/net/arctics/clonk/parser/C4Function.java:261-273 | `findVariable` returns what `Resolve` describes |
| Functions.ParameterName | Clonk/src/net/arctics/clonk/parser/C4Function.java:316 | the created parameters are named "par" followed by their number in decimal |
| Functions.ParameterNamesDistinct | Clonk/src/net/arctics/clonk/parser/C4Function.java:313-318 | created parameters have pairwise distinct names |
| Functions.C4Function.CreateParameters | Clonk/src/net/arctics/clonk/parser/C4Function.java:313-318 | with no parameters yet, exactly max(num, 0) fresh untyped `var` parameters par0, par1, … are added; with parameters, nothing changes |
| Functions.AppendedIsListAndSeparator | Clonk/src/net/arctics/clonk/parser/C4Function.java:190-211 | the loop leaves the parameter list followed by exactly the ", " that the source then deletes |
| Functions.C4Function.AppendParameters | Clonk/src/net/arctics/clonk/parser/C4Function.java:191-205 | the loop appends each printed parameter followed by ", " |
| Functions.C4Function.PrintParameterString | Clonk/src/net/arctics/clonk/parser/C4Function.java:190-212 | the output grows by the printed parameters separated by ", ", with no trailing separator |
| Functions.C4Function.GetLongParameterString | Clonk/src/net/arctics/clonk/parser/C4Function.java:179-188 | "name(" + the parameter list + ")" with the name, the bare list without it |
| Functions.C4Function.PrintHeader | Clonk/src/net/arctics/clonk/parser/C4Function.java:332-347 | the old style is "visibility name:", the new style "visibility func name(parameters)" |
| Functions.C4Function.PrintOwnHeader | Clonk/src/net/arctics/clonk/parser/C4Function.java:328-330 | the header in the function's own style |
| Functions.C4Function.constructor | Clonk/src/net/arctics/clonk/parser/C4Function.java:43-48 | a new function is global, unnamed, not old-style, with no parameters and no locals |
| Functions.C4Function.Named | Clonk/src/net/arctics/clonk/parser/C4Function.java:50-60 | a function made with a scope string has the scope the corrected `MakeScope` gives (public where `makeScope` as written throws), and no parameters or locals |
| C4Types.LowercaseNameIsLowerCase | C4DT/src/net/arctics/clonk/parser/c4script/C4Type.java:37-39 | the cached name of a type is its constant name lower-cased |
| C4Types.FindByName | C4DT/src/net/arctics/clonk/parser/c4script/C4Type.java:69-71 | the first of the listed types printed as `arg`; absent when none prints as it |
| C4Types.MakeType | C4DT/src/net/arctics/clonk/parser/c4script/C4Type.java:68-81 | an official type comes back only for its printed name (or INT for "dword" with allowSpecial), ANY only for "any" with allowSpecial, REFERENCE only for "&" or, with allowSpecial, "reference" |
| C4Types.MakeTypeOfToString | C4DT/src/net/arctics/clonk/parser/c4script/C4Type.java:30-81 | `makeType(t.toString())` gives `t` back, except ANY without allowSpecial, which gives UNKNOWN |
| C4Types.MakeTypeOfSpecialToString | C4DT/src/net/arctics/clonk/parser/c4script/C4Type.java:34-81 | with allowSpecial, the special printed name of every type reads back as that type |
| C4Types.MakeTypeOfUnknownName | C4DT/src/net/arctics/clonk/parser/c4script/C4Type.java:80 | a string that no type prints as (and not "dword") gives UNKNOWN |
| C4Types.AssignabilityRules | C4DT/src/net/arctics/clonk/parser/c4script/C4Type.java:42-60 | reflexive; UNKNOWN, ANY and REFERENCE are accepted everywhere; ANY, UNKNOWN, REFERENCE and BOOL accept everything; INT accepts exactly BOOL besides those; PROPLIST accepts exactly ID and OBJECT besides those; the other types accept only themselves besides those |
| C4Types.TypeFromAsWritten | C4DT/src/net/arctics/clonk/parser/c4script/C4Type.java:89-103 | as written an array value is typed ANY, because the `instanceof Array` test never holds for an array |
| C4Types.TypeFrom | C4DT/src/net/arctics/clonk/parser/c4script/C4Type.java:89-103 | the corrected typing gives ARRAY for arrays and agrees with the code as written everywhere else; ANY exactly for null and for other objects |
| C4Types.IntValue | C4DT/src/net/arctics/clonk/parser/c4script/C4Type.java:118 | `intValue()` keeps a number that fits in 32 bits and always yields one that fits |
| C4Types.ConvertWith | C4DT/src/net/arctics/clonk/parser/c4script/C4Type.java:110-125 | a value already of the target type, or any value converted to ANY, comes back unchanged; the only value that changes is a number converted to BOOL |
| C4Types.ConvertAsWritten | C4DT/src/net/arctics/clonk/parser/c4script/C4Type.java:110-125 | conversion with the typing as written; ANY returns the value |
| C4Types.ArrayConversionFailsAsWritten | C4DT/src/net/arctics/clonk/parser/c4script/C4Type.java:98-125 | as written, converting an array value to ARRAY fails, since the array is typed ANY |
| C4Types.Convert | C4DT/src/net/arctics/clonk/parser/c4script/C4Type.java:110-125 | conversion with the corrected typing; ANY returns the value |
| C4Types.ConvertToOwnType | C4DT/src/net/arctics/clonk/parser/c4script/C4Type.java:111-113 | every value converts to its own type unchanged |
| C4Types.ConvertToBool | C4DT/src/net/arctics/clonk/parser/c4script/C4Type.java:115-120 | a boolean stays, a number becomes "nonzero", anything else fails |
| C4Types.ConvertedValueFits | C4DT/src/net/arctics/clonk/parser/c4script/C4Type.java:110-125 | a successful conversion yields a value whose type the target accepts |
| Variables.MakeScope | C4DT/src/net/arctics/clonk/parser/c4script/C4Variable.java:203-210 | a scope is read exactly from "var", "local", "static" and "static const"; any other string gives null |
| Variables.MakeScopeOfKeyword | C4DT/src/net/arctics/clonk/parser/c4script/C4Variable.java:203-225 | `makeScope(s.toKeyword()) == s` for every scope |
| Variables.KeywordOfMakeScope | C4DT/src/net/arctics/clonk/parser/c4script/C4Variable.java:203-225 | every string `makeScope` reads is the keyword of the scope it gives |
| Variables.GlobalScopesAreStatic | C4DT/src/net/arctics/clonk/parser/c4script/C4Variable.java:313-315 | a scope is global exactly when its keyword starts with "static" |
| Variables.C4Variable.Typed | C4DT/src/net/arctics/clonk/parser/c4script/C4Variable.java:78-81 | a variable made from a name and a type has that type, no scope and no constant value |
| Variables.C4Variable.Scoped | C4DT/src/net/arctics/clonk/parser/c4script/C4Variable.java:83-89 | a variable made from a name and a scope has that scope, the type UNKNOWN and an empty description |
| Variables.C4Variable.Declared | C4DT/src/net/arctics/clonk/parser/c4script/C4Variable.java:111-113 | a variable made from a scope string has the scope `makeScope` gives |
| Variables.C4Variable.Full | C4DT/src/net/arctics/clonk/parser/c4script/C4Variable.java:91-97 | a variable made from name, type, description and scope has all four |
| Variables.C4Variable.This | C4DT/src/net/arctics/clonk/parser/c4script/C4Variable.java:71-76 | THIS is named "this", typed OBJECT, of scope `var`, with its type locked |
| Variables.C4Variable.constructor | C4DT/src/net/arctics/clonk/parser/c4script/C4Variable.java:106-109 | a new variable has an empty name, scope `var` and no type |
| Variables.C4Variable.GetType | C4DT/src/net/arctics/clonk/parser/c4script/C4Variable.java:118-122 | the type, where a missing type becomes UNKNOWN and is stored; nothing else changes |
| Variables.C4Variable.ForceType | C4DT/src/net/arctics/clonk/parser/c4script/C4Variable.java:127-132 | the type is set whatever the lock; nothing else changes |
| Variables.C4Variable.ForceTypeAndLock | C4DT/src/net/arctics/clonk/parser/c4script/C4Variable.java:134-137 | the type and the lock are both set |
| Variables.C4Variable.SetType | C4DT/src/net/arctics/clonk/parser/c4script/C4Variable.java:139-143 | a locked type stays; otherwise the type is set |
| Variables.C4Variable.SetConstValue | C4DT/src/net/arctics/clonk/parser/c4script/C4Variable.java:280-284 | with the corrected `typeFrom`: throws, leaving the constant unchanged, exactly for null and objects of no script type; otherwise stores the value, arrays included |
| Variables.C4Variable.SetConstValueAsWritten | C4DT/src/net/arctics/clonk/parser/c4script/C4Variable.java:280-284 | as written: throws, leaving the constant unchanged, exactly for null, objects of no script type and arrays (which `typeFrom` types ANY); otherwise stores the value |
| Variables.C4Variable.SetLocation | C4DT/src/net/arctics/clonk/parser/c4script/C4Variable.java:317-319 | the location is set and nothing else changes |
| Variables.C4Variable.IsGlobal | C4DT/src/net/arctics/clonk/parser/c4script/C4Variable.java:312-315 | global exactly for the scopes `static` and `static const` |
| Variables.C4Variable.IsAt | C4DT/src/net/arctics/clonk/parser/c4script/C4Variable.java:317-319 | an inclusive range test against the location |
| Variables.C4Variable.IsActualParm | C4DT/src/net/arctics/clonk/parser/c4script/C4Variable.java:351-353 | an actual parameter is any variable not named "..." |
| GroupHeader.CreateHeader | main/src/net/arctics/clonk/c4group/C4GroupHeader.java:31-43 | a created header has the magic id, versions 1 and 2, an empty password, and the given entry count and maker |
| GroupHeader.EncodeHeader | main/src/net/arctics/clonk/c4group/C4GroupHeader.java:45-54 | the written header is exactly STORED_SIZE (204) bytes |
| GroupHeader.EncodedFields | main/src/net/arctics/clonk/c4group/C4GroupHeader.java:45-54 | the id fills bytes 0-23, the constant versions 1 and 2 sit at 28 and 32, the entry count at 36, maker and password at 40 and 72 (30 bytes each), creation and original at 104 and 108, and every other byte is zero |
| GroupHeader.WrittenVersionsAreConstant | main/src/net/arctics/clonk/c4group/C4GroupHeader.java:48-49 | the versions are written as the constants 1 and 2, whatever the header's own version fields hold |
| GroupHeader.DecodeHeader | main/src/net/arctics/clonk/c4group/C4GroupHeader.java:73-114 | a header that is read has an id that does not compare greater than the magic id, first version 1, second version at least 1, at most 1000 entries, and trimmed strings |
| GroupHeader.DecodeFields | main/src/net/arctics/clonk/c4group/C4GroupHeader.java:89-111 | bytes whose fields all pass the checks decode to the header made of those fields |
| GroupHeader.CreateFromStream | main/src/net/arctics/clonk/c4group/C4GroupHeader.java:73-114 | reading the unscrambled buffer fails or succeeds as `DecodeHeader` says |
| GroupHeader.ByteToInt32 | main/src/net/arctics/clonk/c4group/C4GroupHeader.java:172-178 | the loop sums the four bytes, least significant first, into a wrapped 32-bit `int` |
| GroupHeader.Int32ToByte | main/src/net/arctics/clonk/c4group/C4GroupHeader.java:180-188 | a fresh four-byte array holding the number's bytes, least significant first |
| GroupHeader.Int32RoundTrip | main/src/net/arctics/clonk/c4group/C4GroupHeader.java:172-188 | `byteToInt32(int32ToByte(n), 0) == n` for every `int` |
| GroupHeader.WrapAdd | main/src/net/arctics/clonk/c4group/C4GroupHeader.java:175 | adding in wrapping 32-bit arithmetic agrees with wrapping the exact sum |
| GroupHeader.ArrayCopyTo | main/src/net/arctics/clonk/c4group/C4GroupHeader.java:63-71 | exactly the `length` bytes from `dstOffset` change: they take the source's bytes, and zeros past the source's end |
| GroupHeader.WriteTo | main/src/net/arctics/clonk/c4group/C4GroupHeader.java:45-54 | a fresh 204-byte array holding `EncodeHeader(h)` |
| GroupHeader.WriteField | main/src/net/arctics/clonk/c4group/C4GroupHeader.java:47-54 | one `arrayCopyTo` step of `writeTo` extends the written prefix by one field and leaves zeros after it |
| GroupHeader.Latin1RoundTrip | main/src/net/arctics/clonk/c4group/C4GroupHeader.java:190-206 | decoding ISO-8859-1 inverts encoding on Latin-1 text |
| GroupHeader.StringFieldRoundTrip | main/src/net/arctics/clonk/c4group/C4GroupHeader.java:51-109 | a trimmed Latin-1 string written zero-padded into a field reads back trimmed as itself |
| GroupHeader.CreatedStringFields | main/src/net/arctics/clonk/c4group/C4GroupHeader.java:47-109 | the id, maker and password written into their fields read back as themselves |
| GroupHeader.CreatedNumberFields | main/src/net/arctics/clonk/c4group/C4GroupHeader.java:50-111 | the entry count, creation time and original flag written into their fields read back as themselves |
| GroupHeader.GroupIdShape | main/src/net/arctics/clonk/c4group/C4GroupHeader.java:33 | the magic id is 24 Latin-1 characters without surrounding blanks and compares equal to itself |
| GroupHeader.CreatedHeaderFields | main/src/net/arctics/clonk/c4group/C4GroupHeader.java:31-111 | bytes that carry a created header's fields decode to that header |
| GroupHeader.HeaderRoundTrip | main/src/net/arctics/clonk/c4group/C4GroupHeader.java:31-114 | a created header with at most 1000 entries and a maker that fits its 30 bytes as trimmed Latin-1 text reads back as itself |
| GroupHeader.BooleanToByte | main/src/net/arctics/clonk/c4group/C4GroupHeader.java:208-214 | `byteToBoolean(booleanToByte(b), 0) == b` |
| Indexes.Position | main/src/net/arctics/clonk/index/Index.java:401 | `indexOf` on a bucket: -1 exactly when the script is absent, otherwise its first position |
| Indexes.WithDefinition | main/src/net/arctics/clonk/index/Index.java:389-405 | a definition without id changes nothing; one already in its bucket changes nothing; otherwise it is appended to its bucket, which is created when missing; other buckets and the script lists stay |
| Indexes.WithDefinitionValid | main/src/net/arctics/clonk/index/Index.java:389-405 | adding a definition to its bucket keeps every bucket free of duplicates and holding only its own id |
| Indexes.AddDirectValid | main/src/net/arctics/clonk/index/Index.java:362-405 | adding a script directly keeps every bucket and both lists free of duplicates and every bucket holding only its own id |
| Indexes.AddAllValid | main/src/net/arctics/clonk/index/Index.java:414-421 | flushing the queued scripts keeps the index consistent |
| Indexes.AddDirectIdempotent | main/src/net/arctics/clonk/index/Index.java:371-404 | adding the same script twice is the same as adding it once |
| Indexes.AddedDefinitionIsLast | main/src/net/arctics/clonk/index/Index.java:389-405 | an added definition is in its bucket, and a new one becomes the last definition with its id |
| Indexes.RemoveAt | main/src/net/arctics/clonk/index/Index.java:506 | removing the element at an index leaves one element fewer |
| Indexes.RemoveAtDistinct | main/src/net/arctics/clonk/index/Index.java:506 | in a bucket without duplicates, the removed definition is gone |
| Indexes.WithoutDefinition | main/src/net/arctics/clonk/index/Index.java:493-511 | removal keeps the buckets' keys and the script lists, changes only the definition's own bucket, and the definition is no longer in it |
| Indexes.WithoutDefinitionValid | main/src/net/arctics/clonk/index/Index.java:493-511 | removing a definition keeps the index consistent |
| Indexes.RemoveUndoesAdd | main/src/net/arctics/clonk/index/Index.java:493-511 | removing a definition just added restores every bucket |
| Indexes.RemoveFirstScript | main/src/net/arctics/clonk/index/Index.java:517-521 | `scenarios.remove(x)` takes out the first occurrence, and changes nothing when x is absent |
| Indexes.LastDefinitionWithId | main/src/net/arctics/clonk/index/Index.java:544-547 | null exactly when the bucket is missing or empty, otherwise its last definition |
| Indexes.VisitBucket | main/src/net/arctics/clonk/index/Index.java:439-450 | the sink is handed a prefix of the bucket: all of it without an abort, up to and including the first definition it aborts at otherwise |
| Indexes.HandBucket | main/src/net/arctics/clonk/index/Index.java:439-450 | the inner loop hands the definitions to the sink as `VisitBucket` says |
| Indexes.AbortIsFinalInBucket | main/src/net/arctics/clonk/index/Index.java:445-446 | after an abort the rest of the bucket is not handed over |
| Indexes.VisitBucketsStep | main/src/net/arctics/clonk/index/Index.java:437-454 | one more bucket without an earlier abort adds that bucket's visit |
| Indexes.AbortIsFinal | main/src/net/arctics/clonk/index/Index.java:445-446 | once the sink aborts, later buckets add nothing |
| Indexes.AbortsLater | main/src/net/arctics/clonk/index/Index.java:445-446 | after an abort every longer walk has aborted with the same result |
| Indexes.VisitWithoutAbort | main/src/net/arctics/clonk/index/Index.java:435-456 | when the sink never aborts, every definition of every bucket is handed over, bucket after bucket |
| Indexes.PrunedStep | main/src/net/arctics/clonk/index/Index.java:451-453 | getting past a bucket without an abort drops it exactly when it is empty |
| Indexes.PrunedAbort | main/src/net/arctics/clonk/index/Index.java:445-446 | an abort leaves the remaining buckets in place |
| Indexes.WalkBuckets | main/src/net/arctics/clonk/index/Index.java:435-456 | the outer loop hands over what `VisitBuckets` says, reports whether the sink aborted, and drops exactly the empty buckets it got past |
| Indexes.Index.constructor | main/src/net/arctics/clonk/index/Index.java:355-356 | a new index is empty, with no iteration running and nothing queued |
| Indexes.Index.AddDefinition | main/src/net/arctics/clonk/index/Index.java:389-406 | a definition without id is ignored; while an iteration runs it is queued; otherwise the buckets change as `WithDefinition` says; a consistent index stays consistent |
| Indexes.Index.AddScript | main/src/net/arctics/clonk/index/Index.java:362-382 | null is ignored; while an iteration runs the script is queued; otherwise a scenario or plain script is appended to its list unless already there, and a definition goes to `addDefinition`; a consistent index stays consistent |
| Indexes.Index.StartScriptIteration | main/src/net/arctics/clonk/index/Index.java:408-412 | one more iteration is running; the contents stay |
| Indexes.Index.EndScriptIteration | main/src/net/arctics/clonk/index/Index.java:414-423 | one iteration fewer; when none is left the queued scripts are added in order and the queue is empty; otherwise nothing else changes |
| Indexes.Index.RemoveDefinition | main/src/net/arctics/clonk/index/Index.java:493-521 | a scenario is taken out of the scenarios; any other definition is taken out of its bucket as `WithoutDefinition` says; the index stays consistent |
| Indexes.Index.AddToDeclarationMap | main/src/net/arctics/clonk/index/Index.java:261-265 | the declaration is appended to those of its name, or starts a new entry; a consistent index stays consistent |
| Indexes.Index.AllDefinitionsInternal | main/src/net/arctics/clonk/index/Index.java:435-456 | hands the definitions over bucket by bucket until the sink aborts and drops the empty buckets it got past; the other fields stay, and a consistent index stays consistent |
| Indexes.Index.AllDefinitions | main/src/net/arctics/clonk/index/Index.java:425-432 | the walk runs inside one iteration and leaves the index consistent, with the same lists and queue |
| IniSections.IniSection.constructor | C4DT/src/net/arctics/clonk/parser/inireader/IniSection.java:53-56 | a new section has its name and no items |
| IniSections.IniSection.SubItemByKey | C4DT/src/net/arctics/clonk/parser/inireader/IniSection.java:67-69 | the item stored under the key, present exactly when the key is in the map; in a consistent section it is also listed and carries that key |
| IniSections.IniSection.HasChildren | C4DT/src/net/arctics/clonk/parser/inireader/IniSection.java:90-93 | true exactly when the item map is not empty |
| IniSections.ChildrenAreListed | C4DT/src/net/arctics/clonk/parser/inireader/IniSection.java:90-93 | in a consistent section, a section with children has a non-empty item list |
| IniSections.IniSection.AddItem | C4DT/src/net/arctics/clonk/parser/inireader/IniSection.java:108-124 | a fresh key goes into the map and at the end of the list, and the item (an entry after the unit's validation, or null where that throws) is returned; an existing key throws IllegalArgumentException and changes nothing; consistency is kept |
| IniSections.IniSection.RemoveItem | C4DT/src/net/arctics/clonk/parser/inireader/IniSection.java:126-129 | the key leaves the map and the first occurrence of the item leaves the list; consistency is kept |
| IniSections.RemoveFirst | C4DT/src/net/arctics/clonk/parser/inireader/IniSection.java:128 | `list.remove(x)` drops one occurrence of x and nothing else, and changes nothing when x is absent |
| IniSections.RemoveFirstAt | C4DT/src/net/arctics/clonk/parser/inireader/IniSection.java:128 | the occurrence dropped is the first one, and the order of the rest is kept |
| IniSections.RemoveFirstKeepsOthers | C4DT/src/net/arctics/clonk/parser/inireader/IniSection.java:128 | every other element stays in the list |
| IniSections.IniSection.PutEntry | C4DT/src/net/arctics/clonk/parser/inireader/IniSection.java:172-176 | the map slot is overwritten but the entry is always appended to the list; consistency is kept |
| IniSections.IniSection.HasPersistentItems | C4DT/src/net/arctics/clonk/parser/inireader/IniSection.java:193-198 | true exactly when some listed item is not transient |
| Proplists.ProplistDeclaration.AdHocDeclaration | C4DT/src/net/arctics/clonk/parser/c4script/ProplistDeclaration.java:66-71 | an ad-hoc declaration is marked ad hoc and has no components |
| Proplists.ProplistDeclaration.constructor | C4DT/src/net/arctics/clonk/parser/c4script/ProplistDeclaration.java:57-60 | a declaration made from components holds exactly those components and is not ad hoc |
| Proplists.FirstNamed | C4DT/src/net/arctics/clonk/parser/c4script/ProplistDeclaration.java:94-99 | the first component with the name; absent exactly when none has it |
| Proplists.FirstNamedAt | C4DT/src/net/arctics/clonk/parser/c4script/ProplistDeclaration.java:94-99 | the component found is the first one with the name |
| Proplists.ProplistDeclaration.FindComponent | C4DT/src/net/arctics/clonk/parser/c4script/ProplistDeclaration.java:94-99 | `findComponent` returns the first component with an equal name, or null |
| Proplists.ProplistDeclaration.AddComponent | C4DT/src/net/arctics/clonk/parser/c4script/ProplistDeclaration.java:78-87 | an existing name returns the component already there and adds nothing; otherwise the variable is appended and returned; names that were unique stay unique |
| Proplists.FirstNamedIsUnique | C4DT/src/net/arctics/clonk/parser/c4script/ProplistDeclaration.java:78-99 | with unique names, looking a component up by its name finds that component |
| TextureMaps.Combo | main/src/net/arctics/clonk/mapcreator/TextureMap.java:73 | the key is the material, '-' and the texture |
| TextureMaps.LookupWith | main/src/net/arctics/clonk/mapcreator/TextureMap.java:70-84 | an existing key returns its index and changes nothing; a new key with add stores and returns the next index; a new key without add returns 0 and changes nothing |
| TextureMaps.FreeIndexAsWritten | main/src/net/arctics/clonk/mapcreator/TextureMap.java:79 | as written the next index is size()+1 |
| TextureMaps.LookupAsWritten | main/src/net/arctics/clonk/mapcreator/TextureMap.java:70-84 | as written a new key gets size()+1 |
| TextureMaps.AsWrittenIndexCollides | main/src/net/arctics/clonk/mapcreator/TextureMap.java:60-81 | with one entry loaded from the file at index 2, adding a new key as written also gives it 2, so two keys share an index |
| TextureMaps.FreeIndex | main/src/net/arctics/clonk/mapcreator/TextureMap.java:79 | the corrected next index is the smallest positive index not in use |
| TextureMaps.Range | main/src/net/arctics/clonk/mapcreator/TextureMap.java:79 | the integers from lo up to hi |
| TextureMaps.FreeIndexMatchesAsWrittenWhenDense | main/src/net/arctics/clonk/mapcreator/TextureMap.java:79 | when the indices in use are exactly 1..size(), the corrected index is size()+1, as written |
| TextureMaps.Lookup | main/src/net/arctics/clonk/mapcreator/TextureMap.java:70-84 | with the correction, a new key with add gets a positive index no other key has |
| TextureMaps.LookupIdempotent | main/src/net/arctics/clonk/mapcreator/TextureMap.java:70-84 | asking twice for the same key returns the same index and leaves the map as after the first call |
| TextureMaps.LookupKeepsIndicesDistinct | main/src/net/arctics/clonk/mapcreator/TextureMap.java:70-84 | with the correction, distinct keys keep distinct positive indices |
| TextureMaps.TextureMap.constructor | main/src/net/arctics/clonk/mapcreator/TextureMap.java:27-29 | a new map has no entries |
| TextureMaps.TextureMap.Put | main/src/net/arctics/clonk/mapcreator/TextureMap.java:60 | `put` stores the index under the key |
| TextureMaps.TextureMap.GetIndex | main/src/net/arctics/clonk/mapcreator/TextureMap.java:70-84 | the index and the new map are as `Lookup` says |
| TextureMaps.MatTex | main/src/net/arctics/clonk/mapcreator/TextureMap.java:86-103 | with the corrected `FreeIndex` allocation: fails (the source's out-of-bounds access) exactly when splitting at '-' leaves nothing, and then changes nothing; otherwise the index is never 0 |
| TextureMaps.MatTexOfPair | main/src/net/arctics/clonk/mapcreator/TextureMap.java:88-97 | for "material-texture" with add, the result is the index of that pair |
| TextureMaps.MatTexFallsBackToOne | main/src/net/arctics/clonk/mapcreator/TextureMap.java:98-102 | without a texture and without an entry for the default texture, and without add, the result is 1 |
| TextureMaps.MatTexWithoutAddKeepsMap | main/src/net/arctics/clonk/mapcreator/TextureMap.java:86-103 | without add the map never changes |
| TextureMaps.TextureMap.GetIndexMatTex | main/src/net/arctics/clonk/mapcreator/TextureMap.java:86-103 | with the corrected allocation, the index and the new map are as `MatTex` says |
| TextureMaps.TextureMap.GetIndexMatTexOf | main/src/net/arctics/clonk/mapcreator/TextureMap.java:105-107 | with the corrected allocation: no default texture, add enabled |
| TextureMaps.TextureMap.GetIndexMatTexWithDefault | main/src/net/arctics/clonk/mapcreator/TextureMap.java:109-111 | with the corrected allocation: the given default texture, add enabled |
| IniUnits.SkipNuls | Clonk/src/net/arctics/clonk/parser/inireader/IniUnit.java:238 | the first position at or after i whose character is not NUL, with only NULs before it |
| IniUnits.BlockCommentEnd | Clonk/src/net/arctics/clonk/parser/inireader/IniUnit.java:250-258 | a block comment body ends just after the first "*/" or at the end of the text |
| IniUnits.BlockCommentEndIsPair | Clonk/src/net/arctics/clonk/parser/inireader/IniUnit.java:250-258 | the end is two past the first "*/" pair from i, or the text's end when there is none |
| IniUnits.SkipCommentSpec | Clonk/src/net/arctics/clonk/parser/inireader/IniUnit.java:236-270 | `skipComment` reports a comment only inside the text and then moves forward; without one it stops at the first non-NUL character |
| IniUnits.CommentAt | Clonk/src/net/arctics/clonk/parser/inireader/IniUnit.java:239-269 | after the NULs: a comment opener moves past the comment, anything else leaves the position where it was |
| IniUnits.LineCommentSkipped | Clonk/src/net/arctics/clonk/parser/inireader/IniUnit.java:239-242 | a ';' or '#' comment is skipped past the end of its line |
| IniUnits.SlashCommentSkipped | Clonk/src/net/arctics/clonk/parser/inireader/IniUnit.java:245-249 | a "//" comment is skipped past the end of its line |
| IniUnits.BlockCommentSkipped | Clonk/src/net/arctics/clonk/parser/inireader/IniUnit.java:250-260 | a "/*" comment is skipped past its closing "*/", or to the end of the text |
| IniUnits.NoCommentKept | Clonk/src/net/arctics/clonk/parser/inireader/IniUnit.java:261-268 | a character that opens no comment is reported as no comment and not consumed |
| IniUnits.SkipAllComments | Clonk/src/net/arctics/clonk/parser/inireader/IniUnit.java:281 | `while (skipComment());` stops where no comment follows, never before where it started |
| IniUnits.EntrySpec | Clonk/src/net/arctics/clonk/parser/inireader/IniUnit.java:280-310 | an entry found starts inside the text and the reader moves past it; the reader never moves back |
| IniUnits.EntryAt | Clonk/src/net/arctics/clonk/parser/inireader/IniUnit.java:282-309 | the entry, if any, starts at or after the position and before where reading stops |
| IniUnits.EntryBody | Clonk/src/net/arctics/clonk/parser/inireader/IniUnit.java:290-301 | the entry runs from the key's start to a value end that is past the start and not past where reading stops |
| IniUnits.ValueStart | Clonk/src/net/arctics/clonk/parser/inireader/IniUnit.java:292-297 | the value starts after the key |
| IniUnits.EntryStopsAtSection | Clonk/src/net/arctics/clonk/parser/inireader/IniUnit.java:284-286 | a '[' after the comments and whitespace ends the entries and rewinds to before the whitespace |
| IniUnits.EntryShape | Clonk/src/net/arctics/clonk/parser/inireader/IniUnit.java:282-301 | an entry's key is the identifier at its start, it does not start with '[', and its value holds no line break |
| IniUnits.KeyedMapIsLast | Clonk/src/net/arctics/clonk/parser/inireader/IniUnit.java:221-226 | a key is in the map built by putting each element in order exactly when some element has it, and then it maps to the last such element |
| IniUnits.HeaderSpec | Clonk/src/net/arctics/clonk/parser/inireader/IniUnit.java:199-215 | a header found lies inside the text, and reading stops at its end |
| IniUnits.HeaderShape | Clonk/src/net/arctics/clonk/parser/inireader/IniUnit.java:199-215 | a header is '[', a name without ']' or line breaks, and ']', after whitespace only |
| IniUnits.SectionSpec | Clonk/src/net/arctics/clonk/parser/inireader/IniUnit.java:198-234 | a section found starts inside the text at or after the position, and reading stops after its end |
| IniUnits.SectionsAscending | Clonk/src/net/arctics/clonk/parser/inireader/IniUnit.java:178-181 | the sections parsed from a text start inside it, in strictly ascending order |
| IniUnits.SectionToStringParses | Clonk/src/net/arctics/clonk/parser/inireader/IniUnit.java:375-377 | a printed header "[name]", whatever follows, parses back as a header with that name |
| IniUnits.LastStartingBefore | Clonk/src/net/arctics/clonk/parser/inireader/IniUnit.java:379-390 | the last section that starts at or before the offset, and no later one does; absent when none does |
| IniUnits.AtOffsetIsLastStartingBefore | Clonk/src/net/arctics/clonk/parser/inireader/IniUnit.java:379-390 | on sections in ascending order, `sectionAtOffset` finds the last one starting at or before the offset, or nothing |
| IniUnits.IniUnit.constructor | Clonk/src/net/arctics/clonk/parser/inireader/IniUnit.java:84-86 | a unit made from a text reads that text from its start and holds no sections |
| IniUnits.IniUnit.ReadPastNuls | Clonk/src/net/arctics/clonk/parser/inireader/IniUnit.java:238 | the read loop stops after the first non-NUL character and returns it |
| IniUnits.IniUnit.SkipBlockComment | Clonk/src/net/arctics/clonk/parser/inireader/IniUnit.java:250-258 | the reader ends where `BlockCommentEnd` says |
| IniUnits.IniUnit.SkipComment | Clonk/src/net/arctics/clonk/parser/inireader/IniUnit.java:236-270 | the result and the new position are as `SkipCommentSpec` says |
| IniUnits.IniUnit.SkipCommentAfter | Clonk/src/net/arctics/clonk/parser/inireader/IniUnit.java:239-269 | the result and the new position are as `CommentAt` says |
| IniUnits.IniUnit.SkipComments | Clonk/src/net/arctics/clonk/parser/inireader/IniUnit.java:281 | the reader ends where `SkipAllComments` says |
| IniUnits.IniUnit.ParseEntry | Clonk/src/net/arctics/clonk/parser/inireader/IniUnit.java:280-310 | the entry and the new position are as `EntrySpec` says |
| IniUnits.IniUnit.ReadEntry | Clonk/src/net/arctics/clonk/parser/inireader/IniUnit.java:282-309 | the entry and the new position are as `EntryAt` says |
| IniUnits.IniUnit.ReadEntryBody | Clonk/src/net/arctics/clonk/parser/inireader/IniUnit.java:290-301 | the entry and the new position are as `EntryBody` says |
| IniUnits.IniUnit.ReadHeader | Clonk/src/net/arctics/clonk/parser/inireader/IniUnit.java:199-215 | the header and the new position are as `HeaderSpec` says |
| IniUnits.IniUnit.NextEntry | Clonk/src/net/arctics/clonk/parser/inireader/IniUnit.java:224 | one turn of the entry loop takes the first of the entries that follow, and the reader moves forward |
| IniUnits.IniUnit.ReadEntries | Clonk/src/net/arctics/clonk/parser/inireader/IniUnit.java:220-227 | the entry map puts each entry that follows under its key, a later entry replacing an earlier one |
| IniUnits.IniUnit.ParseSection | Clonk/src/net/arctics/clonk/parser/inireader/IniUnit.java:198-234 | the section and the new position are as `SectionSpec` says |
| IniUnits.IniUnit.NextSection | Clonk/src/net/arctics/clonk/parser/inireader/IniUnit.java:178 | one turn of the section loop takes the first of the sections that follow, and the reader moves forward |
| IniUnits.IniUnit.Parse | Clonk/src/net/arctics/clonk/parser/inireader/IniUnit.java:167-185 | the list holds the sections of the whole text in order, and the map each name's last section |
| IniUnits.IniUnit.SectionWithName | Clonk/src/net/arctics/clonk/parser/inireader/IniUnit.java:320-322 | the section under the name, present exactly when the name is in the map |
| IniUnits.ParsedSectionWithName | Clonk/src/net/arctics/clonk/parser/inireader/IniUnit.java:320-322 | after parsing, a name is found exactly when a parsed section has it, and then it is the last section with that name |
| IniUnits.IniUnit.SectionAtOffset | Clonk/src/net/arctics/clonk/parser/inireader/IniUnit.java:379-390 | the loop's result is the specification `AtOffset` over the section list |
| IniUnits.ParsedSectionAtOffset | Clonk/src/net/arctics/clonk/parser/inireader/IniUnit.java:379-390 | after parsing, `sectionAtOffset` is the last section starting at or before the offset, or nothing |
| Statements.Ordinal | main/src/net/arctics/clonk/c4script/ast/IfStatement.java:70 | only Continue has ordinal 0, the most optimistic flow |
| Statements.OrdinalInjective | main/src/net/arctics/clonk/c4script/ast/IfStatement.java:70-73 | distinct flows have distinct ordinals, so comparing ordinals decides between two flows |
| Statements.MostOptimistic | main/src/net/arctics/clonk/c4script/ast/IfStatement.java:73 | the result is one of the two flows and has the smaller ordinal |
| Statements.BlockFlowIsFirstBreaking | C4DT/src/net/arctics/clonk/parser/c4script/ast/Block.java:105-113 | a block's flow is the flow of its first statement that does not continue |
| Statements.BlockFlowContinues | C4DT/src/net/arctics/clonk/parser/c4script/ast/Block.java:105-113 | a block continues exactly when every statement in it continues |
| Statements.BlockFlowOfExtension | C4DT/src/net/arctics/clonk/parser/c4script/ast/Block.java:105-138 | appending statements to a block that already breaks does not change its flow |
| Statements.IfWithoutElseContinues | main/src/net/arctics/clonk/c4script/ast/IfStatement.java:72-73 | an if without else always continues |
| Statements.IfFlowIsMostOptimistic | main/src/net/arctics/clonk/c4script/ast/IfStatement.java:69-74 | with an else, the flow is the body's or the else's, whichever has the smaller ordinal |
| Statements.IfBreaksOnlyIfBothBreak | main/src/net/arctics/clonk/c4script/ast/IfStatement.java:69-74 | an if breaks exactly when it has an else and both branches break |
| Statements.BlockPossibleFlowsWhenContinuing | C4DT/src/net/arctics/clonk/parser/c4script/ast/Block.java:116-126 | when every statement continues, the possible flows are the union over the statements |
| Statements.BlockPossibleFlowsWhenBreaking | C4DT/src/net/arctics/clonk/parser/c4script/ast/Block.java:116-126 | when a statement breaks, the possible flows are only the block's flow |
| Statements.IfPossibleFlowsCoverBranches | main/src/net/arctics/clonk/c4script/ast/IfStatement.java:59-66 | the possible flows hold Continue and every flow possible in the body or the else |
| Statements.IfRunsBodyUnlessFalse | main/src/net/arctics/clonk/c4script/ast/IfStatement.java:77-79 | a condition that yields a value other than null and false runs the body (a null condition throws, see IfThrowsWithCondition) |
| Statements.IfThrowsWithCondition | main/src/net/arctics/clonk/c4script/ast/IfStatement.java:77-78 | an `if` throws when its condition throws or yields null (`equals` on null), whatever its branches |
| Statements.IfRunsElseWhenFalse | main/src/net/arctics/clonk/c4script/ast/IfStatement.java:80-84 | a false condition runs the else, or yields null without one |
| Statements.IfBranchesSwap | main/src/net/arctics/clonk/c4script/ast/IfStatement.java:77-85 | `if (true) a else b` evaluates as `if (false) b else a` |
| Statements.BlockEvaluatesToNull | C4DT/src/net/arctics/clonk/parser/c4script/ast/Block.java:129-134 | a block yields null exactly when each of its statements evaluates without throwing (a `ControlFlowException` or another exception), and otherwise throws |
| Statements.EvaluateAllEach | C4DT/src/net/arctics/clonk/parser/c4script/ast/Block.java:130-132 | the statements run without an exception exactly when each of them does |
| Statements.IfSubElements | main/src/net/arctics/clonk/c4script/ast/IfStatement.java:28 | the sub-elements are condition, body and else, in that order |
| Statements.IfSetSubElements | main/src/net/arctics/clonk/c4script/ast/IfStatement.java:52-56 | the new condition, body and else are the first three elements |
| Statements.IfSetOwnSubElements | main/src/net/arctics/clonk/c4script/ast/IfStatement.java:28-56 | setting an if's own sub-elements leaves it unchanged |
| Statements.FirstIndexOf | C4DT/src/net/arctics/clonk/parser/c4script/ast/Block.java:142 | the position of the first statement equal to s, or the length when none is |
| Statements.RemoveFirstCount | C4DT/src/net/arctics/clonk/parser/c4script/ast/Block.java:140-144 | removing takes exactly one occurrence of a present statement and changes nothing otherwise |
| Statements.RemoveFirstKeepsOrder | C4DT/src/net/arctics/clonk/parser/c4script/ast/Block.java:140-144 | the statements before the first occurrence stay, the ones after it move up by one, in order |
| Statements.Indent | C4DT/src/net/arctics/clonk/parser/c4script/ast/Block.java:69-74 | the indentation is one tab per level, none for a depth of 0 or less |
| Statements.LineBreaksAppend | C4DT/src/net/arctics/clonk/parser/c4script/ast/Block.java:65-75 | line breaks of a concatenation add up |
| Statements.StatementLinesCount | C4DT/src/net/arctics/clonk/parser/c4script/ast/Block.java:67-73 | with statements printed on one line each, the statement lines hold one line break per statement |
| Statements.BlockTextShape | C4DT/src/net/arctics/clonk/parser/c4script/ast/Block.java:65-75 | a printed block starts with "{\n", ends with "}" and has one line more than it has statements |
| Statements.PrintBlock | C4DT/src/net/arctics/clonk/parser/c4script/ast/Block.java:65-75 | the builder ends up holding what it held, followed by the block's text |
| Statements.BlockStatement.constructor | C4DT/src/net/arctics/clonk/parser/c4script/ast/Block.java:29-33 | a block holds the statements it was made from |
| Statements.BlockStatement.AsNode | C4DT/src/net/arctics/clonk/parser/c4script/ast/Block.java:40-42 | the block as a node holds its statements |
| Statements.BlockStatement.ControlFlowOf | C4DT/src/net/arctics/clonk/parser/c4script/ast/Block.java:105-113 | the loop's result is the block's flow, Continue exactly when every statement continues |
| Statements.BlockStatement.PossibleControlFlows | C4DT/src/net/arctics/clonk/parser/c4script/ast/Block.java:116-126 | the loop's result is the block's possible flows |
| Statements.BlockStatement.SubElements | C4DT/src/net/arctics/clonk/parser/c4script/ast/Block.java:55-58 | the sub-elements are the statements |
| Statements.BlockStatement.SetSubElements | C4DT/src/net/arctics/clonk/parser/c4script/ast/Block.java:48-53 | afterwards the sub-elements are exactly the given elements |
| Statements.BlockStatement.AddStatements | C4DT/src/net/arctics/clonk/parser/c4script/ast/Block.java:136-138 | the new statements are appended in order |
| Statements.BlockStatement.RemoveStatement | C4DT/src/net/arctics/clonk/parser/c4script/ast/Block.java:140-144 | the first occurrence of the statement is removed |
| StringTables.ReadStep | main/src/net/arctics/clonk/stringtbl/StringTbl.java:82-100 | each turn of the reading loop moves strictly forward |
| StringTables.KeyValueStep | main/src/net/arctics/clonk/stringtbl/StringTbl.java:87-98 | a pair read at a position starts there, and its key is the text up to the '=' that follows it |
| StringTables.ReadStepEntry | main/src/net/arctics/clonk/stringtbl/StringTbl.java:87-95 | an entry read from a line is stored as its key, '=' and value at its start position |
| StringTables.ReadEntriesWellFormed | main/src/net/arctics/clonk/stringtbl/StringTbl.java:79-101 | every entry read from the file is the text at its position, stored under its own key |
| StringTables.CommentLineAddsNothing | main/src/net/arctics/clonk/stringtbl/StringTbl.java:83-85 | a line whose first non-blank character is '#' adds no entry |
| StringTables.LaterEntryWins | main/src/net/arctics/clonk/stringtbl/StringTbl.java:60-95 | an entry read later replaces an earlier one with the same key |
| StringTables.KeyValueLine | main/src/net/arctics/clonk/stringtbl/StringTbl.java:87-95 | a line "key=value" followed by a line break is read as that key and value, ending at the value's end |
| StringTables.StringTbl.constructor | main/src/net/arctics/clonk/stringtbl/StringTbl.java:60-64 | a new table has no entries |
| StringTables.StringTbl.AddTblEntry | main/src/net/arctics/clonk/stringtbl/StringTbl.java:60-64 | the entry is put under its key, replacing any earlier one |
| StringTables.StringTbl.FindDeclaration | main/src/net/arctics/clonk/stringtbl/StringTbl.java:74-77 | the entry under the name, present exactly when the name is in the table |
| StringTables.ReadStringTbl | main/src/net/arctics/clonk/stringtbl/StringTbl.java:79-101 | the table ends up holding the entries that reading the whole text gives, on top of what it held |
| StringTables.ReadOneLine | main/src/net/arctics/clonk/stringtbl/StringTbl.java:83-99 | one turn of the loop moves the scanner and changes the table as `ReadStep` says |
| StringTables.ReadKeyValue | main/src/net/arctics/clonk/stringtbl/StringTbl.java:87-98 | the scanner and the table change as `KeyValueStep` says |
| StringTables.EntryRegionInString | main/src/net/arctics/clonk/stringtbl/StringTbl.java:138-146 | present exactly when there is a '$' before the offset and one at or after it; the region then spans both dollars and its text lies between them and holds no '$' |
| StringTables.EntryForLanguagePref | main/src/net/arctics/clonk/stringtbl/StringTbl.java:148-160 | the region is the one found in the string; its entry is the table's entry for the region's text, or none when there is no table or no such entry; with returnNullIfNotFound a missing entry gives no result |
| StringTables.SubstitutionAt | main/src/net/arctics/clonk/stringtbl/StringTbl.java:194-203 | a '$' followed by a key of the table and a closing '$' is replaced by that key's value, and the region spans both dollars; otherwise there is no substitution |
| StringTables.EvalStep | main/src/net/arctics/clonk/stringtbl/StringTbl.java:191-216 | each turn of the evaluation loop moves forward and stays inside the string |
| StringTables.EvalFromConsistent | main/src/net/arctics/clonk/stringtbl/StringTbl.java:189-222 | the loop keeps a region and the applied flag exactly when some substitution was made, with the correction sets the flag exactly past one substitution, and never loses a substitution |
| StringTables.SingleRegionIffOneSubstitution | main/src/net/arctics/clonk/stringtbl/StringTbl.java:218-222 | with the correction, a single region is reported exactly when exactly one substitution was made, and substitutions are reported exactly when some were made |
| StringTables.RegionImpliesApplied | main/src/net/arctics/clonk/stringtbl/StringTbl.java:218-222 | a region is reported only when some substitution was applied |
| StringTables.EvalFromPlain | main/src/net/arctics/clonk/stringtbl/StringTbl.java:216 | text without '$' (and without '\\' when escapes are evaluated) is copied unchanged |
| StringTables.PlainTextUnchanged | main/src/net/arctics/clonk/stringtbl/StringTbl.java:184-222 | a string without placeholders evaluates to itself, without region and without substitutions |
| StringTables.SingleReference | main/src/net/arctics/clonk/stringtbl/StringTbl.java:194-222 | "$key$" for a key of the table evaluates to the key's value, with the region of the whole reference |
| StringTables.BackslashEscape | main/src/net/arctics/clonk/stringtbl/StringTbl.java:205-216 | with escapes evaluated, a backslash is dropped and the next character kept; without, both are kept |
| StringTables.StrayDollarHidesRegion | main/src/net/arctics/clonk/stringtbl/StringTbl.java:195-220 | as written, "$a$ $x" makes one substitution but reports no region, because the stray '$' sets the flag; with the correction the region of "$a$" is reported |
| StringTables.StrayDollarRun | main/src/net/arctics/clonk/stringtbl/StringTbl.java:191-217 | evaluating "$a$ $x" substitutes "a" once and copies " $x"; only as written is the flag set |
| StringTables.StrayDollarSubstitutions | main/src/net/arctics/clonk/stringtbl/StringTbl.java:196-197 | in "$a$ $x" the first '$' opens a substitution and the stray one does not |
| StringTables.EvaluateAt | main/src/net/arctics/clonk/stringtbl/StringTbl.java:192-216 | one turn of the corrected loop changes the builder, the region and the flags as `EvalStep` says |
| StringTables.EvaluateEntries | main/src/net/arctics/clonk/stringtbl/StringTbl.java:184-222 | the result is the corrected evaluation of the string |
| Scanner.WordLength | Clonk/src/net/arctics/clonk/parser/C4ScriptParser.java:142-167 | the length of the run of word characters ([0-9A-Za-z_]) from a position, which ends at a character that is not one |
| Scanner.WordAt | Clonk/src/net/arctics/clonk/parser/C4ScriptParser.java:153-167 | the word read is the text of that run |
| Scanner.RunLength | Clonk/src/net/arctics/clonk/parser/C4ScriptParser.java:209-232 | the length of the run of delimiter characters from a position, which ends at a character that is not one |
| Scanner.FindDelimiter | Clonk/src/net/arctics/clonk/parser/C4ScriptParser.java:174-188 | the first delimiter at or after a position, and none before it; absent when there is none |
| Scanner.FindPair | Clonk/src/net/arctics/clonk/parser/C4ScriptParser.java:2293-2304 | the first place where the two characters follow each other; absent when they never do |
| Scanner.WordLengthAt | Clonk/src/net/arctics/clonk/parser/C4ScriptParser.java:153-167 | a run of word characters ended by another character has exactly that length |
| Scanner.RunLengthAt | Clonk/src/net/arctics/clonk/parser/C4ScriptParser.java:209-232 | a run of delimiters ended by another character has exactly that length |
| Scanner.BufferedScanner.constructor | Clonk/src/net/arctics/clonk/parser/C4ScriptParser.java:115-120 | a scanner reads the given string from its start |
| Scanner.BufferedScanner.Read | Clonk/src/net/arctics/clonk/parser/C4ScriptParser.java:122-128 | the character at the offset, or -1 past the end, and the offset always moves by one |
| Scanner.BufferedScanner.Unread | Clonk/src/net/arctics/clonk/parser/C4ScriptParser.java:130-132 | the offset moves back by one |
| Scanner.BufferedScanner.ReadString | Clonk/src/net/arctics/clonk/parser/C4ScriptParser.java:134-140 | null and no move when the text is too short, otherwise the next `length` characters, moving past them |
| Scanner.BufferedScanner.ReadWord | Clonk/src/net/arctics/clonk/parser/C4ScriptParser.java:153-167 | the word at the offset, moving past it; null past the end of the text |
| Scanner.BufferedScanner.ReadStringUntil | Clonk/src/net/arctics/clonk/parser/C4ScriptParser.java:174-188 | the text up to the first delimiter, stopping before it; null, at the end, when there is none |
| Scanner.BufferedScanner.MoveUntil | Clonk/src/net/arctics/clonk/parser/C4ScriptParser.java:194-203 | moves just past the first delimiter, or to the end when there is none |
| Scanner.BufferedScanner.Eat | Clonk/src/net/arctics/clonk/parser/C4ScriptParser.java:209-232 | skips and counts the delimiters at the offset; nothing at the end; with no delimiters given it runs to the end and counts none |
| Scanner.BufferedScanner.EatWhitespace | Clonk/src/net/arctics/clonk/parser/C4ScriptParser.java:234-236 | skips and counts the blanks and line breaks at the offset |
| Scanner.BufferedScanner.Seek | Clonk/src/net/arctics/clonk/parser/C4ScriptParser.java:243-247 | the offset becomes the new position |
| Scanner.BufferedScanner.Move | Clonk/src/net/arctics/clonk/parser/C4ScriptParser.java:254-258 | moves by the distance, but not past the last character |
| Scanner.BufferedScanner.ReadStringAt | Clonk/src/net/arctics/clonk/parser/C4ScriptParser.java:276-282 | the text between the two positions, or null when it runs past the end; the offset does not change |
| ScriptParser.DigitRunLength | Clonk/src/net/arctics/clonk/parser/C4ScriptParser.java:1009-1027 | the length of the run of digits from a position, which ends at a character that is not a digit or at the end |
| ScriptParser.DigitRunLengthAt | Clonk/src/net/arctics/clonk/parser/C4ScriptParser.java:1009-1027 | a run of digits ended by another character or by the end has exactly that length |
| ScriptParser.C4ScriptParser.constructor | Clonk/src/net/arctics/clonk/parser/C4ScriptParser.java:395-400 | a parser reads through the scanner it is given, with nothing parsed yet |
| ScriptParser.C4ScriptParser.UnnamedParameterUsed | Clonk/src/net/arctics/clonk/parser/C4ScriptParser.java:326-343 | `Par(n)` raises the count to n+1 (with 32-bit wrap-around) unless it is higher; any other index makes the count unknown; an unknown count stays; a literal index up to MAX_PAR is always counted |
| ScriptParser.C4ScriptParser.ParseNumberAsWritten | Clonk/src/net/arctics/clonk/parser/C4ScriptParser.java:1006-1029 | as written: no digits give false and -1; digits running to the end give true and leave the previous number; otherwise the digits' value, or NumberFormatException when it does not fit a long |
| ScriptParser.StaleNumberAtEndOfInput | Clonk/src/net/arctics/clonk/parser/C4ScriptParser.java:1027-1028 | as written, parsing "42" after an earlier number 0 reports a number but leaves 0 |
| ScriptParser.C4ScriptParser.ParseNumber | Clonk/src/net/arctics/clonk/parser/C4ScriptParser.java:1006-1029 | corrected: any run of digits gives its value (or NumberFormatException beyond a long) and the scanner stops after it; no digits give false and -1 |
| ScriptParser.NumberAtEndOfInput | Clonk/src/net/arctics/clonk/parser/C4ScriptParser.java:1006-1029 | with the correction, parsing "42" at the end of the input gives 42 |
| ScriptParser.C4ScriptParser.ParseEllipsis | Clonk/src/net/arctics/clonk/parser/C4ScriptParser.java:1031-1038 | true exactly when "..." follows, moving past it; otherwise the scanner stays |
| ScriptParser.C4ScriptParser.ParseOperator | Clonk/src/net/arctics/clonk/parser/C4ScriptParser.java:1093-1128 | "->" is never an operator; a two-character operator wins over its first character, except that "ne" and "eq" followed by a word character are no operator; the scanner moves past what was read, or stays |
| ScriptParser.C4ScriptParser.ParseID | Clonk/src/net/arctics/clonk/parser/C4ScriptParser.java:2208-2222 | true exactly when the word at the position has four characters and looks like an ID, moving past it and storing it; otherwise the scanner stays and the stored ID is reset |
| ScriptParser.C4ScriptParser.ParseComment | Clonk/src/net/arctics/clonk/parser/C4ScriptParser.java:2282-2310 | "//" skips to the end of the line, "/*" past the closing "*/" (or to the end); anything else is no comment and leaves the scanner where it was |
| ScriptParser.C4ScriptParser.EatWhitespace | Clonk/src/net/arctics/clonk/parser/C4ScriptParser.java:2272-2275 | the scanner ends where `SkipSpaceAndComments` says: past every run of whitespace and every comment from the position on, and nowhere further |
| ScriptParser.C4ScriptParser.EatWhitespaceOrComment | Clonk/src/net/arctics/clonk/parser/C4ScriptParser.java:2274 | the loop condition skips the whitespace at the offset or else one comment, says whether it moved, and never changes where skipping stops; when it does not move, neither whitespace nor a comment opener is at the offset |
| ScriptParser.SkipSpaceAndComments | Clonk/src/net/arctics/clonk/parser/C4ScriptParser.java:2272-2275 | skipping stops at or after the position, where no whitespace run starts and no comment opens |
| ScriptParser.SkipComments | Clonk/src/net/arctics/clonk/parser/C4ScriptParser.java:2274 | stays put exactly when no comment opens; otherwise it ends past the comment at a position where no whitespace run starts and no comment opens |
| ScriptParser.SpaceEndIsRun | Clonk/src/net/arctics/clonk/parser/C4ScriptParser.java:234-236 | the whitespace run the skipping spec steps over is the one `eatWhitespace` counts |
| ScriptParser.SkipSpaceAndCommentsIdempotent | Clonk/src/net/arctics/clonk/parser/C4ScriptParser.java:2272-2275 | skipping again from where skipping stopped moves nowhere |
| IntegerArrays.Renderings | Clonk/src/net/arctics/clonk/parser/defcore/IntegerArray.java:26 | one decimal rendering per integer, in order |
| IntegerArrays.ParsePart | Clonk/src/net/arctics/clonk/parser/defcore/IntegerArray.java:50-52 | a part is read only as a value that fits a 32-bit int |
| IntegerArrays.ParseAll | Clonk/src/net/arctics/clonk/parser/defcore/IntegerArray.java:48-53 | when all parts parse there is one value per part |
| IntegerArrays.ParseAllElements | Clonk/src/net/arctics/clonk/parser/defcore/IntegerArray.java:48-53 | the parts parse as a whole exactly when each part parses, and then each value is its part's |
| IntegerArrays.ParseAllInt32 | Clonk/src/net/arctics/clonk/parser/defcore/IntegerArray.java:52 | every integer read fits a 32-bit int |
| IntegerArrays.ParseIntegerArray | Clonk/src/net/arctics/clonk/parser/defcore/IntegerArray.java:44-65 | success gives one 32-bit integer per comma-separated part; no parts is a warning and a bad part an error |
| IntegerArrays.ParsePartOfIntToString | Clonk/src/net/arctics/clonk/parser/defcore/IntegerArray.java:26-52 | a part written as a 32-bit integer reads back as that integer |
| IntegerArrays.ParseAllOfParsable | Clonk/src/net/arctics/clonk/parser/defcore/IntegerArray.java:48-53 | parts that each parse to a value parse as a whole to those values |
| IntegerArrays.ParseAllOfRenderings | Clonk/src/net/arctics/clonk/parser/defcore/IntegerArray.java:26-53 | the renderings of 32-bit integers parse back to them |
| IntegerArrays.RoundTrip | Clonk/src/net/arctics/clonk/parser/defcore/IntegerArray.java:23-55 | reading back what `toString` writes gives the same integers, for any non-empty array of 32-bit integers |
| IntegerArrays.EmptyArrayDoesNotRoundTrip | Clonk/src/net/arctics/clonk/parser/defcore/IntegerArray.java:23-64 | an empty array is written as "", which reads back as one empty part and fails with an error |
| IntegerArrays.RenderHasNoTrailingSeparator | Clonk/src/net/arctics/clonk/parser/defcore/IntegerArray.java:27 | the written form of a non-empty array never ends in ',' |
| IntegerArrays.ParseParts | Clonk/src/net/arctics/clonk/parser/defcore/IntegerArray.java:49-53 | the loop gives the values of all parts in order, or fails at the first part that does not parse |
| IntegerArrays.ParseAllOfPrefix | Clonk/src/net/arctics/clonk/parser/defcore/IntegerArray.java:49-53 | once a prefix of the parts fails, the whole input fails |
| IntegerArrays.ParsedElements | Clonk/src/net/arctics/clonk/parser/defcore/IntegerArray.java:49-54 | after a successful read, element i is the parsed part i of the input |
| IntegerArrays.IntegerArray.Empty | Clonk/src/net/arctics/clonk/parser/defcore/IntegerArray.java:12-13 | a new array holds no integers |
| IntegerArrays.IntegerArray.SetInput | Clonk/src/net/arctics/clonk/parser/defcore/IntegerArray.java:44-65 | on success the integers are replaced by what was read; on failure the severity is returned and the integers are kept |
| IntegerArrays.IntegerArray.ToString | Clonk/src/net/arctics/clonk/parser/defcore/IntegerArray.java:23-30 | the integers in decimal, separated by commas; none (the source's null dereference) without integers |
| IntegerArrays.IntegerArray.Get | Clonk/src/net/arctics/clonk/parser/defcore/IntegerArray.java:32-34 | the integer at the position, present exactly when there are integers and the position is in bounds |

## Left out

- Input and output: reading scripts, string tables, INI and texture-map files from the workspace or from streams; the model starts from the text or the bytes.
- `C4Group.MemScramble` is not part of this model: `GroupHeader` writes and reads the header bytes before scrambling, and the stream loop of `createFromStream` is left out.
- Problem markers, `IFile` handles, parent links (`setParent`, `setParentDeclaration`) and Eclipse notifications: they record nothing the modelled results depend on.
- `IniUnit.validateEntry` depends on a configuration that the base class never has (`getConfiguration()` returns null), so validation is the identity; in `IniSection.addItem` the unit's validation is a parameter.
- `IniUnit` and `StringTbl` read through the top-level `net.arctics.clonk.parser.BufferedScanner`, which is not part of this model. The model assumes it behaves like the scanner nested in `C4ScriptParser` (`Scanner.BufferedScanner`), whose offset stands in for `tell()`; `readIdent`, `eatUntil` and `NEWLINE_CHARS`, which the nested scanner lacks, are assumed to read a word, to read up to a delimiter and to be the line-break characters.
- `StringTbl`: under that assumption a last line without a line break gives the value "" (the assumed `readStringUntil` returns null there); what the unseen scanner does there is not modelled.
- `StringTbl.evaluateEntries` drops the backslash of an escape other than `\"` and `\\`; the model does the same.
- `StringTbl` string tables are looked up through `localStringTblMatchingLanguagePref`, which is not part of this model: the table is a parameter, absent when no table matches.
- `TextureMap(IFile, MaterialMap)`, the constructor that reads the texture-map file, builds the palette and matches lines with a regular expression: file I/O and colour data.
- `C4ScriptOperator` and `Utilities.looksLikeID` are not part of this model: the operator table and the ID test are parameters, and a null word is not an ID.
- `ParseNumber` models `Long.parseLong` by its value and its overflow error, not by its exception object.
- `ControlFlow` is not part of this model: its constants are taken in the order Continue, NextIteration, BreakLoop, Return, with Continue first, as the comment in `IfStatement.controlFlow` says.
- `Block.optimize`, the printing of statements other than blocks, and the evaluation context: statements are a datatype whose flow, possible flows and evaluation outcome are given.
- `Statements.Indent`: `Conf.printIndent` is not part of this model; one tab per level is assumed.
- `Directive.toString` compares the content with "" by reference (`!=`); the model compares by value.
- `C4Function`: the constructor for engine functions and `setScript` are left out (they register with the engine and the script).
- `C4Type.convert` and `C4Variable` round numbers with `intValue`, modelled as 32-bit wrap-around of integers; floating-point values are not modelled.
- `ArrayUtil.filter` returns null when the predicate throws; predicates here cannot throw. The other list, set and map helpers of `ArrayUtil` are not part of this model.
- `Functions.C4Function` is built on `Variables.C4Variable` and `C4Types`, the variable and type classes of the newer source tree: the older tree's `net.arctics.clonk.parser.C4Variable` that `C4Function` imports is not part of this model. So `C4Function.CreateParameters`, `C4Function.FindVariable`, `C4Function.AppendParameters`, `C4Function.PrintParameterString` and `C4Function.PrintHeader` rest on that stand-in; in particular the `par.getType() != null` test of `printParameterString` always holds under the stand-in's `getType`, which stores UNKNOWN for a missing type.
- Declarations.LooksLikeConstName: capitals are tested with an ASCII-only `toUpperCase`, so a non-ASCII lower-case letter such as "ä", which Java's Unicode `Character.toUpperCase` changes, is taken for a capital here.
- IntegerArrays.ParsePart: only ASCII digits are read, where `Integer.parseInt` also accepts other Unicode decimal digits (such as "٣"); `IntegerArray.SetInput` reports an error for such parts.
- Proplists.ProplistDeclaration.constructor: the source keeps the caller's list without copying it, so the caller's later changes show through the declaration; the model stores a copy of the list's value and does not capture that aliasing.
- Directives.Text and Directives.GetName require a kind; for a directive whose kind was not recognised the source throws NullPointerException, which is not modelled.
- Statements.IfSetSubElements requires a condition and a body among the elements; the source stores nulls there too, which the `Node` datatype cannot hold.
- ArrayUtil.ArrayRange: when the range leaves the source and the length is positive, Java throws ArrayIndexOutOfBoundsException part-way through the copy; the model requires the range to lie inside the source in that case.
- Functions.C4Function.Named is built on the corrected `MakeScope`: for a scope string that names no constant, such as "static", the source constructor throws IllegalArgumentException from `makeScope`, while the model makes a public function (see the C4Function.java:158-159 Findings row).
- Java `String` offsets, lengths and `charAt` count UTF-16 code units, while a Dafny `string` is a sequence of Unicode scalar values: after a character outside the Basic Multilingual Plane (an emoji in a comment or a string-table value, say), every offset the model computes (scanner and parser positions, `IniUnit` section offsets and `sectionAtOffset`, `StringTbl` entry regions, `C4Variable.isAt` locations) is one smaller per such character than the source's, and lone surrogates, which a Java `String` can hold, cannot be represented.
- `IniItem`s in `IniSections.IniSection`, `Statements.RemoveFirst` and `Indexes.RemoveFirstScript` compare by value, where the source uses `equals` or reference identity: two equal but distinct objects are not told apart.
- `Index`: `synchronized` blocks, `ConcurrentMap` details, serialisation, entities, `removeScript` and the `scriptRemoved` notifications are left out. The iteration order of the `HashMap` of definitions is a parameter.
- `Index.allDefinitionsInternal`: a purge request from the sink is treated as continuing the walk, because `ArrayUtil.arrayIterable`'s `remove` does nothing; the main tree's `iterable` helper is not part of this model.

## Findings

| source | as written | input that shows it | evidently intended | confidence | as-written member | corrected member |
|---|---|---|---|---|---|---|
| C4DT/src/net/arctics/clonk/parser/c4script/C4Type.java:98-99 | `value instanceof Array` tests against `java.lang.reflect.Array`, which no value is an instance of, so arrays are typed ANY | any Java array, e.g. an `Object[]` passed to `convert(value, ARRAY)` | arrays are typed ARRAY and convert to ARRAY unchanged | high, not executed | C4Types.ArrayConversionFailsAsWritten | C4Types.TypeFrom |
| Clonk/src/net/arctics/clonk/parser/C4ScriptParser.java:1027-1028 | when the digits run to the end of the input, the loop ends and returns true without storing `parsedNumber` | "42" at the end of the script, after an earlier number | the digits' value is stored, as when another character follows | high, not executed | ScriptParser.StaleNumberAtEndOfInput | ScriptParser.NumberAtEndOfInput |
| main/src/net/arctics/clonk/stringtbl/StringTbl.java:195 | `moreThanOneSubstitution` is set at every '$' after a substitution, also at one that substitutes nothing | "$a$ $x" with "a" in the table | the single region of "$a$" is reported, since one substitution was made | medium, not executed | StringTables.StrayDollarHidesRegion | StringTables.SingleRegionIffOneSubstitution |
| main/src/net/arctics/clonk/mapcreator/TextureMap.java:79 | a new pair gets index `size()+1`, which may already be in use when the file left gaps | a map holding only "Earth-Rough" at index 2, then "Rock-Smooth" added | a new pair gets an index no other pair has | high, not executed | TextureMaps.AsWrittenIndexCollides | TextureMaps.LookupKeepsIndicesDistinct |
| C4DT/src/net/arctics/clonk/parser/c4script/C4Variable.java:281-282 | `setConstValue` rejects a value that `typeFrom` types ANY, and as written `typeFrom` types every array ANY, so an array constant throws InvalidParameterException | `setConstValue(new Object[0])` | arrays, which C4Type has a type for, are stored as constants | medium, not executed | Variables.C4Variable.SetConstValueAsWritten | Variables.C4Variable.SetConstValue |
| Clonk/src/net/arctics/clonk/parser/C4Function.java:158-159 | `valueOf` throws IllegalArgumentException for a string that names no constant, so the final `return FUNC_PUBLIC` is unreachable | "static" | an unknown keyword falls back to public | medium, not executed | Functions.MakeScopeAsWrittenThrows | Functions.MakeScope |
