# MyFilterEditText input filtering, in Dafny

MyFilterEditText is an Android `EditText` subclass that installs input
filters on itself. It comes in two variants:

- The library variant (`MyFilterEditText/`) has three built-in filters: space, special characters and decimal places.
- The app variant (`app/`) has only the first two.

A layout attribute `filter` gives a flag set. The widget installs the
built-in filter of every flag set in it, in a fixed order. Callers may
append their own filters later. The widget also offers a
special-characters check on its current text.

This project models that filtering core. Both variants share one model,
which is parametrised by `FilterChain.Variant`. The model covers:

- the flag-set arithmetic;
- the selection of built-in filters;
- the three built-in filters, with `isAllowed` as the special-characters predicate;
- the append-only filter list and its publication;
- `isHasSpecialCharacters`.

Files:

- `flags.dfy`, module `BitSets`: a `bv32` flag set read as the set of single-bit flags it holds (`Members`), with the bit-level facts.
- `flags.dfy`, module `Flags`: `containsFlag`, `addFlag`, `toggleFlag` and `removeFlag`, each proved to be a set operation (subset test, union, symmetric difference, difference).
- `chars.dfy`, module `Chars`: a Java `char` as a UTF-16 code unit (`CodeUnit`, 0..0xFFFF), text as a sequence of code units, and the character classes the filters test.
- `filters.dfy`, module `Filters`:
  - the space filter;
  - `isAllowed`;
  - the decimal-places filter as written;
  - a corrected decimal-places filter;
  - `String.indexOf`;
  - `FractionLength`, the number of code units after the first '.'.
- `special.dfy`, module `SpecialCharacters`: `isHasSpecialCharacters` as written and as documented.
- `chain.dfy`, module `FilterFlags`: the flag constants.
- `chain.dfy`, module `FilterChain`:
  - `filterNums` and the `addDefaultFilter` switch;
  - `initFilters`, proved equal to an independent reference `Expected`: the variant's catalogue of built-ins, restricted to the configured flags;
  - the widget state with `initEdit`, `setFilter` and `addFilter`.

An Android `InputFilter` answers either `null` or a replacement text:

- `null` keeps the typed or pasted `source`. It is modelled as `Filters.Keep`.
- A replacement text is modelled as `Filters.Replace(text)`. An empty replacement (`""`) drops the edit.

`Filters.Inserted` is the text the edit finally inserts.

Some behaviour follows the code and differs from a reading of the
widget's documentation:

- `isHasSpecialCharacters` returns `true` when every character is permitted, including for the empty text. Its doc comment promises `true` when a special character is present. See Findings.
- The decimal-places filter looks only at the text before the edit, not at the text the edit would produce. See Findings.
- The comment on `SPECIAL_CHARACTERS_FILTER` lists Chinese, English letters and '·' as what passes. `isAllowed` also passes ASCII digits. The model follows `isAllowed`.
- The space filter drops only an edit whose whole source is one space. A paste such as `"a b"` or `"  "` passes it. The model keeps that exact-match behaviour.

`isHasSpecialCharacters` deletes with the pattern `[一-龥]*[a-z]*[A-Z]*\d*-*_*\s*`.
Every match of that pattern is a run of permitted characters. At every
permitted character some match starts or continues. So `replaceAll`
deletes exactly the permitted characters, and the model states that
deletion directly.

## Model

| member | source | states |
|---|---|---|
| Flags.ContainsFlag | MyFilterEditText/src/main/java/com/leo/widget/MyFilterEditText.java:206-208 | `containsFlag(s, f)` holds exactly when `s & f == f`, that is, when every bit of `f` is set in `s`, in both directions |
| Flags.ContainsFlagIsSubset | MyFilterEditText/src/main/java/com/leo/widget/MyFilterEditText.java:206-208 | `containsFlag(s, f)` holds exactly when every flag of `f` is a flag of `s` |
| Flags.AddedFlagIsContained | MyFilterEditText/src/main/java/com/leo/widget/MyFilterEditText.java:206-215 | `containsFlag(s, 0)` always holds, and so does `containsFlag(addFlag(s, f), f)` |
| Flags.AddFlag | MyFilterEditText/src/main/java/com/leo/widget/MyFilterEditText.java:213-215 | the result contains every bit of `s` and every bit of `f`; exact contents in `Flags.AddFlagIsUnion` |
| Flags.AddFlagIsUnion | app/src/main/java/com/leo/widget/MyFilterEditText.java:188-190 | the flags of `addFlag(s, f)` are those of `s` together with those of `f` |
| Flags.ToggleFlag | MyFilterEditText/src/main/java/com/leo/widget/MyFilterEditText.java:220-222 | the result differs from `s` in exactly the bits of `f` |
| Flags.ToggleFlagIsSymmetricDifference | MyFilterEditText/src/main/java/com/leo/widget/MyFilterEditText.java:220-222 | `toggleFlag(s, f)` holds the flags in exactly one of `s` and `f` |
| Flags.ToggleFlagInvolution | app/src/main/java/com/leo/widget/MyFilterEditText.java:195-197 | toggling the same flag twice restores the set |
| Flags.RemoveFlag | MyFilterEditText/src/main/java/com/leo/widget/MyFilterEditText.java:227-229 | no bit of `f` is left in the result, and the result holds only bits of `s`; exact contents in `Flags.RemoveFlagIsDifference` |
| Flags.RemoveFlagIsDifference | MyFilterEditText/src/main/java/com/leo/widget/MyFilterEditText.java:227-229 | `removeFlag(s, f)` drops exactly the flags of `f`; every other flag of `s` stays |
| Flags.RemovedFlagIsAbsent | app/src/main/java/com/leo/widget/MyFilterEditText.java:202-204 | for a non-zero `f`, `containsFlag(removeFlag(s, f), f)` is false |
| BitSets.MembersInjective | MyFilterEditText/src/main/java/com/leo/widget/MyFilterEditText.java:206-229 | two flag sets holding the same flags are equal, so reading a flag set as a set loses nothing |
| Filters.SpaceFilter | MyFilterEditText/src/main/java/com/leo/widget/MyFilterEditText.java:96 | the filter never lets a lone space in, drops exactly that edit, and leaves every other source untouched |
| Filters.SpaceFilterExamples | MyFilterEditText/src/main/java/com/leo/widget/MyFilterEditText.java:96 | `" "` is dropped; `"  "` and `"a b"` pass unchanged |
| Filters.IsAllowed | MyFilterEditText/src/main/java/com/leo/widget/MyFilterEditText.java:100-117 | a code unit passes exactly when it is an ASCII digit, lower-case or upper-case letter, in U+4E00..U+9FA5, or the middle dot; space, '.', '-' and '_' never pass |
| Filters.IsAllowedExamples | MyFilterEditText/src/main/java/com/leo/widget/MyFilterEditText.java:100-117 | every code unit of "a1·中Z" passes; '!', U+9FA6 and 'é' do not |
| Filters.IndexOf | MyFilterEditText/src/main/java/com/leo/widget/MyFilterEditText.java:84-85 | the result is -1 exactly when '.' is absent; otherwise it is a position holding '.' with no '.' before it |
| Filters.FractionLengthFromIndex | MyFilterEditText/src/main/java/com/leo/widget/MyFilterEditText.java:84-87 | `length - indexOf('.') - 1` is the number of code units after the first '.' |
| Filters.DecimalDigitsFilter | MyFilterEditText/src/main/java/com/leo/widget/MyFilterEditText.java:81-93 | for input type 8194, the edit is dropped when the text before it already has two or more code units after its first '.'; in every other case `source` is inserted unchanged |
| Filters.DecimalDigitsFilterExamples | MyFilterEditText/src/main/java/com/leo/widget/MyFilterEditText.java:81-93 | for any source: "1.2" accepts, "1.23" drops, a text without '.' accepts, and another input type accepts |
| Filters.AsWrittenAdmitsLongFraction | MyFilterEditText/src/main/java/com/leo/widget/MyFilterEditText.java:81-93 | pasting "345" at the end of "1.2" is accepted and leaves four places |
| Filters.AsWrittenDropsHarmlessEdit | MyFilterEditText/src/main/java/com/leo/widget/MyFilterEditText.java:81-93 | typing "1" in front of "1.23" is dropped, though "11.23" has two places |
| Filters.IntendedDecimalDigitsFilter | MyFilterEditText/src/main/java/com/leo/widget/MyFilterEditText.java:50-53 | a decimal field with at most two places keeps at most two after any edit, and every edit that keeps at most two places passes unchanged |
| Filters.DeletionKeepsFraction | MyFilterEditText/src/main/java/com/leo/widget/MyFilterEditText.java:81-93 | deleting a range never adds code units after the first '.' (a dropped edit still deletes the replaced range) |
| Filters.IntendedDropsLongPaste | MyFilterEditText/src/main/java/com/leo/widget/MyFilterEditText.java:50-53 | the corrected filter drops the "345" paste after "1.2" |
| Filters.IntendedKeepsHarmlessEdit | MyFilterEditText/src/main/java/com/leo/widget/MyFilterEditText.java:50-53 | the corrected filter keeps the "1" typed in front of "1.23" |
| SpecialCharacters.RemovePermitted | MyFilterEditText/src/main/java/com/leo/widget/MyFilterEditText.java:126 | the result holds no permitted character, and holds every non-permitted character as often as the text does |
| SpecialCharacters.RemovePermittedConcat | MyFilterEditText/src/main/java/com/leo/widget/MyFilterEditText.java:126 | deletion works piece by piece, so the characters that remain keep their order |
| SpecialCharacters.IsHasSpecialCharacters | MyFilterEditText/src/main/java/com/leo/widget/MyFilterEditText.java:125-127 | true exactly when every character of the text is permitted |
| SpecialCharacters.HasSpecialCharacters | MyFilterEditText/src/main/java/com/leo/widget/MyFilterEditText.java:120-124 | a scan of the text for a non-permitted character: true exactly when some character is not permitted, as the doc comment promises |
| SpecialCharacters.PolarityIsInverted | app/src/main/java/com/leo/widget/MyFilterEditText.java:109-116 | on every text the as-written answer (delete the permitted characters, test for empty) is the negation of the documented scan for a non-permitted character; the empty text reports `true` |
| SpecialCharacters.PunctuationCounterexample | MyFilterEditText/src/main/java/com/leo/widget/MyFilterEditText.java:120-127 | "hello!" reports `false` though it holds '!' |
| SpecialCharacters.AlphanumericCounterexample | MyFilterEditText/src/main/java/com/leo/widget/MyFilterEditText.java:120-127 | "hello123" reports `true` though every character is permitted |
| SpecialCharacters.AllowedVersusPermitted | app/src/main/java/com/leo/widget/MyFilterEditText.java:89-116 | `isAllowed` admits '·', which `isHasSpecialCharacters` does not permit; `isHasSpecialCharacters` permits '-', '_' and whitespace, which `isAllowed` rejects; the two agree on every other code unit |
| FilterChain.FlagOf | MyFilterEditText/src/main/java/com/leo/widget/MyFilterEditText.java:41-53 | each built-in filter is selected by a single-bit flag: space 1, special characters 2, decimal places 4 |
| FilterChain.FilterNums | MyFilterEditText/src/main/java/com/leo/widget/MyFilterEditText.java:56 | one flag per built-in filter the variant offers, in the same order: the i-th entry is the flag of the i-th built-in |
| FilterChain.DefaultFilter | MyFilterEditText/src/main/java/com/leo/widget/MyFilterEditText.java:171-185 | a flag number maps to a built-in filter only when that filter is in the variant's catalogue and has that flag; every catalogue flag maps to its filter |
| FilterChain.AddDefaultFilter | MyFilterEditText/src/main/java/com/leo/widget/MyFilterEditText.java:171-190 | appends at most one filter: exactly the built-in filter of the variant whose flag is `filterNum`, and nothing for any other number |
| FilterChain.AppSwitchHasNoDecimal | app/src/main/java/com/leo/widget/MyFilterEditText.java:160-171 | in the app only flags 1 and 2 name a filter; flag 4 names none |
| FilterChain.SelectDefaults | MyFilterEditText/src/main/java/com/leo/widget/MyFilterEditText.java:142-146 | the loop appends at most one filter per flag it visits, each a built-in filter of the variant selected by a visited flag; exact list in `FilterChain.InitFiltersIsExpected` |
| FilterChain.InitFilters | MyFilterEditText/src/main/java/com/leo/widget/MyFilterEditText.java:140-148 | at most one entry per `filterNums` flag, every one a built-in filter of the variant; exact list in `FilterChain.InitFiltersIsExpected` |
| FilterChain.InitFiltersIsExpected | MyFilterEditText/src/main/java/com/leo/widget/MyFilterEditText.java:140-146 | `initFilters` installs the variant's catalogue restricted to the configured flags, in catalogue order |
| FilterChain.LibraryInitFilters | MyFilterEditText/src/main/java/com/leo/widget/MyFilterEditText.java:56 | the library installs [space, special characters, decimal], keeping each entry whose flag the configuration contains |
| FilterChain.AppInitFilters | app/src/main/java/com/leo/widget/MyFilterEditText.java:129-135 | the app installs [space, special characters], keeping each entry whose flag the configuration contains |
| FilterChain.InitFiltersMembers | MyFilterEditText/src/main/java/com/leo/widget/MyFilterEditText.java:140-146 | a filter is installed exactly when it is a built-in one the variant offers and its flag is contained in the configuration |
| FilterChain.InitFiltersBounded | MyFilterEditText/src/main/java/com/leo/widget/MyFilterEditText.java:56 | no built-in filter is installed twice; the library installs at most three and the app at most two |
| FilterChain.NoneDefaultInstallsNothing | MyFilterEditText/src/main/java/com/leo/widget/MyFilterEditText.java:41 | configuration 0 installs no filter |
| FilterChain.UnknownFlagsIgnored | MyFilterEditText/src/main/java/com/leo/widget/MyFilterEditText.java:54-56 | masking the configuration with 7 (library) or 3 (app) leaves the installed list unchanged, so bits outside 1, 2, 4 (library) or 1, 2 (app) change nothing |
| FilterChain.AppIsLibraryWithoutDecimal | app/src/main/java/com/leo/widget/MyFilterEditText.java:47-51 | the app variant installs what the library variant installs for the same configuration with the decimal flag cleared |
| FilterChain.SetFilter | MyFilterEditText/src/main/java/com/leo/widget/MyFilterEditText.java:153-156 | the published array is the whole list, in order; the list itself is untouched |
| FilterChain.Construct | MyFilterEditText/src/main/java/com/leo/widget/MyFilterEditText.java:129-138 | `myFilterNum` is the `filter` attribute, or 0 without it; the list is exactly the catalogue entries whose flag it contains, in catalogue order, without duplicates (empty without the attribute); the list is published |
| FilterChain.AddFilter | MyFilterEditText/src/main/java/com/leo/widget/MyFilterEditText.java:161-164 | the list grows by one, the old entries keep their places, the new filter is last, and the whole list is published |
| FilterChain.AddFiltersAppends | app/src/main/java/com/leo/widget/MyFilterEditText.java:150-153 | adding several filters one call at a time appends them in call order and publishes the whole list |
| FilterChain.BuiltInsStayFirst | app/src/main/java/com/leo/widget/MyFilterEditText.java:118-153 | the built-in filters stay at the head of the list, ahead of every caller filter |

## Left out

- Android plumbing is not modelled: the constructors, `TypedArray` reading, `setFilters`, `getText()` and `getInputType()`. The `filter` attribute becomes an optional flag-set parameter of `Construct`. The published array is a field of the widget state. The text and the input type are parameters.
- How the text field runs the published filters one after another on an edit is not modelled. That belongs to the Android framework.
- `LoginFilter.UsernameFilterGeneric.filter` is not modelled. How the framework applies `isAllowed` across a fragment is not visible in the source, so only `isAllowed` is modelled.
- The `java.util.regex` engine is not modelled. `isHasSpecialCharacters` is modelled as "delete every permitted character", as argued above.
- `formatChangeToDouble` is not modelled. It is `BigDecimal` parsing and HALF_UP rounding, a foreign library call.
- Characters outside the Basic Multilingual Plane are not modelled. A Java `char` is a UTF-16 code unit, so a supplementary character shows up as two surrogate code units, as it does in Java.
- The filters' `start`, `end`, `dstart` and `dend` arguments are not parameters of the as-written space and decimal filters, because neither filter reads them. `source` is compared as a whole, as `TextUtils.equals` does.
- Caller-supplied filters are opaque entries, told apart by an id. Their behaviour is not modelled.
- `addFlag`, `toggleFlag` and `removeFlag` are never called by the widget. They are modelled as written anyway.
- The flag set and `myFilterNum` are a Java `int`. Its 32-bit pattern is a `bv32`, so negative values are covered as bit patterns.

## Findings

| source | as written | input that shows it | evidently intended | confidence | as-written member | corrected member |
|---|---|---|---|---|---|---|
| MyFilterEditText/src/main/java/com/leo/widget/MyFilterEditText.java:120-127 | returns `true` when nothing is left after deleting the permitted characters, that is, when the text has no special character | "hello!" gives `false` and "hello123" gives `true` | `true` exactly when some character is not permitted, as the doc comment ("true: contains special characters") says | high, not executed | SpecialCharacters.PunctuationCounterexample | SpecialCharacters.HasSpecialCharacters |
| MyFilterEditText/src/main/java/com/leo/widget/MyFilterEditText.java:81-93 | decides from the text before the edit: it drops every edit once two places exist, and it accepts any edit before that | pasting "345" at the end of "1.2" gives "1.2345"; typing "1" in front of "1.23" is dropped | keep at most two decimal places ("保留两位", line 51): judge the text the edit would produce | medium, not executed | Filters.AsWrittenAdmitsLongFraction | Filters.IntendedDecimalDigitsFilter |
