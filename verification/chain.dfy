/** The flag values of the built-in filters and the bit facts about them. */
module FilterFlags {
  import opened BitSets
  import opened Flags

  const NONE_DEFAULT: FlagSet := 0
  const SPACE_FILTER: FlagSet := 1
  const SPECIAL_CHARACTERS_FILTER: FlagSet := 2
  const NUMBER_DECIMAL_FILTER: FlagSet := 4

  /** Masking with `m` keeps exactly the flags of `m`. */
  lemma IncludesOfMasked(n: FlagSet, m: FlagSet, f: FlagSet)
    requires Includes(m, f)
    ensures Includes(n & m, f) ==> Includes(n, f)
    ensures Includes(n, f) ==> Includes(n & m, f)
  {
  }

  /** Clearing the decimal flag leaves the space and special-characters flags alone. */
  lemma ClearedAgrees(config: FlagSet)
    ensures Includes(RemoveFlag(config, NUMBER_DECIMAL_FILTER), SPACE_FILTER) ==> Includes(config, SPACE_FILTER)
    ensures Includes(config, SPACE_FILTER) ==> Includes(RemoveFlag(config, NUMBER_DECIMAL_FILTER), SPACE_FILTER)
    ensures Includes(RemoveFlag(config, NUMBER_DECIMAL_FILTER), SPECIAL_CHARACTERS_FILTER) ==> Includes(config, SPECIAL_CHARACTERS_FILTER)
    ensures Includes(config, SPECIAL_CHARACTERS_FILTER) ==> Includes(RemoveFlag(config, NUMBER_DECIMAL_FILTER), SPECIAL_CHARACTERS_FILTER)
    ensures !Includes(RemoveFlag(config, NUMBER_DECIMAL_FILTER), NUMBER_DECIMAL_FILTER)
  {
  }
}

/**
 Which built-in filters the widget installs, and its filter list.

 The configuration flag set `myFilterNum` comes from the layout attribute
 `filter` (0 when absent). `initFilters` walks the fixed array `filterNums`
 in order and, for every flag the configuration contains, appends the
 built-in filter `addDefaultFilter` maps it to. `addFilter` appends a
 caller's filter, and `setFilter` publishes the whole list to the text
 field. The library variant knows three built-in filters, the app
 variant two; they share every other definition.
 */
module FilterChain {
  import opened BitSets
  import opened Flags
  import opened FilterFlags

  datatype Option<T> = None | Some(value: T)

  datatype Variant = Library | App

  /** The three built-in filters. */
  datatype BuiltIn = InputSpace | InputSpecialCharacters | DecimalDigits

  /** An entry of the filter list: a built-in one, or one a caller added, told apart by `id`. */
  datatype InputFilter = Default(kind: BuiltIn) | Custom(id: nat)

  /** The flag that selects each built-in filter. */
  function FlagOf(k: BuiltIn): (r: FlagSet)
    ensures IsSingleFlag(r)
  {
    match k
    case InputSpace => SPACE_FILTER
    case InputSpecialCharacters => SPECIAL_CHARACTERS_FILTER
    case DecimalDigits => NUMBER_DECIMAL_FILTER
  }

  /** The built-in filters a variant offers, in the order it installs them. */
  function Catalogue(v: Variant): (r: seq<BuiltIn>)
    ensures forall i, j :: 0 <= i < j < |r| ==> FlagOf(r[i]) != FlagOf(r[j])
  {
    match v
    case Library => [InputSpace, InputSpecialCharacters, DecimalDigits]
    case App => [InputSpace, InputSpecialCharacters]
  }

  /** The `filterNums` array. */
  function FilterNums(v: Variant): (r: seq<FlagSet>)
    ensures |r| == |Catalogue(v)|
    ensures forall i :: 0 <= i < |r| ==> r[i] == FlagOf(Catalogue(v)[i])
  {
    match v
    case Library => [SPACE_FILTER, SPECIAL_CHARACTERS_FILTER, NUMBER_DECIMAL_FILTER]
    case App => [SPACE_FILTER, SPECIAL_CHARACTERS_FILTER]
  }

  /** The `switch` of `addDefaultFilter`: the built-in filter a flag number names, if any. */
  function DefaultFilter(v: Variant, filterNum: FlagSet): (r: Option<BuiltIn>)
    ensures r.Some? ==> r.value in Catalogue(v) && FlagOf(r.value) == filterNum
    ensures forall k :: k in Catalogue(v) && FlagOf(k) == filterNum ==> r == Some(k)
  {
    if filterNum == SPACE_FILTER then Some(InputSpace)
    else if filterNum == SPECIAL_CHARACTERS_FILTER then Some(InputSpecialCharacters)
    else if filterNum == NUMBER_DECIMAL_FILTER && v == Library then Some(DecimalDigits)
    else None
  }

  /** `addDefaultFilter`: appends nothing when the switch finds no filter. */
  function AddDefaultFilter(v: Variant, filterNum: FlagSet): (r: seq<InputFilter>)
    ensures |r| <= 1
    ensures forall f :: f in r <==> f.Default? && f.kind in Catalogue(v) && FlagOf(f.kind) == filterNum
  {
    match DefaultFilter(v, filterNum)
    case Some(k) => [Default(k)]
    case None => []
  }

  /** The loop of `initFilters` over the remaining entries `nums` of `filterNums`. */
  function SelectDefaults(v: Variant, config: FlagSet, nums: seq<FlagSet>): (r: seq<InputFilter>)
    ensures |r| <= |nums|
    ensures forall f :: f in r ==> f.Default? && f.kind in Catalogue(v) && FlagOf(f.kind) in nums
  {
    if |nums| == 0 then []
    else
      (if ContainsFlag(config, nums[0]) then AddDefaultFilter(v, nums[0]) else [])
      + SelectDefaults(v, config, nums[1..])
  }

  /** The list `initFilters` builds from an empty list. */
  function InitFilters(v: Variant, config: FlagSet): (r: seq<InputFilter>)
    ensures |r| <= |FilterNums(v)|
    ensures forall f :: f in r ==> f.Default? && f.kind in Catalogue(v)
  {
    SelectDefaults(v, config, FilterNums(v))
  }

  // ------------------------------------------------------ reference lists

  /** The entries of `ks` whose flag is set in `config`, in order. */
  function Pick(ks: seq<BuiltIn>, config: FlagSet): (r: seq<InputFilter>)
    ensures |r| <= |ks|
  {
    if |ks| == 0 then []
    else (if Includes(config, FlagOf(ks[0])) then [Default(ks[0])] else []) + Pick(ks[1..], config)
  }

  /** The built-in filters a configuration asks for: the catalogue restricted to its flags. */
  function Expected(v: Variant, config: FlagSet): (r: seq<InputFilter>)
    ensures |r| <= |Catalogue(v)|
  {
    Pick(Catalogue(v), config)
  }

  lemma {:induction false} PickMembers(ks: seq<BuiltIn>, config: FlagSet, f: InputFilter)
    ensures f in Pick(ks, config) <==> f.Default? && f.kind in ks && Includes(config, FlagOf(f.kind))
  {
    if |ks| > 0 {
      PickMembers(ks[1..], config, f);
      assert ks == [ks[0]] + ks[1..];
    }
  }

  predicate NoDuplicates<T(==)>(s: seq<T>)
  {
    forall i, j :: 0 <= i < j < |s| ==> s[i] != s[j]
  }

  lemma {:induction false} PickNoDuplicates(ks: seq<BuiltIn>, config: FlagSet)
    requires NoDuplicates(ks)
    ensures NoDuplicates(Pick(ks, config))
  {
    if |ks| > 0 {
      assert NoDuplicates(ks[1..]) by {
        forall i, j | 0 <= i < j < |ks[1..]|
          ensures ks[1..][i] != ks[1..][j]
        {
          assert ks[1..][i] == ks[i + 1] && ks[1..][j] == ks[j + 1];
        }
      }
      PickNoDuplicates(ks[1..], config);
      PickMembers(ks[1..], config, Default(ks[0]));
      assert ks[0] !in ks[1..] by {
        forall i | 0 <= i < |ks[1..]|
          ensures ks[1..][i] != ks[0]
        {
          assert ks[1..][i] == ks[i + 1];
        }
      }
    }
  }

  /** The source's loop, flag by flag, picks what the reference picks. */
  lemma {:induction false} SelectDefaultsIsPick(v: Variant, config: FlagSet, nums: seq<FlagSet>, ks: seq<BuiltIn>)
    requires |nums| == |ks|
    requires forall i :: 0 <= i < |ks| ==> ks[i] in Catalogue(v) && nums[i] == FlagOf(ks[i])
    ensures SelectDefaults(v, config, nums) == Pick(ks, config)
  {
    if |ks| > 0 {
      ContainsFlagAsIncludes(config, nums[0]);
      SelectDefaultsIsPick(v, config, nums[1..], ks[1..]);
    }
  }

  // ---------------------------------------------- properties of initFilters

  /**
   `initFilters` installs exactly the catalogue entries whose flag the
   configuration contains, in catalogue order.
   */
  lemma InitFiltersIsExpected(v: Variant, config: FlagSet)
    ensures InitFilters(v, config) == Expected(v, config)
  {
    SelectDefaultsIsPick(v, config, FilterNums(v), Catalogue(v));
  }

  /**
   A built-in filter is installed exactly when the variant offers it and
   its flag is set; no caller filter is installed.
   */
  lemma InitFiltersMembers(v: Variant, config: FlagSet, f: InputFilter)
    ensures f in InitFilters(v, config) <==> f.Default? && f.kind in Catalogue(v) && ContainsFlag(config, FlagOf(f.kind))
  {
    InitFiltersIsExpected(v, config);
    PickMembers(Catalogue(v), config, f);
    if f.Default? {
      ContainsFlagAsIncludes(config, FlagOf(f.kind));
    }
  }

  /** No built-in filter is installed twice, so at most three (library) or two (app) are. */
  lemma InitFiltersBounded(v: Variant, config: FlagSet)
    ensures NoDuplicates(InitFilters(v, config))
    ensures |InitFilters(v, config)| <= |FilterNums(v)|
    ensures |InitFilters(Library, config)| <= 3 && |InitFilters(App, config)| <= 2
  {
    InitFiltersIsExpected(v, config);
    PickNoDuplicates(Catalogue(v), config);
    InitFiltersIsExpected(Library, config);
    InitFiltersIsExpected(App, config);
  }

  /** The default configuration installs nothing. */
  lemma NoneDefaultInstallsNothing(v: Variant)
    ensures InitFilters(v, NONE_DEFAULT) == []
  {
    InitFiltersIsExpected(v, NONE_DEFAULT);
    NoFlagInEmpty(Catalogue(v));
  }

  lemma {:induction false} NoFlagInEmpty(ks: seq<BuiltIn>)
    ensures Pick(ks, NONE_DEFAULT) == []
  {
    if |ks| > 0 {
      NoFlagInEmpty(ks[1..]);
    }
  }

  /** The flags a variant recognises. */
  function KnownFlags(v: Variant): (m: FlagSet)
    ensures forall k :: k in Catalogue(v) ==> Includes(m, FlagOf(k))
    ensures v == Library ==> m == SPACE_FILTER | SPECIAL_CHARACTERS_FILTER | NUMBER_DECIMAL_FILTER
    ensures v == App ==> m == SPACE_FILTER | SPECIAL_CHARACTERS_FILTER
  {
    match v
    case Library => 7
    case App => 3
  }

  lemma {:induction false} PickIgnoresMasked(ks: seq<BuiltIn>, n: FlagSet, m: FlagSet)
    requires forall k :: k in ks ==> Includes(m, FlagOf(k))
    ensures Pick(ks, n & m) == Pick(ks, n)
  {
    if |ks| > 0 {
      IncludesOfMasked(n, m, FlagOf(ks[0]));
      PickIgnoresMasked(ks[1..], n, m);
    }
  }

  /** Flags no built-in filter answers to (8, 16, ..., and 4 in the app) change nothing. */
  lemma UnknownFlagsIgnored(v: Variant, config: FlagSet)
    ensures InitFilters(v, config) == InitFilters(v, config & KnownFlags(v))
  {
    InitFiltersIsExpected(v, config);
    InitFiltersIsExpected(v, config & KnownFlags(v));
    PickIgnoresMasked(Catalogue(v), config, KnownFlags(v));
  }

  lemma LibraryExpected(config: FlagSet)
    ensures Expected(Library, config) ==
      (if Includes(config, SPACE_FILTER) then [Default(InputSpace)] else [])
      + (if Includes(config, SPECIAL_CHARACTERS_FILTER) then [Default(InputSpecialCharacters)] else [])
      + (if Includes(config, NUMBER_DECIMAL_FILTER) then [Default(DecimalDigits)] else [])
  {
    var ks := Catalogue(Library);
    assert ks[1..][1..][1..] == [];
    assert Pick(ks[1..][1..], config) == (if Includes(config, NUMBER_DECIMAL_FILTER) then [Default(DecimalDigits)] else []) + [];
    assert Pick(ks[1..], config) == (if Includes(config, SPECIAL_CHARACTERS_FILTER) then [Default(InputSpecialCharacters)] else []) + Pick(ks[1..][1..], config);
  }

  lemma AppExpected(config: FlagSet)
    ensures Expected(App, config) ==
      (if Includes(config, SPACE_FILTER) then [Default(InputSpace)] else [])
      + (if Includes(config, SPECIAL_CHARACTERS_FILTER) then [Default(InputSpecialCharacters)] else [])
  {
    var ks := Catalogue(App);
    assert ks[1..][1..] == [];
    assert Pick(ks[1..], config) == (if Includes(config, SPECIAL_CHARACTERS_FILTER) then [Default(InputSpecialCharacters)] else []) + [];
  }

  /** The library variant installs space, special-characters and decimal filters, in that order, each when its flag is set. */
  lemma LibraryInitFilters(config: FlagSet)
    ensures InitFilters(Library, config) ==
      (if ContainsFlag(config, SPACE_FILTER) then [Default(InputSpace)] else [])
      + (if ContainsFlag(config, SPECIAL_CHARACTERS_FILTER) then [Default(InputSpecialCharacters)] else [])
      + (if ContainsFlag(config, NUMBER_DECIMAL_FILTER) then [Default(DecimalDigits)] else [])
  {
    InitFiltersIsExpected(Library, config);
    LibraryExpected(config);
    ContainsFlagAsIncludes(config, SPACE_FILTER);
    ContainsFlagAsIncludes(config, SPECIAL_CHARACTERS_FILTER);
    ContainsFlagAsIncludes(config, NUMBER_DECIMAL_FILTER);
  }

  /** The app variant installs space and special-characters filters, in that order, each when its flag is set. */
  lemma AppInitFilters(config: FlagSet)
    ensures InitFilters(App, config) ==
      (if ContainsFlag(config, SPACE_FILTER) then [Default(InputSpace)] else [])
      + (if ContainsFlag(config, SPECIAL_CHARACTERS_FILTER) then [Default(InputSpecialCharacters)] else [])
  {
    InitFiltersIsExpected(App, config);
    AppExpected(config);
    ContainsFlagAsIncludes(config, SPACE_FILTER);
    ContainsFlagAsIncludes(config, SPECIAL_CHARACTERS_FILTER);
  }

  /** The app's switch has no decimal case: only flags 1 and 2 name a filter. */
  lemma AppSwitchHasNoDecimal(filterNum: FlagSet)
    ensures DefaultFilter(App, filterNum).Some? <==> filterNum == SPACE_FILTER || filterNum == SPECIAL_CHARACTERS_FILTER
    ensures DefaultFilter(App, NUMBER_DECIMAL_FILTER) == None
  {
  }

  /** The app variant behaves as the library variant with the decimal flag cleared. */
  lemma AppIsLibraryWithoutDecimal(config: FlagSet)
    ensures InitFilters(App, config) == InitFilters(Library, RemoveFlag(config, NUMBER_DECIMAL_FILTER))
  {
    var cleared := RemoveFlag(config, NUMBER_DECIMAL_FILTER);
    ExpectedAppIsLibrary(config);
    InitFiltersIsExpected(App, config);
    InitFiltersIsExpected(Library, cleared);
  }

  lemma ExpectedAppIsLibrary(config: FlagSet)
    ensures Expected(App, config) == Expected(Library, RemoveFlag(config, NUMBER_DECIMAL_FILTER))
  {
    ClearedAgrees(config);
    SameFlagsSameFilters(config, RemoveFlag(config, NUMBER_DECIMAL_FILTER));
  }

  lemma SameFlagsSameFilters(a: FlagSet, b: FlagSet)
    requires Includes(a, SPACE_FILTER) == Includes(b, SPACE_FILTER)
    requires Includes(a, SPECIAL_CHARACTERS_FILTER) == Includes(b, SPECIAL_CHARACTERS_FILTER)
    requires !Includes(b, NUMBER_DECIMAL_FILTER)
    ensures Expected(App, a) == Expected(Library, b)
  {
    AppExpected(a);
    LibraryExpected(b);
  }

  // ---------------------------------------------------------- the widget

  /**
   The widget's filter state: its variant, `myFilterNum`, `filterList`, and
   the array last handed to the text field by `setFilters`.
   */
  datatype Widget = Widget(variant: Variant, filterNum: FlagSet, filterList: seq<InputFilter>, published: seq<InputFilter>)

  /** The widget's list has been published as it stands. */
  predicate Published(w: Widget)
  {
    w.published == w.filterList
  }

  /** `setFilter`: publishes the whole list, in order. */
  function SetFilter(w: Widget): (r: Widget)
    ensures Published(r)
    ensures r.filterList == w.filterList && r.variant == w.variant && r.filterNum == w.filterNum
  {
    w.(published := w.filterList)
  }

  /**
   `initEdit`: reads the `filter` attribute (`None` when there are no
   attributes or the attribute is unset), then runs `initFilters` and
   `setFilter` on an empty list.
   */
  function Construct(v: Variant, filterAttr: Option<FlagSet>): (w: Widget)
    ensures Published(w)
    ensures w.variant == v
    ensures filterAttr.Some? ==> w.filterNum == filterAttr.value
    ensures filterAttr.None? ==> w.filterNum == NONE_DEFAULT && w.filterList == []
    ensures w.filterList == Expected(v, w.filterNum)
    ensures NoDuplicates(w.filterList)
    ensures forall f :: f in w.filterList <==> f.Default? && f.kind in Catalogue(v) && ContainsFlag(w.filterNum, FlagOf(f.kind))
  {
    var filterNum := match filterAttr case Some(n) => n case None => NONE_DEFAULT;
    NoneDefaultInstallsNothing(v);
    InitFiltersIsExpected(v, filterNum);
    InitFiltersBounded(v, filterNum);
    forall f ensures f in InitFilters(v, filterNum) <==> f.Default? && f.kind in Catalogue(v) && ContainsFlag(filterNum, FlagOf(f.kind)) {
      InitFiltersMembers(v, filterNum, f);
    }
    SetFilter(SetFilter(Widget(v, filterNum, InitFilters(v, filterNum), [])))
  }

  /** `addFilter`: the list grows by one entry at its end and is republished. */
  function AddFilter(w: Widget, f: InputFilter): (r: Widget)
    ensures Published(r)
    ensures |r.filterList| == |w.filterList| + 1
    ensures r.filterList[..|w.filterList|] == w.filterList && r.filterList[|w.filterList|] == f
    ensures r.variant == w.variant && r.filterNum == w.filterNum
  {
    SetFilter(w.(filterList := w.filterList + [f]))
  }

  /** A caller adding `fs`, one `addFilter` call each, in order. */
  function AddFilters(w: Widget, fs: seq<InputFilter>): (r: Widget)
    ensures |r.filterList| == |w.filterList| + |fs|
    decreases |fs|
  {
    if |fs| == 0 then w else AddFilters(AddFilter(w, fs[0]), fs[1..])
  }

  /**
   Added filters land after the existing ones in the order they were
   added, and the text field sees the whole list once a filter is added.
   */
  lemma {:induction false} AddFiltersAppends(w: Widget, fs: seq<InputFilter>)
    ensures AddFilters(w, fs).filterList == w.filterList + fs
    ensures |fs| > 0 ==> Published(AddFilters(w, fs))
    ensures AddFilters(w, fs).variant == w.variant && AddFilters(w, fs).filterNum == w.filterNum
    decreases |fs|
  {
    if |fs| > 0 {
      var w' := AddFilter(w, fs[0]);
      assert w'.filterList == w.filterList + [fs[0]];
      AddFiltersAppends(w', fs[1..]);
      assert w.filterList + [fs[0]] + fs[1..] == w.filterList + fs;
    }
  }

  /** The built-in filters stay at the head of the list, ahead of every caller filter. */
  lemma BuiltInsStayFirst(v: Variant, filterAttr: Option<FlagSet>, fs: seq<InputFilter>)
    ensures var w := Construct(v, filterAttr);
      var list := AddFilters(w, fs).filterList;
      |w.filterList| <= |list| && list[..|w.filterList|] == w.filterList
  {
    var w := Construct(v, filterAttr);
    AddFiltersAppends(w, fs);
    assert (w.filterList + fs)[..|w.filterList|] == w.filterList;
  }
}
