/**
 The built-in input filters and the per-character predicate.

 An Android `InputFilter` is asked, before an edit lands, what to insert in
 place of `dest[dstart..dend]` when the user types or pastes `source`. It
 answers `null` to keep `source` as it is, or a replacement text (`""` to
 drop the edit). `FilterOutcome` is that answer.
 */
module Filters {
  import opened Chars

  /** `InputType.TYPE_CLASS_NUMBER | InputType.TYPE_NUMBER_FLAG_DECIMAL`. */
  const NUMBER_DECIMAL: int := 8194

  datatype FilterOutcome = Keep | Replace(text: Text)

  /** What the edit inserts once the filter has answered. */
  function Inserted(outcome: FilterOutcome, source: Text): (r: Text)
    ensures outcome.Keep? ==> r == source
  {
    match outcome
    case Keep => source
    case Replace(text) => text
  }

  /** The text after `dest[dstart..dend]` is replaced by `text`. */
  function Splice(dest: Text, dstart: nat, dend: nat, text: Text): (r: Text)
    requires dstart <= dend <= |dest|
    ensures |r| == |dest| - (dend - dstart) + |text|
  {
    dest[..dstart] + text + dest[dend..]
  }

  // ---------------------------------------------------------------- space

  /**
   `inputSpaceFilter`: drops an edit whose whole source is a single space
   and keeps every other edit, including runs of spaces and text with
   spaces inside it.
   */
  function SpaceFilter(source: Text): (r: FilterOutcome)
    ensures Inserted(r, source) != [SPACE]
    ensures source != [SPACE] ==> Inserted(r, source) == source
    ensures source == [SPACE] ==> Inserted(r, source) == []
  {
    if source == [SPACE] then Replace([]) else Keep
  }

  lemma SpaceFilterExamples()
    ensures Inserted(SpaceFilter(Units(" ")), Units(" ")) == []
    ensures Inserted(SpaceFilter(Units("  ")), Units("  ")) == Units("  ")
    ensures Inserted(SpaceFilter(Units("a b")), Units("a b")) == Units("a b")
  {
    assert Units("  ") != [SPACE];
    assert Units("a b") != [SPACE];
  }

  // ----------------------------------------------------- special characters

  /**
   `isAllowed` of the special-characters filter: ASCII digits and letters,
   the CJK Unified Ideographs U+4E00..U+9FA5 and the middle dot pass.
   */
  function IsAllowed(c: CodeUnit): (r: bool)
    ensures r <==> IsAsciiDigit(c) || IsAsciiLower(c) || IsAsciiUpper(c) || IsCjkUnified(c) || c == MIDDLE_DOT
    ensures r ==> c != SPACE && c != DOT && c != HYPHEN && c != UNDERSCORE
  {
    if 0x30 <= c && c <= 0x39 then true
    else if 0x61 <= c && c <= 0x7A then true
    else if 0x41 <= c && c <= 0x5A then true
    else if 0x4E00 <= c && c <= 0x9FA5 then true
    else if c == 0xB7 then true
    else false
  }

  lemma IsAllowedExamples()
    ensures forall i :: 0 <= i < |Units("a1\U{00B7}\U{4E2D}Z")| ==> IsAllowed(Units("a1\U{00B7}\U{4E2D}Z")[i])
    ensures !IsAllowed(Units("!")[0]) && !IsAllowed(Units("\U{9FA6}")[0]) && !IsAllowed(Units("\U{00E9}")[0])
  {
  }

  // --------------------------------------------------------- decimal places

  /** `String.indexOf` for one code unit: the first position of `c`, or -1. */
  function IndexOf(t: Text, c: CodeUnit): (r: int)
    ensures -1 <= r < |t|
    ensures r == -1 <==> c !in t
    ensures 0 <= r ==> t[r] == c && c !in t[..r]
  {
    if |t| == 0 then -1
    else if t[0] == c then 0
    else
      var k := IndexOf(t[1..], c);
      if k == -1 then -1
      else
        assert t[..k + 1] == [t[0]] + t[1..][..k];
        k + 1
  }

  /** How many code units follow the first '.'; zero when there is none. */
  function FractionLength(t: Text): (n: nat)
    ensures n <= |t|
    ensures DOT !in t ==> n == 0
  {
    if |t| == 0 then 0
    else if t[0] == DOT then |t| - 1
    else FractionLength(t[1..])
  }

  lemma {:induction false} FractionLengthFromIndex(t: Text)
    requires DOT in t
    ensures FractionLength(t) == |t| - IndexOf(t, DOT) - 1
  {
    if t[0] != DOT {
      assert DOT in t[1..] by {
        var i :| 0 <= i < |t| && t[i] == DOT;
        assert t[1..][i - 1] == DOT;
      }
      FractionLengthFromIndex(t[1..]);
    }
  }

  /** The fraction of `a + b` is the fraction of `a` extended by `b`, or that of `b`. */
  lemma {:induction false} FractionLengthConcat(a: Text, b: Text)
    ensures DOT in a ==> FractionLength(a + b) == FractionLength(a) + |b|
    ensures DOT !in a ==> FractionLength(a + b) == FractionLength(b)
  {
    if |a| == 0 {
      assert a + b == b;
    } else {
      assert (a + b)[1..] == a[1..] + b;
      assert DOT in a <==> a[0] == DOT || DOT in a[1..];
      FractionLengthConcat(a[1..], b);
    }
  }

  lemma DeleteMiddle(p: Text, m: Text, q: Text)
    ensures FractionLength(p + q) <= FractionLength(p + (m + q))
  {
    FractionLengthConcat(p, q);
    FractionLengthConcat(p, m + q);
    if DOT !in p {
      FractionLengthConcat(m, q);
    }
  }

  lemma DeletionParts(dest: Text, dstart: nat, dend: nat)
    requires dstart <= dend <= |dest|
    ensures dest == dest[..dstart] + (dest[dstart..dend] + dest[dend..])
    ensures Splice(dest, dstart, dend, []) == dest[..dstart] + dest[dend..]
  {
    assert dest == dest[..dstart] + dest[dstart..];
    assert dest[dstart..] == dest[dstart..dend] + dest[dend..];
  }

  /** Deleting a range never lengthens the fraction. */
  lemma DeletionKeepsFraction(dest: Text, dstart: nat, dend: nat)
    requires dstart <= dend <= |dest|
    ensures FractionLength(Splice(dest, dstart, dend, [])) <= FractionLength(dest)
  {
    DeletionParts(dest, dstart, dend);
    DeleteMiddle(dest[..dstart], dest[dstart..dend], dest[dend..]);
  }

  /**
   `decimalDigitsFilter` as written: for a decimal-number field it drops
   every edit once the text before the edit already has two or more code
   units after its first '.', and otherwise answers `source` itself. It
   looks at neither `source` nor the position of the edit.
   */
  function DecimalDigitsFilter(inputType: int, source: Text, dest: Text): (r: FilterOutcome)
    ensures r.Replace?
    ensures inputType == NUMBER_DECIMAL && FractionLength(dest) >= 2 ==> Inserted(r, source) == []
    ensures !(inputType == NUMBER_DECIMAL && FractionLength(dest) >= 2) ==> Inserted(r, source) == source
  {
    if inputType == NUMBER_DECIMAL && DOT in dest then
      FractionLengthFromIndex(dest);
      if |dest| - IndexOf(dest, DOT) > 2 then Replace([]) else Replace(source)
    else
      Replace(source)
  }

  lemma DecimalDigitsFilterExamples(source: Text)
    ensures Inserted(DecimalDigitsFilter(NUMBER_DECIMAL, source, Units("1.2")), source) == source
    ensures Inserted(DecimalDigitsFilter(NUMBER_DECIMAL, source, Units("1.23")), source) == []
    ensures Inserted(DecimalDigitsFilter(NUMBER_DECIMAL, source, Units("123")), source) == source
    ensures Inserted(DecimalDigitsFilter(NUMBER_DECIMAL + 1, source, Units("1.23")), source) == source
  {
    assert FractionLength(Units("1.2")) == 1;
    assert FractionLength(Units("1.23")) == 2;
    assert DOT !in Units("123");
  }

  /**
   The as-written filter lets a paste take a two-place field past two
   places: "345" pasted at the end of "1.2" gives "1.2345".
   */
  lemma AsWrittenAdmitsLongFraction()
    ensures var dest, source := Units("1.2"), Units("345");
      FractionLength(dest) <= 2
      && Inserted(DecimalDigitsFilter(NUMBER_DECIMAL, source, dest), source) == source
      && FractionLength(Splice(dest, 3, 3, source)) == 4
  {
    var dest, source := Units("1.2"), Units("345");
    assert Splice(dest, 3, 3, source) == dest + source;
    assert FractionLength(dest) == 1 && dest[1] == DOT;
    FractionLengthConcat(dest, source);
  }

  /**
   The as-written filter also drops edits that keep two places: a digit
   typed in front of "1.23", giving "11.23".
   */
  lemma AsWrittenDropsHarmlessEdit()
    ensures var dest, source := Units("1.23"), Units("1");
      Inserted(DecimalDigitsFilter(NUMBER_DECIMAL, source, dest), source) == []
      && FractionLength(Splice(dest, 0, 0, source)) == 2
  {
    var dest, source := Units("1.23"), Units("1");
    assert Splice(dest, 0, 0, source) == source + dest;
    assert FractionLength(dest) == 2;
    assert DOT !in source by { assert source == [source[0]]; }
    FractionLengthConcat(source, dest);
  }

  /**
   The decimal-places filter judged on the text the edit would produce:
   for a decimal-number field an edit is dropped exactly when it would
   leave more than two code units after the first '.'. Dropping an edit
   still deletes the replaced range, and that never lengthens the fraction,
   so a field with at most two places keeps at most two places.
   */
  function IntendedDecimalDigitsFilter(inputType: int, source: Text, dest: Text, dstart: nat, dend: nat): (r: FilterOutcome)
    requires dstart <= dend <= |dest|
    ensures inputType == NUMBER_DECIMAL && FractionLength(dest) <= 2 ==>
      FractionLength(Splice(dest, dstart, dend, Inserted(r, source))) <= 2
    ensures inputType != NUMBER_DECIMAL || FractionLength(Splice(dest, dstart, dend, source)) <= 2 ==>
      Inserted(r, source) == source
  {
    if inputType == NUMBER_DECIMAL && FractionLength(Splice(dest, dstart, dend, source)) > 2 then
      DeletionKeepsFraction(dest, dstart, dend);
      Replace([])
    else
      Keep
  }

  /** The paste "345" after "1.2" is dropped. */
  lemma IntendedDropsLongPaste()
    ensures Inserted(IntendedDecimalDigitsFilter(NUMBER_DECIMAL, Units("345"), Units("1.2"), 3, 3), Units("345")) == []
  {
    var dest, source := Units("1.2"), Units("345");
    assert Splice(dest, 3, 3, source) == dest + source;
    assert FractionLength(dest) == 1 && dest[1] == DOT;
    FractionLengthConcat(dest, source);
  }

  /** A digit typed in front of "1.23" is kept. */
  lemma IntendedKeepsHarmlessEdit()
    ensures Inserted(IntendedDecimalDigitsFilter(NUMBER_DECIMAL, Units("1"), Units("1.23"), 0, 0), Units("1")) == Units("1")
  {
    var dest, source := Units("1.23"), Units("1");
    assert Splice(dest, 0, 0, source) == source + dest;
    assert FractionLength(dest) == 2;
    assert DOT !in source by { assert source == [source[0]]; }
    FractionLengthConcat(source, dest);
  }
}
