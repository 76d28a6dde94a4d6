/**
 Flag-set arithmetic of MyFilterEditText.

 The widget's configuration is a Java `int` used as a bit mask. A Java `int`
 carries exactly the 32-bit pattern of a `bv32`, and `|`, `&`, `^` and `~`
 act on it bit by bit, so the flag operations are modelled on `bv32`.

 `BitSets` reads a mask as the set of single-bit flags it holds and proves
 the bit-level facts, each as a small one-way lemma; `Flags` holds the
 widget's four flag operations and connects each to a set operation.
 */
module BitSets {

  type FlagSet = bv32

  /** A flag with exactly one bit set (1, 2, 4, 8, ...). */
  predicate IsSingleFlag(b: FlagSet)
  {
    b != 0 && b & (b - 1) == 0
  }

  /** Every bit of `b` is set in `x`. */
  predicate Includes(x: FlagSet, b: FlagSet)
  {
    x & b == b
  }

  /** The single-bit flags held by `x`: the mask read as a set. */
  ghost function Members(x: FlagSet): iset<FlagSet>
  {
    iset b | IsSingleFlag(b) && Includes(x, b)
  }

  /** The lowest set bit of a non-zero mask. */
  function LowestFlag(d: FlagSet): (b: FlagSet)
    requires d != 0
    ensures IsSingleFlag(b)
    ensures Includes(d, b)
  {
    d & (!d + 1)
  }

  /** A single-bit flag is either wholly inside a mask or wholly outside it. */
  lemma AllOrNothing(x: FlagSet, b: FlagSet)
    requires IsSingleFlag(b)
    ensures Includes(x, b) || x & b == 0
  {
  }

  lemma OrDistributes(s: FlagSet, f: FlagSet, b: FlagSet)
    ensures (s | f) & b == (s & b) | (f & b)
  {
  }

  lemma AndNotDistributes(s: FlagSet, f: FlagSet, b: FlagSet)
    ensures (s & !f) & b == (s & b) & !(f & b)
  {
  }

  lemma XorAsUnion(s: FlagSet, f: FlagSet)
    ensures s ^ f == (s & !f) | (f & !s)
  {
  }

  lemma IncludesTransitive(s: FlagSet, f: FlagSet, b: FlagSet)
    requires Includes(s, f) && Includes(f, b)
    ensures Includes(s, b)
  {
  }

  lemma FlagOfOr(s: FlagSet, f: FlagSet, b: FlagSet)
    requires IsSingleFlag(b)
    ensures Includes(s | f, b) <==> Includes(s, b) || Includes(f, b)
  {
    OrDistributes(s, f, b);
    AllOrNothing(s, b);
    AllOrNothing(f, b);
  }

  lemma FlagOfAndNot(s: FlagSet, f: FlagSet, b: FlagSet)
    requires IsSingleFlag(b)
    ensures Includes(s & !f, b) <==> Includes(s, b) && !Includes(f, b)
  {
    AndNotDistributes(s, f, b);
    AllOrNothing(s, b);
    AllOrNothing(f, b);
  }

  /** A bit of `f` missing from `s`, whenever `s` does not include `f`. */
  lemma MissingFlag(s: FlagSet, f: FlagSet) returns (b: FlagSet)
    requires !Includes(s, f)
    ensures IsSingleFlag(b)
    ensures Includes(f, b) && !Includes(s, b)
  {
    b := LowestFlag(f & !s);
  }

  /** A bit on which two different masks disagree. */
  lemma SeparatingFlag(a: FlagSet, c: FlagSet) returns (b: FlagSet)
    requires a != c
    ensures IsSingleFlag(b)
    ensures Includes(a, b) != Includes(c, b)
  {
    b := LowestFlag(a ^ c);
  }

  lemma MembersDiffer(a: FlagSet, c: FlagSet)
    requires a != c
    ensures Members(a) != Members(c)
  {
    var b := SeparatingFlag(a, c);
    assert (b in Members(a)) != (b in Members(c));
  }

  /** A mask is determined by the flags it holds. */
  lemma MembersInjective(a: FlagSet, c: FlagSet)
    requires Members(a) == Members(c)
    ensures a == c
  {
    if a != c {
      MembersDiffer(a, c);
    }
  }

  /** `x` includes `f` exactly when every flag of `f` is a flag of `x`. */
  lemma IncludesIsSubset(x: FlagSet, f: FlagSet)
    ensures Includes(x, f) ==> Members(f) <= Members(x)
    ensures Members(f) <= Members(x) ==> Includes(x, f)
  {
    if Includes(x, f) {
      forall b | b in Members(f)
        ensures b in Members(x)
      {
        IncludesTransitive(x, f, b);
      }
    } else {
      var b := MissingFlag(x, f);
      assert b in Members(f) && b !in Members(x);
    }
  }

  lemma MemberOfOrForward(s: FlagSet, f: FlagSet, b: FlagSet)
    requires b in Members(s | f)
    ensures b in Members(s) || b in Members(f)
  {
    FlagOfOr(s, f, b);
  }

  lemma MemberOfOrBackward(s: FlagSet, f: FlagSet, b: FlagSet)
    requires b in Members(s) || b in Members(f)
    ensures b in Members(s | f)
  {
    FlagOfOr(s, f, b);
  }

  lemma MemberOfAndNot(s: FlagSet, f: FlagSet, b: FlagSet)
    ensures b in Members(s & !f) <==> b in Members(s) && b !in Members(f)
  {
    if IsSingleFlag(b) {
      FlagOfAndNot(s, f, b);
    }
  }

  lemma OrIsUnion(s: FlagSet, f: FlagSet)
    ensures Members(s | f) == Members(s) + Members(f)
  {
    forall b | b in Members(s | f)
      ensures b in Members(s) || b in Members(f)
    {
      MemberOfOrForward(s, f, b);
    }
    forall b | b in Members(s) || b in Members(f)
      ensures b in Members(s | f)
    {
      MemberOfOrBackward(s, f, b);
    }
  }

  lemma AndNotIsDifference(s: FlagSet, f: FlagSet)
    ensures Members(s & !f) == Members(s) - Members(f)
  {
    forall b
      ensures b in Members(s & !f) <==> b in Members(s) && b !in Members(f)
    {
      MemberOfAndNot(s, f, b);
    }
  }
}

module Flags {
  import opened BitSets

  /** `containsFlag`: tests that every bit of `flag` is set in `flagSet`. */
  function ContainsFlag(flagSet: FlagSet, flag: FlagSet): (r: bool)
    ensures r ==> Includes(flagSet, flag)
    ensures Includes(flagSet, flag) ==> r
  {
    (flagSet | flag) == flagSet
  }

  /** `addFlag`: sets the bits of `flag`. */
  function AddFlag(flagSet: FlagSet, flag: FlagSet): (r: FlagSet)
    ensures Includes(r, flagSet) && Includes(r, flag)
  {
    flagSet | flag
  }

  /** `toggleFlag`: flips the bits of `flag`. */
  function ToggleFlag(flagSet: FlagSet, flag: FlagSet): (r: FlagSet)
    ensures r ^ flagSet == flag
  {
    flagSet ^ flag
  }

  /** `removeFlag`: clears the bits of `flag`. */
  function RemoveFlag(flagSet: FlagSet, flag: FlagSet): (r: FlagSet)
    ensures r & flag == 0
    ensures Includes(flagSet, r)
  {
    flagSet & !flag
  }

  lemma ContainsFlagAsIncludes(s: FlagSet, f: FlagSet)
    ensures ContainsFlag(s, f) ==> Includes(s, f)
    ensures Includes(s, f) ==> ContainsFlag(s, f)
  {
    if ContainsFlag(s, f) {
      OrFixedIncludes(s, f);
    }
    if Includes(s, f) {
      IncludesOrFixed(s, f);
    }
  }

  lemma OrFixedIncludes(s: FlagSet, f: FlagSet)
    requires (s | f) == s
    ensures Includes(s, f)
  {
  }

  lemma IncludesOrFixed(s: FlagSet, f: FlagSet)
    requires Includes(s, f)
    ensures (s | f) == s
  {
  }

  /** `containsFlag(s, f)` holds exactly when every flag of `f` is a flag of `s`. */
  lemma ContainsFlagIsSubset(s: FlagSet, f: FlagSet)
    ensures ContainsFlag(s, f) <==> Members(f) <= Members(s)
  {
    ContainsFlagAsIncludes(s, f);
    IncludesIsSubset(s, f);
  }

  /** `addFlag` is set union. */
  lemma AddFlagIsUnion(s: FlagSet, f: FlagSet)
    ensures Members(AddFlag(s, f)) == Members(s) + Members(f)
  {
    OrIsUnion(s, f);
  }

  /** `removeFlag` is set difference: the flags of `f` go, every other flag stays. */
  lemma RemoveFlagIsDifference(s: FlagSet, f: FlagSet)
    ensures Members(RemoveFlag(s, f)) == Members(s) - Members(f)
  {
    AndNotIsDifference(s, f);
  }

  /** `toggleFlag` is symmetric difference. */
  lemma ToggleFlagIsSymmetricDifference(s: FlagSet, f: FlagSet)
    ensures Members(ToggleFlag(s, f)) == (Members(s) - Members(f)) + (Members(f) - Members(s))
  {
    XorAsUnion(s, f);
    OrIsUnion(s & !f, f & !s);
    AndNotIsDifference(s, f);
    AndNotIsDifference(f, s);
  }

  /** Every set contains the empty flag, and a flag is contained once added. */
  lemma AddedFlagIsContained(s: FlagSet, f: FlagSet)
    ensures ContainsFlag(s, 0)
    ensures ContainsFlag(AddFlag(s, f), f)
  {
    ContainsFlagAsIncludes(s, 0);
    ContainsFlagAsIncludes(AddFlag(s, f), f);
  }

  /** A removed non-empty flag is no longer contained. */
  lemma RemovedFlagIsAbsent(s: FlagSet, f: FlagSet)
    requires f != 0
    ensures !ContainsFlag(RemoveFlag(s, f), f)
  {
    ContainsFlagAsIncludes(RemoveFlag(s, f), f);
  }

  lemma ToggleFlagInvolution(s: FlagSet, f: FlagSet)
    ensures ToggleFlag(ToggleFlag(s, f), f) == s
  {
  }
}
