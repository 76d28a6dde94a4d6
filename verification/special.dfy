/**
 `isHasSpecialCharacters`: the widget's text with every permitted character
 deleted, tested for emptiness.

 The source deletes with `replaceAll` and the pattern
 `[一-龥]*[a-z]*[A-Z]*\d*-*_*\s*`. Every match of that pattern is a
 run of permitted characters, and at any permitted character some match
 begins or continues, so the replacement deletes exactly the permitted
 characters and keeps the rest in order. `RemovePermitted` states that
 deletion directly.
 */
module SpecialCharacters {
  import opened Chars
  import Filters

  /** A character the pattern deletes: CJK, ASCII letters and digits, '-', '_', whitespace. */
  predicate IsPermitted(c: CodeUnit)
  {
    IsCjkUnified(c) || IsAsciiLower(c) || IsAsciiUpper(c) || IsAsciiDigit(c)
    || c == HYPHEN || c == UNDERSCORE || IsRegexWhitespace(c)
  }

  /** The text left once every permitted character is deleted. */
  function RemovePermitted(t: Text): (r: Text)
    ensures |r| <= |t|
    ensures forall i :: 0 <= i < |r| ==> !IsPermitted(r[i])
    ensures forall c :: !IsPermitted(c) ==> multiset(r)[c] == multiset(t)[c]
  {
    if |t| == 0 then []
    else
      assert t == [t[0]] + t[1..];
      if IsPermitted(t[0]) then RemovePermitted(t[1..])
      else [t[0]] + RemovePermitted(t[1..])
  }

  /** Deletion works piece by piece, so the survivors keep their order. */
  lemma {:induction false} RemovePermittedConcat(a: Text, b: Text)
    ensures RemovePermitted(a + b) == RemovePermitted(a) + RemovePermitted(b)
  {
    if |a| == 0 {
      assert a + b == b;
    } else {
      assert (a + b)[0] == a[0];
      assert (a + b)[1..] == a[1..] + b;
      RemovePermittedConcat(a[1..], b);
    }
  }

  /**
   `isHasSpecialCharacters` as written: true when nothing is left, that is,
   when every character of the text is permitted.
   */
  function IsHasSpecialCharacters(text: Text): (r: bool)
    ensures r <==> forall i :: 0 <= i < |text| ==> IsPermitted(text[i])
  {
    var rest := RemovePermitted(text);
    if |rest| == 0 then
      true
    else
      assert rest[0] in multiset(rest);
      false
  }

  /**
   What the method's documentation promises: true when some character is
   not permitted, found by scanning the text.
   */
  function HasSpecialCharacters(text: Text): (r: bool)
    ensures r <==> exists i :: 0 <= i < |text| && !IsPermitted(text[i])
  {
    if |text| == 0 then
      false
    else
      assert forall i :: 0 < i < |text| ==> text[i] == text[1..][i - 1];
      !IsPermitted(text[0]) || HasSpecialCharacters(text[1..])
  }

  /**
   The as-written answer is the opposite of the documented one for every
   text, so "hello!" reports no special character and "hello123" reports one.
   */
  lemma PolarityIsInverted(text: Text)
    ensures IsHasSpecialCharacters(text) == !HasSpecialCharacters(text)
    ensures IsHasSpecialCharacters([]) && !HasSpecialCharacters([])
  {
  }

  lemma PunctuationCounterexample()
    ensures !IsHasSpecialCharacters(Units("hello!")) && HasSpecialCharacters(Units("hello!"))
  {
    var bad := Units("hello!");
    assert !IsPermitted(bad[5]);
  }

  lemma AlphanumericCounterexample()
    ensures IsHasSpecialCharacters(Units("hello123")) && !HasSpecialCharacters(Units("hello123"))
  {
    var good := Units("hello123");
    forall i | 0 <= i < |good|
      ensures IsPermitted(good[i])
    {
      assert good[i] as int == "hello123"[i] as int;
      assert 0x31 <= "hello123"[i] as int <= 0x7A;
    }
  }

  /**
   How the two character sets of the widget differ: `isAllowed` admits the
   middle dot, which `isHasSpecialCharacters` does not permit, and
   `isHasSpecialCharacters` permits '-', '_' and whitespace, which
   `isAllowed` rejects.
   */
  lemma AllowedVersusPermitted(c: CodeUnit)
    ensures Filters.IsAllowed(c) && !IsPermitted(c) <==> c == MIDDLE_DOT
    ensures IsPermitted(c) && !Filters.IsAllowed(c) <==> c == HYPHEN || c == UNDERSCORE || IsRegexWhitespace(c)
  {
  }
}
