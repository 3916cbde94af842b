/** Which characters the character tests and the case conversions are about, spelled out. */
module Alphabets {
  import opened Text
  import opened RpslText
  import opened Nrtm3Parser

  const SMALL: string := "abcdefghijklmnopqrstuvwxyz"
  const CAPITAL: string := "ABCDEFGHIJKLMNOPQRSTUVWXYZ"
  const DIGITS: string := "0123456789"

  predicate InOrder(s: string, first: char) {
    forall i | 0 <= i < |s| :: s[i] as int == first as int + i
  }

  lemma InOrderMembers(s: string, first: char, c: char)
    requires InOrder(s, first)
    ensures c in s <==> first as int <= c as int < first as int + |s|
  {
    if first as int <= c as int < first as int + |s| {
      assert s[c as int - first as int] == c;
    }
  }

  lemma SmallInOrder()
    ensures InOrder(SMALL, 'a') && |SMALL| == 26
  {
  }

  lemma CapitalInOrder()
    ensures InOrder(CAPITAL, 'A') && |CAPITAL| == 26
  {
  }

  lemma DigitsInOrder()
    ensures InOrder(DIGITS, '0') && |DIGITS| == 10
  {
  }

  lemma LettersInOrder(c: char)
    ensures 'a' <= c <= 'z' <==> c in SMALL
    ensures 'A' <= c <= 'Z' <==> c in CAPITAL
    ensures '0' <= c <= '9' <==> c in DIGITS
  {
    SmallInOrder();
    CapitalInOrder();
    DigitsInOrder();
    InOrderMembers(SMALL, 'a', c);
    InOrderMembers(CAPITAL, 'A', c);
    InOrderMembers(DIGITS, '0', c);
  }

  /** Case conversion maps each letter to its partner, and leaves all else as it is. */
  lemma CaseExactly(i: nat, c: char)
    requires i < 26
    ensures UpperChar(SMALL[i]) == CAPITAL[i] && LowerChar(CAPITAL[i]) == SMALL[i]
    ensures c !in SMALL ==> UpperChar(c) == c
    ensures c !in CAPITAL ==> LowerChar(c) == c
  {
    SmallInOrder();
    CapitalInOrder();
    LettersInOrder(c);
  }

  /** Attribute names are made of small letters, digits, underscores and hyphens; words may have capital letters too. */
  lemma NamesExactly(c: char)
    ensures IsNameChar(c) <==> c in SMALL + DIGITS + "_-"
    ensures IsWordChar(c) <==> c in SMALL + CAPITAL + DIGITS + "_-"
  {
    LettersInOrder(c);
  }
}
