/** Which fallback products a case-insensitive search for "cotton" keeps. The
    refutations walk each lower-cased text from its end, skipping stretches
    without a 'c' and rejecting each 'c' by the letter after it. */
module FallbackSearch {
  import opened Wrappers
  import opened Text
  import opened Schema
  import opened Fallback
  import opened Catalog

  const Cotton: string := "cotton"

  lemma CottonIsLower()
    ensures Lower(Cotton) == Cotton
  {
  }

  /** A text with neither case of 'c' cannot contain "cotton" once lower-cased. */
  lemma NoFirstLetter(s: string)
    requires LacksLetter(s, 0, |s|, 'c')
    ensures !Contains(Lower(s), Cotton)
  {
    LowerTail(s, Cotton, 0);
    assert Lower(s)[0..] == Lower(s);
  }

  // ---------------------------------------------------------------------------
  // Product 1: "cancellation" holds the only two 'c's, at 44 and 47.
  // ---------------------------------------------------------------------------

  lemma HeadphonesDescriptionHead()
    ensures |HeadphonesDescription| == 56
    ensures LacksLetter(HeadphonesDescription, 0, 22, 'c') && LacksLetter(HeadphonesDescription, 22, 44, 'c')
  {
  }

  lemma HeadphonesDescriptionEnd()
    ensures |HeadphonesDescription| == 56
    ensures HeadphonesDescription[45] == 'a' && HeadphonesDescription[48] == 'e'
    ensures LacksLetter(HeadphonesDescription, 45, 47, 'c') && LacksLetter(HeadphonesDescription, 48, 56, 'c')
  {
  }

  lemma HeadphonesDescriptionTail()
    ensures !Contains(Lower(HeadphonesDescription)[44..], Cotton)
  {
    var d, n := HeadphonesDescription, Cotton;
    HeadphonesDescriptionEnd();
    LowerTail(d, n, 48);
    LowerMismatch(d, n, 47, 1);
    LowerSkip(d, n, 45, 47);
    LowerMismatch(d, n, 44, 1);
  }

  lemma HeadphonesDescriptionNoCotton()
    ensures !Contains(Lower(HeadphonesDescription), Cotton)
  {
    var d, n := HeadphonesDescription, Cotton;
    HeadphonesDescriptionTail();
    HeadphonesDescriptionHead();
    LowerSkip(d, n, 22, 44);
    LowerSkip(d, n, 0, 22);
    assert Lower(d)[0..] == Lower(d);
  }

  // ---------------------------------------------------------------------------
  // Product 3: "efficient" and "controls", with 'c's at 11 and 37.
  // ---------------------------------------------------------------------------

  lemma LampDescriptionHead()
    ensures |LampDescription| == 45 && LampDescription[12] == 'i'
    ensures LacksLetter(LampDescription, 0, 11, 'c') && LacksLetter(LampDescription, 12, 25, 'c')
  {
  }

  lemma LampDescriptionEnd()
    ensures |LampDescription| == 45 && LampDescription[39] == 'n'
    ensures LacksLetter(LampDescription, 25, 37, 'c') && LacksLetter(LampDescription, 38, 45, 'c')
  {
  }

  lemma LampDescriptionTail()
    ensures !Contains(Lower(LampDescription)[25..], Cotton)
  {
    var d, n := LampDescription, Cotton;
    LampDescriptionEnd();
    LowerTail(d, n, 38);
    LowerMismatch(d, n, 37, 2);
    LowerSkip(d, n, 25, 37);
  }

  lemma LampDescriptionNoCotton()
    ensures !Contains(Lower(LampDescription), Cotton)
  {
    var d, n := LampDescription, Cotton;
    LampDescriptionTail();
    LampDescriptionHead();
    LowerSkip(d, n, 12, 25);
    LowerMismatch(d, n, 11, 1);
    LowerSkip(d, n, 0, 11);
    assert Lower(d)[0..] == Lower(d);
  }

  // ---------------------------------------------------------------------------
  // Product 5: "Comprehensive" and "basics", with 'c's at 0 and 39.
  // ---------------------------------------------------------------------------

  lemma BookDescriptionHead()
    ensures |BookDescription| == 41 && BookDescription[2] == 'm'
    ensures LacksLetter(BookDescription, 1, 20, 'c')
  {
  }

  lemma BookDescriptionEnd()
    ensures |BookDescription| == 41 && BookDescription[40] == 's'
    ensures LacksLetter(BookDescription, 20, 39, 'c') && LacksLetter(BookDescription, 40, 41, 'c')
  {
  }

  lemma BookDescriptionNoCotton()
    ensures !Contains(Lower(BookDescription), Cotton)
  {
    var d, n := BookDescription, Cotton;
    BookDescriptionEnd();
    BookDescriptionHead();
    LowerTail(d, n, 40);
    LowerMismatch(d, n, 39, 1);
    LowerSkip(d, n, 20, 39);
    LowerSkip(d, n, 1, 20);
    LowerMismatch(d, n, 0, 2);
    assert Lower(d)[0..] == Lower(d);
  }

  // ---------------------------------------------------------------------------
  // Texts without any 'c'
  // ---------------------------------------------------------------------------

  lemma MatDescriptionNoCotton()
    ensures !Contains(Lower(MatDescription), Cotton)
  {
    assert |MatDescription| == 40 && LacksLetter(MatDescription, 20, 40, 'c');
    LowerTail(MatDescription, Cotton, 20);
    assert LacksLetter(MatDescription, 0, 20, 'c');
    LowerSkip(MatDescription, Cotton, 0, 20);
    assert Lower(MatDescription)[0..] == Lower(MatDescription);
  }

  lemma HeadphonesNameFree() ensures LacksLetter(HeadphonesName, 0, |HeadphonesName|, 'c') {}
  lemma LampNameFree() ensures LacksLetter(LampName, 0, |LampName|, 'c') {}
  lemma MatNameFree() ensures LacksLetter(MatName, 0, |MatName|, 'c') {}
  lemma BookNameFree() ensures LacksLetter(BookName, 0, |BookName|, 'c') {}

  // ---------------------------------------------------------------------------
  // The five products
  // ---------------------------------------------------------------------------

  /** A product whose name and description both lack "cotton" is not matched. */
  lemma NoMatchIn(p: Product)
    requires !Contains(Lower(p.name), Cotton)
    requires p.description.Some? && !Contains(Lower(p.description.value), Cotton)
    ensures !LowerSearchMatches(Cotton, p)
  {
    CottonIsLower();
  }

  /** "Cotton" starts at position 8 of the T-shirt's name. */
  lemma ShirtHasCotton(t: int)
    ensures LowerSearchMatches(Cotton, P2(t))
  {
    CottonIsLower();
    var m := Lower(P2(t).name);
    assert m[8..14] == Cotton;
    ContainsIff(m, Cotton);
    assert OccursAt(m, Cotton, 8);
  }

  lemma HeadphonesLackCotton(t: int)
    ensures !LowerSearchMatches(Cotton, P1(t))
  {
    HeadphonesNameFree();
    NoFirstLetter(HeadphonesName);
    HeadphonesDescriptionNoCotton();
    NoMatchIn(P1(t));
  }

  lemma LampLacksCotton(t: int)
    ensures !LowerSearchMatches(Cotton, P3(t))
  {
    LampNameFree();
    NoFirstLetter(LampName);
    LampDescriptionNoCotton();
    NoMatchIn(P3(t));
  }

  lemma MatLacksCotton(t: int)
    ensures !LowerSearchMatches(Cotton, P4(t))
  {
    MatNameFree();
    NoFirstLetter(MatName);
    MatDescriptionNoCotton();
    NoMatchIn(P4(t));
  }

  lemma BookLacksCotton(t: int)
    ensures !LowerSearchMatches(Cotton, P5(t))
  {
    BookNameFree();
    NoFirstLetter(BookName);
    BookDescriptionNoCotton();
    NoMatchIn(P5(t));
  }

  /** Of the fallback products, only the T-shirt mentions "cotton", in any case,
      in its name or description. */
  lemma CottonOnlyInShirt(t: int)
    ensures !LowerSearchMatches(Cotton, P1(t))
    ensures LowerSearchMatches(Cotton, P2(t))
    ensures !LowerSearchMatches(Cotton, P3(t))
    ensures !LowerSearchMatches(Cotton, P4(t))
    ensures !LowerSearchMatches(Cotton, P5(t))
  {
    HeadphonesLackCotton(t);
    ShirtHasCotton(t);
    LampLacksCotton(t);
    MatLacksCotton(t);
    BookLacksCotton(t);
  }
}
