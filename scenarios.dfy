/**
 * Worked requests: the generator on fixed inputs and draws. They show that
 * the blending templates can lose the keyword altogether.
 */
module Scenarios {
  import opened Text
  import opened Blend
  import opened Generator

  /** "Clark Kent" has no surrounding whitespace to trim. */
  lemma ClarkKentTrimmed()
    ensures Trim("Clark Kent") == "Clark Kent"
  {
    TrimmedIsFixed("Clark Kent");
  }

  /** "Clark Kent" splits into its two words. */
  lemma ClarkKentWords()
    ensures Split("Clark Kent") == ["Clark", "Kent"]
  {
    var t := "Clark Kent";
    assert SpaceFrom(t, 6) == 10;
    assert SpaceFrom(t, 0) == 5;
    assert NonSpaceFrom(t, 6) == 6;
    assert SplitFrom(t, 6) == [t[6..]];
    assert SplitFrom(t, 0) == [t[0..5]] + [t[6..]];
    assert t[0..5] == "Clark";
    assert t[6..] == "Kent";
  }

  /** The keyword "ice" is capitalised to "Ice". */
  lemma IceKeyword()
    ensures CapitalizedKeyword("ice") == "Ice"
  {
    TrimmedIsFixed("ice");
  }

  /** The front half of "ice" and the back half of "kent", capitalised. */
  lemma IceKentBlend()
    ensures BlendWords("Ice", "Kent") == "Int"
  {
    assert ToLower("Ice") == "ice";
    assert ToLower("Kent") == "kent";
    assert "ice"[..1] + "kent"[2..] == "int";
    assert Capitalize("int") == "Int";
  }

  /** Template 4 blends "Ice" with "Kent" into "Int": the front half of one and the back half of the other. */
  lemma BlendDropsIce(prefixes: seq<string>, suffixes: seq<string>, firstName: string)
    requires Draws(3, 0, 0, 0).Fits(prefixes, suffixes)
    ensures Template(prefixes, suffixes, firstName, "Kent", "ice", "Ice", Draws(3, 0, 0, 0)) == "The Int"
  {
    IceKentBlend();
  }

  /** "the int" has no "ice" in it. */
  lemma NoIceInTheInt()
    ensures !Contains(ToLower("The Int"), "ice")
  {
    var s := ToLower("The Int");
    assert s == "the int";
    forall i: nat | i <= |s|
      ensures !OccursAt(s, "ice", i)
    {
      if i + 3 <= |s| {
        assert s[i + 1] != 'c';
        assert s[i..i + 3][1] == s[i + 1];
      }
    }
  }

  /**
   * "Clark Kent" with "ice" under template 4 gives "The Int": a name whose
   * lower-case form does not contain the keyword.
   */
  lemma BlendCanDropKeyword()
    ensures CreateSuperheroName("Clark Kent", "ice", Draws(3, 0, 0, 0)) == "The Int"
    ensures !Contains(ToLower(CreateSuperheroName("Clark Kent", "ice", Draws(3, 0, 0, 0))), "ice")
  {
    ClarkKentTrimmed();
    ClarkKentWords();
    IceKeyword();
    var d := Draws(3, 0, 0, 0);
    var f, l, c := FirstName("Clark Kent"), LastName("Clark Kent"), CleanKeyword("ice");
    assert l == "Kent";
    BlendDropsIce(Prefixes, Suffixes, f);
    assert Candidate("Clark Kent", "ice", d) == Template(Prefixes, Suffixes, f, l, c, "Ice", d);
    NoIceInTheInt();
  }
}
