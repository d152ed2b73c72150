/**
 * `createSuperheroName`: turns a real name and a keyword into a superhero
 * name with one of six templates, then falls back to a short form when the
 * result is longer than 50 characters. Each random draw the source makes
 * with `getRandomElement` is an explicit index here, gathered in `Draws`.
 */
module Generator {
  import opened Wrappers
  import opened Text
  import opened Blend
  import Schema

  const Prefixes: seq<string> := [
    "Captain", "The Mighty", "Agent", "Doctor", "Professor", "Master", "Lord", "Lady",
    "The Amazing", "Super", "Ultra", "The Incredible", "Commander", "The Great",
    "Admiral", "General", "The Legendary", "Cosmic", "Shadow", "The Invincible"
  ]

  /** Ordered: the alliterative template takes the first entry with the wanted initial. */
  const Suffixes: seq<string> := [
    "Man", "Woman", "Guardian", "Master", "Star", "Knight", "Warrior", "Hero",
    "Defender", "Protector", "Champion", "Avenger", "Hunter", "Ranger", "Force",
    "Storm", "Fire", "Lightning", "Thunder", "Shadow", "Light", "Wing", "Blade"
  ]

  /** Longer templates are replaced by the short fallback. */
  const MaxNameLength := 50

  /**
   * The outcome of every random draw one call can make: which of the six
   * templates (0 to 5, in the order of the `strategies` array), the prefix
   * and the suffix the template draws, and the fresh suffix of the fallback.
   */
  datatype Draws = Draws(strategy: nat, prefix: nat, suffix: nat, fallbackSuffix: nat) {
    /** Every index lies inside the list it is drawn from. */
    predicate Fits(prefixes: seq<string>, suffixes: seq<string>) {
      strategy < 6 && prefix < |prefixes| && suffix < |suffixes| && fallbackSuffix < |suffixes|
    }

    predicate Valid() {
      Fits(Prefixes, Suffixes)
    }
  }

  /** `realName.trim().split(/\s+/)`. */
  function NameWords(realName: string): (ws: seq<string>)
    ensures |ws| >= 1
  {
    Split(Trim(realName))
  }

  /** `nameWords[0] || ''`: an empty first word is already ''. */
  function FirstName(realName: string): (r: string)
    ensures NoSpace(r) && |r| <= |Trim(realName)|
  {
    SplitFirst(Trim(realName));
    NameWords(realName)[0]
  }

  /** `nameWords[nameWords.length - 1] || ''`. */
  function LastName(realName: string): (r: string)
    ensures NoSpace(r) && |r| <= |Trim(realName)|
  {
    SplitLast(Trim(realName));
    Last(NameWords(realName))
  }

  /** `keyword.trim().toLowerCase()`. */
  function CleanKeyword(keyword: string): (r: string)
    ensures |r| == |Trim(keyword)| && NoUpper(r)
    ensures r == [] <==> AllSpace(keyword)
  {
    ToLower(Trim(keyword))
  }

  /** The trimmed keyword, lower-cased except for an upper-cased first character. */
  function CapitalizedKeyword(keyword: string): (r: string)
    ensures |r| == |Trim(keyword)|
    ensures r == [] <==> AllSpace(keyword)
    ensures r != [] ==> r[0] == UpperChar(Trim(keyword)[0])
    ensures forall i :: 1 <= i < |r| ==> r[i] == LowerChar(Trim(keyword)[i])
  {
    Capitalize(CleanKeyword(keyword))
  }

  /** Lower-casing the capitalised keyword gives the clean keyword back. */
  lemma CapitalizedKeywordLowered(keyword: string)
    ensures ToLower(CapitalizedKeyword(keyword)) == CleanKeyword(keyword)
  {
    LowerOfCapitalized(Trim(keyword));
  }

  /** The first name is the first whitespace-separated word of the trimmed name, empty only for a blank name. */
  lemma FirstNameIsFirstWord(realName: string)
    ensures var t, f := Trim(realName), FirstName(realName);
      && NoSpace(f) && |f| <= |t| && f == t[..|f|] && (|f| == |t| || IsSpace(t[|f|]))
      && (f == [] <==> AllSpace(realName))
  {
    SplitFirst(Trim(realName));
  }

  /** The last name is the last whitespace-separated word of the trimmed name, empty only for a blank name. */
  lemma LastNameIsLastWord(realName: string)
    ensures var t, l := Trim(realName), LastName(realName);
      && NoSpace(l) && |l| <= |t| && l == t[|t| - |l|..] && (|l| == |t| || IsSpace(t[|t| - |l| - 1]))
      && (l == [] <==> AllSpace(realName))
  {
    var t := Trim(realName);
    SplitLast(t);
    assert NoSpace(Last(Split(t)));
  }

  /**
   * The first and last name are single words. For a name with any
   * non-whitespace character they are the first and the last
   * whitespace-separated word of the trimmed name; otherwise both are empty.
   */
  lemma NameParts(realName: string)
    ensures NoSpace(FirstName(realName)) && NoSpace(LastName(realName))
    ensures AllSpace(realName) ==> FirstName(realName) == [] && LastName(realName) == []
    ensures !AllSpace(realName) ==>
      var t, f, l := Trim(realName), FirstName(realName), LastName(realName);
      && f != [] && |f| <= |t| && f == t[..|f|] && (|f| == |t| || IsSpace(t[|f|]))
      && l != [] && |l| <= |t| && l == t[|t| - |l|..] && (|l| == |t| || IsSpace(t[|t| - |l| - 1]))
  {
    FirstNameIsFirstWord(realName);
    LastNameIsLastWord(realName);
  }

  /** Whether the lower-cased initial of `s` is `letter` (`s.toLowerCase().charAt(0) === letter`). */
  predicate InitialIs(s: string, letter: string): (b: bool)
    ensures b <==> if s == [] then letter == [] else letter == [LowerChar(s[0])]
  {
    CharAt(ToLower(s), 0) == letter
  }

  /** `xs.find(s => s.toLowerCase().charAt(0) === letter)`, as the position of the entry found. */
  function FindByInitial(xs: seq<string>, letter: string): (r: Option<nat>)
    ensures r.Some? ==> r.value < |xs| && InitialIs(xs[r.value], letter)
    ensures r.Some? ==> forall k :: 0 <= k < r.value ==> !InitialIs(xs[k], letter)
    ensures r.None? ==> forall k :: 0 <= k < |xs| ==> !InitialIs(xs[k], letter)
  {
    if xs == [] then None
    else if InitialIs(xs[0], letter) then Some(0)
    else match FindByInitial(xs[1..], letter)
      case None => None
      case Some(k) => Some(k + 1)
  }

  /** The search finds the first entry with the initial and only that. */
  lemma FindByInitialFirst(xs: seq<string>, letter: string, k: nat)
    requires k < |xs| && InitialIs(xs[k], letter)
    requires forall i :: 0 <= i < k ==> !InitialIs(xs[i], letter)
    ensures FindByInitial(xs, letter) == Some(k)
  {
    var found := FindByInitial(xs, letter);
    assert found.Some?;
    assert !(found.value < k);
  }

  /**
   * Template 6: keyword and a suffix sharing the first name's initial. A
   * keyword with that same initial, or a first name whose initial no entry of
   * `suffixes` has, gets the drawn suffix `suffixes[j]` instead. An empty
   * entry found by `find` is falsy, so it also gets the drawn suffix.
   */
  function Alliterative(suffixes: seq<string>, firstName: string, cleanKeyword: string, capitalizedKeyword: string, j: nat): (r: string)
    requires j < |suffixes|
    ensures |r| > |capitalizedKeyword| && r[..|capitalizedKeyword| + 1] == capitalizedKeyword + " "
    ensures exists k :: 0 <= k < |suffixes| && r == capitalizedKeyword + " " + suffixes[k]
  {
    var firstLetter := ToLower(CharAt(firstName, 0));
    if CharAt(cleanKeyword, 0) == firstLetter then
      capitalizedKeyword + " " + suffixes[j]
    else
      match FindByInitial(suffixes, firstLetter)
      case Some(k) => if suffixes[k] != [] then capitalizedKeyword + " " + suffixes[k] else capitalizedKeyword + " " + suffixes[j]
      case None => capitalizedKeyword + " " + suffixes[j]
  }

  lemma SpaceBetween(a: string, b: string)
    ensures ' ' in a + " " + b
  {
    assert (a + " " + b)[|a|] == ' ';
  }

  /**
   * The six templates of the `strategies` array, by position, over what
   * they capture: the prefix and suffix lists, the first and last name, the
   * clean keyword and the capitalised keyword. `d` supplies the prefix and
   * suffix they draw.
   */
  function Template(prefixes: seq<string>, suffixes: seq<string>, firstName: string, lastName: string,
                    cleanKeyword: string, capitalizedKeyword: string, d: Draws): (r: string)
    requires d.Fits(prefixes, suffixes)
    ensures ' ' in r
  {
    var ck, prefix, suffix := capitalizedKeyword, prefixes[d.prefix], suffixes[d.suffix];
    match d.strategy
    case 0 => SpaceBetween(prefix + " " + ck, suffix); prefix + " " + ck + " " + suffix
    case 1 => SpaceBetween(BlendWords(ck, firstName), suffix); BlendWords(ck, firstName) + " " + suffix
    case 2 => SpaceBetween(prefix, BlendWords(firstName, ck)); prefix + " " + BlendWords(firstName, ck)
    case 3 => assert ("The " + BlendWords(ck, lastName))[3] == ' '; "The " + BlendWords(ck, lastName)
    case 4 => SpaceBetween(ck, suffix); ck + " " + suffix
    case _ =>
      var r := Alliterative(suffixes, firstName, cleanKeyword, ck, d.suffix);
      assert r[|ck|] == (ck + " ")[|ck|];
      r
  }

  /**
   * No template is longer than its longest prefix and suffix, two spaces, the
   * keyword and the longer name part. "The " counts as a prefix and a space.
   */
  lemma TemplateLength(prefixes: seq<string>, suffixes: seq<string>, firstName: string, lastName: string,
                       cleanKeyword: string, capitalizedKeyword: string, d: Draws, p: nat, q: nat)
    requires d.Fits(prefixes, suffixes) && 2 <= p + q
    requires forall k :: 0 <= k < |prefixes| ==> |prefixes[k]| <= p
    requires forall k :: 0 <= k < |suffixes| ==> |suffixes[k]| <= q
    ensures |Template(prefixes, suffixes, firstName, lastName, cleanKeyword, capitalizedKeyword, d)|
      <= p + q + 2 + |capitalizedKeyword| + Max(|firstName|, |lastName|)
  {
    var ck := capitalizedKeyword;
    match d.strategy
    case 0 =>
    case 1 => assert |BlendWords(ck, firstName)| <= |ck| + |firstName|;
    case 2 => assert |BlendWords(firstName, ck)| <= |firstName| + |ck|;
    case 3 => assert |BlendWords(ck, lastName)| <= |ck| + |lastName|;
    case 4 =>
    case _ =>
      var r := Alliterative(suffixes, firstName, cleanKeyword, ck, d.suffix);
      var k :| 0 <= k < |suffixes| && r == ck + " " + suffixes[k];
  }

  /** The output of the template `d.strategy` picks for this request, before the length check. */
  function Candidate(realName: string, keyword: string, d: Draws): (r: string)
    requires d.Valid()
    ensures ' ' in r
    ensures |r| <= 25 + |Trim(keyword)| + |Trim(realName)|
  {
    PrefixesAtMostFourteen();
    SuffixesAtMostNine();
    TemplateLength(Prefixes, Suffixes, FirstName(realName), LastName(realName), CleanKeyword(keyword), CapitalizedKeyword(keyword), d, 14, 9);
    Template(Prefixes, Suffixes, FirstName(realName), LastName(realName), CleanKeyword(keyword), CapitalizedKeyword(keyword), d)
  }


  /** `createSuperheroName(realName, keyword)` with its random draws fixed by `d`. */
  function CreateSuperheroName(realName: string, keyword: string, d: Draws): (r: string)
    requires d.Valid()
    ensures ' ' in r
    ensures |r| <= MaxNameLength || |r| == |Trim(keyword)| + 1 + |Suffixes[d.fallbackSuffix]|
  {
    var firstName, lastName := FirstName(realName), LastName(realName);
    var cleanKeyword, capitalizedKeyword := CleanKeyword(keyword), CapitalizedKeyword(keyword);
    var result := Template(Prefixes, Suffixes, firstName, lastName, cleanKeyword, capitalizedKeyword, d);
    SpaceBetween(capitalizedKeyword, Suffixes[d.fallbackSuffix]);
    if |result| > MaxNameLength then capitalizedKeyword + " " + Suffixes[d.fallbackSuffix] else result
  }

  /** No generated name is empty: each one holds a space. */
  lemma NameNonEmpty(realName: string, keyword: string, d: Draws)
    requires d.Valid()
    ensures |CreateSuperheroName(realName, keyword, d)| > 0
  {
    var r := CreateSuperheroName(realName, keyword, d);
    assert ' ' in r;
  }

  /**
   * The length cap: a template output of at most 50 characters is returned
   * unchanged, a longer one is replaced by keyword, space and the fallback
   * suffix, whatever the length of that.
   */
  lemma LengthCap(realName: string, keyword: string, d: Draws)
    requires d.Valid()
    ensures var c, r := Candidate(realName, keyword, d), CreateSuperheroName(realName, keyword, d);
      && (|c| <= MaxNameLength ==> r == c)
      && (|c| > MaxNameLength ==> r == CapitalizedKeyword(keyword) + " " + Suffixes[d.fallbackSuffix])
  {
  }

  /** No prefix is longer than "The Invincible". */
  lemma PrefixesAtMostFourteen()
    ensures forall k :: 0 <= k < |Prefixes| ==> |Prefixes[k]| <= 14
    ensures |Prefixes[19]| == 14
  {
  }

  /** No suffix is longer than "Lightning". */
  lemma SuffixesAtMostNine()
    ensures forall k :: 0 <= k < |Suffixes| ==> |Suffixes[k]| <= 9
    ensures |Suffixes[17]| == 9
  {
  }

  /**
   * Short inputs never reach the fallback: when the trimmed name and keyword
   * have at most 25 characters together, the template's output is the name.
   */
  lemma ShortInputsKeepTemplate(realName: string, keyword: string, d: Draws)
    requires d.Valid() && |Trim(realName)| + |Trim(keyword)| <= 25
    ensures CreateSuperheroName(realName, keyword, d) == Candidate(realName, keyword, d)
  {
    LengthCap(realName, keyword, d);
  }

  /** The bound on the template's length is reached: "The Invincible", the keyword and "Lightning". */
  lemma CandidateBoundReached(realName: string, keyword: string, d: Draws)
    requires d == Draws(0, 19, 17, d.fallbackSuffix) && d.Valid() && AllSpace(realName)
    ensures |Candidate(realName, keyword, d)| == 25 + |Trim(keyword)| + |Trim(realName)|
  {
    PrefixesAtMostFourteen();
    SuffixesAtMostNine();
  }

  /** For a request the schema accepts the name has at most 50 + 1 + 9 characters. */
  lemma AcceptedInputLengthBound(realName: string, keyword: string, d: Draws)
    requires d.Valid() && Schema.AcceptsGenerateInput(realName, keyword)
    ensures |CreateSuperheroName(realName, keyword, d)| <= MaxNameLength + 1 + 9
  {
    SuffixesAtMostNine();
  }

  /**
   * The cap does not bound the result by 50: a 50-character keyword with no
   * surrounding whitespace, under template 5, overflows and so does its
   * fallback.
   */
  lemma FallbackExceedsCap(realName: string, keyword: string, d: Draws)
    requires d.Valid() && d.strategy == 4
    requires |keyword| == Schema.MaxKeywordLength && !IsSpace(keyword[0]) && !IsSpace(keyword[|keyword| - 1])
    ensures Schema.AcceptsGenerateInput(realName, keyword) <==> 1 <= |realName| <= Schema.MaxRealNameLength
    ensures |CreateSuperheroName(realName, keyword, d)| == 51 + |Suffixes[d.fallbackSuffix]| > MaxNameLength
  {
    TrimmedIsFixed(keyword);
    SuffixesNonEmpty();
    var ck := CapitalizedKeyword(keyword);
    assert |ck| == Schema.MaxKeywordLength;
    assert Candidate(realName, keyword, d) == ck + " " + Suffixes[d.suffix];
  }

  /** Every suffix has an initial. */
  lemma SuffixesNonEmpty()
    ensures forall k :: 0 <= k < |Suffixes| ==> |Suffixes[k]| > 0
  {
  }

  lemma LeadingOccurrence(a: string, b: string)
    ensures OccursAt(a + " " + b, a, 0)
  {
    assert (a + " " + b)[..|a|] == a;
  }

  lemma MiddleOccurrence(a: string, b: string, c: string)
    ensures OccursAt(a + " " + b + " " + c, b, |a| + 1)
  {
    assert (a + " " + b + " " + c)[|a| + 1..|a| + 1 + |b|] == b;
  }

  /**
   * Templates 1, 5 and 6 hold the capitalised keyword: after the prefix and
   * its space in template 1, at the start in the other two.
   */
  lemma TemplateKeepsKeyword(prefixes: seq<string>, suffixes: seq<string>, firstName: string, lastName: string,
                             cleanKeyword: string, capitalizedKeyword: string, d: Draws)
    requires d.Fits(prefixes, suffixes) && d.strategy in {0, 4, 5}
    ensures OccursAt(Template(prefixes, suffixes, firstName, lastName, cleanKeyword, capitalizedKeyword, d), capitalizedKeyword,
      if d.strategy == 0 then |prefixes[d.prefix]| + 1 else 0)
  {
    var ck := capitalizedKeyword;
    var r := Template(prefixes, suffixes, firstName, lastName, cleanKeyword, ck, d);
    if d.strategy == 0 {
      MiddleOccurrence(prefixes[d.prefix], ck, suffixes[d.suffix]);
    } else if d.strategy == 4 {
      assert r[..|ck|] == ck;
    } else {
      assert r[..|ck| + 1] == ck + " ";
      assert r[..|ck|] == (ck + " ")[..|ck|];
    }
  }

  /** An occurrence of the capitalised keyword is an occurrence of the clean keyword once lower-cased. */
  lemma LoweredOccurrence(r: string, keyword: string, at: nat)
    requires OccursAt(r, CapitalizedKeyword(keyword), at)
    ensures Contains(r, CapitalizedKeyword(keyword))
    ensures Contains(ToLower(r), CleanKeyword(keyword))
  {
    ContainsLower(r, CapitalizedKeyword(keyword), at);
    CapitalizedKeywordLowered(keyword);
  }

  /** The fallback starts with the capitalised keyword. */
  lemma FallbackKeepsKeyword(realName: string, keyword: string, d: Draws)
    requires d.Valid() && |Candidate(realName, keyword, d)| > MaxNameLength
    ensures OccursAt(CreateSuperheroName(realName, keyword, d), CapitalizedKeyword(keyword), 0)
  {
    LengthCap(realName, keyword, d);
    LeadingOccurrence(CapitalizedKeyword(keyword), Suffixes[d.fallbackSuffix]);
  }

  /** A result of template 1, 5 or 6 that fits the cap holds the capitalised keyword where the template put it. */
  lemma KeptTemplateKeepsKeyword(realName: string, keyword: string, d: Draws)
    requires d.Valid() && d.strategy in {0, 4, 5} && |Candidate(realName, keyword, d)| <= MaxNameLength
    ensures OccursAt(CreateSuperheroName(realName, keyword, d), CapitalizedKeyword(keyword),
      if d.strategy == 0 then |Prefixes[d.prefix]| + 1 else 0)
  {
    LengthCap(realName, keyword, d);
    TemplateKeepsKeyword(Prefixes, Suffixes, FirstName(realName), LastName(realName), CleanKeyword(keyword), CapitalizedKeyword(keyword), d);
  }

  /**
   * Templates 1, 5 and 6 and the fallback keep the capitalised keyword
   * verbatim, so the lower-cased name contains the clean keyword.
   */
  lemma KeywordKept(realName: string, keyword: string, d: Draws)
    requires d.Valid()
    requires d.strategy in {0, 4, 5} || |Candidate(realName, keyword, d)| > MaxNameLength
    ensures Contains(CreateSuperheroName(realName, keyword, d), CapitalizedKeyword(keyword))
    ensures Contains(ToLower(CreateSuperheroName(realName, keyword, d)), CleanKeyword(keyword))
  {
    var r := CreateSuperheroName(realName, keyword, d);
    if |Candidate(realName, keyword, d)| > MaxNameLength {
      FallbackKeepsKeyword(realName, keyword, d);
      LoweredOccurrence(r, keyword, 0);
    } else {
      KeptTemplateKeepsKeyword(realName, keyword, d);
      LoweredOccurrence(r, keyword, if d.strategy == 0 then |Prefixes[d.prefix]| + 1 else 0);
    }
  }

  /** In the alliterative template, the first suffix in list order with the first name's initial wins. */
  lemma AlliterativeFirstMatch(suffixes: seq<string>, firstName: string, cleanKeyword: string, capitalizedKeyword: string, j: nat, k: nat)
    requires j < |suffixes|
    requires var letter := ToLower(CharAt(firstName, 0));
      && CharAt(cleanKeyword, 0) != letter
      && k < |suffixes| && InitialIs(suffixes[k], letter) && suffixes[k] != []
      && forall i :: 0 <= i < k ==> !InitialIs(suffixes[i], letter)
    ensures Alliterative(suffixes, firstName, cleanKeyword, capitalizedKeyword, j) == capitalizedKeyword + " " + suffixes[k]
  {
    FindByInitialFirst(suffixes, ToLower(CharAt(firstName, 0)), k);
  }

  /** Template 6 is the alliterative template over the first name, the keywords and the drawn suffix. */
  lemma TemplateIsAlliterative(prefixes: seq<string>, suffixes: seq<string>, firstName: string, lastName: string,
                               cleanKeyword: string, capitalizedKeyword: string, d: Draws)
    requires d.Fits(prefixes, suffixes) && d.strategy == 5
    ensures Template(prefixes, suffixes, firstName, lastName, cleanKeyword, capitalizedKeyword, d)
      == Alliterative(suffixes, firstName, cleanKeyword, capitalizedKeyword, d.suffix)
  {
  }

  /** Template 6 of a request is the alliterative template over its name parts and the drawn suffix. */
  lemma CandidateIsAlliterative(realName: string, keyword: string, d: Draws)
    requires d.Valid() && d.strategy == 5
    ensures Candidate(realName, keyword, d)
      == Alliterative(Suffixes, FirstName(realName), CleanKeyword(keyword), CapitalizedKeyword(keyword), d.suffix)
  {
    TemplateIsAlliterative(Prefixes, Suffixes, FirstName(realName), LastName(realName), CleanKeyword(keyword), CapitalizedKeyword(keyword), d);
  }

  /**
   * Alliteration takes the first suffix in list order with the first name's
   * initial, whenever the keyword starts differently and such a suffix exists.
   */
  lemma AlliterationTakesFirstMatch(realName: string, keyword: string, d: Draws, k: nat)
    requires d.Valid() && d.strategy == 5
    requires var letter := ToLower(CharAt(FirstName(realName), 0));
      && CharAt(CleanKeyword(keyword), 0) != letter
      && k < |Suffixes| && InitialIs(Suffixes[k], letter)
      && forall i :: 0 <= i < k ==> !InitialIs(Suffixes[i], letter)
    ensures Candidate(realName, keyword, d) == CapitalizedKeyword(keyword) + " " + Suffixes[k]
  {
    SuffixesNonEmpty();
    CandidateIsAlliterative(realName, keyword, d);
    AlliterativeFirstMatch(Suffixes, FirstName(realName), CleanKeyword(keyword), CapitalizedKeyword(keyword), d.suffix, k);
  }

  /** The alliterative template uses the drawn suffix when the initials agree or no suffix has the initial. */
  lemma AlliterativeUsesDraw(suffixes: seq<string>, firstName: string, cleanKeyword: string, capitalizedKeyword: string, j: nat)
    requires j < |suffixes|
    requires var letter := ToLower(CharAt(firstName, 0));
      CharAt(cleanKeyword, 0) == letter || forall i :: 0 <= i < |suffixes| ==> !InitialIs(suffixes[i], letter)
    ensures Alliterative(suffixes, firstName, cleanKeyword, capitalizedKeyword, j) == capitalizedKeyword + " " + suffixes[j]
  {
    var letter := ToLower(CharAt(firstName, 0));
    var found := FindByInitial(suffixes, letter);
    if found.Some? {
      assert InitialIs(suffixes[found.value], letter);
    }
  }

  /** An empty initial is no suffix's initial. */
  lemma NoSuffixHasEmptyInitial()
    ensures forall i :: 0 <= i < |Suffixes| ==> !InitialIs(Suffixes[i], [])
  {
    SuffixesNonEmpty();
    forall i | 0 <= i < |Suffixes|
      ensures !InitialIs(Suffixes[i], [])
    {
      assert |ToLower(Suffixes[i])| > 0;
    }
  }

  /**
   * Alliteration falls back to the drawn suffix when the keyword has the
   * first name's initial or no suffix has it; with an empty first name and a
   * non-blank keyword no suffix has it.
   */
  lemma AlliterationUsesDraw(realName: string, keyword: string, d: Draws)
    requires d.Valid() && d.strategy == 5
    requires var letter := ToLower(CharAt(FirstName(realName), 0));
      || CharAt(CleanKeyword(keyword), 0) == letter
      || (forall i :: 0 <= i < |Suffixes| ==> !InitialIs(Suffixes[i], letter))
      || (FirstName(realName) == [] && !AllSpace(keyword))
    ensures Candidate(realName, keyword, d) == CapitalizedKeyword(keyword) + " " + Suffixes[d.suffix]
  {
    var firstName, cleanKeyword := FirstName(realName), CleanKeyword(keyword);
    if firstName == [] {
      NoSuffixHasEmptyInitial();
      assert ToLower(CharAt(firstName, 0)) == [];
    }
    CandidateIsAlliterative(realName, keyword, d);
    AlliterativeUsesDraw(Suffixes, firstName, cleanKeyword, CapitalizedKeyword(keyword), d.suffix);
  }

  /**
   * A request of whitespace only passes validation; the generator then has an
   * empty keyword and empty name parts, and still answers with a name.
   */
  lemma BlankInputGeneratesName(realName: string, keyword: string, d: Draws)
    requires d.Valid()
    requires 1 <= |realName| <= Schema.MaxRealNameLength && AllSpace(realName)
    requires 1 <= |keyword| <= Schema.MaxKeywordLength && AllSpace(keyword)
    ensures Schema.AcceptsGenerateInput(realName, keyword)
    ensures CapitalizedKeyword(keyword) == [] && FirstName(realName) == [] && LastName(realName) == []
    ensures |CreateSuperheroName(realName, keyword, d)| > 0
  {
    NameParts(realName);
    NameNonEmpty(realName, keyword, d);
  }
}
