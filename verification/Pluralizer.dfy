/**
 English plurals as the source forms them, and exactly which words come back from their plural.
 Words are ASCII here: case mapping is that of the letters A-Z and a-z.
 */
module Pluralizer {
  import opened Wrappers

  // ----- letters and endings

  predicate IsLower(c: char) {
    'a' <= c <= 'z'
  }

  predicate IsUpper(c: char) {
    'A' <= c <= 'Z'
  }

  function LowerChar(c: char): (d: char) {
    if IsUpper(c) then c + 32 as char else c
  }

  function UpperChar(c: char): (d: char) {
    if IsLower(c) then c - 32 as char else c
  }

  function Lower(s: string): (t: string)
    ensures |t| == |s|
  {
    seq(|s|, i requires 0 <= i < |s| => LowerChar(s[i]))
  }

  function Upper(s: string): (t: string)
    ensures |t| == |s|
  {
    seq(|s|, i requires 0 <= i < |s| => UpperChar(s[i]))
  }

  function Capitalize(s: string): (t: string) {
    if s == "" then s else [UpperChar(s[0])] + s[1..]
  }

  predicate IsVowel(c: char) {
    c in "aeiou"
  }

  predicate Ends1(s: string, a: char) {
    |s| >= 1 && s[|s| - 1] == a
  }

  predicate Ends2(s: string, a: char, b: char) {
    |s| >= 2 && s[|s| - 2] == a && s[|s| - 1] == b
  }

  predicate Ends3(s: string, a: char, b: char, c: char) {
    |s| >= 3 && s[|s| - 3] == a && s[|s| - 2] == b && s[|s| - 1] == c
  }

  /** Ends in s, x, z, ch or sh. */
  predicate EndsInSibilant(s: string) {
    Ends1(s, 's') || Ends1(s, 'x') || Ends1(s, 'z') || Ends2(s, 'c', 'h') || Ends2(s, 's', 'h')
  }

  /** At least two characters, the last is c, and the one before it is no vowel. */
  predicate EndsAfterConsonant(s: string, c: char) {
    |s| > 1 && Ends1(s, c) && !IsVowel(LowerChar(s[|s| - 2]))
  }

  // ----- the irregular words

  /**
   What reading a property of the tables gives. They are plain objects, so that the names of
   Object.prototype are found as well; of these, two are their own lower-case form.
   */
  datatype Lookup = Missing | Found(word: string) | Inherited

  predicate OnPrototype(key: string) {
    key == "constructor" || key == "__proto__"
  }

  function IrregularPlural(key: string): (l: Lookup) {
    if key == "address" then Found("addresses")
    else if key == "campus" then Found("campuses")
    else if key == "child" then Found("children")
    else if key == "person" then Found("people")
    else if OnPrototype(key) then Inherited
    else Missing
  }

  function IrregularSingular(key: string): (l: Lookup) {
    if key == "addresses" then Found("address")
    else if key == "campuses" then Found("campus")
    else if key == "children" then Found("child")
    else if key == "people" then Found("person")
    else if OnPrototype(key) then Inherited
    else Missing
  }

  predicate IsIrregularSingular(key: string) {
    key == "address" || key == "campus" || key == "child" || key == "person"
  }

  function PreserveCase(original: string, transformed: string): (s: string) {
    if original == "" then transformed
    else if original == Upper(original) then Upper(transformed)
    else if original[0] == UpperChar(original[0]) then Capitalize(Lower(Capitalize(transformed)))
    else Lower(transformed)
  }

  // ----- pluralize and singularize; None where the source throws

  function RegularPlural(word: string): (p: string)
    requires word != ""
  {
    if EndsAfterConsonant(word, 'y') then word[..|word| - 1] + "ies"
    else if EndsInSibilant(word) then word + "es"
    else if Ends1(word, 'f') then word[..|word| - 1] + "ves"
    else if Ends2(word, 'f', 'e') then word[..|word| - 2] + "ves"
    else if EndsAfterConsonant(word, 'o') && !IsOException(Lower(word)) then word + "es"
    else word + "s"
  }

  predicate IsOException(key: string) {
    key == "photo" || key == "piano" || key == "halo" || key == "solo" || key == "pro" || key == "auto"
  }

  function Pluralize(word: string): (p: Option<string>) {
    if word == "" then Some(word)
    else match IrregularPlural(Lower(word))
      case Inherited => None
      case Found(plural) => Some(PreserveCase(word, plural))
      case Missing => Some(RegularPlural(word))
  }

  function RegularSingular(word: string): (s: string)
    requires word != ""
  {
    if Ends2(word, 'u', 's') then word
    else if Ends3(word, 'i', 'e', 's') then word[..|word| - 3] + "y"
    else if Ends3(word, 'v', 'e', 's') then word[..|word| - 3] + "f"
    else if Ends2(word, 'e', 's') then
      var base := word[..|word| - 2];
      if EndsInSibilant(base) || EndsAfterConsonant(base, 'o') then base else base + "e"
    else if Ends1(word, 's') && !Ends2(word, 's', 's') then word[..|word| - 1]
    else word
  }

  function Singularize(word: string): (s: Option<string>) {
    if word == "" then Some(word)
    else match IrregularSingular(Lower(word))
      case Inherited => None
      case Found(singular) => Some(PreserveCase(word, singular))
      case Missing => Some(if IsIrregularSingular(Lower(word)) then word else RegularSingular(word))
  }

  lemma LookedUp(w: string, p: string)
    requires LowerWord(w) && LowerWord(p)
    ensures IrregularPlural(w) == Found(p) ==> Pluralize(w) == Some(p)
    ensures IrregularSingular(p) == Found(w) ==> Singularize(p) == Some(w)
  {
    LowerWordIsItsLower(w);
    LowerWordIsItsLower(p);
  }

  /** The irregular words in letters, both ways. */
  lemma IrregularsInLetters(w: string, p: string)
    requires (w == "address" && p == "addresses") || (w == "campus" && p == "campuses")
      || (w == "child" && p == "children") || (w == "person" && p == "people")
    ensures Pluralize(w) == Some(p) && Singularize(p) == Some(w)
  {
    LookedUp(w, p);
  }

  /** The rules in letters: what is put on a lower-case word, or in the place of its ending. */
  lemma RulesInLetters(stem: string, c: char)
    requires LowerWord(stem) && IsLower(c) && IrregularPlural(stem + [c]) == Missing
    ensures var w, p := stem + [c], Pluralize(stem + [c]);
      var consonant := stem[|stem| - 1] !in {'a', 'e', 'i', 'o', 'u'};
      && (c == 'y' && consonant ==> p == Some(stem + "ies"))
      && (c in {'s', 'x', 'z'} || (c == 'h' && stem[|stem| - 1] in {'c', 's'}) ==> p == Some(w + "es"))
      && (c == 'f' ==> p == Some(stem + "ves"))
      && (c == 'e' && stem[|stem| - 1] == 'f' ==> p == Some(stem[..|stem| - 1] + "ves"))
      && (c == 'o' && consonant && w !in {"photo", "piano", "halo", "solo", "pro", "auto"} ==> p == Some(w + "es"))
      && (c !in {'s', 'x', 'z', 'h', 'f', 'e', 'o', 'y'} ==> p == Some(w + "s"))
  {
    LowerWordIsItsLower(stem + [c]);
    assert (stem + [c])[..|stem|] == stem && (stem + [c])[..|stem| - 1] == stem[..|stem| - 1];
  }

  // ----- which words come back

  predicate LowerWord(w: string) {
    w != "" && forall i :: 0 <= i < |w| ==> IsLower(w[i])
  }

  /** The endings whose plural singularizes to something else. */
  predicate LosesItsEnding(w: string) {
    || Ends2(w, 'f', 'e') || Ends2(w, 'v', 'e') || Ends2(w, 'i', 'e')
    || Ends1(w, 'u')
    || Ends2(w, 's', 'e') || Ends2(w, 'x', 'e') || Ends2(w, 'z', 'e')
    || Ends3(w, 'c', 'h', 'e') || Ends3(w, 's', 'h', 'e')
    || (|w| >= 3 && Ends2(w, 'o', 'e') && !IsVowel(w[|w| - 3]))
  }

  predicate ComesBack(w: string) {
    Pluralize(w).Some? && Singularize(Pluralize(w).value) == Some(w)
  }

  lemma LowerWordIsItsLower(w: string)
    requires LowerWord(w)
    ensures Lower(w) == w && w[0] != UpperChar(w[0]) && w != Upper(w)
  {
  }

  /** For a lower-case word that ends in s and no irregular plural, only the rules matter. */
  lemma SingularizeByRule(p: string)
    requires LowerWord(p) && Ends1(p, 's')
    requires p != "addresses" && p != "campuses" && p != "address" && p != "campus"
    ensures Singularize(p) == Some(RegularSingular(p))
  {
    LowerWordIsItsLower(p);
    assert "children"[7] == 'n' && "people"[5] == 'e' && "child"[4] == 'd' && "person"[5] == 'n';
    assert "constructor"[10] == 'r' && "__proto__"[8] == '_';
  }

  lemma IrregularComesBack(w: string, p: string)
    requires LowerWord(w) && LowerWord(p) && IrregularPlural(w) == Found(p) && IrregularSingular(p) == Found(w)
    ensures ComesBack(w)
  {
    LowerWordIsItsLower(w);
    LowerWordIsItsLower(p);
  }

  lemma IrregularsComeBack(w: string)
    requires IsIrregularSingular(w)
    ensures ComesBack(w) && !LosesItsEnding(w)
  {
    var p := IrregularPlural(w).word;
    IrregularComesBack(w, p);
  }

  lemma PluralInEs(w: string)
    requires LowerWord(w) && (EndsInSibilant(w) || EndsAfterConsonant(w, 'o'))
    ensures RegularSingular(w + "es") == w && !LosesItsEnding(w)
  {
  }

  lemma PluralInIes(w: string)
    requires LowerWord(w) && EndsAfterConsonant(w, 'y')
    ensures RegularSingular(w[..|w| - 1] + "ies") == w && !LosesItsEnding(w)
  {
  }

  lemma PluralOnF(w: string)
    requires LowerWord(w) && Ends1(w, 'f')
    ensures RegularSingular(w[..|w| - 1] + "ves") == w && !LosesItsEnding(w)
  {
  }

  lemma PluralOnFe(w: string)
    requires LowerWord(w) && Ends2(w, 'f', 'e')
    ensures RegularSingular(w[..|w| - 2] + "ves") != w
  {
  }

  lemma PluralIsLower(w: string)
    requires LowerWord(w)
    ensures LowerWord(RegularPlural(w)) && Ends1(RegularPlural(w), 's')
  {
  }

  /** The rules alone: the plural of a regular word singularizes to it unless it loses its ending. */
  lemma RulesComeBack(w: string)
    requires LowerWord(w) && IrregularPlural(w) == Missing
    ensures LowerWord(RegularPlural(w)) && Ends1(RegularPlural(w), 's')
    ensures RegularSingular(RegularPlural(w)) == w <==> !LosesItsEnding(w)
  {
    LowerWordIsItsLower(w);
    PluralIsLower(w);
    if EndsAfterConsonant(w, 'y') {
      PluralInIes(w);
    } else if EndsInSibilant(w) {
      PluralInEs(w);
    } else if Ends1(w, 'f') {
      PluralOnF(w);
    } else if Ends2(w, 'f', 'e') {
      PluralOnFe(w);
    } else if EndsAfterConsonant(w, 'o') && !IsOException(w) {
      PluralInEs(w);
    } else {
      PlainPlural(w);
    }
  }

  lemma PlainPlural(w: string)
    requires LowerWord(w) && !EndsInSibilant(w) && !Ends2(w, 'f', 'e')
    ensures RegularSingular(w + "s") == w <==> !LosesItsEnding(w)
  {
  }

  /**
   A lower-case word comes back from its plural exactly when it does not end in fe, ve, ie, u,
   se, xe, ze, che, she, or oe after a consonant, and is not "constructor", where the lookup
   of irregular words finds an inherited property and the source throws.
   */
  lemma ComesBackIff(w: string)
    requires LowerWord(w)
    ensures ComesBack(w) <==> !LosesItsEnding(w) && w != "constructor"
  {
    LowerWordIsItsLower(w);
    match IrregularPlural(w)
    case Inherited =>
    case Found(_) => IrregularsComeBack(w);
    case Missing =>
      RulesComeBack(w);
      var p := RegularPlural(w);
      if p == "addresses" || p == "campuses" || p == "address" || p == "campus" {
        MistakenForIrregular(w);
      } else {
        SingularizeByRule(p);
      }
  }

  lemma PluralAddsAnEnding(w: string)
    requires w != ""
    ensures var p := RegularPlural(w);
      p == w + "s" || p == w + "es" || Ends3(p, 'i', 'e', 's') || Ends3(p, 'v', 'e', 's')
  {
  }

  /** A regular plural that looks irregular comes from a word that loses its ending: addresse, campuse, campu. */
  lemma MistakenForIrregular(w: string)
    requires LowerWord(w) && IrregularPlural(w) == Missing
    requires var p := RegularPlural(w); p == "addresses" || p == "campuses" || p == "address" || p == "campus"
    ensures LosesItsEnding(w) && !ComesBack(w)
  {
    var p := RegularPlural(w);
    LowerWordIsItsLower(w);
    PluralAddsAnEnding(w);
    if p == w + "es" {
      assert w == p[..|p| - 2];
      NotIrregularStem(w, p);
    } else {
      assert w == p[..|p| - 1];
      if p == "addresses" {
        assert Ends2(w, 's', 'e') && |w| == 8;
      } else if p == "campuses" {
        assert Ends2(w, 's', 'e') && |w| == 7;
      } else if p == "address" {
        assert Ends1(w, 's');
      } else {
        assert Ends1(w, 'u') && |w| == 5;
      }
      RulesComeBack(w);
      LowerWordIsItsLower(p);
    }
  }

  lemma NotIrregularStem(w: string, p: string)
    requires p == w + "es" && IrregularPlural(w) == Missing
    ensures p != "addresses" && p != "campuses" && p != "address" && p != "campus"
  {
    assert w == p[..|p| - 2];
    assert "addresses"[..7] == "address" && "campuses"[..6] == "campus";
    assert p[|p| - 2] == 'e';
  }

  /** So pluralize is injective on the words that come back. */
  lemma PluralizeIsInjective(v: string, w: string)
    requires LowerWord(v) && LowerWord(w) && Pluralize(v) == Pluralize(w)
    requires !LosesItsEnding(v) && !LosesItsEnding(w) && v != "constructor" && w != "constructor"
    ensures v == w
  {
    ComesBackIff(v);
    ComesBackIff(w);
  }
}
