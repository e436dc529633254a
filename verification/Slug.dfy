/** slugify, a chain of replacements, and the pattern isValidSlug tests. Lower case, trimming and
    white space are those of ASCII text. */
module Slug {

  const HYPHEN := '-'

  function Lower(c: char): char {
    if 'A' <= c <= 'Z' then (c as int + 32) as char else c
  }

  function ToLowerCase(s: string): string {
    if s == [] then [] else [Lower(s[0])] + ToLowerCase(s[1..])
  }

  predicate IsSpace(c: char) {
    c == ' ' || 9 as char <= c <= 13 as char
  }

  function TrimStart(s: string): string {
    if s != [] && IsSpace(s[0]) then TrimStart(s[1..]) else s
  }

  function TrimEnd(s: string): string {
    if s != [] && IsSpace(s[|s| - 1]) then TrimEnd(s[..|s| - 1]) else s
  }

  /** replace(/\s+/g, '-') */
  function HyphenateSpaces(s: string): string {
    if s == [] then []
    else if !IsSpace(s[0]) then [s[0]] + HyphenateSpaces(s[1..])
    else if |s| > 1 && IsSpace(s[1]) then HyphenateSpaces(s[1..])
    else [HYPHEN] + HyphenateSpaces(s[1..])
  }

  predicate IsWord(c: char) {
    'a' <= c <= 'z' || 'A' <= c <= 'Z' || '0' <= c <= '9' || c == '_'
  }

  /** replace(/[^\w\-]+/g, '') */
  function KeepWords(s: string): string {
    if s == [] then [] else (if IsWord(s[0]) || s[0] == HYPHEN then [s[0]] else []) + KeepWords(s[1..])
  }

  /** replace(/\-\-+/g, '-') */
  function CollapseHyphens(s: string): string {
    if s == [] then []
    else if s[0] == HYPHEN && |s| > 1 && s[1] == HYPHEN then CollapseHyphens(s[1..])
    else [s[0]] + CollapseHyphens(s[1..])
  }

  /** replace(/^-+/, '') */
  function StripStart(s: string): string {
    if s != [] && s[0] == HYPHEN then StripStart(s[1..]) else s
  }

  /** replace(/-+$/, '') */
  function StripEnd(s: string): string {
    if s != [] && s[|s| - 1] == HYPHEN then StripEnd(s[..|s| - 1]) else s
  }

  function Slugify(text: string): string {
    StripEnd(StripStart(CollapseHyphens(KeepWords(HyphenateSpaces(TrimEnd(TrimStart(ToLowerCase(text))))))))
  }

  predicate IsAlnum(c: char) {
    'a' <= c <= 'z' || '0' <= c <= '9'
  }

  /** /^[a-z0-9]+(?:-[a-z0-9]+)*$/ */
  predicate IsValidSlug(s: string)
    decreases |s|, 1
  {
    s != [] && IsAlnum(s[0]) && ContinuesSlug(s[1..])
  }

  predicate ContinuesSlug(s: string)
    decreases |s|, 0
  {
    s == [] || (IsAlnum(s[0]) && ContinuesSlug(s[1..])) || (s[0] == HYPHEN && IsValidSlug(s[1..]))
  }

  // ---- The shape of a slug ---------------------------------------------------------

  predicate SlugChar(c: char) {
    IsAlnum(c) || c == '_' || c == HYPHEN
  }

  ghost predicate SlugChars(s: string) {
    forall i :: 0 <= i < |s| ==> SlugChar(s[i])
  }

  ghost predicate NoDoubleHyphen(s: string) {
    forall i :: 0 <= i < |s| - 1 ==> !(s[i] == HYPHEN && s[i + 1] == HYPHEN)
  }

  ghost predicate NoUpper(s: string) {
    forall i :: 0 <= i < |s| ==> !('A' <= s[i] <= 'Z')
  }

  /** Only a-z, 0-9, underscore and hyphen; no leading, trailing or doubled hyphen. */
  ghost predicate IsSlug(s: string) {
    SlugChars(s) && NoDoubleHyphen(s) && (s != [] ==> s[0] != HYPHEN && s[|s| - 1] != HYPHEN)
  }

  lemma {:induction false} LowerHasNoUpper(s: string)
    ensures NoUpper(ToLowerCase(s))
  {
    if s != [] {
      LowerHasNoUpper(s[1..]);
    }
  }

  lemma {:induction false} TrimKeepsNoUpper(s: string)
    requires NoUpper(s)
    ensures NoUpper(TrimStart(s)) && NoUpper(TrimEnd(s))
    decreases |s|
  {
    if s != [] {
      TrimKeepsNoUpper(s[1..]);
      TrimKeepsNoUpper(s[..|s| - 1]);
    }
  }

  lemma {:induction false} HyphenatedHasNoUpper(s: string)
    requires NoUpper(s)
    ensures NoUpper(HyphenateSpaces(s))
  {
    if s != [] {
      HyphenatedHasNoUpper(s[1..]);
    }
  }

  lemma {:induction false} KeptChars(s: string)
    requires NoUpper(s)
    ensures SlugChars(KeepWords(s))
  {
    if s != [] {
      KeptChars(s[1..]);
    }
  }

  lemma {:induction false} CollapsedShape(s: string)
    ensures NoDoubleHyphen(CollapseHyphens(s)) && (SlugChars(s) ==> SlugChars(CollapseHyphens(s)))
    ensures s != [] ==> CollapseHyphens(s) != [] && CollapseHyphens(s)[0] == s[0]
  {
    if s != [] {
      CollapsedShape(s[1..]);
    }
  }

  lemma {:induction false} StripStartShape(s: string)
    requires SlugChars(s) && NoDoubleHyphen(s)
    ensures var r := StripStart(s);
            SlugChars(r) && NoDoubleHyphen(r) && (r != [] ==> r[0] != HYPHEN)
  {
    if s != [] && s[0] == HYPHEN {
      StripStartShape(s[1..]);
    }
  }

  lemma {:induction false} StripEndShape(s: string)
    requires SlugChars(s) && NoDoubleHyphen(s) && (s != [] ==> s[0] != HYPHEN)
    ensures IsSlug(StripEnd(s))
  {
    if s != [] && s[|s| - 1] == HYPHEN {
      StripEndShape(s[..|s| - 1]);
    }
  }

  /** Whatever the text, slugify returns a slug. */
  lemma SlugifyGivesSlug(text: string)
    ensures IsSlug(Slugify(text))
  {
    var lower := ToLowerCase(text);
    LowerHasNoUpper(text);
    TrimKeepsNoUpper(lower);
    TrimKeepsNoUpper(TrimStart(lower));
    var trimmed := TrimEnd(TrimStart(lower));
    HyphenatedHasNoUpper(trimmed);
    KeptChars(HyphenateSpaces(trimmed));
    var kept := KeepWords(HyphenateSpaces(trimmed));
    CollapsedShape(kept);
    StripStartShape(CollapseHyphens(kept));
    StripEndShape(StripStart(CollapseHyphens(kept)));
  }

  lemma {:induction false} SlugUnchanged(s: string)
    requires SlugChars(s) && NoDoubleHyphen(s)
    ensures ToLowerCase(s) == s && HyphenateSpaces(s) == s && KeepWords(s) == s && CollapseHyphens(s) == s
  {
    if s != [] {
      SlugUnchanged(s[1..]);
      assert s == [s[0]] + s[1..];
    }
  }

  /** slugify changes a slug no more, so applying it twice is applying it once. */
  lemma SlugifyIdempotent(text: string)
    ensures Slugify(Slugify(text)) == Slugify(text)
  {
    SlugifyGivesSlug(text);
    SlugUnchanged(Slugify(text));
  }

  /** What may follow the first letter of a slug without underscores. */
  ghost predicate IsSlugTail(s: string) {
    SlugChars(s) && NoDoubleHyphen(s) && '_' !in s && (s != [] ==> s[|s| - 1] != HYPHEN)
  }

  lemma {:induction false} TailExact(s: string)
    ensures ContinuesSlug(s) <==> IsSlugTail(s)
    decreases |s|, 0
  {
    if s != [] {
      TailExact(s[1..]);
      PatternExact(s[1..]);
      assert s == [s[0]] + s[1..];
    }
  }

  /** The pattern accepts exactly the non-empty slugs without underscores. */
  lemma {:induction false} PatternExact(s: string)
    ensures IsValidSlug(s) <==> s != [] && IsSlug(s) && '_' !in s
    decreases |s|, 1
  {
    if s != [] {
      TailExact(s[1..]);
      assert s == [s[0]] + s[1..];
    }
  }

  /** isValidSlug accepts what slugify returns exactly when it is not empty and has no underscore. */
  lemma SlugifyValid(text: string)
    ensures IsValidSlug(Slugify(text)) <==> Slugify(text) != [] && '_' !in Slugify(text)
  {
    SlugifyGivesSlug(text);
    PatternExact(Slugify(text));
  }

  // ---- The chain of replacements as one pass ---------------------------------------

  const UPPER := "ABCDEFGHIJKLMNOPQRSTUVWXYZ"
  const LOWER := "abcdefghijklmnopqrstuvwxyz"
  const DIGITS := "0123456789"

  predicate IsSeparator(c: char) {
    IsSpace(c) || c == HYPHEN
  }

  lemma Alphabets()
    ensures |UPPER| == |LOWER| == 26 && |DIGITS| == 10
    ensures forall i :: 0 <= i < 26 ==> UPPER[i] as int == 65 + i && LOWER[i] as int == 97 + i
    ensures forall i :: 0 <= i < 10 ==> DIGITS[i] as int == 48 + i
  {
  }

  lemma InAlphabets(c: char)
    ensures c in UPPER <==> 'A' <= c <= 'Z'
    ensures c in LOWER <==> 'a' <= c <= 'z'
    ensures c in DIGITS <==> '0' <= c <= '9'
  {
    Alphabets();
    if 'A' <= c <= 'Z' {
      assert UPPER[c as int - 65] == c;
    }
    if 'a' <= c <= 'z' {
      assert LOWER[c as int - 97] == c;
    }
    if '0' <= c <= '9' {
      assert DIGITS[c as int - 48] == c;
    }
  }

  /** The word characters are the letters, the digits and the underscore; the separators are the white space of ASCII
      and the hyphen. */
  lemma CharsExact(c: char)
    ensures IsWord(c) <==> c in UPPER || c in LOWER || c in DIGITS || c == '_'
    ensures IsSeparator(c) <==> c in [' ', '\t', '\n', '\r', 11 as char, 12 as char, '-']
  {
    InAlphabets(c);
  }

  /** A capital letter has the small letter in its place of the alphabet, and nothing else changes. */
  lemma LowerExact(c: char)
    ensures forall i :: 0 <= i < 26 && c == UPPER[i] ==> Lower(c) == LOWER[i]
    ensures c !in UPPER ==> Lower(c) == c
  {
    Alphabets();
    InAlphabets(c);
    forall i | 0 <= i < 26 && c == UPPER[i] ensures Lower(c) == LOWER[i] {
      assert c as int == 65 + i;
      assert LOWER[i] as int == 97 + i;
    }
  }

  /** One pass over the text: words in lower case, with one hyphen where any separators stood between two of
      them. `started` says that a word character has been written, `gap` that separators came since. */
  function OnePass(s: string, started: bool, gap: bool): string {
    if s == [] then []
    else if IsWord(s[0]) then
      (if started && gap then [HYPHEN] else []) + [Lower(s[0])] + OnePass(s[1..], true, false)
    else OnePass(s[1..], started, gap || IsSeparator(s[0]))
  }

  /** Before the first word character separators do not matter. */
  lemma {:induction false} LeadingGap(s: string)
    ensures OnePass(s, false, true) == OnePass(s, false, false)
  {
    if s != [] && !IsWord(s[0]) {
      LeadingGap(s[1..]);
    }
  }

  lemma {:induction false} TrailingSeparator(s: string, c: char, started: bool, gap: bool)
    requires IsSeparator(c)
    ensures OnePass(s + [c], started, gap) == OnePass(s, started, gap)
  {
    if s == [] {
      assert s + [c] == [c];
    } else {
      assert (s + [c])[1..] == s[1..] + [c];
      TrailingSeparator(s[1..], c, if IsWord(s[0]) then true else started,
                        if IsWord(s[0]) then false else gap || IsSeparator(s[0]));
    }
  }

  lemma {:induction false} LowerCasePass(s: string, started: bool, gap: bool)
    ensures OnePass(ToLowerCase(s), started, gap) == OnePass(s, started, gap)
  {
    if s != [] {
      LowerCasePass(s[1..], if IsWord(s[0]) then true else started,
                    if IsWord(s[0]) then false else gap || IsSeparator(s[0]));
    }
  }

  lemma {:induction false} TrimPass(s: string)
    ensures OnePass(TrimStart(s), false, false) == OnePass(s, false, false)
    ensures OnePass(TrimEnd(s), false, false) == OnePass(s, false, false)
    decreases |s|
  {
    if s != [] {
      if IsSpace(s[0]) {
        TrimPass(s[1..]);
        LeadingGap(s[1..]);
      }
      if IsSpace(s[|s| - 1]) {
        TrimPass(s[..|s| - 1]);
        TrailingSeparator(s[..|s| - 1], s[|s| - 1], false, false);
        assert s == s[..|s| - 1] + [s[|s| - 1]];
      }
    }
  }

  lemma {:induction false} StripPass(s: string)
    ensures OnePass(StripStart(s), false, false) == OnePass(s, false, false)
    ensures OnePass(StripEnd(s), false, false) == OnePass(s, false, false)
    decreases |s|
  {
    if s != [] {
      if s[0] == HYPHEN {
        StripPass(s[1..]);
        LeadingGap(s[1..]);
      }
      if s[|s| - 1] == HYPHEN {
        StripPass(s[..|s| - 1]);
        TrailingSeparator(s[..|s| - 1], s[|s| - 1], false, false);
        assert s == s[..|s| - 1] + [s[|s| - 1]];
      }
    }
  }

  lemma {:induction false} HyphenatePass(s: string, started: bool, gap: bool)
    ensures OnePass(HyphenateSpaces(s), started, gap) == OnePass(s, started, gap)
  {
    if s != [] {
      HyphenatePass(s[1..], if IsWord(s[0]) then true else started,
                    if IsWord(s[0]) then false else gap || IsSeparator(s[0]));
      if IsSpace(s[0]) && |s| > 1 && IsSpace(s[1]) {
        HyphenatePass(s[1..], started, gap);
      }
    }
  }

  lemma {:induction false} KeepPass(s: string, started: bool, gap: bool)
    requires forall i :: 0 <= i < |s| ==> !IsSpace(s[i])
    ensures OnePass(KeepWords(s), started, gap) == OnePass(s, started, gap)
  {
    if s != [] {
      KeepPass(s[1..], if IsWord(s[0]) then true else started,
               if IsWord(s[0]) then false else gap || IsSeparator(s[0]));
      assert [] + KeepWords(s[1..]) == KeepWords(s[1..]);
    }
  }

  lemma {:induction false} CollapsePass(s: string, started: bool, gap: bool)
    ensures OnePass(CollapseHyphens(s), started, gap) == OnePass(s, started, gap)
  {
    if s != [] {
      CollapsePass(s[1..], if IsWord(s[0]) then true else started,
                   if IsWord(s[0]) then false else gap || IsSeparator(s[0]));
      if s[0] == HYPHEN && |s| > 1 && s[1] == HYPHEN {
        CollapsePass(s[1..], started, gap);
      }
    }
  }

  lemma {:induction false} NoSpacesLeft(s: string)
    ensures forall i :: 0 <= i < |HyphenateSpaces(s)| ==> !IsSpace(HyphenateSpaces(s)[i])
  {
    if s != [] {
      NoSpacesLeft(s[1..]);
    }
  }

  /** A slug passes unchanged. */
  lemma {:induction false} SlugPass(s: string, started: bool, gap: bool)
    requires SlugChars(s) && NoDoubleHyphen(s) && (s != [] ==> s[|s| - 1] != HYPHEN)
    requires s != [] && s[0] == HYPHEN ==> started && !gap
    ensures OnePass(s, started, gap) == if s != [] && started && gap then [HYPHEN] + s else s
  {
    if s != [] {
      assert s == [s[0]] + s[1..];
      SlugPass(s[1..], true, s[0] == HYPHEN);
    }
  }

  /** The eight steps of slugify, each over the whole text, do what one pass does. */
  lemma SlugifyIsOnePass(text: string)
    ensures Slugify(text) == OnePass(text, false, false)
  {
    var lower := ToLowerCase(text);
    var trimmed := TrimEnd(TrimStart(lower));
    var hyphenated := HyphenateSpaces(trimmed);
    var kept := KeepWords(hyphenated);
    var collapsed := CollapseHyphens(kept);
    LowerCasePass(text, false, false);
    TrimPass(lower);
    TrimPass(TrimStart(lower));
    HyphenatePass(trimmed, false, false);
    NoSpacesLeft(trimmed);
    KeepPass(hyphenated, false, false);
    CollapsePass(kept, false, false);
    StripPass(collapsed);
    StripPass(StripStart(collapsed));
    SlugifyGivesSlug(text);
    SlugPass(Slugify(text), false, false);
  }
}
