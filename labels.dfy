/** Canonical state and district labels.

    A state label is passed through Python's `str.title()`, then `strip()`,
    then a whole-value replacement through a fixed alias table.  A district
    label has every `?` rewritten to `-` and is otherwise left alone.  The
    character classes are restricted to ASCII: a letter is `A`-`Z` or
    `a`-`z`, and whitespace is what Python's `str.isspace` accepts among the
    ASCII characters. */
module Labels {

  // ---------------------------------------------------------------------
  // Character classes
  // ---------------------------------------------------------------------

  predicate IsUpper(c: char) { 'A' <= c <= 'Z' }

  predicate IsLower(c: char) { 'a' <= c <= 'z' }

  predicate IsLetter(c: char) { IsUpper(c) || IsLower(c) }

  /** Space, tab, line feed, vertical tab, form feed, carriage return and the
      four separators U+001C to U+001F. */
  predicate IsSpace(c: char)
  {
    c == ' ' || '\t' <= c <= '\r' || '\U{1C}' <= c <= '\U{1F}'
  }

  function ToUpper(c: char): (r: char)
    ensures IsLetter(c) ==> IsUpper(r)
    ensures !IsLetter(c) ==> r == c
  {
    if IsLower(c) then (c as int - 32) as char else c
  }

  function ToLower(c: char): (r: char)
    ensures IsLetter(c) ==> IsLower(r)
    ensures !IsLetter(c) ==> r == c
  {
    if IsUpper(c) then (c as int + 32) as char else c
  }

  // ---------------------------------------------------------------------
  // str.title()
  // ---------------------------------------------------------------------

  /** The title-case of one character, given whether the character before it
      is a letter. */
  function TitleChar(c: char, afterLetter: bool): char
  {
    if !IsLetter(c) then c else if afterLetter then ToLower(c) else ToUpper(c)
  }

  function TitleFrom(s: string, afterLetter: bool): (r: string)
    ensures |r| == |s|
    decreases |s|
  {
    if s == [] then []
    else [TitleChar(s[0], afterLetter)] + TitleFrom(s[1..], IsLetter(s[0]))
  }

  /** `str.title()`. */
  function Title(s: string): (r: string)
    ensures |r| == |s|
  {
    TitleFrom(s, false)
  }

  lemma {:induction false} TitleFromAt(s: string, afterLetter: bool, i: nat)
    requires i < |s|
    ensures TitleFrom(s, afterLetter)[i] == TitleChar(s[i], if i == 0 then afterLetter else IsLetter(s[i - 1]))
    decreases |s|
  {
    if i > 0 {
      TitleFromAt(s[1..], IsLetter(s[0]), i - 1);
    }
  }

  /** The title-case rule character by character: a letter is upper-cased
      when it is the first character or follows a non-letter and is
      lower-cased otherwise; every other character is kept. */
  lemma TitleAt(s: string, i: nat)
    requires i < |s|
    ensures IsLetter(s[i]) && (i == 0 || !IsLetter(s[i - 1])) ==> Title(s)[i] == ToUpper(s[i])
    ensures IsLetter(s[i]) && i > 0 && IsLetter(s[i - 1]) ==> Title(s)[i] == ToLower(s[i])
    ensures !IsLetter(s[i]) ==> Title(s)[i] == s[i]
  {
    TitleFromAt(s, false, i);
  }

  lemma {:induction false} TitleFromIdempotent(s: string, afterLetter: bool)
    ensures TitleFrom(TitleFrom(s, afterLetter), afterLetter) == TitleFrom(s, afterLetter)
    decreases |s|
  {
    if s != [] {
      var t := TitleFrom(s, afterLetter);
      TitleFromIdempotent(s[1..], IsLetter(s[0]));
      assert t[1..] == TitleFrom(s[1..], IsLetter(s[0]));
      assert IsLetter(t[0]) == IsLetter(s[0]);
    }
  }

  /** Title-casing is idempotent. */
  lemma TitleIdempotent(s: string)
    ensures Title(Title(s)) == Title(s)
  {
    TitleFromIdempotent(s, false);
  }

  lemma {:induction false} TitleFromPrefix(s: string, afterLetter: bool, m: nat)
    requires m <= |s|
    ensures TitleFrom(s[..m], afterLetter) == TitleFrom(s, afterLetter)[..m]
    decreases |s|
  {
    if m > 0 {
      TitleFromPrefix(s[1..], IsLetter(s[0]), m - 1);
      assert s[..m][1..] == s[1..][..m - 1];
    }
  }

  /** Title-casing from position a on depends only on the character before a. */
  lemma {:induction false} TitleFromSuffix(s: string, afterLetter: bool, a: nat)
    requires 0 < a <= |s|
    ensures TitleFrom(s, afterLetter)[a..] == TitleFrom(s[a..], IsLetter(s[a - 1]))
    decreases a
  {
    var t := TitleFrom(s, afterLetter);
    assert t[1..] == TitleFrom(s[1..], IsLetter(s[0]));
    if a > 1 {
      TitleFromSuffix(s[1..], IsLetter(s[0]), a - 1);
      assert t[a..] == t[1..][a - 1..];
      assert s[1..][a - 1..] == s[a..];
    }
  }

  // ---------------------------------------------------------------------
  // str.strip()
  // ---------------------------------------------------------------------

  /** The number of whitespace characters at the start. */
  function LeadingSpaces(s: string): (n: nat)
    ensures n <= |s|
    decreases |s|
  {
    if s != [] && IsSpace(s[0]) then 1 + LeadingSpaces(s[1..]) else 0
  }

  /** The number of whitespace characters at the end. */
  function TrailingSpaces(s: string): (n: nat)
    ensures n <= |s|
    decreases |s|
  {
    if s != [] && IsSpace(s[|s| - 1]) then 1 + TrailingSpaces(s[..|s| - 1]) else 0
  }

  /** `strip()`: drops the leading and then the trailing whitespace. */
  function Strip(s: string): (r: string)
    ensures r <= s[LeadingSpaces(s)..]
  {
    var t := s[LeadingSpaces(s)..];
    t[..|t| - TrailingSpaces(t)]
  }

  lemma {:induction false} LeadingSpacesAt(s: string)
    ensures forall k :: 0 <= k < LeadingSpaces(s) ==> IsSpace(s[k])
    ensures LeadingSpaces(s) < |s| ==> !IsSpace(s[LeadingSpaces(s)])
    decreases |s|
  {
    if s != [] && IsSpace(s[0]) {
      LeadingSpacesAt(s[1..]);
    }
  }

  lemma {:induction false} TrailingSpacesAt(s: string)
    ensures forall k :: |s| - TrailingSpaces(s) <= k < |s| ==> IsSpace(s[k])
    ensures TrailingSpaces(s) < |s| ==> !IsSpace(s[|s| - 1 - TrailingSpaces(s)])
    decreases |s|
  {
    if s != [] && IsSpace(s[|s| - 1]) {
      TrailingSpacesAt(s[..|s| - 1]);
    }
  }

  /** Stripping removes a whitespace prefix and a whitespace suffix and
      nothing else, and what is left neither starts nor ends with
      whitespace. */
  lemma StripCharacterised(s: string)
    ensures exists a, b ::
      && 0 <= a <= b <= |s| && Strip(s) == s[a..b]
      && (forall k :: 0 <= k < a ==> IsSpace(s[k]))
      && (forall k :: b <= k < |s| ==> IsSpace(s[k]))
    ensures Strip(s) != [] ==> !IsSpace(Strip(s)[0]) && !IsSpace(Strip(s)[|Strip(s)| - 1])
  {
    var a := LeadingSpaces(s);
    var t := s[a..];
    var b := a + |t| - TrailingSpaces(t);
    LeadingSpacesAt(s);
    TrailingSpacesAt(t);
    assert Strip(s) == s[a..b];
    forall k | b <= k < |s| ensures IsSpace(s[k]) {
      assert s[k] == t[k - a];
    }
    if Strip(s) != [] {
      assert Strip(s)[0] == s[a];
    }
  }

  lemma StripIdempotent(s: string)
    ensures Strip(Strip(s)) == Strip(s)
  {
    var r := Strip(s);
    StripCharacterised(s);
    if r != [] {
      assert LeadingSpaces(r) == 0;
      assert TrailingSpaces(r) == 0;
    }
  }

  // ---------------------------------------------------------------------
  // Title-casing and stripping commute
  // ---------------------------------------------------------------------

  predicate SameSpaces(s: string, t: string)
  {
    |s| == |t| && forall i :: 0 <= i < |s| ==> IsSpace(s[i]) == IsSpace(t[i])
  }

  lemma {:induction false} SameSpacesSameStrip(s: string, t: string)
    requires SameSpaces(s, t)
    ensures LeadingSpaces(s) == LeadingSpaces(t)
    ensures TrailingSpaces(s) == TrailingSpaces(t)
    decreases |s|
  {
    if s != [] {
      SameSpacesSameStrip(s[1..], t[1..]);
      SameSpacesSameStrip(s[..|s| - 1], t[..|t| - 1]);
    }
  }

  lemma TitleKeepsSpaces(s: string, afterLetter: bool)
    ensures SameSpaces(s, TitleFrom(s, afterLetter))
  {
    forall i | 0 <= i < |s| ensures IsSpace(s[i]) == IsSpace(TitleFrom(s, afterLetter)[i]) {
      TitleFromAt(s, afterLetter, i);
    }
  }

  /** Title-casing then stripping, as the notebook does, gives the same
      label as stripping then title-casing. */
  lemma StripTitleCommute(s: string)
    ensures Strip(Title(s)) == Title(Strip(s))
  {
    var a := LeadingSpaces(s);
    TitleKeepsSpaces(s, false);
    SameSpacesSameStrip(s, Title(s));
    LeadingSpacesAt(s);
    var t := s[a..];
    assert Title(s)[a..] == Title(t) by {
      if a > 0 {
        TitleFromSuffix(s, false, a);
      }
    }
    var m := TrailingSpaces(t);
    TitleKeepsSpaces(t, false);
    SameSpacesSameStrip(t, Title(t));
    TitleFromPrefix(t, false, |t| - m);
  }

  // ---------------------------------------------------------------------
  // State labels
  // ---------------------------------------------------------------------

  /** The four whole-value corrections applied after case and whitespace
      normalisation. */
  const StateAliases: map<string, string> := map[
    "Westbengal" := "West Bengal",
    "Daman And Diu" := "Daman & Diu",
    "Dadra And Nagar Haveli" := "Dadra & Nagar Haveli",
    "Andaman And Nicobar Islands" := "A & N Islands"
  ]

  /** `Series.replace(dict)`: a whole value that is a key is replaced by its
      entry; no other value changes, and the replacement is not re-applied. */
  function ReplaceAlias(s: string): (r: string)
    ensures s !in StateAliases ==> r == s
    ensures s in StateAliases ==> r == StateAliases[s]
    ensures r !in StateAliases
  {
    if s in StateAliases then
      AliasTargetsAreCanonical();
      StateAliases[s]
    else s
  }

  /** `state.str.title().str.strip().replace(StateAliases)`. */
  function NormaliseState(s: string): (r: string)
    ensures r !in StateAliases
    ensures r == Strip(Title(s)) || r in StateAliases.Values
  {
    ReplaceAlias(Strip(Title(s)))
  }

  /** Whether the letter at index i is already as title-casing leaves it. */
  predicate TitleCasedAt(s: string, i: nat)
    requires i < |s|
  {
    !IsLetter(s[i]) || (if i > 0 && IsLetter(s[i - 1]) then IsLower(s[i]) else IsUpper(s[i]))
  }

  /** A label in title case with no surrounding whitespace. */
  predicate CanonicalStateLabel(v: string)
  {
    && v != [] && !IsSpace(v[0]) && !IsSpace(v[|v| - 1])
    && forall i :: 0 <= i < |v| ==> TitleCasedAt(v, i)
  }

  /** A canonical label is left alone by title-casing and stripping. */
  lemma CanonicalLabel(v: string)
    requires CanonicalStateLabel(v)
    ensures Strip(Title(v)) == v
  {
    forall i | 0 <= i < |v| ensures Title(v)[i] == v[i] {
      assert TitleCasedAt(v, i);
      TitleAt(v, i);
    }
    assert Title(v) == v;
    assert LeadingSpaces(v) == 0;
    assert TrailingSpaces(v) == 0;
  }

  /** Every alias target is already a canonical label and not itself a key,
      so a second pass leaves it alone. */
  lemma AliasTargetsAreCanonical()
    ensures forall k :: k in StateAliases ==>
      StateAliases[k] !in StateAliases && CanonicalStateLabel(StateAliases[k])
  {
    WestBengalTitled();
    DamanTitled();
    DadraTitled();
    AndamanTitled();
  }

  lemma WestBengalTitled()
    ensures CanonicalStateLabel("West Bengal")
  {
    var v := "West Bengal";
    forall i | 0 <= i < |v| ensures TitleCasedAt(v, i) {
    }
  }

  lemma DamanTitled()
    ensures CanonicalStateLabel("Daman & Diu")
  {
    var v := "Daman & Diu";
    forall i | 0 <= i < |v| ensures TitleCasedAt(v, i) {
    }
  }

  lemma DadraTitled()
    ensures CanonicalStateLabel("Dadra & Nagar Haveli")
  {
    var v := "Dadra & Nagar Haveli";
    forall i | 0 <= i < |v| ensures TitleCasedAt(v, i) {
    }
  }

  lemma AndamanTitled()
    ensures CanonicalStateLabel("A & N Islands")
  {
    var v := "A & N Islands";
    forall i | 0 <= i < |v| ensures TitleCasedAt(v, i) {
    }
  }

  /** Title-casing and stripping reach a fixed point after one pass. */
  lemma StripTitleSettles(s: string)
    ensures Strip(Title(Strip(Title(s)))) == Strip(Title(s))
  {
    StripTitleCommute(s);
    TitleIdempotent(Strip(s));
    StripIdempotent(Title(s));
  }

  /** On a label that title-casing and stripping leave alone, the alias
      replacement yields a label that normalisation leaves alone. */
  lemma ReplaceAliasSettles(t: string)
    requires Strip(Title(t)) == t
    ensures NormaliseState(ReplaceAlias(t)) == ReplaceAlias(t)
  {
    if t in StateAliases {
      AliasTargetsAreCanonical();
      CanonicalLabel(StateAliases[t]);
    }
  }

  /** Normalising a state label twice gives the same label as normalising it once. */
  lemma NormaliseStateIdempotent(s: string)
    ensures NormaliseState(NormaliseState(s)) == NormaliseState(s)
  {
    StripTitleSettles(s);
    ReplaceAliasSettles(Strip(Title(s)));
  }

  /** A normalised state label is either the title-cased, stripped input
      (always so when that is not one of the four listed names) or an alias
      target; it is never one of the listed names itself, and title-casing
      and stripping leave it unchanged. */
  lemma NormaliseStateShape(s: string)
    ensures Strip(Title(s)) !in StateAliases ==> NormaliseState(s) == Strip(Title(s))
    ensures Strip(Title(s)) in StateAliases ==> NormaliseState(s) == StateAliases[Strip(Title(s))]
    ensures NormaliseState(s) !in StateAliases
    ensures Strip(Title(NormaliseState(s))) == NormaliseState(s)
  {
    var t := Strip(Title(s));
    if t in StateAliases {
      AliasTargetsAreCanonical();
      CanonicalLabel(StateAliases[t]);
    } else {
      StripTitleSettles(s);
    }
  }

  /** A raw label with a trailing blank and no capitals is corrected through
      the alias table. */
  lemma NormaliseStateAliasExample(s: string)
    requires s == "westbengal "
    ensures NormaliseState(s) == "West Bengal"
  {
    TitleExamples(s, " gOA ");
    StripWestbengal();
  }

  lemma StripWestbengal()
    ensures Strip("Westbengal ") == "Westbengal"
  {
  }

  /** A label outside the alias table comes out title-cased and stripped only. */
  lemma NormaliseStatePlainExample(s: string)
    requires s == " gOA "
    ensures NormaliseState(s) == "Goa"
  {
    TitleExamples("westbengal ", s);
    StripGoa();
    GoaNotAlias("Goa");
  }

  lemma GoaNotAlias(t: string)
    requires t == "Goa"
    ensures t !in StateAliases
  {
    assert |t| == 3;
  }

  /** Two different raw labels that normalise to the same state. */
  lemma CollidingStateLabels(s1: string, s2: string)
    requires s1 == " gOA " && s2 == "Goa"
    ensures s1 != s2 && NormaliseState(s1) == NormaliseState(s2)
  {
    assert |s1| != |s2|;
    NormaliseStatePlainExample(s1);
    NormaliseStateIdempotent(s1);
  }

  /** Title-casing of the two example labels, one character at a time. */
  lemma TitleExamples(s1: string, s2: string)
    requires s1 == "westbengal " && s2 == " gOA "
    ensures Title(s1) == "Westbengal " && Title(s2) == " Goa "
  {
    var t1, t2 := "Westbengal ", " Goa ";
    forall i | 0 <= i < |s1| ensures Title(s1)[i] == t1[i] {
      TitleAt(s1, i);
    }
    forall i | 0 <= i < |s2| ensures Title(s2)[i] == t2[i] {
      TitleAt(s2, i);
    }
  }

  lemma StripGoa()
    ensures Strip(" Goa ") == "Goa"
  {
  }

  // ---------------------------------------------------------------------
  // District labels
  // ---------------------------------------------------------------------

  /** `district.str.replace('?', '-')`: every `?` becomes `-`, every other
      character and the length are unchanged, and no `?` is left. */
  function NormaliseDistrict(s: string): (r: string)
    ensures |r| == |s|
    ensures forall i :: 0 <= i < |s| ==> r[i] == if s[i] == '?' then '-' else s[i]
    ensures '?' !in r
    decreases |s|
  {
    if s == [] then []
    else [if s[0] == '?' then '-' else s[0]] + NormaliseDistrict(s[1..])
  }

  /** The typo the rewrite exists for: the district keeps its lower-case
      second part, as no title-casing is applied to districts. */
  lemma NormaliseDistrictExample(s: string)
    requires s == "Medchal?malkajgiri"
    ensures NormaliseDistrict(s) == "Medchal-malkajgiri"
  {
    var t := "Medchal-malkajgiri";
    assert forall i :: 0 <= i < |s| ==> NormaliseDistrict(s)[i] == t[i];
  }

  lemma NormaliseDistrictIdempotent(s: string)
    ensures NormaliseDistrict(NormaliseDistrict(s)) == NormaliseDistrict(s)
  {
  }
}
