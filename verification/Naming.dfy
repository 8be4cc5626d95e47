/** Site slugs and paths inside a site: the naming rules of the contract. */
module Naming {
  import opened Common

  const SLUG_MAX_LENGTH := 63
  const PATH_MAX_LENGTH := 1024
  const SEGMENT_MAX_BYTES := 255

  // ---- stripping ----

  /** How many copies of `c` a text begins with. */
  function Lead(s: string, c: char): (n: nat)
    ensures n <= |s| && (n < |s| ==> s[n] != c)
    ensures forall i :: 0 <= i < n ==> s[i] == c
  {
    if s != "" && s[0] == c then 1 + Lead(s[1..], c) else 0
  }

  /** How many copies of `c` a text ends with. */
  function Trail(s: string, c: char): (n: nat)
    ensures n <= |s| && (n < |s| ==> s[|s| - 1 - n] != c)
    ensures forall i :: |s| - n <= i < |s| ==> s[i] == c
  {
    if s != "" && s[|s| - 1] == c then 1 + Trail(s[..|s| - 1], c) else 0
  }

  /** `str.strip` with one character. */
  function Strip(s: string, c: char): (r: string)
    ensures r != "" ==> r[0] != c && r[|r| - 1] != c
  {
    var rest := s[Lead(s, c)..];
    rest[..|rest| - Trail(rest, c)]
  }

  /** A text is what stripping leaves between two runs of the stripped character. */
  lemma StripParts(s: string, c: char) returns (front: nat, back: nat)
    ensures front + |Strip(s, c)| + back == |s|
    ensures Strip(s, c) == s[front..|s| - back]
    ensures forall i :: 0 <= i < front || |s| - back <= i < |s| ==> s[i] == c
  {
    front := Lead(s, c);
    var rest := s[front..];
    back := Trail(rest, c);
    forall i | |s| - back <= i < |s| ensures s[i] == c {
      assert s[i] == rest[i - front];
    }
  }

  /** Only one text lies between two runs of `c` without beginning or ending in `c`. */
  lemma StripUnique(s: string, c: char, i: nat, j: nat)
    requires i <= j <= |s|
    requires forall k :: 0 <= k < i || j <= k < |s| ==> s[k] == c
    requires i < j ==> s[i] != c && s[j - 1] != c
    ensures Strip(s, c) == s[i..j]
  {
  }

  lemma StripNothing(s: string, c: char)
    requires s != "" ==> s[0] != c && s[|s| - 1] != c
    ensures Strip(s, c) == s
  {
  }

  // ---- slugs ----

  predicate SlugChar(c: char) {
    'a' <= c <= 'z' || '0' <= c <= '9'
  }

  /** An ASCII letter of either case, or a digit. */
  predicate Alphanumeric(c: char) {
    'a' <= c <= 'z' || 'A' <= c <= 'Z' || '0' <= c <= '9'
  }

  function LowerChar(c: char): (l: char)
    ensures SlugChar(l) <==> Alphanumeric(c)
    ensures SlugChar(c) ==> l == c
  {
    if 'A' <= c <= 'Z' then (c as int + 32) as char else c
  }

  /** `str.lower` on ASCII text. */
  function Lower(s: string): (r: string)
    ensures |r| == |s|
    ensures forall i :: 0 <= i < |s| ==> r[i] == LowerChar(s[i])
  {
    if s == "" then "" else [LowerChar(s[0])] + Lower(s[1..])
  }

  /** Every maximal run of characters other than a-z and 0-9 becomes one hyphen. */
  function Hyphenate(s: string): string {
    if s == "" then ""
    else
      var rest := Hyphenate(s[1..]);
      if SlugChar(s[0]) then [s[0]] + rest
      else if rest != "" && rest[0] == '-' then rest
      else "-" + rest
  }

  /** The cut to 63 characters, which may fall on a hyphen. */
  function Cut(slug: string): string {
    Strip(if |slug| <= SLUG_MAX_LENGTH then slug else slug[..SLUG_MAX_LENGTH], '-')
  }

  /** Slug derivation, from the name as folded to ASCII. */
  function SlugFromName(folded: string): Result<string, ()> {
    var slug := Strip(Hyphenate(Lower(folded)), '-');
    var cut := Cut(slug);
    if cut == "" then Err(()) else Ok(cut)
  }

  predicate NoDoubledHyphen(s: string) {
    forall i :: 0 <= i < |s| - 1 ==> !(s[i] == '-' && s[i + 1] == '-')
  }

  predicate SlugText(s: string) {
    (forall i :: 0 <= i < |s| ==> SlugChar(s[i]) || s[i] == '-') && NoDoubledHyphen(s)
  }

  /** What a derived slug looks like, said without deriving one. */
  predicate IsSlug(s: string) {
    1 <= |s| <= 63 && SlugText(s) && s[0] != '-' && s[|s| - 1] != '-'
  }

  predicate SlugRe(s: string) {
    1 <= |s| <= SLUG_MAX_LENGTH
    && (forall i :: 0 <= i < |s| ==> SlugChar(s[i]) || s[i] == '-')
    && s[0] != '-' && s[|s| - 1] != '-'
  }

  /** `SLUG_RE.match`: `$` also matches before one trailing newline. */
  predicate SlugReMatches(s: string) {
    SlugRe(s) || (s != "" && s[|s| - 1] == '\n' && SlugRe(s[..|s| - 1]))
  }

  /** The letters and digits of a text, in order. */
  function Letters(s: string): string {
    if s == "" then "" else (if SlugChar(s[0]) then [s[0]] else "") + Letters(s[1..])
  }

  lemma LettersCons(c: char, s: string)
    ensures Letters([c] + s) == (if SlugChar(c) then [c] else "") + Letters(s)
  {
  }

  lemma {:induction false} LettersConcat(a: string, b: string)
    ensures Letters(a + b) == Letters(a) + Letters(b)
  {
    if a == "" {
      assert a + b == b;
    } else {
      var c, rest := a[0], a[1..];
      assert a == [c] + rest && a + b == [c] + (rest + b);
      LettersConcat(rest, b);
      LettersCons(c, rest);
      LettersCons(c, rest + b);
    }
  }

  lemma {:induction false} NoLetters(s: string)
    requires forall i :: 0 <= i < |s| ==> !SlugChar(s[i])
    ensures Letters(s) == ""
  {
    if s != "" { NoLetters(s[1..]); }
  }

  lemma {:induction false} HyphenateShape(s: string)
    ensures SlugText(Hyphenate(s)) && Letters(Hyphenate(s)) == Letters(s)
    ensures Hyphenate(s) != "" ==> (Hyphenate(s)[0] == '-' <==> !SlugChar(s[0]))
  {
    if s != "" {
      HyphenateShape(s[1..]);
      var rest := Hyphenate(s[1..]);
      if SlugChar(s[0]) {
        assert Hyphenate(s) == [s[0]] + rest;
        assert Hyphenate(s)[1..] == rest;
      } else if !(rest != "" && rest[0] == '-') {
        assert Hyphenate(s) == "-" + rest;
        assert Hyphenate(s)[1..] == rest;
      }
    }
  }

  lemma {:induction false} StripKeepsLetters(s: string)
    ensures Letters(Strip(s, '-')) == Letters(s)
  {
    var front, back := StripParts(s, '-');
    var mid := Strip(s, '-');
    var tail := s[|s| - back..];
    assert s == s[..front] + (mid + tail);
    LettersConcat(s[..front], mid + tail);
    LettersConcat(mid, tail);
    NoLetters(s[..front]);
    NoLetters(tail);
  }

  lemma SliceKeepsSlugText(s: string, i: nat, j: nat)
    requires SlugText(s) && i <= j <= |s|
    ensures SlugText(s[i..j])
  {
  }

  lemma StripKeepsSlugText(s: string)
    requires SlugText(s)
    ensures SlugText(Strip(s, '-'))
  {
  }

  lemma {:induction false} LettersEmpty(s: string)
    ensures Letters(s) == "" <==> forall i :: 0 <= i < |s| ==> !SlugChar(s[i])
  {
    if s != "" {
      LettersEmpty(s[1..]);
      if Letters(s[1..]) != "" {
        var i :| 0 <= i < |s[1..]| && SlugChar(s[1..][i]);
        assert SlugChar(s[i + 1]);
      } else if !SlugChar(s[0]) {
        forall i | 0 <= i < |s| ensures !SlugChar(s[i]) {
          assert i > 0 ==> s[i] == s[1..][i - 1];
        }
      }
    }
  }

  lemma {:induction false} LettersOfPrefix(s: string, n: nat)
    requires n <= |s|
    ensures Letters(s[..n]) <= Letters(s)
  {
    assert s == s[..n] + s[n..];
    LettersConcat(s[..n], s[n..]);
  }

  /** A slug is well formed, and keeps the name's letters and digits in order from the first; it keeps
      them all unless the 63-character cut fell. No slug exists exactly when the name has none. */
  lemma {:induction false} SlugFromNameMeaning(folded: string)
    ensures SlugFromName(folded).Err? <==> forall i :: 0 <= i < |folded| ==> !Alphanumeric(folded[i])
    ensures SlugFromName(folded).Ok? ==>
              var slug := SlugFromName(folded).value;
              IsSlug(slug) && Letters(slug) <= Letters(Lower(folded))
              && (|slug| < SLUG_MAX_LENGTH - 1 ==> Letters(slug) == Letters(Lower(folded)))
  {
    var lower := Lower(folded);
    var hyphenated := Hyphenate(lower);
    HyphenateShape(lower);
    LettersEmpty(lower);
    StripKeepsSlugText(hyphenated);
    StripKeepsLetters(hyphenated);
    var slug := Strip(hyphenated, '-');
    CutMeaning(slug);
    assert forall i :: 0 <= i < |folded| ==> lower[i] == LowerChar(folded[i]);
  }

  lemma CutMeaning(slug: string)
    requires SlugText(slug) && (slug != "" ==> slug[0] != '-' && slug[|slug| - 1] != '-')
    ensures SlugText(Cut(slug)) && |Cut(slug)| <= SLUG_MAX_LENGTH && Letters(Cut(slug)) <= Letters(slug)
    ensures Cut(slug) == "" <==> Letters(slug) == ""
    ensures |Cut(slug)| < SLUG_MAX_LENGTH - 1 ==> Cut(slug) == slug
  {
    var taken := if |slug| <= SLUG_MAX_LENGTH then slug else slug[..SLUG_MAX_LENGTH];
    SliceKeepsSlugText(slug, 0, |taken|);
    assert slug[0..|taken|] == taken;
    LettersOfPrefix(slug, |taken|);
    StripKeepsLetters(taken);
    StripKeepsSlugText(taken);
    var front, back := StripParts(taken, '-');
    LettersEmpty(slug);
    if slug != "" {
      assert SlugChar(slug[0]);
      assert front == 0;
    }
    assert |taken| >= 2 ==> !(taken[|taken| - 2] == '-' && taken[|taken| - 2 + 1] == '-');
  }

  lemma {:induction false} HyphenateSlug(s: string)
    requires SlugText(s)
    ensures Hyphenate(s) == s
  {
    if s != "" {
      assert SlugText(s[1..]) by {
        assert forall i :: 0 <= i < |s| - 1 ==> s[1..][i] == s[i + 1];
      }
      HyphenateSlug(s[1..]);
    }
  }

  lemma LowerSlug(slug: string)
    requires forall i :: 0 <= i < |slug| ==> SlugChar(slug[i]) || slug[i] == '-'
    ensures Lower(slug) == slug
  {
  }

  /** `SLUG_RE` is wider than the slugs that are derived by just two things: doubled hyphens and the newline. */
  lemma SlugReExact(s: string)
    ensures IsSlug(s) <==> SlugReMatches(s) && NoDoubledHyphen(s) && '\n' !in s
    ensures SlugReMatches("a\n") && SlugReMatches("a--b")
  {
  }

  /** Deriving a slug from a slug changes nothing, and the derived slug passes `SLUG_RE`. */
  lemma {:induction false} SlugIdempotent(slug: string)
    requires IsSlug(slug)
    ensures SlugFromName(slug) == Ok(slug) && SlugReMatches(slug)
  {
    LowerSlug(slug);
    HyphenateSlug(slug);
    StripNothing(slug, '-');
    SlugReExact(slug);
  }

  // ---- a slug as words ----

  lemma Associative(a: string, b: string, c: string)
    ensures (a + b) + c == a + (b + c)
  {
  }

  predicate Word(w: string) {
    w != "" && SlugChar(w[0]) && SlugChar(w[|w| - 1])
  }

  predicate BeginsWithLetter(s: string) {
    s != "" && SlugChar(s[0])
  }

  /** The maximal runs of letters and digits. */
  function Words(s: string): (words: seq<string>)
    ensures forall k :: 0 <= k < |words| ==> Word(words[k])
    ensures BeginsWithLetter(s) ==> words != []
  {
    if s == "" then []
    else
      var rest := Words(s[1..]);
      if !SlugChar(s[0]) then rest
      else if BeginsWithLetter(s[1..]) then [[s[0]] + rest[0]] + rest[1..]
      else [[s[0]]] + rest
  }

  function Hyphenated(words: seq<string>): string {
    if words == [] then "" else if |words| == 1 then words[0] else words[0] + "-" + Hyphenated(words[1..])
  }

  lemma {:induction false} HyphenatedEnds(words: seq<string>)
    requires forall k :: 0 <= k < |words| ==> Word(words[k])
    ensures words != [] ==> Word(Hyphenated(words))
  {
    if |words| > 1 { HyphenatedEnds(words[1..]); }
  }

  lemma HyphenatedCons(w: string, words: seq<string>)
    ensures Hyphenated([w] + words) == if words == [] then w else w + "-" + Hyphenated(words)
  {
  }

  lemma HyphenatedGrow(c: char, words: seq<string>)
    requires words != []
    ensures Hyphenated([[c] + words[0]] + words[1..]) == [c] + Hyphenated(words)
  {
    HyphenatedCons([c] + words[0], words[1..]);
    HyphenatedCons(words[0], words[1..]);
    assert words == [words[0]] + words[1..];
  }

  lemma WordsCons(c: char, t: string)
    ensures Words([c] + t)
            == if !SlugChar(c) then Words(t)
               else if BeginsWithLetter(t) then [[c] + Words(t)[0]] + Words(t)[1..]
               else [[c]] + Words(t)
  {
  }

  lemma HyphenateCons(c: char, t: string)
    ensures var rest := Hyphenate(t);
            Hyphenate([c] + t)
            == if SlugChar(c) then [c] + rest else if rest != "" && rest[0] == '-' then rest else "-" + rest
  {
  }

  /** A text with a hyphen before it, after it, or both. */
  function Edged(front: bool, w: string, back: bool): string {
    if front then (if back then "-" + (w + "-") else "-" + w) else if back then w + "-" else w
  }

  predicate BeginsWithGap(s: string) {
    s != "" && !SlugChar(s[0])
  }

  /** Hyphenation joins the words with single hyphens and leaves at most one hyphen at each end. */
  ghost predicate Joins(s: string, back: bool) {
    Hyphenate(s) == Edged(BeginsWithGap(s), Hyphenated(Words(s)), back) && (Words(s) == [] ==> !back)
  }

  lemma {:induction false} HyphenateWords(s: string) returns (back: bool)
    ensures Joins(s, back)
  {
    back := false;
    if s != "" {
      back := HyphenateWords(s[1..]);
      assert s == [s[0]] + s[1..];
      if SlugChar(s[0]) {
        back := back || (BeginsWithGap(s[1..]) && Words(s[1..]) == []);
        HyphenateLetter(s[0], s[1..], back);
      } else {
        HyphenateGap(s[0], s[1..], back);
      }
    }
  }

  lemma HyphenateLetter(c: char, t: string, back: bool)
    requires SlugChar(c)
    requires if BeginsWithGap(t) && Words(t) == [] then back && Joins(t, false) else Joins(t, back)
    ensures Joins([c] + t, back)
  {
    WordsCons(c, t);
    HyphenateCons(c, t);
    var w := Hyphenated(Words(t));
    if BeginsWithLetter(t) {
      HyphenatedGrow(c, Words(t));
      Associative([c], w, "-");
    } else {
      HyphenatedCons([c], Words(t));
      Associative([c], "-", w);
      Associative([c] + "-", w, "-");
      Associative([c], "-", w + "-");
      assert "-" + "" == "-";
    }
  }

  lemma HyphenateGap(c: char, t: string, back: bool)
    requires !SlugChar(c) && Joins(t, back)
    ensures Joins([c] + t, back)
  {
  }

  lemma StripEdged(front: bool, w: string, back: bool)
    requires if w == "" then !back else w[0] != '-' && w[|w| - 1] != '-'
    ensures Strip(Edged(front, w, back), '-') == w
  {
    var s, i := Edged(front, w, back), if front then 1 else 0;
    assert s[i..i + |w|] == w;
    StripUnique(s, '-', i, i + |w|);
  }

  lemma StripJoined(s: string)
    ensures Strip(Hyphenate(s), '-') == Hyphenated(Words(s))
  {
    var back := HyphenateWords(s);
    HyphenatedEnds(Words(s));
    StripEdged(BeginsWithGap(s), Hyphenated(Words(s)), back);
  }

  /** The slug of a name is its words, lowered and joined by single hyphens, cut to 63 characters and stripped
      of the hyphen the cut may leave. */
  lemma {:induction false} SlugIsWordsJoined(folded: string)
    ensures var joined := Hyphenated(Words(Lower(folded)));
            SlugFromName(folded)
            == if joined == "" then Err(())
               else if |joined| <= SLUG_MAX_LENGTH then Ok(joined)
               else if joined[SLUG_MAX_LENGTH - 1] == '-' then Ok(joined[..SLUG_MAX_LENGTH - 1])
               else Ok(joined[..SLUG_MAX_LENGTH])
  {
    var joined := Hyphenated(Words(Lower(folded)));
    StripJoined(Lower(folded));
    SlugIsCut(folded, joined);
    JoinedIsSlugText(Lower(folded));
    CutExact(joined);
  }

  lemma SlugIsCut(folded: string, joined: string)
    requires Strip(Hyphenate(Lower(folded)), '-') == joined
    ensures SlugFromName(folded) == if Cut(joined) == "" then Err(()) else Ok(Cut(joined))
  {
  }

  lemma JoinedIsSlugText(s: string)
    ensures var joined := Hyphenated(Words(s));
            SlugText(joined) && (joined != "" ==> joined[0] != '-' && joined[|joined| - 1] != '-')
  {
    HyphenatedEnds(Words(s));
    HyphenateShape(s);
    StripKeepsSlugText(Hyphenate(s));
    StripJoined(s);
  }

  lemma CutExact(joined: string)
    requires SlugText(joined) && (joined != "" ==> joined[0] != '-' && joined[|joined| - 1] != '-')
    ensures Cut(joined) == if |joined| <= SLUG_MAX_LENGTH then joined
                           else if joined[SLUG_MAX_LENGTH - 1] == '-' then joined[..SLUG_MAX_LENGTH - 1]
                           else joined[..SLUG_MAX_LENGTH]
  {
    var n := SLUG_MAX_LENGTH;
    if |joined| <= n {
      StripNothing(joined, '-');
    } else {
      var taken := joined[..n];
      assert !(joined[n - 2] == '-' && joined[n - 2 + 1] == '-');
      StripUnique(taken, '-', 0, if joined[n - 1] == '-' then n - 1 else n);
      assert taken[0..n] == taken && taken[0..n - 1] == joined[..n - 1];
    }
  }
}
