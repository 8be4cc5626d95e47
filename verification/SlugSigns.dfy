/** The slug of a name told by the 36 letters and digits, apart from how it is derived. */
module SlugSigns {
  import opened Common
  import opened Naming

  const SMALL := "abcdefghijklmnopqrstuvwxyz0123456789"
  const LARGE := "ABCDEFGHIJKLMNOPQRSTUVWXYZ0123456789"

  type Sign = i: nat | i < 36

  function Position(c: char, s: string): (i: nat)
    ensures i <= |s| && (i < |s| ==> s[i] == c) && forall k :: 0 <= k < i ==> s[k] != c
  {
    if s == "" || s[0] == c then 0 else 1 + Position(c, s[1..])
  }

  /** Which of the 36 letters and digits a character is, in either case. */
  function SignOf(c: char): Option<Sign> {
    if c in LARGE then Some(Position(c, LARGE))
    else if c in SMALL then Some(Position(c, SMALL))
    else None
  }

  predicate BeginsWithSign(s: string) {
    s != "" && SignOf(s[0]).Some?
  }

  /** The maximal runs of letters and digits. */
  function SignRuns(s: string): (runs: seq<seq<Sign>>)
    ensures BeginsWithSign(s) ==> runs != []
    ensures forall k :: 0 <= k < |runs| ==> runs[k] != []
  {
    if s == "" then []
    else
      var rest := SignRuns(s[1..]);
      match SignOf(s[0])
      case None => rest
      case Some(i) => if BeginsWithSign(s[1..]) then [[i] + rest[0]] + rest[1..] else [[i]] + rest
  }

  /** Signs written in one alphabet. */
  function Spell(alphabet: string, signs: seq<Sign>): (s: string)
    requires |alphabet| == 36
    ensures |s| == |signs| && forall k :: 0 <= k < |s| ==> s[k] == alphabet[signs[k]]
  {
    if signs == [] then "" else [alphabet[signs[0]]] + Spell(alphabet, signs[1..])
  }

  /** Runs in small letters, with single hyphens between. */
  function Spelled(runs: seq<seq<Sign>>): string {
    if runs == [] then ""
    else if |runs| == 1 then Spell(SMALL, runs[0])
    else Spell(SMALL, runs[0]) + "-" + Spelled(runs[1..])
  }

  lemma Alphabets()
    ensures |SMALL| == 36 && |LARGE| == 36
    ensures forall k :: 0 <= k < 26 ==> SMALL[k] as int == 97 + k && LARGE[k] as int == 65 + k
    ensures forall k :: 26 <= k < 36 ==> SMALL[k] == LARGE[k] && SMALL[k] as int == 22 + k
  {
  }

  /** Lowering a character is writing its sign in small letters. */
  lemma LowerBySign(c: char)
    ensures match SignOf(c)
            case Some(i) => SlugChar(LowerChar(c)) && LowerChar(c) == SMALL[i]
            case None => !SlugChar(LowerChar(c))
  {
    InAlphabets(c);
    if SignOf(c).Some? { Alphabets(); }
  }

  lemma InAlphabets(c: char)
    ensures c in LARGE <==> 'A' <= c <= 'Z' || '0' <= c <= '9'
    ensures c in SMALL <==> 'a' <= c <= 'z' || '0' <= c <= '9'
  {
    Alphabets();
    if 'A' <= c <= 'Z' { assert LARGE[c as int - 65] == c; }
    if 'a' <= c <= 'z' { assert SMALL[c as int - 97] == c; }
    if '0' <= c <= '9' { assert LARGE[c as int - 22] == c && SMALL[c as int - 22] == c; }
  }

  ghost predicate Spells(words: seq<string>, runs: seq<seq<Sign>>) {
    |words| == |runs| && forall k :: 0 <= k < |runs| ==> words[k] == Spell(SMALL, runs[k])
  }

  lemma SpellsMore(word: string, run: seq<Sign>, words: seq<string>, runs: seq<seq<Sign>>)
    requires Spells(words, runs) && word == Spell(SMALL, run)
    ensures Spells([word] + words, [run] + runs)
  {
  }

  lemma SpellCons(i: Sign, run: seq<Sign>)
    ensures Spell(SMALL, [i] + run) == [SMALL[i]] + Spell(SMALL, run)
  {
    assert ([i] + run)[1..] == run;
  }

  lemma {:induction false} WordsAreSpelled(s: string)
    ensures Spells(Words(Lower(s)), SignRuns(s))
    ensures BeginsWithLetter(Lower(s)) <==> BeginsWithSign(s)
  {
    if s != "" {
      var rest := s[1..];
      WordsAreSpelled(rest);
      LowerBySign(s[0]);
      WordsCons(LowerChar(s[0]), Lower(rest));
      if SignOf(s[0]).Some? {
        var (i, words, runs) := (SignOf(s[0]).value, Words(Lower(rest)), SignRuns(rest));
        if BeginsWithSign(rest) {
          SpellCons(i, runs[0]);
          SpellsMore([SMALL[i]] + words[0], [i] + runs[0], words[1..], runs[1..]);
        } else {
          SpellCons(i, []);
          SpellsMore([SMALL[i]], [i], words, runs);
        }
      }
    }
  }

  lemma {:induction false} HyphenatedIsSpelled(words: seq<string>, runs: seq<seq<Sign>>)
    requires Spells(words, runs)
    ensures Hyphenated(words) == Spelled(runs)
  {
    if |runs| > 1 { HyphenatedIsSpelled(words[1..], runs[1..]); }
  }

  /** The slug of a name is its runs of letters and digits, in small letters and joined by single hyphens, cut to
      63 characters and stripped of the hyphen the cut may leave. */
  lemma SlugIsSpelled(folded: string)
    ensures var joined := Spelled(SignRuns(folded));
            SlugFromName(folded)
            == if joined == "" then Err(())
               else if |joined| <= 63 then Ok(joined)
               else if joined[62] == '-' then Ok(joined[..62])
               else Ok(joined[..63])
  {
    WordsAreSpelled(folded);
    HyphenatedIsSpelled(Words(Lower(folded)), SignRuns(folded));
    SlugIsWordsJoined(folded);
  }

  /** Each letter of the alphabet is read as its sign. */
  predicate Readable(alphabet: string) {
    |alphabet| == 36 && forall i: Sign :: SignOf(alphabet[i]) == Some(i)
  }

  lemma {:induction false} OneRun(alphabet: string, signs: seq<Sign>)
    requires signs != [] && Readable(alphabet)
    ensures SignRuns(Spell(alphabet, signs)) == [signs]
    decreases |signs|
  {
    var s := Spell(alphabet, signs);
    assert SignOf(s[0]) == Some(signs[0]);
    assert s[1..] == Spell(alphabet, signs[1..]);
    if |signs| > 1 {
      OneRun(alphabet, signs[1..]);
      assert SignOf(s[1..][0]) == Some(signs[1]);
      assert signs == [signs[0]] + signs[1..];
    } else {
      assert signs == [signs[0]];
    }
  }

  lemma AlphabetsAreReadable()
    ensures Readable(SMALL) && Readable(LARGE)
  {
    forall i: Sign ensures |SMALL| == |LARGE| == 36 && SignOf(SMALL[i]) == Some(i) && SignOf(LARGE[i]) == Some(i) {
      SignOfLetter(SMALL, i);
      SignOfLetter(LARGE, i);
    }
  }

  lemma SignOfLetter(alphabet: string, i: Sign)
    requires alphabet == SMALL || alphabet == LARGE
    ensures |alphabet| == 36 && SignOf(alphabet[i]) == Some(i)
  {
    AlphabetsAreSpread();
    FirstPosition(LARGE, i);
    FirstPosition(SMALL, i);
    if i >= 26 { Alphabets(); } else { SmallIsNotLarge(i); }
  }

  lemma SmallIsNotLarge(i: nat)
    requires i < 26
    ensures |SMALL| == 36 && SMALL[i] !in LARGE
  {
    Alphabets();
    assert forall k :: 0 <= k < |LARGE| ==> LARGE[k] as int <= 90;
  }

  lemma FirstPosition(s: string, i: nat)
    requires i < |s| && forall k :: 0 <= k < i ==> s[k] != s[i]
    ensures Position(s[i], s) == i
  {
  }

  predicate Spread(alphabet: string) {
    |alphabet| == 36 && forall i, k :: 0 <= k < i < 36 ==> alphabet[k] != alphabet[i]
  }

  lemma AlphabetsAreSpread()
    ensures Spread(SMALL) && Spread(LARGE)
  {
    Alphabets();
  }

  /** A word of up to 63 letters and digits has the same word in small letters for a slug, whether it is given in
      large letters or in small ones. */
  lemma WordsAreLowered(signs: seq<Sign>)
    requires 1 <= |signs| <= 63
    ensures |LARGE| == 36 && |SMALL| == 36
    ensures SlugFromName(Spell(LARGE, signs)) == Ok(Spell(SMALL, signs))
    ensures SlugFromName(Spell(SMALL, signs)) == Ok(Spell(SMALL, signs))
  {
    AlphabetsAreReadable();
    OneRun(LARGE, signs);
    OneRun(SMALL, signs);
    SlugIsSpelled(Spell(LARGE, signs));
    SlugIsSpelled(Spell(SMALL, signs));
  }

  lemma {:induction false} NoRuns(s: string)
    ensures SignRuns(s) == [] <==> forall i :: 0 <= i < |s| ==> s[i] !in LARGE && s[i] !in SMALL
  {
    if s != "" {
      NoRuns(s[1..]);
      if forall i :: 0 <= i < |s| ==> s[i] !in LARGE && s[i] !in SMALL {
        assert forall i :: 0 <= i < |s[1..]| ==> s[1..][i] == s[i + 1];
      }
      if SignRuns(s) == [] {
        assert SignOf(s[0]).None?;
        assert forall i :: 1 <= i < |s| ==> s[i] == s[1..][i - 1];
      }
    }
  }

  lemma SpelledIsSome(runs: seq<seq<Sign>>)
    requires runs != [] && forall k :: 0 <= k < |runs| ==> runs[k] != []
    ensures Spelled(runs) != ""
  {
  }

  /** No slug exists exactly when the name has none of the 36 signs; otherwise it is 1 to 63 small letters, digits and
      single hyphens, with none at an end. */
  lemma SlugExists(folded: string)
    ensures SlugFromName(folded).Err? <==> forall i :: 0 <= i < |folded| ==> folded[i] !in LARGE && folded[i] !in SMALL
    ensures SlugFromName(folded).Ok? ==>
              var slug := SlugFromName(folded).value;
              1 <= |slug| <= 63 && slug[0] != '-' && slug[|slug| - 1] != '-'
              && (forall i :: 0 <= i < |slug| ==> slug[i] in SMALL || slug[i] == '-')
              && forall i :: 0 <= i < |slug| - 1 ==> !(slug[i] == '-' && slug[i + 1] == '-')
  {
    NoRuns(folded);
    SlugIsSpelled(folded);
    if SignRuns(folded) != [] { SpelledIsSome(SignRuns(folded)); }
    SlugFromNameMeaning(folded);
    if SlugFromName(folded).Ok? {
      var slug := SlugFromName(folded).value;
      forall i | 0 <= i < |slug| ensures slug[i] in SMALL || slug[i] == '-' { InAlphabets(slug[i]); }
    }
  }
}
