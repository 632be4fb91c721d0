/**
 * The quote generator: the user types a mood and presses "Generate Quote".
 * A mood that is empty once surrounding white space is trimmed is refused
 * with an alert and the quote on screen stays as it was. Otherwise the mood,
 * lower-cased but NOT trimmed, is looked up in a table of four fixed quotes;
 * a miss falls back to a template that quotes the mood as typed. A generated
 * quote is followed by an interstitial ad.
 */
module QuoteGenerator {

  /**
   * The characters JavaScript's `String.prototype.trim` removes: the
   * WhiteSpace and LineTerminator code points of section 12.2 and 12.3 of
   * ECMA-262 (tab, vertical tab, form feed, the byte order mark, the space
   * separators of Unicode category Zs, line feed, carriage return, and the
   * line and paragraph separators).
   */
  predicate IsJsWhiteSpace(c: char) {
    || c == '\t' || c == '\n' || c == '\r' || c == ' '
    || c == '\U{000B}' || c == '\U{000C}' || c == '\U{00A0}' || c == '\U{1680}'
    || ('\U{2000}' <= c <= '\U{200A}')
    || c == '\U{2028}' || c == '\U{2029}' || c == '\U{202F}' || c == '\U{205F}'
    || c == '\U{3000}' || c == '\U{FEFF}'
  }

  predicate Blank(s: string) {
    forall i :: 0 <= i < |s| ==> IsJsWhiteSpace(s[i])
  }

  /** The number of white space characters `s` starts with. */
  function LeadingBlanks(s: string): (n: nat)
    ensures n <= |s|
    ensures Blank(s[..n])
    ensures n < |s| ==> !IsJsWhiteSpace(s[n])
    decreases |s|
  {
    if s != [] && IsJsWhiteSpace(s[0]) then
      var n := 1 + LeadingBlanks(s[1..]);
      assert s[..n] == [s[0]] + s[1..][..n - 1];
      n
    else 0
  }

  /** Drop trailing white space. */
  function TrimEnd(s: string): (r: string)
    ensures |r| <= |s| && r == s[..|r|]
    ensures forall i :: |r| <= i < |s| ==> IsJsWhiteSpace(s[i])
    ensures r != [] ==> !IsJsWhiteSpace(r[|r| - 1])
    decreases |s|
  {
    if s != [] && IsJsWhiteSpace(s[|s| - 1]) then TrimEnd(s[..|s| - 1]) else s
  }

  /** `s.trim()`: the slice of `s` after its leading white space and before its trailing white space. */
  function Trim(s: string): (r: string)
    ensures |r| <= |s|
    ensures r != [] ==> !IsJsWhiteSpace(r[0]) && !IsJsWhiteSpace(r[|r| - 1])
    ensures r == [] <==> Blank(s)
    ensures var a := LeadingBlanks(s); a + |r| <= |s| && r == s[a..a + |r|] && Blank(s[a + |r|..])
  {
    var a := LeadingBlanks(s);
    var r := TrimEnd(s[a..]);
    TrimmedSlice(s, a, s[a..], r);
    r
  }

  /**
   * `r` is `t` less its trailing white space and `t` is `s` from `a` on,
   * after white space: so `r` is the slice of `s` at `a`, followed by white
   * space only, and it is empty exactly when `s` is blank.
   */
  lemma TrimmedSlice(s: string, a: nat, t: string, r: string)
    requires a + |t| == |s| && t == s[a..]
    requires Blank(s[..a])
    requires t != [] ==> !IsJsWhiteSpace(t[0])
    requires |r| <= |t| && r == t[..|r|]
    requires forall i :: |r| <= i < |t| ==> IsJsWhiteSpace(t[i])
    ensures r != [] ==> !IsJsWhiteSpace(r[0])
    ensures r == [] <==> Blank(s)
    ensures r == s[a..a + |r|] && Blank(s[a + |r|..])
  {
    assert s[a + |r|..] == t[|r|..];
    if r == [] {
      assert t == [] && s[..a] == s;
    } else {
      assert !Blank(s) by {
        assert s[a] == t[0];
      }
      assert r[0] == t[0];
    }
  }

  /** `toLowerCase()` on one character, for the letters A to Z. */
  function LowerChar(c: char): (r: char)
    ensures ('a' <= r <= 'z') <==> ('a' <= c <= 'z' || 'A' <= c <= 'Z')
    ensures !('A' <= c <= 'Z') ==> r == c
    ensures 'A' <= c <= 'Z' ==> (r as int) - ('a' as int) == (c as int) - ('A' as int)
  {
    if 'A' <= c <= 'Z' then ((c as int) - ('A' as int) + ('a' as int)) as char else c
  }

  /** `s.toLowerCase()`, for the letters A to Z. */
  function Lower(s: string): (r: string)
    ensures |r| == |s|
    ensures forall i :: 0 <= i < |s| ==> r[i] == LowerChar(s[i])
    decreases |s|
  {
    if s == [] then [] else [LowerChar(s[0])] + Lower(s[1..])
  }

  const TiredQuote: string :=
    "Rest when you're weary. Refresh and renew yourself, your body, your mind, your spirit. Then get back to work."
  const MotivatedQuote: string :=
    "Your motivation today is the foundation of your success tomorrow. Keep that fire burning!"
  const StressedQuote: string :=
    "In the middle of difficulty lies opportunity. Take a deep breath and find your way through."
  const HappyQuote: string :=
    "Happiness is not by chance, but by choice. You're choosing to shine today!"

  /** The four moods with a quote of their own. */
  const FixedQuotes: map<string, string> :=
    map["tired" := TiredQuote, "motivated" := MotivatedQuote,
        "stressed" := StressedQuote, "happy" := HappyQuote]

  const DefaultPrefix: string := "When you're feeling "
  const DefaultSuffix: string := ", remember that every emotion is temporary, but your strength is permanent."

  /** The fallback template, with the mood spliced in exactly as typed. */
  function DefaultQuote(mood: string): (r: string)
    ensures |r| == |DefaultPrefix| + |mood| + |DefaultSuffix|
    ensures r[|DefaultPrefix|..|DefaultPrefix| + |mood|] == mood
    ensures r[..|DefaultPrefix|] == DefaultPrefix
    ensures r[|DefaultPrefix| + |mood|..] == DefaultSuffix
  {
    DefaultPrefix + mood + DefaultSuffix
  }

  /** The `moodQuotes` object, whose `default` entry depends on the mood. */
  function MoodQuotes(mood: string): (table: map<string, string>)
    ensures table.Keys == FixedQuotes.Keys + {"default"}
    ensures forall k :: k in FixedQuotes ==> table[k] == FixedQuotes[k]
    ensures table["default"] == DefaultQuote(mood)
  {
    assert "default" !in FixedQuotes;
    FixedQuotes["default" := DefaultQuote(mood)]
  }

  /** `moodQuotes[customMood.toLowerCase()] || moodQuotes.default`: a missing or empty entry falls back. */
  function QuoteFor(mood: string): (q: string)
    ensures Lower(mood) in FixedQuotes ==> q == FixedQuotes[Lower(mood)]
    ensures Lower(mood) !in FixedQuotes ==> q == DefaultQuote(mood)
  {
    var table := MoodQuotes(mood);
    var key := Lower(mood);
    if key in table && table[key] != "" then table[key] else table["default"]
  }

  const MoodRequiredMessage: string := "Please enter your mood or feeling"
  const QuoteAdMessage: string := "Quote generated! Here's an ad for you."

  datatype Notice = MoodRequiredAlert(message: string) | RewardAd(message: string)

  /** What `generateCustomQuote` leaves behind: the quote on screen and what pops up. */
  datatype Generation = Generation(quote: string, notice: Notice)

  /** `generateCustomQuote()`, given the typed mood and the quote currently shown. */
  function GenerateCustomQuote(mood: string, shown: string): (r: Generation)
    ensures r.notice.MoodRequiredAlert? <==> Blank(mood)
    ensures Blank(mood) ==> r == Generation(shown, MoodRequiredAlert(MoodRequiredMessage))
    ensures !Blank(mood) ==> r.notice == RewardAd(QuoteAdMessage)
    ensures !Blank(mood) && Lower(mood) in FixedQuotes ==> r.quote == FixedQuotes[Lower(mood)]
    ensures !Blank(mood) && Lower(mood) !in FixedQuotes ==> r.quote == DefaultQuote(mood)
  {
    if Trim(mood) == "" then Generation(shown, MoodRequiredAlert(MoodRequiredMessage))
    else Generation(QuoteFor(mood), RewardAd(QuoteAdMessage))
  }

  // ---------------------------------------------------------------------
  // Lemmas

  predicate LowerLetters(k: string) {
    forall i :: 0 <= i < |k| ==> 'a' <= k[i] <= 'z'
  }

  lemma FixedMoodsAreWords()
    ensures forall k :: k in FixedQuotes ==> k != [] && LowerLetters(k)
  {
    assert FixedQuotes.Keys == {"tired", "motivated", "stressed", "happy"};
  }

  /**
   * The mood is not trimmed before the lookup: a mood that matches has no
   * white space around it, so " tired" or "tired " gets the template.
   */
  lemma MatchHasNoSurroundingSpace(mood: string)
    requires Lower(mood) in FixedQuotes
    ensures Trim(mood) == mood && !Blank(mood)
  {
    var k := Lower(mood);
    assert k != [] && 'a' <= k[0] <= 'z' && 'a' <= k[|k| - 1] <= 'z' by {
      FixedMoodsAreWords();
    }
    assert LowerChar(mood[0]) == k[0] && LowerChar(mood[|mood| - 1]) == k[|k| - 1];
    LetterEndsUntrimmed(mood);
  }

  /** A string that starts and ends with a letter is its own trim, and is not blank. */
  lemma LetterEndsUntrimmed(s: string)
    requires s != []
    requires 'a' <= LowerChar(s[0]) <= 'z' && 'a' <= LowerChar(s[|s| - 1]) <= 'z'
    ensures Trim(s) == s && !Blank(s)
  {
    assert !IsJsWhiteSpace(s[0]) && !IsJsWhiteSpace(s[|s| - 1]);
    assert LeadingBlanks(s) == 0;
    assert TrimEnd(s) == s;
  }

  /** Any letter-case spelling of one of the four moods gets its quote and the ad, never the alert. */
  lemma MatchingMoodGetsItsQuote(mood: string, shown: string)
    requires Lower(mood) in FixedQuotes
    ensures GenerateCustomQuote(mood, shown) ==
      Generation(FixedQuotes[Lower(mood)], RewardAd(QuoteAdMessage))
  {
    MatchHasNoSurroundingSpace(mood);
  }

  /** The lookup ignores letter case. */
  lemma MixedCaseExamples()
    ensures GenerateCustomQuote("Tired", "").quote == TiredQuote
    ensures GenerateCustomQuote("HAPPY", "").quote == HappyQuote
  {
    assert GenerateCustomQuote("Tired", "").quote == TiredQuote by {
      FixedLookup();
      LowerTired();
      MatchingMoodGetsItsQuote("Tired", "");
    }
    assert GenerateCustomQuote("HAPPY", "").quote == HappyQuote by {
      FixedLookup();
      LowerHappy();
      MatchingMoodGetsItsQuote("HAPPY", "");
    }
  }

  lemma FixedLookup()
    ensures "tired" in FixedQuotes && FixedQuotes["tired"] == TiredQuote
    ensures "happy" in FixedQuotes && FixedQuotes["happy"] == HappyQuote
  {
  }

  /** The lookup does not trim: a leading space misses the table and yields the template. */
  lemma UntrimmedExample()
    ensures GenerateCustomQuote(" tired", "").quote == DefaultQuote(" tired")
  {
    assert !IsJsWhiteSpace(" tired"[1]);
    FixedMoodsAreWords();
    assert Lower(" tired")[0] == ' ';
  }

  /** Typing the table's own `default` key gives the template, as a miss does. */
  lemma DefaultKeyExample()
    ensures GenerateCustomQuote("Default", "").quote == DefaultQuote("Default")
  {
    LowerDefault();
    assert "default" !in FixedQuotes;
  }

  lemma LowerTired()
    ensures Lower("Tired") == "tired" && !Blank("Tired")
  {
    var k := Lower("Tired");
    assert k[0] == 't' && k[1] == 'i' && k[2] == 'r' && k[3] == 'e' && k[4] == 'd';
    assert !IsJsWhiteSpace("Tired"[0]);
  }

  lemma LowerHappy()
    ensures Lower("HAPPY") == "happy" && !Blank("HAPPY")
  {
    var k := Lower("HAPPY");
    assert k[0] == 'h' && k[1] == 'a' && k[2] == 'p' && k[3] == 'p' && k[4] == 'y';
    assert !IsJsWhiteSpace("HAPPY"[0]);
  }

  lemma LowerDefault()
    ensures Lower("Default") == "default" && !Blank("Default")
  {
    var k := Lower("Default");
    assert k[0] == 'd' && k[1] == 'e' && k[2] == 'f' && k[3] == 'a' && k[4] == 'u';
    assert k[5] == 'l' && k[6] == 't';
    assert !IsJsWhiteSpace("Default"[0]);
  }
}
