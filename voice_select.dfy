/**
 * Choosing the speech voice for the radio messages: the priority-ordered search
 * over the available voices, with the case-insensitive substring tests on voice
 * names and languages that it is made of.
 */
module VoiceSelect {
  import opened Wrappers

  /** A speech voice as the browser lists it. */
  datatype Voice = Voice(name: string, lang: string)

  /** `toLowerCase` on one character; letters outside A-Z are left alone. */
  function LowerChar(c: char): (d: char)
    ensures 'A' <= c <= 'Z' ==> d as int == c as int + 32
    ensures !('A' <= c <= 'Z') ==> d == c
  {
    if 'A' <= c <= 'Z' then (c as int + 32) as char else c
  }

  /** `toLowerCase` */
  function Lower(s: string): (r: string)
    ensures |r| == |s|
  {
    if s == [] then [] else [LowerChar(s[0])] + Lower(s[1..])
  }

  /** `s.includes(p)`: p occurs in s starting at some position. */
  predicate Includes(s: string, p: string)
  {
    (|p| <= |s| && s[..|p|] == p) || (s != [] && Includes(s[1..], p))
  }

  /** p occurs in s starting at index i. */
  predicate OccursAt(s: string, p: string, i: int)
  {
    0 <= i <= |s| - |p| && s[i..i + |p|] == p
  }

  /** `includes` is substring search: p occurs in s exactly when it starts at some index of s. */
  lemma {:induction false} IncludesAt(s: string, p: string)
    ensures Includes(s, p) <==> exists i :: OccursAt(s, p, i)
  {
    if s != [] {
      IncludesAt(s[1..], p);
      if |p| <= |s| && s[..|p|] == p {
        assert s[0..|p|] == s[..|p|];
        assert OccursAt(s, p, 0);
      }
      if Includes(s[1..], p) {
        var i :| OccursAt(s[1..], p, i);
        assert s[i + 1..i + 1 + |p|] == s[1..][i..i + |p|];
        assert OccursAt(s, p, i + 1);
      }
      if exists i :: OccursAt(s, p, i) {
        var i :| OccursAt(s, p, i);
        if i > 0 {
          assert s[1..][i - 1..i - 1 + |p|] == s[i..i + |p|];
          assert OccursAt(s[1..], p, i - 1);
        } else {
          assert s[..|p|] == s[0..|p|];
        }
      }
    } else if p == [] {
      assert OccursAt(s, p, 0);
    }
  }

  /** Every name that includes "female" includes "male". */
  lemma FemaleIncludesMale(s: string)
    requires Includes(s, "female")
    ensures Includes(s, "male")
  {
    IncludesAt(s, "female");
    var i :| OccursAt(s, "female", i);
    assert s[i + 2..i + 6] == s[i..i + 6][2..];
    assert OccursAt(s, "male", i + 2);
    IncludesAt(s, "male");
  }

  predicate MaleNamed(v: Voice) { Includes(Lower(v.name), "male") }

  predicate FemaleNamed(v: Voice) { Includes(Lower(v.name), "female") }

  predicate InLanguage(v: Voice, lang: string) { Includes(v.lang, lang) }

  /**
   * The four predicates of the search, highest priority first: a male-named voice
   * in the language; any voice in the language not named female; a male-named
   * voice not named female; any voice not named female.  With `strict`, the first
   * one also excludes names containing "female".
   */
  predicate InTier(v: Voice, tier: nat, lang: string, strict: bool)
  {
    if tier == 1 then InLanguage(v, lang) && MaleNamed(v) && (strict ==> !FemaleNamed(v))
    else if tier == 2 then InLanguage(v, lang) && !FemaleNamed(v)
    else if tier == 3 then MaleNamed(v) && !FemaleNamed(v)
    else if tier == 4 then !FemaleNamed(v)
    else false
  }

  /** `voices.find(...)` for one tier, as an index. */
  function FirstIn(voices: seq<Voice>, tier: nat, lang: string, strict: bool): (r: Option<nat>)
    ensures r.None? <==> forall i :: 0 <= i < |voices| ==> !InTier(voices[i], tier, lang, strict)
    ensures r.Some? ==> r.value < |voices| && InTier(voices[r.value], tier, lang, strict)
    ensures r.Some? ==> forall i :: 0 <= i < r.value ==> !InTier(voices[i], tier, lang, strict)
  {
    if voices == [] then None
    else if InTier(voices[0], tier, lang, strict) then Some(0)
    else
      var r := FirstIn(voices[1..], tier, lang, strict);
      assert forall i :: 1 <= i < |voices| ==> voices[i] == voices[1..][i - 1];
      match r
      case None => None
      case Some(i) => Some(i + 1)
  }

  /** The search from `tier` on: each tier's first voice, else the next tier; finally `voices[0]`. */
  function Cascade(voices: seq<Voice>, tier: nat, lang: string, strict: bool): (r: Option<Voice>)
    decreases 5 - tier
  {
    if tier > 4 then (if voices == [] then None else Some(voices[0]))
    else match FirstIn(voices, tier, lang, strict)
      case Some(i) => Some(voices[i])
      case None => Cascade(voices, tier + 1, lang, strict)
  }

  /** `getMaleVoice(lang)`, as written. */
  function GetMaleVoice(voices: seq<Voice>, lang: string): (r: Option<Voice>)
  {
    Cascade(voices, 1, lang, false)
  }

  /** `getMaleVoice(lang)` with the first priority no longer accepting names that contain "female". */
  function MaleVoice(voices: seq<Voice>, lang: string): (r: Option<Voice>)
  {
    Cascade(voices, 1, lang, true)
  }

  /** The highest-priority tier a voice belongs to; 5 when it belongs to none. */
  function Rank(v: Voice, lang: string, strict: bool): (k: nat)
    ensures 1 <= k <= 5
    ensures k <= 4 ==> InTier(v, k, lang, strict)
    ensures forall t :: 1 <= t < k ==> !InTier(v, t, lang, strict)
  {
    if InTier(v, 1, lang, strict) then 1
    else if InTier(v, 2, lang, strict) then 2
    else if InTier(v, 3, lang, strict) then 3
    else if InTier(v, 4, lang, strict) then 4
    else 5
  }

  /** The rank of every voice, in order. */
  function Ranks(voices: seq<Voice>, lang: string, strict: bool): (r: seq<nat>)
    ensures |r| == |voices|
    ensures forall i :: 0 <= i < |voices| ==> r[i] == Rank(voices[i], lang, strict)
  {
    seq(|voices|, i requires 0 <= i < |voices| => Rank(voices[i], lang, strict))
  }

  /** The index of the first occurrence of the smallest value. */
  function FirstMinimum(xs: seq<nat>): (r: nat)
    requires |xs| > 0
    ensures r < |xs|
    ensures forall i :: 0 <= i < |xs| ==> xs[r] <= xs[i]
    ensures forall i :: 0 <= i < r ==> xs[r] < xs[i]
  {
    if |xs| == 1 then 0
    else
      var j := FirstMinimum(xs[1..]) + 1;
      assert forall i :: 1 <= i < |xs| ==> xs[i] == xs[1..][i - 1];
      if xs[0] <= xs[j] then 0 else j
  }

  /**
   * An independent statement of what the search should return: the index of the
   * first voice among those of the best rank.
   */
  function BestIndex(voices: seq<Voice>, lang: string, strict: bool): (r: Option<nat>)
    ensures r.None? <==> voices == []
    ensures r.Some? ==> r.value < |voices|
    ensures r.Some? ==> forall i :: 0 <= i < |voices| ==>
      Rank(voices[r.value], lang, strict) <= Rank(voices[i], lang, strict)
    ensures r.Some? ==> forall i :: 0 <= i < r.value ==>
      Rank(voices[r.value], lang, strict) < Rank(voices[i], lang, strict)
  {
    if voices == [] then None else Some(FirstMinimum(Ranks(voices, lang, strict)))
  }

  /** Tiers above the best rank hold no voice. */
  lemma TierAboveBestEmpty(voices: seq<Voice>, tier: nat, lang: string, strict: bool, j: nat)
    requires BestIndex(voices, lang, strict) == Some(j)
    requires 1 <= tier < Rank(voices[j], lang, strict)
    ensures FirstIn(voices, tier, lang, strict).None?
  {
    forall i | 0 <= i < |voices|
      ensures !InTier(voices[i], tier, lang, strict)
    {
      assert Rank(voices[i], lang, strict) > tier;
    }
  }

  /** The first voice in the best rank's tier is the best voice. */
  lemma TierAtBestFindsIt(voices: seq<Voice>, lang: string, strict: bool, j: nat)
    requires BestIndex(voices, lang, strict) == Some(j)
    requires Rank(voices[j], lang, strict) <= 4
    ensures FirstIn(voices, Rank(voices[j], lang, strict), lang, strict) == Some(j)
  {
    var k := Rank(voices[j], lang, strict);
    forall i | 0 <= i < j
      ensures !InTier(voices[i], k, lang, strict)
    {
      assert Rank(voices[i], lang, strict) > k;
    }
    FirstInIs(voices, k, lang, strict, j);
  }

  /** A voice in the tier with none of that tier before it is the one `find` returns. */
  lemma FirstInIs(voices: seq<Voice>, tier: nat, lang: string, strict: bool, j: nat)
    requires j < |voices| && InTier(voices[j], tier, lang, strict)
    requires forall i :: 0 <= i < j ==> !InTier(voices[i], tier, lang, strict)
    ensures FirstIn(voices, tier, lang, strict) == Some(j)
  {
    var r := FirstIn(voices, tier, lang, strict);
    assert r.Some?;
    assert !(r.value < j);
    assert !(j < r.value);
  }

  lemma {:induction false} CascadeFrom(voices: seq<Voice>, tier: nat, lang: string, strict: bool, j: nat)
    requires BestIndex(voices, lang, strict) == Some(j)
    requires 1 <= tier <= Rank(voices[j], lang, strict)
    ensures Cascade(voices, tier, lang, strict) == Some(voices[j])
    decreases 5 - tier
  {
    var k := Rank(voices[j], lang, strict);
    if tier < k {
      TierAboveBestEmpty(voices, tier, lang, strict, j);
      CascadeFrom(voices, tier + 1, lang, strict, j);
    } else if tier <= 4 {
      TierAtBestFindsIt(voices, lang, strict, j);
    }
  }

  /**
   * The search returns the first voice of the best rank, and nothing only when
   * there are no voices: the first voice meeting the highest-priority predicate
   * that any voice meets, else the first voice.
   */
  lemma CascadeIsBest(voices: seq<Voice>, lang: string, strict: bool)
    ensures Cascade(voices, 1, lang, strict)
         == match BestIndex(voices, lang, strict)
            case None => None
            case Some(j) => Some(voices[j])
  {
    match BestIndex(voices, lang, strict)
    case None =>
    case Some(j) => CascadeFrom(voices, 1, lang, strict, j);
  }

  /** Two voices as a browser may list them, one named female and one named male. */
  const Female := Voice("Female", "en-US")

  const Male := Voice("Male", "en-US")

  lemma FemaleIsFemale()
    ensures FemaleNamed(Female) && InLanguage(Female, "en-US")
  {
    LowerFemale();
    SameLanguage();
  }

  lemma LowerFemale()
    ensures Lower("Female") == "female"
  {
  }

  lemma SameLanguage()
    ensures Includes("en-US", "en-US")
  {
  }

  lemma MaleIsMale()
    ensures MaleNamed(Male) && !FemaleNamed(Male) && InLanguage(Male, "en-US")
  {
    LowerMale();
    MaleInText();
    SameLanguage();
  }

  lemma LowerMale()
    ensures Lower("Male") == "male"
  {
  }

  lemma MaleInText()
    ensures Includes("male", "male") && !Includes("male", "female")
  {
    NoFirstChar("male", "female");
  }

  /** A text without p's first character does not include p. */
  lemma {:induction false} NoFirstChar(s: string, p: string)
    requires p != [] && forall i :: 0 <= i < |s| ==> s[i] != p[0]
    ensures !Includes(s, p)
  {
    if s != [] {
      NoFirstChar(s[1..], p);
      if |p| <= |s| {
        assert s[..|p|][0] == s[0];
      }
    }
  }

  /**
   * As written, the first priority accepts a voice named female, since "female"
   * contains "male": such a voice listed first is chosen whatever follows it.
   */
  lemma FemaleFirstWins(voices: seq<Voice>, lang: string)
    requires voices != [] && FemaleNamed(voices[0]) && InLanguage(voices[0], lang)
    ensures GetMaleVoice(voices, lang) == Some(voices[0])
  {
    FemaleIncludesMale(Lower(voices[0].name));
    assert InTier(voices[0], 1, lang, false);
  }

  /** With a female voice listed before a male one, the search as written picks the female one. */
  lemma GetMaleVoicePicksFemale()
    ensures GetMaleVoice([Female, Male], "en-US") == Some(Female)
    ensures FemaleNamed(Female) && MaleNamed(Male) && !FemaleNamed(Male)
  {
    FemaleIsFemale();
    MaleIsMale();
    FemaleFirstWins([Female, Male], "en-US");
  }

  /** The corrected search picks the male voice in that example. */
  lemma MaleVoiceExample()
    ensures MaleVoice([Female, Male], "en-US") == Some(Male)
  {
    FemaleIsFemale();
    MaleIsMale();
    var voices := [Female, Male];
    assert !InTier(voices[0], 1, "en-US", true);
    assert InTier(voices[1], 1, "en-US", true);
    assert FirstIn(voices, 1, "en-US", true) == Some(1);
  }

  /** In the corrected search, every tier excludes voices named female. */
  lemma StrictTiersNotFemale(v: Voice, tier: nat, lang: string)
    requires InTier(v, tier, lang, true)
    ensures !FemaleNamed(v)
  {
  }

  /**
   * The corrected search returns a voice not named female whenever one is
   * available, and a male-named one in the language whenever one of those is.
   */
  lemma MaleVoiceAvoidsFemale(voices: seq<Voice>, lang: string)
    ensures (exists i :: 0 <= i < |voices| && !FemaleNamed(voices[i])) ==>
      MaleVoice(voices, lang).Some? && !FemaleNamed(MaleVoice(voices, lang).value)
    ensures (exists i :: 0 <= i < |voices| && InTier(voices[i], 1, lang, true)) ==>
      MaleVoice(voices, lang).Some? && InTier(MaleVoice(voices, lang).value, 1, lang, true)
  {
    CascadeIsBest(voices, lang, true);
    if exists i :: 0 <= i < |voices| && !FemaleNamed(voices[i]) {
      var i :| 0 <= i < |voices| && !FemaleNamed(voices[i]);
      var j := BestIndex(voices, lang, true).value;
      assert InTier(voices[i], 4, lang, true);
      assert Rank(voices[j], lang, true) <= Rank(voices[i], lang, true) <= 4;
      StrictTiersNotFemale(voices[j], Rank(voices[j], lang, true), lang);
    }
    if exists i :: 0 <= i < |voices| && InTier(voices[i], 1, lang, true) {
      var i :| 0 <= i < |voices| && InTier(voices[i], 1, lang, true);
      var j := BestIndex(voices, lang, true).value;
      assert Rank(voices[j], lang, true) <= Rank(voices[i], lang, true) == 1;
    }
  }

  /** Both searches return nothing exactly when no voice is available, and otherwise one of the voices. */
  lemma SearchFindsAVoice(voices: seq<Voice>, lang: string, strict: bool)
    ensures Cascade(voices, 1, lang, strict).None? <==> voices == []
    ensures Cascade(voices, 1, lang, strict).Some? ==> Cascade(voices, 1, lang, strict).value in voices
  {
    CascadeIsBest(voices, lang, strict);
  }
}
