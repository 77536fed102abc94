/** The offline stand-ins used when no service credentials are configured:
    `mock_detect_language` and `mock_extract_key_phrases`. */
module MockAnalyzer {

  import opened Text
  import opened Results
  import Languages
  import Pattern
  import Utf8
  import opened Host

  const EnglishCues: seq<string> := ["hello", "world", "love", "is"]
  const SpanishCues: seq<string> := ["hola", "mundo", "gusta"]

  const EnglishConfidence: real := 0.95
  const SpanishConfidence: real := 0.90
  const SwahiliConfidence: real := 0.90
  const UnknownConfidence: real := 0.80
  const PhraseConfidence: real := 0.85

  /** Some word of `words` occurs in `text` (index-based, independent of `AnyIn`). */
  ghost predicate Cued(words: seq<string>, text: string)
  {
    exists k :: 0 <= k < |words| && Occurs(text, words[k])
  }

  lemma AnyInIff(words: seq<string>, text: string)
    ensures AnyIn(words, text) <==> Cued(words, text)
  {
    forall k | 0 <= k < |words| ensures Contains(text, words[k]) <==> Occurs(text, words[k]) {
      ContainsIff(text, words[k]);
    }
  }

  /** `mock_detect_language(text)`. */
  function DetectLanguage(text: string, rt: Runtime): (r: LanguageResult)
    ensures r.LanguageFailed? <==> !ValidText(text)
    ensures r.LanguageFailed? ==> r.error == InvalidText
    ensures r.Detected? ==> r.language in Languages.LanguageMap.Values
  {
    if !ValidText(text) then LanguageFailed(InvalidText)
    else
      var lower := Lower(text, rt.lowerNonAscii);
      if AnyIn(EnglishCues, lower) then Detected(Languages.LanguageMap["en"], EnglishConfidence)
      else if AnyIn(SpanishCues, lower) then Detected(Languages.LanguageMap["es"], SpanishConfidence)
      else if AnyIn(Languages.SwahiliKeywords, lower) then Detected(Languages.LanguageMap["sw"], SwahiliConfidence)
      else Detected(Languages.LanguageMap["unknown"], UnknownConfidence)
  }

  /** The cue lists are tried in priority order: English, then Spanish, then Swahili. */
  lemma DetectLanguagePriority(text: string, rt: Runtime)
    requires ValidText(text)
    ensures var lower := Lower(text, rt.lowerNonAscii);
      var r := DetectLanguage(text, rt);
      && r.Detected?
      && (r.language == "ENGLISH" <==> Cued(EnglishCues, lower))
      && (r.language == "SPANISH" <==> !Cued(EnglishCues, lower) && Cued(SpanishCues, lower))
      && (r.language == "SWAHILI" <==>
            !Cued(EnglishCues, lower) && !Cued(SpanishCues, lower) && Cued(Languages.SwahiliKeywords, lower))
      && (r.language == "UNKNOWN" <==>
            !Cued(EnglishCues, lower) && !Cued(SpanishCues, lower) && !Cued(Languages.SwahiliKeywords, lower))
      && r.confidence == (if r.language == "ENGLISH" then 0.95 else if r.language == "UNKNOWN" then 0.80 else 0.90)
  {
    var lower := Lower(text, rt.lowerNonAscii);
    AnyInIff(EnglishCues, lower);
    AnyInIff(SpanishCues, lower);
    AnyInIff(Languages.SwahiliKeywords, lower);
  }

  /** A Spanish cue with no English cue gives SPANISH at 0.90. */
  lemma SpanishWithoutEnglish(text: string, rt: Runtime)
    requires ValidText(text)
    requires Occurs(Lower(text, rt.lowerNonAscii), "hola")
    requires !Cued(EnglishCues, Lower(text, rt.lowerNonAscii))
    ensures DetectLanguage(text, rt) == Detected("SPANISH", 0.90)
  {
    DetectLanguagePriority(text, rt);
    assert SpanishCues[0] == "hola";
  }

  /** The cue `is` is tested as a substring, so the word "Kiswahili" alone reads as English. */
  lemma KiswahiliReadsAsEnglish(rt: Runtime)
    ensures DetectLanguage("Kiswahili", rt) == Detected("ENGLISH", 0.95)
  {
    var text := "Kiswahili";
    assert IsAscii(text);
    LowerAscii(text, rt.lowerNonAscii);
    var lower := Lower(text, rt.lowerNonAscii);
    assert lower[1] == 'i' && lower[2] == 's';
    assert lower[1..3] == "is";
    assert OccursAt(lower, EnglishCues[3], 1);
    Utf8.ByteLengthBounds(text);
    DetectLanguagePriority(text, rt);
  }

  /** The number of candidates longer than two characters. */
  function LongCount(candidates: seq<string>): (n: nat)
    ensures n <= |candidates|
  {
    if candidates == [] then 0
    else (if |candidates[0]| > 2 then 1 else 0) + LongCount(candidates[1..])
  }

  /** `[kp for phrase in candidates if len(phrase) > 2]`, each at confidence 0.85: the kept
      phrases are, in order, candidates longer than two characters, and there are as many
      of them as there are such candidates. */
  function KeepLong(candidates: seq<string>): (kps: seq<KeyPhrase>)
    ensures |kps| <= |candidates|
    ensures forall k :: 0 <= k < |kps| ==> |kps[k].phrase| > 2 && kps[k].confidence == PhraseConfidence
    ensures IsSubsequence(PhraseTexts(kps), candidates)
    ensures |kps| == LongCount(candidates)
    ensures kps == [] <==> forall k :: 0 <= k < |candidates| ==> |candidates[k]| <= 2
  {
    if candidates == [] then []
    else
      var rest := KeepLong(candidates[1..]);
      assert forall k :: 1 <= k < |candidates| ==> candidates[k] == candidates[1..][k - 1];
      if |candidates[0]| > 2 then
        var kps := [KeyPhrase(candidates[0], PhraseConfidence)] + rest;
        assert kps[1..] == rest;
        kps
      else
        rest
  }

  /** `phrases[:3]`. */
  function FirstThree(candidates: seq<string>): (r: seq<string>)
    ensures |r| <= 3 && |r| <= |candidates| && r == candidates[..|r|]
    ensures |r| == 3 || r == candidates
  {
    if |candidates| <= 3 then candidates else candidates[..3]
  }

  /** `mock_extract_key_phrases(text)`; the unused `language_code` argument is omitted. */
  function ExtractKeyPhrases(text: string, rt: Runtime): (r: KeyPhraseResult)
    ensures r == PhrasesFailed(InvalidText) <==> !ValidText(text)
    ensures r.PhrasesFailed? ==> r.error in {InvalidText, NoKeyPhrasesDetected}
    ensures r.Phrases? ==> 0 < |r.keyPhrases| <= 3
    ensures r.Phrases? ==> forall k :: 0 <= k < |r.keyPhrases| ==>
      |r.keyPhrases[k].phrase| > 2 && r.keyPhrases[k].confidence == 0.85 && Contains(text, r.keyPhrases[k].phrase)
  {
    if !ValidText(text) then PhrasesFailed(InvalidText)
    else
      var firstThree := FirstThree(Pattern.FindAll(text, rt.isNonAsciiAlnum));
      var kps := KeepLong(firstThree);
      SubsequenceElements(PhraseTexts(kps), firstThree);
      if kps != [] then Phrases(kps) else PhrasesFailed(NoKeyPhrasesDetected)
  }

  /** Every element of a subsequence is an element of the sequence it is taken from. */
  lemma {:induction false} SubsequenceElements(xs: seq<string>, ys: seq<string>)
    requires IsSubsequence(xs, ys)
    ensures forall k :: 0 <= k < |xs| ==> xs[k] in ys
    decreases |ys|
  {
    if xs != [] {
      if xs[0] == ys[0] && IsSubsequence(xs[1..], ys[1..]) {
        SubsequenceElements(xs[1..], ys[1..]);
        assert forall k :: 1 <= k < |xs| ==> xs[k] == xs[1..][k - 1];
      } else {
        SubsequenceElements(xs, ys[1..]);
      }
    }
  }

  /** The phrases are, in order, those of the first three candidates that are longer than
      two characters, all of them, and the result is an error exactly when none of them is. */
  lemma ExtractKeyPhrasesSelection(text: string, rt: Runtime)
    requires ValidText(text)
    ensures var firstThree := FirstThree(Pattern.FindAll(text, rt.isNonAsciiAlnum));
      var r := ExtractKeyPhrases(text, rt);
      && (r.Phrases? ==> IsSubsequence(PhraseTexts(r.keyPhrases), firstThree))
      && (r.Phrases? ==> |r.keyPhrases| == LongCount(firstThree))
      && (r == PhrasesFailed(NoKeyPhrasesDetected) <==> forall k :: 0 <= k < |firstThree| ==> |firstThree[k]| <= 2)
      && (r.Phrases? <==> exists k :: 0 <= k < |firstThree| && |firstThree[k]| > 2)
  {
  }
}
