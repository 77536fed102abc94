/** `detect_language` and `extract_key_phrases`: the adapters around the analysis
    service's two operations. The service is a parameter: a function from the
    request to the reply (or the exception raised), so the model states exactly
    which request each adapter makes and that it makes none for rejected text. */
module LiveAnalyzer {

  import opened Text
  import opened Results
  import Languages
  import opened Host

  /** One entry of `response['Languages']`. */
  datatype DominantLanguage = DominantLanguage(languageCode: string, score: real)

  /** One entry of `response['KeyPhrases']`. */
  datatype ScoredPhrase = ScoredPhrase(text: string, score: real)

  /** `detect_dominant_language(Text=text)`. */
  type LanguageService = string -> Outcome<seq<DominantLanguage>>

  /** `detect_key_phrases(Text=text, LanguageCode=code)`. */
  type KeyPhraseService = (string, string) -> Outcome<seq<ScoredPhrase>>

  /** Confidence ceiling applied when a Tagalog answer is corrected to Swahili. */
  const SwahiliCap: real := 0.90

  /** The correction rule: the service's Tagalog answer on a text with a Swahili keyword is Swahili. */
  predicate CorrectsToSwahili(code: string, text: string, rt: Runtime)
  {
    code == "tl" && AnyIn(Languages.SwahiliKeywords, Lower(text, rt.lowerNonAscii))
  }

  /** The language result made from the top-ranked entry of the service's reply. */
  function FromTopEntry(top: DominantLanguage, text: string, rt: Runtime): (r: LanguageResult)
    ensures r.Detected?
    ensures CorrectsToSwahili(top.languageCode, text, rt) ==>
      r.language == "SWAHILI" && r.confidence <= SwahiliCap && r.confidence <= rt.round4(top.score)
      && (r.confidence == SwahiliCap || r.confidence == rt.round4(top.score))
    ensures !CorrectsToSwahili(top.languageCode, text, rt) ==>
      r.language == Languages.DisplayName(top.languageCode) && r.confidence == rt.round4(top.score)
  {
    var confidence := rt.round4(top.score);
    if CorrectsToSwahili(top.languageCode, text, rt) then
      Detected(Languages.DisplayName("sw"), if confidence <= SwahiliCap then confidence else SwahiliCap)
    else
      Detected(Languages.DisplayName(top.languageCode), confidence)
  }

  /** `detect_language(text)`. */
  function DetectLanguage(text: string, service: LanguageService, rt: Runtime): (r: LanguageResult)
    ensures r == LanguageFailed(InvalidText) <==> !ValidText(text)
    ensures r.Detected? ==> ValidText(text) && r.language in Languages.LanguageMap.Values
  {
    if !ValidText(text) then LanguageFailed(InvalidText)
    else
      match service(text)
      case Raised(fault) => LanguageFailed(FailureOf(fault))
      case Replied(languages) =>
        if languages != [] then FromTopEntry(languages[0], text, rt)
        else LanguageFailed(NoLanguageDetected)
  }

  /** Rejected text never reaches the service: the result is the same whatever it would answer. */
  lemma DetectLanguageValidatesFirst(text: string, s1: LanguageService, s2: LanguageService, rt: Runtime)
    requires !ValidText(text)
    ensures DetectLanguage(text, s1, rt) == DetectLanguage(text, s2, rt) == LanguageFailed(InvalidText)
  {
  }

  /** The cases of a valid text: each raised fault, the empty reply, and a non-empty reply,
      whose first entry gives the result. */
  lemma DetectLanguageErrors(text: string, service: LanguageService, rt: Runtime)
    requires ValidText(text)
    ensures var r := DetectLanguage(text, service, rt);
      && (service(text) == Raised(NoCredentialsError) ==> r == LanguageFailed(CredentialsMissing))
      && (forall d :: service(text) == Raised(ClientError(d)) ==> r == LanguageFailed(AwsError(d)))
      && (forall d :: service(text) == Raised(OtherException(d)) ==> r == LanguageFailed(UnexpectedError(d)))
      && (service(text) == Replied([]) ==> r == LanguageFailed(NoLanguageDetected))
      && (service(text).Replied? && service(text).value != [] ==>
            r == FromTopEntry(service(text).value[0], text, rt))
      && (r.Detected? <==> service(text).Replied? && service(text).value != [])
  {
  }

  /** Only the first entry of the reply is used; the ones ranked below it change nothing. */
  lemma DetectLanguageUsesTopEntry(text: string, s1: LanguageService, s2: LanguageService, rt: Runtime)
    requires s1(text).Replied? && s2(text).Replied?
    requires s1(text).value != [] && s2(text).value != []
    requires s1(text).value[0] == s2(text).value[0]
    ensures DetectLanguage(text, s1, rt) == DetectLanguage(text, s2, rt)
  {
  }

  /** An answer of Tagalog on a text with "safari" in it becomes Swahili at no more than 0.90. */
  lemma SafariCorrectsTagalog(text: string, service: LanguageService, rt: Runtime)
    requires ValidText(text)
    requires service(text).Replied? && service(text).value != []
    requires service(text).value[0].languageCode == "tl"
    requires Occurs(Lower(text, rt.lowerNonAscii), "safari")
    ensures var r := DetectLanguage(text, service, rt);
      r.Detected? && r.language == "SWAHILI" && r.confidence <= 0.90
  {
    var lower := Lower(text, rt.lowerNonAscii);
    ContainsIff(lower, "safari");
    assert Languages.SwahiliKeywords[3] == "safari";
  }

  /** The corrected rule leaves no Tagalog answer on a text that has a Swahili keyword. */
  lemma NoTagalogWithSwahiliKeyword(text: string, service: LanguageService, rt: Runtime)
    requires AnyIn(Languages.SwahiliKeywords, Lower(text, rt.lowerNonAscii))
    ensures var r := DetectLanguage(text, service, rt);
      r.Detected? ==> r.language != "TAGALOG"
  {
  }

  /** `[{"phrase": kp['Text'], "confidence": round(kp['Score'], 4)} for kp in ...]`. */
  function ToKeyPhrases(replies: seq<ScoredPhrase>, round4: real -> real): (kps: seq<KeyPhrase>)
    ensures |kps| == |replies|
    ensures forall k :: 0 <= k < |replies| ==>
      kps[k].phrase == replies[k].text && kps[k].confidence == round4(replies[k].score)
  {
    if replies == [] then []
    else [KeyPhrase(replies[0].text, round4(replies[0].score))] + ToKeyPhrases(replies[1..], round4)
  }

  /** `extract_key_phrases(text, language_code)`. */
  function ExtractKeyPhrases(text: string, languageCode: string, service: KeyPhraseService, rt: Runtime)
    : (r: KeyPhraseResult)
    ensures r == PhrasesFailed(InvalidText) <==> !ValidText(text)
    ensures r.Phrases? ==> r.keyPhrases != []
  {
    if !ValidText(text) then PhrasesFailed(InvalidText)
    else
      match service(text, Languages.KeyPhraseLanguage(languageCode))
      case Raised(fault) => PhrasesFailed(FailureOf(fault))
      case Replied(replies) =>
        var kps := ToKeyPhrases(replies, rt.round4);
        if kps != [] then Phrases(kps) else PhrasesFailed(NoKeyPhrasesDetected)
  }

  /** Rejected text never reaches the service. */
  lemma ExtractKeyPhrasesValidatesFirst(text: string, code: string, s1: KeyPhraseService, s2: KeyPhraseService, rt: Runtime)
    requires !ValidText(text)
    ensures ExtractKeyPhrases(text, code, s1, rt) == ExtractKeyPhrases(text, code, s2, rt) == PhrasesFailed(InvalidText)
  {
  }

  /** The only request made is for the text in the allowed language the code maps to:
      services that agree on that request give the same result. */
  lemma ExtractKeyPhrasesRequest(text: string, code: string, s1: KeyPhraseService, s2: KeyPhraseService, rt: Runtime)
    requires s1(text, Languages.KeyPhraseLanguage(code)) == s2(text, Languages.KeyPhraseLanguage(code))
    ensures ExtractKeyPhrases(text, code, s1, rt) == ExtractKeyPhrases(text, code, s2, rt)
  {
  }

  /** An unsupported language code is treated as English. */
  lemma UnsupportedCodeIsEnglish(text: string, code: string, service: KeyPhraseService, rt: Runtime)
    requires code !in Languages.KeyPhraseLanguages
    ensures ExtractKeyPhrases(text, code, service, rt) == ExtractKeyPhrases(text, "en", service, rt)
  {
  }

  /** The phrases keep the reply's order, number and texts; errors follow the reply. */
  lemma ExtractKeyPhrasesReply(text: string, code: string, service: KeyPhraseService, rt: Runtime)
    requires ValidText(text)
    ensures var reply := service(text, Languages.KeyPhraseLanguage(code));
      var r := ExtractKeyPhrases(text, code, service, rt);
      && (reply == Raised(NoCredentialsError) ==> r == PhrasesFailed(CredentialsMissing))
      && (forall d :: reply == Raised(ClientError(d)) ==> r == PhrasesFailed(AwsError(d)))
      && (forall d :: reply == Raised(OtherException(d)) ==> r == PhrasesFailed(UnexpectedError(d)))
      && (reply == Replied([]) ==> r == PhrasesFailed(NoKeyPhrasesDetected))
      && (reply.Replied? && reply.value != [] ==>
            r.Phrases? && |r.keyPhrases| == |reply.value|
            && forall k :: 0 <= k < |reply.value| ==>
                 r.keyPhrases[k] == KeyPhrase(reply.value[k].text, rt.round4(reply.value[k].score)))
  {
  }
}
