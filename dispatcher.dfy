/** The `if analyze:` block of app.py: reject blank input, probe the service's
    credentials, then run language detection and key-phrase extraction on the
    live service or on the offline stand-ins. */
module Dispatcher {

  import opened Text
  import opened Results
  import Languages
  import Utf8
  import MockAnalyzer
  import LiveAnalyzer
  import opened Host

  /** What the credential probe (`list_endpoints()`) did. */
  datatype Probe = Reachable | NoCredentials

  /** What one press of the Analyze button produces. */
  datatype Report =
    | BlankInputWarning
    | Analysis(mockFallback: bool, language: LanguageResult, keyPhrases: KeyPhraseResult)

  /** `lang_result.get('language', 'en')`: the argument the key-phrase stage is given. */
  function LanguageArgument(r: LanguageResult): (code: string)
    ensures r.Detected? ==> code == r.language
    ensures r.LanguageFailed? ==> code == "en"
  {
    match r
    case Detected(name, _) => name
    case LanguageFailed(_) => "en"
  }

  /** The analysis for one button press. */
  function Analyze(
    text: string, probe: Probe,
    languageService: LiveAnalyzer.LanguageService,
    keyPhraseService: LiveAnalyzer.KeyPhraseService,
    rt: Runtime): (r: Report)
    ensures r.BlankInputWarning? <==> IsBlank(text)
    ensures r.Analysis? ==> r.mockFallback == (probe == NoCredentials)
  {
    StripEmptyIffBlank(text);
    if Strip(text) == [] then BlankInputWarning
    else
      var useAws := probe == Reachable;
      var language :=
        if useAws then LiveAnalyzer.DetectLanguage(text, languageService, rt)
        else MockAnalyzer.DetectLanguage(text, rt);
      var keyPhrases :=
        if useAws then LiveAnalyzer.ExtractKeyPhrases(text, LanguageArgument(language), keyPhraseService, rt)
        else MockAnalyzer.ExtractKeyPhrases(text, rt);
      Analysis(!useAws, language, keyPhrases)
  }

  /** The argument handed to the live key-phrase stage always becomes `en`: it is either
      `en` itself or a display name, and no display name is an allowed language code. */
  lemma LanguageArgumentIsEnglish(r: LanguageResult)
    requires r.Detected? ==> r.language in Languages.LanguageMap.Values
    ensures Languages.KeyPhraseLanguage(LanguageArgument(r)) == "en"
  {
  }

  /** Both stages always run, on the path the probe chose; on the live path the key
      phrases are requested in English whatever language was detected. */
  lemma AnalyzeStages(
    text: string, probe: Probe,
    languageService: LiveAnalyzer.LanguageService,
    keyPhraseService: LiveAnalyzer.KeyPhraseService,
    rt: Runtime)
    requires !IsBlank(text)
    ensures var r := Analyze(text, probe, languageService, keyPhraseService, rt);
      && r.Analysis?
      && (probe == NoCredentials ==>
            r.language == MockAnalyzer.DetectLanguage(text, rt)
            && r.keyPhrases == MockAnalyzer.ExtractKeyPhrases(text, rt))
      && (probe == Reachable ==>
            r.language == LiveAnalyzer.DetectLanguage(text, languageService, rt)
            && r.keyPhrases == LiveAnalyzer.ExtractKeyPhrases(text, "en", keyPhraseService, rt))
  {
    var language := LiveAnalyzer.DetectLanguage(text, languageService, rt);
    LanguageArgumentIsEnglish(language);
    LiveAnalyzer.ExtractKeyPhrasesRequest(text, LanguageArgument(language), keyPhraseService,
      keyPhraseService, rt);
  }

  /** On the live path the key-phrase service is consulted only for (text, "en"): two
      services that agree there give the same report. */
  lemma LiveKeyPhrasesAskForEnglish(
    text: string,
    languageService: LiveAnalyzer.LanguageService,
    s1: LiveAnalyzer.KeyPhraseService, s2: LiveAnalyzer.KeyPhraseService,
    rt: Runtime)
    requires s1(text, "en") == s2(text, "en")
    ensures Analyze(text, Reachable, languageService, s1, rt) == Analyze(text, Reachable, languageService, s2, rt)
  {
    if !IsBlank(text) {
      AnalyzeStages(text, Reachable, languageService, s1, rt);
      AnalyzeStages(text, Reachable, languageService, s2, rt);
      LiveAnalyzer.ExtractKeyPhrasesRequest(text, "en", s1, s2, rt);
    }
  }

  /** Without credentials no service is consulted at all. */
  lemma MockPathIgnoresServices(
    text: string,
    l1: LiveAnalyzer.LanguageService, l2: LiveAnalyzer.LanguageService,
    k1: LiveAnalyzer.KeyPhraseService, k2: LiveAnalyzer.KeyPhraseService,
    rt: Runtime)
    ensures Analyze(text, NoCredentials, l1, k1, rt) == Analyze(text, NoCredentials, l2, k2, rt)
  {
  }

  /** Text that passes the blank check is rejected by the analyzers only for its size. */
  lemma NonBlankRejectedOnlyWhenOversized(
    text: string, probe: Probe,
    languageService: LiveAnalyzer.LanguageService,
    keyPhraseService: LiveAnalyzer.KeyPhraseService,
    rt: Runtime)
    requires !IsBlank(text)
    ensures var r := Analyze(text, probe, languageService, keyPhraseService, rt);
      && (r.language == LanguageFailed(InvalidText) <==> Utf8.ByteLength(text) > MaxTextBytes)
      && (r.keyPhrases == PhrasesFailed(InvalidText) <==> Utf8.ByteLength(text) > MaxTextBytes)
  {
  }
}
