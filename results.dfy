/** The values the four analyzers return, the errors they report, and the faults
    the analysis service can raise. In app.py a result is a dictionary holding
    either an `error` entry or its payload entries; here it is a sum type, and
    `LanguageResultKeys` / `KeyPhraseResultKeys` give back the dictionary's keys. */
module Results {

  import Utf8

  /** Byte bound every analyzer checks before doing anything else. */
  const MaxTextBytes := 5000

  /** `not (not text or len(text.encode('utf-8')) > 5000)`. */
  predicate ValidText(text: string)
  {
    text != [] && Utf8.ByteLength(text) <= MaxTextBytes
  }

  /** The error categories; app.py reports each as the string `Message` gives. */
  datatype Failure =
    | InvalidText
    | NoLanguageDetected
    | NoKeyPhrasesDetected
    | CredentialsMissing
    | AwsError(detail: string)         // a ClientError, `detail` being `str(e)`
    | UnexpectedError(detail: string)  // any other exception, `detail` being `str(e)`

  function Message(f: Failure): string
  {
    match f
    case InvalidText => "Text is empty or exceeds 5,000 bytes."
    case NoLanguageDetected => "No language detected."
    case NoKeyPhrasesDetected => "No key phrases detected."
    case CredentialsMissing => "AWS credentials not configured. " + "Please run 'aws configure'."
    case AwsError(d) => "AWS error: " + d
    case UnexpectedError(d) => "Error: " + d
  }

  /** Reads the error category back from a message shown to the user. */
  function Classify(m: string): Failure
  {
    if m == Message(InvalidText) then InvalidText
    else if m == Message(NoLanguageDetected) then NoLanguageDetected
    else if m == Message(NoKeyPhrasesDetected) then NoKeyPhrasesDetected
    else if m == Message(CredentialsMissing) then CredentialsMissing
    else if |m| >= 11 && m[..11] == "AWS error: " then AwsError(m[11..])
    else if |m| >= 7 && m[..7] == "Error: " then UnexpectedError(m[7..])
    else UnexpectedError(m)
  }

  /** The message shown to the user identifies the error category and its detail. */
  lemma ClassifyMessage(f: Failure)
    ensures Classify(Message(f)) == f
  {
    var m := Message(f);
    var invalid, noLanguage := Message(InvalidText), Message(NoLanguageDetected);
    var noPhrases, credentials := Message(NoKeyPhrasesDetected), Message(CredentialsMissing);
    assert invalid[0] == 'T' && noLanguage[0] == 'N' && noPhrases[0] == 'N' && credentials[0] == 'A';
    assert |invalid| == 37 && |noLanguage| == 21 && |noPhrases| == 24 && credentials[4] == 'c';
    match f
    case AwsError(d) =>
      assert m[0] == 'A' && m[4] == 'e';
      assert m[..11] == "AWS error: " && m[11..] == d;
    case UnexpectedError(d) =>
      assert m[0] == 'E';
      assert m[..7] == "Error: " && m[7..] == d;
    case InvalidText =>
    case NoLanguageDetected =>
    case NoKeyPhrasesDetected =>
    case CredentialsMissing =>
  }

  lemma MessageInjective(f: Failure, g: Failure)
    requires Message(f) == Message(g)
    ensures f == g
  {
    ClassifyMessage(f);
    ClassifyMessage(g);
  }

  datatype KeyPhrase = KeyPhrase(phrase: string, confidence: real)

  datatype LanguageResult =
    | Detected(language: string, confidence: real)
    | LanguageFailed(error: Failure)

  datatype KeyPhraseResult =
    | Phrases(keyPhrases: seq<KeyPhrase>)
    | PhrasesFailed(error: Failure)

  /** The keys of the dictionary app.py builds for a language result. */
  function LanguageResultKeys(r: LanguageResult): (keys: set<string>)
    ensures "error" in keys <==> r.LanguageFailed?
    ensures "language" in keys <==> "confidence" in keys
  {
    match r
    case Detected(_, _) => {"language", "confidence"}
    case LanguageFailed(_) => {"error"}
  }

  /** The keys of the dictionary app.py builds for a key-phrase result. */
  function KeyPhraseResultKeys(r: KeyPhraseResult): (keys: set<string>)
    ensures "error" in keys <==> r.PhrasesFailed?
  {
    match r
    case Phrases(_) => {"key_phrases"}
    case PhrasesFailed(_) => {"error"}
  }

  /** Every result holds exactly one of `error` or its payload, never both and never neither. */
  lemma ResultShape(l: LanguageResult, p: KeyPhraseResult)
    ensures ("error" in LanguageResultKeys(l)) != ("language" in LanguageResultKeys(l))
    ensures ("error" in KeyPhraseResultKeys(p)) != ("key_phrases" in KeyPhraseResultKeys(p))
    ensures LanguageResultKeys(l) != {} && KeyPhraseResultKeys(p) != {}
  {
  }

  /** The phrase texts of a list of key phrases, in order. */
  function PhraseTexts(kps: seq<KeyPhrase>): (texts: seq<string>)
    ensures |texts| == |kps|
    ensures forall k :: 0 <= k < |kps| ==> texts[k] == kps[k].phrase
  {
    if kps == [] then [] else [kps[0].phrase] + PhraseTexts(kps[1..])
  }

  /** `xs` is `ys` with some elements left out, the rest kept in order. */
  predicate IsSubsequence<T(==)>(xs: seq<T>, ys: seq<T>)
    decreases |ys|
  {
    if xs == [] then true
    else if ys == [] then false
    else (xs[0] == ys[0] && IsSubsequence(xs[1..], ys[1..])) || IsSubsequence(xs, ys[1..])
  }

  /** Faults the analysis service (or the client's transport) can raise. */
  datatype Fault =
    | NoCredentialsError
    | ClientError(detail: string)
    | OtherException(detail: string)

  /** What a service call produces: its reply, or the exception it raised. */
  datatype Outcome<T> = Replied(value: T) | Raised(fault: Fault)

  /** The `except` clauses of the live analyzers. */
  function FailureOf(fault: Fault): (f: Failure)
    ensures fault.NoCredentialsError? <==> f == CredentialsMissing
    ensures fault.ClientError? <==> f.AwsError?
    ensures fault.OtherException? <==> f.UnexpectedError?
    ensures f != InvalidText && f != NoLanguageDetected && f != NoKeyPhrasesDetected
  {
    match fault
    case NoCredentialsError => CredentialsMissing
    case ClientError(d) => AwsError(d)
    case OtherException(d) => UnexpectedError(d)
  }
}
