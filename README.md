# Comprehend NLP Analyzer: the decision logic, in Dafny

app.py is a Streamlit page. It sends a text to Amazon Comprehend for dominant-language
detection and key-phrase extraction. When no AWS credentials are configured it falls
back to two offline heuristics. This project models the part of app.py that decides
things:

- the language table `LANGUAGE_MAP`;
- the offline analyzers `mock_detect_language` and `mock_extract_key_phrases`;
- the live adapters `detect_language` and `extract_key_phrases`;
- the `if analyze:` block that ties them together.

Everything is modelled as pure functions. The service is a parameter: a function from
a request to the reply or to the exception it raised. So the model can state which
request each adapter makes, and that rejected text never reaches the service.

Modules, leaf first:

- `Wrappers`: `Option`.
- `Utf8`: `len(text.encode('utf-8'))` as `ByteLength`, together with the encoder it
  measures and a strict decoder. Their round trip is proved.
- `Text`: `str.isspace`, `strip`, `lower` and the substring test `word in text`.
- `Pattern`: `re.findall(r'\b[A-Z][a-z]*\b|\b[a-z]+(?:\s+[a-z]+)*\b', text)`. It is
  modelled with Python's leftmost, backtracking semantics; the module comment explains
  why the only backtracking choice left is the number of `\s+[a-z]+` groups.
- `Host`: the Python runtime facts that stay uninterpreted: `lower()` of non-ASCII
  characters, `isalnum()` of non-ASCII characters, and `round(x, 4)`.
- `Languages`: the table, the Swahili keywords and the 12-code key-phrase allow-list.
- `Results`: result values, error categories and their messages, service faults.
- `MockAnalyzer`, `LiveAnalyzer`, `Dispatcher`: the four analyzers and the flow.

A result is a sum type here: a payload or an error, never both. `LanguageResultKeys`
and `KeyPhraseResultKeys` give back the keys of the dictionary app.py builds. Running
an analyzer twice on the same input and the same service gives the same result,
because every member is a function.

Two consequences of the code that are easy to miss:

- app.py:258 passes the key-phrase stage the detected language's display name
  (`'ENGLISH'`, ...), or `'en'` when detection failed. No display name is an allowed
  key-phrase code, so the live key-phrase call is always made in English
  (`Dispatcher.AnalyzeStages`).
- A text containing "jambo" is guessed as Swahili only when no English or Spanish cue
  occurs (app.py:31-36). The English cue `is` is a plain substring test, so "Kiswahili"
  is guessed as English (`MockAnalyzer.KiswahiliReadsAsEnglish`).

## Model

| member | source | states |
|---|---|---|
| `Utf8.ByteLength` | app.py:28 | `len(text.encode('utf-8'))`: definition, no contract; `Utf8.Encode` and `Utf8.ByteLengthBounds` state what it measures |
| `Utf8.Encode` | app.py:28 | the encoding has exactly `ByteLength(s)` bytes, the length the size check compares with 5000 |
| `Utf8.DecodeEncode` | app.py:28 | strict UTF-8 decoding of the encoding gives back the text, so `ByteLength` is the length of a genuine UTF-8 encoding |
| `Utf8.ByteLengthBounds` | app.py:28 | a text of n characters takes between n and 4n bytes, exactly n when all of it is ASCII |
| `Text.IsSpace` | app.py:234 | Definition with no contract: `str.isspace()` for one character, CPython's whitespace set, which is also the regex class `\s` at app.py:44. |
| `Text.SpaceRunEnd` | app.py:234 | the index where the run of whitespace starting at a position ends: everything before it is whitespace, the character at it is not |
| `Text.SpaceRunStart` | app.py:234 | the index where the run of whitespace ending at a position starts: everything after it is whitespace, the character before it is not |
| `Text.StripLeading` | app.py:234 | `lstrip()`: removes only leading whitespace, a prefix of whitespace characters; what is left does not start with whitespace, and is empty exactly for whitespace-only text |
| `Text.StripTrailing` | app.py:234 | `rstrip()`: removes only trailing whitespace, a suffix of whitespace characters; what is left does not end with whitespace, and is empty exactly for whitespace-only text |
| `Text.Strip` | app.py:234 | `text.strip()`: the slice of the text that starts where its leading whitespace ends and is followed only by whitespace; it is empty or starts and ends with a non-whitespace character |
| `Text.StripComposes` | app.py:234 | `strip()` is `rstrip()` applied to the result of `lstrip()` |
| `Text.StripEmptyIffBlank` | app.py:234 | `not text.strip()` holds exactly when every character is Python whitespace |
| `Text.Contains` | app.py:31 | `word in text`: definition, no contract; `Text.ContainsIff` states its meaning |
| `Text.ContainsIff` | app.py:31 | the substring test `word in text` holds exactly when the word occurs at some index of the text |
| `Text.Lower` | app.py:30 | Definition with no contract: `text.lower()` applied one character at a time (its ASCII behaviour is stated by `Text.LowerAscii`). |
| `Text.AnyIn` | app.py:31 | Definition with no contract: `any(word in text for word in words)`, as used at app.py lines 31, 33, 35 and 63. |
| `Text.LowerAscii` | app.py:30 | on ASCII text `lower()` works character by character, keeps the length and leaves no capital |
| `Pattern.IsWordChar` | app.py:44 | Definition with no contract: the regex class `\w`, an ASCII letter, digit or `_`, or a non-ASCII character the runtime calls alphanumeric. |
| `Pattern.Boundary` | app.py:44 | Definition with no contract: `\b`, a position with a word character on exactly one side. |
| `Pattern.MatchAt` | app.py:44 | the end of the match starting at one index, if any: the match is non-empty, stays in the text and starts with an ASCII letter |
| `Pattern.Scan` | app.py:44 | every match of the scan is non-empty, starts with an ASCII letter, and occurs in the text |
| `Pattern.FindAll` | app.py:44 | every `re.findall` candidate is a non-empty substring of the text that starts with an ASCII letter |
| `Pattern.FindAllExample` | app.py:44 | "Hello big world" gives the candidates "Hello" and "big world" |
| `Pattern.FindAllBacktrackExample` | app.py:44 | "ab cdE" gives only "ab": a run of lower-case words is cut back to its last end that is a word boundary |
| `Languages.DisplayName` | app.py:66 | a mapped code gives its own table entry, an unmapped code gives UNKNOWN, so the name is always an entry of the table |
| `Languages.DisplayNameTagalog` | app.py:21 | the name TAGALOG comes from the code `tl` and no other |
| `Languages.DisplayNameNotKeyPhraseLanguage` | app.py:7-23 | no display name is among the 12 allowed key-phrase codes |
| `Languages.KeyPhraseLanguage` | app.py:81-83 | the code sent is always allowed; an allowed code is kept and any other code becomes `en` |
| `Results.ValidText` | app.py:28 | `not (not text or len(text.encode('utf-8')) > 5000)`, the guard repeated at app.py lines 42, 53 and 79: definition, no contract |
| `Results.Message` | app.py:67-73 | the error strings, also returned at app.py lines 29, 46 and 89: definition, no contract; `Results.ClassifyMessage` states that each one identifies its error |
| `Results.FailureOf` | app.py:68-73 | NoCredentialsError gives the credentials error, ClientError gives "AWS error", any other exception gives "Error"; none gives a validation or empty-reply error |
| `Results.ClassifyMessage` | app.py:67-73 | a fact about the table of error strings, not a step app.py performs: reading the category back from a message gives the error again |
| `Results.MessageInjective` | app.py:67-73 | a fact about the table of error strings: two errors with the same message are the same error |
| `Results.LanguageResultKeys` | app.py:32-38 | a language dictionary has `error` exactly when detection failed, and `language` together with `confidence`; this holds by construction of the sum type |
| `Results.KeyPhraseResultKeys` | app.py:46 | a key-phrase dictionary has `error` exactly when extraction failed; this holds by construction of the sum type |
| `Results.ResultShape` | app.py:26-95 | every result holds exactly one of `error` or its payload, never both and never neither; this holds by construction of the sum type |
| `MockAnalyzer.AnyInIff` | app.py:31-35 | `any(word in text for word in words)` holds exactly when some cue word occurs at some index |
| `MockAnalyzer.DetectLanguage` | app.py:26-38 | it fails exactly for empty or oversized text, and then only with the validation error; otherwise the name is from the table |
| `MockAnalyzer.DetectLanguagePriority` | app.py:30-38 | ENGLISH at 0.95 exactly when an English cue occurs; SPANISH at 0.90 exactly when a Spanish cue occurs and no English one; SWAHILI at 0.90 exactly when only Swahili cues occur; UNKNOWN at 0.80 exactly when none occurs |
| `MockAnalyzer.SpanishWithoutEnglish` | app.py:33-34 | "hola" with no English cue gives SPANISH at 0.90 |
| `MockAnalyzer.KiswahiliReadsAsEnglish` | app.py:31-32 | "Kiswahili" is guessed as ENGLISH at 0.95, because it contains "is" |
| `MockAnalyzer.LongCount` | app.py:45 | the number of candidates longer than 2 characters, at most the number of candidates |
| `MockAnalyzer.KeepLong` | app.py:45 | kept phrases are longer than 2 characters and carry 0.85; they form an order-preserving subsequence of the candidates, and there are as many as there are candidates longer than 2, so every such candidate is kept; none is kept exactly when no candidate is longer than 2 |
| `MockAnalyzer.FirstThree` | app.py:45 | `phrases[:3]`: a prefix of at most three candidates, all of them when there are fewer |
| `MockAnalyzer.ExtractKeyPhrases` | app.py:40-46 | the validation error exactly for empty or oversized text; otherwise 1 to 3 phrases, each longer than 2 characters, at 0.85, and each a substring of the text; or "No key phrases detected." |
| `MockAnalyzer.ExtractKeyPhrasesSelection` | app.py:44-46 | the phrases are an order-preserving subsequence of the first three candidates, as many as those three hold candidates longer than 2; the result is "No key phrases detected." exactly when none of those three is longer than 2 |
| `LiveAnalyzer.CorrectsToSwahili` | app.py:63 | the correction condition: the code is `tl` and a Swahili keyword occurs in the lowered text; definition, no contract |
| `LiveAnalyzer.FromTopEntry` | app.py:57-66 | for `tl` with a Swahili keyword: SWAHILI with confidence min(rounded score, 0.90), so at most 0.90 and at most the rounded score; otherwise the table name of the code with the rounded score |
| `LiveAnalyzer.DetectLanguage` | app.py:49-73 | the validation error exactly for empty or oversized text; a detected language is always a name from the table |
| `LiveAnalyzer.DetectLanguageValidatesFirst` | app.py:53-55 | for rejected text the result is the validation error whatever the service would have answered |
| `LiveAnalyzer.DetectLanguageErrors` | app.py:55-73 | each raised fault maps to its error; an empty `Languages` list gives "No language detected."; a non-empty list gives the result `FromTopEntry` makes of its first entry; a language is detected exactly when the reply is non-empty |
| `LiveAnalyzer.DetectLanguageUsesTopEntry` | app.py:56-59 | two replies with the same first entry give the same result |
| `LiveAnalyzer.SafariCorrectsTagalog` | app.py:60-65 | a Tagalog answer on a text containing "safari" gives SWAHILI with confidence at most 0.90 |
| `LiveAnalyzer.NoTagalogWithSwahiliKeyword` | app.py:63-66 | when a Swahili keyword occurs, the result is never TAGALOG |
| `LiveAnalyzer.ToKeyPhrases` | app.py:85-88 | one phrase per reply entry, in order, with the entry's text and its rounded score |
| `LiveAnalyzer.ExtractKeyPhrases` | app.py:75-95 | the validation error exactly for empty or oversized text; a successful result is never empty |
| `LiveAnalyzer.ExtractKeyPhrasesValidatesFirst` | app.py:79-84 | for rejected text the result is the validation error whatever the service would have answered |
| `LiveAnalyzer.ExtractKeyPhrasesRequest` | app.py:81-84 | the only request made is (text, allowed code): services that agree on it give the same result |
| `LiveAnalyzer.UnsupportedCodeIsEnglish` | app.py:82-83 | an unsupported code behaves exactly like `en` |
| `LiveAnalyzer.ExtractKeyPhrasesReply` | app.py:84-95 | each raised fault maps to its error; an empty reply gives "No key phrases detected."; otherwise the phrases keep the reply's order, number and texts, with rounded scores |
| `Dispatcher.LanguageArgument` | app.py:258 | `lang_result.get('language', 'en')`: the detected name, or `en` after a failed detection |
| `Dispatcher.Analyze` | app.py:233-258 | only a warning exactly for whitespace-only input; otherwise the offline fallback is used exactly when the probe raised NoCredentialsError |
| `Dispatcher.LanguageArgumentIsEnglish` | app.py:258 | whatever detection returned, the argument passed to the live key-phrase stage becomes `en` |
| `Dispatcher.AnalyzeStages` | app.py:239-258 | for nonblank text both stages always run on the chosen path; on the live path key phrases are extracted with `en` whatever was detected |
| `Dispatcher.LiveKeyPhrasesAskForEnglish` | app.py:258 | on the live path the key-phrase service is consulted only for (text, `en`) |
| `Dispatcher.MockPathIgnoresServices` | app.py:242-258 | without credentials the report does not depend on either service |
| `Dispatcher.NonBlankRejectedOnlyWhenOversized` | app.py:234-258 | after the blank check, a stage reports the validation error exactly when the text exceeds 5000 UTF-8 bytes |

## Left out

- Streamlit rendering, CSS, the sidebar and the reset button (app.py:98-231, 248-256, 259-281). A report is handed on as a value. The credentials warning is the `mockFallback` flag.
- Network calls (app.py:52, 55, 78, 84, 240) are not modelled as transport. Each is an input: a service function, or the `Probe` outcome.
- Constructing the boto3 client is assumed never to raise.
- An exception other than NoCredentialsError raised by the probe at app.py:240 is not caught by the source. It stops the page, so the model does not cover it.
- `round(score, 4)` and floating point: scores and confidences are reals, and rounding is the uninterpreted `Host.Runtime.round4`. The constants 0.95, 0.90, 0.85 and 0.80 are exact reals.
- Lower: CPython lowers a capital sigma (U+03A3) by its context (final sigma), which the per-character `Text.Lower` does not express; the rule touches only non-ASCII characters, so no test for an ASCII cue word depends on it.
- Python's character tables are uninterpreted for non-ASCII characters: `lower()` (`Host.Runtime.lowerNonAscii`) and `isalnum()` inside the regex class `\w` (`Host.Runtime.isNonAsciiAlnum`). ASCII behaviour and the whitespace set are exact.
- A Python string can hold a lone surrogate, which makes `encode('utf-8')` raise. A Dafny string cannot hold one.
- Exception text: `f"{e}"` is not formatted. The `detail` string of a fault stands for it.
- A malformed service response (for example, a missing `Languages` key) raises inside the `try` block. It is modelled as the `OtherException` fault it becomes.
- `mock_extract_key_phrases` has a `language_code` parameter that it never uses, and the dispatcher never passes it. The model omits it.
