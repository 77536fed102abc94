/** The language table, the Swahili cue words and the key-phrase language allow-list. */
module Languages {

  /** `LANGUAGE_MAP`: language code to display name. */
  const LanguageMap: map<string, string> := map[
    "en" := "ENGLISH",
    "es" := "SPANISH",
    "sw" := "SWAHILI",
    "fr" := "FRENCH",
    "de" := "GERMAN",
    "it" := "ITALIAN",
    "pt" := "PORTUGUESE",
    "ja" := "JAPANESE",
    "ko" := "KOREAN",
    "hi" := "HINDI",
    "ar" := "ARABIC",
    "zh" := "CHINESE",
    "zh-TW" := "CHINESE_TAIWAN",
    "tl" := "TAGALOG",
    "unknown" := "UNKNOWN"
  ]

  /** Words whose presence marks a text as Swahili, both in the offline guesser and
      in the correction of the service's Tagalog answer. */
  const SwahiliKeywords: seq<string> := ["habari", "mambo", "napenda", "safari", "jambo"]

  /** Languages the key-phrase operation accepts. */
  const KeyPhraseLanguages: seq<string> :=
    ["en", "es", "fr", "de", "it", "pt", "ja", "ko", "hi", "ar", "zh", "zh-TW"]

  /** `LANGUAGE_MAP.get(code, LANGUAGE_MAP['unknown'])`: the code's own entry, or UNKNOWN. */
  function DisplayName(code: string): (name: string)
    ensures name in LanguageMap.Values
    ensures code in LanguageMap ==> name == LanguageMap[code]
    ensures code !in LanguageMap ==> name == "UNKNOWN"
  {
    if code in LanguageMap then LanguageMap[code] else LanguageMap["unknown"]
  }

  /** `TAGALOG` names exactly the code `tl`: each name in the table belongs to one code. */
  lemma DisplayNameTagalog(code: string)
    ensures DisplayName(code) == "TAGALOG" <==> code == "tl"
  {
  }

  /** No display name is an allowed key-phrase language code. */
  lemma DisplayNameNotKeyPhraseLanguage(code: string)
    ensures DisplayName(code) !in KeyPhraseLanguages
  {
  }

  /** The language code sent to the key-phrase operation: unsupported codes become `en`. */
  function KeyPhraseLanguage(code: string): (effective: string)
    ensures effective in KeyPhraseLanguages
    ensures code in KeyPhraseLanguages ==> effective == code
    ensures code !in KeyPhraseLanguages ==> effective == "en"
  {
    if code in KeyPhraseLanguages then code else "en"
  }
}
