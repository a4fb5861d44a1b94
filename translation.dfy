/**
 * The translation stub of the translator screen (`translateText`): a
 * three-level phrase table keyed by the normalised phrase, the source
 * language code and the target language code, with a bracketed echo of the
 * original text when the table has no entry.
 *
 * The 800 ms delay and the `isTranslating` flag are not part of this
 * function; the session class models the flag. The lookup rule is stated
 * for every table of the same shape (`TranslateWith`), and `Translate` is
 * that rule applied to the constant table of the source.
 */
module Translation {
  import opened JsText

  datatype Option<T> = None | Some(value: T)

  /** One entry of `languageNames`. */
  datatype LanguageName = LanguageName(name: string, native: string)

  /** `languageNames`: every supported code with its display name and its native-script name. */
  const LanguageNames: map<string, LanguageName> := map[
    "hi" := LanguageName("Hindi", "हिन्दी"),
    "en" := LanguageName("English", "English"),
    "bn" := LanguageName("Bengali", "বাংলা"),
    "te" := LanguageName("Telugu", "తెలుగు"),
    "mr" := LanguageName("Marathi", "मराठी"),
    "ta" := LanguageName("Tamil", "தமிழ்"),
    "gu" := LanguageName("Gujarati", "ગુજરાતી"),
    "kn" := LanguageName("Kannada", "ಕನ್ನಡ"),
    "ml" := LanguageName("Malayalam", "മലയാളം"),
    "pa" := LanguageName("Punjabi", "ਪੰਜਾਬੀ"),
    "or" := LanguageName("Odia", "ଓଡ଼ିଆ"),
    "as" := LanguageName("Assamese", "অসমীয়া")
  ]

  /** A canned translation: never empty (so `translation || ...` keeps it) and never opening
      with '[', so it cannot be mistaken for the echo. Every entry of the constant table is one. */
  type Canned = s: string | s != [] && s[0] != '[' witness "?"

  /** One phrase's row, source code to target code to translation. The only sources are "en" and "hi". */
  type Row = row: map<string, map<string, Canned>> | row.Keys <= {"en", "hi"} witness map[]

  /** A phrase table: normalised phrase to row. */
  type PhraseTable = map<string, Row>

  // The rows of `mockTranslations`, each split into its English-source and its Hindi-source
  // part so that each part is checked against `Canned` on its own.
  const HelloFromEnglish: map<string, Canned> := map["hi" := "नमस्ते", "bn" := "হ্যালো", "ta" := "வணக்கம்", "te" := "హలో"]
  const HelloFromHindi: map<string, Canned> := map["en" := "Hello", "bn" := "হ্যালো", "ta" := "வணக்கம்", "te" := "హలో"]
  const HelloRow: Row := map["en" := HelloFromEnglish, "hi" := HelloFromHindi]

  const HowAreYouFromEnglish: map<string, Canned> := map["hi" := "आप कैसे हैं?", "bn" := "আপনি কেমন আছেন?", "ta" := "நீங்கள் எப்படி இருக்கிறீர்கள்?", "te" := "మీరు ఎలా ఉన్నారు?"]
  const HowAreYouFromHindi: map<string, Canned> := map["en" := "How are you?", "bn" := "আপনি কেমন আছেন?", "ta" := "நீங்கள் எப்படி இருக்கிறீர்கள்?", "te" := "మీరు ఎలా ఉన్నారు?"]
  const HowAreYouRow: Row := map["en" := HowAreYouFromEnglish, "hi" := HowAreYouFromHindi]

  const ThankYouFromEnglish: map<string, Canned> := map["hi" := "धन्यवाद", "bn" := "ধন্যবাদ", "ta" := "நன்றி", "te" := "ధన్యవాదాలు"]
  const ThankYouFromHindi: map<string, Canned> := map["en" := "Thank you", "bn" := "ধন্যবাদ", "ta" := "நன்றி", "te" := "ధన్యవాదాలు"]
  const ThankYouRow: Row := map["en" := ThankYouFromEnglish, "hi" := ThankYouFromHindi]

  const GoodbyeFromEnglish: map<string, Canned> := map["hi" := "अलविदा", "bn" := "বিদায়", "ta" := "பிரியாவிடை", "te" := "వీడ్కోలు"]
  const GoodbyeFromHindi: map<string, Canned> := map["en" := "Goodbye", "bn" := "বিদায়", "ta" := "பிரியாவிடை", "te" := "వీడ్కోలు"]
  const GoodbyeRow: Row := map["en" := GoodbyeFromEnglish, "hi" := GoodbyeFromHindi]

  const YesFromEnglish: map<string, Canned> := map["hi" := "हाँ", "bn" := "হ্যাঁ", "ta" := "ஆம்", "te" := "అవును"]
  const YesFromHindi: map<string, Canned> := map["en" := "Yes", "bn" := "হ্যাঁ", "ta" := "ஆம்", "te" := "అవును"]
  const YesRow: Row := map["en" := YesFromEnglish, "hi" := YesFromHindi]

  const NoFromEnglish: map<string, Canned> := map["hi" := "नहीं", "bn" := "না", "ta" := "இல்லை", "te" := "కాదు"]
  const NoFromHindi: map<string, Canned> := map["en" := "No", "bn" := "না", "ta" := "இல்லை", "te" := "కాదు"]
  const NoRow: Row := map["en" := NoFromEnglish, "hi" := NoFromHindi]

  const WhatIsYourNameFromEnglish: map<string, Canned> := map["hi" := "आपका नाम क्या है?", "bn" := "তোমার নাম কী?", "ta" := "உங்கள் பெயர் என்ன?", "te" := "మీ పేరు ఏమిటి?"]
  const WhatIsYourNameFromHindi: map<string, Canned> := map["en" := "What is your name?", "bn" := "তোমার নাম কী?", "ta" := "உங்கள் பெயர் என்ன?", "te" := "మీ పేరు ఏమిటి?"]
  const WhatIsYourNameRow: Row := map["en" := WhatIsYourNameFromEnglish, "hi" := WhatIsYourNameFromHindi]

  const IAmFineFromEnglish: map<string, Canned> := map["hi" := "मैं ठीक हूँ", "bn" := "আমি ভাল আছি", "ta" := "நான் நலமாக இருக்கிறேன்", "te" := "నేను బాగున్నాను"]
  const IAmFineFromHindi: map<string, Canned> := map["en" := "I am fine", "bn" := "আমি ভাল আছি", "ta" := "நான் நலமாக இருக்கிறேன்", "te" := "నేను బాగున్నాను"]
  const IAmFineRow: Row := map["en" := IAmFineFromEnglish, "hi" := IAmFineFromHindi]

  const ILoveYouFromEnglish: map<string, Canned> := map["hi" := "मैं तुमसे प्यार करता हूँ", "bn" := "আমি তোমায় ভালোবাসি", "ta" := "நான் உன்னை காதலிக்கிறேன்", "te" := "నేను నిన్ను ప్రేమిస్తున్నాను"]
  const ILoveYouFromHindi: map<string, Canned> := map["en" := "I love you", "bn" := "আমি তোমায় ভালোবাসি", "ta" := "நான் உன்னை காதலிக்கிறேன்", "te" := "నేను నిన్ను ప్రేమిస్తున్నాను"]
  const ILoveYouRow: Row := map["en" := ILoveYouFromEnglish, "hi" := ILoveYouFromHindi]

  const SorryFromEnglish: map<string, Canned> := map["hi" := "माफ़ कीजिए", "bn" := "দুঃখিত", "ta" := "மன்னிக்கவும்", "te" := "క్షమించండి"]
  const SorryFromHindi: map<string, Canned> := map["en" := "Sorry", "bn" := "দুঃখিত", "ta" := "மன்னிக்கவும்", "te" := "క్షమించండి"]
  const SorryRow: Row := map["en" := SorryFromEnglish, "hi" := SorryFromHindi]

  const PleaseFromEnglish: map<string, Canned> := map["hi" := "कृपया", "bn" := "অনুগ্রহ করে", "ta" := "தயவு செய்து", "te" := "దయచేసి"]
  const PleaseFromHindi: map<string, Canned> := map["en" := "Please", "bn" := "অনুগ্রহ করে", "ta" := "தயவு செய்து", "te" := "దయచేసి"]
  const PleaseRow: Row := map["en" := PleaseFromEnglish, "hi" := PleaseFromHindi]

  // `mockTranslations` is one object literal; here its eleven phrases are grouped in four
  // parts, so that each part is checked against the table's type on its own.
  const Greetings: PhraseTable := map["hello" := HelloRow, "how are you" := HowAreYouRow, "goodbye" := GoodbyeRow]
  const Courtesies: PhraseTable := map["thank you" := ThankYouRow, "sorry" := SorryRow, "please" := PleaseRow]
  const Answers: PhraseTable := map["yes" := YesRow, "no" := NoRow, "i am fine" := IAmFineRow]
  const Personal: PhraseTable := map["what is your name" := WhatIsYourNameRow, "i love you" := ILoveYouRow]

  /** `mockTranslations`. */
  const MockTranslations: PhraseTable := Greetings + Courtesies + Answers + Personal

  /** `languageNames[code]?.name`: the display name of a supported code, and None (JavaScript's `undefined`) otherwise. */
  function NameOf(code: string): (r: Option<string>)
    ensures r.Some? <==> code in LanguageNames
    ensures r.Some? ==> r.value == LanguageNames[code].name
  {
    if code in LanguageNames then Some(LanguageNames[code].name) else None
  }

  /** What a template literal prints for an optional name: the name itself, or the word `undefined`. */
  function NameText(n: Option<string>): string {
    match n
    case Some(name) => name
    case None => "undefined"
  }

  /** `table[phrase]?.[from]?.[to]`: the entry, or None as soon as one level is missing. */
  function Lookup(table: PhraseTable, phrase: string, from: string, to: string): (r: Option<string>)
    ensures r.Some? <==> phrase in table && from in table[phrase] && to in table[phrase][from]
    ensures r.Some? ==> r.value == table[phrase][from][to]
  {
    if phrase !in table then None
    else if from !in table[phrase] then None
    else if to !in table[phrase][from] then None
    else Some(table[phrase][from][to])
  }

  /** The echo produced on a miss: `[<target name>: <original text>]`. */
  function Fallback(text: string, to: string): (r: string)
    ensures |r| >= |text| + 4 && r[0] == '[' && r[|r| - 1] == ']'
    ensures r[1..|r| - 1 - |text|] == NameText(NameOf(to)) + ": "
    ensures r[|r| - 1 - |text|..|r| - 1] == text
  {
    "[" + NameText(NameOf(to)) + ": " + text + "]"
  }

  /** The table has an entry for the normalised text and this pair of languages. */
  predicate HitIn(table: PhraseTable, text: string, from: string, to: string) {
    var key := Normalize(text);
    key in table && from in table[key] && to in table[key][from]
  }

  /** The lookup-or-echo rule of `translateText`: `translation || `[${name}: ${text}]``. The result is
      the table's entry for the normalised text on a hit, the echo of the original text on a miss,
      and never empty. */
  function TranslateWith(table: PhraseTable, text: string, from: string, to: string): (r: string)
    ensures r != []
    ensures HitIn(table, text, from, to) ==> r == table[Normalize(text)][from][to]
    ensures !HitIn(table, text, from, to) ==> r == "[" + NameText(NameOf(to)) + ": " + text + "]"
  {
    match Lookup(table, Normalize(text), from, to)
    case Some(translation) => if translation != "" then translation else Fallback(text, to)
    case None => Fallback(text, to)
  }

  /** `translateText(text, fromLang, toLang)` without its delay. */
  function Translate(text: string, from: string, to: string): (r: string)
    ensures r != []
  {
    TranslateWith(MockTranslations, text, from, to)
  }

  /** A translation and an echo can be told apart: the result opens with '[' exactly on a miss. */
  lemma EchoIffMiss(table: PhraseTable, text: string, from: string, to: string)
    ensures TranslateWith(table, text, from, to)[0] == '[' <==> !HitIn(table, text, from, to)
  {
  }

  /** Only "en" and "hi" are sources in the table: any other source code is always echoed. */
  lemma UnsupportedSourceMisses(table: PhraseTable, text: string, from: string, to: string)
    requires from != "en" && from != "hi"
    ensures !HitIn(table, text, from, to)
    ensures TranslateWith(table, text, from, to) == Fallback(text, to)
  {
  }

  /** On a miss the echo carries the original text, untouched by the normalisation, between
      the target's display name and the closing bracket. */
  lemma EchoKeepsOriginal(table: PhraseTable, text: string, from: string, to: string)
    requires !HitIn(table, text, from, to)
    ensures var r := TranslateWith(table, text, from, to);
      r == Fallback(text, to) && r[|r| - 1 - |text|..|r| - 1] == text
  {
  }

  /** A target code that `languageNames` does not know is printed as `undefined` in the echo. */
  lemma UnknownTargetPrintsUndefined(table: PhraseTable, text: string, from: string, to: string)
    requires !HitIn(table, text, from, to) && to !in LanguageNames
    ensures TranslateWith(table, text, from, to) == "[undefined: " + text + "]"
  {
    assert NameText(NameOf(to)) == "undefined";
    assert "[" + "undefined" + ": " == "[undefined: ";
  }

  /** The lookup ignores letter case and surrounding whitespace: a variant of `s` with other
      capitals and any padding hits exactly when `s` does, and then gets the same translation. */
  lemma CaseAndPaddingInsensitive(table: PhraseTable, pre: string, s: string, t: string, post: string, from: string, to: string)
    requires IsBlank(pre) && IsBlank(post)
    requires ToLower(s) == ToLower(t)
    ensures HitIn(table, pre + t + post, from, to) <==> HitIn(table, s, from, to)
    ensures HitIn(table, s, from, to) ==> TranslateWith(table, pre + t + post, from, to) == TranslateWith(table, s, from, to)
  {
    NormalizeIgnoresCaseAndPadding(pre, s, t, post);
  }

  /** A phrase that is none of a part's phrases is not in that part. */
  lemma NotAGreeting(k: string)
    requires k != "hello" && k != "how are you" && k != "goodbye"
    ensures k !in Greetings
  {
  }

  lemma NotACourtesy(k: string)
    requires k != "thank you" && k != "sorry" && k != "please"
    ensures k !in Courtesies
  {
  }

  lemma NotAnAnswer(k: string)
    requires k != "yes" && k != "no" && k != "i am fine"
    ensures k !in Answers
  {
  }

  lemma NotPersonal(k: string)
    requires k != "what is your name" && k != "i love you"
    ensures k !in Personal
  {
  }

  /** A phrase of the first part only has that part's row in the joined table. */
  lemma OnlyInFirst(a: PhraseTable, b: PhraseTable, c: PhraseTable, d: PhraseTable, k: string)
    requires k in a && k !in b && k !in c && k !in d
    ensures k in a + b + c + d && (a + b + c + d)[k] == a[k]
  {
  }

  /** "hello" is a greeting, with its row. */
  lemma HelloIsAGreeting()
    ensures "hello" in Greetings && Greetings["hello"] == HelloRow
  {
  }

  /** "hello" is in no other part of the table. */
  lemma HelloIsOnlyAGreeting()
    ensures "hello" !in Courtesies && "hello" !in Answers && "hello" !in Personal
  {
    NotACourtesy("hello");
    NotAnAnswer("hello");
    NotPersonal("hello");
  }

  /** "hello" is a phrase of the table, with the greetings' row. */
  lemma HelloPhrase()
    ensures "hello" in MockTranslations && MockTranslations["hello"] == HelloRow
  {
    HelloIsAGreeting();
    HelloIsOnlyAGreeting();
    OnlyInFirst(Greetings, Courtesies, Answers, Personal, "hello");
  }

  /** "xyz unknown phrase" is not a phrase of the table: it is in none of its parts. */
  lemma UnknownPhraseMissing()
    ensures "xyz unknown phrase" !in MockTranslations
  {
    var text := "xyz unknown phrase";
    NotAGreeting(text);
    NotACourtesy(text);
    NotAnAnswer(text);
    NotPersonal(text);
  }

  /** Every phrase of `table` is already in the form `translateText` looks up. */
  predicate OwnKeys(table: PhraseTable) {
    forall k :: k in table ==> Normalize(k) == k
  }

  lemma OwnKeysUnion(a: PhraseTable, b: PhraseTable)
    requires OwnKeys(a) && OwnKeys(b)
    ensures OwnKeys(a + b)
  {
  }

  // Each phrase is its own key, one phrase per lemma: the solver handles one literal at a time.
  lemma HowAreYouKey()
    ensures Normalize("how are you") == "how are you"
  {
    NormalizeKeepsKey("how are you");
  }

  lemma GoodbyeKey()
    ensures Normalize("goodbye") == "goodbye"
  {
    NormalizeKeepsKey("goodbye");
  }

  lemma ThankYouKey()
    ensures Normalize("thank you") == "thank you"
  {
    NormalizeKeepsKey("thank you");
  }

  lemma SorryKey()
    ensures Normalize("sorry") == "sorry"
  {
    NormalizeKeepsKey("sorry");
  }

  lemma PleaseKey()
    ensures Normalize("please") == "please"
  {
    NormalizeKeepsKey("please");
  }

  lemma YesKey()
    ensures Normalize("yes") == "yes"
  {
    NormalizeKeepsKey("yes");
  }

  lemma NoKey()
    ensures Normalize("no") == "no"
  {
    NormalizeKeepsKey("no");
  }

  lemma IAmFineKey()
    ensures Normalize("i am fine") == "i am fine"
  {
    NormalizeKeepsKey("i am fine");
  }

  lemma WhatIsYourNameKey()
    ensures Normalize("what is your name") == "what is your name"
  {
    NormalizeKeepsKey("what is your name");
  }

  lemma ILoveYouKey()
    ensures Normalize("i love you") == "i love you"
  {
    NormalizeKeepsKey("i love you");
  }

  /** A part whose phrases are all their own keys. */
  lemma PartOwnKeys(t: PhraseTable, keys: set<string>)
    requires t.Keys == keys && forall k :: k in keys ==> Normalize(k) == k
    ensures OwnKeys(t)
  {
  }

  lemma GreetingPhrases()
    ensures Greetings.Keys == {"hello", "how are you", "goodbye"}
  {
  }

  lemma GreetingPhrasesAreKeys()
    ensures forall k :: k in {"hello", "how are you", "goodbye"} ==> Normalize(k) == k
  {
    HelloKey();
    HowAreYouKey();
    GoodbyeKey();
  }

  lemma GreetingsAreKeys()
    ensures OwnKeys(Greetings)
  {
    GreetingPhrases();
    GreetingPhrasesAreKeys();
    PartOwnKeys(Greetings, {"hello", "how are you", "goodbye"});
  }

  lemma CourtesyPhrases()
    ensures Courtesies.Keys == {"thank you", "sorry", "please"}
  {
  }

  lemma CourtesyPhrasesAreKeys()
    ensures forall k :: k in {"thank you", "sorry", "please"} ==> Normalize(k) == k
  {
    ThankYouKey();
    SorryKey();
    PleaseKey();
  }

  lemma CourtesiesAreKeys()
    ensures OwnKeys(Courtesies)
  {
    CourtesyPhrases();
    CourtesyPhrasesAreKeys();
    PartOwnKeys(Courtesies, {"thank you", "sorry", "please"});
  }

  lemma AnswerPhrases()
    ensures Answers.Keys == {"yes", "no", "i am fine"}
  {
  }

  lemma AnswerPhrasesAreKeys()
    ensures forall k :: k in {"yes", "no", "i am fine"} ==> Normalize(k) == k
  {
    YesKey();
    NoKey();
    IAmFineKey();
  }

  lemma AnswersAreKeys()
    ensures OwnKeys(Answers)
  {
    AnswerPhrases();
    AnswerPhrasesAreKeys();
    PartOwnKeys(Answers, {"yes", "no", "i am fine"});
  }

  lemma PersonalPhrases()
    ensures Personal.Keys == {"what is your name", "i love you"}
  {
  }

  lemma PersonalPhrasesAreKeys()
    ensures forall k :: k in {"what is your name", "i love you"} ==> Normalize(k) == k
  {
    WhatIsYourNameKey();
    ILoveYouKey();
  }

  lemma PersonalAreKeys()
    ensures OwnKeys(Personal)
  {
    PersonalPhrases();
    PersonalPhrasesAreKeys();
    PartOwnKeys(Personal, {"what is your name", "i love you"});
  }

  /** Each of the eleven phrases of `mockTranslations` is its own lookup key. */
  lemma PhrasesAreKeys()
    ensures forall k :: k in MockTranslations ==> Normalize(k) == k
  {
    GreetingsAreKeys();
    CourtesiesAreKeys();
    AnswersAreKeys();
    PersonalAreKeys();
    OwnKeysUnion(Greetings, Courtesies);
    OwnKeysUnion(Greetings + Courtesies, Answers);
    OwnKeysUnion(Greetings + Courtesies + Answers, Personal);
  }

  /** Typing a phrase of the table exactly as it is listed yields the table's cell, for every
      phrase and every pair of languages it has a cell for. */
  lemma EveryCellReachable(k: string, from: string, to: string)
    requires k in MockTranslations && from in MockTranslations[k] && to in MockTranslations[k][from]
    ensures Translate(k, from, to) == MockTranslations[k][from][to]
  {
    PhrasesAreKeys();
  }

  /** The greeting's cell from English into Hindi. */
  lemma HelloIntoHindiCell()
    ensures "en" in HelloRow && "hi" in HelloRow["en"] && HelloRow["en"]["hi"] == "नमस्ते"
  {
    assert HelloRow["en"] == HelloFromEnglish;
  }

  /** The echo of the unknown phrase into Hindi, spelled out. */
  lemma UnknownPhraseEchoText()
    ensures "[" + "Hindi" + ": " + "xyz unknown phrase" + "]" == "[Hindi: xyz unknown phrase]"
  {
  }

  /** The table's entry for "hello" from English into Hindi. */
  lemma HelloEntry()
    ensures Lookup(MockTranslations, "hello", "en", "hi") == Some("नमस्ते")
  {
    HelloPhrase();
    HelloIntoHindiCell();
  }

  /** Hindi's display name. */
  lemma HindiName()
    ensures NameOf("hi") == Some("Hindi")
  {
    assert "hi" in LanguageNames && LanguageNames["hi"].name == "Hindi";
  }

  /** "hello", "Hello " and "HELLO" from English into Hindi all give the canned greeting. */
  lemma HelloIntoHindi()
    ensures Translate("hello", "en", "hi") == "नमस्ते"
    ensures Translate("Hello ", "en", "hi") == "नमस्ते"
    ensures Translate("HELLO", "en", "hi") == "नमस्ते"
  {
    HelloKey();
    PaddedHelloKey();
    CapitalHelloKey();
    HelloEntry();
  }

  /** A phrase the table does not know is echoed with the target's display name. */
  lemma UnknownPhraseIntoHindi()
    ensures Translate("xyz unknown phrase", "en", "hi") == "[Hindi: xyz unknown phrase]"
  {
    UnknownPhraseKey();
    UnknownPhraseMissing();
    HindiName();
    assert NameText(NameOf("hi")) == "Hindi";
    UnknownPhraseEchoText();
  }
}
