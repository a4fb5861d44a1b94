/**
 * The state of the translator screen and the handlers that change it.
 *
 * Two people share one device: speaker A talks in `userALang`, speaker B in
 * `userBLang`. The screen keeps the conversation log, the live transcript
 * and three busy flags, and reacts to the recogniser's events, to the
 * buttons that start and stop listening and to the clear button. Every
 * React state variable of the screen except `audioEnabled` (the playback
 * toggle, which is not modelled) is a field here; a `set...` call is an
 * assignment to that field.
 */
module TranslatorSession {
  import opened JsText
  import opened Translation
  import opened Recognition

  datatype Speaker = A | B

  /** The other participant. */
  function Other(s: Speaker): (r: Speaker)
    ensures r != s
  {
    if s == A then B else A
  }

  /** One entry of the conversation log. `timestamp` is the caller's clock reading. */
  datatype Message = Message(
    id: string,
    speaker: Speaker,
    originalText: string,
    translatedText: string,
    timestamp: int,
    fromLang: string,
    toLang: string)

  /** A translation function: text, source language code, target language code to translated text. */
  type Translator = (string, string, string) -> string

  /** The language a speaker talks in, given the two participants' languages. */
  function LangOf(s: Speaker, aLang: string, bLang: string): (r: string)
    ensures s == A ==> r == aLang
    ensures s == B ==> r == bLang
  {
    if s == A then aLang else bLang
  }

  /** A log entry as the recording handler builds it: spoken text that is not blank, translated
      from its speaker's language into the other participant's, with the translation stub's answer. */
  ghost predicate WellFormed(m: Message, aLang: string, bLang: string, translate: Translator) {
    !IsBlank(m.originalText)
    && m.fromLang == LangOf(m.speaker, aLang, bLang)
    && m.toLang == LangOf(Other(m.speaker), aLang, bLang)
    && m.translatedText == translate(m.originalText, m.fromLang, m.toLang)
  }

  /** The conversation invariant: every entry is well formed, speakers take turns, and `next`,
      the speaker who talks next, is not the one who talked last. */
  ghost predicate ValidLog(log: seq<Message>, next: Speaker, aLang: string, bLang: string, translate: Translator) {
    (forall i :: 0 <= i < |log| ==> WellFormed(log[i], aLang, bLang, translate))
    && (forall i :: 0 <= i < |log| - 1 ==> log[i + 1].speaker == Other(log[i].speaker))
    && (log != [] ==> next == Other(log[|log| - 1].speaker))
  }

  /** Appending a well-formed entry by the speaker whose turn it is keeps the log valid and
      passes the turn to the other speaker. */
  lemma AppendTurn(log: seq<Message>, next: Speaker, m: Message, aLang: string, bLang: string, translate: Translator)
    requires ValidLog(log, next, aLang, bLang, translate)
    requires WellFormed(m, aLang, bLang, translate) && m.speaker == next
    ensures ValidLog(log + [m], Other(next), aLang, bLang, translate)
  {
    var log' := log + [m];
    forall i | 0 <= i < |log'|
      ensures WellFormed(log'[i], aLang, bLang, translate)
    {
      if i < |log| {
        assert log'[i] == log[i];
      }
    }
    forall i | 0 <= i < |log'| - 1
      ensures log'[i + 1].speaker == Other(log'[i].speaker)
    {
      assert log'[i] == log[i];
    }
  }

  /** In a valid log each entry answers the one before: it is translated in the opposite
      direction, from the language the previous entry was translated into. */
  lemma RepliesReverseDirection(log: seq<Message>, next: Speaker, aLang: string, bLang: string, translate: Translator, i: int)
    requires ValidLog(log, next, aLang, bLang, translate)
    requires 0 <= i < |log| - 1
    ensures log[i + 1].fromLang == log[i].toLang
    ensures log[i + 1].toLang == log[i].fromLang
  {
    assert WellFormed(log[i], aLang, bLang, translate) && WellFormed(log[i + 1], aLang, bLang, translate);
  }

  /** With the phrase-table stub as translator, every entry of a valid log pairs spoken words
      with a non-empty translation. */
  lemma EntriesAreNonEmpty(log: seq<Message>, next: Speaker, aLang: string, bLang: string, i: int)
    requires ValidLog(log, next, aLang, bLang, Translate)
    requires 0 <= i < |log|
    ensures !IsBlank(log[i].originalText) && log[i].originalText != []
    ensures log[i].translatedText != []
  {
    assert WellFormed(log[i], aLang, bLang, Translate);
  }

  class Session {
    /** The two participants' language codes, fixed for the screen's lifetime. */
    const userALang: string
    const userBLang: string
    /** Whether the browser offers a speech recogniser (`recognitionRef.current` is set). */
    const hasRecognizer: bool
    /** The answer part of the memoised `translateText` callback: the phrase-table stub, `Translate`. */
    const translator: Translator

    var currentSpeaker: Speaker
    var messages: seq<Message>
    var currentText: string
    var isListening: bool
    var isProcessing: bool
    var isTranslating: bool
    /** The language the recogniser listens for (`recognition.lang`). */
    var recognizerLang: string

    /** The log entry for `text` spoken by `speaker`: translated from the speaker's language into
        the other participant's, stamped with `id` and `timestamp`. */
    function Entry(speaker: Speaker, text: string, id: string, timestamp: int): (m: Message)
      ensures m.speaker == speaker && m.originalText == text && m.id == id && m.timestamp == timestamp
      ensures m.fromLang == LangOf(speaker, userALang, userBLang) && m.toLang == LangOf(Other(speaker), userALang, userBLang)
      ensures m.translatedText == translator(text, m.fromLang, m.toLang)
    {
      var from := LangOf(speaker, userALang, userBLang);
      var to := LangOf(Other(speaker), userALang, userBLang);
      Message(id, speaker, text, translator(text, from, to), timestamp, from, to)
    }

    /** The session invariant: the log is valid and the current speaker talks next. */
    ghost predicate Valid()
      reads this`messages, this`currentSpeaker
    {
      ValidLog(messages, currentSpeaker, userALang, userBLang, translator)
    }

    /** The screen as first rendered: speaker A, an empty log, nothing in progress. */
    constructor(userALang: string, userBLang: string, hasRecognizer: bool)
      ensures this.userALang == userALang && this.userBLang == userBLang
      ensures this.hasRecognizer == hasRecognizer
      ensures translator == Translate
      ensures currentSpeaker == A && messages == [] && currentText == ""
      ensures !isListening && !isProcessing && !isTranslating
      ensures recognizerLang == userALang
      ensures Valid()
    {
      this.userALang := userALang;
      this.userBLang := userBLang;
      this.hasRecognizer := hasRecognizer;
      translator := Translate;
      currentSpeaker := A;
      messages := [];
      currentText := "";
      isListening := false;
      isProcessing := false;
      isTranslating := false;
      recognizerLang := userALang;
    }

    /** `startListening`: asks the recogniser to start, in the current speaker's language, only
        when there is a recogniser and it is neither listening nor busy with a recording.
        Returns whether `start()` was called; `isListening` changes only when the recogniser
        reports that it started (`OnStart`). */
    method StartListening() returns (started: bool)
      modifies this
      ensures started <==> hasRecognizer && !old(isListening) && !old(isProcessing)
      ensures recognizerLang == if started then LangOf(currentSpeaker, userALang, userBLang) else old(recognizerLang)
      ensures currentSpeaker == old(currentSpeaker) && messages == old(messages) && currentText == old(currentText)
      ensures isListening == old(isListening) && isProcessing == old(isProcessing) && isTranslating == old(isTranslating)
    {
      started := hasRecognizer && !isListening && !isProcessing;
      if started {
        recognizerLang := LangOf(currentSpeaker, userALang, userBLang);
      }
    }

    /** `stopListening`: asks the recogniser to stop exactly when there is one and it is
        listening. Nothing changes here; `OnEnd` clears the flag when the recogniser stops. */
    method StopListening() returns (stopRequested: bool)
      ensures stopRequested <==> hasRecognizer && isListening
    {
      stopRequested := hasRecognizer && isListening;
    }

    /** `recognition.onstart`: listening, with a fresh live transcript. */
    method OnStart()
      modifies this
      ensures isListening && currentText == ""
      ensures currentSpeaker == old(currentSpeaker) && messages == old(messages)
      ensures isProcessing == old(isProcessing) && isTranslating == old(isTranslating) && recognizerLang == old(recognizerLang)
    {
      isListening := true;
      currentText := "";
    }

    /** `recognition.onend`: no longer listening. */
    method OnEnd()
      modifies this
      ensures !isListening
      ensures currentSpeaker == old(currentSpeaker) && messages == old(messages) && currentText == old(currentText)
      ensures isProcessing == old(isProcessing) && isTranslating == old(isTranslating) && recognizerLang == old(recognizerLang)
    {
      isListening := false;
    }

    /** `recognition.onerror`: no longer listening (the error toast is not modelled). */
    method OnError()
      modifies this
      ensures !isListening
      ensures currentSpeaker == old(currentSpeaker) && messages == old(messages) && currentText == old(currentText)
      ensures isProcessing == old(isProcessing) && isTranslating == old(isTranslating) && recognizerLang == old(recognizerLang)
    {
      isListening := false;
    }

    /** `translateText`: raises `isTranslating`, waits, and answers from the phrase table.
        `rejects` stands for the awaited call failing; the flag is then left raised, since only
        the code after the wait lowers it. None is the rejection. */
    method TranslateText(text: string, from: string, to: string, rejects: bool) returns (r: Option<string>)
      modifies this
      ensures r == if rejects then None else Some(translator(text, from, to))
      ensures isTranslating == rejects
      ensures currentSpeaker == old(currentSpeaker) && messages == old(messages) && currentText == old(currentText)
      ensures isListening == old(isListening) && isProcessing == old(isProcessing) && recognizerLang == old(recognizerLang)
    {
      isTranslating := true;
      if rejects {
        r := None;
      } else {
        r := Some(translator(text, from, to));
        isTranslating := false;
      }
    }

    /** `handleRecordingComplete`: a blank recording changes nothing. Otherwise the recording is
        translated from the current speaker's language into the other's; on success one entry is
        appended to the log and the turn passes to the other speaker, on failure the log and the
        turn stay as they were. Either way the handler ends not processing, with an empty live
        transcript. `id` and `timestamp` are the clock readings the handler stamps the entry with. */
    method HandleRecordingComplete(finalText: string, id: string, timestamp: int, rejects: bool)
      requires Valid()
      modifies this
      ensures Valid()
      ensures IsBlank(finalText) ==>
        currentSpeaker == old(currentSpeaker) && messages == old(messages) && currentText == old(currentText)
        && isProcessing == old(isProcessing) && isTranslating == old(isTranslating)
      ensures !IsBlank(finalText) && !rejects ==>
        messages == old(messages) + [Entry(old(currentSpeaker), finalText, id, timestamp)]
        && currentSpeaker == Other(old(currentSpeaker)) && !isTranslating
      ensures !IsBlank(finalText) && rejects ==>
        messages == old(messages) && currentSpeaker == old(currentSpeaker) && isTranslating
      ensures !IsBlank(finalText) ==> !isProcessing && currentText == ""
      ensures isListening == old(isListening) && recognizerLang == old(recognizerLang)
    {
      if Trim(finalText) == "" {
        return;
      }
      isProcessing := true;
      var speaker := currentSpeaker;
      var from := LangOf(speaker, userALang, userBLang);
      var to := LangOf(Other(speaker), userALang, userBLang);
      var translated := TranslateText(finalText, from, to, rejects);
      match translated {
        case Some(translatedText) =>
          var newMessage := Message(id, speaker, finalText, translatedText, timestamp, from, to);
          assert newMessage == Entry(speaker, finalText, id, timestamp);
          AppendTurn(messages, speaker, newMessage, userALang, userBLang, translator);
          messages := messages + [newMessage];
          currentSpeaker := Other(speaker);
        case None =>
      }
      isProcessing := false;
      currentText := "";
    }

    /** `recognition.onresult`: the live transcript becomes the final text of the changed results
        followed by their interim text, and a non-empty final text is handed to the recording
        handler. */
    method OnResult(results: seq<RecognitionResult>, resultIndex: nat, id: string, timestamp: int, rejects: bool)
      requires Valid()
      modifies this
      ensures Valid()
      ensures IsBlank(Joined(Changed(results, resultIndex), true)) ==>
        currentText == Joined(Changed(results, resultIndex), true) + Joined(Changed(results, resultIndex), false)
        && messages == old(messages) && currentSpeaker == old(currentSpeaker)
        && isProcessing == old(isProcessing) && isTranslating == old(isTranslating)
      ensures !IsBlank(Joined(Changed(results, resultIndex), true)) && !rejects ==>
        messages == old(messages) + [Entry(old(currentSpeaker), Joined(Changed(results, resultIndex), true), id, timestamp)]
        && currentSpeaker == Other(old(currentSpeaker)) && !isTranslating
      ensures !IsBlank(Joined(Changed(results, resultIndex), true)) && rejects ==>
        messages == old(messages) && currentSpeaker == old(currentSpeaker) && isTranslating
      ensures !IsBlank(Joined(Changed(results, resultIndex), true)) ==> currentText == "" && !isProcessing
      ensures isListening == old(isListening) && recognizerLang == old(recognizerLang)
    {
      var finalTranscript, interimTranscript := CollectTranscripts(results, resultIndex);
      currentText := finalTranscript + interimTranscript;
      if finalTranscript != "" {
        HandleRecordingComplete(finalTranscript, id, timestamp, rejects);
      } else {
        assert IsBlank(finalTranscript);
      }
    }

    /** `clearHistory`: empties the log and the live transcript; the turn, the flags and the
        recogniser are left alone. */
    method ClearHistory()
      modifies this
      ensures Valid()
      ensures messages == [] && currentText == ""
      ensures currentSpeaker == old(currentSpeaker) && isListening == old(isListening) && isProcessing == old(isProcessing)
      ensures isTranslating == old(isTranslating) && recognizerLang == old(recognizerLang)
    {
      messages := [];
      currentText := "";
    }
  }

  /** A first exchange: A (English) says "Hello " to B (Hindi). The log then holds the canned
      Hindi greeting and it is B's turn. */
  method GreetingExchange() returns (log: seq<Message>, next: Speaker)
    ensures log == [Message("1", A, "Hello ", "नमस्ते", 0, "en", "hi")]
    ensures next == B
  {
    var session := new Session("en", "hi", true);
    assert !IsWhitespace('H');
    assert !IsBlank("Hello ") by {
      assert "Hello "[0] == 'H';
    }
    HelloIntoHindi();
    session.HandleRecordingComplete("Hello ", "1", 0, false);
    log, next := session.messages, session.currentSpeaker;
  }
}
