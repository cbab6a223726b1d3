/**
  The popup's controller: the variables its handlers share, and each
  handler as a method.  The speech-recognition engine is outside the model;
  its callbacks (`onstart`, `onresult`, `onend`, `onerror`, the auto-stop
  timer) are methods the environment calls, and what a handler asks of the
  engine (`start()`, `stop()`) is returned as an `EngineCall`.
 */
module PopupController {
  import opened Wrappers
  import opened Punctuation
  import opened JsText
  import opened History
  import opened StatusMessages
  import opened Insertion
  import opened Recognition

  /** The outcome of asking for the microphone (`getUserMedia({ audio: true })`). */
  datatype Microphone =
    | Unsupported                  // no navigator.mediaDevices.getUserMedia
    | Granted
    | Refused(errorName: string)   // the promise rejected with an error of this name

  /** What a handler asks of the recognition engine. */
  datatype EngineCall = NoCall | StartEngine | StopEngine

  class Popup {
    var isDictating: bool
    var lastSpeechResult: string
    var previousSentences: seq<string>
    var panel: string           // the popup's text panel (`textArea.value`)
    var active: Active          // `document.activeElement`, with its text
    var status: string          // the status line's text
    var statusIsError: bool     // the status line is shown as an error
    var language: string        // `recognition.lang`
    var timerPending: bool      // the 2000 ms auto-stop timeout is scheduled

    /** The history never holds more than five phrases. */
    ghost predicate Valid()
      reads this
    {
      |previousSentences| <= Capacity
    }

    /** The state a result event works on. */
    function Current(): Page
      reads this
    {
      Page(Screen(panel, active), previousSentences, lastSpeechResult)
    }

    constructor (panelText: string, focused: Active)
      ensures Valid()
      ensures !isDictating && lastSpeechResult == "" && previousSentences == []
      ensures panel == panelText && active == focused
      ensures status == "" && !statusIsError && language == "" && !timerPending
    {
      isDictating := false;
      lastSpeechResult := "";
      previousSentences := [];
      panel := panelText;
      active := focused;
      status := "";
      statusIsError := false;
      language := "";
      timerPending := false;
    }

    method SetStatusMessage(message: string, isError: bool)
      modifies this`status, this`statusIsError
      ensures status == message && statusIsError == isError
    {
      status := message;
      statusIsError := isError;
    }

    /** `recognition.onstart`. */
    method OnStart()
      modifies this`isDictating, this`status, this`statusIsError
      ensures isDictating
      ensures status == Dictating && !statusIsError
    {
      isDictating := true;
      SetStatusMessage(Dictating, false);
    }

    /** `recognition.onend`; the auto-stop timer is left as it is. */
    method OnEnd()
      modifies this`isDictating, this`status, this`statusIsError
      ensures !isDictating
      ensures status == Stopped && !statusIsError
    {
      isDictating := false;
      SetStatusMessage(Stopped, false);
    }

    /** `recognition.onerror`: reports the code; the session flag is not touched. */
    method OnError(code: string)
      modifies this`status, this`statusIsError
      ensures status == ErrorMessage(code) && statusIsError
    {
      SetStatusMessage(ErrorMessage(code), true);
    }

    /** `updatePreviousSentences`: shift out the oldest when five are kept, then push. */
    method UpdatePreviousSentences(sentence: string)
      requires Valid()
      modifies this`previousSentences
      ensures Valid()
      ensures previousSentences == Remember(old(previousSentences), sentence)
    {
      if |previousSentences| >= Capacity {
        previousSentences := previousSentences[1..];
      }
      previousSentences := previousSentences + [sentence];
    }

    /** Appends `text` to the focused editable element, or else to the panel. */
    method AppendToTarget(text: string)
      modifies this`panel, this`active
      ensures Screen(panel, active) == Insert(old(Screen(panel, active)), text)
    {
      match active
      case ElementActive(e) =>
        if Editable(e) {
          if e.isContentEditable {
            active := ElementActive(e.(html := e.html + text));
          } else {
            active := ElementActive(e.(value := e.value + text));
          }
        } else {
          panel := panel + text;
        }
      case PanelActive =>
        panel := panel + text;   // the panel is itself the focused textarea
      case NoActive =>
        panel := panel + text;
    }

    /**
      `recognition.onresult`: cancels the auto-stop timer, handles every
      result of the event in order, then schedules the timer again.
     */
    method OnResult(results: seq<SpeechResult>)
      requires Valid()
      modifies this`timerPending, this`lastSpeechResult, this`previousSentences
      modifies this`panel, this`active
      ensures Valid()
      ensures Current() == Steps(old(Current()), results)
      ensures timerPending
    {
      timerPending := false;
      var i := 0;
      while i < |results|
        invariant 0 <= i <= |results|
        invariant Valid()
        invariant Current() == Steps(old(Current()), results[..i])
      {
        var result := results[i];
        ghost var before := Current();
        assert Steps(old(Current()), results[..i + 1]) == Step(before, result) by {
          assert results[..i + 1][..i] == results[..i];
        }
        if result.isFinal {
          lastSpeechResult := Trim(result.transcript);
          if lastSpeechResult != "" {
            var processedText := ProcessText(lastSpeechResult);
            AppendToTarget(processedText + " ");
            UpdatePreviousSentences(processedText);
          }
        }
        i := i + 1;
      }
      assert results[..|results|] == results;
      timerPending := true;
    }

    /** The auto-stop timeout firing: it stops the engine. */
    method OnTimeout() returns (call: EngineCall)
      requires timerPending
      modifies this`timerPending
      ensures !timerPending && call == StopEngine
    {
      timerPending := false;
      call := StopEngine;
    }

    /**
      The start/stop button.  While dictating it stops the engine.
      Otherwise it needs the microphone: when access is granted it sets the
      selected language and starts the engine (a start that throws is
      reported like a microphone failure); when access is unavailable or
      refused it only reports an error.  The session flag is left to the
      engine's callbacks.
     */
    method Toggle(microphone: Microphone, startError: Option<string>, selected: string)
      returns (call: EngineCall)
      modifies this`language, this`status, this`statusIsError
      ensures isDictating ==> call == StopEngine
      ensures isDictating || microphone != Granted ==> language == old(language)
      ensures isDictating ==> status == old(status) && statusIsError == old(statusIsError)
      ensures !isDictating && microphone == Unsupported ==>
        call == NoCall && status == MicrophoneUnsupported && statusIsError
      ensures !isDictating && microphone.Refused? ==>
        call == NoCall && status == MicrophoneErrorMessage(microphone.errorName) && statusIsError
      ensures !isDictating && microphone == Granted ==>
        call == StartEngine && language == selected
      ensures !isDictating && microphone == Granted && startError.None? ==>
        status == old(status) && statusIsError == old(statusIsError)
      ensures !isDictating && microphone == Granted && startError.Some? ==>
        status == MicrophoneErrorMessage(startError.value) && statusIsError
    {
      if isDictating {
        call := StopEngine;
      } else {
        match microphone
        case Unsupported =>
          call := NoCall;
          SetStatusMessage(MicrophoneUnsupported, true);
        case Granted =>
          language := selected;
          call := StartEngine;
          if startError.Some? {
            SetStatusMessage(MicrophoneErrorMessage(startError.value), true);
          }
        case Refused(name) =>
          call := NoCall;
          SetStatusMessage(MicrophoneErrorMessage(name), true);
      }
    }

    /** The language selector: the engine's language and a status line naming it. */
    method OnLanguageChange(value: string)
      modifies this`language, this`status, this`statusIsError
      ensures language == value
      ensures status == LanguageChanged + value && !statusIsError
    {
      language := value;
      SetStatusMessage(LanguageChanged + value, false);
    }

    /** The repeat button: inserts the newest phrase again, or reports that there is none. */
    method Repeat()
      modifies this`panel, this`active, this`status, this`statusIsError
      ensures previousSentences == [] ==>
        panel == old(panel) && active == old(active) && status == NothingToRepeat && statusIsError
      ensures previousSentences != [] ==>
        && Screen(panel, active) ==
           Insert(old(Screen(panel, active)), previousSentences[|previousSentences| - 1] + " ")
        && status == Repeated && !statusIsError
    {
      if |previousSentences| > 0 {
        var lastSentence := previousSentences[|previousSentences| - 1];
        AppendToTarget(lastSentence + " ");
        SetStatusMessage(Repeated, false);
      } else {
        SetStatusMessage(NothingToRepeat, true);
      }
    }

    /** The clear button, once the user has answered the confirmation. */
    method Clear(confirmed: bool)
      requires Valid()
      modifies this`panel, this`lastSpeechResult, this`previousSentences
      modifies this`status, this`statusIsError
      ensures Valid()
      ensures confirmed ==>
        && panel == "" && lastSpeechResult == "" && previousSentences == []
        && status == Cleared && !statusIsError
      ensures !confirmed ==>
        && panel == old(panel) && lastSpeechResult == old(lastSpeechResult)
        && previousSentences == old(previousSentences)
        && status == old(status) && statusIsError == old(statusIsError)
    {
      if confirmed {
        panel := "";
        lastSpeechResult := "";
        previousSentences := [];
        SetStatusMessage(Cleared, false);
      }
    }
  }

  /** A session as the engine drives it: a start, an error while listening, a stop, the end. */
  method SessionLifecycle(focused: Active)
  {
    var popup := new Popup("", focused);
    var call := popup.Toggle(Granted, None, "es-ES");
    assert call == StartEngine && popup.language == "es-ES" && !popup.isDictating;
    popup.OnStart();
    assert popup.isDictating && popup.status == Dictating && !popup.statusIsError;
    popup.OnError("network");
    assert popup.isDictating && popup.status == ErrorMessage("network") && popup.statusIsError;
    call := popup.Toggle(Granted, None, "es-ES");
    assert call == StopEngine && popup.isDictating && popup.status == ErrorMessage("network");
    popup.OnEnd();
    assert !popup.isDictating && popup.status == Stopped;
    popup.Repeat();
    assert popup.status == NothingToRepeat && popup.panel == "";
  }
}
