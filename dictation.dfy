/**
 * The dictation session: the recognizer's event handlers (onstart, onresult, onerror, onend with
 * automatic restart), the record button, the clear button, the two dropdowns and the save.
 */
module Dictation {
  import opened Wrappers
  import opened Text
  import opened TemplateFormat
  import opened Selection
  import opened VoiceCommands
  import opened Records

  /** One entry of `event.results`: its first alternative's transcript and whether it is final. */
  datatype SpeechResult = SpeechResult(transcript: string, isFinal: bool)

  /** The results an event reports as new: from `resultIndex` to the end (none past the end). */
  function Pending(results: seq<SpeechResult>, resultIndex: nat): seq<SpeechResult>
  {
    if resultIndex < |results| then results[resultIndex..] else []
  }

  /** The final segments' transcripts, concatenated in order. */
  function Finals(rs: seq<SpeechResult>): string
    decreases |rs|
  {
    if rs == [] then ""
    else Finals(rs[..|rs| - 1]) + (if rs[|rs| - 1].isFinal then rs[|rs| - 1].transcript else "")
  }

  /** The interim segments' transcripts, concatenated in order. */
  function Interims(rs: seq<SpeechResult>): string
    decreases |rs|
  {
    if rs == [] then ""
    else Interims(rs[..|rs| - 1]) + (if rs[|rs| - 1].isFinal then "" else rs[|rs| - 1].transcript)
  }

  /** Every segment's transcript, concatenated in order. */
  function Joined(rs: seq<SpeechResult>): string
    decreases |rs|
  {
    if rs == [] then "" else Joined(rs[..|rs| - 1]) + rs[|rs| - 1].transcript
  }

  /** Splitting into final and interim text keeps every character: together they hold exactly the joined text's characters. */
  lemma {:induction false} SplitKeepsContents(rs: seq<SpeechResult>)
    ensures multiset(Finals(rs)) + multiset(Interims(rs)) == multiset(Joined(rs))
    decreases |rs|
  {
    if rs != [] {
      var init, last := rs[..|rs| - 1], rs[|rs| - 1];
      SplitKeepsContents(init);
      assert Joined(rs) == Joined(init) + last.transcript;
      if last.isFinal {
        assert Finals(rs) == Finals(init) + last.transcript;
      } else {
        assert Interims(rs) == Interims(init) + last.transcript;
      }
    }
  }

  /** Final and interim text together are as long as the joined text; an event of one kind only yields only that kind. */
  lemma {:induction false} SplitKeepsEveryCharacter(rs: seq<SpeechResult>)
    ensures |Finals(rs)| + |Interims(rs)| == |Joined(rs)|
    ensures (forall i :: 0 <= i < |rs| ==> rs[i].isFinal) ==> Finals(rs) == Joined(rs) && Interims(rs) == ""
    ensures (forall i :: 0 <= i < |rs| ==> !rs[i].isFinal) ==> Interims(rs) == Joined(rs) && Finals(rs) == ""
    decreases |rs|
  {
    if rs != [] {
      SplitKeepsEveryCharacter(rs[..|rs| - 1]);
    }
  }

  /** The loop at the head of onresult: walk the new results, sorting them into final and interim text. */
  method CollectSegments(results: seq<SpeechResult>, resultIndex: nat) returns (finalText: string, interimText: string)
    ensures finalText == Finals(Pending(results, resultIndex))
    ensures interimText == Interims(Pending(results, resultIndex))
  {
    finalText, interimText := "", "";
    var i := resultIndex;
    while i < |results|
      invariant resultIndex <= i
      invariant resultIndex < |results| ==> i <= |results|
      invariant resultIndex < |results| ==> finalText == Finals(results[resultIndex..i])
      invariant resultIndex < |results| ==> interimText == Interims(results[resultIndex..i])
      invariant |results| <= resultIndex ==> finalText == "" && interimText == ""
      decreases |results| - i
    {
      if results[i].isFinal {
        finalText := finalText + results[i].transcript;
      } else {
        interimText := interimText + results[i].transcript;
      }
      assert results[resultIndex..i + 1][..i - resultIndex] == results[resultIndex..i];
      i := i + 1;
    }
    if resultIndex < |results| {
      assert results[resultIndex..i] == Pending(results, resultIndex);
    }
  }

  /** Which message the error handler chooses, by error code: the no-speech status text, or the
      message of a toast. The status text is overwritten by the idle text before the handler ends. */
  datatype ErrorNotice = NoSpeechStatus | MicrophoneDenied | RecognitionFailed

  function NoticeFor(code: string): (n: ErrorNotice)
    ensures n == NoSpeechStatus <==> code == "no-speech"
    ensures n == MicrophoneDenied <==> code == "not-allowed"
  {
    if code == "no-speech" then NoSpeechStatus
    else if code == "not-allowed" then MicrophoneDenied
    else RecognitionFailed
  }

  /** The status line under the record button. */
  datatype Status = Idle | Listening | NoSpeechDetected

  /** The text the transcript area shows after a clear. */
  const ClearedDisplay: string := "ここに音声入力されたテキストが表示されます"

  /**
   * The browser's speech recognizer, seen through the calls the session makes on it. Whether a
   * `start()` throws is the browser's decision and is left open.
   */
  class Recognizer {
    var startCalls: nat
    var stopCalls: nat

    constructor ()
      ensures startCalls == 0 && stopCalls == 0
    {
      startCalls := 0;
      stopCalls := 0;
    }

    method Start() returns (threw: bool)
      modifies this
      ensures startCalls == old(startCalls) + 1 && stopCalls == old(stopCalls)
    {
      startCalls := startCalls + 1;
      threw :| true;
    }

    method Stop()
      modifies this
      ensures stopCalls == old(stopCalls) + 1 && startCalls == old(startCalls)
    {
      stopCalls := stopCalls + 1;
    }
  }

  /** The page's module-level state: recording flag, transcript, selections. */
  class Session {
    const recognition: Recognizer?
    const patients: seq<Patient>
    const templates: seq<Template>
    var isRecording: bool
    var currentTranscript: string
    var display: string
    var status: Status
    var selectedPatient: Option<Patient>
    var selectedTemplate: Option<Template>

    /** Recording needs a recognizer; a selection is always one of the loaded entries. */
    ghost predicate Valid()
      reads this
    {
      && (isRecording ==> recognition != null)
      && (selectedPatient.Some? ==> selectedPatient.value in patients)
      && (selectedTemplate.Some? ==> selectedTemplate.value in templates)
    }

    twostate predicate TextKept()
      reads this
    {
      currentTranscript == old(currentTranscript) && display == old(display)
    }

    twostate predicate SelectionsKept()
      reads this
    {
      selectedPatient == old(selectedPatient) && selectedTemplate == old(selectedTemplate)
    }

    constructor (recognizer: Recognizer?, loadedPatients: seq<Patient>, loadedTemplates: seq<Template>)
      ensures Valid()
      ensures recognition == recognizer && patients == loadedPatients && templates == loadedTemplates
      ensures !isRecording && currentTranscript == "" && display == ClearedDisplay && status == Idle
      ensures selectedPatient == None && selectedTemplate == None
    {
      recognition := recognizer;
      patients := loadedPatients;
      templates := loadedTemplates;
      isRecording := false;
      currentTranscript := "";
      display := ClearedDisplay;
      status := Idle;
      selectedPatient := None;
      selectedTemplate := None;
    }

    /** onstart: the recognizer has started listening. */
    method OnStart()
      requires Valid() && recognition != null
      modifies this
      ensures Valid() && isRecording && status == Listening
      ensures TextKept() && SelectionsKept()
    {
      isRecording := true;
      status := Listening;
    }

    /**
     * onresult: the new final text is appended to the transcript with a line break and handed to
     * the voice-command interpreter; the display shows the transcript followed by the interim text.
     * The returned attempt is the save a spoken save command started, if any.
     */
    method OnResult(results: seq<SpeechResult>, resultIndex: nat, clock: VisitClock)
      returns (saveAttempt: Option<Result<MedicalRecord, SaveError>>)
      requires Valid()
      modifies this
      ensures Valid()
      ensures
        var finals := Finals(Pending(results, resultIndex));
        var heard := old(currentTranscript) + finals + "\n";
        var c := if finals == "" then NoCommand else Interpret(finals, patients);
        && (finals == "" ==> currentTranscript == old(currentTranscript))
        && (finals != "" && c != ClearCommand ==> currentTranscript == heard)
        && (c == ClearCommand ==> currentTranscript == "")
        && (c != ClearCommand ==> old(currentTranscript) <= currentTranscript)
        && display == currentTranscript + Interims(Pending(results, resultIndex))
        && saveAttempt == (if c == SaveCommand then Some(RecordFor(old(selectedPatient), selectedTemplate, heard, clock)) else None)
        && (c == SaveCommand && old(selectedPatient).Some? ==> saveAttempt.Some? && saveAttempt.value.Success?)
        && selectedPatient == (if c.SelectPatient? then PatientForValue(patients, patients[c.index].id) else old(selectedPatient))
      ensures isRecording == old(isRecording) && status == old(status) && selectedTemplate == old(selectedTemplate)
    {
      var finalText, interimText := CollectSegments(results, resultIndex);
      saveAttempt := None;
      if finalText != "" {
        ghost var earlier := currentTranscript;
        currentTranscript := currentTranscript + finalText + "\n";
        saveAttempt := CheckVoiceCommands(finalText, clock);
        if HasSaveTrigger(Normalize(finalText)) && selectedPatient.Some? {
          SpokenSaveBuildsRecord(selectedPatient, selectedTemplate, earlier, finalText, clock);
        }
      }
      display := currentTranscript + interimText;
    }

    /** onerror: choose the error's message by its code, then stop recording; for `no-speech` the
        status text it writes is replaced by the idle text within the same call. */
    method OnError(code: string) returns (notice: ErrorNotice)
      requires Valid() && recognition != null
      modifies this, recognition
      ensures notice == NoticeFor(code)
      ensures Valid() && !isRecording && status == Idle
      ensures recognition.stopCalls == old(recognition.stopCalls) + 1
      ensures recognition.startCalls == old(recognition.startCalls)
      ensures TextKept() && SelectionsKept()
    {
      if code == "no-speech" {
        status := NoSpeechDetected;
        notice := NoSpeechStatus;
      } else if code == "not-allowed" {
        notice := MicrophoneDenied;
      } else {
        notice := RecognitionFailed;
      }
      StopRecording();
    }

    /**
     * onend: while recording, restart the recognizer at once; when that restart throws, stop.
     * Returns whether the restart threw.
     */
    method OnEnd() returns (restartFailed: bool)
      requires Valid() && recognition != null
      modifies this, recognition
      ensures Valid()
      ensures !old(isRecording) ==> !restartFailed && unchanged(this) && unchanged(recognition)
      ensures old(isRecording) ==> recognition.startCalls == old(recognition.startCalls) + 1
      ensures old(isRecording) ==> (isRecording <==> !restartFailed)
      ensures old(isRecording) && !restartFailed ==>
        unchanged(this) && recognition.stopCalls == old(recognition.stopCalls)
      ensures old(isRecording) && restartFailed ==>
        status == Idle && recognition.stopCalls == old(recognition.stopCalls) + 1
      ensures TextKept() && SelectionsKept()
    {
      restartFailed := false;
      if isRecording {
        restartFailed := recognition.Start();
        if restartFailed {
          StopRecording();
        }
      }
    }

    /** The record button: refused without a recognizer, otherwise stop when recording, else start. */
    method ToggleRecording() returns (startThrew: bool)
      requires Valid()
      modifies this, recognition
      ensures Valid()
      ensures recognition == null ==> unchanged(this) && !startThrew
      ensures recognition != null && old(isRecording) ==>
        && !isRecording && status == Idle && !startThrew
        && recognition.stopCalls == old(recognition.stopCalls) + 1
        && recognition.startCalls == old(recognition.startCalls)
      ensures recognition != null && !old(isRecording) ==>
        && unchanged(this)
        && recognition.startCalls == old(recognition.startCalls) + 1
        && recognition.stopCalls == old(recognition.stopCalls)
      ensures TextKept() && SelectionsKept()
    {
      startThrew := false;
      if recognition == null {
        return;
      }
      if isRecording {
        StopRecording();
      } else {
        startThrew := StartRecording();
      }
    }

    /**
     * Asks the recognizer to start; recording begins only when it reports onstart. A throw is
     * reported to the user and changes nothing else.
     */
    method StartRecording() returns (threw: bool)
      requires recognition != null
      modifies recognition
      ensures recognition.startCalls == old(recognition.startCalls) + 1
      ensures recognition.stopCalls == old(recognition.stopCalls)
    {
      threw := recognition.Start();
    }

    /** Clears the recording flag, stops the recognizer if there is one, resets the status line. */
    method StopRecording()
      modifies this, recognition
      ensures !isRecording && status == Idle
      ensures recognition != null ==>
        recognition.stopCalls == old(recognition.stopCalls) + 1 && recognition.startCalls == old(recognition.startCalls)
      ensures TextKept() && SelectionsKept()
      ensures old(Valid()) ==> Valid()
    {
      isRecording := false;
      if recognition != null {
        recognition.Stop();
      }
      status := Idle;
    }

    /** The clear button and the clear command: empty the transcript, show the placeholder. */
    method ClearTranscript()
      requires Valid()
      modifies this
      ensures Valid()
      ensures currentTranscript == "" && display == ClearedDisplay
      ensures isRecording == old(isRecording) && status == old(status) && SelectionsKept()
    {
      currentTranscript := "";
      display := ClearedDisplay;
    }

    /** The patient dropdown changed to `value` (a patient id, or "" for no selection). */
    method HandlePatientChange(value: string)
      requires Valid()
      modifies this
      ensures Valid()
      ensures selectedPatient == PatientForValue(patients, value)
      ensures selectedTemplate == old(selectedTemplate)
      ensures isRecording == old(isRecording) && status == old(status) && TextKept()
    {
      selectedPatient := PatientForValue(patients, value);
    }

    /** The template dropdown changed to `value` (a template id, or "" for no template). */
    method HandleTemplateChange(value: string)
      requires Valid()
      modifies this
      ensures Valid()
      ensures selectedTemplate == TemplateForValue(templates, value)
      ensures selectedPatient == old(selectedPatient)
      ensures isRecording == old(isRecording) && status == old(status) && TextKept()
    {
      selectedTemplate := TemplateForValue(templates, value);
    }

    /**
     * checkVoiceCommands on the final text of one event. The patient command walks the whole
     * roster and re-selects at every patient mentioned, so the last one mentioned stays selected.
     */
    method CheckVoiceCommands(text: string, clock: VisitClock)
      returns (saveAttempt: Option<Result<MedicalRecord, SaveError>>)
      requires Valid()
      modifies this
      ensures Valid()
      ensures
        var c := Interpret(text, patients);
        && (c == ClearCommand ==> currentTranscript == "" && display == ClearedDisplay)
        && (c != ClearCommand ==> TextKept())
        && saveAttempt == (if c == SaveCommand then Some(RecordFor(old(selectedPatient), selectedTemplate, old(currentTranscript), clock)) else None)
        && selectedPatient == (if c.SelectPatient? then PatientForValue(patients, patients[c.index].id) else old(selectedPatient))
      ensures isRecording == old(isRecording) && status == old(status) && selectedTemplate == old(selectedTemplate)
    {
      var lower := Normalize(text);
      saveAttempt := None;
      if HasSaveTrigger(lower) {
        var attempt := SaveRecord(clock);
        saveAttempt := Some(attempt);
        return;
      }
      if HasClearTrigger(lower) {
        ClearTranscript();
        return;
      }
      if HasPatientMarker(lower) {
        ScanRoster(lower);
      }
    }

    /**
     * The `forEach` of the patient command: every patient the text mentions is selected in turn
     * through the dropdown handler, so the last one mentioned stays selected.
     */
    method ScanRoster(lower: string)
      requires Valid()
      modifies this
      ensures Valid()
      ensures selectedPatient ==
        match LastMentioned(lower, patients)
        case None => old(selectedPatient)
        case Some(k) => PatientForValue(patients, patients[k].id)
      ensures isRecording == old(isRecording) && status == old(status) && selectedTemplate == old(selectedTemplate)
      ensures TextKept()
    {
      for i := 0 to |patients|
        invariant Valid()
        invariant isRecording == old(isRecording) && status == old(status) && selectedTemplate == old(selectedTemplate)
        invariant TextKept()
        invariant selectedPatient ==
          match LastMentioned(lower, patients[..i])
          case None => old(selectedPatient)
          case Some(k) => PatientForValue(patients, patients[k].id)
      {
        if Mentions(lower, patients[i]) {
          HandlePatientChange(patients[i].id);
        }
        assert patients[..i + 1][..i] == patients[..i];
      }
      assert patients[..|patients|] == patients;
    }

    /**
     * The synchronous part of the save button: the record that would be posted, or why the save
     * is refused. Nothing changes until the response arrives.
     */
    method SaveRecord(clock: VisitClock) returns (attempt: Result<MedicalRecord, SaveError>)
      ensures attempt == RecordFor(selectedPatient, selectedTemplate, currentTranscript, clock)
      ensures attempt.Failure? <==> selectedPatient.None? || IsBlank(currentTranscript)
    {
      attempt := RecordFor(selectedPatient, selectedTemplate, currentTranscript, clock);
    }

    /** The server answered a posted record: on success recording stops and the transcript stays. */
    method OnSaveResponse(ok: bool)
      requires Valid()
      modifies this, recognition
      ensures Valid()
      ensures ok ==> !isRecording && status == Idle
      ensures ok && recognition != null ==> recognition.stopCalls == old(recognition.stopCalls) + 1
      ensures !ok ==> unchanged(this) && (recognition != null ==> unchanged(recognition))
      ensures TextKept() && SelectionsKept()
    {
      if ok {
        StopRecording();
      }
    }
  }

  /** Stopping twice leaves the session exactly as stopping once does. */
  method StopTwice(s: Session)
    requires s.Valid()
    modifies s, s.recognition
  {
    s.StopRecording();
    ghost var once := (s.isRecording, s.status, s.currentTranscript, s.display, s.selectedPatient, s.selectedTemplate);
    s.StopRecording();
    assert (s.isRecording, s.status, s.currentTranscript, s.display, s.selectedPatient, s.selectedTemplate) == once;
  }
}
