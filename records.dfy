/**
 * The synchronous part of saveRecord: the two guards (a patient is selected, the transcript is not
 * blank) and the medical record built from the selection, the transcript and the clock.
 */
module Records {
  import opened Wrappers
  import opened Text
  import opened TemplateFormat
  import opened Selection
  import opened VoiceCommands

  /** The two readings of the clock a save takes: the ISO timestamp and the Japanese local date. */
  datatype VisitClock = VisitClock(isoTimestamp: string, localeDate: string)

  /** Why a save is refused before anything is sent. */
  datatype SaveError = NoPatientSelected | EmptyTranscript

  /** The body posted to `tables/medical_records`. */
  datatype MedicalRecord = MedicalRecord(
    patientId: string,
    patientName: string,
    visitDate: string,
    voiceText: string,
    symptoms: string,
    vitalSigns: string,
    treatment: string,
    notes: string)

  const TemplateNotePrefix: string := "テンプレート使用: "

  /** The record a save would post, or the reason it is refused. */
  function RecordFor(patient: Option<Patient>, template: Option<Template>, transcript: string, clock: VisitClock)
    : (r: Result<MedicalRecord, SaveError>)
    ensures r.Failure? <==> patient.None? || IsBlank(transcript)
    ensures r.Failure? && patient.None? ==> r.error == NoPatientSelected
    ensures r.Failure? && patient.Some? ==> r.error == EmptyTranscript
    ensures r.Success? ==>
      && r.value.patientId == patient.value.id
      && r.value.patientName == patient.value.name
      && r.value.visitDate == clock.isoTimestamp
      && r.value.voiceText == Formatted(template, Trim(transcript), clock.localeDate)
      && r.value.symptoms == "" && r.value.vitalSigns == "" && r.value.treatment == ""
    ensures r.Success? && template.None? ==> r.value.voiceText == Trim(transcript) && r.value.voiceText != "" && r.value.notes == ""
    ensures r.Success? && template.Some? ==> r.value.notes == TemplateNotePrefix + template.value.title
  {
    TrimEmptyIffBlank(transcript);
    if patient.None? then Failure(NoPatientSelected)
    else
      var trimmed := Trim(transcript);
      if trimmed == "" then Failure(EmptyTranscript)
      else
        var voiceText := if template.Some? then Formatted(template, trimmed, clock.localeDate) else trimmed;
        var notes := if template.Some? then TemplateNotePrefix + template.value.title else "";
        Success(MedicalRecord(patient.value.id, patient.value.name, clock.isoTimestamp, voiceText, "", "", "", notes))
  }

  /**
   * The transcript a recognition event leaves behind when its final text says "save" is never
   * blank, so with a patient selected the spoken save always builds a record.
   */
  lemma {:induction false} SpokenSaveBuildsRecord(
    patient: Option<Patient>, template: Option<Template>, earlier: string, finals: string, clock: VisitClock)
    requires patient.Some? && HasSaveTrigger(Normalize(finals))
    ensures RecordFor(patient, template, earlier + finals + "\n", clock).Success?
  {
    SaveTriggerIsNotBlank(finals);
    var i :| 0 <= i < |finals| && !IsSpace(finals[i]);
    assert (earlier + finals + "\n")[|earlier| + i] == finals[i];
  }
}
