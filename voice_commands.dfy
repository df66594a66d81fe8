/**
 * checkVoiceCommands: the final text of a recognition event is matched, lower-cased and trimmed,
 * against fixed trigger words in priority order: save, then clear, then patient selection.
 */
module VoiceCommands {
  import opened Wrappers
  import opened Text
  import opened Selection

  /** `text.toLowerCase().trim()`: the form in which triggers and names are looked for. */
  function Normalize(text: string): string
  {
    Trim(ToLower(text))
  }

  predicate HasSaveTrigger(lower: string)
  {
    Contains(lower, "保存") || Contains(lower, "ほぞん")
  }

  predicate HasClearTrigger(lower: string)
  {
    Contains(lower, "クリア") || Contains(lower, "くりあ") || Contains(lower, "キャンセル") || Contains(lower, "きゃんせる")
  }

  predicate HasPatientMarker(lower: string)
  {
    Contains(lower, "患者") || Contains(lower, "かんじゃ")
  }

  /** The normalized text names the patient, by name or by phonetic name. */
  predicate Mentions(lower: string, p: Patient)
  {
    Contains(lower, p.name) || Contains(lower, p.nameKana)
  }

  /**
   * The roster position the `forEach` over the patients leaves selected: each mentioned patient
   * overwrites the selection, so the last one mentioned wins.
   */
  function LastMentioned(lower: string, roster: seq<Patient>): (r: Option<nat>)
    ensures r.Some? ==> r.value < |roster| && Mentions(lower, roster[r.value])
    ensures r.Some? ==> forall j :: r.value < j < |roster| ==> !Mentions(lower, roster[j])
    ensures r.None? <==> forall j :: 0 <= j < |roster| ==> !Mentions(lower, roster[j])
    decreases |roster|
  {
    if roster == [] then None
    else if Mentions(lower, roster[|roster| - 1]) then Some(|roster| - 1)
    else LastMentioned(lower, roster[..|roster| - 1])
  }

  /** What one call of checkVoiceCommands does. */
  datatype Command = SaveCommand | ClearCommand | SelectPatient(index: nat) | NoCommand

  /** The command a final text triggers against the loaded roster. */
  function Interpret(text: string, roster: seq<Patient>): (c: Command)
    ensures c == SaveCommand <==> HasSaveTrigger(Normalize(text))
    ensures c == ClearCommand <==> !HasSaveTrigger(Normalize(text)) && HasClearTrigger(Normalize(text))
    ensures c.SelectPatient? <==>
      && !HasSaveTrigger(Normalize(text)) && !HasClearTrigger(Normalize(text))
      && HasPatientMarker(Normalize(text))
      && exists j :: 0 <= j < |roster| && Mentions(Normalize(text), roster[j])
    ensures c.SelectPatient? ==>
      && c.index < |roster| && Mentions(Normalize(text), roster[c.index])
      && forall j :: c.index < j < |roster| ==> !Mentions(Normalize(text), roster[j])
  {
    var lower := Normalize(text);
    if HasSaveTrigger(lower) then SaveCommand
    else if HasClearTrigger(lower) then ClearCommand
    else if HasPatientMarker(lower) then
      match LastMentioned(lower, roster)
      case None => NoCommand
      case Some(k) => SelectPatient(k)
    else NoCommand
  }

  /**
   * A patient registered without a phonetic name (the empty string) is mentioned by every
   * text: once the patient marker is heard, the selection lands on that patient or a later one.
   */
  lemma {:induction false} EmptyKanaMatchesEveryMarkedText(text: string, roster: seq<Patient>, k: nat)
    requires k < |roster| && roster[k].nameKana == ""
    requires HasPatientMarker(Normalize(text))
    requires !HasSaveTrigger(Normalize(text)) && !HasClearTrigger(Normalize(text))
    ensures Interpret(text, roster).SelectPatient? && Interpret(text, roster).index >= k
  {
    assert Contains(Normalize(text), roster[k].nameKana);
  }

  /** The save trigger fires wherever it stands in the dictated text. */
  lemma {:induction false} EmbeddedSaveTriggerFires(before: string, after: string, roster: seq<Patient>)
    ensures Interpret(before + "保存" + after, roster) == SaveCommand
  {
    var text := before + "保存" + after;
    var lowered := ToLower(text);
    assert text[|before|] == '保' && text[|before| + 1] == '存';
    assert lowered[|before|..|before| + 2] == "保存";
    TrimKeepsInnerWord(lowered, |before|, "保存");
  }

  /** The clear trigger fires wherever it stands, unless a save trigger is heard too. */
  lemma {:induction false} EmbeddedClearTriggerFires(before: string, after: string, roster: seq<Patient>)
    requires !HasSaveTrigger(Normalize(before + "クリア" + after))
    ensures Interpret(before + "クリア" + after, roster) == ClearCommand
  {
    ClearWordSurvivesNormalize(before, after);
  }

  lemma {:induction false} ClearWordSurvivesNormalize(before: string, after: string)
    ensures Contains(Normalize(before + "クリア" + after), "クリア")
  {
    var text := before + "クリア" + after;
    var lowered := ToLower(text);
    assert text[|before|] == 'ク' && text[|before| + 1] == 'リ' && text[|before| + 2] == 'ア';
    assert lowered[|before|..|before| + 3] == "クリア";
    TrimKeepsInnerWord(lowered, |before|, "クリア");
  }

  /**
   * Only the spoken text is lower-cased, not the roster: a name holding an ASCII capital letter
   * is never found by name.
   */
  lemma {:induction false} CapitalizedNameNeverMatches(text: string, p: Patient, j: nat)
    requires j < |p.name| && 'A' <= p.name[j] <= 'Z'
    ensures !Contains(Normalize(text), p.name)
  {
    var lower := Normalize(text);
    forall i | 0 <= i < |lower| ensures lower[i] != p.name[j] {
      TrimmedCharOccurs(ToLower(text), i);
      var c :| c in text && lower[i] == LowerChar(c);
      LowerCharIsNotCapital(c);
    }
    ContainedCharOccurs(lower, p.name, j);
  }

  /** A text that triggers a save holds something besides white space. */
  lemma {:induction false} SaveTriggerIsNotBlank(text: string)
    ensures HasSaveTrigger(Normalize(text)) ==> !IsBlank(text)
  {
    if IsBlank(text) {
      forall i | 0 <= i < |text| ensures IsSpace(ToLower(text)[i]) {
        LowerCharKeepsSpace(text[i]);
      }
      TrimEmptyIffBlank(ToLower(text));
    }
  }
}
