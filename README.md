# Voice dictation session for medical visit notes — Dafny model

This project models the sequential core of `app.js`, the browser front-end with which a
clinician dictates a visit note, picks a patient and an optional note template, and saves the
note as a medical record.

- **Dictation session** (`dictation.dfy`, module `Dictation`). The page's module-level state is
  the class `Session`: the recording flag, the accumulated transcript, the text shown in the
  transcript area, the status line, and the selected patient and template. The recognizer's
  callbacks (`onstart`, `onresult`, `onerror`, `onend` with its automatic restart) and the user's
  actions (record button, start, stop, clear, dropdown changes, save) are methods of that class.
  The browser's speech recognizer is the class `Recognizer`. It counts the `start()` and `stop()`
  calls it receives, and whether a `start()` throws is left open, as a nondeterministic choice.
- **Voice-command interpreter** (`voice_commands.dfy`, module `VoiceCommands`). `checkVoiceCommands`
  becomes the pure function `Interpret`. It lower-cases and trims the text, then looks for the
  triggers in priority order: 保存/ほぞん for save, クリア/くりあ/キャンセル/きゃんせる for clear,
  and 患者/かんじゃ for a patient-selection scan. The scan over the roster is the method
  `Session.CheckVoiceCommands`.
- **Template formatter** (`template_format.dfy`, module `TemplateFormat`). `formatWithTemplate` is
  a chain of global replaces:
  - first `{visit_date}`, then `{content}`, then `{voice_input}`;
  - then the 18 clinical field names, in list order.

  A replace follows `String.prototype.replace` with a global pattern. That includes the `$$`,
  `$&`, `` $` `` and `$'` patterns in the replacement string, since the transcript is passed
  there verbatim. The formatter's meaning is stated against a reference reading of a template:
  plain text and `{name}` slots (`Piece`, `Render`, `Resolve`).
- **Save** (`records.dfy`, module `Records`). The synchronous part of `saveRecord` is
  `RecordFor`: the two guards and the record body. The server's answer is
  `Session.OnSaveResponse`.
- **Lookups** (`selection.dfy`, module `Selection`). The dropdown handlers look up the selected
  value by id with `find`; this is `PatientForValue` and `TemplateForValue`.
- **Strings** (`text.dfy`, module `Text`). This module holds `trim` (the ECMAScript white-space
  set), `toLowerCase` and `includes`.

Points of the code's behaviour that are easy to miss:
- The interpreter runs once per recognition event, on the concatenation of all final segments
  of that event (`app.js:80-84`). It does not run once per segment.
- Every recognizer error, including `no-speech`, ends in `stopRecording()` (`app.js:100`). A
  `no-speech` error only chooses the message (`app.js:93-99`); recording stops all the same. For
  `no-speech` there is no toast: the status text written at `app.js:94` is replaced by the idle
  text at `app.js:171` before the handler returns, so none of it reaches the user.
- `isRecording` becomes true only in `onstart` (`app.js:61`). Before that callback arrives,
  nothing guards against a second `start()`: `Session.ToggleRecording` calls `Start` again, and
  any throw is the recognizer's doing.
- The field list has 18 names (`app.js:634-640`), each replaced by the extracted-text prefix, a
  line break and the transcript.
- Stopping twice leaves the session state as one stop does (`StopTwice` asserts this). It is not
  a no-op towards the recognizer, though: every `stopRecording()` calls `stop()` again.
- A successful save stops recording and keeps the transcript.
- A patient id is compared with `===` against the dropdown's string value. The model's ids are
  strings, so an id the table returned as a number is outside the model.

## Model

| member | source | states |
|---|---|---|
| Text.Trim | app.js:177 | the trimmed text is the text with its leading and trailing white space removed: a slice between a blank head and a blank tail that, when not empty, starts and ends with a non-space character |
| Text.TrimmedEndsAreBlank | app.js:177 | what trimming strips from either end is white space, and when the two ends meet the whole text is white space |
| Text.TrimEmptyIffBlank | app.js:254 | the trimmed text is empty exactly when the text is all white space |
| Text.TrimKeepsInnerWord | app.js:177 | a word that starts and ends with a non-space character is still contained after trimming |
| TemplateFormat.FormatWithTemplate | app.js:609-648 | without a template the text comes back unchanged; with one, the loop over the 18 field names yields the date, content and voice-input replaces followed by one global replace per field name, in list order, each on the previous result |
| TemplateFormat.ReplaceFromIsLiteral | app.js:627-629 | when the replacement holds no `$`, the global replace puts the replacement in verbatim for every leftmost non-overlapping occurrence |
| TemplateFormat.DollarAmpersandRestoresPlaceholder | app.js:629 | a dictated `$&` replacing `{content}` writes `{content}` back into the note |
| TemplateFormat.Fill | app.js:642-645 | filling slots keeps the number of pieces, and keeps a well-formed template well formed when the value has no `{` |
| TemplateFormat.FormattedResolvesPlaceholders | app.js:609-648 | on a template made of `{`-free text and `{name}` slots, with a transcript and a date free of `{` and `$`, the formatted text is the reference meaning: known placeholders become their values and everything else stays as written |
| TemplateFormat.FormattedLeavesNoKnownPlaceholder | app.js:626-645 | under the same conditions, no `{visit_date}`, `{content}`, `{voice_input}` or field placeholder is left in the result |
| TemplateFormat.VisitNoteExample | app.js:626-629 | the template `{visit_date}の記録: {content}` becomes the date, `の記録: ` and the transcript |
| TemplateFormat.FieldPlaceholderExample | app.js:634-645 | the template `{chief_complaint}` becomes `（音声入力より抽出）` and a line break followed by the transcript |
| Selection.FirstWithId | app.js:234 | the position found holds the id and no earlier position does; no position means the id is absent |
| Selection.PatientForValue | app.js:226-235 | the empty value selects nobody; a selected patient carries the value as its id and is the first roster entry that does; no selection for a non-empty value means no patient has that id |
| Selection.SelectingEntrySelectsIt | app.js:234 | with distinct non-empty ids, choosing an entry's id selects that very entry |
| Selection.TemplateForValue | app.js:505-513 | the empty value selects no template; a selected template carries the value as its id and is the first template in the list that does; no selection for a non-empty value means no template has that id |
| VoiceCommands.LastMentioned | app.js:193-200 | the patient left selected by the scan is mentioned by name or phonetic name and no later patient is; no result exactly when no patient is mentioned |
| VoiceCommands.Interpret | app.js:176-202 | save fires exactly when a save trigger is heard; clear exactly when a clear trigger is heard and no save trigger; a selection exactly when neither is heard, the patient marker is heard and some patient is mentioned, and then it is the last one mentioned |
| VoiceCommands.EmptyKanaMatchesEveryMarkedText | app.js:193-195 | a patient with an empty phonetic name is mentioned by every text, so once the marker is heard the selection lands on that patient or a later one |
| VoiceCommands.EmbeddedSaveTriggerFires | app.js:177-182 | 保存 anywhere inside dictated text triggers a save |
| VoiceCommands.EmbeddedClearTriggerFires | app.js:184-189 | クリア anywhere inside dictated text triggers a clear unless a save trigger is heard too |
| VoiceCommands.CapitalizedNameNeverMatches | app.js:177-195 | only the spoken text is lower-cased, so a patient name holding an ASCII capital is never found by name |
| VoiceCommands.SaveTriggerIsNotBlank | app.js:177-182 | a text that triggers a save is not all white space |
| Records.RecordFor | app.js:248-273 | a save is refused exactly when no patient is selected or the transcript is blank, with the no-patient error first; a record carries the patient's id and name, the ISO timestamp, the formatted trimmed transcript, three empty fields and the template-usage note; without a template the voice text is the trimmed, non-empty transcript |
| Records.SpokenSaveBuildsRecord | app.js:80-84 | once a spoken save has been appended to the transcript, a save with a selected patient always builds a record |
| Dictation.SplitKeepsContents | app.js:71-78 | sorting segments into final and interim text loses and duplicates nothing: together they hold exactly the characters of all segments |
| Dictation.SplitKeepsEveryCharacter | app.js:71-78 | final and interim text are together as long as all segments; all-final events yield no interim text and all-interim events no final text |
| Dictation.CollectSegments | app.js:68-78 | the loop collects, in order, the final and the interim transcripts of the results from `resultIndex` on (none when `resultIndex` is past the end) |
| Dictation.NoticeFor | app.js:92-99 | the no-speech notice exactly for `no-speech`, the microphone notice exactly for `not-allowed`, the generic notice otherwise |
| Dictation.Recognizer.Start | app.js:106-108 | one more `start()` call on the recognizer; whether it throws is open |
| Dictation.Recognizer.Stop | app.js:167-169 | one more `stop()` call on the recognizer |
| Dictation.Session.constructor | app.js:1-8 | not recording, empty transcript, placeholder shown, no selection, the loaded roster and templates |
| Dictation.Session.OnStart | app.js:60-65 | recording begins and the status says so; the transcript and selections are kept |
| Dictation.Session.OnResult | app.js:67-89 | the transcript gains exactly the event's final text and a line break when there is final text, and is otherwise unchanged; a spoken clear empties it; otherwise the old transcript is a prefix of the new one; the display is the transcript followed by the event's interim text; a spoken save builds the record from the extended transcript and succeeds whenever a patient is selected; a spoken selection selects the last mentioned patient |
| Dictation.Session.OnError | app.js:91-101 | every error, `no-speech` included, ends with recording stopped and one `stop()` call; the notice depends on the code |
| Dictation.Session.OnEnd | app.js:103-112 | when not recording nothing changes; when recording there is exactly one `start()` call, and recording goes on exactly when it did not throw; a throw stops recording |
| Dictation.Session.ToggleRecording | app.js:143-154 | without a recognizer nothing changes; when recording it stops; otherwise it asks for one start and changes no session state |
| Dictation.Session.StartRecording | app.js:156-163 | one `start()` call; the recording flag is left to `onstart` |
| Dictation.Session.StopRecording | app.js:165-173 | recording is off and the status reset whatever the prior state; one `stop()` call when a recognizer exists; transcript and selections are kept |
| Dictation.Session.ClearTranscript | app.js:316-320 | the transcript is empty and the placeholder shown, whether recording or not |
| Dictation.Session.HandlePatientChange | app.js:226-245 | the selected patient is the lookup of the dropdown value; the empty value clears the selection |
| Dictation.Session.HandleTemplateChange | app.js:505-516 | the selected template is the lookup of the dropdown value; the empty value clears it |
| Dictation.Session.CheckVoiceCommands | app.js:176-202 | the command `Interpret` gives is carried out: a save attempt from the current state, a clear, or the scan that re-selects at every mentioned patient and so leaves the last one selected; with no command nothing changes |
| Dictation.Session.ScanRoster | app.js:193-200 | after the walk over the roster, the selection is the dropdown lookup of the last mentioned patient's id, or the old selection when nobody is mentioned; nothing else changes |
| Dictation.Session.SaveRecord | app.js:248-273 | the attempt is the record built from the current selection, transcript and clock, refused exactly when no patient is selected or the transcript is blank; no state changes |
| Dictation.Session.OnSaveResponse | app.js:284-311 | a successful save stops recording and keeps the transcript; a failed one changes nothing |

## Left out

- Text.ToLower: only the ASCII, Latin-1 and fullwidth Latin capitals are lower-cased. The full Unicode case mapping of `toLowerCase` is not modelled. The trigger words and kana are unaffected, because they have no case.
- TemplateFormat.FormattedLeavesNoKnownPlaceholder: it is stated only for templates made of `{`-free text and `{name}` slots, with a transcript and a date free of `{` and `$`. Without those conditions the claim is false. The template `{con{content}nt}` with the transcript `te` ends as `{content}`. A dictated `$&` also writes the placeholder back (`DollarAmpersandRestoresPlaceholder`).
- The date strings (`new Date().toISOString()` and the `ja-JP` `toLocaleString`) are the parameter `VisitClock`. The clock and the locale formatting are not modelled.
- The page elements are not modelled. That covers the button and status styling, patient details, the history and template modals, list rendering, scrolling and `innerHTML`. Of the transcript area and the status line, only their text is modelled, as `display` and `status`.
- The network is not modelled. That covers `fetch` for loading patients and templates, posting the record, history, template saving and deletion. The rosters are fixed when the session is built. A save ends at the record that would be posted, and the server's answer is the `ok` argument of `OnSaveResponse`.
- Toasts, `setTimeout`, `confirm` and navigation back to the referring system after a save are not modelled. For `not-allowed` and every other code, `OnError` returns the toast's message. For `no-speech` there is no toast, and the status text written at `app.js:94` is replaced by the idle text at `app.js:171` before the handler returns, so nothing of it reaches the user.
- Dictation.Session.constructor: the initial text of the transcript area and of the status line comes from the page's HTML, which is not part of this model. The constructor assumes they are the cleared placeholder (`ClearedDisplay`) and the idle status (`Idle`).
- Parsing the URL parameters and auto-creating or auto-selecting a patient (`app.js:418-479`) are not modelled; they are browser and network work.
- Dictation.Session.CheckVoiceCommands: the dropdown's `selectedIndex` is not modelled. The scan hands the matched patient's id to `HandlePatientChange` as the dropdown value.
- The recognizer's configuration (language, continuous mode, interim results) and the capability check at start-up are not modelled. A page without a recognizer is a session built with `null`.
