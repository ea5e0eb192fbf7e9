# Video player engagement questionnaire — a Dafny model

This project models the controller at the centre of the research video player
(`video_player/videoPlayer.py`). The controller plays a video and, on request,
opens a Likert-scale engagement questionnaire. The Submit button records the
answers to a text file and resumes playback. The model has:

- the `ispause` flag;
- the questionnaire: four questions, each an exclusive group of five radio
  buttons "1".."5", each button with a checked flag and an enabled flag, plus the
  Submit button's enabled flag and the visibility of the grey overlay;
- the text of the current-time label;
- the video file;
- the lines appended to the record file;
- the commands issued to the media player (`SetSource`, `Play`, `Pause`), kept as a trace.

The model has four inputs:

- a console line, dispatched by `control_video`:
  - the empty line toggles playback;
  - `q` pauses and opens the questionnaire;
  - `t` and anything else only print;
- a click on a radio button;
- a click on Submit (`record_responses`);
- the one-second timer refreshing the time label (`update_time`).

Layout:

- `Numerals.dfy`: decimal numerals as Python prints them, and reading them back.
- `TimeFormat.dfy`: `format_time` over whole seconds, with its inverse `ParseTime`.
- `Questionnaire.dfy`: radio groups as values. It covers what the lock and unlock
  loops do to one group, a click, the checked button, and the response lines.
- `PlayerSpec.dfy`: the player state as a value. It has one function per handler
  (`Init`, `Lock`, `Unlock`, `Control`, `Submit`, `ClickAt`, `UpdateTime`), a
  whole run of inputs (`Run`), the invariant `Valid`, and the lemmas.
- `Player.dfy`: the `VideoPlayer` class. Its fields are updated in place, and the
  radio grid is held in arrays. Each handler method is proved to change the
  abstract state `Model()` exactly as the matching `PlayerSpec` function does. So
  every lemma about those functions also holds for the object.

Behaviour of the code that the model keeps:

- The only way to open the questionnaire is the `q` command.
- The empty line toggles playback even while the questionnaire is open
  (`PlayerSpec.PlaybackResumesWhileQuestionnaireOpen`).
- The record file holds only Submit entries. Each entry is the time label
  followed by the video file, one `Q{i}: {answer}` line per question, and a
  blank line.
- A Submit with any question unanswered is ignored.

Further details:

- `if video_file:` treats an empty path like no path. With either, the player
  starts with the questionnaire enabled but the overlay still shown.
- Without a video file, a fully answered Submit adds `None` to a string and
  raises `TypeError` before any line is written, and the program ends. The
  model reports this as `MissingVideoFile`, changes no state, and does not
  model the ending (see "Left out").
- Qt's `checkedButton()` is modelled as the first checked button. The invariant
  keeps at most one button checked per group, so the first checked button is the
  only one.
- A click follows Qt's radio-button behaviour: a disabled button ignores the
  click, and an enabled one becomes the only checked button of its group.
  Buttons are enabled exactly while their group is exclusive, so clicks on a
  non-exclusive group never arise.

## Model

| member | source | states |
|---|---|---|
| Numerals.Decimal | video_player/videoPlayer.py:218 | `str(n)`: at least one digit, all digits, one digit exactly below 10, no leading zero except for 0 |
| Numerals.ValueOfDecimal | video_player/videoPlayer.py:218 | reading a printed number back gives the number |
| Numerals.ValueOfLeadingZero | video_player/videoPlayer.py:211 | the zero padding of `{n:02}` does not change the value |
| Numerals.DecimalInjective | video_player/videoPlayer.py:218 | different question numbers print differently |
| TimeFormat.Pad2 | video_player/videoPlayer.py:211 | `{n:02}`: at least two digits, exactly two below 100, no leading zero when longer than two, value n |
| TimeFormat.FormatTime | video_player/videoPlayer.py:207-211 | the label is two digit fields joined by `:`; the first field is the whole minutes (at least two digits), the last two digits are the seconds remainder, always in 0..59; below 100 minutes the label is exactly `MM:SS` (five characters), and a longer label has no leading zero |
| TimeFormat.FormatTimeRoundTrip | video_player/videoPlayer.py:207-211 | every label parses back to the seconds it was made from |
| TimeFormat.FormatTimeInjective | video_player/videoPlayer.py:207-211 | different whole-second positions give different labels |
| TimeFormat.LabelOfMilliseconds | video_player/videoPlayer.py:199-202 | for a position in milliseconds the label shows position div 60000 minutes and (position div 1000) mod 60 seconds |
| TimeFormat.FormatTimeExamples | video_player/videoPlayer.py:207-211 | 0 s gives "00:00", 125 s gives "02:05", 6000 s gives "100:00" (no hour field) |
| Questionnaire.NewGroup | video_player/videoPlayer.py:76-90 | a new group is exclusive and has the buttons "1".."5" in order, all enabled and unchecked |
| Questionnaire.NewGroupUnanswered | video_player/videoPlayer.py:76-90 | a group as built has no checked button, so its question starts unanswered |
| Questionnaire.FirstChecked | video_player/videoPlayer.py:216 | the result is a checked button with no checked button before it, and it is None exactly when no button is checked |
| Questionnaire.CheckedButtonIsTheCheckedOne | video_player/videoPlayer.py:216 | with at most one checked button, the group's checked button is o if and only if button o is checked |
| Questionnaire.LockGroupClears | video_player/videoPlayer.py:150-154 | a locked group is not exclusive and has no answer and no enabled button; its size and labels are kept |
| Questionnaire.LockGroupIdempotent | video_player/videoPlayer.py:150-154 | locking a group twice equals locking it once |
| Questionnaire.UnlockGroupEnables | video_player/videoPlayer.py:165-170 | an unlocked group is exclusive with every button enabled; checks, answer and labels are kept |
| Questionnaire.LockAfterUnlock | video_player/videoPlayer.py:148-170 | locking after unlocking equals locking |
| Questionnaire.ClickAnswers | video_player/videoPlayer.py:76-90 | a click on an enabled button makes it the group's answer, with that button's text, and leaves at most one button checked |
| Questionnaire.ClickOnDisabledIgnored | video_player/videoPlayer.py:154 | a click on a disabled (locked) button changes nothing |
| Questionnaire.ClickKeepsShape | video_player/videoPlayer.py:76-90 | clicks keep exclusivity, labels and enabled flags, and never leave two buttons checked |
| Questionnaire.Responses | video_player/videoPlayer.py:214-220 | response lines exist exactly when every question is answered, one per question |
| Questionnaire.ResponseLineRoundTrip | video_player/videoPlayer.py:218 | a `Q{i}: {answer}` line parses back to (i, answer) |
| Questionnaire.ResponsesInOrder | video_player/videoPlayer.py:215-218 | the k-th response line is exactly `Q{k+1}: {answer}` for the k-th question's checked answer, and it parses back to that pair |
| Questionnaire.AnswerIsLikert | video_player/videoPlayer.py:63-80 | every recorded answer is one of "1".."5" |
| PlayerSpec.ParseCommandCases | video_player/videoPlayer.py:245-268 | after `lower()`, the empty line toggles, `q`/`Q` and nothing else opens the questionnaire, and `t`/`T` shows the time |
| PlayerSpec.InitState | video_player/videoPlayer.py:140-144 | construction: paused, empty record, label "00:00", four unanswered Likert questions; with a non-empty video file it is locked after SetSource and Pause; otherwise Submit is enabled, the overlay is shown and no media command is issued |
| PlayerSpec.LockLocks | video_player/videoPlayer.py:148-161 | lock: no answer, no enabled button, no exclusive group, Submit disabled, overlay shown; nothing outside the questionnaire changes |
| PlayerSpec.LockIdempotent | video_player/videoPlayer.py:148-161 | applying lock twice equals applying it once |
| PlayerSpec.UnlockOpens | video_player/videoPlayer.py:163-176 | unlock: every button enabled, every group exclusive, Submit enabled, overlay hidden; selections and everything else kept |
| PlayerSpec.LockAfterUnlock | video_player/videoPlayer.py:148-176 | lock after unlock equals lock |
| PlayerSpec.LockPreservesValid | video_player/videoPlayer.py:148-161 | lock establishes the controller invariant |
| PlayerSpec.UnlockPreservesValid | video_player/videoPlayer.py:163-176 | unlock keeps the controller invariant |
| PlayerSpec.ToggleFlips | video_player/videoPlayer.py:247-253 | the empty line flips `ispause` and issues Play if it was paused or Pause if it was playing; nothing else changes |
| PlayerSpec.ToggleTwice | video_player/videoPlayer.py:247-253 | two empty lines restore `ispause` and the questionnaire, after one Play and one Pause |
| PlayerSpec.OpenQuestionnairePauses | video_player/videoPlayer.py:254-258 | `q` leaves `ispause` true, issues Pause only if playing, and opens the questionnaire with the selections kept; the record, label and file are unchanged |
| PlayerSpec.OpenQuestionnaireIdempotent | video_player/videoPlayer.py:254-258 | a second `q` changes nothing |
| PlayerSpec.OtherCommandsInert | video_player/videoPlayer.py:268-276 | `t` and unrecognised lines change no state |
| PlayerSpec.PlaybackResumesWhileQuestionnaireOpen | video_player/videoPlayer.py:247-258 | after `q`, an empty line resumes playback and the questionnaire stays open |
| PlayerSpec.SubmitIncompleteIgnored | video_player/videoPlayer.py:214-220 | with any question unanswered, Submit returns at once and leaves the state unchanged |
| PlayerSpec.SubmitWithoutVideoFile | video_player/videoPlayer.py:226-227 | with no video file, a complete Submit fails before writing and leaves the state unchanged |
| PlayerSpec.SubmitRecords | video_player/videoPlayer.py:224-238 | a complete Submit appends exactly the label-and-file line, the lines `Q{q+1}: {answer}` in question order (text fixed exactly, and each parses back to its question and answer) and a blank line; then the questionnaire is locked, `ispause` is false and one Play is issued |
| PlayerSpec.SubmitTwiceRecordsOnce | video_player/videoPlayer.py:212-238 | after an accepted Submit, a second Submit is ignored |
| PlayerSpec.SubmitPreservesValid | video_player/videoPlayer.py:212-238 | Submit keeps the controller invariant |
| PlayerSpec.StepPreservesValid | video_player/videoPlayer.py:242-276 | every input keeps the controller invariant |
| PlayerSpec.RunPreservesValid | video_player/videoPlayer.py:242-276 | the invariant holds after any sequence of inputs |
| PlayerSpec.StepRecord | video_player/videoPlayer.py:226-233 | one input appends a whole entry if it is an accepted Submit, and nothing otherwise |
| PlayerSpec.RecordAppendOnly | video_player/videoPlayer.py:226-233 | the record only grows: earlier lines stay a prefix |
| PlayerSpec.RecordGrowsPerAcceptedSubmit | video_player/videoPlayer.py:226-233 | the record grows by six lines per accepted Submit and by nothing else |
| PlayerSpec.AnsweringClicks | video_player/videoPlayer.py:215-218 | answering 3, 1, 5, 2 on an open questionnaire gives the lines "Q1: 3" .. "Q4: 2" |
| PlayerSpec.SessionAnswering | video_player/videoPlayer.py:254-258 | after `q` and four clicks the player is paused, has recorded nothing and is fully answered |
| PlayerSpec.SessionScenario | video_player/videoPlayer.py:224-238 | the whole session writes one entry, locks the questionnaire and issues SetSource, Pause, Play |
| Player.VideoPlayer.constructor | video_player/videoPlayer.py:140-144 | the new object's state is `Init(videoFile)` and satisfies the invariant |
| Player.VideoPlayer.FreshGrid | video_player/videoPlayer.py:70-92 | the grid as built is four new groups |
| Player.VideoPlayer.LockGroupAt | video_player/videoPlayer.py:150-154 | the inner lock loop turns the group into `LockGroup` of it; the other groups are unchanged |
| Player.VideoPlayer.UnlockGroupAt | video_player/videoPlayer.py:165-170 | the inner unlock loop turns the group into `UnlockGroup` of it; the other groups are unchanged |
| Player.VideoPlayer.LockQuestionnaire | video_player/videoPlayer.py:148-161 | the new state is `Lock` of the old |
| Player.VideoPlayer.UnlockQuestionnaire | video_player/videoPlayer.py:163-176 | the new state is `Unlock` of the old |
| Player.VideoPlayer.CheckedButtonAt | video_player/videoPlayer.py:216 | returns the group's checked button |
| Player.VideoPlayer.ClickRadioButton | video_player/videoPlayer.py:76-90 | the new state is `ClickAt` of the old, and the invariant is kept |
| Player.VideoPlayer.UpdateTime | video_player/videoPlayer.py:197-203 | the label becomes `FormatTime(position div 1000)` |
| Player.VideoPlayer.CollectResponses | video_player/videoPlayer.py:214-220 | the response loop returns the response lines, or None at the first unanswered question |
| Player.VideoPlayer.RecordResponses | video_player/videoPlayer.py:212-238 | the outcome is `SubmitResult` and the new state is `Submit` of the old; the invariant is kept |
| Player.VideoPlayer.HandleCommand | video_player/videoPlayer.py:245-276 | the new state is `Control` of the old under the parsed command; the invariant is kept |
| Player.VideoPlayer.ControlVideo | video_player/videoPlayer.py:242-276 | after the lines read, the state is `Run` of the old state over those lines |

## Left out

- Qt widget construction, styling, layouts, the timer object and thread
  marshalling (`QMetaObject.invokeMethod`) are GUI plumbing. Each input is one
  atomic step; the interleaving of the console thread with the GUI thread is not modelled.
- Media playback itself: `setSource`, `play` and `pause` appear only as commands in a trace.
- Printing, to the console and in the `t` branch: output only, no state.
- The record file's path is derived from the clock. Opening, writing and closing
  the file are I/O: the file is modelled as the sequence of lines written in this session.
- `input()` and its end of file: `ControlVideo` handles a finite list of lines already read.
- `lower()` is modelled for ASCII letters only. No other character lowers to the letters the dispatch compares with.
- `format_time` on float seconds, and the negative remaining time of the `t`
  branch. The model uses whole non-negative seconds and integer milliseconds.
- `update_progress`, `update_duration` and `set_position` use a progress slider whose creation is commented out, so they are dead code.
- `open_file` is never called.
- `parse_args` and the `__main__` block: argument parsing and application start-up.
- The eye-tracker recorder and its test script: a polling loop over a proprietary SDK, with sleeps and threads.
- Player.VideoPlayer.ClickRadioButton: Qt's click handling in a non-exclusive group is not modelled, because no button of such a group is ever enabled.
- PlayerSpec.Submit: with no video file, a fully answered Submit prints the `User Responses:` header, opens (and so creates) the record file in append mode, then raises `TypeError`. The exception escapes the Qt slot and, under PyQt's default handling, ends the program. The model treats this case as a `MissingVideoFile` outcome with no state change, and `Run` goes on handling later inputs. The header printing, the file creation and the program's end are not modelled.
- Where the questionnaire is shown: the line that would add the questionnaire layout to the main window is commented out (video_player/videoPlayer.py:126), and the group box and Submit button have no parent, so as written they are not placed in the shown window. The model still takes radio-button clicks and Submit clicks as inputs, as the handlers connected to them define.
