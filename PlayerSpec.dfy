/**
 * The video player's controller as a state machine over values.
 *
 * State: the `ispause` flag, the questionnaire (radio groups, Submit button
 * enabled, grey overlay visible), the current-time label, the video file,
 * the lines appended to the record file, and the commands issued to the
 * media player.  Inputs: a console line (`control_video`), a click on a
 * radio button, a click on Submit (`record_responses`), and the one-second
 * timer refreshing the time label (`update_time`).
 */
module PlayerSpec {
  import opened Wrappers
  import opened Numerals
  import opened TimeFormat
  import opened Questionnaire

  /** The commands the controller issues to the media player, in order. */
  datatype MediaCommand = SetSource(path: string) | Play | Pause

  datatype Player = Player(
    ispause: bool,
    groups: seq<Group>,
    submitEnabled: bool,
    overlayVisible: bool,
    timeLabel: string,
    videoFile: Option<string>,
    record: seq<string>,
    media: seq<MediaCommand>)

  /** The meaning of a console line after `lower()`. */
  datatype Command = TogglePlayback | OpenQuestionnaire | ShowTime | Unknown

  /** What a click on Submit did. */
  datatype SubmitOutcome =
    | Incomplete        // some question unanswered: returned at once
    | Recorded          // one entry appended, questionnaire locked, playback resumed
    | MissingVideoFile  // no video file: joining the record line with None raises TypeError

  datatype Event =
    | Input(line: string)
    | ClickButton(question: nat, option: nat)
    | SubmitClick
    | TimerTick(positionMs: nat)

  /** ASCII case folding; no other character folds to the letters the dispatch compares with. */
  function Lower(s: string): (r: string)
  {
    seq(|s|, i requires 0 <= i < |s| => if 'A' <= s[i] <= 'Z' then (s[i] as int + 32) as char else s[i])
  }

  function ParseCommand(line: string): Command {
    var command := Lower(line);
    if command == "" then TogglePlayback
    else if command == "q" then OpenQuestionnaire
    else if command == "t" then ShowTime
    else Unknown
  }

  /** Case does not matter, and nothing but the one-letter lines `q`/`Q` opens the questionnaire. */
  lemma ParseCommandCases(line: string)
    ensures ParseCommand(line) == TogglePlayback <==> line == ""
    ensures ParseCommand(line) == OpenQuestionnaire <==> line == "q" || line == "Q"
    ensures ParseCommand(line) == ShowTime <==> line == "t" || line == "T"
  {
    if |line| == 1 {
      assert Lower(line) == [Lower(line)[0]];
    }
  }

  /** The lock helper: every group locked, Submit disabled, overlay shown. */
  function Lock(p: Player): (r: Player) {
    p.(groups := seq(|p.groups|, q requires 0 <= q < |p.groups| => LockGroup(p.groups[q])),
       submitEnabled := false,
       overlayVisible := true)
  }

  /** The unlock helper: every group unlocked, Submit enabled, overlay hidden. */
  function Unlock(p: Player): (r: Player) {
    p.(groups := seq(|p.groups|, q requires 0 <= q < |p.groups| => UnlockGroup(p.groups[q])),
       submitEnabled := true,
       overlayVisible := false)
  }

  /** Locked: no button enabled, no answer, Submit disabled, overlay shown. */
  predicate IsLocked(p: Player) {
    && !p.submitEnabled && p.overlayVisible
    && forall q :: 0 <= q < |p.groups| ==>
         && !p.groups[q].exclusive && CheckedButton(p.groups[q]) == None
         && forall o :: 0 <= o < |p.groups[q].buttons| ==> !p.groups[q].buttons[o].enabled
  }

  /** Open: every button enabled, every group exclusive, Submit enabled, overlay hidden. */
  predicate IsOpen(p: Player) {
    && p.submitEnabled && !p.overlayVisible
    && forall q :: 0 <= q < |p.groups| ==>
         && p.groups[q].exclusive
         && forall o :: 0 <= o < |p.groups[q].buttons| ==> p.groups[q].buttons[o].enabled
  }

  /** The player right after construction. */
  function Init(videoFile: Option<string>): Player {
    var start := Player(true, seq(NUM_QUESTIONS, _ => NewGroup()), true, true, "00:00", videoFile, [], []);
    if videoFile.Some? && videoFile.value != "" then
      Lock(start.(media := [SetSource(videoFile.value), Pause], ispause := true))
    else start
  }

  /** One console command of `control_video`. */
  function Control(p: Player, c: Command): Player {
    match c
    case TogglePlayback =>
      if p.ispause then p.(media := p.media + [Play], ispause := false)
      else p.(media := p.media + [Pause], ispause := true)
    case OpenQuestionnaire =>
      var paused := if !p.ispause then p.(media := p.media + [Pause], ispause := true) else p;
      Unlock(paused)
    case ShowTime => p   // prints the current and remaining time only
    case Unknown => p    // prints "Unknown command" only
  }

  /** The lines one accepted Submit appends to the record file. */
  function RecordEntry(timeLabel: string, videoFile: string, responses: seq<string>): seq<string> {
    [timeLabel + " " + videoFile] + responses + [""]
  }

  function SubmitResult(p: Player): SubmitOutcome {
    if !AllAnswered(p.groups) then Incomplete
    else if p.videoFile.None? then MissingVideoFile
    else Recorded
  }

  /** The Submit handler `record_responses`. */
  function Submit(p: Player): Player {
    match Responses(p.groups)
    case None => p
    case Some(lines) =>
      match p.videoFile
      case None => p
      case Some(file) =>
        var written := Lock(p.(record := p.record + RecordEntry(p.timeLabel, file, lines)));
        written.(ispause := false, media := written.media + [Play])
  }

  /** A click on a radio button; a click outside the grid changes nothing. */
  function ClickAt(p: Player, q: nat, o: nat): Player {
    if q < |p.groups| then p.(groups := p.groups[q := Click(p.groups[q], o)]) else p
  }

  /** The one-second timer: the label shows the media position. */
  function UpdateTime(p: Player, positionMs: nat): Player {
    p.(timeLabel := FormatTime(positionMs / 1000))
  }

  function Step(p: Player, e: Event): Player {
    match e
    case Input(line) => Control(p, ParseCommand(line))
    case ClickButton(q, o) => ClickAt(p, q, o)
    case SubmitClick => Submit(p)
    case TimerTick(ms) => UpdateTime(p, ms)
  }

  /** Console lines as input events, in order. */
  function Inputs(lines: seq<string>): (r: seq<Event>)
  {
    seq(|lines|, i requires 0 <= i < |lines| => Input(lines[i]))
  }

  /** The state after a sequence of events, applied first to last. */
  function Run(p: Player, events: seq<Event>): Player {
    if events == [] then p else Step(Run(p, events[..|events| - 1]), events[|events| - 1])
  }

  /**
   * The controller's invariant: four questions of five Likert buttons, at
   * most one checked button per group, and the whole questionnaire either
   * usable (every group exclusive and every button enabled, Submit enabled)
   * or locked (no group exclusive, no button enabled, Submit disabled, no
   * answer, overlay shown).
   */
  predicate Valid(p: Player) {
    && |p.groups| == NUM_QUESTIONS
    && (!p.submitEnabled ==> p.overlayVisible)
    && forall q :: 0 <= q < |p.groups| ==>
         && HasLikertButtons(p.groups[q])
         && AtMostOneChecked(p.groups[q])
         && p.groups[q].exclusive == p.submitEnabled
         && (!p.submitEnabled ==> CheckedButton(p.groups[q]) == None)
         && forall o :: 0 <= o < |p.groups[q].buttons| ==> p.groups[q].buttons[o].enabled == p.submitEnabled
  }

  // ---------------------------------------------------------------------
  // Construction

  /** The player starts paused; with a video file the questionnaire starts locked after SetSource and Pause. */
  lemma InitState(videoFile: Option<string>)
    ensures var p := Init(videoFile);
      && Valid(p) && p.ispause && p.record == [] && p.timeLabel == "00:00"
      && |p.groups| == NUM_QUESTIONS
      && (forall q :: 0 <= q < NUM_QUESTIONS ==> HasLikertButtons(p.groups[q]) && CheckedButton(p.groups[q]) == None)
      && (videoFile.Some? && videoFile.value != "" ==> IsLocked(p) && p.media == [SetSource(videoFile.value), Pause])
      && (videoFile.None? || videoFile.value == "" ==> p.submitEnabled && p.overlayVisible && p.media == [])
  {
    var start := Player(true, seq(NUM_QUESTIONS, _ => NewGroup()), true, true, "00:00", videoFile, [], []);
    forall q | 0 <= q < NUM_QUESTIONS
      ensures CheckedButton(start.groups[q]) == None
    {
      assert forall o :: 0 <= o < NUM_OPTIONS ==> !start.groups[q].buttons[o].checked;
    }
    if videoFile.Some? && videoFile.value != "" {
      LockPreservesValid(start.(media := [SetSource(videoFile.value), Pause], ispause := true));
      LockLocks(start.(media := [SetSource(videoFile.value), Pause], ispause := true));
    }
  }

  // ---------------------------------------------------------------------
  // Lock and unlock

  /** Locking locks, keeps the group count and labels, and touches nothing but the questionnaire. */
  lemma LockLocks(p: Player)
    ensures var r := Lock(p);
      && IsLocked(r) && !AllAnswered(r.groups) == (|p.groups| > 0)
      && |r.groups| == |p.groups|
      && r == p.(groups := r.groups, submitEnabled := false, overlayVisible := true)
  {
    var r := Lock(p);
    forall q | 0 <= q < |p.groups|
      ensures !r.groups[q].exclusive && CheckedButton(r.groups[q]) == None
      ensures forall o :: 0 <= o < |r.groups[q].buttons| ==> !r.groups[q].buttons[o].enabled
    {
      LockGroupClears(p.groups[q]);
    }
    if |p.groups| > 0 {
      assert CheckedButton(r.groups[0]) == None;
    }
  }

  /** Applying the lock helper twice equals applying it once. */
  lemma LockIdempotent(p: Player)
    ensures Lock(Lock(p)) == Lock(p)
  {
    var once := Lock(p);
    forall q | 0 <= q < |p.groups|
      ensures LockGroup(once.groups[q]) == once.groups[q]
    {
      LockGroupIdempotent(p.groups[q]);
    }
    assert Lock(once).groups == once.groups;
  }

  /** Unlocking opens the questionnaire and keeps every selection and everything else. */
  lemma UnlockOpens(p: Player)
    ensures var r := Unlock(p);
      && IsOpen(r) && |r.groups| == |p.groups|
      && (forall q :: 0 <= q < |p.groups| ==> CheckedButton(r.groups[q]) == CheckedButton(p.groups[q]))
      && r == p.(groups := r.groups, submitEnabled := true, overlayVisible := false)
  {
    forall q | 0 <= q < |p.groups|
      ensures CheckedButton(Unlock(p).groups[q]) == CheckedButton(p.groups[q])
    {
      UnlockGroupEnables(p.groups[q]);
    }
  }

  /** Locking after unlocking is just locking. */
  lemma LockAfterUnlock(p: Player)
    ensures Lock(Unlock(p)) == Lock(p)
  {
    forall q | 0 <= q < |p.groups|
      ensures LockGroup(UnlockGroup(p.groups[q])) == LockGroup(p.groups[q])
    {
      Questionnaire.LockAfterUnlock(p.groups[q]);
    }
    assert Lock(Unlock(p)).groups == Lock(p).groups;
  }

  lemma LockPreservesValid(p: Player)
    requires |p.groups| == NUM_QUESTIONS
    requires forall q :: 0 <= q < |p.groups| ==> HasLikertButtons(p.groups[q])
    ensures Valid(Lock(p))
  {
    LockLocks(p);
    forall q | 0 <= q < |p.groups|
      ensures HasLikertButtons(Lock(p).groups[q]) && AtMostOneChecked(Lock(p).groups[q])
    {
      LockGroupClears(p.groups[q]);
    }
  }

  lemma UnlockPreservesValid(p: Player)
    requires Valid(p)
    ensures Valid(Unlock(p))
  {
    var r := Unlock(p);
    forall q | 0 <= q < |p.groups|
      ensures HasLikertButtons(r.groups[q]) && AtMostOneChecked(r.groups[q])
    {
      UnlockGroupEnables(p.groups[q]);
    }
    UnlockOpens(p);
  }

  // ---------------------------------------------------------------------
  // Console commands

  /** The empty line flips `ispause`, issuing Play when it was paused and Pause when it was playing; nothing else changes. */
  lemma ToggleFlips(p: Player)
    ensures var r := Control(p, TogglePlayback);
      && r.ispause == !p.ispause
      && r.media == p.media + [if p.ispause then Play else Pause]
      && r.(media := p.media, ispause := p.ispause) == p
  {
  }

  /** Two empty lines restore `ispause` and the questionnaire; the media player saw one Play and one Pause. */
  lemma ToggleTwice(p: Player)
    ensures Control(Control(p, TogglePlayback), TogglePlayback)
         == p.(media := p.media + if p.ispause then [Play, Pause] else [Pause, Play])
  {
  }

  /** `q` always leaves the player paused, issues Pause only when it was playing, and opens the questionnaire keeping the selections. */
  lemma OpenQuestionnairePauses(p: Player)
    ensures var r := Control(p, OpenQuestionnaire);
      && r.ispause && IsOpen(r)
      && r.media == p.media + (if p.ispause then [] else [Pause])
      && r.record == p.record && r.timeLabel == p.timeLabel && r.videoFile == p.videoFile
      && |r.groups| == |p.groups|
      && (forall q :: 0 <= q < |p.groups| ==> CheckedButton(r.groups[q]) == CheckedButton(p.groups[q]))
  {
    var paused := if !p.ispause then p.(media := p.media + [Pause], ispause := true) else p;
    UnlockOpens(paused);
  }

  /** A second `q` changes nothing. */
  lemma OpenQuestionnaireIdempotent(p: Player)
    ensures Control(Control(p, OpenQuestionnaire), OpenQuestionnaire) == Control(p, OpenQuestionnaire)
  {
    var once := Control(p, OpenQuestionnaire);
    OpenQuestionnairePauses(p);
    forall q | 0 <= q < |once.groups|
      ensures UnlockGroup(once.groups[q]) == once.groups[q]
    {
      var g := once.groups[q];
      assert UnlockGroup(g).buttons == g.buttons;
    }
    assert Unlock(once).groups == once.groups;
  }

  /** `t` and every unrecognised line change no state at all. */
  lemma OtherCommandsInert(p: Player, line: string)
    requires ParseCommand(line) == ShowTime || ParseCommand(line) == Unknown
    ensures Step(p, Input(line)) == p
  {
  }

  /**
   * Nothing guards the empty line while the questionnaire is open: from a
   * freshly opened questionnaire it resumes playback and the questionnaire
   * stays open.
   */
  lemma PlaybackResumesWhileQuestionnaireOpen(p: Player)
    ensures var asked := Control(p, OpenQuestionnaire);
      var r := Control(asked, TogglePlayback);
      IsOpen(r) && !r.ispause && r.media[|r.media| - 1] == Play
  {
    OpenQuestionnairePauses(p);
  }

  // ---------------------------------------------------------------------
  // Submit

  /** With any question unanswered Submit returns at once: no entry, no lock, no change to `ispause`. */
  lemma SubmitIncompleteIgnored(p: Player)
    requires !AllAnswered(p.groups)
    ensures SubmitResult(p) == Incomplete && Submit(p) == p
  {
  }

  /** Without a video file a fully answered Submit fails before writing a line; the state is unchanged. */
  lemma SubmitWithoutVideoFile(p: Player)
    requires AllAnswered(p.groups) && p.videoFile.None?
    ensures SubmitResult(p) == MissingVideoFile && Submit(p) == p
  {
  }

  /**
   * A fully answered Submit appends exactly one entry: the time label and
   * the video file, one `Q{i}: {answer}` line per question numbered from 1,
   * and a blank line.  Then the questionnaire is locked and playback
   * resumes with one Play.
   */
  lemma SubmitRecords(p: Player)
    requires AllAnswered(p.groups) && p.videoFile.Some?
    ensures var r := Submit(p);
      && SubmitResult(p) == Recorded
      && |r.record| == |p.record| + |p.groups| + 2
      && r.record[..|p.record|] == p.record
      && r.record[|p.record|] == p.timeLabel + " " + p.videoFile.value
      && (forall q :: 0 <= q < |p.groups| ==>
            r.record[|p.record| + 1 + q] == ResponseLine(q + 1, AnswerText(p.groups[q])))
      && (forall q :: 0 <= q < |p.groups| ==>
            ParseResponseLine(r.record[|p.record| + 1 + q]) == Some((q + 1, AnswerText(p.groups[q]))))
      && r.record[|r.record| - 1] == ""
      && IsLocked(r) && !r.ispause && r.media == p.media + [Play]
      && r.timeLabel == p.timeLabel && r.videoFile == p.videoFile
  {
    var lines := Responses(p.groups).value;
    var r := Submit(p);
    var entry := RecordEntry(p.timeLabel, p.videoFile.value, lines);
    LockLocks(p.(record := p.record + entry));
    forall q | 0 <= q < |p.groups|
      ensures r.record[|p.record| + 1 + q] == ResponseLine(q + 1, AnswerText(p.groups[q]))
      ensures ParseResponseLine(r.record[|p.record| + 1 + q]) == Some((q + 1, AnswerText(p.groups[q])))
    {
      assert r.record[|p.record| + 1 + q] == lines[q];
      ResponsesInOrder(p.groups, q);
    }
  }

  /** After an accepted Submit the answers are cleared, so a second Submit is ignored. */
  lemma SubmitTwiceRecordsOnce(p: Player)
    requires Valid(p) && SubmitResult(p) == Recorded
    ensures SubmitResult(Submit(p)) == Incomplete
    ensures Submit(Submit(p)) == Submit(p)
  {
    SubmitRecords(p);
    assert CheckedButton(Submit(p).groups[0]) == None;
  }

  lemma SubmitPreservesValid(p: Player)
    requires Valid(p)
    ensures Valid(Submit(p))
  {
    if SubmitResult(p) == Recorded {
      var lines := Responses(p.groups).value;
      LockPreservesValid(p.(record := p.record + RecordEntry(p.timeLabel, p.videoFile.value, lines)));
    }
  }

  // ---------------------------------------------------------------------
  // Whole runs

  lemma StepPreservesValid(p: Player, e: Event)
    requires Valid(p)
    ensures Valid(Step(p, e))
  {
    match e
    case Input(line) =>
      if ParseCommand(line) == OpenQuestionnaire {
        var paused := if !p.ispause then p.(media := p.media + [Pause], ispause := true) else p;
        UnlockPreservesValid(paused);
      }
    case ClickButton(q, o) =>
      if q < |p.groups| {
        ClickKeepsShape(p.groups[q], o);
        if !p.submitEnabled {
          ClickOnDisabledIgnored(p.groups[q], o);
        }
      }
    case SubmitClick =>
      SubmitPreservesValid(p);
    case TimerTick(_) =>
  }

  /** The invariant holds after every sequence of inputs. */
  lemma {:induction false} RunPreservesValid(p: Player, events: seq<Event>)
    requires Valid(p)
    ensures Valid(Run(p, events))
  {
    if events != [] {
      RunPreservesValid(p, events[..|events| - 1]);
      StepPreservesValid(Run(p, events[..|events| - 1]), events[|events| - 1]);
    }
  }

  /** The number of Submit clicks in a run that appended an entry. */
  function RecordedCount(p: Player, events: seq<Event>): nat {
    if events == [] then 0
    else
      var before := Run(p, events[..|events| - 1]);
      RecordedCount(p, events[..|events| - 1])
        + if events[|events| - 1] == SubmitClick && SubmitResult(before) == Recorded then 1 else 0
  }

  /** One input appends a whole entry to the record when it is an accepted Submit, and nothing otherwise. */
  lemma StepRecord(p: Player, e: Event)
    requires Valid(p)
    ensures p.record <= Step(p, e).record
    ensures |Step(p, e).record| == |p.record| + if e == SubmitClick && SubmitResult(p) == Recorded then NUM_QUESTIONS + 2 else 0
  {
    if e == SubmitClick && SubmitResult(p) == Recorded {
      SubmitRecords(p);
    }
  }

  /** The record is append-only: every run keeps the earlier lines as a prefix. */
  lemma {:induction false} RecordAppendOnly(p: Player, events: seq<Event>)
    requires Valid(p)
    ensures p.record <= Run(p, events).record
  {
    if events != [] {
      var prefix := events[..|events| - 1];
      RecordAppendOnly(p, prefix);
      RunPreservesValid(p, prefix);
      StepRecord(Run(p, prefix), events[|events| - 1]);
    }
  }

  /** A run appends exactly one entry of question-count-plus-two lines per accepted Submit, and no other line. */
  lemma {:induction false} RecordGrowsPerAcceptedSubmit(p: Player, events: seq<Event>)
    requires Valid(p)
    ensures |Run(p, events).record| == |p.record| + (NUM_QUESTIONS + 2) * RecordedCount(p, events)
  {
    if events != [] {
      var prefix := events[..|events| - 1];
      RecordGrowsPerAcceptedSubmit(p, prefix);
      RunPreservesValid(p, prefix);
      StepRecord(Run(p, prefix), events[|events| - 1]);
    }
  }

  /** The inputs of a viewer who opens the questionnaire with `q` and answers 3, 1, 5, 2. */
  const ANSWERING: seq<Event> := [Input("q"), ClickButton(0, 2), ClickButton(1, 0), ClickButton(2, 4), ClickButton(3, 1)]

  /** On an open questionnaire, clicking answers 3, 1, 5, 2 yields the four response lines in order. */
  lemma AnsweringClicks(s1: Player)
    requires Valid(s1) && s1.submitEnabled
    ensures var s5 := ClickAt(ClickAt(ClickAt(ClickAt(s1, 0, 2), 1, 0), 2, 4), 3, 1);
      && s5 == s1.(groups := s5.groups)
      && Responses(s5.groups) == Some(["Q1: 3", "Q2: 1", "Q3: 5", "Q4: 2"])
  {
    var g := s1.groups;
    assert g[0].buttons[2].enabled && g[1].buttons[0].enabled && g[2].buttons[4].enabled && g[3].buttons[1].enabled;
    var answered := [Click(g[0], 2), Click(g[1], 0), Click(g[2], 4), Click(g[3], 1)];
    assert ClickAt(ClickAt(ClickAt(ClickAt(s1, 0, 2), 1, 0), 2, 4), 3, 1).groups == answered;
    ClickAnswers(g[0], 2);
    ClickAnswers(g[1], 0);
    ClickAnswers(g[2], 4);
    ClickAnswers(g[3], 1);
    assert AllAnswered(answered);
    var lines := Responses(answered).value;
    assert Decimal(1) == "1" && Decimal(2) == "2" && Decimal(3) == "3" && Decimal(4) == "4";
    assert lines[0] == "Q1: 3" && lines[1] == "Q2: 1" && lines[2] == "Q3: 5" && lines[3] == "Q4: 2";
    assert lines == ["Q1: 3", "Q2: 1", "Q3: 5", "Q4: 2"];
  }

  /** After `q` and one click per question the questionnaire is fully answered; nothing is recorded yet. */
  lemma SessionAnswering(file: string)
    requires file != ""
    ensures var s := Run(Init(Some(file)), ANSWERING);
      && s.ispause && s.record == [] && s.timeLabel == "00:00" && s.videoFile == Some(file)
      && s.media == [SetSource(file), Pause]
      && Responses(s.groups) == Some(["Q1: 3", "Q2: 1", "Q3: 5", "Q4: 2"])
  {
    var s0 := Init(Some(file));
    InitState(Some(file));
    ParseCommandCases("q");
    var s1 := Step(s0, Input("q"));
    OpenQuestionnairePauses(s0);
    StepPreservesValid(s0, Input("q"));
    var s2 := Step(s1, ClickButton(0, 2));
    var s3 := Step(s2, ClickButton(1, 0));
    var s4 := Step(s3, ClickButton(2, 4));
    var s5 := Step(s4, ClickButton(3, 1));
    assert Run(s0, ANSWERING[..1]) == s1 by { assert ANSWERING[..1][..0] == []; }
    assert Run(s0, ANSWERING[..2]) == s2 by { assert ANSWERING[..2][..1] == ANSWERING[..1]; }
    assert Run(s0, ANSWERING[..3]) == s3 by { assert ANSWERING[..3][..2] == ANSWERING[..2]; }
    assert Run(s0, ANSWERING[..4]) == s4 by { assert ANSWERING[..4][..3] == ANSWERING[..3]; }
    assert Run(s0, ANSWERING) == s5 by { assert ANSWERING[..4] == ANSWERING[..|ANSWERING| - 1]; }
    AnsweringClicks(s1);
  }

  /**
   * A complete session: open the questionnaire with `q`, answer 3, 1, 5, 2
   * and press Submit.  One entry is written, the questionnaire is locked
   * again and playback resumes.
   */
  lemma SessionScenario(file: string)
    requires file != ""
    ensures var s := Run(Init(Some(file)), ANSWERING + [SubmitClick]);
      && s.record == ["00:00 " + file, "Q1: 3", "Q2: 1", "Q3: 5", "Q4: 2", ""]
      && !s.ispause && IsLocked(s)
      && s.media == [SetSource(file), Pause, Play]
  {
    var s5 := Run(Init(Some(file)), ANSWERING);
    SessionAnswering(file);
    var es := ANSWERING + [SubmitClick];
    assert es[..|es| - 1] == ANSWERING;
    var lines := ["Q1: 3", "Q2: 1", "Q3: 5", "Q4: 2"];
    var written := s5.(record := RecordEntry("00:00", file, lines));
    assert Run(Init(Some(file)), es) == Lock(written).(ispause := false, media := written.media + [Play]);
    LockLocks(written);
    assert "00:00" + " " + file == "00:00 " + file;
  }
}
