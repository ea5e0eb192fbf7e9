/**
 * The `VideoPlayer` object: the fields the controller updates in place and
 * its handlers.  The radio buttons form a fixed grid, question by answer;
 * `checked`, `enabled` and `exclusive` hold their flags.  Each method is
 * proved to move the abstract state `Model()` exactly as the matching
 * function of PlayerSpec does, so every lemma proved there holds of the
 * object.
 */
module Player {
  import opened Wrappers
  import opened TimeFormat
  import opened Questionnaire
  import opened PlayerSpec

  class VideoPlayer {
    var ispause: bool
    const videoFile: Option<string>
    /** The text of the current-time label. */
    var timeLabel: string
    /** checked[q, o], enabled[q, o]: the radio button of answer o to question q. */
    const checked: array2<bool>
    const enabled: array2<bool>
    /** exclusive[q]: the button group of question q is exclusive. */
    const exclusive: array<bool>
    var submitEnabled: bool
    var overlayVisible: bool
    /** The lines written to the record file. */
    var record: seq<string>
    /** The commands issued to the media player. */
    var media: seq<MediaCommand>

    ghost predicate Shaped() {
      && checked.Length0 == NUM_QUESTIONS && checked.Length1 == NUM_OPTIONS
      && enabled.Length0 == NUM_QUESTIONS && enabled.Length1 == NUM_OPTIONS
      && exclusive.Length == NUM_QUESTIONS
      && checked != enabled
    }

    ghost function GroupAt(q: nat): Group
      requires Shaped() && q < NUM_QUESTIONS
      reads checked, enabled, exclusive
    {
      Group(exclusive[q], seq(NUM_OPTIONS, o requires 0 <= o < NUM_OPTIONS reads checked, enabled =>
        Button(LIKERT_OPTIONS[o], checked[q, o], enabled[q, o])))
    }

    /** The abstract state of the player. */
    ghost function Model(): Player
      requires Shaped()
      reads this, checked, enabled, exclusive
    {
      Player(ispause,
        seq(NUM_QUESTIONS, q requires 0 <= q < NUM_QUESTIONS reads checked, enabled, exclusive => GroupAt(q)),
        submitEnabled, overlayVisible, timeLabel, videoFile, record, media)
    }

    ghost predicate Valid()
      reads this, checked, enabled, exclusive
    {
      Shaped() && PlayerSpec.Valid(Model())
    }

    /** Construction: paused; with a video file, load it, pause and lock the questionnaire. */
    constructor (videoFile: Option<string>)
      ensures Valid() && Model() == Init(videoFile)
      ensures fresh(checked) && fresh(enabled) && fresh(exclusive)
    {
      this.videoFile := videoFile;
      ispause := true;
      timeLabel := "00:00";
      checked := new bool[NUM_QUESTIONS, NUM_OPTIONS]((_, _) => false);
      enabled := new bool[NUM_QUESTIONS, NUM_OPTIONS]((_, _) => true);
      exclusive := new bool[NUM_QUESTIONS](_ => true);
      submitEnabled, overlayVisible := true, true;
      record, media := [], [];
      new;
      FreshGrid();
      ghost var start := Model();
      if videoFile.Some? && videoFile.value != "" {
        media := media + [SetSource(videoFile.value)];
        ispause := true;
        media := media + [Pause];
        LockQuestionnaire();
        assert Model() == Lock(start.(media := [SetSource(videoFile.value), Pause], ispause := true));
      }
      assert Model() == Init(videoFile);
      InitState(videoFile);
    }

    /** The grid as construction leaves it is four new groups. */
    lemma FreshGrid()
      requires Shaped()
      requires forall q, o :: 0 <= q < NUM_QUESTIONS && 0 <= o < NUM_OPTIONS ==> !checked[q, o] && enabled[q, o]
      requires forall q :: 0 <= q < NUM_QUESTIONS ==> exclusive[q]
      ensures Model().groups == seq(NUM_QUESTIONS, _ => NewGroup())
    {
      forall q | 0 <= q < NUM_QUESTIONS
        ensures GroupAt(q) == NewGroup()
      {
        assert GroupAt(q).buttons == NewGroup().buttons;
      }
    }

    /** Locks the button group of question q. */
    method LockGroupAt(q: nat)
      requires Shaped() && q < NUM_QUESTIONS
      modifies checked, enabled, exclusive
      ensures GroupAt(q) == LockGroup(old(GroupAt(q)))
      ensures forall i :: 0 <= i < NUM_QUESTIONS && i != q ==> GroupAt(i) == old(GroupAt(i))
    {
      ghost var before := GroupAt(q);
      exclusive[q] := false;
      var o := 0;
      while o < NUM_OPTIONS
        invariant 0 <= o <= NUM_OPTIONS
        invariant forall j :: 0 <= j < o ==> !checked[q, j] && !enabled[q, j]
        invariant forall i, j :: 0 <= i < NUM_QUESTIONS && 0 <= j < NUM_OPTIONS && (i != q || o <= j) ==>
                    checked[i, j] == old(checked[i, j]) && enabled[i, j] == old(enabled[i, j])
        invariant !exclusive[q]
        invariant forall i :: 0 <= i < NUM_QUESTIONS && i != q ==> exclusive[i] == old(exclusive[i])
      {
        checked[q, o] := false;
        enabled[q, o] := false;
        o := o + 1;
      }
      forall j | 0 <= j < NUM_OPTIONS
        ensures GroupAt(q).buttons[j] == LockGroup(before).buttons[j]
      {
        assert before.buttons[j] == Button(LIKERT_OPTIONS[j], old(checked[q, j]), old(enabled[q, j]));
      }
      assert GroupAt(q).buttons == LockGroup(before).buttons;
      assert GroupAt(q) == LockGroup(before);
      forall i | 0 <= i < NUM_QUESTIONS && i != q
        ensures GroupAt(i) == old(GroupAt(i))
      {
        forall j | 0 <= j < NUM_OPTIONS
          ensures GroupAt(i).buttons[j] == old(GroupAt(i)).buttons[j]
        {
          assert old(GroupAt(i)).buttons[j] == Button(LIKERT_OPTIONS[j], old(checked[i, j]), old(enabled[i, j]));
        }
        assert GroupAt(i).buttons == old(GroupAt(i)).buttons;
      }
    }

    /** Unlocks the button group of question q: every button enabled, then exclusivity on. */
    method UnlockGroupAt(q: nat)
      requires Shaped() && q < NUM_QUESTIONS
      modifies enabled, exclusive
      ensures GroupAt(q) == UnlockGroup(old(GroupAt(q)))
      ensures forall i :: 0 <= i < NUM_QUESTIONS && i != q ==> GroupAt(i) == old(GroupAt(i))
    {
      ghost var before := GroupAt(q);
      var o := 0;
      while o < NUM_OPTIONS
        invariant 0 <= o <= NUM_OPTIONS
        invariant forall j :: 0 <= j < o ==> enabled[q, j]
        invariant forall i, j :: 0 <= i < NUM_QUESTIONS && 0 <= j < NUM_OPTIONS && (i != q || o <= j) ==>
                    enabled[i, j] == old(enabled[i, j])
        invariant forall i :: 0 <= i < NUM_QUESTIONS ==> exclusive[i] == old(exclusive[i])
      {
        enabled[q, o] := true;
        o := o + 1;
      }
      exclusive[q] := true;
      forall j | 0 <= j < NUM_OPTIONS
        ensures GroupAt(q).buttons[j] == UnlockGroup(before).buttons[j]
      {
        assert before.buttons[j] == Button(LIKERT_OPTIONS[j], old(checked[q, j]), old(enabled[q, j]));
      }
      assert GroupAt(q).buttons == UnlockGroup(before).buttons;
      assert GroupAt(q) == UnlockGroup(before);
      forall i | 0 <= i < NUM_QUESTIONS && i != q
        ensures GroupAt(i) == old(GroupAt(i))
      {
        forall j | 0 <= j < NUM_OPTIONS
          ensures GroupAt(i).buttons[j] == old(GroupAt(i)).buttons[j]
        {
          assert old(GroupAt(i)).buttons[j] == Button(LIKERT_OPTIONS[j], old(checked[i, j]), old(enabled[i, j]));
        }
        assert GroupAt(i).buttons == old(GroupAt(i)).buttons;
      }
    }

    /** `lock_questionnaire`. */
    method LockQuestionnaire()
      requires Shaped()
      modifies this, checked, enabled, exclusive
      ensures Model() == Lock(old(Model()))
    {
      var q := 0;
      while q < NUM_QUESTIONS
        invariant 0 <= q <= NUM_QUESTIONS
        invariant forall i :: 0 <= i < q ==> GroupAt(i) == LockGroup(old(GroupAt(i)))
        invariant forall i :: q <= i < NUM_QUESTIONS ==> GroupAt(i) == old(GroupAt(i))
        invariant Model() == old(Model()).(groups := Model().groups)
      {
        LockGroupAt(q);
        q := q + 1;
      }
      submitEnabled := false;
      overlayVisible := true;
      assert Model().groups == Lock(old(Model())).groups;
    }

    /** `unlock_questionnaire`. */
    method UnlockQuestionnaire()
      requires Shaped()
      modifies this, checked, enabled, exclusive
      ensures Model() == Unlock(old(Model()))
    {
      var q := 0;
      while q < NUM_QUESTIONS
        invariant 0 <= q <= NUM_QUESTIONS
        invariant forall i :: 0 <= i < q ==> GroupAt(i) == UnlockGroup(old(GroupAt(i)))
        invariant forall i :: q <= i < NUM_QUESTIONS ==> GroupAt(i) == old(GroupAt(i))
        invariant Model() == old(Model()).(groups := Model().groups)
      {
        UnlockGroupAt(q);
        q := q + 1;
      }
      submitEnabled := true;
      overlayVisible := false;
      assert Model().groups == Unlock(old(Model())).groups;
    }

    /** The checked button of question q (Qt's `checkedButton()`). */
    method CheckedButtonAt(q: nat) returns (r: Option<nat>)
      requires Shaped() && q < NUM_QUESTIONS
      ensures r == CheckedButton(GroupAt(q))
    {
      var o := 0;
      while o < NUM_OPTIONS
        invariant 0 <= o <= NUM_OPTIONS
        invariant forall j :: 0 <= j < o ==> !checked[q, j]
      {
        if checked[q, o] {
          assert GroupAt(q).buttons[o].checked;
          assert forall j :: 0 <= j < o ==> !GroupAt(q).buttons[j].checked;
          return Some(o);
        }
        o := o + 1;
      }
      assert forall j :: 0 <= j < NUM_OPTIONS ==> !GroupAt(q).buttons[j].checked;
      return None;
    }

    /** A click on the radio button of answer o to question q. */
    method ClickRadioButton(q: nat, o: nat)
      requires Valid()
      modifies checked
      ensures Valid()
      ensures Model() == ClickAt(old(Model()), q, o)
    {
      if q < NUM_QUESTIONS && o < NUM_OPTIONS && enabled[q, o] {
        var j := 0;
        while j < NUM_OPTIONS
          invariant 0 <= j <= NUM_OPTIONS
          invariant forall k :: 0 <= k < j ==> checked[q, k] == (k == o)
          invariant forall i, k :: 0 <= i < NUM_QUESTIONS && 0 <= k < NUM_OPTIONS && (i != q || j <= k) ==>
                      checked[i, k] == old(checked[i, k])
        {
          checked[q, j] := j == o;
          j := j + 1;
        }
      }
      ghost var expected := ClickAt(old(Model()), q, o);
      forall i | 0 <= i < NUM_QUESTIONS
        ensures GroupAt(i) == expected.groups[i]
      {
        assert GroupAt(i).buttons == expected.groups[i].buttons;
      }
      assert Model().groups == expected.groups;
      StepPreservesValid(old(Model()), ClickButton(q, o));
    }

    /** `update_time`: the label shows the media position, given in milliseconds. */
    method UpdateTime(positionMs: nat)
      requires Valid()
      modifies this
      ensures Valid()
      ensures Model() == PlayerSpec.UpdateTime(old(Model()), positionMs)
    {
      timeLabel := FormatTime(positionMs / 1000);
      assert Model().groups == old(Model()).groups;
    }

    /** The loop of `record_responses`: one response line per question, stopping at the first unanswered one. */
    method CollectResponses() returns (responses: Option<seq<string>>)
      requires Shaped()
      ensures responses == Responses(Model().groups)
    {
      var lines: seq<string> := [];
      var q := 0;
      while q < NUM_QUESTIONS
        invariant 0 <= q <= NUM_QUESTIONS
        invariant forall i :: 0 <= i < q ==> CheckedButton(GroupAt(i)).Some?
        invariant |lines| == q
        invariant forall i :: 0 <= i < q ==> lines[i] == ResponseLine(i + 1, AnswerText(GroupAt(i)))
      {
        var selected := CheckedButtonAt(q);
        if selected.None? {
          assert !AllAnswered(Model().groups) by { assert Model().groups[q] == GroupAt(q); }
          return None;
        }
        lines := lines + [ResponseLine(q + 1, LIKERT_OPTIONS[selected.value])];
        q := q + 1;
      }
      assert forall i :: 0 <= i < NUM_QUESTIONS ==> Model().groups[i] == GroupAt(i);
      assert AllAnswered(Model().groups);
      assert lines == Responses(Model().groups).value;
      return Some(lines);
    }

    /** `record_responses`, the Submit handler. */
    method RecordResponses() returns (outcome: SubmitOutcome)
      requires Valid()
      modifies this, checked, enabled, exclusive
      ensures Valid()
      ensures outcome == SubmitResult(old(Model()))
      ensures Model() == Submit(old(Model()))
    {
      var responses := CollectResponses();
      if responses.None? {
        return Incomplete;
      }
      if videoFile.None? {
        return MissingVideoFile;
      }
      record := record + RecordEntry(timeLabel, videoFile.value, responses.value);
      ghost var written := Model();
      assert written.groups == old(Model()).groups;
      LockQuestionnaire();
      if ispause {
        ispause := false;
      }
      media := media + [Play];
      outcome := Recorded;
      assert Model() == Lock(written).(ispause := false, media := written.media + [Play]);
      SubmitPreservesValid(old(Model()));
    }

    /** One iteration of `control_video`: dispatch on the lower-cased console line. */
    method HandleCommand(line: string)
      requires Valid()
      modifies this, checked, enabled, exclusive
      ensures Valid()
      ensures Model() == Control(old(Model()), ParseCommand(line))
    {
      var command := Lower(line);
      if command == "" {
        if ispause {
          media := media + [Play];
          ispause := false;
        } else {
          media := media + [Pause];
          ispause := true;
        }
      } else if command == "q" {
        if !ispause {
          media := media + [Pause];
          ispause := true;
        }
        UnlockQuestionnaire();
      } else if command == "t" {
        // prints the current and the remaining time
      } else {
        // prints an "unknown command" message
      }
      StepPreservesValid(old(Model()), Input(line));
      assert Step(old(Model()), Input(line)) == Model();
    }

    /** `control_video`: the console loop, over the lines read so far. */
    method ControlVideo(lines: seq<string>)
      requires Valid()
      modifies this, checked, enabled, exclusive
      ensures Valid()
      ensures Model() == Run(old(Model()), Inputs(lines))
    {
      var k := 0;
      while k < |lines|
        invariant 0 <= k <= |lines|
        invariant Valid()
        invariant Model() == Run(old(Model()), Inputs(lines[..k]))
      {
        HandleCommand(lines[k]);
        assert Inputs(lines[..k + 1])[..k] == Inputs(lines[..k]);
        k := k + 1;
      }
      assert lines[..k] == lines;
    }
  }
}
