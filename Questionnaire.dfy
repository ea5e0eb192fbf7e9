/**
 * The engagement questionnaire of the player: one exclusive radio-button
 * group per question, each with the Likert answers "1".."5", as plain values.
 * `CheckedButton` is the group's checked button, `LockGroup`/`UnlockGroup`
 * are what the player's lock and unlock loops do to one group, `Click` is a
 * viewer's click on one button, and `Responses` is the list of lines that
 * Submit writes for a fully answered questionnaire.
 */
module Questionnaire {
  import opened Wrappers
  import opened Numerals

  const QUESTIONS: seq<string> := [
    "I paid attention to this video.",
    "I pretended to watch the video but actually not",
    "I enjoyed learning new things from this video.",
    "I asked myself questions to make sure I understood the video content."
  ]

  const LIKERT_OPTIONS: seq<string> := ["1", "2", "3", "4", "5"]

  const NUM_QUESTIONS: nat := 4
  const NUM_OPTIONS: nat := 5

  /** The counts above are the lengths of the question and option lists. */
  lemma CountsMatchLists()
    ensures NUM_QUESTIONS == |QUESTIONS| && NUM_OPTIONS == |LIKERT_OPTIONS|
  {
  }

  datatype Button = Button(text: string, checked: bool, enabled: bool)

  datatype Group = Group(exclusive: bool, buttons: seq<Button>)

  /** An exclusive group never has two checked buttons. */
  predicate AtMostOneChecked(g: Group) {
    forall i, j :: 0 <= i < |g.buttons| && 0 <= j < |g.buttons| && g.buttons[i].checked && g.buttons[j].checked ==> i == j
  }

  /** A group as the player builds it: the five Likert buttons in order. */
  predicate HasLikertButtons(g: Group) {
    |g.buttons| == NUM_OPTIONS && forall o :: 0 <= o < NUM_OPTIONS ==> g.buttons[o].text == LIKERT_OPTIONS[o]
  }

  /** Exclusive, every button enabled and unchecked. */
  function NewGroup(): (g: Group)
    ensures g.exclusive && HasLikertButtons(g)
    ensures forall o :: 0 <= o < |g.buttons| ==> g.buttons[o].enabled && !g.buttons[o].checked
  {
    Group(true, seq(NUM_OPTIONS, o requires 0 <= o < NUM_OPTIONS => Button(LIKERT_OPTIONS[o], false, true)))
  }

  /** The position of the first checked button, if any. */
  function FirstChecked(bs: seq<Button>): (r: Option<nat>)
    ensures r.Some? ==> r.value < |bs| && bs[r.value].checked
    ensures r.Some? ==> forall o :: 0 <= o < r.value ==> !bs[o].checked
    ensures r.None? <==> forall o :: 0 <= o < |bs| ==> !bs[o].checked
  {
    if bs == [] then None
    else if bs[0].checked then Some(0)
    else match FirstChecked(bs[1..])
      case None => None
      case Some(k) => Some(k + 1)
  }

  /** The group's checked button, as Qt's `checkedButton()` reports it. */
  function CheckedButton(g: Group): Option<nat> {
    FirstChecked(g.buttons)
  }

  /** A new group has no answer, and keeps at most one button checked. */
  lemma NewGroupUnanswered()
    ensures AtMostOneChecked(NewGroup()) && CheckedButton(NewGroup()) == None
  {
  }

  /** In a group with at most one checked button, the checked button is the only one checked. */
  lemma CheckedButtonIsTheCheckedOne(g: Group, o: nat)
    requires AtMostOneChecked(g)
    requires o < |g.buttons|
    ensures CheckedButton(g) == Some(o) <==> g.buttons[o].checked
  {
  }

  /** What the lock loop does to one group: exclusivity off, every button unchecked and disabled. */
  function LockGroup(g: Group): Group {
    Group(false, seq(|g.buttons|, o requires 0 <= o < |g.buttons| => g.buttons[o].(checked := false, enabled := false)))
  }

  /** What the unlock loop does to one group: every button enabled, exclusivity on; checks are kept. */
  function UnlockGroup(g: Group): Group {
    Group(true, seq(|g.buttons|, o requires 0 <= o < |g.buttons| => g.buttons[o].(enabled := true)))
  }

  /**
   * A click on button `o`.  A disabled button ignores it; an enabled one
   * becomes the only checked button of its group.  (Buttons are enabled
   * exactly while their group is exclusive, so a click on a button of a
   * non-exclusive group never reaches the group.)
   */
  function Click(g: Group, o: nat): Group {
    if o >= |g.buttons| || !g.buttons[o].enabled then g
    else Group(g.exclusive, seq(|g.buttons|, j requires 0 <= j < |g.buttons| => g.buttons[j].(checked := j == o)))
  }

  /** A locked group has no answer, no enabled button, and keeps its button labels. */
  lemma LockGroupClears(g: Group)
    ensures var r := LockGroup(g);
      && !r.exclusive && CheckedButton(r) == None && AtMostOneChecked(r)
      && |r.buttons| == |g.buttons|
      && (forall o :: 0 <= o < |r.buttons| ==> !r.buttons[o].enabled && r.buttons[o].text == g.buttons[o].text)
  {
  }

  /** Locking a group twice is the same as locking it once. */
  lemma LockGroupIdempotent(g: Group)
    ensures LockGroup(LockGroup(g)) == LockGroup(g)
  {
    var once := LockGroup(g);
    assert LockGroup(once).buttons == once.buttons;
  }

  /** Unlocking enables every button and keeps the answer and the labels. */
  lemma UnlockGroupEnables(g: Group)
    ensures var r := UnlockGroup(g);
      && r.exclusive && CheckedButton(r) == CheckedButton(g)
      && |r.buttons| == |g.buttons|
      && (forall o :: 0 <= o < |r.buttons| ==>
            r.buttons[o].enabled && r.buttons[o].checked == g.buttons[o].checked && r.buttons[o].text == g.buttons[o].text)
  {
    var r := UnlockGroup(g);
    FirstCheckedSameChecks(r.buttons, g.buttons);
  }

  /** Locking after unlocking is just locking. */
  lemma LockAfterUnlock(g: Group)
    ensures LockGroup(UnlockGroup(g)) == LockGroup(g)
  {
    assert LockGroup(UnlockGroup(g)).buttons == LockGroup(g).buttons;
  }

  /** `FirstChecked` looks only at the checked flags. */
  lemma {:induction false} FirstCheckedSameChecks(a: seq<Button>, b: seq<Button>)
    requires |a| == |b|
    requires forall o :: 0 <= o < |a| ==> a[o].checked == b[o].checked
    ensures FirstChecked(a) == FirstChecked(b)
  {
    if a != [] {
      FirstCheckedSameChecks(a[1..], b[1..]);
    }
  }

  /** A click on an enabled button of an exclusive group answers the question with that button. */
  lemma ClickAnswers(g: Group, o: nat)
    requires o < |g.buttons| && g.buttons[o].enabled
    ensures CheckedButton(Click(g, o)) == Some(o)
    ensures AnswerText(Click(g, o)) == g.buttons[o].text
    ensures AtMostOneChecked(Click(g, o))
  {
    CheckedButtonIsTheCheckedOne(Click(g, o), o);
  }

  /** A click on a disabled button, or on no button, changes nothing. */
  lemma ClickOnDisabledIgnored(g: Group, o: nat)
    requires o >= |g.buttons| || !g.buttons[o].enabled
    ensures Click(g, o) == g
  {
  }

  /** Clicks keep the labels, the enabled flags and exclusivity, and never leave two buttons checked. */
  lemma ClickKeepsShape(g: Group, o: nat)
    requires AtMostOneChecked(g)
    ensures var r := Click(g, o);
      && r.exclusive == g.exclusive && |r.buttons| == |g.buttons| && AtMostOneChecked(r)
      && forall j :: 0 <= j < |r.buttons| ==> r.buttons[j].text == g.buttons[j].text && r.buttons[j].enabled == g.buttons[j].enabled
  {
  }

  /** Every question has a checked button. */
  predicate AllAnswered(gs: seq<Group>) {
    forall q :: 0 <= q < |gs| ==> CheckedButton(gs[q]).Some?
  }

  /** The text of the checked button of an answered group. */
  function AnswerText(g: Group): string
    requires CheckedButton(g).Some?
  {
    g.buttons[CheckedButton(g).value].text
  }

  /** One response line, `Q{index}: {answer}`. */
  function ResponseLine(index: nat, answer: string): string {
    "Q" + Decimal(index) + ": " + answer
  }

  /**
   * The response lines Submit writes: for a fully answered questionnaire one
   * line per question, numbered from 1 in question order; None as soon as one
   * question is unanswered.
   */
  function Responses(gs: seq<Group>): (r: Option<seq<string>>)
    ensures r.Some? <==> AllAnswered(gs)
    ensures r.Some? ==> |r.value| == |gs|
  {
    if AllAnswered(gs) then
      Some(seq(|gs|, q requires 0 <= q < |gs| => ResponseLine(q + 1, AnswerText(gs[q]))))
    else None
  }

  /** Reads a response line back into its question number and answer. */
  function ParseResponseLine(line: string): Option<(nat, string)> {
    if |line| >= 1 && line[0] == 'Q' then
      var rest := line[1..];
      var k := DigitPrefix(rest);
      if 1 <= k && k + 2 <= |rest| && rest[k..k + 2] == ": " then
        Some((ValueOf(rest[..k]), rest[k + 2..]))
      else None
    else None
  }

  /** A response line reads back as the question number and answer it was written from. */
  lemma ResponseLineRoundTrip(index: nat, answer: string)
    ensures ParseResponseLine(ResponseLine(index, answer)) == Some((index, answer))
  {
    var d := Decimal(index);
    var line := ResponseLine(index, answer);
    assert line[1..] == d + (": " + answer);
    DigitPrefixOfNumeral(d, ": " + answer);
    assert line[1..][..|d|] == d;
    ValueOfDecimal(index);
  }

  /** The i-th response line of an answered questionnaire is question i+1 with the checked answer. */
  lemma ResponsesInOrder(gs: seq<Group>, q: nat)
    requires AllAnswered(gs) && q < |gs|
    ensures Responses(gs).value[q] == ResponseLine(q + 1, AnswerText(gs[q]))
    ensures ParseResponseLine(Responses(gs).value[q]) == Some((q + 1, AnswerText(gs[q])))
  {
    ResponseLineRoundTrip(q + 1, AnswerText(gs[q]));
  }

  /** With the Likert buttons, every recorded answer is one of "1".."5". */
  lemma AnswerIsLikert(g: Group)
    requires HasLikertButtons(g) && CheckedButton(g).Some?
    ensures AnswerText(g) in LIKERT_OPTIONS
  {
  }
}
