/**
 * The task variants: a to-do, a deadline due at one instant and an event
 * spanning two instants, with their constructors, occursOn and display strings.
 */
module Tasks {
  import opened Outcomes

  /** A local date and time, counted in whole minutes; a later instant is larger. */
  type Instant = int

  /**
   * The date helper, whose code is not part of this model. parse reads the
   * user's date text, parseFormattedDateTime reads the text that stringify
   * writes; both either return an instant or throw InvalidDateFormatException.
   */
  datatype DateTimeHelper = DateTimeHelper(
    parse: string -> Attempt<Instant>,
    parseFormattedDateTime: string -> Attempt<Instant>,
    stringify: Instant -> string)

  /** A task: its text, whether it is done, and the instants of its variant. */
  datatype Task =
    | ToDo(content: string, done: bool)
    | Deadline(content: string, done: bool, deadline: Instant)
    | Event(content: string, done: bool, start: Instant, end: Instant)

  /** Task.mark(): the task, finished. */
  function Mark(t: Task): (r: Task)
    ensures r.done && KindTag(r) == KindTag(t) && r.content == t.content
  {
    t.(done := true)
  }

  /** Task.unmark(): the task, not finished. */
  function Unmark(t: Task): (r: Task)
    ensures !r.done && KindTag(r) == KindTag(t) && r.content == t.content
  {
    t.(done := false)
  }

  /** Marking and unmarking set the done flag and leave content and instants as they were. */
  lemma MarkChangesOnlyDone(t: Task)
    ensures Mark(t).done && Mark(t).(done := t.done) == t
    ensures !Unmark(t).done && Unmark(t).(done := t.done) == t
  {
  }

  // ------------------------------------------------------------ construction

  /** new Deadline(content, deadlineString): the user's fresh deadline, not done. */
  function NewDeadline(content: string, deadlineString: string, dates: DateTimeHelper): (r: Attempt<Task>)
    ensures r.Returned? <==> dates.parse(deadlineString).Returned?
    ensures r.Returned? ==>
      r.value == Deadline(content, false, dates.parse(deadlineString).value)
    ensures r.Threw? ==> r.message == dates.parse(deadlineString).message
  {
    match dates.parse(deadlineString)
    case Returned(due) => Returned(Deadline(content, false, due))
    case Threw(m) => Threw(m)
  }

  /** new Deadline(content, done, deadlineString): a deadline read back from the saved file. */
  function RehydrateDeadline(content: string, done: bool, deadlineString: string, dates: DateTimeHelper): (r: Attempt<Task>)
    ensures r.Returned? <==> dates.parseFormattedDateTime(deadlineString).Returned?
    ensures r.Returned? ==>
      r.value == Deadline(content, done, dates.parseFormattedDateTime(deadlineString).value)
    ensures r.Threw? ==> r.message == dates.parseFormattedDateTime(deadlineString).message
  {
    match dates.parseFormattedDateTime(deadlineString)
    case Returned(due) => Returned(Deadline(content, done, due))
    case Threw(m) => Threw(m)
  }

  /** new Event(content, startString, endString): start is parsed first, then end. */
  function NewEvent(content: string, startString: string, endString: string, dates: DateTimeHelper): (r: Attempt<Task>)
    ensures r.Returned? <==>
      dates.parse(startString).Returned? && dates.parse(endString).Returned?
    ensures r.Returned? ==>
      r.value == Event(content, false, dates.parse(startString).value, dates.parse(endString).value)
    ensures dates.parse(startString).Threw? ==> r == Threw(dates.parse(startString).message)
    ensures dates.parse(startString).Returned? && dates.parse(endString).Threw? ==>
      r == Threw(dates.parse(endString).message)
  {
    match dates.parse(startString)
    case Threw(m) => Threw(m)
    case Returned(start) =>
      match dates.parse(endString)
      case Threw(m) => Threw(m)
      case Returned(end) => Returned(Event(content, false, start, end))
  }

  /** new Event(content, done, startString, endString): an event read back from the saved file. */
  function RehydrateEvent(content: string, done: bool, startString: string, endString: string, dates: DateTimeHelper): (r: Attempt<Task>)
    ensures r.Returned? <==>
      dates.parseFormattedDateTime(startString).Returned? && dates.parseFormattedDateTime(endString).Returned?
    ensures r.Returned? ==>
      r.value == Event(content, done, dates.parseFormattedDateTime(startString).value,
                       dates.parseFormattedDateTime(endString).value)
    ensures dates.parseFormattedDateTime(startString).Threw? ==>
      r == Threw(dates.parseFormattedDateTime(startString).message)
    ensures dates.parseFormattedDateTime(startString).Returned? && dates.parseFormattedDateTime(endString).Threw? ==>
      r == Threw(dates.parseFormattedDateTime(endString).message)
  {
    match dates.parseFormattedDateTime(startString)
    case Threw(m) => Threw(m)
    case Returned(start) =>
      match dates.parseFormattedDateTime(endString)
      case Threw(m) => Threw(m)
      case Returned(end) => Returned(Event(content, done, start, end))
  }

  // ---------------------------------------------------------------- occursOn

  /** Deadline.occursOn and Event.occursOn; a to-do has no such operation. */
  predicate OccursOn(t: Task, dt: Instant): (b: bool)
    requires t.Deadline? || t.Event?
    ensures t.Event? && (dt == t.start || dt == t.end) ==> b
    ensures t.Event? && t.start <= t.end ==> (b <==> t.start <= dt <= t.end)
  {
    match t
    case Deadline(_, _, due) => dt == due
    case Event(_, _, start, end) => dt == start || (dt > start && dt < end) || dt == end
  }

  /** A deadline occurs on its own instant and on no other. */
  lemma DeadlineOccursOnlyOnItsInstant(t: Task, dt: Instant)
    requires t.Deadline?
    ensures OccursOn(t, dt) <==> dt == t.deadline
  {
  }

  /** Both ends of an event count as within it. */
  lemma EventBoundsAreInclusive(t: Task)
    requires t.Event?
    ensures OccursOn(t, t.start) && OccursOn(t, t.end)
  {
  }

  /** Every instant strictly between the two ends is within the event. */
  lemma EventContainsInterior(t: Task, dt: Instant)
    requires t.Event? && t.start < dt < t.end
    ensures OccursOn(t, dt)
  {
  }

  /** With its ends in order an event covers exactly the closed interval between them. */
  lemma EventIsClosedInterval(t: Task, dt: Instant)
    requires t.Event? && t.start <= t.end
    ensures OccursOn(t, dt) <==> t.start <= dt <= t.end
  {
  }

  /** An event whose end comes before its start occurs only at those two instants. */
  lemma InvertedEventOccursOnlyAtEnds(t: Task, dt: Instant)
    requires t.Event? && t.end < t.start
    ensures OccursOn(t, dt) <==> dt == t.start || dt == t.end
  {
  }

  /** A freshly created deadline occurs exactly on the instant its date text parses to. */
  lemma NewDeadlineOccursOnParsedInstant(content: string, deadlineString: string, dates: DateTimeHelper, dt: Instant)
    requires NewDeadline(content, deadlineString, dates).Returned?
    ensures OccursOn(NewDeadline(content, deadlineString, dates).value, dt)
      <==> dates.parse(deadlineString) == Returned(dt)
  {
  }

  /** Marking never moves a task in time. */
  lemma MarkKeepsOccurrence(t: Task, dt: Instant)
    requires t.Deadline? || t.Event?
    ensures OccursOn(Mark(t), dt) == OccursOn(t, dt)
    ensures OccursOn(Unmark(t), dt) == OccursOn(t, dt)
  {
  }

  // ----------------------------------------------------------------- display

  /** "X" for a finished task, a space otherwise. */
  function StatusIcon(done: bool): string {
    if done then "X" else " "
  }

  /** The three-character variant tag at the head of a display string. */
  function KindTag(t: Task): string {
    match t
    case ToDo(_, _) => "[T]"
    case Deadline(_, _, _) => "[D]"
    case Event(_, _, _, _) => "[E]"
  }

  /** Task.toString: the status box followed by the content. */
  function BaseString(t: Task): string {
    "[" + StatusIcon(t.done) + "] " + t.content
  }

  /** What follows the content in a display string: the instants of a deadline or event. */
  function Trailer(t: Task, stringify: Instant -> string): string {
    match t
    case ToDo(_, _) => ""
    case Deadline(_, _, due) => " (by: " + stringify(due) + ")"
    case Event(_, _, start, end) => " (from: " + stringify(start) + " to: " + stringify(end) + ")"
  }

  /** The display string of each variant (the toString of ToDo, Deadline and Event). */
  function Display(t: Task, stringify: Instant -> string): (s: string)
    ensures |s| >= 7 + |t.content|
    ensures s[..3] == KindTag(t) && s[3] == '[' && s[5] == ']' && s[6] == ' '
    ensures s[4] == 'X' <==> t.done
  {
    KindTag(t) + BaseString(t) + Trailer(t, stringify)
  }

  /** A display string laid out piece by piece. */
  lemma DisplayLayout(t: Task, stringify: Instant -> string)
    ensures Display(t, stringify)
      == KindTag(t) + "[" + StatusIcon(t.done) + ("] " + t.content + Trailer(t, stringify))
    ensures |KindTag(t)| == 3 && |StatusIcon(t.done)| == 1
  {
    Regroup(KindTag(t), StatusIcon(t.done), t.content, Trailer(t, stringify));
  }

  lemma Regroup(tag: string, icon: string, content: string, trailer: string)
    ensures tag + ("[" + icon + "] " + content) + trailer == tag + "[" + icon + ("] " + content + trailer)
  {
  }

  /**
   * The head of a display string names the variant, shows 'X' exactly for a
   * finished task, and is followed by the content.
   */
  lemma DisplayHead(t: Task, stringify: Instant -> string)
    ensures var s := Display(t, stringify);
      && |s| >= 7 + |t.content|
      && s[..3] == KindTag(t)
      && s[3] == '[' && s[5] == ']' && s[6] == ' '
      && (s[4] == 'X' <==> t.done)
      && s[7..7 + |t.content|] == t.content
  {
    var head := KindTag(t) + "[" + StatusIcon(t.done) + "] ";
    HeadRegroup(KindTag(t), StatusIcon(t.done), t.content, Trailer(t, stringify));
    MiddleSlice(head, t.content, Trailer(t, stringify));
  }

  lemma HeadRegroup(tag: string, icon: string, content: string, trailer: string)
    ensures tag + ("[" + icon + "] " + content) + trailer == (tag + "[" + icon + "] ") + content + trailer
  {
  }

  lemma MiddleSlice(a: string, b: string, c: string)
    ensures (a + b + c)[|a|..|a| + |b|] == b
  {
  }

  /** The tag tells the variants apart. */
  lemma KindTagIdentifiesVariant(t: Task, u: Task)
    ensures KindTag(t) == KindTag(u) <==>
      (t.ToDo? && u.ToDo?) || (t.Deadline? && u.Deadline?) || (t.Event? && u.Event?)
  {
  }

  /** Marking changes the display string in the status box and nowhere else. */
  lemma MarkChangesOnlyStatusBox(t: Task, stringify: Instant -> string)
    ensures var s := Display(t, stringify);
      |s| >= 5
      && Display(Mark(t), stringify) == s[..4] + "X" + s[5..]
      && Display(Unmark(t), stringify) == s[..4] + " " + s[5..]
  {
    DisplayLayout(t, stringify);
    DisplayLayout(Mark(t), stringify);
    DisplayLayout(Unmark(t), stringify);
    var s := Display(t, stringify);
    var rest := "] " + t.content + Trailer(t, stringify);
    assert Trailer(Mark(t), stringify) == Trailer(t, stringify);
    assert Trailer(Unmark(t), stringify) == Trailer(t, stringify);
    assert s[..4] == KindTag(t) + "[";
    assert s[5..] == rest;
  }
}
