/**
 * The mark and unmark commands: read the task number after the keyword, check
 * it against the list, change the task, save the list and echo the task.
 */
module Commands {
  import opened Outcomes
  import opened JavaStrings
  import opened Tasks
  import opened TaskLists
  import opened Sys

  /** The largest value of a Java int. */
  const MaxInt := 0x7fff_ffff

  const MarkedHeader := "Nice! I've marked this task as done:\n"
  const UnmarkedHeader := "OK, I've marked this task as not done yet:\n"

  /** input matches "<keyword> \d+", the pattern each command is created for. */
  predicate IsIndexCommand(input: string, keyword: string) {
    StartsWith(input, keyword + " ") && |input| > |keyword| + 1 && AllDigits(input[|keyword| + 1..])
  }

  /** A command of that shape splits at its one space into the keyword and the number. */
  lemma IndexCommandSplit(input: string, keyword: string)
    requires keyword != "" && ' ' !in keyword && IsIndexCommand(input, keyword)
    ensures Split(input, " ") == [keyword, input[|keyword| + 1..]]
  {
    var digits := input[|keyword| + 1..];
    assert input == keyword + [' '] + digits by {
      assert input[..|keyword| + 1] == keyword + " ";
    }
    forall k | 0 <= k < 2 ensures ' ' !in [keyword, digits][k] {
    }
    assert Join([keyword, digits], [' ']) == keyword + [' '] + digits;
    SplitOfJoin([keyword, digits], ' ');
  }

  /**
   * Integer.valueOf(input.split(" ")[1]) - 1: the zero-based index of the task
   * number typed after the keyword, or NumberFormatException when it does not
   * fit in an int.
   */
  function TaskIndex(input: string, keyword: string): (r: Result<int>)
    requires keyword != "" && ' ' !in keyword && IsIndexCommand(input, keyword)
    ensures var n := DecimalValue(input[|keyword| + 1..]);
      r == if n > MaxInt then Raise(NumberFormat) else Ok(n - 1)
  {
    IndexCommandSplit(input, keyword);
    var arr := Split(input, " ");
    var n := DecimalValue(arr[1]);
    if n > MaxInt then Raise(NumberFormat) else Ok(n - 1)
  }

  /** The number typed after the keyword is read back as that number, less one. */
  lemma TypedNumberIndex(keyword: string, n: nat)
    requires keyword != "" && ' ' !in keyword && 1 <= n <= MaxInt
    ensures IsIndexCommand(keyword + " " + NatToString(n), keyword)
    ensures TaskIndex(keyword + " " + NatToString(n), keyword) == Ok(n - 1)
  {
    var input := keyword + " " + NatToString(n);
    assert input[..|keyword| + 1] == keyword + " ";
    assert input[|keyword| + 1..] == NatToString(n);
    DecimalValueOfNatToString(n);
  }

  /**
   * The number a listing shows in front of a task, typed after the keyword,
   * selects that very task.
   */
  lemma ListedNumberSelectsTask(keyword: string, ts: seq<Task>, n: nat, stringify: Instant -> string)
    requires keyword != "" && ' ' !in keyword
    requires 1 <= n <= |ts| && n <= MaxInt
    ensures IsIndexCommand(keyword + " " + NatToString(n), keyword)
    ensures TaskIndex(keyword + " " + NatToString(n), keyword) == Ok(n - 1)
    ensures NumberedLines(ts, 1, ". ", stringify)[n - 1] == NatToString(n) + ". " + Display(ts[n - 1], stringify)
  {
    TypedNumberIndex(keyword, n);
  }

  /** The command "mark <n>". */
  class MarkCommand {
    const input: string

    constructor (input: string)
      ensures this.input == input
    {
      this.input := input;
    }

    /**
     * execute(tl, ui, storage): a number outside 1..size is refused and nothing
     * changes; otherwise the task is marked, the list saved, and the marked
     * task echoed (unless the save failed, whose exception escapes).
     */
    method Execute(tl: TaskList, storage: Storage, stringify: Instant -> string) returns (r: Result<string>)
      requires IsIndexCommand(input, "mark")
      modifies tl, storage
      ensures TaskIndex(input, "mark").Raise? ==>
        r == Raise(TaskIndex(input, "mark").exception) && unchanged(tl, storage)
      ensures TaskIndex(input, "mark").Ok? ==>
        var idx := TaskIndex(input, "mark").value;
        if idx < 0 || idx >= |old(tl.tasks)| then
          r == Raise(InvalidCommandInput("Task number is invalid!", "mark")) && unchanged(tl, storage)
        else
          && tl.tasks == old(tl.tasks)[idx := Mark(old(tl.tasks)[idx])]
          && storage.file == FileAfterSave(tl.tasks, stringify)
          && r == if SaveText(Listing(tl.tasks, stringify)).Raise?
                  then Raise(SaveText(Listing(tl.tasks, stringify)).exception)
                  else Ok(MarkedHeader + Display(Mark(old(tl.tasks)[idx]), stringify))
    {
      var parsed := TaskIndex(input, "mark");
      if parsed.Raise? {
        return Raise(parsed.exception);
      }
      var idx := parsed.value;
      if idx < 0 || idx >= tl.NumberOfTasks() {
        return Raise(InvalidCommandInput("Task number is invalid!", "mark"));
      }
      var marked := tl.MarkTask(idx);
      var saved := storage.Save(tl, stringify);
      if saved.Raise? {
        return Raise(saved.exception);
      }
      var t := tl.GetTask(idx);
      r := Ok(MarkedHeader + Display(t.value, stringify));
    }
  }

  /** The command "unmark <n>". */
  class UnmarkCommand {
    const input: string

    constructor (input: string)
      ensures this.input == input
    {
      this.input := input;
    }

    /**
     * execute(tl, ui, storage): as for mark, with the done flag cleared and the
     * refusal message as the source spells it.
     */
    method Execute(tl: TaskList, storage: Storage, stringify: Instant -> string) returns (r: Result<string>)
      requires IsIndexCommand(input, "unmark")
      modifies tl, storage
      ensures TaskIndex(input, "unmark").Raise? ==>
        r == Raise(TaskIndex(input, "unmark").exception) && unchanged(tl, storage)
      ensures TaskIndex(input, "unmark").Ok? ==>
        var idx := TaskIndex(input, "unmark").value;
        if idx < 0 || idx >= |old(tl.tasks)| then
          r == Raise(InvalidCommandInput("task.Task number is invalid!", "unmark")) && unchanged(tl, storage)
        else
          && tl.tasks == old(tl.tasks)[idx := Unmark(old(tl.tasks)[idx])]
          && storage.file == FileAfterSave(tl.tasks, stringify)
          && r == if SaveText(Listing(tl.tasks, stringify)).Raise?
                  then Raise(SaveText(Listing(tl.tasks, stringify)).exception)
                  else Ok(UnmarkedHeader + Display(Unmark(old(tl.tasks)[idx]), stringify))
    {
      var parsed := TaskIndex(input, "unmark");
      if parsed.Raise? {
        return Raise(parsed.exception);
      }
      var idx := parsed.value;
      if idx < 0 || idx >= tl.NumberOfTasks() {
        return Raise(InvalidCommandInput("task.Task number is invalid!", "unmark"));
      }
      var unmarked := tl.UnmarkTask(idx);
      var saved := storage.Save(tl, stringify);
      if saved.Raise? {
        return Raise(saved.exception);
      }
      var t := tl.GetTask(idx);
      r := Ok(UnmarkedHeader + Display(t.value, stringify));
    }
  }

  /** The echo after mark shows the task with an 'X' in its status box, the one after unmark with a space. */
  lemma EchoShowsNewStatus(t: Task, stringify: Instant -> string)
    ensures var m := MarkedHeader + Display(Mark(t), stringify);
      |m| > |MarkedHeader| + 4 && m[|MarkedHeader| + 4] == 'X'
    ensures var u := UnmarkedHeader + Display(Unmark(t), stringify);
      |u| > |UnmarkedHeader| + 4 && u[|UnmarkedHeader| + 4] == ' '
  {
    DisplayHead(Mark(t), stringify);
    DisplayHead(Unmark(t), stringify);
    MarkChangesOnlyStatusBox(t, stringify);
  }

  /** Marking twice leaves the list as marking once; unmarking undoes a mark of an unfinished task. */
  lemma MarkIsIdempotent(ts: seq<Task>, idx: nat)
    requires idx < |ts|
    ensures var once := ts[idx := Mark(ts[idx])];
      once[idx := Mark(once[idx])] == once
    ensures !ts[idx].done ==>
      var once := ts[idx := Mark(ts[idx])];
      once[idx := Unmark(once[idx])] == ts
  {
  }
}
