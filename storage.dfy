/**
 * Storage: the file that keeps the task list between runs, written as one
 * task per line without the list numbering, and read back line by line.
 */
module Sys {
  import opened Outcomes
  import opened JavaStrings
  import opened Tasks
  import opened TaskLists

  /** What load prints when there is no file to read. */
  const NotFoundMessage := "tasks.txt not found, generating new task list..."

  // ----------------------------------------------------------------- saving

  /** Each line with its first three characters (the "k. " numbering of a one-digit k) cut off. */
  function Unnumbered(lines: seq<string>): (r: seq<string>)
    requires forall k :: 0 <= k < |lines| ==> |lines[k]| >= 3
    ensures |r| == |lines| && forall k :: 0 <= k < |r| ==> lines[k] == lines[k][..3] + r[k]
  {
    seq(|lines|, k requires 0 <= k < |lines| => lines[k][3..])
  }

  /**
   * The text save writes for a listing: nothing when the first line is empty,
   * otherwise every line without its first three characters, separated by
   * newlines. A line shorter than three characters makes substring fail, and
   * the file is left as the FileWriter left it: empty.
   */
  function SaveText(listing: string): (r: Result<string>)
    ensures listing == "" ==> r == Ok("")
    ensures r.Raise? ==> r.exception == ArrayIndexOutOfBounds || r.exception == StringIndexOutOfBounds
    ensures r.Ok? && r.value != "" ==> |Split(listing, "\n")| >= 1 && Split(listing, "\n")[0] != ""
  {
    var lines := Split(listing, "\n");
    if |lines| == 0 then Raise(ArrayIndexOutOfBounds)
    else if lines[0] == "" then Ok("")
    else if exists k | 0 <= k < |lines| :: |lines[k]| < 3 then Raise(StringIndexOutOfBounds)
    else Ok(Join(Unnumbered(lines), "\n"))
  }

  /** Every line followed by a newline: what the StringBuilder holds before the last newline is deleted. */
  function Terminated(lines: seq<string>): string {
    if lines == [] then "" else Terminated(lines[..|lines| - 1]) + lines[|lines| - 1] + "\n"
  }

  /** Deleting the last character of the terminated lines leaves them joined by newlines. */
  lemma {:induction false} TerminatedIsJoin(lines: seq<string>)
    requires lines != []
    ensures Terminated(lines) == Join(lines, "\n") + "\n"
    decreases |lines|
  {
    var init := lines[..|lines| - 1];
    var last := lines[|lines| - 1];
    assert lines == init + [last];
    assert Terminated(lines) == Terminated(init) + last + "\n";
    JoinAppend(init, last, "\n");
    if init != [] {
      TerminatedIsJoin(init);
    }
  }

  /** The line a task is saved as: its listing line "k. " + display, without the first three characters. */
  function SavedLine(k: nat, display: string): (r: string)
    requires k >= 1
    ensures |r| == |NatToString(k)| - 1 + |display|
    ensures r[|r| - |display|..] == display
  {
    (NatToString(k) + ". " + display)[3..]
  }

  /** Tasks numbered 1 to 9 are saved as exactly their display strings. */
  lemma SingleDigitLineSavedAsDisplay(k: nat, display: string)
    requires 1 <= k <= 9
    ensures SavedLine(k, display) == display
  {
    assert |NatToString(k)| == 1;
  }

  /**
   * From task 10 on the cut is too short: the saved line keeps (k + ". ")[3..],
   * |digits of k| - 1 characters ending in a space, in front of the display
   * string: " " for 10 to 99, ". " for 100 to 999, and from 1000 on the digits
   * after the third followed by ". " ("10. x" is saved as " x").
   */
  lemma {:induction false} LongNumberLeavesResidue(k: nat, display: string)
    requires k >= 10
    ensures var residue := (NatToString(k) + ". ")[3..];
      && SavedLine(k, display) == residue + display
      && |residue| == |NatToString(k)| - 1
      && residue[|residue| - 1] == ' '
  {
    var num := NatToString(k) + ". ";
    assert |NatToString(k)| >= 2;
    assert NatToString(k) + ". " + display == num + display;
    assert (num + display)[3..] == num[3..] + display;
  }

  /** The saved lines of a list: line k of the listing without its first three characters. */
  function SavedLines(ts: seq<Task>, stringify: Instant -> string): (r: seq<string>)
    ensures |r| == |ts|
  {
    seq(|ts|, k requires 0 <= k < |ts| => SavedLine(k + 1, Display(ts[k], stringify)))
  }

  /** An empty list is saved as an empty file. */
  lemma EmptyListSavedEmpty(stringify: Instant -> string)
    ensures SaveText(Listing([], stringify)) == Ok("")
  {
    EmptyListing(stringify);
    PiecesWithoutMatch("", "\n");
  }

  /** Every listing line is at least three characters long. */
  lemma ListingLineLength(ts: seq<Task>, stringify: Instant -> string, k: nat)
    requires k < |ts|
    ensures var line := NumberedLines(ts, 1, ". ", stringify)[k];
      |line| >= 10 && line[3..] == SavedLine(k + 1, Display(ts[k], stringify))
  {
    DisplayHead(ts[k], stringify);
  }

  /**
   * A non-empty list whose display strings are single lines is saved as its
   * saved lines, one per line.
   */
  lemma SaveTextOfList(ts: seq<Task>, stringify: Instant -> string)
    requires ts != []
    requires forall k :: 0 <= k < |ts| ==> '\n' !in Display(ts[k], stringify)
    ensures SaveText(Listing(ts, stringify)) == Ok(Join(SavedLines(ts, stringify), "\n"))
  {
    ListingLines(ts, stringify);
    var lines := NumberedLines(ts, 1, ". ", stringify);
    forall k | 0 <= k < |lines| ensures |lines[k]| >= 3 && lines[k][3..] == SavedLines(ts, stringify)[k] {
      ListingLineLength(ts, stringify, k);
    }
    SaveTextOfLines(Listing(ts, stringify), lines);
    assert Unnumbered(lines) == SavedLines(ts, stringify);
  }

  /** A listing whose lines are all at least three characters long is saved as those lines, cut. */
  lemma SaveTextOfLines(listing: string, lines: seq<string>)
    requires Split(listing, "\n") == lines && lines != [] && lines[0] != ""
    requires forall k :: 0 <= k < |lines| ==> |lines[k]| >= 3
    ensures SaveText(listing) == Ok(Join(Unnumbered(lines), "\n"))
  {
  }

  /** A saved line is a single line when the display string is. */
  lemma SavedLineIsSingleLine(k: nat, display: string)
    requires k >= 1 && display != "" && NoLineTerminator(display)
    ensures NoLineTerminator(SavedLine(k, display)) && SavedLine(k, display) != ""
  {
    var num := NatToString(k) + ". ";
    assert NatToString(k) + ". " + display == num + display;
    var line := num + display;
    if |num| > 3 {
      assert line[3..] == num[3..] + display;
      forall i | 0 <= i < |line[3..]| ensures !IsLineTerminator(line[3..][i]) {
        if i < |num| - 3 {
          assert line[3..][i] == num[i + 3];
          if i + 3 < |NatToString(k)| {
            assert IsDigit(NatToString(k)[i + 3]);
          }
        } else {
          assert line[3..][i] == display[i - |num| + 3];
        }
      }
    } else {
      assert line[3..] == display;
    }
  }

  /**
   * Saving and then reading the file back line by line yields the saved lines
   * of the list: the display strings themselves for the first nine tasks.
   */
  lemma SavedFileReadsBackAsSavedLines(ts: seq<Task>, stringify: Instant -> string)
    requires ts != []
    requires forall k :: 0 <= k < |ts| ==> NoLineTerminator(Display(ts[k], stringify))
    ensures SaveText(Listing(ts, stringify)).Ok?
    ensures ScannerLines(SaveText(Listing(ts, stringify)).value) == SavedLines(ts, stringify)
    ensures forall k :: 0 <= k < |ts| && k < 9 ==>
      ScannerLines(SaveText(Listing(ts, stringify)).value)[k] == Display(ts[k], stringify)
  {
    NoNewlineInDisplays(ts, stringify);
    SaveTextOfList(ts, stringify);
    SavedLinesAreSingleLines(ts, stringify);
    ScannerLinesOfJoin(SavedLines(ts, stringify));
    FirstNineSavedAsDisplay(ts, stringify);
  }

  /** Display strings without line terminators hold no '\n' in particular. */
  lemma NoNewlineInDisplays(ts: seq<Task>, stringify: Instant -> string)
    requires forall k :: 0 <= k < |ts| ==> NoLineTerminator(Display(ts[k], stringify))
    ensures forall k :: 0 <= k < |ts| ==> '\n' !in Display(ts[k], stringify)
  {
    forall k | 0 <= k < |ts| ensures '\n' !in Display(ts[k], stringify) {
    }
  }

  /** Every saved line is non-empty and single-line when the display strings are. */
  lemma SavedLinesAreSingleLines(ts: seq<Task>, stringify: Instant -> string)
    requires forall k :: 0 <= k < |ts| ==> NoLineTerminator(Display(ts[k], stringify))
    ensures var saved := SavedLines(ts, stringify);
      forall k :: 0 <= k < |saved| ==> NoLineTerminator(saved[k]) && saved[k] != ""
  {
    var saved := SavedLines(ts, stringify);
    forall k | 0 <= k < |saved| ensures NoLineTerminator(saved[k]) && saved[k] != "" {
      SavedLineIsSingleLine(k + 1, Display(ts[k], stringify));
    }
  }

  /** The first nine saved lines are exactly the display strings. */
  lemma FirstNineSavedAsDisplay(ts: seq<Task>, stringify: Instant -> string)
    ensures var saved := SavedLines(ts, stringify);
      forall k :: 0 <= k < |ts| && k < 9 ==> saved[k] == Display(ts[k], stringify)
  {
    var saved := SavedLines(ts, stringify);
    forall k | 0 <= k < |ts| && k < 9 ensures saved[k] == Display(ts[k], stringify) {
      SingleDigitLineSavedAsDisplay(k + 1, Display(ts[k], stringify));
    }
  }

  /**
   * The file after save(tasks): the saved text, or empty when the save failed
   * part way. An empty list leaves an empty file; a list of display strings
   * without newlines leaves its saved lines, one per line.
   */
  function FileAfterSave(ts: seq<Task>, stringify: Instant -> string): (r: Option<string>)
    ensures r.Some?
    ensures ts == [] ==> r == Some("")
    ensures ts != [] && (forall k :: 0 <= k < |ts| ==> '\n' !in Display(ts[k], stringify)) ==>
      r == Some(Join(SavedLines(ts, stringify), "\n"))
  {
    SavedListCases(ts, stringify);
    match SaveText(Listing(ts, stringify))
    case Ok(text) => Some(text)
    case Raise(_) => Some("")
  }

  lemma SavedListCases(ts: seq<Task>, stringify: Instant -> string)
    ensures ts == [] ==> SaveText(Listing(ts, stringify)) == Ok("")
    ensures ts != [] && (forall k :: 0 <= k < |ts| ==> '\n' !in Display(ts[k], stringify)) ==>
      SaveText(Listing(ts, stringify)) == Ok(Join(SavedLines(ts, stringify), "\n"))
  {
    if ts == [] {
      EmptyListSavedEmpty(stringify);
    } else if forall k :: 0 <= k < |ts| ==> '\n' !in Display(ts[k], stringify) {
      SaveTextOfList(ts, stringify);
    }
  }

  // ---------------------------------------------------------------- loading

  /**
   * The tasks load collects from the lines of the file: each line parsed in
   * turn, stopping at the first line that does not parse.
   */
  function LoadedTasks(lines: seq<string>, parseTask: string -> Attempt<Task>): (r: seq<Task>)
    ensures |r| <= |lines|
    decreases |lines|
  {
    if lines == [] then []
    else match parseTask(lines[0])
      case Threw(_) => []
      case Returned(t) => [t] + LoadedTasks(lines[1..], parseTask)
  }

  /** What load prints: the message of the line it stopped at, if it stopped early. */
  function LoadMessages(lines: seq<string>, parseTask: string -> Attempt<Task>): (r: seq<string>)
    ensures |r| <= 1
    ensures r == [] <==> forall i :: 0 <= i < |lines| ==> parseTask(lines[i]).Returned?
    decreases |lines|
  {
    if lines == [] then []
    else match parseTask(lines[0])
      case Threw(message) => [message]
      case Returned(_) => LoadMessages(lines[1..], parseTask)
  }

  /**
   * Load keeps the tasks of the leading lines that parse, each from its own
   * line, and stops exactly at the first line that does not parse.
   */
  lemma {:induction false} LoadStopsAtFirstBadLine(lines: seq<string>, parseTask: string -> Attempt<Task>)
    ensures var r := LoadedTasks(lines, parseTask);
      && (forall i :: 0 <= i < |r| ==> parseTask(lines[i]) == Returned(r[i]))
      && (|r| < |lines| ==> parseTask(lines[|r|]).Threw?)
      && LoadMessages(lines, parseTask)
         == if |r| < |lines| then [parseTask(lines[|r|]).message] else []
    decreases |lines|
  {
    if lines != [] && parseTask(lines[0]).Returned? {
      var r := LoadedTasks(lines, parseTask);
      LoadStopsAtFirstBadLine(lines[1..], parseTask);
      assert r == [parseTask(lines[0]).value] + LoadedTasks(lines[1..], parseTask);
      forall i | 1 <= i < |r| ensures parseTask(lines[i]) == Returned(r[i]) {
        assert lines[i] == lines[1..][i - 1];
      }
      if |r| < |lines| {
        assert lines[|r|] == lines[1..][|r| - 1];
      }
    }
  }

  /** A kept task comes from the line at its own position. */
  lemma LoadedLine(lines: seq<string>, parseTask: string -> Attempt<Task>, k: nat)
    requires k < |LoadedTasks(lines, parseTask)|
    ensures k < |lines| && parseTask(lines[k]) == Returned(LoadedTasks(lines, parseTask)[k])
  {
    LoadStopsAtFirstBadLine(lines, parseTask);
  }

  /** When load stops early, the line after the kept ones fails, and its message is the one printed. */
  lemma LoadStopLine(lines: seq<string>, parseTask: string -> Attempt<Task>)
    requires |LoadedTasks(lines, parseTask)| < |lines|
    ensures var n := |LoadedTasks(lines, parseTask)|;
      parseTask(lines[n]).Threw? && LoadMessages(lines, parseTask) == [parseTask(lines[n]).message]
  {
    LoadStopsAtFirstBadLine(lines, parseTask);
  }

  /** When load keeps a task for every line, it prints nothing. */
  lemma LoadAllLines(lines: seq<string>, parseTask: string -> Attempt<Task>)
    requires |LoadedTasks(lines, parseTask)| == |lines|
    ensures LoadMessages(lines, parseTask) == []
  {
    LoadStopsAtFirstBadLine(lines, parseTask);
  }

  /** When every line parses, load keeps them all, in file order. */
  lemma AllLinesLoaded(lines: seq<string>, parseTask: string -> Attempt<Task>)
    requires forall i :: 0 <= i < |lines| ==> parseTask(lines[i]).Returned?
    ensures |LoadedTasks(lines, parseTask)| == |lines|
    ensures LoadMessages(lines, parseTask) == []
  {
  }

  /** The tasks before a bad line are kept; the lines after it are never read. */
  lemma {:induction false} LoadIgnoresLinesAfterFailure(lines: seq<string>, more: seq<string>, parseTask: string -> Attempt<Task>)
    requires |LoadedTasks(lines, parseTask)| < |lines|
    ensures LoadedTasks(lines + more, parseTask) == LoadedTasks(lines, parseTask)
    ensures LoadMessages(lines + more, parseTask) == LoadMessages(lines, parseTask)
    decreases |lines|
  {
    assert (lines + more)[0] == lines[0];
    if parseTask(lines[0]).Returned? {
      assert (lines + more)[1..] == lines[1..] + more;
      LoadIgnoresLinesAfterFailure(lines[1..], more, parseTask);
    }
  }

  /** The storage file at a path: its text, or nothing when it does not exist. */
  class Storage {
    const path: string
    var file: Option<string>

    constructor (path: string, file: Option<string>)
      ensures this.path == path && this.file == file
    {
      this.path := path;
      this.file := file;
    }

    /**
     * load(): a fresh list holding the tasks of the file's lines up to the
     * first one that does not parse; a missing file gives an empty list.
     */
    method Load(parseTask: string -> Attempt<Task>) returns (tl: TaskList, printed: seq<string>)
      ensures fresh(tl)
      ensures file.None? ==> tl.tasks == [] && printed == [NotFoundMessage]
      ensures file.Some? ==>
        && tl.tasks == LoadedTasks(ScannerLines(file.value), parseTask)
        && printed == LoadMessages(ScannerLines(file.value), parseTask)
    {
      tl := new TaskList();
      printed := [];
      if file.None? {
        printed := [NotFoundMessage];
        return;
      }
      var lines := ScannerLines(file.value);
      ghost var loaded := LoadedTasks(lines, parseTask);
      var k := 0;
      while k < |lines|
        invariant 0 <= k <= |loaded| && fresh(tl)
        invariant tl.tasks == loaded[..k]
      {
        if k == |loaded| {
          LoadStopLine(lines, parseTask);
        } else {
          LoadedLine(lines, parseTask, k);
        }
        match parseTask(lines[k]) {
          case Threw(message) =>
            printed := [message];
            return;
          case Returned(t) =>
            assert loaded[..k + 1] == loaded[..k] + [t];
            tl.Append(t);
        }
        k := k + 1;
      }
      LoadAllLines(lines, parseTask);
      assert loaded[..k] == loaded;
    }

    /**
     * save(tasks): the FileWriter empties the file first; then the listing's
     * lines, without their numbering, are written one per line. An exception
     * leaves the file empty and escapes.
     */
    method Save(tl: TaskList, stringify: Instant -> string) returns (r: Result<()>)
      modifies this
      ensures file == FileAfterSave(tl.tasks, stringify)
      ensures r == if SaveText(Listing(tl.tasks, stringify)).Raise?
                   then Raise(SaveText(Listing(tl.tasks, stringify)).exception) else Ok(())
    {
      file := Some("");
      var listing := tl.ToString(stringify);
      var content := NewContent(listing);
      match content {
        case Raise(e) =>
          r := Raise(e);
        case Ok(text) =>
          file := Some(text);
          r := Ok(());
      }
    }
  }

  /**
   * The StringBuilder work of save: split the listing at newlines, append each
   * line from its fourth character on and a newline, then delete the last newline.
   */
  method NewContent(listing: string) returns (r: Result<string>)
    ensures r == SaveText(listing)
  {
    var lines := Split(listing, "\n");
    if |lines| == 0 {
      return Raise(ArrayIndexOutOfBounds);
    }
    var newContent := "";
    if lines[0] != "" {
      for k := 0 to |lines|
        invariant forall j :: 0 <= j < k ==> |lines[j]| >= 3
        invariant newContent == Terminated(Unnumbered(lines[..k]))
      {
        if |lines[k]| < 3 {
          assert 0 <= k < |lines| && |lines[k]| < 3;
          return Raise(StringIndexOutOfBounds);
        }
        UnnumberedStep(lines, k);
        newContent := newContent + lines[k][3..] + "\n";
      }
      assert lines[..|lines|] == lines;
      TerminatedIsJoin(Unnumbered(lines));
      newContent := newContent[..|newContent| - 1];
    }
    r := Ok(newContent);
  }

  /** One line further into the save loop: its text without the numbering, then a newline. */
  lemma UnnumberedStep(lines: seq<string>, k: nat)
    requires k < |lines| && forall j :: 0 <= j <= k ==> |lines[j]| >= 3
    ensures Terminated(Unnumbered(lines[..k + 1]))
      == Terminated(Unnumbered(lines[..k])) + lines[k][3..] + "\n"
  {
    var xs := Unnumbered(lines[..k + 1]);
    assert xs[..k] == Unnumbered(lines[..k]);
  }
}
