/**
 * TaskList: the ordered list of tasks, the parsing of the todo, deadline and
 * event commands that add to it, and the listings it prints.
 */
module TaskLists {
  import opened Outcomes
  import opened JavaStrings
  import opened Tasks

  // ----------------------------------------------------------- command shapes

  /**
   * input.matches("deadline .* /by .*"): a whole-string match in which '.'
   * matches anything but a line terminator. The first " /by " may start inside
   * the keyword's trailing space, but no earlier.
   */
  predicate MatchesDeadline(input: string): (b: bool)
    ensures b ==> |input| >= 14 && IndexOf(input, " /by ") >= 8
  {
    KeywordHoldsNoSeparator(input, "deadline ", " /by ");
    && StartsWith(input, "deadline ")
    && NoLineTerminator(input)
    && exists k | 9 <= k <= |input| :: OccursAt(input, " /by ", k)
  }

  /**
   * input.matches("event .* /from .* /to .*"), a whole-string match in which
   * '.' excludes line terminators. The first " /from " starts at index 5 or later.
   */
  predicate MatchesEvent(input: string): (b: bool)
    ensures b ==> |input| >= 18 && IndexOf(input, " /from ") >= 5
  {
    KeywordHoldsNoSeparator(input, "event ", " /from ");
    && StartsWith(input, "event ")
    && NoLineTerminator(input)
    && exists i, j | 6 <= i <= |input| && i + 7 <= j <= |input| ::
         OccursAt(input, " /from ", i) && OccursAt(input, " /to ", j)
  }

  /** input.matches("todo .*"): "todo " and then any text without a line terminator. */
  predicate MatchesToDo(input: string): (b: bool)
    ensures b <==> StartsWith(input, "todo ") && NoLineTerminator(input[5..])
  {
    StartsWith(input, "todo ") && NoLineTerminator(input)
  }

  /**
   * A separator that begins with a space cannot start inside a keyword whose
   * only space is its last character: the first occurrence, if any, starts at
   * that space or later.
   */
  lemma KeywordHoldsNoSeparator(input: string, keyword: string, sep: string)
    requires |keyword| >= 1 && |sep| >= 1 && sep[0] == ' '
    requires forall i :: 0 <= i < |keyword| - 1 ==> keyword[i] != ' '
    ensures StartsWith(input, keyword) ==>
      IndexOf(input, sep) == -1 || IndexOf(input, sep) >= |keyword| - 1
  {
    if StartsWith(input, keyword) {
      forall i: nat | i < |keyword| - 1 ensures !OccursAt(input, sep, i) {
        assert input[i] == keyword[i];
        if i + |sep| <= |input| {
          assert input[i..i + |sep|][0] == input[i];
        }
      }
    }
  }

  /** The task a well-formed add command describes, before its dates are parsed. */
  datatype TaskSpec =
    | ToDoSpec(content: string)
    | DeadlineSpec(content: string, byText: string)
    | EventSpec(content: string, fromText: string, toText: string)

  function EmptyArgument(command: string): Exception {
    InvalidCommandInput("Empty argument", command)
  }

  /** The deadline branch of addTask: split at " /by ", cut the keyword, check both parts. */
  function ParseDeadline(input: string): (r: Result<TaskSpec>)
    ensures r.Ok? ==> r.value.DeadlineSpec? && r.value.content != "" && r.value.byText != ""
    ensures r.Raise? ==>
      r.exception in {ArrayIndexOutOfBounds, StringIndexOutOfBounds, EmptyArgument("deadline")}
  {
    var arr := Split(input, " /by ");
    if |arr| == 0 then Raise(ArrayIndexOutOfBounds)
    else if |arr[0]| < 9 then Raise(StringIndexOutOfBounds)
    else
      var content := arr[0][9..];
      if |content| == 0 then Raise(EmptyArgument("deadline"))
      else if |arr| < 2 then Raise(ArrayIndexOutOfBounds)
      else if |arr[1]| == 0 then Raise(EmptyArgument("deadline"))
      else Ok(DeadlineSpec(content, arr[1]))
  }

  /**
   * The event branch of addTask: split at " /from ", cut the keyword, split the
   * second part at " /to ", then check the three parts.
   */
  function ParseEvent(input: string): (r: Result<TaskSpec>)
    ensures r.Ok? ==>
      r.value.EventSpec? && r.value.content != "" && r.value.fromText != "" && r.value.toText != ""
    ensures r.Raise? ==>
      r.exception in {ArrayIndexOutOfBounds, StringIndexOutOfBounds, EmptyArgument("event")}
  {
    var arr := Split(input, " /from ");
    if |arr| == 0 then Raise(ArrayIndexOutOfBounds)
    else if |arr[0]| < 6 then Raise(StringIndexOutOfBounds)
    else if |arr| < 2 then Raise(ArrayIndexOutOfBounds)
    else
      var content := arr[0][6..];
      var startEnd := Split(arr[1], " /to ");
      if |content| == 0 then Raise(EmptyArgument("event"))
      else if |startEnd| == 0 then Raise(ArrayIndexOutOfBounds)
      else if |startEnd[0]| == 0 then Raise(EmptyArgument("event"))
      else if |startEnd| < 2 then Raise(ArrayIndexOutOfBounds)
      else if |startEnd[1]| == 0 then Raise(EmptyArgument("event"))
      else Ok(EventSpec(content, startEnd[0], startEnd[1]))
  }

  /** The todo branch of addTask: everything after "todo " is the content. */
  function ParseToDo(input: string): (r: Result<TaskSpec>)
    requires |input| >= 5
    ensures r.Ok? <==> |input| > 5
    ensures r.Ok? ==> r.value.ToDoSpec? && input == input[..5] + r.value.content
    ensures r.Raise? ==> r.exception == EmptyArgument("todo")
  {
    if |input| == 5 then Raise(EmptyArgument("todo")) else Ok(ToDoSpec(input[5..]))
  }

  /** The command shapes of addTask(String), tried in its order. */
  function ParseTaskCommand(input: string): (r: Result<TaskSpec>)
    ensures r.Ok? ==> NoLineTerminator(input)
    ensures r.Ok? ==> r.value.content != ""
    ensures r.Raise? && r.exception.CommandNotFound? ==> r.exception.input == input
  {
    if input == "todo" || input == "deadline" || input == "event" then
      Raise(InvalidCommandInput("Empty argument", input))
    else if MatchesDeadline(input) then ParseDeadline(input)
    else if MatchesEvent(input) then ParseEvent(input)
    else if MatchesToDo(input) then ParseToDo(input)
    else Raise(CommandNotFound("Duke command is invalid.", input))
  }

  /** The task a parsed command creates, or the message of the date that failed to parse. */
  function BuildTask(spec: TaskSpec, dates: DateTimeHelper): (r: Attempt<Task>)
    ensures spec.ToDoSpec? ==> r.Returned?
    ensures r.Returned? ==> !r.value.done && r.value.content == spec.content
    ensures r.Returned? ==>
      (r.value.ToDo? <==> spec.ToDoSpec?) && (r.value.Deadline? <==> spec.DeadlineSpec?)
  {
    match spec
    case ToDoSpec(content) => Returned(ToDo(content, false))
    case DeadlineSpec(content, byText) => NewDeadline(content, byText, dates)
    case EventSpec(content, fromText, toText) => NewEvent(content, fromText, toText, dates)
  }

  // ------------------------------------------------- properties of the parser

  /** A bare keyword is an empty argument named after itself. */
  lemma BareKeywordIsEmptyArgument(input: string)
    requires input == "todo" || input == "deadline" || input == "event"
    ensures ParseTaskCommand(input) == Raise(InvalidCommandInput("Empty argument", input))
  {
  }

  /** No input has two shapes, so the order in which they are tried decides nothing. */
  lemma ShapesAreExclusive(input: string)
    ensures !(MatchesDeadline(input) && MatchesEvent(input))
    ensures !(MatchesDeadline(input) && MatchesToDo(input))
    ensures !(MatchesEvent(input) && MatchesToDo(input))
  {
    if MatchesDeadline(input) {
      assert input[0] == 'd';
    }
    if MatchesEvent(input) {
      assert input[0] == 'e';
    }
  }

  /** The command is unknown exactly when the input is no bare keyword and has none of the three shapes. */
  lemma UnknownCommandExactlyWhenNoShape(input: string)
    ensures ParseTaskCommand(input) == Raise(CommandNotFound("Duke command is invalid.", input)) <==>
      && input != "todo" && input != "deadline" && input != "event"
      && !MatchesDeadline(input) && !MatchesEvent(input) && !MatchesToDo(input)
  {
  }

  /** A todo command is "todo " followed by a non-empty single-line content, which becomes the task. */
  lemma ToDoCommandContent(input: string, content: string)
    ensures ParseTaskCommand(input) == Ok(ToDoSpec(content)) <==>
      input == "todo " + content && content != "" && NoLineTerminator(content)
  {
    if input == "todo " + content && content != "" && NoLineTerminator(content) {
      TypedToDoParses(content);
    }
    if ParseTaskCommand(input) == Ok(ToDoSpec(content)) {
      ParsedToDoLayout(input, content);
    }
  }

  /** "todo " + content, for a non-empty single-line content, parses to that content. */
  lemma TypedToDoParses(content: string)
    requires content != "" && NoLineTerminator(content)
    ensures ParseTaskCommand("todo " + content) == Ok(ToDoSpec(content))
  {
    var input := "todo " + content;
    assert MatchesToDo(input) by {
      assert input[..5] == "todo ";
      forall i | 0 <= i < |input| ensures !IsLineTerminator(input[i]) {
        if i >= 5 {
          assert input[i] == content[i - 5];
        }
      }
    }
    assert input[5..] == content;
    ToDoDispatch(input);
  }

  /** An input with the todo shape goes to the todo branch. */
  lemma ToDoDispatch(input: string)
    requires MatchesToDo(input)
    ensures ParseTaskCommand(input) == ParseToDo(input)
  {
    assert input[0] == 't';
    assert !MatchesDeadline(input);
    assert !MatchesEvent(input);
  }

  /** An input parsed to a to-do is "todo " followed by its single-line content. */
  lemma ParsedToDoLayout(input: string, content: string)
    requires ParseTaskCommand(input) == Ok(ToDoSpec(content))
    ensures input == "todo " + content && NoLineTerminator(content)
  {
    assert MatchesToDo(input);
    assert input == input[..5] + input[5..];
    forall i | 0 <= i < |content| ensures !IsLineTerminator(content[i]) {
      assert content[i] == input[i + 5];
    }
  }

  /** The pieces of a split that has found its separator. */
  lemma SplitAtFirstMatch(s: string, sep: string)
    requires sep != "" && IndexOf(s, sep) >= 0
    ensures var i := IndexOf(s, sep);
      var arr := Split(s, sep);
      var rest := Pieces(s[i + |sep|..], sep);
      && (i > 0 ==> |arr| >= 1)
      && (|arr| >= 1 ==> arr[0] == s[..i])
      && (|arr| >= 2 ==> arr[1] == rest[0])
      && (|arr| < 2 ==> forall k :: 0 <= k < |rest| ==> rest[k] == "")
      && (rest[0] != "" ==> |arr| >= 2)
  {
    var i := IndexOf(s, sep);
    PiecesAtFirstMatch(s, sep);
    var rest := Pieces(s[i + |sep|..], sep);
    assert Split(s, sep) == DropTrailingEmpty([s[..i]] + rest);
    DropTrailingEmptyOfCons(s[..i], rest);
    if i > 0 {
      assert |s[..i]| > 0;
    }
  }

  /** Dropping trailing empty strings from a head and a non-empty rest. */
  lemma DropTrailingEmptyOfCons(h: string, rest: seq<string>)
    requires |rest| >= 1
    ensures var arr := DropTrailingEmpty([h] + rest);
      && (h != "" ==> |arr| >= 1)
      && (|arr| >= 1 ==> arr[0] == h)
      && (|arr| >= 2 ==> arr[1] == rest[0])
      && (|arr| < 2 ==> forall k :: 0 <= k < |rest| ==> rest[k] == "")
      && (rest[0] != "" ==> |arr| >= 2)
  {
    var ps := [h] + rest;
    var arr := DropTrailingEmpty(ps);
    assert ps[0] == h;
    assert forall k :: 0 <= k < |rest| ==> ps[k + 1] == rest[k];
  }

  /** The first piece of s split at sep. */
  function FirstPiece(s: string, sep: string): string {
    var j := IndexOf(s, sep);
    if j < 0 then s else s[..j]
  }

  lemma PiecesHead(s: string, sep: string)
    requires sep != ""
    ensures Pieces(s, sep)[0] == FirstPiece(s, sep)
  {
  }

  /** Only the deadline branch produces a deadline. */
  lemma DeadlineBranchTaken(input: string)
    requires ParseTaskCommand(input).Ok? && ParseTaskCommand(input).value.DeadlineSpec?
    ensures MatchesDeadline(input) && ParseDeadline(input) == ParseTaskCommand(input)
  {
    if !MatchesDeadline(input) {
      if MatchesEvent(input) {
        EventBranchGivesEvent(input);
      }
      assert false;
    }
  }

  lemma EventBranchGivesEvent(input: string)
    ensures ParseEvent(input).Ok? ==> ParseEvent(input).value.EventSpec?
  {
  }

  lemma DeadlineBranchGivesDeadline(input: string)
    ensures ParseDeadline(input).Ok? ==> ParseDeadline(input).value.DeadlineSpec?
  {
  }

  /** Only the event branch produces an event. */
  lemma EventBranchTaken(input: string)
    requires ParseTaskCommand(input).Ok? && ParseTaskCommand(input).value.EventSpec?
    ensures MatchesEvent(input) && !MatchesDeadline(input) && ParseEvent(input) == ParseTaskCommand(input)
  {
    if MatchesDeadline(input) {
      DeadlineBranchGivesDeadline(input);
      assert false;
    }
  }

  /** What the deadline branch accepts, in terms of the separators it found. */
  lemma ParsedDeadlineFields(input: string, c: string, d: string)
    requires StartsWith(input, "deadline ") && ParseDeadline(input) == Ok(DeadlineSpec(c, d))
    ensures c != "" && d != ""
    ensures StartsWith(input, "deadline " + c + " /by " + d)
    ensures IndexOf(input, " /by ") == 9 + |c|
    ensures var tail := input[14 + |c|..];
      IndexOf(tail, " /by ") == if tail == d then -1 else |d|
  {
    var arr := Split(input, " /by ");
    DeadlinePieces(input, c, d);
    TwoPiecesFields(input, " /by ", arr[0], d);
    assert arr[0][..9] == input[..9];
    assert arr[0] == input[..9] + c;
  }

  /** The pieces the deadline branch checks before it accepts. */
  lemma DeadlinePieces(input: string, c: string, d: string)
    requires ParseDeadline(input) == Ok(DeadlineSpec(c, d))
    ensures c != "" && d != ""
    ensures var arr := Split(input, " /by ");
      |arr| >= 2 && |arr[0]| >= 9 && arr[0][9..] == c && arr[1] == d
  {
  }

  /**
   * An accepted deadline command is "deadline " + content + " /by " + date + rest,
   * where the content ends at the first " /by " and the date ends at the second
   * one (or at the end of the input); both are non-empty.
   */
  lemma DeadlineCommandFields(input: string, c: string, d: string)
    requires ParseTaskCommand(input) == Ok(DeadlineSpec(c, d))
    ensures c != "" && d != "" && NoLineTerminator(input)
    ensures StartsWith(input, "deadline " + c + " /by " + d)
    ensures IndexOf(input, " /by ") == 9 + |c|
    ensures var tail := input[14 + |c|..];
      IndexOf(tail, " /by ") == if tail == d then -1 else |d|
  {
    DeadlineBranchTaken(input);
    ParsedDeadlineFields(input, c, d);
  }

  /** s has no '/' at its start or right after a space, so no " /by ", " /from " or " /to " starts inside it. */
  predicate SlashFree(s: string) {
    forall i :: 0 <= i < |s| && s[i] == '/' ==> i > 0 && s[i - 1] != ' '
  }

  lemma SlashFreeConcat(x: string, y: string)
    requires SlashFree(x) && SlashFree(y)
    ensures SlashFree(x + y)
  {
    var s := x + y;
    forall i | 0 <= i < |s| && s[i] == '/' ensures i > 0 && s[i - 1] != ' ' {
      if i >= |x| {
        assert y[i - |x|] == '/';
      }
    }
  }

  /** Every separator used here begins with a space and a slash. */
  lemma OccurrenceStartsWithSpaceSlash(s: string, sep: string, k: nat)
    requires |sep| >= 2 && sep[0] == ' ' && sep[1] == '/' && OccursAt(s, sep, k)
    ensures k + 1 < |s| && s[k] == ' ' && s[k + 1] == '/'
  {
    assert s[k..k + |sep|][0] == s[k] && s[k..k + |sep|][1] == s[k + 1];
  }

  /** When s up to and including position p is slash-free, no space-slash starts before p. */
  lemma NoSpaceSlashBefore(s: string, p: nat, k: nat)
    requires p < |s| && SlashFree(s[..p + 1]) && k < p
    ensures !(s[k] == ' ' && s[k + 1] == '/')
  {
    assert s[..p + 1][k + 1] == s[k + 1] && s[..p + 1][k] == s[k];
  }

  /** When s from position p + 2 on is slash-free, no space-slash starts after p. */
  lemma NoSpaceSlashAfter(s: string, p: nat, k: nat)
    requires p + 2 <= |s| && SlashFree(s[p + 2..]) && p < k && k + 1 < |s|
    ensures !(s[k] == ' ' && s[k + 1] == '/')
  {
    var j := k + 1 - (p + 2);
    assert s[p + 2..][j] == s[k + 1];
    if j > 0 {
      assert s[p + 2..][j - 1] == s[k];
    }
  }

  /** A slash-free string holds none of the separators. */
  lemma SlashFreeHasNoSeparator(s: string, sep: string)
    requires SlashFree(s) && |sep| >= 2 && sep[0] == ' ' && sep[1] == '/'
    ensures IndexOf(s, sep) == -1
  {
    forall k: nat ensures !OccursAt(s, sep, k) {
      if OccursAt(s, sep, k) {
        OccurrenceStartsWithSpaceSlash(s, sep, k);
        assert false;
      }
    }
    IndexOfNone(s, sep);
  }

  /** The first occurrence of sep in s is at p, when s is slash-free up to p. */
  lemma FirstSeparatorAt(s: string, sep: string, p: nat)
    requires |sep| >= 2 && sep[0] == ' ' && sep[1] == '/'
    requires OccursAt(s, sep, p) && SlashFree(s[..p + 1])
    ensures IndexOf(s, sep) == p
  {
    forall k: nat | k < p ensures !OccursAt(s, sep, k) {
      if OccursAt(s, sep, k) {
        OccurrenceStartsWithSpaceSlash(s, sep, k);
        NoSpaceSlashBefore(s, p, k);
      }
    }
    IndexOfIs(s, sep, p);
  }

  /** In s the separator occurs only at p, when s is slash-free around that one space-slash. */
  lemma OnlySeparatorAt(s: string, sep: string, p: nat, k: nat)
    requires |sep| >= 2 && sep[0] == ' ' && sep[1] == '/'
    requires p + 2 <= |s| && SlashFree(s[..p + 1]) && SlashFree(s[p + 2..])
    requires OccursAt(s, sep, k)
    ensures k == p
  {
    OccurrenceStartsWithSpaceSlash(s, sep, k);
    if k < p {
      NoSpaceSlashBefore(s, p, k);
    } else if k > p {
      NoSpaceSlashAfter(s, p, k);
    }
  }

  /** In s the separator can occur only at p, when s is slash-free around that one space-slash. */
  lemma SeparatorOnlyAt(s: string, sep: string, p: nat)
    requires |sep| >= 2 && sep[0] == ' ' && sep[1] == '/'
    requires p + 2 <= |s| && SlashFree(s[..p + 1]) && SlashFree(s[p + 2..])
    ensures forall k: nat :: OccursAt(s, sep, k) ==> k == p
  {
    forall k: nat | OccursAt(s, sep, k) ensures k == p {
      OnlySeparatorAt(s, sep, p, k);
    }
  }

  /**
   * The command a user types for a deadline is read back as that deadline, as
   * long as content and date are single-line, non-empty and slash-free (a date
   * such as "2/12/2019 1800" is).
   */
  lemma DeadlineCommandRoundTrip(c: string, d: string)
    requires c != "" && d != ""
    requires SlashFree(c) && SlashFree(d) && NoLineTerminator(c) && NoLineTerminator(d)
    ensures ParseTaskCommand("deadline " + c + " /by " + d) == Ok(DeadlineSpec(c, d))
  {
    var input := "deadline " + c + " /by " + d;
    TypedDeadlineSplit(c, d);
    assert ("deadline " + c)[9..] == c;
    assert ParseDeadline(input) == Ok(DeadlineSpec(c, d));
    DeadlineShapeOf(c, d);
    DeadlineDispatch(input);
  }

  /** A typed deadline command with slash-free parts splits at " /by " into the keyword and content, and the date. */
  lemma TypedDeadlineSplit(c: string, d: string)
    requires d != "" && SlashFree(c) && SlashFree(d)
    ensures Split("deadline " + c + " /by " + d, " /by ") == ["deadline " + c, d]
  {
    var input := "deadline " + c + " /by " + d;
    var p := 9 + |c|;
    assert input[p..p + 5] == " /by ";
    assert input[..p + 1] == "deadline " + c + " ";
    SlashFreeConcat("deadline " + c, " ");
    SlashFreeConcat("deadline ", c);
    assert input[p + 5..] == d;
    SlashFreeHasNoSeparator(d, " /by ");
    SplitAtOnlySeparator(input, " /by ", p);
    assert input[..p] == "deadline " + c;
  }

  /** A typed deadline command with single-line parts has the deadline shape. */
  lemma DeadlineShapeOf(c: string, d: string)
    requires NoLineTerminator(c) && NoLineTerminator(d)
    ensures MatchesDeadline("deadline " + c + " /by " + d)
  {
    var input := "deadline " + c + " /by " + d;
    var p := 9 + |c|;
    assert input[p..p + 5] == " /by ";
    assert OccursAt(input, " /by ", p);
    assert input[..9] == "deadline ";
    LiteralIsSingleLine("deadline ");
    LiteralIsSingleLine(" /by ");
    SingleLineConcat("deadline ", c);
    SingleLineConcat("deadline " + c, " /by ");
    SingleLineConcat("deadline " + c + " /by ", d);
  }

  /** An input with the deadline shape goes to the deadline branch. */
  lemma DeadlineDispatch(input: string)
    requires MatchesDeadline(input)
    ensures ParseTaskCommand(input) == ParseDeadline(input)
  {
    assert |input| >= 9;
  }

  /** An input with the event shape goes to the event branch. */
  lemma EventDispatch(input: string)
    requires MatchesEvent(input)
    ensures ParseTaskCommand(input) == ParseEvent(input)
  {
    ShapesAreExclusive(input);
    assert |input| >= 6;
  }

  /** A string literal made of printable ASCII characters is a single line. */
  lemma LiteralIsSingleLine(s: string)
    requires forall ch | ch in s :: ' ' <= ch <= '~'
    ensures NoLineTerminator(s)
  {
    forall i | 0 <= i < |s| ensures !IsLineTerminator(s[i]) {
      assert s[i] in s;
    }
  }

  lemma SingleLineConcat(a: string, b: string)
    requires NoLineTerminator(a) && NoLineTerminator(b)
    ensures NoLineTerminator(a + b)
  {
    forall i | 0 <= i < |a + b| ensures !IsLineTerminator((a + b)[i]) {
      if i >= |a| {
        assert (a + b)[i] == b[i - |a|];
      }
    }
  }

  /** "deadline  /by …" (nothing between the keyword and " /by ") is an empty argument. */
  lemma EmptyDeadlineContentRejected(rest: string)
    requires NoLineTerminator(rest)
    ensures ParseTaskCommand("deadline  /by " + rest) == Raise(EmptyArgument("deadline"))
  {
    var input := "deadline  /by " + rest;
    EmptyDeadlineContentBranch(rest);
    EmptyDeadlineContentShape(rest);
    DeadlineDispatch(input);
  }

  /** The deadline branch on "deadline  /by " + rest: the text before the first " /by " is the bare keyword. */
  lemma EmptyDeadlineContentBranch(rest: string)
    ensures ParseDeadline("deadline  /by " + rest) == Raise(EmptyArgument("deadline"))
  {
    var input := "deadline  /by " + rest;
    assert input[9..14] == " /by ";
    assert input[..10] == "deadline  ";
    FirstSeparatorAt(input, " /by ", 9);
    SplitAtFirstMatch(input, " /by ");
    assert input[..9] == "deadline ";
    assert Split(input, " /by ")[0][9..] == "";
  }

  /** "deadline  /by " + rest has the deadline shape when rest is single-line. */
  lemma EmptyDeadlineContentShape(rest: string)
    requires NoLineTerminator(rest)
    ensures MatchesDeadline("deadline  /by " + rest)
  {
    var input := "deadline  /by " + rest;
    assert input[9..14] == " /by ";
    assert OccursAt(input, " /by ", 9);
    assert input[..9] == "deadline ";
    LiteralIsSingleLine("deadline  /by ");
    SingleLineConcat("deadline  /by ", rest);
  }

  /** "deadline x /by " passes the shape check but has no date piece: the array read crashes. */
  lemma TrailingBySeparatorCrashes()
    ensures ParseTaskCommand("deadline x /by ") == Raise(ArrayIndexOutOfBounds)
  {
    var input := "deadline x /by ";
    TrailingByBranch();
    TrailingByShape();
    DeadlineDispatch(input);
  }

  /** The deadline branch on "deadline x /by ": split drops the empty date, so arr[1] is missing. */
  lemma TrailingByBranch()
    ensures ParseDeadline("deadline x /by ") == Raise(ArrayIndexOutOfBounds)
  {
    var input := "deadline x /by ";
    assert input[10..15] == " /by ";
    assert input[..11] == "deadline x ";
    SplitAtTrailingSeparator(input, " /by ", 10);
    assert input[..10] == "deadline x";
    assert "deadline x"[9..] == "x";
  }

  /** "deadline x /by " has the deadline shape. */
  lemma TrailingByShape()
    ensures MatchesDeadline("deadline x /by ")
  {
    var input := "deadline x /by ";
    assert input[10..15] == " /by ";
    assert OccursAt(input, " /by ", 10);
    assert input[..9] == "deadline ";
    LiteralIsSingleLine(input);
  }

  /** "deadline /by  /by x" matches, but its first " /by " overlaps the keyword: substring(9) crashes. */
  lemma SeparatorInsideKeywordCrashes()
    ensures ParseTaskCommand("deadline /by  /by x") == Raise(StringIndexOutOfBounds)
  {
    var input := "deadline /by  /by x";
    SeparatorInsideKeywordBranch();
    SeparatorInsideKeywordShape();
    DeadlineDispatch(input);
  }

  /** The deadline branch on "deadline /by  /by x": the first piece is "deadline", too short to cut. */
  lemma SeparatorInsideKeywordBranch()
    ensures ParseDeadline("deadline /by  /by x") == Raise(StringIndexOutOfBounds)
  {
    var input := "deadline /by  /by x";
    assert input[8..13] == " /by ";
    assert input[..9] == "deadline ";
    FirstSeparatorAt(input, " /by ", 8);
    SplitAtFirstMatch(input, " /by ");
    assert input[..8] == "deadline";
  }

  /** "deadline /by  /by x" has the deadline shape. */
  lemma SeparatorInsideKeywordShape()
    ensures MatchesDeadline("deadline /by  /by x")
  {
    var input := "deadline /by  /by x";
    assert input[13..18] == " /by ";
    assert OccursAt(input, " /by ", 13);
    assert input[..9] == "deadline ";
    LiteralIsSingleLine(input);
  }

  /** What the event branch accepts, in terms of the separators it found. */
  lemma ParsedEventFields(input: string, c: string, s: string, e: string)
    requires StartsWith(input, "event ") && ParseEvent(input) == Ok(EventSpec(c, s, e))
    ensures c != "" && s != "" && e != ""
    ensures IndexOf(input, " /from ") == 6 + |c|
    ensures StartsWith(input, "event " + c + " /from ")
    ensures var slot := FirstPiece(input[13 + |c|..], " /from ");
      && StartsWith(slot, s + " /to " + e)
      && IndexOf(slot, " /to ") == |s|
      && var tail := slot[|s| + 5..];
         IndexOf(tail, " /to ") == if tail == e then -1 else |e|
  {
    EventPieces(input, c, s, e);
    var slot := Split(input, " /from ")[1];
    FirstTwoPieces(input, " /from ");
    EventLayout(input, c, slot);
    TwoPiecesFields(slot, " /to ", s, e);
  }

  /** The pieces the event branch checks before it accepts. */
  lemma EventPieces(input: string, c: string, s: string, e: string)
    requires ParseEvent(input) == Ok(EventSpec(c, s, e))
    ensures c != "" && s != "" && e != ""
    ensures var arr := Split(input, " /from ");
      && |arr| >= 2 && |arr[0]| >= 6 && arr[0][6..] == c
      && var startEnd := Split(arr[1], " /to ");
         |startEnd| >= 2 && startEnd[0] == s && startEnd[1] == e
  {
  }

  /** Where the content of an accepted event command and the text after " /from " sit in the input. */
  lemma EventLayout(input: string, c: string, slot: string)
    requires StartsWith(input, "event ") && IndexOf(input, " /from ") >= 6
    requires var i := IndexOf(input, " /from ");
      input[..i][6..] == c && slot == FirstPiece(input[i + 7..], " /from ")
    ensures IndexOf(input, " /from ") == 6 + |c|
    ensures StartsWith(input, "event " + c + " /from ")
    ensures slot == FirstPiece(input[13 + |c|..], " /from ")
  {
    var i := IndexOf(input, " /from ");
    PiecesLayout(input, " /from ", input[..i], slot);
    assert input[..i] == input[..6] + c;
  }

  /**
   * When a split yields at least two pieces, the text is the first piece, the
   * separator and the second piece (and maybe more): the first occurrence ends
   * the first piece, and the next one, if any, ends the second.
   */
  lemma TwoPiecesFields(s: string, sep: string, a: string, b: string)
    requires sep != ""
    requires var arr := Split(s, sep); |arr| >= 2 && arr[0] == a && arr[1] == b
    ensures StartsWith(s, a + sep + b)
    ensures IndexOf(s, sep) == |a|
    ensures var tail := s[|a| + |sep|..];
      IndexOf(tail, sep) == if tail == b then -1 else |b|
  {
    FirstTwoPieces(s, sep);
    PiecesLayout(s, sep, a, b);
  }

  /** The layout of a text around its first occurrence of sep and the piece after it. */
  lemma PiecesLayout(s: string, sep: string, a: string, b: string)
    requires sep != "" && IndexOf(s, sep) >= 0
    requires var j := IndexOf(s, sep); a == s[..j] && b == FirstPiece(s[j + |sep|..], sep)
    ensures StartsWith(s, a + sep + b)
    ensures IndexOf(s, sep) == |a|
    ensures var tail := s[|a| + |sep|..];
      IndexOf(tail, sep) == if tail == b then -1 else |b|
  {
    var j := IndexOf(s, sep);
    var tail := s[j + |sep|..];
    FirstPieceLayout(tail, sep);
    assert s[j..j + |sep|] == sep && tail[..|b|] == b;
    var n := |a| + |sep| + |b|;
    assert tail[..|b|] == s[j + |sep|..n];
    SlicesJoin(s, j, j + |sep|, n);
  }

  /** A prefix cut twice is the concatenation of the three slices. */
  lemma SlicesJoin(s: string, i: nat, j: nat, n: nat)
    requires i <= j <= n <= |s|
    ensures s[..n] == s[..i] + s[i..j] + s[j..n]
  {
  }

  /** The first two pieces of a split that yields at least two. */
  lemma FirstTwoPieces(s: string, sep: string)
    requires sep != "" && |Split(s, sep)| >= 2
    ensures var i := IndexOf(s, sep);
      && i >= 0
      && Split(s, sep)[0] == s[..i] && Split(s, sep)[1] == FirstPiece(s[i + |sep|..], sep)
  {
    var i := IndexOf(s, sep);
    if i < 0 {
      PiecesWithoutMatch(s, sep);
      assert false;
    }
    SplitAtFirstMatch(s, sep);
    PiecesHead(s[i + |sep|..], sep);
  }

  /** The first piece is a prefix, and it ends where the next occurrence starts, if there is one. */
  lemma FirstPieceLayout(t: string, sep: string)
    requires sep != ""
    ensures var b := FirstPiece(t, sep);
      StartsWith(t, b) && IndexOf(t, sep) == if t == b then -1 else |b|
  {
  }

  /**
   * An accepted event command is "event " + content + " /from " + start + " /to " + end + rest:
   * the content ends at the first " /from "; start and end come from the text
   * after it, up to the next " /from ", split at " /to "; all three are non-empty.
   */
  lemma EventCommandFields(input: string, c: string, s: string, e: string)
    requires ParseTaskCommand(input) == Ok(EventSpec(c, s, e))
    ensures c != "" && s != "" && e != "" && NoLineTerminator(input)
    ensures IndexOf(input, " /from ") == 6 + |c|
    ensures StartsWith(input, "event " + c + " /from ")
    ensures var slot := FirstPiece(input[13 + |c|..], " /from ");
      && StartsWith(slot, s + " /to " + e)
      && IndexOf(slot, " /to ") == |s|
      && var tail := slot[|s| + 5..];
         IndexOf(tail, " /to ") == if tail == e then -1 else |e|
  {
    EventBranchTaken(input);
    ParsedEventFields(input, c, s, e);
  }

  /** A split at a separator that occurs once, with text on both sides of it, gives those two texts. */
  lemma SplitAtOnlySeparator(s: string, sep: string, p: nat)
    requires |sep| >= 2 && sep[0] == ' ' && sep[1] == '/'
    requires OccursAt(s, sep, p) && SlashFree(s[..p + 1])
    requires s[p + |sep|..] != "" && IndexOf(s[p + |sep|..], sep) == -1
    ensures Split(s, sep) == [s[..p], s[p + |sep|..]]
  {
    FirstSeparatorAt(s, sep, p);
    PiecesAtFirstMatch(s, sep);
    PiecesWithoutMatch(s[p + |sep|..], sep);
  }

  /** The text after " /from " in a typed event command splits into its start and end. */
  lemma EventSlotSplit(s: string, e: string)
    requires s != "" && e != "" && SlashFree(s) && SlashFree(e)
    ensures var slot := s + " /to " + e;
      IndexOf(slot, " /from ") == -1 && Split(slot, " /to ") == [s, e]
  {
    SlotHasNoFrom(s, e);
    SlotSplitAtTo(s, e);
  }

  /** The only " /" in s + " /to " + e starts " /to ", so " /from " does not occur. */
  lemma SlotHasNoFrom(s: string, e: string)
    requires SlashFree(s) && SlashFree(e)
    ensures IndexOf(s + " /to " + e, " /from ") == -1
  {
    var slot := s + " /to " + e;
    var tail := "to " + e;
    assert slot == (s + " /") + tail;
    assert slot[..|s| + 1] == s + " ";
    assert slot[|s| + 2..] == tail;
    assert slot[|s| + 2] == tail[0] == 't';
    SlashFreeConcat(s, " ");
    SlashFreeConcat("to ", e);
    SeparatorOnlyAt(slot, " /from ", |s|);
    forall k: nat ensures !OccursAt(slot, " /from ", k) {
      if k == |s| && k + 7 <= |slot| {
        assert slot[k..k + 7][2] == slot[|s| + 2];
      }
    }
    IndexOfNone(slot, " /from ");
  }

  /** s + " /to " + e splits at its one " /to " into s and e. */
  lemma SlotSplitAtTo(s: string, e: string)
    requires s != "" && e != "" && SlashFree(s) && SlashFree(e)
    ensures Split(s + " /to " + e, " /to ") == [s, e]
  {
    var slot := s + " /to " + e;
    assert slot[..|s| + 1] == s + " ";
    SlashFreeConcat(s, " ");
    assert slot[|s|..|s| + 5] == " /to ";
    assert slot[|s| + 5..] == e;
    SlashFreeHasNoSeparator(e, " /to ");
    SplitAtOnlySeparator(slot, " /to ", |s|);
    assert slot[..|s|] == s;
  }

  /**
   * The command a user types for an event is read back as that event, as long
   * as content and both dates are single-line, non-empty and slash-free.
   */
  lemma EventCommandRoundTrip(c: string, s: string, e: string)
    requires c != "" && s != "" && e != ""
    requires SlashFree(c) && SlashFree(s) && SlashFree(e)
    requires NoLineTerminator(c) && NoLineTerminator(s) && NoLineTerminator(e)
    ensures ParseTaskCommand("event " + c + " /from " + s + " /to " + e) == Ok(EventSpec(c, s, e))
  {
    var input := "event " + c + " /from " + s + " /to " + e;
    TypedEventParses(c, s, e);
    EventShapeOf(c, s, e);
    EventDispatch(input);
  }

  /** The event branch reads back the parts of a typed event command. */
  lemma TypedEventParses(c: string, s: string, e: string)
    requires c != "" && s != "" && e != ""
    requires SlashFree(c) && SlashFree(s) && SlashFree(e)
    ensures ParseEvent("event " + c + " /from " + s + " /to " + e) == Ok(EventSpec(c, s, e))
  {
    var slot := s + " /to " + e;
    var input := "event " + c + " /from " + slot;
    assert input == "event " + c + " /from " + s + " /to " + e;
    EventSlotSplit(s, e);
    FirstEventSplit(c, slot);
    ParseEventOfSplits(input, c, slot, s, e);
    assert input == "event " + c + " /from " + s + " /to " + e;
  }

  /** The first split of a typed event command, when the text after " /from " holds no other one. */
  lemma FirstEventSplit(c: string, slot: string)
    requires SlashFree(c) && slot != "" && IndexOf(slot, " /from ") == -1
    ensures Split("event " + c + " /from " + slot, " /from ") == ["event " + c, slot]
  {
    var input := "event " + c + " /from " + slot;
    var p := 6 + |c|;
    assert input[p..p + 7] == " /from ";
    assert input[..p + 1] == "event " + c + " ";
    SlashFreeConcat("event ", c);
    SlashFreeConcat("event " + c, " ");
    assert input[p + 7..] == slot;
    SplitAtOnlySeparator(input, " /from ", p);
    assert input[..p] == "event " + c;
  }

  /** The checks of the event branch, once both splits are known. */
  lemma ParseEventOfSplits(input: string, c: string, slot: string, s: string, e: string)
    requires c != "" && s != "" && e != ""
    requires Split(input, " /from ") == ["event " + c, slot] && Split(slot, " /to ") == [s, e]
    ensures ParseEvent(input) == Ok(EventSpec(c, s, e))
  {
    assert ("event " + c)[6..] == c;
  }

  /** A typed event command with single-line parts has the event shape. */
  lemma EventShapeOf(c: string, s: string, e: string)
    requires NoLineTerminator(c) && NoLineTerminator(s) && NoLineTerminator(e)
    ensures MatchesEvent("event " + c + " /from " + s + " /to " + e)
  {
    var input := "event " + c + " /from " + s + " /to " + e;
    var p := 6 + |c|;
    assert input[p..p + 7] == " /from ";
    assert OccursAt(input, " /from ", p);
    assert input[p + 7 + |s|..p + 7 + |s| + 5] == " /to ";
    assert OccursAt(input, " /to ", p + 7 + |s|);
    assert input[..6] == "event ";
    LiteralIsSingleLine("event ");
    LiteralIsSingleLine(" /from ");
    LiteralIsSingleLine(" /to ");
    SingleLineConcat("event ", c);
    SingleLineConcat("event " + c, " /from ");
    SingleLineConcat("event " + c + " /from ", s);
    SingleLineConcat("event " + c + " /from " + s, " /to ");
    SingleLineConcat("event " + c + " /from " + s + " /to ", e);
  }

  /** "event x /from a /to " passes the shape check but has no end piece: the array read crashes. */
  lemma TrailingToSeparatorCrashes()
    ensures ParseTaskCommand("event x /from a /to ") == Raise(ArrayIndexOutOfBounds)
  {
    var input := "event x /from a /to ";
    TrailingToBranch();
    TrailingToShape();
    EventDispatch(input);
  }

  /** The event branch on "event x /from a /to " reads past the end of the second split. */
  lemma TrailingToBranch()
    ensures ParseEvent("event x /from a /to ") == Raise(ArrayIndexOutOfBounds)
  {
    TrailingToSplits();
    assert "event x"[6..] == "x";
  }

  /** "event x /from a /to " has the event shape. */
  lemma TrailingToShape()
    ensures MatchesEvent("event x /from a /to ")
  {
    var input := "event x /from a /to ";
    assert input[7..14] == " /from ";
    assert OccursAt(input, " /from ", 7);
    assert input[15..20] == " /to ";
    assert OccursAt(input, " /to ", 15);
    assert input[..6] == "event ";
    LiteralIsSingleLine(input);
  }

  /** The two splits of "event x /from a /to ": the second leaves only the start. */
  lemma TrailingToSplits()
    ensures Split("event x /from a /to ", " /from ") == ["event x", "a /to "]
    ensures Split("a /to ", " /to ") == ["a"]
  {
    TrailingToFirstSplit();
    TrailingToSecondSplit();
  }

  lemma TrailingToFirstSplit()
    ensures Split("event x /from a /to ", " /from ") == ["event x", "a /to "]
  {
    var input := "event x /from a /to ";
    var slot := "a /to ";
    assert input[7..14] == " /from ";
    assert input[..8] == "event x ";
    assert input[14..] == slot;
    // slot is shorter than the separator
    forall k: nat ensures !OccursAt(slot, " /from ", k) {
    }
    IndexOfNone(slot, " /from ");
    SplitAtOnlySeparator(input, " /from ", 7);
    assert input[..7] == "event x";
  }

  lemma TrailingToSecondSplit()
    ensures Split("a /to ", " /to ") == ["a"]
  {
    var slot := "a /to ";
    assert slot[1..6] == " /to ";
    assert slot[..2] == "a ";
    SplitAtTrailingSeparator(slot, " /to ", 1);
    assert slot[..1] == "a";
  }

  /** A separator at the very end, with nothing before it, leaves one piece. */
  lemma SplitAtTrailingSeparator(s: string, sep: string, p: nat)
    requires |sep| >= 2 && sep[0] == ' ' && sep[1] == '/'
    requires 0 < p && p + |sep| == |s| && OccursAt(s, sep, p) && SlashFree(s[..p + 1])
    ensures Split(s, sep) == [s[..p]]
  {
    FirstSeparatorAt(s, sep, p);
    PiecesAtFirstMatch(s, sep);
    assert s[p + |sep|..] == "";
    PiecesWithoutMatch("", sep);
    assert Pieces(s, sep) == [s[..p], ""];
    assert |s[..p]| > 0;
    assert DropTrailingEmpty([s[..p], ""]) == DropTrailingEmpty([s[..p]]);
  }

  // ---------------------------------------------------------------- listings

  /** The tasks of ts that satisfy keep, in their order in ts. */
  function Filter(ts: seq<Task>, keep: Task -> bool): seq<Task> {
    if ts == [] then []
    else Filter(ts[..|ts| - 1], keep) + (if keep(ts[|ts| - 1]) then [ts[|ts| - 1]] else [])
  }

  /** A task is kept exactly when it is in the list and satisfies the condition. */
  lemma {:induction false} FilterMembers(ts: seq<Task>, keep: Task -> bool)
    ensures |Filter(ts, keep)| <= |ts|
    ensures forall t :: t in Filter(ts, keep) <==> t in ts && keep(t)
    decreases |ts|
  {
    if ts != [] {
      var init := ts[..|ts| - 1];
      FilterMembers(init, keep);
      assert ts == init + [ts[|ts| - 1]];
    }
  }

  /** Filtering keeps the list order: it distributes over concatenation. */
  lemma {:induction false} FilterOfAppend(a: seq<Task>, b: seq<Task>, keep: Task -> bool)
    ensures Filter(a + b, keep) == Filter(a, keep) + Filter(b, keep)
    decreases |b|
  {
    if b == [] {
      assert a + b == a;
    } else {
      var init := b[..|b| - 1];
      assert (a + b)[..|a + b| - 1] == a + init;
      FilterOfAppend(a, init, keep);
    }
  }

  /** Lines "<first + k><sep><display of ts[k]>" for every task, in order. */
  function NumberedLines(ts: seq<Task>, first: nat, sep: string, stringify: Instant -> string): (lines: seq<string>)
  {
    seq(|ts|, k requires 0 <= k < |ts| => NatToString(first + k) + sep + Display(ts[k], stringify))
  }

  lemma NumberedLinesAppend(ts: seq<Task>, t: Task, first: nat, sep: string, stringify: Instant -> string)
    ensures NumberedLines(ts + [t], first, sep, stringify)
      == NumberedLines(ts, first, sep, stringify) + [NatToString(first + |ts|) + sep + Display(t, stringify)]
  {
  }

  /** TaskList.toString: the numbered display strings, one per line, no trailing newline. */
  function Listing(ts: seq<Task>, stringify: Instant -> string): (s: string)
    ensures s == "" <==> ts == []
    ensures ts != [] ==> StartsWith(s, "1. " + Display(ts[0], stringify))
  {
    Join(NumberedLines(ts, 1, ". ", stringify), "\n")
  }

  /** The listing of an empty list is the empty string. */
  lemma EmptyListing(stringify: Instant -> string)
    ensures Listing([], stringify) == ""
  {
  }

  /**
   * The listing splits back into its numbered lines: line k is "k. " + the k-th
   * display string, as long as no display string holds a newline.
   */
  lemma ListingLines(ts: seq<Task>, stringify: Instant -> string)
    requires ts != []
    requires forall k :: 0 <= k < |ts| ==> '\n' !in Display(ts[k], stringify)
    ensures Split(Listing(ts, stringify), "\n") == NumberedLines(ts, 1, ". ", stringify)
  {
    var lines := NumberedLines(ts, 1, ". ", stringify);
    forall k | 0 <= k < |lines| ensures '\n' !in lines[k] {
      var num := NatToString(1 + k);
      var shown := Display(ts[k], stringify);
      assert lines[k] == num + ". " + shown;
      forall i | 0 <= i < |lines[k]| ensures lines[k][i] != '\n' {
        if i < |num| {
          assert lines[k][i] == num[i] && IsDigit(num[i]);
        } else if i >= |num| + 2 {
          assert lines[k][i] == shown[i - |num| - 2];
        }
      }
    }
    assert lines[|lines| - 1] != "";
    SplitOfJoin(lines, '\n');
  }

  /** The predicate printTasksOnDate applies to each task. */
  function OccursOnDate(dt: Instant): Task -> bool {
    (t: Task) => (t.Deadline? || t.Event?) && OccursOn(t, dt)
  }

  /** The tasks that printTasksOnDate lists, in list order. */
  function OccurringOn(ts: seq<Task>, dt: Instant): seq<Task> {
    Filter(ts, OccursOnDate(dt))
  }

  /** The tasks on a date are the deadlines due then and the events that span it, and nothing else. */
  lemma OccurringOnMembers(ts: seq<Task>, dt: Instant)
    ensures forall t :: t in OccurringOn(ts, dt) <==>
      t in ts && (t.Deadline? || t.Event?) && OccursOn(t, dt)
    ensures forall t :: t in OccurringOn(ts, dt) ==> !t.ToDo?
  {
    FilterMembers(ts, OccursOnDate(dt));
  }

  /** The header findTasksWithWord prints first. */
  const FindHeader := "Here are the matching tasks in your list:"

  /** The tasks that contain the word, in list order. */
  function ContainingWord(ts: seq<Task>, word: string, containsWord: (Task, string) -> bool): seq<Task> {
    Filter(ts, (t: Task) => containsWord(t, word))
  }

  /** One more task looked at by printTasksOnDate: it is listed, with the next number, exactly when it occurs then. */
  lemma OccurringOnStep(ts: seq<Task>, k: nat, dt: Instant, stringify: Instant -> string)
    requires k < |ts|
    ensures var before := OccurringOn(ts[..k], dt);
      var t := ts[k];
      if (t.Deadline? || t.Event?) && OccursOn(t, dt) then
        && OccurringOn(ts[..k + 1], dt) == before + [t]
        && NumberedLines(OccurringOn(ts[..k + 1], dt), 1, ". ", stringify)
           == NumberedLines(before, 1, ". ", stringify) + [NatToString(|before| + 1) + ". " + Display(t, stringify)]
      else OccurringOn(ts[..k + 1], dt) == before
  {
    var t := ts[k];
    assert ts[..k + 1] == ts[..k] + [t];
    FilterOfAppend(ts[..k], [t], OccursOnDate(dt));
    assert [t][..0] == [];
    NumberedLinesAppend(OccurringOn(ts[..k], dt), t, 1, ". ", stringify);
  }

  /** The lines findTasksWithWord prints for the tasks it finds, each numbered "1.". */
  function FoundLines(found: seq<Task>, stringify: Instant -> string): seq<string> {
    seq(|found|, j requires 0 <= j < |found| => "1." + Display(found[j], stringify))
  }

  /** The found lines, one per found task, each prefixed "1.". */
  lemma FoundLinesAt(found: seq<Task>, stringify: Instant -> string)
    ensures |FoundLines(found, stringify)| == |found|
    ensures forall k :: 0 <= k < |found| ==> FoundLines(found, stringify)[k] == "1." + Display(found[k], stringify)
  {
  }

  lemma FoundLinesAppend(found: seq<Task>, t: Task, stringify: Instant -> string)
    ensures FoundLines(found + [t], stringify) == FoundLines(found, stringify) + ["1." + Display(t, stringify)]
  {
  }

  /** One more task looked at by findTasksWithWord: it is found exactly when it contains the word. */
  lemma ContainingWordStep(ts: seq<Task>, k: nat, word: string, containsWord: (Task, string) -> bool)
    requires k < |ts|
    ensures ContainingWord(ts[..k + 1], word, containsWord)
      == ContainingWord(ts[..k], word, containsWord) + (if containsWord(ts[k], word) then [ts[k]] else [])
  {
    assert ts[..k + 1] == ts[..k] + [ts[k]];
    FilterOfAppend(ts[..k], [ts[k]], (t: Task) => containsWord(t, word));
    assert [ts[k]][..0] == [];
  }

  /**
   * What toString has built after k of the lines: those lines joined by
   * newlines, followed by one more newline unless they are all of them.
   */
  ghost function JoinedPrefix(lines: seq<string>, k: nat): string
    requires k <= |lines|
  {
    if k == 0 then ""
    else if k < |lines| then Join(lines[..k], "\n") + "\n"
    else Join(lines[..k], "\n")
  }

  lemma JoinedPrefixStep(lines: seq<string>, k: nat)
    requires k < |lines|
    ensures JoinedPrefix(lines, k + 1)
      == JoinedPrefix(lines, k) + lines[k] + (if k + 1 < |lines| then "\n" else "")
  {
    JoinStep(lines, k);
  }

  /** Joining one more line with newlines. */
  lemma JoinStep(lines: seq<string>, k: nat)
    requires k < |lines|
    ensures Join(lines[..k + 1], "\n")
      == if k == 0 then lines[0] else Join(lines[..k], "\n") + "\n" + lines[k]
  {
    assert lines[..k + 1] == lines[..k] + [lines[k]];
    JoinAppend(lines[..k], lines[k], "\n");
  }

  // ---------------------------------------------------------------- the list

  /** The result of getTask and of the final read in addTask: the element, or the exception of List.get. */
  function ElementAt(ts: seq<Task>, i: int): (r: Result<Task>)
    ensures r.Ok? <==> 0 <= i < |ts|
    ensures r.Ok? ==> r.value == ts[i] && r.value in ts
    ensures r.Raise? ==> r.exception == IndexOutOfBounds
  {
    if 0 <= i < |ts| then Ok(ts[i]) else Raise(IndexOutOfBounds)
  }

  class TaskList {
    var tasks: seq<Task>

    constructor ()
      ensures tasks == []
    {
      tasks := [];
    }

    /** getTask(i) */
    function GetTask(i: int): (r: Result<Task>)
      reads this
      ensures r == ElementAt(tasks, i)
    {
      ElementAt(tasks, i)
    }

    /** numberOfTasks() */
    function NumberOfTasks(): (n: nat)
      reads this
      ensures n == |tasks|
    {
      |tasks|
    }

    /**
     * addTask(String): parse the command and append the task it describes.
     * An exception from the parser leaves the list as it was. When a date does
     * not parse, its message is printed, nothing is appended, and the method
     * returns whatever task was last before (or crashes on an empty list).
     */
    method AddTask(input: string, dates: DateTimeHelper) returns (r: Result<Task>, printed: seq<string>)
      modifies this
      ensures match ParseTaskCommand(input)
        case Raise(e) => tasks == old(tasks) && r == Raise(e) && printed == []
        case Ok(spec) =>
          match BuildTask(spec, dates)
          case Returned(t) => tasks == old(tasks) + [t] && r == Ok(t) && printed == []
          case Threw(message) =>
            && tasks == old(tasks) && printed == [message]
            && r == ElementAt(old(tasks), |old(tasks)| - 1)
    {
      printed := [];
      match ParseTaskCommand(input) {
        case Raise(e) =>
          r := Raise(e);
          return;
        case Ok(spec) =>
          match BuildTask(spec, dates) {
            case Returned(t) =>
              tasks := tasks + [t];
            case Threw(message) =>
              printed := [message];
          }
      }
      r := GetTask(|tasks| - 1);
    }

    /** addTask(Task): append a task built elsewhere. */
    method Append(t: Task)
      modifies this
      ensures tasks == old(tasks) + [t]
    {
      tasks := tasks + [t];
    }

    /** deleteTask(i): remove and return the task at i; outside the list, nothing changes. */
    method DeleteTask(i: int) returns (r: Result<Task>)
      modifies this
      ensures r == ElementAt(old(tasks), i)
      ensures r.Ok? ==> tasks == old(tasks)[..i] + old(tasks)[i + 1..]
      ensures r.Raise? ==> tasks == old(tasks)
    {
      r := GetTask(i);
      if r.Ok? {
        tasks := tasks[..i] + tasks[i + 1..];
      }
    }

    /** markTask(i): set the done flag of the task at i and touch nothing else. */
    method MarkTask(i: int) returns (r: Result<()>)
      modifies this
      ensures r.Ok? <==> 0 <= i < |old(tasks)|
      ensures r.Ok? ==> tasks == old(tasks)[i := Mark(old(tasks)[i])]
      ensures r.Raise? ==> r.exception == IndexOutOfBounds && tasks == old(tasks)
    {
      if 0 <= i < |tasks| {
        tasks := tasks[i := Mark(tasks[i])];
        r := Ok(());
      } else {
        r := Raise(IndexOutOfBounds);
      }
    }

    /** unmarkTask(i): clear the done flag of the task at i and touch nothing else. */
    method UnmarkTask(i: int) returns (r: Result<()>)
      modifies this
      ensures r.Ok? <==> 0 <= i < |old(tasks)|
      ensures r.Ok? ==> tasks == old(tasks)[i := Unmark(old(tasks)[i])]
      ensures r.Raise? ==> r.exception == IndexOutOfBounds && tasks == old(tasks)
    {
      if 0 <= i < |tasks| {
        tasks := tasks[i := Unmark(tasks[i])];
        r := Ok(());
      } else {
        r := Raise(IndexOutOfBounds);
      }
    }

    /**
     * printTasksOnDate(input): a date that does not parse raises before anything
     * is printed; otherwise the deadlines and events occurring then are printed
     * in list order, numbered 1, 2, ... among themselves.
     */
    method PrintTasksOnDate(input: string, dates: DateTimeHelper) returns (r: Result<seq<string>>)
      ensures dates.parse(input).Threw? ==> r == Raise(InvalidDateFormat(dates.parse(input).message))
      ensures dates.parse(input).Returned? ==>
        r == Ok(NumberedLines(OccurringOn(tasks, dates.parse(input).value), 1, ". ", dates.stringify))
    {
      var parsed := dates.parse(input);
      if parsed.Threw? {
        return Raise(InvalidDateFormat(parsed.message));
      }
      var datetime := parsed.value;
      var counter := 1;
      var printed: seq<string> := [];
      var k := 0;
      while k < |tasks|
        invariant 0 <= k <= |tasks|
        invariant printed == NumberedLines(OccurringOn(tasks[..k], datetime), 1, ". ", dates.stringify)
        invariant counter == |OccurringOn(tasks[..k], datetime)| + 1
      {
        var t := tasks[k];
        OccurringOnStep(tasks, k, datetime, dates.stringify);
        if t.Deadline? {
          if OccursOn(t, datetime) {
            printed := printed + [NatToString(counter) + ". " + Display(t, dates.stringify)];
            counter := counter + 1;
          }
        } else if t.Event? {
          if OccursOn(t, datetime) {
            printed := printed + [NatToString(counter) + ". " + Display(t, dates.stringify)];
            counter := counter + 1;
          }
        }
        k := k + 1;
      }
      assert tasks[..k] == tasks;
      r := Ok(printed);
    }

    /**
     * findTasksWithWord(word): the header, then every task containing the word,
     * in list order; each is numbered "1." because the counter never advances.
     */
    method FindTasksWithWord(word: string, containsWord: (Task, string) -> bool, stringify: Instant -> string)
      returns (printed: seq<string>)
      ensures var found := ContainingWord(tasks, word, containsWord);
        && |printed| == |found| + 1
        && printed[0] == FindHeader
        && forall k :: 0 <= k < |found| ==> printed[k + 1] == "1." + Display(found[k], stringify)
    {
      printed := [FindHeader];
      var counter := 1;
      assert NatToString(counter) + "." == "1.";
      var ts := tasks;
      var k := 0;
      while k < |ts|
        invariant 0 <= k <= |ts|
        invariant printed == [FindHeader] + FoundLines(ContainingWord(ts[..k], word, containsWord), stringify)
      {
        var t := ts[k];
        ghost var before := ContainingWord(ts[..k], word, containsWord);
        ContainingWordStep(ts, k, word, containsWord);
        if containsWord(t, word) {
          FoundLinesAppend(before, t, stringify);
          printed := printed + [NatToString(counter) + "." + Display(t, stringify)];
          assert printed == [FindHeader] + (FoundLines(before, stringify) + ["1." + Display(t, stringify)]);
        }
        k := k + 1;
      }
      assert ts[..k] == ts;
      FoundLinesAt(ContainingWord(ts, word, containsWord), stringify);
    }

    /** toString(): "k. " + the k-th task for k = 1..n, separated by newlines, none after the last. */
    method ToString(stringify: Instant -> string) returns (result: string)
      ensures result == Listing(tasks, stringify)
    {
      ghost var lines := NumberedLines(tasks, 1, ". ", stringify);
      result := "";
      var curr := 1;
      var k := 0;
      while k < |tasks|
        invariant 0 <= k <= |tasks| && curr == k + 1
        invariant result == JoinedPrefix(lines, k)
      {
        var line := NatToString(curr) + ". " + Display(tasks[k], stringify);
        assert line == lines[k];
        JoinedPrefixStep(lines, k);
        result := result + line;
        if curr != |tasks| {
          result := result + "\n";
        }
        curr := curr + 1;
        k := k + 1;
      }
      assert lines[..k] == lines;
      assert result == Join(lines, "\n");
    }
  }
}
