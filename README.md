# Task tracker core in Dafny

This project models the core of a command-line task tracker written in Java.
The user adds to-dos, deadlines and events with typed commands. They can then:

- mark and unmark tasks;
- delete tasks;
- list the tasks that occur on a date;
- search for a word.

The list is kept between runs in a text file, one task per line.

The model follows the Java classes one by one.

- `Tasks` (`tasks.dfy`): the three task variants as one datatype, and for each variant:
  - its two constructors: the user's fresh one and the rehydrating one;
  - `occursOn`;
  - its display string `[D][X] content (by: …)`.
- `TaskLists` (`task_list.dfy`): the `addTask(String)` parser and the listings, plus the class `TaskList`. The parser covers:
  - the regex shapes `deadline .* /by .*`, `event .* /from .* /to .*` and `todo .*`;
  - `String.split` at `" /by "`, `" /from "` and `" /to "`;
  - the `substring` cuts and the empty-argument checks.

  `TaskList` is a class whose `tasks` sequence its methods update.
- `Sys` (`storage.dfy`): the class `Storage`. It holds the file's contents as a field, so it can model:
  - `load`, which reads line by line and stops at the first line that does not parse;
  - `save`, which truncates the file, cuts the first three characters off every line of `TaskList.toString()`, and writes the lines back.
- `Commands` (`commands.dfy`): `MarkCommand` and `UnmarkCommand`. Each one:
  - reads the number with `Integer.valueOf`;
  - checks it against the list;
  - changes the task and saves the list;
  - echoes the task.
- `Responses` (`response.dfy`): `Response`, which holds a reference to a list and renders it when printed.
- `JavaStrings` (`java_strings.dfy`): the `java.lang` behaviour the code relies on:
  - `indexOf`;
  - `split` with a literal separator, which drops trailing empty strings;
  - the regex `.` class;
  - `Integer.toString` and `Integer.valueOf`;
  - `Scanner.nextLine` line splitting.
- `Outcomes` (`outcomes.dfy`): the exceptions as values.

A Java exception that escapes a method becomes a `Raise` result. This covers:

- the checked exceptions of the code base;
- `ArrayIndexOutOfBoundsException` and `StringIndexOutOfBoundsException` thrown on malformed commands;
- `IndexOutOfBoundsException` from `List.get`;
- `NumberFormatException` from `Integer.valueOf`.

A method that prints returns its printed lines.

Some behaviours of the code are worth stating outright, because a reader might expect otherwise:

- `findTasksWithWord` never advances its counter, so every match is printed as `1.` followed by the task.
- `load` stops at the first line that does not parse, because the `catch` is outside the loop.
- `save` writes each listing line without its first three characters. The listing line is `k. ` followed by the display string. For `k` up to 9 this leaves exactly the display string. From task 10 on, a residue of the number is kept: `10. x` is saved as ` x`.
- An out-of-range task number in `mark`/`unmark` raises `InvalidCommandInputException("Task number is invalid!")` (`"task.Task number is invalid!"` for unmark, as spelled in the code), not a separate index error.
- A task's `start <= end` is not enforced. `InvertedEventOccursOnlyAtEnds` states what `occursOn` does when the ends are swapped.

## Model

| member | source | states |
|---|---|---|
| Tasks.Mark | src/main/java/task/TaskList.java:113 | the marked task is done and keeps its variant tag and content |
| Tasks.Unmark | src/main/java/task/TaskList.java:122 | the unmarked task is not done and keeps its variant tag and content |
| Tasks.OccursOn | src/main/java/task/Event.java:19-23 | an event occurs on its start and on its end; with start <= end it occurs exactly on the closed interval between them |
| Tasks.Display | src/main/java/task/Event.java:31-36 | the display string starts with the three-character variant tag and "[", the status icon, "] "; the icon is 'X' iff the task is done; it is at least as long as the content plus those seven characters |
| Tasks.MarkChangesOnlyDone | src/main/java/task/TaskList.java:112-123 | mark sets and unmark clears the done flag; content and instants are unchanged |
| Tasks.NewDeadline | src/main/java/task/Deadline.java:21-24 | a fresh deadline exists exactly when the date text parses; it is not done and is due at the parsed instant; otherwise the parser's message is thrown |
| Tasks.RehydrateDeadline | src/main/java/task/Deadline.java:33-36 | a rehydrated deadline keeps the given done flag and uses the saved-format parser; it fails exactly when that parser fails |
| Tasks.NewEvent | src/main/java/task/Event.java:13-17 | a fresh event exists exactly when both dates parse; the start is parsed first, so its error wins |
| Tasks.RehydrateEvent | src/main/java/task/Event.java:25-29 | the same for a rehydrated event, with the given done flag and the saved-format parser |
| Tasks.DeadlineOccursOnlyOnItsInstant | src/main/java/task/Deadline.java:44-46 | a deadline occurs on an instant iff that instant is its deadline |
| Tasks.EventBoundsAreInclusive | src/main/java/task/Event.java:19-23 | an event occurs on its start and on its end |
| Tasks.EventContainsInterior | src/main/java/task/Event.java:19-23 | an event occurs on every instant strictly between its ends |
| Tasks.EventIsClosedInterval | src/main/java/task/Event.java:19-23 | with start <= end, an event occurs on exactly the instants of the closed interval |
| Tasks.InvertedEventOccursOnlyAtEnds | src/main/java/task/Event.java:19-23 | with end < start, an event occurs on exactly its two end instants |
| Tasks.NewDeadlineOccursOnParsedInstant | src/main/java/task/Deadline.java:21-46 | a freshly created deadline occurs on an instant iff its date text parses to that instant |
| Tasks.MarkKeepsOccurrence | src/main/java/task/Event.java:19-23 | marking or unmarking never changes on which instants a task occurs |
| Tasks.DisplayLayout | src/main/java/task/Deadline.java:49-52 | a display string is the three-character tag, "[", the one-character status icon, "] ", the content and the trailer |
| Tasks.DisplayHead | src/main/java/task/Event.java:31-36 | a display string starts with the variant tag; position 4 is 'X' iff the task is done; the content follows at position 7 |
| Tasks.KindTagIdentifiesVariant | src/main/java/task/Event.java:33 | two tasks have the same tag iff they are of the same variant |
| Tasks.MarkChangesOnlyStatusBox | src/main/java/task/Deadline.java:49-52 | marking puts 'X' and unmarking puts ' ' at position 4 of the display string; the rest is unchanged |
| TaskLists.MatchesDeadline | src/main/java/task/TaskList.java:36 | a whole-string match of `deadline .* /by .*` in which `.` excludes line terminators: such input has at least 14 characters, and its first " /by " starts at index 8 or later (index 8 is the keyword's own space) |
| TaskLists.MatchesEvent | src/main/java/task/TaskList.java:52 | a whole-string match of `event .* /from .* /to .*`, with `.` excluding line terminators: such input has at least 18 characters, and its first " /from " starts at index 5 or later |
| TaskLists.MatchesToDo | src/main/java/task/TaskList.java:69 | a whole-string match of `todo .*`: the input matches iff it starts with "todo " and the rest holds no line terminator |
| TaskLists.BuildTask | src/main/java/task/TaskList.java:48-76 | the task built from a parsed command is not done, carries the parsed content and is of the command's variant; a to-do command always yields a task (only deadline and event dates can fail) |
| TaskLists.ParseTaskCommand | src/main/java/task/TaskList.java:34-79 | an accepted command is single-line and has non-empty content; "Duke command is invalid." carries the input itself |
| TaskLists.ParseDeadline | src/main/java/task/TaskList.java:36-51 | the deadline branch accepts only with non-empty content and non-empty date text; it raises only ArrayIndexOutOfBounds, StringIndexOutOfBounds or the "deadline" empty-argument error |
| TaskLists.ParseEvent | src/main/java/task/TaskList.java:52-68 | the event branch accepts only with non-empty content, start text and end text; it raises only ArrayIndexOutOfBounds, StringIndexOutOfBounds or the "event" empty-argument error |
| TaskLists.ParseToDo | src/main/java/task/TaskList.java:69-76 | the todo branch accepts iff something follows "todo "; the content is exactly the rest of the input; otherwise the empty-argument error for "todo" |
| TaskLists.BareKeywordIsEmptyArgument | src/main/java/task/TaskList.java:34-35 | a bare "todo", "deadline" or "event" raises an empty-argument error named after the keyword |
| TaskLists.ShapesAreExclusive | src/main/java/task/TaskList.java:36-69 | no input matches two of the three command patterns |
| TaskLists.UnknownCommandExactlyWhenNoShape | src/main/java/task/TaskList.java:77-78 | "Duke command is invalid." is raised iff the input is no bare keyword and matches none of the patterns |
| TaskLists.TypedToDoParses | src/main/java/task/TaskList.java:69-76 | "todo " + c with c non-empty and single-line parses to a to-do with content c |
| TaskLists.ToDoCommandContent | src/main/java/task/TaskList.java:69-76 | a todo command yields content c iff the input is "todo " + c with c non-empty and single-line |
| TaskLists.DeadlineBranchTaken | src/main/java/task/TaskList.java:36-51 | a parsed deadline comes only from input matching the deadline pattern, through the deadline branch |
| TaskLists.EventBranchTaken | src/main/java/task/TaskList.java:52-68 | a parsed event comes only from input that matches the event pattern and not the deadline one |
| TaskLists.DeadlineDispatch | src/main/java/task/TaskList.java:36 | input of the deadline shape is handled by the deadline branch |
| TaskLists.EventDispatch | src/main/java/task/TaskList.java:52 | input of the event shape is handled by the event branch |
| TaskLists.ParsedDeadlineFields | src/main/java/task/TaskList.java:38-44 | for accepted input, content and date are non-empty; content ends at the first " /by "; date ends at the second one or at the end |
| TaskLists.DeadlineCommandFields | src/main/java/task/TaskList.java:36-48 | an accepted deadline command is single-line and is "deadline " + content + " /by " + date + rest, with the split positions above |
| TaskLists.DeadlineCommandRoundTrip | src/main/java/task/TaskList.java:36-48 | "deadline c /by d" with non-empty, single-line, slash-free c and d parses back to exactly c and d |
| TaskLists.EmptyDeadlineContentRejected | src/main/java/task/TaskList.java:42-43 | "deadline  /by …" (empty content) raises the empty-argument error for "deadline" |
| TaskLists.TrailingBySeparatorCrashes | src/main/java/task/TaskList.java:42 | "deadline x /by " matches the pattern, but split drops the empty date and arr[1] throws ArrayIndexOutOfBounds |
| TaskLists.SeparatorInsideKeywordCrashes | src/main/java/task/TaskList.java:38-39 | "deadline /by  /by x" matches, but its first piece is "deadline" and substring(9) throws StringIndexOutOfBounds |
| TaskLists.ParsedEventFields | src/main/java/task/TaskList.java:54-60 | for accepted input: content, start and end are non-empty; content ends at the first " /from "; start and end come from the next slot split at " /to " |
| TaskLists.EventCommandFields | src/main/java/task/TaskList.java:52-65 | an accepted event command is single-line and has that layout |
| TaskLists.EventCommandRoundTrip | src/main/java/task/TaskList.java:52-65 | "event c /from s /to e" with non-empty, single-line, slash-free parts parses back to exactly c, s and e |
| TaskLists.TypedEventParses | src/main/java/task/TaskList.java:54-60 | the event branch reads back the parts of "event c /from s /to e" when they are non-empty and slash-free |
| TaskLists.TrailingToSeparatorCrashes | src/main/java/task/TaskList.java:59 | "event x /from a /to " matches the pattern, but startEnd[1] throws ArrayIndexOutOfBounds |
| TaskLists.OccurringOnMembers | src/main/java/task/TaskList.java:157-171 | the tasks listed for a date are exactly the list's deadlines and events that occur on it; no to-do is listed |
| TaskLists.OccurringOnStep | src/main/java/task/TaskList.java:157-171 | each task visited is appended with the next number iff it is a deadline or event that occurs on the date |
| TaskLists.ListingLines | src/main/java/task/TaskList.java:193-208 | when no display string holds a newline, splitting the listing at "\n" gives the lines "k. " + display of task k |
| TaskLists.Listing | src/main/java/task/TaskList.java:193-208 | the listing is empty iff the list is; otherwise it starts with "1. " and the display string of the first task |
| TaskLists.EmptyListing | src/main/java/task/TaskList.java:193-208 | the listing of an empty list is "" |
| TaskLists.ElementAt | src/main/java/task/TaskList.java:131-133 | List.get returns the element iff the index is within the list, otherwise IndexOutOfBounds |
| TaskLists.TaskList.constructor | src/main/java/task/TaskList.java:21-23 | a new list is empty |
| TaskLists.TaskList.GetTask | src/main/java/task/TaskList.java:131-133 | getTask(i) is the i-th task, or IndexOutOfBounds |
| TaskLists.TaskList.NumberOfTasks | src/main/java/task/TaskList.java:140-142 | numberOfTasks is the length of the list |
| TaskLists.TaskList.AddTask | src/main/java/task/TaskList.java:33-83 | a parser exception leaves the list unchanged and escapes; a built task is appended and returned; on a date error the message is printed, nothing is appended, and the old last task (or IndexOutOfBounds) is returned |
| TaskLists.TaskList.Append | src/main/java/task/TaskList.java:90-92 | the task is appended at the end |
| TaskLists.TaskList.DeleteTask | src/main/java/task/TaskList.java:99-105 | a valid index removes and returns exactly that task and keeps the others in order; an invalid one changes nothing and raises IndexOutOfBounds |
| TaskLists.TaskList.MarkTask | src/main/java/task/TaskList.java:112-114 | only the task at i is replaced by its marked version; an invalid index raises IndexOutOfBounds and changes nothing |
| TaskLists.TaskList.UnmarkTask | src/main/java/task/TaskList.java:121-123 | only the task at i is replaced by its unmarked version; an invalid index raises IndexOutOfBounds and changes nothing |
| TaskLists.TaskList.PrintTasksOnDate | src/main/java/task/TaskList.java:150-172 | an unparsable date raises before printing; otherwise prints the occurring deadlines and events in list order, numbered 1, 2, … among themselves |
| TaskLists.TaskList.FindTasksWithWord | src/main/java/task/TaskList.java:179-190 | prints the header, then each task containing the word, in list order, each prefixed "1." |
| TaskLists.TaskList.ToString | src/main/java/task/TaskList.java:193-208 | the result is the numbered display strings joined by newlines, with none after the last |
| JavaStrings.Split | src/main/java/task/TaskList.java:38 | `String.split` with limit 0, as used at TaskList.java:38, 54 and 56 and Storage.java:62: `[s]` when the separator does not occur; otherwise the pieces, with trailing empty strings dropped (so the result never ends in "") |
| JavaStrings.ScannerLines | src/main/java/sys/Storage.java:36-39 | the lines the `hasNextLine`/`nextLine` loop reads: no more lines than characters, and no line holds a line terminator |
| JavaStrings.SplitOfJoin | src/main/java/sys/Storage.java:62 | splitting at a character undoes joining with it, when no line holds the character and the last line is non-empty |
| JavaStrings.ScannerLinesOfJoin | src/main/java/sys/Storage.java:38-39 | reading newline-joined single-line text line by line gives back the lines, when the last one is non-empty |
| JavaStrings.DecimalValueOfNatToString | src/main/java/command/MarkCommand.java:33 | Integer.valueOf reads back the decimal digits Integer.toString writes |
| Sys.SaveText | src/main/java/sys/Storage.java:62-75 | an empty listing saves as ""; the only exceptions are ArrayIndexOutOfBounds and StringIndexOutOfBounds; a non-empty saved text comes from a listing whose first line is non-empty |
| Sys.LoadedTasks | src/main/java/sys/Storage.java:38-46 | load keeps at most one task per line |
| Sys.LoadMessages | src/main/java/sys/Storage.java:38-46 | load prints at most one message, and none exactly when every line parses |
| Sys.Unnumbered | src/main/java/sys/Storage.java:68-71 | each line is its first three characters followed by its saved remainder |
| Sys.TerminatedIsJoin | src/main/java/sys/Storage.java:68-74 | appending every line and a newline, then deleting the last character, is joining the lines with newlines |
| Sys.SavedLine | src/main/java/sys/Storage.java:69 | `line.substring(3)` of the listing line "k. " + display: |digits of k| - 1 + |display| characters, and it ends with the whole display string |
| Sys.SavedLines | src/main/java/sys/Storage.java:68-69 | as many saved lines as tasks; what each line holds is stated by SavedLine, SingleDigitLineSavedAsDisplay and LongNumberLeavesResidue |
| Sys.SingleDigitLineSavedAsDisplay | src/main/java/sys/Storage.java:69 | tasks 1 to 9 are saved as exactly their display strings |
| Sys.LongNumberLeavesResidue | src/main/java/sys/Storage.java:69 | from task 10 on, the saved line is a residue followed by the display string. The residue is (k + ". ")[3..]: |digits of k| - 1 characters, ending in a space. It is " " for 10–99 and ". " for 100–999. From 1000 on it is the digits after the third, followed by ". ". |
| Sys.EmptyListSavedEmpty | src/main/java/sys/Storage.java:62-66 | an empty list is saved as an empty file |
| Sys.ListingLineLength | src/main/java/sys/Storage.java:69 | every listing line has at least ten characters, so substring(3) never fails, and it leaves the saved line |
| Sys.SaveTextOfList | src/main/java/sys/Storage.java:62-75 | a non-empty list whose display strings hold no '\n' is saved as its saved lines joined by newlines |
| Sys.SavedLineIsSingleLine | src/main/java/sys/Storage.java:69 | a saved line is non-empty and single-line when the display string is |
| Sys.SavedFileReadsBackAsSavedLines | src/main/java/sys/Storage.java:30-83 | save succeeds; reading the file back line by line gives one saved line per task, the display strings themselves for the first nine |
| Sys.FileAfterSave | src/main/java/sys/Storage.java:56-83 | after save the file exists; an empty list leaves it empty; a non-empty list whose display strings hold no '\n' leaves exactly its saved lines joined by newlines |
| Sys.LoadStopsAtFirstBadLine | src/main/java/sys/Storage.java:38-46 | each loaded task is what its own line parses to; loading stops exactly at the first line that fails, whose message alone is printed |
| Sys.AllLinesLoaded | src/main/java/sys/Storage.java:38-41 | when every line parses, every line yields a task and nothing is printed |
| Sys.LoadIgnoresLinesAfterFailure | src/main/java/sys/Storage.java:38-46 | lines after a bad line change neither the tasks loaded nor the message |
| Sys.Storage.constructor | src/main/java/sys/Storage.java:20-22 | the storage keeps its path and the file as it finds it |
| Sys.Storage.Load | src/main/java/sys/Storage.java:30-49 | returns a new list; a missing file gives no tasks and the not-found message; otherwise the tasks and message of the file's lines |
| Sys.Storage.Save | src/main/java/sys/Storage.java:56-83 | the file ends as FileAfterSave of the list; the exception of the split or the substring escapes, and nothing else does |
| Sys.NewContent | src/main/java/sys/Storage.java:62-75 | the StringBuilder loop yields the saved text or the exception of the split or the substring |
| Commands.IndexCommandSplit | src/main/java/command/MarkCommand.java:33 | "keyword digits" splits at its single space into the keyword and the digits |
| Commands.TaskIndex | src/main/java/command/MarkCommand.java:33 | the index is the typed number minus one, or NumberFormat when the number exceeds the int range |
| Commands.TypedNumberIndex | src/main/java/command/MarkCommand.java:33 | typing n (1 <= n <= 2^31-1) after the keyword gives the index n - 1 |
| Commands.ListedNumberSelectsTask | src/main/java/command/MarkCommand.java:33-40 | the number shown before a task in the listing, typed after the keyword, selects that task |
| Commands.MarkCommand.constructor | src/main/java/command/MarkCommand.java:17-20 | the command keeps its input |
| Commands.MarkCommand.Execute | src/main/java/command/MarkCommand.java:31-44 | a number error or an out-of-range number ("Task number is invalid!") changes nothing; otherwise only that task is marked, the file holds the saved list, and the marked task is echoed after the header, unless the save raised |
| Commands.UnmarkCommand.constructor | src/main/java/command/UnmarkCommand.java:17-20 | the command keeps its input |
| Commands.UnmarkCommand.Execute | src/main/java/command/UnmarkCommand.java:31-46 | the same for unmark, with "task.Task number is invalid!" and the not-done header |
| Commands.EchoShowsNewStatus | src/main/java/command/MarkCommand.java:43 | the echo after mark shows 'X' in the status box; the one after unmark shows a space |
| Commands.MarkIsIdempotent | src/main/java/command/MarkCommand.java:40 | marking a task twice equals marking once; unmarking a freshly marked unfinished task restores the list |
| Responses.Response.constructor | src/main/java/response/Response.java:17-20 | a response keeps its message and a reference to the list |
| Responses.Response.ToString | src/main/java/response/Response.java:23-25 | the text is the message, a newline, and the current listing of the list |
| Responses.ResponseLines | src/main/java/response/Response.java:23-25 | a single-line message is the first line of the response and the numbered tasks the following ones; with no tasks the text is the message and "\n" |
| Responses.ListingLinesAreSingle | src/main/java/task/TaskList.java:198 | a listing line holds no newline when the display string does not |
| Responses.ResponseSeesLaterChanges | src/main/java/response/Response.java:10-24 | a response shares its list: a task added after it is made shows up when it is printed |

## Left out

- File I/O: the file's contents are the `Storage.file` field, and `path` addresses no real file system. An `IOException` in `save` (which prints "Something went wrong: …") is not modelled, because writing a field cannot fail.
- Console output: printed lines are returned as a sequence of strings instead of being written to standard output. The `Ui` parameter of `execute` is unused by the modelled code and left out.
- `DateTimeHelper` (`parse`, `parseFormattedDateTime`, `stringify`) is not part of this model. It is a parameter of the operations that need it, and `LocalDateTime` is an integer count of minutes.
- `Task.java` and `ToDo.java` are not part of this model. `Task.parseTask` and `Task.containsWord` are parameters. `Task.toString` is taken to be `[` + (`X` or a space) + `] ` + content, and `ToDo.toString` is `[T]` + that.
- Task identity: tasks are values, and `markTask` replaces the element. Aliasing of one `Task` object between two lists is not captured.
- Commands.MarkCommand.Execute: requires input of the shape `mark \d+`, the pattern the command is built for. Inputs such as `mark +3`, which `Integer.valueOf` would also accept, are not modelled.
- Commands.UnmarkCommand.Execute: requires input of the shape `unmark \d+`, for the same reason.
- A `null` input to `addTask` (a `NullPointerException` at `input.matches`) is not modelled, because model strings are never null.
- Strings are sequences of code points, whereas Java indexes UTF-16 units. The two differ only for characters outside the Basic Multilingual Plane.
- `src/main/java/Deadline.java` is an older copy of the deadline class outside the `task` package and is not part of this model.
