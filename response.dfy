/** Response: a message paired with the task list it refers to. */
module Responses {
  import opened JavaStrings
  import opened Tasks
  import opened TaskLists

  /** The text of a response: the message, a newline, then the listing. */
  function ResponseText(message: string, ts: seq<Task>, stringify: Instant -> string): string {
    message + "\n" + Listing(ts, stringify)
  }

  class Response {
    const message: string
    const tasks: TaskList

    constructor (message: string, tasks: TaskList)
      ensures this.message == message && this.tasks == tasks
    {
      this.message := message;
      this.tasks := tasks;
    }

    /** toString(): read from the list as it is now, not as it was when the response was made. */
    method ToString(stringify: Instant -> string) returns (s: string)
      ensures s == ResponseText(message, tasks.tasks, stringify)
    {
      var listing := tasks.ToString(stringify);
      s := message + "\n" + listing;
    }
  }

  /**
   * A single-line message comes back as the first line of the response and the
   * numbered tasks as the lines after it; with no tasks the response is the
   * message and a newline.
   */
  lemma ResponseLines(message: string, ts: seq<Task>, stringify: Instant -> string)
    requires message != "" && '\n' !in message
    requires forall k :: 0 <= k < |ts| ==> '\n' !in Display(ts[k], stringify)
    ensures ts == [] ==> ResponseText(message, ts, stringify) == message + "\n"
    ensures Split(ResponseText(message, ts, stringify), "\n") == [message] + NumberedLines(ts, 1, ". ", stringify)
  {
    if ts == [] {
      EmptyListing(stringify);
      MessageLineSplit(message);
    } else {
      ListedResponseLines(message, ts, stringify);
    }
  }

  /** A single-line message followed by a newline splits back into the message. */
  lemma MessageLineSplit(message: string)
    requires message != "" && '\n' !in message
    ensures Split(message + "\n", "\n") == [message]
  {
    var s := message + "\n";
    OccursAtChar(s, '\n', |message|);
    forall i: nat | i < |message| ensures !OccursAt(s, "\n", i) {
      OccursAtChar(s, '\n', i);
      assert s[i] == message[i];
    }
    IndexOfIs(s, "\n", |message|);
    PiecesAtFirstMatch(s, "\n");
    assert s[..|message|] == message && s[|message| + 1..] == "";
    PiecesWithoutMatch("", "\n");
    assert Pieces(s, "\n") == [message, ""];
    assert DropTrailingEmpty([message, ""]) == DropTrailingEmpty([message]);
  }

  /** A response over a non-empty list splits into the message and the numbered lines. */
  lemma ListedResponseLines(message: string, ts: seq<Task>, stringify: Instant -> string)
    requires ts != [] && message != "" && '\n' !in message
    requires forall k :: 0 <= k < |ts| ==> '\n' !in Display(ts[k], stringify)
    ensures Split(ResponseText(message, ts, stringify), "\n") == [message] + NumberedLines(ts, 1, ". ", stringify)
  {
    var lines := NumberedLines(ts, 1, ". ", stringify);
    ListingLines(ts, stringify);
    assert ([message] + lines)[1..] == lines;
    assert Join([message] + lines, "\n") == message + "\n" + Join(lines, "\n");
    forall k | 0 <= k < |[message] + lines| ensures '\n' !in ([message] + lines)[k] {
      if k > 0 {
        ListingLinesAreSingle(ts, stringify, k - 1);
      }
    }
    SplitOfJoin([message] + lines, '\n');
  }

  /** No listing line holds a newline when no display string does. */
  lemma ListingLinesAreSingle(ts: seq<Task>, stringify: Instant -> string, k: nat)
    requires k < |ts| && '\n' !in Display(ts[k], stringify)
    ensures '\n' !in NumberedLines(ts, 1, ". ", stringify)[k]
  {
    var num := NatToString(1 + k);
    var line := NumberedLines(ts, 1, ". ", stringify)[k];
    forall i | 0 <= i < |line| ensures line[i] != '\n' {
      if i < |num| {
        assert line[i] == num[i] && IsDigit(num[i]);
      } else if i >= |num| + 2 {
        assert line[i] == Display(ts[k], stringify)[i - |num| - 2];
      }
    }
  }

  /**
   * A response holds the list itself: a task added after the response was
   * made shows up when the response is printed.
   */
  method ResponseSeesLaterChanges(message: string, tl: TaskList, t: Task, stringify: Instant -> string)
    returns (before: string, after: string)
    modifies tl
    ensures before == ResponseText(message, old(tl.tasks), stringify)
    ensures after == ResponseText(message, old(tl.tasks) + [t], stringify)
  {
    var response := new Response(message, tl);
    before := response.ToString(stringify);
    tl.Append(t);
    after := response.ToString(stringify);
  }
}
