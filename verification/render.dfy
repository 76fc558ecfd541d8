/** The text `list_todos` prints, one element per `print` call (the newline
    `print` adds is not part of the element), and a reader for task lines
    showing that the listing gives back every task's status, id and text. */
module Render {
  import opened Wrappers
  import opened Decimal
  import opened Tasks

  /** U+2713 CHECK MARK, shown for completed tasks. */
  const DoneMark: char := '\U{2713}'
  /** U+25CB WHITE CIRCLE, shown for open tasks. */
  const OpenMark: char := '\U{25CB}'

  const EmptyMessage: string := "No todos yet!"
  const Header: string := "\nYour todos:"
  /** `"-" * 60`. */
  const Rule: string := Dashes(60)

  /** `"-" * n`. */
  function Dashes(n: nat): (s: string)
    ensures |s| == n
    ensures forall i :: 0 <= i < n ==> s[i] == '-'
  {
    if n == 0 then [] else ['-'] + Dashes(n - 1)
  }

  function StatusMark(completed: bool): char {
    if completed then DoneMark else OpenMark
  }

  /** `f"{status} [{id}] {task}"`. */
  function TaskLine(t: Task): string {
    [StatusMark(t.completed)] + " [" + IntToString(t.id) + "] " + t.task
  }

  /** `f"Total: {len(todos)} todo(s)\n"`. */
  function TotalLine(n: nat): string {
    "Total: " + IntToString(n) + " todo(s)\n"
  }

  /** One task line per task, in stored order. */
  function TaskLines(ts: seq<Task>): (lines: seq<string>)
    ensures |lines| == |ts|
    ensures forall i :: 0 <= i < |ts| ==> lines[i] == TaskLine(ts[i])
  {
    if ts == [] then [] else [TaskLine(ts[0])] + TaskLines(ts[1..])
  }

  /** Everything `list_todos` prints for the stored list `ts`. */
  function ListLines(ts: seq<Task>): (out: seq<string>)
    ensures ts == [] ==> out == [EmptyMessage]
    ensures ts != [] ==> |out| == |ts| + 4
    ensures ts != [] ==> out[0] == Header && out[1] == Rule
    ensures ts != [] ==> forall i :: 0 <= i < |ts| ==> out[i + 2] == TaskLine(ts[i])
    ensures ts != [] ==> out[|ts| + 2] == Rule && out[|ts| + 3] == TotalLine(|ts|)
  {
    if ts == [] then [EmptyMessage]
    else [Header, Rule] + TaskLines(ts) + [Rule, TotalLine(|ts|)]
  }

  /** What a task line shows of a task. */
  datatype Shown = Shown(completed: bool, id: int, task: string)

  function Show(t: Task): Shown {
    Shown(t.completed, t.id, t.task)
  }

  function ShowAll(ts: seq<Task>): (r: seq<Shown>)
    ensures |r| == |ts|
  {
    seq(|ts|, i requires 0 <= i < |ts| => Show(ts[i]))
  }

  /** The first position at or after `from` holding `c`. */
  function IndexOf(s: string, c: char, from: nat): (r: Option<nat>)
    ensures r.Some? ==> from <= r.value < |s| && s[r.value] == c
    ensures r.Some? ==> forall k :: from <= k < r.value ==> s[k] != c
    ensures r.None? ==> forall k :: from <= k < |s| ==> s[k] != c
    decreases |s| - from
  {
    if from >= |s| then None
    else if s[from] == c then Some(from)
    else IndexOf(s, c, from + 1)
  }

  /** Reads a line of the form `status [id] text`; any other line gives None. */
  function ParseTaskLine(line: string): Option<Shown> {
    if |line| < 3 || line[1..3] != " [" then None
    else if line[0] != DoneMark && line[0] != OpenMark then None
    else match IndexOf(line, ']', 3)
      case None => None
      case Some(k) =>
        if k + 2 <= |line| && line[k + 1] == ' ' then
          match ParseInt(line[3..k])
          case None => None
          case Some(id) => Some(Shown(line[0] == DoneMark, id, line[k + 2..]))
        else None
  }

  /** The tasks a printed listing shows, read back from its task lines. */
  function Parsed(lines: seq<string>): seq<Shown> {
    if lines == [] then []
    else
      (match ParseTaskLine(lines[0]) case Some(s) => [s] case None => [])
      + Parsed(lines[1..])
  }

  /** A task line reads back as the task's status, id and text, whatever the
      text contains. */
  lemma TaskLineRoundTrip(t: Task)
    ensures ParseTaskLine(TaskLine(t)) == Some(Show(t))
  {
    var line := TaskLine(t);
    var digits := IntToString(t.id);
    var k := 3 + |digits|;
    TaskLineShape(t);
    assert IndexOf(line, ']', 3) == Some(k);
    IntRoundTrip(t.id);
    assert ParseInt(line[3..k]) == Some(t.id);
  }

  /** Where the pieces of a task line sit: the mark, " [", the id's digits,
      "] " and the text. */
  lemma TaskLineShape(t: Task)
    ensures var line, digits := TaskLine(t), IntToString(t.id);
            var k := 3 + |digits|;
            |line| == k + 2 + |t.task| && line[0] == StatusMark(t.completed)
            && line[1..3] == " [" && line[3..k] == digits
            && line[k] == ']' && line[k + 1] == ' ' && line[k + 2..] == t.task
            && forall j :: 3 <= j < k ==> line[j] != ']'
  {
    var line := TaskLine(t);
    var digits := IntToString(t.id);
    var b := [StatusMark(t.completed)] + " [" + digits;
    var k := |b|;
    assert line == b + "] " + t.task;
    forall j | 0 <= j < k ensures line[j] == b[j] {
    }
    assert line[1..3] == " [" by {
      assert line[1] == b[1] && line[2] == b[2];
    }
    forall j | 3 <= j < k ensures line[j] == digits[j - 3] {
      assert line[j] == b[j];
    }
    assert line[3..k] == digits;
    assert line[k + 2..] == t.task;
  }

  lemma {:induction false} ParsedConcat(a: seq<string>, b: seq<string>)
    ensures Parsed(a + b) == Parsed(a) + Parsed(b)
    decreases |a|
  {
    if a != [] {
      assert (a + b)[1..] == a[1..] + b;
      ParsedConcat(a[1..], b);
    } else {
      assert a + b == b;
    }
  }

  /** A line that does not start with a status mark shows no task. */
  lemma NoMarkNoTask(line: string)
    requires line != [] && line[0] != DoneMark && line[0] != OpenMark
    ensures Parsed([line]) == []
  {
    assert [line][1..] == [];
  }

  lemma TaskLineParsed(t: Task)
    ensures Parsed([TaskLine(t)]) == [Show(t)]
  {
    TaskLineRoundTrip(t);
    assert [TaskLine(t)][1..] == [];
  }

  lemma {:induction false} TaskLinesRecover(ts: seq<Task>)
    ensures Parsed(TaskLines(ts)) == ShowAll(ts)
    decreases |ts|
  {
    if ts != [] {
      var first := [TaskLine(ts[0])];
      var rest := TaskLines(ts[1..]);
      assert TaskLines(ts) == first + rest;
      ParsedConcat(first, rest);
      TaskLineParsed(ts[0]);
      TaskLinesRecover(ts[1..]);
      ShowAllCons(ts);
    }
  }

  lemma ShowAllCons(ts: seq<Task>)
    requires ts != []
    ensures ShowAll(ts) == [Show(ts[0])] + ShowAll(ts[1..])
  {
    forall i | 0 <= i < |ts| ensures ShowAll(ts)[i] == ([Show(ts[0])] + ShowAll(ts[1..]))[i] {
      if i > 0 {
        assert ts[1..][i - 1] == ts[i];
      }
    }
  }

  /** The header, rules and total around the task lines show no task. */
  lemma FrameShowsNothing(body: seq<string>, n: nat)
    ensures Parsed([Header, Rule] + body + [Rule, TotalLine(n)]) == Parsed(body)
  {
    var total := TotalLine(n);
    var a := [Header] + [Rule];
    var b := a + body;
    var c := b + [Rule];
    assert [Header, Rule] + body + [Rule, total] == c + [total];
    NoMarkNoTask(Header);
    NoMarkNoTask(Rule);
    NoMarkNoTask(total);
    ParsedConcat([Header], [Rule]);
    ParsedConcat(a, body);
    ParsedConcat(b, [Rule]);
    ParsedConcat(c, [total]);
  }

  /** The listing is faithful and complete: reading its task lines back gives
      every stored task's status, id and text, in stored order and nothing
      else; the empty list shows no task. */
  lemma ListingShowsExactlyTheTasks(ts: seq<Task>)
    ensures Parsed(ListLines(ts)) == ShowAll(ts)
  {
    if ts == [] {
      NoMarkNoTask(EmptyMessage);
    } else {
      FrameShowsNothing(TaskLines(ts), |ts|);
      TaskLinesRecover(ts);
    }
  }
}
