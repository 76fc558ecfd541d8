/** The three commands of todo.py as load, change, save: each takes the stored
    list (`None` when there is no file) and yields what it saves, if anything,
    and what it prints. Running a command sequence threads the stored list
    through them. */
module Commands {
  import opened Wrappers
  import opened Decimal
  import opened Tasks
  import opened Collection
  import opened Render

  /** What one command does to the outside world: the list it writes back
      (`None`: no write) and the lines it prints. */
  datatype Effect = Effect(saved: Option<seq<Task>>, printed: seq<string>)

  datatype Command = AddCmd(text: string, created: Timestamp) | ListCmd | DeleteCmd(id: int)

  function AddedMessage(text: string): string {
    "\U{2713} Added: " + text
  }

  function DeletedMessage(id: int): string {
    "\U{2713} Deleted todo #" + IntToString(id)
  }

  function NotFoundMessage(id: int): string {
    "Todo with ID " + IntToString(id) + " not found."
  }

  /** `add_todo`: always saves the loaded list with one new open task at the
      end, numbered one past the loaded length. */
  function AddTodo(stored: Option<seq<Task>>, text: string, created: Timestamp): (e: Effect)
    ensures e.saved.Some?
    ensures var ts, r := Load(stored), e.saved.value;
            |r| == |ts| + 1 && r[..|ts|] == ts
            && r[|ts|] == Task(|ts| + 1, text, false, created)
    ensures e.printed == [AddedMessage(text)]
  {
    Effect(Some(AddTask(Load(stored), text, created)), [AddedMessage(text)])
  }

  /** `list_todos`: never saves; prints the listing of the loaded list. */
  function ListTodos(stored: Option<seq<Task>>): (e: Effect)
    ensures e.saved.None?
    ensures Parsed(e.printed) == ShowAll(Load(stored))
    ensures Load(stored) == [] <==> e.printed == [EmptyMessage]
    ensures e.printed == ListLines(Load(stored))
  {
    ListingShowsExactlyTheTasks(Load(stored));
    Effect(None, ListLines(Load(stored)))
  }

  /** `delete_todo`: saves the list without the tasks carrying `id` when
      there is one; otherwise reports not-found and writes nothing. */
  function DeleteTodo(stored: Option<seq<Task>>, id: int): (e: Effect)
    ensures e.saved.None? <==> !HasId(Load(stored), id)
    ensures e.saved.None? ==> e.printed == [NotFoundMessage(id)]
    ensures e.saved.Some? ==> e.printed == [DeletedMessage(id)]
    ensures e.saved.Some? ==> e.saved.value == RemoveId(Load(stored), id)
                              && |e.saved.value| < |Load(stored)|
  {
    match Delete(Load(stored), id)
    case NotFound => Effect(None, [NotFoundMessage(id)])
    case Deleted(remaining) => Effect(Some(remaining), [DeletedMessage(id)])
  }

  /** The dispatch of `main`: each command runs its function. Only an add,
      or a delete whose id is present, writes the list back. */
  function Execute(stored: Option<seq<Task>>, cmd: Command): (e: Effect)
    ensures e.saved.Some? <==> cmd.AddCmd? || (cmd.DeleteCmd? && HasId(Load(stored), cmd.id))
    ensures cmd.AddCmd? ==> e == AddTodo(stored, cmd.text, cmd.created)
    ensures cmd.ListCmd? ==> e == ListTodos(stored)
    ensures cmd.DeleteCmd? ==> e == DeleteTodo(stored, cmd.id)
  {
    match cmd
    case AddCmd(text, created) => AddTodo(stored, text, created)
    case ListCmd => ListTodos(stored)
    case DeleteCmd(id) => DeleteTodo(stored, id)
  }

  /** The stored list after one command: what it saved, or the old one. */
  function Next(stored: Option<seq<Task>>, cmd: Command): (after: Option<seq<Task>>)
    ensures cmd.ListCmd? ==> after == stored
    ensures cmd.DeleteCmd? && !HasId(Load(stored), cmd.id) ==> after == stored
  {
    var e := Execute(stored, cmd);
    if e.saved.Some? then e.saved else stored
  }

  /** The stored list after running the commands in order. */
  function Run(stored: Option<seq<Task>>, cmds: seq<Command>): Option<seq<Task>>
    decreases |cmds|
  {
    if cmds == [] then stored else Run(Next(stored, cmds[0]), cmds[1..])
  }

  predicate AllAdds(cmds: seq<Command>) {
    forall i :: 0 <= i < |cmds| ==> cmds[i].AddCmd?
  }

  /** `after` is `before` followed by one open task per add, in command
      order, numbered on from the length of `before`. */
  predicate AppendsAdds(before: seq<Task>, after: seq<Task>, cmds: seq<Command>)
    requires AllAdds(cmds)
  {
    && |after| == |before| + |cmds|
    && after[..|before|] == before
    && forall i :: 0 <= i < |cmds| ==>
         after[|before| + i] == Task(|before| + i + 1, cmds[i].text, false, cmds[i].created)
  }

  /** One add followed by the rest of the adds is the whole run of adds. */
  lemma AppendsAddsStep(before: seq<Task>, after: seq<Task>, cmds: seq<Command>)
    requires AllAdds(cmds) && cmds != []
    requires AllAdds(cmds[1..])
    requires AppendsAdds(AddTask(before, cmds[0].text, cmds[0].created), after, cmds[1..])
    ensures AppendsAdds(before, after, cmds)
  {
    var mid := AddTask(before, cmds[0].text, cmds[0].created);
    var rest := cmds[1..];
    assert after[..|before|] == after[..|mid|][..|before|];
    forall i | 0 <= i < |cmds|
      ensures after[|before| + i] == Task(|before| + i + 1, cmds[i].text, false, cmds[i].created)
    {
      if i > 0 {
        assert rest[i - 1] == cmds[i];
      } else {
        assert after[|before|] == mid[|before|];
      }
    }
  }

  /** A run of adds keeps the loaded tasks, appends one open task per add in
      command order, and keeps ids 1..n when they were 1..n before. */
  lemma {:induction false} RunAdds(stored: Option<seq<Task>>, cmds: seq<Command>)
    requires AllAdds(cmds)
    ensures AppendsAdds(Load(stored), Load(Run(stored, cmds)), cmds)
    ensures Sequential(Load(stored)) ==> Sequential(Load(Run(stored, cmds)))
    decreases |cmds|
  {
    var before := Load(stored);
    if cmds == [] {
      assert before[..|before|] == before;
    } else {
      var mid := Next(stored, cmds[0]);
      var rest := cmds[1..];
      assert Load(mid) == AddTask(before, cmds[0].text, cmds[0].created);
      assert AllAdds(rest) by {
        forall i | 0 <= i < |rest| ensures rest[i].AddCmd? {
          assert rest[i] == cmds[i + 1];
        }
      }
      RunAdds(mid, rest);
      assert Run(stored, cmds) == Run(mid, rest);
      AppendsAddsStep(before, Load(Run(stored, cmds)), cmds);
      if Sequential(before) {
        AddKeepsSequential(before, cmds[0].text, cmds[0].created);
      }
    }
  }

  /** From no file, n adds give ids exactly 1..n in order: unique and
      strictly increasing. */
  lemma AddsFromNothingNumberFromOne(cmds: seq<Command>)
    requires AllAdds(cmds)
    ensures var ts := Load(Run(None, cmds));
            |ts| == |cmds| && Sequential(ts) && UniqueIds(ts)
            && forall i, j :: 0 <= i < j < |ts| ==> ts[i].id < ts[j].id
  {
    RunAdds(None, cmds);
    SequentialIsUnique(Load(Run(None, cmds)));
  }

  /** A concrete run where the length rule duplicates a live id: ids 1, 2, 3,
      delete 1, then add: the new task gets id 3, like the surviving task 3. */
  lemma DeleteThenAddDuplicatesLiveId(c: Timestamp)
    ensures var start := Some([Task(1, "a", false, c), Task(2, "b", false, c), Task(3, "c", false, c)]);
            var ts := Load(Run(start, [DeleteCmd(1), AddCmd("d", c)]));
            |ts| == 3 && ts[1].id == 3 && ts[2].id == 3 && !UniqueIds(ts)
  {
    var t1, t2, t3 := Task(1, "a", false, c), Task(2, "b", false, c), Task(3, "c", false, c);
    var start := Some([t1, t2, t3]);
    assert HasId([t1, t2, t3], 1) by {
      assert [t1, t2, t3][0].id == 1;
    }
    var mid := Next(start, DeleteCmd(1));
    assert [t1, t2, t3][1..] == [t2, t3];
    assert [t2, t3][1..] == [t3];
    assert RemoveId([t1, t2, t3], 1) == [t2, t3];
    assert mid == Some([t2, t3]);
    assert [DeleteCmd(1), AddCmd("d", c)][1..] == [AddCmd("d", c)];
    assert [AddCmd("d", c)][1..] == [];
    var t4 := Task(3, "d", false, c);
    assert AddTask([t2, t3], "d", c) == [t2, t3] + [t4] == [t2, t3, t4];
    var last := Next(mid, AddCmd("d", c));
    assert last == Some([t2, t3, t4]);
    assert Run(start, [DeleteCmd(1), AddCmd("d", c)]) == Run(mid, [AddCmd("d", c)]) == Run(last, []);
  }

  /** From no file, adding "buy milk" and listing shows exactly that task as
      open with id 1. */
  lemma AddThenListScenario(c: Timestamp)
    ensures var ts := Load(Run(None, [AddCmd("buy milk", c)]));
            ts == [Task(1, "buy milk", false, c)]
            && Execute(Some(ts), ListCmd).printed
               == [Header, Rule, "\U{25CB} [1] buy milk", Rule, "Total: 1 todo(s)\n"]
  {
    var t := Task(1, "buy milk", false, c);
    assert [AddCmd("buy milk", c)][1..] == [];
    assert Run(None, [AddCmd("buy milk", c)]) == Next(None, AddCmd("buy milk", c)) == Some([t]);
    assert IntToString(1) == "1";
    assert TaskLine(t) == "\U{25CB} [1] buy milk";
    assert TaskLines([t]) == [TaskLine(t)];
    assert TotalLine(1) == "Total: 1 todo(s)\n";
    assert Execute(Some([t]), ListCmd).printed == ListLines([t]);
  }
}
