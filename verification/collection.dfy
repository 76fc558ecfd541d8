/** The in-memory transformations todo.py applies to the task list between
    loading and saving it: `load_todos`, the record built and appended by
    `add_todo`, and the filter and not-found test of `delete_todo`. */
module Collection {
  import opened Wrappers
  import opened Tasks

  /** `load_todos`: the stored list, or the empty list when there is no file
      (`None`). */
  function Load(stored: Option<seq<Task>>): (ts: seq<Task>)
    ensures stored.None? ==> ts == []
    ensures stored.Some? ==> ts == stored.value
  {
    match stored
    case None => []
    case Some(saved) => saved
  }

  /** The record `add_todo` appends: its id is one more than the current
      length, whatever ids the list already holds. */
  function AddTask(ts: seq<Task>, text: string, created: Timestamp): (r: seq<Task>)
    ensures |r| == |ts| + 1
    ensures r[..|ts|] == ts
    ensures r[|ts|].id == |ts| + 1
    ensures r[|ts|].task == text
    ensures !r[|ts|].completed
    ensures r[|ts|].created == created
  {
    ts + [Task(|ts| + 1, text, false, created)]
  }

  /** The list comprehension of `delete_todo`: every task whose id differs
      from `id`, in stored order. */
  function RemoveId(ts: seq<Task>, id: int): (r: seq<Task>)
    ensures Subseq(r, ts)
    ensures forall t :: t in r <==> t in ts && t.id != id
    ensures |r| == |ts| - CountId(ts, id)
  {
    if ts == [] then []
    else if ts[0].id != id then [ts[0]] + RemoveId(ts[1..], id)
    else RemoveId(ts[1..], id)
  }

  /** Outcome of `delete_todo` on the list: nothing matched, or the filtered
      list that is saved. */
  datatype Deletion = NotFound | Deleted(remaining: seq<Task>)

  /** `delete_todo`: filter, then report not-found when the length did not
      change. */
  function Delete(ts: seq<Task>, id: int): (r: Deletion)
    ensures r.NotFound? <==> !HasId(ts, id)
    ensures r.Deleted? ==> r.remaining == RemoveId(ts, id) && |r.remaining| < |ts|
  {
    CountIdZero(ts, id);
    var filtered := RemoveId(ts, id);
    if |filtered| == |ts| then NotFound else Deleted(filtered)
  }

  /** A subsequence that avoids `id` can keep at most the tasks not carrying it. */
  lemma {:induction false} SubseqAvoidingBound(a: seq<Task>, b: seq<Task>, id: int)
    requires Subseq(a, b)
    requires forall k :: 0 <= k < |a| ==> a[k].id != id
    ensures |a| + CountId(b, id) <= |b|
    decreases |b|
  {
    if a != [] {
      if a[0] == b[0] && Subseq(a[1..], b[1..]) {
        SubseqAvoidingBound(a[1..], b[1..], id);
      } else {
        SubseqAvoidingBound(a, b[1..], id);
      }
    } else if b != [] {
      SubseqAvoidingBound(a, b[1..], id);
    }
  }

  /** The filter result is the ONLY order-preserving selection of tasks that
      avoids `id` and drops no other task: deletion neither renumbers,
      reorders nor alters the survivors. */
  lemma {:induction false} RemoveIdIsExact(ts: seq<Task>, id: int, r: seq<Task>)
    requires Subseq(r, ts)
    requires forall k :: 0 <= k < |r| ==> r[k].id != id
    requires |r| == |ts| - CountId(ts, id)
    ensures r == RemoveId(ts, id)
    decreases |ts|
  {
    if ts == [] {
    } else {
      var tail := ts[1..];
      if ts[0].id == id {
        if r != [] {
          assert r[0].id != ts[0].id;
        }
        assert Subseq(r, tail);
        RemoveIdIsExact(tail, id, r);
      } else if r == [] {
      } else if r[0] == ts[0] && Subseq(r[1..], tail) {
        RemoveIdIsExact(tail, id, r[1..]);
        assert r == [r[0]] + r[1..];
      } else {
        SubseqAvoidingBound(r, tail, id);
      }
    }
  }

  /** Removing tasks never creates a shared id. */
  lemma {:induction false} RemoveIdKeepsUnique(ts: seq<Task>, id: int)
    requires UniqueIds(ts)
    ensures UniqueIds(RemoveId(ts, id))
    decreases |ts|
  {
    if ts != [] {
      UniqueSplit(ts);
      RemoveIdKeepsUnique(ts[1..], id);
      if ts[0].id != id {
        UniqueCons(ts[0], RemoveId(ts[1..], id));
      }
    }
  }

  /** With unique ids, deleting a present id removes exactly one task. */
  lemma DeleteUniqueRemovesOne(ts: seq<Task>, id: int)
    requires UniqueIds(ts)
    requires HasId(ts, id)
    ensures Delete(ts, id).Deleted?
    ensures |Delete(ts, id).remaining| == |ts| - 1
  {
    CountIdUnique(ts, id);
  }

  /** Adding keeps ids unique exactly when no task already holds the id
      `|ts| + 1` that the length rule hands out. */
  lemma AddUniqueIff(ts: seq<Task>, text: string, created: Timestamp)
    requires UniqueIds(ts)
    ensures UniqueIds(AddTask(ts, text, created)) <==> !HasId(ts, |ts| + 1)
  {
    var r := AddTask(ts, text, created);
    if HasId(ts, |ts| + 1) {
      var i :| 0 <= i < |ts| && ts[i].id == |ts| + 1;
      assert r[i].id == r[|ts|].id;
    }
  }

  /** Adds alone keep the ids exactly 1..n. */
  lemma AddKeepsSequential(ts: seq<Task>, text: string, created: Timestamp)
    requires Sequential(ts)
    ensures Sequential(AddTask(ts, text, created))
  {
  }

  /** The length rule reissues a live id: after deleting any id but the last
      from ids 1..n, the next add repeats the id n of the surviving last task. */
  lemma {:induction false} AddAfterDeleteDuplicates(ts: seq<Task>, k: int, text: string, created: Timestamp)
    requires Sequential(ts)
    requires 1 <= k < |ts|
    ensures Delete(ts, k).Deleted?
    ensures var r := AddTask(Delete(ts, k).remaining, text, created);
            r[|r| - 1].id == |ts| && ts[|ts| - 1] in r[..|r| - 1] && !UniqueIds(r)
  {
    SequentialIsUnique(ts);
    assert ts[k - 1].id == k;
    DeleteUniqueRemovesOne(ts, k);
    var rem := Delete(ts, k).remaining;
    var last := ts[|ts| - 1];
    assert last in rem;
    var r := AddTask(rem, text, created);
    assert r[..|r| - 1] == rem;
    var i :| 0 <= i < |rem| && rem[i] == last;
    assert r[i].id == r[|r| - 1].id;
  }

  /** The length rule reissues a deleted id: deleting the last of ids 1..n
      and adding hands out n again. */
  lemma {:induction false} AddAfterDeleteLastReissues(ts: seq<Task>, text: string, created: Timestamp)
    requires Sequential(ts)
    requires 1 <= |ts|
    ensures Delete(ts, |ts|).Deleted?
    ensures var r := AddTask(Delete(ts, |ts|).remaining, text, created);
            r[|r| - 1].id == |ts| && UniqueIds(r)
  {
    SequentialIsUnique(ts);
    assert ts[|ts| - 1].id == |ts|;
    DeleteUniqueRemovesOne(ts, |ts|);
    var rem := Delete(ts, |ts|).remaining;
    RemoveIdKeepsUnique(ts, |ts|);
    assert !HasId(rem, |rem| + 1) by {
      forall i | 0 <= i < |rem| ensures rem[i].id != |rem| + 1 {
        assert rem[i] in rem;
      }
    }
    AddUniqueIff(rem, text, created);
  }
}
