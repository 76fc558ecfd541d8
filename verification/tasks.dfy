/** One to-do record as todo.py stores it: the four keys `id`, `task`,
    `completed` and `created` of a JSON object, and predicates about the ids of
    a collection of them. */
module Tasks {

  /** The creation time. The program takes it from the clock; here it is an
      opaque value handed in by the caller. */
  datatype Timestamp = Timestamp(iso: string)

  datatype Task = Task(id: int, task: string, completed: bool, created: Timestamp)

  /** Some task in `ts` carries the id `id`. */
  predicate HasId(ts: seq<Task>, id: int) {
    exists i :: 0 <= i < |ts| && ts[i].id == id
  }

  /** How many tasks in `ts` carry the id `id`. */
  function CountId(ts: seq<Task>, id: int): (n: nat)
    ensures n <= |ts|
  {
    if ts == [] then 0 else (if ts[0].id == id then 1 else 0) + CountId(ts[1..], id)
  }

  /** No two tasks share an id. */
  predicate UniqueIds(ts: seq<Task>) {
    forall i, j :: 0 <= i < j < |ts| ==> ts[i].id != ts[j].id
  }

  /** The ids are exactly 1, 2, ..., |ts| in stored order. */
  predicate Sequential(ts: seq<Task>) {
    forall i :: 0 <= i < |ts| ==> ts[i].id == i + 1
  }

  /** `a` is `b` with some elements removed, the rest kept in order. */
  predicate Subseq(a: seq<Task>, b: seq<Task>)
    decreases |b|
  {
    if a == [] then true
    else if b == [] then false
    else (a[0] == b[0] && Subseq(a[1..], b[1..])) || Subseq(a, b[1..])
  }

  /** An id is absent exactly when no task is counted for it. */
  lemma {:induction false} CountIdZero(ts: seq<Task>, id: int)
    ensures CountId(ts, id) == 0 <==> !HasId(ts, id)
  {
    if ts != [] {
      CountIdZero(ts[1..], id);
      if HasId(ts[1..], id) {
        var i :| 0 <= i < |ts[1..]| && ts[1..][i].id == id;
        assert ts[i + 1].id == id;
      }
      if HasId(ts, id) && ts[0].id != id {
        var i :| 0 <= i < |ts| && ts[i].id == id;
        assert ts[1..][i - 1].id == id;
      }
    }
  }

  /** With unique ids, a present id is carried by exactly one task. */
  lemma {:induction false} CountIdUnique(ts: seq<Task>, id: int)
    requires UniqueIds(ts)
    requires HasId(ts, id)
    ensures CountId(ts, id) == 1
  {
    var tail := ts[1..];
    UniqueSplit(ts);
    if ts[0].id == id {
      assert !HasId(tail, id) by {
        forall j | 0 <= j < |tail| ensures tail[j].id != id {
          assert tail[j] == ts[j + 1];
        }
      }
      CountIdZero(tail, id);
    } else {
      var i :| 0 <= i < |ts| && ts[i].id == id;
      assert tail[i - 1].id == id;
      CountIdUnique(tail, id);
    }
  }

  /** The tail of a uniquely-identified list is one too, and none of it
      shares the head's id. */
  lemma UniqueSplit(ts: seq<Task>)
    requires UniqueIds(ts)
    requires ts != []
    ensures UniqueIds(ts[1..])
    ensures forall t :: t in ts[1..] ==> t.id != ts[0].id
  {
    var tail := ts[1..];
    forall i, j | 0 <= i < j < |tail| ensures tail[i].id != tail[j].id {
      assert tail[i] == ts[i + 1] && tail[j] == ts[j + 1];
    }
    forall t | t in tail ensures t.id != ts[0].id {
      var k :| 0 <= k < |tail| && tail[k] == t;
      assert ts[k + 1] == t;
    }
  }

  /** Putting a task with a fresh id in front keeps ids unique. */
  lemma UniqueCons(x: Task, rest: seq<Task>)
    requires UniqueIds(rest)
    requires forall t :: t in rest ==> t.id != x.id
    ensures UniqueIds([x] + rest)
  {
    var r := [x] + rest;
    forall i, j | 0 <= i < j < |r| ensures r[i].id != r[j].id {
      assert r[j] == rest[j - 1];
      if i > 0 {
        assert r[i] == rest[i - 1];
      }
    }
  }

  /** Sequential ids are pairwise distinct and strictly increasing. */
  lemma SequentialIsUnique(ts: seq<Task>)
    requires Sequential(ts)
    ensures UniqueIds(ts)
    ensures forall i, j :: 0 <= i < j < |ts| ==> ts[i].id < ts[j].id
  {
  }
}
