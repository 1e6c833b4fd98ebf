/**
  The Rinda tuple space the coordinator and the workers share, as a
  sequential in-memory store. `write` adds a tuple; `take` removes and returns
  some tuple that matches a pattern, any one of them. A blocking `take` that
  waits for a tuple to appear is modelled by the caller: `Take` requires that
  a match is already present.
*/
module TupleSpaces {
  import opened Tasks

  /** The coordinator's `DRb.uri`, which tags every tuple of one job. */
  type Owner = string

  /** The two tuple shapes: `['task', owner, task]` and
      `['result', owner, task_id, result]`. */
  datatype Tuple<!D, R> =
    | TaskTuple(owner: Owner, task: WorkerTask<D, R>)
    | ResultTuple(owner: Owner, taskId: int, result: R)

  /** The two patterns used: a worker's `['task', nil, nil]` and the
      coordinator's `['result', owner, task_id, nil]`. */
  datatype Pattern = AnyTask | ResultFor(owner: Owner, taskId: int)

  predicate Matches<D, R>(t: Tuple<D, R>, p: Pattern)
  {
    match p
    case AnyTask => t.TaskTuple?
    case ResultFor(o, id) => t.ResultTuple? && t.owner == o && t.taskId == id
  }

  /** The store without its tuple at index `k`. */
  function Removed<X>(s: seq<X>, k: nat): seq<X>
    requires k < |s|
  {
    s[..k] + s[k + 1..]
  }

  /** How many tuples of `s` match `p`. */
  function Count<D, R>(s: seq<Tuple<D, R>>, p: Pattern): nat
  {
    if s == [] then 0
    else Count(s[..|s| - 1], p) + (if Matches(s[|s| - 1], p) then 1 else 0)
  }

  /** The tuples of `s` that belong to job `o`. */
  ghost function Owned<D, R>(s: seq<Tuple<D, R>>, o: Owner): multiset<Tuple<D, R>>
  {
    if s == [] then multiset{}
    else Owned(s[..|s| - 1], o) + (if s[|s| - 1].owner == o then multiset{s[|s| - 1]} else multiset{})
  }

  lemma {:induction false} CountConcat<D, R>(a: seq<Tuple<D, R>>, b: seq<Tuple<D, R>>, p: Pattern)
    ensures Count(a + b, p) == Count(a, p) + Count(b, p)
  {
    if b == [] {
      assert a + b == a;
    } else {
      var m := |b| - 1;
      assert (a + b)[..|a + b| - 1] == a + b[..m];
      CountConcat(a, b[..m], p);
    }
  }

  lemma {:induction false} OwnedConcat<D, R>(a: seq<Tuple<D, R>>, b: seq<Tuple<D, R>>, o: Owner)
    ensures Owned(a + b, o) == Owned(a, o) + Owned(b, o)
  {
    if b == [] {
      assert a + b == a;
    } else {
      var m := |b| - 1;
      assert (a + b)[..|a + b| - 1] == a + b[..m];
      OwnedConcat(a, b[..m], o);
    }
  }

  /** Writing `t` adds it to its own job's tuples and to no other job's. */
  lemma OwnedSnoc<D, R>(s: seq<Tuple<D, R>>, t: Tuple<D, R>, o: Owner)
    ensures Owned(s + [t], o) == Owned(s, o) + (if t.owner == o then multiset{t} else multiset{})
  {
    assert (s + [t])[..|s|] == s;
  }

  /** Some tuple matches `p` exactly when the count of matches is positive. */
  lemma {:induction false} CountPositive<D, R>(s: seq<Tuple<D, R>>, p: Pattern)
    ensures Count(s, p) > 0 <==> exists k :: 0 <= k < |s| && Matches(s[k], p)
  {
    if s != [] {
      var m := |s| - 1;
      CountPositive(s[..m], p);
      if Count(s[..m], p) > 0 {
        var k :| 0 <= k < m && Matches(s[..m][k], p);
        assert Matches(s[k], p);
      }
      if exists k :: 0 <= k < |s| && Matches(s[k], p) {
        var k :| 0 <= k < |s| && Matches(s[k], p);
        if k < m {
          assert Matches(s[..m][k], p);
        }
      }
    }
  }

  /** A tuple of job `o` is a tuple of the store, tagged `o`. */
  lemma {:induction false} OwnedMember<D, R>(s: seq<Tuple<D, R>>, o: Owner, x: Tuple<D, R>)
    requires x in Owned(s, o)
    ensures x.owner == o && x in s
  {
    var m := |s| - 1;
    if x in Owned(s[..m], o) {
      OwnedMember(s[..m], o, x);
    }
  }

  /** The tuple at `k` belongs to its own job's tuples. */
  lemma {:induction false} OwnedAt<D, R>(s: seq<Tuple<D, R>>, k: nat)
    requires k < |s|
    ensures s[k] in Owned(s, s[k].owner)
  {
    var m := |s| - 1;
    if k < m {
      OwnedAt(s[..m], k);
      assert s[..m][k] == s[k];
    }
  }

  /** Removing the tuple at `k` removes it from the count and from its job. */
  lemma RemovedEffect<D, R>(s: seq<Tuple<D, R>>, k: nat, o: Owner, p: Pattern)
    requires k < |s|
    ensures Count(Removed(s, k), p) == Count(s, p) - (if Matches(s[k], p) then 1 else 0)
    ensures Owned(Removed(s, k), o) == Owned(s, o) - (if s[k].owner == o then multiset{s[k]} else multiset{})
  {
    assert s == s[..k] + [s[k]] + s[k + 1..];
    CountConcat(s[..k] + [s[k]], s[k + 1..], p);
    CountConcat(s[..k], [s[k]], p);
    CountConcat(s[..k], s[k + 1..], p);
    OwnedConcat(s[..k] + [s[k]], s[k + 1..], o);
    OwnedConcat(s[..k], [s[k]], o);
    OwnedConcat(s[..k], s[k + 1..], o);
    assert [s[k]][..0] == [];
  }

  /** One job's view of the space after a worker replaced the task tuple at
      `k` with the result tuple `r` it published under the same owner: that
      job loses the task and gains the result, the other jobs see no change,
      and one task fewer is waiting. */
  lemma StepEffect<D, R>(s: seq<Tuple<D, R>>, k: nat, r: Tuple<D, R>, o: Owner)
    requires k < |s| && s[k].TaskTuple? && r.ResultTuple? && r.owner == s[k].owner
    ensures Count(Removed(s, k) + [r], AnyTask) == Count(s, AnyTask) - 1
    ensures Owned(Removed(s, k) + [r], o)
            == if s[k].owner == o then Owned(s, o) - multiset{s[k]} + multiset{r} else Owned(s, o)
  {
    RemovedEffect(s, k, o, AnyTask);
    assert (Removed(s, k) + [r])[..|Removed(s, k)|] == Removed(s, k);
  }

  class TupleSpace<D, R> {
    /** The tuples currently in the space. Order carries no meaning: `Take`
        may remove any match. */
    var tuples: seq<Tuple<D, R>>

    constructor ()
      ensures tuples == []
    {
      tuples := [];
    }

    predicate HasMatch(p: Pattern)
      reads this
    {
      exists k :: 0 <= k < |tuples| && Matches(tuples[k], p)
    }

    /** How many task tuples are waiting for a worker. */
    function Waiting(): nat
      reads this
    {
      Count(tuples, AnyTask)
    }

    /** `write(tuple)`. */
    method Write(t: Tuple<D, R>)
      modifies this
      ensures tuples == old(tuples) + [t]
    {
      tuples := tuples + [t];
    }

    /** `take(pattern)`: removes some matching tuple, whichever, and returns
        it; `k` is where it was. */
    method Take(p: Pattern) returns (t: Tuple<D, R>, ghost k: nat)
      requires HasMatch(p)
      modifies this
      ensures k < |old(tuples)| && t == old(tuples)[k] && Matches(t, p)
      ensures tuples == Removed(old(tuples), k)
    {
      var i :| 0 <= i < |tuples| && Matches(tuples[i], p);
      t := tuples[i];
      k := i;
      tuples := Removed(tuples, i);
    }
  }
}
