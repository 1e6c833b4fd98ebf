/**
  The coordinator of map_reduce_job.rb: `MapReduceJob#run_tasks`, which
  publishes a list of tasks and collects one result per task, and
  `MapReduceJob#run`, which drives the map phase and then the reduce phase.

  The user's `map`, `reduce` and `partition` lambdas are function values. The
  workers are `Worker.Step` transitions that run while the coordinator waits
  in a blocking `take`, in an order of their own choosing.
*/
module Coordinator {
  import opened Wrappers
  import opened Tasks
  import opened TupleSpaces
  import Worker
  import Partitioner

  /** Ruby's `ArgumentError`, raised by `run`. */
  datatype JobError = ArgumentError(message: string)

  /** No two tasks of the list share an id. */
  predicate DistinctIds<D, R>(tasks: seq<WorkerTask<D, R>>)
  {
    forall a, b :: 0 <= a < b < |tasks| ==> tasks[a].taskId != tasks[b].taskId
  }

  /** The result tuple a worker publishes for `task` of job `o`. */
  function Published<D, R>(o: Owner, task: WorkerTask<D, R>): Tuple<D, R>
  {
    ResultTuple(o, task.taskId, task.Run())
  }

  /** Each task of job `o` is still waiting for a worker (its task tuple) or
      done (its result tuple): the one tuple of the job that stands for it. */
  ghost predicate Stages<D, R>(o: Owner, tasks: seq<WorkerTask<D, R>>, stages: seq<Tuple<D, R>>)
  {
    && |stages| == |tasks|
    && forall j :: 0 <= j < |tasks| ==>
         stages[j] == TaskTuple(o, tasks[j]) || stages[j] == Published(o, tasks[j])
  }

  /** Ruby's `array[i]`: `nil` past the end. */
  function At<X>(s: seq<X>, i: nat): Option<X>
  {
    if i < |s| then Some(s[i]) else None
  }

  /** The map phase computed in place: `mapFn` on each of the `mapTasks` entries
      of the simple partition of `data`. */
  function MapOutputs<T, M>(data: seq<T>, mapTasks: nat, mapFn: Option<seq<T>> -> M): (r: seq<M>)
    requires mapTasks >= 1
    ensures |r| == mapTasks
  {
    var mapData := Partitioner.Partitioned(data, mapTasks);
    seq(mapTasks, i requires 0 <= i < mapTasks => mapFn(mapData[i]))
  }

  /** The whole job computed in place, with no tuple space and no workers:
      partition the map outputs for `reduceTasks` reducers and reduce each. */
  function SequentialRun<T, M, P, R>(data: seq<T>, mapTasks: nat, reduceTasks: nat,
                                     mapFn: Option<seq<T>> -> M, reduceFn: Option<P> -> R,
                                     partitionFn: (seq<M>, nat) -> seq<P>): (r: seq<R>)
    requires mapTasks >= 1
    ensures |r| == reduceTasks
  {
    var reduceData := partitionFn(MapOutputs(data, mapTasks, mapFn), reduceTasks);
    seq(reduceTasks, i requires 0 <= i < reduceTasks => reduceFn(At(reduceData, i)))
  }

  /** A tuple of job `o` in the space is the stage of some task in the
      window `lo..hi` of tasks written and not yet collected. */
  lemma StageOf<D, R>(o: Owner, stages: seq<Tuple<D, R>>, lo: nat, hi: nat, s: seq<Tuple<D, R>>, k: nat)
      returns (j: nat)
    requires lo <= hi <= |stages| && Owned(s, o) == multiset(stages[lo..hi])
    requires k < |s| && s[k].owner == o
    ensures lo <= j < hi && stages[j] == s[k]
  {
    OwnedAt(s, k);
    assert s[k] in multiset(stages[lo..hi]);
    var w :| 0 <= w < |stages[lo..hi]| && stages[lo..hi][w] == s[k];
    j := lo + w;
  }

  /** Replacing one element inside a window replaces it in the window's
      multiset. */
  lemma UpdateWindow<X>(s: seq<X>, lo: nat, hi: nat, j: nat, x: X)
    requires lo <= j < hi <= |s|
    ensures multiset(s[j := x][lo..hi]) == multiset(s[lo..hi]) - multiset{s[j]} + multiset{x}
  {
    assert s[lo..hi] == s[lo..j] + [s[j]] + s[j + 1..hi];
    assert s[j := x][lo..hi] == s[lo..j] + [x] + s[j + 1..hi];
  }

  /** Writing the task tuple of the next task extends the stages of the
      written tasks by that tuple. */
  lemma StagesSnoc<D, R>(o: Owner, tasks: seq<WorkerTask<D, R>>, stages: seq<Tuple<D, R>>, i: nat)
    requires i < |tasks| && Stages(o, tasks[..i], stages)
    ensures Stages(o, tasks[..i + 1], stages + [TaskTuple(o, tasks[i])])
  {
    var stages' := stages + [TaskTuple(o, tasks[i])];
    forall j | 0 <= j < i + 1
      ensures stages'[j] == TaskTuple(o, tasks[..i + 1][j]) || stages'[j] == Published(o, tasks[..i + 1][j])
    {
      if j < i {
        assert stages'[j] == stages[j] && tasks[..i + 1][j] == tasks[..i][j];
      }
    }
  }

  /** Task `j` of the window `lo..hi` moves from waiting to done: its stage
      becomes its published result and no other stage changes. */
  lemma AdvanceStage<D, R>(o: Owner, tasks: seq<WorkerTask<D, R>>, stages: seq<Tuple<D, R>>, lo: nat, hi: nat, j: nat)
      returns (stages': seq<Tuple<D, R>>)
    requires Stages(o, tasks, stages) && lo <= j < hi <= |tasks|
    ensures Stages(o, tasks, stages')
    ensures forall m :: 0 <= m < |tasks| && m != j ==> stages'[m] == stages[m]
    ensures multiset(stages'[lo..hi]) == multiset(stages[lo..hi]) - multiset{stages[j]} + multiset{Published(o, tasks[j])}
  {
    UpdateWindow(stages, lo, hi, j, Published(o, tasks[j]));
    stages' := stages[j := Published(o, tasks[j])];
  }

  /** After a worker step the job's tuples still stand one for each task of
      the window `lo..hi`: the task the worker took, if it is one of the
      job's, moves from waiting to done; no other stage changes. */
  lemma StepKeepsStages<D, R>(o: Owner, tasks: seq<WorkerTask<D, R>>, stages: seq<Tuple<D, R>>, lo: nat, hi: nat,
                              before: seq<Tuple<D, R>>, k: nat)
      returns (stages': seq<Tuple<D, R>>)
    requires Stages(o, tasks, stages) && lo <= hi <= |tasks|
    requires Owned(before, o) == multiset(stages[lo..hi])
    requires k < |before| && before[k].TaskTuple?
    ensures Stages(o, tasks, stages')
    ensures forall j :: 0 <= j < |tasks| && (j < lo || hi <= j) ==> stages'[j] == stages[j]
    ensures var t := before[k];
            Owned(Removed(before, k) + [ResultTuple(t.owner, t.task.taskId, t.task.Run())], o) == multiset(stages'[lo..hi])
  {
    var t := before[k];
    StepEffect(before, k, ResultTuple(t.owner, t.task.taskId, t.task.Run()), o);
    if t.owner == o {
      var j := StageOf(o, stages, lo, hi, before, k);
      stages' := AdvanceStage(o, tasks, stages, lo, hi, j);
    } else {
      stages' := stages;
    }
  }

  /** When no task is waiting any more, or the space already has it, the
      result for task `i` is in the space. */
  lemma AwaitedResultPresent<D, R>(o: Owner, tasks: seq<WorkerTask<D, R>>, stages: seq<Tuple<D, R>>, i: nat,
                                   s: seq<Tuple<D, R>>)
    requires Stages(o, tasks, stages) && i < |tasks|
    requires Owned(s, o) == multiset(stages[i..])
    ensures exists w :: 0 <= w < |s| && (Matches(s[w], ResultFor(o, tasks[i].taskId)) || Matches(s[w], AnyTask))
    ensures Count(s, AnyTask) == 0 ==> exists w :: 0 <= w < |s| && Matches(s[w], ResultFor(o, tasks[i].taskId))
  {
    assert stages[i..][0] == stages[i];
    assert stages[i] in multiset(stages[i..]);
    OwnedMember(s, o, stages[i]);
    CountPositive(s, AnyTask);
    var w :| 0 <= w < |s| && s[w] == stages[i];
  }

  /** The tuple the coordinator takes for task `i` carries task `i`'s result,
      because ids are distinct; taking it leaves one tuple per later task. */
  lemma TakenIsTasksResult<D, R>(o: Owner, tasks: seq<WorkerTask<D, R>>, stages: seq<Tuple<D, R>>, i: nat,
                                 before: seq<Tuple<D, R>>, k: nat)
    requires DistinctIds(tasks) && Stages(o, tasks, stages) && i < |tasks|
    requires Owned(before, o) == multiset(stages[i..])
    requires k < |before| && Matches(before[k], ResultFor(o, tasks[i].taskId))
    ensures before[k].result == tasks[i].Run()
    ensures Owned(Removed(before, k), o) == multiset(stages[i + 1..])
  {
    assert stages[i..|stages|] == stages[i..];
    var j := StageOf(o, stages, i, |stages|, before, k);
    assert stages[j] == Published(o, tasks[j]);
    assert j == i;
    RemovedEffect(before, k, o, AnyTask);
    DropFirst(stages, i);
  }

  /** The multiset of a suffix without its first element. */
  lemma DropFirst<X>(s: seq<X>, i: nat)
    requires i < |s|
    ensures multiset(s[i..]) - multiset{s[i]} == multiset(s[i + 1..])
  {
    assert s[i..] == [s[i]] + s[i + 1..];
  }

  /** A job. `T` is the type of an input item, `M` of a map result, `P` of a
      reduce task's input and `R` of a reduce result. */
  class MapReduceJob<T, M, P, R> {
    var data: seq<T>
    var mapTasks: nat
    var reduceTasks: nat
    var mapFn: Option<Option<seq<T>> -> M>
    var reduceFn: Option<Option<P> -> R>
    var partitionFn: Option<(seq<M>, nat) -> seq<P>>

    /** `DRb.uri`: the tag of this job's tuples. */
    const owner: Owner
    /** The tuple space, one typed store per phase. */
    const mapSpace: TupleSpace<Option<seq<T>>, M>
    const reduceSpace: TupleSpace<Option<P>, R>

    /** `MapReduceJob.new(map_tasks, reduce_tasks)`, with the space it found
        and its own `DRb.uri` passed in. */
    constructor (mapTasks: nat, reduceTasks: nat, owner: Owner,
                 mapSpace: TupleSpace<Option<seq<T>>, M>, reduceSpace: TupleSpace<Option<P>, R>)
      ensures this.mapTasks == mapTasks && this.reduceTasks == reduceTasks
      ensures this.owner == owner && this.mapSpace == mapSpace && this.reduceSpace == reduceSpace
      ensures data == [] && mapFn == None && reduceFn == None && partitionFn == None
    {
      this.mapTasks := mapTasks;
      this.reduceTasks := reduceTasks;
      this.owner := owner;
      this.mapSpace := mapSpace;
      this.reduceSpace := reduceSpace;
      data := [];
      mapFn := None;
      reduceFn := None;
      partitionFn := None;
    }

    /** All three lambdas are assigned. */
    predicate Configured()
      reads this
    {
      mapFn.Some? && reduceFn.Some? && partitionFn.Some?
    }

    /** `run_tasks(description, tasks)`: write every task tuple, then take the
        result for each task in list order, matching on the task id. Workers
        run throughout, from the first write on, and may run the tasks in any
        order; result `i` is still task `i`'s. The job's tuples are all
        consumed, so none is left in the space. */
    method RunTasks<D, V>(space: TupleSpace<D, V>, tasks: seq<WorkerTask<D, V>>) returns (results: seq<V>)
      requires DistinctIds(tasks)
      requires Owned(space.tuples, owner) == multiset{}
      modifies space
      ensures |results| == |tasks|
      ensures forall i :: 0 <= i < |tasks| ==> results[i] == tasks[i].Run()
      ensures Owned(space.tuples, owner) == multiset{}
    {
      ghost var stages := PublishTasks(space, tasks);
      assert stages[0..] == stages;

      results := [];
      for i := 0 to |tasks|
        invariant |results| == i
        invariant forall j :: 0 <= j < i ==> results[j] == tasks[j].Run()
        invariant Stages(owner, tasks, stages)
        invariant Owned(space.tuples, owner) == multiset(stages[i..])
      {
        var result;
        result, stages := AwaitResult(space, tasks, stages, i);
        forall j | 0 <= j < i + 1
          ensures (results + [result])[j] == tasks[j].Run()
        {
          if j < i {
            assert (results + [result])[j] == results[j];
          }
        }
        results := results + [result];
      }
    }

    /** The first loop of `run_tasks`: one task tuple per task, tagged with
        this job's owner, in list order. Workers are already running, so
        after each write any number of worker steps may take place, and a
        task may be done before the later ones are written. Each task then
        has exactly one tuple of the job in the space: its task tuple, or the
        result a worker published for it. */
    method PublishTasks<D, V>(space: TupleSpace<D, V>, tasks: seq<WorkerTask<D, V>>)
        returns (ghost stages: seq<Tuple<D, V>>)
      requires Owned(space.tuples, owner) == multiset{}
      modifies space
      ensures Stages(owner, tasks, stages) && Owned(space.tuples, owner) == multiset(stages)
    {
      stages := [];
      for i := 0 to |tasks|
        invariant Stages(owner, tasks[..i], stages)
        invariant Owned(space.tuples, owner) == multiset(stages)
      {
        OwnedSnoc(space.tuples, TaskTuple(owner, tasks[i]), owner);
        space.Write(TaskTuple(owner, tasks[i]));
        StagesSnoc(owner, tasks, stages, i);
        stages := WorkersRun(space, tasks[..i + 1], stages + [TaskTuple(owner, tasks[i])]);
      }
      assert tasks[..|tasks|] == tasks;
    }

    /** Workers running between two writes: any number of steps, each taking
        any task tuple, of this job or another. Every task written so far
        still has exactly one tuple of the job: its task or its result. */
    method WorkersRun<D, V>(space: TupleSpace<D, V>, tasks: seq<WorkerTask<D, V>>, ghost stages: seq<Tuple<D, V>>)
        returns (ghost stages': seq<Tuple<D, V>>)
      requires Stages(owner, tasks, stages) && Owned(space.tuples, owner) == multiset(stages)
      modifies space
      ensures Stages(owner, tasks, stages') && Owned(space.tuples, owner) == multiset(stages')
    {
      stages' := stages;
      var more: bool := *;
      while space.Waiting() > 0 && more
        invariant Stages(owner, tasks, stages') && Owned(space.tuples, owner) == multiset(stages')
        decreases space.Waiting()
      {
        CountPositive(space.tuples, AnyTask);
        ghost var before := space.tuples;
        ghost var k := Worker.Step(space);
        ghost var taken := before[k];
        StepEffect(before, k, ResultTuple(taken.owner, taken.task.taskId, taken.task.Run()), owner);
        assert stages'[0..|tasks|] == stages';
        stages' := StepKeepsStages(owner, tasks, stages', 0, |tasks|, before, k);
        assert stages'[0..|tasks|] == stages';
        more := *;
      }
    }

    /** The blocking `take` of the result for task `i`: workers run, any
        number of steps and in any order, at least until that result is in
        the space; then the coordinator takes it. */
    method AwaitResult<D, V>(space: TupleSpace<D, V>, tasks: seq<WorkerTask<D, V>>,
                             ghost stages: seq<Tuple<D, V>>, i: nat)
        returns (result: V, ghost stages': seq<Tuple<D, V>>)
      requires DistinctIds(tasks) && Stages(owner, tasks, stages) && i < |tasks|
      requires Owned(space.tuples, owner) == multiset(stages[i..])
      modifies space
      ensures result == tasks[i].Run()
      ensures Stages(owner, tasks, stages') && Owned(space.tuples, owner) == multiset(stages'[i + 1..])
    {
      var id := tasks[i].taskId;
      stages' := stages;
      var more: bool := *;
      assert stages'[i..|tasks|] == stages'[i..];
      while space.Waiting() > 0 && (more || !space.HasMatch(ResultFor(owner, id)))
        invariant Stages(owner, tasks, stages')
        invariant Owned(space.tuples, owner) == multiset(stages'[i..|tasks|])
        decreases space.Waiting()
      {
        CountPositive(space.tuples, AnyTask);
        ghost var before := space.tuples;
        ghost var k := Worker.Step(space);
        ghost var taken := before[k];
        StepEffect(before, k, ResultTuple(taken.owner, taken.task.taskId, taken.task.Run()), owner);
        stages' := StepKeepsStages(owner, tasks, stages', i, |tasks|, before, k);
        more := *;
      }
      assert stages'[i..|tasks|] == stages'[i..];
      AwaitedResultPresent(owner, tasks, stages', i, space.tuples);
      ghost var before := space.tuples;
      var t, k := space.Take(ResultFor(owner, id));
      TakenIsTasksResult(owner, tasks, stages', i, before, k);
      result := t.result;
    }

    /** `run`: raise `ArgumentError` before any tuple is written unless all
        three lambdas are assigned; otherwise build tasks `1..mapTasks` over
        the simple partition of `data`, collect their results, partition them
        for the reducers, build tasks `1..reduceTasks` over that, and return
        the reduce results. Whatever order the workers run in, that is the job
        computed in place. */
    method Run() returns (r: Result<seq<R>, JobError>,
                          ghost mapJobs: seq<WorkerTask<Option<seq<T>>, M>>,
                          ghost reduceJobs: seq<WorkerTask<Option<P>, R>>)
      requires Configured() ==> mapTasks >= 1
      requires Owned(mapSpace.tuples, owner) == multiset{}
      requires Owned(reduceSpace.tuples, owner) == multiset{}
      modifies mapSpace, reduceSpace
      ensures !Configured() ==> r == Failure(ArgumentError("map and/or reduce lambdas not assigned"))
      ensures !Configured() ==> unchanged(mapSpace, reduceSpace)
      ensures Configured() ==>
                && |mapJobs| == mapTasks
                && (forall i :: 0 <= i < mapTasks ==>
                      mapJobs[i] == WorkerTask(i + 1, Partitioner.Partitioned(data, mapTasks)[i], mapFn.value))
                && |reduceJobs| == reduceTasks
                && (forall i :: 0 <= i < reduceTasks ==>
                      reduceJobs[i] == WorkerTask(i + 1,
                                                  At(partitionFn.value(MapOutputs(data, mapTasks, mapFn.value), reduceTasks), i),
                                                  reduceFn.value))
                && r == Success(SequentialRun(data, mapTasks, reduceTasks, mapFn.value, reduceFn.value, partitionFn.value))
      ensures Owned(mapSpace.tuples, owner) == multiset{} && Owned(reduceSpace.tuples, owner) == multiset{}
    {
      if !(mapFn.Some? && reduceFn.Some? && partitionFn.Some?) {
        return Failure(ArgumentError("map and/or reduce lambdas not assigned")), [], [];
      }

      var mapData := Partitioner.SimplePartitionData(data, mapTasks);
      var mapList: seq<WorkerTask<Option<seq<T>>, M>> := [];
      for i := 0 to mapTasks
        invariant |mapList| == i
        invariant forall k :: 0 <= k < i ==> mapList[k] == WorkerTask(k + 1, mapData[k], mapFn.value)
      {
        mapList := mapList + [WorkerTask(i + 1, mapData[i], mapFn.value)];
      }
      mapJobs := mapList;
      var mapResults := RunTasks(mapSpace, mapList);
      assert mapResults == MapOutputs(data, mapTasks, mapFn.value);

      var reduceData := partitionFn.value(mapResults, reduceTasks);
      var reduceList: seq<WorkerTask<Option<P>, R>> := [];
      for i := 0 to reduceTasks
        invariant |reduceList| == i
        invariant forall k :: 0 <= k < i ==> reduceList[k] == WorkerTask(k + 1, At(reduceData, k), reduceFn.value)
      {
        reduceList := reduceList + [WorkerTask(i + 1, At(reduceData, i), reduceFn.value)];
      }
      reduceJobs := reduceList;
      var reduceResults := RunTasks(reduceSpace, reduceList);
      assert reduceResults == SequentialRun(data, mapTasks, reduceTasks, mapFn.value, reduceFn.value, partitionFn.value);
      r := Success(reduceResults);
    }
  }
}
