# simplemapreduce in Dafny

A model of the core of simplemapreduce, a small map/reduce framework. A
`MapReduceJob` splits its input data into partitions and publishes one
`WorkerTask` per partition to a Rinda tuple space. Workers take tasks, run
them and write back results. The job collects the results by task id,
re-partitions them with a user-supplied partitioner and runs a reduce phase
the same way. The model covers three parts:

- **The `Partitioner` utilities** (`partitioner.dfy`). Each Ruby routine
  builds a fresh array with loops and `<<`. Each one is a method with those
  loops (`SimplePartitionData`, `RecombineAndSplit`, `SplitByFirstEntry`),
  proved equal to a specification function (`Partitioned`, `Recombined`,
  `KeySplit`). The lemmas about those functions state coverage, sizes,
  placement, order and key co-location. Ruby's `nil` is `Option.None`. A
  Ruby string key is its sequence of bytes.
- **The coordinator** (`map_reduce_job.dfy`, `tuple_space.dfy`,
  `worker.dfy`).
  - The tuple space is an object holding a sequence of tuples. `Write`
    appends a tuple. `Take` removes any one matching tuple and requires that
    one exists.
  - A worker is one transition, `Worker.Step`: take any task tuple, run the
    task, write the result under the tuple's owner and task id.
  - `MapReduceJob.RunTasks` writes all task tuples. It then waits for each
    result in list order. The workers are running the whole time: after
    each write, and while the job waits, they run an arbitrary,
    nondeterministically chosen number of steps, in any order. A task may
    be done before the later tasks are written.
  - `RunTasks` is proved to return `tasks[i].Run()` at position `i` however
    the workers are ordered. It also leaves none of the job's tuples behind.
  - `MapReduceJob.Run` is proved to equal `SequentialRun`: the whole job
    computed directly, with no tuple space.
- **`WorkerTask`** (`worker_task.dfy`): an immutable record whose `Run`
  applies `process` to `data`.

The user's `map`, `reduce` and `partition` lambdas are function values. The
job's `DRb.uri` is the `owner` constant of the job.

The code and the informal description of `simple_partition_data` disagree;
the model follows the code. The contiguous branch uses slices of
`ceil(L / n)` items, so the shortfall is not confined to the last
partition. Trailing partitions can be short, empty, or `nil` (Ruby's
`data[start, size]` past the end). For 14 items into 6 partitions the
entries are 3, 3, 3, 3, 2 items and then `nil` (`FourteenIntoSix`).

## Model

| member | source | states |
|---|---|---|
| Partitioner.Partitioned | map_reduce_job.rb:97-125 | `simple_partition_data(data, n)` has exactly `n` entries |
| Partitioner.SimplePartitionData | map_reduce_job.rb:97-125 | the Ruby loops build exactly `Partitioned(data, n)`, for every `n >= 1` |
| Partitioner.ContiguousSlices | map_reduce_job.rb:104-114 | contiguous branch: `n` entries, entry `i` is Ruby's `data[i*size, size]` with `size = ceil(L/n)` |
| Partitioner.RoundRobin | map_reduce_job.rb:115-121 | round-robin branch: `n` entries, entry `j` holds the items whose index is `j` mod `n`, in input order, and is never nil |
| Partitioner.ChunkSizeIsCeiling | map_reduce_job.rb:106-110 | `L / n`, plus one when `n` does not divide `L`, is the ceiling of `L / n`: `(size-1)*n < L <= size*n` |
| Partitioner.ContiguousShape | map_reduce_job.rb:104-114 | contiguous branch: entry `i` is nil iff `i*size > L`, otherwise `data[i*size .. min((i+1)*size, L))`; no entry exceeds `size`; an entry is full when the data reaches `(i+1)*size`; after a short entry every later entry is nil |
| Partitioner.ContiguousPrefix | map_reduce_job.rb:112-114 | contiguous branch: the first `i` entries, nil read as empty, concatenate to the first `min(i*size, L)` items |
| Partitioner.ContiguousRoundTrip | map_reduce_job.rb:104-114 | contiguous branch: all entries, nil read as empty, concatenate back to `data` exactly |
| Partitioner.RoundRobinSizes | map_reduce_job.rb:115-121 | round-robin branch: no entry is nil; entry `j` has `L/n` items plus one when `j < L mod n`; any two sizes differ by at most one |
| Partitioner.RoundRobinPlacement | map_reduce_job.rb:119-121 | round-robin branch: `data[m]` is item `m / n` of entry `m mod n`, so each entry keeps input order |
| Partitioner.PartitionedPreservesItems | map_reduce_job.rb:97-125 | both branches: the multiset of all entries' items, nil read as empty, is the multiset of `data` |
| Partitioner.FlattenConcat | map_reduce_job.rb:133-137 | the flatten loop keeps partition order, then item order: flattening `a + b` is flattening `a`, then `b` |
| Partitioner.Recombined | map_reduce_job.rb:129-141 | `recombine_and_split.call(pd, k)` has exactly `k` entries |
| Partitioner.RecombineAndSplit | map_reduce_job.rb:129-141 | the Ruby loops flatten `pd` in order and re-split it: the result is `Partitioned(Flatten(pd), k)` |
| Partitioner.RecombinePreservesItems | map_reduce_job.rb:129-141 | recombining keeps the multiset of all items |
| Partitioner.RecombineAfterContiguous | map_reduce_job.rb:129-141 | recombining a nil-free contiguous split of `data` into `k` gives the `k`-way split of `data` itself |
| Partitioner.KeySplit | map_reduce_job.rb:146-162 | `array_data_split_by_first_entry.call(pd, k)` has exactly `k` lists; `k = 0` is allowed only without records (otherwise Ruby divides by zero) |
| Partitioner.SplitByFirstEntry | map_reduce_job.rb:146-162 | the Ruby loops build exactly `KeySplit(pd, k)` |
| Partitioner.KeySplitRouting | map_reduce_job.rb:151-157 | every input record is in list `b` iff `b` is its key's byte sum mod `k`: exactly one list |
| Partitioner.KeySplitColocation | map_reduce_job.rb:151-157 | records with the same key share a list, whichever input partitions they came from |
| Partitioner.KeySplitPreservesRecords | map_reduce_job.rb:146-162 | the multiset of all output records is the multiset of all input records |
| Partitioner.KeySplitKeepsOrder | map_reduce_job.rb:151-157 | list `b` is partition 0's records for `b`, then partition 1's, and so on, each in input order |
| Partitioner.HundredIntoFiveAndSeven | test/test_data_partition.rb:25-46 | 1..100 into 5 gives 20-item slices 1..20 … 81..100; into 7 gives sizes 15, 15, 10 at entries 0, 5, 6; into 1 gives one 100-item entry |
| Partitioner.EightIntoSix | test/test_data_partition.rb:48-56 | 1..8 into 6 gives sizes 2, 2, 1, 1, 1, 1 |
| Partitioner.FourteenIntoSix | map_reduce_job.rb:104-114 | 1..14 into 6 gives [1,2,3] … [10,11,12], [13,14] and nil |
| Partitioner.HundredRecombinedIntoTwenty | test/test_data_partition.rb:59-71 | 1..100 split into 5 and recombined into 20 is the 20-way split: 5-item entries from 1 to 100 |
| Tasks.RunIgnoresTaskId | worker_task.rb:14-22 | a remark on the definition, which holds by unfolding: `run` reads `data` and `process` only, so changing the id leaves the result unchanged |
| TupleSpaces.CountPositive | map_reduce_job.rb:49 | some tuple matches a pattern iff the count of matches is positive |
| TupleSpaces.StepEffect | worker.rb:23-30 | a worker step removes one task tuple and adds the job's result; other jobs' tuples are unchanged |
| TupleSpaces.TupleSpace.Write | map_reduce_job.rb:44 | `write` appends the tuple |
| TupleSpaces.TupleSpace.Take | map_reduce_job.rb:49 | `take` removes one matching tuple, any one, and returns it |
| Worker.Step | worker.rb:23-30 | a worker takes some task tuple and writes `['result', owner, task_id, task.run]` in its place, with the owner and id it took |
| Coordinator.StepKeepsStages | worker.rb:23-30 | after any worker step, each written and uncollected task of the job still has exactly one tuple, its task or its result; the stages of the other tasks are unchanged |
| Coordinator.AwaitedResultPresent | map_reduce_job.rb:47-50 | while task `i` is uncollected, its result or a waiting task is in the space; with no task waiting, its result is there |
| Coordinator.TakenIsTasksResult | map_reduce_job.rb:49-50 | the tuple taken for `tasks[i].task_id` carries `tasks[i].run`, because task ids are distinct |
| Coordinator.MapReduceJob.constructor | map_reduce_job.rb:22-24 | the job stores the task counts and starts with no data and no lambdas |
| Coordinator.MapReduceJob.PublishTasks | map_reduce_job.rb:42-45 | one task tuple per task, tagged with the job's owner, is written in list order while workers run; afterwards the job's tuples are exactly one per task, its task tuple or its published result |
| Coordinator.MapReduceJob.WorkersRun | worker.rb:22-30 | any number of worker steps between two writes keeps exactly one tuple of the job per written task, its task or its result |
| Coordinator.MapReduceJob.AwaitResult | map_reduce_job.rb:47-51 | workers run in any order until the result for task `i` is present; the value taken is `tasks[i].run` |
| Coordinator.MapReduceJob.RunTasks | map_reduce_job.rb:39-54 | result `i` is `tasks[i].run` for every `i`, in whatever order workers ran, during the writes or during the takes; no tuple of the job is left |
| Coordinator.SequentialRun | map_reduce_job.rb:65-87 | the job computed directly has one result per reduce task |
| Coordinator.MapReduceJob.Run | map_reduce_job.rb:58-88 | missing lambda: `ArgumentError` and no tuple written; otherwise map tasks `1..map_tasks` over the simple partition of `data`, reduce tasks `1..reduce_tasks` over `partition.call(map results, reduce_tasks)` (nil past its end), result equal to `SequentialRun` |

## Left out

- DRb and Rinda discovery, the proxy set-up, and the service of tuplespace.rb: network plumbing. The space is passed to the constructor.
- Blocking and liveness of `take`: `Take` requires that a match exists. The coordinator's wait is modelled as worker steps until the awaited result is present. A result that never arrives, and the resulting hang, are not modelled.
- The worker's endless loop and its printing: only one take/run/write step is modelled.
- `puts`, the `silent` flag and the `description` argument of `run_tasks`: output only.
- Marshalling of tasks and lambdas between processes.
- The test lambdas of the word-count and inverted-index tests: `map`, `reduce` and `partition` are arbitrary function values.
- Uniqueness of `DRb.uri` across jobs: the owner is one constant per job, and the proofs assume no other job uses the same owner. The coordinator takes only result tuples of its own owner. The workers it waits on may also run other jobs' tasks, turning those task tuples into results (`StepEffect`, one step). No frame for other owners' tuples is stated across `RunTasks`.
- One Rinda space holds tuples of every type. The model has two typed spaces, one for the map phase and one for the reduce phase.
- Coordinator.MapReduceJob.constructor: the defaults `map_tasks = 10` and `reduce_tasks = 2` are not modelled; both counts are arguments.
- Coordinator.MapReduceJob.constructor: `@data` starts empty, not `nil`; a job run without data is not modelled.
- Coordinator.MapReduceJob.Run: requires `mapTasks >= 1` when the lambdas are set. With zero map tasks, Ruby raises `ZeroDivisionError` in `simple_partition_data`.
- Negative task and partition counts are not modelled (counts are `nat`). Ruby would build empty ranges or negative slice sizes.
- Partitioner.RecombineAndSplit: the input partitions are sequences. A `nil` partition, which makes Ruby raise `NoMethodError`, is not modelled.
- Partitioner.SplitByFirstEntry: `k = 0` with at least one record is excluded by the requires; Ruby raises `ZeroDivisionError` at the `% k`. A `nil` input partition, which makes Ruby raise `NoMethodError` on `each`, is not modelled: partitions are sequences.
- Partitioner.SplitByFirstEntry: a record's first entry is modelled as the bytes of the key string. Ruby's `each_byte` on an arbitrary string is not modelled.
