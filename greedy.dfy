/** The greedy allocator (`GreedyAlgorithm`). It walks the task columns from
    the last to the first. For each task every processor gets a candidate
    value: the task's runtime there if the cell is open and the runtime
    still fits under the duration limit on top of what the processor already
    carries, 0 otherwise. The task goes to the processor with the strictly
    largest candidate (the lowest row among equals), and only when that
    value is positive. The functions below state the pass column by column;
    the method runs it on the arrays and is proved to compute the same. */
module Greedy {
  import opened Configuration
  import opened Grids
  import opened Blocking
  import opened Taff
  import opened Text

  /** The stopwatch limit, in milliseconds, checked before every column. */
  const Deadline: nat := 300000

  /** The processor loads, the processor each task went to (if any) and the
      number of tasks placed so far. */
  datatype Placement = Placement(loads: seq<real>, owner: seq<Option<nat>>, count: nat)

  /** What the column pass reads: the runtime of every task on every
      processor (one row per processor), the blocked-cell table (0 open,
      anything else blocked) and the duration limit per processor. */
  datatype Problem = Problem(runtimes: seq<seq<real>>, blocked: seq<seq<int>>, limit: real, processors: nat, tasks: nat)
  {
    predicate Valid() {
      IsGrid(runtimes, processors, tasks) && IsGrid(blocked, processors, tasks)
    }
  }

  /** Candidate value of processor p for task t: its runtime when the cell
      is open and the runtime fits under the limit on top of the load,
      else 0. */
  function Candidate(pr: Problem, loads: seq<real>, p: nat, t: nat): real
    requires pr.Valid() && |loads| == pr.processors
    requires p < pr.processors && t < pr.tasks
  {
    if pr.blocked[p][t] == 0 && pr.runtimes[p][t] + loads[p] <= pr.limit
    then pr.runtimes[p][t] else 0.0
  }

  /** `Service.cs` lines 104-115: the search over the candidates of the first k
      processors for task t. It starts from value 0 at row 0 and moves only
      to a strictly larger candidate, so a positive result is the runtime of
      an open cell that fits on top of that processor's load. */
  function Winner(pr: Problem, loads: seq<real>, t: nat, k: nat): (r: (real, nat))
    requires pr.Valid() && |loads| == pr.processors && t < pr.tasks && k <= pr.processors
    ensures 0.0 <= r.0
    ensures r.0 == 0.0 ==> r.1 == 0
    ensures r.0 > 0.0 ==>
      r.1 < k && r.0 == pr.runtimes[r.1][t] && pr.blocked[r.1][t] == 0 &&
      pr.runtimes[r.1][t] + loads[r.1] <= pr.limit
  {
    if k == 0 then (0.0, 0)
    else
      var (largest, row) := Winner(pr, loads, t, k - 1);
      var c := Candidate(pr, loads, k - 1, t);
      if c > largest then (c, k - 1) else (largest, row)
  }

  /** The search finds the largest candidate, or 0 when none is positive,
      and among equal largest candidates the lowest row. */
  lemma {:induction false} WinnerIsFirstLargest(pr: Problem, loads: seq<real>, t: nat, k: nat)
    requires pr.Valid() && |loads| == pr.processors && t < pr.tasks && k <= pr.processors
    ensures forall r :: 0 <= r < k ==> Candidate(pr, loads, r, t) <= Winner(pr, loads, t, k).0
    ensures Winner(pr, loads, t, k).0 > 0.0 ==>
      Candidate(pr, loads, Winner(pr, loads, t, k).1, t) == Winner(pr, loads, t, k).0 &&
      forall r :: 0 <= r < Winner(pr, loads, t, k).1 ==> Candidate(pr, loads, r, t) < Winner(pr, loads, t, k).0
    ensures Winner(pr, loads, t, k).0 == 0.0 <==> forall r :: 0 <= r < k ==> Candidate(pr, loads, r, t) <= 0.0
    decreases k
  {
    if k > 0 {
      WinnerIsFirstLargest(pr, loads, t, k - 1);
    }
  }

  /** One column of the pass: place task t on the winning processor and add
      its runtime to that processor's load, or leave everything as it is
      when no candidate is positive. */
  function Step(pr: Problem, s: Placement, t: nat): (s2: Placement)
    requires pr.Valid() && |s.loads| == pr.processors && |s.owner| == pr.tasks
    requires t < pr.tasks
    ensures |s2.loads| == |s.loads| && |s2.owner| == |s.owner|
  {
    var (largest, p) := Winner(pr, s.loads, t, pr.processors);
    if largest == 0.0 then s
    else Placement(s.loads[p := s.loads[p] + pr.runtimes[p][t]], s.owner[t := Some(p)], s.count + 1)
  }

  /** The placement after the first n columns of the pass, which are the
      columns T-1 down to T-n. */
  function Run(pr: Problem, n: nat): (s: Placement)
    requires pr.Valid() && n <= pr.tasks
    ensures |s.loads| == pr.processors && |s.owner| == pr.tasks
  {
    if n == 0 then Placement(seq(pr.processors, _ => 0.0), seq(pr.tasks, _ => None), 0)
    else Step(pr, Run(pr, n - 1), pr.tasks - n)
  }

  /** The column choice of one step: nothing changes exactly when no
      candidate is positive; otherwise the task goes to the first processor
      with the largest candidate, that cell is open, the runtime fits on top
      of the processor's load, and exactly that load and that task change. */
  lemma StepPlacesOnFirstLargestCandidate(pr: Problem, s: Placement, t: nat)
    requires pr.Valid() && |s.loads| == pr.processors && |s.owner| == pr.tasks
    requires t < pr.tasks
    ensures Step(pr, s, t) == s <==> forall p :: 0 <= p < pr.processors ==> Candidate(pr, s.loads, p, t) <= 0.0
    ensures var w := Winner(pr, s.loads, t, pr.processors).1;
      Step(pr, s, t) != s ==>
        w < pr.processors &&
        (forall p :: 0 <= p < pr.processors ==> Candidate(pr, s.loads, p, t) <= Candidate(pr, s.loads, w, t)) &&
        (forall p :: 0 <= p < w ==> Candidate(pr, s.loads, p, t) < Candidate(pr, s.loads, w, t)) &&
        pr.blocked[w][t] == 0 && 0.0 < pr.runtimes[w][t] &&
        pr.runtimes[w][t] + s.loads[w] <= pr.limit &&
        Step(pr, s, t) == Placement(s.loads[w := s.loads[w] + pr.runtimes[w][t]], s.owner[t := Some(w)], s.count + 1)
  {
    WinnerIsFirstLargest(pr, s.loads, t, pr.processors);
  }

  /** Columns the pass has not reached yet hold no task. */
  lemma {:induction false} RunLeavesLaterColumnsOpen(pr: Problem, n: nat)
    requires pr.Valid() && n <= pr.tasks
    ensures forall t :: 0 <= t < pr.tasks - n ==> Run(pr, n).owner[t] == None
    decreases n
  {
    if n > 0 {
      RunLeavesLaterColumnsOpen(pr, n - 1);
    }
  }

  /** Every placed task sits on a processor that exists, on a cell that is
      open in the blocked-cell table, and has a positive runtime there. */
  lemma {:induction false} RunPlacesOnOpenCells(pr: Problem, n: nat)
    requires pr.Valid() && n <= pr.tasks
    ensures forall t :: 0 <= t < pr.tasks && Run(pr, n).owner[t].Some? ==>
      var p := Run(pr, n).owner[t].value;
      p < pr.processors && pr.blocked[p][t] == 0 && 0.0 < pr.runtimes[p][t]
    decreases n
  {
    if n > 0 {
      RunPlacesOnOpenCells(pr, n - 1);
    }
  }

  /** Every processor's load is 0 or positive and within the duration limit. */
  lemma {:induction false} RunKeepsLoadsWithinLimit(pr: Problem, n: nat)
    requires pr.Valid() && n <= pr.tasks
    ensures forall p :: 0 <= p < pr.processors ==>
      var load := Run(pr, n).loads[p];
      load == 0.0 || 0.0 < load <= pr.limit
    decreases n
  {
    if n > 0 {
      RunKeepsLoadsWithinLimit(pr, n - 1);
    }
  }

  /** Total runtime of the tasks among the first k that `owner` puts on processor p. */
  function AssignedLoad(pr: Problem, owner: seq<Option<nat>>, p: nat, k: nat): real
    requires pr.Valid() && |owner| == pr.tasks && p < pr.processors && k <= pr.tasks
  {
    if k == 0 then 0.0
    else AssignedLoad(pr, owner, p, k - 1) + (if owner[k - 1] == Some(p) then pr.runtimes[p][k - 1] else 0.0)
  }

  /** Placing one more, so far unplaced, task t on processor q adds its
      runtime to q's total and changes no other processor's total. */
  lemma {:induction false} AssignedLoadAfterPlacing(pr: Problem, owner: seq<Option<nat>>, t: nat, q: nat, p: nat, k: nat)
    requires pr.Valid() && |owner| == pr.tasks && t < pr.tasks && owner[t] == None
    requires q < pr.processors && p < pr.processors && k <= pr.tasks
    ensures AssignedLoad(pr, owner[t := Some(q)], p, k)
         == AssignedLoad(pr, owner, p, k) + (if p == q && t < k then pr.runtimes[q][t] else 0.0)
    decreases k
  {
    if k > 0 {
      AssignedLoadAfterPlacing(pr, owner, t, q, p, k - 1);
    }
  }

  /** Each processor's load is the sum of the runtimes of the tasks placed on it. */
  lemma {:induction false} RunLoadsAreSums(pr: Problem, n: nat)
    requires pr.Valid() && n <= pr.tasks
    ensures forall p :: 0 <= p < pr.processors ==>
      Run(pr, n).loads[p] == AssignedLoad(pr, Run(pr, n).owner, p, pr.tasks)
    decreases n
  {
    var tasks := pr.tasks;
    if n == 0 {
      forall p | 0 <= p < pr.processors
        ensures AssignedLoad(pr, Run(pr, 0).owner, p, tasks) == 0.0
      {
        ZeroLoadWithoutPlacements(pr, Run(pr, 0).owner, p, tasks);
      }
    } else {
      var s := Run(pr, n - 1);
      var t := tasks - n;
      RunLoadsAreSums(pr, n - 1);
      RunLeavesLaterColumnsOpen(pr, n - 1);
      if Step(pr, s, t) != s {
        var w := Winner(pr, s.loads, t, pr.processors).1;
        forall p | 0 <= p < pr.processors
          ensures Run(pr, n).loads[p] == AssignedLoad(pr, Run(pr, n).owner, p, tasks)
        {
          AssignedLoadAfterPlacing(pr, s.owner, t, w, p, tasks);
        }
      }
    }
  }

  lemma {:induction false} ZeroLoadWithoutPlacements(pr: Problem, owner: seq<Option<nat>>, p: nat, k: nat)
    requires pr.Valid() && |owner| == pr.tasks && p < pr.processors && k <= pr.tasks
    requires forall t :: 0 <= t < |owner| ==> owner[t] == None
    ensures AssignedLoad(pr, owner, p, k) == 0.0
    decreases k
  {
    if k > 0 {
      ZeroLoadWithoutPlacements(pr, owner, p, k - 1);
    }
  }

  /** Number of tasks among the first k that are placed. */
  function PlacedCount(owner: seq<Option<nat>>, k: nat): nat
    requires k <= |owner|
  {
    if k == 0 then 0 else PlacedCount(owner, k - 1) + (if owner[k - 1].Some? then 1 else 0)
  }

  lemma {:induction false} PlacedCountAfterPlacing(owner: seq<Option<nat>>, t: nat, q: nat, k: nat)
    requires t < |owner| && owner[t] == None && k <= |owner|
    ensures PlacedCount(owner[t := Some(q)], k) == PlacedCount(owner, k) + (if t < k then 1 else 0)
    decreases k
  {
    if k > 0 {
      PlacedCountAfterPlacing(owner, t, q, k - 1);
    }
  }

  lemma {:induction false} PlacedCountOfNone(owner: seq<Option<nat>>, k: nat)
    requires k <= |owner| && forall t :: 0 <= t < |owner| ==> owner[t] == None
    ensures PlacedCount(owner, k) == 0
    decreases k
  {
    if k > 0 {
      PlacedCountOfNone(owner, k - 1);
    }
  }

  /** The counter of placed tasks is the number of tasks that have a processor. */
  lemma {:induction false} RunCountsPlacedTasks(pr: Problem, n: nat)
    requires pr.Valid() && n <= pr.tasks
    ensures Run(pr, n).count == PlacedCount(Run(pr, n).owner, pr.tasks)
    decreases n
  {
    if n == 0 {
      PlacedCountOfNone(Run(pr, 0).owner, pr.tasks);
    } else {
      var s := Run(pr, n - 1);
      var t := pr.tasks - n;
      RunCountsPlacedTasks(pr, n - 1);
      RunLeavesLaterColumnsOpen(pr, n - 1);
      StepCountsPlacedTasks(pr, s, t);
    }
  }

  /** A step on an unplaced task keeps the counter equal to the number of placed tasks. */
  lemma StepCountsPlacedTasks(pr: Problem, s: Placement, t: nat)
    requires pr.Valid() && |s.loads| == pr.processors && |s.owner| == pr.tasks
    requires t < pr.tasks && s.owner[t] == None && s.count == PlacedCount(s.owner, pr.tasks)
    ensures Step(pr, s, t).count == PlacedCount(Step(pr, s, t).owner, pr.tasks)
  {
    StepPlacesOnFirstLargestCandidate(pr, s, t);
    if Step(pr, s, t) != s {
      PlacedCountAfterPlacing(s.owner, t, Winner(pr, s.loads, t, pr.processors).1, pr.tasks);
    }
  }

  /** When every one of the first k tasks counts as placed, each of them has a processor. */
  lemma {:induction false} FullCountPlacesEveryTask(owner: seq<Option<nat>>, k: nat)
    requires k <= |owner| && PlacedCount(owner, k) == k
    ensures forall t :: 0 <= t < k ==> owner[t].Some?
    decreases k
  {
    if k > 0 {
      PlacedCountAtMost(owner, k - 1);
      FullCountPlacesEveryTask(owner, k - 1);
    }
  }

  lemma {:induction false} PlacedCountAtMost(owner: seq<Option<nat>>, k: nat)
    requires k <= |owner|
    ensures PlacedCount(owner, k) <= k
    decreases k
  {
    if k > 0 {
      PlacedCountAtMost(owner, k - 1);
    }
  }

  /** The 0/1 allocation table of a placement: row p has a 1 in column t
      exactly when task t went to processor p. */
  function AllocationMatrix(owner: seq<Option<nat>>, processors: nat): (a: seq<seq<int>>)
    ensures IsGrid(a, processors, |owner|)
  {
    seq(processors, p requires 0 <= p < processors =>
      seq(|owner|, t requires 0 <= t < |owner| => if owner[t] == Some(p) then 1 else 0))
  }

  /** Number of 1s among the first k rows of column t. */
  function ColumnOnes(a: seq<seq<int>>, t: nat, k: nat): nat
    requires k <= |a| && forall r :: 0 <= r < |a| ==> t < |a[r]|
  {
    if k == 0 then 0 else ColumnOnes(a, t, k - 1) + (if a[k - 1][t] == 1 then 1 else 0)
  }

  /** Number of 1s in the first k columns of a table with `rows` rows. */
  function Ones(a: seq<seq<int>>, rows: nat, k: nat): nat
    requires |a| == rows && forall r :: 0 <= r < rows ==> k <= |a[r]|
  {
    if k == 0 then 0 else Ones(a, rows, k - 1) + ColumnOnes(a, k - 1, rows)
  }

  /** A column of the allocation table holds one 1 when its task is placed
      on an existing processor, and none otherwise. */
  lemma {:induction false} AllocationColumnOnes(owner: seq<Option<nat>>, processors: nat, t: nat, k: nat)
    requires t < |owner| && k <= processors
    ensures ColumnOnes(AllocationMatrix(owner, processors), t, k)
         == if owner[t].Some? && owner[t].value < k then 1 else 0
    decreases k
  {
    if k > 0 {
      AllocationColumnOnes(owner, processors, t, k - 1);
    }
  }

  /** The number of 1s in the allocation table equals the number of placed
      tasks, as long as every placement names an existing processor. */
  lemma {:induction false} AllocationOnesArePlacedTasks(owner: seq<Option<nat>>, processors: nat, k: nat)
    requires k <= |owner|
    requires forall t :: 0 <= t < |owner| && owner[t].Some? ==> owner[t].value < processors
    ensures Ones(AllocationMatrix(owner, processors), processors, k) == PlacedCount(owner, k)
    decreases k
  {
    if k > 0 {
      AllocationOnesArePlacedTasks(owner, processors, k - 1);
      AllocationColumnOnes(owner, processors, k - 1, processors);
    }
  }

  /** Total runtime a 0/1 table puts on processor p over the first k tasks. */
  function TableLoad(pr: Problem, a: seq<seq<int>>, p: nat, k: nat): real
    requires pr.Valid() && IsGrid(a, pr.processors, pr.tasks)
    requires p < pr.processors && k <= pr.tasks
  {
    if k == 0 then 0.0 else TableLoad(pr, a, p, k - 1) + (if a[p][k - 1] == 1 then pr.runtimes[p][k - 1] else 0.0)
  }

  lemma {:induction false} TableLoadIsAssignedLoad(pr: Problem, owner: seq<Option<nat>>, p: nat, k: nat)
    requires pr.Valid() && |owner| == pr.tasks && p < pr.processors && k <= pr.tasks
    ensures TableLoad(pr, AllocationMatrix(owner, pr.processors), p, k) == AssignedLoad(pr, owner, p, k)
    decreases k
  {
    if k > 0 {
      TableLoadIsAssignedLoad(pr, owner, p, k - 1);
    }
  }

  /** A complete, feasible allocation table for the problem:
      every task column holds exactly one 1 and otherwise 0s, every 1 lies
      on an open cell whose runtime is positive, and every processor's load
      is 0 or within the duration limit. */
  ghost predicate CompleteFeasible(pr: Problem, a: seq<seq<int>>)
    requires pr.Valid()
  {
    IsGrid(a, pr.processors, pr.tasks) &&
    (forall p, t :: 0 <= p < pr.processors && 0 <= t < pr.tasks ==>
      (a[p][t] == 0 || a[p][t] == 1) &&
      (a[p][t] == 1 ==> pr.blocked[p][t] == 0 && 0.0 < pr.runtimes[p][t])) &&
    (forall t :: 0 <= t < pr.tasks ==> ColumnOnes(a, t, pr.processors) == 1) &&
    (forall p :: 0 <= p < pr.processors ==>
      var load := TableLoad(pr, a, p, pr.tasks);
      load == 0.0 || 0.0 < load <= pr.limit)
  }

  /** The pass's text for a problem: the allocation document when every
      task was placed, otherwise the empty string. */
  function GreedyText(path: string, pr: Problem): string
    requires pr.Valid()
  {
    var s := Run(pr, pr.tasks);
    if s.count == pr.tasks
    then AllocationDocument(path, pr.tasks, pr.processors, AllocationMatrix(s.owner, pr.processors))
    else ""
  }

  /** The pass's text is non-empty exactly when every task was placed, and
      then its table is a complete, feasible allocation. */
  lemma GreedyTextIsCompleteOrEmpty(path: string, pr: Problem)
    requires pr.Valid()
    ensures var s := Run(pr, pr.tasks);
      (GreedyText(path, pr) != "" <==> s.count == pr.tasks) &&
      (s.count == pr.tasks ==> CompleteFeasible(pr, AllocationMatrix(s.owner, pr.processors)))
  {
    var tasks, processors := pr.tasks, pr.processors;
    var s := Run(pr, tasks);
    var a := AllocationMatrix(s.owner, processors);
    if s.count == tasks {
      var header := [ConfigLine(path), DataLine(true, tasks, processors), AllocationIdLine];
      var lines := header + (if tasks == 0 then [] else RowLines(a));
      assert lines[0] == ConfigLine(path);
      assert |Unlines(lines)| > 0;
      RunCountsPlacedTasks(pr, tasks);
      FullCountPlacesEveryTask(s.owner, tasks);
      RunPlacesOnOpenCells(pr, tasks);
      RunLoadsAreSums(pr, tasks);
      RunKeepsLoadsWithinLimit(pr, tasks);
      forall t | 0 <= t < tasks ensures ColumnOnes(a, t, processors) == 1 {
        AllocationColumnOnes(s.owner, processors, t, processors);
      }
      forall p | 0 <= p < processors
        ensures TableLoad(pr, a, p, tasks) == s.loads[p]
      {
        TableLoadIsAssignedLoad(pr, s.owner, p, tasks);
      }
    }
  }

  /** Whether or not every task was placed, the pass's table has at most
      one 1 per task column, only on open cells with a positive runtime;
      the number of 1s is the placed-task counter, and each processor's
      row adds up to its load, which is 0 or within the duration limit. */
  lemma PassTable(pr: Problem)
    requires pr.Valid()
    ensures var s := Run(pr, pr.tasks);
      var a := AllocationMatrix(s.owner, pr.processors);
      (forall t :: 0 <= t < pr.tasks ==> ColumnOnes(a, t, pr.processors) <= 1) &&
      (forall p, t :: 0 <= p < pr.processors && 0 <= t < pr.tasks && a[p][t] == 1 ==>
        pr.blocked[p][t] == 0 && 0.0 < pr.runtimes[p][t]) &&
      Ones(a, pr.processors, pr.tasks) == s.count &&
      (forall p :: 0 <= p < pr.processors ==>
        TableLoad(pr, a, p, pr.tasks) == s.loads[p] && (s.loads[p] == 0.0 || 0.0 < s.loads[p] <= pr.limit))
  {
    var tasks, processors := pr.tasks, pr.processors;
    var s := Run(pr, tasks);
    var a := AllocationMatrix(s.owner, processors);
    RunPlacesOnOpenCells(pr, tasks);
    RunCountsPlacedTasks(pr, tasks);
    RunLoadsAreSums(pr, tasks);
    RunKeepsLoadsWithinLimit(pr, tasks);
    AllocationOnesArePlacedTasks(s.owner, processors, tasks);
    forall t | 0 <= t < tasks ensures ColumnOnes(a, t, processors) <= 1 {
      AllocationColumnOnes(s.owner, processors, t, processors);
    }
    forall p | 0 <= p < processors ensures TableLoad(pr, a, p, tasks) == s.loads[p] {
      TableLoadIsAssignedLoad(pr, s.owner, p, tasks);
    }
  }

  /** Total runtime of the first k tasks on processor p. */
  function RowRuntime(pr: Problem, p: nat, k: nat): real
    requires pr.Valid() && p < pr.processors && k <= pr.tasks
  {
    if k == 0 then 0.0 else RowRuntime(pr, p, k - 1) + pr.runtimes[p][k - 1]
  }

  /** Nothing stands in the pass's way: no runtime is negative, every
      processor could run all tasks within the duration limit, and every
      task has an open cell with a positive runtime. */
  ghost predicate Unconstrained(pr: Problem)
    requires pr.Valid()
  {
    (forall p, t :: 0 <= p < pr.processors && 0 <= t < pr.tasks ==> 0.0 <= pr.runtimes[p][t]) &&
    (forall p :: 0 <= p < pr.processors ==> RowRuntime(pr, p, pr.tasks) <= pr.limit) &&
    (forall t :: 0 <= t < pr.tasks ==> Placeable(pr, t))
  }

  /** Task t has an open cell with a positive runtime. */
  ghost predicate Placeable(pr: Problem, t: nat)
    requires pr.Valid() && t < pr.tasks
  {
    exists p :: 0 <= p < pr.processors && pr.blocked[p][t] == 0 && 0.0 < pr.runtimes[p][t]
  }

  /** With no negative runtime, the tasks placed on p together with one
      more, unplaced, task t need no more than p's whole row. */
  lemma {:induction false} AssignedLoadWithinRow(pr: Problem, owner: seq<Option<nat>>, p: nat, t: nat, k: nat)
    requires pr.Valid() && |owner| == pr.tasks && p < pr.processors && k <= pr.tasks
    requires t < pr.tasks && owner[t] == None
    requires forall u :: 0 <= u < pr.tasks ==> 0.0 <= pr.runtimes[p][u]
    ensures AssignedLoad(pr, owner, p, k) + (if t < k then pr.runtimes[p][t] else 0.0) <= RowRuntime(pr, p, k)
    decreases k
  {
    if k > 0 {
      AssignedLoadWithinRow(pr, owner, p, t, k - 1);
    }
  }

  /** A step on an unplaced task that has an open cell with a positive
      runtime places it, when each load is the sum of the tasks placed so
      far and no processor's whole row exceeds the limit: that load plus the
      task's runtime stays within the row, hence within the limit. */
  lemma StepPlacesPlaceableTask(pr: Problem, s: Placement, t: nat)
    requires pr.Valid() && Unconstrained(pr) && |s.loads| == pr.processors && |s.owner| == pr.tasks
    requires t < pr.tasks && s.owner[t] == None
    requires forall p :: 0 <= p < pr.processors ==> s.loads[p] == AssignedLoad(pr, s.owner, p, pr.tasks)
    ensures Step(pr, s, t).count == s.count + 1
  {
    assert Placeable(pr, t);
    var p :| 0 <= p < pr.processors && pr.blocked[p][t] == 0 && 0.0 < pr.runtimes[p][t];
    AssignedLoadWithinRow(pr, s.owner, p, t, pr.tasks);
    assert Candidate(pr, s.loads, p, t) > 0.0;
    StepPlacesOnFirstLargestCandidate(pr, s, t);
  }

  /** When nothing stands in its way, the n-th column the pass visits gets its task placed. */
  lemma RunPlacesNextTask(pr: Problem, n: nat)
    requires pr.Valid() && Unconstrained(pr) && 0 < n <= pr.tasks
    ensures Run(pr, n).count == Run(pr, n - 1).count + 1
  {
    RunLeavesLaterColumnsOpen(pr, n - 1);
    RunLoadsAreSums(pr, n - 1);
    StepPlacesPlaceableTask(pr, Run(pr, n - 1), pr.tasks - n);
  }

  /** When nothing stands in its way, each of the first n columns of the
      pass places its task. */
  lemma {:induction false} RunPlacesVisitedTasks(pr: Problem, n: nat)
    requires pr.Valid() && Unconstrained(pr) && n <= pr.tasks
    ensures Run(pr, n).count == n
    decreases n
  {
    if n > 0 {
      RunPlacesVisitedTasks(pr, n - 1);
      RunPlacesNextTask(pr, n);
    }
  }

  /** When nothing stands in its way, the pass places every task: its text
      is the non-empty allocation document of a complete, feasible table. */
  lemma RunPlacesEveryTask(path: string, pr: Problem)
    requires pr.Valid() && Unconstrained(pr)
    ensures Run(pr, pr.tasks).count == pr.tasks
    ensures GreedyText(path, pr) != ""
    ensures CompleteFeasible(pr, AllocationMatrix(Run(pr, pr.tasks).owner, pr.processors))
  {
    RunPlacesVisitedTasks(pr, pr.tasks);
    GreedyTextIsCompleteOrEmpty(path, pr);
  }

  /** `Service.cs` lines 52-58: the runtime vector unflattened, one row per processor. */
  function RuntimeTable(cfg: Config): (rt: seq<seq<real>>)
    requires cfg.Valid()
    ensures IsGrid(rt, cfg.numberOfProcessors, cfg.numberOfTasks)
  {
    seq(cfg.numberOfProcessors, p requires 0 <= p < cfg.numberOfProcessors =>
      seq(cfg.numberOfTasks, t requires 0 <= t < cfg.numberOfTasks => cfg.Runtime(p, t)))
  }

  /** The problem the pass solves for a configuration and a diversified
      blocked-cell table. */
  function GreedyProblem(cfg: Config, m: seq<seq<int>>): (pr: Problem)
    requires cfg.Valid() && IsGrid(m, cfg.numberOfProcessors, cfg.numberOfTasks)
    ensures pr.Valid()
  {
    Problem(RuntimeTable(cfg), m, cfg.maximumProgramDuration, cfg.numberOfProcessors, cfg.numberOfTasks)
  }

  /** `Service.cs` lines 52-58: the runtime vector laid out as a processors x tasks table. */
  method LoadRuntimes(cfg: Config, runtimes: array2<real>)
    requires cfg.Valid()
    requires runtimes.Length0 == cfg.numberOfProcessors && runtimes.Length1 == cfg.numberOfTasks
    modifies runtimes
    ensures forall p, t :: 0 <= p < runtimes.Length0 && 0 <= t < runtimes.Length1 ==>
      runtimes[p, t] == RuntimeTable(cfg)[p][t]
  {
    for row := 0 to cfg.numberOfProcessors
      invariant forall p, t :: 0 <= p < row && 0 <= t < runtimes.Length1 ==> runtimes[p, t] == cfg.Runtime(p, t)
    {
      for column := 0 to cfg.numberOfTasks
        invariant forall p, t :: 0 <= p < runtimes.Length0 && 0 <= t < runtimes.Length1 && (p < row || (p == row && t < column)) ==>
          runtimes[p, t] == cfg.Runtime(p, t)
      {
        RowMajorInRange(row, column, cfg.numberOfProcessors, cfg.numberOfTasks);
        runtimes[row, column] := cfg.runtimes[row * cfg.numberOfTasks + column];
      }
    }
  }

  /** The arrays the pass reads hold the problem: the runtime table, the
      blocked-cell map and the duration limit. */
  ghost predicate Holds(pr: Problem, cfg: Config, blockMap: array2<int>, runtimes: array2<real>)
    reads blockMap, runtimes
  {
    pr.Valid() && pr.limit == cfg.maximumProgramDuration &&
    blockMap.Length0 == pr.processors && blockMap.Length1 == pr.tasks &&
    runtimes.Length0 == pr.processors && runtimes.Length1 == pr.tasks &&
    forall p, t :: 0 <= p < pr.processors && 0 <= t < pr.tasks ==>
      blockMap[p, t] == pr.blocked[p][t] && runtimes[p, t] == pr.runtimes[p][t]
  }

  /** `Service.cs` lines 94-102: writes every processor's candidate value for the column. */
  method ComputeCandidates(cfg: Config, ghost pr: Problem, blockMap: array2<int>, runtimes: array2<real>,
                           totalRuntimes: array<real>, allocatedRuntimes: array2<real>, column: nat)
    requires Holds(pr, cfg, blockMap, runtimes) && column < pr.tasks
    requires allocatedRuntimes.Length0 == pr.processors && allocatedRuntimes.Length1 == pr.tasks
    requires totalRuntimes.Length == pr.processors && allocatedRuntimes != runtimes
    modifies allocatedRuntimes
    ensures forall p :: 0 <= p < pr.processors ==>
      allocatedRuntimes[p, column] == Candidate(pr, totalRuntimes[..], p, column)
    ensures forall p, t :: 0 <= p < pr.processors && 0 <= t < pr.tasks && t != column ==>
      allocatedRuntimes[p, t] == old(allocatedRuntimes[p, t])
  {
    for row := 0 to allocatedRuntimes.Length0
      invariant forall p :: 0 <= p < row ==>
        allocatedRuntimes[p, column] == Candidate(pr, totalRuntimes[..], p, column)
      invariant forall p, t :: 0 <= p < pr.processors && 0 <= t < pr.tasks && t != column ==>
        allocatedRuntimes[p, t] == old(allocatedRuntimes[p, t])
    {
      if blockMap[row, column] == 0 && runtimes[row, column] + totalRuntimes[row] <= cfg.maximumProgramDuration {
        allocatedRuntimes[row, column] := runtimes[row, column];
      } else {
        allocatedRuntimes[row, column] := 0.0;
      }
    }
  }

  /** `Service.cs` lines 104-115: the largest candidate of the column and its processor,
      the lowest row among equal largest candidates, and value 0 with row 0
      when no candidate is positive; this is the search `Winner`. */
  method LargestCandidate(allocatedRuntimes: array2<real>, column: nat, ghost pr: Problem, ghost loads: seq<real>)
    returns (largestRuntime: real, processorNumber: nat)
    requires pr.Valid() && |loads| == pr.processors && column < pr.tasks
    requires allocatedRuntimes.Length0 == pr.processors && allocatedRuntimes.Length1 == pr.tasks
    requires forall p :: 0 <= p < pr.processors ==> allocatedRuntimes[p, column] == Candidate(pr, loads, p, column)
    ensures (largestRuntime, processorNumber) == Winner(pr, loads, column, pr.processors)
    ensures forall r :: 0 <= r < allocatedRuntimes.Length0 ==> allocatedRuntimes[r, column] <= largestRuntime
    ensures largestRuntime > 0.0 ==>
      processorNumber < allocatedRuntimes.Length0 && allocatedRuntimes[processorNumber, column] == largestRuntime &&
      forall r :: 0 <= r < processorNumber ==> allocatedRuntimes[r, column] < largestRuntime
    ensures largestRuntime == 0.0 <==> forall r :: 0 <= r < allocatedRuntimes.Length0 ==> allocatedRuntimes[r, column] <= 0.0
  {
    largestRuntime, processorNumber := 0.0, 0;
    for row := 0 to allocatedRuntimes.Length0
      invariant (largestRuntime, processorNumber) == Winner(pr, loads, column, row)
    {
      if allocatedRuntimes[row, column] > largestRuntime {
        largestRuntime := allocatedRuntimes[row, column];
        processorNumber := row;
      }
    }
    WinnerIsFirstLargest(pr, loads, column, pr.processors);
  }

  /** The arrays of the pass hold placement `s`: the 0/1 allocation table,
      the processor loads and the placed count. */
  ghost predicate Mirrors(pr: Problem, allocation: array2<int>, totalRuntimes: array<real>, placedSoFar: nat, s: Placement)
    reads allocation, totalRuntimes
  {
    |s.owner| == pr.tasks &&
    allocation.Length0 == pr.processors && allocation.Length1 == pr.tasks &&
    (forall p, t :: 0 <= p < pr.processors && 0 <= t < pr.tasks ==>
      allocation[p, t] == if s.owner[t] == Some(p) then 1 else 0) &&
    totalRuntimes[..] == s.loads && placedSoFar == s.count
  }

  /** After the whole pass the allocation array is the allocation table of the placement. */
  lemma MirroredTable(pr: Problem, allocation: array2<int>, totalRuntimes: array<real>, placedSoFar: nat, s: Placement)
    requires Mirrors(pr, allocation, totalRuntimes, placedSoFar, s)
    ensures Grid(allocation) == AllocationMatrix(s.owner, pr.processors)
  {
    var a := AllocationMatrix(s.owner, pr.processors);
    forall p | 0 <= p < pr.processors ensures Grid(allocation)[p] == a[p] {
      assert forall t :: 0 <= t < pr.tasks ==> Grid(allocation)[p][t] == a[p][t];
    }
  }

  /** The placement after one more column is the step from the placement
      before it, and the column it works on is still free. */
  lemma RunNextColumn(pr: Problem, n: nat)
    requires pr.Valid() && n < pr.tasks
    ensures Run(pr, n).owner[pr.tasks - 1 - n] == None
    ensures Run(pr, n + 1) == Step(pr, Run(pr, n), pr.tasks - 1 - n)
  {
    RunLeavesLaterColumnsOpen(pr, n);
  }

  /** `Service.cs` lines 127-132: zeroes the column's candidates except the winner's. */
  method ClearOtherRows(allocatedRuntimes: array2<real>, column: nat, keep: nat)
    requires column < allocatedRuntimes.Length1
    modifies allocatedRuntimes
    ensures forall r :: 0 <= r < allocatedRuntimes.Length0 ==>
      allocatedRuntimes[r, column] == if r == keep then old(allocatedRuntimes[r, column]) else 0.0
    ensures forall r, t :: 0 <= r < allocatedRuntimes.Length0 && 0 <= t < allocatedRuntimes.Length1 && t != column ==>
      allocatedRuntimes[r, t] == old(allocatedRuntimes[r, t])
  {
    for row := 0 to allocatedRuntimes.Length0
      invariant forall r :: 0 <= r < allocatedRuntimes.Length0 ==>
        allocatedRuntimes[r, column] == if r < row && r != keep then 0.0 else old(allocatedRuntimes[r, column])
      invariant forall r, t :: 0 <= r < allocatedRuntimes.Length0 && 0 <= t < allocatedRuntimes.Length1 && t != column ==>
        allocatedRuntimes[r, t] == old(allocatedRuntimes[r, t])
    {
      if row != keep {
        allocatedRuntimes[row, column] := 0.0;
      }
    }
  }

  /** `Service.cs` lines 94-132: one column of the pass on the arrays, taking them from
      placement `s` to the step from `s` on that column. */
  method PlaceColumn(cfg: Config, ghost pr: Problem, blockMap: array2<int>, runtimes: array2<real>,
                     allocation: array2<int>, totalRuntimes: array<real>, allocatedRuntimes: array2<real>,
                     column: nat, placedSoFar: nat, ghost s: Placement) returns (placed: nat)
    requires Holds(pr, cfg, blockMap, runtimes) && column < pr.tasks && 0 < pr.processors
    requires allocatedRuntimes.Length0 == pr.processors && allocatedRuntimes.Length1 == pr.tasks
    requires totalRuntimes.Length == pr.processors && allocatedRuntimes != runtimes
    requires |s.loads| == pr.processors && |s.owner| == pr.tasks && s.owner[column] == None
    requires Mirrors(pr, allocation, totalRuntimes, placedSoFar, s)
    modifies allocation, totalRuntimes, allocatedRuntimes
    ensures Mirrors(pr, allocation, totalRuntimes, placed, Step(pr, s, column))
  {
    ComputeCandidates(cfg, pr, blockMap, runtimes, totalRuntimes, allocatedRuntimes, column);
    var largestRuntime, processorNumber := LargestCandidate(allocatedRuntimes, column, pr, s.loads);

    placed := placedSoFar;
    if largestRuntime == 0.0 {
      allocation[processorNumber, column] := 0;
    } else {
      allocation[processorNumber, column] := 1;
      totalRuntimes[processorNumber] := totalRuntimes[processorNumber] + allocatedRuntimes[processorNumber, column];
      placed := placed + 1;
    }
    ClearOtherRows(allocatedRuntimes, column, processorNumber);
  }

  /** One column of the pass in visiting order: after `visited` columns the
      arrays mirror the step-by-step placement `Run(pr, visited)`, and
      placing the next column makes them mirror `Run(pr, visited + 1)`. */
  method VisitColumn(cfg: Config, ghost pr: Problem, blockMap: array2<int>, runtimes: array2<real>,
                     allocation: array2<int>, totalRuntimes: array<real>, allocatedRuntimes: array2<real>,
                     column: nat, placedSoFar: nat, ghost visited: nat) returns (placed: nat)
    requires Holds(pr, cfg, blockMap, runtimes) && visited < pr.tasks && column == pr.tasks - 1 - visited
    requires allocatedRuntimes.Length0 == pr.processors && allocatedRuntimes.Length1 == pr.tasks
    requires totalRuntimes.Length == pr.processors && allocatedRuntimes != runtimes && 0 < pr.processors
    requires Mirrors(pr, allocation, totalRuntimes, placedSoFar, Run(pr, visited))
    modifies allocation, totalRuntimes, allocatedRuntimes
    ensures Mirrors(pr, allocation, totalRuntimes, placed, Run(pr, visited + 1))
  {
    RunNextColumn(pr, visited);
    placed := PlaceColumn(cfg, pr, blockMap, runtimes, allocation, totalRuntimes, allocatedRuntimes,
                          column, placedSoFar, Run(pr, visited));
  }

  /** The outcome of `GreedyAlgorithm` for the configuration, the random row
      draws and the stopwatch readings (`clock[c]` is the reading taken just
      before column c is handled): the diversification outcome if that
      does not finish; TimedOut if a reading exceeds the deadline; otherwise
      the pass's text. */
  function GreedyOutcome(cfg: Config, draws: seq<nat>, clock: seq<nat>): Outcome<string>
    requires cfg.Valid() && DrawsIn(draws, cfg.numberOfProcessors) && |clock| == cfg.numberOfTasks
  {
    var processors, tasks := cfg.numberOfProcessors, cfg.numberOfTasks;
    var randomised := RandomiseFrom(MemoryMap(cfg), processors, tasks, 0, draws);
    if !randomised.Done? then randomised.PropagateFailure()
    else if exists k :: 0 <= k < tasks && clock[k] > Deadline then TimedOut
    else
      RandomiseFromFrame(MemoryMap(cfg), processors, tasks, 0, draws);
      Done(GreedyText(cfg.filePath, GreedyProblem(cfg, randomised.value)))
  }

  /** `Service.cs` lines 46, 74 and 77: the zero-filled allocation table, processor totals and
      candidate table the pass starts from, which mirror the empty placement. */
  method NewTables(ghost pr: Problem, processors: nat, tasks: nat)
    returns (allocation: array2<int>, totalRuntimes: array<real>, allocatedRuntimes: array2<real>)
    requires pr.Valid() && processors == pr.processors && tasks == pr.tasks
    ensures fresh(allocation) && fresh(totalRuntimes) && fresh(allocatedRuntimes)
    ensures allocatedRuntimes.Length0 == processors && allocatedRuntimes.Length1 == tasks
    ensures totalRuntimes.Length == processors
    ensures Mirrors(pr, allocation, totalRuntimes, 0, Run(pr, 0))
  {
    allocation := new int[processors, tasks]((_, _) => 0);
    totalRuntimes := new real[processors](_ => 0.0);
    allocatedRuntimes := new real[processors, tasks]((_, _) => 0.0);
    assert totalRuntimes[..] == Run(pr, 0).loads;
  }

  /** Once diversification has finished with table `m2`, a non-empty text
      of the pass is the document of a complete, feasible allocation for
      `m2`, and no task in it sits on a processor with less RAM than the
      task needs. */
  lemma GreedyOutcomeIsFeasible(cfg: Config, draws: seq<nat>, clock: seq<nat>, m2: seq<seq<int>>)
    requires cfg.Valid() && DrawsIn(draws, cfg.numberOfProcessors) && |clock| == cfg.numberOfTasks
    requires RandomiseFrom(MemoryMap(cfg), cfg.numberOfProcessors, cfg.numberOfTasks, 0, draws) == Done(m2)
    ensures IsGrid(m2, cfg.numberOfProcessors, cfg.numberOfTasks)
    ensures var out := GreedyOutcome(cfg, draws, clock);
      var pr := GreedyProblem(cfg, m2);
      var a := AllocationMatrix(Run(pr, pr.tasks).owner, pr.processors);
      out.Done? && out.value != "" ==>
        out.value == AllocationDocument(cfg.filePath, pr.tasks, pr.processors, a) &&
        CompleteFeasible(pr, a) &&
        forall p, t :: 0 <= p < pr.processors && 0 <= t < pr.tasks && a[p][t] == 1 ==>
          cfg.taskRam[t] <= cfg.processorRam[p]
  {
    var processors, tasks := cfg.numberOfProcessors, cfg.numberOfTasks;
    RandomiseKeepsBlockedCells(MemoryMap(cfg), processors, tasks, draws);
    var pr := GreedyProblem(cfg, m2);
    GreedyTextIsCompleteOrEmpty(cfg.filePath, pr);
  }

  /** When diversification finishes with table `m2`, no stopwatch reading
      exceeds the deadline and nothing in `m2` stands in the pass's way,
      the allocator answers with a non-empty allocation document. */
  lemma GreedyOutcomePlacesEveryTask(cfg: Config, draws: seq<nat>, clock: seq<nat>, m2: seq<seq<int>>)
    requires cfg.Valid() && DrawsIn(draws, cfg.numberOfProcessors) && |clock| == cfg.numberOfTasks
    requires RandomiseFrom(MemoryMap(cfg), cfg.numberOfProcessors, cfg.numberOfTasks, 0, draws) == Done(m2)
    requires forall k :: 0 <= k < cfg.numberOfTasks ==> clock[k] <= Deadline
    requires IsGrid(m2, cfg.numberOfProcessors, cfg.numberOfTasks) && Unconstrained(GreedyProblem(cfg, m2))
    ensures GreedyOutcome(cfg, draws, clock).Done? && GreedyOutcome(cfg, draws, clock).value != ""
  {
    RunPlacesEveryTask(cfg.filePath, GreedyProblem(cfg, m2));
  }

  /** `Service.cs` lines 84-140: the column pass on fresh arrays, last column first,
      reading the stopwatch (`clock[column]`) before each column. It stops at
      the first reading over the deadline; otherwise it ends with the allocation
      table and the number of placed tasks of the whole pass. */
  method AllocateColumns(cfg: Config, ghost pr: Problem, blockMap: array2<int>, runtimes: array2<real>, clock: seq<nat>)
    returns (timedOut: bool, allocation: array2<int>, placed: nat)
    requires Holds(pr, cfg, blockMap, runtimes) && |clock| == pr.tasks && (0 < pr.tasks ==> 0 < pr.processors)
    ensures fresh(allocation) && allocation.Length0 == pr.processors && allocation.Length1 == pr.tasks
    ensures timedOut <==> exists k :: 0 <= k < pr.tasks && clock[k] > Deadline
    ensures !timedOut ==>
      Grid(allocation) == AllocationMatrix(Run(pr, pr.tasks).owner, pr.processors) &&
      placed == Run(pr, pr.tasks).count
  {
    var tasks := blockMap.Length1;
    var totalRuntimes, allocatedRuntimes;
    allocation, totalRuntimes, allocatedRuntimes := NewTables(pr, blockMap.Length0, tasks);
    placed := 0;

    var column: int := tasks - 1;
    ghost var visited: nat := 0;
    while column > -1
      invariant -1 <= column < tasks && visited == tasks - 1 - column
      invariant forall k :: column < k < tasks ==> clock[k] <= Deadline
      invariant Mirrors(pr, allocation, totalRuntimes, placed, Run(pr, visited))
      modifies allocation, totalRuntimes, allocatedRuntimes
    {
      if clock[column] > Deadline {
        return true, allocation, placed;
      }
      placed := VisitColumn(cfg, pr, blockMap, runtimes, allocation, totalRuntimes, allocatedRuntimes, column, placed, visited);
      column, visited := column - 1, visited + 1;
    }
    MirroredTable(pr, allocation, totalRuntimes, placed, Run(pr, tasks));
    timedOut := false;
  }

  /** `GreedyAlgorithm`: builds the runtime table and the blocked-cell map,
      diversifies it, runs the column-by-column pass on the arrays and
      writes the allocation when every task was placed. */
  method GreedyAlgorithm(cfg: Config, draws: seq<nat>, clock: seq<nat>) returns (outcome: Outcome<string>)
    requires cfg.Valid() && DrawsIn(draws, cfg.numberOfProcessors) && |clock| == cfg.numberOfTasks
    ensures outcome == GreedyOutcome(cfg, draws, clock)
  {
    var processors, tasks := cfg.numberOfProcessors, cfg.numberOfTasks;
    var runtimes := new real[processors, tasks]((_, _) => 0.0);
    var blockMap := new int[processors, tasks]((_, _) => 0);
    LoadRuntimes(cfg, runtimes);
    var status := Diversify(cfg, blockMap, draws);
    if !status.Done? {
      return status.PropagateFailure();
    }
    ghost var pr := GreedyProblem(cfg, Grid(blockMap));
    assert Holds(pr, cfg, blockMap, runtimes);

    var timedOut, allocation, numberOfTasksAllocated := AllocateColumns(cfg, pr, blockMap, runtimes, clock);
    if timedOut {
      return TimedOut;
    }
    var taff := "";
    if numberOfTasksAllocated == tasks {
      taff := TaffFileFormat(allocation, cfg);
    }
    outcome := Done(taff);
  }

  /** `Service.cs` lines 61-68 and 71: the memory-blocking pass on a fresh map followed
      by the diversification; when that finishes, the map holds the
      diversified table, and at least one processor exists if any task does. */
  method Diversify(cfg: Config, blockMap: array2<int>, draws: seq<nat>) returns (status: Outcome<()>)
    requires cfg.Valid() && DrawsIn(draws, cfg.numberOfProcessors)
    requires blockMap.Length0 == cfg.numberOfProcessors && blockMap.Length1 == cfg.numberOfTasks
    requires forall p, t :: 0 <= p < blockMap.Length0 && 0 <= t < blockMap.Length1 ==> blockMap[p, t] == 0
    modifies blockMap
    ensures status == RandomiseFrom(MemoryMap(cfg), cfg.numberOfProcessors, cfg.numberOfTasks, 0, draws).Status()
    ensures !status.Done? ==>
      status.PropagateFailure<string>()
        == RandomiseFrom(MemoryMap(cfg), cfg.numberOfProcessors, cfg.numberOfTasks, 0, draws).PropagateFailure<string>()
    ensures status.Done? ==>
      Grid(blockMap) == RandomiseFrom(MemoryMap(cfg), cfg.numberOfProcessors, cfg.numberOfTasks, 0, draws).value &&
      (0 < cfg.numberOfTasks ==> 0 < cfg.numberOfProcessors)
  {
    var processors, tasks := cfg.numberOfProcessors, cfg.numberOfTasks;
    BlockMemory(cfg, blockMap);
    forall p | 0 <= p < processors ensures Grid(blockMap)[p] == MemoryMap(cfg)[p] {
      assert forall t :: 0 <= t < tasks ==> Grid(blockMap)[p][t] == MemoryMap(cfg)[p][t];
    }
    assert Grid(blockMap) == MemoryMap(cfg);
    status := Randomise(blockMap, processors, tasks, draws);
    if status.Done? {
      RandomiseFromFrame(MemoryMap(cfg), processors, tasks, 0, draws);
    }
  }
}
