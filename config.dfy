/** The parsed problem configuration that the allocation service works on,
    and the outcome of a call that may end in one of the exceptions the
    service lets escape. */
module Configuration {

  /** The allocation problem as the configuration parser hands it over:
      processor and task counts, the runtime of every task on every
      processor stored row-major (one row per processor), the RAM each task
      needs and each processor has, and the duration limit per processor. */
  datatype Config = Config(
    filePath: string,
    numberOfProcessors: nat,
    numberOfTasks: nat,
    runtimes: seq<real>,
    taskRam: seq<real>,
    processorRam: seq<real>,
    maximumProgramDuration: real)
  {
    /** The vectors have the lengths the counts announce. */
    predicate Valid() {
      |runtimes| == numberOfProcessors * numberOfTasks &&
      |taskRam| == numberOfTasks &&
      |processorRam| == numberOfProcessors
    }

    /** Runtime of task `t` on processor `p`, read from the row-major vector. */
    function Runtime(p: nat, t: nat): real
      requires Valid() && p < numberOfProcessors && t < numberOfTasks
    {
      RowMajorInRange(p, t, numberOfProcessors, numberOfTasks);
      runtimes[p * numberOfTasks + t]
    }
  }

  /** Cell (p, t) of a rows x columns matrix stored row-major lies inside the vector. */
  lemma RowMajorInRange(p: nat, t: nat, rows: nat, columns: nat)
    requires p < rows && t < columns
    ensures p * columns + t < rows * columns
  {
    calc {
      p * columns + t;
    <
      p * columns + columns;
    ==
      (p + 1) * columns;
    <=
      { assert p + 1 <= rows; }
      rows * columns;
    }
  }

  /** How a call ends: it returns a value, or it escapes with one of the
      exceptions the service can raise, or it is still running when the
      finite prefix of the random stream given to the model is used up. */
  datatype Outcome<+T> =
    | Done(value: T)
    | TimedOut
    | IndexOutOfRange
    | Unfinished
  {
    /** The same outcome with the returned value forgotten. */
    function Status(): Outcome<()> {
      match this
      case Done(_) => Done(())
      case TimedOut => TimedOut
      case IndexOutOfRange => IndexOutOfRange
      case Unfinished => Unfinished
    }

    /** An outcome that is not a return, as an outcome of another type. */
    function PropagateFailure<U>(): (r: Outcome<U>)
      requires !Done?
      ensures r.Status() == Status()
    {
      match this
      case TimedOut => TimedOut
      case IndexOutOfRange => IndexOutOfRange
      case Unfinished => Unfinished
    }
  }

  datatype Option<+T> = None | Some(value: T)
}

/** Two-dimensional tables of cells as sequences of rows, and the view of a
    two-dimensional array as such a table. */
module Grids {

  /** `m` has `rows` rows of `columns` cells each. */
  predicate IsGrid<T>(m: seq<seq<T>>, rows: nat, columns: nat) {
    |m| == rows && forall r :: 0 <= r < rows ==> |m[r]| == columns
  }

  /** The current contents of a two-dimensional array, row by row. */
  function Grid(a: array2<int>): (m: seq<seq<int>>)
    reads a
    ensures IsGrid(m, a.Length0, a.Length1)
    ensures forall r, c :: 0 <= r < a.Length0 && 0 <= c < a.Length1 ==> m[r][c] == a[r, c]
  {
    seq(a.Length0, r requires 0 <= r < a.Length0 reads a =>
      seq(a.Length1, c requires 0 <= c < a.Length1 reads a => a[r, c]))
  }
}
