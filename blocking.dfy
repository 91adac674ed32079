/** The blocked-cell map of one allocation attempt: a processors x tasks
    table where 1 marks a cell the greedy pass may not use. Cells are first
    blocked where the task needs more RAM than the processor has; then the
    diversification step (`Randomise`) blocks one more, still open, cell in
    every task column, chosen by a random row draw. The random stream is a
    parameter: `draws` is the sequence of rows `Random.Next` returns. */
module Blocking {
  import opened Configuration
  import opened Grids

  /** The memory blockMap: cell (p, t) is 1 exactly when task t needs more RAM
      than processor p has, and 0 otherwise. */
  function MemoryMap(cfg: Config): (m: seq<seq<int>>)
    requires cfg.Valid()
    ensures IsGrid(m, cfg.numberOfProcessors, cfg.numberOfTasks)
  {
    seq(cfg.numberOfProcessors, p requires 0 <= p < cfg.numberOfProcessors =>
      seq(cfg.numberOfTasks, t requires 0 <= t < cfg.numberOfTasks =>
        if cfg.taskRam[t] > cfg.processorRam[p] then 1 else 0))
  }

  /** The memory-blocking pass: marks with 1 every cell whose task needs more
      RAM than its processor has and leaves every other cell as it was. */
  method BlockMemory(cfg: Config, blockMap: array2<int>)
    requires cfg.Valid()
    requires blockMap.Length0 == cfg.numberOfProcessors && blockMap.Length1 == cfg.numberOfTasks
    modifies blockMap
    ensures forall p, t :: 0 <= p < blockMap.Length0 && 0 <= t < blockMap.Length1 ==>
      blockMap[p, t] == if cfg.taskRam[t] > cfg.processorRam[p] then 1 else old(blockMap[p, t])
  {
    for row := 0 to cfg.numberOfProcessors
      invariant forall p, t :: 0 <= p < blockMap.Length0 && 0 <= t < blockMap.Length1 ==>
        blockMap[p, t] == if p < row && cfg.taskRam[t] > cfg.processorRam[p] then 1 else old(blockMap[p, t])
    {
      for column := 0 to cfg.numberOfTasks
        invariant forall p, t :: 0 <= p < blockMap.Length0 && 0 <= t < blockMap.Length1 ==>
          blockMap[p, t] == if (p < row || (p == row && t < column)) && cfg.taskRam[t] > cfg.processorRam[p]
                       then 1 else old(blockMap[p, t])
      {
        if cfg.taskRam[column] > cfg.processorRam[row] {
          blockMap[row, column] := 1;
        }
      }
    }
  }

  /** Every draw is a row index, as `Random.Next(0, rows)` returns. */
  predicate DrawsIn(draws: seq<nat>, rows: nat) {
    forall i :: 0 <= i < |draws| ==> draws[i] < rows
  }

  /** `m` with cell (r, c) set to 1. */
  function Block(m: seq<seq<int>>, r: nat, c: nat): seq<seq<int>>
    requires r < |m| && c < |m[r]|
  {
    m[r := m[r][c := 1]]
  }

  /** How the diversification loop ends when it starts at column `c` of
      table `m` with the remaining draws: for each column it takes draws
      until one names an open cell, which it blocks. With no rows the first
      draw is 0 and indexing row 0 raises IndexOutOfRange; when the draws
      run out before a column is served, the loop is still running. */
  function RandomiseFrom(m: seq<seq<int>>, rows: nat, columns: nat, c: nat, draws: seq<nat>): Outcome<seq<seq<int>>>
    requires IsGrid(m, rows, columns) && c <= columns && DrawsIn(draws, rows)
    decreases |draws|
  {
    if c == columns then Done(m)
    else if rows == 0 then IndexOutOfRange
    else if draws == [] then Unfinished
    else if m[draws[0]][c] == 0 then RandomiseFrom(Block(m, draws[0], c), rows, columns, c + 1, draws[1..])
    else RandomiseFrom(m, rows, columns, c, draws[1..])
  }

  /** `Randomise`: for every column, draws random rows until one is open and
      blocks it. The map and the outcome are those of `RandomiseFrom`. */
  method Randomise(blockMap: array2<int>, rows: nat, columns: nat, draws: seq<nat>) returns (status: Outcome<()>)
    requires rows == blockMap.Length0 && columns == blockMap.Length1 && DrawsIn(draws, rows)
    modifies blockMap
    ensures status == RandomiseFrom(old(Grid(blockMap)), rows, columns, 0, draws).Status()
    ensures status.Done? ==> Grid(blockMap) == RandomiseFrom(old(Grid(blockMap)), rows, columns, 0, draws).value
  {
    ghost var outcome := RandomiseFrom(Grid(blockMap), rows, columns, 0, draws);
    var next := 0;
    for column := 0 to columns
      invariant next <= |draws|
      invariant RandomiseFrom(Grid(blockMap), rows, columns, column, draws[next..]) == outcome
    {
      var count := 0;
      while count < 1
        invariant 0 <= count <= 1 && next <= |draws|
        invariant count == 0 ==> RandomiseFrom(Grid(blockMap), rows, columns, column, draws[next..]) == outcome
        invariant count == 1 ==> RandomiseFrom(Grid(blockMap), rows, columns, column + 1, draws[next..]) == outcome
        decreases 1 - count, |draws| - next
      {
        if rows == 0 {
          // Random.Next(0, 0) returns 0, and blockMap[0, column] is outside the array.
          return IndexOutOfRange;
        }
        if next == |draws| {
          return Unfinished;
        }
        var randomRow := draws[next];
        assert draws[next..][1..] == draws[next + 1..];
        next := next + 1;
        if blockMap[randomRow, column] == 0 {
          ghost var before := Grid(blockMap);
          blockMap[randomRow, column] := 1;
          forall r | 0 <= r < rows
            ensures Grid(blockMap)[r] == Block(before, randomRow, column)[r]
          {
            assert forall k :: 0 <= k < columns ==> Grid(blockMap)[r][k] == Block(before, randomRow, column)[r][k];
          }
          assert Grid(blockMap) == Block(before, randomRow, column);
          count := count + 1;
        }
      }
    }
    status := Done(());
  }

  /** Column k of `m2` is column k of `m` with exactly one open cell of `m`
      blocked: previously blocked cells stay blocked and no other cell changes. */
  ghost predicate BlocksExactlyOne(m: seq<seq<int>>, m2: seq<seq<int>>, rows: nat, k: nat)
    requires |m| == rows && |m2| == rows && forall r :: 0 <= r < rows ==> k < |m[r]| && k < |m2[r]|
  {
    exists r :: 0 <= r < rows && m[r][k] == 0 && m2[r][k] == 1 &&
      forall q :: 0 <= q < rows && q != r ==> m2[q][k] == m[q][k]
  }

  /** Columns before `c` are left alone, the table keeps its shape, and a
      finished loop had at least one row unless there was no column left. */
  lemma {:induction false} RandomiseFromFrame(m: seq<seq<int>>, rows: nat, columns: nat, c: nat, draws: seq<nat>)
    requires IsGrid(m, rows, columns) && c <= columns && DrawsIn(draws, rows)
    requires RandomiseFrom(m, rows, columns, c, draws).Done?
    ensures var m2 := RandomiseFrom(m, rows, columns, c, draws).value;
      IsGrid(m2, rows, columns) &&
      (c < columns ==> 0 < rows) &&
      forall r, k :: 0 <= r < rows && 0 <= k < c ==> m2[r][k] == m[r][k]
    decreases |draws|
  {
    if c < columns {
      var d := draws[0];
      if m[d][c] == 0 {
        RandomiseFromFrame(Block(m, d, c), rows, columns, c + 1, draws[1..]);
      } else {
        RandomiseFromFrame(m, rows, columns, c, draws[1..]);
      }
    }
  }

  /** When the loop finishes, every column from `c` on has exactly one more
      blocked cell, one that was open before. */
  lemma {:induction false} RandomiseFromBlocksOnePerColumn(m: seq<seq<int>>, rows: nat, columns: nat, c: nat, draws: seq<nat>)
    requires IsGrid(m, rows, columns) && c <= columns && DrawsIn(draws, rows)
    requires RandomiseFrom(m, rows, columns, c, draws).Done?
    ensures var m2 := RandomiseFrom(m, rows, columns, c, draws).value;
      IsGrid(m2, rows, columns) &&
      forall k :: c <= k < columns ==> BlocksExactlyOne(m, m2, rows, k)
    decreases |draws|
  {
    RandomiseFromFrame(m, rows, columns, c, draws);
    if c < columns {
      var m2 := RandomiseFrom(m, rows, columns, c, draws).value;
      var d := draws[0];
      if m[d][c] == 0 {
        var m1 := Block(m, d, c);
        RandomiseFromBlocksOnePerColumn(m1, rows, columns, c + 1, draws[1..]);
        RandomiseFromFrame(m1, rows, columns, c + 1, draws[1..]);
        assert m2[d][c] == 1;
        forall k | c <= k < columns ensures BlocksExactlyOne(m, m2, rows, k) {
          if k == c {
            assert forall q :: 0 <= q < rows && q != d ==> m2[q][k] == m1[q][k] == m[q][k];
          } else {
            assert BlocksExactlyOne(m1, m2, rows, k);
            var r :| 0 <= r < rows && m1[r][k] == 0 && m2[r][k] == 1 &&
              forall q :: 0 <= q < rows && q != r ==> m2[q][k] == m1[q][k];
            assert m[r][k] == 0;
          }
        }
      } else {
        RandomiseFromBlocksOnePerColumn(m, rows, columns, c, draws[1..]);
      }
    }
  }

  /** Diversification only adds blocks: a cell blocked before the loop is
      still blocked when it finishes. */
  lemma RandomiseKeepsBlockedCells(m: seq<seq<int>>, rows: nat, columns: nat, draws: seq<nat>)
    requires IsGrid(m, rows, columns) && DrawsIn(draws, rows)
    requires RandomiseFrom(m, rows, columns, 0, draws).Done?
    ensures var m2 := RandomiseFrom(m, rows, columns, 0, draws).value;
      IsGrid(m2, rows, columns) &&
      forall r, k :: 0 <= r < rows && 0 <= k < columns && m[r][k] != 0 ==> m2[r][k] == m[r][k]
  {
    var m2 := RandomiseFrom(m, rows, columns, 0, draws).value;
    RandomiseFromBlocksOnePerColumn(m, rows, columns, 0, draws);
    forall r, k | 0 <= r < rows && 0 <= k < columns && m[r][k] != 0 ensures m2[r][k] == m[r][k] {
      assert BlocksExactlyOne(m, m2, rows, k);
      var d :| 0 <= d < rows && m[d][k] == 0 && m2[d][k] == 1 &&
        forall q :: 0 <= q < rows && q != d ==> m2[q][k] == m[q][k];
    }
  }

  /** A column with no open cell from `c` on can never be served: whatever
      the draws, the loop does not finish. */
  lemma {:induction false} FullColumnNeverFinishes(m: seq<seq<int>>, rows: nat, columns: nat, c: nat, draws: seq<nat>, k: nat)
    requires IsGrid(m, rows, columns) && c <= k < columns && DrawsIn(draws, rows)
    requires forall r :: 0 <= r < rows ==> m[r][k] != 0
    ensures !RandomiseFrom(m, rows, columns, c, draws).Done?
    decreases |draws|
  {
    if rows > 0 && draws != [] {
      var d := draws[0];
      if m[d][c] == 0 {
        FullColumnNeverFinishes(Block(m, d, c), rows, columns, c + 1, draws[1..], k);
      } else {
        FullColumnNeverFinishes(m, rows, columns, c, draws[1..], k);
      }
    }
  }

  /** Draws that name an open cell of each column in turn make the loop
      finish at once, blocking exactly those cells. */
  lemma {:induction false} OpenChoicesFinish(m: seq<seq<int>>, rows: nat, columns: nat, c: nat, choice: seq<nat>)
    requires IsGrid(m, rows, columns) && c <= columns && DrawsIn(choice, rows)
    requires |choice| == columns - c
    requires forall i :: 0 <= i < |choice| ==> m[choice[i]][c + i] == 0
    ensures RandomiseFrom(m, rows, columns, c, choice).Done?
    ensures IsGrid(RandomiseFrom(m, rows, columns, c, choice).value, rows, columns)
    ensures forall i :: 0 <= i < |choice| ==> RandomiseFrom(m, rows, columns, c, choice).value[choice[i]][c + i] == 1
    decreases |choice|
  {
    if c < columns {
      var d := choice[0];
      var m1 := Block(m, d, c);
      OpenChoicesFinish(m1, rows, columns, c + 1, choice[1..]);
      RandomiseFromFrame(m1, rows, columns, c + 1, choice[1..]);
      var m2 := RandomiseFrom(m1, rows, columns, c + 1, choice[1..]).value;
      forall i | 0 <= i < |choice| ensures m2[choice[i]][c + i] == 1 {
        if i > 0 {
          assert choice[1..][i - 1] == choice[i];
        }
      }
    }
  }

  /** Column k of `m` has an open (0) cell among its first `rows` rows. */
  ghost predicate HasOpenCell(m: seq<seq<int>>, rows: nat, k: nat) {
    exists r :: 0 <= r < rows && r < |m| && k < |m[r]| && m[r][k] == 0
  }

  ghost function OpenRow(m: seq<seq<int>>, rows: nat, k: nat): (r: nat)
    requires HasOpenCell(m, rows, k)
    ensures r < rows && r < |m| && k < |m[r]| && m[r][k] == 0
  {
    var r :| 0 <= r < rows && r < |m| && k < |m[r]| && m[r][k] == 0; r
  }

  /** The diversification loop can finish exactly when every column has an
      open cell: with a fully blocked column it draws forever, whatever the
      random stream; otherwise some stream serves every column. */
  lemma RandomiseTerminationIff(m: seq<seq<int>>, rows: nat, columns: nat)
    requires IsGrid(m, rows, columns)
    ensures (exists draws :: DrawsIn(draws, rows) && RandomiseFrom(m, rows, columns, 0, draws).Done?)
        <==> forall k :: 0 <= k < columns ==> HasOpenCell(m, rows, k)
  {
    if forall k :: 0 <= k < columns ==> HasOpenCell(m, rows, k) {
      var choice := seq(columns, k requires 0 <= k < columns => OpenRow(m, rows, k));
      OpenChoicesFinish(m, rows, columns, 0, choice);
    } else {
      var k :| 0 <= k < columns && !HasOpenCell(m, rows, k);
      forall draws | DrawsIn(draws, rows) ensures !RandomiseFrom(m, rows, columns, 0, draws).Done? {
        FullColumnNeverFinishes(m, rows, columns, 0, draws, k);
      }
    }
  }

  /** The loop raises IndexOutOfRange exactly when there is a column to
      serve but no row to draw. */
  lemma {:induction false} RandomiseIndexOutOfRangeIff(m: seq<seq<int>>, rows: nat, columns: nat, c: nat, draws: seq<nat>)
    requires IsGrid(m, rows, columns) && c <= columns && DrawsIn(draws, rows)
    ensures RandomiseFrom(m, rows, columns, c, draws) == IndexOutOfRange <==> rows == 0 && c < columns
    decreases |draws|
  {
    if c < columns && rows > 0 && draws != [] {
      var d := draws[0];
      if m[d][c] == 0 {
        RandomiseIndexOutOfRangeIff(Block(m, d, c), rows, columns, c + 1, draws[1..]);
      } else {
        RandomiseIndexOutOfRangeIff(m, rows, columns, c, draws[1..]);
      }
    }
  }
}
