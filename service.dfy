/** The service's entry point (`GenerateAllocations`): it runs the greedy
    allocator on an already parsed configuration, asks the allocation
    reader whether the resulting text is a valid allocation, and answers
    with that text or, when the reader reports errors, with the
    "no allocation" document. The reader (`Allocations.TryParse`) is not
    part of this model; it enters as the predicate `accepts`, true exactly
    when the reader reports no errors. */
module Service {
  import opened Configuration
  import opened Grids
  import opened Blocking
  import opened Taff
  import opened Greedy

  /** The answer chosen for a text the allocator produced. */
  function Respond(cfg: Config, taff: string, accepts: string -> bool): string {
    if accepts(taff) then taff else ZeroAllocations(cfg)
  }

  /** The outcome of a request: the allocator's failure if it has one,
      otherwise the chosen answer. */
  function ServiceOutcome(cfg: Config, draws: seq<nat>, clock: seq<nat>, accepts: string -> bool): Outcome<string>
    requires cfg.Valid() && DrawsIn(draws, cfg.numberOfProcessors) && |clock| == cfg.numberOfTasks
  {
    var greedy := GreedyOutcome(cfg, draws, clock);
    if greedy.Done? then Done(Respond(cfg, greedy.value, accepts)) else greedy
  }

  /** `Service.cs` lines 29-39: the allocator's text is returned when the reader accepts
      it and the "no allocation" document otherwise; a failure of the
      allocator (a timeout, an index error) ends the request. */
  method GenerateAllocations(cfg: Config, draws: seq<nat>, clock: seq<nat>, accepts: string -> bool)
    returns (result: Outcome<string>)
    requires cfg.Valid() && DrawsIn(draws, cfg.numberOfProcessors) && |clock| == cfg.numberOfTasks
    ensures result == ServiceOutcome(cfg, draws, clock, accepts)
    ensures result.Done? ==>
      result.value == ZeroAllocations(cfg) || result.value == GreedyOutcome(cfg, draws, clock).value
  {
    var taff := GreedyAlgorithm(cfg, draws, clock);
    if !taff.Done? {
      return taff;
    }
    if accepts(taff.value) {
      result := Done(taff.value);
    } else {
      result := Done(ZeroAllocations(cfg));
    }
  }

  /** A finished request can always be read back, provided the reader
      rejects the empty text (an incomplete pass) and the configuration
      path has no line break: the answer names the configuration file and
      both counts, and either carries the pass's complete, feasible
      allocation for the diversified table `m2`, placing no task on a
      processor with too little RAM, or is the "no allocation" document. */
  lemma ResponseIsReadable(cfg: Config, draws: seq<nat>, clock: seq<nat>, accepts: string -> bool, m2: seq<seq<int>>)
    requires cfg.Valid() && DrawsIn(draws, cfg.numberOfProcessors) && |clock| == cfg.numberOfTasks
    requires '\n' !in cfg.filePath && !accepts("")
    requires RandomiseFrom(MemoryMap(cfg), cfg.numberOfProcessors, cfg.numberOfTasks, 0, draws) == Done(m2)
    requires ServiceOutcome(cfg, draws, clock, accepts).Done?
    ensures IsGrid(m2, cfg.numberOfProcessors, cfg.numberOfTasks)
    ensures var answer := ServiceOutcome(cfg, draws, clock, accepts).value;
      var pr := GreedyProblem(cfg, m2);
      var a := AllocationMatrix(Run(pr, pr.tasks).owner, pr.processors);
      var doc := ParseDocument(answer);
      doc.Some? && doc.value.configFile == cfg.filePath &&
      doc.value.tasks == cfg.numberOfTasks && doc.value.processors == cfg.numberOfProcessors &&
      (doc.value.hasAllocation ==>
        doc.value.rows == (if pr.tasks == 0 then [] else a) && CompleteFeasible(pr, a) &&
        forall p, t :: 0 <= p < pr.processors && 0 <= t < pr.tasks && a[p][t] == 1 ==>
          cfg.taskRam[t] <= cfg.processorRam[p]) &&
      (!doc.value.hasAllocation ==> answer == ZeroAllocations(cfg))
  {
    var processors, tasks := cfg.numberOfProcessors, cfg.numberOfTasks;
    GreedyOutcomeIsFeasible(cfg, draws, clock, m2);
    var pr := GreedyProblem(cfg, m2);
    var a := AllocationMatrix(Run(pr, pr.tasks).owner, pr.processors);
    var text := GreedyOutcome(cfg, draws, clock).value;
    if accepts(text) {
      assert text != "";
      AllocationDocumentRoundTrip(cfg.filePath, tasks, processors, a);
    } else {
      ZeroAllocationsRoundTrip(cfg);
    }
  }
}
