/** How a pipeline stage runs: on one worker, or replicated over several. */
module StageKinds {
  datatype StageKind = Sequential | Parallel
}
