/** How large a message may grow (crates/gal-server/src/state.rs:41-61). */
module Limits {
  import opened Deltas

  const MAX_BLIP_UNITS: nat := 256 * 1024
  const MAX_BLIP_RUNS: nat := 16 * 1024

  predicate SmallEnough(doc: seq<Op>) {
    |Content(doc)| <= MAX_BLIP_UNITS && |doc| <= MAX_BLIP_RUNS
  }
}
