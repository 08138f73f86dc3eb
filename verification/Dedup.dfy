/** Request deduplication: `reserve`, `complete` and `sweep_dedup` of `src/attention/ledger.rs`. */
module Dedup {
  import opened AttentionTypes

  predicate EntryExpired(entry: DedupEntry, now: nat) {
    match entry.state
    case InFlight(reservedAt, _) => IsExpired(reservedAt, RESERVATION_TIMEOUT, now)
    case Done(doneAt, _) => IsExpired(doneAt, DEDUP_TTL, now)
  }

  function Reserve(t: DedupTable, key: DedupKey, payloadHash: nat, now: nat): (DedupTable, ReserveResult) {
    if key in t.entries && !EntryExpired(t.entries[key], now) then
      var entry := t.entries[key];
      (t,
       if entry.payloadHash != payloadHash then KeyConflict
       else if entry.state.InFlight? then Busy
       else Replay(entry.state.outcome))
    else
      (DedupTable(t.nextGeneration + 1, t.entries[key := DedupEntry(payloadHash, InFlight(now, t.nextGeneration))]),
       Reserved(t.nextGeneration))
  }

  function Complete(
    t: DedupTable, key: DedupKey, generation: nat, outcome: DedupOutcome, now: nat): (DedupTable, bool) {
    if key in t.entries && t.entries[key].state.InFlight? && t.entries[key].state.generation == generation then
      (t.(entries := t.entries[key := t.entries[key].(state := Done(now, outcome))]), true)
    else
      (t, false)
  }

  function Sweep(t: DedupTable, now: nat): DedupTable {
    t.(entries := map key | key in t.entries && !EntryExpired(t.entries[key], now) :: t.entries[key])
  }
}
