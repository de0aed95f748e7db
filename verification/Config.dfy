/** src/config.rs. */
module Config {
  const LEASE_DURATION_SECS: nat := 40
  const LEASE_RENEW_PERIOD_SECS: nat := 10
  const STATUS_UPDATE_PERIOD_SECS: nat := 300
  const MEMORY_PRESSURE_FREE_BYTES: nat := 20 * 1024
  const HEAP_TOTAL_BYTES: nat := (64 + 36) * 1024
  const VIBES_CURSED_RECONNECTS: nat := 3
  const CAFFEINATED_FRESH_SECS: nat := 600
  const HAUNTED_SLIP_SECS: nat := 5
}
