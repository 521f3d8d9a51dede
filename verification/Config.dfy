/** The sizes several parts of the client and the worker share. */
module Config {
  const MACHINES: nat := 4

  /** Operations in a client's batch, and at most so many of them for one machine in a round. */
  const BATCH: nat := 600
  const KVS_BATCH: nat := 100

  /** Remote requests in a round. */
  const WINDOW: nat := 512

  /** Operations a worker can hold between two drains. */
  const WORKER_MAX_BATCH: nat := KVS_BATCH * MACHINES
}
