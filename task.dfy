/** Task configuration and task handles. */
module Task {
  import opened Errors

  /** Highest priority a task may be given (also the number of levels minus one). */
  const MAX_PRIORITY: nat := 10

  /** Settings for a new task. */
  datatype TaskConfig = TaskConfig(priority: nat)

  /** Handle of a spawned task. In the source its `id` field is private to the
      kernel crate, so only the kernel (through `spawn`) can make one. */
  datatype TaskHandle = TaskHandle(id: nat)

  /** The default configuration: priority 1, a valid user priority. */
  function DefaultConfig(): (c: TaskConfig)
    ensures c.priority == 1
    ensures 1 <= c.priority <= MAX_PRIORITY
  {
    TaskConfig(1)
  }

  /** The configuration with its priority replaced; nothing else changes. */
  function WithPriority(c: TaskConfig, priority: nat): (r: TaskConfig)
    ensures r.priority == priority
    ensures r == c.(priority := priority)
  {
    TaskConfig(priority)
  }

  /** The id the handle was created with. */
  function Id(h: TaskHandle): (id: nat)
    ensures TaskHandle(id) == h
  {
    h.id
  }
}
