/** ExecutorUtil: the size of the fixed thread pool created for a requested number of threads. */
module ExecutorUtil {
  import opened Jdk

  /** MAX_POOL_SIZE. */
  const MaxPoolSize: Int32 := 16

  /** The clamp in `createExecutorService(countThreads)`: at least one thread and at most
      MAX_POOL_SIZE, and the request itself when it lies between. */
  function PoolSize(countThreads: Int32): (poolSize: Int32)
    ensures 1 <= poolSize <= MaxPoolSize
    ensures 1 <= countThreads <= MaxPoolSize ==> poolSize == countThreads
    ensures countThreads < 1 ==> poolSize == 1
    ensures countThreads > MaxPoolSize ==> poolSize == MaxPoolSize
  {
    if countThreads < 1 then 1 else if countThreads > MaxPoolSize then MaxPoolSize else countThreads
  }

  /** Clamping a clamped size changes nothing. */
  lemma PoolSizeIdempotent(countThreads: Int32)
    ensures PoolSize(PoolSize(countThreads)) == PoolSize(countThreads)
  {
  }

  /** Asking for more threads never gives a smaller pool. */
  lemma PoolSizeMonotone(a: Int32, b: Int32)
    requires a <= b
    ensures PoolSize(a) <= PoolSize(b)
  {
  }
}
