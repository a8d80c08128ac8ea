/** What the client libraries keep for the monitor until it is due to be flushed. */
module MonitorCache {
  import opened Collections
  import opened PolicyTypes
  import C = CapacityCache

  const Capacity := 100
  const MaxAge := 120

  datatype Entry = Entry(key: PolicyKey, result: int, seconds: int)

  /** The age is that of the first entry at the moment the last one was added. */
  datatype Log = Log(entries: seq<Entry>, age: int)

  const Empty := Log([], 0)

  predicate ShouldFlush(log: Log) {
    log.entries != [] && (|log.entries| >= Capacity || log.age >= MaxAge)
  }

  /**
   Records a result, where anything but an allowed access counts as denied;
   without a time nothing is recorded.  An entry is never due by itself.
   */
  function Updated(log: Log, key: PolicyKey, result: int, clock: Option<int>): (r: Log)
    ensures log.entries == [] ==> !ShouldFlush(r)
    ensures clock.None? ==> r == log
    ensures clock.Some? ==> |r.entries| == |log.entries| + 1 && log.entries <= r.entries
    ensures clock.Some? && log.entries != [] ==>
              (ShouldFlush(r) <==> |r.entries| >= 100 || clock.value - log.entries[0].seconds >= 120)
  {
    if clock.None? then log
    else
      var entry := Entry(key, if result == C.AccessAllowed then result else C.AccessDenied, clock.value);
      var entries := log.entries + [entry];
      Log(entries, entry.seconds - entries[0].seconds)
  }
}
