/** The worker pool bookkeeping of src/dispatch.rs: handles are started with ids in
    order, all over one shared configuration, and joined in start order. */
module Dispatch {
  import opened Common

  /** How a started task ends, as awaiting its `JoinHandle` reports it: it returned,
      it panicked (a `JoinError`), or it never finishes, so the await never returns. */
  datatype TaskEnd = Returned | Panicked | Pending

  /** The `JoinHandle` of the tokio task started by `W::new(workerId, config).start()`. */
  datatype Handle<C> = Handle(workerId: nat, config: Shared<C>)

  /** What `finish_and_wait` comes to: `Ok(())`, the `Err` of the handle at `position`,
      or no result at all because the handle at `position` never resolves. */
  datatype JoinResult = AllJoined | JoinFailed(position: nat) | WaitsForever(position: nat)

  /** The position of the first of the first `n` tasks that does not return, or `n`. */
  function FirstNotReturned(n: nat, ends: nat -> TaskEnd): (p: nat)
    ensures p <= n
    ensures forall i :: 0 <= i < p ==> ends(i) == Returned
    ensures p < n ==> ends(p) != Returned
  {
    if n == 0 then 0
    else
      var p := FirstNotReturned(n - 1, ends);
      if p < n - 1 || ends(n - 1) != Returned then p else n
  }

  /** Joining `n` handles in start order, stopping at the first that does not return. */
  function JoinInOrder(n: nat, ends: nat -> TaskEnd): JoinResult {
    var p := FirstNotReturned(n, ends);
    if p == n then AllJoined
    else if ends(p) == Panicked then JoinFailed(p)
    else WaitsForever(p)
  }

  /** `Ok(())` exactly when every task returns; otherwise the first task that did not
      decides, and no later handle is awaited. */
  lemma JoinInOrderCharacterised(n: nat, ends: nat -> TaskEnd)
    ensures JoinInOrder(n, ends) == AllJoined <==> forall i :: 0 <= i < n ==> ends(i) == Returned
    ensures JoinInOrder(n, ends).JoinFailed? <==>
      exists p :: 0 <= p < n && ends(p) == Panicked && forall i :: 0 <= i < p ==> ends(i) == Returned
    ensures JoinInOrder(n, ends).WaitsForever? <==>
      exists p :: 0 <= p < n && ends(p) == Pending && forall i :: 0 <= i < p ==> ends(i) == Returned
    ensures !JoinInOrder(n, ends).AllJoined? ==>
      var p := JoinInOrder(n, ends).position;
      p < n && ends(p) != Returned && forall i :: 0 <= i < p ==> ends(i) == Returned
  {
    var p := FirstNotReturned(n, ends);
    forall q | 0 <= q < n && ends(q) != Returned && (forall i :: 0 <= i < q ==> ends(i) == Returned)
      ensures q == p
    {
      JoinFirstFailure(n, ends, q);
    }
  }

  /** The handles `start_workers(threads)` adds: ids 0 to threads-1, one shared config. */
  function StartedHandles<C>(config: Shared<C>, threads: nat): (hs: seq<Handle<C>>)
    ensures |hs| == threads
    ensures forall i :: 0 <= i < threads ==> hs[i].workerId == i && hs[i].config == config
  {
    seq(threads, i requires 0 <= i < threads => Handle(i, config))
  }

  /** `Dispatcher<W>`: the started handles and the configuration they all share. */
  class Dispatcher<C> {
    var workers: seq<Handle<C>>
    const workerConfig: Shared<C>

    /** `Dispatcher::new`: no handles yet; the configuration is wrapped once. */
    constructor (workerConfig: C)
      ensures workers == []
      ensures this.workerConfig.value == workerConfig && fresh(this.workerConfig)
    {
      this.workerConfig := new Shared(workerConfig);
      workers := [];
    }

    /** `start_workers`: starts `threads` workers with ids 0, 1, ... in order, each over
        the shared configuration, after any handles already there. */
    method StartWorkers(threads: nat)
      modifies this
      ensures workers == old(workers) + StartedHandles(workerConfig, threads)
    {
      ghost var before := workers;
      for i := 0 to threads
        invariant workers == before + StartedHandles(workerConfig, i)
      {
        var cfg := workerConfig;
        var task := Handle(i, cfg);
        assert StartedHandles(workerConfig, i + 1) == StartedHandles(workerConfig, i) + [task];
        workers := workers + [task];
      }
    }

    /** `finish_and_wait`: awaits the handles in start order, returning at the first
        `Err`; `ends(i)` is how the i-th handle's tokio task ends. */
    method FinishAndWait(ends: nat -> TaskEnd) returns (r: JoinResult)
      ensures r == JoinInOrder(|workers|, ends)
    {
      for i := 0 to |workers|
        invariant forall j :: 0 <= j < i ==> ends(j) == Returned
      {
        match ends(i)
        case Returned =>
        case Panicked =>
          JoinFirstFailure(|workers|, ends, i);
          return JoinFailed(i);
        case Pending =>
          JoinFirstFailure(|workers|, ends, i);
          return WaitsForever(i);
      }
      JoinInOrderCharacterised(|workers|, ends);
      r := AllJoined;
    }
  }

  lemma JoinFirstFailure(n: nat, ends: nat -> TaskEnd, p: nat)
    requires p < n && ends(p) != Returned
    requires forall i :: 0 <= i < p ==> ends(i) == Returned
    ensures FirstNotReturned(n, ends) == p
  {
  }
}
