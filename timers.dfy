/**
 * The cached length, in blocks, of one EigenTrust iteration round: the
 * epoch duration divided by the number of iterations, both read from the
 * network map contract, kept until the next explicit update.
 */
module Timers {
  import opened GoInts
  import opened Wrappers

  /** A call made on the network map client. */
  datatype Query = IterationsQuery | EpochDurationQuery

  /**
   * The network map client as far as the cache uses it: what its two
   * getters currently answer (the contract's state, or a failure), and a
   * record of the calls made.
   */
  class NetmapClient {
    var iterations: Result<uint64, string>
    var epochDuration: Result<uint64, string>
    var queries: seq<Query>

    constructor(iterations: Result<uint64, string>, epochDuration: Result<uint64, string>)
      ensures this.iterations == iterations && this.epochDuration == epochDuration && queries == []
    {
      this.iterations := iterations;
      this.epochDuration := epochDuration;
      queries := [];
    }

    /** `EigenTrustIterations`. */
    method EigenTrustIterations() returns (r: Result<uint64, string>)
      modifies this
      ensures r == iterations
      ensures queries == old(queries) + [IterationsQuery]
      ensures iterations == old(iterations) && epochDuration == old(epochDuration)
    {
      queries := queries + [IterationsQuery];
      r := iterations;
    }

    /** `EpochDuration`. */
    method EpochDuration() returns (r: Result<uint64, string>)
      modifies this
      ensures r == epochDuration
      ensures queries == old(queries) + [EpochDurationQuery]
      ensures iterations == old(iterations) && epochDuration == old(epochDuration)
    {
      queries := queries + [EpochDurationQuery];
      r := epochDuration;
    }
  }

  /** Go's `uint64` division panics on a zero divisor: the answers `update` can be given. */
  predicate Divisible(iterations: Result<uint64, string>, epochDuration: Result<uint64, string>)
  {
    iterations.Ok? && epochDuration.Ok? ==> iterations.value != 0
  }

  /** The cached value after `update` with these answers: kept on any failure, else the quotient cut to 32 bits. */
  function Updated(val: uint32, iterations: Result<uint64, string>, epochDuration: Result<uint64, string>): uint32
    requires Divisible(iterations, epochDuration)
  {
    if iterations.Err? || epochDuration.Err? then val
    else Uint32(epochDuration.value / iterations.value)
  }

  /** The calls `update` makes: the second getter is asked only when the first answered. */
  function UpdateQueries(iterations: Result<uint64, string>): seq<Query>
  {
    if iterations.Err? then [IterationsQuery] else [IterationsQuery, EpochDurationQuery]
  }

  /** The cached value after `Value`: refreshed only while it is 0. */
  function AfterValue(val: uint32, iterations: Result<uint64, string>, epochDuration: Result<uint64, string>): uint32
    requires val == 0 ==> Divisible(iterations, epochDuration)
  {
    if val == 0 then Updated(val, iterations, epochDuration) else val
  }

  /** `EigenTrustDuration`: the netmap client and the cached value (0: not yet known). */
  class EigenTrustDuration {
    const nm: NetmapClient
    var val: uint32

    /** `NewEigenTrustDuration`: nothing cached yet. */
    constructor(nm: NetmapClient)
      ensures this.nm == nm && val == 0
    {
      this.nm := nm;
      val := 0;
    }

    /**
     * `Value`: the cached value, computed first when it is 0; the client
     * is consulted only then, and the error is always nil.
     */
    method Value() returns (v: uint32, err: Option<string>)
      requires val == 0 ==> Divisible(nm.iterations, nm.epochDuration)
      modifies this, nm
      ensures err.None?
      ensures v == val
      ensures val == AfterValue(old(val), old(nm.iterations), old(nm.epochDuration))
      ensures nm.queries == old(nm.queries) + (if old(val) == 0 then UpdateQueries(nm.iterations) else [])
      ensures nm.iterations == old(nm.iterations) && nm.epochDuration == old(nm.epochDuration)
    {
      if val == 0 {
        Refresh();
      }
      return val, None;
    }

    /** `Update`: recomputes the value whatever is cached. */
    method Update()
      requires Divisible(nm.iterations, nm.epochDuration)
      modifies this, nm
      ensures val == Updated(old(val), old(nm.iterations), old(nm.epochDuration))
      ensures nm.queries == old(nm.queries) + UpdateQueries(nm.iterations)
      ensures nm.iterations == old(nm.iterations) && nm.epochDuration == old(nm.epochDuration)
    {
      Refresh();
    }

    /**
     * `update`: asks for the iteration count, then the epoch duration,
     * and stores their quotient cut to 32 bits; a failing call leaves the
     * value as it was.
     */
    method Refresh()
      requires Divisible(nm.iterations, nm.epochDuration)
      modifies this, nm
      ensures val == Updated(old(val), old(nm.iterations), old(nm.epochDuration))
      ensures nm.queries == old(nm.queries) + UpdateQueries(nm.iterations)
      ensures nm.iterations == old(nm.iterations) && nm.epochDuration == old(nm.epochDuration)
    {
      var iterationAmount := nm.EigenTrustIterations();
      if iterationAmount.Err? {
        return;
      }
      var epochDuration := nm.EpochDuration();
      if epochDuration.Err? {
        return;
      }
      val := Uint32(epochDuration.value / iterationAmount.value);
    }
  }

  /** A failing call leaves the cached value as it was. */
  lemma UpdatedKeepsOnError(val: uint32, iterations: Result<uint64, string>, epochDuration: Result<uint64, string>)
    requires iterations.Err? || epochDuration.Err?
    ensures Updated(val, iterations, epochDuration) == val
  {
  }

  /**
   * On success the value is the quotient modulo 2^32; with a quotient
   * below 2^32 it is the quotient itself, so that many rounds fit the
   * epoch.
   */
  lemma UpdatedQuotient(val: uint32, iterations: uint64, epochDuration: uint64)
    requires iterations != 0
    ensures Updated(val, Ok(iterations), Ok(epochDuration)) == (epochDuration / iterations) % TWO_32
    ensures epochDuration / iterations < TWO_32 ==>
      Updated(val, Ok(iterations), Ok(epochDuration)) * iterations <= epochDuration
  {
  }

  /** The result does not depend on what was cached before. */
  lemma UpdatedForgetsCache(v1: uint32, v2: uint32, iterations: uint64, epochDuration: uint64)
    requires iterations != 0
    ensures Updated(v1, Ok(iterations), Ok(epochDuration)) == Updated(v2, Ok(iterations), Ok(epochDuration))
  {
  }

  /**
   * Once `Value` has left a non-zero value cached, later `Value` calls
   * keep it whatever the client answers by then.
   */
  lemma ValueStable(val: uint32, it1: Result<uint64, string>, ed1: Result<uint64, string>, it2: Result<uint64, string>, ed2: Result<uint64, string>)
    requires val == 0 ==> Divisible(it1, ed1)
    requires AfterValue(val, it1, ed1) != 0
    ensures AfterValue(AfterValue(val, it1, ed1), it2, ed2) == AfterValue(val, it1, ed1)
  {
  }
}
