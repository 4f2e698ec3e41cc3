/**
 * The helpers of the object delete service: heading an address,
 * classifying the head of the target into header or split information,
 * the steps of the walk over a split object (its children from the
 * linking object, the previous part of a part), the search for the parts
 * sharing a split ID, and putting the tombstone. The head, search and
 * put services behind them are oracles: a head service is a function
 * from request to answer, a search service answers with the batches of
 * IDs it hands to the writer, a put streamer with the outcome of each
 * step.
 */
module DeleteUtil {
  import opened GoInts
  import opened Wrappers

  // ------------------------------------------------------------ objects

  datatype ObjectId = ObjectId(bytes: seq<uint8>)
  datatype ContainerId = ContainerId(bytes: seq<uint8>)

  /** An object address: a container and an object within it (the object part may be unset). */
  datatype Address = Address(container: ContainerId, objectId: Option<ObjectId>)

  /** The request's common parameters (TTL, session and bearer tokens, key), passed on as they are. */
  datatype CommonPrm = CommonPrm(value: seq<uint8>)

  /** What a `SplitInfoError` carries: the split ID and, when known, the linking and the last part. */
  datatype SplitInfo = SplitInfo(splitId: seq<uint8>, link: Option<ObjectId>, lastPart: Option<ObjectId>)

  /** The parts of an object the helpers look at; `header` stands for the rest of the header. */
  datatype Object = Object(header: seq<uint8>, previousId: Option<ObjectId>, children: seq<ObjectId>, payload: seq<uint8>)

  /** `CutPayload`: the same object with no payload. */
  function CutPayload(o: Object): Object
  {
    o.(payload := [])
  }

  /** What the delete execution hands to the helpers. */
  datatype ExecCtx = ExecCtx(common: CommonPrm, address: Address, splitInfo: SplitInfo, tombstone: Object)

  /** `exec.newAddress(id)`: the execution's container with the given object. */
  function NewAddress(exec: ExecCtx, id: Option<ObjectId>): Address
  {
    Address(exec.address.container, id)
  }

  // ------------------------------------------------------------ head

  /** A head request: the common parameters, the raw flag and the address. */
  datatype HeadPrm = HeadPrm(common: CommonPrm, raw: bool, address: Address)

  /** A head failure: split information for a virtual object, or any other error. */
  datatype HeadError = SplitInfoError(info: SplitInfo) | HeadFailure(reason: string)

  /**
   * `headAddress`: a raw head of exactly the given address with the
   * execution's common parameters; the headed object, or the error as it
   * came.
   */
  function HeadAddress(head: HeadPrm -> Result<Object, HeadError>, exec: ExecCtx, addr: Address): (r: Result<Object, HeadError>)
    ensures r == head(HeadPrm(exec.common, true, addr))
  {
    var p := HeadPrm(exec.common, true, addr);
    head(p)
  }

  /**
   * The head answers only one question: oracles that agree on the raw
   * head of `addr` with the execution's common parameters give the same
   * result, whatever they answer for any other request.
   */
  lemma HeadAddressAsksOnlyRawHead(head1: HeadPrm -> Result<Object, HeadError>, head2: HeadPrm -> Result<Object, HeadError>, exec: ExecCtx, addr: Address)
    requires head1(HeadPrm(exec.common, true, addr)) == head2(HeadPrm(exec.common, true, addr))
    ensures HeadAddress(head1, exec, addr) == HeadAddress(head2, exec, addr)
  {
  }

  /**
   * `splitInfo`: the head of the target address classified. A header
   * means an ordinary object (no split information); a split-info error
   * yields its information; any other error is returned.
   */
  function SplitInfoOf(head: HeadPrm -> Result<Object, HeadError>, exec: ExecCtx): (r: Result<Option<SplitInfo>, HeadError>)
    ensures var h := head(HeadPrm(exec.common, true, exec.address));
      && (h.Ok? ==> r == Ok(None))
      && (h.Err? && h.error.SplitInfoError? ==> r == Ok(Some(h.error.info)))
      && (h.Err? && h.error.HeadFailure? ==> r == Err(h.error))
  {
    match HeadAddress(head, exec, exec.address)
    case Ok(_) => Ok(None)
    case Err(SplitInfoError(info)) => Ok(Some(info))
    case Err(e) => Err(e)
  }

  /** A split-info failure is never passed on: whatever `splitInfo` returns as an error is some other failure. */
  lemma SplitInfoErrorsAreOther(head: HeadPrm -> Result<Object, HeadError>, exec: ExecCtx)
    ensures SplitInfoOf(head, exec).Err? ==> SplitInfoOf(head, exec).error.HeadFailure?
    ensures SplitInfoOf(head, exec).Ok? <==>
      (head(HeadPrm(exec.common, true, exec.address)).Ok? || head(HeadPrm(exec.common, true, exec.address)).error.SplitInfoError?)
  {
  }

  /**
   * `children`: the child list of the linking object named by the split
   * information, or the head error.
   */
  function Children(head: HeadPrm -> Result<Object, HeadError>, exec: ExecCtx): (r: Result<seq<ObjectId>, HeadError>)
    ensures var h := head(HeadPrm(exec.common, true, NewAddress(exec, exec.splitInfo.link)));
      && (r.Ok? <==> h.Ok?)
      && (r.Ok? ==> r.value == h.value.children)
      && (r.Err? ==> r.error == h.error)
  {
    var a := NewAddress(exec, exec.splitInfo.link);
    match HeadAddress(head, exec, a)
    case Err(e) => Err(e)
    case Ok(linking) => Ok(linking.children)
  }

  /** `previous(id)`: the previous-part ID in the header of the part id, or the head error. */
  function Previous(head: HeadPrm -> Result<Object, HeadError>, exec: ExecCtx, id: ObjectId): (r: Result<Option<ObjectId>, HeadError>)
    ensures var h := head(HeadPrm(exec.common, true, NewAddress(exec, Some(id))));
      && (r.Ok? <==> h.Ok?)
      && (r.Ok? ==> r.value == h.value.previousId)
      && (r.Err? ==> r.error == h.error)
  {
    var a := NewAddress(exec, Some(id));
    match HeadAddress(head, exec, a)
    case Err(e) => Err(e)
    case Ok(h) => Ok(h.previousId)
  }

  // ------------------------------------------------------------ search

  /** The batches of IDs written one after another, in order. */
  function Flatten(batches: seq<seq<ObjectId>>): seq<ObjectId>
  {
    if |batches| == 0 then [] else Flatten(batches[..|batches| - 1]) + batches[|batches| - 1]
  }

  /** Flattening two runs of batches is flattening each and concatenating. */
  lemma {:induction false} FlattenAppend(a: seq<seq<ObjectId>>, b: seq<seq<ObjectId>>)
    ensures Flatten(a + b) == Flatten(a) + Flatten(b)
    decreases |b|
  {
    if |b| > 0 {
      var b' := b[..|b| - 1];
      assert (a + b)[..|a + b| - 1] == a + b';
      assert (a + b)[|a + b| - 1] == b[|b| - 1];
      FlattenAppend(a, b');
      assert Flatten(a + b) == Flatten(a + b') + b[|b| - 1];
      assert Flatten(b) == Flatten(b') + b[|b| - 1];
    } else {
      assert a + b == a;
    }
  }

  /** An ID is kept exactly when some batch held it. */
  lemma {:induction false} FlattenMembers(batches: seq<seq<ObjectId>>, id: ObjectId)
    ensures id in Flatten(batches) <==> exists k :: 0 <= k < |batches| && id in batches[k]
    decreases |batches|
  {
    if |batches| > 0 {
      var init := batches[..|batches| - 1];
      FlattenMembers(init, id);
      if id in Flatten(batches) && id !in batches[|batches| - 1] {
        var k :| 0 <= k < |init| && id in init[k];
        assert batches[k] == init[k];
      }
      if exists k :: 0 <= k < |batches| && id in batches[k] {
        var k :| 0 <= k < |batches| && id in batches[k];
        if k < |init| {
          assert init[k] == batches[k];
        }
      }
    }
  }

  datatype MatchType = MatchStringEqual | MatchStringNotEqual | MatchNotPresent | MatchCommonPrefix

  /** A search filter on an object header: a key, a match and a value. */
  datatype SearchFilter = SearchFilter(key: string, op: MatchType, value: seq<uint8>)

  /** The header key of the split ID, as the object library names it. */
  const SplitIdFilterKey := "$Object:split.splitID"

  /** A search request: the common parameters, the container and the filters. */
  datatype SearchPrm = SearchPrm(common: CommonPrm, container: ContainerId, filters: seq<SearchFilter>)

  /** What a search does for one request: the batches it hands to the writer, then its result. */
  datatype SearchRun = SearchRun(batches: seq<seq<ObjectId>>, err: Option<string>)

  /** `simpleIDWriter`: collects every ID written to it. */
  class SimpleIdWriter {
    var ids: seq<ObjectId>

    constructor()
      ensures ids == []
    {
      ids := [];
    }

    /** `WriteIDs`: the batch after what was already written, in its order; never fails. */
    method WriteIDs(batch: seq<ObjectId>) returns (err: Option<string>)
      modifies this
      ensures ids == old(ids) + batch
      ensures err.None?
    {
      ids := ids + batch;
      err := None;
    }
  }

  /** The request `splitMembers` sends: the execution's container, one string-equal filter on the split ID. */
  function SplitMembersPrm(exec: ExecCtx): (p: SearchPrm)
  {
    SearchPrm(exec.common, exec.address.container, [SearchFilter(SplitIdFilterKey, MatchStringEqual, exec.splitInfo.splitId)])
  }

  /**
   * `splitMembers`: searches the execution's container for the parts
   * whose split ID equals the recorded one, collecting what the search
   * writes; every written ID in write order, or the search error.
   */
  method SplitMembers(search: SearchPrm -> SearchRun, exec: ExecCtx) returns (r: Result<seq<ObjectId>, string>)
    ensures var run := search(SplitMembersPrm(exec));
      && (run.err.Some? ==> r == Err(run.err.value))
      && (run.err.None? ==> r == Ok(Flatten(run.batches)))
  {
    var wr := new SimpleIdWriter();
    var run := search(SplitMembersPrm(exec));
    var k := 0;
    while k < |run.batches|
      invariant 0 <= k <= |run.batches|
      invariant wr.ids == Flatten(run.batches[..k])
    {
      assert run.batches[..k + 1][..k] == run.batches[..k];
      var _ := wr.WriteIDs(run.batches[k]);
      k := k + 1;
    }
    assert run.batches[..k] == run.batches;
    if run.err.Some? {
      return Err(run.err.value);
    }
    return Ok(wr.ids);
  }

  /**
   * The search request carries exactly the common parameters, the
   * container and the split ID of the execution: two executions send the
   * same request if and only if they agree on those three.
   */
  lemma SplitMembersPrmDeterminedBy(e1: ExecCtx, e2: ExecCtx)
    ensures SplitMembersPrm(e1) == SplitMembersPrm(e2)
      <==> e1.common == e2.common && e1.address.container == e2.address.container && e1.splitInfo.splitId == e2.splitInfo.splitId
  {
    if SplitMembersPrm(e1) == SplitMembersPrm(e2) {
      assert SplitMembersPrm(e1).filters[0] == SplitMembersPrm(e2).filters[0];
    }
  }

  // ------------------------------------------------------------ put

  /** The placement option that stops counting successful copies. */
  datatype TraverseOption = WithoutSuccessTracking

  /** The first message of a put stream: common parameters, the header object and placement options. */
  datatype PutInitPrm = PutInitPrm(common: CommonPrm, obj: Object, traverseOptions: seq<TraverseOption>)

  /** One call made on a put streamer. */
  datatype StreamCall = InitCall(prm: PutInitPrm) | ChunkCall(chunk: seq<uint8>) | CloseCall

  /**
   * A put stream whose steps answer as fixed in advance; `calls` records
   * the calls it received.
   */
  class PutStreamer {
    var calls: seq<StreamCall>
    const initErr: Option<string>
    const chunkErr: Option<string>
    const closeResult: Result<ObjectId, string>

    constructor(initErr: Option<string>, chunkErr: Option<string>, closeResult: Result<ObjectId, string>)
      ensures calls == []
      ensures this.initErr == initErr && this.chunkErr == chunkErr && this.closeResult == closeResult
    {
      calls := [];
      this.initErr := initErr;
      this.chunkErr := chunkErr;
      this.closeResult := closeResult;
    }

    method Init(p: PutInitPrm) returns (err: Option<string>)
      modifies this
      ensures calls == old(calls) + [InitCall(p)]
      ensures err == initErr
    {
      calls := calls + [InitCall(p)];
      err := initErr;
    }

    method SendChunk(chunk: seq<uint8>) returns (err: Option<string>)
      modifies this
      ensures calls == old(calls) + [ChunkCall(chunk)]
      ensures err == chunkErr
    {
      calls := calls + [ChunkCall(chunk)];
      err := chunkErr;
    }

    method Close() returns (r: Result<ObjectId, string>)
      modifies this
      ensures calls == old(calls) + [CloseCall]
      ensures r == closeResult
    {
      calls := calls + [CloseCall];
      r := closeResult;
    }
  }

  /** A put service: opening a stream fails with `openErr` or yields its streamer. */
  class PutService {
    const openErr: Option<string>
    const streamer: PutStreamer

    constructor(openErr: Option<string>, streamer: PutStreamer)
      ensures this.openErr == openErr && this.streamer == streamer
    {
      this.openErr := openErr;
      this.streamer := streamer;
    }

    method Put() returns (r: Result<PutStreamer, string>)
      ensures openErr.Some? ==> r == Err(openErr.value)
      ensures openErr.None? ==> r == Ok(streamer)
    {
      if openErr.Some? {
        return Err(openErr.value);
      }
      return Ok(streamer);
    }
  }

  /** The init parameters `put` builds: the tombstone without its payload, no-success-tracking when broadcasting. */
  function InitPrm(exec: ExecCtx, broadcast: bool): PutInitPrm
  {
    PutInitPrm(exec.common, CutPayload(exec.tombstone), if broadcast then [WithoutSuccessTracking] else [])
  }

  /** The whole exchange of a put that succeeds: init, one chunk with the payload, close. */
  function Protocol(exec: ExecCtx, broadcast: bool): (calls: seq<StreamCall>)
  {
    [InitCall(InitPrm(exec, broadcast)), ChunkCall(exec.tombstone.payload), CloseCall]
  }

  /** How many calls of the protocol are made before the first failure (3 when none fails). */
  function StepsRun(openErr: Option<string>, initErr: Option<string>, chunkErr: Option<string>): (n: nat)
    ensures n <= 3
  {
    if openErr.Some? then 0 else if initErr.Some? then 1 else if chunkErr.Some? then 2 else 3
  }

  /**
   * `put`: opens a stream, sends the header, then the whole payload as
   * one chunk, then closes it and returns the ID the close reports. The
   * first failing step ends the exchange with its error.
   */
  method Put(svc: PutService, exec: ExecCtx, broadcast: bool) returns (r: Result<ObjectId, string>)
    modifies svc.streamer
    ensures svc.streamer.calls == old(svc.streamer.calls)
      + Protocol(exec, broadcast)[..StepsRun(svc.openErr, svc.streamer.initErr, svc.streamer.chunkErr)]
    ensures svc.openErr.Some? ==> r == Err(svc.openErr.value)
    ensures svc.openErr.None? && svc.streamer.initErr.Some? ==> r == Err(svc.streamer.initErr.value)
    ensures svc.openErr.None? && svc.streamer.initErr.None? && svc.streamer.chunkErr.Some? ==> r == Err(svc.streamer.chunkErr.value)
    ensures svc.openErr.None? && svc.streamer.initErr.None? && svc.streamer.chunkErr.None? ==> r == svc.streamer.closeResult
  {
    var stream := svc.Put();
    if stream.Err? {
      return Err(stream.error);
    }
    var streamer := stream.value;
    var payload := exec.tombstone.payload;
    var initPrm := PutInitPrm(exec.common, CutPayload(exec.tombstone), []);
    if broadcast {
      initPrm := initPrm.(traverseOptions := initPrm.traverseOptions + [WithoutSuccessTracking]);
    }
    assert initPrm == InitPrm(exec, broadcast);
    ghost var protocol := Protocol(exec, broadcast);
    assert protocol[..1] == [InitCall(initPrm)];
    assert protocol[..2] == [InitCall(initPrm), ChunkCall(payload)];

    var err := streamer.Init(initPrm);
    if err.Some? {
      return Err(err.value);
    }
    err := streamer.SendChunk(payload);
    if err.Some? {
      return Err(err.value);
    }
    var closed := streamer.Close();
    if closed.Err? {
      return Err(closed.error);
    }
    return Ok(closed.value);
  }

  /** The header sent first has no payload, and putting the chunk's bytes back gives the tombstone. */
  lemma ProtocolCarriesTombstone(exec: ExecCtx, broadcast: bool)
    ensures Protocol(exec, broadcast)[0].InitCall? && Protocol(exec, broadcast)[0].prm.obj.payload == []
    ensures Protocol(exec, broadcast)[0].prm.obj.(payload := Protocol(exec, broadcast)[1].chunk) == exec.tombstone
    ensures Protocol(exec, broadcast)[0].prm.common == exec.common
  {
  }

  /** Exactly one chunk is sent, and it is the second call. */
  lemma ProtocolOneChunk(exec: ExecCtx, broadcast: bool)
    ensures forall k :: 0 <= k < |Protocol(exec, broadcast)| ==> (Protocol(exec, broadcast)[k].ChunkCall? <==> k == 1)
  {
  }

  /** The no-success-tracking option is requested exactly when broadcasting. */
  lemma InitPrmBroadcast(exec: ExecCtx, broadcast: bool)
    ensures WithoutSuccessTracking in InitPrm(exec, broadcast).traverseOptions <==> broadcast
    ensures |InitPrm(exec, broadcast).traverseOptions| <= 1
  {
  }

  /** After a failure nothing more is sent: a stream that is closed saw every earlier step succeed. */
  lemma ClosedOnlyAfterSuccess(openErr: Option<string>, initErr: Option<string>, chunkErr: Option<string>, exec: ExecCtx, broadcast: bool)
    ensures CloseCall in Protocol(exec, broadcast)[..StepsRun(openErr, initErr, chunkErr)]
      <==> openErr.None? && initErr.None? && chunkErr.None?
  {
    var p := Protocol(exec, broadcast);
    var n := StepsRun(openErr, initErr, chunkErr);
    if n < 3 {
      assert forall k :: 0 <= k < n ==> p[..n][k] == p[k];
    } else {
      assert p[..n][2] == CloseCall;
    }
  }
}
