// The client half of the ACP transport (internal/acp/transport.go): many
// concurrent Calls share one pipe, one table of pending ids and one ReadLoop.
//
// The table and its critical sections are the class Transport. Interleavings
// are runs of the machine System/Event below: every event is one critical
// section, one channel operation or one blocking point of the source, and the
// machine uses the same table functions the class methods are proved against.
module AcpTransport {
  import opened Prelude

  // ---------------------------------------------------------------------
  // Messages
  // ---------------------------------------------------------------------

  datatype RpcError = RpcError(code: int, message: string)

  datatype Response = Response(id: int, result: Option<string>, error: Option<RpcError>)

  // The method of a message is not part of the model: ReadLoop asks for a
  // response first, whatever the method.
  datatype RawMessage = RawMessage(id: Option<int>, result: Option<string>, error: Option<RpcError>)
  {
    predicate IsResponse() { id.Some? && (result.Some? || error.Some?) }
  }

  // What failPending sends: no id, and the closed-pipe text under code -32000.
  const CLOSED := Response(0, None, Some(RpcError(-32000, "io: read/write on closed pipe")))

  // ---------------------------------------------------------------------
  // The table guarded by the mutex
  // ---------------------------------------------------------------------

  // One number per invocation of Call; it names the goroutine and its channel.
  type Caller = nat

  datatype Table = Table(nextID: nat, pending: map<int, Caller>, closed: bool)
  {
    function Registered(c: Caller): Table {
      Table(nextID + 1, pending[nextID + 1 := c], closed)
    }

    function Without(id: int): Table {
      Table(nextID, pending - {id}, closed)
    }

    function Shut(): Table {
      Table(nextID, map[], true)
    }
  }

  // ---------------------------------------------------------------------
  // The class: the source's critical sections, in place
  // ---------------------------------------------------------------------

  // A channel of capacity one.
  class Mailbox {
    const caller: Caller
    var slot: Option<Response>

    constructor (c: Caller)
      ensures caller == c && slot == None
    {
      caller := c;
      slot := None;
    }

    // A send on a full channel would block, so emptiness is a precondition:
    // every caller has to show that this send cannot block.
    method Send(r: Response)
      requires slot == None
      modifies this
      ensures slot == Some(r)
    {
      slot := Some(r);
    }
  }

  class Transport {
    var nextID: nat
    var pending: map<int, Mailbox>
    var closed: bool

    ghost predicate Valid()
      reads this
    {
      && (forall id :: id in pending ==> 1 <= id <= nextID)
      && (forall i, j :: i in pending && j in pending && i != j ==> pending[i] != pending[j])
      && (closed ==> pending == map[])
    }

    // No pending channel holds a value.
    ghost predicate AllEmpty()
      reads this, pending.Values
    {
      forall id :: id in pending ==> pending[id].slot == None
    }

    ghost function View(): Table
      reads this
    {
      Table(nextID, map id | id in pending :: pending[id].caller, closed)
    }

    constructor ()
      ensures Valid() && View() == Table(0, map[], false)
    {
      nextID, pending, closed := 0, map[], false;
    }

    // The first critical section of Call.
    method Register(c: Caller) returns (entry: Option<(nat, Mailbox)>)
      requires Valid()
      modifies this
      ensures Valid()
      ensures old(closed) ==> entry == None && View() == old(View())
      ensures !old(closed) ==>
        && entry.Some? && entry.value.0 == nextID && fresh(entry.value.1)
        && entry.value.1.caller == c && entry.value.1.slot == None
        && pending == old(pending)[nextID := entry.value.1]
        && View() == old(View()).Registered(c)
    {
      if closed {
        return None;
      }
      nextID := nextID + 1;
      var ch := new Mailbox(c);
      pending := pending[nextID := ch];
      entry := Some((nextID, ch));
      assert View() == old(View()).Registered(c);
    }

    // The deletion shared by the write-failure and the cancellation path.
    method Unregister(id: int)
      requires Valid()
      modifies this
      ensures Valid() && View() == old(View()).Without(id)
      ensures pending == old(pending) - {id}
    {
      pending := pending - {id};
      assert View() == old(View()).Without(id);
    }

    // The critical section of deliverResponse: the entry is taken here, the
    // send happens after the mutex has been released.
    method Take(id: int) returns (ch: Option<Mailbox>)
      requires Valid()
      modifies this
      ensures Valid() && View() == old(View()).Without(id)
      ensures id in old(pending) ==> ch == Some(old(pending)[id])
      ensures id !in old(pending) ==> ch == None && pending == old(pending)
    {
      ch := None;
      if id in pending {
        ch := Some(pending[id]);
        pending := pending - {id};
      }
      assert View() == old(View()).Without(id);
    }

    // One turn of failPending's loop: the send, then the deletion.
    method DrainOne(id: int)
      requires id in pending && pending[id].slot == None
      modifies this`pending, pending[id]
      ensures pending == old(pending) - {id}
      ensures old(pending)[id].slot == Some(CLOSED)
    {
      pending[id].Send(CLOSED);
      pending := pending - {id};
    }

    // failPending: every send is made while holding the mutex.
    method FailPending()
      requires Valid() && AllEmpty()
      modifies this, pending.Values
      ensures Valid() && View() == old(View()).Shut()
      ensures forall id :: id in old(pending) ==> old(pending)[id].slot == Some(CLOSED)
    {
      ghost var all := pending;
      while pending.Keys != {}
        invariant nextID == old(nextID) && closed == old(closed)
        invariant pending.Keys <= all.Keys
        invariant forall id :: id in pending ==> pending[id] == all[id]
        invariant forall id :: id in all ==> all[id].slot == if id in pending then None else Some(CLOSED)
        decreases pending.Keys
      {
        ghost var some := AnElement(pending.Keys);
        var id :| id in pending;
        DrainOne(id);
      }
      assert pending == map[];
      closed := true;
      assert View() == old(View()).Shut();
    }
  }

  // ---------------------------------------------------------------------
  // The machine: every interleaving of callers, reader and shutdown
  // ---------------------------------------------------------------------

  datatype CallError = ClosedPipe | WriteError | CtxError

  datatype Outcome = Reply(resp: Response) | Failed(err: CallError)

  datatype Phase =
    | Unwritten                  // registered, the request line is not written yet
    | Waiting                    // in the select
    | Leaving(err: CallError)    // an error path, its pending entry still to be deleted
    | Returned(outcome: Outcome)

  // id is 0 for a call that never registered; since is the number of inbound
  // responses the reader had processed when the call registered; sent counts
  // the values ever sent on the call's channel.
  datatype Call = Call(id: nat, since: nat, phase: Phase, slot: Option<Response>, sent: nat)

  datatype Reader =
    | Reading
    | Delivering(to: Caller, resp: Response)  // entry deleted, value not sent yet
    | Failing                                 // inside failPending, holding the mutex
    | Stopped

  datatype System = System(table: Table, calls: map<Caller, Call>, reader: Reader, inbound: seq<Response>)

  const START := System(Table(0, map[], false), map[], Reading, [])

  datatype Event =
    | Refuse(c: Caller)              // Call with an already cancelled context
    | Register(c: Caller)
    | Write(c: Caller, ok: bool)     // writeLine of the request
    | MarshalFail(c: Caller)         // writeLine fails before the mutex
    | GiveUp(c: Caller)              // the select takes ctx.Done
    | Cleanup(c: Caller)             // delete(pending, id), then return
    | Receive(c: Caller)             // the select takes the channel
    | Read(raw: RawMessage)
    | Deliver                        // the send at the end of deliverResponse
    | FailBegin
    | FailOne(id: int)
    | FailEnd

  // The mutex is held across events only by failPending.
  predicate Locked(s: System) { s.reader.Failing? }

  predicate InPhase(s: System, c: Caller, p: Phase) { c in s.calls && s.calls[c].phase == p }

  // A send completes only on an empty channel.
  predicate CanSend(s: System, c: Caller) { c in s.calls && s.calls[c].slot.None? }

  predicate Enabled(s: System, e: Event) {
    match e
    case Refuse(c) => c !in s.calls
    case Register(c) => c !in s.calls && !Locked(s)
    case Write(c, _) => InPhase(s, c, Unwritten) && !Locked(s)
    case MarshalFail(c) => InPhase(s, c, Unwritten)
    case GiveUp(c) => InPhase(s, c, Waiting)
    case Cleanup(c) => c in s.calls && s.calls[c].phase.Leaving? && !Locked(s)
    case Receive(c) => InPhase(s, c, Waiting) && s.calls[c].slot.Some?
    case Read(_) => s.reader.Reading?
    case Deliver => s.reader.Delivering? && CanSend(s, s.reader.to)
    case FailBegin => s.reader.Reading?
    case FailOne(id) => s.reader.Failing? && id in s.table.pending && CanSend(s, s.table.pending[id])
    case FailEnd => s.reader.Failing? && s.table.pending == map[]
  }

  function Put(s: System, c: Caller, call: Call): System { s.(calls := s.calls[c := call]) }

  function Send(s: System, c: Caller, r: Response): System
    requires c in s.calls
  {
    Put(s, c, s.calls[c].(slot := Some(r), sent := s.calls[c].sent + 1))
  }

  function Enter(s: System, c: Caller, p: Phase): System
    requires c in s.calls
  {
    Put(s, c, s.calls[c].(phase := p))
  }

  function ReadMessage(s: System, raw: RawMessage): System {
    if !raw.IsResponse() then s
    else
      var r := Response(raw.id.value, raw.result, raw.error);
      var s' := s.(inbound := s.inbound + [r]);
      if r.id !in s.table.pending then s'
      else s'.(table := s.table.Without(r.id), reader := Delivering(s.table.pending[r.id], r))
  }

  function Apply(s: System, e: Event): System
    requires Enabled(s, e)
  {
    match e
    case Refuse(c) => Put(s, c, Call(0, |s.inbound|, Returned(Failed(CtxError)), None, 0))
    case Register(c) =>
      if s.table.closed then Put(s, c, Call(0, |s.inbound|, Returned(Failed(ClosedPipe)), None, 0))
      else Put(s.(table := s.table.Registered(c)), c, Call(s.table.nextID + 1, |s.inbound|, Unwritten, None, 0))
    case Write(c, ok) =>
      Enter(s, c, if s.table.closed then Leaving(ClosedPipe) else if ok then Waiting else Leaving(WriteError))
    case MarshalFail(c) => Enter(s, c, Leaving(WriteError))
    case GiveUp(c) => Enter(s, c, Leaving(CtxError))
    case Cleanup(c) =>
      Enter(s.(table := s.table.Without(s.calls[c].id)), c, Returned(Failed(s.calls[c].phase.err)))
    case Receive(c) =>
      Put(s, c, s.calls[c].(phase := Returned(Reply(s.calls[c].slot.value)), slot := None))
    case Read(raw) => ReadMessage(s, raw)
    case Deliver => Send(s, s.reader.to, s.reader.resp).(reader := Reading)
    case FailBegin => s.(reader := Failing)
    case FailOne(id) => Send(s, s.table.pending[id], CLOSED).(table := s.table.Without(id))
    case FailEnd => s.(table := s.table.Shut(), reader := Stopped)
  }

  // ---------------------------------------------------------------------
  // Which response belongs to a call
  // ---------------------------------------------------------------------

  // The first response carrying id among those processed from position since on.
  function FirstReply(inbound: seq<Response>, since: nat, id: int): Option<Response>
    decreases |inbound|
  {
    if |inbound| <= since then None
    else
      var earlier := FirstReply(inbound[..|inbound| - 1], since, id);
      var last := inbound[|inbound| - 1];
      if earlier.Some? then earlier else if last.id == id then Some(last) else None
  }

  // FirstReply really is the first: nothing before it carries the id.
  lemma {:induction false} FirstReplyIsFirst(inbound: seq<Response>, since: nat, id: int)
    ensures FirstReply(inbound, since, id).None? <==> forall k :: since <= k < |inbound| ==> inbound[k].id != id
    ensures FirstReply(inbound, since, id).Some? ==>
      exists k :: since <= k < |inbound| && inbound[k] == FirstReply(inbound, since, id).value && inbound[k].id == id
        && forall j :: since <= j < k ==> inbound[j].id != id
    decreases |inbound|
  {
    if |inbound| > since {
      var n := |inbound| - 1;
      FirstReplyIsFirst(inbound[..n], since, id);
      if FirstReply(inbound[..n], since, id).Some? {
        var k :| since <= k < n && inbound[..n][k] == FirstReply(inbound[..n], since, id).value
          && inbound[..n][k].id == id && forall j :: since <= j < k ==> inbound[..n][j].id != id;
        assert inbound[k] == FirstReply(inbound, since, id).value;
        assert forall j :: since <= j < k ==> inbound[j] == inbound[..n][j];
      } else {
        assert forall j :: since <= j < n ==> inbound[j] == inbound[..n][j];
      }
    }
  }

  lemma FirstReplyGrows(inbound: seq<Response>, r: Response, since: nat, id: int)
    requires since <= |inbound|
    ensures FirstReply(inbound + [r], since, id) ==
      if FirstReply(inbound, since, id).Some? then FirstReply(inbound, since, id)
      else if r.id == id then Some(r) else None
  {
    assert (inbound + [r])[..|inbound|] == inbound;
  }

  // ---------------------------------------------------------------------
  // The invariant
  // ---------------------------------------------------------------------

  ghost predicate TableInv(s: System) {
    && (forall id :: id in s.table.pending ==>
          && 1 <= id <= s.table.nextID
          && s.table.pending[id] in s.calls
          && s.calls[s.table.pending[id]].id == id
          && !s.calls[s.table.pending[id]].phase.Returned?)
    && (s.table.closed <==> s.reader.Stopped?)
    && (s.table.closed ==> s.table.pending == map[])
  }

  ghost predicate IdsInv(s: System) {
    && (forall c :: c in s.calls ==> s.calls[c].id <= s.table.nextID && s.calls[c].since <= |s.inbound|)
    && (forall c, d :: c in s.calls && d in s.calls && s.calls[c].id == s.calls[d].id != 0 ==> c == d)
  }

  // The call's channel is still to be written by whoever removes its entry.
  predicate Owed(s: System, c: Caller)
    requires c in s.calls
  {
    || (s.calls[c].id in s.table.pending && s.table.pending[s.calls[c].id] == c)
    || (s.reader.Delivering? && s.reader.to == c)
  }

  ghost predicate Provenance(s: System, c: Caller, r: Response)
    requires c in s.calls
  {
    var call := s.calls[c];
    || (r == CLOSED && (s.reader.Failing? || s.reader.Stopped?))
    || (r.id == call.id != 0 && FirstReply(s.inbound, call.since, call.id) == Some(r))
  }

  predicate Answered(call: Call) { call.phase.Returned? && call.phase.outcome.Reply? }

  ghost predicate CallInv(s: System, c: Caller)
    requires c in s.calls
  {
    var call := s.calls[c];
    && call.sent <= 1
    && (Owed(s, c) ==> call.sent == 0)
    && (call.sent == 0 ==> call.slot.None? && !Answered(call))
    && (call.phase.Unwritten? || call.phase.Waiting? ==> call.id != 0 && (Owed(s, c) || call.slot.Some?))
    && (call.slot.Some? ==> Provenance(s, c, call.slot.value))
    && (Answered(call) ==> Provenance(s, c, call.phase.outcome.resp))
  }

  ghost predicate ReaderInv(s: System) {
    && (forall id :: id in s.table.pending && s.table.pending[id] in s.calls ==>
          FirstReply(s.inbound, s.calls[s.table.pending[id]].since, id).None?)
    && (s.reader.Delivering? ==>
          var c, r := s.reader.to, s.reader.resp;
          && c in s.calls
          && r.id == s.calls[c].id != 0
          && r.id !in s.table.pending
          && FirstReply(s.inbound, s.calls[c].since, r.id) == Some(r))
  }

  ghost predicate CallsInv(s: System) { forall c :: c in s.calls ==> CallInv(s, c) }

  ghost predicate Inv(s: System) { TableInv(s) && IdsInv(s) && ReaderInv(s) && CallsInv(s) }

  // The same calls with the same ids.
  ghost predicate SameIds(s: System, s': System) {
    && s'.calls.Keys == s.calls.Keys && s'.table.nextID == s.table.nextID && |s.inbound| <= |s'.inbound|
    && forall c :: c in s.calls ==> s'.calls[c].id == s.calls[c].id && s'.calls[c].since == s.calls[c].since
  }

  lemma IdsStay(s: System, s': System)
    requires IdsInv(s) && SameIds(s, s')
    ensures IdsInv(s')
  {
  }

  // A call that never registered appears and returns at once.
  lemma UnregisteredReturns(s: System, c: Caller, err: CallError)
    requires Inv(s) && c !in s.calls
    ensures Inv(Put(s, c, Call(0, |s.inbound|, Returned(Failed(err)), None, 0)))
  {
    var s' := Put(s, c, Call(0, |s.inbound|, Returned(Failed(err)), None, 0));
    forall d | d in s'.calls
      ensures CallInv(s', d)
    {
      assert d in s.calls ==> CallInv(s, d);
    }
  }

  // A call that is on its way goes on without returning.
  lemma PhaseMoves(s: System, c: Caller, p: Phase)
    requires Inv(s) && c in s.calls && !p.Returned? && !s.calls[c].phase.Returned?
    requires p.Waiting? || p.Unwritten? ==> s.calls[c].phase.Unwritten? || s.calls[c].phase.Waiting?
    ensures Inv(Enter(s, c, p))
  {
    var s' := Enter(s, c, p);
    forall d | d in s'.calls
      ensures CallInv(s', d)
    {
      assert CallInv(s, d);
    }
  }

  lemma ReceiveKeepsCalls(s: System, c: Caller)
    requires CallsInv(s) && Enabled(s, Receive(c))
    ensures CallsInv(Apply(s, Receive(c)))
  {
    var s' := Apply(s, Receive(c));
    forall d | d in s'.calls
      ensures CallInv(s', d)
    {
      assert CallInv(s, d);
    }
  }

  lemma StepReceive(s: System, c: Caller)
    requires Inv(s) && Enabled(s, Receive(c))
    ensures Inv(Apply(s, Receive(c)))
  {
    assert CallInv(s, c);
    IdsStay(s, Apply(s, Receive(c)));
    ReceiveKeepsCalls(s, c);
  }

  lemma RegisterKeepsTable(s: System, c: Caller)
    requires TableInv(s) && IdsInv(s) && ReaderInv(s) && Enabled(s, Register(c)) && !s.table.closed
    ensures TableInv(Apply(s, Register(c))) && IdsInv(Apply(s, Register(c))) && ReaderInv(Apply(s, Register(c)))
  {
    var s' := Apply(s, Register(c));
    assert FirstReply(s'.inbound, |s.inbound|, s'.table.nextID).None?;
    assert forall d :: d in s.calls ==> s'.calls[d] == s.calls[d];
  }

  lemma RegisterKeepsCalls(s: System, c: Caller)
    requires TableInv(s) && IdsInv(s) && ReaderInv(s) && CallsInv(s) && Enabled(s, Register(c)) && !s.table.closed
    ensures CallsInv(Apply(s, Register(c)))
  {
    var s' := Apply(s, Register(c));
    forall d | d in s'.calls
      ensures CallInv(s', d)
    {
      if d in s.calls {
        assert CallInv(s, d);
        assert Owed(s', d) ==> Owed(s, d);
      }
    }
  }

  lemma CleanupKeepsReader(s: System, c: Caller)
    requires TableInv(s) && ReaderInv(s) && Enabled(s, Cleanup(c))
    ensures ReaderInv(Apply(s, Cleanup(c)))
  {
  }

  lemma CleanupKeepsEntries(s: System, c: Caller)
    requires TableInv(s) && Enabled(s, Cleanup(c))
    ensures TableInv(Apply(s, Cleanup(c)))
  {
    assert forall id :: id in s.table.pending && id != s.calls[c].id ==> s.table.pending[id] != c;
  }

  lemma CleanupKeepsCalls(s: System, c: Caller)
    requires IdsInv(s) && TableInv(s) && CallsInv(s) && Enabled(s, Cleanup(c))
    ensures CallsInv(Apply(s, Cleanup(c)))
  {
    var s' := Apply(s, Cleanup(c));
    forall d | d in s'.calls
      ensures CallInv(s', d)
    {
      assert CallInv(s, d);
      assert Owed(s', d) ==> Owed(s, d);
      assert d != c && Owed(s, d) ==> Owed(s', d);
    }
  }

  lemma ReadKeepsEntries(s: System, raw: RawMessage)
    requires TableInv(s) && Enabled(s, Read(raw)) && raw.IsResponse()
    ensures TableInv(Apply(s, Read(raw)))
  {
  }

  lemma ReadKeepsReader(s: System, raw: RawMessage)
    requires TableInv(s) && ReaderInv(s) && IdsInv(s) && Enabled(s, Read(raw)) && raw.IsResponse()
    ensures ReaderInv(Apply(s, Read(raw)))
  {
    var s', r := Apply(s, Read(raw)), Response(raw.id.value, raw.result, raw.error);
    forall id | id in s.table.pending
      ensures
        var since := s.calls[s.table.pending[id]].since;
        FirstReply(s'.inbound, since, id) == if r.id == id then Some(r) else None
    {
      FirstReplyGrows(s.inbound, r, s.calls[s.table.pending[id]].since, id);
    }
  }

  lemma ReadKeepsCall(s: System, raw: RawMessage, c: Caller)
    requires TableInv(s) && IdsInv(s) && Enabled(s, Read(raw)) && raw.IsResponse() && c in s.calls && CallInv(s, c)
    ensures CallInv(Apply(s, Read(raw)), c)
  {
    assert Owed(Apply(s, Read(raw)), c) <==> Owed(s, c);
    FirstReplyGrows(s.inbound, Response(raw.id.value, raw.result, raw.error), s.calls[c].since, s.calls[c].id);
  }

  lemma ReadKeepsCalls(s: System, raw: RawMessage)
    requires TableInv(s) && IdsInv(s) && CallsInv(s) && Enabled(s, Read(raw)) && raw.IsResponse()
    ensures CallsInv(Apply(s, Read(raw)))
  {
    var s' := Apply(s, Read(raw));
    forall c | c in s'.calls
      ensures CallInv(s', c)
    {
      ReadKeepsCall(s, raw, c);
    }
  }

  // The one send of a call's channel, with its entry already gone.
  lemma StepDeliver(s: System)
    requires Inv(s) && Enabled(s, Deliver)
    ensures Inv(Apply(s, Deliver))
  {
    var s' := Apply(s, Deliver);
    assert CallInv(s, s.reader.to);
    forall d | d in s'.calls
      ensures CallInv(s', d)
    {
      assert CallInv(s, d);
    }
  }

  lemma StepFailBegin(s: System)
    requires Inv(s) && Enabled(s, FailBegin)
    ensures Inv(Apply(s, FailBegin))
  {
    var s' := Apply(s, FailBegin);
    forall d | d in s'.calls
      ensures CallInv(s', d)
    {
      assert CallInv(s, d);
    }
  }

  lemma FailOneKeepsEntries(s: System, id: int)
    requires TableInv(s) && ReaderInv(s) && Enabled(s, FailOne(id))
    ensures TableInv(Apply(s, FailOne(id))) && ReaderInv(Apply(s, FailOne(id)))
  {
  }

  lemma FailOneKeepsCall(s: System, id: int, d: Caller)
    requires TableInv(s) && IdsInv(s) && Enabled(s, FailOne(id)) && d in s.calls && CallInv(s, d)
    ensures CallInv(Apply(s, FailOne(id)), d)
  {
    assert Owed(Apply(s, FailOne(id)), d) <==> Owed(s, d) && s.calls[d].id != id;
  }

  lemma FailOneKeepsCalls(s: System, id: int)
    requires TableInv(s) && IdsInv(s) && CallsInv(s) && Enabled(s, FailOne(id))
    ensures CallsInv(Apply(s, FailOne(id)))
  {
    var s' := Apply(s, FailOne(id));
    forall d | d in s'.calls
      ensures CallInv(s', d)
    {
      FailOneKeepsCall(s, id, d);
    }
  }

  lemma StepFailEnd(s: System)
    requires Inv(s) && Enabled(s, FailEnd)
    ensures Inv(Apply(s, FailEnd))
  {
    var s' := Apply(s, FailEnd);
    forall d | d in s'.calls
      ensures CallInv(s', d)
    {
      assert CallInv(s, d);
    }
  }

  lemma StepKeepsInv(s: System, e: Event)
    requires Inv(s) && Enabled(s, e)
    ensures Inv(Apply(s, e))
  {
    match e
    case Refuse(c) => UnregisteredReturns(s, c, CtxError);
    case Register(c) =>
      if s.table.closed {
        UnregisteredReturns(s, c, ClosedPipe);
      } else {
        RegisterKeepsTable(s, c);
        RegisterKeepsCalls(s, c);
      }
    case Write(c, ok) =>
      PhaseMoves(s, c, if s.table.closed then Leaving(ClosedPipe) else if ok then Waiting else Leaving(WriteError));
    case MarshalFail(c) => PhaseMoves(s, c, Leaving(WriteError));
    case GiveUp(c) => PhaseMoves(s, c, Leaving(CtxError));
    case Cleanup(c) =>
      IdsStay(s, Apply(s, e));
      CleanupKeepsEntries(s, c);
      CleanupKeepsReader(s, c);
      CleanupKeepsCalls(s, c);
    case Receive(c) => StepReceive(s, c);
    case Read(raw) =>
      if raw.IsResponse() {
        IdsStay(s, Apply(s, e));
        ReadKeepsEntries(s, raw);
        ReadKeepsReader(s, raw);
        ReadKeepsCalls(s, raw);
      }
    case Deliver => StepDeliver(s);
    case FailBegin => StepFailBegin(s);
    case FailOne(id) =>
      IdsStay(s, Apply(s, e));
      FailOneKeepsEntries(s, id);
      FailOneKeepsCalls(s, id);
    case FailEnd => StepFailEnd(s);
  }

  // ---------------------------------------------------------------------
  // Whole runs
  // ---------------------------------------------------------------------

  ghost predicate Step(s: System, e: Event, s': System) { Enabled(s, e) && s' == Apply(s, e) }

  ghost predicate Next(s: System, s': System) { exists e :: Step(s, e, s') }

  ghost predicate Linked(run: seq<System>, i: nat)
    requires i + 1 < |run|
  {
    Next(run[i], run[i + 1])
  }

  ghost predicate Run(run: seq<System>) {
    && |run| > 0
    && run[0] == START
    && forall i: nat :: i + 1 < |run| ==> Linked(run, i)
  }

  lemma StepAt(run: seq<System>, i: nat) returns (e: Event)
    requires Run(run) && i + 1 < |run|
    ensures Step(run[i], e, run[i + 1])
  {
    assert Linked(run, i);
    e :| Step(run[i], e, run[i + 1]);
  }

  lemma {:induction false} RunKeepsInv(run: seq<System>, i: nat)
    requires Run(run) && i < |run|
    ensures Inv(run[i])
  {
    if i > 0 {
      RunKeepsInv(run, i - 1);
      var e := StepAt(run, i - 1);
      StepKeepsInv(run[i - 1], e);
    }
  }

  // No send ever blocks: not the one deliverResponse makes after unlocking, and
  // not the ones failPending makes while holding the mutex. In the whole run at
  // most one value is sent on a call's channel.
  lemma SendsNeverBlock(run: seq<System>, i: nat)
    requires Run(run) && i < |run|
    ensures run[i].reader.Delivering? ==> Enabled(run[i], Deliver)
    ensures run[i].reader.Failing? ==> forall id :: id in run[i].table.pending ==> Enabled(run[i], FailOne(id))
    ensures forall c :: c in run[i].calls ==> run[i].calls[c].sent <= 1
  {
    RunKeepsInv(run, i);
    var s := run[i];
    assert s.reader.Delivering? ==> CallInv(s, s.reader.to);
    forall c | c in s.calls
      ensures s.calls[c].sent <= 1 && (Owed(s, c) ==> CanSend(s, c))
    {
      assert CallInv(s, c);
    }
  }

  // A call that returns a reply returns either the shutdown error, and then
  // failPending has begun, or the very first response with its own id among
  // those processed after it registered.
  lemma ReplyIsFirstOwnResponse(run: seq<System>, i: nat, c: Caller)
    requires Run(run) && i < |run| && c in run[i].calls && Answered(run[i].calls[c])
    ensures
      var s, call := run[i], run[i].calls[c];
      var resp := call.phase.outcome.resp;
      || (resp == Response(0, None, Some(RpcError(-32000, "io: read/write on closed pipe")))
          && (s.reader.Failing? || s.reader.Stopped?))
      || (exists k :: call.since <= k < |s.inbound| && s.inbound[k] == resp && resp.id == call.id != 0
            && forall j :: call.since <= j < k ==> s.inbound[j].id != call.id)
  {
    RunKeepsInv(run, i);
    assert CallInv(run[i], c);
    FirstReplyIsFirst(run[i].inbound, run[i].calls[c].since, run[i].calls[c].id);
  }

  // A message that carries the id of a pending call and a result or an error,
  // be it an error reply, goes to exactly that call: the reader takes the entry
  // and delivers this id, result and error, and the waiting call returns them.
  lemma ReplyIsDelivered(run: seq<System>, i: nat, raw: RawMessage, id: int)
    requires Run(run) && i < |run| && run[i].reader.Reading? && id in run[i].table.pending
    requires raw.id == Some(id) && (raw.result.Some? || raw.error.Some?)
    ensures
      var s, c, resp := run[i], run[i].table.pending[id], Response(id, raw.result, raw.error);
      && Enabled(s, Read(raw))
      && var read := Apply(s, Read(raw));
      && read == s.(table := Table(s.table.nextID, s.table.pending - {id}, s.table.closed),
                    reader := Delivering(c, resp), inbound := s.inbound + [resp])
      && Enabled(read, Deliver)
      && var sent := Apply(read, Deliver);
      && c in s.calls && sent == read.(reader := Reading, calls := s.calls[c := s.calls[c].(slot := Some(resp), sent := 1)])
      && (s.calls[c].phase.Waiting? ==>
            && Enabled(sent, Receive(c))
            && Apply(sent, Receive(c)).calls[c].phase == Returned(Reply(resp)))
  {
    RunKeepsInv(run, i);
    assert CallInv(run[i], run[i].table.pending[id]);
  }

  // A message without an id, or with neither result nor error, is no reply; a
  // reply to nothing pending is only recorded as read.
  lemma OtherMessagesPassBy(s: System, raw: RawMessage)
    requires s.reader.Reading?
    ensures Enabled(s, Read(raw))
    ensures raw.id == None || (raw.result == None && raw.error == None) ==> Apply(s, Read(raw)) == s
    ensures raw.id.Some? && (raw.result.Some? || raw.error.Some?) && raw.id.value !in s.table.pending ==>
      Apply(s, Read(raw)) == s.(inbound := s.inbound + [Response(raw.id.value, raw.result, raw.error)])
  {
  }

  predicate Holds(call: Call, r: Response) { call.slot == Some(r) || call.phase == Returned(Reply(r)) }

  lemma StepHolds(s: System, e: Event, c: Caller, r: Response)
    requires Inv(s) && Enabled(s, e) && c in s.calls && Holds(s.calls[c], r)
    ensures c in Apply(s, e).calls && Holds(Apply(s, e).calls[c], r)
  {
    assert CallInv(s, c);
    match e
    case Deliver => assert s.reader.to in s.calls;
    case FailOne(id) => assert s.table.pending[id] in s.calls;
    case _ =>
  }

  // What has been sent to a call is never replaced: it stays in its channel
  // until the call returns just that.
  lemma {:induction false} DeliveredStays(run: seq<System>, i: nat, j: nat, c: Caller)
    requires Run(run) && i <= j < |run| && c in run[i].calls && run[i].calls[c].slot.Some?
    ensures c in run[j].calls && Holds(run[j].calls[c], run[i].calls[c].slot.value)
    decreases j - i
  {
    if i < j {
      DeliveredStays(run, i, j - 1, c);
      RunKeepsInv(run, j - 1);
      var e := StepAt(run, j - 1);
      StepHolds(run[j - 1], e, c, run[i].calls[c].slot.value);
    }
  }

  // How a call can go on: where it is, the event, and where it is then.
  predicate Moves(closed: bool, before: Call, e: Event, c: Caller, after: Phase) {
    match before.phase
    case Unwritten =>
      || (e == Write(c, true) && after == if closed then Leaving(ClosedPipe) else Waiting)
      || (e == Write(c, false) && after == Leaving(if closed then ClosedPipe else WriteError))
      || (e == MarshalFail(c) && after == Leaving(WriteError))
    case Waiting =>
      || (e == GiveUp(c) && after == Leaving(CtxError))
      || (e == Receive(c) && before.slot.Some? && after == Returned(Reply(before.slot.value)))
    case Leaving(err) => e == Cleanup(c) && after == Returned(Failed(err))
    case Returned(_) => false
  }

  // Where a call begins: unwritten with the next id and its own entry in the
  // table, or returned at once, refused by its context or the closed transport.
  predicate Begins(s: System, e: Event, c: Caller, s': System)
    requires c in s'.calls
  {
    var call := s'.calls[c];
    || (e == Refuse(c) && call.phase == Returned(Failed(CtxError)))
    || (e == Register(c) && s.table.closed && call.phase == Returned(Failed(ClosedPipe)))
    || (e == Register(c) && !s.table.closed && call.phase == Unwritten && call.id == s.table.nextID + 1
        && s'.table.pending == s.table.pending[call.id := c])
  }

  lemma OldCallsMove(s: System, e: Event, c: Caller)
    requires Inv(s) && Enabled(s, e) && c in s.calls
    ensures c in Apply(s, e).calls
    ensures
      var after := Apply(s, e).calls[c].phase;
      after == s.calls[c].phase || Moves(s.table.closed, s.calls[c], e, c, after)
  {
    match e
    case Deliver => assert s.reader.to in s.calls;
    case FailOne(id) => assert s.table.pending[id] in s.calls;
    case _ =>
  }

  lemma NewCallsBegin(s: System, e: Event, c: Caller)
    requires Inv(s) && Enabled(s, e) && c !in s.calls && c in Apply(s, e).calls
    ensures Begins(s, e, c, Apply(s, e))
  {
    assert s.reader.Delivering? ==> s.reader.to in s.calls;
    assert forall id :: id in s.table.pending ==> s.table.pending[id] in s.calls;
  }

  // Every step of a run leaves a call where it is, or moves it along this
  // diagram, or begins it. Once it has returned its entry is gone.
  lemma CallsMoveAlong(run: seq<System>, i: nat, e: Event, c: Caller)
    requires Run(run) && i < |run| && Enabled(run[i], e) && c in Apply(run[i], e).calls
    ensures
      var s, s' := run[i], Apply(run[i], e);
      && (c in s.calls ==>
            s'.calls[c].phase == s.calls[c].phase || Moves(s.table.closed, s.calls[c], e, c, s'.calls[c].phase))
      && (c !in s.calls ==> Begins(s, e, c, s'))
      && (s'.calls[c].phase.Returned? ==> s'.calls[c].id !in s'.table.pending)
  {
    RunKeepsInv(run, i);
    StepKeepsInv(run[i], e);
    if c in run[i].calls {
      OldCallsMove(run[i], e, c);
    } else {
      NewCallsBegin(run[i], e, c);
    }
  }

  // Nothing but the shutdown's hold on the mutex makes a call wait for others,
  // and the select only for what it selects.
  lemma CallsAreFree(s: System, c: Caller)
    requires !s.reader.Failing?
    ensures c !in s.calls ==> Enabled(s, Register(c)) && Enabled(s, Refuse(c))
    ensures InPhase(s, c, Unwritten) ==> Enabled(s, Write(c, true)) && Enabled(s, Write(c, false)) && Enabled(s, MarshalFail(c))
    ensures InPhase(s, c, Waiting) ==> Enabled(s, GiveUp(c)) && (Enabled(s, Receive(c)) <==> s.calls[c].slot.Some?)
    ensures c in s.calls && s.calls[c].phase.Leaving? ==> Enabled(s, Cleanup(c))
  {
  }

  lemma StepIds(s: System, e: Event, c: Caller)
    requires Inv(s) && Enabled(s, e) && (c in s.calls || c in Apply(s, e).calls)
    ensures c in Apply(s, e).calls
    ensures
      var call := Apply(s, e).calls[c];
      if c in s.calls then call.id == s.calls[c].id && call.since == s.calls[c].since
      else (call.id == 0 || call.id > s.table.nextID) && call.since == |s.inbound|
  {
    match e
    case Deliver => assert s.reader.to in s.calls;
    case FailOne(id) => assert s.table.pending[id] in s.calls;
    case _ =>
  }

  lemma NextIds(run: seq<System>, k: nat, c: Caller)
    requires Run(run) && k + 1 < |run|
    ensures c in run[k].calls ==>
      && c in run[k + 1].calls
      && run[k + 1].calls[c].id == run[k].calls[c].id && run[k + 1].calls[c].since == run[k].calls[c].since
    ensures c !in run[k].calls && c in run[k + 1].calls ==>
      && (run[k + 1].calls[c].id == 0 || run[k + 1].calls[c].id > run[k].table.nextID)
      && run[k + 1].calls[c].since == |run[k].inbound|
  {
    RunKeepsInv(run, k);
    var e := StepAt(run, k);
    if c in run[k].calls || c in run[k + 1].calls {
      StepIds(run[k], e, c);
    }
  }

  lemma {:induction false} IdStays(run: seq<System>, i: nat, j: nat, c: Caller)
    requires Run(run) && i <= j < |run| && c in run[i].calls
    ensures c in run[j].calls
    ensures run[j].calls[c].id == run[i].calls[c].id && run[j].calls[c].since == run[i].calls[c].since
    decreases j - i
  {
    if i < j {
      IdStays(run, i, j - 1, c);
      NextIds(run, j - 1, c);
    }
  }

  lemma {:induction false} CountersGrow(run: seq<System>, i: nat, j: nat)
    requires Run(run) && i <= j < |run|
    ensures run[i].table.nextID <= run[j].table.nextID && |run[i].inbound| <= |run[j].inbound|
    decreases j - i
  {
    if i < j {
      CountersGrow(run, i, j - 1);
      var e := StepAt(run, j - 1);
    }
  }

  lemma {:induction false} IdIsNew(run: seq<System>, i: nat, j: nat, c: Caller)
    requires Run(run) && i <= j < |run| && c !in run[i].calls && c in run[j].calls
    ensures run[j].calls[c].id == 0 || run[j].calls[c].id > run[i].table.nextID
    ensures run[j].calls[c].since >= |run[i].inbound|
    decreases j - i
  {
    if i < j {
      NextIds(run, j - 1, c);
      if c in run[j - 1].calls {
        IdIsNew(run, i, j - 1, c);
      } else {
        CountersGrow(run, i, j - 1);
      }
    }
  }

  // Ids are fresh and never reused: a registered call keeps its id, and a call
  // that appears later never registered or carries a larger id, and can only
  // be answered by a response processed after it appeared.
  lemma IdsAreFresh(run: seq<System>, i: nat, j: nat, c: Caller)
    requires Run(run) && i <= j < |run| && c in run[j].calls
    ensures c in run[i].calls ==> run[j].calls[c].id == run[i].calls[c].id && run[j].calls[c].since == run[i].calls[c].since
    ensures c !in run[i].calls ==>
      && (run[j].calls[c].id == 0 || run[j].calls[c].id > run[i].table.nextID)
      && run[j].calls[c].since >= |run[i].inbound|
  {
    if c in run[i].calls {
      IdStays(run, i, j, c);
    } else {
      IdIsNew(run, i, j, c);
    }
  }

  // Two calls of a run never share an id.
  lemma IdsAreDistinct(run: seq<System>, i: nat, c: Caller, d: Caller)
    requires Run(run) && i < |run| && c in run[i].calls && d in run[i].calls
    requires run[i].calls[c].id == run[i].calls[d].id != 0
    ensures c == d
    ensures 1 <= run[i].calls[c].id <= run[i].table.nextID
  {
    RunKeepsInv(run, i);
  }

  // A response nobody waits for changes nothing but the record of what was
  // read: an id that was never issued, a second response for an id that already
  // had its first one, and a late response for a call that has returned, be it
  // that it was cancelled or that its request could not be written.
  lemma StrayResponseIsDropped(run: seq<System>, i: nat, raw: RawMessage)
    requires Run(run) && i < |run| && raw.id.Some? && (raw.result.Some? || raw.error.Some?)
    requires
      || !(1 <= raw.id.value <= run[i].table.nextID)
      || exists c :: c in run[i].calls && run[i].calls[c].id == raw.id.value
           && (run[i].calls[c].phase.Returned? || FirstReply(run[i].inbound, run[i].calls[c].since, raw.id.value).Some?)
    ensures
      var s := run[i];
      ReadMessage(s, raw) == s.(inbound := s.inbound + [Response(raw.id.value, raw.result, raw.error)])
  {
    RunKeepsInv(run, i);
  }

  // ---------------------------------------------------------------------
  // Shutdown
  // ---------------------------------------------------------------------

  lemma NextStaysClosed(run: seq<System>, k: nat)
    requires Run(run) && k + 1 < |run| && run[k].reader.Stopped?
    ensures run[k + 1].reader.Stopped? && run[k + 1].table == run[k].table && run[k + 1].inbound == run[k].inbound
  {
    RunKeepsInv(run, k);
    var e := StepAt(run, k);
  }

  // Once failPending has finished, pending is empty for ever and no later Call
  // registers.
  lemma {:induction false} ClosedForGood(run: seq<System>, i: nat, j: nat)
    requires Run(run) && i <= j < |run| && run[i].reader.Stopped?
    ensures run[j].reader.Stopped? && run[j].table == run[i].table && run[j].table.pending == map[]
    ensures run[j].inbound == run[i].inbound
    decreases j - i
  {
    if i < j {
      ClosedForGood(run, i, j - 1);
      NextStaysClosed(run, j - 1);
    } else {
      RunKeepsInv(run, i);
    }
  }

  // No caller is stranded by a shutdown: a call in the select has a value to
  // receive, a call that has not written yet gets the closed-pipe error from
  // writeLine, or the marshalling error in front of it, and a call on an error
  // path can finish it.
  lemma NobodyIsStranded(run: seq<System>, i: nat, c: Caller)
    requires Run(run) && i < |run| && run[i].reader.Stopped?
    requires c in run[i].calls && !run[i].calls[c].phase.Returned?
    ensures InPhase(run[i], c, Waiting) ==>
      Enabled(run[i], Receive(c)) && Answered(Apply(run[i], Receive(c)).calls[c])
    ensures InPhase(run[i], c, Unwritten) ==>
      && (forall ok :: Enabled(run[i], Write(c, ok)) && Apply(run[i], Write(c, ok)).calls[c].phase == Leaving(ClosedPipe))
      && Enabled(run[i], MarshalFail(c)) && Apply(run[i], MarshalFail(c)).calls[c].phase == Leaving(WriteError)
    ensures run[i].calls[c].phase.Leaving? ==>
      && Enabled(run[i], Cleanup(c))
      && Apply(run[i], Cleanup(c)).calls[c].phase == Returned(Failed(run[i].calls[c].phase.err))
  {
    RunKeepsInv(run, i);
    assert CallInv(run[i], c);
  }

  ghost predicate Extends(run: seq<System>, longer: seq<System>) {
    Run(longer) && |run| <= |longer| && longer[..|run|] == run
  }

  lemma Then(run: seq<System>, e: Event) returns (longer: seq<System>)
    requires Run(run) && Enabled(run[|run| - 1], e)
    ensures Run(longer) && longer == run + [Apply(run[|run| - 1], e)]
  {
    longer := run + [Apply(run[|run| - 1], e)];
    forall i: nat | i + 1 < |longer|
      ensures Linked(longer, i)
    {
      if i + 1 < |run| {
        var e' := StepAt(run, i);
        assert Step(longer[i], e', longer[i + 1]);
      } else {
        assert Step(longer[i], e, longer[i + 1]);
      }
    }
  }

  // After a shutdown every call that is still on its way returns by its own
  // steps alone, which leave everything else as it was: with what its channel
  // holds when it waits, and otherwise with its error.
  lemma CallCompletes(run: seq<System>, c: Caller) returns (longer: seq<System>)
    requires Run(run) && run[|run| - 1].reader.Stopped?
    requires c in run[|run| - 1].calls && !run[|run| - 1].calls[c].phase.Returned?
    ensures Extends(run, longer)
    ensures
      var s, t := run[|run| - 1], longer[|longer| - 1];
      && c in t.calls && t == s.(calls := s.calls[c := t.calls[c]])
      && var before, after := s.calls[c], t.calls[c].phase;
      && (before.phase.Waiting? ==> before.slot.Some? && after == Returned(Reply(before.slot.value)))
      && (before.phase.Unwritten? ==> after == Returned(Failed(ClosedPipe)))
      && (before.phase.Leaving? ==> after == Returned(Failed(before.phase.err)))
  {
    var s := run[|run| - 1];
    ClosedForGood(run, |run| - 1, |run| - 1);
    NobodyIsStranded(run, |run| - 1, c);
    match s.calls[c].phase
    case Waiting => longer := Then(run, Receive(c));
    case Unwritten =>
      var left := Then(run, Write(c, true));
      NobodyIsStranded(left, |run|, c);
      longer := Then(left, Cleanup(c));
    case Leaving(_) => longer := Then(run, Cleanup(c));
  }

  // failPending cannot wedge: from any point inside it, its own steps alone
  // lead to the closed state.
  lemma {:induction false} ShutdownCompletes(run: seq<System>) returns (longer: seq<System>)
    requires Run(run) && run[|run| - 1].reader.Failing?
    ensures Extends(run, longer) && longer[|longer| - 1].reader.Stopped?
    decreases run[|run| - 1].table.pending.Keys
  {
    var s := run[|run| - 1];
    SendsNeverBlock(run, |run| - 1);
    if s.table.pending.Keys == {} {
      assert s.table.pending == map[];
      longer := Then(run, FailEnd);
    } else {
      var id := AnElement(s.table.pending.Keys);
      var one := Then(run, FailOne(id));
      longer := ShutdownCompletes(one);
      assert longer[..|run|] == longer[..|one|][..|run|];
    }
  }

  // The end of the input stops the transport whoever is still calling: from any
  // point at which the reader reads, and from the middle of a delivery.
  lemma InputEnds(run: seq<System>) returns (longer: seq<System>)
    requires Run(run) && !run[|run| - 1].reader.Stopped?
    ensures Extends(run, longer) && longer[|longer| - 1].reader.Stopped? && longer[|longer| - 1].table.pending == map[]
  {
    longer := run;
    if longer[|longer| - 1].reader.Delivering? {
      SendsNeverBlock(run, |run| - 1);
      longer := Then(run, Deliver);
    }
    if longer[|longer| - 1].reader.Reading? {
      longer := Then(longer, FailBegin);
    }
    var failing := longer;
    longer := ShutdownCompletes(failing);
    assert longer[..|run|] == longer[..|failing|][..|run|];
    ClosedForGood(longer, |longer| - 1, |longer| - 1);
  }
}
