// The agent side of ACP (internal/acpserver/server.go and session.go): one
// dispatcher, one goroutine per turn, a shared writer and one cancel slot per
// session.
module AcpServer {
  import opened Prelude

  // The number in "yanshi-N".
  type SessionId = nat

  // One per cancel function made by startPrompt; it also names the turn.
  type Token = nat

  // ---------------------------------------------------------------------
  // Streaming one turn
  // ---------------------------------------------------------------------

  datatype Item =
    | MessageDelta(text: string)
    | ReasoningDelta(text: string)
    | ToolCall(tool: string, name: string)
    | ToolProgress(tool: string, name: string)
    | ToolResult(tool: string, name: string, error: string, status: string)
    | TurnError(error: string, text: string)
    | TurnCompleted
    | OtherItem

  datatype Update =
    | MessageChunk(text: string)
    | ThoughtChunk(text: string)
    | ToolStart(tool: string, name: string, status: string)
    | ToolUpdate(tool: string, name: string, status: string)

  function TerminalStopReason(item: Item): Option<string> {
    match item
    case TurnCompleted => Some("end_turn")
    case TurnError(_, _) => Some("refusal")
    case _ => None
  }

  function UpdateFor(item: Item): Option<Update> {
    match item
    case MessageDelta(text) => if text != "" then Some(MessageChunk(text)) else None
    case ReasoningDelta(text) => if text != "" then Some(ThoughtChunk(text)) else None
    case ToolCall(tool, name) => Some(ToolStart(tool, name, "pending"))
    case ToolProgress(tool, name) => Some(ToolUpdate(tool, name, "in_progress"))
    case ToolResult(tool, name, error, status) =>
      Some(ToolUpdate(tool, name, if error != "" || status == "error" then "failed" else "completed"))
    case TurnError(error, text) =>
      Some(MessageChunk(if error != "" then "turn failed: " + error else if text != "" then "turn failed: " + text else "turn failed"))
    case _ => None
  }

  // What the host should see of a turn, and why it stopped.
  function Updates(items: seq<Item>): seq<Update> {
    if items == [] then []
    else
      var n := |items| - 1;
      Updates(items[..n]) + if UpdateFor(items[n]).Some? then [UpdateFor(items[n]).value] else []
  }

  // The last terminal item decides; without one the turn just ended.
  function StopReason(items: seq<Item>): string {
    if items == [] then "end_turn"
    else
      var n := |items| - 1;
      if TerminalStopReason(items[n]).Some? then TerminalStopReason(items[n]).value else StopReason(items[..n])
  }

  datatype Frame = Notify(update: Update) | Answer(stop: string)

  function Notifies(updates: seq<Update>): (frames: seq<Frame>)
    ensures |frames| == |updates|
  {
    seq(|updates|, k requires 0 <= k < |updates| => Notify(updates[k]))
  }

  function Stop(items: seq<Item>, cancelled: bool): string { if cancelled then "cancelled" else StopReason(items) }

  ghost predicate FirstFailure(updates: seq<Update>, works: nat -> bool, k: nat) {
    k <= |updates| && !works(k) && forall j: nat :: j < k ==> works(j)
  }

  // What a turn writes: works(k) says whether its k-th write succeeds. With no
  // failure all updates in order and the answer; otherwise what came before the
  // first failed write.
  ghost predicate Streamed(items: seq<Item>, cancelled: bool, works: nat -> bool, written: seq<Frame>, failed: bool) {
    var updates := Updates(items);
    if forall k: nat :: k <= |updates| ==> works(k) then
      !failed && written == Notifies(updates) + [Answer(Stop(items, cancelled))]
    else
      failed && exists k: nat :: FirstFailure(updates, works, k) && written == Notifies(updates[..k])
  }

  // After n writes: all the updates are out, or the n-th write was the first
  // to fail and everything before it is out.
  ghost predicate Sent(updates: seq<Update>, works: nat -> bool, failed: bool, n: nat, written: seq<Frame>) {
    && n <= |updates| && (forall j: nat :: j < n ==> works(j)) && written == Notifies(updates[..n])
    && if failed then n < |updates| && !works(n) else n == |updates|
  }

  lemma SentMore(updates: seq<Update>, u: Update, works: nat -> bool, n: nat, written: seq<Frame>)
    requires Sent(updates, works, false, n, written)
    ensures works(n) ==> Sent(updates + [u], works, false, n + 1, written + [Notify(u)])
    ensures !works(n) ==> Sent(updates + [u], works, true, n, written)
  {
    assert (updates + [u])[..n] == updates[..n];
    assert (updates + [u])[..n + 1] == updates + [u] && updates[..n] == updates;
  }

  lemma SentStill(updates: seq<Update>, u: Update, works: nat -> bool, n: nat, written: seq<Frame>)
    requires Sent(updates, works, true, n, written)
    ensures Sent(updates + [u], works, true, n, written)
  {
    assert (updates + [u])[..n] == updates[..n];
  }

  lemma NextItem(items: seq<Item>, n: nat)
    requires n < |items|
    ensures
      var update := UpdateFor(items[n]);
      Updates(items[..n + 1]) == Updates(items[..n]) + if update.Some? then [update.value] else []
    ensures
      var stop := TerminalStopReason(items[n]);
      StopReason(items[..n + 1]) == if stop.Some? then stop.value else StopReason(items[..n])
  {
    assert items[..n + 1][..n] == items[..n];
  }

  // The loop has taken k items.
  ghost predicate Taken(items: seq<Item>, k: nat, works: nat -> bool, stop: string, n: nat, written: seq<Frame>, failed: bool) {
    k <= |items| && stop == StopReason(items[..k]) && Sent(Updates(items[..k]), works, failed, n, written)
  }

  lemma TakenNext(items: seq<Item>, k: nat, works: nat -> bool, stop: string, n: nat, written: seq<Frame>, failed: bool)
    requires k < |items| && Taken(items, k, works, stop, n, written, failed)
    ensures
      var update, last := UpdateFor(items[k]), TerminalStopReason(items[k]);
      var stop' := if last.Some? then last.value else stop;
      if update == None || failed then Taken(items, k + 1, works, stop', n, written, failed)
      else if works(n) then Taken(items, k + 1, works, stop', n + 1, written + [Notify(update.value)], false)
      else Taken(items, k + 1, works, stop', n, written, true)
  {
    var update := UpdateFor(items[k]);
    NextItem(items, k);
    if update == None {
      assert Updates(items[..k]) + [] == Updates(items[..k]);
    } else if failed {
      SentStill(Updates(items[..k]), update.value, works, n, written);
    } else {
      SentMore(Updates(items[..k]), update.value, works, n, written);
    }
  }

  // All items are taken: the answer is written, or fails, or is not tried.
  lemma TakenAll(items: seq<Item>, cancelled: bool, works: nat -> bool, stop: string, n: nat, written: seq<Frame>, failed: bool)
    requires Taken(items, |items|, works, stop, n, written, failed)
    ensures
      var answer := Answer(if cancelled then "cancelled" else stop);
      if !failed && works(n) then Streamed(items, cancelled, works, written + [answer], false)
      else Streamed(items, cancelled, works, written, true)
  {
    assert items[..|items|] == items;
    if failed || !works(n) {
      assert Updates(items)[..|Updates(items)|] == Updates(items);
      assert FirstFailure(Updates(items), works, n);
    }
  }

  // The loop runs over all items whatever the writes do, so the channel is
  // always drained.
  method StreamTurn(items: seq<Item>, cancelled: bool, works: nat -> bool)
    returns (written: seq<Frame>, drained: nat, failed: bool)
    ensures drained == |items|
    ensures Streamed(items, cancelled, works, written, failed)
  {
    var stop := "end_turn";
    var n := 0; // writes made
    written, drained, failed := [], 0, false;
    while drained < |items|
      invariant 0 <= drained <= |items|
      invariant Taken(items, drained, works, stop, n, written, failed)
    {
      var item := items[drained];
      TakenNext(items, drained, works, stop, n, written, failed);
      if TerminalStopReason(item).Some? {
        stop := TerminalStopReason(item).value;
      }
      drained := drained + 1;
      var update := UpdateFor(item);
      if update == None || failed {
        continue;
      }
      if works(n) {
        written := written + [Notify(update.value)];
        n := n + 1;
      } else {
        failed := true;
      }
    }
    TakenAll(items, cancelled, works, stop, n, written, failed);
    if cancelled {
      stop := "cancelled";
    }
    if failed {
      return;
    }
    if works(n) {
      written := written + [Answer(stop)];
    } else {
      failed := true;
    }
  }

  // A turn error with no completion after it: the last item that ends a turn.
  ghost predicate EndsInError(items: seq<Item>) {
    exists k :: 0 <= k < |items| && items[k].TurnError? && TurnCompleted !in items[k + 1..]
  }

  lemma EndsInErrorPush(items: seq<Item>, last: Item)
    ensures EndsInError(items + [last]) <==> last.TurnError? || (EndsInError(items) && last != TurnCompleted)
  {
    var longer := items + [last];
    if last.TurnError? {
      assert longer[|items|] == last && longer[|items| + 1..] == [];
    }
    if EndsInError(longer) {
      var k :| 0 <= k < |longer| && longer[k].TurnError? && TurnCompleted !in longer[k + 1..];
      assert k < |items| ==> longer[k] == items[k] && longer[k + 1..] == items[k + 1..] + [last];
    }
    if EndsInError(items) && last != TurnCompleted {
      var k :| 0 <= k < |items| && items[k].TurnError? && TurnCompleted !in items[k + 1..];
      assert longer[k] == items[k] && longer[k + 1..] == items[k + 1..] + [last];
    }
  }

  // Why a turn stopped, by what was in its channel.
  lemma {:induction false} StopReasonSaysHow(items: seq<Item>, cancelled: bool)
    ensures Stop(items, cancelled) == if cancelled then "cancelled" else if EndsInError(items) then "refusal" else "end_turn"
    decreases |items|
  {
    if items != [] {
      var front, last := items[..|items| - 1], items[|items| - 1];
      assert items == front + [last];
      StopReasonSaysHow(front, false);
      EndsInErrorPush(front, last);
    }
  }

  lemma {:induction false} UpdatesConcat(a: seq<Item>, b: seq<Item>)
    ensures Updates(a + b) == Updates(a) + Updates(b)
    decreases |b|
  {
    if b == [] {
      assert a + b == a && Updates(a) + [] == Updates(a);
    } else {
      var front, last := b[..|b| - 1], b[|b| - 1];
      assert a + b == (a + front) + [last] && (a + b)[..|a + b| - 1] == a + front;
      UpdatesConcat(a, front);
    }
  }

  // What one item puts on the host's screen, in its place: message and thought
  // text unless empty, tool calls with their status, the text of a turn error,
  // and nothing for anything else.
  ghost predicate Shows(item: Item, shown: seq<Update>) {
    match item
    case MessageDelta(text) => if text == "" then shown == [] else shown == [MessageChunk(text)]
    case ReasoningDelta(text) => if text == "" then shown == [] else shown == [ThoughtChunk(text)]
    case ToolCall(tool, name) => shown == [ToolStart(tool, name, "pending")]
    case ToolProgress(tool, name) => shown == [ToolUpdate(tool, name, "in_progress")]
    case ToolResult(tool, name, "", status) =>
      shown == [ToolUpdate(tool, name, if status == "error" then "failed" else "completed")]
    case ToolResult(tool, name, _, _) => shown == [ToolUpdate(tool, name, "failed")]
    case TurnError("", "") => shown == [MessageChunk("turn failed")]
    case TurnError("", text) => shown == [MessageChunk("turn failed: " + text)]
    case TurnError(error, _) => shown == [MessageChunk("turn failed: " + error)]
    case TurnCompleted => shown == []
    case OtherItem => shown == []
  }

  lemma EachItemShowsInItsPlace(items: seq<Item>, k: nat) returns (shown: seq<Update>)
    requires k < |items|
    ensures Shows(items[k], shown)
    ensures Updates(items) == Updates(items[..k]) + shown + Updates(items[k + 1..])
  {
    shown := Updates([items[k]]);
    assert [items[k]][..0] == [];
    assert items == items[..k] + [items[k]] + items[k + 1..];
    UpdatesConcat(items[..k] + [items[k]], items[k + 1..]);
    UpdatesConcat(items[..k], [items[k]]);
  }

  // ---------------------------------------------------------------------
  // The session table
  // ---------------------------------------------------------------------

  class Session {
    const thread: string
    var cancel: Option<Token>

    constructor (thread: string)
      ensures this.thread == thread && cancel == None
    {
      this.thread := thread;
      cancel := None;
    }
  }

  class Table {
    var sessions: map<SessionId, Session>
    var nextID: nat

    ghost predicate Valid()
      reads this
    {
      && (forall s :: s in sessions ==> 1 <= s <= nextID)
      && (forall s, t :: s in sessions && t in sessions && s != t ==> sessions[s] != sessions[t])
    }

    ghost function Slots(): map<SessionId, Option<Token>>
      reads this, sessions.Values
    {
      map s | s in sessions :: sessions[s].cancel
    }

    constructor ()
      ensures Valid() && sessions == map[] && nextID == 0
    {
      sessions, nextID := map[], 0;
    }

    method NewSession(thread: string) returns (id: SessionId)
      requires Valid()
      modifies this
      ensures Valid() && id == old(nextID) + 1 == nextID && id !in old(sessions)
      ensures Slots() == old(Slots())[id := None]
      ensures id in sessions && sessions[id].thread == thread
    {
      nextID := nextID + 1;
      id := nextID;
      var session := new Session(thread);
      sessions := sessions[id := session];
    }

    method SetCancel(s: SessionId, token: Token)
      requires Valid() && s in sessions
      modifies sessions[s]
      ensures Valid() && Slots() == old(Slots())[s := Some(token)]
    {
      sessions[s].cancel := Some(token);
    }

    method ClearCancel(s: SessionId)
      requires Valid() && s in sessions
      modifies sessions[s]
      ensures Valid() && Slots() == old(Slots())[s := None]
    {
      sessions[s].cancel := None;
    }

    // The locked part of cancelSession: which cancel function to call, if any.
    method SlotOf(s: SessionId) returns (cancel: Option<Token>)
      ensures cancel == if s in sessions then sessions[s].cancel else None
    {
      cancel := None;
      if s in sessions {
        cancel := sessions[s].cancel;
      }
    }
  }

  // ---------------------------------------------------------------------
  // The machine: dispatcher and turn goroutines interleaved
  // ---------------------------------------------------------------------

  // The cancel slots. latest is the token set last on a session; clears counts
  // how often a session's slot was cleared, and clearsAt the same at the time a
  // token was set.
  datatype Slots = Slots(
    slot: map<SessionId, Option<Token>>, latest: map<SessionId, Token>,
    clears: map<SessionId, nat>, clearsAt: map<Token, nat>, nextToken: Token)
  {
    function Opened(x: SessionId): Slots { Slots(slot[x := None], latest, clears[x := 0], clearsAt, nextToken) }

    function Set(x: SessionId): Slots
      requires x in clears
    {
      Slots(slot[x := Some(nextToken)], latest[x := nextToken], clears, clearsAt[nextToken := clears[x]], nextToken + 1)
    }

    function Cleared(x: SessionId): Slots
      requires x in clears
    {
      Slots(slot[x := None], latest, clears[x := clears[x] + 1], clearsAt, nextToken)
    }

    // A slot is nil or holds the session's latest token, and it holds it exactly
    // as long as the slot has not been cleared since.
    ghost predicate SlotOk(x: SessionId) {
      && x in slot && x in clears
      && if x !in latest then slot[x] == None
         else
           && latest[x] < nextToken && latest[x] in clearsAt
           && clearsAt[latest[x]] <= clears[x]
           && slot[x] == if clearsAt[latest[x]] == clears[x] then Some(latest[x]) else None
    }

    ghost predicate Ok() { forall x :: x in slot || x in clears || x in latest ==> SlotOk(x) }
  }

  lemma OpenedIsOk(s: Slots, x: SessionId)
    requires s.Ok() && x !in s.slot
    ensures s.Opened(x).Ok()
  {
    forall y | y in s.Opened(x).slot || y in s.Opened(x).clears || y in s.Opened(x).latest
      ensures s.Opened(x).SlotOk(y)
    {
      assert y in s.slot || y in s.clears || y in s.latest ==> s.SlotOk(y);
    }
  }

  lemma SetIsOk(s: Slots, x: SessionId)
    requires s.Ok() && x in s.clears
    ensures s.Set(x).Ok()
  {
    forall y | y in s.Set(x).slot || y in s.Set(x).clears || y in s.Set(x).latest
      ensures s.Set(x).SlotOk(y)
    {
      assert s.SlotOk(x) && s.SlotOk(y);
    }
  }

  lemma ClearedIsOk(s: Slots, x: SessionId)
    requires s.Ok() && x in s.clears
    ensures s.Cleared(x).Ok() && (x in s.slot ==> s.Cleared(x).slot.Keys == s.slot.Keys)
  {
    forall y | y in s.Cleared(x).slot || y in s.Cleared(x).clears || y in s.Cleared(x).latest
      ensures s.Cleared(x).SlotOk(y)
    {
      assert s.SlotOk(x) && s.SlotOk(y);
    }
  }

  // Requests are numbered in arrival order, so a host that repeats an id still
  // makes two requests.
  datatype Line = Response(req: nat, id: int, stop: string) | Updated(turn: Token, update: Update)

  // ids: of the requests read so far; owner: the turn a request was handed to;
  // failed: the requests a write on whose behalf failed.
  datatype Traffic = Traffic(ids: seq<int>, out: seq<Line>, owner: map<nat, Token>, failed: set<nat>)
  {
    function Read(id: int): Traffic { Traffic(ids + [id], out, owner, failed) }

    // Writing a line on behalf of a request.
    function Write(l: Line, req: nat, ok: bool): Traffic {
      if ok then Traffic(ids, out + [l], owner, failed) else Traffic(ids, out, owner, failed + {req})
    }

    // stop is "" in the answers the dispatcher writes.
    function Answer(req: nat, stop: string): Line { Response(req, if req < |ids| then ids[req] else 0, stop) }
  }

  datatype Phase =
    | Streaming  // ranging over the item channel
    | Answering  // channel closed, the response still to be written
    | Clearing   // deferred clearCancel still to run
    | Cancelling // deferred cancel still to run
    | Finished

  // items: what it has taken from its channel; aborted: what its context said
  // when the channel was closed.
  datatype Turn = Turn(session: SessionId, req: nat, phase: Phase, writeFailed: bool, items: seq<Item>, aborted: bool)

  datatype Dispatcher =
    | Idle
    | Prompting(req: nat, session: SessionId)
    | Starting(req: nat, session: SessionId, token: Token)
    | Refusing(req: nat, session: SessionId)
    | Replying(req: nat)
    | Aborting(session: SessionId, token: Token)  // cancelSession between unlock and call
    | Draining                                    // inflight.Wait
    | Returned

  // cancelled: the tokens whose cancel function ran.
  datatype System = System(slots: Slots, dispatcher: Dispatcher, turns: map<Token, Turn>, traffic: Traffic, cancelled: set<Token>)

  const START := System(Slots(map[], map[], map[], map[], 0), Idle, map[], Traffic([], [], map[], {}), {})

  datatype Event =
    | NewSessionRequest(id: int, x: SessionId)
    | OtherRequest(id: int)                  // answered by the dispatcher, well formed or not
    | PromptRequest(id: int, x: SessionId)
    | SetSlot
    | StartTurn(ok: bool)
    | ClearRefused
    | WriteReply(ok: bool)
    | CancelNote(x: SessionId)
    | Abort
    | Eof
    | Return
    | ItemOf(t: Token, item: Item, ok: bool)
    | CloseOf(t: Token, outer: bool)         // the channel is drained, then ctx.Err is read
    | AnswerOf(t: Token, ok: bool)
    | ClearOf(t: Token)
    | CancelOf(t: Token)

  function StopOf(t: Turn): string { Stop(t.items, t.aborted) }

  predicate At(s: System, t: Token, p: Phase) { t in s.turns && s.turns[t].phase == p }

  predicate Known(s: System, x: SessionId) { x in s.slots.slot && x in s.slots.clears }

  // A fresh session id is never one already handed out.
  predicate Enabled(s: System, e: Event) {
    match e
    case NewSessionRequest(_, x) => s.dispatcher.Idle? && x !in s.slots.slot
    case OtherRequest(_) => s.dispatcher.Idle?
    case PromptRequest(_, _) => s.dispatcher.Idle?
    case SetSlot => s.dispatcher.Prompting? && Known(s, s.dispatcher.session)
    case StartTurn(_) => s.dispatcher.Starting?
    case ClearRefused => s.dispatcher.Refusing? && Known(s, s.dispatcher.session)
    case WriteReply(_) => s.dispatcher.Replying?
    case CancelNote(_) => s.dispatcher.Idle?
    case Abort => s.dispatcher.Aborting?
    case Eof => s.dispatcher.Idle?
    case Return => s.dispatcher.Draining? && forall t :: t in s.turns ==> s.turns[t].phase.Finished?
    case ItemOf(t, _, _) => At(s, t, Streaming)
    case CloseOf(t, _) => At(s, t, Streaming)
    case AnswerOf(t, _) => At(s, t, Answering)
    case ClearOf(t) => At(s, t, Clearing) && Known(s, s.turns[t].session)
    case CancelOf(t) => At(s, t, Cancelling)
  }

  function Enter(s: System, t: Token, p: Phase): map<Token, Turn>
    requires t in s.turns
  {
    s.turns[t := s.turns[t].(phase := p)]
  }

  function Apply(s: System, e: Event): System
    requires Enabled(s, e)
  {
    var d, n := s.dispatcher, |s.traffic.ids|;
    match e
    case NewSessionRequest(id, x) =>
      System(s.slots.Opened(x), Replying(n), s.turns, s.traffic.Read(id), s.cancelled)
    case OtherRequest(id) => System(s.slots, Replying(n), s.turns, s.traffic.Read(id), s.cancelled)
    case PromptRequest(id, x) =>
      System(s.slots, if x in s.slots.slot then Prompting(n, x) else Replying(n), s.turns, s.traffic.Read(id), s.cancelled)
    case SetSlot =>
      System(s.slots.Set(d.session), Starting(d.req, d.session, s.slots.nextToken), s.turns, s.traffic, s.cancelled)
    case StartTurn(true) =>
      System(s.slots, Idle, s.turns[d.token := Turn(d.session, d.req, Streaming, false, [], false)],
             s.traffic.(owner := s.traffic.owner[d.req := d.token]), s.cancelled)
    case StartTurn(false) =>
      System(s.slots, Refusing(d.req, d.session), s.turns, s.traffic, s.cancelled + {d.token})
    case ClearRefused => System(s.slots.Cleared(d.session), Replying(d.req), s.turns, s.traffic, s.cancelled)
    case WriteReply(ok) =>
      System(s.slots, if ok then Idle else Draining, s.turns, s.traffic.Write(s.traffic.Answer(d.req, ""), d.req, ok), s.cancelled)
    case CancelNote(x) =>
      if x in s.slots.slot && s.slots.slot[x].Some?
      then System(s.slots, Aborting(x, s.slots.slot[x].value), s.turns, s.traffic, s.cancelled)
      else s
    case Abort => System(s.slots, Idle, s.turns, s.traffic, s.cancelled + {d.token})
    case Eof => System(s.slots, Draining, s.turns, s.traffic, s.cancelled)
    case Return => System(s.slots, Returned, s.turns, s.traffic, s.cancelled)
    case ItemOf(t, item, ok) =>
      var taken := s.turns[t].(items := s.turns[t].items + [item]);
      if UpdateFor(item) == None || taken.writeFailed then System(s.slots, d, s.turns[t := taken], s.traffic, s.cancelled)
      else
        System(s.slots, d, s.turns[t := if ok then taken else taken.(writeFailed := true)],
               s.traffic.Write(Updated(t, UpdateFor(item).value), s.turns[t].req, ok), s.cancelled)
    case CloseOf(t, outer) =>
      System(s.slots, d, s.turns[t := s.turns[t].(phase := Answering, aborted := outer || t in s.cancelled)],
             s.traffic, s.cancelled)
    case AnswerOf(t, ok) =>
      System(s.slots, d, Enter(s, t, Clearing),
             if s.turns[t].writeFailed then s.traffic
             else s.traffic.Write(s.traffic.Answer(s.turns[t].req, StopOf(s.turns[t])), s.turns[t].req, ok),
             s.cancelled)
    case ClearOf(t) => System(s.slots.Cleared(s.turns[t].session), d, Enter(s, t, Cancelling), s.traffic, s.cancelled)
    case CancelOf(t) => System(s.slots, d, Enter(s, t, Finished), s.traffic, s.cancelled + {t})
  }

  // ---------------------------------------------------------------------
  // The invariant
  // ---------------------------------------------------------------------

  // How many responses a request has had.
  function Responses(out: seq<Line>, req: nat): nat {
    if out == [] then 0
    else
      var last := out[|out| - 1];
      Responses(out[..|out| - 1], req) + if last.Response? && last.req == req then 1 else 0
  }

  lemma ResponsesPush(out: seq<Line>, l: Line, req: nat)
    ensures Responses(out + [l], req) == Responses(out, req) + if l.Response? && l.req == req then 1 else 0
  {
    assert (out + [l])[..|out|] == out;
  }

  lemma {:induction false} NoResponseYet(out: seq<Line>, req: nat)
    requires Responses(out, req) == 0
    ensures forall k :: 0 <= k < |out| && out[k].Response? ==> out[k].req != req
    decreases |out|
  {
    if out != [] {
      NoResponseYet(out[..|out| - 1], req);
      assert forall k :: 0 <= k < |out| - 1 ==> out[k] == out[..|out| - 1][k];
    }
  }

  predicate Unanswered(t: Turn) { t.phase.Streaming? || t.phase.Answering? }

  // The request the dispatcher itself still has to answer.
  function Held(d: Dispatcher): Option<nat> {
    match d
    case Prompting(req, _) => Some(req)
    case Starting(req, _, _) => Some(req)
    case Refusing(req, _) => Some(req)
    case Replying(req) => Some(req)
    case _ => None
  }

  ghost predicate TurnsInv(s: System) {
    var tr := s.traffic;
    && (forall t :: t in s.turns ==>
          && t < s.slots.nextToken
          && s.turns[t].session in s.slots.slot
          && s.turns[t].req < |tr.ids| && s.turns[t].req in tr.owner && tr.owner[s.turns[t].req] == t)
    && (forall req :: req in tr.owner ==> tr.owner[req] in s.turns && s.turns[tr.owner[req]].req == req)
  }

  ghost predicate DispatcherInv(s: System) {
    var d, held := s.dispatcher, Held(s.dispatcher);
    && (held.Some? ==> held.value < |s.traffic.ids| && held.value !in s.traffic.owner)
    && (d.Prompting? || d.Starting? || d.Refusing? ==> d.session in s.slots.slot)
    && (d.Starting? ==> d.token < s.slots.nextToken && d.token !in s.turns)
    && (d.Aborting? ==> d.session in s.slots.latest && d.token == s.slots.latest[d.session])
    && (d.Returned? ==> forall t :: t in s.turns ==> s.turns[t].phase.Finished?)
  }

  // Not answered yet: not even read, held by the dispatcher, or by a turn.
  predicate Open(s: System, req: nat) {
    || req >= |s.traffic.ids|
    || Held(s.dispatcher) == Some(req)
    || (req in s.traffic.owner && s.traffic.owner[req] in s.turns && Unanswered(s.turns[s.traffic.owner[req]]))
  }

  // A request has no response while it is open or when one of its own writes
  // failed, and exactly one otherwise.
  predicate RequestOk(s: System, req: nat) {
    Responses(s.traffic.out, req) == if Open(s, req) || req in s.traffic.failed then 0 else 1
  }

  // Among the open requests those of a turn that knows of its failed write are
  // the ones with a failed write.
  predicate FailureKnown(s: System, req: nat) {
    Open(s, req) ==>
      (req in s.traffic.failed
       <==> req in s.traffic.owner && s.traffic.owner[req] in s.turns && s.turns[s.traffic.owner[req]].writeFailed)
  }

  // Line i is an update of the turn whose response is line j.
  ghost predicate UpdateOf(s: System, i: nat, j: nat)
    requires i < |s.traffic.out| && j < |s.traffic.out|
  {
    var out := s.traffic.out;
    out[i].Updated? && out[j].Response? && out[i].turn in s.turns && out[j].req == s.turns[out[i].turn].req
  }

  ghost predicate LinesInv(s: System) {
    var out := s.traffic.out;
    && (forall k :: 0 <= k < |out| && out[k].Updated? ==> out[k].turn in s.turns)
    && (forall k :: 0 <= k < |out| && out[k].Response? ==> out[k].req < |s.traffic.ids| && out[k].id == s.traffic.ids[out[k].req])
    && (forall i, j :: 0 <= i < |out| && 0 <= j < |out| && UpdateOf(s, i, j) ==> i < j)
  }

  ghost predicate RequestsInv(s: System) { forall req: nat :: RequestOk(s, req) && FailureKnown(s, req) }

  ghost predicate Inv(s: System) {
    && s.slots.Ok()
    && TurnsInv(s)
    && DispatcherInv(s)
    && RequestsInv(s)
    && LinesInv(s)
  }

  // ---------------------------------------------------------------------
  // Frames: what a step leaves alone keeps its part of the invariant
  // ---------------------------------------------------------------------

  // The lines stay, turns keep their requests, requests keep their ids.
  ghost predicate SameLines(s: System, s': System) {
    && s.traffic.ids <= s'.traffic.ids
    && (forall t :: t in s.turns ==> t in s'.turns && s'.turns[t].req == s.turns[t].req)
  }

  lemma LinesStay(s: System, s': System)
    requires LinesInv(s) && SameLines(s, s') && s'.traffic.out == s.traffic.out
    ensures LinesInv(s')
  {
    var out := s.traffic.out;
    forall i, j | 0 <= i < |out| && 0 <= j < |out| && UpdateOf(s', i, j)
      ensures i < j
    {
      assert UpdateOf(s, i, j);
    }
  }

  // A new line: an update of a turn not answered yet, or a response with its id.
  lemma LineAdded(s: System, s': System, l: Line)
    requires LinesInv(s) && SameLines(s, s') && s'.traffic.out == s.traffic.out + [l]
    requires l.Response? ==> l.req < |s.traffic.ids| && l.id == s.traffic.ids[l.req]
    requires l.Updated? ==> l.turn in s.turns && Responses(s.traffic.out, s.turns[l.turn].req) == 0
    ensures LinesInv(s')
  {
    var out, out' := s.traffic.out, s'.traffic.out;
    if l.Updated? {
      NoResponseYet(out, s.turns[l.turn].req);
    }
    forall i, j | 0 <= i < |out'| && 0 <= j < |out'| && UpdateOf(s', i, j)
      ensures i < j
    {
      if i < |out| && j < |out| {
        assert UpdateOf(s, i, j);
      }
    }
  }

  // As answered, and as far as the lines go, the same.
  ghost predicate SameTurn(a: Turn, b: Turn) {
    a.session == b.session && a.req == b.req && a.writeFailed == b.writeFailed && Unanswered(a) == Unanswered(b)
  }

  lemma RequestsStay(s: System, s': System)
    requires RequestsInv(s)
    requires s'.turns == s.turns && s'.traffic == s.traffic && Held(s'.dispatcher) == Held(s.dispatcher)
    ensures RequestsInv(s')
  {
    forall req: nat
      ensures RequestOk(s', req) && FailureKnown(s', req)
    {
      assert RequestOk(s, req) && FailureKnown(s, req);
    }
  }

  // The dispatcher moves without touching turns or lines.
  lemma DispatcherMoves(s: System, s': System)
    requires Inv(s) && s'.turns == s.turns && s'.traffic == s.traffic && Held(s'.dispatcher) == Held(s.dispatcher)
    requires s'.slots.Ok() && s.slots.slot.Keys <= s'.slots.slot.Keys && s.slots.nextToken <= s'.slots.nextToken
    requires DispatcherInv(s')
    ensures Inv(s')
  {
    RequestsStay(s, s');
    LinesStay(s, s');
  }

  lemma TurnsStay(s: System, s': System, t: Token, turn: Turn)
    requires TurnsInv(s) && DispatcherInv(s) && t in s.turns && !s.turns[t].phase.Finished?
    requires turn.session == s.turns[t].session && turn.req == s.turns[t].req
    requires s'.turns == s.turns[t := turn] && s'.traffic.ids == s.traffic.ids && s'.traffic.owner == s.traffic.owner
    requires s'.dispatcher == s.dispatcher && s'.slots.slot.Keys == s.slots.slot.Keys
    requires s'.slots.nextToken == s.slots.nextToken && s'.slots.latest == s.slots.latest
    ensures TurnsInv(s') && DispatcherInv(s') && SameLines(s, s')
  {
    assert !s.dispatcher.Returned?;
    assert forall u :: u in s'.turns ==> s'.turns[u].session == s.turns[u].session && s'.turns[u].req == s.turns[u].req;
  }

  lemma OpenStays(s: System, s': System, t: Token, turn: Turn)
    requires RequestsInv(s) && t in s.turns && SameTurn(s.turns[t], turn)
    requires s'.turns == s.turns[t := turn] && s'.traffic == s.traffic && s'.dispatcher == s.dispatcher
    ensures RequestsInv(s')
  {
    forall req: nat
      ensures RequestOk(s', req) && FailureKnown(s', req)
    {
      assert RequestOk(s, req) && FailureKnown(s, req);
      assert Open(s', req) == Open(s, req);
    }
  }

  // One turn goes on without writing or answering.
  lemma TurnMoves(s: System, slots: Slots, t: Token, turn: Turn, cancelled: set<Token>)
    requires Inv(s) && t in s.turns && !s.turns[t].phase.Finished? && SameTurn(s.turns[t], turn)
    requires slots.Ok() && slots.slot.Keys == s.slots.slot.Keys
    requires slots.nextToken == s.slots.nextToken && slots.latest == s.slots.latest
    ensures Inv(System(slots, s.dispatcher, s.turns[t := turn], s.traffic, cancelled))
  {
    var s' := System(slots, s.dispatcher, s.turns[t := turn], s.traffic, cancelled);
    TurnsStay(s, s', t, turn);
    OpenStays(s, s', t, turn);
    LinesStay(s, s');
  }

  // Open in both or in neither, and under a turn of the same mind.
  ghost predicate OpensAlike(s: System, s': System, req: nat) {
    && Open(s', req) == Open(s, req)
    && (req in s.traffic.owner <==> req in s'.traffic.owner)
    && (req in s.traffic.owner && s.traffic.owner[req] in s.turns ==>
          && s'.traffic.owner[req] == s.traffic.owner[req]
          && s'.traffic.owner[req] in s'.turns
          && s'.turns[s'.traffic.owner[req]].writeFailed == s.turns[s.traffic.owner[req]].writeFailed)
  }

  // One request is answered, or its last write fails, or its turn had given up
  // on writing; every other request stays as open as it was.
  lemma RequestCloses(s: System, s': System, closed: nat, stop: string, write: bool, ok: bool)
    requires TurnsInv(s) && RequestsInv(s) && closed < |s.traffic.ids| && Open(s, closed) && !Open(s', closed)
    requires write <==> closed !in s.traffic.failed
    requires s'.traffic == if write then s.traffic.Write(s.traffic.Answer(closed, stop), closed, ok) else s.traffic
    requires forall req: nat :: req != closed ==> OpensAlike(s, s', req)
    ensures RequestsInv(s')
  {
    forall req: nat
      ensures RequestOk(s', req) && FailureKnown(s', req)
    {
      assert RequestOk(s, req) && FailureKnown(s, req);
      ResponsesPush(s.traffic.out, s.traffic.Answer(closed, stop), req);
      assert req != closed ==> OpensAlike(s, s', req);
    }
  }

  // ---------------------------------------------------------------------
  // Every step keeps the invariant
  // ---------------------------------------------------------------------

  lemma RequestArrives(s: System, s': System, id: int)
    requires TurnsInv(s) && DispatcherInv(s) && RequestsInv(s)
    requires s'.turns == s.turns && s'.traffic == s.traffic.Read(id)
    requires Held(s.dispatcher) == None && Held(s'.dispatcher) == Some(|s.traffic.ids|)
    ensures RequestsInv(s')
  {
    forall req: nat
      ensures RequestOk(s', req) && FailureKnown(s', req)
    {
      assert RequestOk(s, req) && FailureKnown(s, req);
      assert Open(s', req) == Open(s, req);
    }
  }

  lemma ReadKeeps(s: System, e: Event)
    requires Inv(s) && Enabled(s, e) && (e.NewSessionRequest? || e.OtherRequest? || e.PromptRequest?)
    ensures Inv(Apply(s, e))
  {
    var s' := Apply(s, e);
    if e.NewSessionRequest? {
      OpenedIsOk(s.slots, e.x);
    }
    assert Held(s'.dispatcher) == Some(|s.traffic.ids|);
    RequestArrives(s, s', e.id);
    LinesStay(s, s');
  }

  lemma TurnAdded(s: System, s': System)
    requires TurnsInv(s) && DispatcherInv(s) && Enabled(s, StartTurn(true)) && s' == Apply(s, StartTurn(true))
    ensures TurnsInv(s') && DispatcherInv(s') && SameLines(s, s')
  {
    assert forall t :: t in s.turns ==> s'.turns[t] == s.turns[t];
  }

  // The dispatcher gives the request it holds to the new turn.
  lemma RequestHandedOver(s: System, s': System)
    requires TurnsInv(s) && DispatcherInv(s) && RequestsInv(s)
    requires Enabled(s, StartTurn(true)) && s' == Apply(s, StartTurn(true))
    ensures RequestsInv(s')
  {
    forall req: nat
      ensures RequestOk(s', req) && FailureKnown(s', req)
    {
      assert RequestOk(s, req) && FailureKnown(s, req);
      assert Open(s', req) == Open(s, req);
    }
  }

  lemma StartTurnKeeps(s: System)
    requires Inv(s) && Enabled(s, StartTurn(true))
    ensures Inv(Apply(s, StartTurn(true)))
  {
    var s' := Apply(s, StartTurn(true));
    TurnAdded(s, s');
    RequestHandedOver(s, s');
    LinesStay(s, s');
  }

  lemma WriteReplyKeeps(s: System, ok: bool)
    requires Inv(s) && Enabled(s, WriteReply(ok))
    ensures Inv(Apply(s, WriteReply(ok)))
  {
    var s', req := Apply(s, WriteReply(ok)), s.dispatcher.req;
    assert RequestOk(s, req) && FailureKnown(s, req);
    RequestCloses(s, s', req, "", true, ok);
    if ok {
      LineAdded(s, s', s.traffic.Answer(req, ""));
    } else {
      LinesStay(s, s');
    }
  }

  lemma UpdateKeepsRequests(s: System, s': System, t: Token, turn: Turn, update: Update)
    requires RequestsInv(s) && t in s.turns && SameTurn(s.turns[t], turn)
    requires s'.turns == s.turns[t := turn] && s'.dispatcher == s.dispatcher
    requires s'.traffic == s.traffic.Write(Updated(t, update), s.turns[t].req, true)
    ensures RequestsInv(s')
  {
    forall req: nat
      ensures RequestOk(s', req) && FailureKnown(s', req)
    {
      assert RequestOk(s, req) && FailureKnown(s, req);
      assert Open(s', req) == Open(s, req);
      ResponsesPush(s.traffic.out, Updated(t, update), req);
    }
  }

  lemma FailureKeepsRequests(s: System, s': System, t: Token, turn: Turn, update: Update)
    requires RequestsInv(s) && TurnsInv(s) && At(s, t, Streaming) && SameTurn(s.turns[t].(writeFailed := true), turn)
    requires s'.turns == s.turns[t := turn] && s'.dispatcher == s.dispatcher
    requires s'.traffic == s.traffic.Write(Updated(t, update), s.turns[t].req, false)
    ensures RequestsInv(s')
  {
    forall req: nat
      ensures RequestOk(s', req) && FailureKnown(s', req)
    {
      assert RequestOk(s, req) && FailureKnown(s, req);
      assert Open(s', req) == Open(s, req);
    }
  }

  lemma ItemKeeps(s: System, t: Token, item: Item, ok: bool)
    requires Inv(s) && Enabled(s, ItemOf(t, item, ok))
    ensures Inv(Apply(s, ItemOf(t, item, ok)))
  {
    var s' := Apply(s, ItemOf(t, item, ok));
    var turn := s'.turns[t];
    if UpdateFor(item) == None || s.turns[t].writeFailed {
      TurnMoves(s, s.slots, t, turn, s.cancelled);
    } else {
      var update := UpdateFor(item).value;
      TurnsStay(s, s', t, turn);
      assert RequestOk(s, s.turns[t].req);
      if ok {
        UpdateKeepsRequests(s, s', t, turn, update);
        LineAdded(s, s', Updated(t, update));
      } else {
        FailureKeepsRequests(s, s', t, turn, update);
        LinesStay(s, s');
      }
    }
  }

  lemma AnswerKeepsTurns(s: System, t: Token, ok: bool)
    requires TurnsInv(s) && DispatcherInv(s) && Enabled(s, AnswerOf(t, ok))
    ensures TurnsInv(Apply(s, AnswerOf(t, ok))) && DispatcherInv(Apply(s, AnswerOf(t, ok)))
    ensures SameLines(s, Apply(s, AnswerOf(t, ok)))
  {
    assert !s.dispatcher.Returned?;
  }

  lemma AnswerKeeps(s: System, t: Token, ok: bool)
    requires Inv(s) && Enabled(s, AnswerOf(t, ok))
    ensures Inv(Apply(s, AnswerOf(t, ok)))
  {
    var s', req := Apply(s, AnswerOf(t, ok)), s.turns[t].req;
    assert RequestOk(s, req) && FailureKnown(s, req);
    RequestCloses(s, s', req, StopOf(s.turns[t]), !s.turns[t].writeFailed, ok);
    AnswerKeepsTurns(s, t, ok);
    if ok && !s.turns[t].writeFailed {
      LineAdded(s, s', s.traffic.Answer(req, StopOf(s.turns[t])));
    } else {
      LinesStay(s, s');
    }
  }

  lemma SetSlotKeeps(s: System)
    requires Inv(s) && Enabled(s, SetSlot)
    ensures Inv(Apply(s, SetSlot))
  {
    SetIsOk(s.slots, s.dispatcher.session);
    DispatcherMoves(s, Apply(s, SetSlot));
  }

  lemma CancelNoteKeeps(s: System, x: SessionId)
    requires Inv(s) && Enabled(s, CancelNote(x))
    ensures Inv(Apply(s, CancelNote(x)))
  {
    assert Known(s, x) ==> s.slots.SlotOk(x);
    DispatcherMoves(s, Apply(s, CancelNote(x)));
  }

  lemma DispatcherKeeps(s: System, e: Event)
    requires Inv(s) && Enabled(s, e)
    requires e == StartTurn(false) || e == Abort || e == Eof || e == Return
    ensures Inv(Apply(s, e))
  {
    DispatcherMoves(s, Apply(s, e));
  }

  lemma ClearRefusedKeeps(s: System)
    requires Inv(s) && Enabled(s, ClearRefused)
    ensures Inv(Apply(s, ClearRefused))
  {
    ClearedIsOk(s.slots, s.dispatcher.session);
    DispatcherMoves(s, Apply(s, ClearRefused));
  }

  lemma ClearKeeps(s: System, t: Token)
    requires Inv(s) && Enabled(s, ClearOf(t))
    ensures Inv(Apply(s, ClearOf(t)))
  {
    var x := s.turns[t].session;
    ClearedIsOk(s.slots, x);
    TurnMoves(s, s.slots.Cleared(x), t, s.turns[t].(phase := Cancelling), s.cancelled);
  }

  lemma StepKeepsInv(s: System, e: Event)
    requires Inv(s) && Enabled(s, e)
    ensures Inv(Apply(s, e))
  {
    match e
    case NewSessionRequest(_, _) => ReadKeeps(s, e);
    case OtherRequest(_) => ReadKeeps(s, e);
    case PromptRequest(_, _) => ReadKeeps(s, e);
    case SetSlot => SetSlotKeeps(s);
    case StartTurn(true) => StartTurnKeeps(s);
    case ClearRefused => ClearRefusedKeeps(s);
    case WriteReply(ok) => WriteReplyKeeps(s, ok);
    case CancelNote(x) => CancelNoteKeeps(s, x);
    case ItemOf(t, item, ok) => ItemKeeps(s, t, item, ok);
    case CloseOf(t, _) => TurnMoves(s, s.slots, t, Apply(s, e).turns[t], s.cancelled);
    case AnswerOf(t, ok) => AnswerKeeps(s, t, ok);
    case ClearOf(t) => ClearKeeps(s, t);
    case CancelOf(t) => TurnMoves(s, s.slots, t, s.turns[t].(phase := Finished), s.cancelled + {t});
    case _ => DispatcherKeeps(s, e);
  }

  // ---------------------------------------------------------------------
  // Whole runs
  // ---------------------------------------------------------------------

  ghost predicate Step(s: System, e: Event, s': System) { Enabled(s, e) && s' == Apply(s, e) }

  ghost predicate Next(s: System, s': System) { exists e :: Step(s, e, s') }

  ghost predicate Linked(run: seq<System>, i: nat)
    requires i + 1 < |run|
  {
    Next(run[i], run[i + 1])
  }

  ghost predicate Run(run: seq<System>) {
    && |run| > 0
    && run[0] == START
    && forall i: nat :: i + 1 < |run| ==> Linked(run, i)
  }

  lemma StepAt(run: seq<System>, i: nat) returns (e: Event)
    requires Run(run) && i + 1 < |run|
    ensures Step(run[i], e, run[i + 1])
  {
    assert Linked(run, i);
    e :| Step(run[i], e, run[i + 1]);
  }

  lemma {:induction false} RunKeepsInv(run: seq<System>, i: nat)
    requires Run(run) && i < |run|
    ensures Inv(run[i])
  {
    if i > 0 {
      RunKeepsInv(run, i - 1);
      var e := StepAt(run, i - 1);
      StepKeepsInv(run[i - 1], e);
    }
  }

  // In every interleaving a request gets at most one response, and a response
  // carries the id of the request it answers.
  lemma AtMostOneResponse(run: seq<System>, i: nat, req: nat)
    requires Run(run) && i < |run|
    ensures Responses(run[i].traffic.out, req) <= 1
    ensures
      var tr := run[i].traffic;
      forall k :: 0 <= k < |tr.out| && tr.out[k].Response? ==> tr.out[k].req < |tr.ids| && tr.out[k].id == tr.ids[tr.out[k].req]
  {
    RunKeepsInv(run, i);
    assert RequestOk(run[i], req);
  }

  // A request that is no longer open, because the dispatcher replied or its
  // turn got to its answer, has exactly one response, unless one of its own
  // writes failed; then it has none. When Serve has returned none is open.
  lemma EveryRequestIsAnswered(run: seq<System>, i: nat, req: nat)
    requires Run(run) && i < |run| && req < |run[i].traffic.ids|
    ensures !Open(run[i], req) ==> Responses(run[i].traffic.out, req) == if req in run[i].traffic.failed then 0 else 1
    ensures run[i].dispatcher.Returned? ==> !Open(run[i], req)
  {
    RunKeepsInv(run, i);
    assert RequestOk(run[i], req);
  }

  // Every session/update of a turn is written before that turn's response.
  lemma UpdatesPrecedeResponse(run: seq<System>, n: nat, i: nat, j: nat, t: Token)
    requires Run(run) && n < |run| && t in run[n].turns
    requires i < |run[n].traffic.out| && j < |run[n].traffic.out|
    requires run[n].traffic.out[i].Updated? && run[n].traffic.out[i].turn == t
    requires run[n].traffic.out[j].Response? && run[n].traffic.out[j].req == run[n].turns[t].req
    ensures i < j
  {
    RunKeepsInv(run, n);
    assert UpdateOf(run[n], i, j);
  }

  // Serve returns only when every turn has finished, and nothing is written
  // or started after it returned.
  lemma {:induction false} QuietAfterReturn(run: seq<System>, i: nat, j: nat)
    requires Run(run) && i <= j < |run| && run[i].dispatcher.Returned?
    ensures run[j] == run[i] && forall t :: t in run[j].turns ==> run[j].turns[t].phase.Finished?
    decreases j - i
  {
    RunKeepsInv(run, j);
    if i < j {
      QuietAfterReturn(run, i, j - 1);
      var e := StepAt(run, j - 1);
    }
  }

  // ---------------------------------------------------------------------
  // The lines of a turn are the frames of streamTurn
  // ---------------------------------------------------------------------

  // What a line is to turn t, whose request is req.
  function FrameOf(l: Line, t: Token, req: nat): seq<Frame> {
    match l
    case Updated(turn, update) => if turn == t then [Notify(update)] else []
    case Response(r, _, stop) => if r == req then [Answer(stop)] else []
  }

  function FramesOf(out: seq<Line>, t: Token, req: nat): seq<Frame> {
    if out == [] then [] else FramesOf(out[..|out| - 1], t, req) + FrameOf(out[|out| - 1], t, req)
  }

  lemma FramesPush(out: seq<Line>, l: Line, t: Token, req: nat)
    ensures FramesOf(out + [l], t, req) == FramesOf(out, t, req) + FrameOf(l, t, req)
  {
    assert (out + [l])[..|out|] == out;
  }

  lemma {:induction false} NoFramesYet(out: seq<Line>, t: Token, req: nat)
    requires Responses(out, req) == 0 && forall k :: 0 <= k < |out| && out[k].Updated? ==> out[k].turn != t
    ensures FramesOf(out, t, req) == []
    decreases |out|
  {
    if out != [] {
      NoFramesYet(out[..|out| - 1], t, req);
    }
  }

  // How far a turn has got, given its frames: all updates of the items it has
  // taken, and the answer once it has answered; or, after a failed write, what
  // came before it.
  ghost predicate FramesOk(turn: Turn, failed: bool, frames: seq<Frame>) {
    var updates := Updates(turn.items);
    && (turn.writeFailed ==> failed)
    && if turn.writeFailed then |frames| < |updates| && frames == Notifies(updates[..|frames|])
       else if Unanswered(turn) then !failed && frames == Notifies(updates)
       else if failed then frames == Notifies(updates)
       else frames == Notifies(updates) + [Answer(StopOf(turn))]
  }

  ghost predicate TurnFramesOk(s: System, t: Token)
    requires t in s.turns
  {
    var turn := s.turns[t];
    FramesOk(turn, turn.req in s.traffic.failed, FramesOf(s.traffic.out, t, turn.req))
  }

  ghost predicate FramesInv(s: System) { forall t :: t in s.turns ==> TurnFramesOk(s, t) }

  // A line of another turn or for another request, or a failure of another one.
  lemma OtherFrames(s: System, s': System, t: Token, l: Line, req: nat, ok: bool)
    requires t in s.turns && t in s'.turns && s'.turns[t] == s.turns[t] && TurnFramesOk(s, t)
    requires s'.traffic == s.traffic.Write(l, req, ok)
    requires req != s.turns[t].req && FrameOf(l, t, s.turns[t].req) == []
    ensures TurnFramesOk(s', t)
  {
    FramesPush(s.traffic.out, l, t, s.turns[t].req);
    assert FramesOf(s.traffic.out, t, s.turns[t].req) + [] == FramesOf(s.traffic.out, t, s.turns[t].req);
  }

  lemma NotifiesPush(updates: seq<Update>, u: Update)
    ensures Notifies(updates + [u]) == Notifies(updates) + [Notify(u)]
  {
  }

  lemma PrefixOfMore(updates: seq<Update>, u: seq<Update>, n: nat)
    requires n <= |updates|
    ensures (updates + u)[..n] == updates[..n]
  {
  }

  lemma UpdatesPush(items: seq<Item>, item: Item)
    ensures
      var update := UpdateFor(item);
      Updates(items + [item]) == Updates(items) + if update.Some? then [update.value] else []
  {
    assert (items + [item])[..|items|] == items;
  }

  // The turn takes an item that shows nothing, or that it no longer writes.
  lemma FramesStay(turn: Turn, failed: bool, frames: seq<Frame>, item: Item)
    requires FramesOk(turn, failed, frames) && Unanswered(turn) && (UpdateFor(item) == None || turn.writeFailed)
    ensures FramesOk(turn.(items := turn.items + [item]), failed, frames)
  {
    var more := if UpdateFor(item).Some? then [UpdateFor(item).value] else [];
    UpdatesPush(turn.items, item);
    if turn.writeFailed {
      PrefixOfMore(Updates(turn.items), more, |frames|);
    } else {
      assert Updates(turn.items) + [] == Updates(turn.items);
    }
  }

  // It writes the update of an item, or fails to.
  lemma FramesGrow(turn: Turn, failed: bool, frames: seq<Frame>, item: Item)
    requires FramesOk(turn, failed, frames) && Unanswered(turn) && UpdateFor(item).Some? && !turn.writeFailed
    ensures FramesOk(turn.(items := turn.items + [item]), failed, frames + [Notify(UpdateFor(item).value)])
    ensures FramesOk(turn.(items := turn.items + [item], writeFailed := true), true, frames)
  {
    var updates, u := Updates(turn.items), UpdateFor(item).value;
    UpdatesPush(turn.items, item);
    NotifiesPush(updates, u);
    PrefixOfMore(updates, [u], |frames|);
    assert updates[..|frames|] == updates;
  }

  lemma ItemKeepsFrames(s: System, t: Token, item: Item, ok: bool)
    requires Enabled(s, ItemOf(t, item, ok)) && TurnFramesOk(s, t)
    ensures TurnFramesOk(Apply(s, ItemOf(t, item, ok)), t)
  {
    var turn := s.turns[t];
    var failed, frames := turn.req in s.traffic.failed, FramesOf(s.traffic.out, t, turn.req);
    if UpdateFor(item) == None || turn.writeFailed {
      FramesStay(turn, failed, frames, item);
    } else {
      FramesGrow(turn, failed, frames, item);
      FramesPush(s.traffic.out, Updated(t, UpdateFor(item).value), t, turn.req);
    }
  }

  lemma AnswerKeepsFrames(s: System, t: Token, ok: bool)
    requires Enabled(s, AnswerOf(t, ok)) && TurnFramesOk(s, t)
    ensures TurnFramesOk(Apply(s, AnswerOf(t, ok)), t)
  {
    var turn := s.turns[t];
    if !turn.writeFailed && ok {
      FramesPush(s.traffic.out, s.traffic.Answer(turn.req, StopOf(turn)), t, turn.req);
    }
  }

  // A new turn has no frames.
  lemma StartKeepsFrames(s: System)
    requires Inv(s) && Enabled(s, StartTurn(true))
    ensures TurnFramesOk(Apply(s, StartTurn(true)), s.dispatcher.token)
  {
    var d := s.dispatcher;
    assert RequestOk(s, d.req) && FailureKnown(s, d.req);
    NoFramesYet(s.traffic.out, d.token, d.req);
  }

  // Two turns have two requests, and the dispatcher's is none of theirs.
  lemma RequestsDiffer(s: System, t: Token)
    requires TurnsInv(s) && DispatcherInv(s) && t in s.turns
    ensures forall u :: u in s.turns && u != t ==> s.turns[u].req != s.turns[t].req
    ensures Held(s.dispatcher) != Some(s.turns[t].req)
  {
    assert forall u :: u in s.turns ==> s.traffic.owner[s.turns[u].req] == u;
  }

  lemma OtherItemKeepsFrames(s: System, t: Token, u: Token, item: Item, ok: bool)
    requires Enabled(s, ItemOf(u, item, ok)) && t in s.turns && u != t && s.turns[u].req != s.turns[t].req
    requires TurnFramesOk(s, t)
    ensures TurnFramesOk(Apply(s, ItemOf(u, item, ok)), t)
  {
    if UpdateFor(item).Some? && !s.turns[u].writeFailed {
      OtherFrames(s, Apply(s, ItemOf(u, item, ok)), t, Updated(u, UpdateFor(item).value), s.turns[u].req, ok);
    }
  }

  lemma OtherAnswerKeepsFrames(s: System, t: Token, u: Token, ok: bool)
    requires Enabled(s, AnswerOf(u, ok)) && t in s.turns && u != t && s.turns[u].req != s.turns[t].req
    requires TurnFramesOk(s, t)
    ensures TurnFramesOk(Apply(s, AnswerOf(u, ok)), t)
  {
    var req := s.turns[u].req;
    if !s.turns[u].writeFailed {
      OtherFrames(s, Apply(s, AnswerOf(u, ok)), t, s.traffic.Answer(req, StopOf(s.turns[u])), req, ok);
    }
  }

  lemma ReplyKeepsFrames(s: System, t: Token, ok: bool)
    requires Enabled(s, WriteReply(ok)) && t in s.turns && s.dispatcher.req != s.turns[t].req
    requires TurnFramesOk(s, t)
    ensures TurnFramesOk(Apply(s, WriteReply(ok)), t)
  {
    var req := s.dispatcher.req;
    OtherFrames(s, Apply(s, WriteReply(ok)), t, s.traffic.Answer(req, ""), req, ok);
  }

  predicate Writes(e: Event) { e.ItemOf? || e.AnswerOf? || e.WriteReply? }

  lemma QuietKeepsFrames(s: System, e: Event, t: Token)
    requires Enabled(s, e) && !Writes(e) && t in s.turns && TurnFramesOk(s, t)
    requires s.dispatcher.Starting? ==> s.dispatcher.token != t
    ensures t in Apply(s, e).turns && TurnFramesOk(Apply(s, e), t)
  {
    assert Apply(s, e).traffic.out == s.traffic.out && Apply(s, e).traffic.failed == s.traffic.failed;
  }

  lemma StepKeepsTurnFrames(s: System, e: Event, t: Token)
    requires TurnsInv(s) && DispatcherInv(s) && Enabled(s, e) && t in s.turns && TurnFramesOk(s, t)
    ensures t in Apply(s, e).turns && TurnFramesOk(Apply(s, e), t)
  {
    RequestsDiffer(s, t);
    match e
    case ItemOf(u, item, ok) =>
      if u == t {
        ItemKeepsFrames(s, t, item, ok);
      } else {
        OtherItemKeepsFrames(s, t, u, item, ok);
      }
    case AnswerOf(u, ok) =>
      if u == t {
        AnswerKeepsFrames(s, t, ok);
      } else {
        OtherAnswerKeepsFrames(s, t, u, ok);
      }
    case WriteReply(ok) => ReplyKeepsFrames(s, t, ok);
    case _ => QuietKeepsFrames(s, e, t);
  }

  lemma StepKeepsFrames(s: System, e: Event)
    requires Inv(s) && Enabled(s, e) && FramesInv(s)
    ensures FramesInv(Apply(s, e))
  {
    var s' := Apply(s, e);
    forall t | t in s'.turns
      ensures TurnFramesOk(s', t)
    {
      if t in s.turns {
        StepKeepsTurnFrames(s, e, t);
      } else {
        StartKeepsFrames(s);
      }
    }
  }

  lemma NextKeepsFrames(run: seq<System>, k: nat)
    requires Run(run) && k + 1 < |run| && FramesInv(run[k])
    ensures FramesInv(run[k + 1])
  {
    RunKeepsInv(run, k);
    var e := StepAt(run, k);
    StepKeepsFrames(run[k], e);
  }

  lemma {:induction false} RunKeepsFrames(run: seq<System>, i: nat)
    requires Run(run) && i < |run|
    ensures FramesInv(run[i])
  {
    if i > 0 {
      RunKeepsFrames(run, i - 1);
      NextKeepsFrames(run, i - 1);
    }
  }

  // The frames at which a failed turn stopped are those of streamTurn when
  // just the write after them fails.
  lemma FailedFramesAreStreamed(turn: Turn, frames: seq<Frame>, works: nat -> bool)
    requires FramesOk(turn, true, frames) && !Unanswered(turn)
    requires forall k: nat :: works(k) <==> k != |frames|
    ensures Streamed(turn.items, turn.aborted, works, frames, true)
  {
    var updates := Updates(turn.items);
    assert updates[..|updates|] == updates;
    assert |frames| <= |updates| && !works(|frames|);
    assert FirstFailure(updates, works, |frames|) && frames == Notifies(updates[..|frames|]);
  }

  lemma AllFramesAreStreamed(turn: Turn, frames: seq<Frame>, works: nat -> bool)
    requires FramesOk(turn, false, frames) && !Unanswered(turn)
    requires forall k: nat :: works(k)
    ensures Streamed(turn.items, turn.aborted, works, frames, false)
  {
  }

  lemma FramesAreStreamed(turn: Turn, failed: bool, frames: seq<Frame>) returns (works: nat -> bool)
    requires FramesOk(turn, failed, frames) && !Unanswered(turn)
    ensures Streamed(turn.items, turn.aborted, works, frames, failed)
    ensures !failed ==> forall k: nat :: works(k)
  {
    if failed {
      works := k => k != |frames|;
      FailedFramesAreStreamed(turn, frames, works);
    } else {
      works := _ => true;
      AllFramesAreStreamed(turn, frames, works);
    }
  }

  // In every interleaving the lines a turn has written are what streamTurn
  // writes for the items the turn has taken, in their order: so far all their
  // updates, and at the end the whole of it, for some pattern of failing writes
  // that is the empty one if no write of the turn failed.
  lemma TurnWritesItsFrames(run: seq<System>, i: nat, t: Token) returns (works: nat -> bool)
    requires Run(run) && i < |run| && t in run[i].turns
    ensures
      var turn := run[i].turns[t];
      var failed, frames := turn.req in run[i].traffic.failed, FramesOf(run[i].traffic.out, t, turn.req);
      && (Unanswered(turn) && !failed ==> frames == Notifies(Updates(turn.items)))
      && (!Unanswered(turn) ==> Streamed(turn.items, turn.aborted, works, frames, failed))
      && (!failed ==> forall k: nat :: works(k))
  {
    RunKeepsFrames(run, i);
    var turn := run[i].turns[t];
    var failed, frames := turn.req in run[i].traffic.failed, FramesOf(run[i].traffic.out, t, turn.req);
    assert FramesOk(turn, failed, frames) by {
      assert TurnFramesOk(run[i], t);
    }
    works := _ => true;
    if !Unanswered(turn) {
      works := FramesAreStreamed(turn, failed, frames);
    }
  }

  // ---------------------------------------------------------------------
  // Why the host is told a turn stopped
  // ---------------------------------------------------------------------

  // The turn has closed its channel, having taken these items, and its context
  // said so then.
  ghost predicate ClosedWith(s: System, t: Token, items: seq<Item>, aborted: bool) {
    t in s.turns && !s.turns[t].phase.Streaming? && s.turns[t].items == items && s.turns[t].aborted == aborted
  }

  lemma StepStaysClosed(s: System, e: Event, t: Token, items: seq<Item>, aborted: bool)
    requires DispatcherInv(s) && Enabled(s, e) && ClosedWith(s, t, items, aborted)
    ensures ClosedWith(Apply(s, e), t, items, aborted)
  {
  }

  ghost predicate Closing(run: seq<System>, i: nat, t: Token, outer: bool) {
    i + 1 < |run| && Step(run[i], CloseOf(t, outer), run[i + 1])
  }

  lemma StepCloses(s: System, e: Event, t: Token)
    requires DispatcherInv(s) && Enabled(s, e) && t in Apply(s, e).turns && !Apply(s, e).turns[t].phase.Streaming?
    ensures t in s.turns
    ensures s.turns[t].phase.Streaming? ==> e.CloseOf? && e.t == t
  {
  }

  // The last step closed the channel of the turn, or it was closed before.
  lemma ClosesNowOrBefore(run: seq<System>, j: nat, t: Token) returns (now: bool, outer: bool)
    requires Run(run) && j + 1 < |run| && t in run[j + 1].turns && !run[j + 1].turns[t].phase.Streaming?
    ensures t in run[j].turns
    ensures now ==> Closing(run, j, t, outer) && ClosedWith(run[j + 1], t, run[j].turns[t].items, outer || t in run[j].cancelled)
    ensures !now ==> !run[j].turns[t].phase.Streaming?
  {
    RunKeepsInv(run, j);
    var e := StepAt(run, j);
    StepCloses(run[j], e, t);
    now := run[j].turns[t].phase.Streaming?;
    outer := now && e.outer;
  }

  lemma NextStaysClosed(run: seq<System>, j: nat, t: Token, items: seq<Item>, aborted: bool)
    requires Run(run) && j + 1 < |run| && ClosedWith(run[j], t, items, aborted)
    ensures ClosedWith(run[j + 1], t, items, aborted)
  {
    RunKeepsInv(run, j);
    var e := StepAt(run, j);
    StepStaysClosed(run[j], e, t, items, aborted);
  }

  // A turn that no longer streams has closed its channel at some step, and what
  // it had taken and found then it keeps.
  lemma {:induction false} TurnHasClosed(run: seq<System>, j: nat, t: Token) returns (i: nat, outer: bool)
    requires Run(run) && j < |run| && t in run[j].turns && !run[j].turns[t].phase.Streaming?
    ensures i < j && t in run[i].turns && Closing(run, i, t, outer)
    ensures ClosedWith(run[j], t, run[i].turns[t].items, outer || t in run[i].cancelled)
  {
    var now;
    now, outer := ClosesNowOrBefore(run, j - 1, t);
    i := j - 1;
    if !now {
      i, outer := TurnHasClosed(run, j - 1, t);
      NextStaysClosed(run, j - 1, t, run[i].turns[t].items, outer || t in run[i].cancelled);
    }
  }

  lemma {:induction false} ResponseIsFrame(out: seq<Line>, k: nat, t: Token, req: nat)
    requires k < |out| && out[k].Response? && out[k].req == req
    ensures Answer(out[k].stop) in FramesOf(out, t, req)
    decreases |out|
  {
    if k < |out| - 1 {
      ResponseIsFrame(out[..|out| - 1], k, t, req);
    }
  }

  // The answer to a prompt says "cancelled" exactly when the turn's token had
  // been cancelled or its context had ended when the turn closed its channel;
  // else "refusal" exactly when what it had taken ended in an error.
  lemma AnswerSaysWhy(run: seq<System>, j: nat, k: nat, t: Token) returns (i: nat, outer: bool)
    requires Run(run) && j < |run| && t in run[j].turns && k < |run[j].traffic.out|
    requires run[j].traffic.out[k].Response? && run[j].traffic.out[k].req == run[j].turns[t].req
    ensures i < j && t in run[i].turns && Closing(run, i, t, outer)
    ensures
      run[j].traffic.out[k].stop ==
        if outer || t in run[i].cancelled then "cancelled"
        else if EndsInError(run[i].turns[t].items) then "refusal"
        else "end_turn"
  {
    var turn, out := run[j].turns[t], run[j].traffic.out;
    RunKeepsFrames(run, j);
    assert TurnFramesOk(run[j], t);
    ResponseIsFrame(out, k, t, turn.req);
    assert Answer(out[k].stop) == Answer(StopOf(turn)) && !Unanswered(turn);
    i, outer := TurnHasClosed(run, j, t);
    StopReasonSaysHow(turn.items, turn.aborted);
  }

  // ---------------------------------------------------------------------
  // What a request does from beginning to end
  // ---------------------------------------------------------------------

  // A prompt on a known session: it gets a token nobody had, its slot is set
  // before the agent is asked, and on a yes a turn streams under it.
  lemma PromptStartsATurn(run: seq<System>, i: nat, id: int, x: SessionId)
    requires Run(run) && i < |run| && run[i].dispatcher.Idle? && x in run[i].slots.slot
    ensures
      var s, n, t := run[i], |run[i].traffic.ids|, run[i].slots.nextToken;
      && t !in s.turns
      && Enabled(s, PromptRequest(id, x))
      && var read := Apply(s, PromptRequest(id, x));
      && Enabled(read, SetSlot)
      && var set_ := Apply(read, SetSlot);
      && set_.slots.slot == s.slots.slot[x := Some(t)] && set_.turns == s.turns
      && Enabled(set_, StartTurn(true))
      && var started := Apply(set_, StartTurn(true));
      && started.dispatcher == Idle && started.slots == set_.slots && started.cancelled == s.cancelled
      && started.turns == s.turns[t := Turn(x, n, Streaming, false, [], false)]
      && started.traffic.ids == s.traffic.ids + [id] && started.traffic.out == s.traffic.out
  {
    RunKeepsInv(run, i);
    assert run[i].slots.SlotOk(x);
  }

  // On a no its context is cancelled, its slot is blank again, no turn is there
  // and the dispatcher answers.
  lemma RefusedPromptLeavesNothing(run: seq<System>, i: nat, id: int, x: SessionId)
    requires Run(run) && i < |run| && run[i].dispatcher.Idle? && x in run[i].slots.slot
    ensures
      var s, n, t := run[i], |run[i].traffic.ids|, run[i].slots.nextToken;
      && Enabled(s, PromptRequest(id, x))
      && var read := Apply(s, PromptRequest(id, x));
      && Enabled(read, SetSlot)
      && var set_ := Apply(read, SetSlot);
      && Enabled(set_, StartTurn(false))
      && var refused := Apply(set_, StartTurn(false));
      && Enabled(refused, ClearRefused)
      && var cleared := Apply(refused, ClearRefused);
      && Enabled(cleared, WriteReply(true))
      && var done := Apply(cleared, WriteReply(true));
      && done.dispatcher == Idle && done.turns == s.turns && done.slots.slot == s.slots.slot[x := None]
      && done.cancelled == s.cancelled + {t}
      && done.traffic.ids == s.traffic.ids + [id] && done.traffic.out == s.traffic.out + [Response(n, id, "")]
  {
    RunKeepsInv(run, i);
    assert run[i].slots.SlotOk(x);
  }

  // Every other request, a prompt on an unknown session included, is answered
  // by the dispatcher and touches no turn; a new session has an empty slot. A
  // failing write ends the serving.
  lemma OtherRequestsAreAnswered(s: System, e: Event, ok: bool)
    requires s.dispatcher.Idle?
    requires e.OtherRequest? || ((e.NewSessionRequest? || e.PromptRequest?) && e.x !in s.slots.slot)
    ensures Enabled(s, e)
    ensures
      var done := Apply(s, e);
      && Enabled(done, WriteReply(ok))
      && var replied := Apply(done, WriteReply(ok));
      && replied.dispatcher == (if ok then Idle else Draining)
      && replied.turns == s.turns && replied.cancelled == s.cancelled
      && replied.slots.slot == (if e.NewSessionRequest? then s.slots.slot[e.x := None] else s.slots.slot)
      && replied.traffic.ids == s.traffic.ids + [e.id]
      && replied.traffic.out == s.traffic.out + if ok then [Response(|s.traffic.ids|, e.id, "")] else []
  {
  }

  // session/cancel calls the cancel function in the slot, if there is one, and
  // does nothing else: the session stays open.
  lemma CancelOnlyCancels(s: System, x: SessionId)
    requires s.dispatcher.Idle?
    ensures Enabled(s, CancelNote(x))
    ensures
      var noted := Apply(s, CancelNote(x));
      if x in s.slots.slot && s.slots.slot[x].Some? then
        Enabled(noted, Abort) && Apply(noted, Abort) == s.(cancelled := s.cancelled + {s.slots.slot[x].value})
      else noted == s
  {
  }

  // A streaming turn takes any item, whether its write works or not, and its
  // channel may close at any point, under a live context or an ended one; an
  // item adds itself and nothing else to what the turn has taken.
  lemma StreamsAreFree(s: System, t: Token, item: Item, ok: bool, outer: bool)
    requires At(s, t, Streaming)
    ensures Enabled(s, ItemOf(t, item, ok)) && Enabled(s, CloseOf(t, outer))
    ensures
      var s' := Apply(s, ItemOf(t, item, ok));
      && t in s'.turns && s'.turns[t].items == s.turns[t].items + [item] && s'.turns[t].phase == Streaming
      && s'.dispatcher == s.dispatcher && s'.slots == s.slots && s'.cancelled == s.cancelled
      && s'.turns == s.turns[t := s'.turns[t]]
    ensures
      var s' := Apply(s, CloseOf(t, outer));
      s' == s.(turns := s.turns[t := s.turns[t].(phase := Answering, aborted := outer || t in s.cancelled)])
  {
  }

  // A turn whose channel is closed ends in three steps of its own: the answer,
  // unless a write has failed, the blank slot, and the release of its context.
  lemma TurnRunsOut(run: seq<System>, i: nat, t: Token, ok: bool)
    requires Run(run) && i < |run| && At(run[i], t, Answering)
    ensures
      var s, turn := run[i], run[i].turns[t];
      && Enabled(s, AnswerOf(t, ok))
      && turn.req < |s.traffic.ids|
      && var answered := Apply(s, AnswerOf(t, ok));
      && answered.traffic.out ==
         s.traffic.out + (if turn.writeFailed || !ok then [] else [Response(turn.req, s.traffic.ids[turn.req], StopOf(turn))])
      && Enabled(answered, ClearOf(t))
      && var cleared := Apply(answered, ClearOf(t));
      && cleared.slots.slot == s.slots.slot[turn.session := None] && cleared.cancelled == s.cancelled
      && Enabled(cleared, CancelOf(t))
      && var ended := Apply(cleared, CancelOf(t));
      && ended.turns == s.turns[t := turn.(phase := Finished)] && ended.cancelled == s.cancelled + {t}
      && ended.slots == cleared.slots && ended.traffic == answered.traffic && ended.dispatcher == s.dispatcher
  {
    RunKeepsInv(run, i);
    assert run[i].slots.SlotOk(run[i].turns[t].session);
  }

  ghost predicate Extends(run: seq<System>, longer: seq<System>) {
    Run(longer) && |run| <= |longer| && longer[..|run|] == run
  }

  lemma Then(run: seq<System>, e: Event) returns (longer: seq<System>)
    requires Run(run) && Enabled(run[|run| - 1], e)
    ensures Run(longer) && longer == run + [Apply(run[|run| - 1], e)]
  {
    longer := run + [Apply(run[|run| - 1], e)];
    forall i: nat | i + 1 < |longer|
      ensures Linked(longer, i)
    {
      if i + 1 < |run| {
        var e' := StepAt(run, i);
        assert Step(longer[i], e', longer[i + 1]);
      } else {
        assert Step(longer[i], e, longer[i + 1]);
      }
    }
  }

  function StepsLeft(p: Phase): nat {
    match p
    case Streaming => 4
    case Answering => 3
    case Clearing => 2
    case Cancelling => 1
    case Finished => 0
  }

  // The next step of a turn that takes no further items.
  function NextOf(t: Token, p: Phase): Event {
    match p
    case Streaming => CloseOf(t, false)
    case Answering => AnswerOf(t, true)
    case Clearing => ClearOf(t)
    case _ => CancelOf(t)
  }

  // Only turn t has moved, by one step.
  ghost predicate Advanced(s: System, s': System, t: Token)
    requires t in s.turns
  {
    && s'.dispatcher == s.dispatcher && t in s'.turns && s'.turns == s.turns[t := s'.turns[t]]
    && StepsLeft(s'.turns[t].phase) == StepsLeft(s.turns[t].phase) - 1
  }

  lemma NextIsPossible(s: System, t: Token)
    requires Inv(s) && t in s.turns && !s.turns[t].phase.Finished?
    ensures Enabled(s, NextOf(t, s.turns[t].phase))
  {
    assert s.slots.SlotOk(s.turns[t].session);
  }

  lemma NextAdvances(s: System, t: Token)
    requires t in s.turns && !s.turns[t].phase.Finished? && Enabled(s, NextOf(t, s.turns[t].phase))
    ensures Advanced(s, Apply(s, NextOf(t, s.turns[t].phase)), t)
  {
  }

  lemma TurnAdvances(run: seq<System>, t: Token) returns (longer: seq<System>)
    requires Run(run) && t in run[|run| - 1].turns && !run[|run| - 1].turns[t].phase.Finished?
    ensures Run(longer) && |longer| == |run| + 1 && longer[..|run|] == run
    ensures Advanced(run[|run| - 1], longer[|run|], t)
  {
    RunKeepsInv(run, |run| - 1);
    NextIsPossible(run[|run| - 1], t);
    NextAdvances(run[|run| - 1], t);
    longer := Then(run, NextOf(t, run[|run| - 1].turns[t].phase));
  }

  lemma {:induction false} TurnFinishes(run: seq<System>, t: Token) returns (longer: seq<System>)
    requires Run(run) && t in run[|run| - 1].turns
    ensures Extends(run, longer)
    ensures
      var s, s' := run[|run| - 1], longer[|longer| - 1];
      && s'.dispatcher == s.dispatcher && t in s'.turns && s'.turns == s.turns[t := s'.turns[t]]
      && s'.turns[t].phase.Finished?
    decreases StepsLeft(run[|run| - 1].turns[t].phase)
  {
    if run[|run| - 1].turns[t].phase.Finished? {
      longer := run;
    } else {
      var one := TurnAdvances(run, t);
      longer := TurnFinishes(one, t);
      assert longer[..|run|] == longer[..|one|][..|run|];
    }
  }

  ghost function Unfinished(s: System): set<Token> { set t | t in s.turns && !s.turns[t].phase.Finished? }

  // Serve cannot wedge: once it has stopped reading, the turns' own steps lead
  // to its return, whatever they were doing.
  lemma {:induction false} ServingCompletes(run: seq<System>) returns (longer: seq<System>)
    requires Run(run) && run[|run| - 1].dispatcher.Draining?
    ensures Extends(run, longer) && longer[|longer| - 1].dispatcher.Returned?
    decreases Unfinished(run[|run| - 1])
  {
    var s := run[|run| - 1];
    if Unfinished(s) == {} {
      assert forall t :: t in s.turns ==> t !in Unfinished(s);
      longer := Then(run, Return);
    } else {
      var t := AnElement(Unfinished(s));
      var one := TurnFinishes(run, t);
      assert t !in Unfinished(one[|one| - 1]);
      longer := ServingCompletes(one);
      assert longer[..|run|] == longer[..|one|][..|run|];
    }
  }

  // So does the end of the input, at any point at which the dispatcher reads.
  lemma InputEnds(run: seq<System>) returns (longer: seq<System>)
    requires Run(run) && run[|run| - 1].dispatcher.Idle?
    ensures Extends(run, longer) && longer[|longer| - 1].dispatcher.Returned?
  {
    var draining := Then(run, Eof);
    longer := ServingCompletes(draining);
    assert longer[..|run|] == longer[..|draining|][..|run|];
  }

  // ---------------------------------------------------------------------
  // The cancel slot
  // ---------------------------------------------------------------------

  // session/cancel never aborts an older turn: whatever it calls belongs to
  // the latest prompt accepted for starting on that session, also when the slot
  // was read some time before the call; no other turn is cancelled by it.
  lemma CancelNeverAbortsAnOlderTurn(run: seq<System>, i: nat)
    requires Run(run) && i < |run|
    ensures forall x :: x in run[i].slots.slot && run[i].slots.slot[x].Some? ==>
      x in run[i].slots.latest && run[i].slots.slot[x].value == run[i].slots.latest[x]
    ensures run[i].dispatcher.Aborting? ==>
      var d := run[i].dispatcher;
      && d.session in run[i].slots.latest && d.token == run[i].slots.latest[d.session]
      && Apply(run[i], Abort).cancelled == run[i].cancelled + {run[i].slots.latest[d.session]}
  {
    RunKeepsInv(run, i);
    forall x | x in run[i].slots.slot
      ensures run[i].slots.SlotOk(x)
    {
    }
  }

  // The other half is not promised: session/cancel reaches the latest prompt of
  // a session exactly as long as no clearCancel has run on it since it set the
  // slot, neither its own nor one of an older turn or of a refused prompt.
  lemma CancelReachesIffNotCleared(run: seq<System>, i: nat, x: SessionId)
    requires Run(run) && i < |run| && run[i].dispatcher.Idle? && x in run[i].slots.latest
    ensures
      var s := run[i];
      && x in s.slots.clears && s.slots.latest[x] in s.slots.clearsAt
      && (Apply(s, CancelNote(x)).dispatcher == Aborting(x, s.slots.latest[x])
          <==> s.slots.clears[x] == s.slots.clearsAt[s.slots.latest[x]])
  {
    RunKeepsInv(run, i);
    assert run[i].slots.SlotOk(x);
  }

  predicate Latest(s: Slots, x: SessionId, t: Token) {
    x in s.latest && s.latest[x] == t && x in s.clears && t in s.clearsAt
  }

  // A turn that has not answered yet is reached exactly when it is its
  // session's latest and nothing has cleared the slot since.
  lemma CancelReachesLiveTurnIff(run: seq<System>, i: nat, t: Token)
    requires Run(run) && i < |run| && run[i].dispatcher.Idle? && t in run[i].turns && Unanswered(run[i].turns[t])
    ensures
      var s, x := run[i], run[i].turns[t].session;
      (Apply(s, CancelNote(x)).dispatcher == Aborting(x, t)
       <==> Latest(s.slots, x, t) && s.slots.clears[x] == s.slots.clearsAt[t])
  {
    RunKeepsInv(run, i);
    assert run[i].slots.SlotOk(run[i].turns[t].session);
  }

  // A turn whose goroutine has not run its clearCancel yet.
  predicate Uncleared(s: System, x: SessionId, t: Token) {
    t in s.turns && s.turns[t].session == x && !s.turns[t].phase.Cancelling? && !s.turns[t].phase.Finished?
  }

  ghost predicate NoneUncleared(s: System, x: SessionId) { forall t: Token :: !Uncleared(s, x, t) }

  // No prompt on the session is taken up before the clearCancel of the turn before it.
  ghost predicate Apart(s: System, x: SessionId) {
    (s.dispatcher.Prompting? || s.dispatcher.Starting?) && s.dispatcher.session == x ==> NoneUncleared(s, x)
  }

  ghost predicate SlotIsLive(s: System, x: SessionId) {
    forall t: Token :: Uncleared(s, x, t) ==> x in s.slots.slot && s.slots.slot[x] == Some(t)
  }

  ghost predicate StartingHasSlot(s: System, x: SessionId) {
    s.dispatcher.Starting? && s.dispatcher.session == x ==>
      x in s.slots.slot && s.slots.slot[x] == Some(s.dispatcher.token)
  }

  ghost predicate RefusingAlone(s: System, x: SessionId) {
    s.dispatcher.Refusing? && s.dispatcher.session == x ==> NoneUncleared(s, x)
  }

  ghost predicate ApartInv(s: System, x: SessionId) {
    SlotIsLive(s, x) && StartingHasSlot(s, x) && RefusingAlone(s, x)
  }

  // A turn that is uncleared after the step was so before, or has just started.
  lemma UnclearedBefore(s: System, e: Event, x: SessionId, t: Token)
    requires DispatcherInv(s) && Enabled(s, e) && Uncleared(Apply(s, e), x, t)
    ensures Uncleared(s, x, t) || (e == StartTurn(true) && s.dispatcher.session == x && s.dispatcher.token == t)
  {
  }

  lemma SlotStays(s: System, e: Event, x: SessionId, t: Token)
    requires DispatcherInv(s) && Enabled(s, e) && ApartInv(s, x) && Apart(s, x) && Uncleared(Apply(s, e), x, t)
    requires Uncleared(s, x, t) || (e == StartTurn(true) && s.dispatcher.session == x && s.dispatcher.token == t)
    ensures x in Apply(s, e).slots.slot && Apply(s, e).slots.slot[x] == Some(t)
  {
    match e
    case ClearOf(u) => assert s.turns[u].session == x ==> Uncleared(s, x, u);
    case SetSlot => assert s.dispatcher.session == x ==> NoneUncleared(s, x);
    case ClearRefused => assert s.dispatcher.session == x ==> NoneUncleared(s, x);
    case _ =>
  }

  lemma StepKeepsSlotLive(s: System, e: Event, x: SessionId)
    requires DispatcherInv(s) && Enabled(s, e) && ApartInv(s, x) && Apart(s, x) && Apart(Apply(s, e), x)
    ensures SlotIsLive(Apply(s, e), x)
  {
    var s' := Apply(s, e);
    forall t: Token | Uncleared(s', x, t)
      ensures x in s'.slots.slot && s'.slots.slot[x] == Some(t)
    {
      UnclearedBefore(s, e, x, t);
      SlotStays(s, e, x, t);
    }
  }

  lemma StepKeepsStarting(s: System, e: Event, x: SessionId)
    requires Enabled(s, e) && ApartInv(s, x) && Apart(s, x)
    ensures StartingHasSlot(Apply(s, e), x)
  {
    match e
    case ClearOf(u) => assert s.turns[u].session == x ==> Uncleared(s, x, u);
    case _ =>
  }

  lemma StepKeepsRefusing(s: System, e: Event, x: SessionId)
    requires DispatcherInv(s) && Enabled(s, e) && ApartInv(s, x) && Apart(s, x)
    ensures RefusingAlone(Apply(s, e), x)
  {
    var s' := Apply(s, e);
    if s'.dispatcher.Refusing? && s'.dispatcher.session == x {
      assert NoneUncleared(s, x);
      forall t: Token
        ensures !Uncleared(s', x, t)
      {
        if Uncleared(s', x, t) {
          UnclearedBefore(s, e, x, t);
        }
      }
    }
  }

  lemma StepApart(s: System, e: Event, x: SessionId)
    requires DispatcherInv(s) && Enabled(s, e) && ApartInv(s, x) && Apart(s, x) && Apart(Apply(s, e), x)
    ensures ApartInv(Apply(s, e), x)
  {
    StepKeepsSlotLive(s, e, x);
    StepKeepsStarting(s, e, x);
    StepKeepsRefusing(s, e, x);
  }

  lemma {:induction false} RunsApart(run: seq<System>, i: nat, x: SessionId)
    requires Run(run) && i < |run| && forall j :: 0 <= j <= i ==> Apart(run[j], x)
    ensures ApartInv(run[i], x)
  {
    if i > 0 {
      RunsApart(run, i - 1, x);
      RunKeepsInv(run, i - 1);
      var e := StepAt(run, i - 1);
      StepApart(run[i - 1], e, x);
    }
  }

  // When the turns of a session never overlap, cancelling is reliable: from any
  // point at which the dispatcher is free, session/cancel reaches the live turn.
  lemma CancelReachesTurnsApart(run: seq<System>, i: nat, x: SessionId, t: Token)
    requires Run(run) && i < |run| && run[i].dispatcher.Idle? && Uncleared(run[i], x, t)
    requires forall j :: 0 <= j <= i ==> Apart(run[j], x)
    ensures Apply(run[i], CancelNote(x)).dispatcher == Aborting(x, t)
  {
    RunsApart(run, i, x);
  }

  // Session 1 is open, its first turn has answered and not cleared its slot.
  const ANSWERED := System(
    Slots(map[1 := Some(0)], map[1 := 0], map[1 := 0], map[0 := 0], 1), Idle,
    map[0 := Turn(1, 1, Clearing, false, [], false)],
    Traffic([7, 8], [Response(0, 7, ""), Response(1, 8, "end_turn")], map[1 := 0], {}), {})

  const OPENED := System(
    Slots(map[1 := None], map[], map[1 := 0], map[], 0), Idle, map[], Traffic([7], [Response(0, 7, "")], map[], {}), {})

  lemma SessionOpens() returns (run: seq<System>)
    ensures Run(run) && run[|run| - 1] == OPENED
  {
    run := Then([START], NewSessionRequest(7, 1));
    run := Then(run, WriteReply(true));
  }

  lemma FirstTurnAnswers() returns (run: seq<System>)
    ensures Run(run) && run[|run| - 1] == ANSWERED
  {
    run := SessionOpens();
    run := Then(run, PromptRequest(8, 1));
    run := Then(run, SetSlot);
    run := Then(run, StartTurn(true));
    run := Then(run, CloseOf(0, false));
    run := Then(run, AnswerOf(0, true));
  }

  // When they overlap a cancel can get lost: the clearCancel of a turn that has already
  // answered blanks the slot of the turn that started in between.
  lemma CancelCanMissALiveTurn() returns (run: seq<System>)
    ensures Run(run)
    ensures
      var s := run[|run| - 1];
      && At(s, 1, Streaming) && s.dispatcher.Idle? && s.slots.latest == map[1 := 1] && s.turns[1].session == 1
      && Enabled(s, CancelNote(1)) && Apply(s, CancelNote(1)) == s
  {
    run := FirstTurnAnswers();
    run := Then(run, PromptRequest(9, 1));
    run := Then(run, SetSlot);
    run := Then(run, StartTurn(true));
    run := Then(run, ClearOf(0));
  }
}
