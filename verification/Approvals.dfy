// The approval manager (internal/approval/manager.go): one-shot, session and
// persistent rules, timed expiry, and a copy-on-write mirror in a key/value
// store whose writes may fail.
//
// Store and Step are the specification: what one operation does to the whole
// state and what it recorded, removed and admitted. The class Manager at the
// end is the source's own in-place form, proved against them.
module Approvals {
  import opened Prelude

  // DeepEqual on scopes is equality; an absent list and an empty one are one.
  datatype Scope = Scope(
    tool: string, program: string, prefix: seq<string>, fsOp: string, paths: seq<string>,
    host: string, redirects: seq<string>, interpreter: string, scriptHash: string)

  datatype TTL = Once | Session | Persistent | Unknown(name: string)

  // Zero times are None.
  datatype Rule = Rule(
    id: string, action: string, scope: Scope, ttl: TTL, source: string,
    created: Option<int>, expires: Option<int>, process: string)

  datatype Kind = Hit | Miss | Consume | Expire | Revoke

  datatype AuditEvent = AuditEvent(kind: Kind, ruleID: string, session: string, action: string, scope: Scope, at: int)

  function EventOf(kind: Kind, session: string, r: Rule, at: int): AuditEvent {
    AuditEvent(kind, r.id, session, r.action, r.scope, at)
  }

  // ---------------------------------------------------------------------
  // The key/value store: JSON text is either what Marshal wrote or foreign
  // ---------------------------------------------------------------------

  datatype Text = Encoded(rules: seq<Rule>) | Foreign

  // KVGet and Unmarshal: no entry is an empty list.
  function Decode(text: Option<Text>): Option<seq<Rule>> {
    if text.None? then Some([]) else if text.value.Encoded? then Some(text.value.rules) else None
  }

  // ---------------------------------------------------------------------
  // State
  // ---------------------------------------------------------------------

  datatype Store = Store(
    sessions: map<string, seq<Rule>>, persistent: seq<Rule>,
    hasKv: bool, text: Option<Text>, log: seq<AuditEvent>)
  {
    function Of(session: string): seq<Rule> {
      if session in sessions then sessions[session] else []
    }
  }

  predicate AllPersistent(rules: seq<Rule>) { forall k :: 0 <= k < |rules| ==> rules[k].ttl == Persistent }

  // New: None is the refusal to start.
  function Load(hasKv: bool, text: Option<Text>): Option<Store> {
    if !hasKv then Some(Store(map[], [], false, text, []))
    else
      var rules := Decode(text);
      if rules.None? || !AllPersistent(rules.value) then None
      else Some(Store(map[], rules.value, true, text, []))
  }

  // A manager starts without a store, on an empty one, and on a text it can
  // read whose rules are all persistent; it refuses every other text.
  lemma StartsExactlyOnPersistentRules(hasKv: bool, text: Option<Text>)
    ensures Load(hasKv, text) == None <==>
      hasKv && text.Some? && (text.value.Foreign? || exists k :: 0 <= k < |text.value.rules| && text.value.rules[k].ttl != Persistent)
    ensures Load(hasKv, text).Some? ==>
      var st := Load(hasKv, text).value;
      && st.sessions == map[] && st.log == [] && st.hasKv == hasKv && st.text == text
      && st.persistent == if hasKv && text.Some? then text.value.rules else []
  {
    if hasKv && text.Some? && text.value.Encoded? {
      assert Load(hasKv, text).None? <==> !AllPersistent(text.value.rules);
    }
  }

  // ---------------------------------------------------------------------
  // List helpers
  // ---------------------------------------------------------------------

  predicate Expired(r: Rule, now: int) { r.expires.Some? && now >= r.expires.value }

  function Live(rules: seq<Rule>, now: int): seq<Rule> {
    if rules == [] then []
    else (if Expired(rules[0], now) then [] else [rules[0]]) + Live(rules[1..], now)
  }

  function Gone(rules: seq<Rule>, now: int): seq<Rule> {
    if rules == [] then []
    else (if Expired(rules[0], now) then [rules[0]] else []) + Gone(rules[1..], now)
  }

  // The first rule with this scope, or the length.
  function FirstWithScope(rules: seq<Rule>, scope: Scope): (i: nat)
    ensures i <= |rules|
  {
    if rules == [] || rules[0].scope == scope then 0 else FirstWithScope(rules[1..], scope) + 1
  }

  function FirstWithID(rules: seq<Rule>, id: string): (i: nat)
    ensures i <= |rules|
  {
    if rules == [] || rules[0].id == id then 0 else FirstWithID(rules[1..], id) + 1
  }

  function Without(rules: seq<Rule>, i: nat): seq<Rule>
    requires i < |rules|
  {
    rules[..i] + rules[i + 1..]
  }

  // ---------------------------------------------------------------------
  // One operation
  // ---------------------------------------------------------------------

  // A rule that left a list; home is false for the persistent list.
  datatype Removal = Removal(kind: Kind, session: string, rule: Rule, at: int, home: bool)

  datatype Op =
    | Match(session: string, scope: Scope, now: int)
    | Record(session: string, rule: Rule, clock: int, kvOk: bool)
    | List(session: string, now: int)
    | RevokeOp(session: string, id: string, clock: int, kvOk: bool)

  datatype Effect = Effect(
    store: Store,
    ok: bool,                 // Match hit, Record or Revoke returned nil
    admitted: Option<Rule>,   // what Match returned
    added: Option<Rule>,      // what Record stored
    removals: seq<Removal>)

  function Removals(kind: Kind, session: string, rules: seq<Rule>, at: int): (r: seq<Removal>)
    ensures |r| == |rules|
  {
    seq(|rules|, k requires 0 <= k < |rules| => Removal(kind, session, rules[k], at, true))
  }

  function Events(removals: seq<Removal>): (e: seq<AuditEvent>)
    ensures |e| == |removals|
  {
    seq(|removals|, k requires 0 <= k < |removals| =>
      EventOf(removals[k].kind, removals[k].session, removals[k].rule, removals[k].at))
  }

  function Expiries(st: Store, session: string, now: int): seq<Removal> {
    Removals(Expire, session, Gone(st.Of(session), now), now)
  }

  function AfterExpiry(st: Store, session: string, now: int): Store {
    st.(sessions := st.sessions[session := Live(st.Of(session), now)],
        log := st.log + Events(Expiries(st, session, now)))
  }

  // The three ways Match can end, after the expiry.
  function OwnHit(s1: Store, session: string, i: nat, now: int, expired: seq<Removal>): Effect
    requires i < |s1.Of(session)|
  {
    var own := s1.Of(session);
    var r := own[i];
    var hit := s1.log + [EventOf(Hit, session, r, now)];
    if r.ttl != Once then Effect(s1.(log := hit), true, Some(r), None, expired)
    else
      Effect(
        s1.(sessions := s1.sessions[session := Without(own, i)], log := hit + [EventOf(Consume, session, r, now)]),
        true, Some(r), None, expired + [Removal(Consume, session, r, now, true)])
  }

  function PersistentHit(s1: Store, session: string, r: Rule, now: int, expired: seq<Removal>): Effect {
    Effect(s1.(log := s1.log + [EventOf(Hit, session, r, now)]), true, Some(r), None, expired)
  }

  function NoHit(s1: Store, session: string, scope: Scope, now: int, expired: seq<Removal>): Effect {
    Effect(s1.(log := s1.log + [AuditEvent(Miss, "", session, "", scope, now)]), false, None, None, expired)
  }

  function MatchEffect(st: Store, session: string, scope: Scope, now: int): Effect {
    var expired, s1 := Expiries(st, session, now), AfterExpiry(st, session, now);
    var i, j := FirstWithScope(s1.Of(session), scope), FirstWithScope(s1.persistent, scope);
    if i < |s1.Of(session)| then OwnHit(s1, session, i, now, expired)
    else if j < |s1.persistent| then PersistentHit(s1, session, s1.persistent[j], now, expired)
    else NoHit(s1, session, scope, now, expired)
  }

  // persistLocked
  function Persist(st: Store, rules: seq<Rule>, kvOk: bool): Option<Store> {
    if st.hasKv && kvOk then Some(st.(persistent := rules, text := Some(Encoded(rules)))) else None
  }

  function RecordEffect(st: Store, process: string, session: string, rule: Rule, clock: int, kvOk: bool): Effect {
    var dated := if rule.created.None? then rule.(created := Some(clock)) else rule;
    var refused := Effect(st, false, None, None, []);
    if rule.id == "" || rule.action == "" || rule.scope.tool == "" then refused
    else if rule.ttl.Once? || rule.ttl.Session? then
      if session == "" then refused
      else
        var r := dated.(process := process);
        Effect(st.(sessions := st.sessions[session := st.Of(session) + [r]]), true, None, Some(r), [])
    else if rule.ttl.Persistent? then
      var saved := Persist(st, st.persistent + [dated], kvOk);
      if saved.None? then refused else Effect(saved.value, true, None, Some(dated), [])
    else refused
  }

  function RevokeEffect(st: Store, session: string, id: string, clock: int, kvOk: bool): Effect {
    var own := st.Of(session);
    var i, j := FirstWithID(own, id), FirstWithID(st.persistent, id);
    var refused := Effect(st, false, None, None, []);
    if i < |own| then
      Effect(
        st.(sessions := st.sessions[session := Without(own, i)], log := st.log + [EventOf(Revoke, session, own[i], clock)]),
        true, None, None, [Removal(Revoke, session, own[i], clock, true)])
    else if j < |st.persistent| then
      var r := st.persistent[j];
      var saved := Persist(st, Without(st.persistent, j), kvOk);
      if saved.None? then refused
      else
        Effect(saved.value.(log := saved.value.log + [EventOf(Revoke, session, r, clock)]),
               true, None, None, [Removal(Revoke, session, r, clock, false)])
    else refused
  }

  function ListEffect(st: Store, session: string, now: int): Effect {
    Effect(AfterExpiry(st, session, now), true, None, None, Expiries(st, session, now))
  }

  function Step(st: Store, process: string, op: Op): Effect {
    match op
    case Match(session, scope, now) => MatchEffect(st, session, scope, now)
    case Record(session, rule, clock, kvOk) => RecordEffect(st, process, session, rule, clock, kvOk)
    case List(session, now) => ListEffect(st, session, now)
    case RevokeOp(session, id, clock, kvOk) => RevokeEffect(st, session, id, clock, kvOk)
  }

  // ---------------------------------------------------------------------
  // What Match finds
  // ---------------------------------------------------------------------

  // Among the rules as recorded, expired ones still included, i is the first
  // that is unexpired and has the scope.
  ghost predicate IsFirstAdmitting(rules: seq<Rule>, scope: Scope, now: int, i: nat) {
    && i < |rules| && rules[i].scope == scope && (rules[i].expires == None || now < rules[i].expires.value)
    && forall k :: 0 <= k < i ==> rules[k].scope != scope || (rules[k].expires.Some? && rules[k].expires.value <= now)
  }

  lemma LiveOfCons(rules: seq<Rule>, now: int)
    requires rules != []
    ensures Live(rules, now) == if Expired(rules[0], now) then Live(rules[1..], now) else [rules[0]] + Live(rules[1..], now)
  {
  }

  lemma GoneOfCons(rules: seq<Rule>, now: int)
    requires rules != []
    ensures Gone(rules, now) == if Expired(rules[0], now) then [rules[0]] + Gone(rules[1..], now) else Gone(rules[1..], now)
  {
  }

  lemma FirstOfCons(r: Rule, rest: seq<Rule>, scope: Scope)
    ensures FirstWithScope([r] + rest, scope) == if r.scope == scope then 0 else FirstWithScope(rest, scope) + 1
  {
    assert ([r] + rest)[1..] == rest;
  }

  lemma {:induction false} LiveHasNone(rules: seq<Rule>, scope: Scope, now: int)
    requires forall k :: 0 <= k < |rules| ==> rules[k].scope != scope || Expired(rules[k], now)
    ensures FirstWithScope(Live(rules, now), scope) == |Live(rules, now)|
    decreases |rules|
  {
    if rules != [] {
      LiveHasNone(rules[1..], scope, now);
      LiveOfCons(rules, now);
      FirstOfCons(rules[0], Live(rules[1..], now), scope);
    }
  }

  lemma {:induction false} LiveConcat(a: seq<Rule>, b: seq<Rule>, now: int)
    ensures Live(a + b, now) == Live(a, now) + Live(b, now)
    decreases |a|
  {
    if a == [] {
      assert a + b == b;
    } else {
      LiveConcat(a[1..], b, now);
      assert (a + b)[1..] == a[1..] + b && (a + b)[0] == a[0];
      LiveOfCons(a, now);
      LiveOfCons(a + b, now);
      Regroup([a[0]], Live(a[1..], now), Live(b, now));
    }
  }

  lemma {:induction false} GoneConcat(a: seq<Rule>, b: seq<Rule>, now: int)
    ensures Gone(a + b, now) == Gone(a, now) + Gone(b, now)
    decreases |a|
  {
    if a == [] {
      assert a + b == b;
    } else {
      GoneConcat(a[1..], b, now);
      assert (a + b)[1..] == a[1..] + b && (a + b)[0] == a[0];
      GoneOfCons(a, now);
      GoneOfCons(a + b, now);
      Regroup([a[0]], Gone(a[1..], now), Gone(b, now));
    }
  }

  // Expiry looks at each rule on its own and keeps the order: a rule goes
  // exactly when it has an expiry and now has reached it.
  lemma ExpiryIsExact(rules: seq<Rule>, k: nat, now: int)
    requires k < |rules|
    ensures
      var due := rules[k].expires.Some? && rules[k].expires.value <= now;
      && Live(rules, now) == Live(rules[..k], now) + (if due then [] else [rules[k]]) + Live(rules[k + 1..], now)
      && Gone(rules, now) == Gone(rules[..k], now) + (if due then [rules[k]] else []) + Gone(rules[k + 1..], now)
  {
    assert rules == rules[..k] + [rules[k]] + rules[k + 1..];
    LiveConcat(rules[..k] + [rules[k]], rules[k + 1..], now);
    LiveConcat(rules[..k], [rules[k]], now);
    GoneConcat(rules[..k] + [rules[k]], rules[k + 1..], now);
    GoneConcat(rules[..k], [rules[k]], now);
    assert [rules[k]][1..] == [];
  }

  lemma {:induction false} FirstAfter(front: seq<Rule>, r: Rule, tail: seq<Rule>, scope: Scope)
    requires FirstWithScope(front, scope) == |front| && r.scope == scope
    ensures FirstWithScope(front + [r] + tail, scope) == |front|
    decreases |front|
  {
    if front == [] {
      assert front + [r] + tail == [r] + tail;
    } else {
      FirstAfter(front[1..], r, tail, scope);
      assert (front + [r] + tail)[1..] == front[1..] + [r] + tail;
    }
  }

  lemma LiveAround(rules: seq<Rule>, scope: Scope, now: int, i: nat)
    requires IsFirstAdmitting(rules, scope, now, i)
    ensures FirstWithScope(Live(rules, now), scope) == |Live(rules[..i], now)|
    ensures Live(rules, now) == Live(rules[..i], now) + [rules[i]] + Live(rules[i + 1..], now)
  {
    var front, tail := Live(rules[..i], now), Live(rules[i + 1..], now);
    ExpiryIsExact(rules, i, now);
    LiveHasNone(rules[..i], scope, now);
    FirstAfter(front, rules[i], tail, scope);
  }

  // FirstWithScope and FirstWithID find the first one.
  lemma {:induction false} FirstWithScopeIsFirst(rules: seq<Rule>, scope: Scope)
    ensures
      var i := FirstWithScope(rules, scope);
      && (i < |rules| ==> rules[i].scope == scope)
      && forall k :: 0 <= k < i ==> rules[k].scope != scope
    decreases |rules|
  {
    if rules != [] && rules[0].scope != scope {
      FirstWithScopeIsFirst(rules[1..], scope);
      assert forall k :: 0 < k < |rules| ==> rules[k] == rules[1..][k - 1];
    }
  }

  lemma {:induction false} FirstWithIDIsFirst(rules: seq<Rule>, id: string)
    ensures
      var i := FirstWithID(rules, id);
      && (i < |rules| ==> rules[i].id == id)
      && forall k :: 0 <= k < i ==> rules[k].id != id
    decreases |rules|
  {
    if rules != [] && rules[0].id != id {
      FirstWithIDIsFirst(rules[1..], id);
      assert forall k :: 0 < k < |rules| ==> rules[k] == rules[1..][k - 1];
    }
  }

  ghost predicate NoneOfScope(rules: seq<Rule>, scope: Scope, n: nat) {
    n <= |rules| && forall k :: 0 <= k < n ==> rules[k].scope != scope
  }

  ghost predicate NoneOfID(rules: seq<Rule>, id: string, n: nat) {
    n <= |rules| && forall k :: 0 <= k < n ==> rules[k].id != id
  }

  ghost predicate IsFirstOfScope(rules: seq<Rule>, scope: Scope, i: nat) {
    NoneOfScope(rules, scope, i) && i < |rules| && rules[i].scope == scope
  }

  ghost predicate IsFirstOfID(rules: seq<Rule>, id: string, i: nat) {
    NoneOfID(rules, id, i) && i < |rules| && rules[i].id == id
  }

  ghost predicate NoneAdmits(rules: seq<Rule>, scope: Scope, now: int) {
    forall i: nat :: !IsFirstAdmitting(rules, scope, now, i)
  }

  lemma {:induction false} NoFirstMeansNone(rules: seq<Rule>, scope: Scope, now: int, n: nat)
    requires n <= |rules| && forall i: nat :: !IsFirstAdmitting(rules, scope, now, i)
    ensures forall k :: 0 <= k < n ==> rules[k].scope != scope || Expired(rules[k], now)
    decreases n
  {
    if n > 0 {
      NoFirstMeansNone(rules, scope, now, n - 1);
      assert !IsFirstAdmitting(rules, scope, now, n - 1);
    }
  }

  lemma OwnIsAdmitted(st: Store, session: string, scope: Scope, now: int, i: nat)
    requires IsFirstAdmitting(st.Of(session), scope, now, i)
    ensures MatchEffect(st, session, scope, now).admitted == Some(st.Of(session)[i])
  {
    LiveAround(st.Of(session), scope, now, i);
  }

  lemma NoOwnIsAdmitted(st: Store, session: string, scope: Scope, now: int)
    requires NoneAdmits(st.Of(session), scope, now)
    ensures
      var j := FirstWithScope(st.persistent, scope);
      MatchEffect(st, session, scope, now).admitted == if j < |st.persistent| then Some(st.persistent[j]) else None
  {
    NoFirstMeansNone(st.Of(session), scope, now, |st.Of(session)|);
    LiveHasNone(st.Of(session), scope, now);
  }

  // The first unexpired session rule with the scope in record order; else the
  // first persistent one; else a miss.
  lemma MatchFindsFirst(st: Store, session: string, scope: Scope, now: int)
    ensures forall i: nat :: IsFirstAdmitting(st.Of(session), scope, now, i) ==>
      MatchEffect(st, session, scope, now).admitted == Some(st.Of(session)[i])
    ensures NoneAdmits(st.Of(session), scope, now) ==>
      forall j: nat :: IsFirstOfScope(st.persistent, scope, j) ==>
        MatchEffect(st, session, scope, now).admitted == Some(st.persistent[j])
    ensures NoneAdmits(st.Of(session), scope, now) && NoneOfScope(st.persistent, scope, |st.persistent|) ==>
      MatchEffect(st, session, scope, now).admitted == None
    ensures MatchEffect(st, session, scope, now).ok == MatchEffect(st, session, scope, now).admitted.Some?
  {
    forall i: nat | IsFirstAdmitting(st.Of(session), scope, now, i)
      ensures MatchEffect(st, session, scope, now).admitted == Some(st.Of(session)[i])
    {
      OwnIsAdmitted(st, session, scope, now, i);
    }
    if NoneAdmits(st.Of(session), scope, now) {
      NoOwnIsAdmitted(st, session, scope, now);
      FirstWithScopeIsFirst(st.persistent, scope);
    }
  }

  // Revoke takes the first session rule with the id and leaves the persistent
  // ones alone; else the first persistent one, if the store can be written, and
  // nothing at all otherwise; else it refuses and changes nothing.
  lemma RevokeFindsFirst(st: Store, session: string, id: string, clock: int, kvOk: bool)
    ensures
      var e := RevokeEffect(st, session, id, clock, kvOk);
      forall i: nat :: IsFirstOfID(st.Of(session), id, i) ==>
        && e.ok && e.removals == [Removal(Revoke, session, st.Of(session)[i], clock, true)]
        && e.store.log == st.log + [AuditEvent(Revoke, id, session, st.Of(session)[i].action, st.Of(session)[i].scope, clock)]
        && e.store.Of(session) == st.Of(session)[..i] + st.Of(session)[i + 1..]
        && e.store.persistent == st.persistent && e.store.text == st.text
    ensures
      var e := RevokeEffect(st, session, id, clock, kvOk);
      NoneOfID(st.Of(session), id, |st.Of(session)|) ==>
        forall j: nat :: IsFirstOfID(st.persistent, id, j) ==>
          if st.hasKv && kvOk then
            && e.ok && e.removals == [Removal(Revoke, session, st.persistent[j], clock, false)]
            && e.store.log == st.log + [AuditEvent(Revoke, id, session, st.persistent[j].action, st.persistent[j].scope, clock)]
            && e.store.sessions == st.sessions && e.store.persistent == st.persistent[..j] + st.persistent[j + 1..]
            && e.store.text == Some(Encoded(e.store.persistent))
          else !e.ok && e.store == st
    ensures
      var e := RevokeEffect(st, session, id, clock, kvOk);
      NoneOfID(st.Of(session), id, |st.Of(session)|) && NoneOfID(st.persistent, id, |st.persistent|) ==>
        !e.ok && e.store == st
  {
    FirstWithIDIsFirst(st.Of(session), id);
    FirstWithIDIsFirst(st.persistent, id);
  }

  // Record succeeds exactly for a complete rule of a known lifetime that has
  // somewhere to go. It stores the rule that was handed in, dated if it had no
  // date, as the last one of its list; a refusal changes nothing.
  lemma RecordStoresTheRule(st: Store, process: string, session: string, rule: Rule, clock: int, kvOk: bool)
    ensures
      var e := RecordEffect(st, process, session, rule, clock, kvOk);
      e.ok <==>
        && rule.id != "" && rule.action != "" && rule.scope.tool != "" && !rule.ttl.Unknown?
        && (rule.ttl == Once || rule.ttl == Session ==> session != "")
        && (rule.ttl == Persistent ==> st.hasKv && kvOk)
    ensures
      var e := RecordEffect(st, process, session, rule, clock, kvOk);
      if !e.ok then e.store == st && e.added == None
      else
        && e.added.Some?
        && var r := e.added.value;
        && r.id == rule.id && r.action == rule.action && r.scope == rule.scope && r.ttl == rule.ttl
        && r.source == rule.source && r.expires == rule.expires
        && r.created == (if rule.created == None then Some(clock) else rule.created)
        && r.process == (if rule.ttl == Persistent then rule.process else process)
        && e.store ==
           if rule.ttl == Persistent then
             st.(persistent := st.persistent + [r], text := Some(Encoded(st.persistent + [r])))
           else st.(sessions := st.sessions[session := st.Of(session) + [r]])
  {
  }

  // One event tells of each expired rule, in their order, and the others stay.
  lemma ExpiryTellsEach(st: Store, session: string, now: int)
    ensures
      var s1, gone := AfterExpiry(st, session, now), Gone(st.Of(session), now);
      && s1.Of(session) == Live(st.Of(session), now)
      && s1 == st.(sessions := s1.sessions, log := s1.log)
      && |s1.log| == |st.log| + |gone| && st.log <= s1.log
      && forall k :: 0 <= k < |gone| ==>
           s1.log[|st.log| + k] == AuditEvent(Expire, gone[k].id, session, gone[k].action, gone[k].scope, now)
  {
  }

  lemma OwnHitAt(s1: Store, session: string, i: nat, now: int, expired: seq<Removal>)
    requires i < |s1.Of(session)|
    ensures
      var own, e := s1.Of(session), OwnHit(s1, session, i, now, expired);
      var r := own[i];
      && e.store.Of(session) == own[..i] + (if r.ttl == Once then [] else [r]) + own[i + 1..]
      && e.store.persistent == s1.persistent && e.store.text == s1.text
      && e.store.log == s1.log + [AuditEvent(Hit, r.id, session, r.action, r.scope, now)]
                        + if r.ttl == Once then [AuditEvent(Consume, r.id, session, r.action, r.scope, now)] else []
  {
  }

  lemma SplitAround(front: seq<Rule>, r: Rule, tail: seq<Rule>)
    ensures
      var all := front + [r] + tail;
      all[..|front|] == front && all[|front|] == r && all[|front| + 1..] == tail
  {
  }

  // A hit on a session rule takes it away exactly when it is a one-shot, from
  // its own place, and says so after the hit; nothing else in the list moves.
  lemma OwnHitTakesTheOneShot(st: Store, session: string, scope: Scope, now: int, i: nat)
    requires IsFirstAdmitting(st.Of(session), scope, now, i)
    ensures
      var rules, r := st.Of(session), st.Of(session)[i];
      var s', s1 := MatchEffect(st, session, scope, now).store, AfterExpiry(st, session, now);
      && s'.Of(session) == Live(rules[..i], now) + (if r.ttl == Once then [] else [r]) + Live(rules[i + 1..], now)
      && s'.persistent == st.persistent && s'.text == st.text
      && s'.log == s1.log + [AuditEvent(Hit, r.id, session, r.action, scope, now)]
                   + if r.ttl == Once then [AuditEvent(Consume, r.id, session, r.action, scope, now)] else []
  {
    var rules, s1 := st.Of(session), AfterExpiry(st, session, now);
    var k := |Live(rules[..i], now)|;
    LiveAround(rules, scope, now, i);
    SplitAround(Live(rules[..i], now), rules[i], Live(rules[i + 1..], now));
    assert s1.Of(session) == Live(rules, now);
    OwnHitAt(s1, session, k, now, Expiries(st, session, now));
  }

  // Any other match only lets rules expire and says whether it hit.
  lemma OtherMatchesOnlyTell(st: Store, session: string, scope: Scope, now: int)
    requires NoneAdmits(st.Of(session), scope, now)
    ensures
      var s', s1 := MatchEffect(st, session, scope, now).store, AfterExpiry(st, session, now);
      && s' == s1.(log := s'.log)
      && (forall j: nat :: IsFirstOfScope(st.persistent, scope, j) ==>
            s'.log == s1.log + [AuditEvent(Hit, st.persistent[j].id, session, st.persistent[j].action, scope, now)])
      && (NoneOfScope(st.persistent, scope, |st.persistent|) ==>
            s'.log == s1.log + [AuditEvent(Miss, "", session, "", scope, now)])
  {
    NoFirstMeansNone(st.Of(session), scope, now, |st.Of(session)|);
    LiveHasNone(st.Of(session), scope, now);
    FirstWithScopeIsFirst(st.persistent, scope);
  }

  lemma MatchLeavesOthers(st: Store, session: string, scope: Scope, now: int, other: string)
    requires other != session
    ensures MatchEffect(st, session, scope, now).store.Of(other) == st.Of(other)
  {
    var s1 := AfterExpiry(st, session, now);
    assert s1.Of(other) == st.Of(other);
    var i := FirstWithScope(s1.Of(session), scope);
    if i < |s1.Of(session)| {
      assert OwnHit(s1, session, i, now, Expiries(st, session, now)).store.Of(other) == s1.Of(other);
    }
  }

  lemma RevokeLeavesOthers(st: Store, session: string, id: string, clock: int, kvOk: bool, other: string)
    requires other != session
    ensures RevokeEffect(st, session, id, clock, kvOk).store.Of(other) == st.Of(other)
  {
  }

  predicate GoesHome(r: Rule) { r.ttl.Once? || r.ttl.Session? }

  // Record changes nothing, or adds one rule at the end of one list.
  ghost predicate Appends(st: Store, e: Effect, session: string) {
    && e.removals == [] && e.admitted == None
    && if e.added.None? then e.store == st
       else
         var x := e.added.value;
         e.store.log == st.log
         && if GoesHome(x) then
           e.store.persistent == st.persistent && e.store.sessions == st.sessions[session := st.Of(session) + [x]]
         else
           e.store.sessions == st.sessions && e.store.persistent == st.persistent + [x]
  }

  lemma RecordAppends(st: Store, process: string, op: Op)
    requires op.Record?
    ensures Appends(st, Step(st, process, op), op.session)
  {
  }

  // No operation touches another session's rules.
  lemma OtherSessionsUntouched(st: Store, process: string, op: Op, other: string)
    requires other != op.session
    ensures Step(st, process, op).store.Of(other) == st.Of(other)
  {
    match op
    case Match(session, scope, now) => MatchLeavesOthers(st, session, scope, now, other);
    case Record(_, _, _, _) => RecordAppends(st, process, op);
    case List(_, _) =>
    case RevokeOp(session, id, clock, kvOk) => RevokeLeavesOthers(st, session, id, clock, kvOk, other);
  }

  // ---------------------------------------------------------------------
  // Runs and conservation
  // ---------------------------------------------------------------------

  function Run(st: Store, process: string, ops: seq<Op>): Store
    decreases |ops|
  {
    if ops == [] then st else Run(Step(st, process, ops[0]).store, process, ops[1..])
  }

  // Everything that left a list during the run, in order.
  function AllRemovals(st: Store, process: string, ops: seq<Op>): seq<Removal>
    decreases |ops|
  {
    if ops == [] then []
    else
      var e := Step(st, process, ops[0]);
      e.removals + AllRemovals(e.store, process, ops[1..])
  }

  function Tally(b: bool): nat { if b then 1 else 0 }

  // How many copies of a rule are in a list.
  function Copies(rules: seq<Rule>, r: Rule): nat { multiset(rules)[r] }

  // How many copies an operation recorded for a session, and persistently.
  function Added(e: Effect, op: Op, session: string, r: Rule): nat {
    Tally(e.added == Some(r) && GoesHome(r) && op.session == session)
  }

  function AddedForGood(e: Effect, r: Rule): nat { Tally(e.added == Some(r) && !GoesHome(r)) }

  function Recorded(st: Store, process: string, ops: seq<Op>, session: string, r: Rule): nat
    decreases |ops|
  {
    if ops == [] then 0
    else
      var e := Step(st, process, ops[0]);
      Added(e, ops[0], session, r) + Recorded(e.store, process, ops[1..], session, r)
  }

  function RecordedForGood(st: Store, process: string, ops: seq<Op>, r: Rule): nat
    decreases |ops|
  {
    if ops == [] then 0
    else
      var e := Step(st, process, ops[0]);
      AddedForGood(e, r) + RecordedForGood(e.store, process, ops[1..], r)
  }

  // How often Match returned a rule to a session as a one-shot.
  function AdmittedOnce(st: Store, process: string, ops: seq<Op>, session: string, r: Rule): nat
    decreases |ops|
  {
    if ops == [] then 0
    else
      var e := Step(st, process, ops[0]);
      Tally(e.admitted == Some(r) && r.ttl == Once && ops[0].session == session)
      + AdmittedOnce(e.store, process, ops[1..], session, r)
  }

  // How many copies of a rule left a session's own list, for one reason.
  function Left(removals: seq<Removal>, session: string, kind: Kind, r: Rule): nat {
    if removals == [] then 0
    else
      var x := removals[0];
      Tally(x.home && x.session == session && x.kind == kind && x.rule == r) + Left(removals[1..], session, kind, r)
  }

  function LeftForGood(removals: seq<Removal>, r: Rule): nat {
    if removals == [] then 0
    else Tally(!removals[0].home && removals[0].rule == r) + LeftForGood(removals[1..], r)
  }

  function LeftAtAll(removals: seq<Removal>, session: string, r: Rule): nat {
    Left(removals, session, Consume, r) + Left(removals, session, Revoke, r) + Left(removals, session, Expire, r)
  }

  lemma {:induction false} LeftConcat(a: seq<Removal>, b: seq<Removal>, session: string, kind: Kind, r: Rule)
    ensures Left(a + b, session, kind, r) == Left(a, session, kind, r) + Left(b, session, kind, r)
    decreases |a|
  {
    if a == [] {
      assert a + b == b;
    } else {
      LeftConcat(a[1..], b, session, kind, r);
      assert (a + b)[1..] == a[1..] + b;
    }
  }

  lemma {:induction false} LeftForGoodConcat(a: seq<Removal>, b: seq<Removal>, r: Rule)
    ensures LeftForGood(a + b, r) == LeftForGood(a, r) + LeftForGood(b, r)
    decreases |a|
  {
    if a == [] {
      assert a + b == b;
    } else {
      LeftForGoodConcat(a[1..], b, r);
      assert (a + b)[1..] == a[1..] + b;
    }
  }

  lemma LeftOne(x: Removal, session: string, kind: Kind, r: Rule)
    ensures Left([x], session, kind, r) == Tally(x.home && x.session == session && x.kind == kind && x.rule == r)
    ensures LeftForGood([x], r) == Tally(!x.home && x.rule == r)
  {
    assert [x][1..] == [];
  }

  lemma {:induction false} LeftOfExpiry(session: string, rules: seq<Rule>, at: int, who: string, kind: Kind, r: Rule)
    ensures Left(Removals(Expire, session, rules, at), who, kind, r) ==
      if who == session && kind == Expire then Copies(rules, r) else 0
    ensures LeftForGood(Removals(Expire, session, rules, at), r) == 0
    decreases |rules|
  {
    var x := Removals(Expire, session, rules, at);
    if rules != [] {
      LeftOfExpiry(session, rules[1..], at, who, kind, r);
      assert x[1..] == Removals(Expire, session, rules[1..], at);
      assert rules == [rules[0]] + rules[1..];
    }
  }

  lemma {:induction false} LivePlusGone(rules: seq<Rule>, now: int, r: Rule)
    ensures Copies(Live(rules, now), r) + Copies(Gone(rules, now), r) == Copies(rules, r)
    decreases |rules|
  {
    if rules != [] {
      LivePlusGone(rules[1..], now, r);
      assert rules == [rules[0]] + rules[1..];
      LiveOfCons(rules, now);
      GoneOfCons(rules, now);
    }
  }

  lemma CopiesWithout(rules: seq<Rule>, i: nat, r: Rule)
    requires i < |rules|
    ensures Copies(Without(rules, i), r) + Tally(rules[i] == r) == Copies(rules, r)
  {
    assert rules == rules[..i] + [rules[i]] + rules[i + 1..];
  }

  lemma CopiesPush(rules: seq<Rule>, x: Rule, r: Rule)
    ensures Copies(rules + [x], r) == Copies(rules, r) + Tally(x == r)
  {
  }

  // The balance of one session's own list over one operation.
  ghost predicate Balanced(st: Store, e: Effect, op: Op, session: string, r: Rule) {
    Copies(st.Of(session), r) + Added(e, op, session, r) == Copies(e.store.Of(session), r) + LeftAtAll(e.removals, session, r)
  }

  ghost predicate BalancedForGood(st: Store, e: Effect, r: Rule) {
    Copies(st.persistent, r) + AddedForGood(e, r) == Copies(e.store.persistent, r) + LeftForGood(e.removals, r)
  }

  lemma ExpiryBalances(st: Store, session: string, now: int, who: string, r: Rule)
    ensures
      var s1, out := AfterExpiry(st, session, now), Expiries(st, session, now);
      && Copies(st.Of(who), r) == Copies(s1.Of(who), r) + LeftAtAll(out, who, r)
      && Left(out, who, Consume, r) == 0 && LeftForGood(out, r) == 0
  {
    var gone := Gone(st.Of(session), now);
    LeftOfExpiry(session, gone, now, who, Consume, r);
    LeftOfExpiry(session, gone, now, who, Revoke, r);
    LeftOfExpiry(session, gone, now, who, Expire, r);
    LivePlusGone(st.Of(session), now, r);
  }

  lemma OneMoreLeft(out: seq<Removal>, x: Removal, who: string, kind: Kind, r: Rule)
    ensures LeftForGood(out + [x], r) == LeftForGood(out, r) + Tally(!x.home && x.rule == r)
    ensures Left(out + [x], who, kind, r)
         == Left(out, who, kind, r) + Tally(x.home && x.session == who && x.kind == kind && x.rule == r)
  {
    LeftForGoodConcat(out, [x], r);
    LeftConcat(out, [x], who, kind, r);
    LeftOne(x, who, kind, r);
  }

  ghost predicate MatchBalanced(st: Store, e: Effect, session: string, who: string, r: Rule) {
    && Copies(st.Of(who), r) == Copies(e.store.Of(who), r) + LeftAtAll(e.removals, who, r)
    && e.store.persistent == st.persistent && e.added == None && LeftForGood(e.removals, r) == 0
    && (AllPersistent(st.persistent) ==>
          Tally(e.admitted == Some(r) && r.ttl == Once && session == who) == Left(e.removals, who, Consume, r))
  }

  // Match took a one-shot rule of the session.
  lemma ConsumeBalances(st: Store, session: string, i: nat, now: int, who: string, r: Rule)
    requires
      var own := AfterExpiry(st, session, now).Of(session);
      i < |own| && own[i].ttl == Once
    ensures
      var e := OwnHit(AfterExpiry(st, session, now), session, i, now, Expiries(st, session, now));
      MatchBalanced(st, e, session, who, r)
  {
    ExpiryBalances(st, session, now, who, r);
    var own := AfterExpiry(st, session, now).Of(session);
    var out, x := Expiries(st, session, now), Removal(Consume, session, own[i], now, true);
    CopiesWithout(own, i, r);
    OneMoreLeft(out, x, who, Consume, r);
    OneMoreLeft(out, x, who, Revoke, r);
    OneMoreLeft(out, x, who, Expire, r);
  }

  // Match took nothing away but the expired rules.
  ghost predicate OnlyExpires(st: Store, e: Effect, session: string, now: int) {
    && e.store.sessions == AfterExpiry(st, session, now).sessions && e.store.persistent == st.persistent
    && e.removals == Expiries(st, session, now) && e.added == None
    && (AllPersistent(st.persistent) && e.admitted.Some? ==> e.admitted.value.ttl != Once)
  }

  lemma KeepBalances(st: Store, e: Effect, session: string, now: int, who: string, r: Rule)
    requires OnlyExpires(st, e, session, now)
    ensures MatchBalanced(st, e, session, who, r)
  {
    ExpiryBalances(st, session, now, who, r);
  }

  lemma MatchBalances(st: Store, session: string, scope: Scope, now: int, who: string, r: Rule)
    ensures MatchBalanced(st, MatchEffect(st, session, scope, now), session, who, r)
  {
    var s1 := AfterExpiry(st, session, now);
    var i := FirstWithScope(s1.Of(session), scope);
    if i < |s1.Of(session)| && s1.Of(session)[i].ttl == Once {
      ConsumeBalances(st, session, i, now, who, r);
    } else {
      assert OnlyExpires(st, MatchEffect(st, session, scope, now), session, now);
      KeepBalances(st, MatchEffect(st, session, scope, now), session, now, who, r);
    }
  }

  lemma AppendBalances(st: Store, e: Effect, op: Op, who: string, r: Rule)
    requires Appends(st, e, op.session)
    ensures Balanced(st, e, op, who, r) && BalancedForGood(st, e, r)
  {
    if e.added.Some? {
      if GoesHome(e.added.value) {
        CopiesPush(st.Of(op.session), e.added.value, r);
      } else {
        CopiesPush(st.persistent, e.added.value, r);
      }
    }
  }

  lemma RecordBalances(st: Store, process: string, op: Op, who: string, r: Rule)
    requires op.Record?
    ensures Balanced(st, Step(st, process, op), op, who, r) && BalancedForGood(st, Step(st, process, op), r)
    ensures Step(st, process, op).removals == [] && Step(st, process, op).admitted == None
  {
    RecordAppends(st, process, op);
    AppendBalances(st, Step(st, process, op), op, who, r);
  }

  lemma RevokeBalances(st: Store, process: string, op: Op, who: string, r: Rule)
    requires op.RevokeOp?
    ensures
      var e := Step(st, process, op);
      Balanced(st, e, op, who, r) && BalancedForGood(st, e, r) && Left(e.removals, who, Consume, r) == 0
  {
    var own := st.Of(op.session);
    var i, j := FirstWithID(own, op.id), FirstWithID(st.persistent, op.id);
    var e := Step(st, process, op);
    if e.removals != [] {
      var x := e.removals[0];
      assert e.removals == [x];
      LeftOne(x, who, Consume, r);
      LeftOne(x, who, Revoke, r);
      LeftOne(x, who, Expire, r);
      if i < |own| {
        CopiesWithout(own, i, r);
      } else {
        CopiesWithout(st.persistent, j, r);
      }
    }
  }

  lemma StepBalances(st: Store, process: string, op: Op, session: string, r: Rule)
    ensures
      var e := Step(st, process, op);
      && Balanced(st, e, op, session, r)
      && BalancedForGood(st, e, r)
      && (AllPersistent(st.persistent) ==>
            Tally(e.admitted == Some(r) && r.ttl == Once && op.session == session) == Left(e.removals, session, Consume, r))
  {
    match op
    case Match(s, scope, now) => MatchBalances(st, s, scope, now, session, r);
    case Record(_, _, _, _) => RecordBalances(st, process, op, session, r);
    case List(s, now) => ExpiryBalances(st, s, now, session, r);
    case RevokeOp(_, _, _, _) => RevokeBalances(st, process, op, session, r);
  }

  // Conservation over whole runs: every copy of a rule recorded for a session is
  // still live, or was consumed, revoked or expired, and never more than one of
  // these; likewise for persistent rules, which only revocation removes.
  lemma {:induction false} RulesAreConserved(st: Store, process: string, ops: seq<Op>, session: string, r: Rule)
    ensures
      var gone := AllRemovals(st, process, ops);
      Copies(st.Of(session), r) + Recorded(st, process, ops, session, r)
        == Copies(Run(st, process, ops).Of(session), r)
           + Left(gone, session, Consume, r) + Left(gone, session, Revoke, r) + Left(gone, session, Expire, r)
    ensures
      Copies(st.persistent, r) + RecordedForGood(st, process, ops, r)
        == Copies(Run(st, process, ops).persistent, r) + LeftForGood(AllRemovals(st, process, ops), r)
    decreases |ops|
  {
    if ops != [] {
      var e := Step(st, process, ops[0]);
      var later := AllRemovals(e.store, process, ops[1..]);
      StepBalances(st, process, ops[0], session, r);
      RulesAreConserved(e.store, process, ops[1..], session, r);
      LeftForGoodConcat(e.removals, later, r);
      LeftConcat(e.removals, later, session, Consume, r);
      LeftConcat(e.removals, later, session, Revoke, r);
      LeftConcat(e.removals, later, session, Expire, r);
    }
  }

  // ---------------------------------------------------------------------
  // Cache and store agree
  // ---------------------------------------------------------------------

  ghost predicate Agrees(st: Store) {
    && AllPersistent(st.persistent)
    && (if st.hasKv then Decode(st.text) == Some(st.persistent) else st.persistent == [])
  }

  lemma RecordAgrees(st: Store, process: string, session: string, rule: Rule, clock: int, kvOk: bool)
    requires Agrees(st)
    ensures
      var e := RecordEffect(st, process, session, rule, clock, kvOk);
      Agrees(e.store) && e.store.hasKv == st.hasKv
  {
  }

  lemma RevokeAgrees(st: Store, session: string, id: string, clock: int, kvOk: bool)
    requires Agrees(st)
    ensures
      var e := RevokeEffect(st, session, id, clock, kvOk);
      Agrees(e.store) && e.store.hasKv == st.hasKv
  {
  }

  lemma StepAgrees(st: Store, process: string, op: Op)
    requires Agrees(st)
    ensures Agrees(Step(st, process, op).store) && Step(st, process, op).store.hasKv == st.hasKv
  {
    match op
    case Match(session, scope, now) =>
    case List(session, now) =>
    case Record(session, rule, clock, kvOk) => RecordAgrees(st, process, session, rule, clock, kvOk);
    case RevokeOp(session, id, clock, kvOk) => RevokeAgrees(st, session, id, clock, kvOk);
  }

  lemma {:induction false} RunAgrees(st: Store, process: string, ops: seq<Op>)
    requires Agrees(st)
    ensures Agrees(Run(st, process, ops)) && Run(st, process, ops).hasKv == st.hasKv
    decreases |ops|
  {
    if ops != [] {
      StepAgrees(st, process, ops[0]);
      RunAgrees(Step(st, process, ops[0]).store, process, ops[1..]);
    }
  }

  // In every state a run reaches, with writes failing anywhere, the in-memory
  // persistent rules are exactly what the store decodes to, all of them with
  // the persistent lifetime, so a restart succeeds and restores the same list.
  lemma {:induction false} CacheAgreesWithStore(hasKv: bool, text: Option<Text>, process: string, ops: seq<Op>)
    requires Load(hasKv, text).Some?
    ensures
      var st := Run(Load(hasKv, text).value, process, ops);
      && Agrees(st)
      && st.hasKv == hasKv
      && Load(hasKv, st.text).Some?
      && Load(hasKv, st.text).value.persistent == st.persistent
  {
    RunAgrees(Load(hasKv, text).value, process, ops);
  }

  lemma {:induction false} AdmissionsAreConsumed(st: Store, process: string, ops: seq<Op>, session: string, r: Rule)
    requires Agrees(st)
    ensures AdmittedOnce(st, process, ops, session, r) == Left(AllRemovals(st, process, ops), session, Consume, r)
    decreases |ops|
  {
    if ops != [] {
      var e := Step(st, process, ops[0]);
      StepBalances(st, process, ops[0], session, r);
      StepAgrees(st, process, ops[0]);
      AdmissionsAreConsumed(e.store, process, ops[1..], session, r);
      LeftConcat(e.removals, AllRemovals(e.store, process, ops[1..]), session, Consume, r);
    }
  }

  // The operation hands in r for this session, possibly still without its date
  // and the process it was granted in.
  predicate HandsIn(op: Op, process: string, session: string, r: Rule) {
    && op.Record? && op.session == session && r.process == process
    && op.rule.id == r.id && op.rule.action == r.action && op.rule.scope == r.scope && op.rule.ttl == r.ttl
    && op.rule.source == r.source && op.rule.expires == r.expires
    && r.created == if op.rule.created == None then Some(op.clock) else op.rule.created
  }

  function HandedIn(ops: seq<Op>, process: string, session: string, r: Rule): nat {
    if ops == [] then 0 else Tally(HandsIn(ops[0], process, session, r)) + HandedIn(ops[1..], process, session, r)
  }

  lemma AddedWasHandedIn(st: Store, process: string, op: Op, session: string, r: Rule)
    ensures Added(Step(st, process, op), op, session, r) <= Tally(HandsIn(op, process, session, r))
  {
    if op.Record? {
      RecordStoresTheRule(st, process, op.session, op.rule, op.clock, op.kvOk);
    }
  }

  lemma {:induction false} RecordedWasHandedIn(st: Store, process: string, ops: seq<Op>, session: string, r: Rule)
    ensures Recorded(st, process, ops, session, r) <= HandedIn(ops, process, session, r)
    decreases |ops|
  {
    if ops != [] {
      AddedWasHandedIn(st, process, ops[0], session, r);
      RecordedWasHandedIn(Step(st, process, ops[0]).store, process, ops[1..], session, r);
    }
  }

  // A one-shot rule admits at most once for each time it was handed to Record
  // as a one-shot for this session; what is still live has not admitted yet.
  lemma OnceAdmitsAtMostOnce(hasKv: bool, text: Option<Text>, process: string, ops: seq<Op>, session: string, r: Rule)
    requires Load(hasKv, text).Some?
    ensures
      var st := Load(hasKv, text).value;
      AdmittedOnce(st, process, ops, session, r) + Copies(Run(st, process, ops).Of(session), r)
        <= Recorded(st, process, ops, session, r)
        <= HandedIn(ops, process, session, r)
  {
    var st := Load(hasKv, text).value;
    AdmissionsAreConsumed(st, process, ops, session, r);
    RulesAreConserved(st, process, ops, session, r);
    RecordedWasHandedIn(st, process, ops, session, r);
  }

  // Some operation handed in r as a persistent rule.
  predicate HandsInForGood(op: Op, r: Rule) {
    && op.Record? && op.rule.ttl == Persistent
    && op.rule == r.(created := op.rule.created)
    && r.created == if op.rule.created == None then Some(op.clock) else op.rule.created
  }

  lemma {:induction false} ForGoodWasHandedIn(st: Store, process: string, ops: seq<Op>, r: Rule)
    requires RecordedForGood(st, process, ops, r) > 0
    ensures exists k :: 0 <= k < |ops| && HandsInForGood(ops[k], r)
    decreases |ops|
  {
    var e := Step(st, process, ops[0]);
    if AddedForGood(e, r) > 0 {
      assert HandsInForGood(ops[0], r);
    } else {
      ForGoodWasHandedIn(e.store, process, ops[1..], r);
      var k :| 0 <= k < |ops[1..]| && HandsInForGood(ops[1..][k], r);
      assert ops[k + 1] == ops[1..][k];
    }
  }

  lemma AdmittedIsThere(st: Store, session: string, scope: Scope, now: int, r: Rule)
    requires MatchEffect(st, session, scope, now).admitted == Some(r)
    ensures r.scope == scope && (Copies(st.Of(session), r) > 0 || Copies(st.persistent, r) > 0)
  {
    FirstWithScopeIsFirst(AfterExpiry(st, session, now).Of(session), scope);
    FirstWithScopeIsFirst(st.persistent, scope);
    LivePlusGone(st.Of(session), now, r);
  }

  // Nothing is admitted that nobody granted: after any run, the rule Match
  // returns has the scope asked for and was handed to Record for this session,
  // or handed to Record as persistent, or stood in the store at the start.
  lemma AdmissionsWereGranted(hasKv: bool, text: Option<Text>, process: string, ops: seq<Op>,
                              session: string, scope: Scope, now: int, r: Rule)
    requires Load(hasKv, text).Some?
    requires MatchEffect(Run(Load(hasKv, text).value, process, ops), session, scope, now).admitted == Some(r)
    ensures r.scope == scope
    ensures
      || HandedIn(ops, process, session, r) > 0
      || (exists k :: 0 <= k < |ops| && HandsInForGood(ops[k], r))
      || r in Load(hasKv, text).value.persistent
  {
    var st := Load(hasKv, text).value;
    AdmittedIsThere(Run(st, process, ops), session, scope, now, r);
    RulesAreConserved(st, process, ops, session, r);
    RecordedWasHandedIn(st, process, ops, session, r);
    if RecordedForGood(st, process, ops, r) > 0 {
      ForGoodWasHandedIn(st, process, ops, r);
    }
  }

  // ---------------------------------------------------------------------
  // The audit log tells every removal
  // ---------------------------------------------------------------------

  function Departures(log: seq<AuditEvent>): seq<AuditEvent> {
    if log == [] then []
    else (if log[0].kind.Hit? || log[0].kind.Miss? then [] else [log[0]]) + Departures(log[1..])
  }

  lemma DeparturesOfCons(e: AuditEvent, rest: seq<AuditEvent>)
    ensures Departures([e] + rest) == (if e.kind.Hit? || e.kind.Miss? then [] else [e]) + Departures(rest)
  {
    assert ([e] + rest)[1..] == rest;
  }

  lemma {:induction false} DeparturesConcat(a: seq<AuditEvent>, b: seq<AuditEvent>)
    ensures Departures(a + b) == Departures(a) + Departures(b)
    decreases |a|
  {
    if a == [] {
      assert a + b == b;
    } else {
      DeparturesConcat(a[1..], b);
      DeparturesOfCons(a[0], a[1..]);
      DeparturesOfCons(a[0], a[1..] + b);
      assert a + b == [a[0]] + (a[1..] + b) && a == [a[0]] + a[1..];
    }
  }

  lemma {:induction false} DeparturesOfEvents(removals: seq<Removal>)
    requires forall k :: 0 <= k < |removals| ==> !removals[k].kind.Hit? && !removals[k].kind.Miss?
    ensures Departures(Events(removals)) == Events(removals)
    decreases |removals|
  {
    if removals != [] {
      DeparturesOfEvents(removals[1..]);
      assert Events(removals)[1..] == Events(removals[1..]);
    }
  }

  lemma ExpiryTells(st: Store, session: string, now: int)
    ensures Departures(AfterExpiry(st, session, now).log)
         == Departures(st.log) + Events(Expiries(st, session, now))
  {
    var out := Expiries(st, session, now);
    DeparturesOfEvents(out);
    DeparturesConcat(st.log, Events(out));
  }

  lemma OneMoreEvent(log: seq<AuditEvent>, e: AuditEvent)
    ensures Departures(log + [e]) == Departures(log) + if e.kind.Hit? || e.kind.Miss? then [] else [e]
  {
    DeparturesConcat(log, [e]);
    assert [e][1..] == [];
  }

  lemma HitTells(log: seq<AuditEvent>, session: string, r: Rule, now: int)
    ensures Departures(log + [EventOf(Hit, session, r, now)]) == Departures(log)
    ensures Departures(log + [EventOf(Hit, session, r, now)] + [EventOf(Consume, session, r, now)])
         == Departures(log) + [EventOf(Consume, session, r, now)]
  {
    OneMoreEvent(log, EventOf(Hit, session, r, now));
    OneMoreEvent(log + [EventOf(Hit, session, r, now)], EventOf(Consume, session, r, now));
  }

  lemma OneEvent(x: Removal)
    ensures Events([x]) == [EventOf(x.kind, x.session, x.rule, x.at)]
  {
  }

  lemma OwnHitTells(s1: Store, session: string, i: nat, now: int, expired: seq<Removal>, before: seq<AuditEvent>)
    requires i < |s1.Of(session)| && Departures(s1.log) == before + Events(expired)
    ensures
      var e := OwnHit(s1, session, i, now, expired);
      Departures(e.store.log) == before + Events(e.removals)
  {
    var r := s1.Of(session)[i];
    HitTells(s1.log, session, r, now);
    if r.ttl == Once {
      OneEvent(Removal(Consume, session, r, now, true));
      Regroup(before, Events(expired), [EventOf(Consume, session, r, now)]);
    }
  }

  lemma MatchTells(st: Store, session: string, scope: Scope, now: int)
    ensures
      var e := MatchEffect(st, session, scope, now);
      Departures(e.store.log) == Departures(st.log) + Events(e.removals)
  {
    ExpiryTells(st, session, now);
    var s1 := AfterExpiry(st, session, now);
    var i, j := FirstWithScope(s1.Of(session), scope), FirstWithScope(s1.persistent, scope);
    if i < |s1.Of(session)| {
      OwnHitTells(s1, session, i, now, Expiries(st, session, now), Departures(st.log));
    } else if j < |s1.persistent| {
      OneMoreEvent(s1.log, EventOf(Hit, session, s1.persistent[j], now));
    } else {
      OneMoreEvent(s1.log, AuditEvent(Miss, "", session, "", scope, now));
    }
  }

  lemma RevokeTells(st: Store, session: string, id: string, clock: int, kvOk: bool)
    ensures
      var e := RevokeEffect(st, session, id, clock, kvOk);
      Departures(e.store.log) == Departures(st.log) + Events(e.removals)
  {
    var e := RevokeEffect(st, session, id, clock, kvOk);
    if e.removals != [] {
      var x := e.removals[0];
      OneMoreEvent(st.log, EventOf(x.kind, x.session, x.rule, x.at));
    }
  }

  lemma StepTells(st: Store, process: string, op: Op)
    ensures
      var e := Step(st, process, op);
      Departures(e.store.log) == Departures(st.log) + Events(e.removals)
  {
    var e := Step(st, process, op);
    match op
    case Match(session, scope, now) => MatchTells(st, session, scope, now);
    case List(session, now) =>
      DeparturesOfEvents(e.removals);
      DeparturesConcat(st.log, Events(e.removals));
    case RevokeOp(session, id, clock, kvOk) => RevokeTells(st, session, id, clock, kvOk);
    case Record(_, _, _, _) => RecordAppends(st, process, op);
  }

  lemma ToldTogether(before: seq<AuditEvent>, between: seq<AuditEvent>, after: seq<AuditEvent>,
                     first: seq<Removal>, later: seq<Removal>)
    requires Departures(between) == Departures(before) + Events(first)
    requires Departures(after) == Departures(between) + Events(later)
    ensures Departures(after) == Departures(before) + Events(first + later)
  {
    Regroup(Departures(before), Events(first), Events(later));
  }

  // The consume, expire and revoke events of a run are exactly its removals,
  // one event each and in order.
  lemma {:induction false} EveryRemovalIsAudited(st: Store, process: string, ops: seq<Op>)
    ensures Departures(Run(st, process, ops).log) == Departures(st.log) + Events(AllRemovals(st, process, ops))
    decreases |ops|
  {
    if ops != [] {
      var e := Step(st, process, ops[0]);
      StepTells(st, process, ops[0]);
      EveryRemovalIsAudited(e.store, process, ops[1..]);
      ToldTogether(st.log, e.store.log, Run(st, process, ops).log, e.removals, AllRemovals(e.store, process, ops[1..]));
    }
  }

  // ---------------------------------------------------------------------
  // The source's own form
  // ---------------------------------------------------------------------

  // The KV interface with a switch for the write that fails: a failed write
  // leaves the stored text as it was.
  class Kv {
    var text: Option<Text>

    constructor (t: Option<Text>)
      ensures text == t
    {
      text := t;
    }

    method Set(t: Text, works: bool) returns (ok: bool)
      modifies this
      ensures ok == works
      ensures text == if works then Some(t) else old(text)
    {
      ok := works;
      if works {
        text := Some(t);
      }
    }
  }

  function ExpiryEvents(session: string, rules: seq<Rule>, now: int): seq<AuditEvent> {
    Events(Removals(Expire, session, Gone(rules, now), now))
  }

  // Halfway through the expiry loop: rest has not been looked at yet.
  ghost predicate Swept(session: string, now: int, rules: seq<Rule>, kept: seq<Rule>,
                        log: seq<AuditEvent>, log': seq<AuditEvent>, rest: seq<Rule>)
  {
    && kept + Live(rest, now) == Live(rules, now)
    && log' + ExpiryEvents(session, rest, now) == log + ExpiryEvents(session, rules, now)
  }

  lemma SweptGone(session: string, now: int, rest: seq<Rule>)
    requires rest != [] && Expired(rest[0], now)
    ensures ExpiryEvents(session, rest, now)
         == [EventOf(Expire, session, rest[0], now)] + ExpiryEvents(session, rest[1..], now)
  {
    GoneOfCons(rest, now);
  }

  lemma SweptStep(session: string, now: int, rules: seq<Rule>, kept: seq<Rule>,
                  log: seq<AuditEvent>, log': seq<AuditEvent>, rest: seq<Rule>)
    requires rest != [] && Swept(session, now, rules, kept, log, log', rest)
    ensures Expired(rest[0], now) ==>
      Swept(session, now, rules, kept, log, log' + [EventOf(Expire, session, rest[0], now)], rest[1..])
    ensures !Expired(rest[0], now) ==> Swept(session, now, rules, kept + [rest[0]], log, log', rest[1..])
  {
    LiveOfCons(rest, now);
    if Expired(rest[0], now) {
      SweptGone(session, now, rest);
      Regroup(log', [EventOf(Expire, session, rest[0], now)], ExpiryEvents(session, rest[1..], now));
    } else {
      GoneOfCons(rest, now);
      Regroup(kept, [rest[0]], Live(rest[1..], now));
    }
  }

  // The loops of Match and Revoke, over the session's rules and again over the
  // persistent ones: oldest first.
  method ScanScopes(rules: seq<Rule>, scope: Scope) returns (i: nat)
    ensures i == FirstWithScope(rules, scope)
  {
    i := 0;
    assert rules[0..] == rules;
    while i < |rules| && rules[i].scope != scope
      invariant 0 <= i <= |rules|
      invariant FirstWithScope(rules, scope) == i + FirstWithScope(rules[i..], scope)
    {
      assert rules[i..][1..] == rules[i + 1..];
      i := i + 1;
    }
  }

  method ScanIDs(rules: seq<Rule>, id: string) returns (i: nat)
    ensures i == FirstWithID(rules, id)
  {
    i := 0;
    assert rules[0..] == rules;
    while i < |rules| && rules[i].id != id
      invariant 0 <= i <= |rules|
      invariant FirstWithID(rules, id) == i + FirstWithID(rules[i..], id)
    {
      assert rules[i..][1..] == rules[i + 1..];
      i := i + 1;
    }
  }

  // The zero time is before every other.
  predicate NotLater(a: Rule, b: Rule) {
    a.created.None? || (b.created.Some? && a.created.value <= b.created.value)
  }

  ghost predicate InOrder(rules: seq<Rule>) { forall i :: 0 <= i < |rules| - 1 ==> NotLater(rules[i], rules[i + 1]) }

  function Placed(r: Rule, sorted: seq<Rule>): seq<Rule> {
    if sorted == [] || NotLater(r, sorted[0]) then [r] + sorted else [sorted[0]] + Placed(r, sorted[1..])
  }

  // sort.Slice by creation time.
  function ByAge(rules: seq<Rule>): seq<Rule> {
    if rules == [] then [] else Placed(rules[0], ByAge(rules[1..]))
  }

  lemma MultisetOfCons(rules: seq<Rule>)
    requires rules != []
    ensures multiset(rules) == multiset{rules[0]} + multiset(rules[1..])
  {
    assert rules == [rules[0]] + rules[1..];
  }

  lemma InOrderPush(r: Rule, rest: seq<Rule>)
    requires InOrder(rest) && (rest == [] || NotLater(r, rest[0]))
    ensures InOrder([r] + rest)
  {
    var longer := [r] + rest;
    assert forall i :: 0 < i < |longer| ==> longer[i] == rest[i - 1];
  }

  lemma InOrderTail(rules: seq<Rule>)
    requires InOrder(rules) && rules != []
    ensures InOrder(rules[1..])
    ensures |rules| > 1 ==> NotLater(rules[0], rules[1])
  {
    assert forall i :: 0 <= i < |rules| - 1 ==> rules[1..][i] == rules[i + 1];
    assert forall i :: 0 <= i < |rules| - 1 ==> NotLater(rules[i], rules[i + 1]);
  }

  lemma {:induction false} PlacedIsRight(r: Rule, sorted: seq<Rule>)
    requires InOrder(sorted)
    ensures InOrder(Placed(r, sorted)) && multiset(Placed(r, sorted)) == multiset{r} + multiset(sorted)
    ensures Placed(r, sorted) != []
    ensures Placed(r, sorted)[0] == r || (sorted != [] && Placed(r, sorted)[0] == sorted[0])
    decreases |sorted|
  {
    if sorted == [] || NotLater(r, sorted[0]) {
      InOrderPush(r, sorted);
    } else {
      InOrderTail(sorted);
      PlacedIsRight(r, sorted[1..]);
      InOrderPush(sorted[0], Placed(r, sorted[1..]));
      MultisetOfCons(sorted);
    }
  }

  lemma {:induction false} ByAgeIsRight(rules: seq<Rule>)
    ensures InOrder(ByAge(rules)) && multiset(ByAge(rules)) == multiset(rules)
    decreases |rules|
  {
    if rules != [] {
      ByAgeIsRight(rules[1..]);
      PlacedIsRight(rules[0], ByAge(rules[1..]));
      MultisetOfCons(rules);
    }
  }

  class Manager {
    const kv: Kv?
    const process: string
    var persistent: seq<Rule>
    var sessions: map<string, seq<Rule>>
    var log: seq<AuditEvent> // what the emit callback has seen

    // kv and process are chosen by New; a text that New refuses never gets here.
    constructor (kv: Kv?, process: string, loaded: seq<Rule>)
      ensures this.kv == kv && this.process == process
      ensures persistent == loaded && sessions == map[] && log == []
    {
      this.kv, this.process := kv, process;
      persistent, sessions, log := loaded, map[], [];
    }

    ghost function View(): Store
      reads this, kv
    {
      Store(sessions, persistent, kv != null, if kv == null then None else kv.text, log)
    }

    method Audit(kind: Kind, session: string, r: Rule, at: int)
      modifies this`log
      ensures log == old(log) + [EventOf(kind, session, r, at)]
    {
      log := log + [EventOf(kind, session, r, at)];
    }

    method ExpireLocked(session: string, now: int)
      modifies this
      ensures View() == AfterExpiry(old(View()), session, now)
    {
      var rules := if session in sessions then sessions[session] else [];
      var kept := Sweep(session, rules, now);
      sessions := sessions[session := kept];
    }

    // Its loop.
    method Sweep(session: string, rules: seq<Rule>, now: int) returns (kept: seq<Rule>)
      modifies this`log
      ensures kept == Live(rules, now) && log == old(log) + ExpiryEvents(session, rules, now)
    {
      kept := [];
      var i := 0;
      assert rules[0..] == rules;
      while i < |rules|
        invariant 0 <= i <= |rules|
        invariant Swept(session, now, rules, kept, old(log), log, rules[i..])
      {
        SweptStep(session, now, rules, kept, old(log), log, rules[i..]);
        assert rules[i..][1..] == rules[i + 1..];
        if Expired(rules[i], now) {
          Audit(Expire, session, rules[i], now);
        } else {
          kept := kept + [rules[i]];
        }
        i := i + 1;
      }
      assert ExpiryEvents(session, rules[i..], now) == [];
    }

    // A hit on the session's own rule at i.
    method AdmitOwn(session: string, i: nat, now: int, ghost expired: seq<Removal>) returns (r: Rule)
      requires i < |View().Of(session)|
      modifies this
      ensures View() == OwnHit(old(View()), session, i, now, expired).store && r == old(View()).Of(session)[i]
    {
      var own := sessions[session];
      r := own[i];
      Audit(Hit, session, r, now);
      if r.ttl == Once {
        sessions := sessions[session := own[..i] + own[i + 1..]];
        Audit(Consume, session, r, now);
      }
    }

    method Match(session: string, scope: Scope, now: int) returns (hit: bool, rule: Option<Rule>)
      modifies this
      ensures
        var e := Step(old(View()), process, Op.Match(session, scope, now));
        View() == e.store && hit == e.ok && rule == e.admitted
    {
      ghost var expired := Expiries(View(), session, now);
      ExpireLocked(session, now);
      var own := if session in sessions then sessions[session] else [];
      var i := ScanScopes(own, scope);
      if i < |own| {
        var r := AdmitOwn(session, i, now, expired);
        return true, Some(r);
      }
      var j := ScanScopes(persistent, scope);
      if j < |persistent| {
        Audit(Hit, session, persistent[j], now);
        return true, Some(persistent[j]);
      }
      log := log + [AuditEvent(Miss, "", session, "", scope, now)];
      return false, None;
    }

    method PersistLocked(rules: seq<Rule>, kvOk: bool) returns (ok: bool)
      modifies kv
      ensures ok == (kv != null && kvOk)
      ensures kv != null ==> kv.text == if kvOk then Some(Encoded(rules)) else old(kv.text)
    {
      if kv == null {
        return false;
      }
      ok := kv.Set(Encoded(rules), kvOk);
    }

    method Record(session: string, rule: Rule, clock: int, kvOk: bool) returns (ok: bool)
      modifies this, kv
      ensures
        var e := Step(old(View()), process, Op.Record(session, rule, clock, kvOk));
        View() == e.store && ok == e.ok
    {
      if rule.id == "" || rule.action == "" || rule.scope.tool == "" {
        return false;
      }
      var r := if rule.created.None? then rule.(created := Some(clock)) else rule;
      match r.ttl {
        case Unknown(_) => return false;
        case Persistent =>
          var copy := persistent + [r];
          ok := PersistLocked(copy, kvOk);
          if ok {
            persistent := copy;
          }
        case _ =>
          if session == "" {
            return false;
          }
          r := r.(process := process);
          var copy := if session in sessions then sessions[session] else [];
          sessions := sessions[session := copy + [r]];
          return true;
      }
    }

    method Revoke(session: string, id: string, clock: int, kvOk: bool) returns (ok: bool)
      modifies this, kv
      ensures
        var e := Step(old(View()), process, RevokeOp(session, id, clock, kvOk));
        View() == e.store && ok == e.ok
    {
      var own := if session in sessions then sessions[session] else [];
      var i := ScanIDs(own, id);
      if i < |own| {
        var r := own[i];
        sessions := sessions[session := own[..i] + own[i + 1..]];
        Audit(Kind.Revoke, session, r, clock);
        return true;
      }
      var j := ScanIDs(persistent, id);
      if j < |persistent| {
        var r := persistent[j];
        var copy := persistent[..j] + persistent[j + 1..];
        ok := PersistLocked(copy, kvOk);
        if ok {
          persistent := copy;
          Audit(Kind.Revoke, session, r, clock);
        }
        return;
      }
      return false;
    }

    // List: everything visible to the session, by creation time.
    method List(session: string, now: int) returns (out: seq<Rule>)
      modifies this
      ensures View() == Step(old(View()), process, Op.List(session, now)).store == AfterExpiry(old(View()), session, now)
      ensures multiset(out) == multiset(Live(old(View()).Of(session), now) + old(persistent))
      ensures forall i :: 0 <= i < |out| - 1 && out[i].created.Some? ==>
        out[i + 1].created.Some? && out[i].created.value <= out[i + 1].created.value
    {
      ExpireLocked(session, now);
      var own := if session in sessions then sessions[session] else [];
      out := ByAge(own + persistent);
      ByAgeIsRight(own + persistent);
    }
  }

  // New: it refuses to start on a failed read, on text it cannot decode and on
  // a stored rule of another lifetime.
  method New(kv: Kv?, readOk: bool, process: string) returns (m: Manager?)
    ensures kv != null && !readOk ==> m == null
    ensures kv == null || readOk ==>
      var loaded := Load(kv != null, if kv == null then None else kv.text);
      (m != null <==> loaded.Some?) && (m != null ==> m.kv == kv && m.process == process && m.View() == loaded.value)
  {
    if kv == null {
      m := new Manager(kv, process, []);
      return;
    }
    if !readOk {
      return null;
    }
    var rules := Decode(kv.text);
    if rules == None {
      return null;
    }
    for i := 0 to |rules.value|
      invariant forall k :: 0 <= k < i ==> rules.value[k].ttl == Persistent
    {
      if rules.value[i].ttl != Persistent {
        return null;
      }
    }
    m := new Manager(kv, process, rules.value);
  }
}
