// The compensating transactions of internal/auth/auth.go over two stores, any
// call of which may fail.
module AuthTx {
  import opened Prelude
  import opened Durations

  // (provider, account)
  type Key = (string, string)

  datatype Meta = Meta(source: string, expires: Option<int>)

  datatype DeviceToken = DeviceToken(access: string, refresh: string, expiresIn: int)

  datatype Stores = Stores(tokens: map<Key, string>, metas: map<Key, Meta>)

  // ---------------------------------------------------------------------
  // The backends: a call that does not work leaves its own store unchanged
  // ---------------------------------------------------------------------

  datatype Lookup<T> = Found(value: T) | Missing | Broken

  datatype Reply = Fine | Absent | Error

  class SecretStore {
    var rows: map<Key, string>

    constructor ()
      ensures rows == map[]
    {
      rows := map[];
    }

    method Get(k: Key, works: bool) returns (r: Lookup<string>)
      ensures r == if !works then Broken else if k in rows then Found(rows[k]) else Missing
    {
      r := if !works then Broken else if k in rows then Found(rows[k]) else Missing;
    }

    method Set(k: Key, token: string, works: bool) returns (r: Reply)
      modifies this
      ensures r == (if works then Fine else Error)
      ensures rows == if works then old(rows)[k := token] else old(rows)
    {
      r := Error;
      if works {
        rows := rows[k := token];
        r := Fine;
      }
    }

    method Delete(k: Key, works: bool) returns (r: Reply)
      modifies this
      ensures r == (if k !in old(rows) then Absent else if works then Fine else Error)
      ensures rows == if works then old(rows) - {k} else old(rows)
    {
      r := if k !in rows then Absent else if works then Fine else Error;
      if works {
        rows := rows - {k};
      }
    }
  }

  class MetadataStore {
    var rows: map<Key, Meta>

    constructor ()
      ensures rows == map[]
    {
      rows := map[];
    }

    method Load(k: Key, works: bool) returns (r: Lookup<Meta>)
      ensures r == if !works then Broken else if k in rows then Found(rows[k]) else Missing
    {
      r := if !works then Broken else if k in rows then Found(rows[k]) else Missing;
    }

    method Save(k: Key, m: Meta, works: bool) returns (r: Reply)
      modifies this
      ensures r == (if works then Fine else Error)
      ensures rows == if works then old(rows)[k := m] else old(rows)
    {
      r := Error;
      if works {
        rows := rows[k := m];
        r := Fine;
      }
    }

    method Delete(k: Key, works: bool) returns (r: Reply)
      modifies this
      ensures r == (if k !in old(rows) then Absent else if works then Fine else Error)
      ensures rows == if works then old(rows) - {k} else old(rows)
    {
      r := if k !in rows then Absent else if works then Fine else Error;
      if works {
        rows := rows - {k};
      }
    }
  }

  // Which calls of one transaction work, in the order they are made.
  datatype CommitCalls = CommitCalls(get: bool, set_: bool, save: bool, undo: bool)

  datatype LogoutCalls = LogoutCalls(get: bool, load: bool, delete: bool, deleteMeta: bool, undo: bool)

  datatype Outcome =
    | Done
    | Refused            // the checks before the first call
    | NothingThere       // ErrSecretNotFound of Logout
    | Failed             // an error; whatever had been done was undone
    | FailedAndNotUndone // an error joined with the error of the compensation

  // ---------------------------------------------------------------------
  // The specification
  // ---------------------------------------------------------------------

  function Expiry(tok: DeviceToken, now: int): Option<int> {
    if tok.expiresIn > 0 then Some(now + SafeDuration(tok.expiresIn)) else None
  }

  // What commitDeviceToken leaves behind, by outcome.
  ghost predicate CommitPost(s: Stores, s': Stores, k: Key, tok: DeviceToken, now: int, out: Outcome) {
    match out
    case Done => s' == Stores(s.tokens[k := tok.access], s.metas[k := Meta("device", Expiry(tok, now))])
    case FailedAndNotUndone => s' == Stores(s.tokens[k := tok.access], s.metas)
    case NothingThere => false
    case _ => s' == s
  }

  // When each outcome occurs; ready says that both stores and the clock are configured.
  ghost function CommitOutcome(tok: DeviceToken, ready: bool, calls: CommitCalls): Outcome {
    if tok.access == "" || !ready then Refused
    else if !calls.get || !calls.set_ then Failed
    else if calls.save then Done
    else if calls.undo then Failed
    else FailedAndNotUndone
  }

  ghost predicate LogoutPost(s: Stores, s': Stores, k: Key, out: Outcome) {
    match out
    case Done => s' == Stores(s.tokens - {k}, s.metas - {k}) && (k in s.tokens || k in s.metas)
    case FailedAndNotUndone => s' == Stores(s.tokens - {k}, s.metas) && k in s.tokens && k in s.metas
    case NothingThere => s' == s && k !in s.tokens && k !in s.metas
    case _ => s' == s
  }

  ghost function LogoutOutcome(s: Stores, k: Key, hasStore: bool, hasMetadata: bool, calls: LogoutCalls): Outcome {
    var hadToken, hadMeta := k in s.tokens, hasMetadata && k in s.metas;
    if !hasStore then Refused
    else if !calls.get || (hasMetadata && !calls.load) then Failed
    else if !hadToken && !hadMeta then NothingThere
    else if hadToken && !calls.delete then Failed
    else if !hadMeta || calls.deleteMeta then Done
    else if !hadToken || calls.undo then Failed
    else FailedAndNotUndone
  }

  // Whatever fails: on success both rows are as intended and no other key is
  // touched; on an error both stores are exactly as before, unless the
  // compensation failed too, and then they differ if and only if the token
  // being replaced was another one.
  ghost predicate CommitAtomic(s: Stores, s': Stores, k: Key, tok: DeviceToken, now: int, out: Outcome) {
    if out == Done then
      && k in s'.tokens && s'.tokens[k] == tok.access
      && k in s'.metas && s'.metas[k] == Meta("device", Expiry(tok, now))
      && s'.tokens - {k} == s.tokens - {k} && s'.metas - {k} == s.metas - {k}
    else
      s' == s <==> !out.FailedAndNotUndone? || (k in s.tokens && s.tokens[k] == tok.access)
  }

  ghost predicate LogoutAtomic(s: Stores, s': Stores, k: Key, out: Outcome) {
    if out == Done then
      k !in s'.tokens && k !in s'.metas && s'.tokens == s.tokens - {k} && s'.metas == s.metas - {k}
    else
      s' == s <==> !out.FailedAndNotUndone?
  }

  datatype AuthStatus = AuthStatus(authenticated: bool, source: string, expires: Option<int>)

  function StatusOf(s: Stores, k: Key, hasStore: bool, hasMetadata: bool, getWorks: bool, loadWorks: bool): Option<AuthStatus> {
    if !hasStore then Some(AuthStatus(false, "", None))
    else if !getWorks then None
    else if k !in s.tokens || s.tokens[k] == "" then Some(AuthStatus(false, "", None))
    else if !hasMetadata then Some(AuthStatus(true, "secret", None))
    else if !loadWorks then None
    else if k in s.metas then Some(AuthStatus(true, s.metas[k].source, s.metas[k].expires))
    else Some(AuthStatus(true, "secret", None))
  }

  // The specification of the commit is atomic in this sense.
  lemma CommitIsAtomic(s: Stores, s': Stores, k: Key, tok: DeviceToken, now: int, ready: bool, calls: CommitCalls)
    requires CommitPost(s, s', k, tok, now, CommitOutcome(tok, ready, calls))
    ensures CommitAtomic(s, s', k, tok, now, CommitOutcome(tok, ready, calls))
  {
    if k in s.tokens && s.tokens[k] == tok.access {
      assert s.tokens[k := tok.access] == s.tokens;
    }
  }

  // A commit succeeds exactly when the token is not empty, everything is
  // configured and every call up to the metadata row works. Then the row says
  // "device" and expires that many seconds from now, in nanoseconds, the largest
  // duration from now when they do not fit, and never when none are given.
  lemma CommitSettles(s: Stores, s': Stores, k: Key, tok: DeviceToken, now: int, ready: bool, calls: CommitCalls)
    requires CommitPost(s, s', k, tok, now, CommitOutcome(tok, ready, calls))
    ensures
      var out := CommitOutcome(tok, ready, calls);
      && (out == Done <==> tok.access != "" && ready && calls.get && calls.set_ && calls.save)
      && (out == Refused <==> tok.access == "" || !ready)
      && (out == FailedAndNotUndone <==>
            tok.access != "" && ready && calls.get && calls.set_ && !calls.save && !calls.undo)
      && out != NothingThere
    ensures CommitOutcome(tok, ready, calls) == Done ==>
      && k in s'.tokens && s'.tokens[k] == tok.access
      && k in s'.metas && s'.metas[k].source == "device"
      && s'.metas[k].expires ==
         if tok.expiresIn <= 0 then None
         else if tok.expiresIn * 1_000_000_000 <= 0x7fff_ffff_ffff_ffff then Some(now + tok.expiresIn * 1_000_000_000)
         else Some(now + 0x7fff_ffff_ffff_ffff)
  {
  }

  // A logout succeeds exactly when something is stored for the key and every
  // call that is made works; it reports that nothing was there exactly when it
  // could look and nothing was.
  lemma LogoutSettles(s: Stores, k: Key, hasStore: bool, hasMetadata: bool, calls: LogoutCalls)
    ensures
      var token, row := k in s.tokens, hasMetadata && k in s.metas;
      var looked := hasStore && calls.get && (hasMetadata ==> calls.load);
      var out := LogoutOutcome(s, k, hasStore, hasMetadata, calls);
      && (out == Refused <==> !hasStore)
      && (out == NothingThere <==> looked && !token && !row)
      && (out == Done <==> looked && (token || row) && (token ==> calls.delete) && (row ==> calls.deleteMeta))
      && (out == FailedAndNotUndone <==>
            looked && token && row && calls.delete && !calls.deleteMeta && !calls.undo)
  {
  }

  // Status reports an error exactly when a read it makes fails; an account is
  // authenticated exactly when it has a token that is not empty; source and
  // expiry are the metadata row's, or "secret" and none without one.
  lemma StatusSaysWhatIsStored(s: Stores, k: Key, hasStore: bool, hasMetadata: bool, getWorks: bool, loadWorks: bool)
    ensures
      var st := StatusOf(s, k, hasStore, hasMetadata, getWorks, loadWorks);
      var has := k in s.tokens && s.tokens[k] != "";
      && (st == None <==> hasStore && (!getWorks || (has && hasMetadata && !loadWorks)))
      && (st.Some? ==>
            && st.value.authenticated == (hasStore && has)
            && var row := st.value.authenticated && hasMetadata && k in s.metas;
            && st.value.source == (if row then s.metas[k].source else if st.value.authenticated then "secret" else "")
            && st.value.expires == if row then s.metas[k].expires else None)
  {
  }

  class Manager {
    const store: SecretStore?
    const metadata: MetadataStore?
    const clock: bool // whether a clock is configured

    constructor (store: SecretStore?, metadata: MetadataStore?, clock: bool)
      ensures this.store == store && this.metadata == metadata && this.clock == clock
    {
      this.store, this.metadata, this.clock := store, metadata, clock;
    }

    ghost function View(): Stores
      reads store, metadata
    {
      Stores(if store == null then map[] else store.rows, if metadata == null then map[] else metadata.rows)
    }

    // now is what the clock reads when the metadata row is built.
    method CommitDeviceToken(k: Key, tok: DeviceToken, now: int, calls: CommitCalls) returns (out: Outcome)
      modifies store, metadata
      ensures out == CommitOutcome(tok, store != null && metadata != null && clock, calls)
      ensures CommitPost(old(View()), View(), k, tok, now, out)
      ensures CommitAtomic(old(View()), View(), k, tok, now, out)
    {
      if tok.access == "" || metadata == null || !clock || store == null {
        return Refused;
      }
      var snapshot := store.Get(k, calls.get);
      if snapshot.Broken? {
        return Failed;
      }
      var r := store.Set(k, tok.access, calls.set_);
      if r != Fine {
        return Failed;
      }
      var expires := None;
      if tok.expiresIn > 0 {
        expires := Some(now + SafeDuration(tok.expiresIn));
      }
      r := metadata.Save(k, Meta("device", expires), calls.save);
      if r == Fine {
        return Done;
      }
      if snapshot.Found? {
        r := store.Set(k, snapshot.value, calls.undo);
      } else {
        r := store.Delete(k, calls.undo);
      }
      if r != Fine {
        CommitIsAtomic(old(View()), View(), k, tok, now, true, calls);
        return FailedAndNotUndone;
      }
      assert store.rows == old(store.rows);
      return Failed;
    }

    method Logout(k: Key, calls: LogoutCalls) returns (out: Outcome)
      modifies store, metadata
      ensures out == LogoutOutcome(old(View()), k, store != null, metadata != null, calls)
      ensures LogoutPost(old(View()), View(), k, out)
      ensures LogoutAtomic(old(View()), View(), k, out)
    {
      if store == null {
        return Refused;
      }
      var token := store.Get(k, calls.get);
      if token.Broken? {
        return Failed;
      }
      var hadMeta := false;
      if metadata != null {
        var row := metadata.Load(k, calls.load);
        if row.Broken? {
          return Failed;
        }
        hadMeta := row.Found?;
      }
      if !token.Found? && !hadMeta {
        return NothingThere;
      }
      if token.Found? {
        var r := store.Delete(k, calls.delete);
        if r != Fine {
          return Failed;
        }
      }
      if !hadMeta {
        assert View() == Stores(old(View()).tokens - {k}, old(View()).metas - {k});
        return Done;
      }
      var r := metadata.Delete(k, calls.deleteMeta);
      if r == Fine {
        assert View() == Stores(old(View()).tokens - {k}, old(View()).metas - {k});
        return Done;
      }
      if !token.Found? {
        return Failed;
      }
      r := store.Set(k, token.value, calls.undo);
      if r != Fine {
        return FailedAndNotUndone;
      }
      assert store.rows == old(store.rows);
      return Failed;
    }

    // None is an error of a backend.
    method Status(k: Key, getWorks: bool, loadWorks: bool) returns (st: Option<AuthStatus>)
      ensures st == StatusOf(View(), k, store != null, metadata != null, getWorks, loadWorks)
    {
      var none := AuthStatus(false, "", None);
      if store == null {
        return Some(none);
      }
      var token := store.Get(k, getWorks);
      match token {
        case Missing => return Some(none);
        case Broken => return None;
        case Found(value) =>
          if value == "" {
            return Some(none);
          }
          if metadata == null {
            return Some(AuthStatus(true, "secret", None));
          }
          var row := metadata.Load(k, loadWorks);
          match row {
            case Missing => return Some(AuthStatus(true, "secret", None));
            case Broken => return None;
            case Found(m) => return Some(AuthStatus(true, m.source, m.expires));
          }
      }
    }
  }

  // ---------------------------------------------------------------------
  // All or nothing
  // ---------------------------------------------------------------------

  // A commit is seen by Status, a logout undoes it, and nothing is left of the account.
  lemma CommitStatusLogout(s: Stores, s1: Stores, s2: Stores, k: Key, tok: DeviceToken, now: int, calls: LogoutCalls)
    requires tok.access != "" && CommitPost(s, s1, k, tok, now, Done)
    requires LogoutPost(s1, s2, k, LogoutOutcome(s1, k, true, true, calls))
    requires LogoutOutcome(s1, k, true, true, calls) == Done
    ensures StatusOf(s1, k, true, true, true, true) == Some(AuthStatus(true, "device",
      if tok.expiresIn <= 0 then None
      else if tok.expiresIn * 1_000_000_000 <= 0x7fff_ffff_ffff_ffff then Some(now + tok.expiresIn * 1_000_000_000)
      else Some(now + 0x7fff_ffff_ffff_ffff)))
    ensures StatusOf(s2, k, true, true, true, true) == Some(AuthStatus(false, "", None))
    ensures s2 == Stores(s.tokens - {k}, s.metas - {k})
  {
    assert s2.tokens == s.tokens - {k};
    assert s2.metas == s.metas - {k};
  }

  // ---------------------------------------------------------------------
  // Whole runs
  // ---------------------------------------------------------------------

  datatype Op =
    | Commit(k: Key, tok: DeviceToken, now: int, commitCalls: CommitCalls)
    | LogoutOp(k: Key, logoutCalls: LogoutCalls)

  ghost function OutcomeOf(s: Stores, op: Op): Outcome {
    match op
    case Commit(k, tok, _, calls) => CommitOutcome(tok, true, calls)
    case LogoutOp(k, calls) => LogoutOutcome(s, k, true, true, calls)
  }

  ghost predicate Step(s: Stores, op: Op, s': Stores) {
    match op
    case Commit(k, tok, now, calls) => CommitPost(s, s', k, tok, now, CommitOutcome(tok, true, calls))
    case LogoutOp(k, calls) => LogoutPost(s, s', k, LogoutOutcome(s, k, true, true, calls))
  }

  // Every metadata row belongs to a stored credential.
  ghost predicate Consistent(s: Stores) { s.metas.Keys <= s.tokens.Keys }

  // One operation breaks consistency exactly when it is a logout whose
  // compensation failed; a commit never does, not even half done.
  lemma StepConsistent(s: Stores, op: Op, s': Stores)
    requires Consistent(s) && Step(s, op, s')
    ensures Consistent(s') <==> !(op.LogoutOp? && OutcomeOf(s, op).FailedAndNotUndone?)
  {
    if op.LogoutOp? && OutcomeOf(s, op).FailedAndNotUndone? {
      assert op.k in s'.metas.Keys && op.k !in s'.tokens.Keys;
    }
  }

  ghost predicate Run(states: seq<Stores>, ops: seq<Op>) {
    && |states| == |ops| + 1
    && states[0] == Stores(map[], map[])
    && forall i :: 0 <= i < |ops| ==> Step(states[i], ops[i], states[i + 1])
  }

  // Over any run in which no compensation fails, a metadata row implies a
  // stored credential, in every state on the way.
  lemma {:induction false} MetadataImpliesCredential(states: seq<Stores>, ops: seq<Op>, i: nat, k: Key)
    requires Run(states, ops) && i < |states|
    requires forall j :: 0 <= j < i ==> !OutcomeOf(states[j], ops[j]).FailedAndNotUndone?
    ensures Consistent(states[i]) && (k in states[i].metas ==> k in states[i].tokens)
  {
    if i > 0 {
      MetadataImpliesCredential(states, ops, i - 1, k);
      assert Step(states[i - 1], ops[i - 1], states[i - 1 + 1]);
      StepConsistent(states[i - 1], ops[i - 1], states[i]);
    }
  }
}
