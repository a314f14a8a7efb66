// Reloading a running daemon's configuration (internal/cli/daemon.go and
// daemoncontrol.go): which changed sections are applied and which refused.
module Reload {
  import opened Prelude

  // ---------------------------------------------------------------------
  // The two section tables, in the order of sort.Strings
  // ---------------------------------------------------------------------

  datatype Tables = Tables(reloadable: seq<string>, restartOnly: seq<string>)
  {
    function All(): seq<string> { reloadable + restartOnly }
  }

  const SECTIONS := Tables(
    ["compaction", "features", "loop_guard", "observability.log", "pricing", "profiles"],
    ["llm.providers", "lsp", "mcp.servers", "observability.otel", "secrets", "security.sandbox", "server.http_addr",
     "server.task_addr", "storage", "storage.sqlite_path", "token", "vcs.worktree_dir"])

  predicate Distinct(names: seq<string>) { forall i, j :: 0 <= i < j < |names| ==> names[i] != names[j] }

  predicate Apart(a: seq<string>, b: seq<string>) {
    forall i, j :: 0 <= i < |a| && 0 <= j < |b| ==> a[i] != b[j]
  }

  lemma TablesAreApart()
    ensures Apart(SECTIONS.reloadable, SECTIONS.restartOnly)
  {
  }

  // What the results below need of the tables.
  lemma SectionsAreDistinct()
    ensures Distinct(SECTIONS.All())
  {
    TablesAreApart();
  }

  datatype Reason = BoundAtBoot | Unreviewed | NoApplyPath | NotAdopted

  datatype Refusal = Refusal(section: string, reason: Reason)

  // ---------------------------------------------------------------------
  // Counting
  // ---------------------------------------------------------------------

  function Tally(b: bool): nat { if b then 1 else 0 }

  function Itself(name: string): string { name }

  function SectionOf(r: Refusal): string { r.section }

  // How many elements have the key x.
  function Count<T>(key: T -> string, xs: seq<T>, x: string): nat {
    if xs == [] then 0 else Count(key, xs[..|xs| - 1], x) + Tally(key(xs[|xs| - 1]) == x)
  }

  function Named(names: seq<string>, x: string): nat { Count(Itself, names, x) }

  function Refused(refusals: seq<Refusal>, x: string): nat { Count(SectionOf, refusals, x) }

  lemma CountPush<T>(key: T -> string, xs: seq<T>, r: T, x: string)
    ensures Count(key, xs + [r], x) == Count(key, xs, x) + Tally(key(r) == x)
  {
    assert (xs + [r])[..|xs|] == xs;
  }

  lemma {:induction false} CountIn<T>(key: T -> string, xs: seq<T>, x: string)
    ensures Count(key, xs, x) > 0 <==> exists k :: 0 <= k < |xs| && key(xs[k]) == x
    decreases |xs|
  {
    if xs != [] {
      var n := |xs| - 1;
      CountIn(key, xs[..n], x);
      if Count(key, xs[..n], x) > 0 {
        var k :| 0 <= k < n && key(xs[..n][k]) == x;
        assert key(xs[k]) == x;
      }
    }
  }

  lemma {:induction false} NamedOnce(names: seq<string>, x: string)
    requires Distinct(names)
    ensures Named(names, x) == Tally(x in names)
    decreases |names|
  {
    if names != [] {
      NamedOnce(names[..|names| - 1], x);
      assert names == names[..|names| - 1] + [names[|names| - 1]];
    }
  }

  // ---------------------------------------------------------------------
  // Sorting
  // ---------------------------------------------------------------------

  predicate LessEq(a: string, b: string) {
    a == "" || (b != "" && (a[0] < b[0] || (a[0] == b[0] && LessEq(a[1..], b[1..]))))
  }

  // The order of sort.Strings: a prefix comes first, and else the first
  // character that differs decides.
  lemma {:induction false} LessEqIsLexicographic(a: string, b: string)
    ensures LessEq(a, b) <==> a <= b || exists k :: 0 <= k < |a| && k < |b| && a[..k] == b[..k] && a[k] < b[k]
    decreases |a|
  {
    if a != "" && b != "" && a[0] == b[0] {
      var x, y := a[1..], b[1..];
      LessEqIsLexicographic(x, y);
      if k :| 0 <= k < |x| && k < |y| && x[..k] == y[..k] && x[k] < y[k] {
        assert a[..k + 1] == [a[0]] + x[..k] && b[..k + 1] == [b[0]] + y[..k];
        assert a[k + 1] < b[k + 1];
      }
      if k :| 0 <= k < |a| && k < |b| && a[..k] == b[..k] && a[k] < b[k] {
        assert k > 0;
        assert x[..k - 1] == a[..k][1..] && y[..k - 1] == b[..k][1..];
        assert x[k - 1] < y[k - 1];
      }
    }
  }

  lemma {:induction false} LessEqIsTotal(a: string, b: string)
    ensures LessEq(a, b) || LessEq(b, a)
    decreases |a|
  {
    if a != "" && b != "" && a[0] == b[0] {
      LessEqIsTotal(a[1..], b[1..]);
    }
  }

  lemma {:induction false} LessEqIsTransitive(a: string, b: string, c: string)
    requires LessEq(a, b) && LessEq(b, c)
    ensures LessEq(a, c)
    decreases |a|
  {
    if a != "" && a[0] == b[0] == c[0] {
      LessEqIsTransitive(a[1..], b[1..], c[1..]);
    }
  }

  ghost predicate Sorted<T>(key: T -> string, xs: seq<T>) {
    forall i, j :: 0 <= i < j < |xs| ==> LessEq(key(xs[i]), key(xs[j]))
  }

  ghost predicate Below<T>(key: T -> string, xs: seq<T>, r: T) {
    forall i :: 0 <= i < |xs| ==> LessEq(key(xs[i]), key(r))
  }

  lemma SortedPush<T>(key: T -> string, xs: seq<T>, r: T)
    requires Sorted(key, xs) && Below(key, xs, r)
    ensures Sorted(key, xs + [r])
  {
  }

  lemma BelowLast<T>(key: T -> string, xs: seq<T>, r: T)
    requires xs != [] && Sorted(key, xs) && LessEq(key(xs[|xs| - 1]), key(r))
    ensures Below(key, xs, r)
  {
    forall i | 0 <= i < |xs| - 1
      ensures LessEq(key(xs[i]), key(r))
    {
      LessEqIsTransitive(key(xs[i]), key(xs[|xs| - 1]), key(r));
    }
  }

  // sort.Strings and sort.Slice by section, one insertion at a time.
  function Place<T>(key: T -> string, r: T, sorted: seq<T>): (longer: seq<T>)
    decreases |sorted|
  {
    var n := |sorted| - 1;
    if sorted == [] || LessEq(key(sorted[n]), key(r)) then sorted + [r] else Place(key, r, sorted[..n]) + [sorted[n]]
  }

  function Sort<T>(key: T -> string, xs: seq<T>): (sorted: seq<T>)
    decreases |xs|
  {
    if xs == [] then [] else Place(key, xs[|xs| - 1], Sort(key, xs[..|xs| - 1]))
  }

  lemma {:induction false} PlaceSorts<T>(key: T -> string, r: T, sorted: seq<T>)
    requires Sorted(key, sorted)
    ensures Sorted(key, Place(key, r, sorted))
    ensures forall s: T :: Below(key, sorted, s) && LessEq(key(r), key(s)) ==> Below(key, Place(key, r, sorted), s)
    decreases |sorted|
  {
    if sorted == [] {
    } else if LessEq(key(sorted[|sorted| - 1]), key(r)) {
      BelowLast(key, sorted, r);
      SortedPush(key, sorted, r);
    } else {
      var front, last := sorted[..|sorted| - 1], sorted[|sorted| - 1];
      LessEqIsTotal(key(last), key(r));
      PlaceSorts(key, r, front);
      assert Below(key, front, last);
      SortedPush(key, Place(key, r, front), last);
    }
  }

  lemma {:induction false} PlaceCounts<T>(key: T -> string, r: T, sorted: seq<T>, x: string)
    ensures Count(key, Place(key, r, sorted), x) == Count(key, sorted, x) + Tally(key(r) == x)
    decreases |sorted|
  {
    if sorted == [] || LessEq(key(sorted[|sorted| - 1]), key(r)) {
      CountPush(key, sorted, r, x);
    } else {
      var front, last := sorted[..|sorted| - 1], sorted[|sorted| - 1];
      PlaceCounts(key, r, front, x);
      CountPush(key, Place(key, r, front), last, x);
      CountPush(key, front, last, x);
      assert sorted == front + [last];
    }
  }

  lemma {:induction false} PlaceKeeps<T>(key: T -> string, r: T, sorted: seq<T>)
    ensures forall k :: 0 <= k < |Place(key, r, sorted)| ==> Place(key, r, sorted)[k] == r || Place(key, r, sorted)[k] in sorted
    decreases |sorted|
  {
    if sorted != [] && !LessEq(key(sorted[|sorted| - 1]), key(r)) {
      PlaceKeeps(key, r, sorted[..|sorted| - 1]);
    }
  }

  // Sorting gives an ordered list of the same elements, each as often as before.
  lemma {:induction false} SortIsRight<T>(key: T -> string, xs: seq<T>, x: string)
    ensures Sorted(key, Sort(key, xs)) && Count(key, Sort(key, xs), x) == Count(key, xs, x)
    ensures forall k :: 0 <= k < |Sort(key, xs)| ==> Sort(key, xs)[k] in xs
    decreases |xs|
  {
    if xs != [] {
      var front, last := xs[..|xs| - 1], xs[|xs| - 1];
      SortIsRight(key, front, x);
      PlaceSorts(key, last, Sort(key, front));
      PlaceCounts(key, last, Sort(key, front), x);
      PlaceKeeps(key, last, Sort(key, front));
    }
  }

  function ReasonFor(t: Tables, x: string): Reason { if x in t.restartOnly then BoundAtBoot else Unreviewed }

  ghost predicate ClassifiedRight(t: Tables, applied: seq<string>, refused: seq<Refusal>) {
    && (forall n :: n in applied ==> n in t.reloadable)
    && (forall r :: r in refused ==> r.section !in t.reloadable && r.reason == ReasonFor(t, r.section))
  }

  lemma SortKeeps(t: Tables, applied: seq<string>, refused: seq<Refusal>)
    requires ClassifiedRight(t, applied, refused)
    ensures ClassifiedRight(t, Sort(Itself, applied), Sort(SectionOf, refused))
  {
    SortIsRight(Itself, applied, "");
    SortIsRight(SectionOf, refused, "");
  }

  // ---------------------------------------------------------------------
  // Classification
  // ---------------------------------------------------------------------

  // Every occurrence of a name went to exactly one of the two lists, on top of
  // what had been refused before.
  ghost predicate Moved(names: seq<string>, refused: seq<Refusal>, applied: seq<string>, refused': seq<Refusal>) {
    forall x :: Named(applied, x) + Refused(refused', x) == Named(names, x) + Refused(refused, x)
  }

  lemma MovedApplied(names: seq<string>, refused: seq<Refusal>, applied: seq<string>, refused': seq<Refusal>, n: string)
    requires Moved(names, refused, applied, refused')
    ensures Moved(names + [n], refused, applied + [n], refused')
  {
    forall x
      ensures Named(applied + [n], x) + Refused(refused', x) == Named(names + [n], x) + Refused(refused, x)
    {
      CountPush(Itself, names, n, x);
      CountPush(Itself, applied, n, x);
    }
  }

  lemma MovedRefused(names: seq<string>, refused: seq<Refusal>, applied: seq<string>, refused': seq<Refusal>, r: Refusal)
    requires Moved(names, refused, applied, refused')
    ensures Moved(names + [r.section], refused, applied, refused' + [r])
  {
    forall x
      ensures Named(applied, x) + Refused(refused' + [r], x) == Named(names + [r.section], x) + Refused(refused, x)
    {
      CountPush(Itself, names, r.section, x);
      CountPush(SectionOf, refused', r, x);
    }
  }

  ghost predicate Partitions(names: seq<string>, applied: seq<string>, refused: seq<Refusal>) {
    Moved(names, [], applied, refused)
  }

  method ClassifyReload(t: Tables, changed: seq<string>) returns (applied: seq<string>, refused: seq<Refusal>)
    ensures Partitions(changed, applied, refused) && ClassifiedRight(t, applied, refused)
    ensures Sorted(Itself, applied) && Sorted(SectionOf, refused)
  {
    applied, refused := [], [];
    for i := 0 to |changed|
      invariant Partitions(changed[..i], applied, refused) && ClassifiedRight(t, applied, refused)
    {
      OneMore(changed, i);
      var section := changed[i];
      if section in t.reloadable {
        MovedApplied(changed[..i], [], applied, refused, section);
        applied := applied + [section];
      } else {
        MovedRefused(changed[..i], [], applied, refused, Refusal(section, ReasonFor(t, section)));
        refused := refused + [Refusal(section, ReasonFor(t, section))];
      }
    }
    assert changed[..|changed|] == changed;
    forall x
      ensures Named(Sort(Itself, applied), x) + Refused(Sort(SectionOf, refused), x) == Named(changed, x)
    {
      SortIsRight(Itself, applied, x);
      SortIsRight(SectionOf, refused, x);
    }
    SortIsRight(Itself, applied, "");
    SortIsRight(SectionOf, refused, "");
    SortKeeps(t, applied, refused);
    applied, refused := Sort(Itself, applied), Sort(SectionOf, refused);
  }

  // ---------------------------------------------------------------------
  // Reconciliation with what was really adopted
  // ---------------------------------------------------------------------

  // The ApplyReload hook: missing, failing, or reporting what it adopted.
  datatype Hook = NoHook | HookFails | Adopts(adopted: seq<string>)

  predicate Adopted(hook: Hook, x: string) { hook.Adopts? && x in hook.adopted }

  // What may be refused: a section classified unsafe, or one classified safe
  // that the hook did not adopt.
  ghost predicate RefusedRight(t: Tables, hook: Hook, r: Refusal) {
    if r.section !in t.reloadable then r.reason == ReasonFor(t, r.section)
    else !Adopted(hook, r.section) && r.reason == if hook.NoHook? then NoApplyPath else NotAdopted
  }

  ghost predicate Reconciled(t: Tables, hook: Hook, applied: seq<string>, refused: seq<Refusal>) {
    && (forall n :: n in applied ==> n in t.reloadable && Adopted(hook, n))
    && (forall r :: r in refused ==> RefusedRight(t, hook, r))
  }

  lemma BelowNext(applied: seq<string>, section: string, next: string)
    requires Below(Itself, applied, section) && LessEq(section, next)
    ensures Below(Itself, applied, next) && Below(Itself, applied + [section], next)
  {
    forall i | 0 <= i < |applied|
      ensures LessEq(applied[i], next)
    {
      LessEqIsTransitive(applied[i], section, next);
    }
  }

  // With no hook the same loop refuses everything; with one it is reconcileApplied.
  method Reconcile(t: Tables, hook: Hook, classified: seq<string>, refused: seq<Refusal>, ghost changed: seq<string>)
    returns (applied: seq<string>, refused': seq<Refusal>)
    requires !hook.HookFails?
    requires Partitions(changed, classified, refused) && ClassifiedRight(t, classified, refused)
    requires Sorted(Itself, classified)
    ensures Partitions(changed, applied, refused') && Reconciled(t, hook, applied, refused')
    ensures Sorted(Itself, applied)
  {
    applied, refused' := [], refused;
    for i := 0 to |classified|
      invariant Sorted(Itself, applied) && (i < |classified| ==> Below(Itself, applied, classified[i]))
      invariant Reconciled(t, hook, applied, refused')
      invariant Moved(classified[..i], refused, applied, refused')
    {
      OneMore(classified, i);
      var section := classified[i];
      if i + 1 < |classified| {
        BelowNext(applied, section, classified[i + 1]);
      }
      SortedPush(Itself, applied, section);
      if Adopted(hook, section) {
        MovedApplied(classified[..i], refused, applied, refused', section);
        applied := applied + [section];
      } else {
        var refusal := Refusal(section, if hook.NoHook? then NoApplyPath else NotAdopted);
        MovedRefused(classified[..i], refused, applied, refused', refusal);
        refused' := refused' + [refusal];
      }
    }
    assert classified[..|classified|] == classified;
  }

  // ---------------------------------------------------------------------
  // What changed
  // ---------------------------------------------------------------------

  // The fingerprint of each section; a section a config does not know reads "".
  type Config = map<string, string>

  function Fingerprint(c: Config, section: string): string { if section in c then c[section] else "" }

  ghost predicate Differs(running: Option<Config>, next: Config, x: string) {
    running.None? || Fingerprint(running.value, x) != Fingerprint(next, x)
  }

  method ChangedSections(t: Tables, running: Option<Config>, next: Config) returns (changed: seq<string>)
    requires Distinct(t.All())
    ensures Distinct(changed)
    ensures forall x :: x in changed <==> x in t.All() && Differs(running, next, x)
  {
    var names := t.All();
    if running == None {
      return names;
    }
    changed := [];
    for i := 0 to |names|
      invariant Distinct(changed)
      invariant forall x :: x in changed <==> x in names[..i] && Differs(running, next, x)
    {
      OneMore(names, i);
      assert names[i] !in names[..i];
      if Fingerprint(running.value, names[i]) != Fingerprint(next, names[i]) {
        changed := changed + [names[i]];
      }
    }
    assert names[..|names|] == names;
  }

  // ---------------------------------------------------------------------
  // The handler
  // ---------------------------------------------------------------------

  // The CurrentConfig hook: missing, or the running config, possibly none.
  datatype Baseline = NoBaseline | Running(config: Option<Config>)

  datatype Reply = BadRequest | ServerError(refused: seq<Refusal>) | OK(applied: seq<string>, refused: seq<Refusal>)

  ghost predicate IsChanged(t: Tables, baseline: Baseline, next: Config, x: string) {
    if baseline.NoBaseline? then x in t.reloadable else x in t.All() && Differs(baseline.config, next, x)
  }

  // What an OK reply says about one section: applied exactly when it changed,
  // is classified reloadable and was adopted; refused exactly when it changed
  // and is not; never both, never twice.
  ghost predicate SectionRight(t: Tables, baseline: Baseline, next: Config, hook: Hook, reply: Reply, x: string)
    requires reply.OK?
  {
    var good := x in t.reloadable && Adopted(hook, x);
    && Named(reply.applied, x) == Tally(IsChanged(t, baseline, next, x) && good)
    && Refused(reply.refused, x) == Tally(IsChanged(t, baseline, next, x) && !good)
  }

  method Changed(t: Tables, baseline: Baseline, next: Config) returns (changed: seq<string>)
    requires Distinct(t.All())
    ensures Distinct(changed) && forall x :: x in changed <==> IsChanged(t, baseline, next, x)
  {
    changed := t.reloadable;
    if baseline.Running? {
      changed := ChangedSections(t, baseline.config, next);
    } else {
      assert forall i :: 0 <= i < |t.reloadable| ==> t.reloadable[i] == t.All()[i];
    }
  }

  lemma EachOnce(t: Tables, hook: Hook, changed: seq<string>, applied: seq<string>, refused: seq<Refusal>, x: string)
    requires Distinct(changed) && Partitions(changed, applied, refused) && Reconciled(t, hook, applied, refused)
    ensures
      var good := x in t.reloadable && Adopted(hook, x);
      && Named(applied, x) == Tally(x in changed && good)
      && Refused(refused, x) == Tally(x in changed && !good)
  {
    NamedOnce(changed, x);
    CountIn(Itself, applied, x);
    CountIn(SectionOf, refused, x);
    assert Named(applied, x) + Refused(refused, x) == Named(changed, x);
    if Refused(refused, x) > 0 {
      var k :| 0 <= k < |refused| && refused[k].section == x;
      assert RefusedRight(t, hook, refused[k]);
    }
  }

  lemma Conclude(t: Tables, baseline: Baseline, next: Config, hook: Hook,
                 changed: seq<string>, applied: seq<string>, refused: seq<Refusal>)
    requires Distinct(changed) && forall x :: x in changed <==> IsChanged(t, baseline, next, x)
    requires Partitions(changed, applied, refused) && Reconciled(t, hook, applied, refused)
    ensures forall x :: SectionRight(t, baseline, next, hook, OK(applied, Sort(SectionOf, refused)), x)
    ensures forall r :: r in Sort(SectionOf, refused) ==> RefusedRight(t, hook, r)
    ensures Sorted(SectionOf, Sort(SectionOf, refused))
  {
    forall x
      ensures SectionRight(t, baseline, next, hook, OK(applied, Sort(SectionOf, refused)), x)
    {
      SortIsRight(SectionOf, refused, x);
      EachOnce(t, hook, changed, applied, refused, x);
    }
    SortIsRight(SectionOf, refused, "");
  }

  lemma ClassifiedOnce(t: Tables, changed: seq<string>, applied: seq<string>, refused: seq<Refusal>)
    requires Distinct(changed) && Partitions(changed, applied, refused) && ClassifiedRight(t, applied, refused)
    ensures forall x :: Named(applied, x) == Tally(x in changed && x in t.reloadable)
    ensures forall x :: Refused(refused, x) == Tally(x in changed && x !in t.reloadable)
  {
    forall x
      ensures Named(applied, x) == Tally(x in changed && x in t.reloadable)
      ensures Refused(refused, x) == Tally(x in changed && x !in t.reloadable)
    {
      NamedOnce(changed, x);
      CountIn(Itself, applied, x);
      CountIn(SectionOf, refused, x);
      assert Named(applied, x) + Refused(refused, x) == Named(changed, x);
    }
  }

  // next is None when no path is known or the file does not load.
  method HandleReload(t: Tables, next: Option<Config>, baseline: Baseline, hook: Hook) returns (reply: Reply)
    requires Distinct(t.All())
    ensures next.None? <==> reply.BadRequest?
    ensures reply.ServerError? <==> next.Some? && hook.HookFails? && exists x :: x in t.reloadable && IsChanged(t, baseline, next.value, x)
    ensures reply.ServerError? ==> Sorted(SectionOf, reply.refused)
    ensures reply.ServerError? ==> forall x ::
      Refused(reply.refused, x) == Tally(x !in t.reloadable && IsChanged(t, baseline, next.value, x))
    ensures reply.ServerError? ==> forall r :: r in reply.refused ==>
      r.reason == if r.section in t.restartOnly then BoundAtBoot else Unreviewed
    ensures reply.OK? ==> forall x :: SectionRight(t, baseline, next.value, hook, reply, x)
    ensures reply.OK? ==> Sorted(Itself, reply.applied) && Sorted(SectionOf, reply.refused)
    ensures reply.OK? ==> forall r :: r in reply.refused ==> RefusedRight(t, hook, r)
  {
    if next == None {
      return BadRequest;
    }
    var changed := Changed(t, baseline, next.value);
    var applied, refused := ClassifyReload(t, changed);
    ClassifiedOnce(t, changed, applied, refused);
    if |applied| > 0 {
      if hook.HookFails? {
        assert applied[0] in t.reloadable && Named(applied, applied[0]) > 0 by {
          CountIn(Itself, applied, applied[0]);
        }
        return ServerError(refused);
      }
      applied, refused := Reconcile(t, hook, applied, refused, changed);
    }
    assert Reconciled(t, hook, applied, refused);
    reply := OK(applied, Sort(SectionOf, refused));
    Conclude(t, baseline, next.value, hook, changed, applied, refused);
  }

  // What an OK reply with these properties says, over the configurations and
  // tables themselves. A section has changed when there is no running
  // configuration or the two say different things about it, absence counting as
  // the empty text; with no baseline hook every reloadable one has. It is in
  // applied exactly when it changed, is reloadable and was adopted, and in
  // refused exactly when it changed and is not, with the reason that holds.
  lemma ReplyInPlainTerms(t: Tables, baseline: Baseline, next: Config, hook: Hook, reply: Reply, x: string)
    requires reply.OK? && SectionRight(t, baseline, next, hook, reply, x)
    requires forall r :: r in reply.refused ==> RefusedRight(t, hook, r)
    ensures
      var known := x in t.reloadable || x in t.restartOnly;
      var changed :=
        if baseline.NoBaseline? then x in t.reloadable
        else if baseline.config == None then known
        else
          var running := baseline.config.value;
          known && ((x in running && running[x] != "" && (x !in next || next[x] != running[x]))
                    || (x in next && next[x] != "" && (x !in running || running[x] != next[x])));
      var good := x in t.reloadable && hook.Adopts? && x in hook.adopted;
      && (x in reply.applied <==> changed && good)
      && ((exists k :: 0 <= k < |reply.refused| && reply.refused[k].section == x) <==> changed && !good)
    ensures forall k :: 0 <= k < |reply.refused| && reply.refused[k].section == x ==>
      reply.refused[k].reason ==
        if x in t.reloadable then if hook.NoHook? then NoApplyPath else NotAdopted
        else if x in t.restartOnly then BoundAtBoot else Unreviewed
  {
    CountIn(Itself, reply.applied, x);
    CountIn(SectionOf, reply.refused, x);
    forall k | 0 <= k < |reply.refused| && reply.refused[k].section == x
      ensures RefusedRight(t, hook, reply.refused[k])
    {
      assert reply.refused[k] in reply.refused;
    }
  }

  // The tables of the source meet the requirement.
  method ReloadDaemon(next: Option<Config>, baseline: Baseline, hook: Hook) returns (reply: Reply)
    ensures next.None? <==> reply.BadRequest?
    ensures reply.ServerError? <==>
      next.Some? && hook.HookFails? && exists x :: x in SECTIONS.reloadable && IsChanged(SECTIONS, baseline, next.value, x)
    ensures reply.ServerError? ==> Sorted(SectionOf, reply.refused)
    ensures reply.ServerError? ==> forall x ::
      Refused(reply.refused, x) == Tally(x !in SECTIONS.reloadable && IsChanged(SECTIONS, baseline, next.value, x))
    ensures reply.ServerError? ==> forall r :: r in reply.refused ==>
      r.reason == if r.section in SECTIONS.restartOnly then BoundAtBoot else Unreviewed
    ensures reply.OK? ==> forall x :: SectionRight(SECTIONS, baseline, next.value, hook, reply, x)
    ensures reply.OK? ==> Sorted(Itself, reply.applied) && Sorted(SectionOf, reply.refused)
    ensures reply.OK? ==> forall r :: r in reply.refused ==> RefusedRight(SECTIONS, hook, r)
  {
    SectionsAreDistinct();
    reply := HandleReload(SECTIONS, next, baseline, hook);
  }
}
