// The order-free flag scanner of cmd/yanshi/cliargs.go.
module Flags {
  import opened Prelude

  datatype FlagError = TakesNoValue(name: string) | HelpRequested | UnknownFlag(name: string) | NeedsValue(name: string)

  datatype Vocabulary = Vocabulary(bools: set<string>, values: set<string>)

  // ---------------------------------------------------------------------
  // strings.TrimLeft(a, "-") and strings.Cut(a, "=")
  // ---------------------------------------------------------------------

  function Dashes(n: nat): (s: string)
    ensures |s| == n && forall k :: 0 <= k < n ==> s[k] == '-'
  {
    seq(n, _ => '-')
  }

  function LeadingDashes(a: string): (n: nat)
    ensures n <= |a| && a[..n] == Dashes(n)
    ensures n < |a| ==> a[n] != '-'
  {
    if a == "" || a[0] != '-' then 0
    else
      var n := LeadingDashes(a[1..]) + 1;
      assert a[..n] == [a[0]] + a[1..][..n - 1];
      n
  }

  // The first '=', or the length.
  function EqualsAt(a: string): (n: nat)
    ensures n <= |a| && '=' !in a[..n]
    ensures n < |a| ==> a[n] == '='
  {
    if a == "" || a[0] == '=' then 0
    else
      var n := EqualsAt(a[1..]) + 1;
      assert a[..n] == [a[0]] + a[1..][..n - 1];
      n
  }

  predicate IsPositional(a: string) { a == "-" || a == "" || a[0] != '-' }

  // A flag argument taken apart: name, and the attached value if there is one.
  datatype Flag = Flag(name: string, attached: Option<string>)

  function Read(a: string): Flag {
    var rest := a[LeadingDashes(a)..];
    var n := EqualsAt(rest);
    Flag(rest[..n], if n < |rest| then Some(rest[n + 1..]) else None)
  }

  // ---------------------------------------------------------------------
  // The scanner
  // ---------------------------------------------------------------------

  datatype State = State(seen: map<string, string>, pos: seq<string>, error: Option<FlagError>)

  function Parse(v: Vocabulary, args: seq<string>, seen: map<string, string>, pos: seq<string>): State
    decreases |args|
  {
    if args == [] then State(seen, pos, None)
    else if IsPositional(args[0]) then Parse(v, args[1..], seen, pos + [args[0]])
    else
      var f := Read(args[0]);
      if f.name in v.bools then
        if f.attached.Some? then State(seen, pos, Some(TakesNoValue(f.name)))
        else Parse(v, args[1..], seen[f.name := "true"], pos)
      else if f.name == "help" || f.name == "h" then State(seen, pos, Some(HelpRequested))
      else if f.name !in v.values then State(seen, pos, Some(UnknownFlag(f.name)))
      else if f.attached.Some? then Parse(v, args[1..], seen[f.name := f.attached.value], pos)
      else if |args| == 1 then State(seen, pos, Some(NeedsValue(f.name)))
      else Parse(v, args[2..], seen[f.name := args[1]], pos)
  }

  class FlagScanner {
    const vocabulary: Vocabulary
    var seen: map<string, string>
    var pos: seq<string>

    constructor (bools: seq<string>, values: seq<string>)
      ensures vocabulary == Vocabulary(set b | b in bools, set w | w in values)
      ensures seen == map[] && pos == []
    {
      vocabulary := Vocabulary(set b | b in bools, set w | w in values);
      seen, pos := map[], [];
    }

    method ParseArgs(args: seq<string>) returns (error: Option<FlagError>)
      modifies this
      ensures State(seen, pos, error) == Parse(vocabulary, args, old(seen), old(pos))
    {
      var i := 0;
      while i < |args|
        invariant 0 <= i <= |args|
        invariant Parse(vocabulary, args[i..], seen, pos) == Parse(vocabulary, args, old(seen), old(pos))
      {
        var a := args[i];
        ghost var rest := args[i..];
        assert rest[0] == a && rest[1..] == args[i + 1..];
        assert |rest| >= 2 ==> rest[1] == args[i + 1] && rest[2..] == args[i + 2..];
        i := i + 1;
        if IsPositional(a) {
          pos := pos + [a];
          continue;
        }
        var f := Read(a);
        if f.name in vocabulary.bools {
          if f.attached.Some? {
            return Some(TakesNoValue(f.name));
          }
          seen := seen[f.name := "true"];
        } else if f.name == "help" || f.name == "h" {
          return Some(HelpRequested);
        } else {
          if f.name !in vocabulary.values {
            return Some(UnknownFlag(f.name));
          }
          if f.attached.Some? {
            seen := seen[f.name := f.attached.value];
          } else {
            if i >= |args| {
              return Some(NeedsValue(f.name));
            }
            seen := seen[f.name := args[i]];
            i := i + 1;
          }
        }
      }
      return None;
    }
  }

  // ---------------------------------------------------------------------
  // The grammar
  // ---------------------------------------------------------------------

  datatype Item =
    | Positional(p: string)
    | Boolean(dashes: nat, name: string)
    | Attached(dashes: nat, name: string, value: string)
    | Separate(dashes: nat, name: string, value: string)

  function Spelled(item: Item): seq<string> {
    match item
    case Positional(p) => [p]
    case Boolean(d, name) => [Dashes(d) + name]
    case Attached(d, name, value) => [Dashes(d) + name + "=" + value]
    case Separate(d, name, value) => [Dashes(d) + name, value]
  }

  predicate NameOk(dashes: nat, name: string) {
    dashes >= 1 && (name != "" ==> name[0] != '-') && '=' !in name
  }

  predicate TakesValue(v: Vocabulary, name: string) {
    name !in v.bools && name != "help" && name != "h" && name in v.values
  }

  // The value of a separate flag is any argument, dashes included.
  predicate WellFormed(v: Vocabulary, item: Item) {
    match item
    case Positional(p) => p == "" || p == "-" || p[0] != '-'
    case Boolean(d, name) => NameOk(d, name) && Dashes(d) + name != "-" && name in v.bools
    case Attached(d, name, _) => NameOk(d, name) && TakesValue(v, name)
    case Separate(d, name, _) => NameOk(d, name) && Dashes(d) + name != "-" && TakesValue(v, name)
  }

  predicate AllWellFormed(v: Vocabulary, items: seq<Item>) { forall k :: 0 <= k < |items| ==> WellFormed(v, items[k]) }

  function SpelledAll(items: seq<Item>): seq<string> {
    if items == [] then [] else Spelled(items[0]) + SpelledAll(items[1..])
  }

  // The two groups a command line is made of.
  function PositionalOf(item: Item): seq<string> {
    if item.Positional? then [item.p] else []
  }

  function Positionals(items: seq<Item>): seq<string> {
    if items == [] then [] else PositionalOf(items[0]) + Positionals(items[1..])
  }

  function SettingOf(item: Item): seq<(string, string)> {
    match item
    case Positional(_) => []
    case Boolean(_, name) => [(name, "true")]
    case Attached(_, name, value) => [(name, value)]
    case Separate(_, name, value) => [(name, value)]
  }

  function Settings(items: seq<Item>): seq<(string, string)> {
    if items == [] then [] else SettingOf(items[0]) + Settings(items[1..])
  }

  function LastWins(seen: map<string, string>, settings: seq<(string, string)>): map<string, string>
    decreases |settings|
  {
    if settings == [] then seen else LastWins(seen[settings[0].0 := settings[0].1], settings[1..])
  }

  // ---------------------------------------------------------------------
  // Every spelling of the grammar parses to its two groups
  // ---------------------------------------------------------------------

  lemma ReadDashed(d: nat, name: string)
    requires NameOk(d, name)
    ensures Read(Dashes(d) + name) == Flag(name, None)
  {
    var a := Dashes(d) + name;
    var n := LeadingDashes(a);
    assert forall k :: 0 <= k < n ==> a[k] == a[..n][k] == '-';
    assert forall k :: 0 <= k < |name| ==> a[d + k] == name[k];
    assert n == d;
    assert a[n..] == name;
    var e := EqualsAt(name);
    assert name[..e] == name;
  }

  lemma ReadAttached(d: nat, name: string, value: string)
    requires NameOk(d, name)
    ensures Read(Dashes(d) + name + "=" + value) == Flag(name, Some(value))
  {
    var rest := name + "=" + value;
    var a := Dashes(d) + name + "=" + value;
    assert a == Dashes(d) + rest;
    var n := LeadingDashes(a);
    assert n == d by {
      assert forall k :: 0 <= k < n ==> a[k] == a[..n][k];
      assert a[d] == rest[0];
    }
    assert a[n..] == rest;
    var e := EqualsAt(rest);
    assert e == |name| by {
      assert rest[|name|] == '=';
      assert forall k :: 0 <= k < e ==> rest[..e][k] == rest[k];
      assert forall k :: 0 <= k < |name| ==> rest[k] == name[k];
    }
    assert rest[..e] == name && rest[e + 1..] == value;
  }

  lemma OneSetting(seen: map<string, string>, name: string, value: string)
    ensures LastWins(seen, [(name, value)]) == seen[name := value]
  {
    assert [(name, value)][1..] == [];
  }

  lemma ParseItem(v: Vocabulary, item: Item, rest: seq<string>, seen: map<string, string>, pos: seq<string>)
    requires WellFormed(v, item)
    ensures Parse(v, Spelled(item) + rest, seen, pos) ==
      Parse(v, rest, LastWins(seen, SettingOf(item)), pos + PositionalOf(item))
  {
    var args := Spelled(item) + rest;
    match item
    case Positional(p) =>
      assert args[0] == p && args[1..] == rest;
      assert PositionalOf(item) == [p];
    case Boolean(d, name) =>
      assert args[0] == Dashes(d) + name && args[1..] == rest;
      assert args[0][0] == '-';
      ReadDashed(d, name);
      OneSetting(seen, name, "true");
      assert pos + PositionalOf(item) == pos;
    case Attached(d, name, value) =>
      assert args[0] == Dashes(d) + name + "=" + value && args[1..] == rest;
      assert args[0][0] == '-' && |args[0]| >= 2;
      ReadAttached(d, name, value);
      OneSetting(seen, name, value);
      assert pos + PositionalOf(item) == pos;
    case Separate(d, name, value) =>
      assert args[0] == Dashes(d) + name && args[1] == value && args[2..] == rest;
      assert args[0][0] == '-';
      ReadDashed(d, name);
      OneSetting(seen, name, value);
      assert pos + PositionalOf(item) == pos;
  }

  lemma {:induction false} LastWinsConcat(seen: map<string, string>, a: seq<(string, string)>, b: seq<(string, string)>)
    ensures LastWins(seen, a + b) == LastWins(LastWins(seen, a), b)
    decreases |a|
  {
    if a == [] {
      assert a + b == b;
    } else {
      LastWinsConcat(seen[a[0].0 := a[0].1], a[1..], b);
      assert (a + b)[1..] == a[1..] + b;
    }
  }

  // In front of any further arguments.
  lemma {:induction false} ParseSpelledThen(v: Vocabulary, items: seq<Item>, more: seq<string>,
                                            seen: map<string, string>, pos: seq<string>)
    requires AllWellFormed(v, items)
    ensures Parse(v, SpelledAll(items) + more, seen, pos) ==
      Parse(v, more, LastWins(seen, Settings(items)), pos + Positionals(items))
    decreases |items|
  {
    if items == [] {
      assert SpelledAll(items) + more == more;
      assert pos + [] == pos;
    } else {
      var first, rest := items[0], items[1..];
      assert SpelledAll(items) + more == Spelled(first) + (SpelledAll(rest) + more);
      ParseItem(v, first, SpelledAll(rest) + more, seen, pos);
      ParseSpelledThen(v, rest, more, LastWins(seen, SettingOf(first)), pos + PositionalOf(first));
      LastWinsConcat(seen, SettingOf(first), Settings(rest));
      Regroup(pos, PositionalOf(first), Positionals(rest));
    }
  }

  lemma ParseSpelled(v: Vocabulary, items: seq<Item>, seen: map<string, string>, pos: seq<string>)
    requires AllWellFormed(v, items)
    ensures Parse(v, SpelledAll(items), seen, pos) ==
      State(LastWins(seen, Settings(items)), pos + Positionals(items), None)
  {
    ParseSpelledThen(v, items, [], seen, pos);
    assert SpelledAll(items) + [] == SpelledAll(items);
  }

  // Order independence: two command lines that keep the order within the flags
  // and within the positionals parse alike, however the groups interleave and
  // however each flag is spelled.
  lemma OrderDoesNotMatter(v: Vocabulary, a: seq<Item>, b: seq<Item>)
    requires AllWellFormed(v, a) && AllWellFormed(v, b)
    requires Settings(a) == Settings(b) && Positionals(a) == Positionals(b)
    ensures Parse(v, SpelledAll(a), map[], []) == Parse(v, SpelledAll(b), map[], [])
    ensures Parse(v, SpelledAll(a), map[], []) == State(LastWins(map[], Settings(a)), Positionals(a), None)
  {
    ParseSpelled(v, a, map[], []);
    ParseSpelled(v, b, map[], []);
    assert [] + Positionals(a) == Positionals(a);
  }

  // What the map says: a name is seen exactly when it was given, with the value
  // of its last occurrence.
  lemma {:induction false} SeenIsLastGiven(seen: map<string, string>, settings: seq<(string, string)>, name: string)
    ensures name in LastWins(seen, settings) <==> name in seen || exists k :: 0 <= k < |settings| && settings[k].0 == name
    ensures forall k :: 0 <= k < |settings| && settings[k].0 == name && (forall j :: k < j < |settings| ==> settings[j].0 != name) ==>
      name in LastWins(seen, settings) && LastWins(seen, settings)[name] == settings[k].1
    ensures (forall k :: 0 <= k < |settings| ==> settings[k].0 != name) && name in seen ==>
      name in LastWins(seen, settings) && LastWins(seen, settings)[name] == seen[name]
    decreases |settings|
  {
    if settings != [] {
      SeenIsLastGiven(seen[settings[0].0 := settings[0].1], settings[1..], name);
      assert forall k :: 0 < k < |settings| ==> settings[k] == settings[1..][k - 1];
    }
  }

  // ---------------------------------------------------------------------
  // And nothing else parses
  // ---------------------------------------------------------------------

  lemma FlagIsItem(v: Vocabulary, a: string)
    requires !IsPositional(a)
    ensures
      var d, f := LeadingDashes(a), Read(a);
      && NameOk(d, f.name)
      && (f.attached.None? ==> a == Dashes(d) + f.name)
      && (f.attached.Some? ==> a == Dashes(d) + f.name + "=" + f.attached.value)
  {
    var d := LeadingDashes(a);
    var rest := a[d..];
    var n := EqualsAt(rest);
    assert a == a[..d] + rest;
    assert d >= 1;
    if n < |rest| {
      assert rest == rest[..n] + "=" + rest[n + 1..];
      assert a[..d] + rest == a[..d] + rest[..n] + "=" + rest[n + 1..];
    } else {
      assert rest[..n] == rest;
    }
  }

  lemma SpelledPush(v: Vocabulary, item: Item, rest: seq<Item>)
    requires WellFormed(v, item) && AllWellFormed(v, rest)
    ensures AllWellFormed(v, [item] + rest)
    ensures SpelledAll([item] + rest) == Spelled(item) + SpelledAll(rest)
  {
    assert ([item] + rest)[1..] == rest;
  }

  // Argument a, the last one or not, is a flag that cannot be read.
  ghost predicate Fails(v: Vocabulary, a: string, last: bool, d: nat, name: string, value: Option<string>, error: FlagError) {
    && NameOk(d, name) && a != "-" && a == Dashes(d) + name + (if value.Some? then "=" + value.value else "")
    && match error
       case TakesNoValue(n) => n == name && name in v.bools && value.Some?
       case HelpRequested => name !in v.bools && (name == "help" || name == "h")
       case UnknownFlag(n) => n == name && name !in v.bools && name != "help" && name != "h" && name !in v.values
       case NeedsValue(n) => n == name && TakesValue(v, name) && value.None? && last
  }

  // The scan gets past the first argument.
  predicate ReadsOn(v: Vocabulary, args: seq<string>)
    requires args != []
  {
    || IsPositional(args[0])
    || (Read(args[0]).name in v.bools && Read(args[0]).attached.None?)
    || (TakesValue(v, Read(args[0]).name) && (Read(args[0]).attached.Some? || |args| > 1))
  }

  // If the first argument cannot be read, the line fails with its error.
  lemma FirstFails(v: Vocabulary, args: seq<string>, seen: map<string, string>, pos: seq<string>)
    requires args != [] && !ReadsOn(v, args)
    ensures
      var f := Read(args[0]);
      var s := Parse(v, args, seen, pos);
      && s.error.Some?
      && Fails(v, args[0], |args| == 1, LeadingDashes(args[0]), f.name, f.attached, s.error.value)
  {
    FlagIsItem(v, args[0]);
    var a, d, f := args[0], LeadingDashes(args[0]), Read(args[0]);
    assert a == Dashes(d) + f.name + (if f.attached.Some? then "=" + f.attached.value else "") by {
      if f.attached.None? {
        assert Dashes(d) + f.name + "" == Dashes(d) + f.name;
      } else {
        assert Dashes(d) + f.name + ("=" + f.attached.value) == Dashes(d) + f.name + "=" + f.attached.value;
      }
    }
  }

  // Otherwise it is the first item, alone or with the next one as its value.
  lemma FirstItem(v: Vocabulary, args: seq<string>, seen: map<string, string>, pos: seq<string>)
    returns (item: Item, rest: seq<string>, seen': map<string, string>, pos': seq<string>)
    requires args != [] && ReadsOn(v, args)
    ensures WellFormed(v, item) && args == Spelled(item) + rest && |rest| < |args|
    ensures Parse(v, args, seen, pos) == Parse(v, rest, seen', pos')
  {
    var a, f := args[0], Read(args[0]);
    rest, seen', pos' := args[1..], seen, pos;
    if IsPositional(a) {
      item, pos' := Positional(a), pos + [a];
    } else {
      FlagIsItem(v, a);
      if f.name in v.bools {
        item, seen' := Boolean(LeadingDashes(a), f.name), seen[f.name := "true"];
      } else if f.attached.Some? {
        item, seen' := Attached(LeadingDashes(a), f.name, f.attached.value), seen[f.name := f.attached.value];
      } else {
        item, rest, seen' := Separate(LeadingDashes(a), f.name, args[1]), args[2..], seen[f.name := args[1]];
        assert args == [args[0], args[1]] + args[2..];
      }
    }
  }

  // Completeness: whatever the scanner accepts is a spelling of some
  // well-formed items, so the accepted command lines are exactly the grammar.
  lemma {:induction false} AcceptedIsSpelled(v: Vocabulary, args: seq<string>, seen: map<string, string>, pos: seq<string>)
    returns (items: seq<Item>)
    requires Parse(v, args, seen, pos).error == None
    ensures AllWellFormed(v, items) && SpelledAll(items) == args
    decreases |args|
  {
    items := [];
    if args != [] {
      if !ReadsOn(v, args) {
        FirstFails(v, args, seen, pos);
      }
      var item, rest, seen', pos' := FirstItem(v, args, seen, pos);
      var more := AcceptedIsSpelled(v, rest, seen', pos');
      items := [item] + more;
      SpelledPush(v, item, more);
    }
  }

  // ---------------------------------------------------------------------
  // Why a line is rejected
  // ---------------------------------------------------------------------

  lemma ReadFlag(a: string, d: nat, name: string, value: Option<string>)
    requires NameOk(d, name) && a == Dashes(d) + name + (if value.Some? then "=" + value.value else "")
    ensures Read(a) == Flag(name, value) && a[0] == '-'
  {
    if value.Some? {
      ReadAttached(d, name, value.value);
      assert a == Dashes(d) + name + "=" + value.value;
    } else {
      ReadDashed(d, name);
      assert a == Dashes(d) + name;
    }
  }

  // Behind any well-formed items such a flag stops the scan with its error, and
  // what was read before it is kept.
  lemma BadFlagIsReported(v: Vocabulary, items: seq<Item>, a: string, rest: seq<string>,
                          d: nat, name: string, value: Option<string>, error: FlagError)
    requires AllWellFormed(v, items) && Fails(v, a, rest == [], d, name, value, error)
    ensures Parse(v, SpelledAll(items) + ([a] + rest), map[], []) ==
      State(LastWins(map[], Settings(items)), Positionals(items), Some(error))
  {
    ParseSpelledThen(v, items, [a] + rest, map[], []);
    assert [] + Positionals(items) == Positionals(items);
    ReadFlag(a, d, name, value);
  }

  // And nothing else is rejected: a line with an error is well-formed items,
  // then a flag that fails with just this error, then anything.
  lemma {:induction false} RejectedForItsReason(v: Vocabulary, args: seq<string>, seen: map<string, string>, pos: seq<string>)
    returns (items: seq<Item>, a: string, rest: seq<string>, d: nat, name: string, value: Option<string>)
    requires Parse(v, args, seen, pos).error.Some?
    ensures AllWellFormed(v, items) && args == SpelledAll(items) + ([a] + rest)
    ensures Fails(v, a, rest == [], d, name, value, Parse(v, args, seen, pos).error.value)
    decreases |args|
  {
    if ReadsOn(v, args) {
      var item, later, seen', pos' := FirstItem(v, args, seen, pos);
      var others;
      others, a, rest, d, name, value := RejectedForItsReason(v, later, seen', pos');
      items := [item] + others;
      SpelledPush(v, item, others);
      Regroup(Spelled(item), SpelledAll(others), [a] + rest);
    } else {
      FirstFails(v, args, seen, pos);
      items, a, rest := [], args[0], args[1..];
      d, name, value := LeadingDashes(args[0]), Read(args[0]).name, Read(args[0]).attached;
      assert [] + ([a] + rest) == args;
    }
  }
}
