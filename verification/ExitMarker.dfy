// The exit marker of cmd/tuidbg/shot.go: finding the wrapper's marker on a
// screen and turning captures into a verdict.
module ExitMarker {
  import opened Prelude
  import opened Escapes
  import opened Params
  import ShellQuote

  // __TUIDBG_EXIT__= : the literal part of the pattern.
  const MARKER: seq<Byte> := [0x5f, 0x5f, 0x54, 0x55, 0x49, 0x44, 0x42, 0x47, 0x5f, 0x45, 0x58, 0x49, 0x54, 0x5f, 0x5f, 0x3d]

  const MAX_INT := 0x7fff_ffff_ffff_ffff

  // What the literal part must satisfy for the scan to be sound: it starts
  // with no digit, and its last byte occurs nowhere else in it. The results
  // below hold for every such literal, so renaming the marker is harmless.
  ghost predicate Tight(m: seq<Byte>) {
    m != [] && !IsDigit(m[0]) && forall j :: 0 <= j < |m| - 1 ==> m[j] != m[|m| - 1]
  }

  lemma MarkerIsTight()
    ensures Tight(MARKER)
  {
  }

  // ---------------------------------------------------------------------
  // Matches of the pattern MARKER(\d+)
  // ---------------------------------------------------------------------

  predicate MatchAt(m: seq<Byte>, s: seq<Byte>, i: nat) {
    i + |m| < |s| && s[i..i + |m|] == m && IsDigit(s[i + |m|])
  }

  // The greedy digits of the match at i.
  function Captured(m: seq<Byte>, s: seq<Byte>, i: nat): (digits: seq<Byte>)
    requires MatchAt(m, s, i)
    ensures digits != [] && AllDigits(digits)
  {
    var rest := s[i + |m|..];
    rest[..DigitPrefix(rest)]
  }

  function MatchEnd(m: seq<Byte>, s: seq<Byte>, i: nat): (end: nat)
    requires MatchAt(m, s, i)
    ensures i < end <= |s|
  {
    i + |m| + |Captured(m, s, i)|
  }

  // The leftmost match from a position on.
  function FirstFrom(m: seq<Byte>, s: seq<Byte>, from: nat): (at: Option<nat>)
    requires from <= |s|
    ensures at.Some? ==> from <= at.value < |s| && MatchAt(m, s, at.value)
    ensures at.Some? ==> forall j :: from <= j < at.value ==> !MatchAt(m, s, j)
    ensures at.None? ==> forall j :: from <= j ==> !MatchAt(m, s, j)
    decreases |s| - from
  {
    if from == |s| then None else if MatchAt(m, s, from) then Some(from) else FirstFrom(m, s, from + 1)
  }

  // All matches, leftmost first, never overlapping.
  function FindAll(m: seq<Byte>, s: seq<Byte>, from: nat): (hits: seq<seq<Byte>>)
    requires from <= |s|
    ensures forall k :: 0 <= k < |hits| ==> AllDigits(hits[k])
    decreases |s| - from
  {
    var at := FirstFrom(m, s, from);
    if at.None? then [] else [Captured(m, s, at.value)] + FindAll(m, s, MatchEnd(m, s, at.value))
  }

  // The hits still to be appended when the scan stands at from.
  ghost predicate Continues(m: seq<Byte>, s: seq<Byte>, hits: seq<seq<Byte>>, from: nat, all: seq<seq<Byte>>)
    requires from <= |s|
  {
    hits + FindAll(m, s, from) == all
  }

  lemma MatchContinues(m: seq<Byte>, s: seq<Byte>, hits: seq<seq<Byte>>, i: nat, all: seq<seq<Byte>>)
    requires i < |s| && MatchAt(m, s, i) && Continues(m, s, hits, i, all)
    ensures Continues(m, s, hits + [Captured(m, s, i)], MatchEnd(m, s, i), all)
  {
    var more := FindAll(m, s, MatchEnd(m, s, i));
    assert FirstFrom(m, s, i) == Some(i);
    assert FindAll(m, s, i) == [Captured(m, s, i)] + more;
  }

  lemma NoMatchContinues(m: seq<Byte>, s: seq<Byte>, hits: seq<seq<Byte>>, i: nat, all: seq<seq<Byte>>)
    requires i < |s| && !MatchAt(m, s, i) && Continues(m, s, hits, i, all)
    ensures Continues(m, s, hits, i + 1, all)
  {
    assert FirstFrom(m, s, i) == FirstFrom(m, s, i + 1);
  }

  method FindAllSubmatches(m: seq<Byte>, s: seq<Byte>) returns (hits: seq<seq<Byte>>)
    ensures hits == FindAll(m, s, 0)
  {
    hits := [];
    var i := 0;
    ghost var all := FindAll(m, s, 0);
    while i < |s|
      invariant 0 <= i <= |s|
      invariant Continues(m, s, hits, i, all)
    {
      if MatchAt(m, s, i) {
        MatchContinues(m, s, hits, i, all);
        hits := hits + [Captured(m, s, i)];
        i := MatchEnd(m, s, i);
      } else {
        NoMatchContinues(m, s, hits, i, all);
        i := i + 1;
      }
    }
    assert FindAll(m, s, |s|) == [];
  }

  // strconv.Atoi of a digit string: out of range is an error.
  function Atoi(digits: seq<Byte>): Option<nat>
    requires AllDigits(digits)
  {
    if Value(digits) <= MAX_INT then Some(Value(digits)) else None
  }

  function ExitCode(m: seq<Byte>, screen: seq<Byte>): Option<nat> {
    var hits := FindAll(m, screen, 0);
    if hits == [] then None else Atoi(hits[|hits| - 1])
  }

  method DeadExitCode(m: seq<Byte>, screen: seq<Byte>) returns (code: Option<nat>)
    ensures code == ExitCode(m, screen)
  {
    var hits := FindAllSubmatches(m, screen);
    if |hits| == 0 {
      return None;
    }
    code := Atoi(hits[|hits| - 1]);
  }

  // ---------------------------------------------------------------------
  // The scan ends on the last match there is
  // ---------------------------------------------------------------------

  lemma MatchBytes(m: seq<Byte>, s: seq<Byte>, i: nat)
    requires Tight(m) && MatchAt(m, s, i)
    ensures !IsDigit(s[i]) && s[i + |m| - 1] == m[|m| - 1]
    ensures forall j :: i <= j < i + |m| - 1 ==> s[j] != m[|m| - 1]
    ensures forall j :: i + |m| <= j < MatchEnd(m, s, i) ==> IsDigit(s[j])
  {
    var found := s[i..i + |m|];
    assert forall j :: i <= j < i + |m| ==> s[j] == found[j - i];
    var rest := s[i + |m|..];
    assert forall j :: i + |m| <= j < MatchEnd(m, s, i) ==> s[j] == Captured(m, s, i)[j - i - |m|];
  }

  // Two matches cannot overlap: the last byte of the literal occurs only at its
  // end, and the digits of a match cannot start another one.
  lemma MatchesAreApart(m: seq<Byte>, s: seq<Byte>, k: nat, i: nat)
    requires Tight(m) && MatchAt(m, s, k) && MatchAt(m, s, i) && k < i
    ensures MatchEnd(m, s, k) <= i
  {
    MatchBytes(m, s, k);
    MatchBytes(m, s, i);
  }

  ghost predicate IsLastMatch(m: seq<Byte>, s: seq<Byte>, i: nat) {
    MatchAt(m, s, i) && forall j :: j > i ==> !MatchAt(m, s, j)
  }

  lemma {:induction false} ScanReachesLast(m: seq<Byte>, s: seq<Byte>, from: nat, i: nat)
    requires Tight(m) && from <= i && IsLastMatch(m, s, i)
    ensures
      var hits := FindAll(m, s, from);
      hits != [] && hits[|hits| - 1] == Captured(m, s, i)
    decreases |s| - from
  {
    var k := FirstFrom(m, s, from).value;
    var end := MatchEnd(m, s, k);
    if k < i {
      MatchesAreApart(m, s, k, i);
      ScanReachesLast(m, s, end, i);
    } else {
      assert FindAll(m, s, end) == [];
    }
  }

  // The non-overlapping scan never loses the last marker: a code is found
  // exactly when some marker is on the screen and the rightmost one fits an int.
  lemma ExitCodeIsRightmost(m: seq<Byte>, s: seq<Byte>, i: nat)
    requires Tight(m) && IsLastMatch(m, s, i)
    ensures ExitCode(m, s) == Atoi(Captured(m, s, i))
  {
    ScanReachesLast(m, s, 0, i);
  }

  lemma NoMarkerNoCode(m: seq<Byte>, s: seq<Byte>)
    requires forall i :: !MatchAt(m, s, i)
    ensures ExitCode(m, s) == None
  {
  }

  ghost predicate NoMarker(m: seq<Byte>, s: seq<Byte>) { forall i :: !MatchAt(m, s, i) }

  lemma Splits(a: seq<Byte>, b: seq<Byte>, c: seq<Byte>)
    ensures (a + b + c)[|a|..|a| + |b|] == b
    ensures (a + b + c)[|a| + |b|..] == c
  {
  }

  // A match read off the two slices that make it.
  lemma MatchThere(m: seq<Byte>, s: seq<Byte>, i: nat, digits: seq<Byte>)
    requires i + |m| <= |s| && s[i..i + |m|] == m
    requires digits != [] && AllDigits(digits) && digits <= s[i + |m|..] && DigitPrefix(s[i + |m|..]) == |digits|
    ensures MatchAt(m, s, i) && Captured(m, s, i) == digits && MatchEnd(m, s, i) == i + |m| + |digits|
  {
    assert s[i + |m|] == s[i + |m|..][0] == digits[0];
  }

  lemma PrefixOfDigits(digits: seq<Byte>, rest: seq<Byte>)
    requires AllDigits(digits) && (rest == [] || !IsDigit(rest[0]))
    ensures DigitPrefix(digits + rest) == |digits|
    ensures (digits + rest)[..|digits|] == digits
  {
    assert (digits + rest)[..|digits|] == digits;
    var n := DigitPrefix(digits + rest);
    assert forall k :: 0 <= k < n ==> (digits + rest)[..n][k] == (digits + rest)[k];
  }

  lemma MarkerPlaced(m: seq<Byte>, before: seq<Byte>, digits: seq<Byte>, rest: seq<Byte>)
    requires Tight(m) && digits != [] && AllDigits(digits) && (rest == [] || !IsDigit(rest[0]))
    ensures
      var s := before + m + digits + rest;
      && MatchAt(m, s, |before|)
      && Captured(m, s, |before|) == digits
      && s[MatchEnd(m, s, |before|)..] == rest
  {
    var s := before + m + digits + rest;
    Regroup(before + m, digits, rest);
    Splits(before, m, digits + rest);
    PrefixOfDigits(digits, rest);
    MatchThere(m, s, |before|, digits);
    Splits(before + m, digits, rest);
  }

  lemma NoneAfter(m: seq<Byte>, s: seq<Byte>, i: nat)
    requires Tight(m) && MatchAt(m, s, i) && NoMarker(m, s[MatchEnd(m, s, i)..])
    ensures IsLastMatch(m, s, i)
  {
    var end := MatchEnd(m, s, i);
    forall j | j > i
      ensures !MatchAt(m, s, j)
    {
      if MatchAt(m, s, j) {
        MatchesAreApart(m, s, i, j);
        assert s[end..][j - end..j - end + |m|] == s[j..j + |m|];
        assert MatchAt(m, s[end..], j - end);
      }
    }
  }

  // Whatever stands before it, truncated or complete or faked markers included,
  // the marker the wrapper painted last is the one reported; a number that no
  // int holds gives no code, and no earlier marker takes its place.
  lemma LastMarkerWins(m: seq<Byte>, before: seq<Byte>, code: nat, rest: seq<Byte>)
    requires Tight(m)
    requires rest == [] || !IsDigit(rest[0])
    requires NoMarker(m, rest)
    ensures ExitCode(m, before + m + Digits(code) + rest) == if code <= 0x7fff_ffff_ffff_ffff then Some(code) else None
  {
    var s := before + m + Digits(code) + rest;
    MarkerPlaced(m, before, Digits(code), rest);
    NoneAfter(m, s, |before|);
    ExitCodeIsRightmost(m, s, |before|);
  }

  // ---------------------------------------------------------------------
  // Verdicts
  // ---------------------------------------------------------------------

  // One turn of the polling loop: the capture, or a failed one, and whether
  // the deadline has passed.
  datatype Look = Look(raw: Option<seq<Byte>>, late: bool)

  datatype Verdict = CaptureFailed | Exited(code: nat) | Matched | TimedOut

  type Pattern = Option<seq<Byte> -> bool>

  // What is printed and searched for --wait, and what is searched for the marker.
  function Screen(raw: seq<Byte>, ansi: bool): seq<Byte> { if ansi then raw else Stripped(raw) }

  function Plain(raw: seq<Byte>, ansi: bool): seq<Byte> { if ansi then Stripped(raw) else Screen(raw, ansi) }

  function Judge(m: seq<Byte>, look: Look, ansi: bool, pattern: Pattern): Option<Verdict> {
    if look.raw.None? then Some(CaptureFailed)
    else
      var raw := look.raw.value;
      var code := ExitCode(m, Plain(raw, ansi));
      if code.Some? then Some(Exited(code.value))
      else if pattern.None? || pattern.value(Screen(raw, ansi)) then Some(Matched)
      else if look.late then Some(TimedOut)
      else None
  }

  // The loop over what the pane showed: the first look that decides.
  method Shot(m: seq<Byte>, looks: seq<Look>, ansi: bool, pattern: Pattern) returns (at: nat, verdict: Option<Verdict>)
    ensures at <= |looks| && forall k :: 0 <= k < at ==> Judge(m, looks[k], ansi, pattern) == None
    ensures at < |looks| ==> verdict == Judge(m, looks[at], ansi, pattern) && verdict.Some?
    ensures at == |looks| ==> verdict == None
  {
    at, verdict := 0, None;
    while at < |looks|
      invariant 0 <= at <= |looks| && verdict == None
      invariant forall k :: 0 <= k < at ==> Judge(m, looks[k], ansi, pattern) == None
    {
      if looks[at].raw == None {
        return at, Some(CaptureFailed);
      }
      var raw := looks[at].raw.value;
      var screen := raw;
      if !ansi {
        screen := StripSGR(raw);
      }
      var plain := screen;
      if ansi {
        plain := StripSGR(raw);
      }
      var code := DeadExitCode(m, plain);
      if code.Some? {
        return at, Some(Exited(code.value));
      }
      if pattern == None || pattern.value(screen) {
        return at, Some(Matched);
      }
      if looks[at].late {
        return at, Some(TimedOut);
      }
      at := at + 1;
    }
  }

  // What one look decides, and what it takes: a failed capture fails; a code on
  // the text without escapes is an exit, whatever else is true; a match, on the
  // raw text exactly with --ansi, beats an expired deadline; a timeout needs a
  // pattern that did not match; and otherwise the loop goes on.
  lemma LookIsJudgedInOrder(m: seq<Byte>, look: Look, ansi: bool, pattern: Pattern)
    ensures look.raw == None <==> Judge(m, look, ansi, pattern) == Some(CaptureFailed)
    ensures look.raw.Some? ==>
      var raw := look.raw.value;
      var code, hit := ExitCode(m, Stripped(raw)), pattern == None || pattern.value(if ansi then raw else Stripped(raw));
      var verdict := Judge(m, look, ansi, pattern);
      && (forall c: nat :: verdict == Some(Exited(c)) <==> code == Some(c))
      && (verdict == Some(Matched) <==> code == None && hit)
      && (verdict == Some(TimedOut) <==> code == None && !hit && look.late)
      && (verdict == None <==> code == None && !hit && !look.late)
  {
  }

  // The marker is judged on the same text in every mode: with or without ANSI
  // output, and also when the capture itself was taken without colours.
  lemma ExitDoesNotDependOnColour(m: seq<Byte>, raw: seq<Byte>, ansi: bool, ansi': bool)
    ensures ExitCode(m, Plain(raw, ansi)) == ExitCode(m, Plain(raw, ansi'))
    ensures ExitCode(m, Plain(Stripped(raw), ansi)) == ExitCode(m, Plain(raw, ansi'))
  {
    StripIsIdempotent(raw);
  }

  // A program that exited is reported as exited with its own code, before any
  // match of --wait and before any timeout, in every mode.
  lemma ExitIsNeverMasked(m: seq<Byte>, before: seq<Byte>, code: nat, rest: seq<Byte>, raw: seq<Byte>, late: bool, ansi: bool, pattern: Pattern)
    requires Tight(m) && code <= 255 && (rest == [] || !IsDigit(rest[0])) && NoMarker(m, rest)
    requires Stripped(raw) == before + m + Digits(code) + rest
    ensures Judge(m, Look(Some(raw), late), ansi, pattern) == Some(Exited(code))
  {
    LastMarkerWins(m, before, code, rest);
  }

  // ---------------------------------------------------------------------
  // What the wrapper prints is what the scan finds
  // ---------------------------------------------------------------------

  // A character of an ASCII string as a byte.
  function Code(c: char): Byte { (c as int) % 0x80 }

  predicate Ascii(s: string) { forall k :: 0 <= k < |s| ==> s[k] < '\U{0080}' }

  function Bytes(s: string): (b: seq<Byte>)
    ensures |b| == |s|
  {
    seq(|s|, k requires 0 <= k < |s| => Code(s[k]))
  }

  // printf with one argument: %s and the escape \n, everything else as it is.
  function Printf(format: string, arg: seq<Byte>): seq<Byte> {
    if format == "" then []
    else if |format| >= 2 && format[0] == '%' && format[1] == 's' then arg + Printf(format[2..], arg)
    else if |format| >= 2 && format[0] == '\\' && format[1] == 'n' then [0x0a] + Printf(format[2..], arg)
    else [Code(format[0])] + Printf(format[1..], arg)
  }

  lemma PrintfOne(c: char, rest: string, arg: seq<Byte>)
    requires c != '%' && c != '\\'
    ensures Printf([c] + rest, arg) == [Code(c)] + Printf(rest, arg)
  {
    assert ([c] + rest)[1..] == rest;
  }

  lemma {:induction false} PrintfPlain(plain: string, rest: string, arg: seq<Byte>)
    requires '%' !in plain && '\\' !in plain
    ensures Printf(plain + rest, arg) == Bytes(plain) + Printf(rest, arg)
    decreases |plain|
  {
    if plain == "" {
      assert plain + rest == rest;
    } else {
      PrintfPlain(plain[1..], rest, arg);
      PrintfOne(plain[0], plain[1..] + rest, arg);
      assert plain + rest == [plain[0]] + (plain[1..] + rest);
      assert Bytes(plain) == [Code(plain[0])] + Bytes(plain[1..]);
    }
  }

  // The pattern's literal part is the wrapper's marker.
  lemma MarkerIsTheWrappers()
    ensures Ascii(ShellQuote.EXIT_MARKER + "=") && Bytes(ShellQuote.EXIT_MARKER + "=") == MARKER
    ensures '%' !in ShellQuote.EXIT_MARKER + "=" && '\\' !in ShellQuote.EXIT_MARKER + "="
  {
  }

  lemma PrintfTail(arg: seq<Byte>)
    ensures Printf("%s\\n", arg) == arg + [0x0a]
  {
    assert "%s\\n"[2..] == "\\n" && "\\n"[2..] == "";
    assert Printf("\\n", arg) == [0x0a] + [];
  }

  lemma FormatIsLabelled()
    ensures ShellQuote.FORMAT == (ShellQuote.EXIT_MARKER + "=") + "%s\\n"
  {
  }

  lemma Regrouped(before: seq<Byte>, m: seq<Byte>, d: seq<Byte>, rest: seq<Byte>)
    ensures before + (m + (d + [0x0a])) + rest == before + m + d + ([0x0a] + rest)
  {
  }

  lemma LabelledStatusIsRead(name: string, m: seq<Byte>, before: seq<Byte>, code: nat, rest: seq<Byte>)
    requires '%' !in name && '\\' !in name && Bytes(name) == m && Tight(m)
    requires code <= 255 && NoMarker(m, [0x0a] + rest)
    ensures ExitCode(m, before + Printf(name + "%s\\n", Digits(code)) + rest) == Some(code)
  {
    var d := Digits(code);
    PrintfTail(d);
    PrintfPlain(name, "%s\\n", d);
    LastMarkerWins(m, before, code, [0x0a] + rest);
    Regrouped(before, m, d, rest);
  }

  // The line the wrapper's own format prints for a status, in front of text
  // without a marker and behind any text, is read back as that status.
  lemma PrintedStatusIsRead(before: seq<Byte>, code: nat, rest: seq<Byte>)
    requires code <= 255 && NoMarker(MARKER, [0x0a] + rest)
    ensures ExitCode(MARKER, before + Printf(ShellQuote.FORMAT, Digits(code)) + rest) == Some(code)
  {
    MarkerIsTheWrappers();
    MarkerIsTight();
    FormatIsLabelled();
    LabelledStatusIsRead(ShellQuote.EXIT_MARKER + "=", MARKER, before, code, rest);
  }
}
