// SGR parameter bodies of cmd/tuidbg/sgr.go: splitting, clamped decimal
// reading, and the round trip with the escape scanner.
module Params {
  import opened Prelude
  import opened Escapes

  const LIMIT := 1048576 // 1 << 20

  const SEMICOLON: Byte := 0x3b
  const COLON: Byte := 0x3a

  predicate IsDigit(b: Byte) { 0x30 <= b <= 0x39 }

  predicate AllDigits(s: seq<Byte>) { forall k :: 0 <= k < |s| ==> IsDigit(s[k]) }

  // ---------------------------------------------------------------------
  // Reading one parameter
  // ---------------------------------------------------------------------

  // The number a digit string denotes.
  function Value(s: seq<Byte>): nat
    requires AllDigits(s)
  {
    if s == [] then 0 else Value(s[..|s| - 1]) * 10 + (s[|s| - 1] - 0x30)
  }

  function DigitPrefix(s: seq<Byte>): (n: nat)
    ensures n <= |s| && AllDigits(s[..n])
    ensures n < |s| ==> !IsDigit(s[n])
  {
    if s == [] || !IsDigit(s[0]) then 0
    else
      var n := DigitPrefix(s[1..]) + 1;
      assert s[..n] == [s[0]] + s[1..][..n - 1];
      n
  }

  // The clamp wins over a later stray byte, because the source returns as soon
  // as the bound is passed.
  function Number(s: seq<Byte>): nat {
    var n := DigitPrefix(s);
    if Value(s[..n]) > LIMIT then LIMIT else if n == |s| then Value(s) else 0
  }

  lemma {:induction false} PrefixValueGrows(s: seq<Byte>, i: nat, j: nat)
    requires i <= j <= |s| && AllDigits(s[..j])
    ensures AllDigits(s[..i]) && Value(s[..i]) <= Value(s[..j])
    decreases j - i
  {
    if i < j {
      PrefixValueGrows(s, i, j - 1);
      assert s[..j][..j - 1] == s[..j - 1];
    }
  }

  method AtoiSGR(s: seq<Byte>) returns (n: nat)
    ensures n == Number(s)
    ensures AllDigits(s) ==> n == if Value(s) < LIMIT then Value(s) else LIMIT
    ensures n <= LIMIT
  {
    n := 0;
    var i := 0;
    ghost var d := DigitPrefix(s);
    while i < |s|
      invariant 0 <= i <= |s|
      invariant AllDigits(s[..i]) && n == Value(s[..i]) <= LIMIT
    {
      if !IsDigit(s[i]) {
        assert d == i;
        return 0;
      }
      assert s[..i + 1][..i] == s[..i];
      assert n * 10 + 9 < 0x8000_0000; // no overflow even in 32 bits
      n := n * 10 + (s[i] - 0x30);
      i := i + 1;
      if n > LIMIT {
        assert i <= d;
        PrefixValueGrows(s, i, d);
        if AllDigits(s) {
          assert s[..|s|] == s;
          PrefixValueGrows(s, i, |s|);
        }
        return LIMIT;
      }
    }
    assert s[..|s|] == s;
    assert d == |s|;
  }

  // ---------------------------------------------------------------------
  // Splitting
  // ---------------------------------------------------------------------

  // strings.Split for a set of one-byte separators: always at least one field.
  function Split(body: seq<Byte>, separators: set<Byte>): (fields: seq<seq<Byte>>)
    ensures |fields| >= 1
  {
    if body == [] then [[]]
    else
      var rest := Split(body[1..], separators);
      if body[0] in separators then [[]] + rest else [[body[0]] + rest[0]] + rest[1..]
  }

  // Fields joined by one separator byte.
  function Join(fields: seq<seq<Byte>>, separator: Byte): seq<Byte>
    requires fields != []
  {
    if |fields| == 1 then fields[0] else fields[0] + [separator] + Join(fields[1..], separator)
  }

  predicate Free(s: seq<Byte>, separators: set<Byte>) {
    forall k :: 0 <= k < |s| ==> s[k] !in separators
  }

  lemma {:induction false} SplitFront(front: seq<Byte>, rest: seq<Byte>, separators: set<Byte>)
    requires Free(front, separators)
    ensures
      var r := Split(rest, separators);
      Split(front + rest, separators) == [front + r[0]] + r[1..]
    decreases |front|
  {
    if front == [] {
      assert front + rest == rest;
      var r := Split(rest, separators);
      assert [] + r[0] == r[0] && r == [r[0]] + r[1..];
    } else {
      SplitFront(front[1..], rest, separators);
      assert (front + rest)[1..] == front[1..] + rest;
      var r := Split(rest, separators);
      assert [front[0]] + (front[1..] + r[0]) == front + r[0];
    }
  }

  lemma {:induction false} SplitInvertsJoin(fields: seq<seq<Byte>>, separator: Byte, separators: set<Byte>)
    requires fields != [] && separator in separators
    requires forall k :: 0 <= k < |fields| ==> Free(fields[k], separators)
    ensures Split(Join(fields, separator), separators) == fields
    decreases |fields|
  {
    var f := fields[0];
    if |fields| == 1 {
      SplitFront(f, [], separators);
      assert f + [] == f;
    } else {
      SplitInvertsJoin(fields[1..], separator, separators);
      var rest := [separator] + Join(fields[1..], separator);
      assert rest[1..] == Join(fields[1..], separator);
      SplitFront(f, rest, separators);
      assert f + rest == Join(fields, separator);
      assert Split(rest, separators) == [[]] + fields[1..];
      assert f + [] == f;
    }
  }

  function Numbers(fields: seq<seq<Byte>>): (ps: seq<int>)
    ensures |ps| == |fields|
  {
    if fields == [] then [] else [Number(fields[0])] + Numbers(fields[1..])
  }

  // What a body means: one number per field, fields ending at ';' and at ':'
  // alike; an empty body is a single 0.
  function ParamsOf(body: seq<Byte>): seq<int> {
    if body == [] then [0] else Numbers(Split(body, {SEMICOLON, COLON}))
  }

  // Splitting at ';' and then every piece at ':'.
  function Nested(outer: seq<seq<Byte>>): seq<seq<Byte>> {
    if outer == [] then [] else Split(outer[0], {COLON}) + Nested(outer[1..])
  }

  lemma NestedPush(field: seq<Byte>, rest: seq<seq<Byte>>)
    ensures Nested([field] + rest) == Split(field, {COLON}) + Nested(rest)
  {
    assert ([field] + rest)[1..] == rest;
  }

  lemma FrontLine(b: Byte, inner: seq<seq<Byte>>, more: seq<seq<Byte>>)
    requires inner != []
    ensures ([[]] + inner) + more == [[]] + (inner + more)
    ensures ([[b] + inner[0]] + inner[1..]) + more == [[b] + (inner + more)[0]] + (inner + more)[1..]
  {
  }

  lemma SplitOfCons(b: Byte, tail: seq<Byte>)
    ensures
      var inner := Split(tail, {COLON});
      Split([b] + tail, {COLON}) == if b == COLON then [[]] + inner else [[b] + inner[0]] + inner[1..]
  {
    assert ([b] + tail)[1..] == tail;
  }

  // A byte in front of the body, seen by the outer and the inner split.
  lemma NestedOfCons(b: Byte, rest: seq<seq<Byte>>)
    requires rest != []
    ensures
      var flat := Nested(rest);
      && flat != []
      && Nested(if b == SEMICOLON then [[]] + rest else [[b] + rest[0]] + rest[1..])
           == if b == SEMICOLON || b == COLON then [[]] + flat else [[b] + flat[0]] + flat[1..]
  {
    var inner, more := Split(rest[0], {COLON}), Nested(rest[1..]);
    NestedPush(rest[0], rest[1..]);
    assert rest == [rest[0]] + rest[1..];
    if b == SEMICOLON {
      NestedPush([], rest);
      assert Split([], {COLON}) == [[]];
    } else {
      NestedPush([b] + rest[0], rest[1..]);
      SplitOfCons(b, rest[0]);
      FrontLine(b, inner, more);
    }
  }

  lemma {:induction false} NestedSplitIsFlat(body: seq<Byte>)
    ensures Nested(Split(body, {SEMICOLON})) == Split(body, {SEMICOLON, COLON})
    decreases |body|
  {
    if body == [] {
      assert Split(body, {SEMICOLON}) == [[]] + [];
      assert Nested([]) == [];
    } else {
      NestedSplitIsFlat(body[1..]);
      NestedOfCons(body[0], Split(body[1..], {SEMICOLON}));
    }
  }

  lemma NumbersOfCons(field: seq<Byte>, rest: seq<seq<Byte>>)
    ensures Numbers([field] + rest) == [Number(field)] + Numbers(rest)
  {
    assert ([field] + rest)[1..] == rest;
  }

  lemma {:induction false} NumbersConcat(a: seq<seq<Byte>>, b: seq<seq<Byte>>)
    ensures Numbers(a + b) == Numbers(a) + Numbers(b)
    decreases |a|
  {
    if a == [] {
      assert a + b == b;
    } else {
      NumbersConcat(a[1..], b);
      assert a == [a[0]] + a[1..] && a + b == [a[0]] + (a[1..] + b);
      NumbersOfCons(a[0], a[1..]);
      NumbersOfCons(a[0], a[1..] + b);
    }
  }

  lemma {:induction false} NestedConcat(a: seq<seq<Byte>>, b: seq<seq<Byte>>)
    ensures Nested(a + b) == Nested(a) + Nested(b)
    decreases |a|
  {
    if a == [] {
      assert a + b == b;
    } else {
      NestedConcat(a[1..], b);
      NestedPush(a[0], a[1..]);
      NestedPush(a[0], a[1..] + b);
      assert a == [a[0]] + a[1..];
      Regroup([a[0]], a[1..], b);
      Regroup(Split(a[0], {COLON}), Nested(a[1..]), Nested(b));
    }
  }

  method ParseParams(body: seq<Byte>) returns (ps: seq<int>)
    ensures ps == ParamsOf(body)
  {
    if body == [] {
      return [0];
    }
    ps := [];
    var outer := Split(body, {SEMICOLON});
    for i := 0 to |outer|
      invariant ps == Numbers(Nested(outer[..i]))
    {
      var inner := Split(outer[i], {COLON});
      ghost var before := ps;
      for j := 0 to |inner|
        invariant ps == before + Numbers(inner[..j])
      {
        var n := AtoiSGR(inner[j]);
        OneMore(inner, j);
        NumbersConcat(inner[..j], [inner[j]]);
        assert Numbers([inner[j]]) == [n];
        ps := ps + [n];
      }
      assert inner[..|inner|] == inner;
      OneMore(outer, i);
      NestedConcat(outer[..i], [outer[i]]);
      assert Nested([outer[i]]) == inner + Nested([]) == inner;
      NumbersConcat(Nested(outer[..i]), inner);
    }
    assert outer[..|outer|] == outer;
    NestedSplitIsFlat(body);
  }

  // ---------------------------------------------------------------------
  // Round trip with a writer
  // ---------------------------------------------------------------------

  function Digits(n: nat): (s: seq<Byte>)
    ensures s != [] && AllDigits(s) && Value(s) == n
  {
    if n < 10 then
      var s := [0x30 + n];
      assert s[..0] == [];
      s
    else
      var front := Digits(n / 10);
      var s := front + [0x30 + n % 10];
      assert s[..|s| - 1] == front;
      s
  }

  predicate Writable(ps: seq<int>) { forall k :: 0 <= k < |ps| ==> 0 <= ps[k] <= LIMIT }

  function Written(ps: seq<int>): (fields: seq<seq<Byte>>)
    requires Writable(ps)
    ensures |fields| == |ps|
    ensures forall k :: 0 <= k < |fields| ==> fields[k] != [] && AllDigits(fields[k])
  {
    if ps == [] then [] else [Digits(ps[0])] + Written(ps[1..])
  }

  function RenderBody(ps: seq<int>): seq<Byte>
    requires ps != [] && Writable(ps)
  {
    Join(Written(ps), SEMICOLON)
  }

  lemma NumberOfDigits(s: seq<Byte>)
    requires AllDigits(s) && Value(s) <= LIMIT
    ensures Number(s) == Value(s)
  {
    assert s[..|s|] == s;
  }

  lemma {:induction false} NumbersInvertWritten(ps: seq<int>)
    requires Writable(ps)
    ensures Numbers(Written(ps)) == ps
    decreases |ps|
  {
    if ps != [] {
      NumberOfDigits(Digits(ps[0]));
      NumbersInvertWritten(ps[1..]);
      assert Written(ps)[1..] == Written(ps[1..]);
    }
  }

  lemma ParamsRoundTrip(ps: seq<int>)
    requires ps != [] && Writable(ps)
    ensures RenderBody(ps) != [] && ParamsOf(RenderBody(ps)) == ps
  {
    var fields := Written(ps);
    SplitInvertsJoin(fields, SEMICOLON, {SEMICOLON, COLON});
    NumbersInvertWritten(ps);
    assert fields[0] != [];
  }

  predicate AllParameters(s: seq<Byte>) { forall k :: 0 <= k < |s| ==> IsParameterByte(s[k]) }

  lemma {:induction false} JoinIsParameterText(fields: seq<seq<Byte>>)
    requires fields != [] && forall k :: 0 <= k < |fields| ==> AllDigits(fields[k])
    ensures AllParameters(Join(fields, SEMICOLON))
    decreases |fields|
  {
    if |fields| > 1 {
      JoinIsParameterText(fields[1..]);
    }
  }

  // An SGR sequence written for any parameters, followed by any bytes, is
  // scanned as exactly that sequence and read back as exactly those parameters.
  lemma SgrRoundTrip(ps: seq<int>, rest: seq<Byte>)
    requires ps != [] && Writable(ps)
    ensures
      var body := RenderBody(ps);
      var e := EscapeOf([ESC, BRACKET] + body + [LOWER_M] + rest);
      e == Escape(|body| + 3, Some(body)) && ParamsOf(e.body.value) == ps
  {
    var body := RenderBody(ps);
    var s := [ESC, BRACKET] + body + [LOWER_M] + rest;
    JoinIsParameterText(Written(ps));
    assert forall k :: 2 <= k < 2 + |body| ==> s[k] == body[k - 2];
    ParametersEndAt(s, 2, 2 + |body|);
    assert s[2..2 + |body|] == body;
    ParamsRoundTrip(ps);
  }

  // ---------------------------------------------------------------------
  // What a body says, whatever stands in it
  // ---------------------------------------------------------------------

  // Decimal digits count as such, up to the cap; another byte makes the whole
  // field 0 unless the cap was passed before it; an empty field is 0.
  lemma FieldsAreDecimal(digits: seq<Byte>, last: Byte, rest: seq<Byte>)
    requires AllDigits(digits)
    ensures 0x30 <= last <= 0x39 ==> Value(digits + [last]) == Value(digits) * 10 + (last - 0x30)
    ensures Value([]) == 0 && Number(digits) == if Value(digits) > 1048576 then 1048576 else Value(digits)
    ensures !(0x30 <= last <= 0x39) ==> Number(digits + [last] + rest) == if Value(digits) > 1048576 then 1048576 else 0
  {
    assert (digits + [last])[..|digits|] == digits && digits[..|digits|] == digits;
    var s := digits + [last] + rest;
    assert s[..|digits|] == digits && s[|digits|] == last;
    var n := DigitPrefix(s);
    assert forall k :: 0 <= k < n ==> s[k] == s[..n][k];
    assert DigitPrefix(digits) == |digits|;
  }

  predicate AreSeparators(separators: seq<Byte>) { forall k :: 0 <= k < |separators| ==> separators[k] == 0x3b || separators[k] == 0x3a }

  // Fields with a semicolon or a colon between any two of them.
  function Woven(fields: seq<seq<Byte>>, separators: seq<Byte>): seq<Byte>
    requires |fields| == |separators| + 1
  {
    if separators == [] then fields[0] else fields[0] + [separators[0]] + Woven(fields[1..], separators[1..])
  }

  lemma {:induction false} SplitInvertsWoven(fields: seq<seq<Byte>>, separators: seq<Byte>)
    requires |fields| == |separators| + 1 && AreSeparators(separators)
    requires forall k :: 0 <= k < |fields| ==> Free(fields[k], {SEMICOLON, COLON})
    ensures Split(Woven(fields, separators), {SEMICOLON, COLON}) == fields
    decreases |fields|
  {
    var f := fields[0];
    if separators == [] {
      SplitFront(f, [], {SEMICOLON, COLON});
      assert f + [] == f && fields == [f];
    } else {
      SplitInvertsWoven(fields[1..], separators[1..]);
      var rest := [separators[0]] + Woven(fields[1..], separators[1..]);
      assert rest[1..] == Woven(fields[1..], separators[1..]);
      SplitFront(f, rest, {SEMICOLON, COLON});
      assert f + rest == Woven(fields, separators);
      assert Split(rest, {SEMICOLON, COLON}) == [[]] + fields[1..];
      assert f + [] == f;
    }
  }

  lemma {:induction false} NumbersAt(fields: seq<seq<Byte>>)
    ensures forall k :: 0 <= k < |fields| ==> Numbers(fields)[k] == Number(fields[k])
    decreases |fields|
  {
    if fields != [] {
      NumbersAt(fields[1..]);
      assert forall k :: 0 < k < |fields| ==> Numbers(fields)[k] == Numbers(fields[1..])[k - 1];
    }
  }

  // A body says one number per field, whichever separators stand between them,
  // fields without a number included; the empty body says a single 0.
  lemma BodySaysItsFields(fields: seq<seq<Byte>>, separators: seq<Byte>)
    requires |fields| == |separators| + 1 && AreSeparators(separators)
    requires forall k :: 0 <= k < |fields| ==> Free(fields[k], {0x3b, 0x3a})
    ensures |ParamsOf(Woven(fields, separators))| == |fields|
    ensures forall k :: 0 <= k < |fields| ==> ParamsOf(Woven(fields, separators))[k] == Number(fields[k])
    ensures ParamsOf([]) == [0]
  {
    SplitInvertsWoven(fields, separators);
    NumbersAt(fields);
    assert Number([]) == 0;
  }
}
