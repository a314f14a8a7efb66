// The byte-level escape scanner of cmd/tuidbg/sgr.go and the stripper built on it.
module Escapes {
  import opened Prelude

  const ESC: Byte := 0x1b
  const BEL: Byte := 0x07
  const BRACKET: Byte := 0x5b       // '['
  const CLOSE_BRACKET: Byte := 0x5d // ']'
  const BACKSLASH: Byte := 0x5c
  const LOWER_M: Byte := 0x6d

  // The bytes the source lists one by one: digits ; : < = > ?
  predicate IsParameterByte(b: Byte) {
    0x30 <= b <= 0x39 || b == 0x3b || b == 0x3a || b == 0x3f || b == 0x3c || b == 0x3d || b == 0x3e
  }

  // One scanned escape: how many bytes it takes and, for an SGR sequence, its
  // parameter body.
  datatype Escape = Escape(length: nat, body: Option<seq<Byte>>)

  // ---------------------------------------------------------------------
  // Where an escape ends
  // ---------------------------------------------------------------------

  function ParametersEnd(s: seq<Byte>, from: nat): (end: nat)
    requires from <= |s|
    ensures from <= end <= |s|
    ensures forall k :: from <= k < end ==> IsParameterByte(s[k])
    ensures end < |s| ==> !IsParameterByte(s[end])
    decreases |s| - from
  {
    if from < |s| && IsParameterByte(s[from]) then ParametersEnd(s, from + 1) else from
  }

  predicate EndsOsc(s: seq<Byte>, k: nat)
    requires k < |s|
  {
    s[k] == BEL || (s[k] == ESC && k + 1 < |s| && s[k + 1] == BACKSLASH)
  }

  // The first terminator at or after from, or |s| when there is none.
  function OscTerminator(s: seq<Byte>, from: nat): (at: nat)
    requires from <= |s|
    ensures from <= at <= |s|
    ensures forall k :: from <= k < at ==> !EndsOsc(s, k)
    ensures at < |s| ==> EndsOsc(s, at)
    decreases |s| - from
  {
    if from < |s| && !EndsOsc(s, from) then OscTerminator(s, from + 1) else from
  }

  // The escape at the front of s.
  function EscapeOf(s: seq<Byte>): (e: Escape)
    requires s != []
    ensures 1 <= e.length <= |s|
    ensures e.body.Some? ==>
      && 3 <= e.length && s[1] == BRACKET && s[e.length - 1] == LOWER_M
      && e.body.value == s[2..e.length - 1]
      && (forall b :: b in e.body.value ==> IsParameterByte(b))
  {
    if |s| < 2 then Escape(|s|, None)
    else if s[1] == BRACKET then
      var end := ParametersEnd(s, 2);
      if end == |s| then Escape(|s|, None)
      else if s[end] != LOWER_M then Escape(end + 1, None)
      else Escape(end + 1, Some(s[2..end]))
    else if s[1] == CLOSE_BRACKET then
      var at := OscTerminator(s, 2);
      if at == |s| then Escape(|s|, None)
      else Escape(if s[at] == BEL then at + 1 else at + 2, None)
    else Escape(2, None)
  }

  method ScanEscape(s: seq<Byte>) returns (e: Escape)
    requires s != []
    ensures e == EscapeOf(s)
  {
    if |s| < 2 {
      return Escape(|s|, None);
    }
    if s[1] == BRACKET {
      var i := 2;
      while i < |s| && IsParameterByte(s[i])
        invariant 2 <= i <= |s|
        invariant ParametersEnd(s, 2) == ParametersEnd(s, i)
      {
        i := i + 1;
      }
      if i >= |s| {
        return Escape(|s|, None);
      }
      var final := s[i];
      var body := s[2..i];
      i := i + 1;
      if final != LOWER_M {
        return Escape(i, None);
      }
      return Escape(i, Some(body));
    } else if s[1] == CLOSE_BRACKET {
      var i := 2;
      while i < |s|
        invariant 2 <= i <= |s|
        invariant OscTerminator(s, 2) == OscTerminator(s, i)
      {
        if s[i] == BEL {
          return Escape(i + 1, None);
        }
        if s[i] == ESC && i + 1 < |s| && s[i + 1] == BACKSLASH {
          return Escape(i + 2, None);
        }
        i := i + 1;
      }
      return Escape(|s|, None);
    } else {
      return Escape(2, None);
    }
  }

  // ---------------------------------------------------------------------
  // Stripping
  // ---------------------------------------------------------------------

  function Stripped(s: seq<Byte>): (t: seq<Byte>)
    decreases |s|
  {
    if s == [] then []
    else if s[0] == ESC then Stripped(s[EscapeOf(s).length..])
    else [s[0]] + Stripped(s[1..])
  }

  method StripSGR(s: seq<Byte>) returns (b: seq<Byte>)
    ensures b == Stripped(s)
  {
    b := [];
    var i := 0;
    while i < |s|
      invariant 0 <= i <= |s|
      invariant b + Stripped(s[i..]) == Stripped(s)
    {
      if s[i] == ESC {
        var e := ScanEscape(s[i..]);
        assert s[i..][e.length..] == s[i + e.length..];
        i := i + e.length;
      } else {
        assert s[i..][1..] == s[i + 1..];
        b := b + [s[i]];
        i := i + 1;
      }
    }
  }

  lemma {:induction false} StripRemovesEscapes(s: seq<Byte>)
    ensures ESC !in Stripped(s) && |Stripped(s)| <= |s|
    decreases |s|
  {
    if s != [] {
      if s[0] == ESC {
        StripRemovesEscapes(s[EscapeOf(s).length..]);
      } else {
        StripRemovesEscapes(s[1..]);
      }
    }
  }

  // Text without escapes in front is kept as it is.
  lemma {:induction false} StripKeepsPlainText(plain: seq<Byte>, rest: seq<Byte>)
    requires ESC !in plain
    ensures Stripped(plain + rest) == plain + Stripped(rest)
    decreases |plain|
  {
    if plain == [] {
      assert plain + rest == rest;
    } else {
      StripKeepsPlainText(plain[1..], rest);
      assert (plain + rest)[1..] == plain[1..] + rest;
    }
  }

  lemma StripIsIdempotent(s: seq<Byte>)
    ensures Stripped(Stripped(s)) == Stripped(s)
  {
    StripRemovesEscapes(s);
    StripKeepsPlainText(Stripped(s), []);
    assert Stripped(s) + [] == Stripped(s);
  }

  // Stripping is nothing but deletion: the result is s without the bytes of
  // the scanned escapes, so a string changes exactly when it contains ESC.
  lemma StripChangesOnlyEscapes(s: seq<Byte>)
    ensures Stripped(s) == s <==> ESC !in s
  {
    StripRemovesEscapes(s);
    if ESC !in s {
      StripKeepsPlainText(s, []);
      assert s + [] == s;
    }
  }

  // ---------------------------------------------------------------------
  // Whole escapes in front of text are taken away, and nothing of the text
  // ---------------------------------------------------------------------

  lemma StripsFront(s: seq<Byte>, n: nat)
    requires s != [] && s[0] == ESC && EscapeOf(s).length == n
    ensures Stripped(s) == Stripped(s[n..])
  {
  }

  lemma {:induction false} ParametersEndAt(s: seq<Byte>, from: nat, end: nat)
    requires from <= end <= |s| && (end < |s| ==> !IsParameterByte(s[end]))
    requires forall k :: from <= k < end ==> IsParameterByte(s[k])
    ensures ParametersEnd(s, from) == end
    decreases end - from
  {
    if from < end {
      ParametersEndAt(s, from + 1, end);
    }
  }

  // ESC [, bytes from 0x30 to 0x3f, and the first other byte; without that
  // byte, everything.
  lemma CsiIsTakenWhole(body: seq<Byte>, final: Byte, text: seq<Byte>)
    requires forall k :: 0 <= k < |body| ==> 0x30 <= body[k] <= 0x3f
    requires !(0x30 <= final <= 0x3f)
    ensures
      var s := [0x1b, 0x5b] + body + [final] + text;
      && EscapeOf(s) == Escape(|body| + 3, if final == 0x6d then Some(body) else None)
      && Stripped(s) == Stripped(text)
    ensures EscapeOf([0x1b, 0x5b] + body) == Escape(|body| + 2, None) && Stripped([0x1b, 0x5b] + body) == []
  {
    var s, cut := [0x1b, 0x5b] + body + [final] + text, [0x1b, 0x5b] + body;
    ParametersEndAt(s, 2, 2 + |body|);
    ParametersEndAt(cut, 2, 2 + |body|);
    assert s[2..2 + |body|] == body && s[|body| + 3..] == text;
    assert cut[|cut|..] == [];
    StripsFront(s, |body| + 3);
    StripsFront(cut, |cut|);
  }

  // No BEL and no ESC backslash in the bytes of an OSC.
  ghost predicate IsOscBody(body: seq<Byte>) {
    forall k :: 0 <= k < |body| ==> body[k] != 0x07 && (k + 1 < |body| && body[k] == 0x1b ==> body[k + 1] != 0x5c)
  }

  lemma {:induction false} OscTerminatorAt(s: seq<Byte>, from: nat, at: nat)
    requires from <= at <= |s| && (at < |s| ==> EndsOsc(s, at))
    requires forall k :: from <= k < at ==> !EndsOsc(s, k)
    ensures OscTerminator(s, from) == at
    decreases at - from
  {
    if from < at {
      OscTerminatorAt(s, from + 1, at);
    }
  }

  // ESC ], the body, and BEL or ESC backslash; without an end, everything.
  lemma OscIsTakenWhole(body: seq<Byte>, text: seq<Byte>)
    requires IsOscBody(body)
    ensures Stripped([0x1b, 0x5d] + body + [0x07] + text) == Stripped(text)
    ensures Stripped([0x1b, 0x5d] + body + [0x1b, 0x5c] + text) == Stripped(text)
    ensures Stripped([0x1b, 0x5d] + body) == []
  {
    var bel, st, cut := [0x1b, 0x5d] + body + [0x07] + text, [0x1b, 0x5d] + body + [0x1b, 0x5c] + text, [0x1b, 0x5d] + body;
    assert forall k :: 2 <= k < 2 + |body| ==> bel[k] == body[k - 2] && st[k] == body[k - 2] && cut[k] == body[k - 2];
    OscTerminatorAt(bel, 2, 2 + |body|);
    OscTerminatorAt(st, 2, 2 + |body|);
    OscTerminatorAt(cut, 2, 2 + |body|);
    assert bel[|body| + 3..] == text && st[|body| + 4..] == text && cut[|cut|..] == [];
    StripsFront(bel, |body| + 3);
    StripsFront(st, |body| + 4);
    StripsFront(cut, |cut|);
  }

  // ESC and any other byte are taken together; a last ESC alone.
  lemma ShortEscapeIsTakenWhole(b: Byte, text: seq<Byte>)
    requires b != 0x5b && b != 0x5d
    ensures Stripped([0x1b, b] + text) == Stripped(text) && Stripped([0x1b]) == []
  {
    StripsFront([0x1b, b] + text, 2);
    assert ([0x1b, b] + text)[2..] == text;
    StripsFront([0x1b], 1);
  }
}
