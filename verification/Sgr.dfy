// SGR parameters and the pen of cmd/tuidbg/sgr.go.
module Sgr {
  import opened Prelude

  // ---------------------------------------------------------------------
  // Colours and the pen
  // ---------------------------------------------------------------------

  datatype Colour = Colour(r: Byte, g: Byte, b: Byte)

  const DEFAULT_FG := Colour(0xd4, 0xd4, 0xd4)
  const DEFAULT_BG := Colour(0x1e, 0x1e, 0x1e)

  const ANSI16: seq<Colour> := [
    Colour(0x00, 0x00, 0x00), Colour(0xcd, 0x00, 0x00), Colour(0x00, 0xcd, 0x00), Colour(0xcd, 0xcd, 0x00),
    Colour(0x00, 0x00, 0xee), Colour(0xcd, 0x00, 0xcd), Colour(0x00, 0xcd, 0xcd), Colour(0xe5, 0xe5, 0xe5),
    Colour(0x7f, 0x7f, 0x7f), Colour(0xff, 0x00, 0x00), Colour(0x00, 0xff, 0x00), Colour(0xff, 0xff, 0x00),
    Colour(0x5c, 0x5c, 0xff), Colour(0xff, 0x00, 0xff), Colour(0x00, 0xff, 0xff), Colour(0xff, 0xff, 0xff)]

  function Level(i: nat): Byte
    requires i < 6
  {
    if i == 0 then 0 else 55 + 40 * i
  }

  // 16 named colours, a 6x6x6 cube with red outermost, 24 greys.
  function Palette(n: int): Colour
    requires 0 <= n < 256
  {
    if n < 16 then ANSI16[n]
    else if n < 232 then Colour(Level((n - 16) / 36), Level((n - 16) / 6 % 6), Level((n - 16) % 6))
    else
      var v: Byte := 8 + 10 * (n - 232);
      Colour(v, v, v)
  }

  // None is "not set": the defaults enter only when the pen is resolved.
  datatype Pen = Pen(fg: Option<Colour>, bg: Option<Colour>, bold: bool, reverse: bool)
  {
    function Resolve(): (Colour, Colour) {
      var f := if fg.Some? then fg.value else DEFAULT_FG;
      var b := if bg.Some? then bg.value else DEFAULT_BG;
      if reverse then (b, f) else (f, b)
    }
  }

  const PLAIN := Pen(None, None, false, false)

  // ---------------------------------------------------------------------
  // Declarative reading: a parameter list is a list of tokens
  // ---------------------------------------------------------------------

  datatype Code =
    | Reset
    | Bold(on: bool)
    | Reverse(on: bool)
    | Fore(fg: Option<Colour>)
    | Back(bg: Option<Colour>)
    | Ignored

  predicate InByte(v: int) { 0 <= v <= 255 }

  predicate Extends(p: int) { p == 38 || p == 48 }

  function Paint(p: int, c: Colour): Code { if p == 38 then Fore(Some(c)) else Back(Some(c)) }

  function SimpleCode(p: int): Code {
    if p == 0 then Reset
    else if p == 1 then Bold(true)
    else if p == 7 then Reverse(true)
    else if p == 21 || p == 22 then Bold(false)
    else if p == 27 then Reverse(false)
    else if p == 39 then Fore(None)
    else if p == 49 then Back(None)
    else if 30 <= p <= 37 then Fore(Some(Palette(p - 30)))
    else if 90 <= p <= 97 then Fore(Some(Palette(p - 90 + 8)))
    else if 40 <= p <= 47 then Back(Some(Palette(p - 40)))
    else if 100 <= p <= 107 then Back(Some(Palette(p - 100 + 8)))
    else Ignored
  }

  // The number of parameters the first token takes, the leading 38/48 included.
  function Span(ps: seq<int>): (n: nat)
    requires ps != []
    ensures 1 <= n <= |ps|
  {
    if !Extends(ps[0]) || |ps| == 1 then 1
    else if ps[1] == 5 then if |ps| < 3 then |ps| else 3
    else if ps[1] == 2 then if |ps| < 5 then |ps| else 5
    else 1
  }

  // The extended sequence at the front is cut off by the end of the list.
  predicate Cut(ps: seq<int>)
    requires ps != []
  {
    Extends(ps[0]) && (|ps| == 1 || (ps[1] == 5 && |ps| < 3) || (ps[1] == 2 && |ps| < 5))
  }

  function Meaning(ps: seq<int>): Code
    requires ps != []
  {
    if !Extends(ps[0]) then SimpleCode(ps[0])
    else if Cut(ps) then Ignored
    else if ps[1] == 5 && InByte(ps[2]) then Paint(ps[0], Palette(ps[2]))
    else if ps[1] == 2 && InByte(ps[2]) && InByte(ps[3]) && InByte(ps[4]) then Paint(ps[0], Colour(ps[2], ps[3], ps[4]))
    else Ignored
  }

  function Codes(ps: seq<int>): seq<Code>
    decreases |ps|
  {
    if ps == [] then [] else [Meaning(ps)] + Codes(ps[Span(ps)..])
  }

  function Draw(pen: Pen, code: Code): Pen {
    match code
    case Reset => PLAIN
    case Bold(on) => pen.(bold := on)
    case Reverse(on) => pen.(reverse := on)
    case Fore(c) => pen.(fg := c)
    case Back(c) => pen.(bg := c)
    case Ignored => pen
  }

  function DrawAll(pen: Pen, codes: seq<Code>): Pen
    decreases |codes|
  {
    if codes == [] then pen else DrawAll(Draw(pen, codes[0]), codes[1..])
  }

  function Applied(pen: Pen, ps: seq<int>): Pen { DrawAll(pen, Codes(ps)) }

  // ---------------------------------------------------------------------
  // The source's loop
  // ---------------------------------------------------------------------

  function ParseExtendedColour(ps: seq<int>): (r: (nat, Option<Colour>))
    requires ps != [] && Extends(ps[0])
    ensures r.0 == Span(ps)
    ensures Meaning(ps) == if r.1.Some? then Paint(ps[0], r.1.value) else Ignored
  {
    if |ps| < 2 then (1, None)
    else if ps[1] == 5 then
      if |ps| < 3 then (|ps|, None)
      else if 0 <= ps[2] < 256 then (3, Some(Palette(ps[2])))
      else (3, None)
    else if ps[1] == 2 then
      if |ps| < 5 then (|ps|, None)
      else if InByte(ps[2]) && InByte(ps[3]) && InByte(ps[4]) then (5, Some(Colour(ps[2], ps[3], ps[4])))
      else (5, None)
    else (1, None)
  }

  // The in-place update of the pen is the out-parameter.
  method ApplySGR(pen: Pen, ps: seq<int>) returns (state: Pen)
    ensures state == Applied(pen, ps)
  {
    state := pen;
    var i := 0;
    while i < |ps|
      invariant 0 <= i <= |ps|
      invariant Applied(state, ps[i..]) == Applied(pen, ps)
    {
      var p := ps[i];
      var rest := ps[i..];
      ghost var before := state;
      var step := 1;
      if p == 38 || p == 48 {
        var (consumed, c) := ParseExtendedColour(rest);
        if c.Some? {
          if p == 38 {
            state := state.(fg := c);
          } else {
            state := state.(bg := c);
          }
        }
        step := consumed;
      } else if p == 0 {
        state := PLAIN;
      } else if p == 1 {
        state := state.(bold := true);
      } else if p == 7 {
        state := state.(reverse := true);
      } else if p == 21 || p == 22 {
        state := state.(bold := false);
      } else if p == 27 {
        state := state.(reverse := false);
      } else if p == 39 {
        state := state.(fg := None);
      } else if p == 49 {
        state := state.(bg := None);
      } else if 30 <= p <= 37 {
        state := state.(fg := Some(ANSI16[p - 30]));
      } else if 90 <= p <= 97 {
        state := state.(fg := Some(ANSI16[p - 90 + 8]));
      } else if 40 <= p <= 47 {
        state := state.(bg := Some(ANSI16[p - 40]));
      } else if 100 <= p <= 107 {
        state := state.(bg := Some(ANSI16[p - 100 + 8]));
      }
      assert state == Draw(before, Meaning(rest)) && step == Span(rest);
      assert rest[step..] == ps[i + step..];
      assert Codes(rest)[1..] == Codes(ps[i + step..]);
      i := i + step;
    }
  }

  // ---------------------------------------------------------------------
  // Homomorphism, and exactly when it holds
  // ---------------------------------------------------------------------

  // The last token of the list is a truncated extended sequence.
  predicate EndsTruncated(ps: seq<int>)
    decreases |ps|
  {
    ps != [] && (Cut(ps) || EndsTruncated(ps[Span(ps)..]))
  }

  lemma {:induction false} DrawAllConcat(pen: Pen, a: seq<Code>, b: seq<Code>)
    ensures DrawAll(pen, a + b) == DrawAll(DrawAll(pen, a), b)
    decreases |a|
  {
    if a == [] {
      assert a + b == b;
    } else {
      DrawAllConcat(Draw(pen, a[0]), a[1..], b);
      assert (a + b)[1..] == a[1..] + b;
    }
  }

  // One token of a parameter list.
  lemma AppliedStep(pen: Pen, ps: seq<int>)
    requires ps != []
    ensures Applied(pen, ps) == Applied(Draw(pen, Meaning(ps)), ps[Span(ps)..])
  {
    assert Codes(ps)[1..] == Codes(ps[Span(ps)..]);
  }

  lemma CutFreeFront(a: seq<int>, b: seq<int>)
    requires a != [] && !Cut(a)
    ensures Span(a + b) == Span(a) && Meaning(a + b) == Meaning(a)
    ensures (a + b)[Span(a)..] == a[Span(a)..] + b
  {
    assert forall k :: 0 <= k < |a| ==> (a + b)[k] == a[k];
  }

  lemma {:induction false} CodesConcat(a: seq<int>, b: seq<int>)
    requires !EndsTruncated(a)
    ensures Codes(a + b) == Codes(a) + Codes(b)
    decreases |a|
  {
    if a == [] {
      assert a + b == b;
    } else {
      CutFreeFront(a, b);
      CodesConcat(a[Span(a)..], b);
    }
  }

  lemma AppliedConcat(pen: Pen, a: seq<int>, b: seq<int>)
    requires !EndsTruncated(a)
    ensures Applied(pen, a + b) == Applied(Applied(pen, a), b)
  {
    CodesConcat(a, b);
    DrawAllConcat(pen, Codes(a), Codes(b));
  }

  lemma WholeToken(pen: Pen, a: seq<int>)
    requires a != [] && Span(a) == |a|
    ensures Applied(pen, a) == Draw(pen, Meaning(a))
  {
    AppliedStep(pen, a);
    assert a[|a|..] == [];
  }

  function Repeat(p: int, n: nat): (r: seq<int>)
    ensures |r| == n && forall k :: 0 <= k < n ==> r[k] == p
  {
    if n == 0 then [] else [p] + Repeat(p, n - 1)
  }

  lemma {:induction false} RepeatReads(pen: Pen, p: int, n: nat)
    requires (p == 0 || p == 1) && n > 0
    ensures Applied(pen, Repeat(p, n)) == if p == 0 then PLAIN else pen.(bold := true)
    decreases n
  {
    var r := Repeat(p, n);
    AppliedStep(pen, r);
    assert r[1..] == Repeat(p, n - 1);
    if n > 1 {
      RepeatReads(Draw(pen, Meaning(r)), p, n - 1);
    }
  }

  lemma CutSwallows(pen: Pen, a: seq<int>) returns (b: seq<int>)
    requires a != [] && Cut(a)
    ensures Applied(pen, a + b) != Applied(Applied(pen, a), b)
  {
    WholeToken(pen, a);
    if |a| == 1 {
      b := [5, 0];
      WholeToken(pen, a + b);
      AppliedStep(pen, b);
      assert b[1..] == [0];
      WholeToken(pen, [0]);
    } else if a[1] == 5 {
      b := [0];
      WholeToken(pen, a + b);
      WholeToken(pen, b);
    } else {
      b := Repeat(0, 5 - |a|);
      WholeToken(pen, a + b);
      RepeatReads(pen, 0, 5 - |a|);
      if Applied(pen, a + b) == PLAIN {
        b := Repeat(1, 5 - |a|);
        WholeToken(pen, a + b);
        RepeatReads(pen, 1, 5 - |a|);
      }
    }
  }

  // A truncated end always can be told apart: what follows is swallowed by the
  // open sequence when the lists are joined, and read on its own when not.
  lemma {:induction false} TruncatedEndSwallows(pen: Pen, a: seq<int>) returns (b: seq<int>)
    requires EndsTruncated(a)
    ensures Applied(pen, a + b) != Applied(Applied(pen, a), b)
    decreases |a|
  {
    if Cut(a) {
      b := CutSwallows(pen, a);
    } else {
      var n := Span(a);
      var tail := a[n..];
      b := TruncatedEndSwallows(Draw(pen, Meaning(a)), tail);
      CutFreeFront(a, b);
      AppliedStep(pen, a);
      AppliedStep(pen, a + b);
    }
  }

  ghost predicate Splits(a: seq<int>) {
    forall pen, b :: Applied(pen, a + b) == Applied(Applied(pen, a), b)
  }

  // Applying two lists one after the other equals applying the joined list, for
  // every pen and every continuation, exactly when the first list does not end
  // in a truncated extended sequence.
  lemma SplitsIffNotTruncated(a: seq<int>)
    ensures Splits(a) <==> !EndsTruncated(a)
  {
    if EndsTruncated(a) {
      var b := TruncatedEndSwallows(PLAIN, a);
      assert Applied(PLAIN, a + b) != Applied(Applied(PLAIN, a), b);
    } else {
      forall pen, b
        ensures Applied(pen, a + b) == Applied(Applied(pen, a), b)
      {
        AppliedConcat(pen, a, b);
      }
    }
  }

  // ---------------------------------------------------------------------
  // What each code does to each field of the pen
  // ---------------------------------------------------------------------

  // One parameter on its own, field by field.
  lemma OneCode(pen: Pen, p: int)
    ensures
      var after := Applied(pen, [p]);
      && after.bold == (p == 1 || (pen.bold && p != 0 && p != 21 && p != 22))
      && after.reverse == (p == 7 || (pen.reverse && p != 0 && p != 27))
      && after.fg == (if 30 <= p <= 37 then Some(Palette(p - 30))
                      else if 90 <= p <= 97 then Some(Palette(p - 82))
                      else if p == 0 || p == 39 then None else pen.fg)
      && after.bg == (if 40 <= p <= 47 then Some(Palette(p - 40))
                      else if 100 <= p <= 107 then Some(Palette(p - 92))
                      else if p == 0 || p == 49 then None else pen.bg)
  {
    WholeToken(pen, [p]);
  }

  // A palette index or a true colour goes to the foreground after 38 and to the
  // background after 48, unless a number is out of range; then the sequence is
  // skipped as a whole.
  lemma ExtendedCode(pen: Pen, p: int, r: int, g: int, b: int)
    requires p == 38 || p == 48
    ensures Applied(pen, [p, 5, r]) ==
      if !(0 <= r <= 255) then pen
      else if p == 38 then pen.(fg := Some(Palette(r))) else pen.(bg := Some(Palette(r)))
    ensures Applied(pen, [p, 2, r, g, b]) ==
      if !(0 <= r <= 255 && 0 <= g <= 255 && 0 <= b <= 255) then pen
      else if p == 38 then pen.(fg := Some(Colour(r, g, b))) else pen.(bg := Some(Colour(r, g, b)))
  {
    WholeToken(pen, [p, 5, r]);
    WholeToken(pen, [p, 2, r, g, b]);
  }

  // A sequence the list cuts off is skipped up to the end; of one with another
  // selector only the 38 or 48 itself is.
  lemma UnreadableExtendedCode(pen: Pen, p: int, rest: seq<int>)
    requires p == 38 || p == 48
    ensures rest == [] || (rest[0] == 5 && |rest| < 2) || (rest[0] == 2 && |rest| < 4) ==> Applied(pen, [p] + rest) == pen
    ensures rest != [] && rest[0] != 5 && rest[0] != 2 ==> Applied(pen, [p] + rest) == Applied(pen, rest)
  {
    AppliedStep(pen, [p] + rest);
    assert ([p] + rest)[1..] == rest && ([p] + rest)[|rest| + 1..] == [];
  }

  // A colour written as 0xRRGGBB.
  function Rgb(n: nat): Colour
    requires n < 0x100_0000
  {
    Colour(n / 0x1_0000, n / 0x100 % 0x100, n % 0x100)
  }

  // The palette: sixteen named colours, a cube with red outermost whose steps
  // are 0, 95, 135, 175, 215 and 255, and greys from 8 in steps of ten.
  lemma NamedColours()
    ensures seq(16, k requires 0 <= k < 16 => Palette(k)) ==
      [Rgb(0x000000), Rgb(0xcd0000), Rgb(0x00cd00), Rgb(0xcdcd00), Rgb(0x0000ee), Rgb(0xcd00cd), Rgb(0x00cdcd), Rgb(0xe5e5e5),
       Rgb(0x7f7f7f), Rgb(0xff0000), Rgb(0x00ff00), Rgb(0xffff00), Rgb(0x5c5cff), Rgb(0xff00ff), Rgb(0x00ffff), Rgb(0xffffff)]
  {
  }

  lemma CubeColours(r: nat, g: nat, b: nat)
    requires r < 6 && g < 6 && b < 6
    ensures
      var steps: seq<Byte> := [0, 95, 135, 175, 215, 255];
      Palette(16 + 36 * r + 6 * g + b) == Colour(steps[r], steps[g], steps[b])
  {
    var n := 36 * r + 6 * g + b;
    assert n / 36 == r && n / 6 == 6 * r + g && n % 6 == b;
    assert n / 6 % 6 == g;
  }

  lemma Greys(k: nat)
    requires k < 24
    ensures Palette(232 + k) == Colour(8 + 10 * k, 8 + 10 * k, 8 + 10 * k)
  {
  }

  // What is painted: the pen's colours, light grey on near black where it has
  // none, changed round in reverse.
  lemma ResolvedColours(pen: Pen)
    ensures
      var fg, bg := if pen.fg.Some? then pen.fg.value else Rgb(0xd4d4d4), if pen.bg.Some? then pen.bg.value else Rgb(0x1e1e1e);
      pen.Resolve() == if pen.reverse then (bg, fg) else (fg, bg)
  {
  }

  // ---------------------------------------------------------------------
  // Spans and resets
  // ---------------------------------------------------------------------

  function Spans(ps: seq<int>): seq<nat>
    decreases |ps|
  {
    if ps == [] then [] else [Span(ps)] + Spans(ps[Span(ps)..])
  }

  function Sum(ns: seq<nat>): nat { if ns == [] then 0 else ns[0] + Sum(ns[1..]) }

  // Every parameter belongs to exactly one token.
  lemma {:induction false} SpansCover(ps: seq<int>)
    ensures |Spans(ps)| == |Codes(ps)| && Sum(Spans(ps)) == |ps|
    decreases |ps|
  {
    if ps != [] {
      SpansCover(ps[Span(ps)..]);
      assert Spans(ps)[1..] == Spans(ps[Span(ps)..]);
    }
  }

  function AfterLastReset(codes: seq<Code>): seq<Code>
    decreases |codes|
  {
    if Reset !in codes then codes else AfterLastReset(codes[1..])
  }

  // Only what follows the last reset token matters, whatever the pen was.
  lemma {:induction false} ResetForgets(pen: Pen, codes: seq<Code>)
    requires Reset in codes
    ensures DrawAll(pen, codes) == DrawAll(PLAIN, AfterLastReset(codes))
    ensures Reset !in AfterLastReset(codes)
    decreases |codes|
  {
    if Reset in codes[1..] {
      ResetForgets(Draw(pen, codes[0]), codes[1..]);
    } else {
      assert codes[0] == Reset;
      assert AfterLastReset(codes) == codes[1..];
    }
  }
}
