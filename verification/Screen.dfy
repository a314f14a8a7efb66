// parseANSI of cmd/tuidbg/sgr.go: from captured bytes to rows of coloured
// cells, and its agreement with the stripper.
module Screen {
  import opened Prelude
  import opened Escapes
  import opened Sgr
  import opened Params

  // ---------------------------------------------------------------------
  // UTF-8, section 3 and 4 of RFC 3629
  // ---------------------------------------------------------------------

  const RUNE_ERROR := 0xfffd

  // Bytes of the sequence a lead byte opens; 0 when it cannot lead.
  function Need(b: Byte): nat {
    if b < 0x80 then 1
    else if 0xc2 <= b <= 0xdf then 2
    else if 0xe0 <= b <= 0xef then 3
    else if 0xf0 <= b <= 0xf4 then 4
    else 0
  }

  predicate IsTail(b: Byte) { 0x80 <= b <= 0xbf }

  predicate IsSecond(lead: Byte, b: Byte) {
    && IsTail(b)
    && (lead == 0xe0 ==> 0xa0 <= b)
    && (lead == 0xed ==> b <= 0x9f)
    && (lead == 0xf0 ==> 0x90 <= b)
    && (lead == 0xf4 ==> b <= 0x8f)
  }

  // s starts with a whole encoded character.
  predicate Whole(s: seq<Byte>) {
    && s != []
    && 0 < Need(s[0]) <= |s|
    && (Need(s[0]) >= 2 ==> IsSecond(s[0], s[1]))
    && (Need(s[0]) >= 3 ==> IsTail(s[2]))
    && (Need(s[0]) == 4 ==> IsTail(s[3]))
  }

  function Rune(s: seq<Byte>): int
    requires Whole(s)
  {
    match Need(s[0])
    case 1 => s[0]
    case 2 => (s[0] as int - 0xc0) * 64 + (s[1] - 0x80)
    case 3 => (s[0] as int - 0xe0) * 4096 + (s[1] as int - 0x80) * 64 + (s[2] - 0x80)
    case _ => (s[0] as int - 0xf0) * 262144 + (s[1] as int - 0x80) * 4096 + (s[2] as int - 0x80) * 64 + (s[3] - 0x80)
  }

  // A malformed front is an error of one byte.
  function Decode(s: seq<Byte>): (d: (int, nat))
    requires s != []
    ensures 1 <= d.1 <= |s|
  {
    if Whole(s) then (Rune(s), Need(s[0])) else (RUNE_ERROR, 1)
  }

  predicate Utf8(s: seq<Byte>)
    decreases |s|
  {
    s == [] || (Whole(s) && Utf8(s[Need(s[0])..]))
  }

  // ---------------------------------------------------------------------
  // What a screen shows
  // ---------------------------------------------------------------------

  // The width table is a parameter.
  type Width = x: int | 0 <= x <= 2

  datatype Cell = Cell(rune: int, fg: Colour, bg: Colour, bold: bool, width: Width)

  datatype Item = NewLine | Glyph(cell: Cell)

  function Update(pen: Pen, e: Escape): Pen {
    if e.body.Some? then Applied(pen, ParamsOf(e.body.value)) else pen
  }

  predicate Shown(rune: int, size: nat, width: int -> Width) {
    && !(rune == RUNE_ERROR && size == 1)
    && rune >= 0x20 && rune != 0x7f
    && width(rune) != 0
  }

  function NewCell(rune: int, pen: Pen, width: int -> Width): Cell {
    Cell(rune, pen.Resolve().0, pen.Resolve().1, pen.bold, width(rune))
  }

  // The newlines and the printed characters of s, in order.
  function Items(s: seq<Byte>, pen: Pen, width: int -> Width): seq<Item>
    decreases |s|
  {
    if s == [] then []
    else if s[0] == ESC then
      var e := EscapeOf(s);
      Items(s[e.length..], Update(pen, e), width)
    else
      var (rune, size) := Decode(s);
      var rest := Items(s[size..], pen, width);
      if rune == 0x0a then [NewLine] + rest
      else if Shown(rune, size, width) then [Glyph(NewCell(rune, pen, width))] + rest
      else rest
  }

  // A wide character brings its continuation cell.
  function Cells(c: Cell): seq<Cell> {
    if c.width == 2 then [c, c.(rune := 0, width := 0)] else [c]
  }

  function Rows(items: seq<Item>, row: seq<Cell>): seq<seq<Cell>>
    decreases |items|
  {
    if items == [] then if row == [] then [] else [row]
    else if items[0].NewLine? then [row] + Rows(items[1..], [])
    else Rows(items[1..], row + Cells(items[0].cell))
  }

  function Grid(s: seq<Byte>, width: int -> Width): seq<seq<Cell>> { Rows(Items(s, PLAIN, width), []) }

  lemma RowsStep(s: seq<Byte>, pen: Pen, width: int -> Width, row: seq<Cell>)
    requires s != [] && s[0] != ESC
    ensures
      var (rune, size) := Decode(s);
      var rest := Items(s[size..], pen, width);
      Rows(Items(s, pen, width), row) ==
        if rune == 0x0a then [row] + Rows(rest, [])
        else if Shown(rune, size, width) then Rows(rest, row + Cells(NewCell(rune, pen, width)))
        else Rows(rest, row)
  {
    var (rune, size) := Decode(s);
    if rune == 0x0a || Shown(rune, size, width) {
      assert Items(s, pen, width)[1..] == Items(s[size..], pen, width);
    }
  }

  // One decoded character: how many bytes it took, whether it ended the row,
  // and the row being filled afterwards.
  method Print(s: seq<Byte>, pen: Pen, row: seq<Cell>, width: int -> Width)
    returns (size: nat, flush: bool, next: seq<Cell>)
    requires s != [] && s[0] != ESC
    ensures 1 <= size <= |s|
    ensures Rows(Items(s, pen, width), row) ==
      (if flush then [row] else []) + Rows(Items(s[size..], pen, width), next)
  {
    RowsStep(s, pen, width, row);
    var (r, n) := Decode(s);
    size, flush, next := n, false, row;
    if r == 0x0a {
      flush, next := true, [];
    } else if r == RUNE_ERROR && n == 1 {
    } else if r < 0x20 || r == 0x7f {
    } else {
      var w := width(r);
      if w != 0 {
        var (fg, bg) := pen.Resolve();
        next := next + [Cell(r, fg, bg, pen.bold, w)];
        if w == 2 {
          next := next + [Cell(0, fg, bg, pen.bold, 0)];
        }
        assert next == row + Cells(NewCell(r, pen, width));
      }
    }
  }

  // What is left to add to the grid when the rest of the capture is rest.
  ghost predicate Completes(grid: seq<seq<Cell>>, rest: seq<Byte>, pen: Pen, row: seq<Cell>, width: int -> Width,
                            whole: seq<seq<Cell>>)
  {
    grid + Rows(Items(rest, pen, width), row) == whole
  }

  lemma CompletesAfterEscape(grid: seq<seq<Cell>>, rest: seq<Byte>, pen: Pen, row: seq<Cell>, width: int -> Width,
                             whole: seq<seq<Cell>>)
    requires rest != [] && rest[0] == ESC && Completes(grid, rest, pen, row, width, whole)
    ensures
      var e := EscapeOf(rest);
      Completes(grid, rest[e.length..], Update(pen, e), row, width, whole)
  {
  }

  lemma CompletesAfterPrint(grid: seq<seq<Cell>>, rest: seq<Byte>, pen: Pen, row: seq<Cell>, width: int -> Width,
                            whole: seq<seq<Cell>>, size: nat, flush: bool, next: seq<Cell>)
    requires 1 <= size <= |rest| && Completes(grid, rest, pen, row, width, whole)
    requires Rows(Items(rest, pen, width), row) ==
      (if flush then [row] else []) + Rows(Items(rest[size..], pen, width), next)
    ensures Completes(if flush then grid + [row] else grid, rest[size..], pen, next, width, whole)
  {
    var more := Rows(Items(rest[size..], pen, width), next);
    if flush {
      Regroup(grid, [row], more);
    } else {
      assert [] + more == more;
    }
  }

  lemma CompletesAtEnd(grid: seq<seq<Cell>>, pen: Pen, row: seq<Cell>, width: int -> Width, whole: seq<seq<Cell>>)
    requires Completes(grid, [], pen, row, width, whole)
    ensures whole == if row == [] then grid else grid + [row]
  {
  }

  // One escape sequence: its length, and the pen after it.
  method TakeEscape(s: seq<Byte>, pen: Pen) returns (length: nat, next: Pen)
    requires s != [] && s[0] == ESC
    ensures length == EscapeOf(s).length && 1 <= length <= |s| && next == Update(pen, EscapeOf(s))
  {
    var e := ScanEscape(s);
    length, next := e.length, pen;
    if e.body.Some? {
      var ps := ParseParams(e.body.value);
      next := ApplySGR(pen, ps);
    }
  }

  // One round of the loop: what it takes from the front, whether the row is
  // full, and the pen and the row afterwards.
  method ParseOne(rest: seq<Byte>, pen: Pen, row: seq<Cell>, width: int -> Width,
                  ghost grid: seq<seq<Cell>>, ghost whole: seq<seq<Cell>>)
    returns (length: nat, pen': Pen, flush: bool, next: seq<Cell>)
    requires rest != [] && Completes(grid, rest, pen, row, width, whole)
    ensures 1 <= length <= |rest|
    ensures Completes(if flush then grid + [row] else grid, rest[length..], pen', next, width, whole)
  {
    if rest[0] == ESC {
      CompletesAfterEscape(grid, rest, pen, row, width, whole);
      length, pen' := TakeEscape(rest, pen);
      flush, next := false, row;
    } else {
      pen' := pen;
      length, flush, next := Print(rest, pen, row, width);
      CompletesAfterPrint(grid, rest, pen, row, width, whole, length, flush, next);
    }
  }

  lemma CompletesAtStart(s: seq<Byte>, width: int -> Width)
    ensures Completes([], s[0..], PLAIN, [], width, Grid(s, width))
  {
    assert s[0..] == s;
  }

  // The loop's body: from one position to the next.
  method ParseFrom(s: seq<Byte>, i: nat, pen: Pen, row: seq<Cell>, grid: seq<seq<Cell>>, width: int -> Width,
                   ghost whole: seq<seq<Cell>>)
    returns (i': nat, pen': Pen, row': seq<Cell>, grid': seq<seq<Cell>>)
    requires i < |s| && Completes(grid, s[i..], pen, row, width, whole)
    ensures i < i' <= |s| && Completes(grid', s[i'..], pen', row', width, whole)
  {
    var length, flush: bool;
    length, pen', flush, row' := ParseOne(s[i..], pen, row, width, grid, whole);
    i' := i + length;
    DropTwice(s, i, i');
    grid' := if flush then grid + [row] else grid;
  }

  lemma FinishedAtEnd(grid: seq<seq<Cell>>, s: seq<Byte>, i: nat, pen: Pen, row: seq<Cell>, width: int -> Width,
                      whole: seq<seq<Cell>>)
    requires i == |s| && Completes(grid, s[i..], pen, row, width, whole)
    ensures whole == if row == [] then grid else grid + [row]
  {
    assert s[i..] == [];
    CompletesAtEnd(grid, pen, row, width, whole);
  }

  method ParseANSI(s: seq<Byte>, width: int -> Width) returns (grid: seq<seq<Cell>>)
    ensures grid == Grid(s, width)
  {
    var state := PLAIN;
    grid := [];
    var row := [];
    var i := 0;
    ghost var whole := Grid(s, width);
    CompletesAtStart(s, width);
    while i < |s|
      invariant 0 <= i <= |s|
      invariant Completes(grid, s[i..], state, row, width, whole)
    {
      i, state, row, grid := ParseFrom(s, i, state, row, grid, width, whole);
    }
    FinishedAtEnd(grid, s, i, state, row, width, whole);
    if |row| > 0 {
      grid := grid + [row];
    }
  }

  // ---------------------------------------------------------------------
  // The grid is well formed
  // ---------------------------------------------------------------------

  function Continuation(c: Cell): Cell { c.(rune := 0, width := 0) }

  // Every wide cell is followed by its only continuation cell, of the same
  // colours; nothing else has width 0; no C0 control or DEL is a character.
  ghost predicate RowOk(row: seq<Cell>) {
    && (forall k :: 0 <= k < |row| && row[k].width == 2 ==> k + 1 < |row| && row[k + 1] == Continuation(row[k]))
    && (forall k :: 0 <= k < |row| && row[k].width == 0 ==> k > 0 && row[k - 1].width == 2)
    && (forall k :: 0 <= k < |row| && row[k].width != 0 ==> row[k].rune >= 0x20 && row[k].rune != 0x7f)
  }

  function Widths(row: seq<Cell>): int {
    if row == [] then 0 else Widths(row[..|row| - 1]) + row[|row| - 1].width
  }

  ghost predicate ItemsOk(items: seq<Item>) {
    forall k :: 0 <= k < |items| && items[k].Glyph? ==>
      items[k].cell.width != 0 && items[k].cell.rune >= 0x20 && items[k].cell.rune != 0x7f
  }

  lemma {:induction false} ItemsAreOk(s: seq<Byte>, pen: Pen, width: int -> Width)
    ensures ItemsOk(Items(s, pen, width))
    decreases |s|
  {
    if s != [] {
      if s[0] == ESC {
        var e := EscapeOf(s);
        ItemsAreOk(s[e.length..], Update(pen, e), width);
      } else {
        ItemsAreOk(s[Decode(s).1..], pen, width);
      }
    }
  }

  lemma WidthsAppend(row: seq<Cell>, c: Cell)
    ensures Widths(row + [c]) == Widths(row) + c.width
  {
    assert (row + [c])[..|row|] == row;
  }

  lemma RowGrows(row: seq<Cell>, c: Cell)
    requires RowOk(row) && Widths(row) == |row|
    requires c.width != 0 && c.rune >= 0x20 && c.rune != 0x7f
    ensures RowOk(row + Cells(c)) && Widths(row + Cells(c)) == |row + Cells(c)|
  {
    WidthsAppend(row, c);
    if c.width == 2 {
      WidthsAppend(row + [c], Continuation(c));
      assert row + Cells(c) == row + [c] + [Continuation(c)];
    }
  }

  lemma {:induction false} RowsAreOk(items: seq<Item>, row: seq<Cell>)
    requires ItemsOk(items) && RowOk(row) && Widths(row) == |row|
    ensures forall k :: 0 <= k < |Rows(items, row)| ==>
      RowOk(Rows(items, row)[k]) && Widths(Rows(items, row)[k]) == |Rows(items, row)[k]|
    decreases |items|
  {
    if items != [] {
      if items[0].NewLine? {
        RowsAreOk(items[1..], []);
      } else {
        RowGrows(row, items[0].cell);
        RowsAreOk(items[1..], row + Cells(items[0].cell));
      }
    }
  }

  // For every byte string and every width table: each row's widths add up to
  // its length, and its wide cells and characters are well formed.
  lemma GridIsWellFormed(s: seq<Byte>, width: int -> Width)
    ensures forall row :: row in Grid(s, width) ==> RowOk(row) && Widths(row) == |row|
  {
    ItemsAreOk(s, PLAIN, width);
    RowsAreOk(Items(s, PLAIN, width), []);
  }

  // ---------------------------------------------------------------------
  // Decoding inverts the encoder of RFC 3629, and nothing else decodes
  // ---------------------------------------------------------------------

  predicate IsScalar(c: int) { 0 <= c <= 0x10ffff && !(0xd800 <= c <= 0xdfff) }

  // The table of section 3.
  function Encode(c: int): (s: seq<Byte>)
    requires IsScalar(c)
    ensures s != []
  {
    if c < 0x80 then [c]
    else if c < 0x800 then [0xc0 + c / 64, 0x80 + c % 64]
    else if c < 0x10000 then [0xe0 + c / 4096, 0x80 + c / 64 % 64, 0x80 + c % 64]
    else [0xf0 + c / 262144, 0x80 + c / 4096 % 64, 0x80 + c / 64 % 64, 0x80 + c % 64]
  }

  // The digits of a number to the base 64.
  lemma Base64(c: nat)
    ensures c == c / 64 * 64 + c % 64
    ensures c / 4096 == c / 64 / 64 && c / 262144 == c / 4096 / 64
  {
  }

  lemma EncodeTwo(c: int)
    requires 0x80 <= c < 0x800
    ensures Whole(Encode(c)) && Rune(Encode(c)) == c
  {
    Base64(c);
  }

  lemma EncodeThree(c: int)
    requires IsScalar(c) && 0x800 <= c < 0x10000
    ensures Whole(Encode(c)) && Rune(Encode(c)) == c
  {
    Base64(c);
    Base64(c / 64);
  }

  lemma EncodeFour(c: int)
    requires 0x10000 <= c <= 0x10ffff
    ensures Whole(Encode(c)) && Rune(Encode(c)) == c
  {
    Base64(c);
    Base64(c / 64);
    Base64(c / 4096);
  }

  lemma WholeInFront(s: seq<Byte>, rest: seq<Byte>)
    requires Whole(s) && Need(s[0]) == |s|
    ensures Whole(s + rest) && Decode(s + rest) == (Rune(s), |s|)
  {
  }

  lemma EncodedIsWhole(c: int, rest: seq<Byte>)
    requires IsScalar(c)
    ensures Whole(Encode(c) + rest) && Decode(Encode(c) + rest) == (c, |Encode(c)|)
  {
    if 0x80 <= c < 0x800 {
      EncodeTwo(c);
    } else if 0x800 <= c < 0x10000 {
      EncodeThree(c);
    } else if 0x10000 <= c {
      EncodeFour(c);
    }
    WholeInFront(Encode(c), rest);
  }

  // A scalar value in front of any bytes is decoded as itself.
  lemma DecodeInvertsEncode(c: int, rest: seq<Byte>)
    requires IsScalar(c)
    ensures Decode(Encode(c) + rest) == (c, |Encode(c)|)
  {
    EncodedIsWhole(c, rest);
  }

  lemma WholeTwo(s: seq<Byte>)
    requires Whole(s) && Need(s[0]) == 2
    ensures IsScalar(Rune(s)) && Encode(Rune(s)) == s[..2]
  {
  }

  lemma LastDigit(front: nat, last: nat)
    requires last < 64
    ensures (front * 64 + last) / 64 == front && (front * 64 + last) % 64 == last
  {
  }

  lemma ThreeDigits(a: nat, b: nat, c: nat)
    requires b < 64 && c < 64
    ensures
      var n := a * 4096 + b * 64 + c;
      n / 4096 == a && n / 64 == a * 64 + b && n / 64 % 64 == b && n % 64 == c
  {
    LastDigit(a, b);
    LastDigit(a * 64 + b, c);
    Base64((a * 64 + b) * 64 + c);
  }

  lemma FourDigits(a: nat, b: nat, c: nat, d: nat)
    requires b < 64 && c < 64 && d < 64
    ensures
      var n := a * 262144 + b * 4096 + c * 64 + d;
      n / 262144 == a && n / 4096 % 64 == b && n / 64 % 64 == c && n % 64 == d
  {
    ThreeDigits(a, b, c);
    LastDigit(a * 4096 + b * 64 + c, d);
    Base64((a * 4096 + b * 64 + c) * 64 + d);
  }

  lemma WholeThree(s: seq<Byte>)
    requires Whole(s) && Need(s[0]) == 3
    ensures IsScalar(Rune(s)) && Encode(Rune(s)) == s[..3]
  {
    ThreeDigits(s[0] - 0xe0, s[1] - 0x80, s[2] - 0x80);
  }

  lemma WholeFour(s: seq<Byte>)
    requires Whole(s) && Need(s[0]) == 4
    ensures IsScalar(Rune(s)) && Encode(Rune(s)) == s[..4]
  {
    FourDigits(s[0] - 0xf0, s[1] - 0x80, s[2] - 0x80, s[3] - 0x80);
  }

  lemma WholeIsEncoded(s: seq<Byte>)
    requires Whole(s)
    ensures IsScalar(Decode(s).0) && Encode(Decode(s).0) == s[..Decode(s).1]
  {
    match Need(s[0])
    case 2 => WholeTwo(s);
    case 3 => WholeThree(s);
    case 4 => WholeFour(s);
    case _ =>
  }

  // What is decoded was encoded: bytes that begin with no encoded scalar value
  // are an error of one byte.
  lemma OnlyEncodedDecodes(s: seq<Byte>)
    requires s != []
    ensures Decode(s) == (0xfffd, 1) || (IsScalar(Decode(s).0) && Encode(Decode(s).0) == s[..Decode(s).1])
    ensures (forall c :: IsScalar(c) ==> !(Encode(c) <= s)) ==> Decode(s) == (0xfffd, 1)
  {
    if Whole(s) {
      WholeIsEncoded(s);
    }
  }

  // ---------------------------------------------------------------------
  // The text of a screen is what was written to it
  // ---------------------------------------------------------------------

  // An encoded character that is no newline, escape or control character and
  // takes up columns.
  predicate Printable(c: int, width: int -> Width) { IsScalar(c) && c >= 0x20 && c != 0x7f && width(c) != 0 }

  predicate AllScalar(runes: seq<int>) { forall k :: 0 <= k < |runes| ==> IsScalar(runes[k]) }

  predicate AllPrintable(runes: seq<int>, width: int -> Width): (all: bool)
    ensures all ==> AllScalar(runes)
  {
    forall k :: 0 <= k < |runes| ==> Printable(runes[k], width)
  }

  function EncodeAll(runes: seq<int>): seq<Byte>
    requires AllScalar(runes)
  {
    if runes == [] then [] else Encode(runes[0]) + EncodeAll(runes[1..])
  }

  // The cell of a character under a pen, in terms of the pen's own fields.
  function Painted(c: int, pen: Pen, width: int -> Width): Cell {
    var ink := if pen.fg.Some? then pen.fg.value else Colour(0xd4, 0xd4, 0xd4);
    var paper := if pen.bg.Some? then pen.bg.value else Colour(0x1e, 0x1e, 0x1e);
    Cell(c, if pen.reverse then paper else ink, if pen.reverse then ink else paper, pen.bold, width(c))
  }

  // Its columns: one, or two when it is wide, the second one empty.
  function Columns(runes: seq<int>, pen: Pen, width: int -> Width): seq<Cell> {
    if runes == [] then []
    else
      var cell := Painted(runes[0], pen, width);
      [cell] + (if cell.width == 2 then [Cell(0, cell.fg, cell.bg, cell.bold, 0)] else []) + Columns(runes[1..], pen, width)
  }

  lemma OneCharacter(c: int, rest: seq<Byte>, pen: Pen, width: int -> Width, row: seq<Cell>)
    requires Printable(c, width)
    ensures Rows(Items(Encode(c) + rest, pen, width), row)
         == Rows(Items(rest, pen, width), row + Columns([c], pen, width))
  {
    var s := Encode(c) + rest;
    DecodeInvertsEncode(c, rest);
    assert s[|Encode(c)|..] == rest;
    RowsStep(s, pen, width, row);
    assert Painted(c, pen, width) == NewCell(c, pen, width);
    assert Columns([c], pen, width) == Cells(NewCell(c, pen, width)) + Columns([c][1..], pen, width);
    assert [c][1..] == [] && Columns([c], pen, width) == Cells(NewCell(c, pen, width));
  }

  lemma ColumnsOfCons(runes: seq<int>, pen: Pen, width: int -> Width)
    requires runes != []
    ensures Columns(runes, pen, width) == Columns([runes[0]], pen, width) + Columns(runes[1..], pen, width)
  {
    assert [runes[0]][1..] == [];
  }

  // Printable text anywhere on a screen, whatever stands before and after it,
  // fills the row with exactly its own characters under the pen of that place.
  lemma {:induction false} TextFillsTheRow(runes: seq<int>, rest: seq<Byte>, pen: Pen, width: int -> Width, row: seq<Cell>)
    requires AllPrintable(runes, width)
    ensures Rows(Items(EncodeAll(runes) + rest, pen, width), row)
         == Rows(Items(rest, pen, width), row + Columns(runes, pen, width))
    decreases |runes|
  {
    if runes == [] {
      assert EncodeAll(runes) + rest == rest && row + Columns(runes, pen, width) == row;
    } else {
      var more := EncodeAll(runes[1..]) + rest;
      assert EncodeAll(runes) + rest == Encode(runes[0]) + more;
      OneCharacter(runes[0], more, pen, width, row);
      TextFillsTheRow(runes[1..], rest, pen, width, row + Columns([runes[0]], pen, width));
      ColumnsOfCons(runes, pen, width);
      Regroup(row, Columns([runes[0]], pen, width), Columns(runes[1..], pen, width));
    }
  }

  // The valid byte strings are exactly the encoded ones.
  lemma {:induction false} EncodedIsUtf8(runes: seq<int>)
    requires AllScalar(runes)
    ensures Utf8(EncodeAll(runes))
    decreases |runes|
  {
    if runes != [] {
      EncodedIsUtf8(runes[1..]);
      EncodedIsWhole(runes[0], EncodeAll(runes[1..]));
      assert EncodeAll(runes)[|Encode(runes[0])|..] == EncodeAll(runes[1..]);
    }
  }

  lemma EncodeAllPush(c: int, more: seq<int>)
    requires IsScalar(c) && AllScalar(more)
    ensures AllScalar([c] + more) && EncodeAll([c] + more) == Encode(c) + EncodeAll(more)
  {
    assert ([c] + more)[1..] == more;
  }

  lemma {:induction false} Utf8IsEncoded(s: seq<Byte>) returns (runes: seq<int>)
    requires Utf8(s)
    ensures AllScalar(runes) && EncodeAll(runes) == s
    decreases |s|
  {
    runes := [];
    if s != [] {
      var (c, n) := Decode(s);
      WholeIsEncoded(s);
      var more := Utf8IsEncoded(s[n..]);
      runes := [c] + more;
      EncodeAllPush(c, more);
      assert s == s[..n] + s[n..];
    }
  }

  // A newline ends the row, and the pen stays.
  lemma NewlineEndsTheRow(rest: seq<Byte>, pen: Pen, width: int -> Width, row: seq<Cell>)
    ensures Rows(Items([0x0a] + rest, pen, width), row) == [row] + Rows(Items(rest, pen, width), [])
  {
    var s := [0x0a] + rest;
    assert s[1..] == rest && Decode(s) == (0x0a, 1);
    RowsStep(s, pen, width, row);
  }

  // Other control characters, characters without width, and bytes that begin
  // no encoded character leave no trace.
  lemma NothingIsShown(s: seq<Byte>, pen: Pen, width: int -> Width)
    requires s != [] && s[0] != 0x1b
    requires
      || (s[0] < 0x20 && s[0] != 0x0a) || s[0] == 0x7f
      || (forall c :: IsScalar(c) ==> !(Encode(c) <= s))
    ensures Items(s, pen, width) == Items(s[1..], pen, width)
  {
    OnlyEncodedDecodes(s);
  }

  lemma WidthlessIsNotShown(c: int, rest: seq<Byte>, pen: Pen, width: int -> Width)
    requires IsScalar(c) && c >= 0x20 && width(c) == 0
    ensures Items(Encode(c) + rest, pen, width) == Items(rest, pen, width)
  {
    DecodeInvertsEncode(c, rest);
    assert (Encode(c) + rest)[|Encode(c)|..] == rest;
  }

  // A written SGR sequence only changes the pen, by its own parameters; the
  // empty one resets it.
  lemma SgrChangesThePen(ps: seq<int>, rest: seq<Byte>, pen: Pen, width: int -> Width)
    requires ps != [] && Writable(ps)
    ensures Items([0x1b, 0x5b] + RenderBody(ps) + [0x6d] + rest, pen, width) == Items(rest, Applied(pen, ps), width)
    ensures Items([0x1b, 0x5b, 0x6d] + rest, pen, width) == Items(rest, Pen(None, None, false, false), width)
  {
    var s, empty := [0x1b, 0x5b] + RenderBody(ps) + [0x6d] + rest, [0x1b, 0x5b, 0x6d] + rest;
    SgrRoundTrip(ps, rest);
    assert s[|RenderBody(ps)| + 3..] == rest;
    CsiIsTakenWhole([], 0x6d, rest);
    assert empty == [0x1b, 0x5b] + [] + [0x6d] + rest && empty[3..] == rest;
    WholeToken(pen, [0]);
  }

  // Any other escape leaves pen and text alone.
  lemma OtherEscapesShowNothing(s: seq<Byte>, pen: Pen, width: int -> Width)
    requires s != [] && s[0] == 0x1b && EscapeOf(s).body == None
    ensures Items(s, pen, width) == Items(s[EscapeOf(s).length..], pen, width)
  {
  }

  // The first columns of the characters of a row.
  function Leads(row: seq<Cell>): seq<Cell> {
    if row == [] then [] else (if row[0].width != 0 then [row[0]] else []) + Leads(row[1..])
  }

  lemma LeadsOfCons(runes: seq<int>, pen: Pen, width: int -> Width)
    requires runes != [] && width(runes[0]) != 0
    ensures Leads(Columns(runes, pen, width)) == [Painted(runes[0], pen, width)] + Leads(Columns(runes[1..], pen, width))
  {
    var cell, more := Painted(runes[0], pen, width), Columns(runes[1..], pen, width);
    var all := Columns(runes, pen, width);
    if cell.width == 2 {
      var second := Cell(0, cell.fg, cell.bg, cell.bold, 0);
      assert all[1..] == [second] + more && ([second] + more)[1..] == more;
    } else {
      assert all[1..] == more;
    }
  }

  lemma {:induction false} ColumnsLead(runes: seq<int>, pen: Pen, width: int -> Width)
    requires AllPrintable(runes, width)
    ensures |Leads(Columns(runes, pen, width))| == |runes|
    ensures forall k :: 0 <= k < |runes| ==> Leads(Columns(runes, pen, width))[k] == Painted(runes[k], pen, width)
    decreases |runes|
  {
    if runes != [] {
      ColumnsLead(runes[1..], pen, width);
      LeadsOfCons(runes, pen, width);
    }
  }

  // Printable text behind a written SGR sequence is one row whose characters
  // are exactly the text, each once and in order, each with its width and with
  // the colours and weight its parameters give to the plain pen.
  lemma TextIsShownInOrder(ps: seq<int>, runes: seq<int>, width: int -> Width)
    requires ps != [] && Writable(ps) && runes != []
    requires AllPrintable(runes, width)
    ensures
      var grid := Grid([0x1b, 0x5b] + RenderBody(ps) + [0x6d] + EncodeAll(runes), width);
      && |grid| == 1
      && |Leads(grid[0])| == |runes|
      && forall k :: 0 <= k < |runes| ==> Leads(grid[0])[k] == Painted(runes[k], Applied(PLAIN, ps), width)
  {
    var pen := Applied(PLAIN, ps);
    SgrChangesThePen(ps, EncodeAll(runes), PLAIN, width);
    TextFillsTheRow(runes, [], pen, width, []);
    assert EncodeAll(runes) + [] == EncodeAll(runes) && [] + Columns(runes, pen, width) == Columns(runes, pen, width);
    ColumnsLead(runes, pen, width);
  }

  predicate PrintableLines(lines: seq<seq<int>>, width: int -> Width) {
    forall i :: 0 <= i < |lines| ==> AllPrintable(lines[i], width)
  }

  // Lines with a newline between any two of them.
  function EncodeLines(lines: seq<seq<int>>, width: int -> Width): seq<Byte>
    requires lines != [] && PrintableLines(lines, width)
  {
    var first: seq<Byte> := EncodeAll(lines[0]);
    if |lines| == 1 then first else first + ([0x0a] + EncodeLines(lines[1..], width))
  }

  // One row for each line, in order, empty ones included, save an empty last one.
  ghost predicate AreRows(grid: seq<seq<Cell>>, lines: seq<seq<int>>, pen: Pen, width: int -> Width)
    requires lines != []
  {
    && |grid| == (if lines[|lines| - 1] == [] then |lines| - 1 else |lines|)
    && forall i :: 0 <= i < |grid| ==> grid[i] == Columns(lines[i], pen, width)
  }

  lemma AreRowsPush(grid: seq<seq<Cell>>, lines: seq<seq<int>>, pen: Pen, width: int -> Width)
    requires |lines| > 1 && AreRows(grid, lines[1..], pen, width)
    ensures AreRows([Columns(lines[0], pen, width)] + grid, lines, pen, width)
  {
    var longer := [Columns(lines[0], pen, width)] + grid;
    assert lines[1..][|lines| - 2] == lines[|lines| - 1];
    assert forall i :: 0 < i < |longer| ==> longer[i] == grid[i - 1] && lines[i] == lines[1..][i - 1];
  }

  lemma LastLine(runes: seq<int>, pen: Pen, width: int -> Width)
    requires AllPrintable(runes, width)
    ensures AreRows(Rows(Items(EncodeAll(runes), pen, width), []), [runes], pen, width)
  {
    TextFillsTheRow(runes, [], pen, width, []);
    assert EncodeAll(runes) + [] == EncodeAll(runes) && [] + Columns(runes, pen, width) == Columns(runes, pen, width);
  }

  lemma FirstLine(runes: seq<int>, more: seq<Byte>, pen: Pen, width: int -> Width)
    requires AllPrintable(runes, width)
    ensures Rows(Items(EncodeAll(runes) + ([0x0a] + more), pen, width), [])
         == [Columns(runes, pen, width)] + Rows(Items(more, pen, width), [])
  {
    TextFillsTheRow(runes, [0x0a] + more, pen, width, []);
    assert [] + Columns(runes, pen, width) == Columns(runes, pen, width);
    NewlineEndsTheRow(more, pen, width, Columns(runes, pen, width));
  }

  // Lines of text are the rows of the screen.
  lemma {:induction false} LinesAreRows(lines: seq<seq<int>>, pen: Pen, width: int -> Width)
    requires lines != [] && PrintableLines(lines, width)
    ensures AreRows(Rows(Items(EncodeLines(lines, width), pen, width), []), lines, pen, width)
    decreases |lines|
  {
    if |lines| == 1 {
      LastLine(lines[0], pen, width);
      assert lines == [lines[0]];
    } else {
      LinesAreRows(lines[1..], pen, width);
      FirstLine(lines[0], EncodeLines(lines[1..], width), pen, width);
      AreRowsPush(Rows(Items(EncodeLines(lines[1..], width), pen, width), []), lines, pen, width);
    }
  }

  // ---------------------------------------------------------------------
  // Escapes never shift text
  // ---------------------------------------------------------------------

  // What is compared: (rune, width) of every cell.
  function Text(row: seq<Cell>): seq<(int, Width)> {
    seq(|row|, k requires 0 <= k < |row| => (row[k].rune, row[k].width))
  }

  function Texts(rows: seq<seq<Cell>>): seq<seq<(int, Width)>> {
    seq(|rows|, k requires 0 <= k < |rows| => Text(rows[k]))
  }

  // At this position a character becomes whole only by removing the escapes
  // that cut it.
  predicate Joins(s: seq<Byte>) {
    s != [] && s[0] != ESC && !Whole(s) && Whole(Stripped(s))
  }

  // How often that happens along the decoding of s.
  function JoinCount(s: seq<Byte>): nat
    decreases |s|
  {
    if s == [] then 0
    else if s[0] == ESC then JoinCount(s[EscapeOf(s).length..])
    else (if Joins(s) then 1 else 0) + JoinCount(s[Decode(s).1..])
  }

  // The same, counting only characters that take up columns under this table.
  function ShownJoins(s: seq<Byte>, width: int -> Width): nat
    decreases |s|
  {
    if s == [] then 0
    else if s[0] == ESC then ShownJoins(s[EscapeOf(s).length..], width)
    else (if Joins(s) && width(Decode(Stripped(s)).0) != 0 then 1 else 0) + ShownJoins(s[Decode(s).1..], width)
  }

  lemma {:induction false} NoJoinsNoneShown(s: seq<Byte>, width: int -> Width)
    ensures ShownJoins(s, width) <= JoinCount(s)
    ensures (forall rune :: width(rune) != 0) ==> ShownJoins(s, width) == JoinCount(s)
    decreases |s|
  {
    if s == [] {
    } else if s[0] == ESC {
      NoJoinsNoneShown(s[EscapeOf(s).length..], width);
    } else {
      NoJoinsNoneShown(s[Decode(s).1..], width);
    }
  }

  lemma NoEscapeInside(s: seq<Byte>)
    requires Whole(s) && s[0] != ESC
    ensures ESC !in s[..Need(s[0])]
  {
    assert forall k :: 0 < k < Need(s[0]) ==> IsTail(s[k]);
  }

  lemma SamePrefixDecodes(s: seq<Byte>, t: seq<Byte>)
    requires Whole(s) && Need(s[0]) <= |t| && t[..Need(s[0])] == s[..Need(s[0])]
    ensures Decode(t) == Decode(s)
  {
    var n := Need(s[0]);
    assert forall k :: 0 <= k < n ==> t[..n][k] == s[..n][k] && t[k] == s[k];
  }

  lemma WholeSurvivesStrip(s: seq<Byte>)
    requires Whole(s) && s[0] != ESC
    ensures
      var n := Need(s[0]);
      && Stripped(s) == s[..n] + Stripped(s[n..])
      && Decode(Stripped(s)) == Decode(s)
      && Stripped(s)[n..] == Stripped(s[n..])
  {
    var n := Need(s[0]);
    assert s == s[..n] + s[n..];
    NoEscapeInside(s);
    StripKeepsPlainText(s[..n], s[n..]);
    SamePrefixDecodes(s, s[..n] + Stripped(s[n..]));
  }

  lemma LoneByteStripped(s: seq<Byte>)
    requires s != [] && s[0] != ESC
    ensures Stripped(s) != [] && Stripped(s)[0] == s[0] && Stripped(s)[1..] == Stripped(s[1..])
  {
  }

  ghost predicate SameText(a: seq<Item>, b: seq<Item>) {
    && |a| == |b|
    && forall k :: 0 <= k < |a| ==>
         && a[k].NewLine? == b[k].NewLine?
         && (a[k].Glyph? ==> a[k].cell.rune == b[k].cell.rune && a[k].cell.width == b[k].cell.width)
  }

  // Tail bytes of a cut character are dropped one by one.
  lemma {:induction false} TailBytesShowNothing(s: seq<Byte>, k: nat, pen: Pen, width: int -> Width)
    requires k <= |s| && forall j :: 0 <= j < k ==> IsTail(s[j])
    ensures Items(s, pen, width) == Items(s[k..], pen, width)
    decreases k
  {
    if k == 0 {
      assert s[0..] == s;
    } else {
      TailBytesShowNothing(s[1..], k - 1, pen, width);
      assert s[1..][k - 1..] == s[k..];
    }
  }

  // One decoded character and the items after it.
  lemma FirstItem(s: seq<Byte>, pen: Pen, width: int -> Width)
    requires s != [] && s[0] != ESC
    ensures
      var (rune, size) := Decode(s);
      Items(s, pen, width) ==
        (if rune == 0x0a then [NewLine]
         else if Shown(rune, size, width) then [Glyph(NewCell(rune, pen, width))] else [])
        + Items(s[size..], pen, width)
  {
  }

  lemma WholeAfterLead(t: seq<Byte>)
    requires Whole(t) && Need(t[0]) >= 2
    ensures Rune(t) >= 0x80
    ensures forall j :: 0 <= j < Need(t[0]) - 1 ==> IsTail(t[1..][j])
  {
  }

  // A character that only the stripped string contains: there it shows if its
  // width is not zero, here its bytes are dropped.
  lemma JoinedItem(s: seq<Byte>, pen: Pen, width: int -> Width)
    requires Joins(s)
    ensures
      var t := Stripped(s);
      var (rune, size) := Decode(t);
      Items(t, pen, width) ==
        (if width(rune) != 0 then [Glyph(NewCell(rune, pen, width))] else [])
        + Items(Stripped(s[1..]), pen, width)
  {
    var t := Stripped(s);
    var n := Need(t[0]);
    LoneByteStripped(s);
    StripRemovesEscapes(s);
    FirstItem(t, pen, width);
    WholeAfterLead(t);
    TailBytesShowNothing(t[1..], n - 1, pen, width);
    assert t[1..][n - 1..] == t[n..];
  }

  // Away from escapes and joins both sides decode the same character.
  lemma SameFirstCharacter(s: seq<Byte>)
    requires s != [] && s[0] != ESC && !Joins(s)
    ensures
      var t, size := Stripped(s), Decode(s).1;
      && t != [] && t[0] != ESC
      && Decode(t) == Decode(s)
      && t[size..] == Stripped(s[size..])
  {
    StripRemovesEscapes(s);
    LoneByteStripped(s);
    if Whole(s) {
      WholeSurvivesStrip(s);
    }
  }

  lemma SameFirstItem(s: seq<Byte>, t: seq<Byte>, pen: Pen, pen': Pen, width: int -> Width)
    requires s != [] && t != [] && s[0] != ESC && t[0] != ESC && Decode(s) == Decode(t)
    requires SameText(Items(s[Decode(s).1..], pen, width), Items(t[Decode(t).1..], pen', width))
    ensures SameText(Items(s, pen, width), Items(t, pen', width))
  {
  }

  lemma {:induction false} ItemsAgree(s: seq<Byte>, pen: Pen, pen': Pen, width: int -> Width)
    requires ShownJoins(s, width) == 0
    ensures SameText(Items(s, pen, width), Items(Stripped(s), pen', width))
    decreases |s|
  {
    if s == [] {
    } else if s[0] == ESC {
      var e := EscapeOf(s);
      ItemsAgree(s[e.length..], Update(pen, e), pen', width);
    } else {
      ItemsAgree(s[Decode(s).1..], pen, pen', width);
      if Joins(s) {
        LoneByteStripped(s);
        FirstItem(s, pen, width);
        JoinedItem(s, pen', width);
      } else {
        SameFirstCharacter(s);
        SameFirstItem(s, Stripped(s), pen, pen', width);
      }
    }
  }

  lemma SameLength(row: seq<Cell>, row': seq<Cell>)
    requires Text(row) == Text(row')
    ensures |row| == |row'|
  {
    assert |Text(row)| == |row| && |Text(row')| == |row'|;
  }

  lemma TextAppend(a: seq<Cell>, b: seq<Cell>)
    ensures Text(a + b) == Text(a) + Text(b)
  {
  }

  lemma TextsPush(row: seq<Cell>, rows: seq<seq<Cell>>)
    ensures Texts([row] + rows) == [Text(row)] + Texts(rows)
  {
  }

  lemma {:induction false} RowsAgree(a: seq<Item>, b: seq<Item>, row: seq<Cell>, row': seq<Cell>)
    requires SameText(a, b) && Text(row) == Text(row')
    ensures Texts(Rows(a, row)) == Texts(Rows(b, row'))
    decreases |a|
  {
    SameLength(row, row');
    if a != [] {
      assert SameText(a[1..], b[1..]);
      if a[0].NewLine? {
        RowsAgree(a[1..], b[1..], [], []);
        TextsPush(row, Rows(a[1..], []));
        TextsPush(row', Rows(b[1..], []));
      } else {
        var c, c' := a[0].cell, b[0].cell;
        TextAppend(row, Cells(c));
        TextAppend(row', Cells(c'));
        assert Text(Cells(c)) == Text(Cells(c'));
        RowsAgree(a[1..], b[1..], row + Cells(c), row' + Cells(c'));
      }
    } else if row != [] {
      TextsPush(row, []);
      TextsPush(row', []);
    }
  }

  lemma TextAgreesWithoutJoins(s: seq<Byte>, width: int -> Width)
    requires ShownJoins(s, width) == 0
    ensures Texts(Grid(s, width)) == Texts(Grid(Stripped(s), width))
  {
    ItemsAgree(s, PLAIN, PLAIN, width);
    RowsAgree(Items(s, PLAIN, width), Items(Stripped(s), PLAIN, width), [], []);
  }

  // ---------------------------------------------------------------------
  // Valid UTF-8 never joins
  // ---------------------------------------------------------------------

  // A suffix of valid UTF-8: tail bytes left by an escape that swallowed the
  // front of a character, then whole characters.
  predicate Torn(s: seq<Byte>)
    decreases |s|
  {
    Utf8(s) || (s != [] && IsTail(s[0]) && Torn(s[1..]))
  }

  lemma TailsInside(s: seq<Byte>)
    requires Whole(s)
    ensures forall j :: 1 <= j < Need(s[0]) ==> IsTail(s[j])
  {
  }

  lemma {:induction false} TailsThenUtf8(tails: seq<Byte>, s: seq<Byte>)
    requires Utf8(s) && forall k :: 0 <= k < |tails| ==> IsTail(tails[k])
    ensures Torn(tails + s)
    decreases |tails|
  {
    if tails == [] {
      assert tails + s == s;
    } else {
      TailsThenUtf8(tails[1..], s);
      assert (tails + s)[1..] == tails[1..] + s;
    }
  }

  lemma CutInside(s: seq<Byte>, k: nat)
    requires Whole(s) && 1 <= k < Need(s[0]) && Utf8(s[Need(s[0])..])
    ensures Torn(s[k..])
  {
    var n := Need(s[0]);
    TailsInside(s);
    TailsThenUtf8(s[k..n], s[n..]);
    assert s[k..] == s[k..n] + s[n..];
  }

  lemma {:induction false} SuffixOfUtf8IsTorn(s: seq<Byte>, k: nat)
    requires Utf8(s) && k <= |s|
    ensures Torn(s[k..])
    decreases |s|
  {
    if k == 0 {
      assert s[0..] == s;
    } else {
      var n := Need(s[0]);
      if k >= n {
        SuffixOfUtf8IsTorn(s[n..], k - n);
        DropTwice(s, n, k);
      } else {
        CutInside(s, k);
      }
    }
  }

  lemma {:induction false} SuffixOfTornIsTorn(s: seq<Byte>, k: nat)
    requires Torn(s) && k <= |s|
    ensures Torn(s[k..])
    decreases |s|
  {
    if Utf8(s) {
      SuffixOfUtf8IsTorn(s, k);
    } else if k == 0 {
      assert s[0..] == s;
    } else {
      SuffixOfTornIsTorn(s[1..], k - 1);
      assert s[1..][k - 1..] == s[k..];
    }
  }

  lemma {:induction false} TornNeverJoins(s: seq<Byte>)
    requires Torn(s)
    ensures JoinCount(s) == 0
    decreases |s|
  {
    if s != [] {
      var n := if s[0] == ESC then EscapeOf(s).length else Decode(s).1;
      SuffixOfTornIsTorn(s, n);
      TornNeverJoins(s[n..]);
      if s[0] != ESC && !Whole(s) {
        LoneByteStripped(s);
      }
    }
  }

  // Escapes never shift text: on valid UTF-8 the rows of (rune, width) are
  // those of the stripped string, even when an escape swallows a part of a
  // multi-byte character.
  lemma EscapesNeverShiftText(s: seq<Byte>, width: int -> Width)
    requires Utf8(s)
    ensures Texts(Grid(s, width)) == Texts(Grid(Stripped(s), width))
  {
    TornNeverJoins(s);
    NoJoinsNoneShown(s, width);
    TextAgreesWithoutJoins(s, width);
  }

  // ---------------------------------------------------------------------
  // Exactly when the two sides agree on arbitrary bytes
  // ---------------------------------------------------------------------

  function Glyphs(items: seq<Item>): nat {
    if items == [] then 0 else (if items[0].Glyph? then 1 else 0) + Glyphs(items[1..])
  }

  lemma {:induction false} GlyphsConcat(a: seq<Item>, b: seq<Item>)
    ensures Glyphs(a + b) == Glyphs(a) + Glyphs(b)
    decreases |a|
  {
    if a == [] {
      assert a + b == b;
    } else {
      GlyphsConcat(a[1..], b);
      assert (a + b)[0] == a[0] && (a + b)[1..] == a[1..] + b;
    }
  }

  lemma GlyphsOfOne(item: Item)
    ensures Glyphs([item]) == if item.Glyph? then 1 else 0
  {
    assert [item][1..] == [];
  }

  lemma FirstGlyph(s: seq<Byte>, pen: Pen, width: int -> Width)
    requires s != [] && s[0] != ESC
    ensures
      var (rune, size) := Decode(s);
      Glyphs(Items(s, pen, width)) ==
        (if rune != 0x0a && Shown(rune, size, width) then 1 else 0) + Glyphs(Items(s[size..], pen, width))
  {
    var (rune, size) := Decode(s);
    var rest := Items(s[size..], pen, width);
    FirstItem(s, pen, width);
    if rune == 0x0a {
      GlyphsConcat([NewLine], rest);
      GlyphsOfOne(NewLine);
    } else if Shown(rune, size, width) {
      GlyphsConcat([Glyph(NewCell(rune, pen, width))], rest);
      GlyphsOfOne(Glyph(NewCell(rune, pen, width)));
    } else {
      GlyphsConcat([], rest);
    }
  }

  lemma JoinedGlyph(s: seq<Byte>, pen: Pen, width: int -> Width)
    requires Joins(s)
    ensures
      var t := Stripped(s);
      Glyphs(Items(t, pen, width)) ==
        (if width(Decode(t).0) != 0 then 1 else 0) + Glyphs(Items(Stripped(s[1..]), pen, width))
  {
    var rune, rest := Decode(Stripped(s)).0, Items(Stripped(s[1..]), pen, width);
    JoinedItem(s, pen, width);
    if width(rune) != 0 {
      GlyphsConcat([Glyph(NewCell(rune, pen, width))], rest);
      GlyphsOfOne(Glyph(NewCell(rune, pen, width)));
    } else {
      GlyphsConcat([], rest);
    }
  }

  // Stripping adds exactly the characters it mends that take up columns.
  lemma {:induction false} StripPrintsJoins(s: seq<Byte>, pen: Pen, pen': Pen, width: int -> Width)
    ensures Glyphs(Items(Stripped(s), pen', width)) == Glyphs(Items(s, pen, width)) + ShownJoins(s, width)
    decreases |s|
  {
    if s == [] {
    } else if s[0] == ESC {
      var e := EscapeOf(s);
      StripPrintsJoins(s[e.length..], Update(pen, e), pen', width);
    } else {
      StripPrintsJoins(s[Decode(s).1..], pen, pen', width);
      FirstGlyph(s, pen, width);
      if Joins(s) {
        JoinedGlyph(s, pen', width);
      } else {
        SameFirstCharacter(s);
        FirstGlyph(Stripped(s), pen', width);
      }
    }
  }

  // The characters that can be read off the compared text: every cell that is
  // not the continuation of another.
  function Heads(text: seq<(int, Width)>): nat {
    if text == [] then 0 else Heads(text[..|text| - 1]) + if text[|text| - 1].1 != 0 then 1 else 0
  }

  function Printed(texts: seq<seq<(int, Width)>>): nat {
    if texts == [] then 0 else Heads(texts[0]) + Printed(texts[1..])
  }

  lemma PrintedPush(text: seq<(int, Width)>, texts: seq<seq<(int, Width)>>)
    ensures Printed([text] + texts) == Heads(text) + Printed(texts)
  {
    assert ([text] + texts)[1..] == texts;
  }

  lemma HeadsAppend(row: seq<Cell>, c: Cell)
    ensures Heads(Text(row + [c])) == Heads(Text(row)) + if c.width != 0 then 1 else 0
  {
    assert Text(row + [c])[..|row|] == Text(row);
  }

  lemma HeadsOfCells(row: seq<Cell>, c: Cell)
    requires c.width != 0
    ensures Heads(Text(row + Cells(c))) == Heads(Text(row)) + 1
  {
    HeadsAppend(row, c);
    if c.width == 2 {
      HeadsAppend(row + [c], Continuation(c));
      assert row + Cells(c) == (row + [c]) + [Continuation(c)];
    }
  }

  lemma {:induction false} GlyphsArePrinted(items: seq<Item>, row: seq<Cell>)
    requires ItemsOk(items)
    ensures Printed(Texts(Rows(items, row))) == Heads(Text(row)) + Glyphs(items)
    decreases |items|
  {
    if items == [] {
      if row != [] {
        TextsPush(row, []);
        PrintedPush(Text(row), []);
      }
    } else {
      assert ItemsOk(items[1..]);
      if items[0].NewLine? {
        GlyphsArePrinted(items[1..], []);
        TextsPush(row, Rows(items[1..], []));
        PrintedPush(Text(row), Texts(Rows(items[1..], [])));
      } else {
        GlyphsArePrinted(items[1..], row + Cells(items[0].cell));
        HeadsOfCells(row, items[0].cell);
      }
    }
  }

  lemma GridPrints(s: seq<Byte>, width: int -> Width)
    ensures Printed(Texts(Grid(s, width))) == Glyphs(Items(s, PLAIN, width))
  {
    ItemsAreOk(s, PLAIN, width);
    GlyphsArePrinted(Items(s, PLAIN, width), []);
  }

  ghost predicate StripKeepsText(s: seq<Byte>, width: int -> Width) {
    Texts(Grid(s, width)) == Texts(Grid(Stripped(s), width))
  }

  // On arbitrary bytes, and for every single width table, the rows agree
  // exactly when no escape cuts a character that takes up columns and that
  // removing the escapes makes whole.
  lemma TextAgreesIffNoJoinShows(s: seq<Byte>, width: int -> Width)
    ensures StripKeepsText(s, width) <==> ShownJoins(s, width) == 0
  {
    if ShownJoins(s, width) == 0 {
      TextAgreesWithoutJoins(s, width);
    } else {
      StripPrintsJoins(s, PLAIN, PLAIN, width);
      GridPrints(s, width);
      GridPrints(Stripped(s), width);
    }
  }

  // For all tables at once: exactly when nothing joins.
  lemma TextAgreesIffNothingJoins(s: seq<Byte>)
    ensures (forall width: int -> Width :: StripKeepsText(s, width)) <==> JoinCount(s) == 0
  {
    forall width: int -> Width
      ensures StripKeepsText(s, width) <==> ShownJoins(s, width) == 0
      ensures ShownJoins(s, width) <= JoinCount(s)
    {
      TextAgreesIffNoJoinShows(s, width);
      NoJoinsNoneShown(s, width);
    }
    var one: int -> Width := _ => 1;
    NoJoinsNoneShown(s, one);
    assert StripKeepsText(s, one) <==> JoinCount(s) == 0;
  }

  lemma CutStripped(lead: Byte, tails: seq<Byte>)
    requires Whole([lead] + tails) && Need(lead) == |tails| + 1 >= 2
    ensures
      var s := [lead, ESC, BRACKET, LOWER_M] + tails;
      && Stripped(s) == [lead] + tails
      && s[1..][EscapeOf(s[1..]).length..] == tails
  {
    var s, t := [lead, ESC, BRACKET, LOWER_M] + tails, [lead] + tails;
    var rest := [ESC, BRACKET, LOWER_M] + tails;
    assert s[1..] == rest;
    assert ParametersEnd(rest, 2) == 2;
    assert rest[EscapeOf(rest).length..] == tails;
    WholeAfterLead(t);
    assert t[1..] == tails;
    StripChangesOnlyEscapes(tails);
  }

  lemma {:induction false} LoneTailsNeverJoin(tails: seq<Byte>, width: int -> Width)
    requires forall k :: 0 <= k < |tails| ==> IsTail(tails[k])
    ensures ShownJoins(tails, width) == 0
    decreases |tails|
  {
    if tails != [] {
      StripChangesOnlyEscapes(tails);
      LoneTailsNeverJoin(tails[1..], width);
    }
  }

  // A character cut behind its first byte by ESC [ m joins.
  lemma CutJoins(lead: Byte, tails: seq<Byte>, width: int -> Width)
    requires Whole([lead] + tails) && Need(lead) == |tails| + 1 >= 2
    ensures
      var s := [lead, ESC, BRACKET, LOWER_M] + tails;
      ShownJoins(s, width) == if width(Rune([lead] + tails)) != 0 then 1 else 0
  {
    var s, t := [lead, ESC, BRACKET, LOWER_M] + tails, [lead] + tails;
    CutStripped(lead, tails);
    assert Joins(s) && Decode(s).1 == 1 && Decode(t).0 == Rune(t);
    WholeAfterLead(t);
    assert t[1..] == tails;
    LoneTailsNeverJoin(tails, width);
    assert ShownJoins(s[1..], width) == 0;
  }

  lemma CutCharacter(lead: Byte, tails: seq<Byte>, width: int -> Width)
    requires Whole([lead] + tails) && Need(lead) == |tails| + 1 >= 2
    ensures StripKeepsText([lead, ESC, BRACKET, LOWER_M] + tails, width) <==> width(Rune([lead] + tails)) == 0
  {
    CutJoins(lead, tails, width);
    TextAgreesIffNoJoinShows([lead, ESC, BRACKET, LOWER_M] + tails, width);
  }

  // The failing family has members, E4 ESC [ m B8 AD (U+4E2D) for every table
  // that shows it; CC ESC [ m 81 (U+0301) is harmless where it has no width.
  lemma CutCharacterDiffers(width: int -> Width)
    ensures StripKeepsText([0xe4, ESC, BRACKET, LOWER_M, 0xb8, 0xad], width) <==> width(0x4e2d) == 0
    ensures StripKeepsText([0xcc, ESC, BRACKET, LOWER_M, 0x81], width) <==> width(0x301) == 0
  {
    CutCharacter(0xe4, [0xb8, 0xad], width);
    assert [0xe4, ESC, BRACKET, LOWER_M] + [0xb8, 0xad] == [0xe4, ESC, BRACKET, LOWER_M, 0xb8, 0xad];
    CutCharacter(0xcc, [0x81], width);
    assert [0xcc, ESC, BRACKET, LOWER_M] + [0x81] == [0xcc, ESC, BRACKET, LOWER_M, 0x81];
  }
}
