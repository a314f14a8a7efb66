// Repairing missing configuration blocks (internal/cli/doctorfix.go): which
// top-level keys are missing, the block of a key in the template, the merge.
module ConfigRepair {
  import opened Prelude

  // ---------------------------------------------------------------------
  // Lines
  // ---------------------------------------------------------------------

  const NL := '\n'

  // strings.Split(text, "\n")
  function Lines(text: string): (lines: seq<string>)
    ensures |lines| >= 1
  {
    if text == "" then [""]
    else
      var rest := Lines(text[1..]);
      if text[0] == NL then [""] + rest else [[text[0]] + rest[0]] + rest[1..]
  }

  // strings.Join(lines, "\n")
  function Join(lines: seq<string>): string
    requires lines != []
  {
    if |lines| == 1 then lines[0] else lines[0] + "\n" + Join(lines[1..])
  }

  ghost predicate OneLine(s: string) { NL !in s }

  lemma LinesCons(c: char, rest: string)
    ensures Lines([c] + rest)
         == if c == NL then [""] + Lines(rest) else [[c] + Lines(rest)[0]] + Lines(rest)[1..]
  {
    assert ([c] + rest)[1..] == rest;
  }

  lemma PrependLine(c: char, x: seq<string>, y: seq<string>)
    requires |x| >= 1
    ensures (x + y)[0] == x[0] && (x + y)[1..] == x[1..] + y
    ensures [[c] + (x + y)[0]] + (x + y)[1..] == ([[c] + x[0]] + x[1..]) + y
    ensures [""] + (x + y) == ([""] + x) + y
  {
  }

  lemma {:induction false} LinesAtNewline(a: string, b: string)
    ensures Lines(a + "\n" + b) == Lines(a) + Lines(b)
    decreases |a|
  {
    if a == "" {
      LinesCons(NL, b);
      assert a + "\n" + b == [NL] + b;
    } else {
      var c, tail := a[0], a[1..];
      LinesAtNewline(tail, b);
      LinesCons(c, tail);
      LinesCons(c, tail + "\n" + b);
      assert a == [c] + tail;
      assert a + "\n" + b == [c] + (tail + "\n" + b);
      PrependLine(c, Lines(tail), Lines(b));
    }
  }

  lemma {:induction false} LinesOfOneLine(s: string)
    requires OneLine(s)
    ensures Lines(s) == [s]
    decreases |s|
  {
    if s != "" {
      LinesOfOneLine(s[1..]);
      assert [s[0]] + s[1..] == s;
    }
  }

  lemma {:induction false} LinesAreOneLine(text: string, k: nat)
    requires k < |Lines(text)|
    ensures OneLine(Lines(text)[k])
    decreases |text|
  {
    if text != "" {
      var rest := Lines(text[1..]);
      if text[0] == NL {
        if k > 0 {
          LinesAreOneLine(text[1..], k - 1);
        }
      } else {
        LinesAreOneLine(text[1..], k);
      }
    }
  }

  lemma {:induction false} LinesInvertJoin(lines: seq<string>)
    requires lines != [] && forall k :: 0 <= k < |lines| ==> OneLine(lines[k])
    ensures Lines(Join(lines)) == lines
    decreases |lines|
  {
    LinesOfOneLine(lines[0]);
    if |lines| > 1 {
      LinesInvertJoin(lines[1..]);
      LinesAtNewline(lines[0], Join(lines[1..]));
    }
  }

  // And joining inverts splitting, for every text.
  lemma {:induction false} JoinInvertsLines(text: string)
    ensures Join(Lines(text)) == text
    decreases |text|
  {
    if text != "" {
      var rest := Lines(text[1..]);
      JoinInvertsLines(text[1..]);
      assert text == [text[0]] + text[1..];
      if text[0] == NL {
        assert ([""] + rest)[1..] == rest;
      } else {
        var longer := [[text[0]] + rest[0]] + rest[1..];
        assert longer[1..] == rest[1..];
        assert |rest| == 1 ==> Join(longer) == [text[0]] + Join(rest);
        assert |rest| > 1 ==> Join(longer) == [text[0]] + rest[0] + "\n" + Join(rest[1..]);
      }
    }
  }

  // ---------------------------------------------------------------------
  // White space, as unicode.IsSpace
  // ---------------------------------------------------------------------

  predicate IsSpace(c: char) {
    var n := c as int;
    || 9 <= n <= 13 || n == 0x20 || n == 0x85 || n == 0xa0 || n == 0x1680 || 0x2000 <= n <= 0x200a
    || n == 0x2028 || n == 0x2029 || n == 0x202f || n == 0x205f || n == 0x3000
  }

  function TrimLeft(s: string): string {
    if s == "" || !IsSpace(s[0]) then s else TrimLeft(s[1..])
  }

  function TrimRightSpace(s: string): string {
    if s == "" || !IsSpace(s[|s| - 1]) then s else TrimRightSpace(s[..|s| - 1])
  }

  function TrimSpace(s: string): string {
    var t := TrimLeft(s);
    TrimRightSpace(t)
  }

  // strings.TrimRight(text, "\n")
  function TrimNewlines(text: string): string {
    if text == "" || text[|text| - 1] != NL then text else TrimNewlines(text[..|text| - 1])
  }

  // ---------------------------------------------------------------------
  // Top-level keys
  // ---------------------------------------------------------------------

  // Indented lines, comments, list entries and empty lines name no key.
  predicate IsTop(line: string) {
    line != "" && line[0] != ' ' && line[0] != '\t' && line[0] != '#' && line[0] != '-'
  }

  function ColonAt(line: string): (n: nat)
    ensures n <= |line|
  {
    if line == "" || line[0] == ':' then 0 else ColonAt(line[1..]) + 1
  }

  function KeyOf(line: string): Option<string> {
    var n := ColonAt(line);
    if IsTop(line) && n < |line| then Some(TrimSpace(line[..n])) else None
  }

  ghost predicate HasKey(lines: seq<string>, key: string) {
    exists k :: 0 <= k < |lines| && KeyOf(lines[k]) == Some(key)
  }

  lemma HasKeyConcat(a: seq<string>, b: seq<string>, key: string)
    ensures HasKey(a + b, key) <==> HasKey(a, key) || HasKey(b, key)
  {
    if HasKey(a, key) {
      var k :| 0 <= k < |a| && KeyOf(a[k]) == Some(key);
      assert (a + b)[k] == a[k];
    }
    if HasKey(b, key) {
      var k :| 0 <= k < |b| && KeyOf(b[k]) == Some(key);
      assert (a + b)[|a| + k] == b[k];
    }
    if HasKey(a + b, key) {
      var k :| 0 <= k < |a + b| && KeyOf((a + b)[k]) == Some(key);
      if k < |a| {
        assert KeyOf(a[k]) == Some(key);
      } else {
        assert KeyOf(b[k - |a|]) == Some(key);
      }
    }
  }

  ghost function Select(keys: seq<string>, keep: string -> bool): (kept: seq<string>)
    ensures forall x :: x in kept <==> x in keys && keep(x)
  {
    if keys == [] then []
    else
      var n := |keys| - 1;
      assert keys == keys[..n] + [keys[n]];
      Select(keys[..n], keep) + if keep(keys[n]) then [keys[n]] else []
  }

  // Those of keys that the lines have not.
  ghost predicate IsMissing(lines: seq<string>, keys: seq<string>, missing: seq<string>) {
    missing == Select(keys, k => !HasKey(lines, k))
  }

  method MissingTopLevelKeys(text: string, keys: seq<string>) returns (missing: seq<string>)
    ensures IsMissing(Lines(text), keys, missing)
  {
    var present: set<string> := {};
    var lines := Lines(text);
    for i := 0 to |lines|
      invariant forall k :: k in present <==> HasKey(lines[..i], k)
    {
      var key := KeyOf(lines[i]);
      forall k
        ensures HasKey(lines[..i + 1], k) <==> HasKey(lines[..i], k) || key == Some(k)
      {
        assert lines[..i + 1] == lines[..i] + [lines[i]];
        HasKeyConcat(lines[..i], [lines[i]], k);
        assert HasKey([lines[i]], k) <==> key == Some(k) by {
          assert [lines[i]][0] == lines[i];
        }
      }
      if key.Some? {
        present := present + {key.value};
      }
    }
    assert lines[..|lines|] == lines;
    missing := [];
    ghost var keep := k => !HasKey(lines, k);
    for i := 0 to |keys|
      invariant missing == Select(keys[..i], keep)
    {
      assert keys[..i + 1][..i] == keys[..i];
      if keys[i] !in present {
        missing := missing + [keys[i]];
      }
    }
    assert keys[..|keys|] == keys;
  }

  // ---------------------------------------------------------------------
  // The block of a key
  // ---------------------------------------------------------------------

  predicate IsBlank(line: string) { TrimSpace(line) == "" }

  predicate IsComment(line: string) { TrimSpace(line) != "" && TrimSpace(line)[0] == '#' }

  // Lines under a key that belong to its block: none of them names a key.
  predicate Continues(line: string) { line == "" || line[0] == ' ' || line[0] == '\t' || line[0] == '-' }

  // The first line with this key, or the number of lines.
  function StartOf(lines: seq<string>, key: string): (start: nat)
    ensures start <= |lines|
    ensures start < |lines| ==> KeyOf(lines[start]) == Some(key)
    ensures forall k :: 0 <= k < start ==> KeyOf(lines[k]) != Some(key)
  {
    if lines == [] || KeyOf(lines[0]) == Some(key) then 0 else StartOf(lines[1..], key) + 1
  }

  // Where the comments that end directly above line n begin.
  function CommentsAbove(lines: seq<string>, n: nat): (first: nat)
    requires n <= |lines|
    ensures first <= n
    ensures forall k :: first <= k < n ==> IsComment(lines[k])
    ensures first > 0 ==> !IsComment(lines[first - 1])
  {
    if n == 0 || !IsComment(lines[n - 1]) then n else CommentsAbove(lines, n - 1)
  }

  function RunEnd(lines: seq<string>, n: nat): (end: nat)
    requires n <= |lines|
    ensures n <= end <= |lines|
    ensures forall k :: n <= k < end ==> Continues(lines[k])
    ensures end < |lines| ==> !Continues(lines[end])
    decreases |lines| - n
  {
    if n == |lines| || !Continues(lines[n]) then n else RunEnd(lines, n + 1)
  }

  function WithoutBlanks(lines: seq<string>, low: nat, high: nat): (end: nat)
    requires low <= high <= |lines|
    ensures low <= end <= high
    ensures forall k :: end <= k < high ==> IsBlank(lines[k])
    ensures end > low ==> !IsBlank(lines[end - 1])
  {
    if low == high || !IsBlank(lines[high - 1]) then high else WithoutBlanks(lines, low, high - 1)
  }

  // A block is the comments directly above the key, the key line, and what
  // belongs to it without trailing blank lines.
  function BlockFirst(lines: seq<string>, key: string): (first: nat)
    ensures first <= StartOf(lines, key)
  {
    CommentsAbove(lines, StartOf(lines, key))
  }

  function BlockEnd(lines: seq<string>, start: nat): (end: nat)
    requires start < |lines|
    ensures start < end <= |lines|
    ensures forall k :: start < k < end ==> Continues(lines[k])
  {
    WithoutBlanks(lines, start + 1, RunEnd(lines, start + 1))
  }

  function Block(lines: seq<string>, key: string): (block: Option<seq<string>>)
    ensures block.Some? <==> HasKey(lines, key)
    ensures block.Some? ==> block.value != []
  {
    var start := StartOf(lines, key);
    if start == |lines| then None else Some(lines[BlockFirst(lines, key)..BlockEnd(lines, start)])
  }

  function BlockText(text: string, key: string): (block: string)
    ensures block == "" <==> !HasKey(Lines(text), key)
  {
    match Block(Lines(text), key)
    case None => ""
    case Some(lines) => Join(lines) + "\n"
  }

  method WalkBack(lines: seq<string>, start: nat) returns (first: nat)
    requires start <= |lines|
    ensures first == CommentsAbove(lines, start)
  {
    first := start;
    while first > 0 && IsComment(lines[first - 1])
      invariant 0 <= first <= start
      invariant CommentsAbove(lines, first) == CommentsAbove(lines, start)
    {
      first := first - 1;
    }
  }

  method WalkDown(lines: seq<string>, start: nat) returns (end: nat)
    requires start < |lines|
    ensures end == BlockEnd(lines, start)
  {
    end := start + 1;
    while end < |lines| && Continues(lines[end])
      invariant start < end <= |lines|
      invariant RunEnd(lines, end) == RunEnd(lines, start + 1)
    {
      end := end + 1;
    }
    ghost var stop := end;
    while end > start + 1 && IsBlank(lines[end - 1])
      invariant start < end <= stop
      invariant WithoutBlanks(lines, start + 1, end) == WithoutBlanks(lines, start + 1, stop)
    {
      end := end - 1;
    }
  }

  method ExtractTopLevelBlock(text: string, key: string) returns (block: string)
    ensures block == BlockText(text, key)
  {
    var lines := Lines(text);
    var start := 0;
    while start < |lines| && KeyOf(lines[start]) != Some(key)
      invariant 0 <= start <= |lines|
      invariant forall k :: 0 <= k < start ==> KeyOf(lines[k]) != Some(key)
    {
      start := start + 1;
    }
    assert start == StartOf(lines, key);
    if start == |lines| {
      return "";
    }
    var first := WalkBack(lines, start);
    var end := WalkDown(lines, start);
    block := Join(lines[first..end]) + "\n";
  }

  // ---------------------------------------------------------------------
  // The copied lines, by positions and characters
  // ---------------------------------------------------------------------

  ghost predicate AllSpace(s: string) { forall k :: 0 <= k < |s| ==> IsSpace(s[k]) }

  // t is s without the white space at both ends.
  ghost predicate Trims(s: string, t: string, a: nat) {
    && a + |t| <= |s| && s[a..a + |t|] == t
    && AllSpace(s[..a]) && AllSpace(s[a + |t|..])
    && (t != "" ==> !IsSpace(t[0]) && !IsSpace(t[|t| - 1]))
  }

  lemma {:induction false} TrimLeftTrims(s: string) returns (a: nat)
    ensures a <= |s| && TrimLeft(s) == s[a..] && AllSpace(s[..a])
    ensures a < |s| ==> !IsSpace(s[a])
    decreases |s|
  {
    a := 0;
    if s != "" && IsSpace(s[0]) {
      var b := TrimLeftTrims(s[1..]);
      a := b + 1;
      assert forall k :: 0 < k < |s| ==> s[k] == s[1..][k - 1];
      assert s[..a] == [s[0]] + s[1..][..a - 1];
    }
  }

  lemma {:induction false} TrimRightTrims(s: string)
    ensures
      var t := TrimRightSpace(s);
      t <= s && AllSpace(s[|t|..]) && (t != "" ==> t[0] == s[0] && !IsSpace(t[|t| - 1]))
    decreases |s|
  {
    if s != "" && IsSpace(s[|s| - 1]) {
      var front := s[..|s| - 1];
      TrimRightTrims(front);
      var t := TrimRightSpace(front);
      assert s[|t|..] == front[|t|..] + [s[|s| - 1]];
    }
  }

  lemma TrimSpaceTrims(s: string) returns (a: nat)
    ensures Trims(s, TrimSpace(s), a)
  {
    a := TrimLeftTrims(s);
    TrimRightTrims(s[a..]);
    var t := TrimSpace(s);
    assert s[a..][..|t|] == t && s[a..][|t|..] == s[a + |t|..];
  }

  // The white space of an ASCII text: blank, tab, newline, vertical tab, form
  // feed and carriage return.
  lemma AsciiSpaces(c: char)
    requires c < '\U{0080}'
    ensures IsSpace(c) <==> c == ' ' || '\t' <= c <= '\r'
  {
  }

  lemma BlankLinesAreSpace(line: string)
    ensures IsBlank(line) <==> AllSpace(line)
  {
    var a := TrimSpaceTrims(line);
    var t := TrimSpace(line);
    if t != "" {
      assert line[a] == t[0];
    } else {
      assert line == line[..a] + line[a..];
    }
  }

  // The first character that is no white space is a hash sign.
  ghost predicate BeginsWithHash(line: string) {
    exists k :: 0 <= k < |line| && line[k] == '#' && AllSpace(line[..k])
  }

  lemma HashIsHead(line: string, k: nat, a: nat)
    requires k < |line| && line[k] == '#' && AllSpace(line[..k]) && Trims(line, TrimSpace(line), a)
    ensures a == k && TrimSpace(line) != "" && TrimSpace(line)[0] == '#'
  {
    var t := TrimSpace(line);
    assert !IsSpace('#');
    assert forall j :: 0 <= j < k ==> line[j] == line[..k][j];
    assert forall j :: 0 <= j < a ==> line[j] == line[..a][j];
    assert forall j :: a + |t| <= j < |line| ==> line[j] == line[a + |t|..][j - a - |t|];
    assert t != "" ==> line[a] == t[0];
  }

  lemma CommentsBeginWithHash(line: string)
    ensures IsComment(line) <==> BeginsWithHash(line)
  {
    var a := TrimSpaceTrims(line);
    var t := TrimSpace(line);
    if IsComment(line) {
      assert line[a] == t[0];
    }
    if BeginsWithHash(line) {
      var k :| 0 <= k < |line| && line[k] == '#' && AllSpace(line[..k]);
      HashIsHead(line, k, a);
    }
  }

  ghost predicate IsNameEnd(line: string, n: nat) { n < |line| && line[n] == ':' && ':' !in line[..n] }

  // The line is a top-level entry: it begins with none of blank, tab, hash sign
  // and dash, and what stands before its first colon is the key, up to white
  // space around it.
  ghost predicate Names(line: string, key: string) {
    && line != "" && line[0] !in {' ', '\t', '#', '-'}
    && exists n :: 0 <= n < |line| && IsNameEnd(line, n) && TrimSpace(line[..n]) == key
  }

  lemma {:induction false} ColonIsFirst(line: string)
    ensures ':' !in line[..ColonAt(line)]
    ensures ColonAt(line) < |line| ==> line[ColonAt(line)] == ':'
    decreases |line|
  {
    if line != "" && line[0] != ':' {
      ColonIsFirst(line[1..]);
      assert line[..ColonAt(line)] == [line[0]] + line[1..][..ColonAt(line[1..])];
    }
  }

  lemma KeyLinesNameTheirKey(line: string, key: string)
    ensures KeyOf(line) == Some(key) <==> Names(line, key)
  {
    ColonIsFirst(line);
    var n := ColonAt(line);
    if n < |line| {
      assert IsNameEnd(line, n);
    }
    assert forall j :: 0 <= j < n ==> line[j] == line[..n][j];
    forall m | 0 <= m < |line| && IsNameEnd(line, m)
      ensures m == n
    {
      assert forall j :: 0 <= j < m ==> line[j] == line[..m][j];
    }
  }

  // Empty, indented, or an entry of a list.
  predicate Belongs(line: string) { line == "" || line[0] == ' ' || line[0] == '\t' || line[0] == '-' }

  // The lines that belong to line start run up to stop; those from end on are blank.
  ghost predicate IsTail(lines: seq<string>, start: nat, end: nat, stop: nat) {
    && start < end <= stop <= |lines|
    && (forall k :: start < k < stop ==> Belongs(lines[k]))
    && (stop < |lines| ==> !Belongs(lines[stop]))
    && (forall k :: end <= k < stop ==> AllSpace(lines[k]))
    && (end > start + 1 ==> !AllSpace(lines[end - 1]))
  }

  // Line start is the first that names the key; the comments directly above it
  // begin at first.
  ghost predicate IsHead(lines: seq<string>, key: string, first: nat, start: nat) {
    && first <= start < |lines|
    && Names(lines[start], key) && (forall k :: 0 <= k < start ==> !Names(lines[k], key))
    && (forall k :: first <= k < start ==> BeginsWithHash(lines[k]))
    && (first > 0 ==> !BeginsWithHash(lines[first - 1]))
  }

  lemma TailIsRight(lines: seq<string>, start: nat)
    requires start < |lines|
    ensures IsTail(lines, start, BlockEnd(lines, start), RunEnd(lines, start + 1))
  {
    forall k | 0 <= k < |lines|
      ensures IsBlank(lines[k]) <==> AllSpace(lines[k])
    {
      BlankLinesAreSpace(lines[k]);
    }
    assert forall k :: 0 <= k < |lines| ==> Continues(lines[k]) == Belongs(lines[k]);
  }

  lemma StartIsRight(lines: seq<string>, key: string)
    requires StartOf(lines, key) < |lines|
    ensures
      var start := StartOf(lines, key);
      Names(lines[start], key) && forall k :: 0 <= k < start ==> !Names(lines[k], key)
  {
    forall k | 0 <= k < |lines|
      ensures KeyOf(lines[k]) == Some(key) <==> Names(lines[k], key)
    {
      KeyLinesNameTheirKey(lines[k], key);
    }
  }

  lemma CommentsAreRight(lines: seq<string>, n: nat)
    requires n <= |lines|
    ensures
      var first := CommentsAbove(lines, n);
      && (forall k :: first <= k < n ==> BeginsWithHash(lines[k]))
      && (first > 0 ==> !BeginsWithHash(lines[first - 1]))
  {
    forall k | 0 <= k < |lines|
      ensures IsComment(lines[k]) <==> BeginsWithHash(lines[k])
    {
      CommentsBeginWithHash(lines[k]);
    }
  }

  ghost predicate SomeNames(lines: seq<string>, key: string) { exists k :: 0 <= k < |lines| && Names(lines[k], key) }

  // The keys of all these results are what the lines name.
  lemma SomeLineNames(lines: seq<string>, key: string)
    ensures HasKey(lines, key) <==> SomeNames(lines, key)
  {
    forall k | 0 <= k < |lines|
      ensures KeyOf(lines[k]) == Some(key) <==> Names(lines[k], key)
    {
      KeyLinesNameTheirKey(lines[k], key);
    }
  }

  // Nothing is copied for a key exactly when no line of the template names it.
  lemma NothingToCopy(text: string, key: string)
    ensures BlockText(text, key) == "" <==> !SomeNames(Lines(text), key)
  {
    SomeLineNames(Lines(text), key);
  }

  // Else it is the key's block, line by line: all comments directly above its
  // first line, that line, and the lines that belong to it up to the next one
  // that does not, without blank ones at the end.
  lemma CopiedBlock(text: string, key: string) returns (first: nat, start: nat, end: nat, stop: nat)
    requires BlockText(text, key) != ""
    ensures IsHead(Lines(text), key, first, start) && IsTail(Lines(text), start, end, stop)
    ensures BlockText(text, key) == Join(Lines(text)[first..end]) + "\n"
  {
    var lines := Lines(text);
    start := StartOf(lines, key);
    first, end, stop := BlockFirst(lines, key), BlockEnd(lines, start), RunEnd(lines, start + 1);
    StartIsRight(lines, key);
    CommentsAreRight(lines, start);
    TailIsRight(lines, start);
  }

  ghost predicate KeyAmong(lines: seq<string>, from: nat, to: nat, key: string)
    requires from <= to <= |lines|
  {
    exists k :: from <= k < to && KeyOf(lines[k]) == Some(key)
  }

  // A comment of the copied block that the key scan takes for a key: it begins
  // with white space other than a space or a tab.
  ghost predicate StrayKey(text: string, owner: string, key: string) {
    KeyAmong(Lines(text), BlockFirst(Lines(text), owner), StartOf(Lines(text), owner), key)
  }

  lemma SliceKeys(lines: seq<string>, first: nat, start: nat, end: nat, owner: string, key: string)
    requires first <= start < end <= |lines| && KeyOf(lines[start]) == Some(owner)
    requires forall k :: start < k < end ==> KeyOf(lines[k]) == None
    ensures HasKey(lines[first..end], key) <==> key == owner || KeyAmong(lines, first, start, key)
  {
    var block := lines[first..end];
    if HasKey(block, key) {
      var k :| 0 <= k < |block| && KeyOf(block[k]) == Some(key);
      assert KeyOf(lines[first + k]) == Some(key);
    }
    if key == owner {
      assert KeyOf(block[start - first]) == Some(key);
    } else if KeyAmong(lines, first, start, key) {
      var k :| first <= k < start && KeyOf(lines[k]) == Some(key);
      assert KeyOf(block[k - first]) == Some(key);
    }
  }

  // A block carries its own key and the keys of its stray comments, no others.
  lemma BlockKeys(text: string, owner: string, key: string)
    requires HasKey(Lines(text), owner)
    ensures HasKey(Block(Lines(text), owner).value, key) <==> key == owner || StrayKey(text, owner, key)
  {
    var lines := Lines(text);
    var start := StartOf(lines, owner);
    var end := BlockEnd(lines, start);
    SliceKeys(lines, BlockFirst(lines, owner), start, end, owner, key);
  }

  lemma {:induction false} TrimRightKeepsHead(s: string)
    requires s != "" && !IsSpace(s[0])
    ensures TrimRightSpace(s) != "" && TrimRightSpace(s)[0] == s[0]
    decreases |s|
  {
    if |s| > 1 && IsSpace(s[|s| - 1]) {
      TrimRightKeepsHead(s[..|s| - 1]);
    }
  }

  lemma {:induction false} TrimRightHead(s: string)
    requires TrimRightSpace(s) != ""
    ensures s != "" && TrimRightSpace(s)[0] == s[0]
    decreases |s|
  {
    if IsSpace(s[|s| - 1]) {
      TrimRightHead(s[..|s| - 1]);
    }
  }

  // Cutting a comment line at its colon leaves the '#' in front.
  lemma {:induction false} CommentHead(line: string)
    requires TrimLeft(line) != "" && TrimLeft(line)[0] == '#' && ColonAt(line) < |line|
    ensures TrimSpace(line[..ColonAt(line)]) != "" && TrimSpace(line[..ColonAt(line)])[0] == '#'
    decreases |line|
  {
    var name := line[..ColonAt(line)];
    if IsSpace(line[0]) {
      CommentHead(line[1..]);
      assert name[1..] == line[1..][..ColonAt(line[1..])];
    } else {
      TrimRightKeepsHead(name);
    }
  }

  // So the key of a stray comment begins with '#' and is no real key.
  lemma StrayKeysAreHashes(text: string, owner: string, key: string)
    requires StrayKey(text, owner, key)
    ensures key != "" && key[0] == '#'
  {
    var lines := Lines(text);
    var start := StartOf(lines, owner);
    var k :| CommentsAbove(lines, start) <= k < start && KeyOf(lines[k]) == Some(key);
    assert IsComment(lines[k]);
    TrimRightHead(TrimLeft(lines[k]));
    CommentHead(lines[k]);
  }

  // The white space in front of a comment is spaces and tabs only.
  ghost predicate PlainComments(text: string) {
    forall k :: 0 <= k < |Lines(text)| && IsComment(Lines(text)[k])
      ==> Lines(text)[k] != "" && (Lines(text)[k][0] == '#' || Lines(text)[k][0] == ' ' || Lines(text)[k][0] == '\t')
  }

  lemma PlainCommentsAreNotStray(text: string, owner: string, key: string)
    requires PlainComments(text)
    ensures !StrayKey(text, owner, key)
  {
    var lines := Lines(text);
    var start := StartOf(lines, owner);
    forall k | CommentsAbove(lines, start) <= k < start
      ensures KeyOf(lines[k]) != Some(key)
    {
      assert IsComment(lines[k]);
      assert !IsTop(lines[k]);
    }
  }

  // ---------------------------------------------------------------------
  // The merge
  // ---------------------------------------------------------------------

  function Header(path: string): string { "# added by `yanshi doctor -fix` from " + path }

  function Merged(current: string, path: string, additions: seq<string>): string
    requires additions != []
  {
    TrimNewlines(current) + "\n" + ("" + "\n" + (Header(path) + "\n" + Join(additions)))
  }

  ghost function Missing(text: string, keys: seq<string>): seq<string> {
    Select(keys, k => !HasKey(Lines(text), k))
  }

  ghost function Added(template: string, missing: seq<string>): seq<string> {
    Select(missing, k => BlockText(template, k) != "")
  }

  ghost function Additions(template: string, missing: seq<string>): (texts: seq<string>)
    ensures |texts| == |Added(template, missing)|
  {
    var added := Added(template, missing);
    seq(|added|, i requires 0 <= i < |added| => BlockText(template, added[i]))
  }

  lemma NoKeyOnBlankLine(key: string)
    ensures !HasKey([""], key)
  {
    assert KeyOf("") == None;
  }

  lemma {:induction false} TrimmedKeys(text: string, key: string)
    ensures HasKey(Lines(TrimNewlines(text)), key) <==> HasKey(Lines(text), key)
    decreases |text|
  {
    if text != "" && text[|text| - 1] == NL {
      var t := text[..|text| - 1];
      TrimmedKeys(t, key);
      assert text == t + "\n" + "";
      LinesAtNewline(t, "");
      HasKeyConcat(Lines(t), [""], key);
      NoKeyOnBlankLine(key);
    }
  }

  lemma {:induction false} TrimmedIsPrefix(text: string)
    ensures TrimNewlines(text) <= text
    ensures forall k :: |TrimNewlines(text)| <= k < |text| ==> text[k] == NL
    decreases |text|
  {
    if text != "" && text[|text| - 1] == NL {
      TrimmedIsPrefix(text[..|text| - 1]);
    }
  }

  lemma {:induction false} TrimmedEnd(text: string)
    ensures TrimNewlines(text) == "" || TrimNewlines(text)[|TrimNewlines(text)| - 1] != '\n'
    decreases |text|
  {
    if text != "" && text[|text| - 1] == NL {
      TrimmedEnd(text[..|text| - 1]);
    }
  }

  lemma {:induction false} KeysOfJoin(texts: seq<string>, key: string)
    requires texts != []
    ensures HasKey(Lines(Join(texts)), key) <==> exists i :: 0 <= i < |texts| && HasKey(Lines(texts[i]), key)
    decreases |texts|
  {
    if |texts| == 1 {
      assert texts[0] == Join(texts);
    } else {
      var rest := texts[1..];
      KeysOfJoin(rest, key);
      LinesAtNewline(texts[0], Join(rest));
      HasKeyConcat(Lines(texts[0]), Lines(Join(rest)), key);
      if i :| 0 <= i < |texts| && HasKey(Lines(texts[i]), key) {
        if i > 0 {
          assert HasKey(Lines(rest[i - 1]), key);
        }
      }
      if i :| 0 <= i < |rest| && HasKey(Lines(rest[i]), key) {
        assert HasKey(Lines(texts[i + 1]), key);
      }
    }
  }

  lemma SlicesAreOneLine(text: string, from: nat, to: nat)
    requires from <= to <= |Lines(text)|
    ensures forall k :: 0 <= k < to - from ==> OneLine(Lines(text)[from..to][k])
  {
    forall k | 0 <= k < to - from
      ensures OneLine(Lines(text)[from..to][k])
    {
      LinesAreOneLine(text, from + k);
    }
  }

  // A copied block reads back as its lines and one blank line.
  lemma BlockTextLines(text: string, owner: string)
    requires HasKey(Lines(text), owner)
    ensures Lines(BlockText(text, owner)) == Block(Lines(text), owner).value + [""]
  {
    var lines := Lines(text);
    var start := StartOf(lines, owner);
    SlicesAreOneLine(text, BlockFirst(lines, owner), BlockEnd(lines, start));
    var block := Block(lines, owner).value;
    LinesInvertJoin(block);
    LinesAtNewline(Join(block), "");
    assert Join(block) + "\n" + "" == Join(block) + "\n";
  }

  lemma BlockTextKeys(template: string, owner: string, key: string)
    requires BlockText(template, owner) != ""
    ensures HasKey(Lines(BlockText(template, owner)), key) <==> key == owner || StrayKey(template, owner, key)
  {
    BlockTextLines(template, owner);
    HasKeyConcat(Block(Lines(template), owner).value, [""], key);
    NoKeyOnBlankLine(key);
    BlockKeys(template, owner, key);
  }

  // The same owners, by position and by membership.
  lemma SomeOwner(template: string, added: seq<string>, key: string)
    ensures (exists i :: 0 <= i < |added| && (key == added[i] || StrayKey(template, added[i], key)))
       <==> key in added || exists owner :: owner in added && StrayKey(template, owner, key)
  {
  }

  lemma KeysOfAdditions(template: string, missing: seq<string>, key: string)
    requires Added(template, missing) != []
    ensures HasKey(Lines(Join(Additions(template, missing))), key)
       <==> || key in Added(template, missing)
            || exists owner :: owner in Added(template, missing) && StrayKey(template, owner, key)
  {
    var added, texts := Added(template, missing), Additions(template, missing);
    KeysOfJoin(texts, key);
    forall i | 0 <= i < |added|
      ensures HasKey(Lines(texts[i]), key) <==> key == added[i] || StrayKey(template, added[i], key)
    {
      assert added[i] in added;
      BlockTextKeys(template, added[i], key);
    }
    SomeOwner(template, added, key);
  }

  // The keys of the merged file, for every current text, template and path:
  // those of the current text, of the header line, of the added blocks, and of
  // the stray comments copied with them.
  lemma KeysAfterMerge(current: string, template: string, path: string, missing: seq<string>, key: string)
    requires Added(template, missing) != []
    ensures HasKey(Lines(Merged(current, path, Additions(template, missing))), key)
       <==> || HasKey(Lines(current), key) || HasKey(Lines(Header(path)), key)
            || key in Added(template, missing)
            || exists owner :: owner in Added(template, missing) && StrayKey(template, owner, key)
  {
    var added, texts := Added(template, missing), Additions(template, missing);
    var tail := Join(texts);
    LinesAtNewline(TrimNewlines(current), "" + "\n" + (Header(path) + "\n" + tail));
    LinesAtNewline("", Header(path) + "\n" + tail);
    LinesAtNewline(Header(path), tail);
    HasKeyConcat(Lines(TrimNewlines(current)), [""] + (Lines(Header(path)) + Lines(tail)), key);
    HasKeyConcat([""], Lines(Header(path)) + Lines(tail), key);
    HasKeyConcat(Lines(Header(path)), Lines(tail), key);
    NoKeyOnBlankLine(key);
    TrimmedKeys(current, key);
    KeysOfAdditions(template, missing, key);
  }

  lemma HeaderHasNoKey(path: string, key: string)
    requires OneLine(path)
    ensures !HasKey(Lines(Header(path)), key)
  {
    LinesOfOneLine(Header(path));
    assert KeyOf(Header(path)) == None;
  }

  // The merged file has the current keys and the added ones and no other.
  ghost predicate MergesExactly(current: string, template: string, path: string, missing: seq<string>)
    requires Added(template, missing) != []
  {
    forall key :: HasKey(Lines(Merged(current, path, Additions(template, missing))), key)
             <==> HasKey(Lines(current), key) || key in Added(template, missing)
  }

  // Keys that line breaks in the path bring into the header, and keys of stray
  // comments in the added blocks: they do no harm where they are there anyway.
  ghost predicate HeaderKeysKnown(current: string, template: string, path: string, missing: seq<string>) {
    forall key :: HasKey(Lines(Header(path)), key) ==> HasKey(Lines(current), key) || key in Added(template, missing)
  }

  ghost predicate StraysKnown(current: string, template: string, missing: seq<string>) {
    forall owner, key :: owner in Added(template, missing) && StrayKey(template, owner, key)
                    ==> HasKey(Lines(current), key) || key in Added(template, missing)
  }

  // For all inputs, exactly when the merge adds the missing blocks the template
  // has and no key besides.
  lemma MergeIsExactIff(current: string, template: string, path: string, missing: seq<string>)
    requires Added(template, missing) != []
    ensures MergesExactly(current, template, path, missing)
       <==> HeaderKeysKnown(current, template, path, missing) && StraysKnown(current, template, missing)
  {
    forall key
      ensures HasKey(Lines(Merged(current, path, Additions(template, missing))), key)
         <==> || HasKey(Lines(current), key) || HasKey(Lines(Header(path)), key)
              || key in Added(template, missing)
              || exists owner :: owner in Added(template, missing) && StrayKey(template, owner, key)
    {
      KeysAfterMerge(current, template, path, missing, key);
    }
  }

  // With a one-line path only the stray comments can spoil it.
  lemma MergeAddsExactlyTheBlocks(current: string, template: string, path: string, missing: seq<string>)
    requires Added(template, missing) != [] && OneLine(path)
    ensures MergesExactly(current, template, path, missing) <==> StraysKnown(current, template, missing)
  {
    MergeIsExactIff(current, template, path, missing);
    forall key
      ensures !HasKey(Lines(Header(path)), key)
    {
      HeaderHasNoKey(path, key);
    }
  }

  // They spoil no key that does not begin with '#', and none at all when the
  // comments are plain.
  lemma RealKeysAreExact(current: string, template: string, path: string, missing: seq<string>, key: string)
    requires Added(template, missing) != [] && OneLine(path)
    requires PlainComments(template) || key == "" || key[0] != '#'
    ensures HasKey(Lines(Merged(current, path, Additions(template, missing))), key)
       <==> HasKey(Lines(current), key) || key in Added(template, missing)
  {
    KeysAfterMerge(current, template, path, missing, key);
    HeaderHasNoKey(path, key);
    forall owner | StrayKey(template, owner, key)
      ensures false
    {
      if PlainComments(template) {
        PlainCommentsAreNotStray(template, owner, key);
      } else {
        StrayKeysAreHashes(template, owner, key);
      }
    }
  }

  const REQUIRED: seq<string> := ["server", "storage", "profiles"]

  const FORM_FEED_TEMPLATE := "\U{000c}#a:\nserver:"

  lemma RequiredServer(current: string)
    requires !HasKey(Lines(current), "server")
    ensures "server" in Missing(current, REQUIRED) && "#a" !in Missing(current, REQUIRED)
  {
    assert REQUIRED[0] == "server";
    assert forall k :: k in REQUIRED ==> k[0] != '#';
  }

  lemma TemplateLines()
    ensures "\U{000c}#a:" + "\n" + "server:" == FORM_FEED_TEMPLATE
    ensures OneLine("\U{000c}#a:") && OneLine("server:")
  {
  }

  lemma StrayInTwoLines(lines: seq<string>, key: string, owner: string)
    requires |lines| == 2 && key != owner && IsComment(lines[0])
    requires KeyOf(lines[0]) == Some(key) && KeyOf(lines[1]) == Some(owner)
    ensures StartOf(lines, owner) == 1 && BlockFirst(lines, owner) == 0 && KeyAmong(lines, 0, 1, key)
  {
    assert lines[1..][0] == lines[1];
    assert StartOf(lines[1..], owner) == 0;
  }

  lemma StrayAbove(comment: string, line: string, key: string, owner: string)
    requires OneLine(comment) && OneLine(line) && key != owner
    requires IsComment(comment) && KeyOf(comment) == Some(key) && KeyOf(line) == Some(owner)
    ensures HasKey(Lines(comment + "\n" + line), owner)
    ensures StrayKey(comment + "\n" + line, owner, key)
  {
    LinesAtNewline(comment, line);
    LinesOfOneLine(comment);
    LinesOfOneLine(line);
    var lines := Lines(comment + "\n" + line);
    assert lines == [comment, line];
    assert KeyOf(lines[1]) == Some(owner);
    StrayInTwoLines(lines, key, owner);
  }

  lemma NothingToTrim(s: string)
    requires s != "" && !IsSpace(s[0]) && !IsSpace(s[|s| - 1])
    ensures TrimSpace(s) == s
  {
  }

  lemma TrimOneSpace(c: char, s: string)
    requires IsSpace(c) && s != "" && !IsSpace(s[0]) && !IsSpace(s[|s| - 1])
    ensures TrimSpace([c] + s) == s
  {
    assert ([c] + s)[1..] == s && ([c] + s)[0] == c;
    assert TrimLeft([c] + s) == TrimLeft(s);
    NothingToTrim(s);
  }

  lemma {:induction false} ColonAfter(name: string, rest: string)
    requires ':' !in name
    ensures ColonAt(name + ":" + rest) == |name|
  {
    if name != "" {
      ColonAfter(name[1..], rest);
      assert (name + ":" + rest)[1..] == name[1..] + ":" + rest;
    }
  }

  lemma HiddenComment()
    ensures IsComment("\U{000c}#a:") && KeyOf("\U{000c}#a:") == Some("#a")
  {
    var line := "\U{000c}#a:";
    TrimOneSpace('\U{000c}', "#a:");
    TrimOneSpace('\U{000c}', "#a");
    ColonAfter("\U{000c}#a", "");
    assert "\U{000c}#a" + ":" + "" == line && line[..3] == "\U{000c}#a";
    assert ['\U{000c}'] + "#a:" == line && ['\U{000c}'] + "#a" == "\U{000c}#a";
  }

  lemma ServerLine()
    ensures KeyOf("server:") == Some("server")
  {
    ColonAfter("server", "");
    assert "server" + ":" + "" == "server:" && "server:"[..6] == "server";
    NothingToTrim("server");
  }

  lemma FormFeedIsStray()
    ensures HasKey(Lines(FORM_FEED_TEMPLATE), "server") && StrayKey(FORM_FEED_TEMPLATE, "server", "#a")
  {
    HiddenComment();
    ServerLine();
    TemplateLines();
    StrayAbove("\U{000c}#a:", "server:", "#a", "server");
  }

  // The failing family has members: whenever the server block is missing, a
  // comment of this template behind a form feed ends up as a key of the merged
  // file, and that key is none of the added ones.
  lemma FormFeedCommentBecomesAKey(current: string, path: string)
    requires !HasKey(Lines(current), "server")
    ensures
      var missing := Missing(current, REQUIRED);
      && Added(FORM_FEED_TEMPLATE, missing) != []
      && "#a" !in Added(FORM_FEED_TEMPLATE, missing)
      && HasKey(Lines(Merged(current, path, Additions(FORM_FEED_TEMPLATE, missing))), "#a")
  {
    var missing := Missing(current, REQUIRED);
    RequiredServer(current);
    FormFeedIsStray();
    assert "server" in Added(FORM_FEED_TEMPLATE, missing);
    KeysAfterMerge(current, FORM_FEED_TEMPLATE, path, missing, "#a");
  }

  // ---------------------------------------------------------------------
  // The repair
  // ---------------------------------------------------------------------

  datatype Status = Fixed | Skipped | Failed

  // How the file system answers: whether the backup succeeds, and what a
  // failing write leaves behind.
  datatype Disk = Disk(backupOk: bool, torn: Option<string>)

  // What is on disk: the configuration, and the backups made of it, each
  // under a name of its own.
  datatype Files = Files(config: Option<string>, backups: seq<string>)

  ghost predicate RepairPost(was: Files, path: string, template: Option<string>, keys: seq<string>,
                             dryRun: bool, disk: Disk, now: Files, status: Status) {
    if was.config == None || template == None || Missing(was.config.value, keys) == [] then
      now == was && status == Skipped
    else
      var current, missing := was.config.value, Missing(was.config.value, keys);
      if Added(template.value, missing) == [] then now == was && status == Failed
      else if dryRun then now == was && status == Fixed
      else if !disk.backupOk then now == was && status == Failed
      else
        && now.backups == was.backups + [current]
        && if disk.torn.Some? then now.config == disk.torn && status == Failed
           else
             && status == Fixed
             && now.config == Some(Merged(current, path, Additions(template.value, missing)))
  }

  lemma SelectSnoc(keys: seq<string>, key: string, keep: string -> bool)
    ensures Select(keys + [key], keep) == Select(keys, keep) + if keep(key) then [key] else []
  {
    assert (keys + [key])[..|keys|] == keys;
  }

  lemma AdditionsSnoc(template: string, missing: seq<string>, key: string)
    ensures Additions(template, missing + [key])
         == Additions(template, missing) + if BlockText(template, key) == "" then [] else [BlockText(template, key)]
  {
    SelectSnoc(missing, key, k => BlockText(template, k) != "");
  }

  method CollectBlocks(template: string, missing: seq<string>) returns (additions: seq<string>)
    ensures additions == Additions(template, missing)
  {
    additions := [];
    for i := 0 to |missing|
      invariant additions == Additions(template, missing[..i])
    {
      assert missing[..i + 1] == missing[..i] + [missing[i]];
      AdditionsSnoc(template, missing[..i], missing[i]);
      var block := ExtractTopLevelBlock(template, missing[i]);
      if block != "" {
        additions := additions + [block];
      }
    }
    assert missing[..|missing|] == missing;
  }

  class ConfigFile {
    var config: Option<string>
    var backups: seq<string>

    ghost function View(): Files
      reads this
    {
      Files(config, backups)
    }

    method FixConfigDefaults(path: string, template: Option<string>, keys: seq<string>, dryRun: bool, disk: Disk)
      returns (status: Status)
      modifies this
      ensures RepairPost(old(View()), path, template, keys, dryRun, disk, View(), status)
    {
      if config == None || template == None {
        return Skipped;
      }
      var current := config.value;
      var missing := MissingTopLevelKeys(current, keys);
      if missing == [] {
        return Skipped;
      }
      var additions := CollectBlocks(template.value, missing);
      if additions == [] {
        return Failed;
      }
      if dryRun {
        return Fixed;
      }
      if !disk.backupOk {
        return Failed;
      }
      backups := backups + [current];
      if disk.torn.Some? {
        config := disk.torn;
        return Failed;
      }
      config := Some(Merged(current, path, additions));
      status := Fixed;
    }
  }

  // The merged text, part by part.
  lemma MergedSpelling(current: string, path: string, additions: seq<string>)
    requires additions != []
    ensures Merged(current, path, additions) ==
      TrimNewlines(current) + "\n" + "\n" + "# added by `yanshi doctor -fix` from " + path + "\n" + Join(additions)
    ensures TrimNewlines(current) <= current
    ensures TrimNewlines(current) == "" || TrimNewlines(current)[|TrimNewlines(current)| - 1] != '\n'
    ensures forall k :: |TrimNewlines(current)| <= k < |current| ==> current[k] == '\n'
  {
    TrimmedIsPrefix(current);
    TrimmedEnd(current);
  }

  lemma SelectNone(keys: seq<string>, keep: string -> bool)
    requires forall x :: x in keys ==> !keep(x)
    ensures Select(keys, keep) == []
  {
    assert forall x :: x !in Select(keys, keep);
  }

  lemma NoneSelected(keys: seq<string>, keep: string -> bool)
    ensures Select(keys, keep) == [] <==> forall x :: x in keys ==> !keep(x)
  {
    if forall x :: x in keys ==> !keep(x) {
      SelectNone(keys, keep);
    } else {
      var x :| x in keys && keep(x);
      assert x in Select(keys, keep);
    }
  }

  // Every key is there; the template has none of those that are not.
  ghost predicate Complete(text: string, keys: seq<string>) {
    forall key :: key in keys ==> HasKey(Lines(text), key)
  }

  ghost predicate Hopeless(text: string, template: string, keys: seq<string>) {
    forall key :: key in keys && !HasKey(Lines(text), key) ==> !HasKey(Lines(template), key)
  }

  lemma NothingMissing(text: string, keys: seq<string>)
    ensures Missing(text, keys) == [] <==> Complete(text, keys)
  {
    NoneSelected(keys, k => !HasKey(Lines(text), k));
  }

  lemma NothingAdded(text: string, template: string, keys: seq<string>)
    ensures Added(template, Missing(text, keys)) == [] <==> Hopeless(text, template, keys)
  {
    NoneSelected(Missing(text, keys), k => BlockText(template, k) != "");
  }

  // When a repair is skipped, done and failed, and what it leaves in each case.
  lemma RepairSettles(was: Files, path: string, template: Option<string>, keys: seq<string>,
                      dryRun: bool, disk: Disk, now: Files, status: Status)
    requires RepairPost(was, path, template, keys, dryRun, disk, now, status)
    ensures
      var idle := was.config == None || template == None || Complete(was.config.value, keys);
      var writes := !idle && !Hopeless(was.config.value, template.value, keys) && !dryRun && disk.backupOk;
      && (status == Skipped <==> idle)
      && (status == Fixed <==> !idle && !Hopeless(was.config.value, template.value, keys)
                               && (dryRun || (disk.backupOk && disk.torn == None)))
      && if !writes then now == was
         else
           var missing := Missing(was.config.value, keys);
           && Added(template.value, missing) != []
           && now == Files(
                if disk.torn.Some? then disk.torn else Some(Merged(was.config.value, path, Additions(template.value, missing))),
                was.backups + [was.config.value])
  {
    if was.config.Some? && template.Some? {
      NothingMissing(was.config.value, keys);
      NothingAdded(was.config.value, template.value, keys);
    }
  }

  // merged begins with all of current but some newlines at its end.
  ghost predicate KeepsText(current: string, merged: string) {
    var kept := |TrimNewlines(current)|;
    && kept <= |current| && (forall k :: kept <= k < |current| ==> current[k] == NL)
    && current[..kept] + "\n\n" <= merged
  }

  lemma MergedKeepsText(current: string, path: string, additions: seq<string>)
    requires additions != []
    ensures KeepsText(current, Merged(current, path, additions))
  {
    TrimmedIsPrefix(current);
    var tail := Header(path) + "\n" + Join(additions);
    assert Merged(current, path, additions) == (TrimNewlines(current) + "\n\n") + tail;
  }

  // Whatever fails, the text that was there is still on disk, and no backup is lost.
  lemma NothingIsLost(was: Files, path: string, template: Option<string>, keys: seq<string>,
                      dryRun: bool, disk: Disk, now: Files, status: Status)
    requires RepairPost(was, path, template, keys, dryRun, disk, now, status) && was.config.Some?
    ensures was.backups <= now.backups
    ensures now.config == was.config || (now.backups != [] && now.backups[|now.backups| - 1] == was.config.value)
    ensures dryRun || status == Skipped ==> now == was
    ensures status == Fixed && !dryRun ==> now.config.Some? && KeepsText(was.config.value, now.config.value)
  {
    if status == Fixed && !dryRun {
      MergedKeepsText(was.config.value, path, Additions(template.value, Missing(was.config.value, keys)));
    }
  }

  // After the merge the added keys are no longer missing, and the template has
  // a block for none that still is.
  lemma MergeLeavesNothingToAdd(current: string, template: string, path: string, keys: seq<string>, merged: string)
    requires Added(template, Missing(current, keys)) != []
    requires merged == Merged(current, path, Additions(template, Missing(current, keys)))
    ensures forall key :: key in Added(template, Missing(current, keys)) ==> key !in Missing(merged, keys)
    ensures Added(template, Missing(merged, keys)) == []
  {
    var missing := Missing(current, keys);
    forall key
      ensures HasKey(Lines(current), key) || key in Added(template, missing) ==> HasKey(Lines(merged), key)
    {
      KeysAfterMerge(current, template, path, missing, key);
    }
    forall key | key in Missing(merged, keys)
      ensures BlockText(template, key) == ""
    {
      assert key in missing && key !in Added(template, missing);
    }
    SelectNone(Missing(merged, keys), k => BlockText(template, k) != "");
  }

  // A second run with the same template never writes, whatever its path and
  // whatever fails: it finds nothing missing, or nothing it could add.
  lemma SecondRepairWritesNothing(was: Files, path: string, template: Option<string>, keys: seq<string>,
                                  disk: Disk, mid: Files, status: Status,
                                  path': string, dryRun: bool, disk': Disk, now: Files, status': Status)
    requires RepairPost(was, path, template, keys, false, disk, mid, status) && status == Fixed
    requires RepairPost(mid, path', template, keys, dryRun, disk', now, status')
    ensures now == mid
    ensures status' == if Missing(mid.config.value, keys) == [] then Skipped else Failed
  {
    MergeLeavesNothingToAdd(was.config.value, template.value, path, keys, mid.config.value);
  }
}
