// Quoting an argv into one /bin/sh command string (cmd/tuidbg/session.go), and
// the shell's own reading of it: token recognition and quoting as in POSIX.1-2017,
// XCU sections 2.2.1 (escape character), 2.2.2 (single quotes) and 2.3.
module ShellQuote {

  // ---------------------------------------------------------------------
  // The source
  // ---------------------------------------------------------------------

  const QUOTE := '\''

  // strings.ReplaceAll(s, "'", `'\''`)
  function Escaped(s: string): string {
    if s == "" then ""
    else (if s[0] == QUOTE then "'" + "\\'" + "'" else [s[0]]) + Escaped(s[1..])
  }

  function Quoted(s: string): string { "'" + Escaped(s) + "'" }

  function Joined(words: seq<string>): string {
    if words == [] then "" else if |words| == 1 then words[0] else words[0] + " " + Joined(words[1..])
  }

  function QuotedAll(argv: seq<string>): (q: seq<string>)
    ensures |q| == |argv| && forall i :: 0 <= i < |q| ==> q[i] == Quoted(argv[i])
  {
    if argv == [] then [] else [Quoted(argv[0])] + QuotedAll(argv[1..])
  }

  const EXIT_MARKER := "__TUIDBG_EXIT__"

  // printf '<marker>=%s\n' $?; exec sleep 100000
  function Report(command: string, format: string, a: string, b: string, c: string): string {
    command + " " + "'" + format + "'" + " " + "$?" + "; " + a + " " + b + " " + c
  }

  const FORMAT := EXIT_MARKER + "=%s\\n"

  const REPORT := Report("printf", FORMAT, "exec", "sleep", "100000")

  function Wrapped(argv: seq<string>): string { Joined(QuotedAll(argv)) + "; " + REPORT }

  method WrapCommand(argv: seq<string>) returns (wrapped: string)
    ensures wrapped == Wrapped(argv)
  {
    var quoted := seq(|argv|, _ => "");
    for i := 0 to |argv|
      invariant |quoted| == |argv|
      invariant forall k :: 0 <= k < i ==> quoted[k] == Quoted(argv[k])
    {
      quoted := quoted[i := Quoted(argv[i])];
    }
    assert quoted == QuotedAll(argv);
    wrapped := Joined(quoted) + "; " + REPORT;
  }

  lemma {:induction false} EscapedConcat(a: string, b: string)
    ensures Escaped(a + b) == Escaped(a) + Escaped(b)
    decreases |a|
  {
    if a == "" {
      assert a + b == b;
    } else {
      EscapedConcat(a[1..], b);
      assert (a + b)[1..] == a[1..] + b;
    }
  }

  lemma EscapedOne(c: char)
    ensures Escaped([c]) == if c == QUOTE then "'" + "\\'" + "'" else [c]
  {
    assert [c][1..] == "";
  }

  // Quoting puts single quotes around the argument and writes each quote in it
  // as close, escaped quote, open; every other character stays.
  lemma QuotedSpelling(a: string, c: char, b: string)
    ensures Quoted(a + [c] + b) == "'" + (Escaped(a) + (if [c] == "'" then "'" + "\\'" + "'" else [c]) + Escaped(b)) + "'"
    ensures Escaped("") == ""
  {
    EscapedConcat(a + [c], b);
    EscapedConcat(a, [c]);
    EscapedOne(c);
  }

  // ---------------------------------------------------------------------
  // The shell's token recognition
  // ---------------------------------------------------------------------

  // A quoted character is literal: no expansion, splitting, globbing, alias or
  // reserved word can come of it.
  datatype Char = Char(c: char, quoted: bool)

  datatype Token = Word(chars: seq<Char>) | Operator(text: string)

  // Other covers double quotes, backquotes and $( or ${, which are not modelled.
  datatype Reading = Tokens(tokens: seq<Token>) | Unfinished | Other

  predicate IsBlank(c: char) { c == ' ' || c == '\t' }

  predicate IsOperatorChar(c: char) { c in "&|;<>()" }

  function OperatorAt(s: string): (op: string)
    requires s != "" && IsOperatorChar(s[0])
    ensures 1 <= |op| <= |s|
  {
    if |s| >= 3 && s[..3] == "<<-" then s[..3]
    else if |s| >= 2 && s[..2] in ["&&", "||", ";;", "<<", ">>", "<&", ">&", "<>", ">|"] then s[..2]
    else s[..1]
  }

  // The position of the next single quote, or |s|.
  function NextQuote(s: string): (i: nat)
    ensures i <= |s| && (i < |s| ==> s[i] == QUOTE)
  {
    if s == "" || s[0] == QUOTE then 0 else NextQuote(s[1..]) + 1
  }

  function LineEnd(s: string): (i: nat)
    ensures i <= |s|
  {
    if s == "" || s[0] == '\n' then 0 else LineEnd(s[1..]) + 1
  }

  function Literal(s: string): (chars: seq<Char>)
    ensures |chars| == |s|
  {
    seq(|s|, i requires 0 <= i < |s| => Char(s[i], true))
  }

  // The word being read, delimited.
  function Delimited(word: seq<seq<Char>>): seq<Token> {
    if word == [] then [] else [Word(word[0])]
  }

  function Prepend(tokens: seq<Token>, r: Reading): Reading {
    if r.Tokens? then Tokens(tokens + r.tokens) else r
  }

  // word is empty outside a word and [w] inside one whose characters so far are w.
  function Lex(s: string, word: seq<seq<Char>>): Reading
    requires |word| <= 1
    decreases |s|
  {
    var w := if word == [] then [] else word[0];
    if s == "" then Tokens(Delimited(word))
    else if s[0] == QUOTE then
      var n := NextQuote(s[1..]);
      if n == |s| - 1 then Unfinished else Lex(s[n + 2..], [w + Literal(s[1..n + 1])])
    else if s[0] == '\\' then
      if |s| == 1 then Unfinished
      else if s[1] == '\n' then Lex(s[2..], word)
      else Lex(s[2..], [w + [Char(s[1], true)]])
    else if IsBlank(s[0]) then Prepend(Delimited(word), Lex(s[1..], []))
    else if s[0] == '\n' then Prepend(Delimited(word) + [Operator("\n")], Lex(s[1..], []))
    else if IsOperatorChar(s[0]) then
      Prepend(Delimited(word) + [Operator(OperatorAt(s))], Lex(s[|OperatorAt(s)|..], []))
    else if s[0] == '#' && word == [] then Lex(s[LineEnd(s)..], [])
    else if s[0] == '"' || s[0] == '`' then Other
    else if s[0] == '$' && |s| >= 2 && (s[1] == '(' || s[1] == '{') then Other
    else Lex(s[1..], [w + [Char(s[0], false)]])
  }

  // ---------------------------------------------------------------------
  // The round trip
  // ---------------------------------------------------------------------

  function Sofar(word: seq<seq<Char>>): seq<Char> { if word == [] then [] else word[0] }

  lemma {:induction false} NextQuoteAfter(plain: string, rest: string)
    requires QUOTE !in plain
    ensures NextQuote(plain + "'" + rest) == |plain|
    decreases |plain|
  {
    if plain == "" {
      assert plain + "'" + rest == "'" + rest;
    } else {
      NextQuoteAfter(plain[1..], rest);
      assert (plain + "'" + rest)[1..] == plain[1..] + "'" + rest;
    }
  }

  // One quoted stretch without a quote in it.
  lemma LexStretch(plain: string, rest: string, word: seq<seq<Char>>)
    requires QUOTE !in plain && |word| <= 1
    ensures Lex("'" + plain + "'" + rest, word) == Lex(rest, [Sofar(word) + Literal(plain)])
  {
    var s := "'" + plain + "'" + rest;
    assert s[1..] == plain + "'" + rest;
    NextQuoteAfter(plain, rest);
    assert s[1..|plain| + 1] == plain;
    assert s[|plain| + 2..] == rest;
  }

  lemma LexEscapedQuote(rest: string, word: seq<seq<Char>>)
    requires |word| <= 1
    ensures Lex("\\'" + rest, word) == Lex(rest, [Sofar(word) + Literal("'")])
  {
    var s := "\\'" + rest;
    assert s[0] == '\\' && s[1] == QUOTE && s[2..] == rest;
    assert [Char(QUOTE, true)] == Literal("'");
  }

  lemma {:induction false} EscapedPlain(plain: string, rest: string)
    requires QUOTE !in plain
    ensures Escaped(plain + rest) == plain + Escaped(rest)
    decreases |plain|
  {
    if plain == "" {
      assert plain + rest == rest;
    } else {
      EscapedPlain(plain[1..], rest);
      assert (plain + rest)[1..] == plain[1..] + rest;
    }
  }

  // How quoting writes an argument with a quote in it.
  lemma QuotedAtQuote(plain: string, after: string, rest: string)
    requires QUOTE !in plain
    ensures Quoted(plain + "'" + after) + rest == "'" + plain + "'" + ("\\'" + (Quoted(after) + rest))
  {
    assert plain + "'" + after == plain + ("'" + after);
    EscapedPlain(plain, "'" + after);
    assert ("'" + after)[1..] == after;
  }

  lemma QuotedWithoutQuote(plain: string, rest: string)
    requires QUOTE !in plain
    ensures Quoted(plain) + rest == "'" + plain + "'" + rest
  {
    EscapedPlain(plain, "");
    assert plain + "" == plain;
  }

  lemma LiteralSplit(before: seq<Char>, plain: string, after: string)
    ensures before + Literal(plain) + Literal("'") + Literal(after) == before + Literal(plain + "'" + after)
  {
  }

  lemma {:induction false} LexQuotedAtQuote(plain: string, after: string, rest: string, word: seq<seq<Char>>)
    requires QUOTE !in plain && |word| <= 1
    ensures Lex("'" + plain + "'" + ("\\'" + (Quoted(after) + rest)), word)
         == Lex(rest, [Sofar(word) + Literal(plain + "'" + after)])
    decreases |plain| + |after| + 1, 0
  {
    var tail := Quoted(after) + rest;
    LexStretch(plain, "\\'" + tail, word);
    LexEscapedQuote(tail, [Sofar(word) + Literal(plain)]);
    LexQuoted(after, rest, [Sofar(word) + Literal(plain) + Literal("'")]);
    LiteralSplit(Sofar(word), plain, after);
  }

  lemma {:induction false} NoQuoteBefore(a: string)
    ensures QUOTE !in a[..NextQuote(a)]
    decreases |a|
  {
    if a != "" && a[0] != QUOTE {
      NoQuoteBefore(a[1..]);
      assert a[..NextQuote(a)] == [a[0]] + a[1..][..NextQuote(a[1..])];
    }
  }

  // A quoted argument adds exactly its own characters, all literal, to the word.
  lemma {:induction false} LexQuoted(a: string, rest: string, word: seq<seq<Char>>)
    requires |word| <= 1
    ensures Lex(Quoted(a) + rest, word) == Lex(rest, [Sofar(word) + Literal(a)])
    decreases |a|, 1
  {
    var n := NextQuote(a);
    var plain := a[..n];
    NoQuoteBefore(a);
    if n == |a| {
      assert a == plain;
      QuotedWithoutQuote(a, rest);
      LexStretch(a, rest, word);
    } else {
      var after := a[n + 1..];
      assert a == plain + "'" + after;
      QuotedAtQuote(plain, after, rest);
      LexQuotedAtQuote(plain, after, rest, word);
    }
  }

  function LiteralWords(argv: seq<string>): seq<Token> {
    if argv == [] then [] else [Word(Literal(argv[0]))] + LiteralWords(argv[1..])
  }

  lemma PrependNothing(r: Reading)
    ensures Prepend([], r) == r
  {
    assert r.Tokens? ==> [] + r.tokens == r.tokens;
  }

  lemma LexSemicolon(rest: string, word: seq<seq<Char>>)
    requires |word| <= 1
    ensures Lex("; " + rest, word) == Prepend(Delimited(word) + [Operator(";")], Lex(rest, []))
  {
    var s := "; " + rest;
    assert s[0] == ';' && s[1] == ' ';
    assert s[..2] == "; " && s[..1] == ";";
    if |s| >= 3 {
      assert s[..3][0] == ';';
    }
    assert OperatorAt(s) == ";";
    assert s[1..] == " " + rest && s[1..][1..] == rest;
    PrependNothing(Lex(rest, []));
  }

  lemma PrependTwice(a: seq<Token>, b: seq<Token>, r: Reading)
    ensures Prepend(a, Prepend(b, r)) == Prepend(a + b, r)
  {
    assert r.Tokens? ==> a + (b + r.tokens) == a + b + r.tokens;
  }

  lemma LexBlank(rest: string, word: seq<seq<Char>>)
    requires |word| <= 1
    ensures Lex(" " + rest, word) == Prepend(Delimited(word), Lex(rest, []))
  {
    assert (" " + rest)[1..] == rest;
  }

  // A quoted argument that is the whole word.
  lemma LexWholeWord(a: string, rest: string)
    ensures Lex(Quoted(a) + rest, []) == Lex(rest, [Literal(a)])
  {
    LexQuoted(a, rest, []);
    assert [] + Literal(a) == Literal(a);
  }

  lemma Regroup(a: string, b: string, c: string, d: string)
    ensures (a + b + c) + d == a + (b + (c + d))
  {
  }

  lemma JoinedOfCons(word: string, words: seq<string>)
    requires words != []
    ensures Joined([word] + words) == word + " " + Joined(words)
  {
    assert ([word] + words)[1..] == words;
  }

  lemma JoinedMore(argv: seq<string>, rest: string)
    requires |argv| > 1
    ensures Joined(QuotedAll(argv)) + rest == Quoted(argv[0]) + (" " + (Joined(QuotedAll(argv[1..])) + rest))
  {
    JoinedOfCons(Quoted(argv[0]), QuotedAll(argv[1..]));
    assert QuotedAll(argv) == [Quoted(argv[0])] + QuotedAll(argv[1..]);
    Regroup(Quoted(argv[0]), " ", Joined(QuotedAll(argv[1..])), rest);
  }

  lemma LiteralWordsPush(argv: seq<string>, rest: seq<Token>)
    requires argv != []
    ensures LiteralWords(argv) + rest == Delimited([Literal(argv[0])]) + (LiteralWords(argv[1..]) + rest)
  {
  }

  lemma LexMoreArguments(argv: seq<string>, tail: string)
    requires |argv| > 1
    ensures Lex(Joined(QuotedAll(argv)) + tail, [])
         == Prepend(Delimited([Literal(argv[0])]), Lex(Joined(QuotedAll(argv[1..])) + tail, []))
  {
    var more := Joined(QuotedAll(argv[1..])) + tail;
    JoinedMore(argv, tail);
    LexWholeWord(argv[0], " " + more);
    LexBlank(more, [Literal(argv[0])]);
  }

  // The joined quoted argv in front of "; ": one word per argument, empty ones
  // included, then the operator, then whatever follows.
  lemma {:induction false} LexCommand(argv: seq<string>, rest: string)
    ensures Lex(Joined(QuotedAll(argv)) + "; " + rest, []) ==
      Prepend(LiteralWords(argv) + [Operator(";")], Lex(rest, []))
    decreases |argv|
  {
    var tail := "; " + rest;
    assert Joined(QuotedAll(argv)) + "; " + rest == Joined(QuotedAll(argv)) + tail;
    if argv == [] {
      assert Joined(QuotedAll(argv)) + tail == tail;
      LexSemicolon(rest, []);
      assert Delimited([]) == LiteralWords(argv);
    } else if |argv| == 1 {
      LexWholeWord(argv[0], tail);
      LexSemicolon(rest, [Literal(argv[0])]);
      LiteralWordsPush(argv, [Operator(";")]);
      assert LiteralWords(argv[1..]) + [Operator(";")] == [Operator(";")];
    } else {
      LexMoreArguments(argv, tail);
      LexCommand(argv[1..], rest);
      assert Joined(QuotedAll(argv[1..])) + "; " + rest == Joined(QuotedAll(argv[1..])) + tail;
      PrependTwice(Delimited([Literal(argv[0])]), LiteralWords(argv[1..]) + [Operator(";")], Lex(rest, []));
      LiteralWordsPush(argv, [Operator(";")]);
    }
  }

  // ---------------------------------------------------------------------
  // The whole wrapper
  // ---------------------------------------------------------------------

  predicate IsBare(s: string) {
    forall i :: 0 <= i < |s| ==> s[i] !in "'\\ \t\n&|;<>()#\"`$"
  }

  function Bare(s: string): (chars: seq<Char>)
    ensures |chars| == |s|
  {
    seq(|s|, i requires 0 <= i < |s| => Char(s[i], false))
  }

  lemma {:induction false} LexBare(bare: string, rest: string, word: seq<seq<Char>>)
    requires IsBare(bare) && bare != "" && |word| <= 1
    ensures Lex(bare + rest, word) == Lex(rest, [Sofar(word) + Bare(bare)])
    decreases |bare|
  {
    var s := bare + rest;
    assert s[0] == bare[0] && s[1..] == bare[1..] + rest;
    if |bare| == 1 {
      assert bare[1..] + rest == rest;
      assert [Char(bare[0], false)] == Bare(bare);
    } else {
      LexBare(bare[1..], rest, [Sofar(word) + [Char(bare[0], false)]]);
      assert [Char(bare[0], false)] + Bare(bare[1..]) == Bare(bare);
      assert Sofar(word) + [Char(bare[0], false)] + Bare(bare[1..]) == Sofar(word) + Bare(bare);
    }
  }

  // A bare word that a blank ends.
  lemma LexBareWord(bare: string, rest: string)
    requires IsBare(bare) && bare != ""
    ensures Lex(bare + " " + rest, []) == Prepend([Word(Bare(bare))], Lex(rest, []))
  {
    assert bare + " " + rest == bare + (" " + rest);
    LexBare(bare, " " + rest, []);
    assert [] + Bare(bare) == Bare(bare);
    LexBlank(rest, [Bare(bare)]);
  }

  lemma LexPlain(c: char, rest: string, word: seq<seq<Char>>)
    requires |word| <= 1
    requires IsBare([c]) || c == '?' || (c == '$' && (rest == "" || (rest[0] != '(' && rest[0] != '{')))
    ensures Lex([c] + rest, word) == Lex(rest, [Sofar(word) + [Char(c, false)]])
  {
    var s := [c] + rest;
    assert s[1..] == rest && s[0] == c;
    assert IsBare([c]) ==> [c][0] !in "'\\ \t\n&|;<>()#\"`$";
  }

  lemma LexStatus(rest: string)
    ensures Lex("$?" + "; " + rest, []) == Prepend([Word([Char('$', false), Char('?', false)]), Operator(";")], Lex(rest, []))
  {
    var s := "$?" + "; " + rest;
    assert s == "$" + ("?" + ("; " + rest));
    var one := [Char('$', false)];
    LexPlain('$', "?" + ("; " + rest), []);
    assert [] + one == one;
    LexPlain('?', "; " + rest, [one]);
    LexSemicolon(rest, [one + [Char('?', false)]]);
    assert one + [Char('?', false)] == [Char('$', false), Char('?', false)];
  }

  lemma LexThreeWords(a: string, b: string, c: string)
    requires IsBare(a) && IsBare(b) && IsBare(c) && a != "" && b != "" && c != ""
    ensures Lex(a + " " + (b + " " + c), []) == Tokens([Word(Bare(a)), Word(Bare(b)), Word(Bare(c))])
  {
    LexBareWord(a, b + " " + c);
    LexBareWord(b, c);
    LexBare(c, "", []);
    assert c + "" == c;
    assert [] + Bare(c) == Bare(c);
  }

  // A quoted word that a blank ends.
  lemma LexQuotedWord(plain: string, rest: string)
    requires QUOTE !in plain
    ensures Lex("'" + plain + "'" + (" " + rest), []) == Prepend([Word(Literal(plain))], Lex(rest, []))
  {
    LexStretch(plain, " " + rest, []);
    assert [] + Literal(plain) == Literal(plain);
    LexBlank(rest, [Literal(plain)]);
  }

  lemma LexFormat(command: string, format: string, rest: string)
    requires IsBare(command) && command != "" && QUOTE !in format
    ensures Lex(command + " " + ("'" + format + "'" + (" " + rest)), []) ==
      Prepend([Word(Bare(command)), Word(Literal(format))], Lex(rest, []))
  {
    LexBareWord(command, "'" + format + "'" + (" " + rest));
    LexQuotedWord(format, rest);
    PrependTwice([Word(Bare(command))], [Word(Literal(format))], Lex(rest, []));
    assert [Word(Bare(command))] + [Word(Literal(format))] == [Word(Bare(command)), Word(Literal(format))];
  }

  function ReportTokens(command: string, format: string, a: string, b: string, c: string): seq<Token> {
    [Word(Bare(command)), Word(Literal(format)), Word([Char('$', false), Char('?', false)]), Operator(";"),
     Word(Bare(a)), Word(Bare(b)), Word(Bare(c))]
  }

  lemma ReportParts(command: string, format: string, a: string, b: string, c: string)
    ensures Report(command, format, a, b, c)
         == command + " " + ("'" + format + "'" + (" " + ("$?" + "; " + (a + " " + (b + " " + c)))))
  {
  }

  // The rest of the wrapper, after the argv: a command with its literal
  // format, the status, the operator, and three plain words.
  lemma LexReport(command: string, format: string, a: string, b: string, c: string)
    requires IsBare(command) && command != "" && QUOTE !in format
    requires IsBare(a) && IsBare(b) && IsBare(c) && a != "" && b != "" && c != ""
    ensures Lex(Report(command, format, a, b, c), []) == Tokens(ReportTokens(command, format, a, b, c))
  {
    var words := a + " " + (b + " " + c);
    var status := "$?" + "; " + words;
    ReportParts(command, format, a, b, c);
    LexFormat(command, format, status);
    LexStatus(words);
    LexThreeWords(a, b, c);
  }

  const REPORT_TOKENS: seq<Token> := ReportTokens("printf", FORMAT, "exec", "sleep", "100000")

  lemma LexWrapped(argv: seq<string>, command: string, format: string, a: string, b: string, c: string)
    requires IsBare(command) && command != "" && QUOTE !in format
    requires IsBare(a) && IsBare(b) && IsBare(c) && a != "" && b != "" && c != ""
    ensures Lex(Joined(QuotedAll(argv)) + "; " + Report(command, format, a, b, c), []) ==
      Tokens(LiteralWords(argv) + [Operator(";")] + ReportTokens(command, format, a, b, c))
  {
    LexCommand(argv, Report(command, format, a, b, c));
    LexReport(command, format, a, b, c);
  }

  predicate IsAlphanumeric(c: char) { '0' <= c <= '9' || 'A' <= c <= 'Z' || 'a' <= c <= 'z' }

  lemma AlphanumericIsBare(s: string)
    requires forall i :: 0 <= i < |s| ==> IsAlphanumeric(s[i])
    ensures IsBare(s)
  {
  }

  lemma ReportIsPlain()
    ensures IsBare("printf") && IsBare("exec") && IsBare("sleep") && IsBare("100000") && QUOTE !in FORMAT
  {
    AlphanumericIsBare("printf");
    AlphanumericIsBare("exec");
    AlphanumericIsBare("sleep");
    AlphanumericIsBare("100000");
  }

  // The shell reads the command string as exactly the argv, every character of
  // it literal, followed by the operator and the wrapper's own commands.
  lemma WrappedReadsAsArgv(argv: seq<string>)
    ensures Lex(Wrapped(argv), []) == Tokens(LiteralWords(argv) + [Operator(";")] + REPORT_TOKENS)
    ensures REPORT_TOKENS ==
      [Word(Bare("printf")), Word(Literal("__TUIDBG_EXIT__" + "=%s\\n")), Word([Char('$', false), Char('?', false)]),
       Operator(";"), Word(Bare("exec")), Word(Bare("sleep")), Word(Bare("100000"))]
  {
    ReportIsPlain();
    LexWrapped(argv, "printf", FORMAT, "exec", "sleep", "100000");
  }

  lemma SameFront<T>(a: seq<T>, b: seq<T>, tail: seq<T>)
    requires a + tail == b + tail
    ensures a == b
  {
    assert |a| == |b|;
    assert (a + tail)[..|a|] == a && (b + tail)[..|b|] == b;
  }

  lemma LiteralInjective(a: string, b: string)
    requires Literal(a) == Literal(b)
    ensures a == b
  {
    assert |a| == |Literal(a)| == |Literal(b)| == |b|;
    assert forall i :: 0 <= i < |a| ==> Literal(a)[i].c == a[i] && Literal(b)[i].c == b[i];
  }

  lemma {:induction false} LiteralWordsInjective(a: seq<string>, b: seq<string>)
    requires LiteralWords(a) == LiteralWords(b)
    ensures a == b
    decreases |a|
  {
    if a != [] && b != [] {
      var u, v := LiteralWords(a), LiteralWords(b);
      assert u[1..] == LiteralWords(a[1..]) && v[1..] == LiteralWords(b[1..]);
      LiteralWordsInjective(a[1..], b[1..]);
      LiteralInjective(a[0], b[0]);
      assert a == [a[0]] + a[1..] && b == [b[0]] + b[1..];
    }
  }

  // Different argvs never share a command string.
  lemma WrappingIsInjective(a: seq<string>, b: seq<string>)
    requires Wrapped(a) == Wrapped(b)
    ensures a == b
  {
    WrappedReadsAsArgv(a);
    WrappedReadsAsArgv(b);
    var tail := [Operator(";")] + REPORT_TOKENS;
    assert LiteralWords(a) + [Operator(";")] + REPORT_TOKENS == LiteralWords(a) + tail;
    assert LiteralWords(b) + [Operator(";")] + REPORT_TOKENS == LiteralWords(b) + tail;
    SameFront(LiteralWords(a), LiteralWords(b), tail);
    LiteralWordsInjective(a, b);
  }
}
