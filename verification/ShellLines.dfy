/** Whole lines: from the text of a line to what its execution starts, returns and leaves open; and
    the texts on which reading a line goes wrong. */
module ShellLines {
  import opened Collections
  import opened ShellCalls
  import opened Strings
  import opened ShellTokenizer
  import opened ShellSplitter
  import opened ShellQuotes
  import opened ShellEnding
  import opened ShellLexing
  import opened ShellJoining
  import opened ShellWords
  import opened ShellPrinting
  import opened ShellExecutor

  // ---------------------------------------------------------------- executing a line

  /** A line in the foreground ends in a call without an operator behind it. */
  lemma {:induction false} ForegroundEnds(s: string, last: nat, j: nat, before: Link, background: bool)
    requires last <= j <= |s| && Line(s)
    requires Cuts(s, last, j, before, background).Some? && !Cuts(s, last, j, before, background).value.background
    ensures var ps := Cuts(s, last, j, before, background).value.pieces; ps != [] && ps[|ps| - 1].after == Last
    decreases |s| - j
  {
    hide Find, Cuts, LinkAfter, InBackground;
    CutsStep(s, last, j, before, background);
    var i := Find(s, OPERATORS, j);
    if i == NPOS {
    } else if IsQuote(s[i]) {
      ForegroundEnds(s, last, Find(s, {s[i]}, i + 1) + 1, before, background);
    } else if !Refused(s, i) {
      var n := Resume(s, last, i);
      ForegroundEnds(s, n, n, LinkAfter(s, last, i, before), background || InBackground(s, i));
    }
  }

  lemma ForegroundShape(line: string, stray: Stray)
    requires Parse(line, stray).Some? && !Parse(line, stray).value.background
    ensures var items := Parse(line, stray).value.items; Linked(items) && !AfterPipe(items, |items|)
  {
    hide Cuts, Items, Tokenize, Trim;
    ParsedIsLinked(line, stray);
    var s := Trim(line) + " ";
    ForegroundEnds(s, 0, 0, First, false);
    ItemsKeepLinks(Cuts(s, 0, 0, First, false).value.pieces, stray);
  }

  /** Whatever line is typed and whatever its calls return: in the foreground its calls start from
      left to right, and its code is that of the fold. */
  lemma LineRuns(line: string, stray: Stray, exits: Exits, nextFd: nat)
    requires Parse(line, stray).Some? && !Parse(line, stray).value.background
    ensures var items := Parse(line, stray).value.items; var x := Executed(items, exits, nextFd);
            x.code == Fold(items, exits, |items|).code && RunsOf(x.log) == Fold(items, exits, |items|).started
  {
    hide Parse, Fold, Executed, RunsOf, Linked;
    ForegroundShape(line, stray);
    ExecutesLeftToRight(Parse(line, stray).value.items, exits, nextFd);
  }

  /** Behind any such line every pipe end is closed, exactly once, every started call has been waited
      for, and nothing stays open. */
  lemma LineLeavesNothing(line: string, stray: Stray, exits: Exits, nextFd: nat)
    requires Parse(line, stray).Some? && !Parse(line, stray).value.background
    ensures var x := Executed(Parse(line, stray).value.items, exits, nextFd);
            && x.fds == [] && x.active == []
            && ClosedIn(x.log) == Made(x.log) && WaitedIn(x.log) == multiset(RunsOf(x.log))
  {
    hide Parse, Executed, RunsOf, ClosedIn, Made, WaitedIn, Linked;
    ForegroundShape(line, stray);
    var items := Parse(line, stray).value.items;
    NothingLeftExactly(items, exits, nextFd);
    ClosesEveryPipeOnce(items, exits, nextFd);
  }

  lemma ReadsAsPrinted(xs: seq<Item>, background: bool, stray: Stray)
    requires Sayable(xs, First)
    ensures xs != [] && Parse(PrintInstruction(xs, background), stray) == Some(Parsed(xs, background, false))
    ensures !AfterPipe(xs, |xs|)
  {
    SayableSome(xs);
    SayableEnds(xs, First);
    hide Parse, Sayable, PrintInstruction;
    ParsePrinted(xs, background, "", "", stray);
    NotPadded(PrintInstruction(xs, background));
  }

  lemma {:induction false} SayableEnds(xs: seq<Item>, before: Link)
    requires Sayable(xs, before)
    ensures xs != [] && xs[|xs| - 1].after == Last
    decreases |xs|
  {
    hide Canonical;
    if |xs| > 1 {
      SayableEnds(xs[1..], Next(xs[0].after));
      assert xs[1..][|xs| - 2] == xs[|xs| - 1];
    }
  }

  /** A printed list of calls runs as that list, left to right, in the foreground and in the
      background. */
  lemma PrintedLineRuns(xs: seq<Item>, background: bool, stray: Stray, exits: Exits, nextFd: nat)
    requires Sayable(xs, First)
    ensures xs != [] && Parse(PrintInstruction(xs, background), stray) == Some(Parsed(xs, background, false))
    ensures Executed(xs, exits, nextFd).code == Fold(xs, exits, |xs|).code
    ensures RunsOf(Executed(xs, exits, nextFd).log) == Fold(xs, exits, |xs|).started
  {
    hide Parse, Sayable, Executed, Fold, RunsOf, PrintInstruction, Linked;
    ReadsAsPrinted(xs, background, stray);
    ParsedIsLinked(PrintInstruction(xs, background), stray);
    ExecutesLeftToRight(xs, exits, nextFd);
  }

  // ---------------------------------------------------------------- reading that goes wrong

  /** The token loop on "ab'c d' ", from the end of the command to the quote without a partner, and once
      more from the beginning. */
  lemma TwiceOver(scan: Scan)
    requires !scan.again && scan.stray !in {'<', '>'}
    ensures var s := "ab'c d' ";
            TokenLoop(s, 4, NO_TOKENS, scan) == Some(Tokens(["' ", "'c d'"], "", "", false, false))
  {
    hide Find, TokenLoop;
    var s := "ab'c d' ";
    assert s == ['a', 'b', '\'', 'c', ' ', 'd', '\'', ' '];
    var over := scan.(again := true);
    FoundNowhere(s, {'\''}, 7);
    FoundAt(s, {'\''}, 3, 6);
    assert s[6..] == "' " && s[2..7] == "'c d'";
    var t := Tokens(["' "], "", "", false, false);
    var u := Tokens(["' ", "'c d'"], "", "", false, false);
    assert [] + [s[6..]] == t.args && t.args + [s[2..7]] == u.args;
    BlankStep(s, 4, NO_TOKENS, scan);
    FoundAt(s, SEPARATORS, 5, 6);
    TokenLoopStep(s, 5, NO_TOKENS, scan);
    FoundAt(s, SEPARATORS, 0, 2);
    TokenLoopStep(s, 0, t, over);
    BlankStep(s, 7, u, over);
    LoopEnd(s, u, over);
  }

  /** A quote that opens inside the command, with a blank between it and its partner: the partner is
      met first, as a quote without a partner. The text is indexed at npos, and on the way through it
      from the beginning the quoted part is read once more. */
  lemma QuoteInsideCommand(stray: Stray)
    requires stray("ab'c d'") !in {'<', '>'}
    ensures var text := "ab'c d'"; var s := text + " ";
            && Trim(text) == text && QuotesClose(s, 0) && ReadsOutside(s, CommandEnd(s))
            && Tokenize(text, 0, 1, stray) == Some(Call("ab'c", ["' ", "'c d'"], "", "", 0, 1))
  {
    hide Find, TokenLoop, QuotesClose, Trim, ReadsOutside;
    var text := "ab'c d'";
    var s := text + " ";
    TrimPadded("", text, "");
    NotPadded(text);
    assert s == ['a', 'b', '\'', 'c', ' ', 'd', '\'', ' '] == "ab'c d' ";
    FoundAt(s, {' ', '<', '>'}, 0, 4);
    QuotesStep(s, 4, 6);
    FoundNowhere(s, {'\''}, 7);
    QuotesStep(s, 0, 2);
    FoundAt(s, {'\''}, 3, 6);
    QuotesNone(s, 7);
    var scan := Scan(false, stray(text));
    OutsideExactly(s, 4, NO_TOKENS, scan, scan);
    assert s[..4] == "ab'c";
    TwiceOver(scan);
  }

  /** A tab is no separator: it is part of the command. */
  lemma TabDoesNotSeparate(stray: Stray)
    ensures Tokenize("ls\t-l", 0, 1, stray) == Some(Call("ls\t-l", [], "", "", 0, 1))
  {
    hide Tokenize;
    var c := Call("ls\t-l", [], "", "", 0, 1);
    assert Plain(c.command);
    TokenizePrinted(c, "", "", stray);
    assert "" + PrintCall(c) + "" == "ls\t-l";
  }

  /** Text directly before a quote reaches no argument. */
  lemma GluedTextIsLost(stray: Stray)
    ensures Tokenize("ls a\"b\"", 0, 1, stray) == Some(Call("ls", ["\"b\""], "", "", 0, 1))
  {
    hide Find, TokenLoop, Trim;
    var text := "ls a\"b\"";
    var s := text + " ";
    TrimPadded("", text, "");
    NotPadded(text);
    assert s == ['l', 's', ' ', 'a', '"', 'b', '"', ' '];
    FoundAt(s, {' ', '<', '>'}, 0, 2);
    assert s[..2] == "ls";
    var scan := Scan(false, stray(text));
    BlankStep(s, 2, NO_TOKENS, scan);
    FoundAt(s, SEPARATORS, 3, 4);
    FoundAt(s, {'"'}, 5, 6);
    assert s[4..7] == "\"b\"";
    var t := Tokens(["\"b\""], "", "", false, false);
    assert NO_TOKENS.args + [s[4..7]] == t.args;
    QuotedLoop(s, 3, 4, 6, NO_TOKENS, scan);
    BlankStep(s, 7, t, scan);
    LoopEnd(s, t, scan);
  }

  /** White space other than blanks does no harm where it is lost: a tab between two quoted words
      stands in front of a quote. */
  lemma LostTabSeparates()
    ensures var s := "a 'b'\t'c' "; Trim("a 'b'\t'c'") + " " == s && CommandEnd(s) == 1 && Separated(s, 1) && !OnlyBlanks(s, 1)
  {
    hide Find, Trim;
    var text := "a 'b'\t'c'";
    var s := text + " ";
    TrimPadded("", text, "");
    NotPadded(text);
    assert s == ['a', ' ', '\'', 'b', '\'', '\t', '\'', 'c', '\'', ' '];
    FoundAt(s, {' ', '<', '>'}, 0, 1);
    FoundAt(s, SEPARATORS, 1, 1);
    FoundAt(s, SEPARATORS, 2, 2);
    FoundAt(s, {'\''}, 3, 4);
    FoundAt(s, SEPARATORS, 5, 6);
    FoundAt(s, {'\''}, 7, 8);
    FoundAt(s, SEPARATORS, 9, 9);
    FoundNowhere(s, SEPARATORS, 10);
    assert Separated(s, 9);
    assert Separated(s, 5);
    assert Separated(s, 2);
    assert !OnlyBlanks(s, 5);
    assert !OnlyBlanks(s, 2);
  }

  /** A background sign right behind a pipe drops the call the pipe is for: the line ends in a pipe,
      and what its execution starts is never waited for. */
  lemma PipeIntoNothing(exits: Exits, stray: Stray)
    ensures var c := Call("a", [], "", "", 0, 1);
            && Parse("a |&", stray) == Some(Parsed([Item(c, First, Pipe)], true, false))
            && Executed([Item(c, First, Pipe)], exits, 3).active == [0]
            && Executed([Item(c, First, Pipe)], exits, 3).fds == [(3, 4)]
  {
    hide Find, Trim, Tokenize, Cuts;
    var line := "a |&";
    var s := line + " ";
    TrimPadded("", line, "");
    NotPadded(line);
    var c := Call("a", [], "", "", 0, 1);
    assert s == ['a', ' ', '|', '&', ' '];
    FoundAt(s, OPERATORS, 0, 2);
    FoundAt(s, OPERATORS, 3, 3);
    FoundNowhere(s, OPERATORS, 4);
    CutsStep(s, 0, 0, First, false);
    CutsStep(s, 3, 3, Pipe, false);
    CutsStep(s, 4, 4, Pipe, true);
    assert s[0..2] == "a ";
    var p := Piece("a ", First, Pipe);
    assert Cuts(s, 3, 3, Pipe, false) == Some(Cut([], true, false)) by { NothingPushed(Some(Cut([], true, false))); }
    assert ShellSplitter.Closed(s, 0, 2, First) == [p];
    assert [p] + [] == [p];
    assert Cuts(s, 0, 0, First, false) == Some(Cut([p], true, false));
    assert Plain(c.command);
    TokenizePrinted(c, "", " ", stray);
    assert "" + PrintCall(c) + " " == "a ";
    assert Items([p], stray) == Some([Item(c, First, Pipe)]) by {
      assert Tokenize(p.text, 0, 1, stray) == Some(c);
      assert [Item(c, First, Pipe)] + [] == [Item(c, First, Pipe)];
      assert [p][1..] == [] && Items([p][1..], stray) == Some([]);
    }
    assert Parse(line, stray) == Some(Parsed([Item(c, First, Pipe)], true, false));
    var x := Begin([Item(c, First, Pipe)], 3);
    assert Rounds(x, exits, 1) == Round(Rounds(x, exits, 0), exits, 0);
  }
}
