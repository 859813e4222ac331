/** When reading a call and reading a line end, in both directions, and when reading stays inside its
    text. */
module ShellEnding {
  import opened Collections
  import opened ShellCalls
  import opened Strings
  import opened ShellTokenizer
  import opened ShellSplitter
  import opened ShellQuotes

  // ---------------------------------------------------------------- the token loop

  /** The token loop ends exactly when the quotes behind its start close or, as it starts over once
      it has met one that does not, all quotes of the text do. */
  lemma {:induction false} TokenLoopEnds(s: string, last: nat, t: Tokens, scan: Scan)
    ensures TokenLoop(s, last, t, scan).Some? <==> QuotesClose(s, last) || (!scan.again && QuotesClose(s, 0))
    decreases !scan.again, |s| - last
  {
    hide Find, QuotesClose, Take, Ask, Unclosed, TokenLoop;
    TokenLoopStep(s, last, t, scan);
    var i := Find(s, SEPARATORS, last);
    if i == NPOS {
      QuotesNone(s, last);
    } else if IsQuote(s[i]) {
      QuotesStep(s, last, i);
      var c := Find(s, {s[i]}, i + 1);
      if c != NPOS {
        TokenLoopEnds(s, c + 1, Take(t, s[i..c + 1]), scan);
      } else if !scan.again {
        TokenLoopEnds(s, 0, Ask(Take(t, Unclosed(s, i)), scan.stray), scan.(again := true));
      }
    } else {
      QuotesSkip(s, last, i + 1);
      TokenLoopEnds(s, i + 1, Ask(Take(t, s[last..i]), s[i]), scan);
    }
  }

  /** Where one round of the token loop leaves the scan, and where n rounds do: at a position with no
      separator behind it the loop has ended. */
  function TokenRound(s: string, last: nat): nat
  {
    var i := Find(s, SEPARATORS, last);
    if i == NPOS then last
    else if IsQuote(s[i]) then (var c := Find(s, {s[i]}, i + 1); if c == NPOS then 0 else c + 1)
    else i + 1
  }

  function TokenRounds(s: string, last: nat, n: nat): nat
    decreases n
  {
    if n == 0 then last else TokenRounds(s, TokenRound(s, last), n - 1)
  }

  /** Where the model of the loop answers None, no number of rounds ends it. */
  lemma {:induction false} TokenLoopNeverEnds(s: string, last: nat, n: nat)
    requires !QuotesClose(s, last) && !QuotesClose(s, 0)
    ensures Find(s, SEPARATORS, TokenRounds(s, last, n)) != NPOS
    decreases n
  {
    hide Find, QuotesClose;
    var i := Find(s, SEPARATORS, last);
    if i == NPOS {
      QuotesNone(s, last);
    } else if n > 0 {
      if IsQuote(s[i]) { QuotesStep(s, last, i); } else { QuotesSkip(s, last, i + 1); }
      TokenLoopNeverEnds(s, TokenRound(s, last), n - 1);
    }
  }

  /** Where it answers something, some number of rounds does. */
  lemma {:induction false} TokenLoopSometimeEnds(s: string, last: nat, again: bool) returns (n: nat)
    requires QuotesClose(s, last) || (!again && QuotesClose(s, 0))
    ensures Find(s, SEPARATORS, TokenRounds(s, last, n)) == NPOS
    decreases !again, |s| - last
  {
    hide Find, QuotesClose;
    var i := Find(s, SEPARATORS, last);
    if i == NPOS {
      n := 0;
    } else {
      var over := again;
      if IsQuote(s[i]) {
        QuotesStep(s, last, i);
        over := again || Find(s, {s[i]}, i + 1) == NPOS;
      } else {
        QuotesSkip(s, last, i + 1);
      }
      n := TokenLoopSometimeEnds(s, TokenRound(s, last), over);
      n := n + 1;
    }
  }

  // ---------------------------------------------------------------- one call

  /** The scan gets to a quote without a partner and indexes the text at npos. */
  predicate ReadsOutside(s: string, last: nat)
    decreases |s| - last
  {
    var i := Find(s, SEPARATORS, last);
    i != NPOS &&
    if IsQuote(s[i]) then (var c := Find(s, {s[i]}, i + 1); c == NPOS || ReadsOutside(s, c + 1))
    else ReadsOutside(s, i + 1)
  }

  /** It does exactly when the quotes behind its start do not close; where they do, what lies outside
      the text makes no difference. */
  lemma {:induction false} OutsideExactly(s: string, last: nat, t: Tokens, scan: Scan, other: Scan)
    ensures ReadsOutside(s, last) <==> !QuotesClose(s, last)
    ensures QuotesClose(s, last) ==> TokenLoop(s, last, t, scan) == TokenLoop(s, last, t, other)
    decreases |s| - last
  {
    hide Find, QuotesClose, Take, Ask, TokenLoop, Unclosed;
    TokenLoopStep(s, last, t, scan);
    TokenLoopStep(s, last, t, other);
    var i := Find(s, SEPARATORS, last);
    if i == NPOS {
      QuotesNone(s, last);
    } else if IsQuote(s[i]) {
      QuotesStep(s, last, i);
      var c := Find(s, {s[i]}, i + 1);
      if c != NPOS {
        OutsideExactly(s, c + 1, Take(t, s[i..c + 1]), scan, other);
      }
    } else {
      QuotesSkip(s, last, i + 1);
      OutsideExactly(s, i + 1, Ask(Take(t, s[last..i]), s[i]), scan, other);
    }
  }

  /** Reading a call ends exactly when the quotes behind its command close or all its quotes do. */
  lemma TokenizeEnds(text: string, infd: nat, outfd: nat, stray: Stray)
    ensures var s := Trim(text) + " ";
            && Line(s)
            && (Tokenize(text, infd, outfd, stray).Some? <==> QuotesClose(s, CommandEnd(s)) || QuotesClose(s, 0))
  {
    hide TokenLoop, Trim, QuotesClose, CommandEnd;
    var s := Trim(text) + " ";
    assert s[|s| - 1] == ' ';
    TokenLoopEnds(s, CommandEnd(s), NO_TOKENS, Scan(false, stray(text)));
  }

  /** Every text whose quotes close is read to its end. */
  lemma ClosedTextEnds(text: string, infd: nat, outfd: nat, stray: Stray)
    requires Closing(text)
    ensures Tokenize(text, infd, outfd, stray).Some?
  {
    hide Tokenize, Trim, Closing, QuotesClose, CommandEnd;
    TrimmedCloses(text);
    TokenizeEnds(text, infd, outfd, stray);
  }

  // ---------------------------------------------------------------- the splitting loop

  /** A line with closed quotes is split to its end, and one that is not is either refused at an
      operator or never finished. */
  lemma {:induction false} CutsEnds(s: string, last: nat, j: nat, before: Link, background: bool)
    requires last <= j <= |s| && Line(s)
    ensures QuotesClose(s, j) ==> Cuts(s, last, j, before, background).Some?
    ensures Cuts(s, last, j, before, background).Some? && !Cuts(s, last, j, before, background).value.parseError
            ==> QuotesClose(s, j)
    decreases |s| - j
  {
    hide Find, Cuts, QuotesClose, Remainder, LinkAfter, InBackground;
    CutsStep(s, last, j, before, background);
    var i := Find(s, OPERATORS, j);
    if i == NPOS {
      QuotesNone(s, j);
    } else if IsQuote(s[i]) {
      QuotesStep(s, j, i);
      var c := Find(s, {s[i]}, i + 1);
      if c != NPOS {
        CutsEnds(s, last, c + 1, before, background);
      }
    } else {
      var n := Resume(s, last, i);
      QuotesSkip(s, j, n);
      CutsEnds(s, n, n, LinkAfter(s, last, i, before), background || InBackground(s, i));
    }
  }

  /** Where the splitting loop stands: the start of the call text and the start of the search. After
      it has started over, the search may be behind the text. */
  datatype Spot = Spot(last: nat, j: nat) | Stopped

  function SplitRound(s: string, x: Spot): Spot
  {
    match x
    case Stopped => Stopped
    case Spot(last, j) =>
      var i := Find(s, OPERATORS, j);
      if i == NPOS || last >= |s| then Stopped
      else if IsQuote(s[i]) then
        (var c := Find(s, {s[i]}, i + 1); if c == NPOS then Spot(last, 0) else Spot(last, c + 1))
      else if Refused(s, i) then Stopped
      else if last == i then Spot(i + 1, i + 1)
      else if i + Width(Action(s, i)) >= |s| then Stopped
      else Spot(i + Width(Action(s, i)), i + Width(Action(s, i)))
  }

  function SplitRounds(s: string, x: Spot, n: nat): Spot
    decreases n
  {
    if n == 0 then x else SplitRounds(s, SplitRound(s, x), n - 1)
  }

  /** From here the loop gets to a quote without a partner. */
  predicate Reaches(s: string, last: nat, j: nat)
    decreases |s| - j
  {
    var i := Find(s, OPERATORS, j);
    i != NPOS &&
    if IsQuote(s[i]) then (var c := Find(s, {s[i]}, i + 1); c == NPOS || Reaches(s, last, c + 1))
    else !Refused(s, i) && var n := if last == i then i + 1 else i + Width(Action(s, i)); Reaches(s, n, n)
  }

  lemma {:induction false} CutsReach(s: string, last: nat, j: nat, before: Link, background: bool)
    requires last <= j <= |s| && Line(s)
    ensures Cuts(s, last, j, before, background).None? <==> Reaches(s, last, j)
    decreases |s| - j
  {
    hide Find, Cuts, Remainder, LinkAfter, InBackground;
    CutsStep(s, last, j, before, background);
    var i := Find(s, OPERATORS, j);
    if i == NPOS {
    } else if IsQuote(s[i]) {
      var c := Find(s, {s[i]}, i + 1);
      if c != NPOS {
        CutsReach(s, last, c + 1, before, background);
      }
    } else {
      var n := Resume(s, last, i);
      CutsReach(s, n, n, LinkAfter(s, last, i, before), background || InBackground(s, i));
    }
  }

  /** The first operator outside quotes at or after j, before any quote without a partner. */
  function FirstOperator(s: string, j: nat): int
    decreases |s| - j
  {
    var i := Find(s, OPERATORS, j);
    if i == NPOS || !IsQuote(s[i]) then i
    else (var c := Find(s, {s[i]}, i + 1); if c == NPOS then NPOS else FirstOperator(s, c + 1))
  }

  /** A scan with a call text that starts behind the first operator goes on like one with a call text
      that starts with the line. */
  lemma {:induction false} ReachesToo(s: string, last: nat, j: nat)
    requires Line(s) && Reaches(s, 0, j) && (last == 0 || (FirstOperator(s, j) != NPOS && last > FirstOperator(s, j)))
    ensures Reaches(s, last, j)
    decreases |s| - j
  {
    hide Find;
    var i := Find(s, OPERATORS, j);
    if IsQuote(s[i]) {
      var c := Find(s, {s[i]}, i + 1);
      if c != NPOS {
        ReachesToo(s, last, c + 1);
      }
    } else if i == 0 && last != 0 && Width(Action(s, 0)) == 2 {
      FoundAt(s, OPERATORS, 1, 1);
    }
  }

  /** What every round keeps once the loop is bound to get to a quote without a partner. */
  predicate Bound(s: string, x: Spot)
  {
    var o := FirstOperator(s, 0);
    && x.Spot? && x.last < |s| && Reaches(s, 0, 0) && Reaches(s, x.last, x.j)
    && ((FirstOperator(s, x.j) == o && (x.last == 0 || (o != NPOS && x.last > o)))
        || (o != NPOS && x.last > o && x.j > o))
  }

  lemma RoundBound(s: string, x: Spot)
    requires Line(s) && Bound(s, x)
    ensures Bound(s, SplitRound(s, x))
  {
    hide Find;
    var i := Find(s, OPERATORS, x.j);
    if IsQuote(s[i]) {
      if Find(s, {s[i]}, i + 1) == NPOS {
        ReachesToo(s, x.last, 0);
      }
    } else {
      var n := if x.last == i then i + 1 else i + Width(Action(s, i));
      assert Reaches(s, n, n) && Find(s, OPERATORS, n) != NPOS;
    }
  }

  lemma {:induction false} RoundsBound(s: string, x: Spot, n: nat)
    requires Line(s) && Bound(s, x)
    ensures SplitRounds(s, x, n) != Stopped
    decreases n
  {
    hide Bound, SplitRound;
    if n > 0 {
      RoundBound(s, x);
      RoundsBound(s, SplitRound(s, x), n - 1);
    } else {
      BoundGoesOn(s, x);
    }
  }

  lemma BoundGoesOn(s: string, x: Spot)
    requires Bound(s, x)
    ensures x != Stopped
  {
  }

  /** Where the model of the splitting loop answers None, no number of rounds ends it. */
  lemma CutsNeverEnd(s: string, n: nat)
    requires Line(s) && Cuts(s, 0, 0, First, false).None?
    ensures SplitRounds(s, Spot(0, 0), n) != Stopped
  {
    CutsReach(s, 0, 0, First, false);
    RoundsBound(s, Spot(0, 0), n);
  }

  lemma {:induction false} StopsSometime(s: string, last: nat, j: nat) returns (n: nat)
    requires Line(s) && last <= j <= |s| && !Reaches(s, last, j)
    ensures SplitRounds(s, Spot(last, j), n) == Stopped
    decreases |s| - j
  {
    hide Find;
    var i := Find(s, OPERATORS, j);
    var x := SplitRound(s, Spot(last, j));
    if x == Stopped {
      n := 1;
      assert SplitRounds(s, x, 0) == x;
    } else {
      n := StopsSometime(s, x.last, x.j);
      n := n + 1;
    }
  }

  /** Where it answers something, some number of rounds does. */
  lemma CutsSometimeEnd(s: string) returns (n: nat)
    requires Line(s) && Cuts(s, 0, 0, First, false).Some?
    ensures SplitRounds(s, Spot(0, 0), n) == Stopped
  {
    CutsReach(s, 0, 0, First, false);
    n := StopsSometime(s, 0, 0);
  }

  // ---------------------------------------------------------------- one line

  /** Once the background sign is read nothing but the final blank is left. */
  lemma NothingBehindBackground(s: string, last: nat, i: nat, link: Link)
    requires last <= i < |s| && s[i] in OPERATORS && !IsQuote(s[i]) && Line(s) && InBackground(s, i)
    ensures var n := Resume(s, last, i); Cuts(s, n, n, link, true) == Some(Cut([], true, false))
  {
    var n := Resume(s, last, i);
    FoundNowhere(s, OPERATORS, n);
  }

  lemma BareCut(s: string, a: nat, j: nat, e: nat)
    requires a <= j <= e <= |s| && Bare(s[a..j]) && (forall k | j <= k < e :: s[k] !in OPERATORS)
    ensures Closing(s[a..e])
  {
    hide Bare, Closing;
    BareOn(s, a, j, e);
    BareCloses(s[a..e]);
  }

  /** Every call text of a line has closed quotes, except what is left behind a refused operator: that
      has closed quotes exactly when the line has. */
  predicate Closings(c: Cut, closed: bool)
  {
    && (forall k | 0 <= k < |c.pieces| && (!c.parseError || k < |c.pieces| - 1) :: Closing(c.pieces[k].text))
    && (c.parseError ==> c.pieces != [] && (Closing(c.pieces[|c.pieces| - 1].text) <==> closed))
  }

  lemma ClosingsBehind(ps: seq<Piece>, c: Cut, closed: bool)
    requires Closings(c, closed) && (forall p | p in ps :: Closing(p.text))
    ensures Closings(c.(pieces := ps + c.pieces), closed)
  {
    hide Closing;
    var d := c.(pieces := ps + c.pieces);
    if c.parseError {
      assert d.pieces[|d.pieces| - 1] == c.pieces[|c.pieces| - 1];
    }
    forall k | 0 <= k < |d.pieces| && (!c.parseError || k < |d.pieces| - 1) ensures Closing(d.pieces[k].text) {
      assert d.pieces[k] == if k < |ps| then ps[k] else c.pieces[k - |ps|];
    }
  }

  lemma {:induction false} PiecesClose(s: string, last: nat, j: nat, before: Link)
    requires last <= j <= |s| && Line(s) && Bare(s[last..j]) && Cuts(s, last, j, before, false).Some?
    ensures Closings(Cuts(s, last, j, before, false).value, QuotesClose(s, j))
    decreases |s| - j
  {
    hide Find, Bare, Cuts, LinkAfter, Closing, QuotesClose, InBackground, Refused, Closings;
    CutsStep(s, last, j, before, false);
    var i := Find(s, OPERATORS, j);
    if i == NPOS {
      BareCut(s, last, j, |s|);
      assert s[last..|s|] == s[last..];
      OnePiece(Piece(s[last..], before, Last), false, QuotesClose(s, j));
    } else if IsQuote(s[i]) {
      var c := Find(s, {s[i]}, i + 1);
      BareOn(s, last, j, i);
      BareOverQuotes(s, last, i, c);
      QuotesStep(s, j, i);
      PiecesClose(s, last, c + 1, before);
    } else {
      var n, link := Resume(s, last, i), LinkAfter(s, last, i, before);
      BareCut(s, last, j, i);
      QuotesSkip(s, j, n);
      var rest := After(s, last, i, before, false);
      RestCloses(s, last, i, before, QuotesClose(s, j));
      ClosingsBehind(ShellSplitter.Closed(s, last, i, before), rest.value, QuotesClose(s, j));
    }
  }

  lemma OnePiece(p: Piece, parseError: bool, closed: bool)
    requires if parseError then Closing(p.text) == closed else Closing(p.text)
    ensures Closings(Cut([p], false, parseError), closed)
  {
  }

  lemma {:induction false} RestCloses(s: string, last: nat, i: nat, before: Link, closed: bool)
    requires last <= i < |s| && s[i] in OPERATORS && !IsQuote(s[i]) && Line(s)
    requires After(s, last, i, before, false).Some? && closed == QuotesClose(s, Resume(s, last, i))
    ensures Closings(After(s, last, i, before, false).value, closed)
    decreases |s| - i, 0
  {
    hide Find, Bare, Cuts, LinkAfter, Closing, QuotesClose;
    var n, link := Resume(s, last, i), LinkAfter(s, last, i, before);
    if Refused(s, i) {
      ClosingIs(s, n);
      OnePiece(Piece(s[n..], link, Last), true, closed);
    } else if InBackground(s, i) {
      NothingBehindBackground(s, last, i, link);
    } else {
      assert s[n..n] == "";
      BareWithoutOperators("");
      PiecesClose(s, n, n, link);
    }
  }

  lemma {:induction false} ItemsEnd(ps: seq<Piece>, stray: Stray)
    ensures Items(ps, stray).Some? <==> forall p | p in ps :: Tokenize(p.text, 0, 1, stray).Some?
  {
    hide Tokenize;
    if ps != [] {
      assert ps == [ps[0]] + ps[1..];
      ItemsEnd(ps[1..], stray);
    }
  }

  /** Every line whose quotes close is read to its end. Any other line is read to its end exactly when
      the splitter refuses an operator of it and the quotes behind the command of what is then left
      close. */
  lemma ParseEnds(line: string, stray: Stray)
    ensures var s := Trim(line) + " "; var c := Cuts(s, 0, 0, First, false);
            && (QuotesClose(s, 0) ==> Parse(line, stray).Some?)
            && (!QuotesClose(s, 0) ==>
                  (Parse(line, stray).Some? <==>
                   c.Some? && c.value.parseError && c.value.pieces != [] &&
                   var r := Trim(c.value.pieces[|c.value.pieces| - 1].text) + " "; QuotesClose(r, CommandEnd(r))))
  {
    hide Cuts, Trim, Items, Tokenize, QuotesClose, Closing, CommandEnd, Bare, Closings;
    var s := Trim(line) + " ";
    assert s[|s| - 1] == ' ' && s[0..0] == "";
    CutsEnds(s, 0, 0, First, false);
    var c := Cuts(s, 0, 0, First, false);
    if c.Some? {
      BareWithoutOperators("");
      PiecesClose(s, 0, 0, First);
      ItemsEnd(c.value.pieces, stray);
      PiecesEnd(c.value, QuotesClose(s, 0), stray);
    }
  }

  lemma PiecesEnd(c: Cut, closed: bool, stray: Stray)
    requires Closings(c, closed) && (!c.parseError ==> closed)
    ensures (forall p | p in c.pieces :: Tokenize(p.text, 0, 1, stray).Some?) <==>
            closed || (c.pieces != [] && var r := Trim(c.pieces[|c.pieces| - 1].text) + " "; QuotesClose(r, CommandEnd(r)))
  {
    hide Trim, Tokenize, QuotesClose, Closing, CommandEnd;
    var ps := c.pieces;
    forall k | 0 <= k < |ps| && Closing(ps[k].text) ensures Tokenize(ps[k].text, 0, 1, stray).Some? {
      ClosedTextEnds(ps[k].text, 0, 1, stray);
    }
    if c.parseError {
      var last := ps[|ps| - 1];
      assert last in ps;
      TrimmedCloses(last.text);
      TokenizeEnds(last.text, 0, 1, stray);
      forall p | p in ps && p != last ensures Closing(p.text) {
        var k :| 0 <= k < |ps| && ps[k] == p;
      }
    }
  }
}
