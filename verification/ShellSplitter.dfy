/** The splitter of one line: calls and the operators between them. */
module ShellSplitter {
  import opened Collections
  import opened ShellCalls
  import opened Strings
  import opened ShellTokenizer

  const OPERATORS: set<char> := {'&', '|', ';', '\'', '"'}

  /** The text of one call with the operator before it and the operator after it. */
  datatype Piece = Piece(text: string, before: Link, after: Link)

  datatype Cut = Cut(pieces: seq<Piece>, background: bool, parseError: bool)

  /** What the operator at position i says. */
  function Action(s: string, i: nat): (a: Link)
    requires i < |s| && s[i] in OPERATORS && !IsQuote(s[i])
    ensures a != First
  {
    if s[i] == '&' then (if i < |s| - 2 && s[i + 1] == '&' then And else Last)
    else if s[i] == '|' then (if i < |s| - 1 && s[i + 1] == '|' then Or else Pipe)
    else Last
  }

  /** A single & is refused in the middle of a line and means background at its end. */
  predicate Refused(s: string, i: nat)
    requires i < |s|
  {
    s[i] == '&' && i < |s| - 2 && s[i + 1] != '&'
  }

  predicate InBackground(s: string, i: nat)
    requires i < |s|
  {
    s[i] == '&' && i >= |s| - 2
  }

  function Next(a: Link): Link { if a == Last then First else a }

  function Width(a: Link): nat { if a == And || a == Or then 2 else 1 }

  predicate Line(s: string) { s != "" && s[|s| - 1] == ' ' }

  /** The call text that ends at the operator at i; an empty one is passed over. */
  function Closed(s: string, last: nat, i: nat, before: Link): (ps: seq<Piece>)
    requires last <= i < |s| && s[i] in OPERATORS && !IsQuote(s[i])
  {
    if last == i then [] else [Piece(s[last..i], before, Action(s, i))]
  }

  /** Where the next call text starts, and the operator before it. */
  function Resume(s: string, last: nat, i: nat): (n: nat)
    requires last <= i < |s| && s[i] in OPERATORS && !IsQuote(s[i]) && Line(s)
    ensures i < n < |s|
  {
    if last == i then i + 1 else i + Width(Action(s, i))
  }

  function LinkAfter(s: string, last: nat, i: nat, before: Link): Link
    requires last <= i < |s| && s[i] in OPERATORS && !IsQuote(s[i])
  {
    if last == i then before else Next(Action(s, i))
  }

  /** What the line still holds once the loop has ended. */
  function Remainder(s: string, last: nat, before: Link, background: bool): seq<Piece>
    requires last <= |s|
  {
    if background then [] else [Piece(s[last..], before, Last)]
  }

  function Behind(ps: seq<Piece>, c: Option<Cut>): Option<Cut>
  {
    match c
    case None => None
    case Some(x) => Some(x.(pieces := ps + x.pieces))
  }

  /** The splitting loop with the current call text starting at last and the search for operators
      resuming at j; None at an unclosed quote, from where the search starts over from the beginning
      of the line and gets back to that quote for ever, as ShellEnding.CutsNeverEnd proves. */
  function Cuts(s: string, last: nat, j: nat, before: Link, background: bool): Option<Cut>
    requires last <= j <= |s| && Line(s)
    decreases |s| - j
  {
    var i := Find(s, OPERATORS, j);
    if i == NPOS then Some(Cut(Remainder(s, last, before, background), background, false))
    else if IsQuote(s[i]) then
      var close := Find(s, {s[i]}, i + 1);
      if close == NPOS then None else Cuts(s, last, close + 1, before, background)
    else
      var n, link, b := Resume(s, last, i), LinkAfter(s, last, i, before), background || InBackground(s, i);
      Behind(Closed(s, last, i, before),
             if Refused(s, i) then Some(Cut(Remainder(s, n, link, b), b, true)) else Cuts(s, n, n, link, b))
  }

  datatype Parsed = Parsed(items: seq<Item>, background: bool, parseError: bool)

  function Items(ps: seq<Piece>, stray: Stray): Option<seq<Item>>
  {
    if ps == [] then Some([])
    else
      match Tokenize(ps[0].text, 0, 1, stray)
      case None => None
      case Some(c) =>
        match Items(ps[1..], stray)
        case None => None
        case Some(xs) => Some([Item(c, ps[0].before, ps[0].after)] + xs)
  }

  function Calls(c: Option<Cut>, stray: Stray): Option<Parsed>
  {
    match c
    case None => None
    case Some(x) =>
      match Items(x.pieces, stray)
      case None => None
      case Some(xs) => Some(Parsed(xs, x.background, x.parseError))
  }

  /** The instruction a line describes. */
  function Parse(line: string, stray: Stray): Option<Parsed>
  {
    Calls(Cuts(Trim(line) + " ", 0, 0, First, false), stray)
  }

  // ---------------------------------------------------------------- the code

  function WithItems(xs: seq<Item>, p: Option<Parsed>): Option<Parsed>
  {
    match p
    case None => None
    case Some(x) => Some(x.(items := xs + x.items))
  }

  lemma CallsBehind(p: Piece, c: Option<Cut>, stray: Stray)
    ensures Calls(Behind([p], c), stray) ==
            (match Tokenize(p.text, 0, 1, stray)
             case None => None
             case Some(x) => WithItems([Item(x, p.before, p.after)], Calls(c, stray)))
  {
    hide Tokenize;
    if c.Some? {
      assert ([p] + c.value.pieces)[1..] == c.value.pieces;
    }
  }

  lemma WithItemsTwice(xs: seq<Item>, ys: seq<Item>, p: Option<Parsed>)
    ensures WithItems(xs, WithItems(ys, p)) == WithItems(xs + ys, p)
  {
    if p.Some? {
      assert xs + (ys + p.value.items) == (xs + ys) + p.value.items;
    }
  }

  lemma WithNoItems(p: Option<Parsed>)
    ensures WithItems([], p) == p
  {
    if p.Some? {
      assert [] + p.value.items == p.value.items;
    }
  }

  /** The line from an operator on. */
  function After(s: string, last: nat, i: nat, before: Link, background: bool): Option<Cut>
    requires last <= i < |s| && s[i] in OPERATORS && !IsQuote(s[i]) && Line(s)
  {
    var n, link, b := Resume(s, last, i), LinkAfter(s, last, i, before), background || InBackground(s, i);
    if Refused(s, i) then Some(Cut(Remainder(s, n, link, b), b, true)) else Cuts(s, n, n, link, b)
  }

  lemma CutsStep(s: string, last: nat, j: nat, before: Link, background: bool)
    requires last <= j <= |s| && Line(s)
    ensures Cuts(s, last, j, before, background) ==
            var i := Find(s, OPERATORS, j);
            if i == NPOS then Some(Cut(Remainder(s, last, before, background), background, false))
            else if IsQuote(s[i]) then
              (var close := Find(s, {s[i]}, i + 1);
               if close == NPOS then None else Cuts(s, last, close + 1, before, background))
            else Behind(Closed(s, last, i, before), After(s, last, i, before, background))
  {
    hide Find;
  }

  /** One more call text in front of what an operator leaves. */
  lemma Pushed(calls: seq<Item>, p: Piece, rest: Option<Cut>, stray: Stray)
    ensures WithItems(calls, Calls(Behind([p], rest), stray)) ==
            (match Tokenize(p.text, 0, 1, stray)
             case None => None
             case Some(x) => WithItems(calls + [Item(x, p.before, p.after)], Calls(rest, stray)))
  {
    hide Tokenize, Items;
    CallsBehind(p, rest, stray);
    match Tokenize(p.text, 0, 1, stray)
    case None =>
    case Some(x) => WithItemsTwice(calls, [Item(x, p.before, p.after)], Calls(rest, stray));
  }

  lemma NothingPushed(rest: Option<Cut>)
    ensures Behind([], rest) == rest
  {
    if rest.Some? {
      assert [] + rest.value.pieces == rest.value.pieces;
    }
  }

  lemma NothingRead(calls: seq<Item>, stray: Stray)
    ensures WithItems(calls, Calls(None, stray)) == None
  {
  }

  /** The end of the line. */
  lemma Ended(calls: seq<Item>, s: string, last: nat, before: Link, background: bool, parseError: bool,
              stray: Stray)
    requires last <= |s|
    ensures WithItems(calls, Calls(Some(Cut(Remainder(s, last, before, background), background, parseError)), stray)) ==
            (if background then Some(Parsed(calls, background, parseError))
             else match Tokenize(s[last..], 0, 1, stray)
                  case None => None
                  case Some(x) => Some(Parsed(calls + [Item(x, before, Last)], background, parseError)))
  {
    hide Tokenize;
    var none := Some(Cut([], background, parseError));
    assert Calls(none, stray) == Some(Parsed([], background, parseError));
    assert calls + [] == calls;
    if !background {
      var p := Piece(s[last..], before, Last);
      assert [p] + [] == [p];
      assert Behind([p], none) == Some(Cut([p], background, parseError));
      Pushed(calls, p, none, stray);
      if Tokenize(p.text, 0, 1, stray).Some? {
        var more := calls + [Item(Tokenize(p.text, 0, 1, stray).value, before, Last)];
        assert more + [] == more;
      }
    }
  }

  /** The switch over the operator character. */
  method ReadOperator(s: string, i: nat, background: bool) returns (action: Link, refused: bool, inBackground: bool)
    requires i < |s| && s[i] in OPERATORS && !IsQuote(s[i]) && Line(s)
    ensures action == Action(s, i) && refused == Refused(s, i) && inBackground == (background || InBackground(s, i))
  {
    action, refused, inBackground := Last, false, background;
    if s[i] == '&' {
      if i < |s| - 2 {
        if s[i + 1] == '&' {
          action := And;
        } else {
          refused := true;
        }
      } else {
        inBackground := true;
      }
    } else if s[i] == '|' {
      action := if s[i + 1] == '|' then Or else Pipe;
    }
  }

  /** The instruction constructor. The branches for an operator behind the last character are not
      written out: the line ends in a blank. */
  method MakeInstruction(line: string, stray: Stray) returns (r: Option<Parsed>)
    ensures r == Parse(line, stray)
  {
    hide Tokenize, Trim, Find, Cuts, Calls, Items, Behind;
    var trimmed := TrimLoops(line);
    var s := trimmed + " ";
    assert s[|s| - 1] == ' ';
    var calls: seq<Item> := [];
    var background, parseError := false, false;
    var lastAction := First;
    var last := 0;
    ghost var j := 0;
    var i := Find(s, OPERATORS, last);
    ghost var left := Cuts(s, 0, 0, First, false);
    WithNoItems(Calls(left, stray));
    while !parseError && i != NPOS
      invariant 0 <= last < |s| && last <= j <= |s| && i == Find(s, OPERATORS, j)
      invariant left == if parseError then Some(Cut(Remainder(s, last, lastAction, background), background, true))
                        else Cuts(s, last, j, lastAction, background)
      invariant WithItems(calls, Calls(left, stray)) == Parse(line, stray)
      decreases |s| - j
    {
      CutsStep(s, last, j, lastAction, background);
      if IsQuote(s[i]) {
        var close := Find(s, {s[i]}, i + 1);
        if close == NPOS {
          NothingRead(calls, stray);
          return None;
        }
        i := Find(s, OPERATORS, close + 1);
        j := close + 1;
        continue;
      }
      left := After(s, last, i, lastAction, background);
      var action, refused, inBackground := ReadOperator(s, i, background);
      parseError, background := refused, inBackground;
      if last == i {
        NothingPushed(left);
        last := i + 1;
      } else {
        var call := MakeCall(s[last..i], 0, 1, stray);
        Pushed(calls, Piece(s[last..i], lastAction, action), left, stray);
        if call.None? {
          return None;
        }
        calls := calls + [Item(call.value, lastAction, action)];
        lastAction := if action != Last then action else First;
        last := if action == And || action == Or then i + 2 else i + 1;
      }
      i := Find(s, OPERATORS, last);
      j := last;
    }
    if !parseError {
      CutsStep(s, last, j, lastAction, background);
    }
    Ended(calls, s, last, lastAction, background, parseError, stray);
    if !background {
      var call := MakeCall(s[last..], 0, 1, stray);
      if call.None? {
        return None;
      }
      calls := calls + [Item(call.value, lastAction, Last)];
    }
    r := Some(Parsed(calls, background, parseError));
  }
}
