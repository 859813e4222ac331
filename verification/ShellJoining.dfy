/** How the pieces of a line are linked, and that splitting undoes joining them. */
module ShellJoining {
  import opened Collections
  import opened ShellCalls
  import opened Strings
  import opened ShellTokenizer
  import opened ShellSplitter
  import opened ShellQuotes

  // ---------------------------------------------------------------- how pieces are linked

  predicate LinkedFrom(ps: seq<Piece>, before: Link)
  {
    ps == [] || (ps[0].before == before && ps[0].after != First && LinkedFrom(ps[1..], Next(ps[0].after)))
  }

  lemma {:induction false} CutsLinked(s: string, last: nat, j: nat, before: Link, background: bool)
    requires last <= j <= |s| && Line(s) && Cuts(s, last, j, before, background).Some?
    ensures LinkedFrom(Cuts(s, last, j, before, background).value.pieces, before)
    decreases |s| - j
  {
    hide Find, Cuts, InBackground, LinkAfter, Resume, Refused, ShellSplitter.Closed;
    CutsStep(s, last, j, before, background);
    var i := Find(s, OPERATORS, j);
    if i == NPOS {
    } else if IsQuote(s[i]) {
      CutsLinked(s, last, Find(s, {s[i]}, i + 1) + 1, before, background);
    } else {
      var n, link := Resume(s, last, i), LinkAfter(s, last, i, before);
      if !Refused(s, i) {
        CutsLinked(s, n, n, link, background || InBackground(s, i));
      }
      ClosedLinked(s, last, i, before, After(s, last, i, before, background).value.pieces);
    }
  }

  lemma ClosedLinked(s: string, last: nat, i: nat, before: Link, rest: seq<Piece>)
    requires last <= i < |s| && s[i] in OPERATORS && !IsQuote(s[i]) && LinkedFrom(rest, LinkAfter(s, last, i, before))
    ensures LinkedFrom(ShellSplitter.Closed(s, last, i, before) + rest, before)
  {
    var head := ShellSplitter.Closed(s, last, i, before);
    if head == [] {
      assert head + rest == rest;
    } else {
      assert (head + rest)[1..] == rest;
    }
  }

  lemma {:induction false} LinkedAt(ps: seq<Piece>, before: Link, i: nat)
    requires LinkedFrom(ps, before) && i < |ps|
    ensures ps[i].after != First
    ensures ps[i].before == if i == 0 then before else Next(ps[i - 1].after)
  {
    if i > 0 {
      LinkedAt(ps[1..], Next(ps[0].after), i - 1);
    }
  }

  lemma {:induction false} ItemsKeepLinks(ps: seq<Piece>, stray: Stray)
    requires Items(ps, stray).Some?
    ensures |Items(ps, stray).value| == |ps|
    ensures forall i | 0 <= i < |ps| ::
              && Items(ps, stray).value[i].before == ps[i].before
              && Items(ps, stray).value[i].after == ps[i].after
              && Tokenize(ps[i].text, 0, 1, stray) == Some(Items(ps, stray).value[i].call)
  {
    hide Tokenize;
    if ps != [] {
      ItemsKeepLinks(ps[1..], stray);
    }
  }

  /** Every instruction read from a line is linked the way the executor expects. */
  lemma ParsedIsLinked(line: string, stray: Stray)
    requires Parse(line, stray).Some?
    ensures Linked(Parse(line, stray).value.items)
  {
    hide Tokenize, Trim, Items, Cuts, LinkedFrom;
    var s := Trim(line) + " ";
    CutsLinked(s, 0, 0, First, false);
    var ps := Cuts(s, 0, 0, First, false).value.pieces;
    ItemsKeepLinks(ps, stray);
    var xs := Items(ps, stray).value;
    forall i | 0 <= i < |ps| ensures xs[i].after != First && (i == 0 ==> xs[i].before == First) {
      LinkedAt(ps, First, i);
    }
    forall i | 0 <= i < |xs| - 1 ensures xs[i + 1].before == if xs[i].after == Last then First else xs[i].after {
      LinkedAt(ps, First, i + 1);
    }
  }

  // ---------------------------------------------------------------- splitting undoes joining

  function Sign(a: Link): string
  {
    match a
    case And => "&&"
    case Or => "||"
    case Pipe => "|"
    case _ => ";"
  }

  /** Call texts with the operators between them. */
  function Join(ps: seq<Piece>): string
  {
    if ps == [] then "" else if |ps| == 1 then ps[0].text else ps[0].text + Sign(ps[0].after) + Join(ps[1..])
  }

  /** Two searches that find the same operator go on alike. */
  lemma SameSearch(s: string, last: nat, j: nat, k: nat, before: Link, background: bool)
    requires last <= j <= k <= |s| && Line(s) && Find(s, OPERATORS, j) == Find(s, OPERATORS, k)
    ensures Cuts(s, last, j, before, background) == Cuts(s, last, k, before, background)
  {
    hide Find, Cuts, After, Closed;
    CutsStep(s, last, j, before, background);
    CutsStep(s, last, k, before, background);
  }

  /** The search passes over a quoted word. */
  lemma OverQuotes(s: string, last: nat, j: nat, c: nat, before: Link, background: bool)
    requires last <= j < c < |s| && Line(s) && IsQuote(s[j]) && Find(s, {s[j]}, j + 1) == c
    ensures Cuts(s, last, j, before, background) == Cuts(s, last, c + 1, before, background)
  {
    hide Cuts, After, Closed;
    assert Find(s, OPERATORS, j) == j;
    CutsStep(s, last, j, before, background);
  }

  /** The search for operators runs over a bare text. */
  lemma {:induction false} SkipBare(s: string, last: nat, j: nat, k: nat, before: Link, background: bool)
    requires last <= j <= k <= |s| && Line(s) && Bare(s[j..k])
    ensures Cuts(s, last, j, before, background) == Cuts(s, last, k, before, background)
    decreases k - j
  {
    hide Cuts;
    var t := s[j..k];
    if t == "" {
    } else if IsQuote(t[0]) {
      var c := Find(t, {t[0]}, 1);
      FindInSlice(s, {t[0]}, j + 1, j, k);
      assert t[c + 1..] == s[j + c + 1..k];
      OverQuotes(s, last, j, j + c, before, background);
      SkipBare(s, last, j + c + 1, k, before, background);
    } else {
      assert t[1..] == s[j + 1..k];
      SameSearch(s, last, j, j + 1, before, background);
      SkipBare(s, last, j + 1, k, before, background);
    }
  }

  lemma BareStart(t: string)
    requires Bare(t) && t != ""
    ensures t[0] !in {'&', '|', ';'}
  {
  }

  /** Pieces that can be joined: bare, not empty, linked, only the last without an operator. */
  predicate Joinable(ps: seq<Piece>, before: Link)
  {
    && ps != [] && LinkedFrom(ps, before) && ps[|ps| - 1].after == Last
    && (forall p | p in ps :: p.text != "" && Bare(p.text))
  }

  lemma JoinRest(ps: seq<Piece>)
    requires |ps| > 1 && ps[1].text != "" && Bare(ps[1].text)
    ensures Join(ps) == ps[0].text + Sign(ps[0].after) + Join(ps[1..])
    ensures Join(ps[1..]) != "" && Join(ps[1..])[0] !in {'&', '|', ';'}
  {
    BareStart(ps[1].text);
    assert Join(ps[1..])[0] == ps[1].text[0];
  }

  lemma JoinFirst(s: string, last: nat, ps: seq<Piece>, tail: string)
    requires last <= |s| && ps != [] && s[last..] == Join(ps) + tail
    ensures last + |ps[0].text| <= |s| && s[last..last + |ps[0].text|] == ps[0].text
    ensures |ps| == 1 ==> s[last + |ps[0].text|..] == tail
  {
    assert s[last..][..|ps[0].text|] == s[last..last + |ps[0].text|];
    assert s[last..][|ps[0].text|..] == s[last + |ps[0].text|..];
  }

  /** The end of a line: the sign & for the background, or nothing. */
  function Ending(background: bool): string { if background then "& " else "" }

  /** The end of a line behind its last call text. */
  lemma EndingRead(s: string, last: nat, i: nat, before: Link, background: bool)
    requires last < i && i <= |s| && Line(s) && s[i..] == Ending(background)
    ensures Cuts(s, last, i, before, false) == Some(Cut([Piece(s[last..i], before, Last)], background, false))
  {
    hide Cuts, Find;
    var t, p := s[i..], Piece(s[last..i], before, Last);
    CutsStep(s, last, i, before, false);
    if background {
      assert s[i] == t[0] && s[i + 1] == t[1] && i == |s| - 2;
      FoundAt(s, OPERATORS, i, i);
      FoundNowhere(s, OPERATORS, i + 1);
      CutsStep(s, i + 1, i + 1, First, true);
      assert Closed(s, last, i, before) == [p] && [p] + [] == [p];
    } else {
      FoundNowhere(s, OPERATORS, i);
      assert s[last..i] == s[last..];
    }
  }

  lemma JoinableRest(ps: seq<Piece>, before: Link)
    requires Joinable(ps, before)
    ensures ps[0].text != "" && Bare(ps[0].text) && ps[0].before == before && ps[0].after != First
    ensures if |ps| == 1 then ps[0].after == Last else Joinable(ps[1..], Next(ps[0].after)) && ps[1].text != "" && Bare(ps[1].text)
  {
    hide Bare;
    assert ps[0] in ps;
    if |ps| > 1 {
      assert ps[1] in ps;
      assert forall q | q in ps[1..] :: q in ps;
      assert ps[1..][|ps| - 2] == ps[|ps| - 1];
    }
  }

  /** The operator behind a call text is read as what it was written for. */
  lemma OperatorRead(s: string, last: nat, x: string, a: Link, rest: string, before: Link)
    requires last <= |s| && Line(s) && s[last..] == x + Sign(a) + rest && x != "" && a != First
    requires rest != "" && rest[0] !in {'&', '|', ';'} && s[last..last + |x|] == x
    ensures var i := last + |x|; var n := i + |Sign(a)|;
            && n < |s| && s[n..] == rest
            && Cuts(s, last, i, before, false) == Behind([Piece(x, before, a)], Cuts(s, n, n, Next(a), false))
  {
    hide Cuts, Find, Action, Resume, Refused, InBackground, Sign, Line, Behind;
    SignRead(s, last, x, a, rest);
    var i := last + |x|;
    FoundAt(s, OPERATORS, i, i);
    CutsStep(s, last, i, before, false);
  }

  /** Splitting undoes joining, with and without the sign for the background at the end. */
  lemma {:induction false} CutsJoin(s: string, last: nat, ps: seq<Piece>, before: Link, background: bool)
    requires last <= |s| && Line(s) && Joinable(ps, before) && s[last..] == Join(ps) + Ending(background)
    ensures Cuts(s, last, last, before, false) == Some(Cut(ps, background, false))
    decreases |ps|
  {
    hide Cuts, Find, Bare, Join, Sign, Joinable, Ending, LinkedFrom;
    JoinableRest(ps, before);
    assert ps != [] by { JoinableSome(ps, before); }
    var p := ps[0];
    var i := last + |p.text|;
    JoinFirst(s, last, ps, Ending(background));
    assert s[last..i] == p.text;
    SkipBare(s, last, last, i, before, false);
    if |ps| == 1 {
      EndingRead(s, last, i, before, background);
      assert ps == [p];
    } else {
      JoinRest(ps);
      var rest := Join(ps[1..]) + Ending(background);
      assert s[last..] == p.text + Sign(p.after) + rest;
      OperatorRead(s, last, p.text, p.after, rest, before);
      CutsJoin(s, i + |Sign(p.after)|, ps[1..], Next(p.after), background);
      assert [p] + ps[1..] == ps;
    }
  }

  lemma JoinableSome(ps: seq<Piece>, before: Link)
    requires Joinable(ps, before)
    ensures ps != []
  {
  }

  /** Operators with no call text in front of them are passed over, each by itself, and the operator
      before the next call stays what it was. */
  lemma {:induction false} StrayOperators(s: string, last: nat, ops: string, ps: seq<Piece>, before: Link, background: bool)
    requires last <= |s| && Line(s) && Joinable(ps, before) && s[last..] == ops + (Join(ps) + Ending(background))
    requires forall c | c in ops :: c in {'|', ';'}
    ensures Cuts(s, last, last, before, false) == Some(Cut(ps, background, false))
    decreases |ops|
  {
    hide Cuts, Find, Bare, Join, Joinable;
    if ops == "" {
      CutsJoin(s, last, ps, before, background);
    } else {
      var t := s[last..];
      assert s[last] == t[0] == ops[0] && ops[0] in ops;
      assert s[last + 1..] == t[1..] == ops[1..] + (Join(ps) + Ending(background));
      assert forall c | c in ops[1..] :: c in ops;
      FoundAt(s, OPERATORS, last, last);
      CutsStep(s, last, last, before, false);
      StrayOperators(s, last + 1, ops[1..], ps, before, background);
      NothingPushed(Some(Cut(ps, background, false)));
    }
  }

  /** The operator between two call texts is read as what it was written for. */
  lemma SignRead(s: string, last: nat, x: string, a: Link, rest: string)
    requires last <= |s| && Line(s) && s[last..] == x + Sign(a) + rest && x != "" && a != First
    requires rest != "" && rest[0] !in {'&', '|', ';'}
    ensures var i := last + |x|; var n := i + |Sign(a)|;
            && n < |s| && s[i] in OPERATORS && !IsQuote(s[i]) && Action(s, i) == a
            && !Refused(s, i) && !InBackground(s, i) && Resume(s, last, i) == n && s[n..] == rest
  {
    ThreeParts(s, last, x, Sign(a), rest);
  }

  lemma ThreeParts(s: string, last: nat, x: string, sign: string, rest: string)
    requires last <= |s| && s[last..] == x + sign + rest && rest != ""
    ensures var i := last + |x|; var n := i + |sign|;
            n < |s| && s[n..] == rest && s[n] == rest[0] && forall k | 0 <= k < |sign| :: s[i + k] == sign[k]
  {
    var t, i, n := s[last..], last + |x|, last + |x| + |sign|;
    assert t[|x| + |sign|..] == s[n..];
    assert s[n] == t[|x| + |sign|];
    forall k | 0 <= k < |sign| ensures s[i + k] == sign[k] {
      assert s[i + k] == t[|x| + k];
    }
  }
}
