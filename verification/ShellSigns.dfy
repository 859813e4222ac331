/** What a sign & says: exactly which lines run in the background and which are refused. */
module ShellSigns {
  import opened Collections
  import opened ShellCalls
  import opened Strings
  import opened ShellTokenizer
  import opened ShellSplitter

  /** Reading from j on, position p stands outside quotes. */
  predicate Outside(s: string, j: nat, p: nat)
    decreases |s| - j
  {
    j <= p < |s| &&
    (j == p ||
     if IsQuote(s[j]) then (var c := Find(s, {s[j]}, j + 1); c != NPOS && Outside(s, c + 1, p)) else Outside(s, j + 1, p))
  }

  predicate Mark(c: char) { c == '&' || c == '|' || c == ';' }

  /** A & that is no part of an &&: no other follows it, and it is not the second of two that stand
      behind the text of a call. */
  predicate Single(s: string, p: nat)
    requires p < |s|
  {
    s[p] == '&' && !(p + 1 < |s| && s[p + 1] == '&') && !(p >= 2 && s[p - 1] == '&' && !Mark(s[p - 2]))
  }

  /** A single & outside quotes with more of the line to come. */
  predicate SingleBeforeEnd(s: string, j: nat) { exists p: nat | p + 2 < |s| :: Outside(s, j, p) && Single(s, p) }

  /** A single & outside quotes as the last character in front of the closing blank. */
  predicate SingleAtEnd(s: string, j: nat) { |s| >= 2 && Outside(s, j, |s| - 2) && Single(s, |s| - 2) }

  // ---------------------------------------------------------------- where the loop stands

  /** How the start of a call text and of the search look from behind: a text starts behind an
      operator; the search is further on behind a quote. */
  predicate Stands(s: string, last: nat, j: nat)
  {
    && last <= j <= |s|
    && (last < j ==> IsQuote(s[j - 1]))
    && (last == j && j > 0 ==> Mark(s[j - 1]))
    && (last == j && j >= 2 && j < |s| && s[j - 1] == '&' && s[j] == '&' ==> Mark(s[j - 2]))
  }

  lemma {:induction false} OutsideSkips(s: string, j: nat, i: nat, p: nat)
    requires j <= i <= |s| && (forall x | j <= x < i :: !IsQuote(s[x]))
    ensures Outside(s, j, p) <==> (j <= p < i) || Outside(s, i, p)
    decreases i - j
  {
    hide Find;
    if j < i {
      OutsideSkips(s, j + 1, i, p);
    }
  }

  lemma OutsideFrom(s: string, j: nat, p: nat)
    ensures Outside(s, j, p) ==> j <= p < |s|
  {
  }

  /** A search that finds no operator passes no sign. */
  lemma NoSigns(s: string, j: nat)
    requires j <= |s| && Line(s) && Find(s, OPERATORS, j) == NPOS
    ensures !SingleBeforeEnd(s, j) && !SingleAtEnd(s, j)
  {
  }

  /** The quoted word at i holds no sign. */
  lemma QuotesPassed(s: string, last: nat, j: nat, i: nat, c: nat)
    requires Stands(s, last, j) && Line(s) && Find(s, OPERATORS, j) == i && i < |s| && IsQuote(s[i])
    requires Find(s, {s[i]}, i + 1) == c
    ensures Stands(s, last, c + 1)
    ensures SingleBeforeEnd(s, j) <==> SingleBeforeEnd(s, c + 1)
    ensures SingleAtEnd(s, j) <==> SingleAtEnd(s, c + 1)
  {
    forall p: nat | p < |s| && Single(s, p) ensures Outside(s, j, p) <==> Outside(s, c + 1, p) {
      OutsideSkips(s, j, i, p);
    }
  }

  /** At an operator that is a sign the loop sees a single & exactly where there is one. */
  lemma SignSeen(s: string, last: nat, j: nat, i: nat)
    requires Stands(s, last, j) && Line(s) && Find(s, OPERATORS, j) == i && i < |s| && !IsQuote(s[i])
    ensures Refused(s, i) <==> i + 2 < |s| && Single(s, i)
    ensures InBackground(s, i) <==> i + 2 == |s| && Single(s, i)
  {
    assert i < |s| - 1 && s[|s| - 1] == ' ';
  }

  /** What an operator uses up holds no other single &. */
  lemma SignPassed(s: string, last: nat, j: nat, i: nat, p: nat)
    requires Stands(s, last, j) && Line(s) && Find(s, OPERATORS, j) == i && i < |s| && !IsQuote(s[i])
    requires p < |s| && Single(s, p)
    ensures Stands(s, Resume(s, last, i), Resume(s, last, i))
    ensures Outside(s, j, p) <==> p == i || Outside(s, Resume(s, last, i), p)
  {
    var n := Resume(s, last, i);
    OutsideSkips(s, j, i, p);
    assert Outside(s, i, p) <==> i == p || Outside(s, i + 1, p);
    if n == i + 2 {
      OutsideSkips(s, i + 1, n, p);
    }
  }
  /** From where the loop stands: the line is refused exactly for a single & outside quotes with more
      of the line to come, and goes to the background exactly for one at its end. */
  lemma {:induction false} CutsSigns(s: string, last: nat, j: nat, before: Link, background: bool)
    requires Line(s) && Stands(s, last, j) && Cuts(s, last, j, before, background).Some?
    ensures var c := Cuts(s, last, j, before, background).value;
            && (c.parseError <==> SingleBeforeEnd(s, j))
            && (c.background <==> background || (!c.parseError && SingleAtEnd(s, j)))
    decreases |s| - j
  {
    hide Find, Cuts, LinkAfter, InBackground, Refused, Resume, Stands, Single, Outside, SingleBeforeEnd, SingleAtEnd,
         ShellSplitter.Closed, Line;
    assert last <= j <= |s| by { StandsInside(s, last, j); }
    CutsStep(s, last, j, before, background);
    var i := Find(s, OPERATORS, j);
    if i == NPOS {
      NoSigns(s, j);
    } else if IsQuote(s[i]) {
      var c := Find(s, {s[i]}, i + 1);
      QuotesPassed(s, last, j, i, c);
      CutsSigns(s, last, c + 1, before, background);
    } else {
      var n, b := Resume(s, last, i), background || InBackground(s, i);
      OperatorSigns(s, last, j, i);
      if !Refused(s, i) {
        CutsSigns(s, n, n, LinkAfter(s, last, i, before), b);
      }
    }
  }

  lemma StandsInside(s: string, last: nat, j: nat)
    requires Stands(s, last, j)
    ensures last <= j <= |s|
  {
  }

  /** The signs from an operator on. */
  lemma OperatorSigns(s: string, last: nat, j: nat, i: nat)
    requires Stands(s, last, j) && Line(s) && last <= i && Find(s, OPERATORS, j) == i && i < |s| && !IsQuote(s[i])
    ensures var n := Resume(s, last, i);
            && Stands(s, n, n)
            && (SingleBeforeEnd(s, j) <==> Refused(s, i) || SingleBeforeEnd(s, n))
            && (SingleAtEnd(s, j) <==> InBackground(s, i) || SingleAtEnd(s, n))
            && (Refused(s, i) ==> !InBackground(s, i))
            && (InBackground(s, i) ==> !SingleBeforeEnd(s, j) && !SingleBeforeEnd(s, n))
  {
    hide Find, Outside, Single, Refused, InBackground;
    var n := Resume(s, last, i);
    SignSeen(s, last, j, i);
    forall p: nat | p < |s| && Single(s, p)
      ensures Stands(s, n, n) && (Outside(s, j, p) <==> p == i || Outside(s, n, p))
    {
      SignPassed(s, last, j, i, p);
    }
    forall p: nat ensures Outside(s, n, p) ==> n <= p < |s| {
      OutsideFrom(s, n, p);
    }
  }

  /** Which lines are refused and which run in the background. */
  lemma SignsExactly(line: string, stray: Stray)
    requires Parse(line, stray).Some?
    ensures var s := Trim(line) + " "; var q := Parse(line, stray).value;
            && (q.parseError <==> SingleBeforeEnd(s, 0))
            && (q.background <==> !q.parseError && SingleAtEnd(s, 0))
  {
    hide Trim, Cuts, Items, SingleBeforeEnd, SingleAtEnd;
    CutsSigns(Trim(line) + " ", 0, 0, First, false);
  }

  /** An && with nothing in front of it is passed over one sign at a time, and its second is single. */
  lemma NothingBeforeAnd()
    ensures SingleBeforeEnd("a;&& b ", 0) && SingleAtEnd("&& ", 0) && !SingleBeforeEnd("a && b ", 0) && !SingleAtEnd("a && ", 0)
  {
    var s, t, u, v := "a;&& b ", "&& ", "a && b ", "a && ";
    OutsideSkips(s, 0, 3, 3);
    assert Outside(s, 0, 3) && Single(s, 3);
    OutsideSkips(t, 0, 1, 1);
    assert u[2] == '&' && u[3] == '&' && !Mark(u[1]);
    assert forall p: nat | p + 2 < |u| && u[p] == '&' :: p == 2 || p == 3;
    assert v[3] == '&' && v[2] == '&' && !Mark(v[1]);
  }
}
