/** Quotes: where they close, and that operators cut exactly outside them. */
module ShellQuotes {
  import opened ShellCalls
  import opened Strings
  import opened ShellTokenizer
  import opened ShellSplitter

  // ---------------------------------------------------------------- where quotes close

  /** Reading from p on, every quote that opens also closes. */
  predicate QuotesClose(s: string, p: nat)
    decreases |s| - p
  {
    var q := Find(s, {'\'', '"'}, p);
    q == NPOS || (var c := Find(s, {s[q]}, q + 1); c != NPOS && QuotesClose(s, c + 1))
  }

  /** Skipping characters that are no quotes changes nothing. */
  lemma QuotesSkip(s: string, p: nat, k: nat)
    requires p <= k && (forall x | p <= x < k && x < |s| :: !IsQuote(s[x]))
    ensures QuotesClose(s, p) == QuotesClose(s, k)
  {
    var q, r := Find(s, {'\'', '"'}, p), Find(s, {'\'', '"'}, k);
    assert q == r;
  }

  /** The first quote decides with what follows its partner. */
  lemma QuotesStep(s: string, p: nat, q: nat)
    requires p <= q < |s| && IsQuote(s[q]) && (forall x | p <= x < q :: !IsQuote(s[x]))
    ensures QuotesClose(s, p) == (Find(s, {s[q]}, q + 1) != NPOS && QuotesClose(s, Find(s, {s[q]}, q + 1) + 1))
  {
    assert Find(s, {'\'', '"'}, p) == q;
  }

  lemma QuotesNone(s: string, p: nat)
    requires forall x | p <= x < |s| :: !IsQuote(s[x])
    ensures QuotesClose(s, p)
  {
    assert Find(s, {'\'', '"'}, p) == NPOS;
  }

  // ---------------------------------------------------------------- operators inside quotes

  /** A word in quotes, with anything but its own quote inside. */
  predicate Quoted(w: string)
  {
    |w| >= 2 && IsQuote(w[0]) && w[|w| - 1] == w[0] && (forall k | 0 < k < |w| - 1 :: w[k] != w[0])
  }

  /** A text whose quotes close and that has no operator outside them. */
  predicate Bare(t: string)
    decreases |t|
  {
    t == "" ||
    (if IsQuote(t[0]) then (var c := Find(t, {t[0]}, 1); c != NPOS && Bare(t[c + 1..]))
     else t[0] !in OPERATORS && Bare(t[1..]))
  }

  lemma {:induction false} BareAppend(a: string, b: string)
    requires Bare(a) && Bare(b)
    ensures Bare(a + b)
    decreases |a|
  {
    if a == "" {
      assert a + b == b;
    } else if IsQuote(a[0]) {
      var c := Find(a, {a[0]}, 1);
      assert (a + b)[0..|a|] == a;
      FindInSlice(a + b, {a[0]}, 1, 0, |a|);
      assert (a + b)[c + 1..] == a[c + 1..] + b;
      BareAppend(a[c + 1..], b);
    } else {
      assert (a + b)[1..] == a[1..] + b;
      BareAppend(a[1..], b);
    }
  }

  lemma {:induction false} BareWithoutOperators(t: string)
    requires forall c | c in t :: c !in OPERATORS
    ensures Bare(t)
    decreases |t|
  {
    if t != "" {
      assert t[0] in t;
      BareWithoutOperators(t[1..]);
    }
  }

  lemma BareQuoted(t: string)
    requires Quoted(t)
    ensures Bare(t)
  {
    assert Find(t, {t[0]}, 1) == |t| - 1;
    assert t[|t|..] == "";
  }

  lemma BareOn(s: string, a: nat, j: nat, e: nat)
    requires a <= j <= e <= |s| && Bare(s[a..j]) && (forall k | j <= k < e :: s[k] !in OPERATORS)
    ensures Bare(s[a..e])
  {
    hide Bare;
    BareWithoutOperators(s[j..e]);
    BareAppend(s[a..j], s[j..e]);
    assert s[a..j] + s[j..e] == s[a..e];
  }

  lemma BareOverQuotes(s: string, a: nat, i: nat, c: nat)
    requires a <= i < c < |s| && Bare(s[a..i]) && IsQuote(s[i]) && Find(s, {s[i]}, i + 1) == c
    ensures Bare(s[a..c + 1])
  {
    hide Bare, Find;
    BareQuoted(s[i..c + 1]);
    BareAppend(s[a..i], s[i..c + 1]);
    assert s[a..i] + s[i..c + 1] == s[a..c + 1];
  }

  /** No piece of an accepted line holds an operator outside quotes, and none ends inside quotes. */
  lemma {:induction false} PiecesAreBare(s: string, last: nat, j: nat, before: Link, background: bool)
    requires last <= j <= |s| && Line(s) && Bare(s[last..j])
    requires Cuts(s, last, j, before, background).Some? && !Cuts(s, last, j, before, background).value.parseError
    ensures forall p | p in Cuts(s, last, j, before, background).value.pieces :: Bare(p.text)
    decreases |s| - j
  {
    hide Find, Bare, Cuts, LinkAfter, InBackground;
    CutsStep(s, last, j, before, background);
    var i := Find(s, OPERATORS, j);
    if i == NPOS {
      BareOn(s, last, j, |s|);
      assert s[last..|s|] == s[last..];
    } else if IsQuote(s[i]) {
      BareOn(s, last, j, i);
      BareOverQuotes(s, last, i, Find(s, {s[i]}, i + 1));
      PiecesAreBare(s, last, Find(s, {s[i]}, i + 1) + 1, before, background);
    } else {
      BareOn(s, last, j, i);
      var n := Resume(s, last, i);
      assert s[n..n] == "";
      BareWithoutOperators("");
      PiecesAreBare(s, n, n, LinkAfter(s, last, i, before), background || InBackground(s, i));
    }
  }

  // ---------------------------------------------------------------- closed quotes, text by text

  /** A text whose quotes close. */
  predicate Closing(t: string)
    decreases |t|
  {
    t == "" ||
    (if IsQuote(t[0]) then (var c := Find(t, {t[0]}, 1); c != NPOS && Closing(t[c + 1..])) else Closing(t[1..]))
  }

  predicate NoQuotes(t: string) { forall c | c in t :: !IsQuote(c) }

  lemma {:induction false} ClosingIs(s: string, p: nat)
    requires p <= |s|
    ensures QuotesClose(s, p) <==> Closing(s[p..])
    decreases |s| - p
  {
    hide Find, QuotesClose;
    if p == |s| {
      QuotesNone(s, p);
    } else if IsQuote(s[p]) {
      QuotesStep(s, p, p);
      FindInSuffix(s, {s[p]}, p, 1);
      var c := Find(s, {s[p]}, p + 1);
      if c != NPOS {
        assert s[p..][c - p + 1..] == s[c + 1..];
        ClosingIs(s, c + 1);
      }
    } else {
      QuotesSkip(s, p, p + 1);
      assert s[p..][1..] == s[p + 1..];
      ClosingIs(s, p + 1);
    }
  }

  lemma {:induction false} BareCloses(t: string)
    requires Bare(t)
    ensures Closing(t)
    decreases |t|
  {
    hide Find;
    if t != "" {
      BareCloses(if IsQuote(t[0]) then t[Find(t, {t[0]}, 1) + 1..] else t[1..]);
    }
  }

  lemma {:induction false} ClosingBehind(pre: string, t: string)
    requires NoQuotes(pre)
    ensures Closing(pre + t) <==> Closing(t)
    decreases |pre|
  {
    if pre == "" {
      assert pre + t == t;
    } else {
      assert pre[0] in pre && (pre + t)[1..] == pre[1..] + t;
      ClosingBehind(pre[1..], t);
    }
  }

  lemma {:induction false} ClosingBefore(t: string, post: string)
    requires NoQuotes(post)
    ensures Closing(t + post) <==> Closing(t)
    decreases |t|
  {
    hide Find;
    if t == "" {
      ClosingBehind(post, "");
      assert t + post == post + "";
    } else if IsQuote(t[0]) {
      FindBefore(t, post, {t[0]}, 1);
      var c := Find(t, {t[0]}, 1);
      if c != NPOS {
        assert (t + post)[c + 1..] == t[c + 1..] + post;
        ClosingBefore(t[c + 1..], post);
      }
    } else {
      assert (t + post)[1..] == t[1..] + post;
      ClosingBefore(t[1..], post);
    }
  }

  /** Trimming neither opens nor closes a quote. */
  lemma TrimmedCloses(text: string)
    ensures Closing(text) <==> QuotesClose(Trim(text) + " ", 0)
  {
    hide Trim, Closing, QuotesClose;
    var s := Trim(text) + " ";
    var pre, post := TrimParts(text);
    assert NoQuotes(pre) && NoQuotes(post) && NoQuotes(" ");
    assert pre + Trim(text) + post == pre + (Trim(text) + post);
    ClosingBehind(pre, Trim(text) + post);
    ClosingBefore(Trim(text), post);
    ClosingBefore(Trim(text), " ");
    ClosingIs(s, 0);
    assert s[0..] == s;
  }
}
