/** What the token loop makes of its text, as a list of words and signs; exactly when that is what
    white space would separate, and exactly when no character is lost. */
module ShellLexing {
  import opened Collections
  import opened ShellCalls
  import opened Strings
  import opened ShellTokenizer
  import opened ShellSplitter
  import opened ShellQuotes

  datatype Lexeme = Word(text: string) | Sign(c: char)

  /** Separators as the description has them: any white space. */
  const WHITE: set<char> := {' ', '\t', '\n', '\r', '\U{000B}', '\U{000C}', '<', '>', '\'', '"'}

  function WordOf(w: string): seq<Lexeme> { if w == "" then [] else [Word(w)] }

  function SignOf(c: char): seq<Lexeme> { if c == '<' || c == '>' then [Sign(c)] else [] }

  /** The words and signs from position last on. Text directly before a quote is passed over. */
  function Lex(s: string, separators: set<char>, last: nat): seq<Lexeme>
    decreases |s| - last
  {
    var i := Find(s, separators, last);
    if i == NPOS then []
    else if IsQuote(s[i]) then
      var c := Find(s, {s[i]}, i + 1);
      if c == NPOS then [] else [Word(s[i..c + 1])] + Lex(s, separators, c + 1)
    else WordOf(s[last..i]) + SignOf(s[i]) + Lex(s, separators, i + 1)
  }

  lemma LexStep(s: string, separators: set<char>, last: nat)
    ensures Lex(s, separators, last) ==
            var i := Find(s, separators, last);
            if i == NPOS then []
            else if IsQuote(s[i]) then
              (var c := Find(s, {s[i]}, i + 1);
               if c == NPOS then [] else [Word(s[i..c + 1])] + Lex(s, separators, c + 1))
            else WordOf(s[last..i]) + SignOf(s[i]) + Lex(s, separators, i + 1)
  {
    hide Find;
  }

  // ---------------------------------------------------------------- the token loop

  /** Words go where they are needed, signs ask for a file. */
  function Enter(ls: seq<Lexeme>, t: Tokens): Tokens
  {
    if ls == [] then t
    else Enter(ls[1..], match ls[0] case Word(w) => Take(t, w) case Sign(c) => Ask(t, c))
  }

  lemma {:induction false} EnterBehind(a: seq<Lexeme>, b: seq<Lexeme>, t: Tokens)
    ensures Enter(a + b, t) == Enter(b, Enter(a, t))
    decreases |a|
  {
    if a == [] {
      assert a + b == b;
    } else {
      assert (a + b)[1..] == a[1..] + b;
      EnterBehind(a[1..], b, match a[0] case Word(w) => Take(t, w) case Sign(c) => Ask(t, c));
    }
  }

  lemma EnterWord(w: string, c: char, t: Tokens)
    ensures Enter(WordOf(w) + SignOf(c), t) == Ask(Take(t, w), c)
  {
    EnterBehind(WordOf(w), SignOf(c), t);
    assert Enter(WordOf(w), t) == Take(t, w) by { if w != "" { assert WordOf(w)[1..] == []; } }
    if c == '<' || c == '>' { assert SignOf(c)[1..] == []; }
  }

  /** Where quotes close, the token loop enters exactly these words and signs. */
  lemma {:induction false} LoopEnters(s: string, last: nat, t: Tokens, scan: Scan)
    requires QuotesClose(s, last)
    ensures TokenLoop(s, last, t, scan) == Some(Enter(Lex(s, SEPARATORS, last), t))
    decreases |s| - last
  {
    hide Find, QuotesClose, Take, Ask, TokenLoop, Lex, WordOf, SignOf;
    TokenLoopStep(s, last, t, scan);
    LexStep(s, SEPARATORS, last);
    var i := Find(s, SEPARATORS, last);
    if i == NPOS {
    } else if IsQuote(s[i]) {
      QuotesStep(s, last, i);
      var c := Find(s, {s[i]}, i + 1);
      var rest := Lex(s, SEPARATORS, c + 1);
      assert ([Word(s[i..c + 1])] + rest)[1..] == rest;
      LoopEnters(s, c + 1, Take(t, s[i..c + 1]), scan);
    } else {
      QuotesSkip(s, last, i + 1);
      var head := WordOf(s[last..i]) + SignOf(s[i]);
      EnterBehind(head, Lex(s, SEPARATORS, i + 1), t);
      EnterWord(s[last..i], s[i], t);
      LoopEnters(s, i + 1, Ask(Take(t, s[last..i]), s[i]), scan);
    }
  }

  /** The call a text describes, in words and signs. */
  lemma CallEnters(text: string, infd: nat, outfd: nat, stray: Stray)
    requires var s := Trim(text) + " "; Line(s) && QuotesClose(s, CommandEnd(s))
    ensures var s := Trim(text) + " "; var e := CommandEnd(s); var t := Enter(Lex(s, SEPARATORS, e), NO_TOKENS);
            Tokenize(text, infd, outfd, stray) == Some(Call(s[..e], t.args, t.inputFile, t.outputFile, infd, outfd))
  {
    hide TokenLoop, Trim, QuotesClose, CommandEnd, Lex, Enter;
    var s := Trim(text) + " ";
    LoopEnters(s, CommandEnd(s), NO_TOKENS, Scan(false, stray(text)));
  }

  // ---------------------------------------------------------------- blanks and other white space

  predicate NoWhite(w: string) { forall k | 0 <= k < |w| :: !IsSpace(w[k]) }

  /** No white space behind a character that is none. */
  predicate WhiteFirst(w: string) { forall a, b | 0 <= a < b < |w| && IsSpace(w[b]) :: IsSpace(w[a]) }

  /** Between two separators there is no white space but blanks; what is passed over in front of a
      quote may begin with some. */
  predicate Separated(s: string, last: nat)
    decreases |s| - last
  {
    var i := Find(s, SEPARATORS, last);
    i == NPOS ||
    if IsQuote(s[i]) then
      (var c := Find(s, {s[i]}, i + 1); c != NPOS && WhiteFirst(s[last..i]) && Separated(s, c + 1))
    else NoWhite(s[last..i]) && Separated(s, i + 1)
  }

  /** Separating at all white space yields signs, words without white space, and words in quotes. */
  lemma {:induction false} WhiteWords(s: string, last: nat, l: Lexeme)
    requires l in Lex(s, WHITE, last)
    ensures l.Sign? || (l.text != "" && (IsQuote(l.text[0]) || NoWhite(l.text)))
    decreases |s| - last
  {
    hide Find, Lex;
    LexStep(s, WHITE, last);
    var i := Find(s, WHITE, last);
    if IsQuote(s[i]) {
      var c := Find(s, {s[i]}, i + 1);
      if l != Word(s[i..c + 1]) { WhiteWords(s, c + 1, l); }
    } else if l in WordOf(s[last..i]) {
      assert forall k | last <= k < i :: !IsSpace(s[k]);
    } else if l !in SignOf(s[i]) {
      WhiteWords(s, i + 1, l);
    }
  }

  /** White space in front makes no word. */
  lemma SpaceStep(s: string, last: nat)
    requires last < |s| && IsSpace(s[last])
    ensures Lex(s, WHITE, last) == Lex(s, WHITE, last + 1)
  {
    hide Find, Lex;
    LexStep(s, WHITE, last);
    FoundAt(s, WHITE, last, last);
    assert s[last..last] == "";
    assert WordOf("") + SignOf(s[last]) + Lex(s, WHITE, last + 1) == Lex(s, WHITE, last + 1);
  }

  /** Text up to white space is a word. */
  lemma FirstWord(s: string, last: nat, x: nat)
    requires last < x < |s| && Find(s, WHITE, last) == x && IsSpace(s[x])
    ensures Lex(s, WHITE, last) != [] && Lex(s, WHITE, last)[0] == Word(s[last..x])
  {
    hide Find, Lex;
    LexStep(s, WHITE, last);
    assert s[last..x] != "";
    assert (WordOf(s[last..x]) + SignOf(s[x]) + Lex(s, WHITE, x + 1))[0] == Word(s[last..x]);
  }

  /** White space in front of the text that a quote passes over makes no word. */
  lemma {:induction false} WhiteBeforeQuote(s: string, last: nat, i: nat)
    requires last <= i < |s| && Find(s, SEPARATORS, last) == i && IsQuote(s[i]) && WhiteFirst(s[last..i])
    ensures Lex(s, WHITE, last) ==
            var c := Find(s, {s[i]}, i + 1); if c == NPOS then [] else [Word(s[i..c + 1])] + Lex(s, WHITE, c + 1)
    decreases i - last
  {
    hide Find, Lex;
    var w := s[last..i];
    if last < i && IsSpace(s[last]) {
      SpaceStep(s, last);
      FoundAt(s, SEPARATORS, last + 1, i);
      assert s[last + 1..i] == w[1..];
      WhiteBeforeQuote(s, last + 1, i);
    } else {
      forall k | last <= k < i ensures s[k] !in WHITE {
        assert s[k] == w[k - last] && s[last] == w[0];
      }
      FoundAt(s, WHITE, last, i);
      LexStep(s, WHITE, last);
    }
  }

  /** White space behind other text makes that text a word. */
  lemma {:induction false} WordBeforeQuote(s: string, last: nat, i: nat)
    requires last <= i < |s| && Find(s, SEPARATORS, last) == i && !WhiteFirst(s[last..i])
    ensures var ls := Lex(s, WHITE, last);
            ls != [] && ls[0].Word? && ls[0].text != "" && !IsQuote(ls[0].text[0])
    decreases i - last
  {
    hide Find, Lex;
    var w := s[last..i];
    var a, b :| 0 <= a < b < |w| && IsSpace(w[b]) && !IsSpace(w[a]);
    assert s[last + b] == w[b] && s[last] == w[0];
    if IsSpace(s[last]) {
      SpaceStep(s, last);
      FoundAt(s, SEPARATORS, last + 1, i);
      var v := s[last + 1..i];
      assert v[a - 1] == w[a] && v[b - 1] == w[b];
      WordBeforeQuote(s, last + 1, i);
    } else {
      var x := Find(s, WHITE, last);
      assert last < x <= last + b;
      FirstWord(s, last, x);
      assert s[last..x][0] == s[last];
    }
  }

  /** A word with white space in it is a word of the one list only. */
  lemma OneListOnly(s: string, last: nat, i: nat)
    requires last <= i < |s| && Find(s, SEPARATORS, last) == i && !IsQuote(s[i]) && !NoWhite(s[last..i])
    ensures Lex(s, SEPARATORS, last) != Lex(s, WHITE, last)
  {
    hide Find, Lex, NoWhite;
    LexStep(s, SEPARATORS, last);
    var w := s[last..i];
    NotEmpty(w);
    assert w[0] == s[last];
    assert (WordOf(w) + SignOf(s[i]) + Lex(s, SEPARATORS, i + 1))[0] == Word(w);
    assert Word(w) in Lex(s, SEPARATORS, last);
    if Word(w) in Lex(s, WHITE, last) {
      WhiteWords(s, last, Word(w));
    }
  }

  lemma NotEmpty(w: string)
    requires !NoWhite(w)
    ensures w != ""
  {
  }

  lemma NoWhiteFound(s: string, last: nat, i: nat)
    requires last <= i < |s| && Find(s, SEPARATORS, last) == i && NoWhite(s[last..i])
    ensures Find(s, WHITE, last) == i
  {
    hide Find, NoWhite;
    forall k | last <= k < i ensures s[k] !in WHITE {
      NotWhite(s[last..i], k - last);
    }
    FoundAt(s, WHITE, last, i);
  }

  lemma NotWhite(w: string, k: nat)
    requires NoWhite(w) && k < |w|
    ensures !IsSpace(w[k])
  {
  }

  /** Without white space both lists begin alike. */
  lemma SameBegin(s: string, last: nat, i: nat)
    requires last <= i < |s| && Find(s, SEPARATORS, last) == i && !IsQuote(s[i]) && NoWhite(s[last..i])
    ensures Lex(s, SEPARATORS, last) == Lex(s, WHITE, last)
            <==> Lex(s, SEPARATORS, i + 1) == Lex(s, WHITE, i + 1)
  {
    hide Find, Lex, NoWhite, WordOf, SignOf;
    LexStep(s, SEPARATORS, last);
    LexStep(s, WHITE, last);
    NoWhiteFound(s, last, i);
    SameTails(WordOf(s[last..i]) + SignOf(s[i]), Lex(s, SEPARATORS, i + 1), Lex(s, WHITE, i + 1));
  }

  /** In front of a quote they do when what is passed over has its white space in front. */
  lemma SameQuote(s: string, last: nat, i: nat)
    requires last <= i < |s| && Find(s, SEPARATORS, last) == i && IsQuote(s[i]) && Find(s, {s[i]}, i + 1) != NPOS
    ensures var c := Find(s, {s[i]}, i + 1);
            Lex(s, SEPARATORS, last) == Lex(s, WHITE, last)
            <==> WhiteFirst(s[last..i]) && Lex(s, SEPARATORS, c + 1) == Lex(s, WHITE, c + 1)
  {
    hide Find, Lex, WhiteFirst;
    LexStep(s, SEPARATORS, last);
    var c := Find(s, {s[i]}, i + 1);
    if WhiteFirst(s[last..i]) {
      WhiteBeforeQuote(s, last, i);
      SameTails([Word(s[i..c + 1])], Lex(s, SEPARATORS, c + 1), Lex(s, WHITE, c + 1));
    } else {
      WordBeforeQuote(s, last, i);
    }
  }

  /** Blanks and all white space separate the same words and signs exactly when the text is separated
      by blanks. */
  lemma {:induction false} LexExactly(s: string, last: nat)
    requires Line(s) && last <= |s| && QuotesClose(s, last)
    ensures Lex(s, SEPARATORS, last) == Lex(s, WHITE, last) <==> Separated(s, last)
    decreases |s| - last
  {
    hide Find, Lex, QuotesClose, WhiteFirst, NoWhite;
    var i := Find(s, SEPARATORS, last);
    if i == NPOS {
      assert last == |s|;
      LexStep(s, SEPARATORS, last);
      LexStep(s, WHITE, last);
    } else if IsQuote(s[i]) {
      QuotesStep(s, last, i);
      SameQuote(s, last, i);
      LexExactly(s, Find(s, {s[i]}, i + 1) + 1);
    } else {
      QuotesSkip(s, last, i + 1);
      if NoWhite(s[last..i]) {
        SameBegin(s, last, i);
        LexExactly(s, i + 1);
      } else {
        OneListOnly(s, last, i);
      }
    }
  }

  lemma SameTails<T>(a: seq<T>, b: seq<T>, c: seq<T>)
    ensures a + b == a + c <==> b == c
  {
    if a + b == a + c {
      assert b == (a + b)[|a|..] && c == (a + c)[|a|..];
    }
  }

  /** Where the command would end if any white space ended it. */
  function WhiteEnd(s: string): (e: nat)
    requires Line(s)
    ensures e <= |s|
  {
    if IsQuote(s[0]) then CommandEnd(s) else Find(s, WHITE - {'\'', '"'}, 0)
  }

  /** The call of a text is the one that white space would separate exactly when there is no white
      space but blanks in its command and its text is separated by blanks. */
  lemma WhiteSpaceExactly(text: string)
    requires var s := Trim(text) + " "; Line(s) && QuotesClose(s, CommandEnd(s))
    ensures var s := Trim(text) + " "; var e, w := CommandEnd(s), WhiteEnd(s);
            s[..e] == s[..w] && Lex(s, SEPARATORS, e) == Lex(s, WHITE, w)
            <==> (IsQuote(s[0]) || NoWhite(s[..e])) && Separated(s, e)
  {
    hide Trim, Lex, Separated, QuotesClose;
    var s := Trim(text) + " ";
    var e, w := CommandEnd(s), WhiteEnd(s);
    LexExactly(s, e);
    if !IsQuote(s[0]) {
      assert forall k | 0 <= k < e :: s[k] == s[..e][k];
      if NoWhite(s[..e]) {
        FoundAt(s, WHITE - {'\'', '"'}, 0, e);
      } else {
        assert w < e;
        assert |s[..w]| != |s[..e]|;
      }
    }
  }

  /** No white space but blanks outside quotes. */
  predicate OnlyBlanks(s: string, p: nat)
    decreases |s| - p
  {
    p >= |s| ||
    if IsQuote(s[p]) then (var c := Find(s, {s[p]}, p + 1); c != NPOS && OnlyBlanks(s, c + 1))
    else (s[p] == ' ' || !IsSpace(s[p])) && OnlyBlanks(s, p + 1)
  }

  lemma {:induction false} OnlyBlanksOver(s: string, p: nat, i: nat)
    requires p <= i <= |s| && forall k | p <= k < i :: s[k] !in SEPARATORS
    ensures OnlyBlanks(s, p) <==> NoWhite(s[p..i]) && OnlyBlanks(s, i)
    decreases i - p
  {
    hide Find;
    if p < i {
      OnlyBlanksOver(s, p + 1, i);
      var w := s[p..i];
      assert w[0] == s[p] && w[1..] == s[p + 1..i];
      assert forall k | 0 < k < |w| :: w[k] == w[1..][k - 1];
    }
  }

  lemma SeparatedEnd(s: string)
    ensures Separated(s, |s|) && Snug(s, |s|) && OnlyBlanks(s, |s|)
  {
  }

  lemma SeparatedStep(s: string, last: nat, i: nat)
    requires last <= i < |s| && Find(s, SEPARATORS, last) == i
    ensures if IsQuote(s[i]) then
              var c := Find(s, {s[i]}, i + 1);
              && (Separated(s, last) <==> c != NPOS && WhiteFirst(s[last..i]) && Separated(s, c + 1))
              && (Snug(s, last) <==> c != NPOS && last == i && Snug(s, c + 1))
              && (OnlyBlanks(s, i) <==> c != NPOS && OnlyBlanks(s, c + 1))
            else
              && (Separated(s, last) <==> NoWhite(s[last..i]) && Separated(s, i + 1))
              && (Snug(s, last) <==> Snug(s, i + 1)) && (OnlyBlanks(s, i) <==> OnlyBlanks(s, i + 1))
  {
    hide Find, NoWhite, WhiteFirst;
  }

  lemma NoWhiteFirst(w: string)
    ensures NoWhite(w) ==> WhiteFirst(w)
    ensures w == "" ==> NoWhite(w)
  {
  }

  /** Without white space but blanks outside quotes a text is separated by blanks; where every quote
      opens directly behind a separator, only then. */
  lemma {:induction false} BlanksSeparate(s: string, last: nat)
    requires Line(s) && last <= |s|
    ensures OnlyBlanks(s, last) ==> Separated(s, last)
    ensures Snug(s, last) ==> (Separated(s, last) <==> OnlyBlanks(s, last))
    decreases |s| - last
  {
    hide Find, NoWhite, WhiteFirst, Separated, OnlyBlanks, Snug;
    var i := Find(s, SEPARATORS, last);
    if i == NPOS {
      assert last == |s|;
      SeparatedEnd(s);
    } else {
      SeparatedStep(s, last, i);
      NoWhiteFirst(s[last..i]);
      OnlyBlanksOver(s, last, i);
      if IsQuote(s[i]) {
        var c := Find(s, {s[i]}, i + 1);
        if c != NPOS {
          BlanksSeparate(s, c + 1);
        }
      } else {
        BlanksSeparate(s, i + 1);
      }
    }
  }

  // ---------------------------------------------------------------- text in front of a quote

  /** Every quote that opens stands directly behind a separator, a closing quote or the start. */
  predicate Snug(s: string, last: nat)
    decreases |s| - last
  {
    var i := Find(s, SEPARATORS, last);
    i == NPOS ||
    if IsQuote(s[i]) then (var c := Find(s, {s[i]}, i + 1); c != NPOS && last == i && Snug(s, c + 1))
    else Snug(s, i + 1)
  }

  /** The characters from p on without the blanks and signs outside quotes. */
  function Kept(s: string, p: nat): string
    decreases |s| - p
  {
    if p >= |s| then ""
    else if IsQuote(s[p]) then (var c := Find(s, {s[p]}, p + 1); if c == NPOS then s[p..] else s[p..c + 1] + Kept(s, c + 1))
    else if s[p] in SEPARATORS then Kept(s, p + 1)
    else [s[p]] + Kept(s, p + 1)
  }

  /** The characters of all words. */
  function Gathered(ls: seq<Lexeme>): string
  {
    if ls == [] then "" else (match ls[0] case Word(w) => w case Sign(_) => "") + Gathered(ls[1..])
  }

  lemma {:induction false} GatheredBehind(a: seq<Lexeme>, b: seq<Lexeme>)
    ensures Gathered(a + b) == Gathered(a) + Gathered(b)
    decreases |a|
  {
    if a == [] {
      assert a + b == b;
    } else {
      assert (a + b)[1..] == a[1..] + b;
      GatheredBehind(a[1..], b);
    }
  }

  lemma GatheredWord(w: string, c: char)
    ensures Gathered(WordOf(w) + SignOf(c)) == w
  {
    GatheredBehind(WordOf(w), SignOf(c));
    if w != "" { assert WordOf(w)[1..] == []; }
    if c == '<' || c == '>' { assert SignOf(c)[1..] == []; }
  }

  lemma KeptQuote(s: string, p: nat)
    requires p < |s| && IsQuote(s[p]) && Find(s, {s[p]}, p + 1) != NPOS
    ensures var c := Find(s, {s[p]}, p + 1); Kept(s, p) == s[p..c + 1] + Kept(s, c + 1)
  {
    hide Find;
  }

  lemma KeptStep(s: string, p: nat)
    requires p < |s| && s[p] !in SEPARATORS
    ensures Kept(s, p) == [s[p]] + Kept(s, p + 1)
  {
  }

  lemma {:induction false} KeptOver(s: string, p: nat, i: nat)
    requires p <= i <= |s| && forall k | p <= k < i :: s[k] !in SEPARATORS
    ensures Kept(s, p) == s[p..i] + Kept(s, i)
    decreases i - p
  {
    hide Find, Kept;
    if p < i {
      KeptStep(s, p);
      KeptOver(s, p + 1, i);
      assert s[p..i] == [s[p]] + s[p + 1..i];
    }
  }

  /** One word of the list, and what it keeps of the text. */
  lemma GluedQuote(s: string, last: nat, i: nat)
    requires last <= i < |s| && Find(s, SEPARATORS, last) == i && IsQuote(s[i]) && Find(s, {s[i]}, i + 1) != NPOS
    ensures var c := Find(s, {s[i]}, i + 1);
            && Gathered(Lex(s, SEPARATORS, last)) == s[i..c + 1] + Gathered(Lex(s, SEPARATORS, c + 1))
            && Kept(s, last) == s[last..i] + (s[i..c + 1] + Kept(s, c + 1))
  {
    hide Find, Lex, Gathered, Kept;
    LexStep(s, SEPARATORS, last);
    KeptOver(s, last, i);
    KeptQuote(s, i);
    var c := Find(s, {s[i]}, i + 1);
    GatheredBehind([Word(s[i..c + 1])], Lex(s, SEPARATORS, c + 1));
    GatheredWord(s[i..c + 1], ' ');
    assert WordOf(s[i..c + 1]) + SignOf(' ') == [Word(s[i..c + 1])];
  }

  lemma GluedWord(s: string, last: nat, i: nat)
    requires last <= i < |s| && Find(s, SEPARATORS, last) == i && !IsQuote(s[i])
    ensures Gathered(Lex(s, SEPARATORS, last)) == s[last..i] + Gathered(Lex(s, SEPARATORS, i + 1))
    ensures Kept(s, last) == s[last..i] + Kept(s, i + 1)
  {
    hide Find, Lex, Gathered;
    LexStep(s, SEPARATORS, last);
    KeptOver(s, last, i);
    GatheredBehind(WordOf(s[last..i]) + SignOf(s[i]), Lex(s, SEPARATORS, i + 1));
    GatheredWord(s[last..i], s[i]);
  }

  /** No character outside blanks and signs is lost exactly when the quotes are snug. */
  lemma {:induction false} GluedTextExactly(s: string, last: nat)
    requires Line(s) && last <= |s| && QuotesClose(s, last)
    ensures |Gathered(Lex(s, SEPARATORS, last))| <= |Kept(s, last)|
    ensures |Gathered(Lex(s, SEPARATORS, last))| == |Kept(s, last)| ==> Snug(s, last)
    ensures Gathered(Lex(s, SEPARATORS, last)) == Kept(s, last) <==> Snug(s, last)
    decreases |s| - last
  {
    hide Find, Lex, QuotesClose, Kept;
    var i := Find(s, SEPARATORS, last);
    if i == NPOS {
      assert last == |s|;
      LexStep(s, SEPARATORS, last);
      KeptNothing(s);
    } else if IsQuote(s[i]) {
      QuotesStep(s, last, i);
      GluedQuote(s, last, i);
      GluedTextExactly(s, Find(s, {s[i]}, i + 1) + 1);
    } else {
      QuotesSkip(s, last, i + 1);
      GluedWord(s, last, i);
      GluedTextExactly(s, i + 1);
      SameTails(s[last..i], Gathered(Lex(s, SEPARATORS, i + 1)), Kept(s, i + 1));
    }
  }

  lemma KeptNothing(s: string)
    ensures Kept(s, |s|) == ""
  {
  }
}
