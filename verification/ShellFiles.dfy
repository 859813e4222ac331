/** Where the words of a call go: which is the file of a redirection and which an argument. */
module ShellFiles {
  import opened Collections
  import opened ShellCalls
  import opened Strings
  import opened ShellTokenizer
  import opened ShellSplitter
  import opened ShellQuotes
  import opened ShellLexing

  predicate NoEmptyWords(ls: seq<Lexeme>) { forall k | 0 <= k < |ls| :: ls[k].Word? ==> ls[k].text != "" }

  /** Since the last word in front of position n a '<' was read. */
  predicate WantsInput(ls: seq<Lexeme>, n: nat)
    requires n <= |ls|
  {
    exists m | 0 <= m < n :: ls[m] == Sign('<') && forall x | m < x < n :: !ls[x].Word?
  }

  /** The file to read from is the first word behind a '<'. */
  predicate IsInput(ls: seq<Lexeme>, k: nat)
    requires k < |ls|
  {
    ls[k].Word? && WantsInput(ls, k)
  }

  /** Since some '>' only files to read from were named. */
  predicate WantsOutput(ls: seq<Lexeme>, n: nat)
    requires n <= |ls|
  {
    exists m | 0 <= m < n :: ls[m] == Sign('>') && forall x | m < x < n && ls[x].Word? :: IsInput(ls, x)
  }

  /** The file to write to is the first word behind a '>' that is not one to read from. */
  predicate IsOutput(ls: seq<Lexeme>, k: nat)
    requires k < |ls|
  {
    ls[k].Word? && !IsInput(ls, k) && WantsOutput(ls, k)
  }

  /** The last of the first n words that are for input, or nothing. */
  function InputOf(ls: seq<Lexeme>, n: nat): string
    requires n <= |ls|
  {
    if n == 0 then "" else if IsInput(ls, n - 1) then ls[n - 1].text else InputOf(ls, n - 1)
  }

  function OutputOf(ls: seq<Lexeme>, n: nat): string
    requires n <= |ls|
  {
    if n == 0 then "" else if IsOutput(ls, n - 1) then ls[n - 1].text else OutputOf(ls, n - 1)
  }

  /** All other words, in order. */
  function ArgsOf(ls: seq<Lexeme>, n: nat): seq<string>
    requires n <= |ls|
  {
    if n == 0 then []
    else if ls[n - 1].Word? && !IsInput(ls, n - 1) && !IsOutput(ls, n - 1) then ArgsOf(ls, n - 1) + [ls[n - 1].text]
    else ArgsOf(ls, n - 1)
  }

  lemma WantsInputStep(ls: seq<Lexeme>, n: nat)
    requires n < |ls|
    ensures WantsInput(ls, n + 1) <==> ls[n] == Sign('<') || (!ls[n].Word? && WantsInput(ls, n))
  {
    if !ls[n].Word? && WantsInput(ls, n) {
      var m :| 0 <= m < n && ls[m] == Sign('<') && forall x | m < x < n :: !ls[x].Word?;
      assert forall x | m < x < n + 1 :: !ls[x].Word?;
    }
  }

  lemma WantsOutputStep(ls: seq<Lexeme>, n: nat)
    requires n < |ls|
    ensures WantsOutput(ls, n + 1) <==> ls[n] == Sign('>') || ((ls[n].Word? ==> IsInput(ls, n)) && WantsOutput(ls, n))
  {
    hide IsInput;
    if (ls[n].Word? ==> IsInput(ls, n)) && WantsOutput(ls, n) {
      var m :| 0 <= m < n && ls[m] == Sign('>') && forall x | m < x < n && ls[x].Word? :: IsInput(ls, x);
      assert forall x | m < x < n + 1 && ls[x].Word? :: IsInput(ls, x);
    }
  }

  lemma EnterLast(ls: seq<Lexeme>, n: nat)
    requires n < |ls|
    ensures Enter(ls[..n + 1], NO_TOKENS) ==
            var t := Enter(ls[..n], NO_TOKENS); match ls[n] case Word(w) => Take(t, w) case Sign(c) => Ask(t, c)
  {
    hide Take, Ask;
    assert ls[..n + 1] == ls[..n] + [ls[n]];
    EnterBehind(ls[..n], [ls[n]], NO_TOKENS);
    assert [ls[n]][1..] == [];
  }

  /** Entering words and signs one after the other puts every word where it belongs. */
  lemma {:induction false} EnteredFiles(ls: seq<Lexeme>, n: nat)
    requires n <= |ls| && NoEmptyWords(ls)
    ensures Enter(ls[..n], NO_TOKENS)
         == Tokens(ArgsOf(ls, n), InputOf(ls, n), OutputOf(ls, n), WantsInput(ls, n), WantsOutput(ls, n))
  {
    hide WantsInput, WantsOutput;
    if n == 0 {
      NothingWanted(ls);
    } else {
      EnteredFiles(ls, n - 1);
      EnterLast(ls, n - 1);
      WantsInputStep(ls, n - 1);
      WantsOutputStep(ls, n - 1);
    }
  }

  lemma NothingWanted(ls: seq<Lexeme>)
    ensures !WantsInput(ls, 0) && !WantsOutput(ls, 0)
  {
  }

  lemma WordsBehind(a: seq<Lexeme>, b: seq<Lexeme>)
    requires NoEmptyWords(a) && NoEmptyWords(b)
    ensures NoEmptyWords(a + b)
  {
  }

  lemma WordsFirst(w: string, c: char)
    ensures NoEmptyWords(WordOf(w) + SignOf(c))
  {
  }

  lemma {:induction false} LexedWords(s: string, separators: set<char>, last: nat)
    ensures NoEmptyWords(Lex(s, separators, last))
    decreases |s| - last
  {
    hide Find, NoEmptyWords, Lex, WordOf, SignOf;
    LexStep(s, separators, last);
    NothingLexed();
    var i := Find(s, separators, last);
    if i == NPOS {
    } else if IsQuote(s[i]) {
      var c := Find(s, {s[i]}, i + 1);
      if c != NPOS {
        LexedWords(s, separators, c + 1);
        QuotedWord(s[i..c + 1]);
        WordsBehind([Word(s[i..c + 1])], Lex(s, separators, c + 1));
      }
    } else {
      LexedWords(s, separators, i + 1);
      WordsFirst(s[last..i], s[i]);
      WordsBehind(WordOf(s[last..i]) + SignOf(s[i]), Lex(s, separators, i + 1));
    }
  }

  lemma NothingLexed()
    ensures NoEmptyWords([])
  {
  }

  lemma QuotedWord(w: string)
    requires w != ""
    ensures NoEmptyWords([Word(w)])
  {
  }

  /** A call reads from the last word that directly follows a '<', writes to the last word that a '>'
      was left for, and has all other words as its arguments. */
  lemma FilesExactly(text: string, infd: nat, outfd: nat, stray: Stray)
    requires var s := Trim(text) + " "; Line(s) && QuotesClose(s, CommandEnd(s))
    ensures var s := Trim(text) + " "; var e := CommandEnd(s); var ls := Lex(s, SEPARATORS, e); var n := |ls|;
            Tokenize(text, infd, outfd, stray) == Some(Call(s[..e], ArgsOf(ls, n), InputOf(ls, n), OutputOf(ls, n), infd, outfd))
  {
    hide Tokenize, Trim, QuotesClose, CommandEnd, Lex, Enter, ArgsOf, InputOf, OutputOf;
    var s := Trim(text) + " ";
    var ls := Lex(s, SEPARATORS, CommandEnd(s));
    CallEnters(text, infd, outfd, stray);
    LexedWords(s, SEPARATORS, CommandEnd(s));
    EnteredFiles(ls, |ls|);
    assert ls[..|ls|] == ls;
  }
}
