/** The canonical printing of one call, and that tokenizing undoes it. */
module ShellWords {
  import opened Collections
  import opened ShellCalls
  import opened Strings
  import opened ShellTokenizer
  import opened ShellSplitter
  import opened ShellQuotes

  // ---------------------------------------------------------------- printing a call

  /** A word without blanks, quotes, redirection signs and operators. */
  predicate Plain(w: string)
  {
    w != "" && (forall c | c in w :: c !in SEPARATORS && c !in OPERATORS) && !IsSpace(w[0]) && !IsSpace(w[|w| - 1])
  }

  predicate Word(w: string) { Plain(w) || Quoted(w) }

  predicate Canonical(c: Call)
  {
    && Word(c.command) && (forall a | a in c.args :: Word(a))
    && (c.inputFile == "" || Word(c.inputFile)) && (c.outputFile == "" || Word(c.outputFile))
    && c.infd == 0 && c.outfd == 1
  }

  function PrintArgs(args: seq<string>): string
  {
    if args == [] then "" else " " + args[0] + PrintArgs(args[1..])
  }

  function PrintFile(sign: char, file: string): string { if file == "" then "" else [' ', sign] + file }

  function PrintCall(c: Call): string
  {
    c.command + PrintArgs(c.args) + PrintFile('<', c.inputFile) + PrintFile('>', c.outputFile)
  }

  // ---------------------------------------------------------------- tokenizing undoes printing

  /** The text w stands in s at p. */
  predicate Stands(s: string, p: nat, w: string) { p + |w| <= |s| && s[p..p + |w|] == w }

  lemma StandsApart(s: string, p: nat, x: string, y: string)
    requires Stands(s, p, x + y)
    ensures Stands(s, p, x) && Stands(s, p + |x|, y)
    ensures (x != "" ==> s[p] == x[0]) && (y != "" ==> s[p + |x|] == y[0])
  {
    var z := s[p..p + |x + y|];
    assert z[..|x|] == s[p..p + |x|] && z[|x|..] == s[p + |x|..p + |x| + |y|];
    assert x != "" ==> s[p] == z[0];
    assert y != "" ==> s[p + |x|] == z[|x|];
  }

  lemma BlankStep(s: string, p: nat, t: Tokens, scan: Scan)
    requires p < |s| && s[p] == ' '
    ensures TokenLoop(s, p, t, scan) == TokenLoop(s, p + 1, t, scan)
  {
    assert Find(s, SEPARATORS, p) == p;
    assert s[p..p] == "";
  }

  lemma SignStep(s: string, p: nat, t: Tokens, scan: Scan)
    requires p < |s| && s[p] in {'<', '>'}
    ensures TokenLoop(s, p, t, scan) == TokenLoop(s, p + 1, Ask(t, s[p]), scan)
  {
    assert Find(s, SEPARATORS, p) == p;
    assert s[p..p] == "";
  }

  lemma StandsChars(s: string, p: nat, w: string)
    requires Stands(s, p, w)
    ensures forall k | p <= k < p + |w| :: s[k] == w[k - p]
  {
    forall k | p <= k < p + |w| ensures s[k] == w[k - p] {
      assert s[p..p + |w|][k - p] == s[k];
    }
  }

  /** A quoted word is found whole: its first quote, then its last. */
  lemma QuotedFound(s: string, p: nat, w: string)
    requires Quoted(w) && Stands(s, p, w)
    ensures Find(s, SEPARATORS, p) == p && IsQuote(s[p]) && Find(s, {s[p]}, p + 1) == p + |w| - 1
  {
    StandsChars(s, p, w);
    assert s[p] == w[0] && s[p + |w| - 1] == w[|w| - 1];
    assert Find(s, SEPARATORS, p) == p;
    forall k | p + 1 <= k < p + |w| - 1 ensures s[k] != s[p] {
      assert s[k] == w[k - p];
    }
  }

  lemma PlainFound(s: string, p: nat, w: string)
    requires Plain(w) && Stands(s, p, w) && p + |w| < |s| && s[p + |w|] == ' '
    ensures Find(s, SEPARATORS, p) == p + |w|
  {
    StandsChars(s, p, w);
    forall k | p <= k < p + |w| ensures s[k] !in SEPARATORS {
      assert w[k - p] in w;
    }
  }

  lemma QuotedLoop(s: string, last: nat, i: nat, c: nat, t: Tokens, scan: Scan)
    requires last <= i < c < |s| && Find(s, SEPARATORS, last) == i && IsQuote(s[i]) && Find(s, {s[i]}, i + 1) == c
    ensures TokenLoop(s, last, t, scan) == TokenLoop(s, c + 1, Take(t, s[i..c + 1]), scan)
  {
    hide Find, Take, Ask;
  }

  lemma PlainLoop(s: string, p: nat, i: nat, t: Tokens, scan: Scan)
    requires p <= i < |s| && Find(s, SEPARATORS, p) == i && s[i] == ' '
    ensures TokenLoop(s, p, t, scan) == TokenLoop(s, i + 1, Take(t, s[p..i]), scan)
  {
    hide Find, Take;
  }

  lemma StandsInFront(s: string, w: string)
    requires Stands(s, 0, w)
    ensures s[..|w|] == w
  {
  }

  /** A word with a blank behind it is one token. */
  lemma WordStep(s: string, p: nat, w: string, t: Tokens, scan: Scan)
    requires Word(w) && Stands(s, p, w) && p + |w| < |s| && s[p + |w|] == ' '
    ensures TokenLoop(s, p, t, scan) == TokenLoop(s, p + |w|, Take(t, w), scan)
  {
    hide Take, Find, Plain, TokenLoop, Ask;
    if Quoted(w) {
      hide Quoted;
      QuotedFound(s, p, w);
      QuotedLoop(s, p, p, p + |w| - 1, t, scan);
    } else {
      PlainFound(s, p, w);
      PlainLoop(s, p, p + |w|, t, scan);
      BlankStep(s, p + |w|, Take(t, w), scan);
    }
  }

  lemma WordNotEmpty(w: string)
    requires Word(w)
    ensures w != ""
  {
  }

  /** The arguments arrive in order. */
  lemma {:induction false} ArgsSteps(s: string, p: nat, args: seq<string>, t: Tokens, scan: Scan)
    requires Stands(s, p, PrintArgs(args)) && p + |PrintArgs(args)| < |s| && s[p + |PrintArgs(args)|] == ' '
    requires !t.needInput && !t.needOutput && (forall a | a in args :: Word(a))
    ensures TokenLoop(s, p, t, scan) == TokenLoop(s, p + |PrintArgs(args)|, t.(args := t.args + args), scan)
    decreases |args|
  {
    hide TokenLoop, Word, Stands;
    if args == [] {
      assert t.args + args == t.args;
    } else {
      var a, rest := args[0], PrintArgs(args[1..]);
      assert PrintArgs(args) == " " + (a + rest);
      StandsApart(s, p, " ", a + rest);
      StandsApart(s, p + 1, a, rest);
      WordNotEmpty(a);
      BlankStep(s, p, t, scan);
      WordStep(s, p + 1, a, t, scan);
      ArgsSteps(s, p + 1 + |a|, args[1..], Take(t, a), scan);
      assert t.args + [a] + args[1..] == t.args + args;
    }
  }

  lemma FileParts(s: string, p: nat, sign: char, file: string)
    requires file != "" && Stands(s, p, PrintFile(sign, file)) && p + |PrintFile(sign, file)| < |s|
    ensures |PrintFile(sign, file)| == |file| + 2
    ensures s[p] == ' ' && s[p + 1] == sign && Stands(s, p + 2, file)
  {
    assert PrintFile(sign, file) == " " + ([sign] + file);
    StandsApart(s, p, " ", [sign] + file);
    StandsApart(s, p + 1, [sign], file);
  }

  lemma FileTaken(t: Tokens, sign: char, file: string)
    requires sign in {'<', '>'} && file != "" && !t.needInput && !t.needOutput
    ensures Take(Ask(t, sign), file) == if sign == '<' then t.(inputFile := file) else t.(outputFile := file)
  {
  }

  /** A redirection takes the word behind its sign. */
  lemma FileStep(s: string, p: nat, sign: char, file: string, t: Tokens, scan: Scan)
    requires sign in {'<', '>'} && (file == "" || Word(file)) && !t.needInput && !t.needOutput
    requires Stands(s, p, PrintFile(sign, file)) && p + |PrintFile(sign, file)| < |s|
    requires s[p + |PrintFile(sign, file)|] == ' '
    ensures TokenLoop(s, p, t, scan) == TokenLoop(s, p + |PrintFile(sign, file)|,
              if file == "" then t else if sign == '<' then t.(inputFile := file) else t.(outputFile := file), scan)
  {
    hide TokenLoop, Word, Stands, Take, Ask;
    if file != "" {
      hide PrintFile;
      FileParts(s, p, sign, file);
      BlankStep(s, p, t, scan);
      SignStep(s, p + 1, t, scan);
      WordStep(s, p + 2, file, Ask(t, sign), scan);
      FileTaken(t, sign, file);
    }
  }

  lemma CommandStep(s: string, w: string)
    requires Word(w) && Stands(s, 0, w) && |w| < |s| && s[|w|] == ' ' && Line(s)
    ensures CommandEnd(s) == |w|
  {
    StandsChars(s, 0, w);
    if Quoted(w) {
      QuotedFound(s, 0, w);
    } else {
      assert Find(s, {' ', '<', '>'}, 0) == |w|;
    }
  }

  /** Blank or nothing begins what stands behind a word. */
  lemma PrintedStart(args: seq<string>, input: string, output: string)
    ensures (PrintArgs(args) != "" ==> PrintArgs(args)[0] == ' ')
         && (PrintFile('<', input) != "" ==> PrintFile('<', input)[0] == ' ')
         && (PrintFile('>', output) != "" ==> PrintFile('>', output)[0] == ' ')
  {
  }

  lemma BlankStart(x: string, rest: string)
    requires (x != "" ==> x[0] == ' ') && rest != "" && rest[0] == ' '
    ensures x + rest != "" && (x + rest)[0] == ' '
  {
  }

  /** A part and what is behind it. */
  lemma PartOff(s: string, p: nat, x: string, rest: string)
    requires p <= |s| && s[p..] == x + rest && rest != "" && rest[0] == ' '
    ensures Stands(s, p, x) && p + |x| < |s| && s[p + |x|] == ' ' && s[p + |x|..] == rest
  {
    assert s[p..][..|x|] == s[p..p + |x|];
    assert s[p..][|x|..] == s[p + |x|..];
    assert s[p + |x|] == s[p + |x|..][0];
  }

  lemma InParts(w: string, x: string, y: string, z: string, e: string)
    ensures w + x + y + z + e == w + (x + (y + (z + e)))
  {
  }

  lemma TwoParts(s: string, p: nat, x: string, y: string, rest: string)
    requires p <= |s| && s[p..] == x + (y + rest) && (y != "" ==> y[0] == ' ') && rest != "" && rest[0] == ' '
    ensures Stands(s, p, x) && Stands(s, p + |x|, y) && p + |x| + |y| < |s|
    ensures s[p + |x|] == ' ' && s[p + |x| + |y|] == ' ' && s[p + |x| + |y|..] == rest
  {
    hide Stands;
    BlankStart(y, rest);
    PartOff(s, p, x, y + rest);
    PartOff(s, p + |x|, y, rest);
  }

  lemma FourFrom(s: string, w: string, x: string, y: string, z: string, rest: string)
    requires s[0..] == w + (x + rest) && rest == y + (z + " ") && rest[0] == ' '
    requires (x != "" ==> x[0] == ' ') && (z != "" ==> z[0] == ' ')
    ensures Stands(s, 0, w) && Stands(s, |w|, x) && Stands(s, |w| + |x|, y) && Stands(s, |w| + |x| + |y|, z)
    ensures |w| + |x| + |y| + |z| < |s| && s[|w| + |x| + |y| + |z|..] == " "
    ensures s[|w|] == ' ' && s[|w| + |x|] == ' ' && s[|w| + |x| + |y|] == ' ' && s[|w| + |x| + |y| + |z|] == ' '
  {
    hide Stands;
    TwoParts(s, 0, w, x, rest);
    TwoParts(s, |w| + |x|, y, z, " ");
  }

  lemma FourParts(s: string, w: string, x: string, y: string, z: string)
    requires s == w + x + y + z + " "
    requires (x != "" ==> x[0] == ' ') && (y != "" ==> y[0] == ' ') && (z != "" ==> z[0] == ' ')
    ensures Stands(s, 0, w) && Stands(s, |w|, x) && Stands(s, |w| + |x|, y) && Stands(s, |w| + |x| + |y|, z)
    ensures |s| == |w| + |x| + |y| + |z| + 1
    ensures s[|w|] == ' ' && s[|w| + |x|] == ' ' && s[|w| + |x| + |y|] == ' ' && s[|w| + |x| + |y| + |z|] == ' '
  {
    hide Stands;
    var rest := Behind(w, x, y, z);
    assert s[0..] == s;
    FourFrom(s, w, x, y, z, rest);
  }

  lemma Behind(w: string, x: string, y: string, z: string) returns (rest: string)
    requires (y != "" ==> y[0] == ' ') && (z != "" ==> z[0] == ' ')
    ensures w + x + y + z + " " == w + (x + rest) && rest == y + (z + " ") && rest[0] == ' '
  {
    rest := y + (z + " ");
    InParts(w, x, y, z, " ");
    BlankStart(z, " ");
    BlankStart(y, z + " ");
  }

  /** The token loop over arguments and redirections, from the end of the command on. */
  lemma LoopPrinted(s: string, a: nat, c: Call, scan: Scan)
    requires Canonical(c)
    requires var p := a + |PrintArgs(c.args)|; var q := p + |PrintFile('<', c.inputFile)|;
             var r := q + |PrintFile('>', c.outputFile)|;
             && |s| == r + 1 && s[p] == ' ' && s[q] == ' ' && s[r] == ' '
             && Stands(s, a, PrintArgs(c.args)) && Stands(s, p, PrintFile('<', c.inputFile))
             && Stands(s, q, PrintFile('>', c.outputFile))
    ensures TokenLoop(s, a, NO_TOKENS, scan) == Some(Tokens(c.args, c.inputFile, c.outputFile, false, false))
  {
    hide TokenLoop, Word, PrintArgs, PrintFile, Stands;
    var p := a + |PrintArgs(c.args)|;
    var q := p + |PrintFile('<', c.inputFile)|;
    var r := q + |PrintFile('>', c.outputFile)|;
    var t := Tokens(c.args, "", "", false, false);
    var u := Tokens(c.args, c.inputFile, "", false, false);
    var v := Tokens(c.args, c.inputFile, c.outputFile, false, false);
    ArgsSteps(s, a, c.args, NO_TOKENS, scan);
    assert [] + c.args == c.args;
    FileStep(s, p, '<', c.inputFile, t, scan);
    FileStep(s, q, '>', c.outputFile, u, scan);
    BlankStep(s, r, v, scan);
    LoopEnd(s, v, scan);
  }

  lemma LoopEnd(s: string, t: Tokens, scan: Scan)
    ensures TokenLoop(s, |s|, t, scan) == Some(t)
  {
  }

  lemma PrintedParts(c: Call)
    ensures var s, w, x := PrintCall(c) + " ", |c.command|, |c.command| + |PrintArgs(c.args)|;
            var y := x + |PrintFile('<', c.inputFile)|; var z := y + |PrintFile('>', c.outputFile)|;
            && |s| == z + 1 && s[w] == ' ' && s[x] == ' ' && s[y] == ' ' && s[z] == ' '
            && Stands(s, 0, c.command) && Stands(s, w, PrintArgs(c.args)) && Stands(s, x, PrintFile('<', c.inputFile))
            && Stands(s, y, PrintFile('>', c.outputFile))
  {
    hide PrintArgs, PrintFile, Stands;
    PrintedStart(c.args, c.inputFile, c.outputFile);
    FourParts(PrintCall(c) + " ", c.command, PrintArgs(c.args), PrintFile('<', c.inputFile), PrintFile('>', c.outputFile));
  }

  lemma ReadPrinted(c: Call, scan: Scan)
    requires Canonical(c)
    ensures var s := PrintCall(c) + " ";
            && Line(s) && CommandEnd(s) == |c.command| && s[..|c.command|] == c.command
            && TokenLoop(s, |c.command|, NO_TOKENS, scan) == Some(Tokens(c.args, c.inputFile, c.outputFile, false, false))
  {
    hide TokenLoop, Word, PrintCall, PrintArgs, PrintFile, CommandEnd, Stands;
    var s := PrintCall(c) + " ";
    PrintedParts(c);
    CommandStep(s, c.command);
    LoopPrinted(s, |c.command|, c, scan);
    StandsInFront(s, c.command);
  }

  predicate Tight(t: string) { t != "" && !IsSpace(t[0]) && !IsSpace(t[|t| - 1]) }

  lemma TightArgs(args: seq<string>)
    requires forall a | a in args :: Word(a)
    ensures PrintArgs(args) == "" || !IsSpace(PrintArgs(args)[|PrintArgs(args)| - 1])
  {
    if args != [] {
      assert Word(args[0]);
      TightArgs(args[1..]);
    }
  }

  /** A printed call begins and ends with a word. */
  lemma PrintedTight(c: Call)
    requires Canonical(c)
    ensures Tight(PrintCall(c))
  {
    hide PrintArgs;
    TightArgs(c.args);
    assert Tight(c.command);
  }

  /** Tokenizing the printed call, with any white space around it, gives the call back. */
  lemma TokenizePrinted(c: Call, pre: string, post: string, stray: Stray)
    requires Canonical(c)
    requires AllSpace(pre) && AllSpace(post)
    ensures Tokenize(pre + PrintCall(c) + post, 0, 1, stray) == Some(c)
  {
    hide TokenLoop, CommandEnd, Trim, Word, PrintArgs, PrintFile, PrintCall;
    PrintedTight(c);
    TrimPadded(pre, PrintCall(c), post);
    ReadPrinted(c, Scan(false, stray(pre + PrintCall(c) + post)));
  }
}
