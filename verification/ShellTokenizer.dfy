/** The tokenizer of one call: command, arguments and redirections out of its text. */
module ShellTokenizer {
  import opened Collections
  import opened ShellCalls
  import opened Strings

  predicate IsQuote(c: char) { c == '\'' || c == '"' }

  const SEPARATORS: set<char> := {' ', '<', '>', '\'', '"'}

  // ---------------------------------------------------------------- the token loop

  /** What the loop has collected. */
  datatype Tokens = Tokens(args: seq<string>, inputFile: string, outputFile: string, needInput: bool, needOutput: bool)

  /** A token goes where it is needed; empty tokens go nowhere. */
  function Take(t: Tokens, token: string): Tokens
  {
    if token == "" then t
    else if t.needInput then t.(inputFile := token, needInput := false)
    else if t.needOutput then t.(outputFile := token, needOutput := false)
    else t.(args := t.args + [token])
  }

  /** A redirection sign asks for a file. */
  function Ask(t: Tokens, c: char): Tokens
  {
    if c == '<' then t.(needInput := true) else if c == '>' then t.(needOutput := true) else t
  }

  /** The character that s[npos] reads: nothing is known about it, so it is given. */
  type Stray = string -> char

  /** How the scan goes: whether it has started over, and what an index of npos reads. */
  datatype Scan = Scan(again: bool, stray: char)

  /** The token at a quote without a partner, s.substr(i, npos - i + 1): for i == 0 the length is 0,
      for any other i the rest of the text. */
  function Unclosed(s: string, i: nat): string
    requires i <= |s|
  {
    if i == 0 then "" else s[i..]
  }

  /** The token loop from position last on. At a quote without a partner it takes the rest of the
      text, indexes the text at npos and starts over from its beginning. A scan that gets there a
      second time gets there for ever: None. */
  function TokenLoop(s: string, last: nat, t: Tokens, scan: Scan): Option<Tokens>
    decreases !scan.again, |s| - last
  {
    var i := Find(s, SEPARATORS, last);
    if i == NPOS then Some(t)
    else if IsQuote(s[i]) then
      var close := Find(s, {s[i]}, i + 1);
      if close != NPOS then TokenLoop(s, close + 1, Take(t, s[i..close + 1]), scan)
      else if scan.again then None
      else TokenLoop(s, 0, Ask(Take(t, Unclosed(s, i)), scan.stray), scan.(again := true))
    else TokenLoop(s, i + 1, Ask(Take(t, s[last..i]), s[i]), scan)
  }

  /** Where the command ends: at its closing quote, or at the first blank or redirection sign; at 0
      when its quote is not closed. */
  function CommandEnd(s: string): (e: nat)
    requires s != "" && s[|s| - 1] == ' '
    ensures e <= |s|
  {
    if IsQuote(s[0]) then (var c := Find(s, {s[0]}, 1); if c == NPOS then 0 else c + 1)
    else Find(s, {' ', '<', '>'}, 0)
  }

  const NO_TOKENS: Tokens := Tokens([], "", "", false, false)

  /** The call a text describes; None when reading it does not end. */
  function Tokenize(text: string, infd: nat, outfd: nat, stray: Stray): Option<Call>
  {
    var s := Trim(text) + " ";
    assert s[|s| - 1] == ' ';
    var e := CommandEnd(s);
    match TokenLoop(s, e, NO_TOKENS, Scan(false, stray(text)))
    case None => None
    case Some(t) => Some(Call(s[..e], t.args, t.inputFile, t.outputFile, infd, outfd))
  }

  /** A command is the quoted word that the text begins with, or what stands in front of the first blank
      or sign. A text that begins with a quote without a partner is never read to its end. */
  lemma CommandExactly(text: string, infd: nat, outfd: nat, stray: Stray)
    ensures var s := Trim(text) + " "; var e := CommandEnd(s); var q := Tokenize(text, infd, outfd, stray);
            && (!IsQuote(s[0]) ==> e < |s| && s[e] in {' ', '<', '>'} && forall k | 0 <= k < e :: s[k] !in {' ', '<', '>'})
            && (IsQuote(s[0]) && s[0] in s[1..] ==> 1 < e && s[e - 1] == s[0] && s[0] !in s[1..e - 1])
            && (IsQuote(s[0]) && s[0] !in s[1..] ==> q == None)
  {
    hide Trim, TokenLoop;
    var s := Trim(text) + " ";
    if IsQuote(s[0]) && s[0] !in s[1..] {
      forall k | 1 <= k < |s| ensures s[k] != s[0] {
        assert s[k] == s[1..][k - 1];
      }
      FoundNowhere(s, {s[0]}, 1);
      FoundAt(s, SEPARATORS, 0, 0);
      var scan := Scan(false, stray(text));
      TokenLoopStep(s, 0, NO_TOKENS, scan);
      TokenLoopStep(s, 0, Ask(Take(NO_TOKENS, Unclosed(s, 0)), scan.stray), scan.(again := true));
    }
  }

  // ---------------------------------------------------------------- the code

  lemma TokenLoopStep(s: string, last: nat, t: Tokens, scan: Scan)
    ensures TokenLoop(s, last, t, scan) ==
            var i := Find(s, SEPARATORS, last);
            if i == NPOS then Some(t)
            else if IsQuote(s[i]) then
              (var close := Find(s, {s[i]}, i + 1);
               if close != NPOS then TokenLoop(s, close + 1, Take(t, s[i..close + 1]), scan)
               else if scan.again then None
               else TokenLoop(s, 0, Ask(Take(t, Unclosed(s, i)), scan.stray), scan.(again := true)))
            else TokenLoop(s, i + 1, Ask(Take(t, s[last..i]), s[i]), scan)
  {
    hide Find, Take, Ask;
  }

  /** The body of the loop: the token goes where it is needed, then a sign asks for a file. */
  method TakeToken(t: Tokens, token: string, c: char) returns (u: Tokens)
    ensures u == Ask(Take(t, token), c)
  {
    var inputFile, outputFile, args := t.inputFile, t.outputFile, t.args;
    var needInput, needOutput := t.needInput, t.needOutput;
    if token != "" {
      if needInput {
        inputFile, needInput := token, false;
      } else if needOutput {
        outputFile, needOutput := token, false;
      } else {
        args := args + [token];
      }
    }
    if c == '<' {
      needInput := true;
    } else if c == '>' {
      needOutput := true;
    }
    u := Tokens(args, inputFile, outputFile, needInput, needOutput);
  }

  /** The token loop, from the end of the command on. The code keeps no record of having started
      over; here it shows that the loop does not end. */
  method CollectTokens(s: string, start: nat, stray: char) returns (r: Option<Tokens>)
    requires start <= |s|
    ensures r == TokenLoop(s, start, NO_TOKENS, Scan(false, stray))
  {
    hide Find, TokenLoop, Take, Ask;
    var t := NO_TOKENS;
    var last, again := start, false;
    var i := Find(s, SEPARATORS, last);
    while i != NPOS
      invariant 0 <= last <= |s| && i == Find(s, SEPARATORS, last)
      invariant TokenLoop(s, last, t, Scan(again, stray)) == TokenLoop(s, start, NO_TOKENS, Scan(false, stray))
      decreases !again, |s| - last
    {
      TokenLoopStep(s, last, t, Scan(again, stray));
      if IsQuote(s[i]) {
        var tmp := Find(s, {s[i]}, i + 1);
        if tmp == NPOS {
          if again {
            return None;
          }
          t := TakeToken(t, Unclosed(s, i), stray);
          last, again := 0, true;
        } else {
          t := TakeToken(t, s[i..tmp + 1], s[tmp]);
          QuoteAsksNothing(s[tmp]);
          last := tmp + 1;
        }
      } else {
        t := TakeToken(t, s[last..i], s[i]);
        last := i + 1;
      }
      i := Find(s, SEPARATORS, last);
    }
    TokenLoopStep(s, last, t, Scan(again, stray));
    r := Some(t);
  }

  lemma QuoteAsksNothing(c: char)
    requires IsQuote(c)
    ensures forall t: Tokens :: Ask(t, c) == t
  {
  }

  /** The constructor of a call from its text. */
  method MakeCall(text: string, infd: nat, outfd: nat, stray: Stray) returns (r: Option<Call>)
    ensures r == Tokenize(text, infd, outfd, stray)
  {
    hide TokenLoop, Trim;
    var trimmed := TrimLoops(text);
    var s := trimmed + " ";
    assert s[|s| - 1] == ' ';
    var commandEnd := Find(s, {' ', '<', '>'}, 0);
    var last := commandEnd;
    if IsQuote(s[0]) {
      commandEnd := Find(s, {s[0]}, 1);
      last := commandEnd + 1;
    }
    var command := s[..last];
    var tokens := CollectTokens(s, last, stray(text));
    match tokens
    case None => r := None;
    case Some(t) => r := Some(Call(command, t.args, t.inputFile, t.outputFile, infd, outfd));
  }
}
