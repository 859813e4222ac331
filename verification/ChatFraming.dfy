/** The incremental line framer of the chat server: bytes arrive in chunks, messages leave whole. */
module ChatFraming {

  import opened Strings

  /** find_first_of('\n', from): position of the first newline at or after from, or npos. */
  function FindEol(s: string, from: nat): (p: int)
    ensures p == NPOS || (from <= p < |s| && s[p] == '\n')
    ensures forall k | from <= k < |s| && (p == NPOS || k < p) :: s[k] != '\n'
  {
    Find(s, {'\n'}, from)
  }

  /** One-shot splitting after every newline, and what is left behind the last one. */
  function Messages(s: string): seq<string>
    decreases |s|
  {
    var p := FindEol(s, 0);
    if p == NPOS then [] else [s[..p + 1]] + Messages(s[p + 1..])
  }

  function Leftover(s: string): string
    decreases |s|
  {
    var p := FindEol(s, 0);
    if p == NPOS then s else Leftover(s[p + 1..])
  }

  function Join(parts: seq<string>): string
  {
    if parts == [] then "" else parts[0] + Join(parts[1..])
  }

  /** A message is a line: exactly one newline, at its end. */
  predicate IsMessage(m: string)
  {
    m != "" && m[|m| - 1] == '\n' && forall k | 0 <= k < |m| - 1 :: m[k] != '\n'
  }

  /** One step of the splitting: the first line and the rest. */
  lemma FirstLine(s: string)
    requires FindEol(s, 0) != NPOS
    ensures var p := FindEol(s, 0);
            var head, tail := s[..p + 1], s[p + 1..];
            && s == head + tail && IsMessage(head)
            && Messages(s) == [head] + Messages(tail) && Leftover(s) == Leftover(tail)
  {
    var p := FindEol(s, 0);
    assert s == s[..p + 1] + s[p + 1..];
  }

  lemma NoLine(s: string)
    requires FindEol(s, 0) == NPOS
    ensures Messages(s) == [] && Leftover(s) == s && '\n' !in s
  {
  }

  /** Splitting loses nothing and cuts exactly behind newlines. */
  lemma {:induction false} SplitPartition(s: string)
    ensures Join(Messages(s)) + Leftover(s) == s
    ensures forall i | 0 <= i < |Messages(s)| :: IsMessage(Messages(s)[i])
    ensures '\n' !in Leftover(s)
    decreases |s|
  {
    hide FindEol, Messages, Leftover, IsMessage;
    var p := FindEol(s, 0);
    if p == NPOS {
      NoLine(s);
    } else {
      FirstLine(s);
      var head, tail := s[..p + 1], s[p + 1..];
      SplitPartition(tail);
      assert Messages(s)[1..] == Messages(tail);
      Assoc(head, Join(Messages(tail)), Leftover(tail));
    }
  }

  lemma Assoc(a: string, b: string, c: string)
    ensures (a + b) + c == a + (b + c)
  {
  }

  /** Messages and leftover are the only such partition. */
  lemma {:induction false} SplitUnique(s: string, ms: seq<string>, rest: string)
    requires s == Join(ms) + rest && (forall i | 0 <= i < |ms| :: IsMessage(ms[i])) && FindEol(rest, 0) == NPOS
    ensures Messages(s) == ms && Leftover(s) == rest
    decreases |ms|
  {
    if ms == [] {
      assert s == rest;
    } else {
      var m := ms[0];
      assert s == m + (Join(ms[1..]) + rest);
      assert s[|m| - 1] == '\n';
      assert FindEol(s, 0) == |m| - 1 by {
        var p := FindEol(s, 0);
        assert p < |m| ==> s[p] == m[p];
      }
      assert s[|m|..] == Join(ms[1..]) + rest;
      SplitUnique(s[|m|..], ms[1..], rest);
    }
  }

  lemma {:induction false} JoinConcat(a: seq<string>, b: seq<string>)
    ensures Join(a + b) == Join(a) + Join(b)
  {
    if a == [] {
      assert a + b == b;
    } else {
      assert (a + b)[1..] == a[1..] + b;
      JoinConcat(a[1..], b);
    }
  }

  /** Splitting what is left together with what comes continues the splitting of the whole. */
  lemma SplitContinues(s: string, t: string)
    ensures Messages(s + t) == Messages(s) + Messages(Leftover(s) + t)
    ensures Leftover(s + t) == Leftover(Leftover(s) + t)
  {
    hide FindEol, Messages, Leftover, Join, IsMessage;
    var u := Leftover(s) + t;
    SplitPartition(s);
    SplitPartition(u);
    var a, c := Join(Messages(s)), Join(Messages(u));
    JoinConcat(Messages(s), Messages(u));
    Assoc(a, c, Leftover(u));
    Assoc(a, Leftover(s), t);
    assert Join(Messages(s) + Messages(u)) + Leftover(u) == s + t;
    assert FindEol(Leftover(u), 0) == NPOS;
    SplitUnique(s + t, Messages(s) + Messages(u), Leftover(u));
  }

  /** The messages flushed when chunks arrive one by one, each drained, from a buffer on. */
  function Framed(buffer: string, chunks: seq<string>): (seq<string>, string)
    decreases |chunks|
  {
    if chunks == [] then ([], buffer)
    else
      var (ms, rest) := Framed(Leftover(buffer + chunks[0]), chunks[1..]);
      (Messages(buffer + chunks[0]) + ms, rest)
  }

  lemma {:induction false} FramedIsSplit(buffer: string, chunks: seq<string>)
    requires '\n' !in buffer
    ensures Framed(buffer, chunks) == (Messages(buffer + Join(chunks)), Leftover(buffer + Join(chunks)))
    decreases |chunks|
  {
    hide Messages, Leftover, IsMessage;
    if chunks == [] {
      assert buffer + Join(chunks) == buffer;
      SplitUnique(buffer, [], buffer);
      assert Join([]) + buffer == buffer;
    } else {
      var s, t := buffer + chunks[0], Join(chunks[1..]);
      SplitPartition(s);
      FramedIsSplit(Leftover(s), chunks[1..]);
      SplitContinues(s, t);
      assert buffer + Join(chunks) == s + t;
    }
  }

  /** Framing does not depend on chunking: for every byte stream, however it is cut, the flushed
      messages are those of one-shot splitting, and with the leftover they are the stream. */
  lemma FramingIsIndependent(stream: string, chunks: seq<string>, others: seq<string>)
    requires Join(chunks) == stream && Join(others) == stream
    ensures Framed("", chunks) == Framed("", others) == (Messages(stream), Leftover(stream))
    ensures Join(Framed("", chunks).0) + Framed("", chunks).1 == stream
  {
    FramedIsSplit("", chunks);
    FramedIsSplit("", others);
    assert "" + stream == stream;
    SplitPartition(stream);
  }

  /** append looks for the newline behind the one it knows. That finds the first newline of the
      buffer exactly when none was pending. */
  lemma AppendFindsFirst(curmsg: string, eolpos: int, str: string)
    requires eolpos == FindEol(curmsg, 0)
    ensures FindEol(curmsg + str, eolpos + 1) == FindEol(curmsg + str, 0) <==> eolpos == NPOS
  {
    if eolpos != NPOS {
      assert (curmsg + str)[eolpos] == '\n';
    }
  }

  class Client {
    var eolpos: int
    var curmsg: string

    /** eolpos is the first newline of the buffer. */
    predicate Synced()
      reads this
    {
      eolpos == FindEol(curmsg, 0)
    }

    constructor ()
      ensures Synced() && curmsg == "" && eolpos == NPOS
    {
      eolpos, curmsg := NPOS, "";
    }

    method Append(str: string)
      requires NPOS <= eolpos
      modifies this
      ensures curmsg == old(curmsg) + str && eolpos == FindEol(curmsg, old(eolpos) + 1)
    {
      curmsg := curmsg + str;
      eolpos := FindEol(curmsg, eolpos + 1);
    }

    /** flush_msg: the first line, which leaves the buffer; nothing when there is none. */
    method FlushMsg() returns (res: string)
      requires Synced()
      modifies this
      ensures Synced()
      ensures old(eolpos) == NPOS ==> res == "" && curmsg == old(curmsg)
      ensures old(eolpos) != NPOS ==> IsMessage(res) && old(curmsg) == res + curmsg
                                       && Messages(old(curmsg)) == [res] + Messages(curmsg)
                                       && Leftover(old(curmsg)) == Leftover(curmsg) && |curmsg| < |old(curmsg)|
    {
      hide Messages, Leftover, IsMessage, FindEol;
      if eolpos == NPOS {
        return "";
      }
      FirstLine(curmsg);
      res := curmsg[..eolpos + 1];
      curmsg := curmsg[eolpos + 1..];
      eolpos := FindEol(curmsg, 0);
    }

    predicate NewMsgIsReady()
      reads this
    {
      eolpos != NPOS
    }

    /** What the server does with one received chunk: append it, then drain. */
    method Receive(chunk: string) returns (msgs: seq<string>)
      requires Synced() && eolpos == NPOS
      modifies this
      ensures Synced() && eolpos == NPOS
      ensures msgs == Messages(old(curmsg) + chunk) && curmsg == Leftover(old(curmsg) + chunk)
    {
      hide Messages, Leftover, IsMessage;
      Append(chunk);
      msgs := [];
      ghost var all := curmsg;
      while NewMsgIsReady()
        invariant Synced()
        invariant msgs + Messages(curmsg) == Messages(all) && Leftover(curmsg) == Leftover(all)
        decreases |curmsg|
      {
        var m := FlushMsg();
        msgs := msgs + [m];
      }
      NoLine(curmsg);
    }

    /** A whole session: chunks received one by one. */
    method Session(chunks: seq<string>) returns (msgs: seq<string>)
      requires Synced() && eolpos == NPOS
      modifies this
      ensures (msgs, curmsg) == Framed(old(curmsg), chunks)
    {
      hide Messages, Leftover, FindEol;
      msgs := [];
      for i := 0 to |chunks|
        invariant Synced() && eolpos == NPOS
        invariant msgs + Framed(curmsg, chunks[i..]).0 == Framed(old(curmsg), chunks).0
        invariant Framed(curmsg, chunks[i..]).1 == Framed(old(curmsg), chunks).1
      {
        assert chunks[i..][0] == chunks[i] && chunks[i..][1..] == chunks[i + 1..];
        var ms := Receive(chunks[i]);
        msgs := msgs + ms;
      }
      assert chunks[|chunks|..] == [];
      assert Framed(curmsg, []) == ([], curmsg) && msgs + [] == msgs;
      assert Framed(old(curmsg), chunks) == (Framed(old(curmsg), chunks).0, Framed(old(curmsg), chunks).1);
    }
  }
}
