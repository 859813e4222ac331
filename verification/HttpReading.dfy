/** What is read out of any text, well-formed or not: which texts are refused and what a refused
    request keeps, header names, lines without a colon, parameters without their signs. */
module HttpReading {
  import opened Collections
  import opened Strings
  import opened HttpRequest
  import opened HttpPrinting

  // ---------------------------------------------------------------- what is refused

  /** The words of the start line. */
  function Word(s: string, n: nat): (w: Read)
    ensures w.pos <= |GetLine(s, 0).text|
  {
    NextWord(GetLine(s, 0).text, if n == 0 then 0 else Word(s, n - 1).pos)
  }

  /** The line end behind the start line is there. */
  predicate LineEnds(s: string) { '\n' in s }

  predicate Refused(s: string)
  {
    || Word(s, 0).text !in {"GET", "POST", "HEAD"}
    || (LineEnds(s) && !("HTTP/" <= Word(s, 2).text))
  }

  lemma LineEndsExactly(s: string)
    ensures LineEnds(s) <==> !GetLine(s, 0).eof
  {
  }

  lemma VersionExactly(v: string)
    ensures IsVersion(v) <==> "HTTP/" <= v
  {
    if IsVersion(v) {
      assert v[..5] == "HTTP/";
    }
  }

  lemma ThreeWords(s: string)
    ensures var line := GetLine(s, 0).text;
            && Word(s, 0) == NextWord(line, 0) && Word(s, 1) == NextWord(line, Word(s, 0).pos)
            && Word(s, 2) == NextWord(line, Word(s, 1).pos)
  {
    hide GetLine, NextWord;
  }

  /** A text is refused exactly for its method or for the version of a complete start line. A refused
      request has no address and no parameters; after a wrong method it has nothing else either, after
      a wrong version it still has the version, the headers and the body. */
  lemma RefusedExactly(s: string)
    ensures var q := Parse(s);
            && (q.Some? && q.value.kind == Error <==> Refused(s))
            && (q.Some? && !Refused(s) ==> KindText(q.value.kind) == Word(s, 0).text)
            && (Refused(s) ==> q.Some? && q.value.url == "" && q.value.urlParams == map[] && q.value.bodyParams == map[])
    ensures var q := Parse(s);
            if Word(s, 0).text !in {"GET", "POST", "HEAD"} then q == Some(Request(Error, "", map[], "", map[], "", map[]))
            else if Refused(s) then
              var h := ReadHeaders(s, GetLine(s, 0).pos, false, map[]);
              q.value.version == Word(s, 2).text && q.value.headers == h.fields && q.value.body == BodyOf(s, h)
            else q.Some? && !LineEnds(s) ==> q.value == Request(q.value.kind, "", map[], "", map[], "", map[])
  {
    hide GetLine, NextWord, ReadHeaders, ReadBody, AddressParams, IsVersion, Word, LineEnds;
    ThreeWords(s);
    LineEndsExactly(s);
    VersionExactly(Word(s, 2).text);
    KindExactly(Word(s, 0).text);
    NothingToRead();
  }

  lemma KindExactly(w: string)
    ensures KindOf(w) == Error <==> w !in {"GET", "POST", "HEAD"}
    ensures KindOf(w) != Error ==> KindText(KindOf(w)) == w
  {
  }

  lemma NothingToRead()
    ensures ReadParams("", 0, map[], false) == Some(map[]) && AddressParams("") == Some(map[]) && Address("") == ""
  {
    FoundNowhere("", {'?'}, 0);
  }

  // ---------------------------------------------------------------- header names and header lines

  lemma LowHasNoCapitals(s: string)
    ensures NoCapitals(Lower(s))
  {
    forall x | 0 <= x < |s| ensures !('A' <= LowerChar(s[x]) <= 'Z') { }
  }

  lemma {:induction false} HeaderNames(s: string, pos: nat, eof: bool, hs: Params)
    requires pos <= |s| && forall k | k in hs :: NoCapitals(k)
    ensures forall k | k in ReadHeaders(s, pos, eof, hs).fields :: NoCapitals(k)
    decreases |s| - pos, !eof
  {
    hide GetLine, Find, Lower, Trim, AllSpace, NoCapitals;
    if !eof {
      var line := GetLine(s, pos);
      var c := Find(line.text, {':'}, 0);
      if !AllSpace(line.text) && c != NPOS {
        var name := Lower(Trim(line.text[..c]));
        LowHasNoCapitals(Trim(line.text[..c]));
        HeaderNames(s, line.pos, line.eof, hs[name := Trim(line.text[c + 1..])]);
      }
    }
  }

  /** No header of any text, refused or not, keeps a capital letter in its name. */
  lemma NamesHaveNoCapitals(s: string)
    requires Parse(s).Some?
    ensures forall k | k in Parse(s).value.headers :: NoCapitals(k)
  {
    hide GetLine, NextWord, ReadHeaders, ReadBody, AddressParams, ReadParams, IsVersion, KindOf, NoCapitals;
    HeaderNames(s, GetLine(s, 0).pos, false, map[]);
  }

  /** The text of a request up to its headers, spelled as names, and what follows them. */
  function Sent(r: Request, ps: seq<string>, names: seq<string>, hs: seq<string>, tail: string): string
    requires Within(ps, r.urlParams) && Within(hs, r.headers) && |names| == |hs|
  {
    KindText(r.kind) + " " + PrintUrl(r, ps) + " " + r.version + "\n" + (PrintSpelled(names, hs, r.headers) + tail)
  }

  /** What is read of it: the headers, then whatever the tail is read as. */
  lemma SentRead(r: Request, ps: seq<string>, names: seq<string>, hs: seq<string>, tail: string) returns (p: nat)
    requires WellFormed(r) && Walks(ps, r.urlParams) && Walks(hs, r.headers) && SpellsAll(names, hs)
    ensures Within(ps, r.urlParams) && Within(hs, r.headers)
    ensures var s := Sent(r, ps, names, hs, tail); p <= |s| && s[p..] == tail
    ensures var s := Sent(r, ps, names, hs, tail); var h := ReadHeaders(s, p, false, r.headers);
            Parse(s) == Finish(r.kind, PrintUrl(r, ps), r.version, h.fields, BodyOf(s, h))
  {
    hide PrintSpelled, NextWord, GetLine, ReadHeaders, ReadBody, ReadParams, KindText, KindOf, HeadersFit, ParamsFit, Spells,
         PrintUrl, Address, AddressParams, Walks, Finish;
    WalksWithin(ps, r.urlParams);
    WalksWithin(hs, r.headers);
    UrlIsWord(r, ps);
    GatherAll(hs, r.headers);
    var start := KindText(r.kind) + " " + PrintUrl(r, ps) + " " + r.version;
    var s := Sent(r, ps, names, hs, tail);
    StartLineRead(r.kind, PrintUrl(r, ps), r.version);
    assert s[0..] == s;
    LineRead(s, 0, start, PrintSpelled(names, hs, r.headers) + tail);
    p := FieldsRead(s, |start| + 1, names, hs, r.headers, tail, map[]);
  }

  /** Nothing but the parameters of the address is left to read when there is no body. */
  lemma WithoutBody(r: Request, ps: seq<string>, headers: Params)
    requires WellFormed(r) && Walks(ps, r.urlParams)
    ensures Within(ps, r.urlParams)
    ensures Finish(r.kind, PrintUrl(r, ps), r.version, headers, "") == Some(r.(headers := headers, body := "", bodyParams := map[]))
  {
    hide PrintUrl, Address, AddressParams, ReadParams, HeadersFit, ParamsFit, Walks;
    UrlRead(r, ps);
    NothingToRead();
  }

  lemma HeadersStop(s: string, p: nat, hs: Params)
    requires p <= |s|
    requires var line := GetLine(s, p); if AllSpace(line.text) then line.eof else ':' !in line.text
    ensures ReadHeaders(s, p, false, hs) == Headers(hs, None)
  {
    hide GetLine, ReadHeaders, AllSpace;
    HeaderStep(s, p, hs);
    if ':' !in GetLine(s, p).text {
      FoundNowhere(GetLine(s, p).text, {':'}, 0);
    }
  }

  lemma LastLine(s: string, p: nat)
    requires p <= |s| && '\n' !in s[p..]
    ensures GetLine(s, p) == Read(s[p..], |s|, true)
  {
    forall x | p <= x < |s| ensures s[x] != '\n' {
      assert s[x] == s[p..][x - p];
    }
    FoundNowhere(s, {'\n'}, p);
  }

  /** A line without a colon ends the headers: those in front of it stay, there is no body, and the
      request keeps its kind. */
  lemma BrokenField(r: Request, ps: seq<string>, names: seq<string>, hs: seq<string>, line: string, rest: string)
    requires WellFormed(r) && Walks(ps, r.urlParams) && Walks(hs, r.headers) && SpellsAll(names, hs)
    requires ':' !in line && '\n' !in line && !AllSpace(line)
    ensures Within(ps, r.urlParams) && Within(hs, r.headers)
    ensures Parse(Sent(r, ps, names, hs, line + "\n" + rest)) == Some(r.(body := "", bodyParams := map[]))
  {
    hide Sent, Parse, WellFormed, Walks, Spells, ReadHeaders, Finish, GetLine, AllSpace;
    var p := SentRead(r, ps, names, hs, line + "\n" + rest);
    LineRead(Sent(r, ps, names, hs, line + "\n" + rest), p, line, rest);
    HeadersStop(Sent(r, ps, names, hs, line + "\n" + rest), p, r.headers);
    WithoutBody(r, ps, r.headers);
  }

  /** A text that ends within its headers has no body, also when it ends in their last line end. */
  lemma EndsInHeaders(r: Request, ps: seq<string>, names: seq<string>, hs: seq<string>, line: string)
    requires WellFormed(r) && Walks(ps, r.urlParams) && Walks(hs, r.headers) && SpellsAll(names, hs)
    requires '\n' !in line && (AllSpace(line) || ':' !in line)
    ensures Within(ps, r.urlParams) && Within(hs, r.headers)
    ensures Parse(Sent(r, ps, names, hs, line)) == Some(r.(body := "", bodyParams := map[]))
  {
    hide Sent, Parse, WellFormed, Walks, Spells, ReadHeaders, Finish, GetLine, AllSpace;
    var p := SentRead(r, ps, names, hs, line);
    LastLine(Sent(r, ps, names, hs, line), p);
    HeadersStop(Sent(r, ps, names, hs, line), p, r.headers);
    WithoutBody(r, ps, r.headers);
  }

  lemma OneFits(k: string, v: string)
    requires HeadersFit(map[k := v])
    ensures NoCapitals(k) && Trimmed(k) && Trimmed(v) && ':' !in k && '\n' !in k && '\n' !in v
  {
    hide NoCapitals, Trimmed;
    assert k in map[k := v];
  }

  /** The line of one field. */
  lemma FieldLine(n: string, k: string, v: string, line: string)
    requires Spells(n, k) && HeadersFit(map[k := v]) && line == n + ": " + v
    ensures '\n' !in line && !AllSpace(line) && Find(line, {':'}, 0) == |n| < |line|
    ensures Lower(Trim(line[..|n|])) == k && Trim(line[|n| + 1..]) == v
  {
    OneFits(k, v);
    hide AllSpace, Trim, Lower, Find, Spells, Trimmed, NoCapitals, HeadersFit;
    SpelledName(n, k);
    FieldRead(n, v);
  }

  lemma LastField(s: string, p: nat, n: string, k: string, v: string, hs: Params)
    requires Spells(n, k) && HeadersFit(map[k := v]) && p <= |s| && s[p..] == n + ": " + v
    ensures ReadHeaders(s, p, false, hs) == Headers(hs[k := v], None)
  {
    hide GetLine, ReadHeaders, AllSpace, Trim, Lower, Find, Spells, HeadersFit;
    FieldLine(n, k, v, s[p..]);
    LastLine(s, p);
    HeaderStep(s, p, hs);
    HeadersEnd(s, |s|, hs[k := v]);
  }

  /** A last header without a line end is still entered. */
  lemma EndsInField(r: Request, ps: seq<string>, names: seq<string>, hs: seq<string>, n: string, k: string, v: string)
    requires WellFormed(r) && Walks(ps, r.urlParams) && Walks(hs, r.headers) && SpellsAll(names, hs)
    requires Spells(n, k) && HeadersFit(map[k := v])
    ensures Within(ps, r.urlParams) && Within(hs, r.headers)
    ensures Parse(Sent(r, ps, names, hs, n + ": " + v)) == Some(r.(headers := r.headers[k := v], body := "", bodyParams := map[]))
  {
    hide Sent, Parse, WellFormed, Walks, Spells, HeadersFit, ReadHeaders, Finish;
    var p := SentRead(r, ps, names, hs, n + ": " + v);
    LastField(Sent(r, ps, names, hs, n + ": " + v), p, n, k, v, r.headers);
    WithoutBody(r, ps, r.headers[k := v]);
  }

  // ---------------------------------------------------------------- parameters of a body

  /** A text with neither sign is one parameter that is its own value. */
  lemma FlagAlone(t: string)
    requires t != "" && '=' !in t && '&' !in t
    ensures ReadParams(t, 0, map[], false) == Some(map[t := t])
  {
    FoundNowhere(t, {'='}, 0);
    FoundNowhere(t, {'&'}, 0);
    assert t[0..] == t;
  }

  lemma {:induction false} LongerValue(keys: seq<string>, m: Params)
    requires Within(keys, m) && keys != [] && forall i, j | 0 <= i < j < |keys| :: keys[i] != keys[j]
    ensures var n := m[Last(keys) := m[Last(keys)] + "\n"]; Within(keys, n) && Query(keys, n) == Query(keys, m) + "\n"
  {
    var n := m[Last(keys) := m[Last(keys)] + "\n"];
    assert keys[0] in keys;
    if |keys| > 1 {
      assert Last(keys[1..]) == Last(keys);
      LongerValue(keys[1..], m);
      var kv, q := keys[0] + "=" + m[keys[0]] + "&", Query(keys[1..], m);
      assert kv + (q + "\n") == (kv + q) + "\n";
    }
  }

  /** A posted form comes back out of the body it was sent as, the last value with the line end that
      the body gains. */
  lemma FormRead(keys: seq<string>, m: Params)
    requires Walks(keys, m) && keys != [] && forall k | k in m :: '=' !in k && '&' !in m[k]
    ensures Within(keys, m) && Last(keys) in m
    ensures ReadParams(Query(keys, m) + "\n", 0, map[], false) == Some(m[Last(keys) := m[Last(keys)] + "\n"])
  {
    hide ReadParams, Query;
    WalksWithin(keys, m);
    var last := Last(keys);
    assert last in keys;
    var n := m[last := m[last] + "\n"];
    LongerValue(keys, m);
    var t := Query(keys, m) + "\n";
    assert t[0..] == t && n.Keys == m.Keys;
    assert '&' !in m[last] + "\n";
    ReadQuery(t, 0, keys, n, map[]);
    GatherAll(keys, n);
  }
}
