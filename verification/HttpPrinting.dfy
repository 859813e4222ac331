/** Parsing undoes printing, for every well-formed request and every order of its maps; and exactly
    where the parameter loop does not end. */
module HttpPrinting {
  import opened Collections
  import opened Strings
  import opened HttpRequest

  predicate NoSpace(s: string) { forall c | c in s :: !IsSpace(c) }

  predicate Trimmed(s: string) { s == "" || (!IsSpace(s[0]) && !IsSpace(s[|s| - 1])) }

  predicate ParamsFit(m: Params)
  {
    forall k | k in m :: NoSpace(k) && NoSpace(m[k]) && '=' !in k && '&' !in m[k]
  }

  predicate NoCapitals(s: string) { forall c | c in s :: !('A' <= c <= 'Z') }

  /** The name n is k with any of its small letters written as capitals. */
  predicate Spells(n: string, k: string)
  {
    |n| == |k| && forall x | 0 <= x < |k| :: n[x] == k[x] || ('a' <= k[x] <= 'z' && n[x] as int + 32 == k[x] as int)
  }

  predicate SpellsAll(names: seq<string>, keys: seq<string>)
  {
    |names| == |keys| && forall x | 0 <= x < |keys| :: Spells(names[x], keys[x])
  }

  /** The headers printed under other spellings of their names. */
  function PrintSpelled(names: seq<string>, keys: seq<string>, m: Params): string
    requires |names| == |keys| && Within(keys, m)
  {
    if keys == [] then "" else names[0] + ": " + m[keys[0]] + "\n" + PrintSpelled(names[1..], keys[1..], m)
  }

  predicate HeadersFit(m: Params)
  {
    forall k | k in m ::
      && NoCapitals(k) && Trimmed(k) && Trimmed(m[k]) && ':' !in k && '\n' !in k && '\n' !in m[k]
  }

  /** What a request must be like to be sent as text. */
  predicate WellFormed(r: Request)
  {
    && r.kind != Error && NoSpace(r.url) && '?' !in r.url && (r.url != "" || r.urlParams != map[])
    && ParamsFit(r.urlParams) && IsVersion(r.version) && NoSpace(r.version) && HeadersFit(r.headers)
  }

  // ---------------------------------------------------------------- maps and the order they are walked in

  function Gather(keys: seq<string>, m: Params, acc: Params): Params
    requires Within(keys, m)
  {
    if keys == [] then acc else Gather(keys[1..], m, acc[keys[0] := m[keys[0]]])
  }

  lemma {:induction false} GatherAt(keys: seq<string>, m: Params, acc: Params)
    requires Within(keys, m)
    ensures forall k :: k in Gather(keys, m, acc) <==> k in keys || k in acc
    ensures forall k | k in Gather(keys, m, acc) :: Gather(keys, m, acc)[k] == if k in keys then m[k] else acc[k]
  {
    if keys != [] {
      var first := keys[0];
      assert keys == [first] + keys[1..];
      GatherAt(keys[1..], m, acc[first := m[first]]);
    }
  }

  /** Entering every pair of a map, in whatever order, gives the map. */
  lemma GatherAll(keys: seq<string>, m: Params)
    requires Walks(keys, m)
    ensures Within(keys, m) && Gather(keys, m, map[]) == m
  {
    WalksWithin(keys, m);
    GatherAt(keys, m, map[]);
    forall k | k in m ensures k in keys {
      assert k in m.Keys;
      assert k in (set x | x in keys);
    }
  }

  // ---------------------------------------------------------------- parameters

  /** The parameters without the last separator. */
  function Query(keys: seq<string>, m: Params): string
    requires Within(keys, m) && keys != []
  {
    keys[0] + "=" + m[keys[0]] + if |keys| == 1 then "" else "&" + Query(keys[1..], m)
  }

  lemma {:induction false} QueryPrinted(keys: seq<string>, m: Params)
    requires Within(keys, m) && keys != []
    ensures PrintParams(keys, m) == Query(keys, m) + "&"
  {
    if |keys| == 1 {
      assert keys[1..] == [];
    } else {
      QueryPrinted(keys[1..], m);
      var kv, rest := keys[0] + "=" + m[keys[0]], Query(keys[1..], m);
      assert kv + "&" + (rest + "&") == (kv + ("&" + rest)) + "&";
    }
  }

  /** A pair whose signs stand at e and, unless it is the last, at a. */
  lemma PairAt(t: string, i: nat, e: nat, a: nat)
    requires i <= e < a <= |t| && t[e] == '=' && (a < |t| ==> t[a] == '&')
    requires (forall x | i <= x < e :: t[x] != '=') && (forall x | e < x < a :: t[x] != '&')
    ensures !Wraps(t, i) && ReadPair(t, i) == Pair(t[i..e], t[e + 1..a], if a == |t| then |t| else a + 1)
  {
    FoundAt(t, {'='}, i, e);
    if a == |t| {
      FoundNowhere(t, {'&'}, e + 1);
    } else {
      FoundAt(t, {'&'}, e + 1, a);
    }
  }

  /** One pair is read as it was written. */
  lemma ReadWritten(t: string, i: nat, k: string, v: string, rest: string)
    requires i <= |t| && t[i..] == k + "=" + v + rest && '=' !in k && '&' !in v && (rest == "" || rest[0] == '&')
    ensures i < |t| && !Wraps(t, i)
    ensures ReadPair(t, i) == Pair(k, v, if rest == "" then |t| else i + |k| + |v| + 2)
    ensures rest != "" ==> i + |k| + |v| + 2 <= |t| && t[i + |k| + |v| + 2..] == rest[1..]
  {
    hide Find, ReadPair, Wraps;
    var e := i + |k|;
    var a := e + 1 + |v|;
    ThreeOn(t, i, k, "=", v, rest);
    assert forall x | i <= x < e :: t[x] in k;
    assert forall x | e + 1 <= x < a :: t[x] in v;
    PairAt(t, i, e, a);
    if rest != "" {
      assert t[a + 1..] == t[a..][1..];
    }
  }

  lemma ThreeOn(t: string, i: nat, x: string, y: string, z: string, rest: string)
    requires i <= |t| && t[i..] == x + y + z + rest
    ensures var e := i + |x|; var f := e + |y|; var a := f + |z|;
            && a <= |t| && t[i..e] == x && t[e..f] == y && t[f..a] == z && t[a..] == rest
            && (forall k | i <= k < e :: t[k] == x[k - i])
            && (forall k | e <= k < f :: t[k] == y[k - e])
            && (forall k | f <= k < a :: t[k] == z[k - f])
            && (rest != "" ==> a < |t| && t[a] == rest[0])
  {
    var yz, zr := y + (z + rest), z + rest;
    Regrouped(x, y, z, rest);
    GoesOn(t, i, x, yz);
    GoesOn(t, i + |x|, y, zr);
    GoesOn(t, i + |x| + |y|, z, rest);
  }

  lemma Regrouped(x: string, y: string, z: string, rest: string)
    ensures x + y + z + rest == x + (y + (z + rest))
  {
  }

  lemma {:induction false} ReadQuery(t: string, i: nat, keys: seq<string>, m: Params, acc: Params)
    requires Within(keys, m) && keys != [] && i <= |t| && t[i..] == Query(keys, m)
    requires forall k | k in keys :: '=' !in k && '&' !in m[k]
    ensures ReadParams(t, i, acc, false) == Some(Gather(keys, m, acc))
    decreases |keys|
  {
    hide Wraps, ReadPair;
    var k := keys[0];
    assert k in keys;
    var rest := if |keys| == 1 then "" else "&" + Query(keys[1..], m);
    ReadWritten(t, i, k, m[k], rest);
    if |keys| == 1 {
      assert keys[1..] == [];
    } else {
      assert rest[1..] == Query(keys[1..], m);
      ReadQuery(t, i + |k| + |m[k]| + 2, keys[1..], m, acc[k := m[k]]);
    }
  }

  /** Address and parameters come back out of the printed url. */
  lemma UrlRead(r: Request, ps: seq<string>)
    requires WellFormed(r) && Walks(ps, r.urlParams)
    ensures Within(ps, r.urlParams)
    ensures Address(PrintUrl(r, ps)) == r.url && AddressParams(PrintUrl(r, ps)) == Some(r.urlParams)
  {
    hide Walks, NoSpace, HeadersFit, IsVersion, ReadParams;
    WalksWithin(ps, r.urlParams);
    var u := PrintUrl(r, ps);
    if ps == [] {
      FoundNowhere(u, {'?'}, 0);
    } else {
      QueryPrinted(ps, r.urlParams);
      var q := Query(ps, r.urlParams);
      assert (r.url + "?" + (q + "&"))[..|r.url| + 1 + |q|] == r.url + "?" + q;
      assert u == r.url + "?" + q;
      forall x | 0 <= x < |r.url| ensures u[x] == r.url[x] { }
      FoundAt(u, {'?'}, 0, |r.url|);
      assert u[..|r.url|] == r.url && u[|r.url| + 1..] == q;
      ReadQuery(u, |r.url| + 1, ps, r.urlParams, map[]);
      GatherAll(ps, r.urlParams);
    }
  }

  // ---------------------------------------------------------------- the start line

  lemma {:induction false} NoSpaceParams(keys: seq<string>, m: Params)
    requires Within(keys, m) && ParamsFit(m)
    ensures NoSpace(PrintParams(keys, m))
  {
    if keys != [] {
      NoSpaceParams(keys[1..], m);
    }
  }

  lemma UrlIsWord(r: Request, ps: seq<string>)
    requires WellFormed(r) && Walks(ps, r.urlParams)
    ensures Within(ps, r.urlParams) && PrintUrl(r, ps) != "" && NoSpace(PrintUrl(r, ps))
  {
    hide Walks, PrintParams, HeadersFit, IsVersion;
    WalksWithin(ps, r.urlParams);
    if ps != [] {
      NoSpaceParams(ps, r.urlParams);
      var t := r.url + "?" + PrintParams(ps, r.urlParams);
      QueryPrinted(ps, r.urlParams);
      assert NoSpace(t);
      assert forall c | c in t[..|t| - 1] :: c in t;
    }
  }

  /** Extraction skips the blank and takes the word. */
  lemma WordRead(line: string, p: nat, blank: string, w: string, rest: string)
    requires p <= |line| && line[p..] == blank + w + rest && (blank == "" || blank == " ") && w != "" && NoSpace(w)
    requires rest == "" || IsSpace(rest[0])
    ensures NextWord(line, p).text == w && NextWord(line, p).pos == p + |blank| + |w|
    ensures line[p + |blank| + |w|..] == rest
  {
    var b, e := p + |blank|, p + |blank| + |w|;
    assert line[p..] == "" + blank + w + rest;
    ThreeOn(line, p, "", blank, w, rest);
    forall x | b <= x < e ensures !IsSpace(line[x]) {
      assert line[x] in w;
    }
    hide NextWord, NoSpace;
    WordAt(line, p, b, e);
  }

  lemma WordAt(line: string, p: nat, b: nat, e: nat)
    requires p <= b < e <= |line| && (forall x | p <= x < b :: IsSpace(line[x])) && (forall x | b <= x < e :: !IsSpace(line[x]))
    requires e < |line| ==> IsSpace(line[e])
    ensures NextWord(line, p).text == line[b..e] && NextWord(line, p).pos == e
  {
    assert !IsSpace(line[b]);
    assert Front(line, p) == b;
    assert WordEnd(line, b) == e;
  }

  lemma KindWord(k: Kind)
    requires k != Error
    ensures KindText(k) != "" && NoSpace(KindText(k)) && KindOf(KindText(k)) == k
  {
  }

  lemma StartLineRead(k: Kind, u: string, v: string)
    requires k != Error && u != "" && NoSpace(u) && v != "" && NoSpace(v)
    ensures var line := KindText(k) + " " + u + " " + v;
            var a := NextWord(line, 0); var b := NextWord(line, a.pos); var c := NextWord(line, b.pos);
            KindOf(a.text) == k && b.text == u && c.text == v && '\n' !in line
  {
    hide NextWord, KindText, KindOf;
    KindWord(k);
    var w := KindText(k);
    var line := w + " " + u + " " + v;
    Parts(w, u, v);
    WordRead(line, 0, "", w, " " + u + " " + v);
    WordRead(line, |w|, " ", u, " " + v);
    WordRead(line, |w| + 1 + |u|, " ", v, "");
  }

  lemma Parts(w: string, u: string, v: string)
    ensures var line := w + " " + u + " " + v;
            line[0..] == "" + w + (" " + u + " " + v) && " " + u + " " + v == " " + u + (" " + v) && " " + v == " " + v + ""
  {
  }

  // ---------------------------------------------------------------- lines, headers and body

  lemma LineRead(s: string, pos: nat, text: string, rest: string)
    requires pos <= |s| && s[pos..] == text + "\n" + rest && '\n' !in text
    ensures GetLine(s, pos) == Read(text, pos + |text| + 1, false) && s[pos + |text| + 1..] == rest
  {
    var u, e := s[pos..], pos + |text|;
    forall x | pos <= x < |s| ensures s[x] == u[x - pos] { }
    forall x | pos <= x < e ensures s[x] == text[x - pos] { }
    FoundAt(s, {'\n'}, pos, e);
    assert s[pos..e] == text;
    assert s[e + 1..] == u[|text| + 1..];
  }

  /** A header field is read as it was written. */
  lemma FieldRead(k: string, v: string)
    requires Trimmed(k) && Trimmed(v) && ':' !in k
    ensures var line := k + ": " + v;
            && !AllSpace(line) && Find(line, {':'}, 0) == |k|
            && Trim(line[..|k|]) == k && Trim(line[|k| + 1..]) == v
  {
    hide Trim;
    var line := k + ": " + v;
    assert line[|k|] == ':' && ':' in line;
    forall x | 0 <= x < |k| ensures line[x] == k[x] { }
    FoundAt(line, {':'}, 0, |k|);
    assert line[..|k|] == k && line[|k| + 1..] == " " + v;
    TrimOf("", k);
    TrimOf(" ", v);
    assert "" + k == k;
  }

  lemma TrimOf(blank: string, t: string)
    requires Trimmed(t) && (blank == "" || blank == " ")
    ensures Trim(blank + t) == t
  {
    if t == "" {
      assert blank + t == blank;
    } else {
      TrimPadded(blank, t, "");
      assert blank + t + "" == blank + t;
    }
  }

  /** A name is stored in small letters, however it was spelled. */
  lemma SpelledName(n: string, k: string)
    requires Spells(n, k) && NoCapitals(k) && Trimmed(k) && ':' !in k && '\n' !in k
    ensures Lower(n) == k && Trimmed(n) && ':' !in n && '\n' !in n
  {
    forall x | 0 <= x < |n| ensures LowerChar(n[x]) == k[x] && n[x] != ':' && n[x] != '\n' && IsSpace(n[x]) == IsSpace(k[x]) {
      assert k[x] in k;
    }
  }

  /** One field of the headers. */
  lemma FieldStep(s: string, pos: nat, n: string, k: string, v: string, rest: string, acc: Params)
    requires pos <= |s| && s[pos..] == n + ": " + v + "\n" + rest && '\n' !in v
    requires Spells(n, k) && NoCapitals(k) && Trimmed(k) && Trimmed(v) && ':' !in k && '\n' !in k
    ensures var p := pos + |n| + 2 + |v| + 1;
            p <= |s| && s[p..] == rest && ReadHeaders(s, pos, false, acc) == ReadHeaders(s, p, false, acc[k := v])
  {
    hide GetLine, Find, Trim, Lower, AllSpace, ReadHeaders, Trimmed, Spells, NoCapitals;
    SpelledName(n, k);
    var field := n + ": " + v;
    assert '\n' !in field;
    LineRead(s, pos, field, rest);
    FieldRead(n, v);
    HeaderStep(s, pos, acc);
  }

  /** The fields in front of the text tail are entered, in whatever case their names are written. */
  lemma {:induction false} FieldsRead(s: string, pos: nat, names: seq<string>, keys: seq<string>, m: Params, tail: string,
                                      acc: Params)
    returns (p: nat)
    requires Within(keys, m) && HeadersFit(m) && SpellsAll(names, keys)
    requires pos <= |s| && s[pos..] == PrintSpelled(names, keys, m) + tail
    ensures pos <= p <= |s| && s[p..] == tail
    ensures ReadHeaders(s, pos, false, acc) == ReadHeaders(s, p, false, Gather(keys, m, acc))
    decreases |keys|
  {
    hide GetLine, Find, Trim, Lower, AllSpace, ReadHeaders, Trimmed, Spells, NoCapitals;
    if keys == [] {
      p := pos;
    } else {
      var n, k := names[0], keys[0];
      var v := m[k];
      assert k in keys;
      var rest := PrintSpelled(names[1..], keys[1..], m) + tail;
      assert s[pos..] == n + ": " + v + "\n" + rest;
      FieldStep(s, pos, n, k, v, rest, acc);
      p := FieldsRead(s, pos + |n| + 2 + |v| + 1, names[1..], keys[1..], m, tail, acc[k := v]);
    }
  }

  lemma HeadersRead(s: string, pos: nat, names: seq<string>, keys: seq<string>, m: Params, body: string, acc: Params)
    requires Within(keys, m) && HeadersFit(m) && SpellsAll(names, keys)
    requires pos <= |s| && s[pos..] == PrintSpelled(names, keys, m) + "\n" + body
    ensures var h := ReadHeaders(s, pos, false, acc);
            && h.fields == Gather(keys, m, acc) && h.bodyAt.Some? && h.bodyAt.value <= |s| && s[h.bodyAt.value..] == body
  {
    hide GetLine, Find, AllSpace, ReadHeaders, PrintSpelled, Gather, Spells, HeadersFit;
    assert s[pos..] == PrintSpelled(names, keys, m) + ("\n" + body);
    var p := FieldsRead(s, pos, names, keys, m, "\n" + body, acc);
    assert s[p..] == "" + "\n" + body;
    LineRead(s, p, "", body);
    EmptyIsSpace();
    HeaderStep(s, p, Gather(keys, m, acc));
  }

  lemma EmptyIsSpace()
    ensures AllSpace("")
  {
  }

  /** The body gains exactly one line end. */
  lemma {:induction false} BodyRead(s: string, pos: nat)
    requires pos <= |s|
    ensures ReadBody(s, pos) == s[pos..] + "\n"
    decreases |s| - pos
  {
    hide Find;
    var line := GetLine(s, pos);
    if !line.eof {
      BodyRead(s, line.pos);
      assert s[pos..] == line.text + "\n" + s[line.pos..];
    }
  }

  // ---------------------------------------------------------------- the round trip

  /** Every '&' has an '=' somewhere behind it. */
  predicate Covered(t: string)
  {
    forall x | 0 <= x < |t| && t[x] == '&' :: Find(t, {'='}, x) != NPOS
  }

  /** Parsing a printed well-formed request gives it back, with one line end more behind its body; it
      ends exactly when every '&' of the body has an '=' somewhere behind it. */
  lemma RoundTrip(r: Request, ps: seq<string>, hs: seq<string>)
    requires WellFormed(r) && Walks(ps, r.urlParams) && Walks(hs, r.headers)
    ensures Within(ps, r.urlParams) && Within(hs, r.headers)
    ensures var q := Parse(ToHttp(r, ps, hs));
            && (q.Some? <==> Covered(r.body + "\n"))
            && (q.Some? ==> q.value == r.(body := r.body + "\n", bodyParams := q.value.bodyParams))
            && (q.Some? ==> ReadParams(r.body + "\n", 0, map[], false) == Some(q.value.bodyParams))
  {
    hide Walks, Parse, WellFormed, Covered, SpellsAll;
    WalksWithin(ps, r.urlParams);
    WalksWithin(hs, r.headers);
    UrlIsWord(r, ps);
    UrlRead(r, ps);
    GatherAll(hs, r.headers);
    PlainSpelling(hs, r.headers);
    TextRead(r, PrintUrl(r, ps), hs, hs);
    PrintedText(r, ps, hs);
    BodyEnds(r.body);
    KindStays(r);
  }

  lemma KindStays(r: Request)
    requires WellFormed(r)
    ensures r.kind != Error
  {
  }

  lemma PrintedText(r: Request, ps: seq<string>, hs: seq<string>)
    requires Within(ps, r.urlParams) && Within(hs, r.headers)
    ensures ToHttp(r, ps, hs) ==
            KindText(r.kind) + " " + PrintUrl(r, ps) + " " + r.version + "\n" + (PrintHeaders(hs, r.headers) + "\n" + r.body)
  {
    hide PrintUrl, PrintHeaders, KindText;
  }

  lemma TwoPrinted(a: string, b: string, m: Params)
    requires a in m && b in m && a != b
    ensures Within([a, b], m)
    ensures PrintParams([a, b], m) == a + "=" + m[a] + "&" + (b + "=" + m[b] + "&")
    ensures PrintHeaders([a, b], m) == a + ": " + m[a] + "\n" + (b + ": " + m[b] + "\n")
  {
    assert [a, b][1..] == [b] && [b][1..] == [];
    assert PrintParams([b], m) == b + "=" + m[b] + "&";
    assert PrintHeaders([b], m) == b + ": " + m[b] + "\n";
  }

  /** What a request looks like. */
  lemma PrintedExample()
    ensures ToHttp(Request(Post, "/a", map["x" := "1", "y" := "2"], "HTTP/1.1", map["h" := "v", "k" := ""], "b", map[]),
                   ["x", "y"], ["h", "k"])
         == "POST /a?x=1&y=2 HTTP/1.1\nh: v\nk: \n\nb"
  {
    var m, n := map["x" := "1", "y" := "2"], map["h" := "v", "k" := ""];
    var r := Request(Post, "/a", m, "HTTP/1.1", n, "b", map[]);
    TwoPrinted("x", "y", m);
    TwoPrinted("h", "k", n);
    hide PrintParams, PrintHeaders;
    var u, f := PrintUrl(r, ["x", "y"]), PrintHeaders(["h", "k"], n);
    assert u == "/a?x=1&y=2";
    assert f == "h: v\nk: \n";
    assert KindText(Post) + " " + u == "POST /a?x=1&y=2";
    assert "POST /a?x=1&y=2" + " " + r.version + "\n" == "POST /a?x=1&y=2 HTTP/1.1\n";
    assert "POST /a?x=1&y=2 HTTP/1.1\n" + f == "POST /a?x=1&y=2 HTTP/1.1\nh: v\nk: \n";
  }

  lemma {:induction false} PlainSpelling(hs: seq<string>, m: Params)
    requires Within(hs, m)
    ensures SpellsAll(hs, hs) && PrintSpelled(hs, hs, m) == PrintHeaders(hs, m)
  {
    if hs != [] {
      PlainSpelling(hs[1..], m);
    }
  }

  lemma TextRead(r: Request, u: string, names: seq<string>, hs: seq<string>)
    requires WellFormed(r) && Within(hs, r.headers) && SpellsAll(names, hs) && Gather(hs, r.headers, map[]) == r.headers
    requires u != "" && NoSpace(u)
    ensures Parse(KindText(r.kind) + " " + u + " " + r.version + "\n" + (PrintSpelled(names, hs, r.headers) + "\n" + r.body))
         == Finish(r.kind, u, r.version, r.headers, r.body + "\n")
  {
    hide PrintSpelled, NextWord, GetLine, ReadHeaders, ReadBody, Finish, KindText, KindOf, HeadersFit, ParamsFit, Spells;
    var line := KindText(r.kind) + " " + u + " " + r.version;
    var rest := PrintSpelled(names, hs, r.headers) + "\n" + r.body;
    var s := line + "\n" + rest;
    StartLineRead(r.kind, u, r.version);
    assert s[0..] == s;
    LineRead(s, 0, line, rest);
    HeadersRead(s, |line| + 1, names, hs, r.headers, r.body, map[]);
    BodyRead(s, ReadHeaders(s, |line| + 1, false, map[]).bodyAt.value);
  }

  /** A request printed with the names of its headers in any letter case is read as the same request. */
  lemma AnyLetterCase(r: Request, ps: seq<string>, names: seq<string>, hs: seq<string>)
    requires WellFormed(r) && Walks(ps, r.urlParams) && Walks(hs, r.headers) && SpellsAll(names, hs)
    ensures Within(ps, r.urlParams) && Within(hs, r.headers)
    ensures Parse(KindText(r.kind) + " " + PrintUrl(r, ps) + " " + r.version + "\n" +
                  (PrintSpelled(names, hs, r.headers) + "\n" + r.body))
         == Parse(ToHttp(r, ps, hs))
  {
    hide Walks, Parse, WellFormed, SpellsAll;
    WalksWithin(ps, r.urlParams);
    WalksWithin(hs, r.headers);
    UrlIsWord(r, ps);
    GatherAll(hs, r.headers);
    PlainSpelling(hs, r.headers);
    TextRead(r, PrintUrl(r, ps), names, hs);
    TextRead(r, PrintUrl(r, ps), hs, hs);
    PrintedText(r, ps, hs);
  }

  // ---------------------------------------------------------------- where the parameter loop does not end

  /** The position after n rounds of the parameter loop, the end of the text once it is reached. */
  function Rounds(s: string, i: nat, n: nat): (p: nat)
    requires i <= |s|
    ensures p <= |s|
    decreases n
  {
    if n == 0 || i == |s| then i else Rounds(s, ReadPair(s, i).next, n - 1)
  }

  /** A round that wraps leads behind the first '&', wherever it starts. */
  lemma WrapsTo(s: string, i: nat, j: nat)
    requires i < |s| && j < |s| && Wraps(s, i) && Wraps(s, j)
    ensures ReadPair(s, i).next == ReadPair(s, j).next
  {
    hide Find;
  }

  lemma {:induction false} Circles(s: string, w: nat, i: nat, m: Params, k: Params, n: nat)
    requires w < |s| && i < |s| && ReadParams(s, w, m, true).None? && ReadParams(s, i, k, true).None?
    requires forall j | 0 <= j < |s| && Wraps(s, j) :: ReadPair(s, j).next == w
    ensures Rounds(s, i, n) < |s|
    decreases n
  {
    hide ReadPair, Wraps;
    if n > 0 {
      var p := ReadPair(s, i);
      if Wraps(s, i) {
        Circles(s, w, w, m, m, n - 1);
      } else {
        Circles(s, w, p.next, m, k[p.name := p.value], n - 1);
      }
    }
  }

  /** Where the parser model gives up, no number of rounds ends the loop. */
  lemma {:induction false} NeverEnds(s: string, i: nat, m: Params, n: nat)
    requires i <= |s| && ReadParams(s, i, m, false).None?
    ensures Rounds(s, i, n) < |s|
    decreases n
  {
    hide ReadPair, Wraps;
    if n > 0 {
      var p := ReadPair(s, i);
      var k := m[p.name := p.value];
      if Wraps(s, i) {
        forall j | 0 <= j < |s| && Wraps(s, j) ensures ReadPair(s, j).next == p.next {
          WrapsTo(s, i, j);
        }
        Circles(s, p.next, p.next, k, k, n - 1);
      } else {
        NeverEnds(s, p.next, k, n - 1);
      }
    }
  }

  /** Where it does not, some number of rounds ends the loop. */
  lemma {:induction false} SometimeEnds(s: string, i: nat, m: Params, wrapped: bool) returns (n: nat)
    requires i <= |s| && ReadParams(s, i, m, wrapped).Some?
    ensures Rounds(s, i, n) == |s|
    decreases !wrapped, |s| - i
  {
    hide ReadPair, Wraps;
    if i == |s| {
      n := 0;
    } else {
      var p := ReadPair(s, i);
      NextAdvances(s, i);
      n := SometimeEnds(s, p.next, m[p.name := p.value], wrapped || Wraps(s, i));
      n := n + 1;
    }
  }

  lemma NextAdvances(s: string, i: nat)
    requires i < |s|
    ensures Wraps(s, i) || ReadPair(s, i).next > i
  {
    hide Find;
  }

  lemma {:induction false} CoveredEnds(t: string, i: nat, m: Params)
    requires i <= |t| && Covered(t) && (i == 0 || i == |t| || t[i - 1] == '&')
    ensures ReadParams(t, i, m, false).Some?
    decreases |t| - i
  {
    hide Find;
    if i < |t| {
      var p := ReadPair(t, i);
      if i > 0 {
        var y := Find(t, {'='}, i - 1);
        assert y >= i && t[y] == '=';
      } else if Find(t, {'='}, 0) == NPOS {
        NoSeparator(t);
      }
      CoveredEnds(t, p.next, m[p.name := p.value]);
    }
  }

  lemma NoSeparator(t: string)
    requires Covered(t) && Find(t, {'='}, 0) == NPOS
    ensures Find(t, {'&'}, 0) == NPOS
  {
    forall x | 0 <= x < |t| ensures t[x] != '&' {
      FoundNowhere(t, {'='}, x);
    }
  }

  lemma {:induction false} UncoveredCircles(t: string, x: nat, i: nat, m: Params, wrapped: bool)
    requires x + 1 < |t| && t[x] == '&' && Find(t, {'='}, x) == NPOS && i <= x + 1
    ensures ReadParams(t, i, m, wrapped).None?
    decreases !wrapped, |t| - i
  {
    hide Find;
    var e := Find(t, {'='}, i);
    var p := ReadPair(t, i);
    assert p.next <= x + 1;
    NextAdvances(t, i);
    if !(Wraps(t, i) && wrapped) {
      UncoveredCircles(t, x, p.next, m[p.name := p.value], wrapped || Wraps(t, i));
    }
  }

  /** Reading a body as parameters ends exactly when every '&' has an '=' somewhere behind it. */
  lemma BodyEnds(body: string)
    ensures ReadParams(body + "\n", 0, map[], false).Some? <==> Covered(body + "\n")
  {
    var t := body + "\n";
    if Covered(t) {
      CoveredEnds(t, 0, map[]);
    } else {
      var x :| 0 <= x < |t| && t[x] == '&' && Find(t, {'='}, x) == NPOS;
      assert t[|t| - 1] == '\n';
      UncoveredCircles(t, x, 0, map[], false);
    }
  }

  /** A parameter without a value behind one with a value is such a body. */
  lemma FlagParameter(n: nat)
    ensures ReadParams("a=1&b" + "\n", 0, map[], false) == None && Rounds("a=1&b" + "\n", 0, n) < 6
  {
    hide ReadParams, Rounds, Find;
    var t := "a=1&b" + "\n";
    FoundNowhere(t, {'='}, 3);
    assert t[3] == '&' && !Covered(t);
    BodyEnds("a=1&b");
    NeverEnds(t, 0, map[], n);
  }
}
