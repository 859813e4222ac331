/** Parsing and printing of one HTTP request. A string stream is its text, a position and the
    end-of-file flag that a read past the last character sets. */
module HttpRequest {
  import opened Collections
  import opened Strings

  type Params = map<string, string>

  datatype Kind = Get | Post | Head | Error

  datatype Request = Request(kind: Kind, url: string, urlParams: Params, version: string, headers: Params, body: string,
                             bodyParams: Params)

  // ---------------------------------------------------------------- parameters

  /** One round of the parameter loop: a name up to the next '=', a value up to the next '&'. Without
      an '=' the value is searched for from the beginning of the text. */
  datatype Pair = Pair(name: string, value: string, next: nat)

  function ReadPair(s: string, i: nat): (p: Pair)
    requires i < |s|
    ensures p.next <= |s|
  {
    var e := Find(s, {'='}, i);
    var j := if e == NPOS then 0 else e + 1;
    var a := Find(s, {'&'}, j);
    Pair(if e == NPOS then s[i..] else s[i..e], if a == NPOS then s[j..] else s[j..a], if a == NPOS then |s| else a + 1)
  }

  /** A round without an '=' that does not reach the end of the text leads behind the first '&'. */
  predicate Wraps(s: string, i: nat)
    requires i < |s|
  {
    Find(s, {'='}, i) == NPOS && ReadPair(s, i).next < |s|
  }

  /** The parameters from position i on. The second round that wraps comes back to where the first one
      led, and the loop does not end: None. */
  function ReadParams(s: string, i: nat, m: Params, wrapped: bool): Option<Params>
    decreases !wrapped, |s| - i
  {
    if i >= |s| then Some(m)
    else
      var p := ReadPair(s, i);
      var n := m[p.name := p.value];
      if Wraps(s, i) then (if wrapped then None else ReadParams(s, p.next, n, true)) else ReadParams(s, p.next, n, wrapped)
  }

  /** The address in front of the first '?', and the parameters behind it. */
  function Address(s: string): string { var q := Find(s, {'?'}, 0); if q == NPOS then s else s[..q] }

  function AddressParams(s: string): Option<Params>
  {
    var q := Find(s, {'?'}, 0); if q == NPOS then Some(map[]) else ReadParams(s, q + 1, map[], false)
  }

  // ---------------------------------------------------------------- reading from the stream

  datatype Read = Read(text: string, pos: nat, eof: bool)

  /** getline: up to the next line end, or to the end of the stream. */
  function GetLine(s: string, pos: nat): (r: Read)
    requires pos <= |s|
    ensures pos <= r.pos <= |s| && (!r.eof ==> pos < r.pos)
  {
    var e := Find(s, {'\n'}, pos);
    if e == NPOS then Read(s[pos..], |s|, true) else Read(s[pos..e], e + 1, false)
  }

  /** First position at or after p that is white space, or the end. */
  function WordEnd(s: string, p: nat): (e: nat)
    requires p <= |s|
    ensures p <= e <= |s| && (e < |s| ==> IsSpace(s[e])) && (forall k | p <= k < e :: !IsSpace(s[k]))
    decreases |s| - p
  {
    if p < |s| && !IsSpace(s[p]) then WordEnd(s, p + 1) else p
  }

  /** Formatted extraction of a string: past white space, then up to the next white space. */
  function NextWord(s: string, p: nat): (r: Read)
    requires p <= |s|
    ensures r.pos <= |s|
  {
    var b := Front(s, p); var e := WordEnd(s, b); Read(s[b..e], e, e == |s|)
  }

  function LowerChar(c: char): char { if 'A' <= c <= 'Z' then (c as int + 32) as char else c }

  function Lower(s: string): (t: string) { seq(|s|, i requires 0 <= i < |s| => LowerChar(s[i])) }

  function KindOf(token: string): Kind
  {
    if token == "GET" then Get else if token == "POST" then Post else if token == "HEAD" then Head else Error
  }

  const HTTP: string := "HTTP/"

  predicate IsVersion(v: string) { |v| >= 5 && v[..5] == HTTP }

  /** The headers read, and where the body starts if there is one. */
  datatype Headers = Headers(fields: Params, bodyAt: Option<nat>)

  function ReadHeaders(s: string, pos: nat, eof: bool, hs: Params): (r: Headers)
    requires pos <= |s|
    ensures r.bodyAt.Some? ==> r.bodyAt.value <= |s|
    decreases |s| - pos, !eof
  {
    if eof then Headers(hs, None)
    else
      var line := GetLine(s, pos);
      if AllSpace(line.text) then Headers(hs, if line.eof then None else Some(line.pos))
      else
        var c := Find(line.text, {':'}, 0);
        if c == NPOS then Headers(hs, None)
        else ReadHeaders(s, line.pos, line.eof, hs[Lower(Trim(line.text[..c])) := Trim(line.text[c + 1..])])
  }

  /** The body: every line with a line end, also the last one. */
  function ReadBody(s: string, pos: nat): string
    requires pos <= |s|
    decreases |s| - pos
  {
    var line := GetLine(s, pos);
    line.text + "\n" + if line.eof then "" else ReadBody(s, line.pos)
  }

  function BodyOf(s: string, h: Headers): string
    requires h.bodyAt.Some? ==> h.bodyAt.value <= |s|
  {
    if h.bodyAt.Some? then ReadBody(s, h.bodyAt.value) else ""
  }

  /** The parameters are read last, and only for a request without error. */
  function Finish(kind: Kind, fullUrl: string, version: string, headers: Params, body: string): Option<Request>
  {
    if kind == Error then Some(Request(Error, "", map[], version, headers, body, map[]))
    else
      match (AddressParams(fullUrl), ReadParams(body, 0, map[], false))
      case (Some(u), Some(b)) => Some(Request(kind, Address(fullUrl), u, version, headers, body, b))
      case _ => None
  }

  /** The request in a text; None when reading its parameters does not end. A start line that the
      stream ends in is not read beyond the method, and a wrong version does not stop the headers from
      being read. */
  function Parse(s: string): Option<Request>
  {
    var line := GetLine(s, 0);
    var token := NextWord(line.text, 0);
    var kind := KindOf(token.text);
    if kind == Error then Some(Request(Error, "", map[], "", map[], "", map[]))
    else if line.eof then Finish(kind, "", "", map[], "")
    else
      var url := NextWord(line.text, token.pos);
      var version := NextWord(line.text, url.pos);
      var h := ReadHeaders(s, line.pos, false, map[]);
      Finish(if IsVersion(version.text) then kind else Error, url.text, version.text, h.fields, BodyOf(s, h))
  }

  // ---------------------------------------------------------------- printing

  function KindText(k: Kind): string
  {
    match k
    case Get => "GET"
    case Post => "POST"
    case Head => "HEAD"
    case Error => ""
  }

  /** The keys of a map in the order in which it is walked. */
  predicate Walks(keys: seq<string>, m: Params)
  {
    (forall i, j | 0 <= i < j < |keys| :: keys[i] != keys[j]) && (set k | k in keys) == m.Keys
  }

  predicate Within(keys: seq<string>, m: Params) { forall k | k in keys :: k in m }

  function PrintParams(keys: seq<string>, m: Params): string
    requires Within(keys, m)
  {
    if keys == [] then "" else keys[0] + "=" + m[keys[0]] + "&" + PrintParams(keys[1..], m)
  }

  function PrintHeaders(keys: seq<string>, m: Params): string
    requires Within(keys, m)
  {
    if keys == [] then "" else keys[0] + ": " + m[keys[0]] + "\n" + PrintHeaders(keys[1..], m)
  }

  function PrintUrl(r: Request, ps: seq<string>): string
    requires Within(ps, r.urlParams)
  {
    if ps == [] then r.url
    else var t := r.url + "?" + PrintParams(ps, r.urlParams); t[..|t| - 1]
  }

  /** The text of a request, with its parameters in the order ps and its headers in the order hs. */
  function ToHttp(r: Request, ps: seq<string>, hs: seq<string>): string
    requires Within(ps, r.urlParams) && Within(hs, r.headers)
  {
    KindText(r.kind) + " " + PrintUrl(r, ps) + " " + r.version + "\n" + PrintHeaders(hs, r.headers) + "\n" + r.body
  }

  // ---------------------------------------------------------------- the code

  /** The parameter loop. The code keeps no record of a round that wraps; here it shows that the loop
      does not end. */
  method ParseParams(s: string, start: nat) returns (r: Option<Params>)
    ensures r == ReadParams(s, start, map[], false)
  {
    hide Find;
    var params: Params := map[];
    var i := start;
    var wrapped := false;
    while i < |s|
      invariant 0 <= i && ReadParams(s, i, params, wrapped) == ReadParams(s, start, map[], false)
      decreases !wrapped, |s| - i
    {
      var pst := Find(s, {'='}, i);
      var name := if pst == NPOS then s[i..] else s[i..pst];
      var from := pst + 1;
      pst := Find(s, {'&'}, from);
      var value := if pst == NPOS then s[from..] else s[from..pst];
      var next := if pst != NPOS then pst + 1 else |s|;
      assert ReadPair(s, i) == Pair(name, value, next);
      if from == 0 && next < |s| {
        if wrapped {
          return None;
        }
        wrapped := true;
      }
      params := params[name := value];
      i := next;
    }
    r := Some(params);
  }

  datatype State = StartLine | StartLineInfo | Header | Body | Failed | End

  /** The body still to come. */
  function BodyLeft(s: string, pos: nat, eof: bool): string
    requires pos <= |s|
  {
    if eof then "" else ReadBody(s, pos)
  }

  lemma BodyRound(s: string, pos: nat, body: string)
    requires pos <= |s|
    ensures var line := GetLine(s, pos);
            body + BodyLeft(s, pos, false) == (body + (line.text + "\n")) + BodyLeft(s, line.pos, line.eof)
  {
    hide GetLine;
    var line := GetLine(s, pos);
    assert BodyLeft(s, pos, false) == (line.text + "\n") + BodyLeft(s, line.pos, line.eof);
  }

  /** The loop over the lines of the body. */
  method CollectBody(s: string, start: nat) returns (body: string)
    requires start <= |s|
    ensures body == ReadBody(s, start)
  {
    hide ReadBody, GetLine;
    body := "";
    var pos, eof := start, false;
    while !eof
      invariant 0 <= pos <= |s| && ReadBody(s, start) == body + BodyLeft(s, pos, eof)
      decreases |s| - pos, !eof
    {
      BodyRound(s, pos, body);
      var line := GetLine(s, pos);
      body := body + (line.text + "\n");
      pos, eof := line.pos, line.eof;
    }
  }

  method LowerCase(s: string) returns (t: string)
    ensures t == Lower(s)
  {
    t := "";
    for i := 0 to |s|
      invariant t == Lower(s)[..i]
    {
      t := t + [LowerChar(s[i])];
    }
  }

  /** The end of the constructor. */
  method FinishRequest(kind: Kind, fullUrl: string, version: string, headers: Params, body: string)
    returns (r: Option<Request>)
    ensures r == Finish(kind, fullUrl, version, headers, body)
  {
    hide Find, ReadParams;
    if kind == Error {
      return Some(Request(Error, "", map[], version, headers, body, map[]));
    }
    var q := Find(fullUrl, {'?'}, 0);
    var url := if q == NPOS then fullUrl else fullUrl[..q];
    var urlParams := Some(map[]);
    if q != NPOS {
      urlParams := ParseParams(fullUrl, q + 1);
    }
    if urlParams.None? {
      return None;
    }
    var bodyParams := ParseParams(body, 0);
    if bodyParams.None? {
      return None;
    }
    r := Some(Request(kind, url, urlParams.value, version, headers, body, bodyParams.value));
  }

  /** One header line; refused without a colon. */
  method ReadField(text: string, headers: Params) returns (ok: bool, fields: Params)
    ensures ok == (Find(text, {':'}, 0) != NPOS)
    ensures fields == if ok then headers[Lower(Trim(text[..Find(text, {':'}, 0)])) := Trim(text[Find(text, {':'}, 0) + 1..])]
                      else headers
  {
    hide Find, Lower, Trim;
    var c := Find(text, {':'}, 0);
    ok, fields := c != NPOS, headers;
    if ok {
      var trimmed := TrimLoops(text[..c]);
      var name := LowerCase(trimmed);
      var value := TrimLoops(text[c + 1..]);
      fields := headers[name := value];
    }
  }

  lemma HeadersEnd(s: string, pos: nat, hs: Params)
    requires pos <= |s|
    ensures ReadHeaders(s, pos, true, hs) == Headers(hs, None)
  {
  }

  lemma HeaderStep(s: string, pos: nat, hs: Params)
    requires pos <= |s|
    ensures var line := GetLine(s, pos);
            ReadHeaders(s, pos, false, hs) ==
            if AllSpace(line.text) then Headers(hs, if line.eof then None else Some(line.pos))
            else if Find(line.text, {':'}, 0) == NPOS then Headers(hs, None)
            else var c := Find(line.text, {':'}, 0);
                 ReadHeaders(s, line.pos, line.eof, hs[Lower(Trim(line.text[..c])) := Trim(line.text[c + 1..])])
  {
    hide Find, Trim, Lower, AllSpace, GetLine;
  }

  /** What the machine is going to return from one of its states. */
  ghost function Outlook(s: string, state: State, pos: nat, eof: bool, kind: Kind, startLine: string, at: nat,
                         fullUrl: string, version: string, headers: Params, body: string): Option<Request>
    requires pos <= |s| && at <= |startLine|
  {
    match state
    case StartLine => Parse(s)
    case StartLineInfo =>
      if eof then Finish(kind, fullUrl, version, headers, body)
      else
        var u := NextWord(startLine, at);
        var v := NextWord(startLine, u.pos);
        var h := ReadHeaders(s, pos, false, headers);
        Finish(if IsVersion(v.text) then kind else Error, u.text, v.text, h.fields, BodyOf(s, h))
    case Header =>
      var h := ReadHeaders(s, pos, eof, headers);
      Finish(kind, fullUrl, version, h.fields, BodyOf(s, h))
    case Body => Finish(kind, fullUrl, version, headers, if eof then "" else ReadBody(s, pos))
    case _ => Finish(kind, fullUrl, version, headers, body)
  }

  lemma Started(s: string)
    ensures var line := GetLine(s, 0); var token := NextWord(line.text, 0); var kind := KindOf(token.text);
            Parse(s) == Outlook(s, if kind == Error then Failed else StartLineInfo, line.pos, line.eof, kind, line.text,
                                token.pos, "", "", map[], "")
  {
    hide GetLine, NextWord, ReadHeaders, ReadBody, IsVersion;
  }

  lemma BodyStarts(s: string, hs: Params, pos: nat, eof: bool)
    requires pos <= |s|
    ensures BodyOf(s, Headers(hs, if eof then None else Some(pos))) == if eof then "" else ReadBody(s, pos)
    ensures BodyOf(s, Headers(hs, None)) == ""
  {
  }

  lemma HeaderRound(s: string, pos: nat, kind: Kind, startLine: string, at: nat, fullUrl: string, version: string, hs: Params)
    requires pos <= |s| && at <= |startLine|
    ensures var line := GetLine(s, pos); var c := Find(line.text, {':'}, 0);
            Outlook(s, Header, pos, false, kind, startLine, at, fullUrl, version, hs, "") ==
            if AllSpace(line.text) then
              Outlook(s, Body, line.pos, line.eof, kind, startLine, at, fullUrl, version, hs, "")
            else if c == NPOS then
              Outlook(s, Failed, line.pos, line.eof, kind, startLine, at, fullUrl, version, hs, "")
            else
              Outlook(s, Header, line.pos, line.eof, kind, startLine, at, fullUrl, version,
                      hs[Lower(Trim(line.text[..c])) := Trim(line.text[c + 1..])], "")
  {
    hide Find, Trim, Lower, AllSpace, GetLine, ReadHeaders, ReadBody, Finish, Parse, BodyOf;
    HeaderStep(s, pos, hs);
    BodyStarts(s, hs, GetLine(s, pos).pos, GetLine(s, pos).eof);
  }

  lemma AtEnd(s: string, state: State, pos: nat, kind: Kind, startLine: string, at: nat, fullUrl: string, version: string,
              hs: Params, body: string)
    requires pos <= |s| && at <= |startLine| && state != StartLine && (state == Header || state == Body ==> body == "")
    ensures Outlook(s, state, pos, true, kind, startLine, at, fullUrl, version, hs, body)
         == Finish(kind, fullUrl, version, hs, body)
  {
    hide Finish, Parse;
    HeadersEnd(s, pos, hs);
  }

  /** The constructor from a text: one state of the machine per round. */
  method MakeRequest(s: string) returns (r: Option<Request>)
    ensures r == Parse(s)
  {
    hide ReadHeaders, ReadBody, GetLine, NextWord, Lower, Trim, Finish, IsVersion, AllSpace, Find, Parse, BodyOf, KindOf;
    var state := StartLine;
    var pos, eof := 0, false;
    var kind := Error;
    var startLine, at := "", 0;
    var fullUrl, version, body := "", "", "";
    var headers: Params := map[];
    while !eof && state != End && state != Failed
      invariant 0 <= pos <= |s| && 0 <= at <= |startLine| && (state != End ==> body == "")
      invariant state == StartLine ==> pos == 0 && !eof && fullUrl == "" && version == "" && headers == map[]
      invariant Parse(s) == Outlook(s, state, pos, eof, kind, startLine, at, fullUrl, version, headers, body)
      decreases |s| - pos, !eof, match state case StartLine => 3 case StartLineInfo => 2 case Header => 1 case Body => 1 case _ => 0
    {
      match state
      case StartLine =>
        Started(s);
        var line := GetLine(s, pos);
        startLine, pos, eof := line.text, line.pos, line.eof;
        var token := NextWord(startLine, 0);
        at := token.pos;
        kind := KindOf(token.text);
        state := if kind == Error then Failed else StartLineInfo;
      case StartLineInfo =>
        var u := NextWord(startLine, at);
        var v := NextWord(startLine, u.pos);
        fullUrl, version := u.text, v.text;
        if !IsVersion(version) {
          kind := Error;
        }
        state := Header;
      case Header =>
        HeaderRound(s, pos, kind, startLine, at, fullUrl, version, headers);
        var line := GetLine(s, pos);
        pos, eof := line.pos, line.eof;
        if AllSpace(line.text) {
          state := Body;
        } else {
          var ok, fields := ReadField(line.text, headers);
          headers := fields;
          if !ok {
            state := Failed;
          }
        }
      case Body =>
        body := CollectBody(s, pos);
        pos, eof := |s|, true;
        state := End;
    }
    if eof {
      AtEnd(s, state, pos, kind, startLine, at, fullUrl, version, headers, body);
    }
    r := FinishRequest(kind, fullUrl, version, headers, body);
  }

  /** The loop over the parameters. */
  method PrintQuery(res0: string, ps: seq<string>, m: Params) returns (res: string)
    requires Within(ps, m)
    ensures res == res0 + PrintParams(ps, m)
  {
    res := res0;
    assert ps[0..] == ps;
    for i := 0 to |ps|
      invariant Within(ps[i..], m)
      invariant res + PrintParams(ps[i..], m) == res0 + PrintParams(ps, m)
    {
      assert ps[i..][1..] == ps[i + 1..];
      var pair := ps[i] + "=" + m[ps[i]] + "&";
      assert res + PrintParams(ps[i..], m) == (res + pair) + PrintParams(ps[i + 1..], m);
      res := res + pair;
    }
  }

  /** The loop over the headers. */
  method PrintFields(res0: string, hs: seq<string>, m: Params) returns (res: string)
    requires Within(hs, m)
    ensures res == res0 + PrintHeaders(hs, m)
  {
    res := res0;
    assert hs[0..] == hs;
    for i := 0 to |hs|
      invariant Within(hs[i..], m)
      invariant res + PrintHeaders(hs[i..], m) == res0 + PrintHeaders(hs, m)
    {
      assert hs[i..][1..] == hs[i + 1..];
      var field := hs[i] + ": " + m[hs[i]] + "\n";
      assert res + PrintHeaders(hs[i..], m) == (res + field) + PrintHeaders(hs[i + 1..], m);
      res := res + field;
    }
  }

  lemma WalksWithin(keys: seq<string>, m: Params)
    requires Walks(keys, m)
    ensures Within(keys, m) && (keys == [] <==> m == map[])
  {
    assert forall k | k in keys :: k in (set x | x in keys);
    if keys == [] {
      assert m.Keys == {};
    } else {
      assert keys[0] in keys;
    }
  }

  /** to_http; the orders in which the maps are walked are given. */
  method PrintRequest(r: Request, ps: seq<string>, hs: seq<string>) returns (res: string)
    requires Walks(ps, r.urlParams) && Walks(hs, r.headers)
    ensures Within(ps, r.urlParams) && Within(hs, r.headers) && res == ToHttp(r, ps, hs)
  {
    hide PrintParams, PrintHeaders, Walks;
    WalksWithin(ps, r.urlParams);
    WalksWithin(hs, r.headers);
    var kind := KindText(r.kind);
    res := kind + " " + r.url;
    if r.urlParams != map[] {
      res := PrintQuery(res + "?", ps, r.urlParams);
      ghost var t := r.url + "?" + PrintParams(ps, r.urlParams);
      assert res == kind + " " + t;
      res := res[..|res| - 1];
      assert res == kind + " " + t[..|t| - 1];
    }
    res := PrintFields(res + " " + r.version + "\n", hs, r.headers);
    res := res + "\n" + r.body;
  }
}
