/** The HTTP/1.x recogniser: the request line and the status line of
    sections 3 and 4 of RFC 9112, and the Host header field.  The payload is
    read as text, the text before the first CRLF is split into
    whitespace-separated tokens, and the first token decides between a
    request (one of seven methods) and a response (a version "HTTP/..."). */
module Http {
  import opened Wrappers
  import opened Bytes
  import opened Text
  import opened PacketData

  /** The seven request methods recognised, compared case-sensitively. */
  predicate IsMethod(t: string)
  {
    t == "GET" || t == "POST" || t == "PUT" || t == "DELETE" || t == "HEAD" || t == "OPTIONS" || t == "PATCH"
  }

  const HostField: string := "Host: "
  const CrLf: string := "\r\n"

  datatype HttpResult = HttpResult(ok: bool, app: ApplicationLayer)

  /** The end of the word starting at i: the next whitespace or the end. */
  method WordFrom(line: string, i: nat) returns (j: nat)
    requires i < |line| && !IsSpace(line[i])
    ensures i < j <= |line| && (j == |line| || IsSpace(line[j]))
    ensures forall k :: i <= k < j ==> !IsSpace(line[k])
  {
    j := i + 1;
    while j < |line| && !IsSpace(line[j])
      invariant i < j <= |line|
      invariant forall k :: i <= k < j ==> !IsSpace(line[k])
    {
      j := j + 1;
    }
  }

  /** `split_line`: the tokens a string stream yields, read one by one. */
  method SplitLine(line: string) returns (parts: seq<string>)
    ensures parts == Tokens(line)
  {
    parts := [];
    var i := 0;
    while i < |line|
      invariant i <= |line|
      invariant parts + Tokens(line[i..]) == Tokens(line)
    {
      if IsSpace(line[i]) {
        TokensSkipSpace(line, i);
        i := i + 1;
      } else {
        var j := WordFrom(line, i);
        TokensWordAt(line, i, j);
        assert parts + [line[i..j]] + Tokens(line[j..]) == parts + ([line[i..j]] + Tokens(line[j..]));
        parts := parts + [line[i..j]];
        i := j;
      }
    }
    assert line[i..] == [];
  }

  /** The text before the first CRLF, when there is one. */
  function FirstLine(s: string): (r: Option<string>)
    ensures r.None? <==> !Contains(s, CrLf)
    ensures r.Some? ==> StartsWith(s, r.value + CrLf) && !Contains(r.value, CrLf)
  {
    match Find(s, CrLf)
    case None => None
    case Some(e) =>
      assert s[..e] + CrLf == s[..e + 2];
      BeforeFirstFree(s, CrLf, e);
      Some(s[..e])
  }

  /** A line free of carriage returns, then CRLF, is the first line. */
  lemma FirstLineOf(line: string, rest: string)
    requires '\r' !in line
    ensures FirstLine(line + CrLf + rest) == Some(line)
  {
    FindLineEnd(line, rest);
    assert (line + CrLf + rest)[..|line|] == line;
  }

  /** The first CRLF at or after a "Host: " lies past the field name. */
  lemma HostEndAfterName(s: string, hs: nat, he: nat)
    requires OccursAt(s, HostField, hs) && FindFrom(s, CrLf, hs) == Some(he)
    ensures hs + 6 <= he
  {
    forall j | hs <= j < hs + 6
      ensures !OccursAt(s, CrLf, j)
    {
      assert s[j] == s[hs..hs + 6][j - hs];
      if j + 2 <= |s| {
        assert s[j..j + 2][0] == s[j];
      }
    }
  }

  /** The Host header value: from the first "Host: " up to the next CRLF,
      or the prior value when either is missing. */
  function Host(s: string, prior: string): (h: string)
    ensures h != prior ==> Contains(s, HostField) && Contains(s, CrLf)
  {
    match Find(s, HostField)
    case None => prior
    case Some(hs) =>
      match FindFrom(s, CrLf, hs)
      case None => prior
      case Some(he) =>
        HostEndAfterName(s, hs, he);
        s[hs + 6..he]
  }

  /** `std::stoi` of the status token, 0 where it throws. */
  function StatusCode(t: string): (code: int)
    ensures Stoi(t).Some? ==> code == Stoi(t).value
    ensures Stoi(t).None? ==> code == 0
  {
    match Stoi(t)
    case None => 0
    case Some(v) => v
  }

  /** The fields a successful parse may write; everything else stays. */
  predicate OnlyHttpFieldsChanged(a: ApplicationLayer, b: ApplicationLayer)
  {
    b == a.(protocol := b.protocol, info := b.info, httpMethod := b.httpMethod,
            httpHost := b.httpHost, httpPath := b.httpPath, httpVersion := b.httpVersion,
            isHttpRequest := b.isHttpRequest, isHttpResponse := b.isHttpResponse,
            httpStatusCode := b.httpStatusCode)
  }

  /** What a request line writes: the method, target and version tokens,
      the Host header value and the summary "method host target". */
  function Request(s: string, parts: seq<string>, app: ApplicationLayer): (a: ApplicationLayer)
    requires |parts| >= 3
    ensures OnlyHttpFieldsChanged(app, a) && a.protocol == "HTTP"
    ensures a.isHttpRequest && a.isHttpResponse == app.isHttpResponse
    ensures a.httpMethod == parts[0] && a.httpPath == parts[1] && a.httpVersion == parts[2]
    ensures a.httpHost == Host(s, app.httpHost) && a.httpStatusCode == app.httpStatusCode
    ensures a.info == parts[0] + " " + a.httpHost + parts[1]
  {
    var host := Host(s, app.httpHost);
    app.(isHttpRequest := true, protocol := "HTTP", httpMethod := parts[0], httpPath := parts[1],
         httpVersion := parts[2], httpHost := host, info := parts[0] + " " + host + parts[1])
  }

  /** What a status line writes: the version, the numeric code (0 when it
      does not parse) and the summary "Response code reason". */
  function Response(parts: seq<string>, app: ApplicationLayer): (a: ApplicationLayer)
    requires |parts| >= 2
    ensures OnlyHttpFieldsChanged(app, a) && a.protocol == "HTTP"
    ensures a.isHttpResponse && a.isHttpRequest == app.isHttpRequest
    ensures a.httpVersion == parts[0] && a.httpStatusCode == StatusCode(parts[1])
    ensures a.httpMethod == app.httpMethod && a.httpPath == app.httpPath && a.httpHost == app.httpHost
    ensures a.info == "Response " + SignedDecimal(a.httpStatusCode) + " " + Spaced(parts[2..])
  {
    var code := StatusCode(parts[1]);
    app.(isHttpResponse := true, protocol := "HTTP", httpVersion := parts[0], httpStatusCode := code,
         info := "Response " + SignedDecimal(code) + " " + Spaced(parts[2..]))
  }

  /** The tokens of a first line that make it a request. */
  predicate IsRequest(parts: seq<string>)
  {
    |parts| >= 3 && IsMethod(parts[0])
  }

  /** The tokens of a first line that make it a response. */
  predicate IsResponse(parts: seq<string>)
  {
    |parts| >= 2 && !IsMethod(parts[0]) && StartsWith(parts[0], "HTTP/")
  }

  /** `HTTPParser::parse` on the payload read as text. */
  function DecodeText(s: string, app: ApplicationLayer): (r: HttpResult)
    ensures !r.ok ==> r.app == app
    ensures r.ok ==> |s| >= 10 && FirstLine(s).Some? && r.app.protocol == "HTTP"
    ensures r.ok ==> OnlyHttpFieldsChanged(app, r.app)
  {
    if |s| < 10 then HttpResult(false, app)
    else match FirstLine(s)
    case None => HttpResult(false, app)
    case Some(line) =>
      var parts := Tokens(line);
      if parts == [] then HttpResult(false, app)
      else if IsMethod(parts[0]) then
        if |parts| < 3 then HttpResult(false, app)
        else HttpResult(true, Request(s, parts, app))
      else if StartsWith(parts[0], "HTTP/") then
        if |parts| < 2 then HttpResult(false, app)
        else HttpResult(true, Response(parts, app))
      else HttpResult(false, app)
  }

  /** A text is accepted exactly when it is long enough, has a first line,
      and that line's tokens form a request or a response. */
  lemma Acceptance(s: string, app: ApplicationLayer)
    ensures DecodeText(s, app).ok <==>
      |s| >= 10 && FirstLine(s).Some?
      && (IsRequest(Tokens(FirstLine(s).value)) || IsResponse(Tokens(FirstLine(s).value)))
  {
  }

  /** A request line makes the request fields be written. */
  lemma DecodesAsRequest(s: string, line: string, app: ApplicationLayer)
    requires |s| >= 10 && FirstLine(s) == Some(line) && IsRequest(Tokens(line))
    ensures DecodeText(s, app) == HttpResult(true, Request(s, Tokens(line), app))
  {
  }

  /** A status line makes the response fields be written. */
  lemma DecodesAsResponse(s: string, line: string, app: ApplicationLayer)
    requires |s| >= 10 && FirstLine(s) == Some(line) && IsResponse(Tokens(line))
    ensures DecodeText(s, app) == HttpResult(true, Response(Tokens(line), app))
  {
  }

  /** `HTTPParser::parse`: the payload bytes become a string, one byte per character. */
  function Decode(payload: seq<byte>, app: ApplicationLayer): (r: HttpResult)
    ensures |payload| < 10 ==> r == HttpResult(false, app)
    ensures !r.ok ==> r.app == app
    ensures r.ok ==> r.app.protocol == "HTTP" && OnlyHttpFieldsChanged(app, r.app)
  {
    DecodeText(Chars(payload), app)
  }

  /** The reason phrase: every token after the code, each with a space behind it. */
  method StatusMessage(parts: seq<string>) returns (message: string)
    requires |parts| >= 2
    ensures message == Spaced(parts[2..])
  {
    message := "";
    var i := 2;
    while i < |parts|
      invariant 2 <= i <= |parts|
      invariant message == Spaced(parts[2..i])
    {
      SpacedSnoc(parts[2..i], parts[i]);
      assert parts[2..i + 1] == parts[2..i] + [parts[i]];
      message := message + parts[i] + " ";
      i := i + 1;
    }
    assert parts[2..i] == parts[2..];
  }

  /** The request branch of `HTTPParser::parse`: the fields, then the Host
      header search, then the summary. */
  method ParseRequest(s: string, parts: seq<string>, app0: ApplicationLayer) returns (app: ApplicationLayer)
    requires |parts| >= 3
    ensures app == Request(s, parts, app0)
  {
    app := app0.(isHttpRequest := true, protocol := "HTTP", httpMethod := parts[0],
                 httpPath := parts[1], httpVersion := parts[2]);
    var hostStart := Find(s, HostField);
    if hostStart.Some? {
      var hostEnd := FindFrom(s, CrLf, hostStart.value);
      if hostEnd.Some? {
        HostEndAfterName(s, hostStart.value, hostEnd.value);
        app := app.(httpHost := s[hostStart.value + 6..hostEnd.value]);
      }
    }
    app := app.(info := app.httpMethod + " " + app.httpHost + app.httpPath);
  }

  /** The response branch of `HTTPParser::parse`: version, code, reason loop, summary. */
  method ParseResponse(parts: seq<string>, app0: ApplicationLayer) returns (app: ApplicationLayer)
    requires |parts| >= 2
    ensures app == Response(parts, app0)
  {
    app := app0.(isHttpResponse := true, protocol := "HTTP", httpVersion := parts[0]);
    var code := Stoi(parts[1]);
    if code.Some? {
      app := app.(httpStatusCode := code.value);
    } else {
      app := app.(httpStatusCode := 0);
    }
    var message := StatusMessage(parts);
    app := app.(info := "Response " + SignedDecimal(app.httpStatusCode) + " " + message);
  }

  /** `HTTPParser::parse` step by step, writing the fields into app. */
  method Parse(app0: ApplicationLayer, payload: seq<byte>) returns (ok: bool, app: ApplicationLayer)
    ensures HttpResult(ok, app) == Decode(payload, app0)
  {
    app := app0;
    if |payload| < 10 {
      return false, app;
    }
    var s := Chars(payload);
    var lineEnd := Find(s, CrLf);
    if lineEnd.None? {
      return false, app;
    }
    var line := s[..lineEnd.value];
    assert FirstLine(s) == Some(line);
    var parts := SplitLine(line);
    if |parts| == 0 {
      return false, app;
    }
    if IsMethod(parts[0]) {
      if |parts| < 3 {
        return false, app;
      }
      app := ParseRequest(s, parts, app);
      return true, app;
    }
    if StartsWith(parts[0], "HTTP/") {
      if |parts| < 2 {
        return false, app;
      }
      app := ParseResponse(parts, app);
      return true, app;
    }
    return false, app;
  }

  // ---------------------------------------------------------------- round trips

  /** No method is spelt with a colon or begins like a version. */
  lemma MethodsShape(m: string)
    requires IsMethod(m)
    ensures ':' !in m && !StartsWith(m, "HTTP/") && IsWord(m)
  {
    assert |m| < 5 || m[0] != 'H';
    assert "HTTP/"[0] == 'H';
  }

  /** The line a client sends: a method, a target and a version. */
  function RequestLine(m: string, path: string, version: string): string
  {
    Spaced([m, path]) + version
  }

  /** A request line decodes to its method, target and version, whatever follows it. */
  lemma RequestRoundTrip(m: string, path: string, version: string, rest: string, app: ApplicationLayer)
    requires IsMethod(m) && IsWord(path) && IsWord(version)
    requires |RequestLine(m, path, version) + CrLf + rest| >= 10
    ensures var s := RequestLine(m, path, version) + CrLf + rest;
      var r := DecodeText(s, app);
      r.ok && r.app.isHttpRequest && r.app.httpMethod == m && r.app.httpPath == path
      && r.app.httpVersion == version && r.app.httpHost == Host(s, app.httpHost)
      && r.app.info == m + " " + r.app.httpHost + path
  {
    var line := RequestLine(m, path, version);
    var s := line + CrLf + rest;
    MethodsShape(m);
    TokensSpacedThen([m, path], version);
    TokensOfWord(version);
    SpacedNoCr([m, path]);
    assert IsSpace('\r');
    assert '\r' !in line;
    FirstLineOf(line, rest);
    assert [m, path] + [version] == [m, path, version];
    DecodesAsRequest(s, line, app);
  }

  /** A Host header whose name is the first "Host: " in the text is read
      up to its CRLF; a text before it without a colon cannot hold one. */
  lemma HostHeader(pre: string, h: string, post: string, prior: string)
    requires ':' !in pre && '\r' !in h
    ensures Host(pre + HostField + h + CrLf + post, prior) == h
  {
    var s := pre + HostField + h + CrLf + post;
    assert s == pre + HostField + (h + CrLf + post);
    FieldFirstAt(pre, h + CrLf + post);
    ValueEnd(pre, h, post);
    assert s[|pre| + 6..|pre| + 6 + |h|] == h;
  }

  /** With no colon before it, the field name occurs first where it is placed. */
  lemma FieldFirstAt(pre: string, tail: string)
    requires ':' !in pre
    ensures Find(pre + HostField + tail, HostField) == Some(|pre|)
  {
    var s := pre + HostField + tail;
    var p := |pre|;
    forall j | 0 <= j < p
      ensures !OccursAt(s, HostField, j)
    {
      if j + 6 <= |s| {
        assert s[j..j + 6][4] == s[j + 4];
        if j + 4 < p {
          assert s[j + 4] == pre[j + 4];
        } else {
          assert s[j + 4] == HostField[j + 4 - p];
        }
      }
    }
    assert s[p..p + 6] == HostField;
    FindFirst(s, HostField, 0, p);
  }

  /** The CRLF behind a value free of carriage returns ends the header line. */
  lemma ValueEnd(pre: string, h: string, post: string)
    requires '\r' !in h
    ensures FindFrom(pre + HostField + h + CrLf + post, CrLf, |pre|) == Some(|pre| + 6 + |h|)
  {
    var s := pre + HostField + h + CrLf + post;
    var p := |pre|;
    var e := p + 6 + |h|;
    forall j | p <= j < e
      ensures !OccursAt(s, CrLf, j)
    {
      if j + 2 <= |s| {
        assert s[j..j + 2][0] == s[j];
        if j < p + 6 {
          assert s[j] == HostField[j - p];
        } else {
          assert s[j] == h[j - p - 6];
        }
      }
    }
    assert s[e..e + 2] == CrLf;
    FindFirst(s, CrLf, p, e);
  }

  /** A status line with a numeric code decodes to its version and code, and
      its reason words come back each followed by one space. */
  lemma ResponseRoundTrip(version: string, code: nat, reason: seq<string>, rest: string, app: ApplicationLayer)
    requires IsWord(version) && StartsWith(version, "HTTP/") && code < 0x8000_0000
    requires forall k :: 0 <= k < |reason| ==> IsWord(reason[k])
    ensures var r := DecodeText(Spaced([version, Decimal(code)] + reason) + CrLf + rest, app);
      r.ok && r.app.isHttpResponse && r.app.httpVersion == version
      && r.app.httpStatusCode == code
      && r.app.info == "Response " + Decimal(code) + " " + Spaced(reason)
  {
    var words := [version, Decimal(code)] + reason;
    var line := Spaced(words);
    var s := line + CrLf + rest;
    StatusLineShape(version, code, reason);
    FirstLineOf(line, rest);
    assert |s| >= 10;
    assert !IsMethod(version) by {
      if IsMethod(version) {
        MethodsShape(version);
      }
    }
    assert IsResponse(words);
    DecodesAsResponse(s, line, app);
    ResponseFields(version, code, reason, app);
  }

  /** The fields a status line with a numeric code writes. */
  lemma ResponseFields(version: string, code: nat, reason: seq<string>, app: ApplicationLayer)
    requires code < 0x8000_0000
    ensures var a := Response([version, Decimal(code)] + reason, app);
      a.httpVersion == version && a.httpStatusCode == code
      && a.info == "Response " + Decimal(code) + " " + Spaced(reason)
  {
    var words := [version, Decimal(code)] + reason;
    StoiDecimal(code);
    assert words[1] == Decimal(code);
    assert words[2..] == reason;
  }

  /** A status line's tokens are its words, it holds no carriage return and
      it is at least eight characters long. */
  lemma StatusLineShape(version: string, code: nat, reason: seq<string>)
    requires IsWord(version) && StartsWith(version, "HTTP/")
    requires forall k :: 0 <= k < |reason| ==> IsWord(reason[k])
    ensures var line := Spaced([version, Decimal(code)] + reason);
      Tokens(line) == [version, Decimal(code)] + reason && '\r' !in line && |line| >= 8
  {
    var words := [version, Decimal(code)] + reason;
    var line := Spaced(words);
    assert IsWord(Decimal(code)) by {
      assert forall c :: c in Decimal(code) ==> IsDigit(c);
    }
    assert forall k :: 0 <= k < |words| ==> IsWord(words[k]);
    TokensSpacedThen(words, "");
    assert line + "" == line;
    SpacedNoCr(words);
    assert words[1..] == [Decimal(code)] + reason;
    assert ([Decimal(code)] + reason)[0] == Decimal(code);
    assert |version| >= 5;
  }
}
