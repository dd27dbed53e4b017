/** Requests as text, and the proof that parsing undoes printing. */
module RequestText {
  import opened RequestParser

  function Digit(d: nat): char
    requires d < 10
  {
    ('0' as int + d) as char
  }

  function Dec(n: nat): string {
    if n < 10 then [Digit(n)] else Dec(n / 10) + [Digit(n % 10)]
  }

  function HeaderLine(h: Header): string {
    h.name + ": " + h.value + "\r\n"
  }

  function HeaderLines(headers: seq<Header>): string {
    if headers == [] then "" else HeaderLine(headers[0]) + HeaderLines(headers[1..])
  }

  /** A request as it is sent. */
  function Print(r: Request): string {
    r.verb + " " + (r.uri + " " + ("HTTP/" + (Dec(r.major) + "." + (Dec(r.minor) + "\r\n"
    + (HeaderLines(r.headers) + ("\r\n" + r.content))))))
  }

  function LowerCase(s: string): string {
    if s == [] then [] else [ToLower(s[0])] + LowerCase(s[1..])
  }

  function Lowered(headers: seq<Header>): seq<Header> {
    if headers == [] then [] else [Header(LowerCase(headers[0].name), headers[0].value)] + Lowered(headers[1..])
  }

  predicate AllToken(s: string) {
    forall i | 0 <= i < |s| :: IsToken(s[i])
  }

  predicate NoCtl(s: string) {
    forall i | 0 <= i < |s| :: !IsCtl(s[i])
  }

  predicate GoodHeader(h: Header) {
    h.name != [] && AllToken(h.name) && NoCtl(h.value)
  }

  predicate GoodHeaders(headers: seq<Header>) {
    forall i | 0 <= i < |headers| :: GoodHeader(headers[i])
  }

  /** Printable: a method and header names made of token characters, no blanks in the
      target, no control characters. */
  predicate Printable(r: Request) {
    r.verb != [] && AllToken(r.verb) && NoCtl(r.uri) && ' ' !in r.uri && GoodHeaders(r.headers)
  }

  /** And as much body as the headers declare. */
  predicate WellFormed(r: Request) {
    && Printable(r)
    && Declared(Lowered(r.headers)) <= MAX_BODY
    && |r.content| == if Declared(Lowered(r.headers)) > 0 then Declared(Lowered(r.headers)) else 0
  }

  // ----- Reading a piece ------------------------------------------------------------------

  ghost predicate Reads(g: Config, s: string, next: Config) {
    Inv(g) && Inv(next) && Run(g, s) == Outcome(next, More, |s|)
  }

  lemma {:induction false} ReadsNothing(g: Config)
    requires Inv(g)
    ensures Reads(g, [], g)
  {
    hide Inv;
  }

  lemma {:induction false} ReadsChar(g: Config, c: char)
    requires Inv(g) && Step(g, c).1 == More
    ensures Reads(g, [c], Step(g, c).0)
  {
    hide Step, Run;
    OneChar(g, c);
    StepInv(g, c);
  }

  lemma {:induction false} ReadsConcat(g: Config, a: string, mid: Config, b: string, next: Config)
    requires Reads(g, a, mid) && Reads(mid, b, next)
    ensures Reads(g, a + b, next)
  {
    hide Run, Inv;
    RunConcat(g, a, b);
  }

  /** A character and then the rest. */
  lemma {:induction false} ReadsCons(g: Config, s: string, next: Config)
    requires s != [] && Inv(g) && Step(g, s[0]).1 == More && Reads(Step(g, s[0]).0, s[1..], next)
    ensures Reads(g, s, next)
  {
    hide Step, Run, Reads;
    ReadsChar(g, s[0]);
    ReadsConcat(g, [s[0]], Step(g, s[0]).0, s[1..], next);
    assert [s[0]] + s[1..] == s;
  }

  // ----- The request line --------------------------------------------------------------------

  lemma {:induction false} ReadVerb(b: nat, r: Request, s: string)
    requires AllToken(s) && r.content == ""
    ensures Reads(Config(Method, b, r), s, Config(Method, b, r.(verb := r.verb + s)))
    decreases |s|
  {
    hide Run, Reads, IsChar, IsCtl, Declared;
    var g := Config(Method, b, r);
    if s == [] {
      ReadsNothing(g);
      assert r.verb + s == r.verb;
    } else {
      NotBlank(s[0]);
      var r' := r.(verb := r.verb + [s[0]]);
      ReadVerb(b, r', s[1..]);
      assert r.verb + [s[0]] + s[1..] == r.verb + s;
      ReadsCons(g, s, Config(Method, b, r.(verb := r.verb + s)));
    }
  }

  lemma {:induction false} NotBlank(c: char)
    requires IsToken(c)
    ensures c != ' ' && c != ':' && c != '\r' && c != '\t'
  {
    assert ' ' in "()<>@,;:\\\"/[]?={} \t" by {
      assert "()<>@,;:\\\"/[]?={} \t"[17] == ' ';
    }
    assert ':' in "()<>@,;:\\\"/[]?={} \t" by {
      assert "()<>@,;:\\\"/[]?={} \t"[7] == ':';
    }
  }

  lemma {:induction false} ReadUri(b: nat, r: Request, s: string)
    requires NoCtl(s) && ' ' !in s && r.content == ""
    ensures Reads(Config(Uri, b, r), s, Config(Uri, b, r.(uri := r.uri + s)))
    decreases |s|
  {
    hide Run, Reads, IsCtl, Declared;
    var g := Config(Uri, b, r);
    if s == [] {
      ReadsNothing(g);
      assert r.uri + s == r.uri;
    } else {
      var r' := r.(uri := r.uri + [s[0]]);
      ReadUri(b, r', s[1..]);
      assert r.uri + [s[0]] + s[1..] == r.uri + s;
      ReadsCons(g, s, Config(Uri, b, r.(uri := r.uri + s)));
    }
  }

  /** "HTTP/" */
  lemma {:induction false} ReadProtocol(b: nat, r: Request)
    requires r.content == ""
    ensures Reads(Config(VersionH, b, r), "HTTP/", Config(MajorStart, b, r.(major := 0, minor := 0)))
  {
    hide Run, Reads, Declared;
    var last := Config(MajorStart, b, r.(major := 0, minor := 0));
    ReadsChar(Config(VersionSlash, b, r), '/');
    assert "P/"[1..] == "/" && "TP/"[1..] == "P/";
    ReadsCons(Config(VersionP, b, r), "P/", last);
    ReadsCons(Config(VersionT2, b, r), "TP/", last);
    ReadHT(b, r);
    ReadsConcat(Config(VersionH, b, r), "HT", Config(VersionT2, b, r), "TP/", last);
    assert "HT" + "TP/" == "HTTP/";
  }

  lemma {:induction false} ReadHT(b: nat, r: Request)
    requires r.content == ""
    ensures Reads(Config(VersionH, b, r), "HT", Config(VersionT2, b, r))
  {
    hide Run, Reads, Declared;
    ReadsChar(Config(VersionT1, b, r), 'T');
    assert "HT"[1..] == "T";
    ReadsCons(Config(VersionH, b, r), "HT", Config(VersionT2, b, r));
  }

  lemma {:induction false} DigitRead(d: nat)
    requires d < 10
    ensures IsDigit(Digit(d)) && DigitValue(Digit(d)) == d && Digit(d) != '.' && Digit(d) != '\r'
  {
  }

  lemma {:induction false} ReadMajor(b: nat, r: Request, n: nat)
    requires r.major == 0 && r.content == ""
    ensures Reads(Config(MajorStart, b, r), Dec(n), Config(Major, b, r.(major := n)))
    decreases n
  {
    hide Run, Reads, Declared, IsDigit, Digit, DigitValue;
    DigitRead(n % 10);
    if n < 10 {
      ReadsChar(Config(MajorStart, b, r), Digit(n));
    } else {
      ReadMajor(b, r, n / 10);
      var mid := Config(Major, b, r.(major := n / 10));
      ReadsChar(mid, Digit(n % 10));
      ReadsConcat(Config(MajorStart, b, r), Dec(n / 10), mid, [Digit(n % 10)], Config(Major, b, r.(major := n)));
    }
  }

  lemma {:induction false} ReadMinor(b: nat, r: Request, n: nat)
    requires r.minor == 0 && r.content == ""
    ensures Reads(Config(MinorStart, b, r), Dec(n), Config(Minor, b, r.(minor := n)))
    decreases n
  {
    hide Run, Reads, Declared, IsDigit, Digit, DigitValue;
    DigitRead(n % 10);
    if n < 10 {
      ReadsChar(Config(MinorStart, b, r), Digit(n));
    } else {
      ReadMinor(b, r, n / 10);
      var mid := Config(Minor, b, r.(minor := n / 10));
      ReadsChar(mid, Digit(n % 10));
      ReadsConcat(Config(MinorStart, b, r), Dec(n / 10), mid, [Digit(n % 10)], Config(Minor, b, r.(minor := n)));
    }
  }

  // ----- Headers ---------------------------------------------------------------------------------

  lemma {:induction false} ReadName(b: nat, r: Request, hs: seq<Header>, name: string, s: string)
    requires AllToken(s) && r.content == "" && r.headers == hs + [Header(name, "")]
    ensures Reads(Config(Name, b, r), s, Config(Name, b, r.(headers := hs + [Header(name + LowerCase(s), "")])))
    decreases |s|
  {
    hide Run, Reads, IsChar, IsCtl, Declared, ToLower;
    var g := Config(Name, b, r);
    var last := Config(Name, b, r.(headers := hs + [Header(name + LowerCase(s), "")]));
    if s == [] {
      ReadsNothing(g);
      assert name + LowerCase(s) == name;
    } else {
      NotBlank(s[0]);
      var name' := name + [ToLower(s[0])];
      var r' := r.(headers := hs + [Header(name', "")]);
      assert AddToName(r.headers, ToLower(s[0])) == r'.headers;
      ReadName(b, r', hs, name', s[1..]);
      assert name' + LowerCase(s[1..]) == name + LowerCase(s);
      ReadsCons(g, s, last);
    }
  }

  lemma {:induction false} ReadValue(b: nat, r: Request, hs: seq<Header>, name: string, value: string, s: string)
    requires NoCtl(s) && r.content == "" && r.headers == hs + [Header(name, value)]
    ensures Reads(Config(Value, b, r), s, Config(Value, b, r.(headers := hs + [Header(name, value + s)])))
    decreases |s|
  {
    hide Run, Reads, Declared;
    var g := Config(Value, b, r);
    var last := Config(Value, b, r.(headers := hs + [Header(name, value + s)]));
    if s == [] {
      ReadsNothing(g);
      assert value + s == value;
    } else {
      var r' := r.(headers := hs + [Header(name, value + [s[0]])]);
      assert AddToValue(r.headers, s[0]) == r'.headers;
      ReadValue(b, r', hs, name, value + [s[0]], s[1..]);
      assert value + [s[0]] + s[1..] == value + s;
      ReadsCons(g, s, last);
    }
  }

  /** The name of a header, from the start of its line. */
  lemma {:induction false} ReadWholeName(b: nat, r: Request, name: string)
    requires name != [] && AllToken(name) && r.content == ""
    ensures Reads(Config(LineStart, b, r), name,
                  Config(Name, b, r.(headers := r.headers + [Header(LowerCase(name), "")])))
  {
    hide Run, Reads, IsChar, IsCtl, Declared, ToLower;
    NotBlank(name[0]);
    var first := [ToLower(name[0])];
    var r' := r.(headers := r.headers + [Header(first, "")]);
    ReadName(b, r', r.headers, first, name[1..]);
    assert first + LowerCase(name[1..]) == LowerCase(name);
    ReadsCons(Config(LineStart, b, r), name, Config(Name, b, r.(headers := r.headers + [Header(LowerCase(name), "")])));
  }

  lemma {:induction false} ReadColon(b: nat, r: Request)
    requires r.headers != [] && r.content == ""
    ensures Reads(Config(Name, b, r), ": ", Config(Value, b, r))
    ensures Reads(Config(Value, b, r), "\r\n", Config(LineStart, b, r))
  {
    hide Run, Reads, Declared;
    assert ": "[1..] == " " && "\r\n"[1..] == "\n";
    ReadsChar(Config(SpaceBefore, b, r), ' ');
    ReadsCons(Config(Name, b, r), ": ", Config(Value, b, r));
    ReadsChar(Config(Newline2, b, r), '\n');
    ReadsCons(Config(Value, b, r), "\r\n", Config(LineStart, b, r));
  }

  function WithHeader(r: Request, h: Header): Request {
    r.(headers := r.headers + [Header(LowerCase(h.name), h.value)])
  }

  lemma {:induction false} ReadHeader(b: nat, r: Request, h: Header)
    requires GoodHeader(h) && r.content == ""
    ensures Reads(Config(LineStart, b, r), HeaderLine(h), Config(LineStart, b, WithHeader(r, h)))
  {
    hide Run, Reads, Step, AllToken, NoCtl, LowerCase;
    var start := Config(LineStart, b, r);
    var named := r.(headers := r.headers + [Header(LowerCase(h.name), "")]);
    var full := WithHeader(r, h);
    ReadWholeName(b, r, h.name);
    ReadColon(b, named);
    ReadsConcat(start, h.name, Config(Name, b, named), ": ", Config(Value, b, named));
    ReadValue(b, named, r.headers, LowerCase(h.name), "", h.value);
    assert "" + h.value == h.value;
    ReadsConcat(start, h.name + ": ", Config(Value, b, named), h.value, Config(Value, b, full));
    ReadColon(b, full);
    ReadsConcat(start, h.name + ": " + h.value, Config(Value, b, full), "\r\n", Config(LineStart, b, full));
  }

  lemma {:induction false} AtLineStart(b: nat, r: Request)
    requires r.content == ""
    ensures Inv(Config(LineStart, b, r))
  {
    hide Declared;
  }

  lemma {:induction false} HeadersUnfold(r: Request, hs: seq<Header>)
    ensures hs == [] ==> HeaderLines(hs) == [] && r.headers + Lowered(hs) == r.headers
    ensures hs != [] ==>
              && HeaderLines(hs) == HeaderLine(hs[0]) + HeaderLines(hs[1..])
              && WithHeader(r, hs[0]).headers + Lowered(hs[1..]) == r.headers + Lowered(hs)
  {
    hide HeaderLine, LowerCase;
  }

  lemma {:induction false} ReadHeaders(b: nat, r: Request, hs: seq<Header>)
    requires GoodHeaders(hs) && r.content == ""
    ensures Reads(Config(LineStart, b, r), HeaderLines(hs),
            Config(LineStart, b, r.(headers := r.headers + Lowered(hs))))
    decreases |hs|
  {
    hide Run, Reads, Step, GoodHeader, HeaderLine, LowerCase, Inv, HeaderLines, Lowered;
    var start := Config(LineStart, b, r);
    HeadersUnfold(r, hs);
    if hs == [] {
      AtLineStart(b, r);
      ReadsNothing(start);
    } else {
      var r' := WithHeader(r, hs[0]);
      ReadHeader(b, r, hs[0]);
      ReadHeaders(b, r', hs[1..]);
      var next := r'.(headers := r'.headers + Lowered(hs[1..]));
      ReadsConcat(start, HeaderLine(hs[0]), Config(LineStart, b, r'), HeaderLines(hs[1..]), Config(LineStart, b, next));
    }
  }

  // ----- The end of a request ---------------------------------------------------------------------

  /** The body: the last of its bytes completes the request. */
  lemma {:induction false} ReadBody(r: Request, s: string)
    requires s != [] && |r.content| + |s| == Declared(r.headers) <= MAX_BODY
    ensures Inv(Config(Body, |s|, r))
    ensures Run(Config(Body, |s|, r), s) == Outcome(Config(Body, 0, r.(content := r.content + s)), Accept, |s|)
    decreases |s|
  {
    hide Declared;
    var g := Config(Body, |s|, r);
    var r' := r.(content := r.content + [s[0]]);
    assert Step(g, s[0]).0 == Config(Body, |s| - 1, r');
    if |s| == 1 {
      assert s == [s[0]];
    } else {
      ReadBody(r', s[1..]);
      assert r.content + [s[0]] + s[1..] == r.content + s;
    }
  }

  /** The empty line and the body. */
  lemma {:induction false} ReadEnd(b: nat, r: Request, content: string)
    requires r.content == "" && Declared(r.headers) <= MAX_BODY
    requires |content| == if Declared(r.headers) > 0 then Declared(r.headers) else 0
    ensures var o := Run(Config(LineStart, b, r), "\r\n" + content);
            o.verdict == Accept && o.consumed == 2 + |content| && o.config.req == r.(content := content)
  {
    hide Declared, Run, IsChar, IsCtl, IsTspecial;
    var start := Config(LineStart, b, r);
    ReadsChar(start, '\r');
    var end := Config(Newline3, b, r);
    if content == [] {
      OneChar(end, '\n');
      RunConcat(start, "\r", "\n");
      assert "\r" + "\n" == "\r\n" + content;
    } else {
      ReadsChar(end, '\n');
      var body := Config(Body, |content|, r);
      ReadsConcat(start, "\r", end, "\n", body);
      assert "\r" + "\n" == "\r\n";
      ReadBody(r, content);
      assert r.content + content == content;
      RunConcat(start, "\r\n", content);
    }
  }

  // ----- Printing and parsing ------------------------------------------------------------------------

  function Versioned(r: Request): Request {
    Request(r.verb, r.uri, r.major, r.minor, [], "")
  }

  /** The method and the blank after it. */
  lemma {:induction false} ReadFirst(b: nat, verb: string)
    requires verb != [] && AllToken(verb)
    ensures Reads(Config(MethodStart, b, EMPTY), verb + " ", Config(Uri, b, EMPTY.(verb := verb)))
  {
    hide Run, Reads, IsChar, IsCtl, Declared;
    var r1 := EMPTY.(verb := [verb[0]]);
    assert "" + [verb[0]] == [verb[0]];
    ReadVerb(b, r1, verb[1..]);
    assert [verb[0]] + verb[1..] == verb;
    var named := Config(Method, b, EMPTY.(verb := verb));
    ReadsCons(Config(MethodStart, b, EMPTY), verb, named);
    ReadsChar(named, ' ');
    ReadsConcat(Config(MethodStart, b, EMPTY), verb, named, " ", Config(Uri, b, EMPTY.(verb := verb)));
  }

  lemma {:induction false} ReadSecond(b: nat, r: Request, uri: string)
    requires NoCtl(uri) && ' ' !in uri && r.uri == "" && r.content == ""
    ensures Reads(Config(Uri, b, r), uri + " ", Config(VersionH, b, r.(uri := uri)))
  {
    hide Run, Reads, IsCtl, Declared;
    ReadUri(b, r, uri);
    assert "" + uri == uri;
    var g := Config(Uri, b, r.(uri := uri));
    ReadsChar(g, ' ');
    ReadsConcat(Config(Uri, b, r), uri, g, " ", Config(VersionH, b, r.(uri := uri)));
  }

  lemma {:induction false} ReadThird(b: nat, r: Request, major: nat, minor: nat)
    requires r.major == r.minor == 0 && r.content == ""
    ensures Reads(Config(MajorStart, b, r), Dec(major) + ".", Config(MinorStart, b, r.(major := major)))
    ensures Reads(Config(MinorStart, b, r.(major := major)), Dec(minor) + "\r\n",
            Config(LineStart, b, r.(major := major, minor := minor)))
  {
    hide Run, Reads, Declared, Dec;
    var r1, r2 := r.(major := major), r.(major := major, minor := minor);
    ReadMajor(b, r, major);
    ReadsChar(Config(Major, b, r1), '.');
    ReadsConcat(Config(MajorStart, b, r), Dec(major), Config(Major, b, r1), ".", Config(MinorStart, b, r1));
    ReadMinor(b, r1, minor);
    assert "\r\n"[1..] == "\n";
    ReadsChar(Config(Newline1, b, r2), '\n');
    ReadsCons(Config(Minor, b, r2), "\r\n", Config(LineStart, b, r2));
    ReadsConcat(Config(MinorStart, b, r1), Dec(minor), Config(Minor, b, r2), "\r\n", Config(LineStart, b, r2));
  }

  /** A piece read without verdict may be taken off the front of the input. */
  lemma {:induction false} Skip(g: Config, s: string, next: Config, rest: string, o: Outcome)
    requires Reads(g, s, next) && Run(next, rest) == o
    ensures Run(g, s + rest) == Outcome(o.config, o.verdict, |s| + o.consumed)
  {
    hide Run, Inv;
    RunConcat(g, s, rest);
  }

  /** Printing a request and parsing it comes down to its end: everything before the empty
      line is read, header names in lower case. */
  lemma {:induction false} PrintRun(r: Request, b: nat)
    requires Printable(r)
    ensures var o := Run(Config(LineStart, b, Versioned(r).(headers := Lowered(r.headers))), "\r\n" + r.content);
            Run(Config(MethodStart, b, EMPTY), Print(r)) ==
            Outcome(o.config, o.verdict, |Print(r)| - 2 - |r.content| + o.consumed)
  {
    hide Run, Reads, Step, Declared, AllToken, NoCtl, Dec, Lowered, HeaderLines, GoodHeaders;
    var r1 := EMPTY.(verb := r.verb);
    var r2 := r1.(uri := r.uri);
    var r4 := Versioned(r);
    var r5 := r4.(headers := Lowered(r.headers));
    assert [] + Lowered(r.headers) == Lowered(r.headers);
    var s6 := "\r\n" + r.content;
    AtLineStart(b, r5);
    ReadHeaders(b, r4, r.headers);
    Skip(Config(LineStart, b, r4), HeaderLines(r.headers), Config(LineStart, b, r5), s6,
         Run(Config(LineStart, b, r5), s6));
    var s5 := HeaderLines(r.headers) + s6;
    VersionRun(b, r2, r.major, r.minor, s5);
    var s2 := "HTTP/" + (Dec(r.major) + "." + (Dec(r.minor) + "\r\n" + s5));
    ReadSecond(b, r1, r.uri);
    Skip(Config(Uri, b, r1), r.uri + " ", Config(VersionH, b, r2), s2, Run(Config(VersionH, b, r2), s2));
    var s1 := r.uri + " " + s2;
    ReadFirst(b, r.verb);
    Skip(Config(MethodStart, b, EMPTY), r.verb + " ", Config(Uri, b, r1), s1, Run(Config(Uri, b, r1), s1));
  }

  /** The protocol and its version are read off the front of the input. */
  lemma {:induction false} VersionRun(b: nat, r: Request, major: nat, minor: nat, s: string)
    requires r.major == r.minor == 0 && r.content == ""
    ensures Inv(Config(VersionH, b, r)) && Inv(Config(LineStart, b, r.(major := major, minor := minor)))
    ensures var t := "HTTP/" + (Dec(major) + "." + (Dec(minor) + "\r\n" + s));
            var o := Run(Config(LineStart, b, r.(major := major, minor := minor)), s);
            Run(Config(VersionH, b, r), t) == Outcome(o.config, o.verdict, |t| - |s| + o.consumed)
  {
    hide Run, Reads, Step, Declared, Dec;
    var r3 := r.(major := major);
    var r4 := r.(major := major, minor := minor);
    ReadThird(b, r, major, minor);
    Skip(Config(MinorStart, b, r3), Dec(minor) + "\r\n", Config(LineStart, b, r4), s, Run(Config(LineStart, b, r4), s));
    var s4 := Dec(minor) + "\r\n" + s;
    Skip(Config(MajorStart, b, r), Dec(major) + ".", Config(MinorStart, b, r3), s4, Run(Config(MinorStart, b, r3), s4));
    var s3 := Dec(major) + "." + s4;
    ReadProtocol(b, r);
    Skip(Config(VersionH, b, r), "HTTP/", Config(MajorStart, b, r), s3, Run(Config(MajorStart, b, r), s3));
  }

  /** Printing a well-formed request and parsing it succeeds exactly at the last byte and
      restores the request, its header names in lower case. */
  lemma {:induction false} PrintParse(r: Request, b: nat)
    requires WellFormed(r)
    ensures var o := Run(Config(MethodStart, b, EMPTY), Print(r));
            && o.verdict == Accept && o.consumed == |Print(r)|
            && o.config.req == r.(headers := Lowered(r.headers))
  {
    hide Run, Declared, Printable, Print, Lowered;
    PrintRun(r, b);
    ReadEnd(b, Versioned(r).(headers := Lowered(r.headers)), r.content);
  }

  // ----- The declared length --------------------------------------------------------------------

  predicate AllDigits(s: string) {
    forall i | 0 <= i < |s| :: IsDigit(s[i])
  }

  lemma {:induction false} LeadingSnoc(s: string, d: char, acc: nat)
    requires AllDigits(s) && IsDigit(d)
    ensures Leading(s + [d], acc) == Leading(s, acc) * 10 + DigitValue(d)
    decreases |s|
  {
    hide IsDigit, DigitValue;
    if s == [] {
      assert (s + [d])[1..] == [];
    } else {
      assert (s + [d])[1..] == s[1..] + [d];
      LeadingSnoc(s[1..], d, acc * 10 + DigitValue(s[0]));
    }
  }

  /** The digits of a number are read as that number. */
  lemma {:induction false} LeadingDec(n: nat)
    ensures AllDigits(Dec(n)) && |Dec(n)| >= 1 && Leading(Dec(n), 0) == n
    decreases n
  {
    hide IsDigit, DigitValue, Digit;
    DigitRead(n % 10);
    if n >= 10 {
      LeadingDec(n / 10);
      LeadingSnoc(Dec(n / 10), Digit(n % 10), 0);
    } else {
      assert [Digit(n)][1..] == [];
    }
  }

  lemma {:induction false} AtoiDec(n: nat)
    ensures Atoi(Dec(n)) == n
  {
    hide Dec;
    LeadingDec(n);
    assert IsDigit(Dec(n)[0]);
  }

  lemma {:induction false} LeadingStops(s: string, t: string, acc: nat)
    requires AllDigits(s) && (t != [] ==> !IsDigit(t[0]))
    ensures Leading(s + t, acc) == Leading(s, acc)
    decreases |s|
  {
    hide IsDigit, DigitValue;
    if s == [] {
      assert s + t == t;
    } else {
      assert (s + t)[1..] == s[1..] + t;
      LeadingStops(s[1..], t, acc * 10 + DigitValue(s[0]));
    }
  }

  predicate AllSpaces(s: string) {
    forall i | 0 <= i < |s| :: s[i] == ' '
  }

  lemma {:induction false} SpacesSkipped(w: string, s: string)
    requires AllSpaces(w)
    ensures Atoi(w + s) == Atoi(s)
    decreases |w|
  {
    if w == [] {
      assert w + s == s;
    } else {
      assert (w + s)[1..] == w[1..] + s;
      SpacesSkipped(w[1..], s);
    }
  }

  /** How a value is read as a number: blanks, a sign, digits, and anything from the first
      character on that is no digit. */
  lemma {:induction false} AtoiReads(w: string, sign: string, n: nat, t: string)
    requires AllSpaces(w) && sign in ["", "+", "-"] && (t != [] ==> !IsDigit(t[0]))
    ensures Atoi(w + (sign + (Dec(n) + t))) == if sign == "-" then -(n as int) else n
    ensures t != [] && !IsSpace(t[0]) && t[0] != '+' && t[0] != '-' ==> Atoi(w + t) == 0
  {
    hide Dec, Leading;
    SpacesSkipped(w, sign + (Dec(n) + t));
    SpacesSkipped(w, t);
    LeadingDec(n);
    LeadingStops(Dec(n), t, 0);
    var s := Dec(n) + t;
    assert IsDigit(s[0]) by {
      assert s[0] == Dec(n)[0];
    }
    if sign == "" {
      assert sign + s == s;
    } else {
      assert (sign + s)[0] == sign[0] && (sign + s)[1..] == s;
    }
    LeadingNone(t);
  }

  lemma {:induction false} LeadingNone(t: string)
    requires t != [] ==> !IsDigit(t[0])
    ensures Leading(t, 0) == 0
  {
  }

  /** The first header of a name, if any. */
  lemma {:induction false} HeaderIs(headers: seq<Header>, i: nat, name: string)
    requires i <= |headers| && (forall j | 0 <= j < i :: headers[j].name != name)
    requires i < |headers| ==> headers[i].name == name
    ensures GetHeader(headers, name) == if i < |headers| then headers[i].value else ""
  {
    if i > 0 {
      HeaderIs(headers[1..], i - 1, name);
    }
  }

  /** The length declared is the number in the first content-length header, 0 without one. */
  lemma {:induction false} DeclaredIs(headers: seq<Header>, i: nat, n: nat)
    requires i <= |headers| && (forall j | 0 <= j < i :: headers[j].name != "content-length")
    requires if i < |headers| then headers[i] == Header("content-length", Dec(n)) else n == 0
    ensures Declared(headers) == n
  {
    hide Dec;
    HeaderIs(headers, i, "content-length");
    AtoiDec(n);
  }

  /** The number of body bytes stands, in decimal, in the first content-length header, the
      name in any case; without such a header there is no body. */
  predicate BodyHeader(headers: seq<Header>, i: nat, n: nat) {
    && i <= |headers| && (forall j | 0 <= j < i :: LowerCase(headers[j].name) != "content-length")
    && if i < |headers| then LowerCase(headers[i].name) == "content-length" && headers[i].value == Dec(n) else n == 0
  }

  lemma {:induction false} LoweredAt(headers: seq<Header>, j: nat)
    requires j < |headers|
    ensures |Lowered(headers)| == |headers|
    ensures Lowered(headers)[j] == Header(LowerCase(headers[j].name), headers[j].value)
  {
    LoweredSize(headers);
    if j > 0 {
      LoweredAt(headers[1..], j - 1);
    }
  }

  lemma {:induction false} LoweredSize(headers: seq<Header>)
    ensures |Lowered(headers)| == |headers|
  {
    if headers != [] {
      LoweredSize(headers[1..]);
    }
  }

  lemma {:induction false} BodyDeclared(headers: seq<Header>, i: nat, n: nat)
    requires BodyHeader(headers, i, n)
    ensures Declared(Lowered(headers)) == n
  {
    hide Dec, LowerCase, Lowered;
    LoweredSize(headers);
    forall j | 0 <= j < |headers|
      ensures Lowered(headers)[j] == Header(LowerCase(headers[j].name), headers[j].value)
    {
      LoweredAt(headers, j);
    }
    DeclaredIs(Lowered(headers), i, n);
  }

  /** A length above the limit is refused at the end of the headers. */
  lemma {:induction false} ReadTooLong(b: nat, r: Request, content: string)
    requires r.content == "" && Declared(r.headers) > 16777216
    ensures var o := Run(Config(LineStart, b, r), "\r\n" + content);
            o.verdict == Reject && o.consumed == 2
  {
    hide Declared, Run, IsChar, IsCtl, IsTspecial;
    var start := Config(LineStart, b, r);
    ReadsChar(start, '\r');
    OneChar(Config(Newline3, b, r), '\n');
    RunConcat(start, "\r", "\n");
    assert "\r" + "\n" == "\r\n";
    RunConcat(start, "\r\n", content);
  }

  /** A printed request whose header gives the length of its body is accepted exactly at its
      last byte and restored, if the body has at most 16 megabytes, and refused right before
      its body otherwise. */
  lemma {:induction false} SizedRequest(r: Request, i: nat, b: nat)
    requires Printable(r) && BodyHeader(r.headers, i, |r.content|)
    ensures var o := Run(Config(MethodStart, b, EMPTY), Print(r));
            if |r.content| <= 16777216
            then o.verdict == Accept && o.consumed == |Print(r)| && o.config.req == r.(headers := Lowered(r.headers))
            else o.verdict == Reject && o.consumed == |Print(r)| - |r.content|
  {
    hide Run, Declared, Printable, Print, Lowered, BodyHeader;
    BodyDeclared(r.headers, i, |r.content|);
    if |r.content| <= 16777216 {
      PrintParse(r, b);
    } else {
      PrintRun(r, b);
      ReadTooLong(b, Versioned(r).(headers := Lowered(r.headers)), r.content);
    }
  }

  /** The usual spelling of that header, and a length in decimal. */
  lemma {:induction false} UsualHeader()
    ensures LowerCase("Content-Length") == "content-length" && Dec(1024) == "1024"
  {
    hide Dec, LowerCase;
    assert forall i | 0 <= i < 14 :: ToLower("Content-Length"[i]) == "content-length"[i];
    LowerEach("Content-Length", "content-length");
    DecExample();
  }

  lemma {:induction false} LowerEach(s: string, t: string)
    requires |s| == |t| && forall i | 0 <= i < |s| :: ToLower(s[i]) == t[i]
    ensures LowerCase(s) == t
  {
    hide ToLower;
    if s != [] {
      LowerEach(s[1..], t[1..]);
      assert t == [t[0]] + t[1..];
    }
  }

  lemma {:induction false} DecExample()
    ensures Dec(1024) == "1024"
  {
    assert Dec(1) == [Digit(1)];
    assert Dec(10) == Dec(1) + [Digit(0)];
    assert Dec(102) == Dec(10) + [Digit(2)];
    assert Dec(1024) == Dec(102) + [Digit(4)];
  }

  lemma {:induction false} LowerTail(s: string, t: string)
    requires s != [] && s[1..] == t
    ensures LowerCase(s) == [ToLower(s[0])] + LowerCase(t)
  {
  }

  lemma {:induction false} LowerOne(c: char)
    ensures LowerCase([c]) == [ToLower(c)]
  {
    LowerTail([c], []);
    assert [ToLower(c)] + [] == [ToLower(c)];
  }

  lemma {:induction false} LowerParts(s: string, t: string)
    ensures LowerCase(s + t) == LowerCase(s) + LowerCase(t)
  {
    hide ToLower;
    if s == [] {
      assert s + t == t;
    } else {
      LowerParts(s[1..], t);
      LowerTail(s, s[1..]);
      LowerTail(s + t, s[1..] + t);
      assert (s + t)[0] == s[0];
    }
  }

  // ----- What is accepted -------------------------------------------------------------------------

  /** The characters of methods and header names: letters, digits and these. */
  lemma {:induction false} TokenCharacters(c: char)
    ensures IsToken(c) <==>
            || 'a' <= c <= 'z' || 'A' <= c <= 'Z' || '0' <= c <= '9'
            || c == '!' || c == '#' || c == '$' || c == '%' || c == '&' || c == '\'' || c == '*' || c == '+'
            || c == '-' || c == '.' || c == '^' || c == '_' || c == '`' || c == '|' || c == '~'
  {
  }

  lemma {:induction false} LowerToken(c: char)
    requires IsToken(c)
    ensures IsToken(ToLower(c)) && ToLower(ToLower(c)) == ToLower(c)
  {
    hide IsToken;
    TokenCharacters(c);
    TokenCharacters(ToLower(c));
  }

  /** A header as the parser stores it. */
  ghost predicate Stored(h: Header) {
    GoodHeader(h) && LowerCase(h.name) == h.name
  }

  /** What has been read so far is well formed. */
  ghost predicate Shaped(g: Config) {
    && AllToken(g.req.verb) && (g.state != MethodStart ==> g.req.verb != []) && NoCtl(g.req.uri) && ' ' !in g.req.uri
    && forall i | 0 <= i < |g.req.headers| :: Stored(g.req.headers[i])
  }

  lemma {:induction false} NameGrows(h: Header, c: char)
    requires Stored(h) && IsToken(c)
    ensures Stored(h.(name := h.name + [ToLower(c)]))
  {
    hide IsToken, ToLower;
    LowerToken(c);
    LowerParts(h.name, [ToLower(c)]);
    LowerOne(ToLower(c));
  }

  lemma {:induction false} NewName(c: char)
    requires IsToken(c)
    ensures Stored(Header([ToLower(c)], ""))
  {
    hide IsToken, ToLower;
    LowerToken(c);
    LowerOne(ToLower(c));
  }

  lemma {:induction false} ValueGrows(h: Header, c: char)
    requires Stored(h) && !IsCtl(c)
    ensures Stored(h.(value := h.value + [c]))
  {
    hide IsToken, LowerCase;
  }

  /** Every character keeps it so. */
  lemma {:induction false} StepShaped(g: Config, c: char)
    requires Inv(g) && Shaped(g)
    ensures Step(g, c).1 != Reject ==> Shaped(Step(g, c).0)
    ensures Step(g, c).1 == Accept ==> Declared(Step(g, c).0.req.headers) <= MAX_BODY && Step(g, c).0.req.verb != []
  {
    hide Declared, IsToken, IsCtl, Stored, ToLower;
    if g.state in {Lws, Value} && !IsCtl(c) {
      ValueGrows(g.req.headers[|g.req.headers| - 1], c);
    }
    if IsToken(c) {
      NotBlank(c);
      NewName(c);
      if g.state == Name {
        NameGrows(g.req.headers[|g.req.headers| - 1], c);
      }
    }
  }

  lemma {:induction false} RunShaped(g: Config, input: string)
    requires Inv(g) && Shaped(g)
    ensures var o := Run(g, input);
            o.verdict == Accept ==> Shaped(o.config) && Full(o.config.req) && o.config.req.verb != []
                                    && Declared(o.config.req.headers) <= MAX_BODY
    decreases |input|
  {
    hide Step, Shaped, Declared;
    RunConserves(g, input);
    if input != [] {
      StepInv(g, input[0]);
      StepShaped(g, input[0]);
      if Step(g, input[0]).1 == More {
        RunShaped(Step(g, input[0]).0, input[1..]);
      }
    }
  }

  lemma {:induction false} LoweredAlready(headers: seq<Header>)
    requires forall i | 0 <= i < |headers| :: Stored(headers[i])
    ensures Lowered(headers) == headers && GoodHeaders(headers)
  {
    hide GoodHeader, LowerCase;
    if headers != [] {
      assert Stored(headers[0]);
      LoweredAlready(headers[1..]);
      assert headers == [headers[0]] + headers[1..];
    }
  }

  /** Whatever input was accepted, its request is well formed, names in lower case; printed
      and parsed once more it comes out the same. */
  lemma {:induction false} AcceptedIsNormal(input: string, b: nat)
    requires Run(Config(MethodStart, b, EMPTY), input).verdict == Accept
    ensures var r := Run(Config(MethodStart, b, EMPTY), input).config.req;
            && WellFormed(r) && Lowered(r.headers) == r.headers
            && var o := Run(Config(MethodStart, b, EMPTY), Print(r));
               o.verdict == Accept && o.consumed == |Print(r)| && o.config.req == r
  {
    hide Run, Declared, Print, Lowered, GoodHeaders, Stored;
    var start := Config(MethodStart, b, EMPTY);
    RunShaped(start, input);
    var r := Run(start, input).config.req;
    LoweredAlready(r.headers);
    PrintParse(r, b);
  }
}
