/**
 The incremental HTTP request parser: 21 states, one character at a time. Verdict, stop
 offset and request do not depend on how the input is cut into chunks; printing a
 well-formed request and parsing it gives it back, with header names in lower case.
 */
module RequestParser {

  datatype Header = Header(name: string, value: string)

  datatype Request = Request(verb: string, uri: string, major: nat, minor: nat, headers: seq<Header>, content: string)

  datatype State =
    | MethodStart | Method | Uri
    | VersionH | VersionT1 | VersionT2 | VersionP | VersionSlash
    | MajorStart | Major | MinorStart | Minor | Newline1
    | LineStart | Lws | Name | SpaceBefore | Value | Newline2 | Newline3 | Body

  /** Complete, invalid, or more input needed. */
  datatype Verdict = Accept | Reject | More

  /** Everything a parser and its request hold. */
  datatype Config = Config(state: State, bodyBytes: nat, req: Request)

  const EMPTY := Request("", "", 0, 0, [], "")
  const MAX_BODY: int := 16 * 1024 * 1024

  // ----- Characters ---------------------------------------------------------------------

  /** A char is signed: codes from 128 on count as negative. */
  predicate IsChar(c: char) {
    c as int <= 127
  }

  predicate IsCtl(c: char) {
    c as int <= 31 || c as int == 127
  }

  predicate IsTspecial(c: char) {
    c in "()<>@,;:\\\"/[]?={} \t"
  }

  predicate IsDigit(c: char) {
    '0' <= c <= '9'
  }

  predicate IsToken(c: char) {
    IsChar(c) && !IsCtl(c) && !IsTspecial(c)
  }

  function ToLower(c: char): char {
    if 'A' <= c <= 'Z' then (c as int + 32) as char else c
  }

  function DigitValue(c: char): nat
    requires IsDigit(c)
  {
    c as int - '0' as int
  }

  // ----- Headers ------------------------------------------------------------------------------

  /** The value of the first header with the given name, empty without one. */
  function GetHeader(headers: seq<Header>, name: string): string {
    if headers == [] then "" else if headers[0].name == name then headers[0].value else GetHeader(headers[1..], name)
  }

  predicate IsSpace(c: char) {
    c == ' ' || 9 <= c as int <= 13
  }

  function Leading(s: string, acc: nat): nat {
    if s == [] || !IsDigit(s[0]) then acc else Leading(s[1..], acc * 10 + DigitValue(s[0]))
  }

  /** The C library's atoi: white space, a sign, digits. */
  function Atoi(s: string): int {
    if s == [] then 0
    else if IsSpace(s[0]) then Atoi(s[1..])
    else if s[0] == '-' then -(Leading(s[1..], 0) as int)
    else if s[0] == '+' then Leading(s[1..], 0)
    else Leading(s, 0)
  }

  /** The length of the body as the headers declare it. */
  function Declared(headers: seq<Header>): int {
    Atoi(GetHeader(headers, "content-length"))
  }

  function AddToName(headers: seq<Header>, c: char): (r: seq<Header>)
    requires headers != []
    ensures r != []
  {
    var n := |headers| - 1;
    headers[n := headers[n].(name := headers[n].name + [c])]
  }

  function AddToValue(headers: seq<Header>, c: char): (r: seq<Header>)
    requires headers != []
    ensures r != []
  {
    var n := |headers| - 1;
    headers[n := headers[n].(value := headers[n].value + [c])]
  }

  // ----- One character ---------------------------------------------------------------------------

  /** What holds before every character of a run: inside a header there is one, and inside
      the body the bytes stored and the bytes to come make up the declared length. */
  ghost predicate Inv(g: Config) {
    && (g.state in {Lws, Name, SpaceBefore, Value} ==> g.req.headers != [])
    && (g.state == Body ==>
          g.bodyBytes > 0 && |g.req.content| + g.bodyBytes == Declared(g.req.headers)
              && Declared(g.req.headers) <= MAX_BODY)
    && (g.state != Body ==> g.req.content == "")
  }

  /** The character a state waits for, with the state that follows. */
  function Fixed(s: State): (char, State)
    requires s in {VersionH, VersionT1, VersionT2, VersionP, Newline1, SpaceBefore, Newline2}
  {
    match s
    case VersionH => ('H', VersionT1)
    case VersionT1 => ('T', VersionT2)
    case VersionT2 => ('T', VersionP)
    case VersionP => ('P', VersionSlash)
    case Newline1 => ('\n', LineStart)
    case SpaceBefore => (' ', Value)
    case Newline2 => ('\n', LineStart)
  }

  function Go(g: Config, s: State, r: Request): (Config, Verdict) {
    (Config(s, g.bodyBytes, r), More)
  }

  function Step(g: Config, c: char): (Config, Verdict)
    requires g.state in {Lws, Name, SpaceBefore, Value} ==> g.req.headers != []
  {
    var r := g.req;
    match g.state
    case MethodStart => if IsToken(c) then Go(g, Method, r.(verb := r.verb + [c])) else (g, Reject)
    case Method =>
      if c == ' ' then Go(g, Uri, r) else if IsToken(c) then Go(g, Method, r.(verb := r.verb + [c])) else (g, Reject)
    case Uri =>
      if c == ' ' then Go(g, VersionH, r) else if IsCtl(c) then (g, Reject) else Go(g, Uri, r.(uri := r.uri + [c]))
    case VersionSlash => if c == '/' then Go(g, MajorStart, r.(major := 0, minor := 0)) else (g, Reject)
    case MajorStart =>
      if IsDigit(c) then Go(g, Major, r.(major := r.major * 10 + DigitValue(c))) else (g, Reject)
    case Major =>
      if c == '.' then Go(g, MinorStart, r)
      else if IsDigit(c) then Go(g, Major, r.(major := r.major * 10 + DigitValue(c))) else (g, Reject)
    case MinorStart =>
      if IsDigit(c) then Go(g, Minor, r.(minor := r.minor * 10 + DigitValue(c))) else (g, Reject)
    case Minor =>
      if c == '\r' then Go(g, Newline1, r)
      else if IsDigit(c) then Go(g, Minor, r.(minor := r.minor * 10 + DigitValue(c))) else (g, Reject)
    case LineStart =>
      if c == '\r' then Go(g, Newline3, r)
      else if r.headers != [] && (c == ' ' || c == '\t') then Go(g, Lws, r)
      else if IsToken(c) then Go(g, Name, r.(headers := r.headers + [Header([ToLower(c)], "")])) else (g, Reject)
    case Lws =>
      if c == '\r' then Go(g, Newline2, r)
      else if c == ' ' || c == '\t' then (g, More)
      else if IsCtl(c) then (g, Reject) else Go(g, Value, r.(headers := AddToValue(r.headers, c)))
    case Name =>
      if c == ':' then Go(g, SpaceBefore, r)
      else if IsToken(c) then Go(g, Name, r.(headers := AddToName(r.headers, ToLower(c)))) else (g, Reject)
    case Value =>
      if c == '\r' then Go(g, Newline2, r)
      else if IsCtl(c) then (g, Reject) else Go(g, Value, r.(headers := AddToValue(r.headers, c)))
    case Newline3 =>
      var clen := Declared(r.headers);
      if c != '\n' then (g, Reject)
      else if clen <= 0 then (g, Accept)
      else if clen > MAX_BODY then (g, Reject)
      else (Config(Body, clen, r), More)
    case Body =>
      var left := (g.bodyBytes + 0xFFFF_FFFF) % 0x1_0000_0000;
      (Config(Body, left, r.(content := r.content + [c])), if left == 0 then Accept else More)
    case s => if c == Fixed(s).0 then Go(g, Fixed(s).1, r) else (g, Reject)
  }

  lemma {:induction false} StepInv(g: Config, c: char)
    requires Inv(g)
    ensures Step(g, c).1 == More ==> Inv(Step(g, c).0)
    ensures Step(g, c).1 == Accept ==> Full(Step(g, c).0.req)
  {
    hide Declared, IsToken;
  }

  /** The body is as long as declared; without a positive length there is none. */
  ghost predicate Full(r: Request) {
    |r.content| == if Declared(r.headers) > 0 then Declared(r.headers) else 0
  }

  // ----- Runs ------------------------------------------------------------------------------------

  datatype Outcome = Outcome(config: Config, verdict: Verdict, consumed: nat)

  /** Characters up to the first verdict. */
  function Run(g: Config, input: string): (o: Outcome)
    requires Inv(g)
    ensures o.consumed <= |input| && (o.verdict == More ==> o.consumed == |input|)
    decreases |input|
  {
    if input == [] then Outcome(g, More, 0)
    else
      var (next, verdict) := Step(g, input[0]);
      if verdict != More then Outcome(next, verdict, 1)
      else
        StepInv(g, input[0]);
        var o := Run(next, input[1..]);
        Outcome(o.config, o.verdict, o.consumed + 1)
  }

  /** In every run from the start: bytes stored and bytes remaining make up the declared
      length while the body is read, and a request accepted has its whole body. */
  lemma {:induction false} RunConserves(g: Config, input: string)
    requires Inv(g)
    ensures Run(g, input).verdict == More ==> Inv(Run(g, input).config)
    ensures Run(g, input).verdict == Accept ==> Full(Run(g, input).config.req)
    decreases |input|
  {
    hide Step, Full;
    if input != [] {
      StepInv(g, input[0]);
      if Step(g, input[0]).1 == More {
        RunConserves(Step(g, input[0]).0, input[1..]);
      }
    }
  }

  /** Cutting the input in two. */
  lemma {:induction false} RunConcat(g: Config, a: string, b: string)
    requires Inv(g)
    ensures Run(g, a).verdict != More ==> Run(g, a + b) == Run(g, a)
    ensures Run(g, a).verdict == More ==>
              && Inv(Run(g, a).config)
              && var o := Run(Run(g, a).config, b);
                 Run(g, a + b) == Outcome(o.config, o.verdict, |a| + o.consumed)
    decreases |a|
  {
    hide Step;
    RunConserves(g, a);
    if a == [] {
      assert a + b == b;
    } else {
      StepInv(g, a[0]);
      assert (a + b)[1..] == a[1..] + b;
      if Step(g, a[0]).1 == More {
        RunConcat(Step(g, a[0]).0, a[1..], b);
      }
    }
  }

  function Joined(chunks: seq<string>): string {
    if chunks == [] then [] else chunks[0] + Joined(chunks[1..])
  }

  /** Chunk after chunk, until there is a verdict. */
  function RunChunks(g: Config, chunks: seq<string>): Outcome
    requires Inv(g)
    decreases |chunks|
  {
    if chunks == [] then Outcome(g, More, 0)
    else
      var o := Run(g, chunks[0]);
      if o.verdict != More then o
      else
        RunConserves(g, chunks[0]);
        var rest := RunChunks(o.config, chunks[1..]);
        Outcome(rest.config, rest.verdict, o.consumed + rest.consumed)
  }

  /** Chunking does not matter: same request, verdict and stop offset as in one piece. */
  lemma {:induction false} ChunksDoNotMatter(g: Config, chunks: seq<string>)
    requires Inv(g)
    ensures RunChunks(g, chunks) == Run(g, Joined(chunks))
    decreases |chunks|
  {
    hide Inv, Step;
    if chunks != [] {
      RunConcat(g, chunks[0], Joined(chunks[1..]));
      if Run(g, chunks[0]).verdict == More {
        ChunksDoNotMatter(Run(g, chunks[0]).config, chunks[1..]);
      }
    }
  }

  // ----- The parser object ------------------------------------------------------------------------

  class HttpRequest {
    var verb: string
    var uri: string
    var major: nat
    var minor: nat
    var headers: seq<Header>
    var content: string

    constructor ()
      ensures Current() == EMPTY
    {
      verb, uri, major, minor, headers, content := "", "", 0, 0, [], "";
    }

    function Current(): Request
      reads this
    {
      Request(verb, uri, major, minor, headers, content)
    }
  }

  class Parser {
    var state: State
    var bodyBytes: nat

    constructor ()
      ensures state == MethodStart
    {
      state, bodyBytes := MethodStart, 0;
    }

    method Reset()
      modifies this
      ensures state == MethodStart && bodyBytes == old(bodyBytes)
    {
      state := MethodStart;
    }

    function View(req: HttpRequest): Config
      reads this, req
    {
      Config(state, bodyBytes, req.Current())
    }

    /** The request line. */
    method ConsumeLine(req: HttpRequest, input: char) returns (v: Verdict)
      requires state in {MethodStart, Method, Uri, VersionH, VersionT1, VersionT2, VersionP, VersionSlash}
      modifies this, req
      ensures (View(req), v) == Step(old(View(req)), input)
    {
      hide Declared, IsChar, IsCtl, IsTspecial;
      if state.MethodStart? {
        if !IsChar(input) || IsCtl(input) || IsTspecial(input) {
          return Reject;
        }
        state := Method;
        req.verb := req.verb + [input];
        return More;
      } else if state.Method? {
        if input == ' ' {
          state := Uri;
          return More;
        } else if !IsChar(input) || IsCtl(input) || IsTspecial(input) {
          return Reject;
        }
        req.verb := req.verb + [input];
        return More;
      } else if state.Uri? {
        if input == ' ' {
          state := VersionH;
          return More;
        } else if IsCtl(input) {
          return Reject;
        }
        req.uri := req.uri + [input];
        return More;
      } else if state.VersionSlash? {
        if input == '/' {
          req.major, req.minor := 0, 0;
          state := MajorStart;
          return More;
        }
        return Reject;
      } else {
        var (expected, next) := Fixed(state);
        if input == expected {
          state := next;
          return More;
        }
        return Reject;
      }
    }

    /** The version numbers and the end of the request line. */
    method ConsumeVersion(req: HttpRequest, input: char) returns (v: Verdict)
      requires state in {MajorStart, Major, MinorStart, Minor, Newline1}
      modifies this, req
      ensures (View(req), v) == Step(old(View(req)), input)
    {
      hide Declared;
      if state.MajorStart? {
        if IsDigit(input) {
          req.major := req.major * 10 + DigitValue(input);
          state := Major;
          return More;
        }
        return Reject;
      } else if state.Major? {
        if input == '.' {
          state := MinorStart;
          return More;
        } else if IsDigit(input) {
          req.major := req.major * 10 + DigitValue(input);
          return More;
        }
        return Reject;
      } else if state.MinorStart? {
        if IsDigit(input) {
          req.minor := req.minor * 10 + DigitValue(input);
          state := Minor;
          return More;
        }
        return Reject;
      } else if state.Minor? {
        if input == '\r' {
          state := Newline1;
          return More;
        } else if IsDigit(input) {
          req.minor := req.minor * 10 + DigitValue(input);
          return More;
        }
        return Reject;
      } else {
        if input == '\n' {
          state := LineStart;
          return More;
        }
        return Reject;
      }
    }

    /** Header lines. */
    method ConsumeHeader(req: HttpRequest, input: char) returns (v: Verdict)
      requires state in {LineStart, Lws, Name, SpaceBefore, Value, Newline2}
      requires state in {Lws, Name, SpaceBefore, Value} ==> req.headers != []
      modifies this, req
      ensures (View(req), v) == Step(old(View(req)), input)
    {
      hide Declared, IsChar, IsCtl, IsTspecial;
      if state.LineStart? {
        if input == '\r' {
          state := Newline3;
          return More;
        } else if req.headers != [] && (input == ' ' || input == '\t') {
          state := Lws;
          return More;
        } else if !IsChar(input) || IsCtl(input) || IsTspecial(input) {
          return Reject;
        }
        req.headers := req.headers + [Header([ToLower(input)], "")];
        state := Name;
        return More;
      } else if state.Lws? {
        if input == '\r' {
          state := Newline2;
          return More;
        } else if input == ' ' || input == '\t' {
          return More;
        } else if IsCtl(input) {
          return Reject;
        }
        state := Value;
        req.headers := AddToValue(req.headers, input);
        return More;
      } else if state.Name? {
        if input == ':' {
          state := SpaceBefore;
          return More;
        } else if !IsChar(input) || IsCtl(input) || IsTspecial(input) {
          return Reject;
        }
        req.headers := AddToName(req.headers, ToLower(input));
        return More;
      } else if state.Value? {
        if input == '\r' {
          state := Newline2;
          return More;
        } else if IsCtl(input) {
          return Reject;
        }
        req.headers := AddToValue(req.headers, input);
        return More;
      } else {
        var (expected, next) := Fixed(state);
        if input == expected {
          state := next;
          return More;
        }
        return Reject;
      }
    }

    /** The end of the headers, and the body. */
    method ConsumeBody(req: HttpRequest, input: char) returns (v: Verdict)
      requires state in {Newline3, Body}
      modifies this, req
      ensures (View(req), v) == Step(old(View(req)), input)
    {
      hide Declared;
      if state.Newline3? {
        if input == '\n' {
          var clen := Declared(req.headers);
          if clen > 0 {
            if clen > MAX_BODY {
              return Reject;
            }
            bodyBytes := clen;
            state := Body;
            return More;
          }
          return Accept;
        }
        return Reject;
      } else {
        req.content := req.content + [input];
        bodyBytes := (bodyBytes + 0xFFFF_FFFF) % 0x1_0000_0000;
        if bodyBytes == 0 {
          return Accept;
        }
        return More;
      }
    }

    /** Handles the next character of input. */
    method Consume(req: HttpRequest, input: char) returns (v: Verdict)
      requires Inv(View(req))
      modifies this, req
      ensures (View(req), v) == Step(old(View(req)), input)
    {
      hide Step, Declared;
      if state in {MethodStart, Method, Uri, VersionH, VersionT1, VersionT2, VersionP, VersionSlash} {
        v := ConsumeLine(req, input);
      } else if state in {MajorStart, Major, MinorStart, Minor, Newline1} {
        v := ConsumeVersion(req, input);
      } else if state in {Newline3, Body} {
        v := ConsumeBody(req, input);
      } else {
        v := ConsumeHeader(req, input);
      }
    }

    /** Parses a chunk: up to the first verdict or to the end of the chunk. */
    method Parse(req: HttpRequest, chunk: string) returns (v: Verdict, consumed: nat)
      requires Inv(View(req))
      modifies this, req
      ensures Outcome(View(req), v, consumed) == Run(old(View(req)), chunk)
      ensures v == More ==> Inv(View(req))
    {
      hide Step, Inv;
      consumed := 0;
      while consumed < |chunk|
        invariant consumed <= |chunk| && Inv(View(req))
        invariant Outcome(View(req), More, consumed) == Run(old(View(req)), chunk[..consumed])
      {
        ghost var before := View(req);
        v := Consume(req, chunk[consumed]);
        RunNext(old(View(req)), chunk, consumed, before);
        StepInv(before, chunk[consumed]);
        consumed := consumed + 1;
        if v != More {
          return;
        }
      }
      assert chunk[..|chunk|] == chunk;
      v := More;
    }
  }

  /** One more character of a run without verdict so far. */
  lemma {:induction false} RunNext(g: Config, chunk: string, n: nat, mid: Config)
    requires Inv(g) && n < |chunk| && Run(g, chunk[..n]) == Outcome(mid, More, n)
    ensures Inv(mid)
    ensures var (next, verdict) := Step(mid, chunk[n]);
            && Run(g, chunk[..n + 1]) == Outcome(next, verdict, n + 1)
            && (verdict != More ==> Run(g, chunk) == Outcome(next, verdict, n + 1))
  {
    hide Step;
    RunConcat(g, chunk[..n], [chunk[n]]);
    assert chunk[..n + 1] == chunk[..n] + [chunk[n]];
    OneChar(mid, chunk[n]);
    RunConcat(g, chunk[..n + 1], chunk[n + 1..]);
    assert chunk == chunk[..n + 1] + chunk[n + 1..];
  }

  lemma {:induction false} OneChar(g: Config, c: char)
    requires Inv(g)
    ensures Run(g, [c]) == Outcome(Step(g, c).0, Step(g, c).1, 1)
  {
    hide Step;
    StepInv(g, c);
    assert [c][1..] == [];
  }
}
