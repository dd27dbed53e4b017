/**
 The language the request parser accepts. A message is given by its parts as they are
 spelled, continuation lines included; the parser accepts exactly the texts of well-formed
 messages, and the request it fills in is what the parts mean.
 */
module RequestGrammar {
  import opened RequestParser
  import opened RequestText

  /** A continuation line: blanks, and text that starts with none. */
  datatype Fold = Fold(blanks: string, text: string)

  /** A header as spelled. */
  datatype Line = Line(name: string, first: string, folds: seq<Fold>)

  /** A request as spelled: both version numbers are digits. */
  datatype Message = Message(verb: string, uri: string, major: string, minor: string, lines: seq<Line>, body: string)

  // ----- Text -----------------------------------------------------------------------------

  function FoldText(f: Fold): string {
    f.blanks + f.text + "\r\n"
  }

  function FoldsText(folds: seq<Fold>): string {
    if folds == [] then "" else FoldsText(folds[..|folds| - 1]) + FoldText(folds[|folds| - 1])
  }

  function LineText(l: Line): string {
    HeaderLine(Header(l.name, l.first)) + FoldsText(l.folds)
  }

  function LinesText(lines: seq<Line>): string {
    if lines == [] then "" else LinesText(lines[..|lines| - 1]) + LineText(lines[|lines| - 1])
  }

  function Target(m: Message): string {
    m.verb + " " + m.uri
  }

  function UpToMajor(m: Message): string {
    Target(m) + " HTTP/"
  }

  function UpToMinor(m: Message): string {
    UpToMajor(m) + m.major + "."
  }

  /** The request line. */
  function Head(m: Message): string {
    UpToMinor(m) + m.minor + "\r\n"
  }

  function Text(m: Message): string {
    Head(m) + LinesText(m.lines) + "\r\n" + m.body
  }

  // ----- Meaning ----------------------------------------------------------------------------

  function Folded(folds: seq<Fold>): string {
    if folds == [] then "" else Folded(folds[..|folds| - 1]) + folds[|folds| - 1].text
  }

  function HeaderOf(l: Line): Header {
    Header(LowerCase(l.name), l.first + Folded(l.folds))
  }

  function HeadersOf(lines: seq<Line>): (r: seq<Header>)
    ensures |r| == |lines|
  {
    if lines == [] then [] else HeadersOf(lines[..|lines| - 1]) + [HeaderOf(lines[|lines| - 1])]
  }

  /** Names in lower case, continuation lines joined, numbers read. */
  function Meaning(m: Message): Request {
    Request(m.verb, m.uri, Leading(m.major, 0), Leading(m.minor, 0), HeadersOf(m.lines), m.body)
  }

  // ----- Well-formed messages ------------------------------------------------------------------

  predicate IsBlank(c: char) {
    c == ' ' || c == '\t'
  }

  predicate AllBlank(s: string) {
    forall i | 0 <= i < |s| :: IsBlank(s[i])
  }

  predicate GoodFold(f: Fold) {
    f.blanks != [] && AllBlank(f.blanks) && NoCtl(f.text) && (f.text != [] ==> f.text[0] != ' ')
  }

  predicate GoodLine(l: Line) {
    && GoodHeader(Header(l.name, l.first))
    && forall i | 0 <= i < |l.folds| :: GoodFold(l.folds[i])
  }

  predicate GoodLines(lines: seq<Line>) {
    forall i | 0 <= i < |lines| :: GoodLine(lines[i])
  }

  predicate GoodUri(s: string) {
    NoCtl(s) && ' ' !in s
  }

  /** A method of token characters, a target without blanks, digits, good headers, and a
      body as long as the headers declare. */
  ghost predicate WellSpelled(m: Message) {
    && m.verb != [] && AllToken(m.verb) && GoodUri(m.uri)
    && m.major != [] && AllDigits(m.major) && m.minor != [] && AllDigits(m.minor) && GoodLines(m.lines)
    && Full(Meaning(m)) && Declared(HeadersOf(m.lines)) <= 16777216
  }

  // ----- Every well-formed message is accepted ----------------------------------------------------

  lemma {:induction false} ReadBlanks(b: nat, r: Request, s: string)
    requires AllBlank(s) && r.content == "" && r.headers != []
    ensures Reads(Config(Lws, b, r), s, Config(Lws, b, r))
    decreases |s|
  {
    hide Run, Reads, Declared;
    var g := Config(Lws, b, r);
    if s == [] {
      ReadsNothing(g);
    } else {
      ReadBlanks(b, r, s[1..]);
      ReadsCons(g, s, g);
    }
  }

  /** The blanks that start a continuation line. */
  lemma {:induction false} ReadAllBlanks(b: nat, r: Request, s: string)
    requires s != [] && AllBlank(s) && r.content == "" && r.headers != []
    ensures Reads(Config(LineStart, b, r), s, Config(Lws, b, r))
  {
    hide Run, Reads, Declared;
    ReadBlanks(b, r, s[1..]);
    ReadsCons(Config(LineStart, b, r), s, Config(Lws, b, r));
  }

  lemma {:induction false} ReadLineEnd(b: nat, r: Request)
    requires r.content == "" && r.headers != []
    ensures Reads(Config(Lws, b, r), "\r\n", Config(LineStart, b, r))
  {
    hide Run, Reads, Declared;
    assert "\r\n"[1..] == "\n";
    ReadsChar(Config(Newline2, b, r), '\n');
    ReadsCons(Config(Lws, b, r), "\r\n", Config(LineStart, b, r));
  }

  /** The text of a continuation line and its end. */
  lemma {:induction false} ReadFoldText(b: nat, r: Request, hs: seq<Header>, h: Header, s: string)
    requires NoCtl(s) && (s != [] ==> s[0] != ' ') && r.content == "" && r.headers == hs + [h]
    ensures Reads(Config(Lws, b, r), s + "\r\n",
                  Config(LineStart, b, r.(headers := hs + [h.(value := h.value + s)])))
  {
    hide Run, Reads, Declared;
    var r' := r.(headers := hs + [h.(value := h.value + s)]);
    if s == [] {
      assert s + "\r\n" == "\r\n" && h.(value := h.value + s) == h;
      ReadLineEnd(b, r);
    } else {
      var r1 := r.(headers := hs + [h.(value := h.value + [s[0]])]);
      assert AddToValue(r.headers, s[0]) == r1.headers;
      ReadValue(b, r1, hs, h.name, h.value + [s[0]], s[1..]);
      assert h.value + [s[0]] + s[1..] == h.value + s;
      ReadsCons(Config(Lws, b, r), s, Config(Value, b, r'));
      ReadColon(b, r');
      ReadsConcat(Config(Lws, b, r), s, Config(Value, b, r'), "\r\n", Config(LineStart, b, r'));
    }
  }

  lemma {:induction false} ReadFold(b: nat, r: Request, hs: seq<Header>, h: Header, f: Fold)
    requires GoodFold(f) && r.content == "" && r.headers == hs + [h]
    ensures Reads(Config(LineStart, b, r), FoldText(f),
                  Config(LineStart, b, r.(headers := hs + [h.(value := h.value + f.text)])))
  {
    hide Run, Reads, Declared;
    var next := Config(LineStart, b, r.(headers := hs + [h.(value := h.value + f.text)]));
    ReadAllBlanks(b, r, f.blanks);
    ReadFoldText(b, r, hs, h, f.text);
    ReadsConcat(Config(LineStart, b, r), f.blanks, Config(Lws, b, r), f.text + "\r\n", next);
    assert f.blanks + (f.text + "\r\n") == FoldText(f);
  }

  lemma {:induction false} ReadFolds(b: nat, r: Request, hs: seq<Header>, h: Header, folds: seq<Fold>)
    requires (forall i | 0 <= i < |folds| :: GoodFold(folds[i])) && r.content == "" && r.headers == hs + [h]
    ensures Reads(Config(LineStart, b, r), FoldsText(folds),
                  Config(LineStart, b, r.(headers := hs + [h.(value := h.value + Folded(folds))])))
    decreases |folds|
  {
    hide Run, Reads, Step, Declared, GoodFold, FoldText;
    var start := Config(LineStart, b, r);
    if folds == [] {
      assert h.(value := h.value + Folded(folds)) == h;
      AtLineStart(b, r);
      ReadsNothing(start);
    } else {
      var n := |folds| - 1;
      var h1 := h.(value := h.value + Folded(folds[..n]));
      var h2 := h.(value := h.value + Folded(folds));
      var r1, r2 := r.(headers := hs + [h1]), r.(headers := hs + [h2]);
      ReadFolds(b, r, hs, h, folds[..n]);
      ReadFold(b, r1, hs, h1, folds[n]);
      assert h1.value + folds[n].text == h2.value;
      ReadsConcat(start, FoldsText(folds[..n]), Config(LineStart, b, r1), FoldText(folds[n]), Config(LineStart, b, r2));
    }
  }

  lemma {:induction false} ReadLine(b: nat, r: Request, l: Line)
    requires GoodLine(l) && r.content == ""
    ensures Reads(Config(LineStart, b, r), LineText(l),
                  Config(LineStart, b, r.(headers := r.headers + [HeaderOf(l)])))
  {
    hide Run, Reads, Step, Declared, GoodFold, GoodHeader, FoldsText, HeaderLine, LowerCase, Folded;
    var h := Header(l.name, l.first);
    var r1 := WithHeader(r, h);
    ReadHeader(b, r, h);
    ReadFolds(b, r1, r.headers, Header(LowerCase(l.name), l.first), l.folds);
    ReadsConcat(Config(LineStart, b, r), HeaderLine(h), Config(LineStart, b, r1), FoldsText(l.folds),
                Config(LineStart, b, r.(headers := r.headers + [HeaderOf(l)])));
  }

  lemma {:induction false} ReadLines(b: nat, r: Request, lines: seq<Line>)
    requires GoodLines(lines) && r.content == "" && r.headers == []
    ensures Reads(Config(LineStart, b, r), LinesText(lines), Config(LineStart, b, r.(headers := HeadersOf(lines))))
    decreases |lines|
  {
    hide Run, Reads, Step, Declared, GoodLine, LineText, HeaderOf;
    var start := Config(LineStart, b, r);
    if lines == [] {
      AtLineStart(b, r);
      ReadsNothing(start);
    } else {
      var n := |lines| - 1;
      var r1 := r.(headers := HeadersOf(lines[..n]));
      ReadLines(b, r, lines[..n]);
      ReadLine(b, r1, lines[n]);
      ReadsConcat(start, LinesText(lines[..n]), Config(LineStart, b, r1), LineText(lines[n]),
                  Config(LineStart, b, r.(headers := HeadersOf(lines))));
    }
  }

  lemma {:induction false} ReadMoreMajor(b: nat, r: Request, s: string)
    requires AllDigits(s) && r.content == ""
    ensures Reads(Config(Major, b, r), s, Config(Major, b, r.(major := Leading(s, r.major))))
    decreases |s|
  {
    hide Run, Reads, Declared, DigitValue;
    var g := Config(Major, b, r);
    if s == [] {
      ReadsNothing(g);
    } else {
      ReadMoreMajor(b, r.(major := r.major * 10 + DigitValue(s[0])), s[1..]);
      ReadsCons(g, s, Config(Major, b, r.(major := Leading(s, r.major))));
    }
  }

  lemma {:induction false} ReadMoreMinor(b: nat, r: Request, s: string)
    requires AllDigits(s) && r.content == ""
    ensures Reads(Config(Minor, b, r), s, Config(Minor, b, r.(minor := Leading(s, r.minor))))
    decreases |s|
  {
    hide Run, Reads, Declared, DigitValue;
    var g := Config(Minor, b, r);
    if s == [] {
      ReadsNothing(g);
    } else {
      ReadMoreMinor(b, r.(minor := r.minor * 10 + DigitValue(s[0])), s[1..]);
      ReadsCons(g, s, Config(Minor, b, r.(minor := Leading(s, r.minor))));
    }
  }

  /** Both version numbers and the end of the request line. */
  lemma {:induction false} ReadMajorText(b: nat, r: Request, s: string)
    requires s != [] && AllDigits(s) && r.major == 0 && r.content == ""
    ensures Reads(Config(MajorStart, b, r), s + ".", Config(MinorStart, b, r.(major := Leading(s, 0))))
  {
    hide Run, Reads, Declared, DigitValue;
    var r1 := r.(major := Leading(s, 0));
    ReadMoreMajor(b, r.(major := 0 * 10 + DigitValue(s[0])), s[1..]);
    ReadsCons(Config(MajorStart, b, r), s, Config(Major, b, r1));
    ReadsChar(Config(Major, b, r1), '.');
    ReadsConcat(Config(MajorStart, b, r), s, Config(Major, b, r1), ".", Config(MinorStart, b, r1));
  }

  lemma {:induction false} ReadMinorText(b: nat, r: Request, s: string)
    requires s != [] && AllDigits(s) && r.minor == 0 && r.content == ""
    ensures Reads(Config(MinorStart, b, r), s + "\r\n", Config(LineStart, b, r.(minor := Leading(s, 0))))
  {
    hide Run, Reads, Declared, DigitValue;
    var r1 := r.(minor := Leading(s, 0));
    ReadMoreMinor(b, r.(minor := 0 * 10 + DigitValue(s[0])), s[1..]);
    ReadsCons(Config(MinorStart, b, r), s, Config(Minor, b, r1));
    assert "\r\n"[1..] == "\n";
    ReadsChar(Config(Newline1, b, r1), '\n');
    ReadsCons(Config(Minor, b, r1), "\r\n", Config(LineStart, b, r1));
    ReadsConcat(Config(MinorStart, b, r), s, Config(Minor, b, r1), "\r\n", Config(LineStart, b, r1));
  }

  lemma {:induction false} HeadParts(m: Message)
    ensures Head(m) == m.verb + " " + (m.uri + " ") + "HTTP/" + (m.major + ".") + (m.minor + "\r\n")
  {
    assert Target(m) + " HTTP/" == m.verb + " " + (m.uri + " ") + "HTTP/";
  }

  lemma {:induction false} ReadHead(b: nat, m: Message)
    requires m.verb != [] && AllToken(m.verb) && GoodUri(m.uri)
    requires m.major != [] && AllDigits(m.major) && m.minor != [] && AllDigits(m.minor)
    ensures Reads(Config(MethodStart, b, EMPTY), Head(m),
                  Config(LineStart, b, Request(m.verb, m.uri, Leading(m.major, 0), Leading(m.minor, 0), [], "")))
  {
    hide Run, Reads, Step, Declared, AllToken, NoCtl, AllDigits, Head, Leading;
    var r1 := EMPTY.(verb := m.verb);
    var r2 := r1.(uri := m.uri);
    var r3 := r2.(major := Leading(m.major, 0));
    var r4 := r3.(minor := Leading(m.minor, 0));
    var start, t := Config(MethodStart, b, EMPTY), m.verb + " ";
    ReadFirst(b, m.verb);
    ReadSecond(b, r1, m.uri);
    ReadsConcat(start, t, Config(Uri, b, r1), m.uri + " ", Config(VersionH, b, r2));
    t := t + (m.uri + " ");
    ReadProtocol(b, r2);
    ReadsConcat(start, t, Config(VersionH, b, r2), "HTTP/", Config(MajorStart, b, r2));
    t := t + "HTTP/";
    ReadMajorText(b, r2, m.major);
    ReadsConcat(start, t, Config(MajorStart, b, r2), m.major + ".", Config(MinorStart, b, r3));
    t := t + (m.major + ".");
    ReadMinorText(b, r3, m.minor);
    ReadsConcat(start, t, Config(MinorStart, b, r3), m.minor + "\r\n", Config(LineStart, b, r4));
    HeadParts(m);
  }

  /** The text of a well-formed message is accepted at its last byte and means what its
      parts mean. */
  lemma {:induction false} SpelledAccepted(m: Message, b: nat)
    requires WellSpelled(m)
    ensures var o := Run(Config(MethodStart, b, EMPTY), Text(m));
            o.verdict == Accept && o.consumed == |Text(m)| && o.config.req == Meaning(m)
  {
    hide Run, Reads, Step, Declared, AllToken, NoCtl, AllDigits, Head, Leading, GoodUri, GoodLines, LinesText,
         HeadersOf;
    var start := Config(MethodStart, b, EMPTY);
    var r1 := Meaning(m).(headers := [], content := "");
    var r2 := Meaning(m).(content := "");
    ReadHead(b, m);
    ReadLines(b, r1, m.lines);
    ReadsConcat(start, Head(m), Config(LineStart, b, r1), LinesText(m.lines), Config(LineStart, b, r2));
    ReadEnd(b, r2, m.body);
    var s := "\r\n" + m.body;
    Skip(start, Head(m) + LinesText(m.lines), Config(LineStart, b, r2), s, Run(Config(LineStart, b, r2), s));
    assert Head(m) + LinesText(m.lines) + s == Text(m);
  }

  // ----- Only those are accepted ------------------------------------------------------------------

  /** A line without its end. */
  function OpenText(l: Line): string {
    var start := l.name + ": " + l.first;
    if l.folds == [] then start
    else
      var n := |l.folds| - 1;
      start + "\r\n" + FoldsText(l.folds[..n]) + l.folds[n].blanks + l.folds[n].text
  }

  lemma {:induction false} LineClosed(l: Line)
    ensures LineText(l) == OpenText(l) + "\r\n"
  {
    if l.folds != [] {
      var n := |l.folds| - 1;
      var start, t := l.name + ": " + l.first + "\r\n", FoldsText(l.folds[..n]);
      var f := l.folds[n];
      assert start + (t + (f.blanks + f.text + "\r\n")) == start + t + f.blanks + f.text + "\r\n";
    }
  }

  function LastLine(m: Message): Line
    requires m.lines != []
  {
    m.lines[|m.lines| - 1]
  }

  /** What was read before the last header. */
  function BeforeLast(m: Message): string
    requires m.lines != []
  {
    Head(m) + LinesText(m.lines[..|m.lines| - 1])
  }

  predicate InsideHeader(s: State) {
    s in {Name, SpaceBefore, Value, Lws, Newline2}
  }

  predicate InRequestLine(s: State) {
    s in {MethodStart, Method, Uri, VersionH, VersionT1, VersionT2, VersionP, VersionSlash}
  }

  predicate InVersion(s: State) {
    s in {MajorStart, Major, MinorStart, Minor, Newline1}
  }

  /** What has been read when a state is reached. */
  function TextSoFar(s: State, m: Message): string
    requires InsideHeader(s) ==> m.lines != []
  {
    match s
    case MethodStart => ""
    case Method => m.verb
    case Uri => Target(m)
    case VersionH => Target(m) + " "
    case VersionT1 => Target(m) + " H"
    case VersionT2 => Target(m) + " HT"
    case VersionP => Target(m) + " HTT"
    case VersionSlash => Target(m) + " HTTP"
    case MajorStart => UpToMajor(m)
    case Major => UpToMajor(m) + m.major
    case MinorStart => UpToMinor(m)
    case Minor => UpToMinor(m) + m.minor
    case Newline1 => UpToMinor(m) + m.minor + "\r"
    case LineStart => Head(m) + LinesText(m.lines)
    case Name => BeforeLast(m) + LastLine(m).name
    case SpaceBefore => BeforeLast(m) + LastLine(m).name + ":"
    case Value => BeforeLast(m) + OpenText(LastLine(m))
    case Lws => BeforeLast(m) + OpenText(LastLine(m))
    case Newline2 => BeforeLast(m) + OpenText(LastLine(m)) + "\r"
    case Newline3 => Head(m) + LinesText(m.lines) + "\r"
    case Body => Head(m) + LinesText(m.lines) + "\r\n" + m.body
  }

  /** How far the last header has been read. */
  predicate LastFits(s: State, l: Line) {
    && (s in {Name, SpaceBefore} ==> l.first == "" && l.folds == [])
    && (s == Lws ==> l.folds != [] && l.folds[|l.folds| - 1].text == "")
    && (s == Value ==> l.folds == [] || l.folds[|l.folds| - 1].text != "")
  }

  /** The parts read so far are good, and there are none to come yet. */
  predicate Fits(s: State, m: Message) {
    && AllToken(m.verb) && GoodUri(m.uri) && AllDigits(m.major) && AllDigits(m.minor) && GoodLines(m.lines)
    && (m.verb == "" <==> s == MethodStart) && (s == Method ==> m.uri == "")
    && (s == MethodStart ==> m.uri == "")
    && (m.major == "" <==> InRequestLine(s) || s == MajorStart)
    && (m.minor == "" <==> InRequestLine(s) || s in {MajorStart, Major, MinorStart})
    && (InRequestLine(s) || InVersion(s) ==> m.lines == [])
    && (InsideHeader(s) ==> m.lines != [] && LastFits(s, LastLine(m)))
    && (s != Body ==> m.body == "")
  }

  /** The request holds the meaning of the parts read so far. */
  ghost predicate Holds(g: Config, m: Message) {
    Fits(g.state, m) && g.req == Meaning(m)
  }

  /** And they spell the text read so far. */
  ghost predicate Spells(g: Config, m: Message, t: string) {
    Holds(g, m) && t == TextSoFar(g.state, m)
  }

  lemma {:induction false} NextInRequestLine(g: Config, m: Message, c: char) returns (m': Message)
    requires InRequestLine(g.state) && Inv(g) && Holds(g, m) && Step(g, c).1 == More
    ensures Spells(Step(g, c).0, m', TextSoFar(g.state, m) + [c])
  {
    hide IsChar, IsCtl, IsTspecial, IsToken, Declared;
    m' := m;
    if g.state == MethodStart || (g.state == Method && c != ' ') {
      m' := m.(verb := m.verb + [c]);
    } else if g.state == Method {
      assert Target(m) == m.verb + [' '];
    } else if g.state == Uri && c != ' ' {
      m' := m.(uri := m.uri + [c]);
      assert Target(m') == Target(m) + [c];
    } else {
      Letters(Target(m));
    }
  }

  lemma {:induction false} Letters(s: string)
    ensures s + " " + ['H'] == s + " H" && s + " H" + ['T'] == s + " HT" && s + " HT" + ['T'] == s + " HTT"
    ensures s + " HTT" + ['P'] == s + " HTTP" && s + " HTTP" + ['/'] == s + " HTTP/"
  {
  }

  lemma {:induction false} Assoc(s: string, t: string, u: string)
    ensures s + t + u == s + (t + u) && (t == "" ==> s + t == s)
  {
  }

  lemma {:induction false} LineDone(m: Message)
    requires m.lines == []
    ensures TextSoFar(Newline1, m) + ['\n'] == TextSoFar(LineStart, m)
  {
    hide Target;
  }

  lemma {:induction false} SameHead(m: Message, m': Message)
    requires m.verb == m'.verb && m.uri == m'.uri
    ensures UpToMajor(m) == UpToMajor(m')
    ensures m.major == m'.major ==> UpToMinor(m) == UpToMinor(m')
    ensures m.major == m'.major && m.minor == m'.minor ==> Head(m) == Head(m')
  {
  }

  lemma {:induction false} NextInMajor(g: Config, m: Message, c: char) returns (m': Message)
    requires g.state in {MajorStart, Major} && Inv(g) && Holds(g, m) && Step(g, c).1 == More
    ensures Spells(Step(g, c).0, m', TextSoFar(g.state, m) + [c])
  {
    hide IsToken, Declared, DigitValue, GoodUri, UpToMajor;
    m' := m;
    if IsDigit(c) {
      m' := m.(major := m.major + [c]);
      LeadingSnoc(m.major, c, 0);
      Assoc(UpToMajor(m), m.major, [c]);
      SameHead(m, m');
    }
  }

  lemma {:induction false} NextInMinor(g: Config, m: Message, c: char) returns (m': Message)
    requires g.state in {MinorStart, Minor} && Inv(g) && Holds(g, m) && Step(g, c).1 == More
    ensures Spells(Step(g, c).0, m', TextSoFar(g.state, m) + [c])
  {
    hide IsToken, Declared, DigitValue, GoodUri, UpToMajor;
    m' := m;
    if IsDigit(c) {
      m' := m.(minor := m.minor + [c]);
      LeadingSnoc(m.minor, c, 0);
      Assoc(UpToMinor(m), m.minor, [c]);
      SameHead(m, m');
    }
  }

  lemma {:induction false} NextInVersion(g: Config, m: Message, c: char) returns (m': Message)
    requires InVersion(g.state) && Inv(g) && Holds(g, m) && Step(g, c).1 == More
    ensures Spells(Step(g, c).0, m', TextSoFar(g.state, m) + [c])
  {
    if g.state in {MajorStart, Major} {
      m' := NextInMajor(g, m, c);
    } else if g.state in {MinorStart, Minor} {
      m' := NextInMinor(g, m, c);
    } else {
      hide IsToken, Declared, GoodUri;
      m' := m;
      LineDone(m);
    }
  }

  lemma {:induction false} LinesSnoc(m: Message, lines: seq<Line>, l: Line)
    requires m.lines == lines + [l]
    ensures LastLine(m) == l && BeforeLast(m) == Head(m) + LinesText(lines)
    ensures Meaning(m).headers == HeadersOf(lines) + [HeaderOf(l)]
    ensures Head(m) + LinesText(m.lines) == BeforeLast(m) + LineText(l)
    ensures GoodLines(lines) && GoodLine(l) <==> GoodLines(m.lines)
  {
    hide LineText, HeaderOf, GoodLine, Head;
    assert m.lines[..|m.lines| - 1] == lines;
    assert Head(m) + (LinesText(lines) + LineText(l)) == Head(m) + LinesText(lines) + LineText(l);
    assert forall i | 0 <= i < |lines| :: m.lines[i] == lines[i];
    assert m.lines[|lines|] == l;
  }

  /** The message with another last header. */
  function WithLast(m: Message, l: Line): Message
    requires m.lines != []
  {
    m.(lines := m.lines[..|m.lines| - 1] + [l])
  }

  /** One more character in the last header, of its name, its value or its blanks. */
  lemma {:induction false} LastGrows(m: Message, l: Line)
    requires m.lines != [] && GoodLines(m.lines) && GoodLine(l)
    ensures var m' := WithLast(m, l);
            && m'.lines != [] && LastLine(m') == l && BeforeLast(m') == BeforeLast(m) && GoodLines(m'.lines)
            && Meaning(m').headers == Meaning(m).headers[|m.lines| - 1 := HeaderOf(l)]
            && Meaning(m).headers[|m.lines| - 1] == HeaderOf(LastLine(m))
  {
    hide HeaderOf, LineText, GoodLine, Head;
    var n := |m.lines| - 1;
    var m' := WithLast(m, l);
    assert m.lines == m.lines[..n] + [m.lines[n]];
    LinesSnoc(m, m.lines[..n], m.lines[n]);
    LinesSnoc(m', m.lines[..n], l);
    SameHead(m, m');
  }

  /** A name gets one more character. */
  lemma {:induction false} NextInName(g: Config, m: Message, c: char) returns (m': Message)
    requires g.state == Name && Inv(g) && Holds(g, m) && IsToken(c)
    ensures Spells(Step(g, c).0, m', TextSoFar(g.state, m) + [c])
  {
    hide Declared, IsToken, GoodUri, AllDigits, Head, LinesText, HeadersOf, GoodLines, LowerCase, Leading;
    NotBlank(c);
    var l := LastLine(m);
    var l' := l.(name := l.name + [c]);
    GoodLast(m);
    assert GoodLine(l');
    LastGrows(m, l');
    m' := WithLast(m, l');
    LowerParts(l.name, [c]);
    LowerOne(c);
    Assoc(BeforeLast(m), l.name, [c]);
  }

  lemma {:induction false} GoodLast(m: Message)
    requires m.lines != [] && GoodLines(m.lines)
    ensures GoodLine(LastLine(m))
  {
    hide GoodLine;
  }

  /** The value, as far as it has been read, gets one more character. */
  function MoreValue(l: Line, c: char): Line {
    if l.folds == [] then l.(first := l.first + [c])
    else
      var n := |l.folds| - 1;
      var f := l.folds[n];
      l.(folds := l.folds[..n] + [f.(text := f.text + [c])])
  }

  lemma {:induction false} MoreValueIs(l: Line, c: char)
    requires GoodLine(l) && !IsCtl(c)
    requires l.folds != [] && l.folds[|l.folds| - 1].text == "" ==> c != ' '
    ensures var l' := MoreValue(l, c);
            && GoodLine(l') && LastFits(Value, l') && OpenText(l') == OpenText(l) + [c]
            && HeaderOf(l').name == HeaderOf(l).name && HeaderOf(l').value == HeaderOf(l).value + [c]
  {
    hide IsToken, IsCtl, LowerCase;
    if l.folds != [] {
      var n := |l.folds| - 1;
      var f := l.folds[n];
      var f' := f.(text := f.text + [c]);
      assert GoodFold(f');
      var l' := MoreValue(l, c);
      assert l'.folds[..n] == l.folds[..n] && l'.folds[n] == f';
      Assoc(l.first, Folded(l.folds[..n]) + f.text, [c]);
      Assoc(Folded(l.folds[..n]), f.text, [c]);
      Assoc(l.name + ": " + l.first + "\r\n" + FoldsText(l.folds[..n]) + f.blanks, f.text, [c]);
    } else {
      Assoc(l.name + ": ", l.first, [c]);
    }
  }

  lemma {:induction false} NextInValue(g: Config, m: Message, c: char) returns (m': Message)
    requires g.state in {Value, Lws} && Inv(g) && Holds(g, m) && !IsCtl(c)
    requires g.state == Lws ==> c != ' '
    ensures Spells(Step(g, c).0, m', TextSoFar(g.state, m) + [c])
  {
    hide Declared, IsToken, IsCtl, GoodUri, AllDigits, Head, LinesText, HeadersOf, GoodLines, GoodLine, Leading,
         OpenText, HeaderOf, MoreValue;
    var l := LastLine(m);
    GoodLast(m);
    MoreValueIs(l, c);
    LastGrows(m, MoreValue(l, c));
    m' := WithLast(m, MoreValue(l, c));
    Assoc(BeforeLast(m), OpenText(l), [c]);
    NotCtl(c);
  }

  lemma {:induction false} NotCtl(c: char)
    requires !IsCtl(c)
    ensures c != '\r' && c != '\t' && c != '\n'
  {
  }

  /** A new header starts. */
  lemma {:induction false} NextStartsName(g: Config, m: Message, c: char) returns (m': Message)
    requires g.state == LineStart && Inv(g) && Holds(g, m) && IsToken(c)
    ensures Spells(Step(g, c).0, m', TextSoFar(g.state, m) + [c])
  {
    hide Declared, IsToken, GoodUri, AllDigits, Head, LinesText, HeadersOf, GoodLines, LowerCase, Leading;
    NotBlank(c);
    var l := Line([c], "", []);
    LowerOne(c);
    assert GoodLine(l) && HeaderOf(l) == Header([ToLower(c)], "");
    m' := m.(lines := m.lines + [l]);
    LinesSnoc(m', m.lines, l);
    SameHead(m, m');
  }

  /** A continuation line starts. */
  lemma {:induction false} FoldStarts(l: Line, c: char)
    requires GoodLine(l) && IsBlank(c)
    ensures var l' := l.(folds := l.folds + [Fold([c], "")]);
            && GoodLine(l') && LastFits(Lws, l') && OpenText(l') == LineText(l) + [c] && HeaderOf(l') == HeaderOf(l)
  {
    hide IsToken, IsCtl, LowerCase, FoldText;
    var f := Fold([c], "");
    var l' := l.(folds := l.folds + [f]);
    assert GoodFold(f);
    assert l'.folds[..|l.folds|] == l.folds && l'.folds[|l.folds|] == f;
    assert Folded(l.folds) + "" == Folded(l.folds);
    var start := l.name + ": " + l.first + "\r\n";
    assert start + FoldsText(l.folds) + [c] + "" == start + FoldsText(l.folds) + [c];
  }

  lemma {:induction false} NextStartsFold(g: Config, m: Message, c: char) returns (m': Message)
    requires g.state == LineStart && Inv(g) && Holds(g, m) && m.lines != [] && IsBlank(c)
    ensures Spells(Step(g, c).0, m', TextSoFar(g.state, m) + [c])
  {
    hide Declared, IsToken, GoodUri, AllDigits, Head, LinesText, HeadersOf, GoodLines, GoodLine, Leading,
         OpenText, HeaderOf, LineText;
    var l := LastLine(m);
    GoodLast(m);
    FoldStarts(l, c);
    var l' := l.(folds := l.folds + [Fold([c], "")]);
    LastGrows(m, l');
    m' := WithLast(m, l');
    assert m.lines == m.lines[..|m.lines| - 1] + [l];
    LinesSnoc(m, m.lines[..|m.lines| - 1], l);
    Assoc(BeforeLast(m), LineText(l), [c]);
  }

  /** One more blank. */
  lemma {:induction false} BlankGrows(l: Line, c: char)
    requires GoodLine(l) && LastFits(Lws, l) && IsBlank(c)
    ensures var n := |l.folds| - 1;
            var l' := l.(folds := l.folds[..n] + [Fold(l.folds[n].blanks + [c], "")]);
            && GoodLine(l') && LastFits(Lws, l') && OpenText(l') == OpenText(l) + [c] && HeaderOf(l') == HeaderOf(l)
  {
    hide IsToken, IsCtl, LowerCase, FoldText;
    var n := |l.folds| - 1;
    var f := Fold(l.folds[n].blanks + [c], "");
    var l' := l.(folds := l.folds[..n] + [f]);
    assert GoodFold(l.folds[n]) && GoodFold(f);
    assert l'.folds[..n] == l.folds[..n] && l'.folds[n] == f;
    var start := l.name + ": " + l.first + "\r\n" + FoldsText(l.folds[..n]);
    Assoc(start, l.folds[n].blanks, [c]);
    assert start + f.blanks + "" == start + f.blanks && start + l.folds[n].blanks + "" == start + l.folds[n].blanks;
  }

  lemma {:induction false} NextInBlanks(g: Config, m: Message, c: char) returns (m': Message)
    requires g.state == Lws && Inv(g) && Holds(g, m) && IsBlank(c)
    ensures Spells(Step(g, c).0, m', TextSoFar(g.state, m) + [c])
  {
    hide Declared, IsToken, GoodUri, AllDigits, Head, LinesText, HeadersOf, GoodLines, GoodLine, Leading,
         OpenText, HeaderOf, LineText;
    var l := LastLine(m);
    GoodLast(m);
    BlankGrows(l, c);
    var n := |l.folds| - 1;
    var l' := l.(folds := l.folds[..n] + [Fold(l.folds[n].blanks + [c], "")]);
    LastGrows(m, l');
    m' := WithLast(m, l');
    Assoc(BeforeLast(m), OpenText(l), [c]);
  }

  /** The colon, the blank after it, and the ends of lines. */
  lemma {:induction false} NextMark(g: Config, m: Message, c: char)
    requires g.state in {Name, SpaceBefore, Value, Lws, Newline2} && Inv(g) && Holds(g, m) && Step(g, c).1 == More
    requires g.state == Name ==> c == ':'
    requires g.state in {Value, Lws} ==> c == '\r'
    ensures Spells(Step(g, c).0, m, TextSoFar(g.state, m) + [c])
  {
    hide Declared, IsToken, IsCtl, GoodUri, AllDigits, Head, LinesText, HeadersOf, GoodLines, Leading, OpenText,
         BeforeLast, AllToken;
    var l := LastLine(m);
    if g.state == SpaceBefore {
      ValueStarts(BeforeLast(m), l);
    } else if g.state == Newline2 {
      HeaderEnds(m);
    }
  }

  lemma {:induction false} ValueStarts(before: string, l: Line)
    requires l.first == "" && l.folds == []
    ensures before + l.name + ":" + [' '] == before + OpenText(l)
  {
    assert l.name + ": " + "" == l.name + ":" + [' '];
  }

  lemma {:induction false} HeaderEnds(m: Message)
    requires m.lines != []
    ensures BeforeLast(m) + OpenText(LastLine(m)) + "\r" + ['\n'] == Head(m) + LinesText(m.lines)
  {
    hide OpenText, LineText, Head, LinesText;
    var l := LastLine(m);
    assert m.lines == m.lines[..|m.lines| - 1] + [l];
    LinesSnoc(m, m.lines[..|m.lines| - 1], l);
    LineClosed(l);
    assert BeforeLast(m) + OpenText(l) + "\r" + ['\n'] == BeforeLast(m) + (OpenText(l) + "\r\n");
  }

  lemma {:induction false} NextInHeaders(g: Config, m: Message, c: char) returns (m': Message)
    requires (g.state == LineStart || InsideHeader(g.state)) && Inv(g) && Holds(g, m) && Step(g, c).1 == More
    ensures Spells(Step(g, c).0, m', TextSoFar(g.state, m) + [c])
  {
    hide Declared, IsToken, IsCtl, GoodUri, AllDigits, Head, LinesText, GoodLines, GoodLine, Leading, LineText,
         OpenText, AllToken;
    m' := m;
    if g.state == LineStart && c != '\r' {
      if IsBlank(c) && m.lines != [] {
        m' := NextStartsFold(g, m, c);
      } else {
        m' := NextStartsName(g, m, c);
      }
    } else if g.state == Name && c != ':' {
      m' := NextInName(g, m, c);
    } else if g.state == Lws && IsBlank(c) {
      m' := NextInBlanks(g, m, c);
    } else if g.state in {Value, Lws} && c != '\r' {
      m' := NextInValue(g, m, c);
    } else if g.state != LineStart {
      NextMark(g, m, c);
    }
  }

  /** The end of the headers and the body. */
  lemma {:induction false} NextInBody(g: Config, m: Message, c: char) returns (m': Message)
    requires g.state in {Newline3, Body} && Inv(g) && Holds(g, m) && Step(g, c).1 != Reject
    ensures Step(g, c).1 == More ==> Spells(Step(g, c).0, m', TextSoFar(g.state, m) + [c])
    ensures Step(g, c).1 == Accept ==>
              WellSpelled(m') && Step(g, c).0.req == Meaning(m') && Text(m') == TextSoFar(g.state, m) + [c]
  {
    hide Declared, IsToken, GoodUri, AllDigits, Head, LinesText, GoodLines, Leading, HeadersOf, AllToken;
    StepInv(g, c);
    if g.state == Newline3 {
      m' := m;
      var t := Head(m) + LinesText(m.lines);
      assert t + "\r" + ['\n'] == t + "\r\n" == t + "\r\n" + "";
    } else {
      m' := m.(body := m.body + [c]);
      SameHead(m, m');
      Assoc(Head(m) + LinesText(m.lines) + "\r\n", m.body, [c]);
    }
  }

  lemma {:induction false} Next(g: Config, m: Message, c: char) returns (m': Message)
    requires Inv(g) && Holds(g, m) && Step(g, c).1 != Reject
    ensures Step(g, c).1 == More ==> Spells(Step(g, c).0, m', TextSoFar(g.state, m) + [c])
    ensures Step(g, c).1 == Accept ==>
              WellSpelled(m') && Step(g, c).0.req == Meaning(m') && Text(m') == TextSoFar(g.state, m) + [c]
  {
    if g.state in {Newline3, Body} {
      m' := NextInBody(g, m, c);
    } else {
      OnlyEndAccepts(g, c);
      hide Step, Declared, Holds, Spells;
      if InRequestLine(g.state) {
        m' := NextInRequestLine(g, m, c);
      } else if InVersion(g.state) {
        m' := NextInVersion(g, m, c);
      } else {
        m' := NextInHeaders(g, m, c);
      }
    }
  }

  lemma {:induction false} OnlyEndAccepts(g: Config, c: char)
    requires Inv(g) && g.state !in {Newline3, Body}
    ensures Step(g, c).1 != Accept
  {
    hide Declared, IsToken, IsCtl;
  }

  lemma {:induction false} HasLine(g: Config, m: Message)
    requires Holds(g, m)
    ensures InsideHeader(g.state) ==> m.lines != []
  {
  }

  lemma {:induction false} OneMore(t: string, input: string, n: nat)
    requires 1 <= n <= |input|
    ensures t + [input[0]] + input[1..][..n - 1] == t + input[..n]
  {
  }

  lemma {:induction false} RunSpells(g: Config, m: Message, input: string) returns (m': Message)
    requires Inv(g) && Holds(g, m) && Run(g, input).verdict == Accept
    ensures WellSpelled(m') && Meaning(m') == Run(g, input).config.req
    ensures Text(m') == TextSoFar(g.state, m) + input[..Run(g, input).consumed]
    decreases |input|
  {
    hide Step, Holds, WellSpelled, Text, TextSoFar, Meaning, Declared, InsideHeader;
    HasLine(g, m);
    var c, t := input[0], TextSoFar(g.state, m);
    StepInv(g, c);
    m' := Next(g, m, c);
    var n := Run(g, input).consumed;
    if Step(g, c).1 == More {
      HasLine(Step(g, c).0, m');
      m' := RunSpells(Step(g, c).0, m', input[1..]);
      OneMore(t, input, n);
    } else {
      assert input[..1] == [c];
    }
  }

  /** The parser accepts an input at its last byte, with a certain request, exactly when the
      input is the text of a well-formed message that means that request. */
  lemma {:induction false} AcceptsExactly(input: string, req: Request, b: nat)
    ensures var o := Run(Config(MethodStart, b, EMPTY), input);
            (o.verdict == Accept && o.consumed == |input| && o.config.req == req)
            <==> exists m :: WellSpelled(m) && Text(m) == input && Meaning(m) == req
  {
    hide Run, WellSpelled, Text;
    var start := Config(MethodStart, b, EMPTY);
    var o := Run(start, input);
    if o.verdict == Accept && o.consumed == |input| && o.config.req == req {
      var m := RunSpells(start, Message("", "", "", "", [], ""), input);
      assert "" + input[..|input|] == input;
    }
    forall m | WellSpelled(m) && Text(m) == input && Meaning(m) == req
      ensures o.verdict == Accept && o.consumed == |input| && o.config.req == req
    {
      SpelledAccepted(m, b);
    }
  }

  /** The beginning of a well-formed message is never refused. */
  lemma {:induction false} BeginningNotRefused(input: string, m: Message, b: nat)
    requires WellSpelled(m) && input <= Text(m)
    ensures Run(Config(MethodStart, b, EMPTY), input).verdict != Reject
  {
    hide Run, WellSpelled, Text;
    var rest := Text(m)[|input|..];
    assert input + rest == Text(m);
    SpelledAccepted(m, b);
    RunConcat(Config(MethodStart, b, EMPTY), input, rest);
  }
}
