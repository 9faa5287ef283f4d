/**
 http_parse.c, the request line: http_parse_command over a chunk, with the rewriting of an
 absolute-form request target (RFC 7230, section 5.3.2) to origin form (section 5.3.1) that the
 backend mode does in place.
 */
module HttpLine {
  import opened Bytes

  const HTTP_METHOD_MAX: nat := 32
  const HTTP_URL_MAX: nat := 1024
  const HTTP_HOST_MAX: nat := 64
  const HTTP_PORT_MAX: nat := 32
  const HTTP_SCHEMA_MAX: nat := 32

  datatype Code = PARSE_NULL | AGAIN | OK | HEADOVER | ERR | ERR_METHOD | ERR_URL | ERR_HOST | ERR_PORT | ERR_SCHEMA
    | ERR_HEADNAME | ERR_HEAD
    /** not of the source: the line is an ftp one, whose user name lookahead is not modelled */
    | FTP

  datatype Method = UNSET | GET | POST | HEAD | OPTIONS | PROPFIND | MKCOL | DELETE | COPY | MOVE | PROPPATCH
    | REPORT | CHECKOUT | CHECKIN | VERSION_CONTROL | UNCHECKOUT | MKACTIVITY | MERGE | LOCK | UNLOCK | LABEL | CONNECT

  datatype Scheme = HTTP | FTP_SCHEME | HTTPS | UNKNOWN

  datatype Stat = Start | InMethod | SpacesBeforeUri | InSchema | SchemaSlash | SchemaSlashSlash | CheckAt
    | SpacesBeforeHost | InHost | InPort | AfterSlashInUri | InUri | Http09 | AlmostDone

  const SP: byte := 32
  const TAB: byte := 9
  const CR: byte := 13
  const LF: byte := 10
  const SLASH: byte := 47
  const COLON: byte := 58
  const DASH: byte := 45
  const DOT: byte := 46

  predicate IsUpper(p: byte) { 65 <= p <= 90 }
  predicate IsLetter(p: byte) { 65 <= p <= 90 || 97 <= p <= 122 }
  predicate IsDigit(p: byte) { 48 <= p <= 57 }

  /** `p | 0x20` on letters. */
  function Lower(p: byte): (c: byte)
    ensures IsLetter(p) ==> 97 <= c <= 122 && (c == p || c == p + 32)
  {
    if IsUpper(p) then p + 32 else p
  }

  function Lowered(s: seq<byte>): (r: seq<byte>)
    ensures |r| == |s| && forall i :: 0 <= i < |s| ==> r[i] == Lower(s[i])
  {
    seq(|s|, i requires 0 <= i < |s| => Lower(s[i]))
  }

  /** http_memcmp against a name of the same length */
  predicate Is(p: seq<byte>, name: string) {
    |p| == |name| && forall i :: 0 <= i < |p| ==> p[i] == name[i] as int
  }

  /** http_get_method: the three-letter case compares three letters of "POST". */
  function MethodOf(p: seq<byte>): Method {
    match |p|
    case 3 => if Is(p, "GET") then GET else if Is(p, "POS") then POST else UNSET
    case 4 =>
      if Is(p, "POST") then POST else if Is(p, "HEAD") then HEAD else if Is(p, "COPY") then COPY
      else if Is(p, "LOCK") then LOCK else if Is(p, "MOVE") then MOVE else UNSET
    case 5 =>
      if Is(p, "MKCOL") then MKCOL else if Is(p, "LABEL") then LABEL
      else if Is(p, "MERGE") then MERGE else UNSET
    case 6 =>
      if Is(p, "DELETE") then DELETE else if Is(p, "REPORT") then REPORT
      else if Is(p, "UNLOCK") then UNLOCK else UNSET
    case 7 =>
      if Is(p, "CONNECT") then CONNECT else if Is(p, "OPTIONS") then OPTIONS
      else if Is(p, "CHECKIN") then CHECKIN else UNSET
    case 8 => if Is(p, "PROPFIND") then PROPFIND else if Is(p, "CHECKOUT") then CHECKOUT else UNSET
    case 9 => if Is(p, "PROPPATCH") then PROPPATCH else UNSET
    case 10 => if Is(p, "MKACTIVITY") then MKACTIVITY else if Is(p, "UNCHECKOUT") then UNCHECKOUT else UNSET
    case 15 => if Is(p, "VERSION-CONTROL") then VERSION_CONTROL else UNSET
    case _ => UNSET
  }

  /** So POST has two names. */
  lemma PostNames(p: seq<byte>)
    ensures MethodOf(p) == POST <==> Is(p, "POST") || Is(p, "POS")
  {
    if Is(p, "POS") {
      assert p[0] == "POS"[0] as int && "GET"[0] as int != p[0];
    }
  }

  /** The names of the methods in RFC 7231, 4918 and 3253. */
  function NameOf(m: Method): string {
    match m
    case UNSET => ""
    case GET => "GET"
    case POST => "POST"
    case HEAD => "HEAD"
    case OPTIONS => "OPTIONS"
    case PROPFIND => "PROPFIND"
    case MKCOL => "MKCOL"
    case DELETE => "DELETE"
    case COPY => "COPY"
    case MOVE => "MOVE"
    case PROPPATCH => "PROPPATCH"
    case REPORT => "REPORT"
    case CHECKOUT => "CHECKOUT"
    case CHECKIN => "CHECKIN"
    case VERSION_CONTROL => "VERSION-CONTROL"
    case UNCHECKOUT => "UNCHECKOUT"
    case MKACTIVITY => "MKACTIVITY"
    case MERGE => "MERGE"
    case LOCK => "LOCK"
    case UNLOCK => "UNLOCK"
    case LABEL => "LABEL"
    case CONNECT => "CONNECT"
  }

  /** Length and first letters of a name. */
  predicate Begins(s: string, m: Method)
    requires |s| > 1
  {
    match m
    case UNSET => false
    case GET => s[0] == 'G' && s[1] == 'E' && |s| == 3
    case POST => s[0] == 'P' && s[1] == 'O' && |s| == 4
    case HEAD => s[0] == 'H' && s[1] == 'E' && |s| == 4
    case OPTIONS => s[0] == 'O' && s[1] == 'P' && |s| == 7
    case PROPFIND => s[0] == 'P' && s[1] == 'R' && |s| == 8
    case MKCOL => s[0] == 'M' && s[1] == 'K' && |s| == 5
    case DELETE => s[0] == 'D' && s[1] == 'E' && |s| == 6
    case COPY => s[0] == 'C' && s[1] == 'O' && |s| == 4
    case MOVE => s[0] == 'M' && s[1] == 'O' && |s| == 4
    case PROPPATCH => s[0] == 'P' && s[1] == 'R' && |s| == 9
    case REPORT => s[0] == 'R' && s[1] == 'E' && |s| == 6
    case CHECKOUT => s[0] == 'C' && s[1] == 'H' && |s| == 8
    case CHECKIN => s[0] == 'C' && s[1] == 'H' && |s| == 7
    case VERSION_CONTROL => s[0] == 'V' && s[1] == 'E' && |s| == 15
    case UNCHECKOUT => s[0] == 'U' && s[1] == 'N' && |s| == 10
    case MKACTIVITY => s[0] == 'M' && s[1] == 'K' && |s| == 10
    case MERGE => s[0] == 'M' && s[1] == 'E' && |s| == 5
    case LOCK => s[0] == 'L' && s[1] == 'O' && |s| == 4
    case UNLOCK => s[0] == 'U' && s[1] == 'N' && |s| == 6
    case LABEL => s[0] == 'L' && s[1] == 'A' && |s| == 5
    case CONNECT => s[0] == 'C' && s[1] == 'O' && |s| == 7
  }

  lemma NameBegins(m: Method)
    requires m != UNSET
    ensures |NameOf(m)| > 1 && Begins(NameOf(m), m)
  {}

  lemma BeginsOnce(s: string, m: Method, k: Method)
    requires |s| > 1 && Begins(s, m) && Begins(s, k)
    ensures m == k
  {}

  lemma SameName(p: seq<byte>, a: string, b: string)
    requires Is(p, a) && Is(p, b)
    ensures a == b
  {
    forall i | 0 <= i < |a| ensures a[i] == b[i] { assert p[i] == a[i] as int == b[i] as int; }
  }

  /** The name of a method stands for it, and apart from POS no other does. */
  lemma MethodExact(p: seq<byte>, m: Method)
    requires m != UNSET
    ensures MethodOf(p) == m <==> Is(p, NameOf(m)) || (m == POST && Is(p, "POS"))
  {
    hide Is, Begins;
    if Is(p, "POS") { PostNames(p); }
    if Is(p, NameOf(m)) {
      OnlyName(p, m);
      OnlyOne(p, m);
      NotPos(p, m);
    }
  }

  lemma OnlyOne(p: seq<byte>, m: Method)
    requires m != UNSET && Is(p, NameOf(m)) && forall k: Method :: k != UNSET && Is(p, NameOf(k)) ==> k == m
    ensures |p| == |NameOf(m)|
    ensures (Is(p, "GET") ==> m == GET) && (Is(p, "POST") ==> m == POST)
    ensures (Is(p, "HEAD") ==> m == HEAD) && (Is(p, "OPTIONS") ==> m == OPTIONS)
    ensures (Is(p, "PROPFIND") ==> m == PROPFIND) && (Is(p, "MKCOL") ==> m == MKCOL)
    ensures (Is(p, "DELETE") ==> m == DELETE) && (Is(p, "COPY") ==> m == COPY)
    ensures (Is(p, "MOVE") ==> m == MOVE) && (Is(p, "PROPPATCH") ==> m == PROPPATCH)
    ensures (Is(p, "REPORT") ==> m == REPORT) && (Is(p, "CHECKOUT") ==> m == CHECKOUT)
    ensures (Is(p, "CHECKIN") ==> m == CHECKIN) && (Is(p, "VERSION-CONTROL") ==> m == VERSION_CONTROL)
    ensures (Is(p, "UNCHECKOUT") ==> m == UNCHECKOUT) && (Is(p, "MKACTIVITY") ==> m == MKACTIVITY)
    ensures (Is(p, "MERGE") ==> m == MERGE) && (Is(p, "LOCK") ==> m == LOCK)
    ensures (Is(p, "UNLOCK") ==> m == UNLOCK) && (Is(p, "LABEL") ==> m == LABEL)
    ensures (Is(p, "CONNECT") ==> m == CONNECT)
  {
    assert forall k: Method :: Is(p, NameOf(k)) ==> |p| == |NameOf(k)|;
    assert NameOf(GET) == "GET";
    assert NameOf(POST) == "POST";
    assert NameOf(HEAD) == "HEAD";
    assert NameOf(OPTIONS) == "OPTIONS";
    assert NameOf(PROPFIND) == "PROPFIND";
    assert NameOf(MKCOL) == "MKCOL";
    assert NameOf(DELETE) == "DELETE";
    assert NameOf(COPY) == "COPY";
    assert NameOf(MOVE) == "MOVE";
    assert NameOf(PROPPATCH) == "PROPPATCH";
    assert NameOf(REPORT) == "REPORT";
    assert NameOf(CHECKOUT) == "CHECKOUT";
    assert NameOf(CHECKIN) == "CHECKIN";
    assert NameOf(VERSION_CONTROL) == "VERSION-CONTROL";
    assert NameOf(UNCHECKOUT) == "UNCHECKOUT";
    assert NameOf(MKACTIVITY) == "MKACTIVITY";
    assert NameOf(MERGE) == "MERGE";
    assert NameOf(LOCK) == "LOCK";
    assert NameOf(UNLOCK) == "UNLOCK";
    assert NameOf(LABEL) == "LABEL";
    assert NameOf(CONNECT) == "CONNECT";
  }

  lemma NotPos(p: seq<byte>, m: Method)
    requires m != UNSET && Is(p, NameOf(m))
    ensures !Is(p, "POS")
  {
    if |p| == 3 {
      assert p[0] == NameOf(m)[0] as int == 71;
      assert "POS"[0] == 'P';
    }
  }

  lemma OnlyName(p: seq<byte>, m: Method)
    requires m != UNSET && Is(p, NameOf(m))
    ensures forall k: Method :: k != UNSET && Is(p, NameOf(k)) ==> k == m
  {
    hide NameOf, Begins, Is;
    forall k: Method | k != UNSET && Is(p, NameOf(k)) ensures k == m {
      SameName(p, NameOf(m), NameOf(k));
      NameBegins(m);
      NameBegins(k);
      BeginsOnce(NameOf(m), m, k);
    }
  }

  /** http_get_schema */
  function SchemeOf(p: seq<byte>): Scheme {
    if p == [] then HTTP
    else if Is(p, "ftp") then FTP_SCHEME
    else if Is(p, "http") then HTTP
    else if Is(p, "https") then HTTPS
    else UNKNOWN
  }

  lemma SchemeExact(p: seq<byte>)
    ensures SchemeOf(p) == HTTP <==> p == [] || Is(p, "http")
    ensures SchemeOf(p) == HTTPS <==> Is(p, "https")
    ensures SchemeOf(p) == FTP_SCHEME <==> Is(p, "ftp")
  {
    assert Is(p, "http") ==> |p| == 4;
    assert Is(p, "https") ==> |p| == 5;
    assert Is(p, "ftp") ==> |p| == 3;
  }

  /** atoi on decimal digits */
  function Decimal(p: seq<byte>): nat {
    if p == [] then 0
    else Decimal(p[..|p| - 1]) * 10 + (if IsDigit(p[|p| - 1]) then p[|p| - 1] - 48 else 0)
  }

  /** http_get_port */
  function PortOf(p: seq<byte>): int {
    if p == [] then 80
    else if |p| > 5 || exists i :: 0 <= i < |p| && !IsDigit(p[i]) then -1
    else if 0 < Decimal(p) <= 65535 then Decimal(p) else -1
  }

  /** The parse state in http_req_t. */
  datatype Line = Line(stat: Stat, kind: Method, verb: seq<byte>, schema: seq<byte>, url: seq<byte>, host: seq<byte>,
    port: seq<byte>)

  const FRESH := Line(Start, UNSET, [], [], [], [], [])

  /** One byte: the parser goes on and keeps or deletes the byte, it accepts the line, or it fails. */
  datatype Turn = Go(line: Line, gone: bool) | Accept(line: Line) | Fail(code: Code)

  predicate Full(buf: seq<byte>, max: nat) {
    |buf| == max - 1
  }

  function PushUrl(l: Line, p: byte, stat: Stat, gone: bool): Turn {
    if Full(l.url, HTTP_URL_MAX) then Fail(ERR_URL) else Go(l.(url := l.url + [p], stat := stat), gone)
  }

  function PushHost(l: Line, p: byte): Turn {
    if Full(l.host, HTTP_HOST_MAX) then Fail(ERR_HOST) else PushUrl(l.(host := l.host + [p]), p, InHost, true)
  }

  /** The switch of http_parse_command. */
  function Step(l: Line, p: byte): Turn {
    match l.stat
    case Start =>
      if p == CR || p == LF then Go(l, false)
      else if !IsUpper(p) && p != DASH then Fail(ERR_METHOD)
      else if Full(l.verb, HTTP_METHOD_MAX) then Fail(ERR_METHOD)
      else Go(l.(verb := l.verb + [p], stat := InMethod), false)
    case InMethod =>
      if p == SP then
        var kind := MethodOf(l.verb);
        if kind == UNSET then Fail(ERR_METHOD)
        else Go(l.(kind := kind, stat := if kind == CONNECT then SpacesBeforeHost else SpacesBeforeUri), false)
      else if !IsUpper(p) && p != DASH then Fail(ERR_METHOD)
      else if Full(l.verb, HTTP_METHOD_MAX) then Fail(ERR_METHOD)
      else Go(l.(verb := l.verb + [p]), false)
    case SpacesBeforeUri =>
      if p == SP || p == TAB then Go(l, false)
      else if p == SLASH then Go(l.(url := [p], stat := InUri), false)
      else if !IsLetter(p) then Fail(ERR_URL)
      else if Full(l.schema, HTTP_SCHEMA_MAX) then Fail(ERR_SCHEMA)
      else Go(l.(url := [Lower(p)], schema := l.schema + [Lower(p)], stat := InSchema), true)
    case InSchema =>
      if IsLetter(p) then
        if Full(l.schema, HTTP_SCHEMA_MAX) then Fail(ERR_SCHEMA)
        else PushUrl(l.(schema := l.schema + [Lower(p)]), Lower(p), InSchema, true)
      else if p == COLON then PushUrl(l, p, SchemaSlash, true)
      else Fail(ERR_URL)
    case SchemaSlash => if p == SLASH then PushUrl(l, p, SchemaSlashSlash, true) else Fail(ERR_URL)
    case SchemaSlashSlash =>
      if p == SLASH then PushUrl(l, p, if Is(l.schema, "ftp") then CheckAt else InHost, true) else Fail(ERR_URL)
    case CheckAt => Fail(FTP)
    case SpacesBeforeHost => if p == SP || p == TAB then Go(l, false) else HostStep(l, p)
    case InHost => HostStep(l, p)
    case InPort =>
      if IsDigit(p) then
        if Full(l.port, HTTP_PORT_MAX) then Fail(ERR_PORT) else PushUrl(l.(port := l.port + [p]), p, InPort, true)
      else if p == SLASH then PushUrl(l, p, AfterSlashInUri, false)
      else if p == SP then Go(l.(stat := Http09), false)
      else Fail(ERR_URL)
    case AfterSlashInUri => UriStep(l, p)
    case InUri => UriStep(l, p)
    case Http09 =>
      if p == CR then Go(l.(stat := AlmostDone), false) else if p == LF then Accept(l) else Go(l, false)
    case AlmostDone => if p == LF then Accept(l) else Fail(ERR)
  }

  function HostStep(l: Line, p: byte): Turn {
    if IsLetter(p) then PushHost(l, Lower(p))
    else if IsDigit(p) || p == DOT || p == DASH then PushHost(l, p)
    else if p == COLON then PushUrl(l, p, InPort, true)
    else if p == SLASH then PushUrl(l, p, AfterSlashInUri, false)
    else if p == SP then Go(l.(stat := Http09), false)
    else Fail(ERR_URL)
  }

  function UriStep(l: Line, p: byte): Turn {
    if p == SP then Go(l.(stat := Http09), false)
    else if p == CR then Go(l.(stat := AlmostDone), false)
    else if p == LF then Accept(l)
    else PushUrl(l, Lower(p), l.stat, false)
  }

  /** The checks after the end of the line. */
  function Verdict(l: Line): Code {
    if SchemeOf(l.schema) == UNKNOWN then ERR_SCHEMA
    else if PortOf(l.port) == -1 then ERR_PORT
    else OK
  }

  /** A parse of some bytes: the state reached, the bytes kept of those read, and the bytes not read. */
  datatype Parse = Parse(line: Line, kept: seq<byte>, rest: seq<byte>, code: Code)

  function Keep(k: seq<byte>, parse: Parse): Parse {
    parse.(kept := k + parse.kept)
  }

  function Scan(l: Line, s: seq<byte>, backend: bool): Parse
    decreases s
  {
    if s == [] then Parse(l, [], [], AGAIN)
    else
      match Step(l, s[0])
      case Go(m, gone) => Keep(if gone && backend then [] else [s[0]], Scan(m, s[1..], backend))
      case Accept(m) => Parse(m, [s[0]], s[1..], Verdict(m))
      case Fail(code) => Parse(l, [s[0]], s[1..], code)
  }

  /** Resumption: what was not parsed yet is parsed from the state that was left. */
  lemma {:induction false} ScanResumes(l: Line, s: seq<byte>, t: seq<byte>, backend: bool)
    requires Scan(l, s, backend).code == AGAIN
    ensures Scan(l, s, backend).rest == []
    ensures Scan(l, s + t, backend) == Keep(Scan(l, s, backend).kept, Scan(Scan(l, s, backend).line, t, backend))
    decreases s
  {
    if s == [] {
      assert s + t == t;
    } else {
      assert (s + t)[1..] == s[1..] + t;
      var turn := Step(l, s[0]);
      if turn.Go? {
        ScanResumes(turn.line, s[1..], t, backend);
        var k: seq<byte> := if turn.gone && backend then [] else [s[0]];
        var deep := Scan(turn.line, s[1..], backend);
        KeepTwice(k, deep.kept, Scan(deep.line, t, backend));
      }
    }
  }

  lemma KeepTwice(a: seq<byte>, b: seq<byte>, parse: Parse)
    ensures Keep(a, Keep(b, parse)) == Keep(a + b, parse)
  {}

  /** A verdict does not depend on what follows the bytes it was reached on. */
  lemma {:induction false} ScanDecided(l: Line, s: seq<byte>, t: seq<byte>, backend: bool)
    requires Scan(l, s, backend).code != AGAIN
    ensures var a, b := Scan(l, s, backend), Scan(l, s + t, backend);
      b.code == a.code && b.line == a.line && b.kept == a.kept && b.rest == a.rest + t
    decreases s
  {
    if s != [] {
      assert (s + t)[1..] == s[1..] + t;
      var turn := Step(l, s[0]);
      if turn.Go? {
        ScanDecided(turn.line, s[1..], t, backend);
      }
    }
  }

  /** `k` is `s` with some bytes taken out. */
  predicate Part(k: seq<byte>, s: seq<byte>)
    decreases |s|
  {
    k == [] || (s != [] && ((k[0] == s[0] && Part(k[1..], s[1..])) || Part(k, s[1..])))
  }

  lemma {:induction false} PartSelf(s: seq<byte>)
    ensures Part(s, s)
  {
    if s != [] { PartSelf(s[1..]); }
  }

  lemma PartStep(k: seq<byte>, p: byte, s: seq<byte>)
    requires Part(k, s)
    ensures Part(k, [p] + s) && Part([p] + k, [p] + s)
  {
    assert ([p] + s)[1..] == s && ([p] + k)[1..] == k;
  }

  /** Without rewriting nothing is deleted; with it, what is kept and not read yet is what arrived with some bytes
      taken out. */
  lemma {:induction false} ScanKeeps(l: Line, s: seq<byte>, backend: bool)
    ensures var p := Scan(l, s, backend); Part(p.kept + p.rest, s) && (!backend ==> p.kept + p.rest == s)
    decreases s
  {
    hide Step, Part;
    PartSelf(s);
    if s == [] || !Step(l, s[0]).Go? {
      assert Scan(l, s, backend).kept + Scan(l, s, backend).rest == s;
    } else {
      ScanKeeps(Step(l, s[0]).line, s[1..], backend);
      KeepsStep(l, s, backend);
    }
  }

  lemma KeepsStep(l: Line, s: seq<byte>, backend: bool)
    requires s != [] && Step(l, s[0]).Go?
    requires var q := Scan(Step(l, s[0]).line, s[1..], backend);
      Part(q.kept + q.rest, s[1..]) && (!backend ==> q.kept + q.rest == s[1..])
    ensures var p := Scan(l, s, backend); Part(p.kept + p.rest, s) && (!backend ==> p.kept + p.rest == s)
  {
    hide Step, Part;
    ScanGo(l, s, backend);
    hide Scan;
    var q := Scan(Step(l, s[0]).line, s[1..], backend);
    PartStep(q.kept + q.rest, s[0], s[1..]);
    hide Part;
    Assoc([s[0]], q.kept, q.rest);
    NothingBefore(q.kept);
    FirstAndRest(s);
  }

  lemma FirstAndRest(s: seq<byte>)
    requires s != []
    ensures s == [s[0]] + s[1..]
  {}

  /** The sizes that HTTP_PUSH_XX enforces. */
  predicate Bounded(l: Line) {
    |l.verb| < HTTP_METHOD_MAX && |l.url| < HTTP_URL_MAX && |l.host| < HTTP_HOST_MAX
    && |l.port| < HTTP_PORT_MAX && |l.schema| < HTTP_SCHEMA_MAX
  }

  lemma StepBounded(l: Line, p: byte)
    requires Bounded(l) && Step(l, p).Go?
    ensures Bounded(Step(l, p).line)
  {
    hide MethodOf, Is, Lower;
  }

  lemma AcceptKeeps(l: Line, p: byte)
    ensures Step(l, p).Accept? ==> Step(l, p).line == l
  {}

  lemma {:induction false} ScanBounded(l: Line, s: seq<byte>, backend: bool)
    requires Bounded(l)
    ensures Bounded(Scan(l, s, backend).line)
    decreases s
  {
    hide Step;
    if s != [] {
      var turn := Step(l, s[0]);
      if turn.Go? {
        StepBounded(l, s[0]);
        ScanBounded(turn.line, s[1..], backend);
      } else {
        AcceptKeeps(l, s[0]);
      }
    }
  }

  // ---- the reference grammar ----

  predicate VerbChars(s: seq<byte>) { forall i :: 0 <= i < |s| ==> IsUpper(s[i]) || s[i] == DASH }
  predicate Blanks(s: seq<byte>) { forall i :: 0 <= i < |s| ==> s[i] == SP || s[i] == TAB }
  predicate Letters(s: seq<byte>) { forall i :: 0 <= i < |s| ==> IsLetter(s[i]) }
  predicate Digits(s: seq<byte>) { forall i :: 0 <= i < |s| ==> IsDigit(s[i]) }
  predicate HostChars(s: seq<byte>) {
    forall i :: 0 <= i < |s| ==> IsLetter(s[i]) || IsDigit(s[i]) || s[i] == DOT || s[i] == DASH
  }
  predicate OneLine(s: seq<byte>) { forall i :: 0 <= i < |s| ==> s[i] != CR && s[i] != LF }
  predicate OneWord(s: seq<byte>) { OneLine(s) && forall i :: 0 <= i < |s| ==> s[i] != SP }

  const AUTHORITY: seq<byte> := [COLON, SLASH, SLASH]

  /** What follows the authority: a path, a version after a blank, or both, and the end of the line. */
  datatype Tail = Tail(slash: bool, path: seq<byte>, blank: bool, version: seq<byte>, crlf: bool) {
    predicate Valid() {
      (slash || blank) && (!slash ==> path == []) && (!blank ==> version == []) && OneWord(path) && OneLine(version)
    }
    function Path(): seq<byte> { if slash then [SLASH] + path else [] }
    function Version(): seq<byte> { if blank then [SP] + version else [] }
    function End(): seq<byte> { if crlf then [CR, LF] else [LF] }
    function Bytes(): seq<byte> { Path() + Version() + End() }
  }

  /** An absolute-form request line. */
  datatype Request = Request(verb: seq<byte>, gap: seq<byte>, scheme: seq<byte>, host: seq<byte>, colon: bool,
    port: seq<byte>, tail: Tail) {
    predicate Valid() {
      && VerbChars(verb) && MethodOf(verb) != UNSET && MethodOf(verb) != CONNECT && Blanks(gap)
      && scheme != [] && Letters(scheme) && !Is(Lowered(scheme), "ftp")
      && HostChars(host) && Digits(port) && (!colon ==> port == []) && tail.Valid()
    }
    function Port(): seq<byte> { if colon then [COLON] + port else [] }
    function Authority(): seq<byte> { scheme + AUTHORITY + host + Port() }
    function Front(): seq<byte> { verb + [SP] + gap }
    function Bytes(): seq<byte> { Front() + Authority() + tail.Bytes() }
    function Url(): seq<byte> { Lowered(scheme) + AUTHORITY + Lowered(host) + Port() + Lowered(tail.Path()) }
    predicate Fits() {
      |scheme| < HTTP_SCHEMA_MAX && |host| < HTTP_HOST_MAX && |port| < HTTP_PORT_MAX && |Url()| < HTTP_URL_MAX
    }
  }

  /** `s` takes the parser from `l` to `m` and leaves `k` of itself. */
  predicate Leads(l: Line, s: seq<byte>, k: seq<byte>, m: Line) {
    Scan(l, s, true) == Parse(m, k, [], AGAIN)
  }

  lemma LeadsOn(l: Line, s: seq<byte>, k: seq<byte>, m: Line, t: seq<byte>)
    requires Leads(l, s, k, m)
    ensures Scan(l, s + t, true) == Keep(k, Scan(m, t, true))
  {
    ScanResumes(l, s, t, true);
  }

  lemma LeadsChain(l: Line, s: seq<byte>, k: seq<byte>, m: Line, t: seq<byte>, j: seq<byte>, n: Line)
    requires Leads(l, s, k, m) && Leads(m, t, j, n)
    ensures Leads(l, s + t, k + j, n)
  {
    ScanResumes(l, s, t, true);
  }

  lemma LeadsOne(l: Line, p: byte)
    requires Step(l, p).Go?
    ensures var turn := Step(l, p); Leads(l, [p], if turn.gone then [] else [p], turn.line)
  {}

  lemma {:induction false} VerbRun(l: Line, s: seq<byte>)
    requires l.stat == InMethod && VerbChars(s) && |l.verb| + |s| < HTTP_METHOD_MAX
    ensures Leads(l, s, s, l.(verb := l.verb + s))
    decreases s
  {
    if s == [] {
      assert l.verb + s == l.verb;
    } else {
      LeadsOne(l, s[0]);
      var m := Step(l, s[0]).line;
      VerbRun(m, s[1..]);
      assert m.verb + s[1..] == l.verb + s && s == [s[0]] + s[1..];
      LeadsChain(l, [s[0]], [s[0]], m, s[1..], s[1..], l.(verb := l.verb + s));
    }
  }

  lemma {:induction false} GapRun(l: Line, s: seq<byte>)
    requires l.stat == SpacesBeforeUri && Blanks(s)
    ensures Leads(l, s, s, l)
    decreases s
  {
    if s != [] {
      LeadsOne(l, s[0]);
      GapRun(l, s[1..]);
      assert s == [s[0]] + s[1..];
      LeadsChain(l, [s[0]], [s[0]], l, s[1..], s[1..], l);
    }
  }

  lemma {:induction false} SchemeRun(l: Line, s: seq<byte>)
    requires l.stat == InSchema && Letters(s) && |l.schema| + |s| < HTTP_SCHEMA_MAX && |l.url| + |s| < HTTP_URL_MAX
    ensures Leads(l, s, [], l.(schema := l.schema + Lowered(s), url := l.url + Lowered(s)))
    decreases s
  {
    var n := l.(schema := l.schema + Lowered(s), url := l.url + Lowered(s));
    if s == [] {
      assert n == l;
    } else {
      LeadsOne(l, s[0]);
      var m := Step(l, s[0]).line;
      SchemeRun(m, s[1..]);
      LoweredStep(l.schema, s);
      LoweredStep(l.url, s);
      assert s == [s[0]] + s[1..];
      LeadsChain(l, [s[0]], [], m, s[1..], [], n);
    }
  }

  lemma LoweredStep(a: seq<byte>, s: seq<byte>)
    requires s != []
    ensures (a + [Lower(s[0])]) + Lowered(s[1..]) == a + Lowered(s)
  {}

  lemma {:induction false} HostRun(l: Line, s: seq<byte>)
    requires l.stat == InHost && HostChars(s) && |l.host| + |s| < HTTP_HOST_MAX && |l.url| + |s| < HTTP_URL_MAX
    ensures Leads(l, s, [], l.(host := l.host + Lowered(s), url := l.url + Lowered(s)))
    decreases s
  {
    var n := l.(host := l.host + Lowered(s), url := l.url + Lowered(s));
    if s == [] {
      assert n == l;
    } else {
      LeadsOne(l, s[0]);
      var m := Step(l, s[0]).line;
      HostRun(m, s[1..]);
      LoweredStep(l.host, s);
      LoweredStep(l.url, s);
      assert s == [s[0]] + s[1..];
      LeadsChain(l, [s[0]], [], m, s[1..], [], n);
    }
  }

  lemma {:induction false} PortRun(l: Line, s: seq<byte>)
    requires l.stat == InPort && Digits(s) && |l.port| + |s| < HTTP_PORT_MAX && |l.url| + |s| < HTTP_URL_MAX
    ensures Leads(l, s, [], l.(port := l.port + s, url := l.url + s))
    decreases s
  {
    var n := l.(port := l.port + s, url := l.url + s);
    if s == [] {
      assert n == l;
    } else {
      LeadsOne(l, s[0]);
      var m := Step(l, s[0]).line;
      PortRun(m, s[1..]);
      assert s == [s[0]] + s[1..];
      assert (l.port + [s[0]]) + s[1..] == l.port + s && (l.url + [s[0]]) + s[1..] == l.url + s;
      LeadsChain(l, [s[0]], [], m, s[1..], [], n);
    }
  }

  lemma {:induction false} PathRun(l: Line, s: seq<byte>)
    requires (l.stat == AfterSlashInUri || l.stat == InUri) && OneWord(s) && |l.url| + |s| < HTTP_URL_MAX
    ensures Leads(l, s, s, l.(url := l.url + Lowered(s)))
    decreases s
  {
    var n := l.(url := l.url + Lowered(s));
    if s == [] {
      assert n == l;
    } else {
      LeadsOne(l, s[0]);
      var m := Step(l, s[0]).line;
      PathRun(m, s[1..]);
      LoweredStep(l.url, s);
      assert s == [s[0]] + s[1..];
      LeadsChain(l, [s[0]], [s[0]], m, s[1..], s[1..], n);
    }
  }

  lemma {:induction false} VersionRun(l: Line, s: seq<byte>)
    requires l.stat == Http09 && OneLine(s)
    ensures Leads(l, s, s, l)
    decreases s
  {
    if s != [] {
      LeadsOne(l, s[0]);
      VersionRun(l, s[1..]);
      assert s == [s[0]] + s[1..];
      LeadsChain(l, [s[0]], [s[0]], l, s[1..], s[1..], l);
    }
  }

  /** The part of the line up to the target: the method and the blanks after it stay. */
  lemma FrontRun(verb: seq<byte>, gap: seq<byte>)
    requires VerbChars(verb) && MethodOf(verb) != UNSET && MethodOf(verb) != CONNECT && Blanks(gap)
    ensures var front := verb + [SP] + gap;
      Leads(FRESH, front, front, FRESH.(stat := SpacesBeforeUri, kind := MethodOf(verb), verb := verb))
  {
    hide Step, Scan, MethodOf;
    VerbSize(verb);
    var first, more := verb[0], verb[1..];
    assert verb == [first] + more;
    var l1 := FRESH.(stat := InMethod, verb := [first]);
    FirstLetter(first);
    VerbRun(l1, more);
    var l2 := l1.(verb := verb);
    LeadsChain(FRESH, [first], [first], l1, more, more, l2);
    var l3 := FRESH.(stat := SpacesBeforeUri, kind := MethodOf(verb), verb := verb);
    VerbEnd(l2);
    LeadsChain(FRESH, verb, verb, l2, [SP], [SP], l3);
    GapRun(l3, gap);
    LeadsChain(FRESH, verb + [SP], verb + [SP], l3, gap, gap, l3);
  }

  /** A request that already is in origin form is left alone. */
  lemma OriginFormKept(verb: seq<byte>, gap: seq<byte>, more: seq<byte>)
    requires VerbChars(verb) && MethodOf(verb) != UNSET && MethodOf(verb) != CONNECT && Blanks(gap)
    ensures var s := verb + [SP] + gap + [SLASH] + more; var p := Scan(FRESH, s, true); p.kept + p.rest == s
  {
    hide Scan, MethodOf, Leads;
    var front, l := verb + [SP] + gap, FRESH.(stat := SpacesBeforeUri, kind := MethodOf(verb), verb := verb);
    FrontRun(verb, gap);
    var m := l.(stat := InUri, url := [SLASH]);
    SlashFirst(l);
    LeadsChain(FRESH, front, front, l, [SLASH], [SLASH], m);
    LeadsOn(FRESH, front + [SLASH], front + [SLASH], m, more);
    TargetKept(m, more, true);
    var p := Scan(m, more, true);
    assert ((front + [SLASH]) + p.kept) + p.rest == (front + [SLASH]) + (p.kept + p.rest);
  }

  lemma SlashFirst(l: Line)
    requires l.stat == SpacesBeforeUri
    ensures Leads(l, [SLASH], [SLASH], l.(stat := InUri, url := [SLASH]))
  {}

  lemma VerbSize(verb: seq<byte>)
    requires MethodOf(verb) != UNSET
    ensures 0 < |verb| < HTTP_METHOD_MAX
  {}

  lemma FirstLetter(p: byte)
    requires IsUpper(p) || p == DASH
    ensures Leads(FRESH, [p], [p], FRESH.(stat := InMethod, verb := [p]))
  {}

  lemma VerbEnd(l: Line)
    requires l.stat == InMethod && MethodOf(l.verb) != UNSET && MethodOf(l.verb) != CONNECT
    ensures Leads(l, [SP], [SP], l.(stat := SpacesBeforeUri, kind := MethodOf(l.verb)))
  {}

  /** The scheme and "://" go. */
  lemma SchemePart(l: Line, scheme: seq<byte>)
    requires l.stat == SpacesBeforeUri && l.schema == [] && scheme != [] && Letters(scheme)
    requires |scheme| < HTTP_SCHEMA_MAX && |scheme| + 3 < HTTP_URL_MAX && !Is(Lowered(scheme), "ftp")
    ensures Leads(l, scheme + AUTHORITY, [],
      l.(stat := InHost, schema := Lowered(scheme), url := Lowered(scheme) + AUTHORITY))
  {
    hide Step, Scan;
    hide Leads, Lowered, Is;
    var first, more := scheme[0], scheme[1..];
    LoweredCons(scheme);
    var l1 := l.(stat := InSchema, schema := [Lower(first)], url := [Lower(first)]);
    SchemeFirst(l, first);
    SchemeRun(l1, more);
    var l2 := l1.(schema := Lowered(scheme), url := Lowered(scheme));
    Chained(l, [first], l1, more, l2);
    SchemeEnd(l2);
    Chained(l, scheme, l2, AUTHORITY, l2.(stat := InHost, url := l2.url + AUTHORITY));
  }

  lemma LoweredCons(s: seq<byte>)
    requires s != []
    ensures s == [s[0]] + s[1..] && [Lower(s[0])] + Lowered(s[1..]) == Lowered(s) && |Lowered(s)| == |s|
  {}

  /** Two parts of the line that both go. */
  lemma Chained(l: Line, s: seq<byte>, m: Line, t: seq<byte>, n: Line)
    requires Leads(l, s, [], m) && Leads(m, t, [], n)
    ensures Leads(l, s + t, [], n)
  {
    hide Leads;
    var none: seq<byte> := [];
    LeadsChain(l, s, none, m, t, none, n);
    assert none + none == none;
  }

  lemma SchemeFirst(l: Line, p: byte)
    requires l.stat == SpacesBeforeUri && l.schema == [] && IsLetter(p)
    ensures Leads(l, [p], [], l.(stat := InSchema, schema := [Lower(p)], url := [Lower(p)]))
  {}

  lemma SchemeEnd(l: Line)
    requires l.stat == InSchema && |l.url| + 3 < HTTP_URL_MAX && !Is(l.schema, "ftp")
    ensures Leads(l, AUTHORITY, [], l.(stat := InHost, url := l.url + AUTHORITY))
  {
    hide Scan;
    var l1, l2 := l.(stat := SchemaSlash, url := l.url + [COLON]),
      l.(stat := SchemaSlashSlash, url := l.url + [COLON] + [SLASH]);
    var l3 := l.(stat := InHost, url := l.url + [COLON] + [SLASH] + [SLASH]);
    LeadsOne(l, COLON);
    LeadsOne(l1, SLASH);
    LeadsOne(l2, SLASH);
    LeadsChain(l, [COLON], [], l1, [SLASH], [], l2);
    LeadsChain(l, [COLON] + [SLASH], [], l2, [SLASH], [], l3);
    assert [COLON] + [SLASH] + [SLASH] == AUTHORITY && l.url + AUTHORITY == l3.url;
  }

  /** The host and the port go. */
  lemma AuthorityPart(l: Line, q: Request)
    requires l.stat == InHost && l.host == [] && l.port == [] && q.Valid()
    requires |q.host| < HTTP_HOST_MAX && |q.port| < HTTP_PORT_MAX && |l.url| + |q.host| + |q.Port()| < HTTP_URL_MAX
    ensures Leads(l, q.host + q.Port(), [],
      l.(stat := if q.colon then InPort else InHost, host := Lowered(q.host), port := q.port,
         url := l.url + Lowered(q.host) + q.Port()))
  {
    hide Step, Scan, Leads;
    HostRun(l, q.host);
    var l1 := l.(host := Lowered(q.host), url := l.url + Lowered(q.host));
    NothingBefore(Lowered(q.host));
    if q.colon {
      PortPart(l1, q.port);
      Chained(l, q.host, l1, [COLON] + q.port, l1.(stat := InPort, port := q.port, url := l1.url + ([COLON] + q.port)));
    } else {
      NothingBehind(q.host);
      NothingBehind(l1.url);
    }
  }

  lemma PortPart(l: Line, port: seq<byte>)
    requires l.stat == InHost && l.port == [] && Digits(port) && |port| < HTTP_PORT_MAX
    requires |l.url| + 1 + |port| < HTTP_URL_MAX
    ensures Leads(l, [COLON] + port, [], l.(stat := InPort, port := port, url := l.url + ([COLON] + port)))
  {
    hide Step, Scan, Leads;
    var l2 := l.(stat := InPort, url := l.url + [COLON]);
    PortStart(l);
    PortRun(l2, port);
    NothingBefore(port);
    assert (l.url + [COLON]) + port == l.url + ([COLON] + port);
    Chained(l, [COLON], l2, port, l2.(port := port, url := l.url + ([COLON] + port)));
  }

  lemma PortStart(l: Line)
    requires l.stat == InHost && |l.url| + 1 < HTTP_URL_MAX
    ensures Leads(l, [COLON], [], l.(stat := InPort, url := l.url + [COLON]))
  {}

  lemma NothingLowered()
    ensures Lowered([]) == []
  {}

  lemma SlashedPath(l: Line, path: seq<byte>)
    requires (l.stat == InHost || l.stat == InPort) && OneWord(path) && |l.url| + 1 + |path| < HTTP_URL_MAX
    ensures Leads(l, [SLASH] + path, [SLASH] + path,
      l.(stat := AfterSlashInUri, url := l.url + Lowered([SLASH] + path)))
  {
    hide Step, Scan, Leads, Lowered;
    PathStart(l);
    var l0 := l.(stat := AfterSlashInUri, url := l.url + [SLASH]);
    PathRun(l0, path);
    LoweredSlash(l.url, path);
    LeadsChain(l, [SLASH], [SLASH], l0, path, path, l0.(url := l0.url + Lowered(path)));
  }

  lemma LoweredSlash(a: seq<byte>, path: seq<byte>)
    ensures (a + [SLASH]) + Lowered(path) == a + Lowered([SLASH] + path)
  {
    var s := [SLASH] + path;
    assert s[0] == SLASH && s[1..] == path;
    assert Lowered(s) == [SLASH] + Lowered(path);
  }

  /** The path stays. */
  lemma PathPart(l: Line, t: Tail)
    requires (l.stat == InHost || l.stat == InPort) && t.Valid() && |l.url| + |t.Path()| < HTTP_URL_MAX
    ensures Leads(l, t.Path(), t.Path(),
      l.(stat := if t.slash then AfterSlashInUri else l.stat, url := l.url + Lowered(t.Path())))
  {
    hide Step, Scan, Leads, Lowered;
    if t.slash {
      SlashedPath(l, t.path);
    } else {
      NothingLowered();
      NothingBehind(l.url);
      NothingRun(l);
    }
  }

  /** The version stays. */
  lemma VersionPart(l: Line, t: Tail)
    requires l.stat in {InHost, InPort, AfterSlashInUri} && t.Valid()
    ensures Leads(l, t.Version(), t.Version(), if t.blank then l.(stat := Http09) else l)
  {
    hide Step, Scan, Leads;
    if t.blank {
      Blank(l);
      var l2 := l.(stat := Http09);
      VersionRun(l2, t.version);
      LeadsChain(l, [SP], [SP], l2, t.version, t.version, l2);
    } else {
      NothingRun(l);
    }
  }

  /** The path and the version stay. */
  lemma TailPart(l: Line, t: Tail)
    requires (l.stat == InHost || l.stat == InPort) && t.Valid() && |l.url| + |t.Path()| < HTTP_URL_MAX
    ensures var n := l.(stat := if t.blank then Http09 else AfterSlashInUri, url := l.url + Lowered(t.Path()));
      Leads(l, t.Path() + t.Version(), t.Path() + t.Version(), n)
  {
    hide Step, Scan, Leads, Lowered;
    var l1 := l.(stat := if t.slash then AfterSlashInUri else l.stat, url := l.url + Lowered(t.Path()));
    PathPart(l, t);
    VersionPart(l1, t);
    LeadsChain(l, t.Path(), t.Path(), l1, t.Version(), t.Version(), if t.blank then l1.(stat := Http09) else l1);
  }

  lemma NothingRun(l: Line)
    ensures Leads(l, [], [], l)
  {}

  lemma PathStart(l: Line)
    requires (l.stat == InHost || l.stat == InPort) && |l.url| + 1 < HTTP_URL_MAX
    ensures Leads(l, [SLASH], [SLASH], l.(stat := AfterSlashInUri, url := l.url + [SLASH]))
  {}

  lemma Blank(l: Line)
    requires l.stat in {InHost, InPort, AfterSlashInUri, InUri}
    ensures Leads(l, [SP], [SP], l.(stat := Http09))
  {}

  lemma EndPart(l: Line, crlf: bool, rest: seq<byte>)
    requires l.stat == Http09 || l.stat == AfterSlashInUri
    ensures var end: seq<byte> := if crlf then [CR, LF] else [LF]; var p := Scan(l, end + rest, true);
      p.kept == end && p.rest == rest && p.code == Verdict(l) && p.line == l.(stat := p.line.stat)
  {
    hide Step, Verdict;
    EndSteps(l);
    if crlf {
      var m := l.(stat := AlmostDone);
      var s := [CR, LF] + rest;
      assert s[0] == CR && s[1..] == [LF] + rest;
      LastByte(m, rest);
      SameVerdict(l, m);
      assert Scan(l, s, true) == Keep([CR], Scan(m, s[1..], true));
    } else {
      LastByte(l, rest);
    }
  }

  lemma LastByte(l: Line, rest: seq<byte>)
    requires Step(l, LF) == Accept(l)
    ensures Scan(l, [LF] + rest, true) == Parse(l, [LF], rest, Verdict(l))
  {
    hide Step, Verdict;
    assert ([LF] + rest)[0] == LF && ([LF] + rest)[1..] == rest;
  }

  lemma EndSteps(l: Line)
    requires l.stat == Http09 || l.stat == AfterSlashInUri
    ensures Step(l, CR) == Go(l.(stat := AlmostDone), false) && Step(l, LF) == Accept(l)
    ensures Step(l.(stat := AlmostDone), LF) == Accept(l.(stat := AlmostDone))
  {}

  lemma SameVerdict(l: Line, m: Line)
    requires l.schema == m.schema && l.port == m.port
    ensures Verdict(l) == Verdict(m)
  {
    hide PortOf, SchemeOf;
  }

  /** The state at the end of the line. */
  function AtEnd(q: Request): Line {
    Line(if q.tail.blank then Http09 else AfterSlashInUri, MethodOf(q.verb), q.verb, Lowered(q.scheme), q.Url(),
      Lowered(q.host), q.port)
  }

  lemma FrontAndAuthority(q: Request)
    requires q.Valid() && q.Fits()
    ensures Leads(FRESH, q.Front() + q.Authority(), q.Front(),
      AtEnd(q).(stat := if q.colon then InPort else InHost,
                url := Lowered(q.scheme) + AUTHORITY + Lowered(q.host) + q.Port()))
  {
    hide Step, Scan, MethodOf, Is, Leads, Request.Front, Request.Port;
    var l1 := FRESH.(stat := SpacesBeforeUri, kind := MethodOf(q.verb), verb := q.verb);
    assert q.Front() == q.verb + [SP] + q.gap by { FrontIs(q); }
    FrontRun(q.verb, q.gap);
    SchemePart(l1, q.scheme);
    var l2 := l1.(stat := InHost, schema := Lowered(q.scheme), url := Lowered(q.scheme) + AUTHORITY);
    AuthorityPart(l2, q);
    var l3 := l2.(stat := if q.colon then InPort else InHost, host := Lowered(q.host), port := q.port,
      url := l2.url + Lowered(q.host) + q.Port());
    var a, b, c := q.Front(), q.scheme + AUTHORITY, q.host + q.Port();
    LeadsChain(l1, b, [], l2, c, [], l3);
    LeadsChain(FRESH, a, a, l1, b + c, [] + [], l3);
    assert a + (b + c) == q.Front() + q.Authority() && a + ([] + []) == q.Front();
  }

  /** RFC 7230, sections 5.3.1 and 5.3.2: of an absolute-form line exactly the scheme and the authority
      go, what follows the line is not touched, and the fields hold what the line says. */
  lemma AbsoluteFormRewritten(q: Request, rest: seq<byte>)
    requires q.Valid() && q.Fits()
    ensures var p := Scan(FRESH, q.Bytes() + rest, true);
      && p.kept == q.Front() + q.tail.Bytes() && p.rest == rest
      && p.line.kind == MethodOf(q.verb) && p.line.schema == Lowered(q.scheme) && p.line.url == q.Url()
      && p.line.host == Lowered(q.host) && p.line.port == q.port
      && (p.code == OK <==> KnownScheme(q.scheme) && PortInRange(q.port))
  {
    hide Step, Scan, MethodOf, Is, Request.Front, Request.Authority, Tail.Path, Tail.Version, Tail.End, Lowered;
    FrontAndAuthority(q);
    var l3 := AtEnd(q).(stat := if q.colon then InPort else InHost,
      url := Lowered(q.scheme) + AUTHORITY + Lowered(q.host) + q.Port());
    TailPart(l3, q.tail);
    var l4 := AtEnd(q);
    var a, b, c, e := q.Front(), q.Authority(), q.tail.Path() + q.tail.Version(), q.tail.End();
    LeadsChain(FRESH, a + b, a, l3, c, c, l4);
    LeadsOn(FRESH, a + b + c, a + c, l4, e + rest);
    EndPart(l4, q.tail.crlf, rest);
    EndIs(q.tail);
    LineParts(q, rest);
    PortRange(q.port);
    SchemeNames(Lowered(q.scheme));
  }

  lemma LineParts(q: Request, rest: seq<byte>)
    ensures var a, b, c, e := q.Front(), q.Authority(), q.tail.Path() + q.tail.Version(), q.tail.End();
      q.Bytes() + rest == (a + b + c) + (e + rest) && (a + c) + e == a + q.tail.Bytes()
  {
    var a, b, c, e := q.Front(), q.Authority(), q.tail.Path() + q.tail.Version(), q.tail.End();
    hide Request.Front, Request.Authority, Tail.Path, Tail.Version, Tail.End;
    assert q.tail.Bytes() == c + e;
    Assoc(a, c, e);
    Assoc(a + b, c, e);
    Assoc(a + b + c, e, rest);
  }

  /** The request target that is left begins with a slash if and only if the line had a path. */
  lemma TargetLeft(q: Request)
    requires q.Valid()
    ensures var left := q.Front() + q.tail.Bytes();
      |q.Front()| < |left| && (left[|q.Front()|] == SLASH <==> q.tail.slash)
  {
    var left := q.Front() + q.tail.Bytes();
    assert left[|q.Front()|] == q.tail.Bytes()[0];
  }

  /** Every absolute-form line is accepted exactly when its parts fit their buffers, the scheme is http or https,
      and the port is missing, empty or in range. */
  lemma AbsoluteFormAccepted(q: Request, rest: seq<byte>)
    requires q.Valid()
    ensures Scan(FRESH, q.Bytes() + rest, true).code == OK <==> q.Fits() && KnownScheme(q.scheme) && PortInRange(q.port)
  {
    if q.Fits() {
      AbsoluteFormRewritten(q, rest);
    } else {
      AbsoluteFormRefused(q, rest);
    }
  }

  /** The port that a request is for: the number that its text prints, or 80. */
  ghost predicate IsPort(port: seq<byte>, n: nat) {
    (port == [] && n == 80) || (Prints(port, n) && |port| <= 5 && 1 <= n <= 65535)
  }

  /** An accepted request, field by field. */
  lemma AbsoluteFormMeans(q: Request, rest: seq<byte>, n: nat, m: Method)
    requires q.Valid() && q.Fits() && KnownScheme(q.scheme) && IsPort(q.port, n) && m != UNSET && Is(q.verb, NameOf(m))
    ensures var p := Scan(FRESH, q.Bytes() + rest, true);
      && p.code == OK && p.line.kind == m && p.line.host == Lowered(q.host) && PortOf(p.line.port) == n
      && SchemeOf(p.line.schema) == if Is(Lowered(q.scheme), "https") then HTTPS else HTTP
  {
    hide Scan, Step, MethodOf, SchemeOf, PortOf, Is, Prints, Decimal, NameOf, Request.Bytes, Request.Fits;
    AbsoluteFormRewritten(q, rest);
    PortExact(q.port, n);
    PortRange(q.port);
    MethodExact(q.verb, m);
    SchemeExact(Lowered(q.scheme));
  }

  predicate Refuses(l: Line, s: seq<byte>) {
    Scan(l, s, true).code != AGAIN && Scan(l, s, true).code != OK
  }

  /** A part of the line that is too long, behind a part that is not. */
  lemma RefusesWhole(l: Line, a: seq<byte>, k: seq<byte>, m: Line, b: seq<byte>, t: seq<byte>)
    requires Leads(l, a, k, m) && Refuses(m, b)
    ensures Refuses(l, a + b + t)
  {
    ScanDecided(m, b, t, true);
    LeadsOn(l, a, k, m, b + t);
    assert a + b + t == a + (b + t);
  }

  lemma {:induction false} SchemeOver(l: Line, s: seq<byte>)
    requires l.stat == InSchema && Letters(s) && |l.schema| < HTTP_SCHEMA_MAX <= |l.schema| + |s|
    ensures Refuses(l, s)
    decreases s
  {
    if Step(l, s[0]).Go? {
      SchemeOver(Step(l, s[0]).line, s[1..]);
    }
  }

  lemma {:induction false} HostOver(l: Line, s: seq<byte>)
    requires l.stat == InHost && HostChars(s) && |l.host| < HTTP_HOST_MAX <= |l.host| + |s|
    ensures Refuses(l, s)
    decreases s
  {
    if Step(l, s[0]).Go? {
      HostOver(Step(l, s[0]).line, s[1..]);
    }
  }

  lemma {:induction false} PortOver(l: Line, s: seq<byte>)
    requires l.stat == InPort && Digits(s) && |l.port| < HTTP_PORT_MAX <= |l.port| + |s|
    ensures Refuses(l, s)
    decreases s
  {
    if Step(l, s[0]).Go? {
      PortOver(Step(l, s[0]).line, s[1..]);
    }
  }

  lemma {:induction false} PathOver(l: Line, s: seq<byte>)
    requires (l.stat == AfterSlashInUri || l.stat == InUri) && OneWord(s) && |l.url| < HTTP_URL_MAX <= |l.url| + |s|
    ensures Refuses(l, s)
    decreases s
  {
    if Step(l, s[0]).Go? {
      PathOver(Step(l, s[0]).line, s[1..]);
    }
  }

  lemma Assoc(a: seq<byte>, b: seq<byte>, c: seq<byte>)
    ensures (a + b) + c == a + (b + c)
  {}

  /** The line cut inside its authority. */
  lemma CutInside(f: seq<byte>, a: seq<byte>, b: seq<byte>, c: seq<byte>, t: seq<byte>, rest: seq<byte>)
    ensures (f + (a + b + c) + t) + rest == f + a + b + (c + (t + rest))
  {
    Assoc(f + (a + b + c), t, rest);
    Assoc(f, a + b + c, t + rest);
    Assoc(a + b, c, t + rest);
    Assoc(a, b, c + (t + rest));
    Assoc(f, a, b + (c + (t + rest)));
    Assoc(f + a, b, c + (t + rest));
  }

  lemma AbsoluteFormRefused(q: Request, rest: seq<byte>)
    requires q.Valid() && !q.Fits()
    ensures Refuses(FRESH, q.Bytes() + rest)
  {
    hide Step, Scan, MethodOf, Is, Leads, Refuses, Lowered, Tail.Bytes;
    if |q.scheme| >= HTTP_SCHEMA_MAX {
      SchemeRefused(q, rest);
    } else if |q.host| >= HTTP_HOST_MAX {
      HostRefused(q, rest);
    } else if |q.port| >= HTTP_PORT_MAX {
      PortRefused(q, rest);
    } else {
      PathRefused(q, rest);
    }
  }

  lemma SchemeRefused(q: Request, rest: seq<byte>)
    requires q.Valid() && |q.scheme| >= HTTP_SCHEMA_MAX
    ensures Refuses(FRESH, q.Bytes() + rest)
  {
    hide Step, Scan, MethodOf, Is, Leads, Refuses, Lowered, Tail.Bytes;
    var l1 := FRESH.(stat := SpacesBeforeUri, kind := MethodOf(q.verb), verb := q.verb);
    FrontRun(q.verb, q.gap);
    var f, first, more := q.Front(), [q.scheme[0]], q.scheme[1..];
    SchemeFirst(l1, q.scheme[0]);
    var l2 := l1.(stat := InSchema, schema := [Lower(q.scheme[0])], url := [Lower(q.scheme[0])]);
    SchemeOver(l2, more);
    LeadsChain(FRESH, f, f, l1, first, [], l2);
    var c := AUTHORITY + q.host + q.Port();
    RefusesWhole(FRESH, f + first, f + [], l2, more, c + (q.tail.Bytes() + rest));
    assert q.scheme == first + more;
    assert q.Authority() == first + more + c;
    CutInside(f, first, more, c, q.tail.Bytes(), rest);
  }

  /** The parser behind the scheme. */
  function BehindScheme(q: Request): Line {
    Line(InHost, MethodOf(q.verb), q.verb, Lowered(q.scheme), Lowered(q.scheme) + AUTHORITY, [], [])
  }

  lemma SchemeLeads(q: Request)
    requires q.Valid() && |q.scheme| < HTTP_SCHEMA_MAX
    ensures Leads(FRESH, q.Front() + (q.scheme + AUTHORITY), q.Front() + [], BehindScheme(q))
  {
    hide Step, Scan, MethodOf, Is, Leads, Lowered;
    var l1 := FRESH.(stat := SpacesBeforeUri, kind := MethodOf(q.verb), verb := q.verb);
    FrontRun(q.verb, q.gap);
    SchemePart(l1, q.scheme);
    LeadsChain(FRESH, q.Front(), q.Front(), l1, q.scheme + AUTHORITY, [], BehindScheme(q));
  }

  lemma HostRefused(q: Request, rest: seq<byte>)
    requires q.Valid() && |q.scheme| < HTTP_SCHEMA_MAX && |q.host| >= HTTP_HOST_MAX
    ensures Refuses(FRESH, q.Bytes() + rest)
  {
    hide Step, Scan, MethodOf, Is, Leads, Refuses, Lowered, Request.Front, Tail.Bytes;
    SchemeLeads(q);
    HostOver(BehindScheme(q), q.host);
    var a := q.scheme + AUTHORITY;
    RefusesWhole(FRESH, q.Front() + a, q.Front() + [], BehindScheme(q), q.host, q.Port() + (q.tail.Bytes() + rest));
    CutInside(q.Front(), a, q.host, q.Port(), q.tail.Bytes(), rest);
  }

  lemma PortRefused(q: Request, rest: seq<byte>)
    requires q.Valid() && |q.scheme| < HTTP_SCHEMA_MAX && |q.host| < HTTP_HOST_MAX && |q.port| >= HTTP_PORT_MAX
    ensures Refuses(FRESH, q.Bytes() + rest)
  {
    hide Step, Scan, MethodOf, Is, Leads, Refuses, Lowered, Request.Front, Tail.Bytes;
    SchemeLeads(q);
    assert q.colon;
    hide Request.Authority;
    var l := BehindScheme(q);
    HostRun(l, q.host);
    var l1 := l.(host := l.host + Lowered(q.host), url := l.url + Lowered(q.host));
    PortStart(l1);
    var l2 := l1.(stat := InPort, url := l1.url + [COLON]);
    PortOver(l2, q.port);
    Chained(l, q.host, l1, [COLON], l2);
    var a, b := q.scheme + AUTHORITY, q.host + [COLON];
    LeadsChain(FRESH, q.Front() + a, q.Front() + [], l, b, [], l2);
    Assoc(q.Front(), a, b);
    RefusesWhole(FRESH, q.Front() + (a + b), (q.Front() + []) + [], l2, q.port, [] + (q.tail.Bytes() + rest));
    AuthorityToPort(q);
    CutInside(q.Front(), a + b, q.port, [], q.tail.Bytes(), rest);
  }

  lemma AuthorityToPort(q: Request)
    requires q.colon
    ensures q.Authority() == ((q.scheme + AUTHORITY) + (q.host + [COLON])) + q.port + []
  {
    Assoc(q.scheme + AUTHORITY, q.host, [COLON]);
    Assoc(q.scheme + AUTHORITY + q.host, [COLON], q.port);
    assert q.Authority() + [] == q.Authority();
  }

  /** Only the path can be too long when the other parts fit. */
  lemma PathRefused(q: Request, rest: seq<byte>)
    requires q.Valid() && !q.Fits() && |q.scheme| < HTTP_SCHEMA_MAX && |q.host| < HTTP_HOST_MAX
    requires |q.port| < HTTP_PORT_MAX
    ensures Refuses(FRESH, q.Bytes() + rest)
  {
    hide Step, Scan, MethodOf, Is, Leads, Refuses, Lowered, Request.Front;
    SchemeLeads(q);
    var l, a, b := BehindScheme(q), q.scheme + AUTHORITY, q.host + q.Port();
    AuthorityPart(l, q);
    var l1 := l.(stat := if q.colon then InPort else InHost, host := Lowered(q.host), port := q.port,
      url := l.url + Lowered(q.host) + q.Port());
    LeadsChain(FRESH, q.Front() + a, q.Front() + [], l, b, [], l1);
    Assoc(q.Front(), a, b);
    assert q.tail.slash;
    PathStart(l1);
    var l2 := l1.(stat := AfterSlashInUri, url := l1.url + [SLASH]);
    var k := (q.Front() + []) + [];
    LeadsChain(FRESH, q.Front() + (a + b), k, l1, [SLASH], [SLASH], l2);
    PathOver(l2, q.tail.path);
    PathCut(q, rest);
    RefusesWhole(FRESH, q.Front() + (a + b) + [SLASH], k + [SLASH], l2, q.tail.path,
      q.tail.Version() + q.tail.End() + rest);
  }

  lemma PathCut(q: Request, rest: seq<byte>)
    requires q.tail.slash
    ensures var f, a, e := q.Front(), (q.scheme + AUTHORITY) + (q.host + q.Port()), q.tail.Version() + q.tail.End();
      q.Bytes() + rest == f + a + [SLASH] + q.tail.path + (e + rest)
  {
    hide Request.Front, Tail.Version, Tail.End;
    var f, e, p := q.Front(), q.tail.Version() + q.tail.End(), q.tail.path;
    Assoc(q.scheme + AUTHORITY, q.host, q.Port());
    var a := (q.scheme + AUTHORITY) + (q.host + q.Port());
    assert q.Authority() == a;
    Assoc([SLASH] + p, q.tail.Version(), q.tail.End());
    assert q.tail.Bytes() == ([SLASH] + p) + e;
    Assoc(f + a, ([SLASH] + p) + e, rest);
    Assoc([SLASH] + p, e, rest);
    Assoc(f + a, [SLASH] + p, e + rest);
    Assoc(f + a, [SLASH], p);
  }

  lemma FrontIs(q: Request)
    ensures q.Front() == q.verb + [SP] + q.gap
  {}

  lemma EndIs(t: Tail)
    ensures t.End() == if t.crlf then [CR, LF] else [LF]
  {}

  predicate KnownScheme(scheme: seq<byte>) {
    Is(Lowered(scheme), "http") || Is(Lowered(scheme), "https")
  }

  predicate PortInRange(p: seq<byte>) {
    p == [] || (|p| <= 5 && 1 <= Decimal(p) <= 65535)
  }

  lemma PortRange(p: seq<byte>)
    requires Digits(p)
    ensures PortOf(p) != -1 <==> PortInRange(p)
  {}

  /** A number in decimal, without leading zeros. */
  function Print(n: nat): seq<byte> {
    (if n < 10 then [] else Print(n / 10)) + [48 + n % 10]
  }

  function Zeros(n: nat): seq<byte> {
    if n == 0 then [] else Zeros(n - 1) + [48]
  }

  /** The decimal numerals of a number: leading zeros may stand in front of it. */
  ghost predicate Prints(p: seq<byte>, n: nat) {
    exists z: nat :: p == Zeros(z) + Print(n)
  }

  lemma DecimalAdded(p: seq<byte>, d: byte)
    requires IsDigit(d)
    ensures Decimal(p + [d]) == Decimal(p) * 10 + (d - 48)
  {
    assert (p + [d])[..|p|] == p;
  }

  lemma {:induction false} DecimalZeros(z: nat)
    ensures Decimal(Zeros(z)) == 0 && Digits(Zeros(z))
  {
    if z > 0 {
      DecimalZeros(z - 1);
      DecimalAdded(Zeros(z - 1), 48);
    }
  }

  lemma {:induction false} DecimalPrinted(z: nat, n: nat)
    ensures Decimal(Zeros(z) + Print(n)) == n && Digits(Zeros(z) + Print(n))
    decreases n
  {
    hide Decimal;
    if n < 10 {
      DecimalZeros(z);
      assert Zeros(z) + Print(n) == Zeros(z) + [48 + n];
      DecimalAdded(Zeros(z), 48 + n);
    } else {
      DecimalPrinted(z, n / 10);
      assert Zeros(z) + Print(n) == (Zeros(z) + Print(n / 10)) + [48 + n % 10];
      DecimalAdded(Zeros(z) + Print(n / 10), 48 + n % 10);
    }
  }

  lemma PrintsDigit(e: byte)
    requires IsDigit(e)
    ensures Prints([e], e - 48)
  {
    assert [e] == Zeros(0) + Print(e - 48);
  }

  lemma PrintMore(m: nat, d: nat)
    requires d < 10
    ensures Print(m * 10 + d) == if m == 0 then [48 + d] else Print(m) + [48 + d]
    ensures Print(0) == [48]
  {
    var n := m * 10 + d;
    assert n / 10 == m && n % 10 == d;
  }

  lemma IsPrinted(p: seq<byte>, z: nat, n: nat)
    requires p == Zeros(z) + Print(n)
    ensures Prints(p, n)
  {}

  lemma PrintsMore(z: nat, m: nat, e: byte)
    requires IsDigit(e)
    ensures Prints((Zeros(z) + Print(m)) + [e], m * 10 + (e - 48))
  {
    hide Print, Zeros, Prints;
    var n := m * 10 + (e - 48);
    PrintMore(m, e - 48);
    var p := (Zeros(z) + Print(m)) + [e];
    if m == 0 {
      ZerosMore(z);
      assert Print(n) == [e];
      IsPrinted(p, z + 1, n);
    } else {
      assert p == Zeros(z) + (Print(m) + [e]);
      IsPrinted(p, z, n);
    }
  }

  lemma ZerosMore(z: nat)
    ensures Zeros(z + 1) == Zeros(z) + [48]
  {}

  lemma {:induction false} PrintDecimal(p: seq<byte>)
    requires p != [] && Digits(p)
    ensures Prints(p, Decimal(p))
    decreases |p|
  {
    hide Decimal, Zeros, Print;
    var r, e := p[..|p| - 1], p[|p| - 1];
    assert p == r + [e] && Digits(r);
    DecimalAdded(r, e);
    if r == [] {
      DecimalNothing();
      assert p == [e];
      PrintsDigit(e);
    } else {
      PrintDecimal(r);
      var z: nat :| r == Zeros(z) + Print(Decimal(r));
      PrintsMore(z, Decimal(r), e);
    }
  }

  lemma DecimalNothing()
    ensures Decimal([]) == 0
  {}

  /** The numerals of a number are exactly the digits that atoi takes for it. */
  lemma DecimalExact(p: seq<byte>, n: nat)
    ensures p != [] && Digits(p) && Decimal(p) == n <==> Prints(p, n)
  {
    hide Decimal, Digits;
    if p != [] && Digits(p) { PrintDecimal(p); }
    if Prints(p, n) {
      var z: nat :| p == Zeros(z) + Print(n);
      DecimalPrinted(z, n);
    }
  }

  /** The port is `n` if and only if its text is a numeral of `n` with at most five digits, or `n` is 80 and there is
      no text. */
  lemma PortExact(p: seq<byte>, n: nat)
    ensures PortOf(p) == n <==> IsPort(p, n)
  {
    hide Decimal, Prints;
    DecimalExact(p, n);
  }

  lemma SchemeNames(p: seq<byte>)
    requires p != [] && !Is(p, "ftp")
    ensures SchemeOf(p) != UNKNOWN <==> Is(p, "http") || Is(p, "https")
  {}

  /** Once the method is known it does not change. */
  lemma {:induction false} KindKept(l: Line, s: seq<byte>, backend: bool)
    requires l.stat != Start && l.stat != InMethod
    ensures Scan(l, s, backend).line.kind == l.kind
    decreases s
  {
    if s != [] {
      var turn := Step(l, s[0]);
      if turn.Go? {
        KindKept(turn.line, s[1..], backend);
      }
    }
  }

  /** From the path on nothing is deleted. */
  lemma TargetStep(l: Line, p: byte)
    requires l.stat in {InUri, AfterSlashInUri, Http09, AlmostDone} && Step(l, p).Go?
    ensures !Step(l, p).gone && Step(l, p).line.stat in {InUri, AfterSlashInUri, Http09, AlmostDone}
  {
    hide MethodOf, Is, Lower, Full;
  }

  lemma {:induction false} TargetKept(l: Line, s: seq<byte>, backend: bool)
    requires l.stat in {InUri, AfterSlashInUri, Http09, AlmostDone}
    ensures var p := Scan(l, s, backend); p.kept + p.rest == s
    decreases s
  {
    hide Step, Verdict;
    if s != [] {
      FirstAndRest(s);
      var turn := Step(l, s[0]);
      if turn.Go? {
        TargetStep(l, s[0]);
        TargetKept(turn.line, s[1..], backend);
        var p := Scan(turn.line, s[1..], backend);
        assert ([s[0]] + p.kept) + p.rest == [s[0]] + (p.kept + p.rest);
      }
    }
  }

  // ---- what the chunk comes to ----

  /** What is left of the current buffer after one more byte: it stays, or goes and ends the buffer, or the first
      byte of the buffer goes. */
  function Cur(l: Line, cur: seq<byte>, p: byte, gone: bool): seq<byte> {
    if !gone then cur + [p] else if l.stat == SpacesBeforeUri then [] else (cur + [p])[1..]
  }

  /** The buffer that one more byte ends. */
  function Sealed(l: Line, cur: seq<byte>, gone: bool): seq<byte> {
    if gone && l.stat == SpacesBeforeUri then cur else []
  }

  /** The bytes that a parse leaves in the chunk: `cur` is what is left of the current buffer up to the position,
      `s` the bytes behind it, `more` the buffers that follow. A letter that begins a scheme goes, and the buffer
      ends there; for every other byte of the authority the first byte of its buffer goes. */
  function Rewrite(l: Line, cur: seq<byte>, s: seq<byte>, more: seq<seq<byte>>, backend: bool): seq<byte>
    decreases |more|, |s|
  {
    if s == [] then cur + (if more == [] then [] else Rewrite(l, [], more[0], more[1..], backend))
    else
      match Step(l, s[0])
      case Go(m, gone) =>
        Sealed(l, cur, gone && backend) + Rewrite(m, Cur(l, cur, s[0], gone && backend), s[1..], more, backend)
      case _ => cur + s + Concat(more)
  }

  /** How many bytes are left does not depend on the buffers, whatever the method is. */
  lemma {:induction false} RewriteLength(l: Line, cur: seq<byte>, s: seq<byte>, more: seq<seq<byte>>, backend: bool)
    ensures var p := Scan(l, s + Concat(more), backend);
      |Rewrite(l, cur, s, more, backend)| == |cur| + |p.kept| + |p.rest|
    decreases |more|, |s|
  {
    hide Step;
    if s == [] {
      assert s + Concat(more) == Concat(more);
      if more != [] {
        RewriteLength(l, [], more[0], more[1..], backend);
      }
    } else {
      assert (s + Concat(more))[1..] == s[1..] + Concat(more);
      var turn := Step(l, s[0]);
      if turn.Go? {
        RewriteLength(turn.line, Cur(l, cur, s[0], turn.gone && backend), s[1..], more, backend);
      }
    }
  }

  /** States in which a letter of the authority has just been, or is about to be, deleted. */
  predicate Deleting(stat: Stat) {
    stat in {InSchema, SchemaSlash, SchemaSlashSlash, InHost, InPort}
  }

  /** The next byte of the authority is the first byte of what is left of its buffer. */
  predicate Aligned(l: Line, cur: seq<byte>, backend: bool) {
    && (l.stat == SpacesBeforeHost ==> l.kind == CONNECT)
    && (backend && Deleting(l.stat) && l.kind != CONNECT ==> cur == [])
  }

  lemma NotDeleting(l: Line, p: byte)
    requires Step(l, p).Go? && (l.stat == SpacesBeforeHost ==> l.kind == CONNECT)
    ensures var turn := Step(l, p);
      && (turn.line.stat == SpacesBeforeHost ==> turn.line.kind == CONNECT)
      && (!turn.gone ==> !Deleting(turn.line.stat))
      && (turn.gone ==> Deleting(l.stat) || l.stat == SpacesBeforeUri || turn.line.kind == CONNECT)
      && (turn.gone ==> turn.line.stat != Start && turn.line.stat != InMethod)
      && (turn.gone && l.stat == SpacesBeforeUri ==> turn.line.stat == InSchema)
      && (turn.gone && l.stat != SpacesBeforeUri ==> turn.line.kind == l.kind)
  {}

  /** The bytes left are those of the reference. */
  predicate Faithful(l: Line, cur: seq<byte>, s: seq<byte>, more: seq<seq<byte>>, backend: bool) {
    var p := Scan(l, s + Concat(more), backend);
    Rewrite(l, cur, s, more, backend) == cur + p.kept + p.rest
  }

  /** For every method but CONNECT the bytes left are those of the reference, whatever the buffers are. */
  lemma {:induction false} RewriteAligned(l: Line, cur: seq<byte>, s: seq<byte>, more: seq<seq<byte>>, backend: bool)
    requires Aligned(l, cur, backend)
    requires !backend || Scan(l, s + Concat(more), backend).line.kind != CONNECT
    ensures Faithful(l, cur, s, more, backend)
    decreases |more|, |s|
  {
    hide Step, Cur, Aligned, Faithful;
    var t := s + Concat(more);
    if s == [] {
      assert t == Concat(more);
      if more != [] {
        AlignedAtStart(l, cur, backend);
        RewriteAligned(l, [], more[0], more[1..], backend);
      }
      FaithfulEnd(l, cur, more, backend);
    } else if Step(l, s[0]).Go? {
      assert t[1..] == s[1..] + Concat(more);
      var turn := Step(l, s[0]);
      if backend { KindLater(turn.line, t[1..]); }
      AlignedStep(l, cur, s[0], backend);
      RewriteAligned(turn.line, Cur(l, cur, s[0], turn.gone && backend), s[1..], more, backend);
      FaithfulGo(l, cur, s, more, backend);
    } else {
      FaithfulStop(l, cur, s, more, backend);
    }
  }

  lemma FaithfulEnd(l: Line, cur: seq<byte>, more: seq<seq<byte>>, backend: bool)
    requires more != [] ==> Faithful(l, [], more[0], more[1..], backend)
    ensures Faithful(l, cur, [], more, backend)
  {
    assert [] + Concat(more) == Concat(more);
    if more != [] {
      var p := Scan(l, Concat(more), backend);
      assert cur + ([] + p.kept + p.rest) == cur + p.kept + p.rest;
    }
  }

  lemma FaithfulStop(l: Line, cur: seq<byte>, s: seq<byte>, more: seq<seq<byte>>, backend: bool)
    requires s != [] && !Step(l, s[0]).Go?
    ensures Faithful(l, cur, s, more, backend)
  {
    var t := s + Concat(more);
    assert t == [s[0]] + t[1..];
    assert cur + s + Concat(more) == cur + [s[0]] + t[1..];
  }

  lemma FaithfulGo(l: Line, cur: seq<byte>, s: seq<byte>, more: seq<seq<byte>>, backend: bool)
    requires s != [] && Step(l, s[0]).Go?
    requires var gone := Step(l, s[0]).gone && backend;
      && Sealed(l, cur, gone) + Cur(l, cur, s[0], gone) == cur + (if gone then [] else [s[0]])
      && Faithful(Step(l, s[0]).line, Cur(l, cur, s[0], gone), s[1..], more, backend)
    ensures Faithful(l, cur, s, more, backend)
  {
    hide Step, Cur, Sealed, Scan, Rewrite;
    var t, turn := s + Concat(more), Step(l, s[0]);
    var gone := turn.gone && backend;
    assert t[1..] == s[1..] + Concat(more);
    ScanGo(l, t, backend);
    RewriteGo(l, cur, s, more, backend);
    var q := Scan(turn.line, t[1..], backend);
    SameBytes(Sealed(l, cur, gone), Cur(l, cur, s[0], gone), cur, if gone then [] else [s[0]], q.kept, q.rest);
  }

  lemma ScanGo(l: Line, s: seq<byte>, backend: bool)
    requires s != [] && Step(l, s[0]).Go?
    ensures var turn := Step(l, s[0]);
      Scan(l, s, backend) == Keep(if turn.gone && backend then [] else [s[0]], Scan(turn.line, s[1..], backend))
  {}

  lemma RewriteGo(l: Line, cur: seq<byte>, s: seq<byte>, more: seq<seq<byte>>, backend: bool)
    requires s != [] && Step(l, s[0]).Go?
    ensures var turn := Step(l, s[0]); var gone := turn.gone && backend;
      Rewrite(l, cur, s, more, backend)
        == Sealed(l, cur, gone) + Rewrite(turn.line, Cur(l, cur, s[0], gone), s[1..], more, backend)
  {}

  lemma SameBytes(a: seq<byte>, b: seq<byte>, c: seq<byte>, d: seq<byte>, kept: seq<byte>, rest: seq<byte>)
    requires a + b == c + d
    ensures a + (b + kept + rest) == c + (d + kept) + rest
  {
    assert a + (b + kept + rest) == (a + b) + kept + rest && c + (d + kept) + rest == (c + d) + kept + rest;
  }

  lemma RewriteEnd(l: Line, cur: seq<byte>, more: seq<seq<byte>>, backend: bool)
    ensures Rewrite(l, cur, [], more, backend)
      == cur + (if more == [] then [] else Rewrite(l, [], more[0], more[1..], backend))
  {}

  // One more byte, seen from the whole buffer `c`.

  lemma KeptByte(l: Line, c: seq<byte>, pos: nat, more: seq<seq<byte>>, backend: bool)
    requires pos < |c| && Step(l, c[pos]).Go? && !(Step(l, c[pos]).gone && backend)
    ensures Rewrite(l, c[..pos], c[pos..], more, backend)
      == Rewrite(Step(l, c[pos]).line, c[..pos + 1], c[pos + 1..], more, backend)
  {
    hide Step, Rewrite;
    RewriteGo(l, c[..pos], c[pos..], more, backend);
    assert c[..pos] + [c[pos]] == c[..pos + 1] && c[pos..][1..] == c[pos + 1..];
    var left := Rewrite(Step(l, c[pos]).line, c[..pos + 1], c[pos + 1..], more, backend);
    assert [] + left == left;
  }

  lemma FrontByte(l: Line, c: seq<byte>, pos: nat, more: seq<seq<byte>>)
    requires pos < |c| && Step(l, c[pos]).Go? && Step(l, c[pos]).gone && l.stat != SpacesBeforeUri
    ensures Rewrite(l, c[..pos], c[pos..], more, true)
      == Rewrite(Step(l, c[pos]).line, c[1..][..pos], c[1..][pos..], more, true)
  {
    hide Step, Rewrite;
    RewriteGo(l, c[..pos], c[pos..], more, true);
    assert (c[..pos] + [c[pos]])[1..] == c[1..][..pos] && c[pos..][1..] == c[1..][pos..];
    var left := Rewrite(Step(l, c[pos]).line, c[1..][..pos], c[1..][pos..], more, true);
    assert [] + left == left;
  }

  lemma CutByte(l: Line, c: seq<byte>, pos: nat, more: seq<seq<byte>>)
    requires pos < |c| && Step(l, c[pos]).Go? && Step(l, c[pos]).gone && l.stat == SpacesBeforeUri
    ensures Rewrite(l, c[..pos], c[pos..], more, true)
         == Rewrite(Step(l, c[pos]).line, c[..pos], [], Holding(c[pos + 1..]) + more, true)
  {
    hide Step, Rewrite;
    var m, s := Step(l, c[pos]).line, c[pos + 1..];
    RewriteGo(l, c[..pos], c[pos..], more, true);
    assert c[pos..][1..] == s;
    RewriteEnd(m, c[..pos], Holding(s) + more, true);
    if s == [] {
      assert Holding(s) + more == more;
      RewriteEnd(m, [], more, true);
    } else {
      assert (Holding(s) + more)[1..] == more;
    }
  }

  lemma AlignedAtStart(l: Line, cur: seq<byte>, backend: bool)
    requires Aligned(l, cur, backend)
    ensures Aligned(l, [], backend)
  {}

  /** A known method stays what it is. */
  lemma KindLater(l: Line, s: seq<byte>)
    ensures l.stat != Start && l.stat != InMethod ==> Scan(l, s, true).line.kind == l.kind
  {
    if l.stat != Start && l.stat != InMethod { KindKept(l, s, true); }
  }

  lemma AlignedStep(l: Line, cur: seq<byte>, p: byte, backend: bool)
    requires Aligned(l, cur, backend) && Step(l, p).Go?
    requires var m := Step(l, p).line; backend && m.stat != Start && m.stat != InMethod ==> m.kind != CONNECT
    ensures var gone := Step(l, p).gone && backend;
      && Aligned(Step(l, p).line, Cur(l, cur, p, gone), backend)
      && Sealed(l, cur, gone) + Cur(l, cur, p, gone) == cur + (if gone then [] else [p])
  {
    hide Step;
    NotDeleting(l, p);
    var gone := Step(l, p).gone && backend;
    if gone && l.stat != SpacesBeforeUri {
      assert cur == [] && (cur + [p])[1..] == [];
    }
  }

  /** What later buffers add. */
  function Later(p: Parse, b: seq<seq<byte>>, backend: bool): seq<byte> {
    if p.code == AGAIN then Rewrite(p.line, [], [], b, backend) else Concat(b)
  }

  predicate Continued(l: Line, cur: seq<byte>, s: seq<byte>, a: seq<seq<byte>>, b: seq<seq<byte>>, backend: bool) {
    Rewrite(l, cur, s, a + b, backend)
      == Rewrite(l, cur, s, a, backend) + Later(Scan(l, s + Concat(a), backend), b, backend)
  }

  /** Buffers that arrive later continue the parse, in buffers of their own. */
  lemma {:induction false} RewriteResumes(l: Line, cur: seq<byte>, s: seq<byte>, a: seq<seq<byte>>, b: seq<seq<byte>>,
                                          backend: bool)
    ensures Continued(l, cur, s, a, b, backend)
    decreases |a|, |s|
  {
    hide Step, Cur, Continued;
    if s == [] {
      if a != [] {
        RewriteResumes(l, [], a[0], a[1..], b, backend);
      }
      ContinuedEnd(l, cur, a, b, backend);
    } else if Step(l, s[0]).Go? {
      var turn := Step(l, s[0]);
      RewriteResumes(turn.line, Cur(l, cur, s[0], turn.gone && backend), s[1..], a, b, backend);
      ContinuedGo(l, cur, s, a, b, backend);
    } else {
      ContinuedStop(l, cur, s, a, b, backend);
    }
  }

  lemma ContinuedEnd(l: Line, cur: seq<byte>, a: seq<seq<byte>>, b: seq<seq<byte>>, backend: bool)
    requires a != [] ==> Continued(l, [], a[0], a[1..], b, backend)
    ensures Continued(l, cur, [], a, b, backend)
  {
    hide Later, Step, Scan, Rewrite;
    assert [] + Concat(a) == Concat(a);
    RewriteEnd(l, cur, a, backend);
    if a == [] {
      assert a + b == b && cur + [] == cur;
      LaterIs(l, cur, b, backend);
    } else {
      RewriteEnd(l, cur, a + b, backend);
      assert (a + b)[0] == a[0] && (a + b)[1..] == a[1..] + b && Concat(a) == a[0] + Concat(a[1..]);
      var x, z := Rewrite(l, [], a[0], a[1..], backend), Later(Scan(l, Concat(a), backend), b, backend);
      assert cur + (x + z) == (cur + x) + z;
    }
  }

  lemma ContinuedGo(l: Line, cur: seq<byte>, s: seq<byte>, a: seq<seq<byte>>, b: seq<seq<byte>>, backend: bool)
    requires s != [] && Step(l, s[0]).Go?
    requires Continued(Step(l, s[0]).line, Cur(l, cur, s[0], Step(l, s[0]).gone && backend), s[1..], a, b, backend)
    ensures Continued(l, cur, s, a, b, backend)
  {
    hide Step, Cur, Sealed, Scan, Rewrite, Later;
    var t, turn := s + Concat(a), Step(l, s[0]);
    var gone := turn.gone && backend;
    assert t[1..] == s[1..] + Concat(a);
    ScanGo(l, t, backend);
    RewriteGo(l, cur, s, a, backend);
    RewriteGo(l, cur, s, a + b, backend);
    LaterKeeps(if gone then [] else [s[0]], Scan(turn.line, t[1..], backend), b, backend);
    var x, z := Rewrite(turn.line, Cur(l, cur, s[0], gone), s[1..], a, backend), Later(Scan(l, t, backend), b, backend);
    assert Sealed(l, cur, gone) + (x + z) == (Sealed(l, cur, gone) + x) + z;
  }

  lemma ContinuedStop(l: Line, cur: seq<byte>, s: seq<byte>, a: seq<seq<byte>>, b: seq<seq<byte>>, backend: bool)
    requires s != [] && !Step(l, s[0]).Go?
    ensures Continued(l, cur, s, a, b, backend)
  {
    hide Later;
    NoVerdictLeft(l, s[0]);
    ConcatAppend(a, b);
    LaterRest(Scan(l, s + Concat(a), backend), b, backend);
    assert cur + s + (Concat(a) + Concat(b)) == (cur + s + Concat(a)) + Concat(b);
  }

  lemma LaterIs(l: Line, cur: seq<byte>, b: seq<seq<byte>>, backend: bool)
    ensures Rewrite(l, cur, [], b, backend) == cur + Later(Scan(l, [], backend), b, backend)
  {
    hide Step, Rewrite;
    RewriteEnd(l, cur, b, backend);
    RewriteEnd(l, [], b, backend);
    ScanNone(l, backend);
    assert [] + (if b == [] then [] else Rewrite(l, [], b[0], b[1..], backend))
      == (if b == [] then [] else Rewrite(l, [], b[0], b[1..], backend));
  }

  lemma ScanNone(l: Line, backend: bool)
    ensures Scan(l, [], backend) == Parse(l, [], [], AGAIN)
  {}

  lemma LaterKeeps(k: seq<byte>, p: Parse, b: seq<seq<byte>>, backend: bool)
    ensures Later(Keep(k, p), b, backend) == Later(p, b, backend)
  {}

  lemma LaterRest(p: Parse, b: seq<seq<byte>>, backend: bool)
    requires p.code != AGAIN
    ensures Later(p, b, backend) == Concat(b)
  {}

  lemma NoVerdictLeft(l: Line, p: byte)
    ensures match Step(l, p)
      case Accept(m) => Verdict(m) != AGAIN
      case Fail(code) => code != AGAIN
      case Go(_, _) => true
  {}

  // ---- CONNECT ----

  predicate IsBlank(p: byte) { p == SP || p == TAB }

  /** How many bytes come before the first one that is deleted; all of them, when none is. */
  function FirstGone(l: Line, s: seq<byte>): (n: nat)
    ensures n <= |s|
    decreases s
  {
    if s == [] then 0
    else
      match Step(l, s[0])
      case Go(m, gone) => if gone then 0 else 1 + FirstGone(m, s[1..])
      case _ => |s|
  }

  /** The buffers are cut behind the first `n` bytes. */
  predicate CutAt(bufs: seq<seq<byte>>, n: nat)
    decreases |bufs|
  {
    n == 0 || (bufs != [] && |bufs[0]| <= n && CutAt(bufs[1..], n - |bufs[0]|))
  }

  /** The buffers of a stream are cut where the parser deletes its first byte, or it deletes none. */
  predicate WellCut(segments: seq<seq<byte>>) {
    var s := Concat(segments);
    var n := FirstGone(FRESH, s);
    n == |s| || exists k :: 0 <= k <= |segments| && |Concat(segments[..k])| == n
  }

  lemma {:induction false} CutMeans(bufs: seq<seq<byte>>, n: nat)
    ensures CutAt(bufs, n) <==> exists k :: 0 <= k <= |bufs| && |Concat(bufs[..k])| == n
    decreases |bufs|
  {
    if n == 0 {
      assert |Concat(bufs[..0])| == n;
    } else if bufs != [] {
      forall k | 0 < k <= |bufs| ensures |Concat(bufs[..k])| == |bufs[0]| + |Concat(bufs[1..][..k - 1])| {
        assert bufs[..k][1..] == bufs[1..][..k - 1];
      }
      if |bufs[0]| <= n {
        CutMeans(bufs[1..], n - |bufs[0]|);
        if CutAt(bufs, n) {
          var j :| 0 <= j <= |bufs[1..]| && |Concat(bufs[1..][..j])| == n - |bufs[0]|;
          assert |Concat(bufs[..j + 1])| == n;
        }
        if k :| 0 <= k <= |bufs| && |Concat(bufs[..k])| == n {
          assert k > 0;
          assert |Concat(bufs[1..][..k - 1])| == n - |bufs[0]|;
        }
      }
    }
  }

  /** The states before the authority of a CONNECT line. */
  predicate Fronting(l: Line) {
    l.stat in {Start, InMethod} || (l.stat == SpacesBeforeHost && l.kind == CONNECT)
  }

  /** The states in the authority, and those behind it. */
  predicate Authorizing(l: Line) { l.stat in {InHost, InPort} }
  predicate Targeting(l: Line) { l.stat in {AfterSlashInUri, InUri, Http09, AlmostDone} }

  lemma FaithfulKept(l: Line, cur: seq<byte>, s: seq<byte>, more: seq<seq<byte>>)
    requires s != [] && Step(l, s[0]).Go? && !Step(l, s[0]).gone
    ensures Faithful(l, cur, s, more, true) <==> Faithful(Step(l, s[0]).line, cur + [s[0]], s[1..], more, true)
  {
    hide Step, Scan, Rewrite;
    var t, m := s + Concat(more), Step(l, s[0]).line;
    assert t[1..] == s[1..] + Concat(more);
    ScanGo(l, t, true);
    RewriteGo(l, cur, s, more, true);
    NothingBefore(Rewrite(m, cur + [s[0]], s[1..], more, true));
    var q := Scan(m, t[1..], true);
    Moved(cur, [s[0]], q.kept, q.rest);
  }

  lemma Moved(a: seq<byte>, b: seq<byte>, c: seq<byte>, d: seq<byte>)
    ensures a + (b + c) + d == (a + b) + c + d
  {}

  lemma FaithfulNext(l: Line, cur: seq<byte>, more: seq<seq<byte>>)
    requires more != []
    ensures Faithful(l, cur, [], more, true) <==> Faithful(l, [], more[0], more[1..], true)
  {
    hide Step, Scan, Rewrite;
    NothingBefore(Concat(more));
    RewriteEnd(l, cur, more, true);
    var p := Scan(l, Concat(more), true);
    Assoc(cur, p.kept, p.rest);
    NothingBefore(p.kept);
    SplitEqual(cur, Rewrite(l, [], more[0], more[1..], true), cur, p.kept + p.rest);
  }

  /** Once the authority begins a buffer, exactly it goes. */
  lemma {:induction false} AuthorityFaithful(l: Line, cur: seq<byte>, s: seq<byte>, more: seq<seq<byte>>)
    requires Targeting(l) || (Authorizing(l) && cur == [])
    ensures Faithful(l, cur, s, more, true)
    decreases |more|, |s|
  {
    hide Step, Faithful;
    if s == [] {
      if more != [] { AuthorityFaithful(l, [], more[0], more[1..]); }
      FaithfulEnd(l, cur, more, true);
    } else if Step(l, s[0]).Go? {
      AuthorityStep(l, s[0]);
      var gone := Step(l, s[0]).gone;
      assert gone ==> (cur + [s[0]])[1..] == [];
      AuthorityFaithful(Step(l, s[0]).line, Cur(l, cur, s[0], gone), s[1..], more);
      FaithfulGo(l, cur, s, more, true);
    } else {
      FaithfulStop(l, cur, s, more, true);
    }
  }

  lemma AuthorityStep(l: Line, p: byte)
    requires (Targeting(l) || Authorizing(l) || l.stat == SpacesBeforeHost) && Step(l, p).Go?
    ensures var turn := Step(l, p);
      && (turn.gone ==> Authorizing(turn.line) && l.stat != SpacesBeforeUri && !Targeting(l) && !IsBlank(p))
      && (!turn.gone ==> Targeting(turn.line) || (turn.line == l && l.stat == SpacesBeforeHost && IsBlank(p)))
  {}

  /** When an authority byte has been deleted for which another one stays, that other one remains. */
  lemma {:induction false} Spoilt(l: Line, cur: seq<byte>, s: seq<byte>, more: seq<seq<byte>>)
    requires (Targeting(l) || Authorizing(l)) && cur != [] && !IsBlank(cur[|cur| - 1])
    ensures var r := Rewrite(l, cur, s, more, true); |r| >= |cur| && !IsBlank(r[|cur| - 1])
    decreases s
  {
    hide Step;
    if s != [] && Step(l, s[0]).Go? {
      AuthorityStep(l, s[0]);
      var next := Cur(l, cur, s[0], Step(l, s[0]).gone);
      if Targeting(l) || !Step(l, s[0]).gone {
        TargetRewrite(l, cur, s, more);
      } else {
        assert next[|cur| - 1] == s[0];
        Spoilt(Step(l, s[0]).line, next, s[1..], more);
      }
    }
  }

  lemma TargetRewrite(l: Line, cur: seq<byte>, s: seq<byte>, more: seq<seq<byte>>)
    requires s != [] && Step(l, s[0]).Go? && !Step(l, s[0]).gone && Targeting(Step(l, s[0]).line)
    ensures var r := Rewrite(l, cur, s, more, true); |r| >= |cur| && r[..|cur|] == cur
  {
    hide Step;
    RewriteGo(l, cur, s, more, true);
    RewriteTarget(Step(l, s[0]).line, cur + [s[0]], s[1..], more);
  }

  /** Behind `cur` in the same buffer the first authority byte spoils the front. */
  lemma NotFaithful(l: Line, cur: seq<byte>, s: seq<byte>, more: seq<seq<byte>>)
    requires l.stat == SpacesBeforeHost && cur != [] && IsBlank(cur[|cur| - 1])
    requires s != [] && Step(l, s[0]).Go? && Step(l, s[0]).gone
    ensures !Faithful(l, cur, s, more, true)
  {
    hide Step, Scan, Rewrite;
    AuthorityStep(l, s[0]);
    var next := (cur + [s[0]])[1..];
    assert |next| == |cur| && next[|cur| - 1] == s[0];
    RewriteGo(l, cur, s, more, true);
    NothingBefore(Rewrite(Step(l, s[0]).line, next, s[1..], more, true));
    Spoilt(Step(l, s[0]).line, next, s[1..], more);
    var p := Scan(l, s + Concat(more), true);
    assert (cur + p.kept + p.rest)[|cur| - 1] == cur[|cur| - 1];
  }

  /** Whether the first deleted byte is the first of its buffer, seen from inside a buffer. */
  predicate CutHere(cur: seq<byte>, s: seq<byte>, more: seq<seq<byte>>, n: nat) {
    (n == 0 && cur == []) || (|s| <= n && CutAt(more, n - |s|))
  }

  lemma {:induction false} FrontExact(l: Line, cur: seq<byte>, s: seq<byte>, more: seq<seq<byte>>)
    requires Fronting(l) && (l.stat == SpacesBeforeHost && cur != [] ==> IsBlank(cur[|cur| - 1]))
    requires Scan(l, s + Concat(more), true).line.kind == CONNECT
    ensures var n := FirstGone(l, s + Concat(more));
      Faithful(l, cur, s, more, true) <==> n == |s + Concat(more)| || CutHere(cur, s, more, n)
    decreases |more|, |s|
  {
    hide Step, Faithful, Scan, Rewrite;
    var t := s + Concat(more);
    if s == [] {
      assert t == Concat(more);
      if more == [] {
        FaithfulEnd(l, cur, more, true);
      } else {
        FrontExact(l, [], more[0], more[1..]);
        FaithfulNext(l, cur, more);
      }
    } else if !Step(l, s[0]).Go? {
      FaithfulStop(l, cur, s, more, true);
    } else {
      var m := Step(l, s[0]).line;
      assert t[1..] == s[1..] + Concat(more);
      ScanGo(l, t, true);
      FrontStep(l, s[0]);
      KindLater(m, t[1..]);
      if Step(l, s[0]).gone {
        if cur == [] {
          assert (cur + [s[0]])[1..] == [];
          AuthorityFaithful(m, [], s[1..], more);
          FaithfulGo(l, cur, s, more, true);
        } else {
          NotFaithful(l, cur, s, more);
        }
      } else {
        FaithfulKept(l, cur, s, more);
        if Targeting(m) {
          AuthorityFaithful(m, cur + [s[0]], s[1..], more);
          NoneGone(m, t[1..]);
        } else {
          FrontExact(m, cur + [s[0]], s[1..], more);
        }
      }
    }
  }

  lemma FrontStep(l: Line, p: byte)
    requires Fronting(l) && Step(l, p).Go?
    ensures var m := Step(l, p).line;
      && (Step(l, p).gone ==> l.stat == SpacesBeforeHost && Authorizing(m))
      && (!Step(l, p).gone ==> Targeting(m) || Fronting(m) || (m.stat == SpacesBeforeUri && m.kind != CONNECT))
      && (!Step(l, p).gone && m.stat == SpacesBeforeHost ==> IsBlank(p))
  {
    hide MethodOf;
  }

  lemma {:induction false} NoneGone(l: Line, s: seq<byte>)
    requires Targeting(l)
    ensures FirstGone(l, s) == |s|
    decreases s
  {
    hide Step;
    if s != [] && Step(l, s[0]).Go? {
      AuthorityStep(l, s[0]);
      NoneGone(Step(l, s[0]).line, s[1..]);
    }
  }

  /** The bytes left are those of the reference, for every list of buffers, exactly when the method is another one,
      or no byte is deleted, or the first deleted byte begins a buffer. */
  lemma LeftExact(bufs: seq<seq<byte>>)
    ensures Faithful(FRESH, [], [], bufs, true) <==>
      Scan(FRESH, Concat(bufs), true).line.kind != CONNECT || WellCut(bufs)
  {
    hide Step, Faithful, Scan, CutAt;
    var s := Concat(bufs);
    assert [] + s == s;
    CutMeans(bufs, FirstGone(FRESH, s));
    if Scan(FRESH, s, true).line.kind == CONNECT {
      FrontExact(FRESH, [], [], bufs);
      CutNone(bufs);
    } else {
      RewriteAligned(FRESH, [], [], bufs, true);
    }
  }

  lemma CutNone(bufs: seq<seq<byte>>)
    ensures CutAt(bufs, 0)
  {}

  lemma SplitEqual(a: seq<byte>, b: seq<byte>, c: seq<byte>, d: seq<byte>)
    requires |a| == |c|
    ensures a + b == c + d <==> a == c && b == d
  {
    if a + b == c + d {
      assert a == (a + b)[..|a|] && c == (c + d)[..|a|] && b == (a + b)[|a|..] && d == (c + d)[|a|..];
    }
  }

  /** Bytes that stay. */
  lemma {:induction false} RewriteKept(l: Line, cur: seq<byte>, s: seq<byte>, m: Line, t: seq<byte>,
                                       more: seq<seq<byte>>)
    requires Leads(l, s, s, m)
    ensures Rewrite(l, cur, s + t, more, true) == Rewrite(m, cur + s, t, more, true)
    decreases s
  {
    if s == [] {
      assert s + t == t && cur + s == cur;
    } else {
      hide Step, Rewrite;
      assert (s + t)[1..] == s[1..] + t && cur + s == (cur + [s[0]]) + s[1..];
      var turn := Step(l, s[0]);
      KeptLess(turn.line, s[1..], true);
      RewriteGo(l, cur, s + t, more, true);
      assert [] + Rewrite(turn.line, cur + [s[0]], s[1..] + t, more, true)
        == Rewrite(turn.line, cur + [s[0]], s[1..] + t, more, true);
      assert s == [s[0]] + s[1..];
      RewriteKept(turn.line, cur + [s[0]], s[1..], m, t, more);
    }
  }

  lemma {:induction false} KeptLess(l: Line, s: seq<byte>, backend: bool)
    ensures |Scan(l, s, backend).kept| <= |s|
    decreases s
  {
    if s != [] && Step(l, s[0]).Go? { KeptLess(Step(l, s[0]).line, s[1..], backend); }
  }

  /** Bytes for which the first ones of the buffer go. */
  lemma {:induction false} RewriteGone(l: Line, cur: seq<byte>, s: seq<byte>, m: Line, t: seq<byte>,
                                       more: seq<seq<byte>>)
    requires Leads(l, s, [], m) && l.stat != SpacesBeforeUri
    ensures Rewrite(l, cur, s + t, more, true) == Rewrite(m, (cur + s)[|s|..], t, more, true)
    decreases s
  {
    if s == [] {
      assert s + t == t && (cur + s)[|s|..] == cur;
    } else {
      hide Step, Rewrite, Leads;
      LeadsFirst(l, s, m);
      var turn := Step(l, s[0]);
      GoneFirst(l, cur, s, t, more);
      RewriteGone(turn.line, (cur + [s[0]])[1..], s[1..], m, t, more);
      DropShift(cur, s);
    }
  }

  lemma LeadsFirst(l: Line, s: seq<byte>, m: Line)
    requires Leads(l, s, [], m) && s != []
    ensures var turn := Step(l, s[0]);
      turn.Go? && turn.gone && turn.line.stat != SpacesBeforeUri && Leads(turn.line, s[1..], [], m)
  {
    hide Step;
    NoVerdictLeft(l, s[0]);
    GoneStat(l, s[0]);
  }

  lemma GoneFirst(l: Line, cur: seq<byte>, s: seq<byte>, t: seq<byte>, more: seq<seq<byte>>)
    requires s != [] && Step(l, s[0]).Go? && Step(l, s[0]).gone && l.stat != SpacesBeforeUri
    ensures Rewrite(l, cur, s + t, more, true)
      == Rewrite(Step(l, s[0]).line, (cur + [s[0]])[1..], s[1..] + t, more, true)
  {
    hide Step, Rewrite;
    assert (s + t)[1..] == s[1..] + t;
    RewriteGo(l, cur, s + t, more, true);
    NothingBefore(Rewrite(Step(l, s[0]).line, (cur + [s[0]])[1..], s[1..] + t, more, true));
  }

  lemma NothingBefore(s: seq<byte>)
    ensures [] + s == s
  {}

  lemma DropShift(cur: seq<byte>, s: seq<byte>)
    requires s != []
    ensures ((cur + [s[0]])[1..] + s[1..])[|s| - 1..] == (cur + s)[|s|..]
  {}

  lemma GoneStat(l: Line, p: byte)
    ensures Step(l, p).Go? && Step(l, p).gone ==> Step(l, p).line.stat != SpacesBeforeUri
  {}

  /** From the path or the version on nothing goes. */
  lemma {:induction false} RewriteTarget(l: Line, cur: seq<byte>, s: seq<byte>, more: seq<seq<byte>>)
    requires l.stat in {InUri, AfterSlashInUri, Http09, AlmostDone}
    ensures Rewrite(l, cur, s, more, true) == cur + s + Concat(more)
    decreases |more|, |s|
  {
    if s == [] {
      assert cur + s == cur;
      if more != [] {
        RewriteTarget(l, [], more[0], more[1..]);
        assert cur + ([] + more[0] + Concat(more[1..])) == cur + (more[0] + Concat(more[1..]));
      } else {
        assert cur + [] == cur;
      }
    } else if Step(l, s[0]).Go? {
      RewriteTarget(Step(l, s[0]).line, cur + [s[0]], s[1..], more);
      assert [] + (cur + [s[0]] + s[1..] + Concat(more)) == cur + s + Concat(more);
    }
  }

  /** The front of a CONNECT line: the method and the blanks behind it. */
  function ConnectFront(gap: seq<byte>): seq<byte> { CONNECT_NAME + [SP] + gap }

  /** A CONNECT line up to the end of its authority. */
  datatype Tunnel = Tunnel(gap: seq<byte>, host: seq<byte>, colon: bool, port: seq<byte>) {
    predicate Valid() {
      && Blanks(gap) && HostChars(host) && Digits(port) && (!colon ==> port == []) && (host != [] || colon)
      && |host| < HTTP_HOST_MAX && |port| < HTTP_PORT_MAX && |host| + 1 + |port| < HTTP_URL_MAX
    }
    function Front(): seq<byte> { ConnectFront(gap) }
    function Authority(): seq<byte> { host + (if colon then [COLON] + port else []) }
  }

  const CONNECT_NAME: seq<byte> := [67, 79, 78, 78, 69, 67, 84]

  lemma TunnelFront(q: Tunnel)
    requires q.Valid()
    ensures Leads(FRESH, q.Front(), q.Front(), FRESH.(stat := SpacesBeforeHost, kind := CONNECT, verb := CONNECT_NAME))
  {
    hide Step, Scan;
    var first, more := CONNECT_NAME[0], CONNECT_NAME[1..];
    assert CONNECT_NAME == [first] + more;
    var l1 := FRESH.(stat := InMethod, verb := [first]);
    FirstLetter(first);
    VerbRun(l1, more);
    assert [first] + more == CONNECT_NAME;
    var l2 := l1.(verb := CONNECT_NAME);
    LeadsChain(FRESH, [first], [first], l1, more, more, l2);
    var l3 := FRESH.(stat := SpacesBeforeHost, kind := CONNECT, verb := CONNECT_NAME);
    ConnectEnd(l2);
    LeadsChain(FRESH, CONNECT_NAME, CONNECT_NAME, l2, [SP], [SP], l3);
    HostGapRun(l3, q.gap);
    LeadsChain(FRESH, CONNECT_NAME + [SP], CONNECT_NAME + [SP], l3, q.gap, q.gap, l3);
  }

  lemma ConnectEnd(l: Line)
    requires l.stat == InMethod && l.verb == CONNECT_NAME
    ensures Leads(l, [SP], [SP], l.(stat := SpacesBeforeHost, kind := CONNECT))
  {}

  lemma {:induction false} HostGapRun(l: Line, s: seq<byte>)
    requires l.stat == SpacesBeforeHost && Blanks(s)
    ensures Leads(l, s, s, l)
    decreases s
  {
    if s != [] {
      LeadsOne(l, s[0]);
      HostGapRun(l, s[1..]);
      assert s == [s[0]] + s[1..];
      LeadsChain(l, [s[0]], [s[0]], l, s[1..], s[1..], l);
    }
  }

  lemma TunnelAuthority(q: Tunnel, l: Line) returns (m: Line)
    requires q.Valid() && l.stat == SpacesBeforeHost && l.host == [] && l.port == [] && l.url == []
    requires q.Authority() != []
    ensures Leads(l, q.Authority(), [], m) && (m.stat == InHost || m.stat == InPort)
  {
    hide Step, Scan, Leads;
    var l0 := l.(stat := InHost);
    HostRun(l0, q.host);
    var l1 := l0.(host := l0.host + Lowered(q.host), url := l0.url + Lowered(q.host));
    m := l1;
    assert q.host + [] == q.host;
    if q.colon {
      var l2 := l1.(stat := InPort, url := l1.url + [COLON]);
      PortStart(l1);
      PortRun(l2, q.port);
      m := l2.(port := l2.port + q.port, url := l2.url + q.port);
      LeadsChain(l1, [COLON], [], l2, q.port, [], m);
      LeadsChain(l0, q.host, [], l1, [COLON] + q.port, [], m);
    }
    EitherHost(l, q.Authority(), [], m);
  }

  /** The first byte of the authority ends the blanks. */
  lemma EitherHost(l: Line, s: seq<byte>, k: seq<byte>, m: Line)
    requires l.stat == SpacesBeforeHost && s != [] && s[0] != SP && s[0] != TAB && Leads(l.(stat := InHost), s, k, m)
    ensures Leads(l, s, k, m)
  {
    hide Step;
    SameHostStep(l, s[0]);
    NoVerdictLeft(l.(stat := InHost), s[0]);
    assert Step(l, s[0]).Go?;
  }

  lemma SameHostStep(l: Line, p: byte)
    requires l.stat == SpacesBeforeHost && p != SP && p != TAB
    ensures Step(l, p) == Step(l.(stat := InHost), p)
  {}

  /** A byte that is deleted when it follows the blanks. */
  predicate IsHostByte(p: byte) { IsLetter(p) || IsDigit(p) || p == DOT || p == DASH || p == COLON }

  lemma {:induction false} GonePlace(l: Line, s: seq<byte>, m: Line, t: seq<byte>)
    requires Leads(l, s, s, m)
    ensures FirstGone(l, s + t) == |s| + FirstGone(m, t)
    decreases s
  {
    if s == [] {
      assert s + t == t;
    } else {
      hide Step;
      assert (s + t)[1..] == s[1..] + t && s == [s[0]] + s[1..];
      KeptLess(Step(l, s[0]).line, s[1..], true);
      GonePlace(Step(l, s[0]).line, s[1..], m, t);
    }
  }

  lemma HostByteGone(l: Line, p: byte)
    requires l.stat == SpacesBeforeHost && l.host == [] && l.url == [] && IsHostByte(p)
    ensures Step(l, p).Go? && Step(l, p).gone
  {}

  /** Where a CONNECT line loses its first byte. */
  lemma TunnelPlace(gap: seq<byte>, x: seq<byte>)
    requires Blanks(gap) && x != [] && IsHostByte(x[0])
    ensures var f := ConnectFront(gap); FirstGone(FRESH, f + x) == |f| && Scan(FRESH, f + x, true).line.kind == CONNECT
  {
    hide Step, Scan, Leads;
    var q := Tunnel(gap, [97], false, []);
    var f, l := q.Front(), FRESH.(stat := SpacesBeforeHost, kind := CONNECT, verb := CONNECT_NAME);
    TunnelFront(q);
    GonePlace(FRESH, f, l, x);
    LeadsOn(FRESH, f, f, l, x);
    KindLater(l, x);
    HostByteGone(l, x[0]);
  }

  /** The bytes left of a CONNECT request with a host are those of the reference if and only if its host begins a
      buffer, whatever follows and however the line is cut elsewhere. */
  lemma TunnelExact(gap: seq<byte>, x: seq<byte>, bufs: seq<seq<byte>>)
    requires Blanks(gap) && x != [] && IsHostByte(x[0]) && Concat(bufs) == ConnectFront(gap) + x
    ensures Faithful(FRESH, [], [], bufs, true) <==>
      exists k :: 0 <= k <= |bufs| && Concat(bufs[..k]) == ConnectFront(gap)
  {
    hide Step, Scan, Faithful, FirstGone, Concat, ConnectFront;
    var f := ConnectFront(gap);
    TunnelPlace(gap, x);
    LeftExact(bufs);
    forall k | 0 <= k <= |bufs| ensures |Concat(bufs[..k])| == |f| <==> Concat(bufs[..k]) == f {
      BuffersCut(bufs, k, f, x);
    }
  }

  lemma BuffersCut(bufs: seq<seq<byte>>, k: nat, f: seq<byte>, x: seq<byte>)
    requires k <= |bufs| && Concat(bufs) == f + x
    ensures |Concat(bufs[..k])| == |f| <==> Concat(bufs[..k]) == f
  {
    hide Concat;
    ConcatAppend(bufs[..k], bufs[k..]);
    assert bufs[..k] + bufs[k..] == bufs;
    SameFront(Concat(bufs[..k]), Concat(bufs[k..]), f, x);
  }

  lemma SameFront(a: seq<byte>, b: seq<byte>, c: seq<byte>, d: seq<byte>)
    requires a + b == c + d
    ensures |a| == |c| <==> a == c
  {
    if |a| == |c| { SplitEqual(a, b, c, d); }
  }

  /** When the authority begins a buffer, exactly it goes, in as many buffers as the line is cut into. */
  lemma TunnelCut(q: Tunnel, t: seq<byte>, bufs: seq<seq<byte>>, k: nat)
    requires q.Valid() && t != [] && (t[0] == SP || t[0] == SLASH)
    requires k <= |bufs| && Concat(bufs[..k]) == q.Front() && Concat(bufs) == q.Front() + (q.Authority() + t)
    ensures Rewrite(FRESH, [], [], bufs, true) == q.Front() + t
  {
    hide Step, Scan, Rewrite, Leads;
    var f, a, l := q.Front(), q.Authority(), FRESH.(stat := SpacesBeforeHost, kind := CONNECT, verb := CONNECT_NAME);
    assert IsHostByte((a + t)[0]);
    TunnelExact(q.gap, a + t, bufs);
    TunnelFront(q);
    var m := TunnelAuthority(q, l);
    LeadsChain(FRESH, f, f, l, a, [], m);
    LeadsOn(FRESH, f + a, f + [], m, t);
    Assoc(f, a, t);
    TailKept(m, t);
    NothingBefore(f + a + t);
    LeftOf(f, Scan(m, t, true), t);
  }

  lemma TailKept(l: Line, t: seq<byte>)
    requires Authorizing(l) && t != [] && (t[0] == SP || t[0] == SLASH)
    ensures Scan(l, t, true).kept + Scan(l, t, true).rest == t
  {
    if Step(l, t[0]).Go? {
      TargetKept(Step(l, t[0]).line, t[1..], true);
      FirstAndRest(t);
    }
  }

  lemma LeftOf(f: seq<byte>, p: Parse, t: seq<byte>)
    requires p.kept + p.rest == t
    ensures [] + ((f + []) + p.kept) + p.rest == f + t
  {
    Assoc(f, p.kept, p.rest);
    NothingBehind(f);
    NothingBefore(f + p.kept);
  }

  lemma NothingBehind(s: seq<byte>)
    ensures s + [] == s
  {}

  /** The authority and what follows, behind `cur` in the same buffer. */
  lemma TunnelRest(q: Tunnel, l: Line, cur: seq<byte>, t: seq<byte>, more: seq<seq<byte>>)
    requires q.Valid() && t != [] && (t[0] == SP || t[0] == SLASH)
    requires l == FRESH.(stat := SpacesBeforeHost, kind := CONNECT, verb := CONNECT_NAME)
    ensures var a := q.Authority(); Rewrite(l, cur, a + t, more, true) == (cur + a)[|a|..] + t + Concat(more)
  {
    hide Step, Rewrite, Leads;
    var a := q.Authority();
    var m := TunnelAuthority(q, l);
    RewriteGone(l, cur, a, m, t, more);
    TailNow(m, (cur + a)[|a|..], t, more);
  }

  /** When the whole line is in one buffer, as many bytes go from the front of the buffer as the authority has. */
  lemma TunnelWhole(q: Tunnel, t: seq<byte>, more: seq<seq<byte>>)
    requires q.Valid() && t != [] && (t[0] == SP || t[0] == SLASH)
    ensures var f, a := q.Front(), q.Authority();
      Rewrite(FRESH, [], f + a + t, more, true) == (f + a)[|a|..] + t + Concat(more)
  {
    hide Step, Rewrite, Leads;
    TunnelFront(q);
    var l := FRESH.(stat := SpacesBeforeHost, kind := CONNECT, verb := CONNECT_NAME);
    var f, a := q.Front(), q.Authority();
    assert f + a + t == f + (a + t) && [] + f == f;
    RewriteKept(FRESH, [], f, l, a + t, more);
    TunnelRest(q, l, f, t, more);
  }

  /** And those are never the right ones: what is left of the line is not the line without its authority. */
  lemma TunnelSpoilt(q: Tunnel)
    requires q.Valid()
    ensures var f, a := q.Front(), q.Authority(); (f + a)[|a|..] != f
  {
    var f, a := q.Front(), q.Authority();
    var n, s := |a|, f + a;
    if n < |f| {
      assert s[n..][0] == f[n] && s[n..][1] == s[n + 1];
      if n == 5 { assert s[n..][1] == f[6] && f[1] == 79; }
      assert f[0] == 67;
    } else {
      assert s[n..][7] == s[n + 7] && f[7] == SP;
      assert s[n + 7] == a[n + 7 - |f|];
    }
  }

  /** The two ways to cut the same line, side by side: "CONNECT ab " in one buffer loses "CO", and with the host
      in a buffer of its own it loses "ab". */
  lemma TunnelExample(more: seq<seq<byte>>)
    ensures var line := CONNECT_NAME + [SP] + [97, 98] + [SP];
      Rewrite(FRESH, [], [], [line] + more, true) == [78, 78, 69, 67, 84, SP, 97, 98, SP] + Concat(more)
    ensures Rewrite(FRESH, [], [], [CONNECT_NAME + [SP], [97, 98] + [SP]] + more, true)
      == CONNECT_NAME + [SP] + [SP] + Concat(more)
  {
    hide Rewrite;
    var q := Tunnel([], [97, 98], false, []);
    var f, h := CONNECT_NAME + [SP], [97, 98] + [SP];
    assert q.Front() == f && q.Authority() == [97, 98];
    TunnelWhole(q, [SP], more);
    var one := [f + [97, 98] + [SP]] + more;
    assert one[1..] == more && (f + [97, 98])[2..] + [SP] == [78, 78, 69, 67, 84, SP, 97, 98, SP];
    RewriteEnd(FRESH, [], one, true);
    NothingBefore([78, 78, 69, 67, 84, SP, 97, 98, SP] + Concat(more));
    var two := [f, h] + more;
    assert two[1..] == [h] + more && ([h] + more)[1..] == more && two[..1] == [f] && Concat([f]) == f + Concat([]);
    NothingBehind(f);
    Assoc([97, 98], [SP], Concat(more));
    TunnelCut(q, [SP] + Concat(more), two, 1);
    Assoc(f, [SP], Concat(more));
  }

  lemma TailNow(l: Line, cur: seq<byte>, t: seq<byte>, more: seq<seq<byte>>)
    requires t != [] && (if l.stat == SpacesBeforeHost then t[0] == SLASH
      else l.stat in {InHost, InPort} && (t[0] == SP || t[0] == SLASH))
    ensures Rewrite(l, cur, t, more, true) == cur + t + Concat(more)
  {
    if Step(l, t[0]).Go? {
      RewriteTarget(Step(l, t[0]).line, cur + [t[0]], t[1..], more);
      assert [] + (cur + [t[0]] + t[1..] + Concat(more)) == cur + t + Concat(more);
    }
  }
}

module HttpCommand {
  import opened Bytes
  import opened Chunks
  import opened Cursors
  import opened Streams
  import opened HttpLine
  import opened HttpField

  /** http_req_t: the place of the parser, the request line, and the head. The two parsers number the states
      of `parse_stat` differently, so each has a field of its own here. */
  class HttpReq {
    var parse_buf: Buffer?
    var parse_pos: nat
    var parse_stat: Stat
    var method_type: Method
    var verb: seq<byte>
    var schema: seq<byte>
    var url: seq<byte>
    var host: seq<byte>
    var port: seq<byte>
    var schema_type: Scheme
    var port_num: int
    var head_stat: HeadStat
    var curheadname: seq<byte>
    var curheadval: seq<byte>
    var content_length_exist: bool
    var content_sumlen: nat

    constructor ()
      ensures Abs() == FRESH && InHead() == NO_HEAD && parse_buf == null && parse_pos == 0
    {
      parse_buf, parse_pos, parse_stat := null, 0, Start;
      method_type, verb, schema, url, host, port := UNSET, [], [], [], [], [];
      schema_type, port_num := UNKNOWN, -1;
      head_stat, curheadname, curheadval, content_length_exist, content_sumlen := HeadStart, [], [], false, 0;
    }

    ghost function InHead(): Head
      reads this
    {
      Head(head_stat, curheadname, curheadval, content_length_exist, content_sumlen)
    }

    ghost function Abs(): Line
      reads this
    {
      Line(parse_stat, method_type, verb, schema, url, host, port)
    }

    /** HTTP_PUSH_URL */
    method PushUrl(p: byte) returns (ok: bool)
      modifies `url
      ensures ok <==> !Full(old(url), HTTP_URL_MAX)
      ensures url == if ok then old(url) + [p] else old(url)
    {
      if |url| == HTTP_URL_MAX - 1 {
        return false;
      }
      url := url + [p];
      return true;
    }

    /** The case of sw_host. */
    method FeedHost(p: byte) returns (code: Code, gone: bool)
      modifies `host, `url, `parse_stat
      ensures HostStep(old(Abs()), p) == if code == AGAIN then Go(Abs(), gone) else Fail(code)
      ensures code != OK
    {
      gone := false;
      code := AGAIN;
      if IsLetter(p) || IsDigit(p) || p == DOT || p == DASH {
        var c := if IsLetter(p) then Lower(p) else p;
        if |host| == HTTP_HOST_MAX - 1 {
          return ERR_HOST, false;
        }
        host := host + [c];
        var ok := PushUrl(c);
        parse_stat := InHost;
        return if ok then AGAIN else ERR_URL, true;
      }
      if p == COLON {
        var ok := PushUrl(p);
        parse_stat := InPort;
        return if ok then AGAIN else ERR_URL, true;
      }
      if p == SLASH {
        var ok := PushUrl(p);
        parse_stat := AfterSlashInUri;
        return if ok then AGAIN else ERR_URL, false;
      }
      if p == SP {
        parse_stat := Http09;
        return AGAIN, false;
      }
      return ERR_URL, false;
    }

    /** The case of sw_spaces_before_uri. */
    method FeedTarget(p: byte) returns (code: Code, gone: bool)
      requires parse_stat == SpacesBeforeUri
      modifies `url, `schema, `parse_stat
      ensures Step(old(Abs()), p) == if code == AGAIN then Go(Abs(), gone) else Fail(code)
      ensures code != OK
    {
      if p == SP || p == TAB {
        return AGAIN, false;
      }
      if p == SLASH {
        url := [p];
        parse_stat := InUri;
        return AGAIN, false;
      }
      if !IsLetter(p) {
        return ERR_URL, false;
      }
      url := [Lower(p)];
      parse_stat := InSchema;
      if |schema| == HTTP_SCHEMA_MAX - 1 {
        return ERR_SCHEMA, false;
      }
      schema := schema + [Lower(p)];
      return AGAIN, true;
    }

    /** The cases of the scheme. */
    method FeedSchema(p: byte) returns (code: Code, gone: bool)
      requires parse_stat in {InSchema, SchemaSlash, SchemaSlashSlash}
      modifies `url, `schema, `parse_stat
      ensures Step(old(Abs()), p) == if code == AGAIN then Go(Abs(), gone) else Fail(code)
      ensures code != OK
    {
      gone := true;
      var ok;
      if parse_stat == InSchema {
        if IsLetter(p) {
          if |schema| == HTTP_SCHEMA_MAX - 1 {
            return ERR_SCHEMA, true;
          }
          schema := schema + [Lower(p)];
          ok := PushUrl(Lower(p));
        } else if p == COLON {
          ok := PushUrl(p);
          parse_stat := SchemaSlash;
        } else {
          return ERR_URL, true;
        }
      } else if p != SLASH {
        return ERR_URL, true;
      } else if parse_stat == SchemaSlash {
        ok := PushUrl(p);
        parse_stat := SchemaSlashSlash;
      } else {
        ok := PushUrl(p);
        parse_stat := if Is(schema, "ftp") then CheckAt else InHost;
      }
      code := if ok then AGAIN else ERR_URL;
    }

    /** The cases of the port and of the path. */
    method FeedTail(p: byte) returns (code: Code, gone: bool)
      requires parse_stat in {InPort, AfterSlashInUri, InUri}
      modifies `url, `port, `parse_stat
      ensures Step(old(Abs()), p) ==
        if code == AGAIN then Go(Abs(), gone) else if code == OK then Accept(Abs()) else Fail(code)
    {
      var ok;
      gone := false;
      if parse_stat == InPort {
        if IsDigit(p) {
          if |port| == HTTP_PORT_MAX - 1 {
            return ERR_PORT, false;
          }
          port := port + [p];
          ok := PushUrl(p);
          return if ok then AGAIN else ERR_URL, true;
        }
        if p == SLASH {
          ok := PushUrl(p);
          parse_stat := AfterSlashInUri;
          return if ok then AGAIN else ERR_URL, false;
        }
        if p == SP {
          parse_stat := Http09;
          return AGAIN, false;
        }
        return ERR_URL, false;
      }
      if p == SP {
        parse_stat := Http09;
        return AGAIN, false;
      }
      if p == CR {
        parse_stat := AlmostDone;
        return AGAIN, false;
      }
      if p == LF {
        return OK, false;
      }
      ok := PushUrl(Lower(p));
      code := if ok then AGAIN else ERR_URL;
    }

    /** The cases of the method name. */
    method FeedVerb(p: byte) returns (code: Code)
      requires parse_stat in {Start, InMethod}
      modifies `verb, `method_type, `parse_stat
      ensures Step(old(Abs()), p) == if code == AGAIN then Go(Abs(), false) else Fail(code)
      ensures code != OK
    {
      hide MethodOf;
      if parse_stat == Start && (p == CR || p == LF) {
        return AGAIN;
      }
      if parse_stat == InMethod && p == SP {
        var kind := MethodOf(verb);
        if kind == UNSET {
          return ERR_METHOD;
        }
        method_type := kind;
        parse_stat := if kind == CONNECT then SpacesBeforeHost else SpacesBeforeUri;
        return AGAIN;
      }
      if !IsUpper(p) && p != DASH {
        return ERR_METHOD;
      }
      if |verb| == HTTP_METHOD_MAX - 1 {
        return ERR_METHOD;
      }
      verb := verb + [p];
      parse_stat := InMethod;
      return AGAIN;
    }

    /** The switch over parse_stat: AGAIN means that the next byte is wanted, OK that the line is over. */
    method Feed(p: byte) returns (code: Code, gone: bool)
      modifies `verb, `method_type, `url, `host, `port, `schema, `parse_stat
      ensures Step(old(Abs()), p) ==
        if code == AGAIN then Go(Abs(), gone) else if code == OK then Accept(Abs()) else Fail(code)
    {
      hide HostStep, UriStep, MethodOf;
      gone := false;
      match parse_stat {
        case Start => code := FeedVerb(p);
        case InMethod => code := FeedVerb(p);
        case SpacesBeforeUri => code, gone := FeedTarget(p);
        case InSchema => code, gone := FeedSchema(p);
        case SchemaSlash => code, gone := FeedSchema(p);
        case SchemaSlashSlash => code, gone := FeedSchema(p);
        case CheckAt => code := FTP;
        case SpacesBeforeHost =>
          if p == SP || p == TAB {
            code := AGAIN;
          } else {
            code, gone := FeedHost(p);
            SpacesThenHost(old(Abs()), p);
          }
        case InHost => code, gone := FeedHost(p);
        case InPort => code, gone := FeedTail(p);
        case AfterSlashInUri => code, gone := FeedTail(p);
        case InUri => code, gone := FeedTail(p);
        case Http09 =>
          code := if p == LF then OK else AGAIN;
          if p == CR {
            parse_stat := AlmostDone;
          }
        case AlmostDone => code := if p == LF then OK else ERR;
      }
    }
  }

  lemma SpacesThenHost(l: Line, p: byte)
    requires l.stat == SpacesBeforeHost && p != SP && p != TAB
    ensures Step(l, p) == HostStep(l, p)
  {}

  /** Two parses with the same answer and the same line. */
  predicate Agree(p: Parse, q: Parse) {
    p.code == q.code && p.line == q.line
  }

  /** The bytes that the chunk comes to when the line `l` goes on at the position. */
  ghost function Comes(l: Line, buf: Buffer, pos: nat, pre: seq<Buffer>, post: seq<Buffer>, backend: bool): seq<byte>
    requires Wf(pre) && Wf(post) && buf.Valid() && pos <= buf.used
    reads pre, post, buf, buf.buf, Arrays(pre), Arrays(post)
  {
    Flat(pre) + Rewrite(l, buf.Content()[..pos], buf.Content()[pos..], Contents(post), backend)
  }

  /** A parse in progress: `total` is what it will answer, `fin` the bytes it will leave in the chunk. */
  ghost predicate Doing(ck: Chunk, r: HttpReq, buf: Buffer, pos: nat, pre: seq<Buffer>, post: seq<Buffer>,
                        backend: bool,
                        total: Parse, fin: seq<byte>)
    reads ck, ck.queue, pre, post, buf, buf.buf, Arrays(pre), Arrays(post), r
  {
    && At(ck, buf, pos, pre, post) && r.parse_pos == pos
    && Agree(total, Scan(r.Abs(), Ahead(buf, pos, post), backend))
    && fin == Comes(r.Abs(), buf, pos, pre, post, backend)
  }

  /** The byte at the position, taken by the step of the reference. */
  lemma ByteTaken(l: Line, buf: Buffer, pos: nat, pre: seq<Buffer>, post: seq<Buffer>, backend: bool)
    requires Wf(pre) && Wf(post) && buf.Valid() && pos < buf.used
    requires Step(l, buf.buf[buf.data + pos]).Go?
    ensures var turn := Step(l, buf.buf[buf.data + pos]);
      Agree(Scan(l, Ahead(buf, pos, post), backend), Scan(turn.line, Ahead(buf, pos + 1, post), backend))
    ensures |Ahead(buf, pos + 1, post)| < |Ahead(buf, pos, post)|
    ensures buf.Content()[pos] == buf.buf[buf.data + pos]
  {
    hide Step, Flat, Wf, Seen, Ahead;
    OneAhead(buf, pos, pre, post);
    var p, ahead := buf.buf[buf.data + pos], Ahead(buf, pos + 1, post);
    assert ([p] + ahead)[1..] == ahead;
    ScanGo(l, [p] + ahead, backend);
  }

  /** The position moves on by a kept byte. */
  lemma ByteKept(ck: Chunk, r: HttpReq, buf: Buffer, pos: nat, pre: seq<Buffer>, post: seq<Buffer>, backend: bool,
                 total: Parse, fin: seq<byte>, was: Line)
    requires At(ck, buf, pos, pre, post) && pos < buf.used && r.parse_pos == pos + 1
    requires Agree(total, Scan(was, Ahead(buf, pos, post), backend)) && fin == Comes(was, buf, pos, pre, post, backend)
    requires var turn := Step(was, buf.buf[buf.data + pos]); turn.Go? && turn.line == r.Abs() && !(turn.gone && backend)
    ensures Doing(ck, r, buf, pos + 1, pre, post, backend, total, fin)
    ensures |Ahead(buf, pos + 1, post)| < |Ahead(buf, pos, post)|
  {
    hide Step, Flat, Wf, Seen, Ahead, Scan, Rewrite, Contents, Buffer.Content;
    ByteTaken(was, buf, pos, pre, post, backend);
    ContentSize(buf);
    KeptByte(was, buf.Content(), pos, Contents(post), backend);
  }

  lemma ContentSize(buf: Buffer)
    requires buf.Valid()
    ensures |buf.Content()| == buf.used
  {}

  /** The position stays and a byte goes: the one read, through the split at the first letter of the scheme, or
      the first one of the buffer. */
  method ByteDeleted(ck: Chunk, r: HttpReq, buf: Buffer, pos: nat, ghost pre: seq<Buffer>, ghost post: seq<Buffer>,
                     ghost total: Parse, ghost fin: seq<byte>, was: Stat, ghost line: Line)
    returns (part: Buffer, newpos: nat, ghost newpost: seq<Buffer>)
    requires At(ck, buf, pos, pre, post) && pos < buf.used && r.parse_pos == pos + 1 && was == line.stat
    requires Agree(total, Scan(line, Ahead(buf, pos, post), true)) && fin == Comes(line, buf, pos, pre, post, true)
    requires var turn := Step(line, buf.buf[buf.data + pos]); turn.Go? && turn.line == r.Abs() && turn.gone
    modifies r`parse_pos, ck`queue, ck`total_size, buf`data, buf`used
    ensures Doing(ck, r, part, newpos, pre, newpost, true, total, fin)
    ensures |Ahead(part, newpos, newpost)| < |old(Ahead(buf, pos, post))|
    ensures part == buf || (newpost != [] && newpos == part.used)
    ensures forall b <- ck.queue :: b in old(ck.queue) || fresh(b)
  {
    hide Step, Flat, Wf, Seen, Ahead, Scan, Rewrite, Contents, Buffer.Content;
    ByteTaken(line, buf, pos, pre, post, true);
    ContentSize(buf);
    ghost var content, behind := buf.Content(), Contents(post);
    if was == SpacesBeforeUri {
      CutByte(line, content, pos, behind);
      part, newpos, newpost := SplitAndDelete(ck, buf, r.parse_pos, pre, post);
      assert content[..pos][..pos] == content[..pos] && content[..pos][pos..] == [];
    } else {
      FrontByte(line, content, pos, behind);
      part, newpost := buf, post;
      newpos := DeleteFirst(ck, buf, r.parse_pos, pre, post);
    }
    assert r as object !in Arrays(pre) && r as object !in Arrays(newpost);
    r.parse_pos := newpos;
  }

  /** The line is over or wrong at this byte; nothing behind it was touched. */
  lemma ByteEnds(ck: Chunk, l: Line, buf: Buffer, pos: nat, pre: seq<Buffer>, post: seq<Buffer>, backend: bool,
                 total: Parse, fin: seq<byte>)
    requires At(ck, buf, pos, pre, post) && pos < buf.used
    requires Agree(total, Scan(l, Ahead(buf, pos, post), backend)) && fin == Comes(l, buf, pos, pre, post, backend)
    requires !Step(l, buf.buf[buf.data + pos]).Go?
    ensures ck.Bytes() == fin
    ensures var turn := Step(l, buf.buf[buf.data + pos]);
      if turn.Accept? then total.line == turn.line && total.code == Verdict(turn.line) else total.code == turn.code
  {
    hide Step, Flat, Wf, Seen, Ahead, Contents;
    OneAhead(buf, pos, pre, post);
    MiddleOne(pre, buf, post);
    ContentsFlat(post);
    var content := buf.Content();
    assert content[pos..][0] == content[pos] && content[..pos] + content[pos..] == content;
    Regroup(Flat(pre), content, Flat(post));
  }

  /** The body of the inner loop. */
  method ParseByte(ck: Chunk, r: HttpReq, buf: Buffer, backend: bool, ghost pre: seq<Buffer>, ghost post: seq<Buffer>,
                   ghost total: Parse, ghost fin: seq<byte>)
    returns (code: Code, part: Buffer, ghost newpost: seq<Buffer>)
    requires Doing(ck, r, buf, r.parse_pos, pre, post, backend, total, fin) && r.parse_pos < buf.used
    modifies r, ck`queue, ck`total_size, buf`data, buf`used
    ensures r.parse_buf == old(r.parse_buf)
    ensures code == AGAIN ==> Doing(ck, r, part, r.parse_pos, pre, newpost, backend, total, fin)
    ensures code == AGAIN ==> |Ahead(part, r.parse_pos, newpost)| < |old(Ahead(buf, r.parse_pos, post))|
    ensures part == buf || (newpost != [] && r.parse_pos == part.used)
    ensures forall b <- ck.queue :: b in old(ck.queue) || fresh(b)
    ensures code != AGAIN ==> ck.Valid() && ck.Bytes() == fin
    ensures code == OK ==> total.line == r.Abs() && total.code == Verdict(r.Abs())
    ensures code != AGAIN && code != OK ==> total.code == code
  {
    hide Step, Flat, Wf, Seen, Ahead, Scan, Verdict, Comes;
    part, newpost := buf, post;
    ghost var pos, line := r.parse_pos, r.Abs();
    var p := buf.buf[buf.data + r.parse_pos];
    r.parse_pos := r.parse_pos + 1;
    var was := r.parse_stat;
    var gone;
    assert r as object !in Arrays(pre) && r as object !in Arrays(post) && r as object !in Arrays(ck.queue);
    code, gone := r.Feed(p);
    if code != AGAIN {
      ByteEnds(ck, line, buf, pos, pre, post, backend, total, fin);
    } else if gone && backend {
      var newpos;
      part, newpos, newpost := ByteDeleted(ck, r, buf, r.parse_pos - 1, pre, post, total, fin, was, line);
    } else {
      ByteKept(ck, r, buf, pos, pre, post, backend, total, fin, line);
    }
  }

  /** The inner loop: the rest of one buffer. */
  method ParseBuffer(ck: Chunk, r: HttpReq, buf: Buffer, backend: bool, ghost pre: seq<Buffer>, ghost post: seq<Buffer>,
                     ghost total: Parse, ghost fin: seq<byte>)
    returns (code: Code, part: Buffer, ghost newpost: seq<Buffer>)
    requires Doing(ck, r, buf, r.parse_pos, pre, post, backend, total, fin) && r.parse_buf == buf
    modifies r, ck`queue, ck`total_size, ck.queue`data, ck.queue`used
    ensures code == AGAIN ==> Doing(ck, r, part, r.parse_pos, pre, newpost, backend, total, fin)
    ensures code == AGAIN ==> r.parse_pos == part.used && (r.parse_buf == part || newpost != [])
    ensures code == AGAIN ==> |Ahead(part, r.parse_pos, newpost)| <= |old(Ahead(buf, r.parse_pos, post))|
    ensures code == AGAIN ==>
      |newpost| <= |post| || |Ahead(part, r.parse_pos, newpost)| < |old(Ahead(buf, r.parse_pos, post))|
    ensures code != AGAIN ==> ck.Valid() && ck.Bytes() == fin
    ensures code == OK ==> total.line == r.Abs() && total.code == Verdict(r.Abs())
    ensures code != AGAIN && code != OK ==> total.code == code
    ensures forall b <- ck.queue :: b in old(ck.queue) || fresh(b)
  {
    hide Step, Flat, Wf, Seen, Ahead, Scan, Verdict, Doing;
    code, part, newpost := AGAIN, buf, post;
    Place(ck, r, buf, pre, post, backend, total, fin);
    while r.parse_pos < part.used
      invariant code == AGAIN && At(ck, part, r.parse_pos, pre, newpost)
      invariant Doing(ck, r, part, r.parse_pos, pre, newpost, backend, total, fin)
      invariant r.parse_buf == part || (newpost != [] && r.parse_pos == part.used)
      invariant |Ahead(part, r.parse_pos, newpost)| < |old(Ahead(buf, r.parse_pos, post))|
                || (newpost == post && |Ahead(part, r.parse_pos, newpost)| == |old(Ahead(buf, r.parse_pos, post))|)
      invariant part in ck.queue && forall b <- ck.queue :: b in old(ck.queue) || fresh(b)
      decreases |Ahead(part, r.parse_pos, newpost)|
    {
      code, part, newpost := ParseByte(ck, r, part, backend, pre, newpost, total, fin);
      if code != AGAIN {
        return;
      }
      Place(ck, r, part, pre, newpost, backend, total, fin);
    }
  }

  lemma Place(ck: Chunk, r: HttpReq, buf: Buffer, pre: seq<Buffer>, post: seq<Buffer>, backend: bool,
              total: Parse, fin: seq<byte>)
    requires Doing(ck, r, buf, r.parse_pos, pre, post, backend, total, fin)
    ensures At(ck, buf, r.parse_pos, pre, post) && buf in ck.queue
  {}

  /** Where the next call of http_parse_command starts: at the remembered place, at the first buffer when
      nothing or a buffer no longer in the chunk is remembered, or behind a buffer that has shrunk. */
  ghost predicate Resumes(ck: Chunk, r: HttpReq, buf: Buffer, pos: nat, pre: seq<Buffer>, post: seq<Buffer>)
    reads ck, ck.queue, pre, post, buf, r, r.parse_buf
  {
    && At(ck, buf, pos, pre, post)
    && (if r.parse_buf == null then pre == [] && pos == r.parse_pos
        else if r.parse_buf !in ck.queue then pre == [] && pos == 0
        else if r.parse_pos <= r.parse_buf.used then buf == r.parse_buf && pos == r.parse_pos
        else pre != [] && pre[|pre| - 1] == r.parse_buf && pos == 0)
  }

  /** The remembered place is behind the end of the last buffer, which has shrunk. */
  ghost predicate Overrun(ck: Chunk, r: HttpReq)
    reads ck`queue, ck.queue`used, r`parse_buf, r`parse_pos
  {
    ck.queue != [] && r.parse_buf == ck.queue[|ck.queue| - 1] && r.parse_pos > ck.queue[|ck.queue| - 1].used
  }

  /** There is a byte to go on with, or the end of the last buffer. */
  ghost predicate Started(ck: Chunk, r: HttpReq)
    reads ck`queue, ck.queue`used, r`parse_buf, r`parse_pos
  {
    ck.queue != [] && !Overrun(ck, r)
  }

  lemma ResumesStarted(ck: Chunk, r: HttpReq, buf: Buffer, pos: nat, pre: seq<Buffer>, post: seq<Buffer>)
    requires Resumes(ck, r, buf, pos, pre, post)
    ensures Started(ck, r)
  {
    hide Flat;
    assert ck.queue[|pre|] == buf;
    if pre != [] { assert ck.queue[|pre| - 1] == pre[|pre| - 1]; }
  }

  /** Finding the buffer to parse: none behind the last one. */
  method Locate(ck: Chunk, r: HttpReq, ghost buf0: Buffer, ghost pos0: nat, ghost pre: seq<Buffer>,
                ghost post: seq<Buffer>)
    returns (buf: Buffer?)
    requires ck.Valid() && (Overrun(ck, r) || Resumes(ck, r, buf0, pos0, pre, post))
    modifies r`parse_pos
    ensures if old(Overrun(ck, r)) then buf == null && unchanged(r) else buf == buf0 && r.parse_pos == pos0
  {
    hide Wf, IndexOf;
    ghost var lost := Overrun(ck, r);
    FirstOfQueue(pre, buf0, post);
    buf := ck.GetFirst();
    if r.parse_buf == null {
      return;
    }
    ghost var n := 0;
    while buf != null && buf != r.parse_buf
      invariant 0 <= n <= |ck.queue| && r.parse_buf !in ck.queue[..n] && r.parse_pos == old(r.parse_pos)
      invariant buf == if n == |ck.queue| then null else ck.queue[n]
      decreases |ck.queue| - n
    {
      PlaceAt(ck.queue, n);
      buf := ck.GetNext(buf);
      n := n + 1;
    }
    assert buf != null ==> ck.queue[n] in ck.queue;
    if buf == null {
      assert ck.queue[..n] == ck.queue;
      buf := ck.GetFirst();
      r.parse_pos := 0;
    } else if r.parse_pos > buf.used {
      if lost {
        LastOf(ck.queue);
      } else {
        NextOf(ck.queue, pre, buf0, post);
      }
      buf := ck.GetNext(buf);
      if buf != null {
        r.parse_pos := 0;
      }
    }
  }

  lemma FirstOfQueue(pre: seq<Buffer>, b: Buffer, post: seq<Buffer>)
    ensures var q := pre + [b] + post; q != [] && (pre == [] ==> q[0] == b)
  {}

  lemma LastOf(q: seq<Buffer>)
    requires Wf(q) && q != []
    ensures IndexOf(q, q[|q| - 1]) == |q| - 1 && q[|q| - 1] in q
  {
    PlaceAt(q, |q| - 1);
  }

  lemma NextOf(q: seq<Buffer>, pre: seq<Buffer>, b: Buffer, post: seq<Buffer>)
    requires Wf(q) && q == pre + [b] + post && pre != []
    ensures IndexOf(q, pre[|pre| - 1]) == |pre| - 1 && q[|pre|] == b && pre[|pre| - 1] in q
  {
    assert q[|pre| - 1] == pre[|pre| - 1];
    PlaceAt(q, |pre| - 1);
  }

  /** `buf = buffer_getnext( ck, buf )`, and the position at its start. */
  method MoveOn(ck: Chunk, r: HttpReq, buf: Buffer, backend: bool, ghost pre: seq<Buffer>, ghost post: seq<Buffer>,
                ghost total: Parse, ghost fin: seq<byte>)
    returns (next: Buffer?)
    requires Doing(ck, r, buf, r.parse_pos, pre, post, backend, total, fin) && r.parse_pos == buf.used
    requires buf in ck.queue
    modifies r`parse_buf, r`parse_pos
    ensures next == null <==> post == []
    ensures next == null ==> unchanged(r) && r.Abs() == total.line && total.code == AGAIN && ck.Bytes() == fin
    ensures next != null ==> next == post[0] && r.parse_buf == next && r.parse_pos == 0
    ensures next != null ==> Doing(ck, r, next, 0, pre + [buf], post[1..], backend, total, fin)
    ensures next != null ==> Ahead(next, 0, post[1..]) == old(Ahead(buf, r.parse_pos, post))
  {
    hide Step, Flat, Wf, Seen, Ahead, IndexOf, Comes, Rewrite;
    if post == [] {
      NoMore(ck, buf, pre);
      ComesEnd(ck, r.Abs(), buf, pre, backend);
    } else {
      NextBuffer(ck, buf, pre, post);
      ComesNext(ck, r.Abs(), buf, pre, post, backend);
    }
    next := ck.GetNext(buf);
    if next != null {
      assert ck.queue == pre + [buf] + post && ck.queue[|pre| + 1] == post[0];
      assert r as object !in Arrays(pre + [buf]) && r as object !in Arrays(post[1..]);
      r.parse_buf := next;
      r.parse_pos := 0;
    }
  }

  lemma ComesEnd(ck: Chunk, l: Line, buf: Buffer, pre: seq<Buffer>, backend: bool)
    requires At(ck, buf, buf.used, pre, [])
    ensures ck.Bytes() == Comes(l, buf, buf.used, pre, [], backend)
  {
    hide Flat, Wf;
    MiddleOne(pre, buf, []);
    EmptyFlat([]);
    assert buf.Content()[..buf.used] == buf.Content();
  }

  lemma ComesNext(ck: Chunk, l: Line, buf: Buffer, pre: seq<Buffer>, post: seq<Buffer>, backend: bool)
    requires At(ck, buf, buf.used, pre, post) && post != []
    ensures At(ck, post[0], 0, pre + [buf], post[1..])
    ensures Comes(l, post[0], 0, pre + [buf], post[1..], backend) == Comes(l, buf, buf.used, pre, post, backend)
  {
    hide Flat, Wf, Contents, Rewrite, Buffer.Content;
    NextBuffer(ck, buf, pre, post);
    ContentSize(buf);
    assert post == [post[0]] + post[1..];
    ContentsCons(post[0], post[1..]);
    FlatAppend(pre, [buf]);
    FlatOne(buf);
    Ends(Flat(pre), buf.Content());
    Ends(Flat(pre), post[0].Content());
    RewriteEnd(l, buf.Content(), Contents(post), backend);
    Regroup(Flat(pre), buf.Content(), Rewrite(l, [], post[0].Content(), Contents(post[1..]), backend));
  }

  /** The outer loop. */
  method ParseLoop(ck: Chunk, r: HttpReq, first: Buffer, backend: bool, ghost pre: seq<Buffer>, ghost post: seq<Buffer>,
                   ghost total: Parse, ghost fin: seq<byte>)
    returns (code: Code, ghost before: seq<Buffer>)
    requires Doing(ck, r, first, r.parse_pos, pre, post, backend, total, fin) && r.parse_buf == first
    modifies r, ck`queue, ck`total_size, ck.queue`data, ck.queue`used
    ensures ck.Valid() && ck.Bytes() == fin
    ensures code == AGAIN ==>
      r.Abs() == total.line && total.code == AGAIN && r.parse_buf != null && r.parse_pos == r.parse_buf.used
    ensures code == AGAIN ==> At(ck, r.parse_buf, r.parse_pos, before, [])
    ensures code == OK ==> total.line == r.Abs() && total.code == Verdict(r.Abs())
    ensures code != AGAIN && code != OK ==> total.code == code
    ensures forall b <- ck.queue :: b in old(ck.queue) || fresh(b)
  {
    hide Step, Flat, Wf, Seen, Ahead, Scan, Verdict, Doing, IndexOf;
    before := pre;
    var buf: Buffer := first;
    ghost var after := post;
    Place(ck, r, buf, before, after, backend, total, fin);
    while true
      invariant At(ck, buf, r.parse_pos, before, after) && r.parse_buf == buf
      invariant Doing(ck, r, buf, r.parse_pos, before, after, backend, total, fin)
      invariant forall b <- ck.queue :: b in old(ck.queue) || fresh(b)
      decreases |Ahead(buf, r.parse_pos, after)|, |after|
    {
      assert forall i :: 0 <= i < |ck.queue| ==> ck.queue[i] in old(ck.queue) || fresh(ck.queue[i]);
      code, buf, after := ParseBuffer(ck, r, buf, backend, before, after, total, fin);
      if code != AGAIN {
        return;
      }
      Place(ck, r, buf, before, after, backend, total, fin);
      var next := MoveOn(ck, r, buf, backend, before, after, total, fin);
      if next == null {
        return;
      }
      before, after, buf := before + [buf], after[1..], next;
      Place(ck, r, buf, before, after, backend, total, fin);
    }
  }

  lemma {:induction false} ScanCodes(l: Line, s: seq<byte>, backend: bool)
    ensures Scan(l, s, backend).code != PARSE_NULL
    decreases s
  {
    if s != [] && Step(l, s[0]).Go? {
      ScanCodes(Step(l, s[0]).line, s[1..], backend);
    }
  }

  /** http_parse_command up to its label `done`. */
  method ParseFrom(ck: Chunk, r: HttpReq, backend: bool,
                   ghost buf0: Buffer, ghost pos0: nat, ghost pre: seq<Buffer>, ghost post: seq<Buffer>)
    returns (code: Code, ghost before: seq<Buffer>)
    requires ck.Valid() && ck.queue != [] && (Overrun(ck, r) || Resumes(ck, r, buf0, pos0, pre, post))
    modifies r, ck`queue, ck`total_size, ck.queue`data, ck.queue`used
    ensures ck.Valid() && code != PARSE_NULL
    ensures old(Overrun(ck, r)) ==> code == AGAIN && unchanged(ck) && unchanged(r)
    ensures !old(Overrun(ck, r)) ==> ck.Bytes() == old(Comes(r.Abs(), buf0, pos0, pre, post, backend))
    ensures !old(Overrun(ck, r)) ==>
      var total := old(Scan(r.Abs(), Ahead(buf0, pos0, post), backend));
      && (if code == OK then total.line == r.Abs() && total.code == Verdict(r.Abs()) else code == total.code)
      && (code == AGAIN ==> r.Abs() == total.line)
    ensures code == AGAIN && !old(Overrun(ck, r)) ==>
      r.parse_buf != null && r.parse_pos == r.parse_buf.used && At(ck, r.parse_buf, r.parse_pos, before, [])
    ensures forall b <- ck.queue :: b in old(ck.queue) || fresh(b)
  {
    hide Step, Flat, Wf, Seen, Ahead, Scan, IndexOf, Verdict, Comes;
    ghost var total, fin := Parse(r.Abs(), [], [], AGAIN), [];
    if !Overrun(ck, r) {
      total := Scan(r.Abs(), Ahead(buf0, pos0, post), backend);
      fin := Comes(r.Abs(), buf0, pos0, pre, post, backend);
      ScanCodes(r.Abs(), Ahead(buf0, pos0, post), backend);
    }
    assert r as object !in Arrays(pre) && r as object !in Arrays(post);
    assert allocated(pre) && allocated(post) && allocated(Arrays(pre)) && allocated(Arrays(post));
    var buf := Locate(ck, r, buf0, pos0, pre, post);
    if buf == null {
      return AGAIN, [];
    }
    r.parse_buf := buf;
    code, before := ParseLoop(ck, r, buf, backend, pre, post, total, fin);
  }

  /** http_parse_command with `backend` for `!mode_frontend`: what the call answers and the fields it leaves
      depend only on the bytes from the position on, not on the buffers that hold them; the bytes it leaves in
      the chunk are those of the rewriting of the buffers. Behind the end of the last buffer it waits. */
  method ParseCommand(ck: Chunk, r: HttpReq, backend: bool,
                      ghost buf0: Buffer, ghost pos0: nat, ghost pre: seq<Buffer>, ghost post: seq<Buffer>)
    returns (code: Code, ghost before: seq<Buffer>)
    requires ck.Valid()
    requires ck.queue != [] && !Overrun(ck, r) ==> Resumes(ck, r, buf0, pos0, pre, post)
    modifies r, ck`queue, ck`total_size, ck.queue`data, ck.queue`used
    ensures ck.Valid() && (code == PARSE_NULL <==> old(ck.queue) == [])
    ensures code == PARSE_NULL || old(Overrun(ck, r)) ==> unchanged(ck) && unchanged(r)
    ensures old(Overrun(ck, r)) ==> code == AGAIN
    ensures old(Started(ck, r)) ==> ck.Bytes() == old(Comes(r.Abs(), buf0, pos0, pre, post, backend))
    ensures old(Started(ck, r)) ==>
      var total := old(Scan(r.Abs(), Ahead(buf0, pos0, post), backend));
      code == total.code && (code == AGAIN || code == OK ==> r.Abs() == total.line)
    ensures code == AGAIN && old(Started(ck, r)) ==>
      r.parse_buf != null && r.parse_pos == r.parse_buf.used && At(ck, r.parse_buf, r.parse_pos, before, [])
    ensures code == OK ==> r.schema_type == SchemeOf(r.schema) != UNKNOWN && r.port_num == PortOf(r.port) != -1
    ensures forall b <- ck.queue :: b in old(ck.queue) || fresh(b)
  {
    hide Step, Flat, Wf, Seen, Ahead, Scan, IndexOf, SchemeOf, PortOf, At, Resumes, Comes;
    before := [];
    if ck.queue == [] {
      return PARSE_NULL, [];
    }
    code, before := ParseFrom(ck, r, backend, buf0, pos0, pre, post);
    if code == OK {
      assert r as object !in Arrays(ck.queue);
      code := Finish(r);
    }
  }

  /** The checks behind the label `done`. */
  method Finish(r: HttpReq) returns (code: Code)
    modifies r`schema_type, r`port_num
    ensures code == Verdict(r.Abs()) && r.Abs() == old(r.Abs()) && code != PARSE_NULL && code != AGAIN
    ensures code == OK ==> r.schema_type == SchemeOf(r.schema) != UNKNOWN && r.port_num == PortOf(r.port) != -1
  {
    hide SchemeOf, PortOf;
    r.schema_type := SchemeOf(r.schema);
    if r.schema_type == UNKNOWN {
      return ERR_SCHEMA;
    }
    r.port_num := PortOf(r.port);
    return if r.port_num == -1 then ERR_PORT else OK;
  }

  /** Between two calls: everything that has arrived, in the buffers `fed`, was parsed and the line is not over. */
  ghost predicate Waiting(ck: Chunk, r: HttpReq, backend: bool, fed: seq<seq<byte>>, before: seq<Buffer>)
    reads ck, ck.queue, Arrays(ck.queue), before, r, r.parse_buf
  {
    var parse := Scan(FRESH, Concat(fed), backend);
    && ck.Valid() && parse.code == AGAIN && r.Abs() == parse.line
    && ck.Bytes() == Rewrite(FRESH, [], [], fed, backend)
    && (if r.parse_buf == null then ck.queue == [] && r.parse_pos == 0 && fed == []
        else At(ck, r.parse_buf, r.parse_pos, before, []) && r.parse_pos == r.parse_buf.used)
  }

  /** The next position, once buffers were put behind those of the last call. */
  lemma NextStart(ck: Chunk, r: HttpReq, backend: bool, before: seq<Buffer>, q: seq<Buffer>, more: seq<Buffer>)
    returns (buf: Buffer, pos: nat, pre: seq<Buffer>, post: seq<Buffer>)
    requires ck.Valid() && ck.queue == q + more && more != [] && Wf(q) && Wf(more)
    requires if r.parse_buf == null then q == [] && r.parse_pos == 0 && r.Abs() == FRESH
      else q == before + [r.parse_buf] && Wf(before) && r.parse_pos == r.parse_buf.used
    ensures Resumes(ck, r, buf, pos, pre, post) && Ahead(buf, pos, post) == Flat(more)
    ensures Comes(r.Abs(), buf, pos, pre, post, backend) == Flat(q) + Rewrite(r.Abs(), [], [], Contents(more), backend)
  {
    hide Flat, Wf, Contents, Rewrite;
    RewriteEnd(r.Abs(), [], Contents(more), backend);
    assert more == [more[0]] + more[1..];
    ContentsCons(more[0], more[1..]);
    FirstRest(more);
    EmptyFlat([]);
    if r.parse_buf == null {
      buf, pos, pre, post := more[0], 0, [], more[1..];
      assert ck.queue == [] + [buf] + post;
      MiddleOne([], buf, post);
      Ends(buf.Content(), buf.Content());
      assert [] + Rewrite(r.Abs(), [], buf.Content(), Contents(post), backend)
        == Rewrite(r.Abs(), [], buf.Content(), Contents(post), backend);
    } else {
      buf, pos, pre, post := r.parse_buf, r.parse_pos, before, more;
      assert ck.queue[|before|] == buf;
      MiddleOne(pre, buf, post);
      assert pre + [buf] + [] == q;
      MiddleOne(pre, buf, []);
      Ends(Flat(pre), buf.Content());
      Ends(Flat(more), buf.Content());
      Ends(Flat(pre) + buf.Content(), []);
      RewriteEnd(r.Abs(), buf.Content(), Contents(more), backend);
      var tail := Rewrite(r.Abs(), [], more[0].Content(), Contents(more[1..]), backend);
      assert [] + tail == tail;
      Regroup(Flat(pre), buf.Content(), tail);
    }
  }

  /** One more call: some buffers arrive and http_parse_command runs. */
  method Call(ck: Chunk, r: HttpReq, backend: bool, segments: seq<seq<byte>>, ghost fed: seq<seq<byte>>,
              ghost before: seq<Buffer>)
    returns (code: Code, ghost newbefore: seq<Buffer>)
    requires Waiting(ck, r, backend, fed, before) && segments != []
    modifies r, ck, ck.queue`data, ck.queue`used
    ensures var parse := Scan(FRESH, Concat(fed + segments), backend);
      ck.Valid() && code == parse.code && (code == OK ==> r.Abs() == parse.line)
    ensures ck.Bytes() == Rewrite(FRESH, [], [], fed + segments, backend)
    ensures code == AGAIN ==> Waiting(ck, r, backend, fed + segments, newbefore)
    ensures code == OK ==> r.schema_type == SchemeOf(r.schema) != UNKNOWN && r.port_num == PortOf(r.port) != -1
    ensures forall b <- ck.queue :: b in old(ck.queue) || fresh(b)
  {
    hide Step, Flat, Wf, Seen, Ahead, Scan, IndexOf, SchemeOf, PortOf, Verdict, Concat, Rewrite, Contents, Comes;
    ghost var line, q := r.Abs(), ck.queue;
    assert r.parse_buf == null ==> r.Abs() == FRESH by { ScanNothing(backend); }
    assert allocated(q) && allocated(Arrays(q)) && allocated(before);
    assert r.parse_buf != null ==> before + [r.parse_buf] + [] == before + [r.parse_buf];
    ghost var more := Deliver(ck, segments);
    ghost var buf, pos, pre, post := NextStart(ck, r, backend, before, q, more);
    ResumesStarted(ck, r, buf, pos, pre, post);
    code, newbefore := ParseCommand(ck, r, backend, buf, pos, pre, post);
    assert code != PARSE_NULL;
    Joined(fed, segments, backend);
  }

  /** The parse of this call continues the parse of the calls before it. */
  lemma Joined(fed: seq<seq<byte>>, more: seq<seq<byte>>, backend: bool)
    requires Scan(FRESH, Concat(fed), backend).code == AGAIN
    ensures var first, total := Scan(FRESH, Concat(fed), backend), Scan(FRESH, Concat(fed + more), backend);
      && Agree(total, Scan(first.line, Concat(more), backend))
      && Rewrite(FRESH, [], [], fed, backend) + Rewrite(first.line, [], [], more, backend)
         == Rewrite(FRESH, [], [], fed + more, backend)
  {
    hide Step, Scan, Rewrite, Concat;
    ConcatAppend(fed, more);
    ScanResumes(FRESH, Concat(fed), Concat(more), backend);
    RewriteResumes(FRESH, [], [], fed, more, backend);
    assert [] + Concat(fed) == Concat(fed);
  }

  lemma ScanNothing(backend: bool)
    ensures Scan(FRESH, [], backend) == Parse(FRESH, [], [], AGAIN) && Rewrite(FRESH, [], [], [], backend) == []
    ensures Concat([]) == []
  {}

  lemma StartWaiting(ck: Chunk, r: HttpReq, backend: bool)
    requires ck.queue == [] && r.Abs() == FRESH && r.parse_buf == null && r.parse_pos == 0
    ensures Waiting(ck, r, backend, [], [])
  {
    ScanNothing(backend);
  }

  /** What a decided parse has left does not change with later buffers. */
  lemma Decided(calls: seq<seq<seq<byte>>>, k: nat, backend: bool)
    requires k <= |calls| && Scan(FRESH, Stream(calls[..k]), backend).code != AGAIN
    ensures Stream(calls[..k]) <= Stream(calls)
    ensures Agree(Scan(FRESH, Stream(calls[..k]), backend), Scan(FRESH, Stream(calls), backend))
    ensures Rewrite(FRESH, [], [], Segments(calls[..k]), backend) + Stream(calls)[|Stream(calls[..k])|..]
         == Rewrite(FRESH, [], [], Segments(calls), backend)
  {
    hide Step, Scan, Rewrite, Concat, Stream, Segments;
    StreamPrefix(calls, k);
    SegmentsPrefix(calls, k);
    var fed, all := Segments(calls[..k]), Segments(calls);
    var more := all[|fed|..];
    assert all == fed + more;
    ConcatAppend(fed, more);
    var later := Stream(calls)[|Stream(calls[..k])|..];
    assert later == Concat(more);
    ScanDecided(FRESH, Concat(fed), later, backend);
    RewriteResumes(FRESH, [], [], fed, more, backend);
    assert [] + Concat(fed) == Concat(fed);
  }

  lemma WaitingAtEnd(ck: Chunk, r: HttpReq, backend: bool, fed: seq<seq<byte>>, before: seq<Buffer>)
    requires Waiting(ck, r, backend, fed, before)
    ensures var parse, s := Scan(FRESH, Concat(fed), backend), Concat(fed);
      && ck.Valid() && parse.code == AGAIN && r.Abs() == parse.line
      && ck.Bytes() + s[|s|..] == Rewrite(FRESH, [], [], fed, backend)
  {
    hide Scan, Rewrite;
    assert Concat(fed)[|Concat(fed)|..] == [];
  }

  /** How many bytes are left never depends on the buffers. Which ones are left depends on them only for CONNECT in
      backend mode, and then they are the right ones if and only if the buffers are cut where the host begins. */
  lemma BytesLeft(segments: seq<seq<byte>>, backend: bool)
    ensures var parse, left := Scan(FRESH, Concat(segments), backend), Rewrite(FRESH, [], [], segments, backend);
      && |left| == |parse.kept| + |parse.rest|
      && (left == parse.kept + parse.rest <==> !backend || parse.line.kind != CONNECT || WellCut(segments))
  {
    hide Scan, Rewrite, Concat, WellCut;
    var s := Concat(segments);
    assert [] + s == s;
    RewriteLength(FRESH, [], [], segments, backend);
    var parse := Scan(FRESH, s, backend);
    assert [] + parse.kept == parse.kept;
    if backend {
      LeftExact(segments);
    } else {
      RewriteAligned(FRESH, [], [], segments, backend);
    }
  }

  /** Every segmentation: however a stream is cut into calls and buffers, the verdict, the fields and the number of
      bytes left are those of one parse of the whole stream. So are the bytes themselves, but for CONNECT in backend
      mode, where they are so if and only if the buffers are well cut. `used` calls are needed for it. */
  method ParseStream(calls: seq<seq<seq<byte>>>, backend: bool) returns (ck: Chunk, r: HttpReq, code: Code, used: nat)
    requires forall c <- calls :: c != []
    ensures used <= |calls| && fresh(ck) && fresh(r) && ck.Valid()
    ensures code == Scan(FRESH, Stream(calls), backend).code
    ensures code == AGAIN || code == OK ==> r.Abs() == Scan(FRESH, Stream(calls), backend).line
    ensures code == OK ==> r.schema_type == SchemeOf(r.schema) != UNKNOWN && r.port_num == PortOf(r.port) != -1
    ensures code == AGAIN ==> used == |calls|
    ensures Stream(calls[..used]) <= Stream(calls)
    ensures var parse, left := Scan(FRESH, Stream(calls), backend),
      ck.Bytes() + Stream(calls)[|Stream(calls[..used])|..];
      && left == Rewrite(FRESH, [], [], Segments(calls), backend) && |left| == |parse.kept| + |parse.rest|
      && (left == parse.kept + parse.rest <==>
          !backend || parse.line.kind != CONNECT || WellCut(Segments(calls)))
  {
    hide Step, WellCut, Flat, Wf, Scan, Verdict, SchemeOf, PortOf, Waiting, Chunk.Valid, Chunk.Bytes, Stream, Segments;
    hide Rewrite;
    ck := new Chunk(102400);
    r := new HttpReq();
    code, used := AGAIN, 0;
    ghost var before: seq<Buffer> := [];
    StartWaiting(ck, r, backend);
    assert Segments(calls[..0]) == [] by { SegmentsEmpty(); }
    BytesLeft(Segments(calls), backend);
    while used < |calls|
      invariant used <= |calls| && code == AGAIN && Waiting(ck, r, backend, Segments(calls[..used]), before)
      invariant fresh(ck) && fresh(r) && forall b <- ck.queue :: fresh(b)
    {
      SegmentsStep(calls, used);
      ghost var fed := Segments(calls[..used]);
      assert calls[used] in calls;
      assert forall i :: 0 <= i < |ck.queue| ==> ck.queue[i] in ck.queue && fresh(ck.queue[i]);
      code, before := Call(ck, r, backend, calls[used], fed, before);
      used := used + 1;
      if code != AGAIN {
        Decided(calls, used, backend);
        return;
      }
    }
    assert calls[..used] == calls;
    WaitingAtEnd(ck, r, backend, Segments(calls), before);
  }

  /** However an absolute-form request is cut into calls and buffers, the server, the port, the scheme and the method
      that it is for are those printed in it. */
  method ReadRequest(calls: seq<seq<seq<byte>>>, ghost q: Request, ghost rest: seq<byte>, ghost n: nat, ghost m: Method)
    returns (ck: Chunk, r: HttpReq, code: Code, used: nat)
    requires forall c <- calls :: c != []
    requires q.Valid() && q.Fits() && KnownScheme(q.scheme) && IsPort(q.port, n) && m != UNSET && Is(q.verb, NameOf(m))
    requires Stream(calls) == q.Bytes() + rest
    ensures code == OK && r.host == Lowered(q.host) && r.port_num == n && r.method_type == m
    ensures r.schema_type == if Is(Lowered(q.scheme), "https") then HTTPS else HTTP
  {
    hide Scan, Rewrite, WellCut, PortOf, SchemeOf, Stream, Segments, Chunk.Valid, Chunk.Bytes, Request.Bytes;
    ck, r, code, used := ParseStream(calls, true);
    AbsoluteFormMeans(q, rest, n, m);
  }
}
