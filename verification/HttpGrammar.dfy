/**
 http_parse.c, the request line once more: exactly which lines http_parse_command accepts.
 */
module HttpGrammar {
  import opened Bytes
  import opened Chunks
  import opened Streams
  import opened HttpLine
  import opened HttpCommand

  /** A request line, cut where the parser changes its state; a mark belongs to the part that it begins. */
  datatype Parts = Parts(lead: seq<byte>, verb: seq<byte>, sp: seq<byte>, gap: seq<byte>, scheme: seq<byte>,
    mark: seq<byte>, host: seq<byte>, port: seq<byte>, path: seq<byte>, version: seq<byte>, end: seq<byte>) {
    function List(): (a: seq<seq<byte>>)
      ensures |a| == 11
    {
      [lead, verb, sp, gap, scheme, mark, host, port, path, version, end]
    }
    function Text(): seq<byte> { Concat(List()) }
    function PortDigits(): seq<byte> { if port == [] then [] else port[1..] }
  }

  const NO_PARTS := Parts([], [], [], [], [], [], [], [], [], [], [])

  predicate LineEnds(s: seq<byte>) { forall i :: 0 <= i < |s| ==> s[i] == CR || s[i] == LF }

  /** A port, a path and a version with their marks, or nothing. */
  predicate PortText(s: seq<byte>) { s == [] || (s[0] == COLON && Digits(s[1..])) }
  predicate PathText(s: seq<byte>) { s == [] || (s[0] == SLASH && OneWord(s[1..])) }
  predicate VersionText(s: seq<byte>) { s == [] || (s[0] == SP && OneLine(s[1..])) }

  // ---- the lines ----

  /** The request target begins with its path. */
  predicate Origin(t: Parts) {
    t.scheme == [] && t.mark == [] && t.host == [] && t.port == [] && t.path != []
  }

  /** The request target has an authority: without a scheme for CONNECT, and behind scheme and "://" otherwise. */
  predicate Authority(connect: bool, t: Parts) {
    if connect then t.scheme == [] && t.mark == []
    else t.scheme != [] && t.mark == AUTHORITY && !Is(Lowered(t.scheme), "ftp")
  }

  predicate Target(connect: bool, t: Parts) {
    (Authority(connect, t) && (connect ==> t.host != [] || t.port != [] || t.path != [])) || (!connect && Origin(t))
  }

  /** The bytes that each part may have. */
  predicate Spelled(t: Parts) {
    && LineEnds(t.lead) && VerbChars(t.verb) && Blanks(t.gap) && Letters(t.scheme) && HostChars(t.host)
    && PortText(t.port) && PathText(t.path) && VersionText(t.version)
  }

  /** Request lines in origin form, in absolute form, and of CONNECT (section 5.3 of RFC 7230); the version may be
      missing behind a path. */
  predicate IsLine(t: Parts) {
    && Spelled(t) && MethodOf(t.verb) != UNSET && t.sp == [SP] && Target(MethodOf(t.verb) == CONNECT, t)
    && (t.path != [] || t.version != []) && (t.end == [LF] || t.end == [CR, LF])
  }

  /** The parts fit their buffers. */
  predicate Fits(t: Parts) {
    && |t.scheme| < 32 && |t.host| < 64 && |t.PortDigits()| < 32
    && |t.scheme| + |t.mark| + |t.host| + |t.port| + |t.path| < 1024
  }

  /** The scheme is http or https or missing, and the port is in range or missing. */
  predicate Served(t: Parts) {
    (t.scheme == [] || KnownScheme(t.scheme)) && PortInRange(t.PortDigits())
  }

  // ---- what was read ----

  /** The part that a byte belongs to. */
  function At(l: Line, p: byte): (k: nat)
    ensures k < 11
  {
    match l.stat
    case Start => if p == CR || p == LF then 0 else 1
    case InMethod => if p == SP then 2 else 1
    case SpacesBeforeUri => if p == SP || p == TAB then 3 else if p == SLASH then 8 else 4
    case InSchema => if IsLetter(p) then 4 else 5
    case SchemaSlash => 5
    case SchemaSlashSlash => 5
    case CheckAt => 6
    case SpacesBeforeHost => if p == SP || p == TAB then 3 else HostAt(p)
    case InHost => HostAt(p)
    case InPort => if IsDigit(p) then 7 else if p == SLASH then 8 else 9
    case AfterSlashInUri => PathAt(p)
    case InUri => PathAt(p)
    case Http09 => if p == CR || p == LF then 10 else 9
    case AlmostDone => 10
  }

  function HostAt(p: byte): nat { if p == COLON then 7 else if p == SLASH then 8 else if p == SP then 9 else 6 }

  function PathAt(p: byte): nat { if p == SP then 9 else if p == CR || p == LF then 10 else 8 }

  function Grown(t: Parts, k: nat, p: byte): Parts
    requires k < 11
  {
    match k
    case 0 => t.(lead := t.lead + [p])
    case 1 => t.(verb := t.verb + [p])
    case 2 => t.(sp := t.sp + [p])
    case 3 => t.(gap := t.gap + [p])
    case 4 => t.(scheme := t.scheme + [p])
    case 5 => t.(mark := t.mark + [p])
    case 6 => t.(host := t.host + [p])
    case 7 => t.(port := t.port + [p])
    case 8 => t.(path := t.path + [p])
    case 9 => t.(version := t.version + [p])
    case _ => t.(end := t.end + [p])
  }

  /** The first part that is still empty in a state. */
  function Ahead(stat: Stat): nat {
    match stat
    case Start => 1
    case InMethod => 2
    case SpacesBeforeUri => 4
    case InSchema => 5
    case SchemaSlash => 6
    case SchemaSlashSlash => 6
    case CheckAt => 6
    case SpacesBeforeHost => 4
    case InHost => 7
    case InPort => 8
    case AfterSlashInUri => 9
    case InUri => 9
    case Http09 => 10
    case AlmostDone => 11
  }

  predicate NoneFrom(t: Parts, k: nat) {
    forall i :: k <= i < 11 ==> t.List()[i] == []
  }

  /** The fields of the parser hold the parts. */
  predicate Held(l: Line, t: Parts) {
    && l.verb == t.verb && l.schema == Lowered(t.scheme) && l.host == Lowered(t.host) && l.port == t.PortDigits()
    && |l.url| == |t.scheme| + |t.mark| + |t.host| + |t.port| + |t.path|
  }

  /** What is known of the parts in a state. */
  predicate Shaped(l: Line, t: Parts) {
    var connect := l.kind == CONNECT;
    && (l.stat != Start && l.stat != InMethod ==> t.sp == [SP] && l.kind == MethodOf(t.verb) && l.kind != UNSET)
    && match l.stat
       case Start => true
       case InMethod => true
       case SpacesBeforeUri => !connect
       case InSchema => !connect && t.scheme != []
       case SchemaSlash => !connect && t.scheme != [] && t.mark == [COLON]
       case SchemaSlashSlash => !connect && t.scheme != [] && t.mark == [COLON, SLASH]
       case CheckAt => true
       case SpacesBeforeHost => connect
       case InHost => Authority(connect, t) && (connect ==> t.host != [])
       case InPort => Authority(connect, t) && t.port != []
       case AfterSlashInUri => Authority(connect, t) && t.path != []
       case InUri => !connect && Origin(t)
       case Http09 => Target(connect, t) && t.version != []
       case AlmostDone => Target(connect, t) && (t.path != [] || t.version != []) && t.end == [CR]
  }

  predicate Read(l: Line, t: Parts) {
    Spelled(t) && NoneFrom(t, Ahead(l.stat)) && Held(l, t) && Shaped(l, t)
  }

  lemma {:induction false} ConcatGrown(a: seq<seq<byte>>, k: nat, p: byte)
    requires k < |a| && forall i :: k < i < |a| ==> a[i] == []
    ensures Concat(a[k := a[k] + [p]]) == Concat(a) + [p]
    decreases |a|
  {
    var b := a[k := a[k] + [p]];
    if k == 0 {
      ConcatNothing(a[1..]);
      assert b[1..] == a[1..] && b[0] == a[0] + [p];
      assert Concat(a) == a[0] + [] && Concat(b) == b[0] + [];
    } else {
      ConcatGrown(a[1..], k - 1, p);
      assert b[1..] == a[1..][k - 1 := a[k] + [p]] && b[0] == a[0];
      assert a[0] + (Concat(a[1..]) + [p]) == (a[0] + Concat(a[1..])) + [p];
    }
  }

  lemma {:induction false} ConcatNothing(a: seq<seq<byte>>)
    requires forall i :: 0 <= i < |a| ==> a[i] == []
    ensures Concat(a) == []
    decreases |a|
  {
    if a != [] { ConcatNothing(a[1..]); }
  }

  lemma ListGrown(t: Parts, k: nat, p: byte)
    requires k < 11
    ensures Grown(t, k, p).List() == t.List()[k := t.List()[k] + [p]]
  {}

  lemma TextGrown(t: Parts, k: nat, p: byte)
    requires k < 11 && NoneFrom(t, k + 1)
    ensures Grown(t, k, p).Text() == t.Text() + [p] && NoneFrom(Grown(t, k, p), k + 1)
  {
    hide Grown, Parts.List;
    ListGrown(t, k, p);
    ConcatGrown(t.List(), k, p);
  }

  /** The states before the authority and the path. */
  predicate InFront(l: Line) {
    l.stat in {Start, InMethod, SpacesBeforeUri, InSchema, SchemaSlash, SchemaSlashSlash, SpacesBeforeHost}
  }

  lemma PartFollows(l: Line, p: byte)
    requires Step(l, p).Go?
    ensures var k := At(l, p); Ahead(l.stat) <= k + 1 && k < Ahead(Step(l, p).line.stat)
  {
    hide Step, At, Ahead;
    if InFront(l) { FollowsFront(l, p); } else { FollowsTarget(l, p); }
  }

  lemma FollowsFront(l: Line, p: byte)
    requires Step(l, p).Go? && InFront(l)
    ensures var k := At(l, p); Ahead(l.stat) <= k + 1 && k < Ahead(Step(l, p).line.stat)
  {
    hide MethodOf, Is, Lower;
  }

  lemma FollowsTarget(l: Line, p: byte)
    requires Step(l, p).Go? && !InFront(l)
    ensures var k := At(l, p); Ahead(l.stat) <= k + 1 && k < Ahead(Step(l, p).line.stat)
  {
    hide MethodOf, Is, Lower;
  }

  lemma Digited(s: seq<byte>, p: byte)
    ensures PortText(s) && s != [] && IsDigit(p) ==> PortText(s + [p])
    ensures PathText(s) && s != [] && p != SP && p != CR && p != LF ==> PathText(s + [p])
    ensures VersionText(s) && s != [] && p != CR && p != LF ==> VersionText(s + [p])
    ensures s != [] ==> (s + [p])[1..] == s[1..] + [p]
  {
    if s != [] { assert (s + [p])[1..] == s[1..] + [p]; }
  }

  lemma SpelledStep(l: Line, t: Parts, p: byte)
    requires Read(l, t) && Step(l, p).Go?
    ensures Spelled(Grown(t, At(l, p), p))
  {
    hide Step, Read, Spelled, Held, Shaped, At, Grown;
    if InFront(l) {
      SpelledFront(l, t, p);
    } else if Authorizing(l) {
      SpelledAuthority(l, t, p);
    } else {
      SpelledTarget(l, t, p);
    }
  }

  lemma SpelledFront(l: Line, t: Parts, p: byte)
    requires Read(l, t) && Step(l, p).Go? && InFront(l)
    ensures Spelled(Grown(t, At(l, p), p))
  {
    hide MethodOf, Is, Lower, Lowered, PortText, PathText, VersionText;
    Digited(t.port, p);
    Digited(t.path, p);
    Digited(t.version, p);
    FirstMark(p);
    None(t, l.stat);
  }

  lemma SpelledAuthority(l: Line, t: Parts, p: byte)
    requires Read(l, t) && Step(l, p).Go? && Authorizing(l)
    ensures Spelled(Grown(t, At(l, p), p))
  {
    hide MethodOf, Is, Lower, Lowered, PortText, PathText, VersionText;
    Digited(t.port, p);
    Digited(t.path, p);
    Digited(t.version, p);
    FirstMark(p);
    None(t, l.stat);
  }

  lemma SpelledTarget(l: Line, t: Parts, p: byte)
    requires Read(l, t) && Step(l, p).Go? && !InFront(l) && !Authorizing(l)
    ensures Spelled(Grown(t, At(l, p), p))
  {
    hide MethodOf, Is, Lower, Lowered, PortText, PathText, VersionText;
    Digited(t.port, p);
    Digited(t.path, p);
    Digited(t.version, p);
    FirstMark(p);
    None(t, l.stat);
  }

  lemma FirstMark(p: byte)
    ensures (p == COLON ==> PortText([] + [p])) && (p == SLASH ==> PathText([] + [p]))
    ensures p == SP ==> VersionText([] + [p])
  {
    assert ([] + [p])[1..] == [];
  }

  lemma None(t: Parts, stat: Stat)
    requires NoneFrom(t, Ahead(stat))
    ensures var k := Ahead(stat);
      && (k <= 1 ==> t.verb == []) && (k <= 2 ==> t.sp == []) && (k <= 3 ==> t.gap == [])
      && (k <= 4 ==> t.scheme == []) && (k <= 5 ==> t.mark == []) && (k <= 6 ==> t.host == [])
      && (k <= 7 ==> t.port == []) && (k <= 8 ==> t.path == []) && (k <= 9 ==> t.version == [])
      && (k <= 10 ==> t.end == [])
  {
    var a := t.List();
    assert a[1] == t.verb && a[2] == t.sp && a[3] == t.gap && a[4] == t.scheme && a[5] == t.mark && a[6] == t.host
      && a[7] == t.port && a[8] == t.path && a[9] == t.version && a[10] == t.end;
  }

  lemma HeldStep(l: Line, t: Parts, p: byte)
    requires Read(l, t) && Step(l, p).Go?
    ensures Held(Step(l, p).line, Grown(t, At(l, p), p))
  {
    hide Step, Read, Spelled, Held, Shaped, At, Grown;
    if InFront(l) {
      HeldFront(l, t, p);
    } else if Authorizing(l) {
      HeldAuthority(l, t, p);
    } else {
      HeldTarget(l, t, p);
    }
  }

  lemma HeldFront(l: Line, t: Parts, p: byte)
    requires Read(l, t) && Step(l, p).Go? && InFront(l)
    ensures Held(Step(l, p).line, Grown(t, At(l, p), p))
  {
    hide MethodOf, Is, Lowered, Spelled;
    Digited(t.port, p);
    None(t, l.stat);
    LowerGrown(t.scheme, p);
    LowerGrown(t.host, p);
  }

  lemma HeldAuthority(l: Line, t: Parts, p: byte)
    requires Read(l, t) && Step(l, p).Go? && Authorizing(l)
    ensures Held(Step(l, p).line, Grown(t, At(l, p), p))
  {
    hide MethodOf, Is, Lowered, Spelled;
    Digited(t.port, p);
    None(t, l.stat);
    LowerGrown(t.scheme, p);
    LowerGrown(t.host, p);
  }

  lemma HeldTarget(l: Line, t: Parts, p: byte)
    requires Read(l, t) && Step(l, p).Go? && !InFront(l) && !Authorizing(l)
    ensures Held(Step(l, p).line, Grown(t, At(l, p), p))
  {
    hide MethodOf, Is, Lowered, Spelled;
    Digited(t.port, p);
    None(t, l.stat);
    LowerGrown(t.scheme, p);
    LowerGrown(t.host, p);
  }

  lemma LowerGrown(s: seq<byte>, p: byte)
    ensures Lowered(s + [p]) == Lowered(s) + [Lower(p)]
  {}

  lemma ShapedStep(l: Line, t: Parts, p: byte)
    requires Read(l, t) && Step(l, p).Go?
    ensures Shaped(Step(l, p).line, Grown(t, At(l, p), p))
  {
    hide Step, Read, Spelled, Held, Shaped, At, Grown;
    if InFront(l) {
      ShapedFront(l, t, p);
    } else if l.stat == InHost {
      ShapedHost(l, t, p);
    } else if l.stat == InPort {
      ShapedPort(l, t, p);
    } else {
      ShapedTarget(l, t, p);
    }
  }

  lemma ShapedFront(l: Line, t: Parts, p: byte)
    requires Read(l, t) && Step(l, p).Go? && InFront(l)
    ensures Shaped(Step(l, p).line, Grown(t, At(l, p), p))
  {
    hide MethodOf, Is, Lowered, Spelled, Lower;
    None(t, l.stat);
  }

  lemma ShapedHost(l: Line, t: Parts, p: byte)
    requires Read(l, t) && Step(l, p).Go? && l.stat == InHost
    ensures Shaped(Step(l, p).line, Grown(t, At(l, p), p))
  {
    hide MethodOf, Is, Lowered, Spelled, Lower, Held, NoneFrom, Parts.List, Full;
    None(t, l.stat);
  }

  lemma ShapedPort(l: Line, t: Parts, p: byte)
    requires Read(l, t) && Step(l, p).Go? && l.stat == InPort
    ensures Shaped(Step(l, p).line, Grown(t, At(l, p), p))
  {
    hide MethodOf, Is, Lowered, Spelled, Lower, Held, NoneFrom, Parts.List, Full;
    None(t, l.stat);
  }

  lemma ShapedTarget(l: Line, t: Parts, p: byte)
    requires Read(l, t) && Step(l, p).Go? && !InFront(l) && !Authorizing(l)
    ensures Shaped(Step(l, p).line, Grown(t, At(l, p), p))
  {
    hide MethodOf, Is, Lowered, Spelled, Lower, Held, NoneFrom, Parts.List, Full;
    None(t, l.stat);
  }

  lemma ReadStep(l: Line, t: Parts, p: byte)
    requires Read(l, t) && Step(l, p).Go?
    ensures var u := Grown(t, At(l, p), p); Read(Step(l, p).line, u) && u.Text() == t.Text() + [p]
  {
    hide Step, Spelled, Held, Shaped, At, Grown, Parts.List;
    PartFollows(l, p);
    SpelledStep(l, t, p);
    HeldStep(l, t, p);
    ShapedStep(l, t, p);
    TextGrown(t, At(l, p), p);
  }

  // ---- what is accepted is a line ----

  lemma NoOther(l: Line, p: byte)
    ensures Step(l, p).Fail? ==> Step(l, p).code != OK && Step(l, p).code != AGAIN
    ensures Step(l, p).Accept? ==>
      p == LF && Step(l, p).line == l && l.stat in {AfterSlashInUri, InUri, Http09, AlmostDone}
  {}

  /** The parts that a parse has read when it accepts. */
  lemma {:induction false} ReadAll(l: Line, t: Parts, s: seq<byte>, backend: bool) returns (m: Line, u: Parts)
    requires Read(l, t) && Bounded(l) && Scan(l, s, backend).code == OK
    ensures Read(m, u) && Bounded(m) && Step(m, LF) == Accept(m) && Verdict(m) == OK
    ensures t.Text() + s == u.Text() + [LF] + Scan(l, s, backend).rest
    decreases s
  {
    hide Step, Read, Bounded, Verdict, Parts.Text, At, Grown;
    var p := s[0];
    var turn := Step(l, p);
    NoOther(l, p);
    assert s == [p] + s[1..];
    if turn.Accept? {
      m, u := l, t;
      assert t.Text() + s == t.Text() + [LF] + s[1..];
    } else {
      ReadStep(l, t, p);
      StepBounded(l, p);
      m, u := ReadAll(turn.line, Grown(t, At(l, p), p), s[1..], backend);
      assert t.Text() + s == t.Text() + [p] + s[1..];
    }
  }

  lemma LineRead(m: Line, u: Parts)
    requires Read(m, u) && Bounded(m) && Step(m, LF).Accept? && Verdict(m) == OK
    ensures var t := Grown(u, 10, LF);
      && IsLine(t) && Fits(t) && Served(t) && t.Text() == u.Text() + [LF]
  {
    hide MethodOf, Is, Lowered, Step, Spelled, Parts.Text, SchemeOf, PortOf, KnownScheme, PortInRange, Parts.List;
    NoOther(m, LF);
    None(u, m.stat);
    TextGrown(u, 10, LF);
    NoParts(u, 10);
    SpelledEnd(u);
    ServedEnd(m, u);
    assert [CR] + [LF] == [CR, LF] && [] + [LF] == [LF];
  }

  lemma NoParts(t: Parts, k: nat)
    requires 10 <= k
    ensures NoneFrom(t, k + 1)
  {}

  lemma SpelledEnd(u: Parts)
    requires Spelled(u)
    ensures Spelled(Grown(u, 10, LF))
  {}

  lemma ServedEnd(m: Line, u: Parts)
    requires Verdict(m) == OK && m.schema == Lowered(u.scheme) && m.port == u.PortDigits()
    requires Spelled(u) && (u.scheme != [] ==> !Is(Lowered(u.scheme), "ftp"))
    ensures Served(Grown(u, 10, LF))
  {
    hide Is, Lowered, SchemeOf, PortOf, PortInRange;
    PortRange(u.PortDigits());
    if u.scheme != [] { SchemeNames(Lowered(u.scheme)); }
  }

  // ---- every line is accepted ----

  lemma Pair(a: seq<byte>, b: seq<byte>)
    ensures Concat([a, b]) == a + b && Concat([a]) == a
  {
    assert [a, b][1..] == [b] && [b][1..] == [] && [a][1..] == [];
    assert Concat([b]) == b + [] == b && Concat([a]) == a + [] == a;
  }

  lemma Triple(a: seq<byte>, b: seq<byte>, c: seq<byte>)
    ensures Concat([a, b, c]) == a + b + c
  {
    Pair(b, c);
    assert [a, b, c][1..] == [b, c] && a + (b + c) == a + b + c;
  }

  lemma TextIs(t: Parts)
    ensures t.Text() == t.lead + ((t.verb + t.sp + t.gap)
      + ((t.scheme + t.mark) + ((t.host + t.port) + ((t.path + t.version) + t.end))))
  {
    hide Concat;
    var front, name, host, path := [t.verb, t.sp, t.gap], [t.scheme, t.mark], [t.host, t.port], [t.path, t.version];
    Pair(t.lead, []);
    Triple(t.verb, t.sp, t.gap);
    Pair(t.scheme, t.mark);
    Pair(t.host, t.port);
    Pair(t.path, t.version);
    Pair(t.end, []);
    ConcatAppend(path, [t.end]);
    ConcatAppend(host, path + [t.end]);
    ConcatAppend(name, host + (path + [t.end]));
    ConcatAppend(front, name + (host + (path + [t.end])));
    ConcatAppend([t.lead], front + (name + (host + (path + [t.end]))));
    assert t.List() == [t.lead] + (front + (name + (host + (path + [t.end]))));
  }

  /** `s` takes the parser from `l` to `m`. */
  predicate To(l: Line, s: seq<byte>, m: Line) {
    Scan(l, s, true).code == AGAIN && Scan(l, s, true).line == m
  }

  lemma LeadsTo(l: Line, s: seq<byte>, k: seq<byte>, m: Line)
    requires Leads(l, s, k, m)
    ensures To(l, s, m)
  {}

  lemma ToThen(l: Line, s: seq<byte>, m: Line, t: seq<byte>)
    requires To(l, s, m)
    ensures Scan(l, s + t, true).code == Scan(m, t, true).code
  {
    ScanResumes(l, s, t, true);
  }

  lemma {:induction false} LeadSkipped(lead: seq<byte>, t: seq<byte>)
    requires LineEnds(lead)
    ensures Scan(FRESH, lead + t, true).code == Scan(FRESH, t, true).code
    decreases |lead|
  {
    if lead == [] {
      assert lead + t == t;
    } else {
      assert (lead + t)[1..] == lead[1..] + t;
      LeadSkipped(lead[1..], t);
    }
  }

  /** The parts behind the authority as a tail. */
  function TailOf(t: Parts): Tail {
    Tail(t.path != [], if t.path == [] then [] else t.path[1..], t.version != [],
         if t.version == [] then [] else t.version[1..], t.end == [CR, LF])
  }

  lemma TailIs(t: Parts)
    requires PathText(t.path) && VersionText(t.version) && (t.path != [] || t.version != [])
    requires t.end == [LF] || t.end == [CR, LF]
    ensures var q := TailOf(t);
      q.Valid() && q.Path() == t.path && q.Version() == t.version && q.End() == t.end
  {
    if t.path != [] { FirstAndRest(t.path); }
    if t.version != [] { FirstAndRest(t.version); }
  }

  /** Any request with these parts of the authority. */
  function RequestOf(t: Parts): Request {
    Request([71, 69, 84], [], [104, 116, 116, 112], t.host, t.port != [], t.PortDigits(), TailOf(t))
  }

  lemma RequestIs(t: Parts)
    requires HostChars(t.host) && PortText(t.port) && TailOf(t).Valid()
    ensures RequestOf(t).Valid() && RequestOf(t).Port() == t.port
  {
    hide Tail.Valid;
    var q := RequestOf(t);
    assert Is(q.verb, "GET");
    assert |Lowered(q.scheme)| == 4;
  }

  /** The authority, the path, the version and the end of the line. */
  lemma AuthorityAccepted(l: Line, t: Parts, rest: seq<byte>)
    requires l.stat == InHost && l.host == [] && l.port == [] && Spelled(t)
    requires |t.host| < 64 && |t.PortDigits()| < 32 && |l.url| + |t.host| + |t.port| + |t.path| < 1024
    requires (t.path != [] || t.version != []) && (t.end == [LF] || t.end == [CR, LF])
    ensures Scan(l, (t.host + t.port) + ((t.path + t.version) + (t.end + rest)), true).code
      == Verdict(l.(port := t.PortDigits()))
  {
    hide Scan, Step, Leads, To, Verdict, Lowered, Tail.Valid, Request.Valid, Spelled, Tail.Path, Tail.Version, Tail.End,
      Request.Port;
    var q := RequestOf(t);
    assert HostChars(t.host) && PortText(t.port) && PathText(t.path) && VersionText(t.version) by { SpelledIs(t); }
    TailIs(t);
    RequestIs(t);
    AuthorityPart(l, q);
    var m := l.(stat := if q.colon then InPort else InHost, host := Lowered(q.host), port := q.port,
                url := l.url + Lowered(q.host) + q.Port());
    LeadsTo(l, t.host + t.port, [], m);
    ToThen(l, t.host + t.port, m, (t.path + t.version) + (t.end + rest));
    TailAccepted(m, t, rest);
    SameVerdict(m, l.(port := t.PortDigits()));
  }

  lemma SpelledIs(t: Parts)
    requires Spelled(t)
    ensures LineEnds(t.lead) && VerbChars(t.verb) && Blanks(t.gap) && Letters(t.scheme) && HostChars(t.host)
    ensures PortText(t.port) && PathText(t.path) && VersionText(t.version)
  {}

  lemma TailAccepted(l: Line, t: Parts, rest: seq<byte>)
    requires l.stat in {InHost, InPort} && TailOf(t).Valid() && |l.url| + |t.path| < 1024
    requires TailOf(t).Path() == t.path && TailOf(t).Version() == t.version && TailOf(t).End() == t.end
    ensures Scan(l, (t.path + t.version) + (t.end + rest), true).code == Verdict(l)
  {
    hide Scan, Step, Leads, To, Verdict, Lowered, Tail.Valid, Tail.Path, Tail.Version;
    var q := TailOf(t);
    TailPart(l, q);
    var m := l.(stat := if q.blank then Http09 else AfterSlashInUri, url := l.url + Lowered(q.Path()));
    LeadsTo(l, t.path + t.version, t.path + t.version, m);
    ToThen(l, t.path + t.version, m, t.end + rest);
    EndPart(m, q.crlf, rest);
    SameVerdict(l, m);
  }

  /** A target that begins with its path. */
  lemma OriginAccepted(l: Line, t: Parts, rest: seq<byte>)
    requires l.stat == SpacesBeforeUri && Spelled(t) && t.path != [] && |t.path| < 1024
    requires t.end == [LF] || t.end == [CR, LF]
    ensures Scan(l, (t.path + t.version) + (t.end + rest), true).code == Verdict(l)
  {
    hide Scan, Step, Leads, To, Verdict, Lowered, Tail.Valid, Tail.Path, Tail.Version, Tail.End, Spelled;
    SpelledIs(t);
    TailIs(t);
    var m := l.(stat := InUri, url := [SLASH]);
    var u := m.(stat := AfterSlashInUri);
    var n := u.(url := u.url + Lowered(t.path[1..]));
    var more := t.version + (t.end + rest);
    assert (t.path + t.version) + (t.end + rest) == [SLASH] + (t.path[1..] + more) by { FirstAndRest(t.path); }
    SlashFirst(l);
    LeadsTo(l, [SLASH], [SLASH], m);
    ToThen(l, [SLASH], m, t.path[1..] + more);
    SameUri(m, t.path[1..] + more);
    PathRun(u, t.path[1..]);
    LeadsTo(u, t.path[1..], t.path[1..], n);
    ToThen(u, t.path[1..], n, more);
    VersionPart(n, TailOf(t));
    var e := if t.version != [] then n.(stat := Http09) else n;
    LeadsTo(n, t.version, t.version, e);
    ToThen(n, t.version, e, t.end + rest);
    EndIs(TailOf(t));
    EndPart(e, t.end == [CR, LF], rest);
    SameVerdict(l, e);
  }

  /** The two states of a path differ in nothing. */
  lemma {:induction false} SameUri(l: Line, s: seq<byte>)
    requires l.stat == InUri
    ensures Scan(l, s, true).code == Scan(l.(stat := AfterSlashInUri), s, true).code
    decreases |s|
  {
    var m := l.(stat := AfterSlashInUri);
    if s != [] {
      SameUriStep(l, s[0]);
      var turn := Step(l, s[0]);
      if turn.Go? {
        if turn.line.stat == InUri { SameUri(turn.line, s[1..]); }
      } else if turn.Accept? {
        SameVerdict(l, m);
      }
    }
  }

  lemma SameUriStep(l: Line, p: byte)
    requires l.stat == InUri
    ensures var a, b, m := Step(l, p), Step(l.(stat := AfterSlashInUri), p), l.(stat := AfterSlashInUri);
      match a
      case Go(n, gone) => b == Go(if n.stat == InUri then n.(stat := AfterSlashInUri) else n, gone)
      case Accept(n) => n == l && b == Accept(m)
      case Fail(code) => b == Fail(code)
  {
    hide Lower;
  }

  /** The front of a line of CONNECT. */
  lemma ConnectAccepted(t: Parts, rest: seq<byte>)
    requires IsLine(t) && Fits(t) && MethodOf(t.verb) == CONNECT
    ensures t.scheme == []
    ensures var l := FRESH.(stat := InHost, kind := CONNECT, verb := CONNECT_NAME);
      Scan(FRESH, (t.verb + t.sp + t.gap) + ((t.scheme + t.mark) + ((t.host + t.port)
        + ((t.path + t.version) + (t.end + rest)))), true).code == Verdict(l.(port := t.PortDigits()))
  {
    hide Scan, Step, Leads, To, Verdict, Lowered, MethodOf;
    SpelledIs(t);
    ConnectName(t.verb);
    var q := Tunnel(t.gap, [104], false, []);
    TunnelFront(q);
    var l := FRESH.(stat := SpacesBeforeHost, kind := CONNECT, verb := CONNECT_NAME);
    LeadsTo(FRESH, q.Front(), q.Front(), l);
    var x := (t.host + t.port) + ((t.path + t.version) + (t.end + rest));
    ToThen(FRESH, q.Front(), l, x);
    assert (t.scheme + t.mark) + x == x;
    TargetFirst(t, t.end + rest);
    SameHost(l, x);
    AuthorityAccepted(l.(stat := InHost), t, rest);
  }

  lemma ConnectName(verb: seq<byte>)
    requires MethodOf(verb) == CONNECT
    ensures verb == CONNECT_NAME
  {
    MethodExact(verb, CONNECT);
    assert NameOf(CONNECT) == "CONNECT";
  }

  /** The target of CONNECT does not begin with a blank. */
  lemma TargetFirst(t: Parts, rest: seq<byte>)
    requires HostChars(t.host) && PortText(t.port) && PathText(t.path) && (t.host != [] || t.port != [] || t.path != [])
    ensures var x := (t.host + t.port) + ((t.path + t.version) + rest); x != [] && x[0] != SP && x[0] != TAB
  {
    var x := (t.host + t.port) + ((t.path + t.version) + rest);
    assert x[0] == if t.host != [] then t.host[0] else if t.port != [] then t.port[0] else t.path[0];
  }

  lemma SameHost(l: Line, s: seq<byte>)
    requires l.stat == SpacesBeforeHost && s != [] && s[0] != SP && s[0] != TAB
    ensures Scan(l, s, true).code == Scan(l.(stat := InHost), s, true).code
  {
    hide Step;
    SameHostStep(l, s[0]);
    NoVerdictLeft(l.(stat := InHost), s[0]);
  }

  /** The front of any other line. */
  lemma OtherAccepted(t: Parts, rest: seq<byte>)
    requires IsLine(t) && Fits(t) && MethodOf(t.verb) != CONNECT
    ensures var l := FRESH.(kind := MethodOf(t.verb), verb := t.verb, schema := Lowered(t.scheme));
      Scan(FRESH, (t.verb + t.sp + t.gap) + ((t.scheme + t.mark) + ((t.host + t.port)
        + ((t.path + t.version) + (t.end + rest)))), true).code == Verdict(l.(port := t.PortDigits()))
  {
    hide Scan, Step, Leads, To, Verdict, MethodOf, Is;
    SpelledIs(t);
    var l := FRESH.(stat := SpacesBeforeUri, kind := MethodOf(t.verb), verb := t.verb);
    FrontRun(t.verb, t.gap);
    var f := t.verb + t.sp + t.gap;
    LeadsTo(FRESH, f, f, l);
    var y := (t.path + t.version) + (t.end + rest);
    var x := (t.host + t.port) + y;
    ToThen(FRESH, f, l, (t.scheme + t.mark) + x);
    if t.scheme == [] {
      assert (t.scheme + t.mark) + x == y;
      OriginAccepted(l, t, rest);
      SameVerdict(l,
        FRESH.(kind := MethodOf(t.verb), verb := t.verb, schema := Lowered(t.scheme), port := t.PortDigits()));
    } else {
      SchemePart(l, t.scheme);
      var m := l.(stat := InHost, schema := Lowered(t.scheme), url := Lowered(t.scheme) + AUTHORITY);
      LeadsTo(l, t.scheme + t.mark, [], m);
      ToThen(l, t.scheme + t.mark, m, x);
      AuthorityAccepted(m, t, rest);
      SameVerdict(m.(port := t.PortDigits()),
        FRESH.(kind := MethodOf(t.verb), verb := t.verb, schema := Lowered(t.scheme), port := t.PortDigits()));
    }
  }

  lemma LineAccepted(t: Parts, rest: seq<byte>)
    requires IsLine(t) && Fits(t) && Served(t)
    ensures Scan(FRESH, t.Text() + rest, true).code == OK
  {
    hide Scan, IsLine, Fits, Verdict, MethodOf, Served, Parts.Text;
    var y := (t.host + t.port) + ((t.path + t.version) + (t.end + rest));
    var x := (t.verb + t.sp + t.gap) + ((t.scheme + t.mark) + y);
    TextIs(t);
    Regrouped(t, rest);
    IsLed(t);
    LeadSkipped(t.lead, x);
    VerdictOk(t);
    if MethodOf(t.verb) == CONNECT {
      ConnectAccepted(t, rest);
    } else {
      OtherAccepted(t, rest);
    }
  }

  lemma IsLed(t: Parts)
    requires IsLine(t)
    ensures LineEnds(t.lead)
  {}

  lemma Regrouped(t: Parts, rest: seq<byte>)
    ensures t.lead + ((t.verb + t.sp + t.gap)
        + ((t.scheme + t.mark) + ((t.host + t.port) + ((t.path + t.version) + t.end)))) + rest
      == t.lead + ((t.verb + t.sp + t.gap)
        + ((t.scheme + t.mark) + ((t.host + t.port) + ((t.path + t.version) + (t.end + rest)))))
  {
    Assoc5(t.lead, t.verb + t.sp + t.gap, t.scheme + t.mark, t.host + t.port, t.path + t.version, t.end, rest);
  }

  lemma Assoc5(a: seq<byte>, b: seq<byte>, c: seq<byte>, d: seq<byte>, e: seq<byte>, f: seq<byte>, g: seq<byte>)
    ensures a + (b + (c + (d + (e + f)))) + g == a + (b + (c + (d + (e + (f + g)))))
  {
    Assoc(e, f, g);
    Assoc(d, e + f, g);
    Assoc(c, d + (e + f), g);
    Assoc(b, c + (d + (e + f)), g);
    Assoc(a, b + (c + (d + (e + f))), g);
  }

  /** The fields at the end of the line pass the checks. */
  lemma VerdictOk(t: Parts)
    requires IsLine(t) && Served(t)
    ensures forall l: Line :: l.port == t.PortDigits() && l.schema == Lowered(t.scheme) ==> Verdict(l) == OK
    ensures t.scheme == [] ==> Lowered(t.scheme) == []
  {
    hide Is, MethodOf, PortOf, SchemeOf;
    SpelledIs(t);
    PortRange(t.PortDigits());
    if t.scheme != [] {
      SchemeNames(Lowered(t.scheme));
    } else {
      NoScheme();
    }
  }

  lemma NoScheme()
    ensures SchemeOf([]) == HTTP && Lowered([]) == []
  {}

  lemma {:induction false} SameCode(l: Line, s: seq<byte>)
    ensures Scan(l, s, true).code == Scan(l, s, false).code
    decreases |s|
  {
    hide Step;
    if s != [] && Step(l, s[0]).Go? { SameCode(Step(l, s[0]).line, s[1..]); }
  }

  /** A stream is accepted if and only if it begins with a request line whose parts fit, whose scheme is known and whose
      port is in range. */
  lemma LineExact(s: seq<byte>, backend: bool)
    ensures Scan(FRESH, s, backend).code == OK <==>
      exists t: Parts, rest: seq<byte> :: IsLine(t) && Fits(t) && Served(t) && s == t.Text() + rest
  {
    hide Scan, IsLine, Fits, Served, Parts.Text, Read, Bounded, Verdict, Step, Grown;
    SameCode(FRESH, s);
    if Scan(FRESH, s, backend).code == OK {
      NothingRead();
      var m, u := ReadAll(FRESH, NO_PARTS, s, backend);
      LineRead(m, u);
      var t, rest := Grown(u, 10, LF), Scan(FRESH, s, backend).rest;
      assert [] + s == s;
      assert s == t.Text() + rest;
    }
    if t: Parts, rest: seq<byte> :| IsLine(t) && Fits(t) && Served(t) && s == t.Text() + rest {
      LineAccepted(t, rest);
    }
  }

  lemma NothingRead()
    ensures Read(FRESH, NO_PARTS) && Bounded(FRESH) && NO_PARTS.Text() == []
  {
    hide Concat;
    TextIs(NO_PARTS);
    assert NO_PARTS.List() == [[], [], [], [], [], [], [], [], [], [], []];
    assert Lowered([]) == [];
  }

  /** However the stream is cut into calls and buffers, it is accepted if and only if it begins with such a line. */
  method ParseLine(calls: seq<seq<seq<byte>>>, backend: bool) returns (ck: Chunk, r: HttpReq, code: Code, used: nat)
    requires forall c <- calls :: c != []
    ensures code == OK <==>
      exists t: Parts, rest: seq<byte> :: IsLine(t) && Fits(t) && Served(t) && Stream(calls) == t.Text() + rest
  {
    hide Scan, Rewrite, WellCut, PortOf, SchemeOf, Stream, Segments, Chunk.Valid, Chunk.Bytes, IsLine, Fits, Served;
    ck, r, code, used := ParseStream(calls, backend);
    LineExact(Stream(calls), backend);
  }

  /** "GET http://h:8/" and CR LF, what the parser reads from it, and what it leaves of it. */
  lemma RequestExample(rest: seq<byte>)
    ensures var s := [71, 69, 84, 32, 104, 116, 116, 112, 58, 47, 47, 104, 58, 56, 47, 13, 10] + rest;
      var p := Scan(FRESH, s, true);
      && p.code == OK && p.line.kind == GET && p.line.host == [104] && PortOf(p.line.port) == 8
      && p.kept == [71, 69, 84, 32, 47, 13, 10] && p.rest == rest
  {
    hide Scan, PortOf, MethodOf, IsPort, PortInRange, Request.Bytes, Request.Front, Tail.Bytes, Example, Request.Valid;
    var q := Example();
    ExampleValid();
    ExampleText();
    ExampleFits();
    assert q.Bytes() == [71, 69, 84, 32, 104, 116, 116, 112, 58, 47, 47, 104, 58, 56, 47, 13, 10];
    AbsoluteFormRewritten(q, rest);
    AbsoluteFormMeans(q, rest, 8, GET);
  }

  function Example(): Request {
    Request([71, 69, 84], [], [104, 116, 116, 112], [104], true, [56], Tail(true, [], false, [], true))
  }

  lemma ExampleValid()
    ensures var q := Example();
      && q.Valid() && KnownScheme(q.scheme) && IsPort(q.port, 8) && Is(q.verb, NameOf(GET)) && Lowered(q.host) == [104]
  {
    hide MethodOf;
    var q := Example();
    assert NameOf(GET) == "GET" && Is(q.verb, "GET") && Is(Lowered(q.scheme), "http");
    MethodExact(q.verb, GET);
    PrintsDigit(56);
  }

  lemma ExampleText()
    ensures var q := Example();
      && q.Front() + q.tail.Bytes() == [71, 69, 84, 32, 47, 13, 10]
      && q.Bytes() == [71, 69, 84, 32] + [104, 116, 116, 112, 58, 47, 47, 104, 58, 56] + [47, 13, 10]
  {
    var q := Example();
    assert q.Front() == [71, 69, 84, 32];
    assert q.Port() == [58, 56] && q.Authority() == [104, 116, 116, 112, 58, 47, 47, 104, 58, 56];
    assert q.tail.Bytes() == [47, 13, 10];
  }

  lemma ExampleFits()
    ensures Example().Fits()
  {}
}
