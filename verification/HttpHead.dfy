/**
 http_parse.c, the header fields: http_parse_head, which answers once for every field line and once for
 the end of the head (field syntax: RFC 7230, section 3.2).
 */
module HttpField {
  import opened Bytes
  import opened HttpLine

  const HTTP_HEADNAME_MAX: nat := 64
  const HTTP_HEADVAL_MAX: nat := 64
  const MAX_LENGTH: nat := 18446744073709551615

  datatype HeadStat = HeadStart | Name | SpaceBeforeValue | Value | SpaceAfterValue | FieldAlmostDone | HeadAlmostDone

  /** The parse state of the head: the field that is being read, and the content length once it is known. */
  datatype Head = Head(stat: HeadStat, name: seq<byte>, value: seq<byte>, exist: bool, sumlen: nat)

  const NO_HEAD := Head(HeadStart, [], [], false, 0)

  datatype Field = Field(name: seq<byte>, value: seq<byte>)

  /** One byte: the field goes on, a field line is over, the head is over, or the head is wrong. */
  datatype HeadTurn = More(head: Head) | LineDone(head: Head) | HeadDone(head: Head) | Wrong(code: Code)

  /** The table `lowcase`: the bytes of a field name in lower case, 0 for all others. */
  function LowCase(p: byte): byte {
    if IsDigit(p) || p == DASH then p else if IsLetter(p) then Lower(p) else 0
  }

  /** HTTP_PUSH_HEADNAME */
  function PushName(h: Head, c: byte): HeadTurn {
    if Full(h.name, HTTP_HEADNAME_MAX) then Wrong(ERR_HEADNAME) else More(h.(name := h.name + [c], stat := Name))
  }

  /** HTTP_PUSH_HEADVAL: what does not fit is dropped. */
  function PushValue(h: Head, p: byte): HeadTurn {
    More(h.(value := if |h.value| < HTTP_HEADVAL_MAX - 1 then h.value + [p] else h.value, stat := Value))
  }

  /** The switch of http_parse_head. */
  function HeadStep(h: Head, p: byte): HeadTurn {
    match h.stat
    case HeadStart =>
      if p == CR then More(h.(stat := HeadAlmostDone)) else if p == LF then LineDone(h)
      else if LowCase(p) == 0 then Wrong(ERR_HEAD) else PushName(h, LowCase(p))
    case Name =>
      if LowCase(p) != 0 then PushName(h, LowCase(p))
      else if p == COLON then More(h.(stat := SpaceBeforeValue))
      else if p == CR then More(h.(stat := FieldAlmostDone))
      else if p == LF then LineDone(h)
      else Wrong(ERR_HEAD)
    case SpaceBeforeValue => ValueStep(h, p, SpaceBeforeValue)
    case Value => ValueStep(h, p, SpaceAfterValue)
    case SpaceAfterValue => ValueStep(h, p, SpaceAfterValue)
    case FieldAlmostDone => if p == LF then LineDone(h) else if p == CR then More(h) else Wrong(ERR_HEAD)
    case HeadAlmostDone => if p == LF then HeadDone(h) else Wrong(ERR_HEAD)
  }

  function ValueStep(h: Head, p: byte, onSpace: HeadStat): HeadTurn {
    if p == SP then More(h.(stat := onSpace))
    else if p == CR then More(h.(stat := FieldAlmostDone))
    else if p == LF then LineDone(h)
    else PushValue(h, p)
  }

  /** strcmp( p, q ) > 0 for strings of the same length */
  predicate Greater(p: seq<byte>, q: seq<byte>)
    requires |p| == |q|
  {
    p != [] && (Greater(p[..|p| - 1], q[..|q| - 1]) || (p[..|p| - 1] == q[..|q| - 1] && p[|p| - 1] > q[|q| - 1]))
  }

  predicate AllDigits(p: seq<byte>) {
    forall i :: 0 <= i < |p| ==> IsDigit(p[i])
  }

  /** "18446744073709551615" */
  const LIMIT: seq<byte> := [49, 56, 52, 52, 54, 55, 52, 52, 48, 55, 51, 55, 48, 57, 53, 53, 49, 54, 49, 53]

  datatype Length = Number(n: nat) | NotANumber

  /** http_get_content_length */
  function LengthOf(p: seq<byte>): Length {
    if p == [] || |p| > 20 then NotANumber
    else if !AllDigits(p) then NotANumber
    else if |p| == 20 && Greater(p, LIMIT) then NotANumber
    else Number(Decimal(p))
  }

  /** For digits of the same number strcmp compares the numbers. */
  lemma {:induction false} GreaterIsLarger(p: seq<byte>, q: seq<byte>)
    requires |p| == |q| && AllDigits(p) && AllDigits(q)
    ensures Greater(p, q) <==> Decimal(p) > Decimal(q)
    ensures p == q <==> Decimal(p) == Decimal(q)
    decreases |p|
  {
    if p != [] {
      var n := |p| - 1;
      GreaterIsLarger(p[..n], q[..n]);
      assert p == p[..n] + [p[n]] && q == q[..n] + [q[n]];
    }
  }

  lemma LimitValue()
    ensures AllDigits(LIMIT) && Decimal(LIMIT) == MAX_LENGTH
  {
    hide Decimal;
    LimitStart();
    DecimalStep(LIMIT, 11);
    DecimalStep(LIMIT, 12);
    DecimalStep(LIMIT, 13);
    DecimalStep(LIMIT, 14);
    DecimalStep(LIMIT, 15);
    DecimalStep(LIMIT, 16);
    DecimalStep(LIMIT, 17);
    DecimalStep(LIMIT, 18);
    DecimalStep(LIMIT, 19);
    DecimalStep(LIMIT, 20);
    assert LIMIT[..20] == LIMIT;
  }

  lemma LimitStart()
    ensures Decimal(LIMIT[..10]) == 1844674407
  {
    hide Decimal;
    assert LIMIT[..0] == [];
    DecimalNothing();
    DecimalStep(LIMIT, 1); DecimalStep(LIMIT, 2); DecimalStep(LIMIT, 3); DecimalStep(LIMIT, 4); DecimalStep(LIMIT, 5);
    DecimalStep(LIMIT, 6); DecimalStep(LIMIT, 7); DecimalStep(LIMIT, 8); DecimalStep(LIMIT, 9); DecimalStep(LIMIT, 10);
  }

  lemma DecimalStep(p: seq<byte>, k: nat)
    requires 0 < k <= |p| && IsDigit(p[k - 1])
    ensures Decimal(p[..k]) == Decimal(p[..k - 1]) * 10 + (p[k - 1] - 48)
  {
    assert p[..k][..k - 1] == p[..k - 1];
  }

  lemma {:induction false} DecimalBound(p: seq<byte>)
    requires AllDigits(p)
    ensures Decimal(p) < Power10(|p|)
    decreases |p|
  {
    if p != [] {
      DecimalBound(p[..|p| - 1]);
    }
  }

  function Power10(n: nat): nat {
    if n == 0 then 1 else 10 * Power10(n - 1)
  }

  lemma {:induction false} Power10Grows(m: nat, n: nat)
    requires m <= n
    ensures Power10(m) <= Power10(n)
    decreases n
  {
    if m < n {
      Power10Grows(m, n - 1);
    }
  }

  /** A content length is accepted exactly when it is a decimal number of at most 20 digits that fits in
      64 bits, and then it is that number: strtoull never saturates. */
  lemma LengthExact(p: seq<byte>)
    ensures LengthOf(p) == if p != [] && |p| <= 20 && AllDigits(p) && Decimal(p) <= MAX_LENGTH then Number(Decimal(p))
      else NotANumber
  {
    LimitValue();
    if p != [] && AllDigits(p) {
      if |p| == 20 {
        GreaterIsLarger(p, LIMIT);
      } else if |p| < 20 {
        DecimalBound(p);
        Power10Grows(|p|, 19);
        assert Power10(4) == 10000 && Power10(8) == 100000000 && Power10(12) == 1000000000000;
        assert Power10(16) == 10000000000000000 && Power10(19) == 10000000000000000000;
      }
    }
  }

  /** So the content length is `n` if and only if its text is a numeral of `n`. */
  lemma LengthPrinted(p: seq<byte>, n: nat)
    ensures LengthOf(p) == Number(n) <==> Prints(p, n) && |p| <= 20 && n <= MAX_LENGTH
  {
    hide Decimal, Prints;
    LengthExact(p);
    DecimalExact(p, n);
  }

  /** What happens at the label `done`: the field is reported and the state reset. */
  datatype Report = Report(head: Head, code: Code, field: Field)

  function Close(h: Head): Report {
    var field := Field(h.name, h.value);
    var next := h.(stat := HeadStart, name := [], value := []);
    if Is(h.name, "content-length") then
      match LengthOf(h.value)
      case Number(n) => Report(next.(exist := true, sumlen := n), OK, field)
      case NotANumber => Report(h.(exist := true), ERR_HEAD, field)
    else Report(next, OK, field)
  }

  /** One call: the state left, the bytes not read, the answer, and the field it reports. */
  datatype HeadParse = HeadParse(head: Head, rest: seq<byte>, code: Code, field: Field)

  const NO_FIELD := Field([], [])

  function HeadScan(h: Head, s: seq<byte>, post: bool): (r: HeadParse)
    ensures |r.rest| <= |s| && (r.code == OK ==> |r.rest| < |s|)
    decreases s
  {
    if s == [] then HeadParse(h, [], AGAIN, NO_FIELD)
    else
      match HeadStep(h, s[0])
      case More(m) => HeadScan(m, s[1..], post)
      case LineDone(m) => var report := Close(m); HeadParse(report.head, s[1..], report.code, report.field)
      case HeadDone(m) => HeadParse(m, s[1..], if post && !m.exist then ERR else HEADOVER, NO_FIELD)
      case Wrong(code) => HeadParse(h, s[1..], code, NO_FIELD)
  }

  /** All calls on some bytes: the fields in order and the last answer. */
  datatype HeadRun = HeadRun(head: Head, fields: seq<Field>, rest: seq<byte>, code: Code)

  function Run(h: Head, s: seq<byte>, post: bool): HeadRun
    decreases |s|
  {
    var one := HeadScan(h, s, post);
    if one.code != OK then HeadRun(one.head, [], one.rest, one.code)
    else
      var more := Run(one.head, one.rest, post);
      more.(fields := [one.field] + more.fields)
  }

  lemma {:induction false} HeadScanResumes(h: Head, s: seq<byte>, t: seq<byte>, post: bool)
    ensures var a := HeadScan(h, s, post);
      if a.code == AGAIN then a.rest == [] && HeadScan(h, s + t, post) == HeadScan(a.head, t, post)
      else HeadScan(h, s + t, post) == a.(rest := a.rest + t)
    decreases s
  {
    if s == [] {
      assert s + t == t;
    } else {
      assert (s + t)[1..] == s[1..] + t;
      var turn := HeadStep(h, s[0]);
      if turn.More? {
        HeadScanResumes(turn.head, s[1..], t, post);
      } else if turn.LineDone? {
        CloseAnswers(turn.head);
      } else if turn.Wrong? {
        WrongAnswers(h, s[0]);
      }
    }
  }

  lemma CloseAnswers(h: Head)
    ensures Close(h).code == OK || Close(h).code == ERR_HEAD
  {}

  lemma WrongAnswers(h: Head, p: byte)
    requires HeadStep(h, p).Wrong?
    ensures HeadStep(h, p).code == ERR_HEAD || HeadStep(h, p).code == ERR_HEADNAME
  {}

  /** Resumption over any number of fields. */
  lemma {:induction false} RunResumes(h: Head, s: seq<byte>, t: seq<byte>, post: bool)
    ensures var a, b := Run(h, s, post), Run(h, s + t, post);
      if a.code == AGAIN then var c := Run(a.head, t, post); b == c.(fields := a.fields + c.fields)
      else b == a.(rest := a.rest + t)
    decreases |s|
  {
    hide HeadScan, HeadStep, Close;
    var one := HeadScan(h, s, post);
    HeadScanResumes(h, s, t, post);
    if one.code == OK {
      RunResumes(one.head, one.rest, t, post);
      var a := Run(one.head, one.rest, post);
      if a.code == AGAIN {
        var c := Run(a.head, t, post);
        assert [one.field] + (a.fields + c.fields) == ([one.field] + a.fields) + c.fields;
      }
    }
  }

  // ---- the reference grammar ----

  predicate NameChars(s: seq<byte>) {
    forall i :: 0 <= i < |s| ==> IsLetter(s[i]) || IsDigit(s[i]) || s[i] == DASH
  }

  /** The bytes of a value without its blanks, wherever they stand. */
  function Stripped(s: seq<byte>): seq<byte> {
    if s == [] then [] else (if s[0] == SP then [] else [s[0]]) + Stripped(s[1..])
  }

  /** At most 63 bytes of a value are kept. */
  function Cut(s: seq<byte>): (r: seq<byte>)
    ensures |r| < HTTP_HEADVAL_MAX && r <= s
  {
    s[..Min(|s|, HTTP_HEADVAL_MAX - 1)]
  }

  function Crs(n: nat): (r: seq<byte>)
    ensures |r| == n && forall i :: 0 <= i < n ==> r[i] == CR
  {
    seq(n, _ => CR)
  }

  /** A field line; the colon and the value may be missing, and any number of CR may stand before the LF. */
  datatype FieldLine = FieldLine(name: seq<byte>, colon: bool, value: seq<byte>, crs: nat) {
    predicate Valid() {
      && name != [] && NameChars(name) && |name| < HTTP_HEADNAME_MAX && OneLine(value) && (!colon ==> value == [])
    }
    function Body(): seq<byte> { name + (if colon then [COLON] + value else []) }
    function Bytes(): seq<byte> { Body() + (Crs(crs) + [LF]) }
    function Meaning(): Field { Field(Lowered(name), Cut(Stripped(value))) }
    /** It is not a content length, or it is an acceptable one. */
    predicate Sound() {
      Is(Lowered(name), "content-length") ==> LengthOf(Cut(Stripped(value))).Number?
    }
  }

  predicate InValue(stat: HeadStat) {
    stat == SpaceBeforeValue || stat == Value || stat == SpaceAfterValue
  }

  lemma {:induction false} NameRun(h: Head, s: seq<byte>, t: seq<byte>, post: bool)
    requires h.stat == Name && NameChars(s) && |h.name| + |s| < HTTP_HEADNAME_MAX
    ensures HeadScan(h, s + t, post) == HeadScan(h.(name := h.name + Lowered(s)), t, post)
    decreases s
  {
    if s == [] {
      assert s + t == t && h.name + Lowered(s) == h.name;
    } else {
      assert (s + t)[1..] == s[1..] + t;
      LoweredStep(h.name, s);
      NameRun(h.(name := h.name + [Lower(s[0])]), s[1..], t, post);
    }
  }

  lemma {:induction false} ValueRun(h: Head, s: seq<byte>, t: seq<byte>, post: bool) returns (m: Head)
    requires InValue(h.stat) && OneLine(s) && |h.value| < HTTP_HEADVAL_MAX
    ensures InValue(m.stat) && m.value == Cut(h.value + Stripped(s))
    ensures m == h.(stat := m.stat, value := m.value)
    ensures HeadScan(h, s + t, post) == HeadScan(m, t, post)
    decreases s
  {
    if s == [] {
      assert s + t == t && h.value + Stripped(s) == h.value;
      m := h;
    } else {
      assert (s + t)[1..] == s[1..] + t;
      var next := HeadStep(h, s[0]).head;
      m := ValueRun(next, s[1..], t, post);
      CutStep(h.value, s);
    }
  }

  lemma CutStep(v: seq<byte>, s: seq<byte>)
    requires s != [] && |v| < HTTP_HEADVAL_MAX
    ensures s[0] == SP ==> Cut(v + Stripped(s)) == Cut(v + Stripped(s[1..]))
    ensures s[0] != SP && |v| < HTTP_HEADVAL_MAX - 1 ==> Cut(v + Stripped(s)) == Cut((v + [s[0]]) + Stripped(s[1..]))
    ensures |v| == HTTP_HEADVAL_MAX - 1 ==> Cut(v + Stripped(s)) == Cut(v + Stripped(s[1..]))
  {
    hide Cut;
    StrippedStep(s);
    CutFullOrNot(v, Stripped(s), Stripped(s[1..]));
    if s[0] != SP {
      assert v + ([s[0]] + Stripped(s[1..])) == (v + [s[0]]) + Stripped(s[1..]);
    }
  }

  lemma StrippedStep(s: seq<byte>)
    requires s != []
    ensures Stripped(s) == if s[0] == SP then Stripped(s[1..]) else [s[0]] + Stripped(s[1..])
  {}

  lemma CutFullOrNot(v: seq<byte>, a: seq<byte>, b: seq<byte>)
    ensures |v| == HTTP_HEADVAL_MAX - 1 ==> Cut(v + a) == Cut(v + b)
  {}

  /** The name, the colon and the value are in the head that they lead to. */
  ghost predicate Holding(h: Head, f: FieldLine, m: Head) {
    && m == h.(stat := m.stat, name := Lowered(f.name), value := Cut(Stripped(f.value)))
    && (if f.colon then InValue(m.stat) else m.stat == Name)
  }

  lemma BodyRead(h: Head, f: FieldLine, t: seq<byte>, post: bool) returns (m: Head)
    requires h.stat == HeadStart && h.name == [] && h.value == [] && f.Valid()
    ensures Holding(h, f, m) && HeadScan(h, f.Body() + t, post) == HeadScan(m, t, post)
  {
    hide HeadStep, Is, LengthOf, HeadScan, Lowered;
    var mid := if f.colon then [COLON] + f.value else [];
    var tail := mid + t;
    assert f.Body() + t == [f.name[0]] + (f.name[1..] + tail);
    FirstOfName(h, f.name[0], f.name[1..] + tail, post);
    var h1 := h.(stat := Name, name := [Lower(f.name[0])]);
    NameRun(h1, f.name[1..], tail, post);
    LoweredCons(f.name);
    m := h1.(name := Lowered(f.name));
    if f.colon {
      assert tail == [COLON] + (f.value + t);
      ColonStep(m, f.value + t, post);
      m := ValueRun(m.(stat := SpaceBeforeValue), f.value, t, post);
      assert [] + Stripped(f.value) == Stripped(f.value);
    } else {
      assert tail == t && Stripped(f.value) == [];
    }
  }

  /** A field line is one report: the name in lower case and the value without blanks, cut to 63 bytes. */
  lemma FieldReported(h: Head, f: FieldLine, t: seq<byte>, post: bool)
    requires h.stat == HeadStart && h.name == [] && h.value == [] && f.Valid()
    ensures var r := HeadScan(h, f.Bytes() + t, post);
      && r.field == f.Meaning() && r.rest == t && (if f.Sound() then r.code == OK else r.code == ERR_HEAD)
      && (f.Sound() ==> r.head == AfterField(h, f))
  {
    hide HeadStep, HeadScan, Is, LengthOf, Lowered, Cut, Stripped;
    assert f.Bytes() + t == f.Body() + (Crs(f.crs) + ([LF] + t));
    var m := BodyRead(h, f, Crs(f.crs) + ([LF] + t), post);
    CrsRead(m, f.crs, [LF] + t, post);
    LineEnd(if f.crs > 0 then m.(stat := FieldAlmostDone) else m, t, post);
  }

  /** The CRs before the end of a line. */
  lemma {:induction false} CrsRead(h: Head, n: nat, t: seq<byte>, post: bool)
    requires h.stat == Name || InValue(h.stat) || h.stat == FieldAlmostDone
    ensures HeadScan(h, Crs(n) + t, post) == HeadScan(if n > 0 then h.(stat := FieldAlmostDone) else h, t, post)
    decreases n
  {
    if n == 0 {
      assert Crs(n) + t == t;
    } else {
      assert Crs(n) + t == [CR] + (Crs(n - 1) + t);
      CrRead(h, Crs(n - 1) + t, post);
      CrsRead(h.(stat := FieldAlmostDone), n - 1, t, post);
    }
  }

  lemma CrRead(h: Head, t: seq<byte>, post: bool)
    requires h.stat == Name || InValue(h.stat) || h.stat == FieldAlmostDone
    ensures HeadScan(h, [CR] + t, post) == HeadScan(h.(stat := FieldAlmostDone), t, post)
  {
    assert ([CR] + t)[1..] == t;
  }

  /** The state after a field line. */
  function AfterField(h: Head, f: FieldLine): Head
    requires f.Sound()
  {
    if Is(Lowered(f.name), "content-length") then h.(exist := true, sumlen := LengthOf(Cut(Stripped(f.value))).n) else h
  }

  lemma FirstOfName(h: Head, p: byte, t: seq<byte>, post: bool)
    requires h.stat == HeadStart && h.name == [] && (IsLetter(p) || IsDigit(p) || p == DASH)
    ensures HeadScan(h, [p] + t, post) == HeadScan(h.(stat := Name, name := [Lower(p)]), t, post)
  {
    assert ([p] + t)[1..] == t && h.name + [Lower(p)] == [Lower(p)];
  }

  lemma ColonStep(h: Head, t: seq<byte>, post: bool)
    requires h.stat == Name
    ensures HeadScan(h, [COLON] + t, post) == HeadScan(h.(stat := SpaceBeforeValue), t, post)
  {}

  lemma LineEnd(h: Head, t: seq<byte>, post: bool)
    requires h.stat == Name || InValue(h.stat) || h.stat == FieldAlmostDone
    ensures var r := HeadScan(h, [LF] + t, post); var report := Close(h);
      r == HeadParse(report.head, t, report.code, report.field)
  {
    assert ([LF] + t)[1..] == t;
  }

  // ---- a whole head ----

  function Text(lines: seq<FieldLine>): seq<byte> {
    if lines == [] then [] else lines[0].Bytes() + Text(lines[1..])
  }

  function Meanings(lines: seq<FieldLine>): seq<Field> {
    seq(|lines|, i requires 0 <= i < |lines| => lines[i].Meaning())
  }

  predicate HasLength(lines: seq<FieldLine>) {
    exists i :: 0 <= i < |lines| && Is(Lowered(lines[i].name), "content-length")
  }

  /** The value of the last content-length line, or `n` without one. */
  function LastLength(n: nat, lines: seq<FieldLine>): nat
    requires forall f <- lines :: f.Sound()
    decreases |lines|
  {
    if lines == [] then n else LastLength(AfterField(NO_HEAD.(sumlen := n), lines[0]).sumlen, lines[1..])
  }

  /** The calls on a head report exactly its fields, in order, and then the end of the head; a POST without
      a content length is refused there. The content length is that of its last line. What follows the head is
      not read. */
  lemma {:induction false} HeadReported(h: Head, lines: seq<FieldLine>, rest: seq<byte>, post: bool)
    requires h.stat == HeadStart && h.name == [] && h.value == []
    requires forall f <- lines :: f.Valid() && f.Sound()
    ensures var r := Run(h, Text(lines) + ([CR, LF] + rest), post);
      && r.fields == Meanings(lines) && r.rest == rest
      && r.code == (if post && !h.exist && !HasLength(lines) then ERR else HEADOVER)
      && r.head.exist == (h.exist || HasLength(lines)) && r.head.sumlen == LastLength(h.sumlen, lines)
    decreases |lines|
  {
    if lines == [] {
      assert Text(lines) + ([CR, LF] + rest) == [CR, LF] + rest;
      HeadEnd(h, rest, post);
    } else {
      hide HeadScan, Close, Is, Stripped, Cut;
      var f, more := lines[0], lines[1..];
      var tail := Text(more) + ([CR, LF] + rest);
      assert Text(lines) + ([CR, LF] + rest) == f.Bytes() + tail;
      FieldReported(h, f, tail, post);
      HeadReported(AfterField(h, f), more, rest, post);
      assert Meanings(lines) == [f.Meaning()] + Meanings(more);
      LengthAmong(lines);
    }
  }

  lemma LengthAmong(lines: seq<FieldLine>)
    requires lines != []
    ensures HasLength(lines) <==> Is(Lowered(lines[0].name), "content-length") || HasLength(lines[1..])
  {}

  lemma HeadEnd(h: Head, rest: seq<byte>, post: bool)
    requires h.stat == HeadStart
    ensures HeadScan(h, [CR, LF] + rest, post)
         == HeadParse(h.(stat := HeadAlmostDone), rest, if post && !h.exist then ERR else HEADOVER, NO_FIELD)
  {}

  /** Inside a field line the head cannot end, and a name that was begun is reported. */
  lemma {:induction false} InsideLine(h: Head, s: seq<byte>, post: bool)
    requires h.stat != HeadStart && h.stat != HeadAlmostDone && h.name != []
    ensures var r := HeadScan(h, s, post); r.code != HEADOVER && r.code != ERR && (r.code == OK ==> r.field.name != [])
    decreases s
  {
    hide Is, LengthOf;
    if s != [] && HeadStep(h, s[0]).More? {
      InsideLine(HeadStep(h, s[0]).head, s[1..], post);
    }
  }

  /** At the start of a line, CR LF is the only thing that ends the head; a bare LF is a field without a name, and
      the only one. */
  lemma BlankLine(h: Head, s: seq<byte>, post: bool)
    requires h.stat == HeadStart && h.name == [] && h.value == []
    ensures var r := HeadScan(h, s, post);
      && (r.code == HEADOVER || r.code == ERR <==> |s| >= 2 && s[0] == CR && s[1] == LF)
      && (r.code == OK && r.field.name == [] <==> s != [] && s[0] == LF)
      && (s != [] && s[0] == LF ==> r == HeadParse(h, s[1..], OK, NO_FIELD))
  {
    hide LengthOf;
    if s != [] && HeadStep(h, s[0]).More? {
      var m := HeadStep(h, s[0]).head;
      if m.stat == HeadAlmostDone {
        if |s| >= 2 { assert s[1..][0] == s[1]; }
      } else {
        InsideLine(m, s[1..], post);
      }
    }
  }

  /** No byte of a field name, and none that may follow one. */
  predicate Foreign(c: byte, begun: bool) {
    !IsLetter(c) && !IsDigit(c) && c != DASH && c != CR && c != LF && (begun ==> c != COLON)
  }

  /** The begin of a line: a name that does not fit, a name with a foreign byte in it, or CRs that no LF follows, in
      front of a line or behind a field. */
  datatype BadLine = LongName(name: seq<byte>) | BadName(name: seq<byte>, c: byte) | LoneCr(c: byte)
    | BadEnd(f: FieldLine, c: byte)
  {
    predicate Valid() {
      match this
      case LongName(name) => NameChars(name) && |name| == 64
      case BadName(name, c) => NameChars(name) && |name| < 64 && Foreign(c, name != [])
      case LoneCr(c) => c != LF
      case BadEnd(f, c) => f.Valid() && f.crs > 0 && c != CR && c != LF
    }
    function Bytes(): seq<byte> {
      match this
      case LongName(name) => name
      case BadName(name, c) => name + [c]
      case LoneCr(c) => [CR, c]
      case BadEnd(f, c) => f.Body() + (Crs(f.crs) + [c])
    }
    function Code(): Code { if LongName? then ERR_HEADNAME else ERR_HEAD }
  }

  lemma LowCaseExact(p: byte)
    ensures LowCase(p) != 0 <==> IsLetter(p) || IsDigit(p) || p == DASH
  {}

  /** A bad line is refused at its last byte. */
  lemma BadLineRefused(h: Head, bad: BadLine, t: seq<byte>, post: bool)
    requires h.stat == HeadStart && h.name == [] && h.value == [] && bad.Valid()
    ensures var r := HeadScan(h, bad.Bytes() + t, post); r.code == bad.Code() && r.rest == t
  {
    hide HeadScan, HeadStep;
    match bad
    case LoneCr(c) => LoneCrRefused(h, c, t, post);
    case BadEnd(f, c) =>
      assert bad.Bytes() + t == f.Body() + (Crs(f.crs) + ([c] + t));
      var m := BodyRead(h, f, Crs(f.crs) + ([c] + t), post);
      CrsRead(m, f.crs, [c] + t, post);
      EndRefused(m.(stat := FieldAlmostDone), c, t, post);
    case BadName(name, c) =>
      if name == [] {
        assert name + [c] + t == [c] + t;
        ForeignFirst(h, c, t, post);
      } else {
        assert name + [c] + t == [name[0]] + (name[1..] + ([c] + t));
        NameRead(h, name, [c] + t, post);
        ForeignNext(h.(stat := Name, name := Lowered(name)), c, t, post);
      }
    case LongName(name) =>
      var c, most := name[63], name[..63];
      assert name + t == [most[0]] + (most[1..] + ([c] + t));
      NameRead(h, most, [c] + t, post);
      NameOver(h.(stat := Name, name := Lowered(most)), c, t, post);
  }

  lemma LoneCrRefused(h: Head, c: byte, t: seq<byte>, post: bool)
    requires h.stat == HeadStart && c != LF
    ensures var r := HeadScan(h, [CR, c] + t, post); r.code == ERR_HEAD && r.rest == t
  {
    assert ([CR, c] + t)[1..] == [c] + t && ([c] + t)[1..] == t;
  }

  lemma EndRefused(h: Head, c: byte, t: seq<byte>, post: bool)
    requires h.stat == FieldAlmostDone && c != CR && c != LF
    ensures var r := HeadScan(h, [c] + t, post); r.code == ERR_HEAD && r.rest == t
  {
    assert ([c] + t)[1..] == t;
  }

  lemma ForeignFirst(h: Head, c: byte, t: seq<byte>, post: bool)
    requires h.stat == HeadStart && Foreign(c, false)
    ensures var r := HeadScan(h, [c] + t, post); r.code == ERR_HEAD && r.rest == t
  {
    LowCaseExact(c);
    assert ([c] + t)[1..] == t;
  }

  lemma ForeignNext(h: Head, c: byte, t: seq<byte>, post: bool)
    requires h.stat == Name && Foreign(c, true)
    ensures var r := HeadScan(h, [c] + t, post); r.code == ERR_HEAD && r.rest == t
  {
    LowCaseExact(c);
    assert ([c] + t)[1..] == t;
  }

  lemma NameOver(h: Head, c: byte, t: seq<byte>, post: bool)
    requires h.stat == Name && |h.name| == 63 && (IsLetter(c) || IsDigit(c) || c == DASH)
    ensures var r := HeadScan(h, [c] + t, post); r.code == ERR_HEADNAME && r.rest == t
  {
    LowCaseExact(c);
    assert ([c] + t)[1..] == t;
  }

  lemma NameRead(h: Head, name: seq<byte>, t: seq<byte>, post: bool)
    requires h.stat == HeadStart && h.name == [] && name != [] && NameChars(name) && |name| < 64
    ensures HeadScan(h, [name[0]] + (name[1..] + t), post)
      == HeadScan(h.(stat := Name, name := Lowered(name)), t, post)
  {
    hide HeadScan;
    FirstOfName(h, name[0], name[1..] + t, post);
    NameRun(h.(stat := Name, name := [Lower(name[0])]), name[1..], t, post);
    LoweredCons(name);
  }

  /** A head is refused at its first bad line, when all fields before it are reported. */
  lemma {:induction false} HeadRefused(h: Head, lines: seq<FieldLine>, bad: BadLine, rest: seq<byte>, post: bool)
    requires h.stat == HeadStart && h.name == [] && h.value == [] && bad.Valid()
    requires forall f <- lines :: f.Valid() && f.Sound()
    ensures var r := Run(h, Text(lines) + (bad.Bytes() + rest), post);
      r.fields == Meanings(lines) && r.code == bad.Code() && r.rest == rest
    decreases |lines|
  {
    hide HeadScan, Close, Is, Stripped, Cut, BadLine.Bytes, BadLine.Valid;
    if lines == [] {
      assert Text(lines) + (bad.Bytes() + rest) == bad.Bytes() + rest;
      BadLineRefused(h, bad, rest, post);
    } else {
      var f, more := lines[0], lines[1..];
      var tail := Text(more) + (bad.Bytes() + rest);
      assert Text(lines) + (bad.Bytes() + rest) == f.Bytes() + tail;
      FieldReported(h, f, tail, post);
      HeadRefused(AfterField(h, f), more, bad, rest, post);
      assert Meanings(lines) == [f.Meaning()] + Meanings(more);
    }
  }

  /** What a call can find at the start of a line. */
  datatype First = Known(f: FieldLine) | BareLf | EndOfHead | Refused(bad: BadLine) {
    predicate Valid() { match this case Known(f) => f.Valid() case Refused(bad) => bad.Valid() case _ => true }
    function Bytes(): seq<byte> {
      match this
      case Known(f) => f.Bytes()
      case BareLf => [LF]
      case EndOfHead => [CR, LF]
      case Refused(bad) => bad.Bytes()
    }
  }

  /** The bytes `u` of a line lead to `h`; `f` is the line so far. */
  ghost predicate Inside(h: Head, u: seq<byte>, f: FieldLine) {
    match h.stat
    case HeadStart => u == [] && h.name == []
    case HeadAlmostDone => u == [CR]
    case Name => f.Valid() && !f.colon && f.crs == 0 && u == f.Body() && |h.name| == |f.name|
    case FieldAlmostDone => f.Valid() && f.crs > 0 && u == f.Body() + Crs(f.crs)
    case _ => f.Valid() && f.colon && f.crs == 0 && u == f.Body()
  }

  /** The line so far, with one more byte. */
  function Longer(h: Head, f: FieldLine, p: byte): FieldLine {
    match h.stat
    case HeadStart => FieldLine([p], false, [], 0)
    case HeadAlmostDone => f
    case Name =>
      if p == COLON then f.(colon := true) else if p == CR then f.(crs := 1) else f.(name := f.name + [p])
    case FieldAlmostDone => f.(crs := f.crs + 1)
    case _ => if p == CR then f.(crs := 1) else f.(value := f.value + [p])
  }

  lemma LongerInside(h: Head, u: seq<byte>, f: FieldLine, p: byte)
    requires Inside(h, u, f) && HeadStep(h, p).More?
    ensures Inside(HeadStep(h, p).head, u + [p], Longer(h, f, p))
  {
    hide Lower, Lowered;
    LowCaseExact(p);
    var g := Longer(h, f, p);
    assert Crs(1) == [CR] && Crs(f.crs + 1) == Crs(f.crs) + [CR];
    match h.stat
    case HeadStart =>
    case Name => assert p == COLON ==> [p] + [] == [p];
    case _ =>
  }

  lemma LineOver(h: Head, u: seq<byte>, f: FieldLine, p: byte) returns (x: First)
    requires Inside(h, u, f) && !HeadStep(h, p).More?
    ensures x.Valid() && x.Bytes() == u + [p]
  {
    hide Lower, Lowered;
    LowCaseExact(p);
    match h.stat
    case HeadStart => x := if p == LF then BareLf else Refused(BadName([], p));
    case HeadAlmostDone => x := if p == LF then EndOfHead else Refused(LoneCr(p));
    case Name =>
      x := if p == LF then Known(f) else if LowCase(p) != 0 then Refused(LongName(f.name + [p]))
        else Refused(BadName(f.name, p));
    case FieldAlmostDone => x := if p == LF then Known(f) else Refused(BadEnd(f, p));
    case _ => x := Known(f);
  }

  lemma {:induction false} FirstFound(h: Head, u: seq<byte>, f: FieldLine, s: seq<byte>, post: bool) returns (x: First)
    requires Inside(h, u, f) && HeadScan(h, s, post).code != AGAIN
    ensures x.Valid() && u + s == x.Bytes() + HeadScan(h, s, post).rest
    decreases s
  {
    hide HeadStep, Inside, Close, First.Valid, First.Bytes, Longer;
    var p := s[0];
    assert s == [p] + s[1..];
    if HeadStep(h, p).More? {
      LongerInside(h, u, f, p);
      x := FirstFound(HeadStep(h, p).head, u + [p], Longer(h, f, p), s[1..], post);
      assert (u + [p]) + s[1..] == u + s;
    } else {
      x := LineOver(h, u, f, p);
      assert (u + [p]) + s[1..] == u + s;
    }
  }

  /** A call answers as soon as, and only when, a field line, a bare LF, the end of the head or a bad line is there; a
      head that is none of these so far waits. */
  lemma AnswerExact(h: Head, s: seq<byte>, post: bool)
    requires h.stat == HeadStart && h.name == [] && h.value == []
    ensures HeadScan(h, s, post).code != AGAIN <==>
      exists x: First, rest: seq<byte> :: x.Valid() && s == x.Bytes() + rest
  {
    hide HeadScan, First.Valid, First.Bytes;
    if HeadScan(h, s, post).code != AGAIN {
      var none := FieldLine([], false, [], 0);
      var x := FirstFound(h, [], none, s, post);
      assert [] + s == s;
    }
    if x: First, rest: seq<byte> :| x.Valid() && s == x.Bytes() + rest {
      FirstAnswered(h, x, rest, post);
    }
  }

  lemma FirstAnswered(h: Head, x: First, rest: seq<byte>, post: bool)
    requires h.stat == HeadStart && h.name == [] && h.value == [] && x.Valid()
    ensures HeadScan(h, x.Bytes() + rest, post).code != AGAIN
  {
    hide HeadScan, FieldLine.Bytes, FieldLine.Valid, BadLine.Bytes, BadLine.Valid;
    match x
    case Known(f) => FieldReported(h, f, rest, post);
    case BareLf => BlankLine(h, x.Bytes() + rest, post);
    case EndOfHead => HeadEnd(h, rest, post);
    case Refused(bad) => BadLineRefused(h, bad, rest, post);
  }

  /** The sizes that HTTP_PUSH_HEADNAME and HTTP_PUSH_HEADVAL enforce. */
  predicate HeadBounded(h: Head) {
    |h.name| < HTTP_HEADNAME_MAX && |h.value| < HTTP_HEADVAL_MAX
  }

  lemma {:induction false} HeadStaysBounded(h: Head, s: seq<byte>, post: bool)
    requires HeadBounded(h)
    ensures var r := HeadScan(h, s, post);
      HeadBounded(r.head) && |r.field.name| < HTTP_HEADNAME_MAX && |r.field.value| < HTTP_HEADVAL_MAX
    decreases s
  {
    if s != [] {
      var turn := HeadStep(h, s[0]);
      if turn.More? {
        HeadStaysBounded(turn.head, s[1..], post);
      }
    }
  }
}

module HttpHead {
  import opened Bytes
  import opened Chunks
  import opened Cursors
  import opened Streams
  import opened HttpLine
  import opened HttpField
  import opened HttpCommand

  /** HTTP_PUSH_HEADNAME */
  method PushHeadName(r: HttpReq, c: byte) returns (code: Code)
    modifies r`curheadname, r`head_stat
    ensures PushName(old(r.InHead()), c) == if code == AGAIN then More(r.InHead()) else Wrong(code)
    ensures code == AGAIN || code == ERR_HEADNAME
  {
    if |r.curheadname| == HTTP_HEADNAME_MAX - 1 {
      return ERR_HEADNAME;
    }
    r.curheadname := r.curheadname + [c];
    r.head_stat := Name;
    return AGAIN;
  }

  /** The three states of a value. */
  method FeedValue(r: HttpReq, p: byte, onSpace: HeadStat) returns (code: Code)
    modifies r`curheadval, r`head_stat
    ensures ValueStep(old(r.InHead()), p, onSpace) == if code == AGAIN then More(r.InHead()) else LineDone(r.InHead())
    ensures code == AGAIN || code == OK
  {
    code := AGAIN;
    if p == SP {
      r.head_stat := onSpace;
    } else if p == CR {
      r.head_stat := FieldAlmostDone;
    } else if p == LF {
      code := OK;
    } else {
      if |r.curheadval| < HTTP_HEADVAL_MAX - 1 {
        r.curheadval := r.curheadval + [p];
      }
      r.head_stat := Value;
    }
  }

  /** The switch of http_parse_head: OK stands for its label `done`, HEADOVER for `header_done`. */
  method FeedHead(r: HttpReq, p: byte) returns (code: Code)
    modifies r`curheadname, r`curheadval, r`head_stat
    ensures HeadStep(old(r.InHead()), p) ==
      if code == AGAIN then More(r.InHead()) else if code == OK then LineDone(r.InHead())
      else if code == HEADOVER then HeadDone(r.InHead()) else Wrong(code)
    ensures code in {AGAIN, OK, HEADOVER, ERR_HEAD, ERR_HEADNAME}
  {
    hide ValueStep, PushName;
    code := AGAIN;
    match r.head_stat {
      case HeadStart =>
        if p == CR {
          r.head_stat := HeadAlmostDone;
        } else if p == LF {
          code := OK;
        } else if LowCase(p) == 0 {
          code := ERR_HEAD;
        } else {
          code := PushHeadName(r, LowCase(p));
        }
      case Name =>
        if LowCase(p) != 0 {
          code := PushHeadName(r, LowCase(p));
        } else if p == COLON {
          r.head_stat := SpaceBeforeValue;
        } else if p == CR {
          r.head_stat := FieldAlmostDone;
        } else {
          code := if p == LF then OK else ERR_HEAD;
        }
      case SpaceBeforeValue => code := FeedValue(r, p, SpaceBeforeValue);
      case Value => code := FeedValue(r, p, SpaceAfterValue);
      case SpaceAfterValue => code := FeedValue(r, p, SpaceAfterValue);
      case FieldAlmostDone => code := if p == LF then OK else if p == CR then AGAIN else ERR_HEAD;
      case HeadAlmostDone => code := if p == LF then HEADOVER else ERR_HEAD;
    }
  }

  /** The label `done`. */
  method FieldDone(r: HttpReq) returns (code: Code, field: Field)
    modifies r`curheadname, r`curheadval, r`head_stat, r`content_length_exist, r`content_sumlen
    ensures Close(old(r.InHead())) == Report(r.InHead(), code, field) && (code == OK || code == ERR_HEAD)
  {
    field := Field(r.curheadname, r.curheadval);
    if Is(r.curheadname, "content-length") {
      r.content_length_exist := true;
      match LengthOf(r.curheadval) {
        case NotANumber => return ERR_HEAD, field;
        case Number(n) => r.content_sumlen := n;
      }
    }
    r.head_stat := HeadStart;
    r.curheadval := [];
    r.curheadname := [];
    return OK, field;
  }

  /** A call in progress: `total` is what it will come to. */
  ghost predicate Reading(ck: Chunk, r: HttpReq, buf: Buffer, pre: seq<Buffer>, post: seq<Buffer>, total: HeadParse)
    reads ck, ck.queue, pre, post, buf, buf.buf, Arrays(post), r
  {
    && At(ck, buf, r.parse_pos, pre, post) && r.parse_buf == buf
    && total == HeadScan(r.InHead(), Ahead(buf, r.parse_pos, post), r.method_type == POST)
  }

  /** The place where the next call goes on. */
  ghost predicate Stands(ck: Chunk, r: HttpReq, pre: seq<Buffer>, post: seq<Buffer>, rest: seq<byte>)
    reads ck, ck.queue, pre, post, r, r.parse_buf, if r.parse_buf == null then {} else {r.parse_buf.buf}, Arrays(post)
  {
    r.parse_buf != null && At(ck, r.parse_buf, r.parse_pos, pre, post) && Ahead(r.parse_buf, r.parse_pos, post) == rest
  }

  /** The body of the inner loop. */
  method ReadByte(ck: Chunk, r: HttpReq, buf: Buffer, ghost pre: seq<Buffer>, ghost post: seq<Buffer>,
                  ghost total: HeadParse)
    returns (code: Code, field: Field)
    requires Reading(ck, r, buf, pre, post, total) && r.parse_pos < buf.used
    modifies r
    ensures r.method_type == old(r.method_type) && r.parse_pos == old(r.parse_pos) + 1 && r.parse_buf == buf
    ensures code == AGAIN ==> Reading(ck, r, buf, pre, post, total)
    ensures code != AGAIN ==> code == total.code && (code in {OK, HEADOVER} ==> r.InHead() == total.head)
    ensures code == OK ==> field == total.field && Stands(ck, r, pre, post, total.rest)
    ensures code != PARSE_NULL
  {
    hide Flat, Wf, Ahead, Seen, HeadStep, Close;
    field := NO_FIELD;
    OneAhead(buf, r.parse_pos, pre, post);
    assert r as object !in Arrays(pre) && r as object !in Arrays(post);
    ghost var ahead, head := Ahead(buf, r.parse_pos + 1, post), r.InHead();
    var p := buf.buf[buf.data + r.parse_pos];
    assert ([p] + ahead)[1..] == ahead;
    r.parse_pos := r.parse_pos + 1;
    code := FeedHead(r, p);
    if code == OK {
      code, field := FieldDone(r);
    } else if code == HEADOVER {
      if r.method_type == POST && !r.content_length_exist {
        code := ERR;
      }
    }
  }

  /** http_parse_head: the answer, the field and the place where the next call goes on depend only on the
      bytes from the position on. Behind the end of the last buffer it waits. */
  method ParseHead(ck: Chunk, r: HttpReq, ghost buf0: Buffer, ghost pos0: nat, ghost pre: seq<Buffer>,
                   ghost post: seq<Buffer>)
    returns (code: Code, field: Field, ghost before: seq<Buffer>, ghost after: seq<Buffer>)
    requires ck.Valid()
    requires ck.queue != [] && !Overrun(ck, r) ==> Resumes(ck, r, buf0, pos0, pre, post)
    modifies r
    ensures r.method_type == old(r.method_type) && (code == PARSE_NULL <==> ck.queue == [])
    ensures old(Overrun(ck, r)) ==> code == AGAIN && unchanged(r)
    ensures old(Started(ck, r)) ==>
      var total := old(HeadScan(r.InHead(), Ahead(buf0, pos0, post), r.method_type == POST));
      && code == total.code && (code in {AGAIN, OK, HEADOVER} ==> r.InHead() == total.head)
      && (code == OK ==> field == total.field)
      && (code == OK || code == AGAIN ==> Stands(ck, r, before, after, total.rest))
    ensures code == AGAIN && old(Started(ck, r)) ==>
      after == [] && r.parse_buf != null && r.parse_pos == r.parse_buf.used
  {
    hide Flat, Wf, Ahead, Seen, IndexOf, HeadScan;
    before, after, field := pre, post, NO_FIELD;
    if ck.queue == [] {
      return PARSE_NULL, field, before, after;
    }
    ghost var total := HeadParse(r.InHead(), [], AGAIN, NO_FIELD);
    if !Overrun(ck, r) {
      total := HeadScan(r.InHead(), Ahead(buf0, pos0, post), r.method_type == POST);
    }
    assert r as object !in Arrays(pre) && r as object !in Arrays(post);
    assert allocated(pre) && allocated(post) && allocated(Arrays(pre)) && allocated(Arrays(post));
    var first := Locate(ck, r, buf0, pos0, pre, post);
    if first == null {
      return AGAIN, field, before, after;
    }
    var buf: Buffer := first;
    r.parse_buf := buf;
    while true
      invariant Reading(ck, r, buf, before, after, total) && r.method_type == old(r.method_type)
      decreases |Ahead(buf, r.parse_pos, after)|, |after|
    {
      code, field := ReadBuffer(ck, r, buf, before, after, total);
      if code != AGAIN {
        return;
      }
      var next := NextRead(ck, r, buf, before, after, total);
      if next == null {
        return;
      }
      before, after, buf := before + [buf], after[1..], next;
    }
  }

  /** The inner loop. */
  method ReadBuffer(ck: Chunk, r: HttpReq, buf: Buffer, ghost pre: seq<Buffer>, ghost post: seq<Buffer>,
                    ghost total: HeadParse)
    returns (code: Code, field: Field)
    requires Reading(ck, r, buf, pre, post, total)
    modifies r
    ensures r.method_type == old(r.method_type)
    ensures code == AGAIN ==> Reading(ck, r, buf, pre, post, total) && r.parse_pos == buf.used
    ensures code == AGAIN ==> |Ahead(buf, r.parse_pos, post)| <= |old(Ahead(buf, r.parse_pos, post))|
    ensures code != AGAIN ==> code == total.code && (code in {OK, HEADOVER} ==> r.InHead() == total.head)
    ensures code == OK ==> field == total.field && Stands(ck, r, pre, post, total.rest)
    ensures code != PARSE_NULL
  {
    hide Flat, Wf, HeadScan;
    code, field := AGAIN, NO_FIELD;
    ghost var start := r.parse_pos;
    while r.parse_pos < buf.used
      invariant code == AGAIN && Reading(ck, r, buf, pre, post, total) && start <= r.parse_pos
      invariant r.method_type == old(r.method_type)
    {
      code, field := ReadByte(ck, r, buf, pre, post, total);
      if code != AGAIN {
        return;
      }
    }
    assert r as object !in Arrays(post) && r as object != buf.buf;
  }

  /** `buf = buffer_getnext( ck, buf )`, and the position at its start. */
  method NextRead(ck: Chunk, r: HttpReq, buf: Buffer, ghost pre: seq<Buffer>, ghost post: seq<Buffer>,
                  ghost total: HeadParse)
    returns (next: Buffer?)
    requires Reading(ck, r, buf, pre, post, total) && r.parse_pos == buf.used
    modifies r`parse_buf, r`parse_pos
    ensures next == null <==> post == []
    ensures next == null ==>
      unchanged(r) && r.InHead() == total.head && total.code == AGAIN && Stands(ck, r, pre, post, total.rest)
    ensures next != null ==> next == post[0] && Reading(ck, r, next, pre + [buf], post[1..], total)
    ensures next != null ==> Ahead(next, 0, post[1..]) == old(Ahead(buf, r.parse_pos, post)) && r.parse_pos == 0
  {
    hide Flat, Wf, Seen, Ahead, IndexOf, HeadScan;
    if post == [] {
      NoMore(ck, buf, pre);
      ScanNothing(r.InHead(), r.method_type == POST);
    } else {
      NextBuffer(ck, buf, pre, post);
    }
    assert ck.queue[|pre|] == buf;
    next := ck.GetNext(buf);
    if next != null {
      assert ck.queue[|pre| + 1] == post[0];
      assert r as object !in Arrays(pre + [buf]) && r as object !in Arrays(post[1..]);
      r.parse_buf := next;
      r.parse_pos := 0;
    }
  }

  lemma ScanNothing(h: Head, post: bool)
    ensures HeadScan(h, [], post) == HeadParse(h, [], AGAIN, NO_FIELD)
  {}

  /** After a call with nothing left to read, buffers may be put behind the others. */
  ghost predicate Waiting(ck: Chunk, r: HttpReq, fed: seq<byte>, fields: seq<Field>, isPost: bool, before: seq<Buffer>)
    reads ck, ck.queue, before, r, r.parse_buf
  {
    var run := Run(NO_HEAD, fed, isPost);
    && ck.Valid() && run.code == AGAIN && r.InHead() == run.head && fields == run.fields
    && (r.method_type == POST) == isPost
    && (if r.parse_buf == null then ck.queue == [] && r.parse_pos == 0 && fed == []
        else At(ck, r.parse_buf, r.parse_pos, before, []) && r.parse_pos == r.parse_buf.used)
  }

  /** The place of the next call, once buffers were put behind those of the last call. */
  lemma NextStart(ck: Chunk, r: HttpReq, before: seq<Buffer>, q: seq<Buffer>, more: seq<Buffer>)
    returns (buf: Buffer, pos: nat, pre: seq<Buffer>, post: seq<Buffer>)
    requires ck.Valid() && ck.queue == q + more && more != [] && Wf(q) && Wf(more)
    requires if r.parse_buf == null then q == [] && r.parse_pos == 0
      else q == before + [r.parse_buf] && Wf(before) && r.parse_pos == r.parse_buf.used
    ensures Resumes(ck, r, buf, pos, pre, post) && Ahead(buf, pos, post) == Flat(more)
  {
    hide Flat, Wf;
    if r.parse_buf == null {
      buf, pos, pre, post := more[0], 0, [], more[1..];
      assert ck.queue == [] + [buf] + post && more == [buf] + post;
      MiddleOne([], buf, post);
      FirstRest(more);
    } else {
      buf, pos, pre, post := r.parse_buf, r.parse_pos, before, more;
      assert ck.queue[|before|] == buf;
      MiddleOne(pre, buf, post);
      Ends(Flat(more), buf.Content());
    }
  }

  /** The place of the next call, when the last one stopped in the middle. */
  lemma SameStart(ck: Chunk, r: HttpReq, pre: seq<Buffer>, post: seq<Buffer>, rest: seq<byte>)
    returns (buf: Buffer)
    requires Stands(ck, r, pre, post, rest)
    ensures buf == r.parse_buf && Resumes(ck, r, buf, r.parse_pos, pre, post) && Ahead(buf, r.parse_pos, post) == rest
  {
    buf := r.parse_buf;
    assert ck.queue[|pre|] == buf;
  }

  /** The calls after buffers have arrived: http_parse_head is called again after every field. */
  method ReadFields(ck: Chunk, r: HttpReq, ghost more: seq<byte>,
                    ghost buf0: Buffer, ghost pos0: nat, ghost pre: seq<Buffer>, ghost post: seq<Buffer>)
    returns (fields: seq<Field>, code: Code, ghost before: seq<Buffer>)
    requires Resumes(ck, r, buf0, pos0, pre, post) && Ahead(buf0, pos0, post) == more
    modifies r
    ensures var run := old(Run(r.InHead(), more, r.method_type == POST));
      && fields == run.fields && code == run.code && (code == AGAIN || code == HEADOVER ==> r.InHead() == run.head)
    ensures code == AGAIN ==>
      r.parse_buf != null && At(ck, r.parse_buf, r.parse_pos, before, []) && r.parse_pos == r.parse_buf.used
    ensures r.method_type == old(r.method_type)
  {
    hide HeadScan, Flat, Wf, Run, Overrun, Ahead;
    ghost var isPost, whole := r.method_type == POST, Run(r.InHead(), more, r.method_type == POST);
    ghost var b, p, a, z, rest := buf0, pos0, pre, post, more;
    fields := [];
    while true
      invariant Resumes(ck, r, b, p, a, z) && Ahead(b, p, z) == rest && (r.method_type == POST) == isPost
      invariant r.method_type == old(r.method_type)
      invariant whole == Prepend(fields, Run(r.InHead(), rest, isPost))
      decreases |rest|
    {
      ResumesStarted(ck, r, b, p, a, z);
      RunStep(r.InHead(), rest, isPost, fields);
      var field;
      ghost var after;
      code, field, before, after := ParseHead(ck, r, b, p, a, z);
      if code != OK {
        return;
      }
      fields := fields + [field];
      rest := Ahead(r.parse_buf, r.parse_pos, after);
      p, a, z := r.parse_pos, before, after;
      b := SameStart(ck, r, a, z, rest);
    }
  }

  function Prepend(fields: seq<Field>, run: HeadRun): HeadRun {
    run.(fields := fields + run.fields)
  }

  lemma RunStep(h: Head, s: seq<byte>, post: bool, fields: seq<Field>)
    ensures var one := HeadScan(h, s, post);
      if one.code == OK then
        && |one.rest| < |s|
        && Prepend(fields, Run(h, s, post)) == Prepend(fields + [one.field], Run(one.head, one.rest, post))
      else Prepend(fields, Run(h, s, post)) == HeadRun(one.head, fields, one.rest, one.code)
  {}

  /** Some buffers arrive and the head is parsed as far as they go. */
  method Arrive(ck: Chunk, r: HttpReq, segments: seq<seq<byte>>, fields: seq<Field>,
                ghost fed: seq<byte>, ghost isPost: bool, ghost before: seq<Buffer>)
    returns (all: seq<Field>, code: Code, ghost newbefore: seq<Buffer>)
    requires Waiting(ck, r, fed, fields, isPost, before) && segments != []
    modifies r, ck
    ensures var run := Run(NO_HEAD, fed + Concat(segments), isPost); all == run.fields && code == run.code
    ensures code == HEADOVER ==> r.InHead() == Run(NO_HEAD, fed + Concat(segments), isPost).head
    ensures code == AGAIN ==> Waiting(ck, r, fed + Concat(segments), all, isPost, newbefore)
  {
    hide HeadScan, Flat, Wf, Run, Concat;
    ghost var q := ck.queue;
    assert allocated(q) && allocated(before);
    assert r.parse_buf != null ==> before + [r.parse_buf] + [] == before + [r.parse_buf];
    ghost var head := r.InHead();
    ghost var more := Deliver(ck, segments);
    ghost var b, p, a, z := NextStart(ck, r, before, q, more);
    var some;
    some, code, newbefore := ReadFields(ck, r, Concat(segments), b, p, a, z);
    all := fields + some;
    RunResumes(NO_HEAD, fed, Concat(segments), isPost);
  }

  /** Every segmentation: however a head is cut into calls and buffers, the reported fields, the last answer and
      the content length are those of the whole stream. */
  method ReadStream(calls: seq<seq<seq<byte>>>, method_type: Method)
    returns (fields: seq<Field>, code: Code, exist: bool, sumlen: nat)
    requires forall c <- calls :: c != []
    ensures var run := Run(NO_HEAD, Stream(calls), method_type == POST);
      && fields == run.fields && code == run.code
      && (code == AGAIN || code == HEADOVER ==> exist == run.head.exist && sumlen == run.head.sumlen)
  {
    hide Flat, Wf, Run, Waiting, Stream, Chunk.Valid;
    var ck := new Chunk(102400);
    var r := new HttpReq();
    r.method_type := method_type;
    fields, code, exist, sumlen := [], AGAIN, false, 0;
    ghost var before: seq<Buffer> := [];
    var k := 0;
    assert Stream(calls[..0]) == [] by { StreamEmpty(); }
    StartWaiting(ck, r, method_type == POST);
    while k < |calls|
      invariant k <= |calls| && fresh(ck) && fresh(r) && code == AGAIN
      invariant Waiting(ck, r, Stream(calls[..k]), fields, method_type == POST, before)
    {
      StreamStep(calls, k);
      assert calls[k] in calls;
      ghost var fed := Stream(calls[..k]);
      fields, code, before := Arrive(ck, r, calls[k], fields, fed, method_type == POST, before);
      k := k + 1;
      exist, sumlen := r.content_length_exist, r.content_sumlen;
      if code != AGAIN {
        StreamDecided(calls, k, method_type == POST);
        return;
      }
    }
    exist, sumlen := r.content_length_exist, r.content_sumlen;
    assert calls[..k] == calls;
    WaitingRun(ck, r, Stream(calls), fields, method_type == POST, before);
  }

  lemma StartWaiting(ck: Chunk, r: HttpReq, isPost: bool)
    requires ck.queue == [] && r.InHead() == NO_HEAD && r.parse_buf == null && r.parse_pos == 0
    requires (r.method_type == POST) == isPost
    ensures Waiting(ck, r, [], [], isPost, [])
  {}

  lemma WaitingRun(ck: Chunk, r: HttpReq, fed: seq<byte>, fields: seq<Field>, isPost: bool, before: seq<Buffer>)
    requires Waiting(ck, r, fed, fields, isPost, before)
    ensures Run(NO_HEAD, fed, isPost).code == AGAIN && fields == Run(NO_HEAD, fed, isPost).fields
    ensures r.InHead() == Run(NO_HEAD, fed, isPost).head
  {}

  lemma StreamDecided(calls: seq<seq<seq<byte>>>, k: nat, post: bool)
    requires k <= |calls| && Run(NO_HEAD, Stream(calls[..k]), post).code != AGAIN
    ensures var first, total := Run(NO_HEAD, Stream(calls[..k]), post), Run(NO_HEAD, Stream(calls), post);
      total.code == first.code && total.fields == first.fields && total.head == first.head
  {
    hide Run;
    StreamPrefix(calls, k);
    var later := Stream(calls)[|Stream(calls[..k])|..];
    assert Stream(calls) == Stream(calls[..k]) + later;
    RunResumes(NO_HEAD, Stream(calls[..k]), later, post);
  }
}
