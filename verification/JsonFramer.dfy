/**
 msg_rpc.c, fdrw.c and fd_rpc.c: cutting JSON objects out of the byte stream of an RPC connection with a
 bracket automaton, over one fixed buffer that is compacted and refilled.
 */
module JsonBrackets {
  import opened Bytes

  const OPEN: byte := 123
  const CLOSE: byte := 125
  const BACKSLASH: byte := 92
  const QUOTE: byte := 34
  const DEPTHS: nat := 0x2000_0000

  /** The bit fields of json_reslover; `depth` has 29 bits. */
  datatype State = State(begin: bool, quote: bool, slash: bool, depth: nat)

  const START := State(false, false, false, 0)

  predicate IsBlank(p: byte) {
    p == 32 || p == 9 || p == 13 || p == 10 || p == 0
  }

  datatype Turn = Go(state: State) | Done | Bad

  function Step(r: State, p: byte): Turn {
    if p == OPEN then
      if !r.quote && (r.depth + 1) % DEPTHS == 0 then Bad
      else Go(State(true, r.quote, false, if r.quote then r.depth else (r.depth + 1) % DEPTHS))
    else if p == CLOSE then
      if !r.begin then Bad
      else if r.quote then Go(r)
      else if (r.depth + DEPTHS - 1) % DEPTHS == 0 then Done
      else Go(r.(depth := (r.depth + DEPTHS - 1) % DEPTHS))
    else if p == BACKSLASH then
      if !r.begin || !r.quote then Bad else Go(r.(slash := true))
    else if p == QUOTE then
      if !r.begin then Bad
      else if r.slash then Go(r.(slash := false)) else Go(r.(quote := !r.quote))
    else if IsBlank(p) then Go(r)
    else if !r.begin then Bad
    else Go(r.(slash := false))
  }

  /** The automaton from state `r`, `n` bytes into the message: the length of the message when it ends, minus
      the place of the first wrong byte, and 0 as long as neither is known. */
  function Scan(r: State, s: seq<byte>, n: nat): int
    decreases s
  {
    if s == [] then 0
    else
      match Step(r, s[0])
      case Go(m) => Scan(m, s[1..], n + 1)
      case Done => n + 1
      case Bad => -(n + 1)
  }

  /** json_reslove_one */
  function Resolve(s: seq<byte>): int {
    Scan(START, s, 0)
  }

  lemma {:induction false} ScanPrefix(r: State, s: seq<byte>, t: seq<byte>, n: nat)
    ensures Scan(r, s, n) != 0 ==> Scan(r, s + t, n) == Scan(r, s, n)
    ensures -(n + |s|) <= Scan(r, s, n) <= n + |s| && (Scan(r, s, n) > 0 ==> n < Scan(r, s, n))
    decreases s
  {
    if s != [] {
      assert (s + t)[1..] == s[1..] + t;
      var turn := Step(r, s[0]);
      if turn.Go? {
        ScanPrefix(turn.state, s[1..], t, n + 1);
      }
    }
  }

  /** Prefix determinism: an answer other than 0 stays whatever follows; so only 0 can change. */
  lemma Deterministic(s: seq<byte>, t: seq<byte>)
    ensures Resolve(s) != 0 ==> Resolve(s + t) == Resolve(s)
    ensures Resolve(s + t) == 0 ==> Resolve(s) == 0
    ensures -|s| <= Resolve(s) <= |s|
  {
    ScanPrefix(START, s, t, 0);
  }

  /** A found message is answered on exactly its own bytes, and on no shorter prefix. */
  lemma {:induction false} ScanExact(r: State, s: seq<byte>, n: nat, k: nat)
    requires Scan(r, s, n) > 0
    ensures n < Scan(r, s, n) <= n + |s|
    ensures n + k < Scan(r, s, n) && k <= |s| ==> Scan(r, s[..k], n) == 0
    ensures Scan(r, s[..Scan(r, s, n) - n], n) == Scan(r, s, n)
    decreases s
  {
    var turn := Step(r, s[0]);
    if turn.Go? {
      ScanExact(turn.state, s[1..], n + 1, if k == 0 then 0 else k - 1);
      var e := Scan(r, s, n) - n;
      assert s[..e][1..] == s[1..][..e - 1];
      if 0 < k <= |s| {
        assert s[..k][1..] == s[1..][..k - 1];
      }
    } else {
      assert s[..1][0] == s[0];
    }
  }

  /** The messages of a stream, cut off one after the other, and what is left. */
  function Messages(s: seq<byte>): seq<seq<byte>>
    decreases |s|
  {
    Deterministic(s, []);
    if Resolve(s) > 0 then [s[..Resolve(s)]] + Messages(s[Resolve(s)..]) else []
  }

  function Left(s: seq<byte>): seq<byte>
    decreases |s|
  {
    Deterministic(s, []);
    if Resolve(s) > 0 then Left(s[Resolve(s)..]) else s
  }

  lemma MessagesStep(s: seq<byte>)
    ensures Resolve(s) > 0 ==> Resolve(s) <= |s| && Left(s) == Left(s[Resolve(s)..])
    ensures Resolve(s) > 0 ==> Messages(s) == [s[..Resolve(s)]] + Messages(s[Resolve(s)..])
    ensures Resolve(s) <= 0 ==> Messages(s) == [] && Left(s) == s
  {
    Deterministic(s, []);
  }

  /** Refills do not change what is found. */
  lemma {:induction false} MessagesAppend(s: seq<byte>, t: seq<byte>)
    ensures Messages(s + t) == Messages(s) + Messages(Left(s) + t) && Left(s + t) == Left(Left(s) + t)
    decreases |s|
  {
    hide Messages, Left, Resolve;
    MessagesStep(s);
    MessagesStep(s + t);
    Deterministic(s, t);
    if Resolve(s) > 0 {
      var n := Resolve(s);
      assert (s + t)[..n] == s[..n] && (s + t)[n..] == s[n..] + t;
      MessagesAppend(s[n..], t);
      Assoc([s[..n]], Messages(s[n..]), Messages(Left(s) + t));
    } else {
      assert [] + Messages(s + t) == Messages(s + t);
    }
  }

  lemma Assoc(a: seq<seq<byte>>, b: seq<seq<byte>>, c: seq<seq<byte>>)
    ensures a + (b + c) == (a + b) + c
  {}

  // ---- what each answer means ----

  /** The backslash at `i` escapes the next quote: only blanks and closing brackets follow it. */
  ghost predicate EscapedAt(u: seq<byte>, i: int) {
    0 <= i < |u| && u[i] == BACKSLASH && forall j :: i < j < |u| ==> IsBlank(u[j]) || u[j] == CLOSE
  }

  /** The next quote is escaped. */
  ghost predicate Escaping(u: seq<byte>) {
    exists i :: EscapedAt(u, i)
  }

  /** The quotes that are not escaped. */
  ghost function Quotes(u: seq<byte>): nat {
    if u == [] then 0
    else
      var k := |u| - 1;
      Quotes(u[..k]) + (if u[k] == QUOTE && !Escaping(u[..k]) then 1 else 0)
  }

  ghost predicate InString(u: seq<byte>) { Quotes(u) % 2 == 1 }

  /** The brackets outside of strings that are still open. */
  ghost function Level(u: seq<byte>): int {
    if u == [] then 0
    else
      var k := |u| - 1;
      Level(u[..k]) + (if InString(u[..k]) then 0 else if u[k] == OPEN then 1 else if u[k] == CLOSE then -1 else 0)
  }

  /** A byte that no message can have behind `u`: before the first bracket anything but a blank or a bracket, a
      backslash outside of a string, and a bracket that the 29 bits cannot count. */
  ghost predicate Wrong(u: seq<byte>, p: byte) {
    || (OPEN !in u && p != OPEN && !IsBlank(p))
    || (p == BACKSLASH && !InString(u))
    || (p == OPEN && !InString(u) && Level(u) + 1 == DEPTHS)
  }

  /** The bracket that ends the message. */
  ghost predicate Ends(u: seq<byte>, p: byte) {
    p == CLOSE && OPEN in u && !InString(u) && Level(u) == 1
  }

  /** Nothing before place `k` is wrong or ends the message. */
  ghost predicate OpenUntil(s: seq<byte>, k: nat)
    requires k <= |s|
  {
    forall j :: 0 <= j < k ==> !Wrong(s[..j], s[j]) && !Ends(s[..j], s[j])
  }

  ghost predicate Sound(u: seq<byte>) {
    if OPEN in u then 1 <= Level(u) < DEPTHS else Level(u) == 0 && !InString(u) && !Escaping(u)
  }

  /** The state of the automaton in terms of the bytes that it has read. */
  ghost function StateOf(u: seq<byte>): State
    requires Sound(u)
  {
    State(OPEN in u, InString(u), Escaping(u), Level(u))
  }

  lemma EscapedNext(u: seq<byte>, p: byte, i: int)
    ensures i < |u| ==> (EscapedAt(u + [p], i) <==> (IsBlank(p) || p == CLOSE) && EscapedAt(u, i))
    ensures EscapedAt(u + [p], |u|) <==> p == BACKSLASH
  {
    var r := u + [p];
    assert r[|u|] == p && forall j :: 0 <= j < |u| ==> r[j] == u[j];
  }

  lemma EscapingNext(u: seq<byte>, p: byte)
    ensures Escaping(u + [p]) <==> p == BACKSLASH || ((IsBlank(p) || p == CLOSE) && Escaping(u))
  {
    hide EscapedAt, IsBlank;
    var r := u + [p];
    forall i ensures EscapedAt(r, i) ==> i <= |u| {
      NoneBehind(r, i);
    }
    forall i ensures i < |u| ==> (EscapedAt(r, i) <==> (IsBlank(p) || p == CLOSE) && EscapedAt(u, i))
      ensures EscapedAt(r, |u|) <==> p == BACKSLASH
      ensures EscapedAt(u, i) ==> i < |u|
    {
      EscapedNext(u, p, i);
      NoneBehind(u, i);
    }
    EscapedNext(u, p, 0);
    BlanksNoSlash(p);
  }

  lemma NoneBehind(u: seq<byte>, i: int)
    ensures EscapedAt(u, i) ==> i < |u|
  {}

  lemma BlanksNoSlash(p: byte)
    ensures p == BACKSLASH ==> !IsBlank(p) && p != CLOSE
  {}

  lemma QuotesNext(u: seq<byte>, p: byte)
    ensures Quotes(u + [p]) == Quotes(u) + (if p == QUOTE && !Escaping(u) then 1 else 0)
  {
    hide Escaping;
    var r := u + [p];
    assert r[..|u|] == u && r[|u|] == p;
  }

  lemma InStringNext(u: seq<byte>, p: byte)
    ensures InString(u + [p]) <==> (InString(u) <==> !(p == QUOTE && !Escaping(u)))
  {
    hide Escaping, Quotes;
    QuotesNext(u, p);
  }

  lemma LevelNext(u: seq<byte>, p: byte)
    ensures Level(u + [p])
      == Level(u) + (if InString(u) then 0 else if p == OPEN then 1 else if p == CLOSE then -1 else 0)
  {
    hide InString;
    var r := u + [p];
    assert r[..|u|] == u && r[|u|] == p;
  }

  lemma OpenNext(u: seq<byte>, p: byte)
    ensures OPEN in u + [p] <==> OPEN in u || p == OPEN
  {}

  /** One byte: the automaton refuses it, ends, or comes to the state of the longer prefix. */
  lemma StepMeans(u: seq<byte>, p: byte)
    requires Sound(u)
    ensures Step(StateOf(u), p).Bad? <==> Wrong(u, p)
    ensures Step(StateOf(u), p).Done? <==> !Wrong(u, p) && Ends(u, p)
    ensures !Wrong(u, p) && !Ends(u, p) ==> Sound(u + [p]) && Step(StateOf(u), p) == Go(StateOf(u + [p]))
  {
    hide Escaping, Quotes, Level, InString;
    EscapingNext(u, p);
    InStringNext(u, p);
    LevelNext(u, p);
    OpenNext(u, p);
  }

  lemma NothingRead()
    ensures Sound([]) && StateOf([]) == START
  {}

  lemma {:induction false} ScanFrom(s: seq<byte>, k: nat)
    requires k <= |s| && OpenUntil(s, k)
    ensures Sound(s[..k]) && Scan(START, s, 0) == Scan(StateOf(s[..k]), s[k..], k)
    decreases k
  {
    hide Step, Sound, Wrong, Ends, StateOf;
    NothingRead();
    if k == 0 {
      assert s[..k] == [] && s[k..] == s;
    } else {
      ScanFrom(s, k - 1);
      StepMeans(s[..k - 1], s[k - 1]);
      assert s[..k] == s[..k - 1] + [s[k - 1]] && s[k - 1..][0] == s[k - 1] && s[k - 1..][1..] == s[k..];
    }
  }

  /** A message is refused at place `k` if and only if the byte there is the first that is wrong, and no message ends
      before it. */
  lemma RefusedExact(s: seq<byte>, k: nat)
    ensures Resolve(s) == -(k + 1) <==> k < |s| && OpenUntil(s, k) && Wrong(s[..k], s[k])
  {
    hide Wrong, Ends, Resolve;
    Decided(s);
  }

  /** A message ends behind place `k` if and only if its last bracket is there, and no byte before is wrong. */
  lemma EndExact(s: seq<byte>, k: nat)
    ensures Resolve(s) == k + 1 <==> k < |s| && OpenUntil(s, k) && !Wrong(s[..k], s[k]) && Ends(s[..k], s[k])
  {
    hide Wrong, Ends, Resolve;
    Decided(s);
  }

  /** The first place that decides, or none. */
  lemma Decided(s: seq<byte>)
    ensures Resolve(s) == 0 <==> OpenUntil(s, |s|)
    ensures Resolve(s) != 0 ==>
      exists k :: 0 <= k < |s| && OpenUntil(s, k)
        && ((Wrong(s[..k], s[k]) && Resolve(s) == -(k + 1))
            || (!Wrong(s[..k], s[k]) && Ends(s[..k], s[k]) && Resolve(s) == k + 1))
  {
    hide Step, Sound, Wrong, Ends, StateOf;
    if OpenUntil(s, |s|) {
      ScanFrom(s, |s|);
      assert s[|s|..] == [];
    } else {
      var k := FirstPlace(s);
      ScanFrom(s, k);
      StepMeans(s[..k], s[k]);
      assert s[k..][0] == s[k];
    }
  }

  lemma FirstPlace(s: seq<byte>) returns (k: nat)
    requires !OpenUntil(s, |s|)
    ensures k < |s| && OpenUntil(s, k) && (Wrong(s[..k], s[k]) || Ends(s[..k], s[k]))
  {
    hide Wrong, Ends;
    k := 0;
    while !(Wrong(s[..k], s[k]) || Ends(s[..k], s[k]))
      invariant k < |s| && OpenUntil(s, k)
      decreases |s| - k
    {
      k := k + 1;
    }
  }

  /** What is no blank and no bracket is refused in front of the first bracket. */
  lemma GarbageRefused(blanks: seq<byte>, c: byte, t: seq<byte>)
    requires Blanks(blanks) && c != OPEN && !IsBlank(c)
    ensures Resolve(blanks + [c] + t) == -(|blanks| + 1)
  {
    var s := blanks + [c] + t;
    assert s == blanks + ([c] + t);
    BlanksScanned(blanks, [c] + t, 0);
    assert ([c] + t)[0] == c && Step(START, c) == Bad;
  }

  /** A backslash between the members of an object is refused at its place. */
  lemma BackslashRefused(blanks: seq<byte>, x: Items, t: seq<byte>)
    requires Blanks(blanks) && Valid(x) && Depth(x) + 1 < DEPTHS
    ensures Resolve(blanks + [OPEN] + Print(x) + [BACKSLASH] + t) == -(|blanks| + 1 + |Print(x)| + 1)
  {
    var s := blanks + [OPEN] + Print(x) + [BACKSLASH] + t;
    var end := [BACKSLASH] + t;
    assert s == blanks + ([OPEN] + (Print(x) + end));
    BlanksScanned(blanks, [OPEN] + (Print(x) + end), 0);
    OneByte(START, OPEN, Print(x) + end, |blanks|);
    ItemsScanned(x, 1, end, |blanks| + 1);
    assert end[0] == BACKSLASH && Step(Inside(1), BACKSLASH) == Bad;
  }

  /** The first byte: a blank or a NUL is skipped, '{' begins a message, and any other is refused. */
  lemma FirstByte(p: byte, t: seq<byte>)
    ensures Resolve([p] + t) == -1 <==> p !in {32, 9, 13, 10, 0, 123}
  {
    var s := [p] + t;
    assert s[..0] == [] && s[0] == p;
    RefusedExact(s, 0);
  }

  /** In `{"}\""}` the bracket and the escaped quote belong to the string. */
  lemma StringExample(t: seq<byte>)
    ensures Resolve([123, 34, 125, 92, 34, 34, 125] + t) == 7
  {
    var units := [Raw(125), Escaped(34)];
    assert UnitBytes(units[1..]) == [92, 34] && UnitBytes(units) == [125, 92, 34];
    var x := Text(units, Empty);
    assert Print(x) == [34] + [125, 92, 34] + [34] + [];
    ObjectFound([], x, t);
    assert [] + [OPEN] + Print(x) + [CLOSE] == [123, 34, 125, 92, 34, 34, 125];
  }

  // ---- the reference grammar ----

  /** A byte or an escaped byte of a string. */
  datatype Unit = Raw(c: byte) | Escaped(c: byte) {
    predicate Valid() {
      c != BACKSLASH && (Raw? ==> c != QUOTE) && (Escaped? ==> c != CLOSE && !IsBlank(c))
    }
    function Bytes(): seq<byte> { if Raw? then [c] else [BACKSLASH, c] }
  }

  /** The inside of an object: bytes outside strings, strings, and nested objects. */
  datatype Items = Empty | Plain(c: byte, rest: Items) | Text(units: seq<Unit>, rest: Items)
    | Nested(inner: Items, rest: Items)

  predicate Valid(x: Items) {
    match x
    case Empty => true
    case Plain(c, rest) => c != OPEN && c != CLOSE && c != BACKSLASH && c != QUOTE && Valid(rest)
    case Text(units, rest) => (forall i :: 0 <= i < |units| ==> units[i].Valid()) && Valid(rest)
    case Nested(inner, rest) => Valid(inner) && Valid(rest)
  }

  function UnitBytes(units: seq<Unit>): seq<byte> {
    if units == [] then [] else units[0].Bytes() + UnitBytes(units[1..])
  }

  function Print(x: Items): seq<byte> {
    match x
    case Empty => []
    case Plain(c, rest) => [c] + Print(rest)
    case Text(units, rest) => [QUOTE] + UnitBytes(units) + [QUOTE] + Print(rest)
    case Nested(inner, rest) => [OPEN] + Print(inner) + [CLOSE] + Print(rest)
  }

  function Depth(x: Items): nat {
    match x
    case Empty => 0
    case Plain(_, rest) => Depth(rest)
    case Text(_, rest) => Depth(rest)
    case Nested(inner, rest) => if Depth(rest) > Depth(inner) + 1 then Depth(rest) else Depth(inner) + 1
  }

  /** Inside an object, outside strings, `d` brackets deep. */
  function Inside(d: nat): State {
    State(true, false, false, d)
  }

  lemma {:induction false} UnitsScanned(units: seq<Unit>, d: nat, t: seq<byte>, n: nat)
    requires forall i :: 0 <= i < |units| ==> units[i].Valid()
    ensures Scan(State(true, true, false, d), UnitBytes(units) + t, n)
      == Scan(State(true, true, false, d), t, n + |UnitBytes(units)|)
    decreases |units|
  {
    if units == [] {
      assert UnitBytes(units) + t == t;
    } else {
      var u, more := units[0], UnitBytes(units[1..]) + t;
      assert UnitBytes(units) + t == u.Bytes() + more;
      UnitScanned(u, d, more, n);
      UnitsScanned(units[1..], d, t, n + |u.Bytes()|);
    }
  }

  lemma UnitScanned(u: Unit, d: nat, t: seq<byte>, n: nat)
    requires u.Valid()
    ensures Scan(State(true, true, false, d), u.Bytes() + t, n) == Scan(State(true, true, false, d), t, n + |u.Bytes()|)
  {}

  lemma Wrapped(a: byte, b: seq<byte>, c: byte, d: seq<byte>, t: seq<byte>)
    ensures ([a] + b + [c] + d) + t == [a] + (b + ([c] + (d + t)))
    ensures |[a] + b + [c] + d| == 2 + |b| + |d|
  {}

  lemma TextScanned(units: seq<Unit>, d: nat, t: seq<byte>, n: nat)
    requires (forall i :: 0 <= i < |units| ==> units[i].Valid()) && 0 < d < DEPTHS
    ensures Scan(Inside(d), [QUOTE] + (UnitBytes(units) + ([QUOTE] + t)), n)
      == Scan(Inside(d), t, n + 2 + |UnitBytes(units)|)
  {
    hide Scan, Step, UnitBytes;
    Steps(d);
    OneByte(Inside(d), QUOTE, UnitBytes(units) + ([QUOTE] + t), n);
    UnitsScanned(units, d, [QUOTE] + t, n + 1);
    OneByte(State(true, true, false, d), QUOTE, t, n + 1 + |UnitBytes(units)|);
  }

  lemma {:induction false} ItemsScanned(x: Items, d: nat, t: seq<byte>, n: nat)
    requires Valid(x) && 0 < d && d + Depth(x) < DEPTHS
    ensures Scan(Inside(d), Print(x) + t, n) == Scan(Inside(d), t, n + |Print(x)|)
    decreases x
  {
    hide Scan, Step, UnitBytes, Inside, Unit.Valid;
    Steps(d);
    match x {
      case Empty =>
        assert Print(x) + t == t;
      case Plain(c, rest) =>
        assert Print(x) + t == [c] + (Print(rest) + t);
        PlainStep(d, c);
        OneByte(Inside(d), c, Print(rest) + t, n);
        ItemsScanned(rest, d, t, n + 1);
      case Text(units, rest) =>
        Wrapped(QUOTE, UnitBytes(units), QUOTE, Print(rest), t);
        TextScanned(units, d, Print(rest) + t, n);
        ItemsScanned(rest, d, t, n + 2 + |UnitBytes(units)|);
      case Nested(inner, rest) =>
        Wrapped(OPEN, Print(inner), CLOSE, Print(rest), t);
        var more := [CLOSE] + (Print(rest) + t);
        OneByte(Inside(d), OPEN, Print(inner) + more, n);
        ItemsScanned(inner, d + 1, more, n + 1);
        OneByte(Inside(d + 1), CLOSE, Print(rest) + t, n + 1 + |Print(inner)|);
        ItemsScanned(rest, d, t, n + 2 + |Print(inner)|);
    }
  }

  lemma Steps(d: nat)
    requires 0 < d < DEPTHS
    ensures d + 1 < DEPTHS ==> Step(Inside(d), OPEN) == Go(Inside(d + 1)) && Step(Inside(d + 1), CLOSE) == Go(Inside(d))
    ensures Step(Inside(d), QUOTE) == Go(State(true, true, false, d))
    ensures Step(State(true, true, false, d), QUOTE) == Go(Inside(d))
  {}

  lemma PlainStep(d: nat, c: byte)
    requires c != OPEN && c != CLOSE && c != BACKSLASH && c != QUOTE
    ensures Step(Inside(d), c) == Go(Inside(d))
  {}

  lemma OneByte(r: State, p: byte, t: seq<byte>, n: nat)
    requires Step(r, p).Go?
    ensures Scan(r, [p] + t, n) == Scan(Step(r, p).state, t, n + 1)
  {}

  predicate Blanks(s: seq<byte>) {
    forall i :: 0 <= i < |s| ==> IsBlank(s[i])
  }

  lemma {:induction false} BlanksScanned(s: seq<byte>, t: seq<byte>, n: nat)
    requires Blanks(s)
    ensures Scan(START, s + t, n) == Scan(START, t, n + |s|)
    decreases |s|
  {
    if s == [] {
      assert s + t == t;
    } else {
      assert s + t == [s[0]] + (s[1..] + t);
      OneByte(START, s[0], s[1..] + t, n);
      BlanksScanned(s[1..], t, n + 1);
    }
  }

  /** A printed object, after blanks, is found with exactly its length, whatever follows it. */
  lemma ObjectFound(blanks: seq<byte>, x: Items, t: seq<byte>)
    requires Blanks(blanks) && Valid(x) && Depth(x) + 1 < DEPTHS
    ensures var msg := blanks + [OPEN] + Print(x) + [CLOSE];
      Resolve(msg + t) == |msg| && Messages(msg + t) == [msg] + Messages(t)
  {
    var msg := blanks + [OPEN] + Print(x) + [CLOSE];
    assert msg + t == blanks + ([OPEN] + (Print(x) + ([CLOSE] + t)));
    BlanksScanned(blanks, [OPEN] + (Print(x) + ([CLOSE] + t)), 0);
    OneByte(START, OPEN, Print(x) + ([CLOSE] + t), |blanks|);
    ItemsScanned(x, 1, [CLOSE] + t, |blanks| + 1);
    var end := [CLOSE] + t;
    assert end[0] == CLOSE && Step(Inside(1), CLOSE) == Done;
    assert Resolve(msg + t) == |msg|;
    MessagesStep(msg + t);
    assert (msg + t)[..|msg|] == msg && (msg + t)[|msg|..] == t;
  }
}

module RpcReader {
  import opened Bytes
  import opened Chunks
  import opened JsonBrackets

  const RPC_CONN_READBUF_SIZE: nat := 4096

  datatype Ret = FDRW_OK | FDRW_CLS | FDRW_AGN | FDRW_MEM | FDRW_PCK | FDRW_OTH | FDRW_MOR | FDRW_NOM

  /** What FIONREAD and `read` answer; a negative `sys` is its failure. */
  datatype Found = Some(bytes: seq<byte>) | ReadAgain | ReadFailed
  datatype Arrival = Arrival(sys: int, found: Found)

  /** What rpc_handle answers for the k-th message: go on, pause, or an error. */
  datatype Answer = Fine | Pause | Refused

  type Handler = (nat, seq<byte>) -> Answer

  ghost predicate AlwaysFine(handler: Handler) {
    forall i, m :: handler(i, m) == Fine
  }

  // ---- the reference ----

  /** The bytes that an event brings, with `used` bytes still unread. */
  function Delivered(a: Arrival, used: nat): (r: seq<byte>)
    requires used <= RPC_CONN_READBUF_SIZE
    ensures a.found.Some? ==> r <= a.found.bytes
    ensures used + |r| <= RPC_CONN_READBUF_SIZE
    ensures r != [] <==> a.sys > 0 && used < RPC_CONN_READBUF_SIZE && a.found.Some? && a.found.bytes != []
  {
    if a.sys > 0 && a.found.Some? then a.found.bytes[..Min(|a.found.bytes|, Min(a.sys, RPC_CONN_READBUF_SIZE - used))]
    else []
  }

  /** Nothing can be read from the connection any more. */
  predicate Broken(a: Arrival, used: nat) {
    a.sys <= 0 || (used < RPC_CONN_READBUF_SIZE && (a.found.ReadFailed? || a.found == Some([])))
  }

  /** The socket wants another try. */
  predicate Postponed(a: Arrival, used: nat) {
    a.sys > 0 && used < RPC_CONN_READBUF_SIZE && a.found.ReadAgain?
  }

  /** No message stands at the front of `s`, and none will: it is wrong, or fills the buffer unfinished. */
  predicate Hopeless(s: seq<byte>) {
    Resolve(s) < 0 || (Resolve(s) == 0 && |s| >= RPC_CONN_READBUF_SIZE)
  }

  /** What handling the unread bytes `s` comes to: the messages handled, the bytes left, and whether the
      connection goes on. */
  datatype Outcome = Outcome(msgs: seq<seq<byte>>, rest: seq<byte>, open: bool)

  function Drained(s: seq<byte>, k: nat, handler: Handler): Outcome
    decreases |s|
  {
    Deterministic(s, []);
    var n := Resolve(s);
    if !(0 < n <= |s|) then Outcome([], s, !Hopeless(s))
    else
      match handler(k, s[..n])
      case Pause => Outcome([s[..n]], s[n..], true)
      case Refused => Outcome([s[..n]], s[n..], false)
      case Fine => var o := Drained(s[n..], k + 1, handler); Outcome([s[..n]] + o.msgs, o.rest, o.open)
  }

  lemma DrainedStep(s: seq<byte>, k: nat, handler: Handler)
    ensures Resolve(s) <= 0 ==> Drained(s, k, handler) == Outcome([], s, !Hopeless(s))
    ensures 0 < Resolve(s) ==> Resolve(s) <= |s| && var m, t := s[..Resolve(s)], s[Resolve(s)..];
      Drained(s, k, handler) ==
        if handler(k, m) == Fine then Behind([m], Drained(t, k + 1, handler))
        else Outcome([m], t, handler(k, m) == Pause)
  {
    hide Resolve;
    Deterministic(s, []);
  }

  /** An outcome behind messages handled before. */
  function Behind(msgs: seq<seq<byte>>, o: Outcome): Outcome {
    Outcome(msgs + o.msgs, o.rest, o.open)
  }

  /** A connection after some events: the bytes it read, the messages handled, what is unread, and whether it
      is still open. */
  datatype Served = Served(stream: seq<byte>, msgs: seq<seq<byte>>, rest: seq<byte>, open: bool)

  function After(v: Served, a: Arrival, handler: Handler): Served
    requires |v.rest| <= RPC_CONN_READBUF_SIZE
  {
    if Broken(a, |v.rest|) then v.(open := false)
    else if Postponed(a, |v.rest|) then v
    else
      var got := Delivered(a, |v.rest|);
      var o := Drained(v.rest + got, |v.msgs|, handler);
      Served(v.stream + got, v.msgs + o.msgs, o.rest, o.open)
  }

  function ServedBy(arrivals: seq<Arrival>, handler: Handler): (v: Served)
    ensures |v.rest| <= RPC_CONN_READBUF_SIZE
  {
    if arrivals == [] then Served([], [], [], true)
    else
      var v := ServedBy(arrivals[..|arrivals| - 1], handler);
      if !v.open then v
      else
        DrainedParts(v.rest + Delivered(arrivals[|arrivals| - 1], |v.rest|), |v.msgs|, handler);
        After(v, arrivals[|arrivals| - 1], handler)
  }

  /** Handling takes messages off the front and leaves the others. */
  lemma {:induction false} DrainedParts(s: seq<byte>, k: nat, handler: Handler)
    ensures |Drained(s, k, handler).rest| <= |s|
    ensures var o := Drained(s, k, handler); o.msgs + Messages(o.rest) == Messages(s) && Left(o.rest) == Left(s)
    decreases |s|
  {
    hide Messages, Left, Resolve;
    MessagesStep(s);
    Deterministic(s, []);
    var n, o := Resolve(s), Drained(s, k, handler);
    if 0 < n <= |s| && handler(k, s[..n]) == Fine {
      DrainedParts(s[n..], k + 1, handler);
      Assoc([s[..n]], Drained(s[n..], k + 1, handler).msgs, Messages(o.rest));
    }
  }

  /** With a handler that takes every message, all messages are handled, and the connection stays open exactly
      when what is left may still become a message. */
  lemma {:induction false} DrainedFine(s: seq<byte>, k: nat, handler: Handler)
    requires AlwaysFine(handler)
    ensures Drained(s, k, handler) == Outcome(Messages(s), Left(s), !Hopeless(Left(s)))
    decreases |s|
  {
    hide Messages, Left, Resolve;
    MessagesStep(s);
    Deterministic(s, []);
    var n := Resolve(s);
    if 0 < n <= |s| {
      DrainedFine(s[n..], k + 1, handler);
    }
  }

  /** Whatever the handler answers, the messages handled and those still unread are those of the stream. */
  lemma {:induction false} StreamKept(arrivals: seq<Arrival>, handler: Handler)
    ensures var v := ServedBy(arrivals, handler);
      v.msgs + Messages(v.rest) == Messages(v.stream) && Left(v.rest) == Left(v.stream)
    decreases |arrivals|
  {
    hide Messages, Left, Resolve, Drained;
    if arrivals == [] {
      assert [] + Messages([]) == Messages([]);
    } else {
      var v, a := ServedBy(arrivals[..|arrivals| - 1], handler), arrivals[|arrivals| - 1];
      StreamKept(arrivals[..|arrivals| - 1], handler);
      var got := Delivered(a, |v.rest|);
      MessagesAppend(v.stream, got);
      MessagesAppend(v.rest, got);
      DrainedParts(v.rest + got, |v.msgs|, handler);
      var o := Drained(v.rest + got, |v.msgs|, handler);
      Assoc(v.msgs, Messages(v.rest), Messages(Left(v.rest) + got));
      Assoc(v.msgs, o.msgs, Messages(o.rest));
    }
  }

  /** With a handler that takes every message, what is handled depends on the bytes alone, however they were cut
      into events, reads and compactions. */
  lemma {:induction false} OnlyBytesMatter(arrivals: seq<Arrival>, handler: Handler)
    requires AlwaysFine(handler)
    ensures var v := ServedBy(arrivals, handler); v.msgs == Messages(v.stream) && v.rest == Left(v.stream)
    ensures var v := ServedBy(arrivals, handler); v.open ==> !Hopeless(Left(v.stream))
    decreases |arrivals|
  {
    hide Messages, Left, Resolve, Drained, AlwaysFine;
    if arrivals == [] {
      MessagesStep([]);
      NoBytes();
    } else {
      var v, a := ServedBy(arrivals[..|arrivals| - 1], handler), arrivals[|arrivals| - 1];
      OnlyBytesMatter(arrivals[..|arrivals| - 1], handler);
      var got := Delivered(a, |v.rest|);
      MessagesAppend(v.stream, got);
      DrainedFine(v.rest + got, |v.msgs|, handler);
    }
  }

  lemma NoBytes()
    ensures Resolve([]) == 0
  {}

  /** A connection whose first bytes are no message closes as soon as the first wrong byte is read, in whatever pieces
      it comes, and handles nothing. */
  lemma {:induction false} GarbageCloses(arrivals: seq<Arrival>, blanks: seq<byte>, c: byte, t: seq<byte>,
      handler: Handler)
    requires Blanks(blanks) && c != OPEN && !IsBlank(c)
    requires ServedBy(arrivals, handler).stream <= blanks + [c] + t
    ensures var v := ServedBy(arrivals, handler);
      v.msgs == [] && v.rest == v.stream && (|v.stream| > |blanks| ==> !v.open)
    decreases |arrivals|
  {
    hide Resolve, Drained, Delivered, Broken, Postponed, IsBlank;
    if arrivals != [] {
      var front, a := arrivals[..|arrivals| - 1], arrivals[|arrivals| - 1];
      var u, v := ServedBy(front, handler), ServedBy(arrivals, handler);
      assert u.stream <= v.stream;
      GarbageCloses(front, blanks, c, t, handler);
      if u.open && !Broken(a, |u.rest|) && !Postponed(a, |u.rest|) {
        GarbageFound(v.stream, blanks, c, t);
        DrainedStep(v.stream, 0, handler);
        assert [] + Drained(v.stream, 0, handler).msgs == Drained(v.stream, 0, handler).msgs;
      }
    }
  }

  lemma GarbageFound(s: seq<byte>, blanks: seq<byte>, c: byte, t: seq<byte>)
    requires Blanks(blanks) && c != OPEN && !IsBlank(c) && s <= blanks + [c] + t
    ensures Resolve(s) == if |s| <= |blanks| then 0 else -(|blanks| + 1)
  {
    if |s| <= |blanks| {
      assert Blanks(s) && s + [] == s;
      BlanksScanned(s, [], 0);
    } else {
      var more := s[|blanks| + 1..];
      assert s == blanks + [c] + more;
      GarbageRefused(blanks, c, more);
    }
  }

  /** A read brings as many bytes as there are, but no more than are announced and there is room for. */
  lemma DeliveredMost(a: Arrival, used: nat, k: nat)
    requires used <= RPC_CONN_READBUF_SIZE && a.found.Some? && a.sys > 0
    ensures |Delivered(a, used)| == k <==>
      && k <= |a.found.bytes| && k <= a.sys && used + k <= RPC_CONN_READBUF_SIZE
      && (k == |a.found.bytes| || k == a.sys || used + k == RPC_CONN_READBUF_SIZE)
  {}

  /** The connection closes exactly when the socket breaks or an unfinished message is hopeless. */
  lemma ClosedWhen(arrivals: seq<Arrival>, a: Arrival, handler: Handler)
    requires AlwaysFine(handler) && ServedBy(arrivals, handler).open
    ensures var v := ServedBy(arrivals, handler);
      !ServedBy(arrivals + [a], handler).open <==>
      Broken(a, |v.rest|) || (!Postponed(a, |v.rest|) && Hopeless(Left(v.stream + Delivered(a, |v.rest|))))
  {
    hide Messages, Left, Resolve, Drained, AlwaysFine;
    assert (arrivals + [a])[..|arrivals|] == arrivals;
    var v := ServedBy(arrivals, handler);
    OnlyBytesMatter(arrivals, handler);
    MessagesAppend(v.stream, Delivered(a, |v.rest|));
    DrainedFine(v.rest + Delivered(a, |v.rest|), |v.msgs|, handler);
  }

  /** json_reslove_one on `len` bytes of `buf` from `at` on. */
  method JsonResloveOne(buf: array<byte>, at: nat, len: nat) returns (ret: int)
    requires at + len <= buf.Length
    ensures ret == Resolve(buf[at..at + len])
  {
    ghost var s := buf[at..at + len];
    var begin, quote, slash := false, false, false;
    var depth: nat, p := 0, 0;
    while p < len
      invariant p <= len && Scan(START, s, 0) == Scan(State(begin, quote, slash, depth), s[p..], p)
    {
      assert s[p..] == [s[p]] + s[p + 1..] && buf[at + p] == s[p];
      ghost var was := State(begin, quote, slash, depth);
      ScanStep(was, s, p);
      var c := buf[at + p];
      if c == OPEN {
        begin := true;
        if !quote {
          depth := (depth + 1) % DEPTHS;
          if depth == 0 {
            return -p - 1;
          }
        }
        slash := false;
      } else if c == CLOSE {
        if !begin {
          return -p - 1;
        }
        if !quote {
          depth := (depth + DEPTHS - 1) % DEPTHS;
          if depth <= 0 {
            return p + 1;
          }
        }
      } else if c == BACKSLASH {
        if !begin || !quote {
          return -p - 1;
        }
        slash := true;
      } else if c == QUOTE {
        if !begin {
          return -p - 1;
        }
        if slash {
          slash := false;
        } else {
          quote := !quote;
        }
      } else if !IsBlank(c) {
        if !begin {
          return -p - 1;
        }
        slash := false;
      }
      p := p + 1;
    }
    return 0;
  }

  lemma ScanStep(r: State, s: seq<byte>, p: nat)
    requires p < |s|
    ensures Scan(r, s[p..], p) == match Step(r, s[p])
      case Go(m) => Scan(m, s[p + 1..], p + 1)
      case Done => p + 1
      case Bad => -(p + 1)
  {}

  /** The read buffer of an RPC connection: `used` bytes from `pos` on. */
  class RpcConn {
    const buf: array<byte>
    var pos: nat
    var used: nat

    ghost predicate Valid()
      reads this
    {
      buf.Length == RPC_CONN_READBUF_SIZE && pos + used <= buf.Length
    }

    ghost function Content(): seq<byte>
      requires Valid()
      reads this, buf
    {
      buf[pos..pos + used]
    }

    /** rwbuf_init */
    constructor ()
      ensures Valid() && Content() == [] && fresh(buf)
    {
      buf := new byte[RPC_CONN_READBUF_SIZE];
      pos, used := 0, 0;
    }

    /** The move of the unread bytes to the front. */
    method Compact()
      requires Valid()
      modifies this`pos, buf
      ensures Valid() && pos == 0 && used == old(used) && Content() == old(Content())
    {
      if pos != 0 && used != 0 {
        ShiftToFront(buf, pos, used);
      }
      pos := 0;
    }

    /** readfd_common: compacts, then fills what is free. */
    method ReadfdCommon(a: Arrival) returns (ret: Ret, readn: nat)
      requires Valid()
      modifies this, buf
      ensures Valid() && Content() == old(Content()) + Delivered(a, old(used)) && readn == |Delivered(a, old(used))|
      ensures ret in {FDRW_OK, FDRW_MOR, FDRW_AGN, FDRW_CLS, FDRW_PCK}
      ensures ret == FDRW_CLS || ret == FDRW_PCK <==> Broken(a, old(used))
      ensures ret == FDRW_AGN <==> Postponed(a, old(used))
      ensures ret == FDRW_MOR ==> a.sys > RPC_CONN_READBUF_SIZE - old(used)
    {
      readn := 0;
      assert Content() + [] == Content();
      if a.sys < 0 {
        return FDRW_PCK, 0;
      }
      if a.sys == 0 {
        return FDRW_CLS, 0;
      }
      Compact();
      var isreadall, toread := true, a.sys;
      var bufleft := buf.Length - used;
      if bufleft == 0 {
        return FDRW_MOR, 0;
      }
      if bufleft < toread {
        toread, isreadall := bufleft, false;
      }
      match a.found {
        case ReadAgain => return FDRW_AGN, 0;
        case ReadFailed => return FDRW_PCK, 0;
        case Some(bytes) =>
          var n := Min(toread, |bytes|);
          if n == 0 {
            return FDRW_CLS, 0;
          }
          Store(bytes[..n]);
          return if isreadall then FDRW_OK else FDRW_MOR, n;
      }
    }

    /** What `read` stores behind the bytes that are there. */
    method Store(bytes: seq<byte>)
      requires Valid() && pos == 0 && used + |bytes| <= buf.Length
      modifies this`used, buf
      ensures Valid() && used == old(used) + |bytes| && Content() == old(Content()) + bytes
    {
      ghost var had := Content();
      forall k | 0 <= k < |bytes| {
        buf[used + k] := bytes[k];
      }
      assert buf[..used] == had;
      assert buf[used..used + |bytes|] == bytes;
      assert buf[..used + |bytes|] == buf[..used] + buf[used..used + |bytes|];
      used := used + |bytes|;
      assert buf[0..used] == buf[..used];
    }

    /** rpc_msg_reslove: the first message leaves the buffer, or what is there is no message yet, or is wrong. */
    method RpcMsgReslove() returns (ret: Ret, msg: seq<byte>)
      requires Valid()
      modifies this
      ensures Valid()
      ensures var s := old(Content());
        Resolve(s) > 0 ==>
          && Resolve(s) <= |s| && msg == s[..Resolve(s)] && Content() == s[Resolve(s)..]
          && ret == (if Content() == [] then FDRW_OK else FDRW_MOR)
      ensures var s := old(Content());
        Resolve(s) <= 0 ==>
          Content() == s && ret == (if Resolve(s) < 0 || |s| >= RPC_CONN_READBUF_SIZE then FDRW_PCK else FDRW_NOM)
    {
      hide Resolve;
      msg := [];
      ghost var s := Content();
      Deterministic(s, []);
      if used == 0 {
        NoBytes();
        return FDRW_NOM, [];
      }
      var len := JsonResloveOne(buf, pos, used);
      if len < 0 {
        return FDRW_PCK, [];
      }
      if len == 0 {
        return if used >= RPC_CONN_READBUF_SIZE then FDRW_PCK else FDRW_NOM, [];
      }
      msg := buf[pos..pos + len];
      SubSlice(buf, pos, pos + used, 0, len);
      SubSlice(buf, pos, pos + used, len, used - len);
      assert s[0..len] == s[..len] && s[len..used] == s[len..];
      pos := pos + len;
      used := used - len;
      return if used > 0 then FDRW_MOR else FDRW_OK, msg;
    }

    /** The drain loop of rpc_handle_read; `k` messages were handled before. */
    method Drain(k: nat, handler: Handler) returns (ret: Ret, msgs: seq<seq<byte>>)
      requires Valid()
      modifies this
      ensures Valid() && (ret == FDRW_OK || ret == FDRW_OTH)
      ensures Outcome(msgs, Content(), ret == FDRW_OK) == old(Drained(Content(), k, handler))
    {
      hide Messages, Left, Resolve, Drained;
      msgs := [];
      ghost var all := Drained(Content(), k, handler);
      assert [] + all.msgs == all.msgs;
      while true
        invariant Valid() && all == Behind(msgs, Drained(Content(), k + |msgs|, handler))
        decreases |Content()|
      {
        ghost var s := Content();
        DrainedStep(s, k + |msgs|, handler);
        var r, msg := RpcMsgReslove();
        if r == FDRW_NOM {
          assert msgs + [] == msgs;
          return FDRW_OK, msgs;
        }
        if r != FDRW_OK && r != FDRW_MOR {
          assert msgs + [] == msgs;
          return FDRW_OTH, msgs;
        }
        var answer := handler(k + |msgs|, msg);
        BehindTwice(msgs, msg, Drained(Content(), k + |msgs| + 1, handler));
        msgs := msgs + [msg];
        if answer == Pause {
          return FDRW_OK, msgs;
        }
        if answer == Refused {
          return FDRW_OTH, msgs;
        }
      }
    }

    /** rpc_handle_read */
    method RpcHandleRead(a: Arrival, ghost v: Served, k: nat, handler: Handler)
      returns (ret: Ret, got: seq<byte>, msgs: seq<seq<byte>>)
      requires Valid() && v.rest == Content() && |v.msgs| == k && v.open
      modifies this, buf
      ensures Valid() && (ret == FDRW_OK || ret == FDRW_OTH)
      ensures Served(v.stream + got, v.msgs + msgs, Content(), ret == FDRW_OK) == After(v, a, handler)
    {
      hide Messages, Left, Resolve, Drained;
      msgs, got := [], [];
      assert v.stream + [] == v.stream && v.msgs + [] == v.msgs && v.rest + [] == v.rest;
      var r, n := ReadfdCommon(a);
      if n > 0 {
        got := a.found.bytes[..n];
      }
      if r == FDRW_AGN {
        return FDRW_OK, got, msgs;
      }
      if r != FDRW_OK && r != FDRW_MOR {
        return FDRW_OTH, got, msgs;
      }
      ret, msgs := Drain(k, handler);
    }
  }

  lemma BehindTwice(msgs: seq<seq<byte>>, msg: seq<byte>, o: Outcome)
    ensures Behind(msgs, Behind([msg], o)) == Behind(msgs + [msg], o)
    ensures msgs + [msg] == (msgs + [msg]) + []
  {
    Assoc(msgs, [msg], o.msgs);
  }

  /** Over any events, what a connection reads, handles, keeps and whether it closes is what the reference says. */
  method Serve(arrivals: seq<Arrival>, handler: Handler)
    returns (c: RpcConn, stream: seq<byte>, msgs: seq<seq<byte>>, closed: bool)
    ensures fresh(c) && c.Valid()
    ensures Served(stream, msgs, c.Content(), !closed) == ServedBy(arrivals, handler)
  {
    hide Messages, Left, Resolve, Drained, After;
    c := new RpcConn();
    stream, msgs, closed := [], [], false;
    for i := 0 to |arrivals|
      invariant fresh(c) && fresh(c.buf) && c.Valid()
      invariant Served(stream, msgs, c.Content(), !closed) == ServedBy(arrivals[..i], handler)
    {
      ghost var v := ServedBy(arrivals[..i], handler);
      assert arrivals[..i + 1][..i] == arrivals[..i];
      if !closed {
        var ret, got, some := c.RpcHandleRead(arrivals[i], v, |msgs|, handler);
        stream, msgs := stream + got, msgs + some;
        closed := ret != FDRW_OK;
      }
    }
    assert arrivals[..|arrivals|] == arrivals;
  }
}
