/** The RFC 5424 framer (rfc5424/delimiter.go): a state machine that recognises a header
    `<` digits `>` digit SP and cuts the stream in front of it. */
module Rfc5424Delimiter {
  import opened Bytes
  import opened Sequences

  datatype Fsm = Newline | PriStart | PriEnd | PriVal0 | PriVal1 | PriVal2 | PriVal3 | Version | PostVersion

  datatype State = State(buf: Text, priLen: nat, fsm: Fsm)

  const INITIAL := State([], 0, Newline)

  const LINE_ENDS := {CR, LF}

  function Trim(s: Text): Text {
    TrimRight(s, LINE_ENDS)
  }

  lemma LinesHaveNoEnds(s: Text)
    ensures WithoutLineEnds(s, Trim(s))
  {
    TrimsLineEnds(s);
  }

  // ----- One byte -----

  /** A byte that completes a header. */
  predicate Matches(st: State, b: Byte) {
    st.fsm == PostVersion && b == SPACE
  }

  /** The state after any other byte. From PriVal1 to PriVal3 a byte that is neither a digit nor `>` is
      kept without leaving the state. */
  function Advance(st: State, b: Byte): State {
    var buf := st.buf + [b];
    match st.fsm
    case Newline => State(buf, st.priLen, if b == LF then PriStart else Newline)
    case PriStart => State(buf, st.priLen, if b == LT then PriVal0 else PriStart)
    case PriVal0 => if IsDigit(b) then State(buf, 1, PriVal1) else State(buf, st.priLen, PriStart)
    case PriVal1 =>
      if IsDigit(b) then State(buf, 2, PriVal2) else State(buf, st.priLen, if b == GT then Version else PriVal1)
    case PriVal2 =>
      if IsDigit(b) then State(buf, 3, PriVal3) else State(buf, st.priLen, if b == GT then Version else PriVal2)
    case PriVal3 =>
      if IsDigit(b) then State(buf, 4, PriEnd) else State(buf, st.priLen, if b == GT then Version else PriVal3)
    case PriEnd => State(buf, st.priLen, if b == GT then Version else PriStart)
    case Version => State(buf, st.priLen, if IsDigit(b) then PostVersion else PriStart)
    case PostVersion => State(buf, st.priLen, PriStart)
  }

  /** What the buffer must hold in each state for the header to be cut off it. */
  predicate Safe(st: State) {
    match st.fsm
    case Newline => true
    case PriStart => true
    case PriVal0 => |st.buf| >= 1
    case PriVal1 => st.priLen == 1 && |st.buf| >= 2
    case PriVal2 => st.priLen == 2 && |st.buf| >= 3
    case PriVal3 => st.priLen == 3 && |st.buf| >= 4
    case PriEnd => st.priLen == 4 && |st.buf| >= 5
    case Version => 1 <= st.priLen <= 4 && |st.buf| >= st.priLen + 2
    case PostVersion => 1 <= st.priLen <= 4 && |st.buf| >= st.priLen + 3
  }

  lemma AdvanceKeepsSafe(st: State, b: Byte)
    requires Safe(st)
    ensures Safe(Advance(st, b))
  {
  }

  /** Where the buffer is cut when `b` completes a header; by Safe it is never negative. */
  function CutAt(st: State, b: Byte): int {
    |st.buf + [b]| - st.priLen - 4
  }

  // ----- Whole streams -----

  /** The untrimmed lines cut off while reading `s`, and the state at its end. */
  function Run(st: State, s: Text): (r: (seq<Text>, State))
    requires Safe(st)
    ensures Safe(r.1)
    decreases |s|
  {
    if s == [] then ([], st)
    else if Matches(st, s[0]) then
      var buf, k := st.buf + [s[0]], CutAt(st, s[0]);
      var (cuts, end) := Run(State(buf[k..], 0, PriStart), s[1..]);
      ([buf[..k]] + cuts, end)
    else
      AdvanceKeepsSafe(st, s[0]);
      Run(Advance(st, s[0]), s[1..])
  }

  /** The lines returned by reading up to the end of the stream; the last one comes with EOF. */
  function Lines(st: State, s: Text): seq<Text>
    requires Safe(st)
    decreases |s|
  {
    if s == [] then [Trim(st.buf)]
    else if Matches(st, s[0]) then
      var buf, k := st.buf + [s[0]], CutAt(st, s[0]);
      [Trim(buf[..k])] + Lines(State(buf[k..], 0, PriStart), s[1..])
    else
      AdvanceKeepsSafe(st, s[0]);
      Lines(Advance(st, s[0]), s[1..])
  }

  /** The state and the line, if any, that one byte leads to. */
  function After(st: State, b: Byte): (r: (State, seq<Text>))
    requires Safe(st)
    ensures Safe(r.0)
  {
    if Matches(st, b) then
      var buf, k := st.buf + [b], CutAt(st, b);
      (State(buf[k..], 0, PriStart), [Trim(buf[..k])])
    else
      AdvanceKeepsSafe(st, b);
      (Advance(st, b), [])
  }

  lemma LinesStep(st: State, s: Text, pos: nat)
    requires Safe(st) && pos < |s|
    ensures Lines(st, s[pos..]) == After(st, s[pos]).1 + Lines(After(st, s[pos]).0, s[pos + 1..])
  {
    var b := s[pos];
    assert s[pos..][0] == b && s[pos..][1..] == s[pos + 1..];
    if !Matches(st, b) {
      NilAppend(Lines(After(st, b).0, s[pos + 1..]));
    }
  }

  function TrimAll(ms: seq<Text>): seq<Text> {
    seq(|ms|, i requires 0 <= i < |ms| => Trim(ms[i]))
  }

  lemma {:induction false} LinesAreTrimmedCuts(st: State, s: Text)
    requires Safe(st)
    ensures var (cuts, end) := Run(st, s); Lines(st, s) == TrimAll(cuts + [end.buf])
    decreases |s|
  {
    if s == [] {
    } else if Matches(st, s[0]) {
      var buf, k := st.buf + [s[0]], CutAt(st, s[0]);
      LinesAreTrimmedCuts(State(buf[k..], 0, PriStart), s[1..]);
      var (cuts, end) := Run(State(buf[k..], 0, PriStart), s[1..]);
      TrimAllCons(buf[..k], cuts + [end.buf]);
      Associative([buf[..k]], cuts, [end.buf]);
    } else {
      LinesAreTrimmedCuts(Advance(st, s[0]), s[1..]);
    }
  }

  lemma TrimAllCons(m: Text, ms: seq<Text>)
    ensures TrimAll([m] + ms) == [Trim(m)] + TrimAll(ms)
  {
  }

  /** Conservation, on every stream and also a malformed one: the untrimmed lines and the buffer are together
      exactly the bytes read. */
  lemma {:induction false} NothingLost(st: State, s: Text)
    requires Safe(st)
    ensures var (cuts, end) := Run(st, s); Flatten(cuts) + end.buf == st.buf + s
    decreases |s|
  {
    if s == [] {
      assert st.buf + s == st.buf;
    } else {
      HeadTail(s);
      Associative(st.buf, [s[0]], s[1..]);
      if Matches(st, s[0]) {
        CutConserves(st, s);
      } else {
        NothingLost(Advance(st, s[0]), s[1..]);
      }
    }
  }

  lemma {:induction false} CutConserves(st: State, s: Text)
    requires Safe(st) && s != [] && Matches(st, s[0])
    ensures var (cuts, end) := Run(st, s); Flatten(cuts) + end.buf == st.buf + [s[0]] + s[1..]
    decreases |s|, 0
  {
    var buf, k := st.buf + [s[0]], CutAt(st, s[0]);
    var next := State(buf[k..], 0, PriStart);
    NothingLost(next, s[1..]);
    var (cuts, end) := Run(next, s[1..]);
    FlattenCons(buf[..k], cuts);
    Associative(buf[..k], Flatten(cuts), end.buf);
    Associative(buf[..k], buf[k..], s[1..]);
    assert buf == buf[..k] + buf[k..];
  }

  /** After every stream the machine is in a state from which the next line can be cut off safely, and the cut leaves as
      many bytes in the buffer as a header with priLen digits has. */
  lemma CutIsInRange(s: Text, b: Byte)
    requires Matches(Run(INITIAL, s).1, b)
    ensures var st := Run(INITIAL, s).1;
            0 <= CutAt(st, b) <= |st.buf + [b]| && |(st.buf + [b])[CutAt(st, b)..]| == st.priLen + 4
  {
    assert Safe(Run(INITIAL, s).1);
  }

  // ----- When lines begin with a header -----

  /** `<`, 1 to 4 digits, `>`, a version digit and a space. The machine takes a fourth digit, which a PRI part
      does not have. */
  ghost predicate IsHeader(h: Text) {
    exists ds: Text, v: Byte :: h == HeaderOf(ds, v) && 1 <= |ds| <= 4 && AllDigits(ds) && IsDigit(v)
  }

  function HeaderOf(ds: Text, v: Byte): Text {
    [LT] + ds + [GT, v, SPACE]
  }

  ghost predicate BeginsWithHeader(line: Text) {
    exists h :: IsHeader(h) && h <= line
  }

  /** What the machine takes for the PRI part: the bytes since the `<` that it is following, up to `>`. */
  function NextPri(fsm: Fsm, pri: Text, b: Byte): Text {
    match fsm
    case Newline => []
    case PriStart => []
    case PriVal0 => [b]
    case PriEnd => pri
    case Version => pri
    case PostVersion => pri
    case _ => if b == GT then pri else pri + [b]
  }

  /** Whatever the machine takes for the PRI part of a header, while reading `s`, consists of digits. */
  predicate CleanPris(st: State, pri: Text, s: Text)
    requires Safe(st)
    decreases |s|
  {
    if s == [] then true
    else if Matches(st, s[0]) then
      AllDigits(pri) && CleanPris(State((st.buf + [s[0]])[CutAt(st, s[0])..], 0, PriStart), [], s[1..])
    else
      AdvanceKeepsSafe(st, s[0]);
      CleanPris(Advance(st, s[0]), NextPri(st.fsm, pri, s[0]), s[1..])
  }

  function DigitCount(s: Text): nat {
    if s == [] then 0 else (if IsDigit(s[0]) then 1 else 0) + DigitCount(s[1..])
  }

  lemma {:induction false} DigitCountAppend(a: Text, b: Text)
    ensures DigitCount(a + b) == DigitCount(a) + DigitCount(b)
    decreases |a|
  {
    if a == [] {
      assert a + b == b;
    } else {
      assert (a + b)[0] == a[0] && (a + b)[1..] == a[1..] + b;
      DigitCountAppend(a[1..], b);
    }
  }

  lemma {:induction false} DigitCountAll(s: Text)
    ensures DigitCount(s) <= |s| && (DigitCount(s) == |s| <==> AllDigits(s))
    decreases |s|
  {
    if s != [] { DigitCountAll(s[1..]); }
  }

  /** A PRI part as the machine takes it: it starts with a digit and has no `>`. */
  predicate PriShaped(pri: Text, digits: nat) {
    pri != [] && IsDigit(pri[0]) && GT !in pri && DigitCount(pri) == digits
  }

  /** What the buffer ends with, in each state; `base` is in front of it. */
  ghost predicate Follows(st: State, base: Text, pri: Text) {
    match st.fsm
    case Newline => base <= st.buf
    case PriStart => base <= st.buf
    case PriVal0 => EndsIn(st.buf, base, [LT])
    case Version => PriShaped(pri, st.priLen) && EndsIn(st.buf, base, [LT] + pri + [GT])
    case PostVersion =>
      PriShaped(pri, st.priLen) && exists v :: IsDigit(v) && EndsIn(st.buf, base, [LT] + pri + [GT] + [v])
    case _ => PriShaped(pri, st.priLen) && EndsIn(st.buf, base, [LT] + pri)
  }

  ghost predicate EndsIn(s: Text, base: Text, tail: Text) {
    exists mid :: s == base + mid + tail
  }

  lemma EndsInNext(s: Text, base: Text, tail: Text, b: Byte)
    requires EndsIn(s, base, tail)
    ensures EndsIn(s + [b], base, tail + [b]) && base <= s + [b]
  {
    var mid :| s == base + mid + tail;
    assert s + [b] == base + mid + (tail + [b]);
  }

  lemma StartsHere(s: Text, base: Text, b: Byte)
    requires base <= s
    ensures EndsIn(s + [b], base, [b])
  {
    assert s + [b] == base + s[|base|..] + [b];
  }

  lemma OneByteCount(b: Byte)
    ensures DigitCount([b]) == if IsDigit(b) then 1 else 0
  {
    assert [b][1..] == [];
  }

  lemma PriGrows(pri: Text, digits: nat, b: Byte)
    requires PriShaped(pri, digits) && b != GT
    ensures PriShaped(pri + [b], if IsDigit(b) then digits + 1 else digits)
  {
    DigitCountAppend(pri, [b]);
    OneByteCount(b);
  }

  lemma AdvanceFollows(st: State, base: Text, pri: Text, b: Byte)
    requires Safe(st) && Follows(st, base, pri) && !Matches(st, b)
    ensures Follows(Advance(st, b), base, NextPri(st.fsm, pri, b))
  {
    match st.fsm
    case Newline =>
    case PriStart => StartsHere(st.buf, base, b);
    case PriVal0 =>
      EndsInNext(st.buf, base, [LT], b);
      OneByteCount(b);
    case PriEnd => EndsInNext(st.buf, base, [LT] + pri, b);
    case Version => EndsInNext(st.buf, base, [LT] + pri + [GT], b);
    case PostVersion =>
      var v :| IsDigit(v) && EndsIn(st.buf, base, [LT] + pri + [GT] + [v]);
      EndsInNext(st.buf, base, [LT] + pri + [GT] + [v], b);
    case _ => PriByteFollows(st, base, pri, b);
  }

  lemma PriByteFollows(st: State, base: Text, pri: Text, b: Byte)
    requires Safe(st) && Follows(st, base, pri) && st.fsm in {PriVal1, PriVal2, PriVal3}
    ensures Follows(Advance(st, b), base, NextPri(st.fsm, pri, b))
  {
    EndsInNext(st.buf, base, [LT] + pri, b);
    if b != GT {
      PriGrows(pri, st.priLen, b);
      Associative([LT], pri, [b]);
    }
  }

  /** The bytes kept of a header in progress: as many as it should have. */
  function KeptOf(pri: Text, digits: nat, v: Byte): Text
    requires digits <= |pri|
  {
    ([LT] + pri)[|pri| - digits..] + [GT, v, SPACE]
  }

  lemma CutKeeps(st: State, base: Text, pri: Text) returns (v: Byte)
    requires Safe(st) && Follows(st, base, pri) && st.fsm == PostVersion
    ensures IsDigit(v) && DigitCount(pri) <= |pri|
    ensures var buf, k := st.buf + [SPACE], CutAt(st, SPACE);
            base <= buf[..k] && buf[k..] == KeptOf(pri, st.priLen, v)
  {
    v :| IsDigit(v) && EndsIn(st.buf, base, [LT] + pri + [GT] + [v]);
    var mid :| st.buf == base + mid + ([LT] + pri + [GT] + [v]);
    DigitCountAll(pri);
    SplitOpening(base + mid, [LT] + pri, |pri| - st.priLen, v);
  }

  lemma SplitOpening(before: Text, open: Text, d: nat, v: Byte)
    requires d <= |open|
    ensures var buf, k := before + (open + [GT] + [v]) + [SPACE], |before| + d;
            buf[..k] == before + open[..d] && buf[k..] == open[d..] + [GT, v, SPACE]
  {
    var buf, k := before + (open + [GT] + [v]) + [SPACE], |before| + d;
    assert open == open[..d] + open[d..];
    assert buf == before + open[..d] + (open[d..] + [GT, v, SPACE]);
  }

  /** What is kept is a header exactly if the PRI part consists of digits; otherwise no line that it starts begins
      with a header. */
  lemma KeptIsHeaderIff(pri: Text, digits: nat, v: Byte, line: Text)
    requires PriShaped(pri, digits) && 1 <= digits <= 4 && IsDigit(v)
    requires digits <= |pri| && KeptOf(pri, digits, v) <= line
    ensures BeginsWithHeader(line) <==> AllDigits(pri)
  {
    DigitCountAll(pri);
    var kept := KeptOf(pri, digits, v);
    if AllDigits(pri) {
      assert kept == HeaderOf(pri, v);
      assert IsHeader(kept);
    } else if BeginsWithHeader(line) {
      var h :| IsHeader(h) && h <= line;
      var ds: Text, v': Byte :| h == HeaderOf(ds, v') && 1 <= |ds| <= 4 && AllDigits(ds) && IsDigit(v');
      OnlyOneGt(pri, digits, v, line, ds, v');
      MoreDigits(pri[..|pri| - digits], ds);
      assert false;
    }
  }

  /** The only `>` of the bytes kept is where it should be, so a header can only be all of them. */
  lemma OnlyOneGt(pri: Text, digits: nat, v: Byte, line: Text, ds: Text, v': Byte)
    requires PriShaped(pri, digits) && 1 <= digits < |pri| && KeptOf(pri, digits, v) <= line
    requires AllDigits(ds) && HeaderOf(ds, v') <= line
    ensures |ds| == digits && pri == pri[..|pri| - digits] + ds
  {
    var tail := pri[|pri| - digits - 1..];
    var kept, h := KeptOf(pri, digits, v), HeaderOf(ds, v');
    assert kept == tail + [GT, v, SPACE];
    assert kept[digits + 1] == GT && forall i | 0 <= i <= digits :: kept[i] == tail[i] != GT;
    assert h[|ds| + 1] == GT && forall i | 0 <= i <= |ds| :: h[i] != GT;
    assert line[digits + 1] == kept[digits + 1] && line[|ds| + 1] == h[|ds| + 1];
    assert |ds| == digits;
    assert forall i | 0 <= i <= digits :: tail[i] == line[i] == h[i];
    assert forall i | 0 <= i < digits :: ds[i] == h[i + 1] == pri[|pri| - digits + i];
  }

  lemma MoreDigits(front: Text, ds: Text)
    requires front != [] && IsDigit(front[0]) && AllDigits(ds)
    ensures DigitCount(front + ds) > |ds|
  {
    DigitCountAppend(front, ds);
    DigitCountAll(ds);
  }

  function Uncut(st: State, s: Text): seq<Text>
    requires Safe(st)
  {
    Run(st, s).0 + [Run(st, s).1.buf]
  }

  lemma UncutStep(st: State, s: Text)
    requires Safe(st) && s != []
    ensures if Matches(st, s[0]) then
              var buf, k := st.buf + [s[0]], CutAt(st, s[0]);
              Uncut(st, s) == [buf[..k]] + Uncut(State(buf[k..], 0, PriStart), s[1..])
            else Safe(Advance(st, s[0])) && Uncut(st, s) == Uncut(Advance(st, s[0]), s[1..])
  {
    if Matches(st, s[0]) {
      var buf, k := st.buf + [s[0]], CutAt(st, s[0]);
      var (cuts, end) := Run(State(buf[k..], 0, PriStart), s[1..]);
      Associative([buf[..k]], cuts, [end.buf]);
    } else {
      AdvanceKeepsSafe(st, s[0]);
    }
  }

  ghost predicate HeadersFollow(lines: seq<Text>) {
    forall i | 1 <= i < |lines| :: BeginsWithHeader(lines[i])
  }

  lemma {:induction false} UncutHeadersIff(st: State, base: Text, pri: Text, s: Text)
    requires Safe(st) && Follows(st, base, pri)
    ensures base <= Uncut(st, s)[0] && (HeadersFollow(Uncut(st, s)) <==> CleanPris(st, pri, s))
    decreases |s|
  {
    if s == [] {
      FollowsBase(st, base, pri);
    } else if Matches(st, s[0]) {
      var buf, k := st.buf + [s[0]], CutAt(st, s[0]);
      var next := State(buf[k..], 0, PriStart);
      var v := CutKeeps(st, base, pri);
      UncutHeadersIff(next, buf[k..], [], s[1..]);
      KeptIsHeaderIff(pri, st.priLen, v, Uncut(next, s[1..])[0]);
      UncutStep(st, s);
      OneLineMore(buf[..k], Uncut(next, s[1..]));
    } else {
      UncutStep(st, s);
      AdvanceFollows(st, base, pri, s[0]);
      UncutHeadersIff(Advance(st, s[0]), base, NextPri(st.fsm, pri, s[0]), s[1..]);
    }
  }

  lemma FollowsBase(st: State, base: Text, pri: Text)
    requires Follows(st, base, pri)
    ensures base <= st.buf
  {
  }

  lemma OneLineMore(line: Text, lines: seq<Text>)
    requires lines != []
    ensures HeadersFollow([line] + lines) <==> BeginsWithHeader(lines[0]) && HeadersFollow(lines)
  {
    var all := [line] + lines;
    assert forall i | 1 <= i < |all| :: all[i] == lines[i - 1];
    if HeadersFollow(all) {
      assert BeginsWithHeader(all[1]);
      assert forall i | 1 <= i < |lines| :: lines[i] == all[i + 1];
    }
  }

  /** Trimming line ends takes nothing off a header. */
  lemma TrimKeepsHeader(line: Text)
    ensures BeginsWithHeader(Trim(line)) <==> BeginsWithHeader(line)
  {
    if BeginsWithHeader(line) {
      var h :| IsHeader(h) && h <= line;
      assert h[|h| - 1] == SPACE && line[|h| - 1] == SPACE;
      assert h <= Trim(line);
    }
    if BeginsWithHeader(Trim(line)) {
      var h :| IsHeader(h) && h <= Trim(line);
      assert h <= line;
    }
  }

  /** On every stream, all lines after the first begin with a header if and only if everything the machine takes for
      a PRI part consists of digits. */
  lemma LinesBeginWithHeaderIff(s: Text)
    ensures HeadersFollow(Lines(INITIAL, s)) <==> CleanPris(INITIAL, [], s)
  {
    var lines := Uncut(INITIAL, s);
    UncutHeadersIff(INITIAL, [], [], s);
    LinesAreTrimmedCuts(INITIAL, s);
    forall i | 0 <= i < |lines| ensures BeginsWithHeader(Trim(lines[i])) <==> BeginsWithHeader(lines[i]) {
      TrimKeepsHeader(lines[i]);
    }
    assert forall i | 0 <= i < |lines| :: Lines(INITIAL, s)[i] == Trim(lines[i]);
    assert HeadersFollow(Lines(INITIAL, s)) <==> HeadersFollow(lines);
  }

  /** On every stream, every line begins with a header if and only if the stream does and everything the machine takes
      for a PRI part consists of digits. */
  lemma EveryLineBeginsWithHeaderIff(s: Text)
    ensures (forall i | 0 <= i < |Lines(INITIAL, s)| :: BeginsWithHeader(Lines(INITIAL, s)[i])) <==>
            BeginsWithHeader(s) && CleanPris(INITIAL, [], s)
  {
    var lines := Lines(INITIAL, s);
    LinesBeginWithHeaderIff(s);
    FirstLineBeginsWithHeaderIff(s);
    if HeadersFollow(lines) && BeginsWithHeader(lines[0]) {
      forall i | 0 <= i < |lines| ensures BeginsWithHeader(lines[i]) {}
    }
  }

  lemma FirstLineBeginsWithHeaderIff(s: Text)
    ensures Lines(INITIAL, s) != [] && (BeginsWithHeader(Lines(INITIAL, s)[0]) <==> BeginsWithHeader(s))
  {
    LinesAreTrimmedCuts(INITIAL, s);
    TrimKeepsHeader(Uncut(INITIAL, s)[0]);
    UncutIsPrefix(INITIAL, s);
    NilAppend(s);
    HeaderOfPrefix(Uncut(INITIAL, s)[0], s);
    if BeginsWithHeader(s) { HeaderStays(s); }
  }

  lemma HeaderOfPrefix(a: Text, s: Text)
    requires a <= s
    ensures BeginsWithHeader(a) ==> BeginsWithHeader(s)
  {
    if BeginsWithHeader(a) {
      var h :| IsHeader(h) && h <= a;
      assert h <= s;
    }
  }

  /** The untrimmed lines are the stream, so the first is its beginning. */
  lemma UncutIsPrefix(st: State, s: Text)
    requires Safe(st)
    ensures Uncut(st, s)[0] <= st.buf + s
    ensures |Uncut(st, s)| > 1 ==> Uncut(st, s)[0] + Uncut(st, s)[1] <= st.buf + s
  {
    var lines := Uncut(st, s);
    NothingLost(st, s);
    FlattenSnoc(Run(st, s).0, Run(st, s).1.buf);
    HeadTail(lines);
    FlattenCons(lines[0], lines[1..]);
    if |lines| > 1 {
      var more := lines[1..];
      HeadTail(more);
      FlattenCons(more[0], more[1..]);
      Associative(lines[0], more[0], Flatten(more[1..]));
    }
  }

  /** A header at the beginning of the stream stays at the beginning of the first line. */
  lemma HeaderStays(s: Text)
    requires BeginsWithHeader(s)
    ensures BeginsWithHeader(Uncut(INITIAL, s)[0])
  {
    var h :| IsHeader(h) && h <= s;
    var rest, st := s[|h|..], State(h, 0, Newline);
    assert s == h + rest;
    HeaderHasNoNewline(h);
    BeforeNewline(INITIAL, h);
    NilAppend(h);
    UncutAppend(INITIAL, h, rest);
    NilAppend(Uncut(st, rest));
    UncutHeadersIff(st, h, [], rest);
  }

  lemma HeaderHasNoNewline(h: Text)
    requires IsHeader(h)
    ensures LF !in h
  {
    var ds: Text, v: Byte :| h == HeaderOf(ds, v) && AllDigits(ds) && IsDigit(v);
  }

  lemma CleanStep(st: State, pri: Text, b: Byte, rest: Text)
    requires Safe(st) && !Matches(st, b)
    ensures Safe(Advance(st, b))
    ensures CleanPris(st, pri, [b] + rest) == CleanPris(Advance(st, b), NextPri(st.fsm, pri, b), rest)
  {
    AdvanceKeepsSafe(st, b);
    assert ([b] + rest)[0] == b && ([b] + rest)[1..] == rest;
  }

  /** A byte of junk after the digit is enough: `<`, the digit, the junk, `>`, a version and a space are taken for a
      header, and a line that comes after it does not begin with one. */
  lemma JunkInPri(d: Byte, junk: Byte, v: Byte, rest: Text)
    requires IsDigit(d) && IsDigit(v) && !IsDigit(junk) && junk != GT
    ensures !HeadersFollow(Lines(INITIAL, [LF] + ([LT] + ([d] + ([junk] + ([GT] + ([v] + ([SPACE] + rest))))))))
  {
    var t6 := [SPACE] + rest;
    var t5 := [v] + t6;
    var t4 := [GT] + t5;
    var t3 := [junk] + t4;
    var t2 := [d] + t3;
    var t1 := [LT] + t2;
    CleanStep(INITIAL, [], LF, t1);
    var s1 := Advance(INITIAL, LF);
    CleanStep(s1, [], LT, t2);
    var s2 := Advance(s1, LT);
    CleanStep(s2, [], d, t3);
    var s3 := Advance(s2, d);
    CleanStep(s3, [d], junk, t4);
    var s4 := Advance(s3, junk);
    var pri := [d] + [junk];
    CleanStep(s4, pri, GT, t5);
    var s5 := Advance(s4, GT);
    CleanStep(s5, pri, v, t6);
    var s6 := Advance(s5, v);
    assert !AllDigits(pri) by { assert !IsDigit(pri[1]); }
    assert Matches(s6, t6[0]) && !CleanPris(s6, pri, t6);
    LinesBeginWithHeaderIff([LF] + t1);
  }

  // ----- Reading a stream in parts -----

  lemma {:induction false} RunAppend(st: State, a: Text, b: Text)
    requires Safe(st)
    ensures var (cuts, mid) := Run(st, a); Run(st, a + b) == (cuts + Run(mid, b).0, Run(mid, b).1)
    decreases |a|
  {
    if a == [] {
      assert a + b == b;
      NilAppend(Run(st, b).0);
    } else {
      assert (a + b)[0] == a[0] && (a + b)[1..] == a[1..] + b;
      if Matches(st, a[0]) {
        var buf, k := st.buf + [a[0]], CutAt(st, a[0]);
        var next := State(buf[k..], 0, PriStart);
        RunAppend(next, a[1..], b);
        Associative([buf[..k]], Run(next, a[1..]).0, Run(Run(next, a[1..]).1, b).0);
      } else {
        AdvanceKeepsSafe(st, a[0]);
        RunAppend(Advance(st, a[0]), a[1..], b);
      }
    }
  }

  lemma UncutAppend(st: State, a: Text, b: Text)
    requires Safe(st)
    ensures Uncut(st, a + b) == Run(st, a).0 + Uncut(Run(st, a).1, b)
  {
    RunAppend(st, a, b);
    var (cuts, mid) := Run(st, a);
    Associative(cuts, Run(mid, b).0, [Run(mid, b).1.buf]);
  }

  /** Reading `a` without completing a header, and then `b`. */
  lemma RunThen(st: State, a: Text, mid: State, b: Text)
    requires Safe(st) && Run(st, a) == ([], mid)
    ensures Run(st, a + b) == Run(mid, b)
  {
    RunAppend(st, a, b);
    NilAppend(Run(mid, b).0);
  }

  lemma RunOne(st: State, b: Byte)
    requires Safe(st) && !Matches(st, b)
    ensures Safe(Advance(st, b)) && Run(st, [b]) == ([], Advance(st, b))
  {
    AdvanceKeepsSafe(st, b);
    assert [b][1..] == [];
  }

  /** Waiting for a header, bytes other than `<` only fill the buffer. */
  lemma {:induction false} WithoutLt(st: State, s: Text)
    requires st.fsm == PriStart && LT !in s
    ensures Run(st, s) == ([], st.(buf := st.buf + s))
    decreases |s|
  {
    if s == [] {
      assert st.buf + s == st.buf;
    } else {
      WithoutLt(Advance(st, s[0]), s[1..]);
      HeadTail(s);
      Associative(st.buf, [s[0]], s[1..]);
    }
  }

  /** Before the first newline nothing is looked at. */
  lemma {:induction false} BeforeNewline(st: State, s: Text)
    requires st.fsm == Newline && LF !in s
    ensures Run(st, s) == ([], st.(buf := st.buf + s))
    decreases |s|
  {
    if s == [] {
      assert st.buf + s == st.buf;
    } else {
      BeforeNewline(Advance(st, s[0]), s[1..]);
      HeadTail(s);
      Associative(st.buf, [s[0]], s[1..]);
    }
  }

  function DigitState(k: nat): Fsm
    requires k <= 4
  {
    if k == 0 then PriVal0 else if k == 1 then PriVal1 else if k == 2 then PriVal2
    else if k == 3 then PriVal3 else PriEnd
  }

  lemma {:induction false} ReadDigits(st: State, k: nat, ds: Text)
    requires k + |ds| <= 4 && AllDigits(ds) && st.fsm == DigitState(k) && Safe(st)
    ensures Run(st, ds) == ([], State(st.buf + ds, if ds == [] then st.priLen else k + |ds|, DigitState(k + |ds|)))
    decreases |ds|
  {
    if ds == [] {
      assert st.buf + ds == st.buf;
    } else {
      AdvanceKeepsSafe(st, ds[0]);
      assert Advance(st, ds[0]) == State(st.buf + [ds[0]], k + 1, DigitState(k + 1));
      ReadDigits(Advance(st, ds[0]), k + 1, ds[1..]);
      HeadTail(ds);
      Associative(st.buf, [ds[0]], ds[1..]);
    }
  }

  /** The end of a header, after its digits: everything before its `<` is cut off. */
  lemma CloseHeader(before: Text, ds: Text, v: Byte)
    requires 1 <= |ds| <= 4 && IsDigit(v)
    ensures var st := State(before + [LT] + ds, |ds|, DigitState(|ds|));
            Safe(st) && Run(st, [GT] + ([v] + [SPACE])) == ([before], State(HeaderOf(ds, v), 0, PriStart))
  {
    var n := |ds|;
    var s1 := State(before + [LT] + ds, n, DigitState(n));
    RunOne(s1, GT);
    var s2 := Advance(s1, GT);
    RunThen(s1, [GT], s2, [v] + [SPACE]);
    RunOne(s2, v);
    RunThen(s2, [v], Advance(s2, v), [SPACE]);
    LastByte(before, ds, v);
  }

  lemma LastByte(before: Text, ds: Text, v: Byte)
    requires 1 <= |ds| <= 4
    ensures var st := State(before + [LT] + ds + [GT] + [v], |ds|, PostVersion);
            Safe(st) && Run(st, [SPACE]) == ([before], State(HeaderOf(ds, v), 0, PriStart))
  {
    var st := State(before + [LT] + ds + [GT] + [v], |ds|, PostVersion);
    var h := HeaderOf(ds, v);
    var buf := st.buf + [SPACE];
    assert [SPACE][1..] == [];
    assert buf == before + h;
    assert buf[..|before|] == before && buf[|before|..] == h;
    assert CutAt(st, SPACE) == |before|;
    var next := State(h, 0, PriStart);
    assert Run(next, []) == ([], next);
    assert [before] + [] == [before];
    assert Run(st, [SPACE]) == ([before] + Run(next, []).0, Run(next, []).1);
  }

  /** A header met while waiting for one: everything before it is cut off, and it stays in the buffer. */
  lemma ReadHeader(st: State, h: Text)
    requires st.fsm == PriStart && IsHeader(h)
    ensures Run(st, h) == ([st.buf], State(h, 0, PriStart))
  {
    var ds: Text, v: Byte :| h == HeaderOf(ds, v) && 1 <= |ds| <= 4 && AllDigits(ds) && IsDigit(v);
    var close := [GT] + ([v] + [SPACE]);
    assert h == [LT] + (ds + close);
    RunOne(st, LT);
    var s1 := Advance(st, LT);
    RunThen(st, [LT], s1, ds + close);
    ReadDigits(s1, 0, ds);
    RunThen(s1, ds, State(st.buf + [LT] + ds, |ds|, DigitState(|ds|)), close);
    CloseHeader(st.buf, ds, v);
  }

  // ----- The framer object -----

  class Delimiter {
    const input: Text
    var pos: nat
    var buf: Text
    var priLen: nat
    var state: Fsm

    ghost function View(): State
      reads this
    {
      State(buf, priLen, state)
    }

    ghost predicate Valid()
      reads this
    {
      pos <= |input| && Safe(View())
    }

    /** The bytes not yet read. */
    ghost function Rest(): Text
      reads this
      requires Valid()
    {
      input[pos..]
    }

    constructor (stream: Text)
      ensures Valid() && View() == INITIAL && input == stream && pos == 0
    {
      input, pos, buf, priLen, state := stream, 0, [], 0, Newline;
    }

    /** Cuts the line off the buffer: all of it, or all but the header just matched. */
    method Line(stripDelim: bool) returns (line: Text)
      requires stripDelim ==> priLen + 4 <= |buf|
      modifies this`buf, this`priLen, this`state
      ensures View() == State(if stripDelim then old(buf)[|old(buf)| - old(priLen) - 4..] else [], 0, PriStart)
      ensures line == Trim(if stripDelim then old(buf)[..|old(buf)| - old(priLen) - 4] else old(buf))
    {
      state := PriStart;
      if stripDelim {
        line := buf[..|buf| - priLen - 4];
      } else {
        line := buf[..|buf|];
      }
      buf := buf[|line|..];
      priLen := 0;
      line := TrimRight(line, LINE_ENDS);
    }

    /** Takes one byte; `matched` says that it completes a header. */
    method Consume(b: Byte) returns (matched: bool)
      modifies this`buf, this`priLen, this`state
      ensures matched == Matches(old(View()), b)
      ensures View() == if matched then old(View()).(buf := old(buf) + [b]) else Advance(old(View()), b)
    {
      buf := buf + [b];
      matched := false;
      match state
      case Newline =>
        if b == LF { state := PriStart; }
      case PriStart =>
        if b == LT { state := PriVal0; }
      case PriVal0 =>
        if IsDigit(b) { priLen, state := 1, PriVal1; } else { state := PriStart; }
      case PriVal1 =>
        if IsDigit(b) { priLen, state := 2, PriVal2; } else if b == GT { state := Version; }
      case PriVal2 =>
        if IsDigit(b) { priLen, state := 3, PriVal3; } else if b == GT { state := Version; }
      case PriVal3 =>
        if IsDigit(b) { priLen, state := 4, PriEnd; } else if b == GT { state := Version; }
      case PriEnd =>
        if b == GT { state := Version; } else { state := PriStart; }
      case Version =>
        if IsDigit(b) { state := PostVersion; } else { state := PriStart; }
      case PostVersion =>
        if b == SPACE { matched := true; } else { state := PriStart; }
    }

    /** Reads one byte, and the line in front of the header if the byte completes one. */
    method ReadByte() returns (line: Text, matched: bool)
      requires Valid() && pos < |input|
      modifies this
      ensures Valid() && pos == old(pos) + 1
      ensures (View(), if matched then [line] else []) == After(old(View()), input[old(pos)])
      ensures old(Lines(View(), Rest())) == (if matched then [line] else []) + Lines(View(), Rest())
    {
      LinesStep(View(), input, pos);
      var b := input[pos];
      pos := pos + 1;
      line := [];
      matched := Consume(b);
      if matched {
        line := Line(true);
      }
    }

    /** Reads up to and including the next header, or to the end of the stream. */
    method ReadLine() returns (line: Text, eof: bool)
      requires Valid()
      modifies this
      ensures Valid()
      ensures eof ==> pos == |input| && View() == State([], 0, PriStart) && old(Lines(View(), Rest())) == [line]
      ensures !eof ==> old(pos) < pos && old(Lines(View(), Rest())) == [line] + Lines(View(), Rest())
    {
      while true
        invariant Valid() && old(pos) <= pos
        invariant Lines(View(), Rest()) == old(Lines(View(), Rest()))
        decreases |input| - pos
      {
        if pos == |input| {
          line := Line(false);
          return line, true;
        }
        var matched;
        line, matched := ReadByte();
        if matched {
          return line, false;
        }
        NilAppend(Lines(View(), Rest()));
      }
    }
  }

  /** Reads lines until the end of the stream. */
  method ReadAll(stream: Text) returns (lines: seq<Text>)
    ensures lines == Lines(INITIAL, stream)
  {
    var d := new Delimiter(stream);
    assert d.Rest() == stream;
    lines := [];
    var eof := false;
    while !eof
      invariant d.Valid()
      invariant !eof ==> lines + Lines(d.View(), d.Rest()) == Lines(INITIAL, stream)
      invariant eof ==> lines == Lines(INITIAL, stream)
      decreases !eof, |d.input| - d.pos
    {
      ghost var before := Lines(d.View(), d.Rest());
      var line;
      line, eof := d.ReadLine();
      if !eof {
        Associative(lines, [line], Lines(d.View(), d.Rest()));
      }
      lines := lines + [line];
    }
  }
}
