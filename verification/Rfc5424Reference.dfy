/** A reference for the RFC 5424 framer (rfc5424/delimiter.go:24-113) that looks at the text alone: where a `<` begins
    an attempt at a header, how far the PRI part goes, what comes behind it, and where reading goes on. The machine
    cuts every stream exactly where the reference does. From it follow which headers begin a line and which messages
    come back. */
module Rfc5424Reference {
  import opened Bytes
  import opened Sequences
  import opened Rfc5424Delimiter

  // ----- Attempts at a header -----

  function FirstOf(s: Text, b: Byte): (k: nat)
    ensures k <= |s| && (k < |s| ==> s[k] == b) && b !in s[..k]
  {
    if s == [] || s[0] == b then 0 else 1 + FirstOf(s[1..], b)
  }

  /** How far a PRI part goes on after some digits: to the next `>`, or through its fourth digit. Bytes of junk are
      passed over. */
  function PriLength(s: Text, digits: nat): (n: nat)
    ensures n <= |s|
  {
    if s == [] || digits >= 4 || s[0] == GT then 0
    else 1 + PriLength(s[1..], if IsDigit(s[0]) then digits + 1 else digits)
  }

  /** What comes behind the PRI part: `>`, a digit and a space, or the text ends first, or the attempt breaks off with
      the byte that ends the given length. */
  datatype Ending = Cut | Wrong(length: nat) | Right

  function EndingOf(s: Text): (e: Ending)
    ensures e.Wrong? ==> 0 < e.length <= |s|
    ensures e.Right? ==> |s| >= 3
  {
    if s == [] then Cut
    else if s[0] != GT then Wrong(1)
    else if |s| == 1 then Cut
    else if !IsDigit(s[1]) then Wrong(2)
    else if |s| == 2 then Cut
    else if s[2] != SPACE then Wrong(3)
    else Right
  }

  // ----- The lines of a stream -----

  /** The untrimmed lines, and whether the text ends where a header may begin: settled, with no attempt going on. */
  datatype Reading = Reading(lines: seq<Text>, settled: bool) {
    function After(line: Text): Reading {
      Reading([line] + lines, settled)
    }
  }

  /** A text in which headers are looked for; its first line has already begun. */
  function From(line: Text, s: Text): Reading
    decreases |s|, 0
  {
    var p := FirstOf(s, LT);
    if p == |s| then Reading([line + s], true) else Behind(line + s[..p + 1], s[p + 1..])
  }

  /** A text behind a `<`: a digit must come next. */
  function Behind(line: Text, s: Text): Reading
    decreases |s|, 1
  {
    if s == [] then Reading([line], false)
    else if !IsDigit(s[0]) then From(line + [s[0]], s[1..])
    else InPri(line + [s[0]], 1, s[1..])
  }

  /** A text within a PRI part, after some digits of it. */
  function InPri(line: Text, digits: nat, s: Text): Reading
    decreases |s|, 2
  {
    var n := PriLength(s, digits);
    AtEnding(line + s[..n], digits + DigitCount(s[..n]), s[n..])
  }

  /** A text behind a PRI part. If a header ends here, the line is cut as many bytes in front of that as a header with
      its digits has, and reading goes on behind it; if the attempt breaks off, headers are looked for again. */
  function AtEnding(line: Text, digits: nat, s: Text): Reading
    decreases |s|, 1
  {
    match EndingOf(s)
    case Cut => Reading([line + s], false)
    case Wrong(n) => From(line + s[..n], s[n..])
    case Right => CutOff(line + s[..3], digits, s[3..])
  }

  function CutOff(all: Text, digits: nat, s: Text): Reading
    decreases |s|, 1
  {
    var k := |all| - digits - 4;
    if k < 0 then Reading([], false) else From(all[k..], s).After(all[..k])
  }

  /** A whole stream: headers are looked for from the first newline on. */
  function FromStart(line: Text, s: Text): Reading {
    var k := FirstOf(s, LF);
    if k == |s| then Reading([line + s], false) else From(line + s[..k + 1], s[k + 1..])
  }

  function Reference(s: Text): Reading {
    FromStart([], s)
  }

  // ----- The reference, byte by byte -----

  lemma {:induction false} FirstOfCons(s: Text, b: Byte)
    requires s != []
    ensures FirstOf(s, b) == if s[0] == b then 0 else 1 + FirstOf(s[1..], b)
  {
  }

  lemma FrontCons(line: Text, s: Text, n: nat)
    requires s != [] && n <= |s| - 1
    ensures line + s[..n + 1] == line + [s[0]] + s[1..][..n] && s[n + 1..] == s[1..][n..]
  {
  }

  lemma WholeCons(line: Text, s: Text)
    requires s != []
    ensures line + s == line + [s[0]] + s[1..]
  {
  }

  lemma FromStep(line: Text, s: Text)
    requires s != []
    ensures From(line, s) == if s[0] == LT then Behind(line + [LT], s[1..]) else From(line + [s[0]], s[1..])
  {
    FirstOfCons(s, LT);
    if s[0] == LT {
      assert s[..1] == [LT];
    } else {
      var p := FirstOf(s[1..], LT);
      WholeCons(line, s);
      if p < |s[1..]| { FrontCons(line, s, p + 1); }
    }
  }

  lemma FromStartStep(line: Text, s: Text)
    requires s != []
    ensures FromStart(line, s) == if s[0] == LF then From(line + [LF], s[1..]) else FromStart(line + [s[0]], s[1..])
  {
    FirstOfCons(s, LF);
    if s[0] == LF {
      assert s[..1] == [LF];
    } else {
      var k := FirstOf(s[1..], LF);
      WholeCons(line, s);
      if k < |s[1..]| { FrontCons(line, s, k + 1); }
    }
  }

  /** Behind the `>` of an attempt. */
  function AtVersion(line: Text, digits: nat, s: Text): Reading {
    if s == [] then Reading([line], false)
    else if !IsDigit(s[0]) then From(line + [s[0]], s[1..])
    else AtSpace(line + [s[0]], digits, s[1..])
  }

  /** Behind the version of an attempt. */
  function AtSpace(line: Text, digits: nat, s: Text): Reading {
    if s == [] then Reading([line], false)
    else if s[0] != SPACE then From(line + [s[0]], s[1..])
    else CutOff(line + [SPACE], digits, s[1..])
  }

  lemma EndingStep(line: Text, digits: nat, s: Text)
    ensures AtEnding(line, digits, s) ==
            if s == [] then Reading([line], false)
            else if s[0] != GT then From(line + [s[0]], s[1..])
            else AtVersion(line + [GT], digits, s[1..])
  {
    if s == [] {
      assert line + s == line;
    } else if s[0] != GT {
      assert s[..1] == [s[0]];
    } else {
      VersionStep(line, digits, s);
    }
  }

  lemma VersionStep(line: Text, digits: nat, s: Text)
    requires s != [] && s[0] == GT
    ensures AtEnding(line, digits, s) == AtVersion(line + [GT], digits, s[1..])
  {
    var t := s[1..];
    WholeCons(line, s);
    if t == [] {
      assert s == [GT];
    } else if !IsDigit(t[0]) {
      assert line + s[..2] == line + [GT] + [t[0]] && s[2..] == t[1..];
    } else {
      SpaceStep(line, digits, s);
    }
  }

  lemma SpaceStep(line: Text, digits: nat, s: Text)
    requires |s| >= 2 && s[0] == GT && IsDigit(s[1])
    ensures AtEnding(line, digits, s) == AtSpace(line + [GT] + [s[1]], digits, s[1..][1..])
  {
    assert s[1..][1..] == s[2..];
    if |s| == 2 {
      assert line + s == line + [GT] + [s[1]];
    } else {
      assert line + s[..3] == line + [GT] + [s[1]] + [s[2]] && s[3..] == s[2..][1..];
    }
  }

  lemma PriStep(line: Text, digits: nat, s: Text)
    requires s != [] && digits < 4 && s[0] != GT
    ensures InPri(line, digits, s) == InPri(line + [s[0]], if IsDigit(s[0]) then digits + 1 else digits, s[1..])
  {
    var d := if IsDigit(s[0]) then digits + 1 else digits;
    var n := PriLength(s[1..], d);
    assert PriLength(s, digits) == n + 1;
    FrontCons(line, s, n);
    PriFront(s, n);
  }

  lemma PriFront(s: Text, m: nat)
    requires s != [] && m <= |s| - 1
    ensures DigitCount(s[..m + 1]) == (if IsDigit(s[0]) then 1 else 0) + DigitCount(s[1..][..m])
  {
    assert s[..m + 1] == [s[0]] + s[1..][..m];
    DigitCountAppend([s[0]], s[1..][..m]);
    OneByteCount(s[0]);
  }

  lemma PriStops(line: Text, digits: nat, s: Text)
    requires s == [] || digits >= 4 || s[0] == GT
    ensures InPri(line, digits, s) == AtEnding(line, digits, s)
  {
    assert s[..0] == [] && line + [] == line && s[0..] == s;
  }

  // ----- The machine reads as the reference does -----

  /** What the reference makes of the rest of the text, in each state of the machine. */
  function Expected(st: State, s: Text): Reading {
    match st.fsm
    case Newline => FromStart(st.buf, s)
    case PriStart => From(st.buf, s)
    case PriVal0 => Behind(st.buf, s)
    case Version => AtVersion(st.buf, st.priLen, s)
    case PostVersion => AtSpace(st.buf, st.priLen, s)
    case _ => InPri(st.buf, st.priLen, s)
  }

  lemma ExpectedAtEnd(st: State)
    requires Safe(st)
    ensures Expected(st, []) == Reading([st.buf], st.fsm == PriStart)
  {
    assert st.buf + [] == st.buf;
    match st.fsm
    case Newline =>
    case PriStart =>
    case PriVal0 =>
    case Version =>
    case PostVersion =>
    case _ =>
      PriStops(st.buf, st.priLen, []);
      EndingStep(st.buf, st.priLen, []);
  }

  lemma ExpectedStep(st: State, s: Text)
    requires Safe(st) && s != [] && !Matches(st, s[0])
    ensures Expected(st, s) == Expected(Advance(st, s[0]), s[1..])
  {
    match st.fsm
    case Newline => FromStartStep(st.buf, s);
    case PriStart => FromStep(st.buf, s);
    case PriVal0 =>
    case Version =>
    case PostVersion =>
    case _ => ExpectedInPri(st, s);
  }

  lemma ExpectedInPri(st: State, s: Text)
    requires Safe(st) && s != [] && st.fsm in {PriVal1, PriVal2, PriVal3, PriEnd}
    ensures Expected(st, s) == Expected(Advance(st, s[0]), s[1..])
  {
    if st.fsm == PriEnd || s[0] == GT {
      PriStops(st.buf, st.priLen, s);
      EndingStep(st.buf, st.priLen, s);
    } else {
      PriStep(st.buf, st.priLen, s);
    }
  }

  /** What the machine makes of a text: the untrimmed lines, and whether it waits for a header at the end. */
  function MachineReading(st: State, s: Text): Reading
    requires Safe(st)
  {
    Reading(Uncut(st, s), Run(st, s).1.fsm == PriStart)
  }

  lemma MachineStep(st: State, s: Text)
    requires Safe(st) && s != []
    ensures if Matches(st, s[0]) then
              var buf, k := st.buf + [s[0]], CutAt(st, s[0]);
              MachineReading(st, s) == MachineReading(State(buf[k..], 0, PriStart), s[1..]).After(buf[..k])
            else Safe(Advance(st, s[0])) && MachineReading(st, s) == MachineReading(Advance(st, s[0]), s[1..])
  {
    UncutStep(st, s);
  }

  lemma {:induction false} MachineReads(st: State, s: Text)
    requires Safe(st)
    ensures MachineReading(st, s) == Expected(st, s)
    decreases |s|
  {
    if s == [] {
      ExpectedAtEnd(st);
    } else {
      MachineStep(st, s);
      if Matches(st, s[0]) {
        var buf, k := st.buf + [SPACE], CutAt(st, SPACE);
        MachineReads(State(buf[k..], 0, PriStart), s[1..]);
      } else {
        ExpectedStep(st, s);
        MachineReads(Advance(st, s[0]), s[1..]);
      }
    }
  }

  /** On every stream, the machine cuts exactly where the reference does, and waits for a header at the end exactly if
      the reference says that the stream is settled. */
  lemma MachineIsReference(s: Text)
    ensures Uncut(INITIAL, s) == Reference(s).lines && Lines(INITIAL, s) == TrimAll(Reference(s).lines)
    ensures Run(INITIAL, s).1.fsm == PriStart <==> Reference(s).settled
  {
    MachineReads(INITIAL, s);
    LinesAreTrimmedCuts(INITIAL, s);
  }

  // ----- Which headers are found -----

  lemma {:induction false} FollowsRun(st: State, pri: Text, s: Text) returns (pri': Text)
    requires Safe(st) && Follows(st, [], pri)
    ensures Follows(Run(st, s).1, [], pri')
    decreases |s|
  {
    if s == [] {
      pri' := pri;
    } else if Matches(st, s[0]) {
      var buf, k := st.buf + [s[0]], CutAt(st, s[0]);
      pri' := FollowsRun(State(buf[k..], 0, PriStart), [], s[1..]);
    } else {
      AdvanceKeepsSafe(st, s[0]);
      AdvanceFollows(st, [], pri, s[0]);
      pri' := FollowsRun(Advance(st, s[0]), NextPri(st.fsm, pri, s[0]), s[1..]);
    }
  }

  /** Where in the buffer the `<` stands that the machine is following. */
  function Origin(st: State, pri: Text): int {
    match st.fsm
    case Newline => -1
    case PriStart => -1
    case PriVal0 => |st.buf| - 1
    case Version => |st.buf| - |pri| - 2
    case PostVersion => |st.buf| - |pri| - 3
    case _ => |st.buf| - |pri| - 1
  }

  /** The machine has passed position n of the buffer and follows no `<` that stands there. */
  predicate Missed(st: State, pri: Text, n: nat) {
    |st.buf| >= n && (if st.fsm == PriStart then |st.buf| > n else Origin(st, pri) != n)
  }

  lemma StaysMissed(st: State, pri: Text, n: nat, b: Byte)
    requires Missed(st, pri, n)
    ensures Missed(Advance(st, b), NextPri(st.fsm, pri, b), n)
  {
  }

  /** A header that the machine missed does not begin the second line. */
  lemma {:induction false} MissedIsNotCutOff(st: State, pri: Text, n: nat, s: Text)
    requires Safe(st) && Follows(st, [], pri) && Missed(st, pri, n)
    requires |Uncut(st, s)| > 1 && BeginsWithHeader(Uncut(st, s)[1])
    ensures |Uncut(st, s)[0]| != n
    decreases |s|
  {
    UncutStep(st, s);
    if Matches(st, s[0]) {
      var buf, k := st.buf + [s[0]], CutAt(st, s[0]);
      var v := CutKeeps(st, [], pri);
      var next := State(buf[k..], 0, PriStart);
      UncutHeadersIff(next, buf[k..], [], s[1..]);
      KeptIsHeaderIff(pri, st.priLen, v, Uncut(next, s[1..])[0]);
      DigitCountAll(pri);
    } else {
      AdvanceFollows(st, [], pri, s[0]);
      StaysMissed(st, pri, n, s[0]);
      MissedIsNotCutOff(Advance(st, s[0]), NextPri(st.fsm, pri, s[0]), n, s[1..]);
    }
  }

  /** If the second line begins with a header, right where the machine is, then the machine waits for a header. */
  lemma CutHereMeansWaiting(st: State, pri: Text, s: Text)
    requires Safe(st) && Follows(st, [], pri)
    requires |Uncut(st, s)| > 1 && BeginsWithHeader(Uncut(st, s)[1]) && |Uncut(st, s)[0]| == |st.buf|
    ensures st.fsm == PriStart
  {
    if st.fsm != PriStart {
      MissedIsNotCutOff(st, pri, |st.buf|, s);
      assert false;
    }
  }

  /** On every stream, a header that stands anywhere in it begins a line of its own if and only if the text before it is
      settled: there has been a newline, and no attempt at a header is going on. */
  lemma HeaderBeginsLineIff(before: Text, h: Text, rest: Text)
    requires IsHeader(h)
    ensures Uncut(INITIAL, before + (h + rest)) == Uncut(INITIAL, before) + Uncut(State(h, 0, PriStart), rest) <==>
            Reference(before).settled
  {
    var (cuts, mid) := Run(INITIAL, before);
    MachineIsReference(before);
    UncutAppend(INITIAL, before, h + rest);
    Associative(cuts, [mid.buf], Uncut(State(h, 0, PriStart), rest));
    if mid.fsm == PriStart {
      ReadHeader(mid, h);
      UncutAppend(mid, h, rest);
    } else {
      HiddenIsNotCutOff(before, h, rest);
      if Uncut(INITIAL, before + (h + rest)) == cuts + ([mid.buf] + Uncut(State(h, 0, PriStart), rest)) {
        SameFront(cuts, Uncut(mid, h + rest), [mid.buf] + Uncut(State(h, 0, PriStart), rest));
        assert false;
      }
    }
  }

  lemma HiddenIsNotCutOff(before: Text, h: Text, rest: Text)
    requires IsHeader(h) && Run(INITIAL, before).1.fsm != PriStart
    ensures var mid := Run(INITIAL, before).1;
            Uncut(mid, h + rest) != [mid.buf] + Uncut(State(h, 0, PriStart), rest)
  {
    var mid, tail := Run(INITIAL, before).1, Uncut(State(h, 0, PriStart), rest);
    var pri := FollowsRun(INITIAL, [], before);
    UncutHeadersIff(State(h, 0, PriStart), h, [], rest);
    if Uncut(mid, h + rest) == [mid.buf] + tail {
      CutHereMeansWaiting(mid, pri, h + rest);
    }
  }

  lemma SameFront(front: seq<Text>, a: seq<Text>, b: seq<Text>)
    requires front + a == front + b
    ensures a == b
  {
    assert a == (front + a)[|front|..] && b == (front + b)[|front|..];
  }

  /** A `<` directly in front of a header hides it: the line goes on through the header to the end of the stream. */
  lemma HiddenHeader(h: Text, rest: Text)
    requires IsHeader(h) && LT !in rest
    ensures var s := [LF] + ([LT] + (h + rest));
            && Lines(INITIAL, s) == [Trim(s)]
            && CleanPris(INITIAL, [], s) && HeadersFollow(Lines(INITIAL, s))
  {
    var s := [LF] + ([LT] + (h + rest));
    NoCutThroughHidden(h, rest);
    NothingLost(INITIAL, s);
    NilAppend(s);
    NilAppend(Run(INITIAL, s).1.buf);
    LinesAreTrimmedCuts(INITIAL, s);
    LinesBeginWithHeaderIff(s);
  }

  lemma NoCutThroughHidden(h: Text, rest: Text)
    requires IsHeader(h) && LT !in rest
    ensures Run(INITIAL, [LF] + ([LT] + (h + rest))).0 == []
  {
    var tail := BehindLt(h);
    Associative([LT], tail, rest);
    NoCutAfterTwo(tail + rest);
  }

  lemma BehindLt(h: Text) returns (tail: Text)
    requires IsHeader(h)
    ensures h == [LT] + tail && LT !in tail
  {
    var ds: Text, v: Byte :| h == HeaderOf(ds, v) && AllDigits(ds) && IsDigit(v);
    tail := ds + [GT, v, SPACE];
  }

  lemma NoCutAfterTwo(after: Text)
    requires LT !in after
    ensures Run(INITIAL, [LF] + ([LT] + ([LT] + after))).0 == []
  {
    var s1 := Advance(INITIAL, LF);
    var s2 := Advance(s1, LT);
    var s3 := Advance(s2, LT);
    RunOne(INITIAL, LF);
    RunThen(INITIAL, [LF], s1, [LT] + ([LT] + after));
    RunOne(s1, LT);
    RunThen(s1, [LT], s2, [LT] + after);
    RunOne(s2, LT);
    RunThen(s2, [LT], s3, after);
    WithoutLt(s3, after);
  }

  // ----- Round trip -----

  /** A message as sent: a header and a body, then the line ends that follow it. */
  datatype Frame = Frame(header: Text, body: Text, ends: Text) {
    function Message(): Text {
      header + body
    }

    /** What follows the header. */
    function Tail(): Text {
      body + ends
    }

    ghost predicate Valid() {
      && IsHeader(header)
      && (body != [] ==> body[|body| - 1] !in LINE_ENDS)
      && (forall b | b in ends :: b in LINE_ENDS)
    }
  }

  function Stream(fs: seq<Frame>): Text {
    if fs == [] then [] else fs[0].header + (fs[0].Tail() + Stream(fs[1..]))
  }

  function Messages(fs: seq<Frame>): seq<Text> {
    seq(|fs|, i requires 0 <= i < |fs| => fs[i].Message())
  }

  ghost predicate AllValid(fs: seq<Frame>) {
    forall i | 0 <= i < |fs| :: fs[i].Valid()
  }

  /** Reading the text completes no header and, unless it is the last, the machine waits for one at its end. */
  predicate Undisturbed(st: State, s: Text, last: bool)
    requires Safe(st)
  {
    Run(st, s).0 == [] && (last || Run(st, s).1.fsm == PriStart)
  }

  /** No frame is disturbed by its body when read after its own header. */
  ghost predicate AllUndisturbed(fs: seq<Frame>) {
    forall i | 0 <= i < |fs| :: Undisturbed(State(fs[i].header, 0, PriStart), fs[i].Tail(), i == |fs| - 1)
  }

  lemma AllUndisturbedCons(fs: seq<Frame>)
    requires fs != []
    ensures AllUndisturbed(fs) <==>
            Undisturbed(State(fs[0].header, 0, PriStart), fs[0].Tail(), |fs| == 1) && AllUndisturbed(fs[1..])
  {
    var more := fs[1..];
    assert forall i | 0 <= i < |more| :: more[i] == fs[i + 1];
    if AllUndisturbed(fs) {
      forall i | 0 <= i < |more|
        ensures Undisturbed(State(more[i].header, 0, PriStart), more[i].Tail(), i == |more| - 1)
      {
        assert Undisturbed(State(fs[i + 1].header, 0, PriStart), fs[i + 1].Tail(), i + 1 == |fs| - 1);
      }
    }
  }

  lemma MessagesCons(fs: seq<Frame>)
    requires fs != []
    ensures Messages(fs) == [fs[0].Message()] + Messages(fs[1..])
  {
  }

  lemma TrimFrame(f: Frame)
    requires f.Valid()
    ensures Trim(f.Message() + f.ends) == f.Message()
  {
    TrimRightDrops(f.Message(), f.ends, LINE_ENDS);
    var ds: Text, v: Byte :| f.header == HeaderOf(ds, v);
    assert f.header[|f.header| - 1] == SPACE;
    TrimRightKeeps(f.Message(), LINE_ENDS);
  }

  /** A header that is completed ends with a space, behind the line that is cut off in front of it. */
  lemma {:induction false} SpaceBehindCut(st: State, s: Text) returns (p: nat)
    requires Safe(st) && Run(st, s).0 != []
    ensures |Run(st, s).0[0]| <= p < |st.buf + s| && (st.buf + s)[p] == SPACE
    decreases |s|
  {
    HeadTail(s);
    Associative(st.buf, [s[0]], s[1..]);
    if Matches(st, s[0]) {
      p := |st.buf|;
    } else {
      AdvanceKeepsSafe(st, s[0]);
      p := SpaceBehindCut(Advance(st, s[0]), s[1..]);
    }
  }

  lemma EndsAreLineEnds(f: Frame, p: nat)
    requires f.Valid() && |f.Message()| <= p < |f.Message() + f.ends|
    ensures (f.Message() + f.ends)[p] in LINE_ENDS
  {
    assert (f.Message() + f.ends)[p] == f.ends[p - |f.Message()|];
  }

  /** If the first line is the frame's message, no header was completed while the frame was read. */
  lemma NoCutInside(st: State, s: Text, f: Frame, rest: Text)
    requires Safe(st) && f.Valid() && st.buf + s == f.Message() + f.ends
    requires Trim(Uncut(st, s + rest)[0]) == f.Message()
    ensures Run(st, s).0 == []
  {
    if Run(st, s).0 != [] {
      UncutAppend(st, s, rest);
      var p := SpaceBehindCut(st, s);
      EndsAreLineEnds(f, p);
      assert false;
    }
  }

  lemma StreamBeginsWithLt(fs: seq<Frame>)
    requires fs != [] && AllValid(fs)
    ensures Stream(fs) != [] && Stream(fs)[0] == LT && fs[0].Message()[0] == LT && BeginsWithHeader(fs[0].Message())
  {
    var ds: Text, v: Byte :| fs[0].header == HeaderOf(ds, v);
    assert fs[0].header <= fs[0].Message();
  }

  /** If the first two lines are the messages of a frame that has been read and of the next one, the first line ends
      where the frame does. */
  lemma CutAtBoundary(end: State, f: Frame, more: seq<Frame>)
    requires Safe(end) && f.Valid() && more != [] && AllValid(more) && end.buf == f.Message() + f.ends
    requires |Uncut(end, Stream(more))| > 1
    requires Trim(Uncut(end, Stream(more))[0]) == f.Message() && Trim(Uncut(end, Stream(more))[1]) == more[0].Message()
    ensures |Uncut(end, Stream(more))[0]| == |end.buf|
  {
    var r, all := Stream(more), end.buf + Stream(more);
    var u0, u1 := Uncut(end, r)[0], Uncut(end, r)[1];
    StreamBeginsWithLt(more);
    UncutIsPrefix(end, r);
    assert all[|end.buf|] == LT;
    TrimStopsBefore(u0, all, |end.buf|);
    assert u1[0] == LT && (u0 + u1)[|u0|] == LT && all[|u0|] == LT;
    if |u0| < |end.buf| {
      EndsAreLineEnds(f, |u0|);
      assert false;
    }
  }

  /** A text that is trimmed to less than n bytes does not reach a byte at n that is no line end. */
  lemma TrimStopsBefore(u: Text, all: Text, n: nat)
    requires u <= all && |Trim(u)| <= n < |all| && all[n] !in LINE_ENDS
    ensures |u| <= n
  {
  }

  /** One frame and those that follow it, read from a state in which its front part is in the buffer. */
  lemma {:induction false} FramesIff(st: State, s: Text, f: Frame, more: seq<Frame>)
    requires Safe(st) && (st.fsm == Newline || st.fsm == PriStart)
    requires f.Valid() && AllValid(more) && st.buf + s == f.Message() + f.ends
    ensures TrimAll(Uncut(st, s + Stream(more))) == [f.Message()] + Messages(more) <==>
            Undisturbed(st, s, more == []) && AllUndisturbed(more)
    decreases |more|
  {
    var (cuts, end) := Run(st, s);
    var r, want := Stream(more), [f.Message()] + Messages(more);
    UncutAppend(st, s, r);
    NothingLost(st, s);
    if cuts != [] {
      if TrimAll(Uncut(st, s + r)) == want {
        assert want[0] == f.Message() && TrimAll(Uncut(st, s + r))[0] == Trim(Uncut(st, s + r)[0]);
        NoCutInside(st, s, f, r);
      }
    } else {
      NilAppend(Uncut(end, r));
      NilAppend(end.buf);
      TrimFrame(f);
      if more == [] {
        assert Uncut(end, r) == [end.buf];
      } else if end.fsm == PriStart {
        NextFrameIff(end, f, more);
      } else if TrimAll(Uncut(end, r)) == want {
        var pri := FollowsRun(st, [], s);
        NotWaitingFails(end, pri, f, more);
        assert false;
      }
    }
  }

  lemma {:induction false} NextFrameIff(end: State, f: Frame, more: seq<Frame>)
    requires end.fsm == PriStart && f.Valid() && more != [] && AllValid(more) && end.buf == f.Message() + f.ends
    ensures TrimAll(Uncut(end, Stream(more))) == [f.Message()] + Messages(more) <==> AllUndisturbed(more)
    decreases |more|, 0
  {
    var g, rest := more[0], more[1..];
    var next := State(g.header, 0, PriStart);
    var lines := Uncut(next, g.Tail() + Stream(rest));
    ReadHeader(end, g.header);
    UncutAppend(end, g.header, g.Tail() + Stream(rest));
    Associative(g.header, g.body, g.ends);
    FramesIff(next, g.Tail(), g, rest);
    TrimAllCons(end.buf, lines);
    TrimFrame(f);
    MessagesCons(more);
    AllUndisturbedCons(more);
    SameTail(f.Message(), TrimAll(lines), Messages(more));
  }

  lemma SameTail(m: Text, a: seq<Text>, b: seq<Text>)
    ensures [m] + a == [m] + b <==> a == b
  {
    assert a == ([m] + a)[1..] && b == ([m] + b)[1..];
  }

  /** If the machine does not wait for a header at the end of a frame, the messages do not all come back. */
  lemma NotWaitingFails(end: State, pri: Text, f: Frame, more: seq<Frame>)
    requires Safe(end) && Follows(end, [], pri) && end.fsm != PriStart
    requires f.Valid() && more != [] && AllValid(more) && end.buf == f.Message() + f.ends
    ensures TrimAll(Uncut(end, Stream(more))) != [f.Message()] + Messages(more)
  {
    var lines := Uncut(end, Stream(more));
    if TrimAll(lines) == [f.Message()] + Messages(more) {
      MessagesCons(more);
      assert TrimAll(lines)[0] == Trim(lines[0]) && TrimAll(lines)[1] == Trim(lines[1]);
      CutAtBoundary(end, f, more);
      StreamBeginsWithLt(more);
      TrimKeepsHeader(lines[1]);
      CutHereMeansWaiting(end, pri, Stream(more));
      assert false;
    }
  }

  /** The text holds no header, as far as they are found, and unless it is the last it is settled. */
  predicate Harmless(r: Reading, last: bool) {
    |r.lines| == 1 && (last || r.settled)
  }

  /** The first frame is harmless when read from the start, and every other when what follows its header is read. */
  ghost predicate AllHarmless(fs: seq<Frame>)
    requires fs != []
  {
    && Harmless(Reference(fs[0].header + fs[0].Tail()), |fs| == 1)
    && forall i | 1 <= i < |fs| :: Harmless(From(fs[i].header, fs[i].Tail()), i == |fs| - 1)
  }

  lemma UndisturbedIsHarmless(st: State, s: Text, last: bool)
    requires Safe(st)
    ensures Undisturbed(st, s, last) <==> Harmless(Expected(st, s), last)
  {
    MachineReads(st, s);
  }

  lemma HarmlessIsUndisturbed(fs: seq<Frame>)
    requires fs != [] && AllValid(fs)
    ensures AllHarmless(fs) <==>
            Undisturbed(INITIAL, fs[0].header + fs[0].Tail(), |fs| == 1) && AllUndisturbed(fs[1..])
  {
    var more := fs[1..];
    UndisturbedIsHarmless(INITIAL, fs[0].header + fs[0].Tail(), |fs| == 1);
    forall i | 0 <= i < |more|
      ensures more[i] == fs[i + 1]
      ensures Undisturbed(State(more[i].header, 0, PriStart), more[i].Tail(), i == |more| - 1) <==>
              Harmless(From(fs[i + 1].header, fs[i + 1].Tail()), i + 1 == |fs| - 1)
    {
      UndisturbedIsHarmless(State(more[i].header, 0, PriStart), more[i].Tail(), i == |more| - 1);
    }
    if AllUndisturbed(more) {
      forall i | 1 <= i < |fs| ensures Harmless(From(fs[i].header, fs[i].Tail()), i == |fs| - 1) {
        assert Undisturbed(State(more[i - 1].header, 0, PriStart), more[i - 1].Tail(), i - 1 == |more| - 1);
      }
    }
  }

  /** Take any non-empty list of messages, each a header and a body that does not end in CR or LF, and each followed by
      any line ends. Reading to the end returns exactly that list if and only if every frame is harmless: in the first
      frame, read from the start, and in what follows the header of every other, no header is found, and but for the
      last frame no attempt at one is going on at the end. */
  lemma RoundTripIff(fs: seq<Frame>)
    requires fs != [] && AllValid(fs)
    ensures Lines(INITIAL, Stream(fs)) == Messages(fs) <==> AllHarmless(fs)
  {
    HarmlessIsUndisturbed(fs);
    MachineRoundTripIff(fs);
  }

  lemma MachineRoundTripIff(fs: seq<Frame>)
    requires fs != [] && AllValid(fs)
    ensures Lines(INITIAL, Stream(fs)) == Messages(fs) <==>
            Undisturbed(INITIAL, fs[0].header + fs[0].Tail(), |fs| == 1) && AllUndisturbed(fs[1..])
  {
    var f, more := fs[0], fs[1..];
    LinesAreTrimmedCuts(INITIAL, Stream(fs));
    MessagesCons(fs);
    Associative(f.header, f.Tail(), Stream(more));
    Associative(f.header, f.body, f.ends);
    NilAppend(f.header + f.Tail());
    FramesIff(INITIAL, f.header + f.Tail(), f, more);
  }

  /** So for bodies without `<` all depends on the first frame: there must be one message only, or a newline somewhere
      in the first message or directly after it. */
  lemma PlainRoundTripIff(fs: seq<Frame>)
    requires fs != [] && AllValid(fs) && AllPlain(fs)
    ensures Lines(INITIAL, Stream(fs)) == Messages(fs) <==> |fs| == 1 || LF in fs[0].Tail()
  {
    MachineRoundTripIff(fs);
    PlainTail(fs);
    PlainUndisturbed(fs[1..]);
    FirstFrame(fs[0]);
  }

  ghost predicate AllPlain(fs: seq<Frame>) {
    forall i | 0 <= i < |fs| :: LT !in fs[i].body
  }

  lemma PlainTail(fs: seq<Frame>)
    requires fs != [] && AllValid(fs) && AllPlain(fs)
    ensures AllValid(fs[1..]) && AllPlain(fs[1..])
  {
    assert forall i | 0 <= i < |fs| - 1 :: fs[1..][i] == fs[i + 1];
  }

  lemma PlainUndisturbed(fs: seq<Frame>)
    requires AllValid(fs) && AllPlain(fs)
    ensures AllUndisturbed(fs)
  {
    forall i | 0 <= i < |fs| ensures Undisturbed(State(fs[i].header, 0, PriStart), fs[i].Tail(), i == |fs| - 1) {
      WithoutLt(State(fs[i].header, 0, PriStart), fs[i].Tail());
    }
  }

  lemma FirstFrame(f: Frame)
    requires f.Valid() && LT !in f.body
    ensures Run(INITIAL, f.header + f.Tail()).0 == []
    ensures Run(INITIAL, f.header + f.Tail()).1.fsm == PriStart <==> LF in f.Tail()
  {
    HeaderHasNoNewline(f.header);
    BeforeNewline(INITIAL, f.header);
    var st := INITIAL.(buf := INITIAL.buf + f.header);
    RunThen(INITIAL, f.header, st, f.Tail());
    UntilNewline(st, f.Tail());
  }

  lemma {:induction false} UntilNewline(st: State, s: Text)
    requires st.fsm == Newline && LT !in s
    ensures Run(st, s).0 == [] && (Run(st, s).1.fsm == PriStart <==> LF in s)
    decreases |s|
  {
    if s != [] {
      HeadTail(s);
      if s[0] == LF {
        WithoutLt(Advance(st, s[0]), s[1..]);
      } else {
        UntilNewline(Advance(st, s[0]), s[1..]);
      }
    }
  }
}
