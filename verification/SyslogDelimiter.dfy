/** The syslog framer (input/delimiter_syslog.go): pushed one byte at a time, it cuts a stream at every
    newline that stands before a PRI part (`<` 1 to 3 digits `>`, section 6.2.1 of RFC 5424). */
module SyslogDelimiter {
  import opened Bytes
  import opened Sequences

  // ----- The three patterns -----

  /** A PRI part starts at i. */
  predicate PriAt(s: Text, i: nat) {
    exists n | 1 <= n <= 3 :: PriOfLength(s, i, n)
  }

  /** `<`, n digits and `>` stand at i. */
  predicate PriOfLength(s: Text, i: nat, n: nat) {
    && i + n + 1 < |s| && s[i] == LT && s[i + n + 1] == GT
    && forall j | i < j <= i + n :: IsDigit(s[j])
  }

  /** A PRI part starts at i and ends with the text. */
  predicate PriClosesAt(s: Text, i: nat) {
    exists n | 1 <= n <= 3 :: PriOfLength(s, i, n) && i + n + 2 == |s|
  }

  /** `<`, then `>` behind one, two or three of the digits from `0` to `9`. */
  lemma PriAtIff(s: Text, i: nat)
    ensures PriAt(s, i) <==>
            && i + 2 < |s| && s[i] == 60 && 48 <= s[i + 1] <= 57
            && (|| s[i + 2] == 62
                || (&& 48 <= s[i + 2] <= 57 && i + 3 < |s|
                    && (s[i + 3] == 62 || (48 <= s[i + 3] <= 57 && i + 4 < |s| && s[i + 4] == 62))))
  {
    assert PriOfLength(s, i, 1) <==> i + 2 < |s| && s[i] == 60 && IsDigit(s[i + 1]) && s[i + 2] == 62;
    assert PriOfLength(s, i, 2) <==>
      i + 3 < |s| && s[i] == 60 && IsDigit(s[i + 1]) && IsDigit(s[i + 2]) && s[i + 3] == 62;
    assert PriOfLength(s, i, 3) <==>
      && i + 4 < |s| && s[i] == 60 && IsDigit(s[i + 1]) && IsDigit(s[i + 2]) && IsDigit(s[i + 3])
      && s[i + 4] == 62;
  }

  /** A newline stands at i, directly before a PRI part. */
  predicate BreakAt(s: Text, i: nat) {
    i < |s| && s[i] == LF && PriAt(s, i + 1)
  }

  ghost predicate HasPri(s: Text) {
    exists i: nat :: PriAt(s, i)
  }

  ghost predicate HasBreak(s: Text) {
    exists i: nat :: BreakAt(s, i)
  }

  datatype Pattern = StartPattern | RunPattern | AnyPri

  predicate MatchesAt(p: Pattern, s: Text, i: nat) {
    match p
    case StartPattern => PriClosesAt(s, i)
    case RunPattern => BreakAt(s, i)
    case AnyPri => PriAt(s, i)
  }

  /** k is the leftmost match. */
  predicate LeftmostAt(p: Pattern, s: Text, k: nat) {
    MatchesAt(p, s, k) && forall j | 0 <= j < k :: !MatchesAt(p, s, j)
  }

  /** Where the leftmost match starts, or |s| if there is no match. */
  function Find(p: Pattern, s: Text): (k: nat)
    ensures k <= |s|
  {
    if k: nat :| k < |s| && LeftmostAt(p, s, k) then k else |s|
  }

  lemma {:induction false} LeftmostExists(p: Pattern, s: Text, i: nat)
    requires MatchesAt(p, s, i)
    ensures Find(p, s) <= i && LeftmostAt(p, s, Find(p, s))
  {
    if j: nat :| j < i && MatchesAt(p, s, j) {
      LeftmostExists(p, s, j);
    } else {
      assert LeftmostAt(p, s, i);
    }
  }

  lemma Found(p: Pattern, s: Text)
    ensures Find(p, s) < |s| ==> LeftmostAt(p, s, Find(p, s))
    ensures forall j: nat | MatchesAt(p, s, j) :: Find(p, s) <= j && Find(p, s) < |s|
  {
    forall j: nat | MatchesAt(p, s, j) ensures Find(p, s) <= j && Find(p, s) < |s| {
      LeftmostExists(p, s, j);
    }
  }

  lemma PriFound(s: Text)
    ensures var k := Find(AnyPri, s);
            && (k < |s| ==> PriAt(s, k)) && (forall j: nat | j < k :: !PriAt(s, j))
            && (k < |s| <==> HasPri(s))
  {
    Found(AnyPri, s);
    assert forall j: nat :: MatchesAt(AnyPri, s, j) == PriAt(s, j);
  }

  lemma BreakFound(s: Text)
    ensures var k := Find(RunPattern, s);
            && (k < |s| ==> BreakAt(s, k)) && (forall j: nat | j < k :: !BreakAt(s, j))
            && (k < |s| <==> HasBreak(s))
  {
    Found(RunPattern, s);
    assert forall j: nat :: MatchesAt(RunPattern, s, j) == BreakAt(s, j);
  }

  lemma StartFound(s: Text)
    ensures var k := Find(StartPattern, s);
            && (k < |s| ==> PriClosesAt(s, k)) && (forall j: nat | j < k :: !PriClosesAt(s, j))
  {
    Found(StartPattern, s);
    assert forall j: nat :: MatchesAt(StartPattern, s, j) == PriClosesAt(s, j);
  }

  // ----- Splitting a whole stream at once -----

  /** The stream cut at every break; the newline of each break is dropped. Never empty. */
  function Pieces(s: Text): (r: seq<Text>)
    ensures r != []
    decreases |s|
  {
    var k := Find(RunPattern, s);
    if k == |s| then [s] else [s[..k]] + Pieces(s[k + 1..])
  }

  /** What the framer has to work with: everything from the first PRI part on. */
  function FromFirstPri(s: Text): Text {
    s[Find(AnyPri, s)..]
  }

  function Dispatch(s: Text): Text {
    TrimRight(s, {CR})
  }

  /** What is dispatched is the piece without the carriage returns at its end. */
  lemma DispatchTrims(s: Text)
    ensures var m := Dispatch(s);
            && m <= s && (forall i | |m| <= i < |s| :: s[i] == 13)
            && (m != [] ==> m[|m| - 1] != 13)
  {
  }

  function DispatchAll(ms: seq<Text>): seq<Text> {
    seq(|ms|, i requires 0 <= i < |ms| => Dispatch(ms[i]))
  }

  // ----- Streaming, as a function of the state -----

  datatype State = State(buffer: Text, running: bool)

  const INITIAL := State([], false)

  function Push(st: State, b: Byte): (State, seq<Text>) {
    var buf := st.buffer + [b];
    var k := Find(if st.running then RunPattern else StartPattern, buf);
    if k == |buf| then (State(buf, st.running), [])
    else if !st.running then (State(buf[k..], true), [])
    else (State(buf[k + 1..], true), [Dispatch(buf[..k])])
  }

  function PushAll(st: State, s: Text): (State, seq<Text>) {
    if s == [] then (st, [])
    else
      var (mid, out) := PushAll(st, s[..|s| - 1]);
      var (end, more) := Push(mid, s[|s| - 1]);
      (end, out + more)
  }

  function Vestige(st: State): (State, seq<Text>) {
    if Find(AnyPri, st.buffer) == |st.buffer| then (State([], st.running), [])
    else (State([], st.running), [TrimRight(st.buffer, {CR, LF})])
  }

  /** What is left is given back, without the line feeds and carriage returns at its end, if it holds a PRI part. */
  lemma VestigeTrims(st: State)
    ensures HasPri(st.buffer) ==>
              exists m :: Vestige(st) == (State([], st.running), [m]) && WithoutLineEnds(st.buffer, m)
    ensures !HasPri(st.buffer) ==> Vestige(st) == (State([], st.running), [])
  {
    PriFound(st.buffer);
    TrimsLineEnds(st.buffer);
  }

  /** What every sequence of calls keeps: in start mode no PRI part has been seen, and in run mode
      no break is waiting in the buffer. */
  ghost predicate Inv(st: State) {
    if st.running then !HasBreak(st.buffer) else !HasPri(st.buffer)
  }

  // ----- Patterns and one more byte -----

  lemma PriGrows(s: Text, t: Text, i: nat)
    ensures PriAt(s, i) ==> PriAt(s + t, i)
    ensures BreakAt(s, i) ==> BreakAt(s + t, i)
  {
    forall n, m: nat | 1 <= n <= 3 && PriOfLength(s, m, n) ensures PriOfLength(s + t, m, n) { }
  }

  lemma PriShifts(s: Text, k: nat, i: nat)
    requires k <= |s|
    ensures PriAt(s[k..], i) <==> PriAt(s, k + i)
  {
    forall n: nat ensures PriOfLength(s[k..], i, n) <==> PriOfLength(s, k + i, n) {
      if PriOfLength(s[k..], i, n) {
        forall j | k + i < j <= k + i + n ensures IsDigit(s[j]) { assert s[j] == s[k..][j - k]; }
      }
    }
    if PriAt(s, k + i) {
      var n :| 1 <= n <= 3 && PriOfLength(s, k + i, n);
      assert PriOfLength(s[k..], i, n);
    }
  }

  /** A PRI part that one more byte brings about ends with that byte. */
  lemma NewPri(s: Text, b: Byte, i: nat)
    requires PriAt(s + [b], i) && !PriAt(s, i)
    ensures PriClosesAt(s + [b], i) && b == GT
    ensures forall j | i < j < |s| :: IsDigit(s[j])
  {
    var t := s + [b];
    var n :| 1 <= n <= 3 && PriOfLength(t, i, n);
    if i + n + 1 < |s| {
      assert forall j | 0 <= j < |s| :: t[j] == s[j];
      assert PriOfLength(s, i, n);
    } else {
      forall j | i < j < |s| ensures IsDigit(s[j]) { assert t[j] == s[j]; }
    }
  }

  /** Nothing in a PRI part is a newline, so a break never overlaps an earlier PRI part or break that
      the new byte completes. */
  lemma NewBreak(s: Text, b: Byte, i: nat)
    requires BreakAt(s + [b], i) && !BreakAt(s, i)
    ensures i < |s| && s[i] == LF && b == GT && forall j | i < j < |s| :: s[j] != LF
  {
    assert (s + [b])[i] == LF;
    NewPri(s, b, i + 1);
    assert i + 1 < |s| ==> (s + [b])[i + 1] == s[i + 1];
  }

  // ----- The split of a stream and one more byte -----

  lemma FirstPriSnoc(s: Text, b: Byte)
    requires HasPri(s)
    ensures FromFirstPri(s + [b]) == FromFirstPri(s) + [b]
  {
    var t, k := s + [b], Find(AnyPri, s);
    PriFound(s);
    PriFound(t);
    PriGrows(s, [b], k);
    forall j: nat | j < k ensures !PriAt(t, j) {
      if PriAt(t, j) {
        NewPri(s, b, j);
        assert false;
      }
    }
  }

  /** The byte that completes the first PRI part: the buffer is cut to that part alone. */
  lemma FirstPriAppears(s: Text, b: Byte)
    requires !HasPri(s)
    ensures Find(StartPattern, s + [b]) == Find(AnyPri, s + [b])
    ensures HasPri(s + [b]) <==> Find(AnyPri, s + [b]) < |s + [b]|
    ensures HasPri(s + [b]) ==> !HasBreak(FromFirstPri(s + [b]))
  {
    var t := s + [b];
    var k := Find(AnyPri, t);
    PriFound(t);
    StartFound(t);
    forall i: nat ensures PriAt(t, i) <==> PriClosesAt(t, i) {
      if PriAt(t, i) { NewPri(s, b, i); }
    }
    if k < |t| {
      NewPri(s, b, k);
      forall i: nat ensures !BreakAt(t[k..], i) {
        if i < |t[k..]| {
          assert t[k..][i] == t[k + i];
          assert t[k] == LT;
        }
      }
    }
  }

  lemma {:induction false} LastPieceUnbroken(s: Text)
    ensures var p := Pieces(s); !HasBreak(p[|p| - 1])
    decreases |s|
  {
    var k := Find(RunPattern, s);
    BreakFound(s);
    if k < |s| {
      LastPieceUnbroken(s[k + 1..]);
      CutAtFirstBreak(s);
      LastOfAppend([s[..k]], Pieces(s[k + 1..]));
    }
  }

  lemma UnbrokenIsOnePiece(s: Text)
    requires !HasBreak(s)
    ensures Pieces(s) == [s]
  {
    BreakFound(s);
  }

  /** The last piece plus one byte: it grows, or it splits in two and the second part is unbroken. */
  lemma PieceSplits(s: Text, b: Byte)
    requires !HasBreak(s)
    ensures var t := s + [b]; var k := Find(RunPattern, t);
            Pieces(t) == if k == |t| then [t] else [t[..k], t[k + 1..]]
  {
    var t := s + [b];
    var k := Find(RunPattern, t);
    BreakFound(t);
    if k < |t| {
      NewBreak(s, b, k);
      var u := t[k + 1..];
      forall i: nat ensures !BreakAt(u, i) {
        if i < |u| { assert u[i] == t[k + 1 + i]; }
      }
      UnbrokenIsOnePiece(u);
    }
  }

  lemma FirstBreakStays(s: Text, b: Byte)
    requires Find(RunPattern, s) < |s|
    ensures Find(RunPattern, s + [b]) == Find(RunPattern, s)
  {
    var t, k := s + [b], Find(RunPattern, s);
    BreakFound(s);
    BreakFound(t);
    PriGrows(s, [b], k);
    forall j: nat | j < k ensures !BreakAt(t, j) {
      if BreakAt(t, j) {
        NewBreak(s, b, j);
        assert false;
      }
    }
  }

  lemma {:induction false} PiecesSnoc(s: Text, b: Byte)
    ensures var p := Pieces(s);
            Pieces(s + [b]) == p[..|p| - 1] + Pieces(p[|p| - 1] + [b])
    decreases |s|
  {
    var k := Find(RunPattern, s);
    if k < |s| {
      var rest := s[k + 1..];
      var q := Pieces(rest);
      FirstBreakStays(s, b);
      PiecesSnoc(rest, b);
      CutInFront(s, [b], k);
      CutAtFirstBreak(s);
      CutAtFirstBreak(s + [b]);
      LastOfAppend([s[..k]], q);
      Associative([s[..k]], q[..|q| - 1], Pieces(q[|q| - 1] + [b]));
    } else {
      assert Pieces(s)[..0] == [];
    }
  }

  // ----- Streaming refines splitting -----

  /** For every byte stream: until the first PRI part nothing is dispatched and everything is kept; from then
      on the messages dispatched are the pieces of the stream from that part on, right-trimmed of CR, and the
      buffer is the piece still open. */
  lemma {:induction false} StreamingIsSplitting(s: Text)
    ensures var (st, out) := PushAll(INITIAL, s);
            if !HasPri(s) then st == State(s, false) && out == []
            else
              var p := Pieces(FromFirstPri(s));
              st == State(p[|p| - 1], true) && out == DispatchAll(p[..|p| - 1])
  {
    if s != [] {
      var n := |s| - 1;
      var front, b := s[..n], s[n];
      assert s == front + [b];
      StreamingIsSplitting(front);
      if HasPri(front) {
        StreamStepRunning(front, b);
      } else {
        FirstPriAppears(front, b);
        if HasPri(s) {
          UnbrokenIsOnePiece(FromFirstPri(s));
        }
      }
    }
  }

  lemma StreamStepRunning(s: Text, b: Byte)
    requires HasPri(s)
    ensures HasPri(s + [b])
    ensures var p, q := Pieces(FromFirstPri(s)), Pieces(FromFirstPri(s + [b]));
            var (st, out) := Push(State(p[|p| - 1], true), b);
            st == State(q[|q| - 1], true) && DispatchAll(p[..|p| - 1]) + out == DispatchAll(q[..|q| - 1])
  {
    var i: nat :| PriAt(s, i);
    PriGrows(s, [b], i);
    FirstPriSnoc(s, b);
    PushOnPieces(FromFirstPri(s), b);
  }

  lemma PushOnPieces(r: Text, b: Byte)
    ensures var p, q := Pieces(r), Pieces(r + [b]);
            var (st, out) := Push(State(p[|p| - 1], true), b);
            st == State(q[|q| - 1], true) && DispatchAll(p[..|p| - 1]) + out == DispatchAll(q[..|q| - 1])
  {
    LastPieceUnbroken(r);
    PiecesSnoc(r, b);
    PushOnPieceList(Pieces(r), Pieces(r + [b]), b);
  }

  lemma PushOnPieceList(p: seq<Text>, q: seq<Text>, b: Byte)
    requires p != [] && !HasBreak(p[|p| - 1])
    requires q == p[..|p| - 1] + Pieces(p[|p| - 1] + [b])
    ensures q != []
    ensures var (st, out) := Push(State(p[|p| - 1], true), b);
            st == State(q[|q| - 1], true) && DispatchAll(p[..|p| - 1]) + out == DispatchAll(q[..|q| - 1])
  {
    PushOnOpenPiece(p[..|p| - 1], p[|p| - 1], b);
    LastOfAppend(p[..|p| - 1], Pieces(p[|p| - 1] + [b]));
  }

  lemma PushOnOpenPiece(done: seq<Text>, open: Text, b: Byte)
    requires !HasBreak(open)
    ensures var q := Pieces(open + [b]);
            var (st, out) := Push(State(open, true), b);
            st == State(q[|q| - 1], true) && DispatchAll(done) + out == DispatchAll(done + q[..|q| - 1])
  {
    var t := open + [b];
    var k := Find(RunPattern, t);
    PieceSplits(open, b);
    if k < |t| {
      assert Pieces(t)[..1] == [t[..k]];
      DispatchSnoc(done, t[..k]);
    } else {
      assert Pieces(t)[..0] == [] && done + [] == done;
    }
  }

  lemma DispatchSnoc(ms: seq<Text>, m: Text)
    ensures DispatchAll(ms + [m]) == DispatchAll(ms) + [Dispatch(m)]
  {
  }

  // ----- What every sequence of calls keeps -----

  lemma PushKeepsInv(st: State, b: Byte)
    requires Inv(st)
    ensures Inv(Push(st, b).0)
  {
    var t := st.buffer + [b];
    if st.running {
      BreakFound(t);
      PieceSplits(st.buffer, b);
      LastPieceUnbroken(t);
    } else {
      FirstPriAppears(st.buffer, b);
      PriFound(t);
    }
  }

  datatype Call = PushByte(b: Byte) | TakeVestige

  function Perform(st: State, c: Call): (State, seq<Text>) {
    match c
    case PushByte(b) => Push(st, b)
    case TakeVestige => Vestige(st)
  }

  function After(calls: seq<Call>): State {
    if calls == [] then INITIAL else Perform(After(calls[..|calls| - 1]), calls[|calls| - 1]).0
  }

  /** Whatever calls are made, in whatever order: Vestige yields nothing before the switch to run mode. */
  lemma {:induction false} VestigeNeedsRunMode(calls: seq<Call>)
    ensures Inv(After(calls))
    ensures !After(calls).running ==> Vestige(After(calls)).1 == []
  {
    if calls != [] {
      var n := |calls| - 1;
      VestigeNeedsRunMode(calls[..n]);
      if calls[n].PushByte? {
        PushKeepsInv(After(calls[..n]), calls[n].b);
      }
    }
    PriFound(After(calls).buffer);
  }

  /** A piece of a stream that starts with a PRI part starts with a PRI part too. */
  lemma {:induction false} PiecesStartWithPri(s: Text)
    requires PriAt(s, 0)
    ensures forall i | 0 <= i < |Pieces(s)| :: PriAt(Pieces(s)[i], 0)
    decreases |s|
  {
    var k := Find(RunPattern, s);
    BreakFound(s);
    if k < |s| {
      PriShifts(s, k + 1, 0);
      PiecesStartWithPri(s[k + 1..]);
      PriBeforeNewline(s[..k], s[k..], 0);
      assert s == s[..k] + s[k..];
    }
  }

  /** No PRI part and no break reaches across a newline. */
  lemma PriBeforeNewline(a: Text, rest: Text, i: nat)
    requires rest != [] && rest[0] == LF
    ensures i < |a| ==> (PriAt(a + rest, i) <==> PriAt(a, i))
    ensures i < |a| ==> (BreakAt(a + rest, i) <==> BreakAt(a, i))
  {
    var t := a + rest;
    assert t[|a|] == LF;
    forall n: nat, m: nat | m <= |a| ensures PriOfLength(t, m, n) <==> PriOfLength(a, m, n) {
      if PriOfLength(t, m, n) {
        if m + n + 1 >= |a| {
          assert false;
        }
        forall j | m < j <= m + n ensures IsDigit(a[j]) { assert t[j] == a[j]; }
      }
    }
    assert PriAt(t, i + 1) && i < |a| ==> PriAt(a, i + 1);
  }

  /** After any byte stream, a final Vestige yields a message exactly if the stream holds a PRI part,
      which is exactly if the framer is in run mode. */
  lemma VestigeSucceedsIff(s: Text)
    ensures var st := PushAll(INITIAL, s).0;
            (Vestige(st).1 != [] <==> HasPri(s)) && (st.running <==> HasPri(s))
  {
    StreamingIsSplitting(s);
    var st := PushAll(INITIAL, s).0;
    PriFound(st.buffer);
    if HasPri(s) {
      OpenPieceHasPri(s);
    }
  }

  lemma OpenPieceHasPri(s: Text)
    requires HasPri(s)
    ensures var p := Pieces(FromFirstPri(s)); HasPri(p[|p| - 1])
  {
    PriFound(s);
    PriShifts(s, Find(AnyPri, s), 0);
    PiecesStartWithPri(FromFirstPri(s));
  }

  // ----- Recovering a list of messages -----

  /** What a sender's messages, joined by newlines, come back as: pushed byte by byte, then one Vestige. */
  function Recovered(s: Text): seq<Text> {
    var (st, out) := PushAll(INITIAL, s);
    out + Vestige(st).1
  }

  lemma FirstBreakOfAppend(a: Text, b: Text)
    requires PriAt(b, 0)
    ensures Find(RunPattern, a + ([LF] + b)) == Find(RunPattern, a)
  {
    var tail := [LF] + b;
    var t := a + tail;
    BreakFound(a);
    BreakFound(t);
    forall j: nat | j < |a| ensures BreakAt(t, j) <==> BreakAt(a, j) { PriBeforeNewline(a, tail, j); }
    assert t[|a| + 1..] == b;
    PriShifts(t, |a| + 1, 0);
    assert BreakAt(t, |a|);
  }

  /** Cutting two texts apart at a newline before a PRI part. */
  lemma {:induction false} PiecesAppend(a: Text, b: Text)
    requires PriAt(b, 0)
    ensures Pieces(a + ([LF] + b)) == Pieces(a) + Pieces(b)
    decreases |a|
  {
    var tail, k := [LF] + b, Find(RunPattern, a);
    FirstBreakOfAppend(a, b);
    CutAtFirstBreak(a + tail);
    if k < |a| {
      PiecesAppend(a[k + 1..], b);
      CutInFront(a, tail, k);
      CutAtFirstBreak(a);
      Associative([a[..k]], Pieces(a[k + 1..]), Pieces(b));
    } else {
      SplitAtNewline(a, b);
    }
  }

  lemma SplitAtNewline(a: Text, b: Text)
    ensures (a + ([LF] + b))[..|a|] == a && (a + ([LF] + b))[|a| + 1..] == b
  {
  }

  lemma CutAtFirstBreak(s: Text)
    requires Find(RunPattern, s) < |s|
    ensures var k := Find(RunPattern, s); Pieces(s) == [s[..k]] + Pieces(s[k + 1..])
  {
  }

  ghost predicate AllUnbroken(ms: seq<Text>) {
    forall i | 0 <= i < |ms| :: !HasBreak(ms[i])
  }

  lemma {:induction false} PiecesOfJoin(ms: seq<Text>)
    requires ms != [] && forall i | 0 <= i < |ms| :: PriAt(ms[i], 0)
    ensures PriAt(Join(ms, [LF]), 0)
    ensures var p := Pieces(Join(ms, [LF]));
            if AllUnbroken(ms) then p == ms else |p| > |ms|
  {
    PiecesOfOne(ms[0]);
    if |ms| > 1 {
      PiecesOfJoin(ms[1..]);
      JoinStep(ms[0], Join(ms[1..], [LF]), ms[1..]);
      Associative(ms[0], [LF], Join(ms[1..], [LF]));
      HeadTail(ms);
    }
  }

  lemma JoinStep(m: Text, rest: Text, more: seq<Text>)
    requires PriAt(m, 0) && PriAt(rest, 0)
    requires if AllUnbroken(more) then Pieces(rest) == more else |Pieces(rest)| > |more|
    ensures PriAt(m + ([LF] + rest), 0)
    ensures var p := Pieces(m + ([LF] + rest));
            if AllUnbroken([m] + more) then p == [m] + more else |p| > 1 + |more|
  {
    PriGrows(m, [LF] + rest, 0);
    PiecesAppend(m, rest);
    PiecesOfOne(m);
    UnbrokenCons(m, more);
  }

  lemma UnbrokenCons(m: Text, more: seq<Text>)
    ensures AllUnbroken([m] + more) <==> !HasBreak(m) && AllUnbroken(more)
  {
    var ms := [m] + more;
    assert ms[0] == m && forall i | 0 <= i < |more| :: ms[i + 1] == more[i];
  }

  lemma PiecesOfOne(m: Text)
    ensures if HasBreak(m) then |Pieces(m)| >= 2 else Pieces(m) == [m]
  {
    BreakFound(m);
  }

  /** A message that survives framing: no break inside, and no trailing byte that would be trimmed. */
  ghost predicate Survives(m: Text, last: bool) {
    !HasBreak(m) && m != [] && m[|m| - 1] != CR && (last ==> m[|m| - 1] != LF)
  }

  /** Messages that start with a PRI part, joined by newlines, are all recovered exactly if none holds a break
      or ends in CR, and the last does not end in LF. */
  lemma RecoveredIff(ms: seq<Text>)
    requires ms != [] && forall i | 0 <= i < |ms| :: PriAt(ms[i], 0)
    ensures Recovered(Join(ms, [LF])) == ms <==>
            forall i | 0 <= i < |ms| :: Survives(ms[i], i == |ms| - 1)
  {
    var s := Join(ms, [LF]);
    PiecesOfJoin(ms);
    RecoveredPieces(s);
    if AllUnbroken(ms) {
      TrimmedIff(ms);
    } else {
      BrokenDoesNotSurvive(ms);
      assert |Recovered(s)| > |ms|;
    }
  }

  lemma BrokenDoesNotSurvive(ms: seq<Text>)
    requires !AllUnbroken(ms)
    ensures !(forall i | 0 <= i < |ms| :: Survives(ms[i], i == |ms| - 1))
  {
    var i :| 0 <= i < |ms| && HasBreak(ms[i]);
    assert !Survives(ms[i], i == |ms| - 1);
  }

  lemma TrimmedIff(ms: seq<Text>)
    requires ms != [] && AllUnbroken(ms) && forall i | 0 <= i < |ms| :: PriAt(ms[i], 0)
    ensures DispatchAll(ms[..|ms| - 1]) + [TrimRight(ms[|ms| - 1], {CR, LF})] == ms <==>
            forall i | 0 <= i < |ms| :: Survives(ms[i], i == |ms| - 1)
  {
    var n := |ms| - 1;
    var r := DispatchAll(ms[..n]) + [TrimRight(ms[n], {CR, LF})];
    forall i | 0 <= i <= n ensures r[i] == ms[i] <==> Survives(ms[i], i == n) {
      TrimSurvives(ms[i], i == n);
    }
  }

  lemma TrimSurvives(m: Text, last: bool)
    requires !HasBreak(m) && PriAt(m, 0)
    ensures TrimRight(m, if last then {CR, LF} else {CR}) == m <==> Survives(m, last)
  {
    TrimRightKeeps(m, if last then {CR, LF} else {CR});
  }

  lemma RecoveredPieces(s: Text)
    requires PriAt(s, 0)
    ensures var p := Pieces(s);
            |Recovered(s)| == |p| && Recovered(s) == DispatchAll(p[..|p| - 1]) + [TrimRight(p[|p| - 1], {CR, LF})]
  {
    StreamingIsSplitting(s);
    VestigeSucceedsIff(s);
    WholeFromPri(s);
    VestigeIsBuffer(PushAll(INITIAL, s).0);
  }

  lemma WholeFromPri(s: Text)
    requires PriAt(s, 0)
    ensures HasPri(s) && FromFirstPri(s) == s
  {
    PriFound(s);
  }

  lemma VestigeIsBuffer(st: State)
    ensures Vestige(st).1 == [] || Vestige(st).1 == [TrimRight(st.buffer, {CR, LF})]
  {
  }

  // ----- The framer object -----

  class Delimiter {
    var buffer: Text
    var regex: Pattern

    ghost function View(): State
      reads this
    {
      State(buffer, regex == RunPattern)
    }

    ghost predicate Valid()
      reads this
    {
      regex != AnyPri && Inv(View())
    }

    constructor ()
      ensures Valid() && View() == INITIAL
    {
      buffer, regex := [], StartPattern;
    }

    method PushByte(b: Byte) returns (message: Text, ok: bool)
      requires Valid()
      modifies this
      ensures Valid()
      ensures (View(), if ok then [message] else []) == Push(old(View()), b)
      ensures !ok ==> message == []
    {
      PushKeepsInv(View(), b);
      buffer := buffer + [b];
      var k := Find(regex, buffer);
      if k == |buffer| {
        return [], false;
      }
      if regex == StartPattern {
        buffer, regex := buffer[k..], RunPattern;
        return [], false;
      }
      message, ok := TrimRight(buffer[..k], {CR}), true;
      buffer := buffer[k + 1..];
    }

    method TakeVestige() returns (message: Text, ok: bool)
      requires Valid()
      modifies this
      ensures Valid()
      ensures (View(), if ok then [message] else []) == Vestige(old(View()))
      ensures !ok ==> message == []
    {
      var k := Find(AnyPri, buffer);
      if k == |buffer| {
        buffer := [];
        return [], false;
      }
      message, ok := TrimRight(buffer, {CR, LF}), true;
      buffer := [];
    }
  }
}
