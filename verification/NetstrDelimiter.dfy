/** The netstring framer (input/delimiter_netstrings.go): a decimal length, `:`, that many bytes and one
    terminator byte, pushed one byte at a time. */
module NetstrDelimiter {
  import opened Bytes
  import opened Sequences
  import opened Wrappers

  /** The largest value of a 64-bit int. */
  const MAX_INT := 0x7fff_ffff_ffff_ffff

  datatype Error = Broken | LengthByteInvalid | LengthConversion

  datatype State = State(
    lenBuff: Text, valBuff: Text, valBuffLen: nat, valBuffMode: bool, brokenMode: bool, result: Text)

  const INITIAL := State([], [], 0, false, false, [])

  // ----- Decimal lengths -----

  function Decimal(s: Text): nat
    requires AllDigits(s)
  {
    if s == [] then 0 else 10 * Decimal(s[..|s| - 1]) + (s[|s| - 1] - DIGIT_0)
  }

  /** Conversion of a digit string to an int: fails on the empty string and on overflow. */
  function Atoi(s: Text): Option<nat>
    requires AllDigits(s)
  {
    if s == [] || Decimal(s) > MAX_INT then None else Some(Decimal(s))
  }

  function Itoa(n: nat): (s: Text)
    ensures s != [] && AllDigits(s)
  {
    if n < 10 then [DIGIT_0 + n] else Itoa(n / 10) + [DIGIT_0 + n % 10]
  }

  lemma {:induction false} ItoaIsDecimal(n: nat)
    ensures Decimal(Itoa(n)) == n
  {
    if n < 10 {
      assert Itoa(n)[..0] == [];
    } else {
      ItoaIsDecimal(n / 10);
      var s := Itoa(n);
      assert s[..|s| - 1] == Itoa(n / 10);
    }
  }

  function Pow10(k: nat): nat {
    if k == 0 then 1 else 10 * Pow10(k - 1)
  }

  /** The leading digit counts as many tens as there are digits behind it. */
  lemma {:induction false} DecimalIsPositional(d: Byte, s: Text)
    requires IsDigit(d) && AllDigits(s)
    ensures Decimal([d] + s) == (d - 48) * Pow10(|s|) + Decimal(s)
  {
    if s == [] {
      assert [d] + s == [d] && [d][..0] == [];
    } else {
      var front := s[..|s| - 1];
      DecimalIsPositional(d, front);
      assert ([d] + s)[..|s|] == [d] + front;
    }
  }

  /** A number is written without leading zeros. */
  lemma {:induction false} ItoaHasNoLeadingZero(n: nat)
    ensures Itoa(n)[0] == 48 <==> n == 0
    ensures n == 0 ==> |Itoa(n)| == 1
  {
    if n >= 10 { ItoaHasNoLeadingZero(n / 10); }
  }

  /** Exactly these lengths are taken: some digits, of a value that a signed 64-bit int holds. */
  lemma LengthIsTakenIff(s: Text)
    requires AllDigits(s)
    ensures Atoi(s) == Some(Decimal(s)) <==> s != [] && Decimal(s) <= 9_223_372_036_854_775_807
    ensures Atoi(s) == None <==> s == [] || Decimal(s) > 9_223_372_036_854_775_807
  {
  }

  // ----- One byte -----

  /** What a call to Push reports besides its new state. */
  datatype Event = Got(result: Text) | Failed(error: Error)

  ghost predicate Valid(st: State) {
    && AllDigits(st.lenBuff)
    && (st.valBuffMode ==> st.lenBuff == [] && !st.brokenMode)
    && (!st.valBuffMode ==> st.valBuff == [])
  }

  function PushLength(st: State, b: Byte): (State, seq<Event>)
    requires Valid(st)
  {
    if b == COLON then
      match Atoi(st.lenBuff)
      case Some(n) => (st.(lenBuff := [], valBuffLen := n, valBuffMode := true), [])
      case None =>
        // The length is assigned before the error is looked at.
        (st.(valBuffLen := if st.lenBuff == [] then 0 else MAX_INT, brokenMode := true), [Failed(LengthConversion)])
    else if IsDigit(b) then (st.(lenBuff := st.lenBuff + [b]), [])
    else (st.(brokenMode := true), [Failed(LengthByteInvalid)])
  }

  /** The byte after the value ends it, whatever that byte is. */
  function PushValue(st: State, b: Byte): (State, seq<Event>) {
    if st.valBuffLen == 0 then (Reset(st), [Got(st.valBuff)])
    else (st.(valBuffLen := st.valBuffLen - 1, valBuff := st.valBuff + [b]), [])
  }

  function Reset(st: State): State {
    st.(result := st.valBuff, valBuff := [], valBuffMode := false)
  }

  function Push(st: State, b: Byte): (State, seq<Event>)
    requires Valid(st)
  {
    if st.brokenMode then (st, [Failed(Broken)])
    else if st.valBuffMode then PushValue(st, b)
    else PushLength(st, b)
  }

  lemma PushKeepsValid(st: State, b: Byte)
    requires Valid(st)
    ensures Valid(Push(st, b).0)
  {
  }

  function Run(st: State, s: Text): (r: (State, seq<Event>))
    requires Valid(st)
    ensures Valid(r.0)
    decreases |s|
  {
    if s == [] then (st, [])
    else
      PushKeepsValid(st, s[0]);
      var (mid, es) := Push(st, s[0]);
      var (end, more) := Run(mid, s[1..]);
      (end, es + more)
  }

  lemma {:induction false} RunAppend(st: State, a: Text, b: Text)
    requires Valid(st)
    ensures var (mid, es) := Run(st, a); var (end, more) := Run(mid, b);
            Run(st, a + b) == (end, es + more)
    decreases |a|
  {
    if a == [] {
      assert a + b == b;
      NilAppend(Run(st, b).1);
    } else {
      assert (a + b)[0] == a[0] && (a + b)[1..] == a[1..] + b;
      PushKeepsValid(st, a[0]);
      var (mid, es) := Push(st, a[0]);
      RunAppend(mid, a[1..], b);
      var (mid2, es2) := Run(mid, a[1..]);
      Associative(es, es2, Run(mid2, b).1);
    }
  }

  /** Two stretches in a row, the first of which reports nothing. */
  lemma QuietThen(st: State, a: Text, mid: State, b: Text)
    requires Valid(st) && Run(st, a) == (mid, [])
    ensures Run(st, a + b) == Run(mid, b)
  {
    RunAppend(st, a, b);
    NilAppend(Run(mid, b).1);
  }

  // ----- The reference: decoding a whole stream at once -----

  /** Where decoding stops. */
  datatype Tail =
    | InLength(digits: Text)                    // digits of a length not yet closed
    | InValue(declared: nat, value: Text)       // part of a value, or all of it without its terminator
    | Stopped(error: Error, digits: Text, ignored: nat)  // an error, and the number of bytes after it

  datatype Decoded = Decoded(results: seq<Text>, tail: Tail)

  function DigitRun(s: Text): (n: nat)
    ensures n <= |s| && AllDigits(s[..n]) && (n < |s| ==> !IsDigit(s[n]))
  {
    if s == [] || !IsDigit(s[0]) then 0
    else
      var n := 1 + DigitRun(s[1..]);
      assert s[..n] == [s[0]] + s[1..][..n - 1];
      n
  }

  function Decode(s: Text): Decoded
    decreases |s|
  {
    var n := DigitRun(s);
    if n == |s| then Decoded([], InLength(s))
    else
      var left := |s| - n - 1;
      if s[n] != COLON then Decoded([], Stopped(LengthByteInvalid, s[..n], left))
      else if Atoi(s[..n]).None? then Decoded([], Stopped(LengthConversion, s[..n], left))
      else
        var len, rest := Atoi(s[..n]).value, s[n + 1..];
        if |rest| <= len then Decoded([], InValue(len, rest))
        else
          var d := Decode(rest[len + 1..]);
          Decoded([rest[..len]] + d.results, d.tail)
  }

  function Gots(rs: seq<Text>): seq<Event> {
    seq(|rs|, i requires 0 <= i < |rs| => Got(rs[i]))
  }

  function Brokens(n: nat): seq<Event> {
    seq(n, i => Failed(Broken))
  }

  /** Everything reported on a stream that decodes to `d`. */
  function Reported(d: Decoded): seq<Event> {
    Gots(d.results) + if d.tail.Stopped? then [Failed(d.tail.error)] + Brokens(d.tail.ignored) else []
  }

  ghost predicate AtTail(st: State, t: Tail) {
    match t
    case InLength(ds) => !st.brokenMode && !st.valBuffMode && st.lenBuff == ds
    case InValue(n, v) => !st.brokenMode && st.valBuffMode && st.valBuff == v && |st.valBuff| + st.valBuffLen == n
    case Stopped(_, ds, _) => st.brokenMode && !st.valBuffMode && st.lenBuff == ds
  }

  /** Ready for a new length. */
  predicate Ready(st: State) {
    st.lenBuff == [] && st.valBuff == [] && !st.valBuffMode && !st.brokenMode
  }

  lemma {:induction false} RunDigits(st: State, ds: Text)
    requires Valid(st) && !st.brokenMode && !st.valBuffMode && AllDigits(ds)
    ensures Run(st, ds) == (st.(lenBuff := st.lenBuff + ds), [])
    decreases |ds|
  {
    if ds == [] {
      assert st.lenBuff + ds == st.lenBuff;
    } else {
      var next := st.(lenBuff := st.lenBuff + [ds[0]]);
      assert Push(st, ds[0]) == (next, []);
      RunDigits(next, ds[1..]);
      NilAppend<Event>([]);
      HeadTail(ds);
      Associative(st.lenBuff, [ds[0]], ds[1..]);
    }
  }

  lemma {:induction false} RunValue(st: State, v: Text)
    requires Valid(st) && st.valBuffMode && |v| <= st.valBuffLen
    ensures Run(st, v) == (st.(valBuff := st.valBuff + v, valBuffLen := st.valBuffLen - |v|), [])
    decreases |v|
  {
    if v == [] {
      assert st.valBuff + v == st.valBuff;
    } else {
      var next := st.(valBuff := st.valBuff + [v[0]], valBuffLen := st.valBuffLen - 1);
      assert Push(st, v[0]) == (next, []);
      RunValue(next, v[1..]);
      NilAppend<Event>([]);
      HeadTail(v);
      Associative(st.valBuff, [v[0]], v[1..]);
    }
  }

  /** Once broken, always broken: the state never changes again and every byte is answered with an error. */
  lemma {:induction false} BrokenIsAbsorbing(st: State, s: Text)
    requires Valid(st) && st.brokenMode
    ensures Run(st, s) == (st, Brokens(|s|))
    decreases |s|
  {
    if s == [] {
      assert Brokens(0) == [];
    } else {
      BrokenIsAbsorbing(st, s[1..]);
      assert [Failed(Broken)] + Brokens(|s| - 1) == Brokens(|s|);
    }
  }

  lemma RunOne(st: State, b: Byte)
    requires Valid(st)
    ensures Run(st, [b]) == Push(st, b)
  {
    PushKeepsValid(st, b);
    var (mid, es) := Push(st, b);
    assert [b][1..] == [] && es + [] == es;
  }

  /** A length and its colon. */
  lemma RunLength(st: State, ds: Text)
    requires Ready(st) && AllDigits(ds) && Atoi(ds).Some?
    ensures Run(st, ds + [COLON]) == (st.(valBuffLen := Atoi(ds).value, valBuffMode := true), [])
  {
    RunDigits(st, ds);
    NilAppend(ds);
    var closed := st.(lenBuff := ds);
    RunOne(closed, COLON);
    QuietThen(st, ds, closed, [COLON]);
  }

  lemma RunFreshValue(st: State, v: Text)
    requires Valid(st) && st.valBuffMode && st.valBuff == [] && |v| <= st.valBuffLen
    ensures Run(st, v) == (st.(valBuff := v, valBuffLen := st.valBuffLen - |v|), [])
  {
    RunValue(st, v);
    NilAppend(v);
  }

  lemma RunIntoValue(st: State, opening: Text, n: nat, v: Text)
    requires Ready(st) && |v| <= n && Run(st, opening) == (st.(valBuffLen := n, valBuffMode := true), [])
    ensures Run(st, opening + v) == (st.(valBuff := v, valBuffLen := n - |v|, valBuffMode := true), [])
  {
    var open := st.(valBuffLen := n, valBuffMode := true);
    RunFreshValue(open, v);
    QuietThen(st, opening, open, v);
  }

  /** A length, its colon and part of the value. */
  lemma RunOpening(st: State, ds: Text, v: Text)
    requires Ready(st) && AllDigits(ds) && Atoi(ds).Some? && |v| <= Atoi(ds).value
    ensures Run(st, ds + [COLON] + v) ==
            (st.(valBuff := v, valBuffLen := Atoi(ds).value - |v|, valBuffMode := true), [])
  {
    RunLength(st, ds);
    RunIntoValue(st, ds + [COLON], Atoi(ds).value, v);
  }

  /** A whole frame: one result, reported at the terminator, and the machine is ready again. */
  lemma RunFrame(st: State, ds: Text, v: Text, terminator: Byte)
    requires Ready(st) && AllDigits(ds) && Atoi(ds) == Some(|v|)
    ensures var end := st.(result := v, valBuffLen := 0);
            Ready(end) && Run(st, ds + [COLON] + v + [terminator]) == (end, [Got(v)])
  {
    RunOpening(st, ds, v);
    var full := st.(valBuff := v, valBuffLen := 0, valBuffMode := true);
    RunOne(full, terminator);
    QuietThen(st, ds + [COLON] + v, full, [terminator]);
  }

  lemma RunError(st: State, ds: Text, b: Byte, rest: Text)
    requires Ready(st) && AllDigits(ds) && !IsDigit(b) && (b == COLON ==> Atoi(ds).None?)
    ensures var (end, es) := Run(st, ds + [b] + rest);
            && AtTail(end, Stopped(LengthByteInvalid, ds, |rest|))
            && es == [Failed(if b == COLON then LengthConversion else LengthByteInvalid)] + Brokens(|rest|)
  {
    RunDigits(st, ds);
    NilAppend(ds);
    var closed := st.(lenBuff := ds);
    RunOne(closed, b);
    QuietThen(st, ds, closed, [b]);
    var (end, es) := Push(closed, b);
    BrokenIsAbsorbing(end, rest);
    RunAppend(st, ds + [b], rest);
  }

  /** On every stream, from any state that is ready for a length: what is reported and where the machine ends up
      is what the reference decoder says. */
  lemma {:induction false} MachineDecodes(st: State, s: Text)
    requires Ready(st)
    ensures var (end, es) := Run(st, s); es == Reported(Decode(s)) && AtTail(end, Decode(s).tail)
    decreases |s|
  {
    var n := DigitRun(s);
    if n == |s| {
      RunDigits(st, s);
      NilAppend(s);
    } else {
      var ds, b, rest := s[..n], s[n], s[n + 1..];
      assert s == ds + [b] + rest;
      if b != COLON || Atoi(ds).None? {
        RunError(st, ds, b, rest);
        NilAppend([Failed(if b == COLON then LengthConversion else LengthByteInvalid)] + Brokens(|rest|));
      } else {
        var len := Atoi(ds).value;
        if |rest| <= len {
          RunOpening(st, ds, rest);
        } else {
          DecodeFrame(st, s, n, len);
        }
      }
    }
  }

  lemma {:induction false} DecodeFrame(st: State, s: Text, n: nat, len: nat)
    requires Ready(st) && n == DigitRun(s) < |s| && s[n] == COLON && Atoi(s[..n]) == Some(len) && |s| - n - 1 > len
    ensures var (end, es) := Run(st, s); es == Reported(Decode(s)) && AtTail(end, Decode(s).tail)
    decreases |s|, 0
  {
    var ds, rest := s[..n], s[n + 1..];
    var v, terminator, more := rest[..len], rest[len], rest[len + 1..];
    assert s == ds + [COLON] + v + [terminator] + more;
    RunFrame(st, ds, v, terminator);
    var next := st.(result := v, valBuffLen := 0);
    RunAppend(st, ds + [COLON] + v + [terminator], more);
    MachineDecodes(next, more);
    ReportedCons(v, Decode(more));
  }

  lemma ReportedCons(v: Text, d: Decoded)
    ensures Reported(Decoded([v] + d.results, d.tail)) == [Got(v)] + Reported(d)
  {
    assert Gots([v] + d.results) == [Got(v)] + Gots(d.results);
  }

  // ----- Round trip -----

  function EncodeOne(m: Text): Text {
    Itoa(|m|) + [COLON] + m + [SEMICOLON]
  }

  function Encode(ms: seq<Text>): Text {
    if ms == [] then [] else EncodeOne(ms[0]) + Encode(ms[1..])
  }

  /** Every list of texts of representable length comes back exactly, one result for each and no error, and the
      machine is ready for the next length. */
  lemma {:induction false} RoundTrip(st: State, ms: seq<Text>)
    requires Ready(st) && forall i | 0 <= i < |ms| :: |ms[i]| <= MAX_INT
    ensures var (end, es) := Run(st, Encode(ms));
            Ready(end) && es == Gots(ms) && (ms != [] ==> end.result == ms[|ms| - 1])
    decreases |ms|
  {
    if ms != [] {
      var m, more := ms[0], ms[1..];
      ItoaIsDecimal(|m|);
      RunFrame(st, Itoa(|m|), m, SEMICOLON);
      var next := st.(result := m, valBuffLen := 0);
      RoundTrip(next, more);
      RunAppend(st, EncodeOne(m), Encode(more));
      assert ms == [m] + more;
      assert Gots(ms) == [Got(m)] + Gots(more);
    }
  }

  /** Within a frame nothing is reported before its last byte. */
  lemma QuietUntilTerminator(st: State, m: Text, k: nat)
    requires Ready(st) && |m| <= MAX_INT && k <= |m|
    ensures Run(st, Itoa(|m|) + [COLON] + m[..k]).1 == []
  {
    ItoaIsDecimal(|m|);
    RunOpening(st, Itoa(|m|), m[..k]);
  }

  // ----- Reset -----

  /** Reset leads back to the initial state exactly from here: no length has been started, nothing of a value has been
      read or is still due, and the machine is not broken. A value cut short becomes the result, and the number of its
      bytes still due stays behind. */
  lemma ResetRestoresIff(st: State)
    requires Valid(st)
    ensures Reset(st) == INITIAL <==>
            st.lenBuff == [] && st.valBuff == [] && st.valBuffLen == 0 && !st.brokenMode
    ensures Reset(st).result == st.valBuff && Reset(st).valBuffLen == st.valBuffLen
  {
  }

  /** So Reset in the middle of a value leaves what was read of it as the result, and how much of it is due. */
  lemma ResetKeepsPartOfValue(st: State, ds: Text, n: nat, v: Text)
    requires Ready(st) && AllDigits(ds) && Atoi(ds) == Some(n) && |v| <= n
    ensures Reset(Run(st, ds + [COLON] + v).0) == st.(result := v, valBuffLen := n - |v|)
  {
    RunOpening(st, ds, v);
  }

  /** Reset makes the machine answer every stream as a new one would exactly if no length has been started and it is
      not broken: it clears neither the length digits nor the broken mode. */
  lemma ResetStartsAfreshIff(st: State)
    requires Valid(st)
    ensures (forall s: Text :: Run(Reset(st), s).1 == Run(INITIAL, s).1) <==> st.lenBuff == [] && !st.brokenMode
  {
    var r := Reset(st);
    if st.lenBuff == [] && !st.brokenMode {
      forall s: Text ensures Run(r, s).1 == Run(INITIAL, s).1 {
        MachineDecodes(r, s);
        MachineDecodes(INITIAL, s);
      }
    } else if st.brokenMode {
      RunOne(r, SEMICOLON);
      RunOne(INITIAL, SEMICOLON);
      assert Run(r, [SEMICOLON]).1 != Run(INITIAL, [SEMICOLON]).1;
    } else {
      StaleDigitsShow(r);
    }
  }

  lemma StaleDigitsShow(r: State)
    requires Valid(r) && !r.brokenMode && !r.valBuffMode && r.lenBuff != []
    ensures exists s: Text :: Run(r, s).1 != Run(INITIAL, s).1
  {
    RunOne(r, COLON);
    RunOne(INITIAL, COLON);
    if Atoi(r.lenBuff).Some? {
      assert Run(r, [COLON]).1 != Run(INITIAL, [COLON]).1;
    } else {
      StaleOverflow(r);
      RunLength(INITIAL, [DIGIT_0]);
      assert Run(r, [DIGIT_0] + [COLON]).1 != Run(INITIAL, [DIGIT_0] + [COLON]).1;
    }
  }

  /** Stale digits that already overflow make a length of one digit fail. */
  lemma StaleOverflow(r: State)
    requires Valid(r) && !r.brokenMode && !r.valBuffMode && r.lenBuff != [] && Atoi(r.lenBuff).None?
    ensures Run(r, [DIGIT_0] + [COLON]).1 == [Failed(LengthConversion)]
    ensures Atoi([DIGIT_0]) == Some(0)
  {
    RunDigits(r, [DIGIT_0]);
    var next := r.(lenBuff := r.lenBuff + [DIGIT_0]);
    assert next.lenBuff[..|next.lenBuff| - 1] == r.lenBuff;
    RunOne(next, COLON);
    QuietThen(r, [DIGIT_0], next, [COLON]);
    ItoaIsDecimal(0);
    assert Itoa(0) == [DIGIT_0];
  }

  // ----- The framer object -----

  class Delimiter {
    var result: Text
    var lenBuff: Text
    var valBuff: Text
    var valBuffLen: nat
    var valBuffMode: bool
    var brokenMode: bool

    ghost function View(): State
      reads this
    {
      State(lenBuff, valBuff, valBuffLen, valBuffMode, brokenMode, result)
    }

    /** The new state, the flag and the error of a call are those of the reference step. */
    ghost predicate Stepped(r: (State, seq<Event>), ok: bool, err: Option<Error>)
      reads this
    {
      && View() == r.0
      && r.1 == (if ok then [Got(result)] else if err.Some? then [Failed(err.value)] else [])
      && !(ok && err.Some?)
    }

    constructor ()
      ensures Valid(View()) && View() == INITIAL
    {
      result, lenBuff, valBuff, valBuffLen, valBuffMode, brokenMode := [], [], [], 0, false, false;
    }

    method PushByte(b: Byte) returns (ok: bool, err: Option<Error>)
      requires Valid(View())
      modifies this
      ensures Valid(View()) && Stepped(Push(old(View()), b), ok, err)
    {
      PushKeepsValid(View(), b);
      if brokenMode {
        return false, Some(Broken);
      }
      ok, err := ProcessByte(b);
    }

    method ProcessByte(b: Byte) returns (ok: bool, err: Option<Error>)
      requires Valid(View()) && !brokenMode
      modifies this
      ensures Stepped(Push(old(View()), b), ok, err)
    {
      if valBuffMode {
        ok, err := ProcessValByte(b);
      } else {
        ok, err := ProcessLenByte(b);
      }
    }

    method ProcessLenByte(b: Byte) returns (ok: bool, err: Option<Error>)
      requires Valid(View()) && !brokenMode && !valBuffMode
      modifies this
      ensures Stepped(PushLength(old(View()), b), ok, err)
    {
      if b == COLON {
        err := UseValBuff();
        return false, err;
      }
      var digit := CheckLenByte(b);
      if digit {
        lenBuff := lenBuff + [b];
        return false, None;
      }
      brokenMode := true;
      return false, Some(LengthByteInvalid);
    }

    /** Compares the byte with each of the ten digits in turn. */
    method CheckLenByte(b: Byte) returns (digit: bool)
      ensures digit == IsDigit(b)
    {
      if IsDigit(b) {
        assert Itoa(b - DIGIT_0)[0] == b;
      }
      for i := 0 to 10
        invariant forall j | 0 <= j < i :: Itoa(j)[0] != b
      {
        if Itoa(i)[0] == b {
          return true;
        }
      }
      return false;
    }

    method ProcessValByte(b: Byte) returns (ok: bool, err: Option<Error>)
      requires Valid(View()) && valBuffMode
      modifies this
      ensures Stepped(PushValue(old(View()), b), ok, err)
    {
      if valBuffLen == 0 {
        UseLenBuff();
        return true, None;
      }
      valBuffLen := valBuffLen - 1;
      valBuff := valBuff + [b];
      return false, None;
    }

    method UseLenBuff()
      modifies this
      ensures View() == Reset(old(View()))
    {
      result := valBuff;
      valBuff := [];
      valBuffMode := false;
    }

    method UseValBuff() returns (err: Option<Error>)
      requires Valid(View()) && !brokenMode && !valBuffMode
      modifies this
      ensures Stepped(PushLength(old(View()), COLON), false, err)
    {
      var n := Atoi(lenBuff);
      if n.None? {
        valBuffLen := if lenBuff == [] then 0 else MAX_INT;
        brokenMode := true;
        return Some(LengthConversion);
      }
      valBuffLen := n.value;
      lenBuff := [];
      valBuffMode := true;
      return None;
    }
  }
}
