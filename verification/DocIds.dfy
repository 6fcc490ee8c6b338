/** Document IDs (event.go:19-23) and their order (index.go:29-60): 32 hexadecimal digits that hold the reference
    time and the sequence number of an event, each as a 64-bit word. */
module DocIds {
  import opened Bytes

  type DocId = Text

  const TWO_63 := 0x8000_0000_0000_0000
  const TWO_64 := 0x1_0000_0000_0000_0000

  predicate IsInt64(x: int) {
    -TWO_63 <= x < TWO_63
  }

  /** Conversion of a signed to an unsigned 64-bit word. */
  function Unsigned(x: int): (u: nat)
    requires IsInt64(x)
    ensures u < TWO_64
  {
    if x < 0 then x + TWO_64 else x
  }

  // ----- Fixed-width hexadecimal -----

  function HexDigit(d: nat): Byte
    requires d < 16
  {
    if d < 10 then 48 + d else 87 + d
  }

  /** The lowest `width` hexadecimal digits of n, padded with zeros. */
  function Hex(n: nat, width: nat): (s: Text)
    ensures |s| == width
  {
    if width == 0 then [] else Hex(n / 16, width - 1) + [HexDigit(n % 16)]
  }

  datatype Parsed = Bad | Word(value: nat)

  /** The value of a hexadecimal digit in either case. */
  function HexValue(b: Byte): (p: Parsed)
    ensures p.Word? ==> p.value < 16
  {
    if IsDigit(b) then Word(b - DIGIT_0)
    else if 97 <= b <= 102 then Word(b - 87)
    else if 65 <= b <= 70 then Word(b - 55)
    else Bad
  }

  function ParseDigits(s: Text): Parsed {
    if s == [] then Word(0)
    else
      match (ParseDigits(s[..|s| - 1]), HexValue(s[|s| - 1]))
      case (Word(hi), Word(lo)) => Word(16 * hi + lo)
      case _ => Bad
  }

  /** Parsing a 64-bit word in base 16: fails on no digits, on other characters and on overflow. */
  function ParseWord(s: Text): Parsed {
    var p := ParseDigits(s);
    if s == [] || (p.Word? && p.value >= TWO_64) then Bad else p
  }

  function Pow16(w: nat): nat {
    if w == 0 then 1 else 16 * Pow16(w - 1)
  }

  lemma {:induction false} HexParses(n: nat, width: nat)
    requires n < Pow16(width)
    ensures ParseDigits(Hex(n, width)) == Word(n)
  {
    if width > 0 {
      var s := Hex(n, width);
      assert s[..|s| - 1] == Hex(n / 16, width - 1);
      HexParses(n / 16, width - 1);
    }
  }

  lemma WordParses(n: nat)
    requires n < TWO_64
    ensures ParseWord(Hex(n, 16)) == Word(n)
  {
    assert Pow16(16) == TWO_64 by {
      assert Pow16(4) == 0x1_0000;
      assert Pow16(8) == 0x1_0000_0000;
      assert Pow16(12) == 0x1_0000_0000_0000;
    }
    HexParses(n, 16);
  }

  /** Digits are written in lower case. */
  lemma WrittenDigit(d: nat)
    requires d < 16
    ensures HexDigit(d) == "0123456789abcdef"[d] as int
  {
  }

  /** They are read in either case, and nothing else is read as one. */
  lemma ReadDigitIff(b: Byte, d: nat)
    requires d < 16
    ensures HexValue(b) == Word(d) <==> b == "0123456789abcdef"[d] as int || b == "0123456789ABCDEF"[d] as int
  {
  }

  lemma DivideTwice(n: nat, p: nat)
    requires p > 0
    ensures n / 16 / p == n / (16 * p)
  {
    var q := n / 16 / p;
    var r := n / 16 - p * q;
    assert n == 16 * (p * q + r) + n % 16;
    QuotientIs(n, 16 * p, q, 16 * r + n % 16);
  }

  lemma QuotientIs(n: nat, m: nat, q: nat, r: nat)
    requires r < m && n == q * m + r
    ensures n / m == q
  {
    if n / m < q { Monotone(n / m + 1, q, m); } else if n / m > q { Monotone(q + 1, n / m, m); }
  }

  lemma Monotone(a: nat, b: nat, m: nat)
    requires a <= b
    ensures a * m <= b * m
  {
  }

  lemma PowIsPositive(k: nat)
    ensures Pow16(k) > 0
  {
  }

  /** The digit that stands at k counts as many sixteens as there are digits behind it. */
  lemma {:induction false} HexAt(n: nat, width: nat, k: nat)
    requires k < width
    ensures Pow16(width - 1 - k) > 0 && Hex(n, width)[k] == HexDigit(n / Pow16(width - 1 - k) % 16)
    decreases width
  {
    PowIsPositive(width - 1 - k);
    if k < width - 1 {
      HexAt(n / 16, width - 1, k);
      PowIsPositive(width - 2 - k);
      DivideTwice(n, Pow16(width - 2 - k));
    }
  }

  // ----- Event IDs -----

  function EventId(time: int, sequence: int): DocId
    requires IsInt64(time) && IsInt64(sequence)
  {
    Hex(Unsigned(time), 16) + Hex(Unsigned(sequence), 16)
  }

  /** The two words of an ID; Bad where the parser would panic. */
  datatype Words = Malformed | Words(hi: nat, lo: nat)

  function Split(id: DocId): Words {
    if |id| < 32 then Malformed
    else
      match (ParseWord(id[..16]), ParseWord(id[16..32]))
      case (Word(hi), Word(lo)) => Words(hi, lo)
      case _ => Malformed
  }

  predicate WordsLess(a: Words, b: Words)
    requires a.Words? && b.Words?
  {
    if a.hi == b.hi then a.lo < b.lo else a.hi < b.hi
  }

  /** IDs that can be compared without a panic. */
  predicate WellFormed(id: DocId) {
    Split(id).Words?
  }

  predicate IdLess(x: DocId, y: DocId)
    requires WellFormed(x) && WellFormed(y)
  {
    WordsLess(Split(x), Split(y))
  }

  /** Formatting and parsing an ID is a round trip. */
  lemma SplitEventId(time: int, sequence: int)
    requires IsInt64(time) && IsInt64(sequence)
    ensures Split(EventId(time, sequence)) == Words(Unsigned(time), Unsigned(sequence))
  {
    var id := EventId(time, sequence);
    WordParses(Unsigned(time));
    WordParses(Unsigned(sequence));
    assert id[..16] == Hex(Unsigned(time), 16) && id[16..32] == Hex(Unsigned(sequence), 16);
  }

  lemma EventIdInjective(t: int, s: int, t': int, s': int)
    requires IsInt64(t) && IsInt64(s) && IsInt64(t') && IsInt64(s')
    requires EventId(t, s) == EventId(t', s')
    ensures t == t' && s == s'
  {
    SplitEventId(t, s);
    SplitEventId(t', s');
  }

  /** Earlier, or at the same time and received before. */
  predicate Before(t: int, s: int, t': int, s': int) {
    t < t' || (t == t' && s < s')
  }

  /** The times stand on the same side of 1970, and so do the sequence numbers of zero if the times are equal. */
  predicate SameSide(t: int, s: int, t': int, s': int) {
    ((t < 0) == (t' < 0)) && (t == t' ==> ((s < 0) == (s' < 0)))
  }

  /** The order of the IDs of two different events is the order in which the events occurred exactly if both stand on
      the same side; otherwise it is the opposite order. */
  lemma IdOrderIsTimeOrderIff(t: int, s: int, t': int, s': int)
    requires IsInt64(t) && IsInt64(s) && IsInt64(t') && IsInt64(s')
    requires (t, s) != (t', s')
    ensures var x, y := EventId(t, s), EventId(t', s');
            && WellFormed(x) && WellFormed(y)
            && ((IdLess(x, y) <==> Before(t, s, t', s')) <==> SameSide(t, s, t', s'))
  {
    SplitEventId(t, s);
    SplitEventId(t', s');
  }

  // ----- Less is a strict order, total on different words -----

  lemma LessIsStrictOrder(x: DocId, y: DocId, z: DocId)
    requires WellFormed(x) && WellFormed(y) && WellFormed(z)
    ensures !IdLess(x, x)
    ensures IdLess(x, y) && IdLess(y, z) ==> IdLess(x, z)
    ensures Split(x) != Split(y) ==> IdLess(x, y) || IdLess(y, x)
  {
  }
}
