/** Bytes and byte strings, as the stream framers see them. */
module Bytes {

  type Byte = b: int | 0 <= b < 256

  type Text = seq<Byte>

  const LF: Byte := 10
  const CR: Byte := 13
  const SPACE: Byte := 32
  const DIGIT_0: Byte := 48
  const DIGIT_9: Byte := 57
  const COLON: Byte := 58
  const SEMICOLON: Byte := 59
  const LT: Byte := 60
  const GT: Byte := 62

  predicate IsDigit(b: Byte) {
    DIGIT_0 <= b <= DIGIT_9
  }

  predicate AllDigits(s: Text) {
    forall i | 0 <= i < |s| :: IsDigit(s[i])
  }

  /** The text without its trailing bytes from `cut`. */
  function TrimRight(s: Text, cut: set<Byte>): (r: Text)
    ensures r <= s
    ensures r != [] ==> r[|r| - 1] !in cut
    ensures forall i | |r| <= i < |s| :: s[i] in cut
  {
    if s != [] && s[|s| - 1] in cut then TrimRight(s[..|s| - 1], cut) else s
  }

  /** The second text is the first without the line feeds and carriage returns at its end. */
  predicate WithoutLineEnds(s: Text, r: Text) {
    && r <= s && (forall i | |r| <= i < |s| :: s[i] == 10 || s[i] == 13)
    && (r != [] ==> r[|r| - 1] != 10 && r[|r| - 1] != 13)
  }

  lemma TrimsLineEnds(s: Text)
    ensures WithoutLineEnds(s, TrimRight(s, {CR, LF}))
  {
  }

  /** Trimming changes a text exactly when its last byte is one of those cut. */
  lemma TrimRightKeeps(s: Text, cut: set<Byte>)
    ensures TrimRight(s, cut) == s <==> (s == [] || s[|s| - 1] !in cut)
  {
  }

  lemma {:induction false} TrimRightDrops(s: Text, tail: Text, cut: set<Byte>)
    requires forall i | 0 <= i < |tail| :: tail[i] in cut
    ensures TrimRight(s + tail, cut) == TrimRight(s, cut)
  {
    var n := |tail| - 1;
    if tail == [] {
      assert s + tail == s;
    } else {
      assert (s + tail)[..|s| + n] == s + tail[..n];
      TrimRightDrops(s, tail[..n], cut);
    }
  }

  /** Messages joined by a separator. */
  function Join(ms: seq<Text>, sep: Text): Text
    requires ms != []
  {
    if |ms| == 1 then ms[0] else ms[0] + sep + Join(ms[1..], sep)
  }
}
