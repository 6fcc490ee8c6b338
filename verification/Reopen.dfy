/** Closing an index and opening it again (index.go:95-213, 392-417): shards are found by listing a directory, so
    their order must come back from their names, or documents would be looked for on the wrong shard. */
module Reopen {
  import opened Bytes
  import opened DocIds
  import opened Sequences
  import opened Windows
  import opened Store

  const DOT: Byte := 46

  // ----- Names -----

  /** The lowest `width` decimal digits of n, padded with zeros. */
  function Digits(n: nat, width: nat): (s: Text)
    ensures |s| == width
  {
    if width == 0 then [] else Digits(n / 10, width - 1) + [DIGIT_0 + n % 10]
  }

  const NAME_WIDTH := 4

  /** Shard names have four digits. */
  function ShardName(n: nat): Text
    requires n <= MAX_SHARDS
  {
    Digits(n, NAME_WIDTH)
  }

  lemma DigitsNext(n: nat, width: nat)
    requires width > 0
    ensures Digits(n, width) == Digits(n / 10, width - 1) + [48 + n % 10]
  {
  }

  /** The name of a shard: its number in four decimal digits. */
  lemma ShardNameText(n: nat)
    requires n <= MAX_SHARDS
    ensures ShardName(n) == [48 + n / 10 / 10 / 10 % 10, 48 + n / 10 / 10 % 10, 48 + n / 10 % 10, 48 + n % 10]
  {
    DigitsNext(n, 4);
    DigitsNext(n / 10, 3);
    DigitsNext(n / 10 / 10, 2);
    DigitsNext(n / 10 / 10 / 10, 1);
  }

  function ShardNames(count: nat): (names: seq<Text>)
    requires count <= MAX_SHARDS
    ensures |names| == count
  {
    seq(count, i requires 0 <= i < count => ShardName(i))
  }

  // ----- Alphabetical order -----

  predicate TextLess(a: Text, b: Text) {
    b != [] && (a == [] || a[0] < b[0] || (a[0] == b[0] && TextLess(a[1..], b[1..])))
  }

  lemma {:induction false} TextLessTrans(a: Text, b: Text, c: Text)
    requires TextLess(a, b) && TextLess(b, c)
    ensures TextLess(a, c)
    decreases |a|
  {
    if a != [] && a[0] == b[0] == c[0] { TextLessTrans(a[1..], b[1..], c[1..]); }
  }

  lemma {:induction false} TextLessIrreflexive(a: Text)
    ensures !TextLess(a, a)
    decreases |a|
  {
    if a != [] { TextLessIrreflexive(a[1..]); }
  }

  /** Among texts of the same length, the last byte decides only between equal beginnings. */
  lemma {:induction false} TextLessSnoc(a: Text, b: Text, x: Byte, y: Byte)
    requires |a| == |b|
    ensures TextLess(a + [x], b + [y]) <==> TextLess(a, b) || (a == b && x < y)
    decreases |a|
  {
    if a == [] {
      assert (a + [x])[1..] == [] && (b + [y])[1..] == [];
    } else {
      assert (a + [x])[1..] == a[1..] + [x] && (b + [y])[1..] == b[1..] + [y];
      assert a == [a[0]] + a[1..] && b == [b[0]] + b[1..];
      TextLessSnoc(a[1..], b[1..], x, y);
    }
  }

  function Pow10(w: nat): nat {
    if w == 0 then 1 else 10 * Pow10(w - 1)
  }

  lemma SnocEqual(a: Text, b: Text, x: Byte, y: Byte)
    requires |a| == |b|
    ensures a + [x] == b + [y] <==> a == b && x == y
  {
    assert (a + [x])[..|a|] == a && (b + [y])[..|a|] == b;
    assert (a + [x])[|a|] == x && (b + [y])[|a|] == y;
  }

  lemma LastDigitDecides(i: nat, j: nat)
    ensures i < j <==> i / 10 < j / 10 || (i / 10 == j / 10 && i % 10 < j % 10)
    ensures i == j <==> i / 10 == j / 10 && i % 10 == j % 10
  {
  }

  /** The texts stand in the order of the numbers. */
  predicate SameOrder(a: Text, b: Text, i: nat, j: nat) {
    (TextLess(a, b) <==> i < j) && (a == b <==> i == j)
  }

  lemma OneDigitMore(a: Text, b: Text, i: nat, j: nat)
    requires |a| == |b| && SameOrder(a, b, i / 10, j / 10)
    ensures SameOrder(a + [DIGIT_0 + i % 10], b + [DIGIT_0 + j % 10], i, j)
  {
    TextLessSnoc(a, b, DIGIT_0 + i % 10, DIGIT_0 + j % 10);
    SnocEqual(a, b, DIGIT_0 + i % 10, DIGIT_0 + j % 10);
    LastDigitDecides(i, j);
  }

  /** Names of the same length are in alphabetical order exactly if their numbers are in order. */
  lemma {:induction false} DigitsOrder(i: nat, j: nat, width: nat)
    requires i < Pow10(width) && j < Pow10(width)
    ensures SameOrder(Digits(i, width), Digits(j, width), i, j)
    decreases width
  {
    if width > 0 {
      DigitsOrder(i / 10, j / 10, width - 1);
      OneDigitMore(Digits(i / 10, width - 1), Digits(j / 10, width - 1), i, j);
    }
  }

  lemma ShardNameOrder(i: nat, j: nat)
    requires i <= MAX_SHARDS && j <= MAX_SHARDS
    ensures TextLess(ShardName(i), ShardName(j)) <==> i < j
  {
    assert Pow10(NAME_WIDTH) == 10000 by { assert Pow10(2) == 100; }
    DigitsOrder(i, j, NAME_WIDTH);
  }

  // ----- Sorting -----

  const NAME_ORDER: (Text, Text) -> bool := (a, b) => TextLess(a, b)

  function SortNames(names: seq<Text>): seq<Text> {
    SortBy(names, NAME_ORDER)
  }

  ghost predicate Alphabetical(names: seq<Text>) {
    Ordered(names, NAME_ORDER)
  }

  lemma SortNamesSorts(names: seq<Text>)
    ensures Alphabetical(SortNames(names)) && multiset(SortNames(names)) == multiset(names)
  {
    forall x ensures !TextLess(x, x) { TextLessIrreflexive(x); }
    forall x, y, z | TextLess(x, y) && TextLess(y, z) ensures TextLess(x, z) { TextLessTrans(x, y, z); }
    SortBySorts(names, NAME_ORDER);
  }

  ghost predicate StrictlyAlphabetical(names: seq<Text>) {
    forall i, j | 0 <= i < j < |names| :: TextLess(names[i], names[j])
  }

  /** A sorted arrangement of different names is unique. */
  lemma SortedIsUnique(r: seq<Text>, s: seq<Text>)
    requires multiset(r) == multiset(s) && Alphabetical(r) && StrictlyAlphabetical(s)
    ensures r == s
  {
    forall i, j | 0 <= i < j < |s| ensures !TextLess(s[j], s[i]) {
      if TextLess(s[j], s[i]) {
        TextLessTrans(s[i], s[j], s[i]);
        TextLessIrreflexive(s[i]);
        assert false;
      }
    }
    OrderedIsUnique(r, s, NAME_ORDER);
  }

  // ----- Listing a directory -----

  datatype Entry = Entry(name: Text, isDir: bool) {
    predicate IsShard() {
      isDir && !(name != [] && name[0] == DOT)
    }
  }

  function ShardEntries(listing: seq<Entry>): seq<Text> {
    if listing == [] then []
    else
      var e, front := listing[|listing| - 1], ShardEntries(listing[..|listing| - 1]);
      if e.IsShard() then front + [e.name] else front
  }

  /** The names of the shards in a directory, in alphabetical order: those of the subdirectories that are not hidden. */
  method ListShards(listing: seq<Entry>) returns (names: seq<Text>)
    ensures names == SortNames(ShardEntries(listing))
    ensures Alphabetical(names) && multiset(names) == multiset(ShardEntries(listing))
    ensures forall name :: multiset(names)[name] == if Hidden(name) then 0 else multiset(listing)[Entry(name, true)]
    ensures forall count: nat | count <= MAX_SHARDS && ListsIndex(listing, count) :: names == ShardNames(count)
  {
    names := [];
    for i := 0 to |listing|
      invariant names == ShardEntries(listing[..i])
    {
      assert listing[..i + 1][..i] == listing[..i];
      if listing[i].IsShard() {
        names := names + [listing[i].name];
      }
    }
    assert listing[..|listing|] == listing;
    SortNamesSorts(names);
    names := SortNames(names);
    forall name
      ensures multiset(names)[name] == if Hidden(name) then 0 else multiset(listing)[Entry(name, true)]
    {
      ShardEntriesCount(listing, name);
    }
    forall count: nat | count <= MAX_SHARDS && ListsIndex(listing, count) ensures names == ShardNames(count) {
      ListingRestoresOrder(listing, count);
    }
  }

  /** The name starts with a dot. */
  predicate Hidden(name: Text) {
    name != [] && name[0] == 46
  }

  /** What is taken for a shard: every subdirectory that is not hidden, as often as it is listed, and nothing else. */
  lemma {:induction false} ShardEntriesCount(listing: seq<Entry>, name: Text)
    ensures multiset(ShardEntries(listing))[name] == if Hidden(name) then 0 else multiset(listing)[Entry(name, true)]
    decreases |listing|
  {
    if listing != [] {
      var n := |listing| - 1;
      ShardEntriesCount(listing[..n], name);
      assert listing == listing[..n] + [listing[n]];
    }
  }

  /** The file that holds the end time of an index: `endtime`. */
  const END_TIME_FILE: Text := [101, 110, 100, 116, 105, 109, 101]

  function ShardDirs(count: nat): (dirs: seq<Entry>)
    requires count <= MAX_SHARDS
    ensures |dirs| == count
  {
    seq(count, k requires 0 <= k < count => Entry(ShardName(k), true))
  }

  /** The listing of the directory of an index with so many shards, in any order: a subdirectory for each shard, the
      file with the end time, and whatever else is a file or hidden. */
  ghost predicate ListsIndex(listing: seq<Entry>, count: nat)
    requires count <= MAX_SHARDS
  {
    exists others: seq<Entry> ::
      && (forall e | e in others :: !e.isDir || Hidden(e.name))
      && multiset(listing) == multiset(ShardDirs(count)) + multiset{Entry(END_TIME_FILE, false)} + multiset(others)
  }

  lemma {:induction false} DigitsAreDigits(n: nat, width: nat)
    ensures forall i | 0 <= i < width :: IsDigit(Digits(n, width)[i])
  {
    if width > 0 { DigitsAreDigits(n / 10, width - 1); }
  }

  lemma ShardNameIsVisible(n: nat)
    requires n <= MAX_SHARDS
    ensures !Hidden(ShardName(n))
  {
    DigitsAreDigits(n, NAME_WIDTH);
    assert IsDigit(Digits(n, NAME_WIDTH)[0]);
  }

  lemma {:induction false} DirsAreNames(count: nat, name: Text)
    requires count <= MAX_SHARDS
    ensures multiset(ShardDirs(count))[Entry(name, true)] == multiset(ShardNames(count))[name]
    ensures Hidden(name) ==> multiset(ShardNames(count))[name] == 0
  {
    if count > 0 {
      DirsAreNames(count - 1, name);
      ShardNameIsVisible(count - 1);
      assert ShardDirs(count) == ShardDirs(count - 1) + [Entry(ShardName(count - 1), true)];
      assert ShardNames(count) == ShardNames(count - 1) + [ShardName(count - 1)];
    }
  }

  lemma ListedShards(listing: seq<Entry>, count: nat)
    requires count <= MAX_SHARDS && ListsIndex(listing, count)
    ensures multiset(ShardEntries(listing)) == multiset(ShardNames(count))
  {
    var others: seq<Entry> :|
      && (forall e | e in others :: !e.isDir || Hidden(e.name))
      && multiset(listing) == multiset(ShardDirs(count)) + multiset{Entry(END_TIME_FILE, false)} + multiset(others);
    forall name ensures multiset(ShardEntries(listing))[name] == multiset(ShardNames(count))[name] {
      ShardEntriesCount(listing, name);
      DirsAreNames(count, name);
      if !Hidden(name) { assert Entry(name, true) !in others; }
    }
  }

  /** However the directory is listed, and whatever other files are in it, the shards come back in the order in which
      they were created: shard n at position n. */
  lemma ListingRestoresOrder(listing: seq<Entry>, count: nat)
    requires count <= MAX_SHARDS && ListsIndex(listing, count)
    ensures SortNames(ShardEntries(listing)) == ShardNames(count)
  {
    ListedShards(listing, count);
    SortNamesSorts(ShardEntries(listing));
    forall i, j | 0 <= i < j < count ensures TextLess(ShardNames(count)[i], ShardNames(count)[j]) {
      ShardNameOrder(i, j);
    }
    SortedIsUnique(SortNames(ShardEntries(listing)), ShardNames(count));
  }

  // ----- Reopening -----

  /** What a directory holds: the contents of each shard by name. */
  type Disk = map<Text, Shard>

  ghost predicate OnDisk(disk: Disk, shards: seq<Shard>) {
    && |shards| <= MAX_SHARDS
    && forall k | 0 <= k < |shards| :: ShardName(k) in disk && disk[ShardName(k)] == shards[k]
  }

  /** Opens the shards of a directory, in the order of their names. */
  method OpenShards(disk: Disk, listing: seq<Entry>) returns (shards: seq<Shard>)
    requires forall e | e in listing && e.IsShard() :: e.name in disk
    ensures var names := SortNames(ShardEntries(listing));
            |shards| == |names| && forall k | 0 <= k < |names| :: names[k] in disk && shards[k] == disk[names[k]]
  {
    var names := ListShards(listing);
    forall k | 0 <= k < |names| ensures names[k] in disk {
      assert names[k] in multiset(ShardEntries(listing));
      ShardEntriesListed(listing, names[k]);
    }
    shards := [];
    for i := 0 to |names|
      invariant |shards| == i && forall k | 0 <= k < i :: shards[k] == disk[names[k]]
    {
      shards := shards + [disk[names[i]]];
    }
  }

  lemma {:induction false} ShardEntriesListed(listing: seq<Entry>, name: Text)
    requires name in ShardEntries(listing)
    ensures exists e | e in listing :: e.IsShard() && e.name == name
    decreases |listing|
  {
    var n := |listing| - 1;
    if listing[n].IsShard() && listing[n].name == name {
      assert listing[n] in listing;
    } else {
      ShardEntriesListed(listing[..n], name);
    }
  }

  /** An index that is closed and opened again has the same shards at the same positions, so every document is found on
      the shard it was written to. */
  lemma ReopenKeepsDocuments(disk: Disk, listing: seq<Entry>, shards: seq<Shard>, reopened: seq<Shard>, id: DocId)
    requires shards != [] && OnDisk(disk, shards)
    requires ListsIndex(listing, |shards|)
    requires var names := SortNames(ShardEntries(listing));
             |reopened| == |names| && forall k | 0 <= k < |names| :: names[k] in disk && reopened[k] == disk[names[k]]
    ensures reopened == shards && Lookup(reopened, id) == Lookup(shards, id)
  {
    ListingRestoresOrder(listing, |shards|);
    var names := SortNames(ShardEntries(listing));
    forall k | 0 <= k < |shards| ensures reopened[k] == shards[k] {
      assert names[k] == ShardName(k);
    }
  }

  // ----- Start and end -----

  const MINUTE := 60_000_000_000

  /** The layout of an index name has minutes and nothing smaller. */
  function Minutes(t: Time): int {
    t / MINUTE
  }

  function Restored(w: Window): Window {
    Window(Minutes(w.start) * MINUTE, Minutes(w.end) * MINUTE)
  }

  /** A window is restored exactly if it starts and ends on a whole minute. */
  lemma WindowRestoredIff(w: Window)
    ensures Restored(w) == w <==> w.start % MINUTE == 0 && w.end % MINUTE == 0
  {
  }

  lemma MultipleOfMultiple(x: int, d: int, m: int)
    requires d > 0 && m > 0 && x % d == 0 && d % m == 0
    ensures x % m == 0
  {
    var q, e := x / d, d / m;
    assert x == d * q && d == m * e;
    assert x == m * (e * q) by { assert m * e * q == m * (e * q); }
    ModOfMultiple(e * q, m);
  }

  lemma MinutesAdd(t: Time, d: int)
    requires t % MINUTE == 0
    ensures (t + d) % MINUTE == 0 <==> d % MINUTE == 0
  {
  }

  lemma ZeroTimeIsWholeMinute(x: int)
    ensures (ZERO_TIME + x) % MINUTE == 0 <==> x % MINUTE == 0
  {
    MinutesAdd(ZERO_TIME, x);
  }

  /** The engine's windows are restored exactly if the duration of an index is a number of whole minutes. */
  lemma AlignedRestoredIff(w: Window, d: int)
    requires d > 0 && Aligned(w, d)
    ensures Restored(w) == w <==> d % MINUTE == 0
  {
    var x := w.start - ZERO_TIME;
    WindowRestoredIff(w);
    ZeroTimeIsWholeMinute(x);
    if d % MINUTE == 0 { MultipleOfMultiple(x, d, MINUTE); }
    if w.start % MINUTE == 0 { MinutesAdd(w.start, d); }
  }

  // ----- Names of indexes -----

  /** The directory of an index is named after the minute in which its window starts. */
  function IndexName(w: Window): int {
    Minutes(w.start)
  }

  ghost predicate NamesDiffer(ws: seq<Window>) {
    forall i, j | 0 <= i < j < |ws| :: IndexName(ws[i]) != IndexName(ws[j])
  }

  /** Windows of a minute or more have names of their own. */
  lemma LongWindowsHaveNames(ws: seq<Window>, d: int)
    requires Tiled(ws, d) && d >= MINUTE
    ensures NamesDiffer(ws)
  {
    forall i, j | 0 <= i < j < |ws| ensures IndexName(ws[i]) != IndexName(ws[j]) {
      assert Aligned(ws[j], d) && ws[j].end <= ws[i].start;
    }
  }

  /** With windows of half a minute or less, two that follow each other start in the first minute of 1970. */
  lemma ShortWindowsShareNames(d: int) returns (t: Time, u: Time)
    requires 0 < d && 2 * d <= MINUTE
    ensures 0 <= t && t + d == u < MINUTE && Truncate(t, d) == t && Truncate(u, d) == u
    ensures Minutes(t) == Minutes(u)
  {
    TruncatedIsAligned(d - 1, d);
    t := Truncate(d - 1, d);
    u := t + d;
    AlignedTruncate(Window(t, u), t, d);
    TruncatedIsAligned(u, d);
    AlignedAreEqualOrApart(Window(t, u), Window(Truncate(u, d), Truncate(u, d) + d), d);
  }
}
