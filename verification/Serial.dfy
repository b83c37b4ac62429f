/** The textual form objects are swapped out in: what the serialisers print, what the
    deserialisers read, and that reading undoes printing. */
module Serial {
  import opened Base

  const INT_MAX: nat := 0x7FFF_FFFF

  type U64 = n: nat | n <= UINT64_MAX

  type Opcode = n: nat | n <= INT_MAX

  /** A std::string: arbitrary bytes, length within size_t. */
  type Bytes = s: string | |s| <= UINT64_MAX

  // ---------- Characters ----------

  /** isspace in the C locale. */
  predicate IsSpace(c: char)
    ensures IsSpace(c) <==> c as int == 32 || 9 <= c as int <= 13
  {
    c == ' ' || c == '\t' || c == '\n' || c == '\U{0B}' || c == '\U{0C}' || c == '\r'
  }

  predicate IsDigit(c: char) {
    '0' <= c <= '9'
  }

  function Digit(n: nat): (c: char)
    requires n < 10
    ensures IsDigit(c) && DigitValue(c) == n && c as int == 48 + n
  {
    '0' + n as char
  }

  function DigitValue(c: char): (n: nat)
    requires IsDigit(c)
    ensures n == c as int - 48 && n < 10
  {
    (c - '0') as int
  }

  /** operator>> first skips white space. */
  function SkipSpace(s: string): (r: string)
    ensures r != [] ==> !IsSpace(r[0])
  {
    if s != [] && IsSpace(s[0]) then SkipSpace(s[1..]) else s
  }

  // ---------- Numbers ----------

  function Decimal(n: nat): (s: string)
    ensures s != [] && forall i :: 0 <= i < |s| ==> IsDigit(s[i])
  {
    if n < 10 then [Digit(n)] else Decimal(n / 10) + [Digit(n % 10)]
  }

  function DigitRun(s: string): (n: nat)
    ensures n <= |s| && (forall i :: 0 <= i < n ==> IsDigit(s[i])) && (n < |s| ==> !IsDigit(s[n]))
  {
    if s != [] && IsDigit(s[0]) then 1 + DigitRun(s[1..]) else 0
  }

  function Value(s: string): nat
    requires forall i :: 0 <= i < |s| ==> IsDigit(s[i])
  {
    if s == [] then 0 else 10 * Value(s[..|s| - 1]) + DigitValue(s[|s| - 1])
  }

  /** operator>> on an unsigned number of at most `max`; nothing where the stream would be
      left in a bad state: no digits, out of range, or at the end of the text. */
  function ReadNat(s: string, max: nat): Option<(nat, string)> {
    var t := SkipSpace(s);
    var n := DigitRun(t);
    if n == 0 || n == |t| || Value(t[..n]) > max then None else Some((Value(t[..n]), t[n..]))
  }

  lemma {:induction false} DecimalValue(n: nat)
    ensures Value(Decimal(n)) == n
  {
    if n < 10 {
      assert [Digit(n)][..0] == [];
      assert Value([]) == 0;
    } else {
      DecimalValue(n / 10);
      var d := Decimal(n / 10) + [Digit(n % 10)];
      assert d[..|d| - 1] == Decimal(n / 10);
    }
  }

  function Power10(n: nat): (p: nat)
    ensures p >= 1
  {
    if n == 0 then 1 else 10 * Power10(n - 1)
  }

  predicate Digits(s: string) {
    forall i :: 0 <= i < |s| ==> 48 <= s[i] as int <= 57
  }

  /** What a numeral means: each digit times the power of ten of its place. */
  function PlaceValue(s: string): (n: nat)
    requires Digits(s)
  {
    if s == [] then 0 else (s[0] as int - 48) * Power10(|s| - 1) + PlaceValue(s[1..])
  }

  lemma {:induction false} TenTimes(d: nat, p: nat)
    ensures d * (10 * p) == 10 * (d * p)
  {
  }

  lemma {:induction false} TimesPositive(d: nat, p: nat)
    requires d >= 1 && p >= 1
    ensures d * p >= 1
  {
  }

  lemma {:induction false} PlaceValueLast(s: string)
    requires Digits(s) && s != []
    ensures PlaceValue(s) == 10 * PlaceValue(s[..|s| - 1]) + (s[|s| - 1] as int - 48)
  {
    var r := s[..|s| - 1];
    if r == [] {
      assert s[1..] == [] && Power10(0) == 1;
    } else {
      PlaceValueLast(s[1..]);
      assert s[1..][..|s| - 2] == r[1..] && r[0] == s[0];
      var d := s[0] as int - 48;
      TenTimes(d, Power10(|s| - 2));
    }
  }

  /** Reading digits one after the other adds them up by their places. */
  lemma {:induction false} ValueOfPlaces(s: string)
    requires Digits(s)
    ensures Value(s) == PlaceValue(s)
  {
    if s != [] {
      ValueOfPlaces(s[..|s| - 1]);
      PlaceValueLast(s);
    }
  }

  /** A numeral as it is printed: digits, none of them a zero in front of others. */
  predicate Numeral(s: string) {
    s != [] && Digits(s) && (|s| > 1 ==> s[0] != '0')
  }

  /** A number is printed as the one numeral that means it. */
  lemma {:induction false} DecimalIff(n: nat, s: string)
    ensures s == Decimal(n) <==> Numeral(s) && PlaceValue(s) == n
  {
    DecimalNumeral(n);
    DecimalValue(n);
    ValueOfPlaces(Decimal(n));
    if Numeral(s) && PlaceValue(s) == n {
      NumeralUnique(s, n);
    }
  }

  lemma {:induction false} DecimalNumeral(n: nat)
    ensures Numeral(Decimal(n)) && (n > 0 ==> Decimal(n)[0] != '0')
  {
    if n >= 10 {
      DecimalNumeral(n / 10);
    }
  }

  lemma {:induction false} NumeralUnique(s: string, n: nat)
    requires Numeral(s) && PlaceValue(s) == n
    ensures s == Decimal(n)
  {
    var r, d := s[..|s| - 1], s[|s| - 1] as int - 48;
    PlaceValueLast(s);
    assert s[|s| - 1] == Digit(d);
    if r == [] {
      assert n == d;
    } else {
      NumeralUnique(r, PlaceValue(r));
      NumeralPositive(r);
      assert n / 10 == PlaceValue(r) && n % 10 == d;
      assert s == r + [s[|s| - 1]];
    }
  }

  lemma {:induction false} NumeralPositive(s: string)
    requires s != [] && Digits(s) && s[0] != '0'
    ensures PlaceValue(s) >= 1
  {
    TimesPositive(s[0] as int - 48, Power10(|s| - 1));
  }

  lemma {:induction false} DigitRunOf(d: string, s: string)
    requires (forall i :: 0 <= i < |d| ==> IsDigit(d[i])) && (s != [] ==> !IsDigit(s[0]))
    ensures DigitRun(d + s) == |d|
  {
    var t := d + s;
    assert forall i :: 0 <= i < |d| ==> t[i] == d[i];
    assert s != [] ==> t[|d|] == s[0];
  }

  lemma {:induction false} SkipNothing(s: string)
    requires s != [] ==> !IsSpace(s[0])
    ensures SkipSpace(s) == s
  {
  }

  /** Reading a printed number leaves what follows it, if that starts with something that
      is not a digit. */
  lemma {:induction false} NatRoundTrip(n: nat, max: nat, s: string)
    requires n <= max && s != [] && !IsDigit(s[0])
    ensures ReadNat(Decimal(n) + s, max) == Some((n, s))
  {
    var d := Decimal(n);
    var t := d + s;
    assert t[0] == d[0];
    SkipNothing(t);
    DigitRunOf(d, s);
    assert t[..|d|] == d && t[|d|..] == s;
    DecimalValue(n);
  }

  predicate Blank(w: string) {
    forall i :: 0 <= i < |w| ==> IsSpace(w[i])
  }

  lemma {:induction false} SkipBlank(s: string)
    ensures |SkipSpace(s)| <= |s|
    ensures var w := s[..|s| - |SkipSpace(s)|]; Blank(w) && s == w + SkipSpace(s)
  {
    if s != [] && IsSpace(s[0]) {
      SkipBlank(s[1..]);
      var k := |s| - |SkipSpace(s)|;
      assert s[..k] == [s[0]] + s[1..][..k - 1];
    }
  }

  /** A text made of white space, the digits of `n` and something that goes on differently. */
  ghost predicate NumberThen(s: string, w: string, d: string, n: nat, rest: string) {
    && s == w + (d + rest) && Blank(w) && d != [] && Digits(d) && PlaceValue(d) == n
    && rest != [] && !IsDigit(rest[0])
  }

  /** What reading a number accepts, and what it makes of it. */
  lemma {:induction false} ReadNatIff(s: string, max: nat, n: nat, rest: string)
    ensures ReadNat(s, max) == Some((n, rest)) <==> n <= max && exists w, d :: NumberThen(s, w, d, n, rest)
  {
    hide SkipSpace, DigitRun, PlaceValue, Value;
    if ReadNat(s, max) == Some((n, rest)) {
      SkipBlank(s);
      var t := SkipSpace(s);
      var k := DigitRun(t);
      ValueOfPlaces(t[..k]);
      assert t == t[..k] + t[k..];
      assert NumberThen(s, s[..|s| - |t|], t[..k], n, rest);
    }
    if w, d :| n <= max && NumberThen(s, w, d, n, rest) {
      SkipAfter(w, d + rest);
      assert (d + rest)[0] == d[0];
      SkipNothing(d + rest);
      DigitRunOf(d, rest);
      ValueOfPlaces(d);
      assert (d + rest)[..|d|] == d && (d + rest)[|d|..] == rest;
    }
  }

  // ---------- Words, characters and counted bytes ----------

  function WordRun(s: string): (n: nat)
    ensures n <= |s| && (forall i :: 0 <= i < n ==> !IsSpace(s[i])) && (n < |s| ==> IsSpace(s[n]))
  {
    if s != [] && !IsSpace(s[0]) then 1 + WordRun(s[1..]) else 0
  }

  /** operator>> on a std::string. Reaching the end of the text sets eofbit, which the
      backing store's streams turn into an exception. */
  function ReadWord(s: string): Option<(string, string)> {
    var t := SkipSpace(s);
    var n := WordRun(t);
    if n == 0 || n == |t| then None else Some((t[..n], t[n..]))
  }

  /** operator>> on a char. */
  function ReadChar(s: string): Option<(char, string)> {
    var t := SkipSpace(s);
    if t == [] then None else Some((t[0], t[1..]))
  }

  lemma {:induction false} WordRoundTrip(w: string, s: string)
    requires w != [] && (forall i :: 0 <= i < |w| ==> !IsSpace(w[i])) && s != [] && IsSpace(s[0])
    ensures ReadWord(w + s) == Some((w, s))
  {
    var t := w + s;
    assert forall i :: 0 <= i < |w| ==> t[i] == w[i];
    assert t[|w|] == s[0];
    SkipNothing(t);
    assert t[..|w|] == w && t[|w|..] == s;
  }

  /** White space in front is never seen by a reader that starts with operator>>. */
  lemma {:induction false} SkipAfter(w: string, s: string)
    requires forall i :: 0 <= i < |w| ==> IsSpace(w[i])
    ensures SkipSpace(w + s) == SkipSpace(s)
  {
    if w == [] {
      assert w + s == s;
    } else {
      assert (w + s)[1..] == w[1..] + s;
      SkipAfter(w[1..], s);
    }
  }

  // ---------- Codecs ----------

  /** What a type's serialize prints and its deserialize reads. */
  datatype Codec<!T> = Codec(write: T -> string, read: string -> Option<(T, string)>)

  /** Reading yields `x` and leaves what follows, up to white space in front of it. */
  predicate Reads<T(==)>(r: Option<(T, string)>, x: T, s: string) {
    r.Some? && r.value.0 == x && SkipSpace(r.value.1) == SkipSpace(s)
  }

  ghost predicate Exact<T(!new)>(c: Codec<T>) {
    forall x, s :: Reads(c.read(c.write(x) + s), x, s)
  }

  /** Leading white space makes no difference. */
  ghost predicate Skips<T>(c: Codec<T>) {
    forall s, t :: SkipSpace(s) == SkipSpace(t) ==> c.read(s) == c.read(t)
  }

  ghost predicate Faithful<T(!new)>(c: Codec<T>) {
    Exact(c) && Skips(c)
  }

  /** uint64_t, and swap-space pointers, which print their target the same way. */
  function NumberCodec(): Codec<U64> {
    Codec((n: U64) => Decimal(n) + " ", ReadNumber)
  }

  function ReadNumber(s: string): Option<(U64, string)> {
    match ReadNat(s, UINT64_MAX)
    case None => None
    case Some((n, rest)) => Some((n, rest))
  }

  /** std::string: the length, a comma and the bytes themselves. */
  function StringCodec(): Codec<Bytes> {
    Codec((x: Bytes) => Decimal(|x|) + "," + x, ReadString)
  }

  function ReadString(s: string): Option<(Bytes, string)> {
    match ReadNat(s, UINT64_MAX)
    case None => None
    case Some((n, rest)) =>
      match ReadChar(rest)
      case None => None
      case Some((_, bytes)) => if |bytes| < n then None else Some((bytes[..n], bytes[n..]))
  }

  /** A pair printed one half after the other. */
  function PairCodec<A, B>(a: Codec<A>, b: Codec<B>): Codec<(A, B)> {
    Codec((x: (A, B)) => a.write(x.0) + b.write(x.1), (s: string) => ReadPair(a, b, s))
  }

  function ReadPair<A, B>(a: Codec<A>, b: Codec<B>, s: string): Option<((A, B), string)> {
    match a.read(s)
    case None => None
    case Some((x, rest)) =>
      match b.read(rest)
      case None => None
      case Some((y, rest')) => Some(((x, y), rest'))
  }

  lemma {:induction false} NumberFaithful()
    ensures Faithful(NumberCodec())
  {
    var c := NumberCodec();
    forall n: U64, s ensures Reads(c.read(c.write(n) + s), n, s) {
      assert c.write(n) + s == Decimal(n) + (" " + s);
      NatRoundTrip(n, UINT64_MAX, " " + s);
      SkipAfter(" ", s);
    }
  }

  lemma {:induction false} StringRoundTrip(x: Bytes, s: string)
    ensures ReadString(Decimal(|x|) + "," + x + s) == Some((x, s))
  {
    var t := "," + (x + s);
    assert Decimal(|x|) + "," + x + s == Decimal(|x|) + t;
    NatRoundTrip(|x|, UINT64_MAX, t);
    SkipNothing(t);
    assert t[1..] == x + s;
    assert (x + s)[..|x|] == x && (x + s)[|x|..] == s;
  }

  lemma {:induction false} StringFaithful()
    ensures Faithful(StringCodec())
  {
    var c := StringCodec();
    forall x: Bytes, s ensures Reads(c.read(c.write(x) + s), x, s) {
      StringRoundTrip(x, s);
    }
  }

  lemma {:induction false} PairFaithful<A(!new), B(!new)>(a: Codec<A>, b: Codec<B>)
    requires Faithful(a) && Faithful(b)
    ensures Faithful(PairCodec(a, b))
  {
    var c := PairCodec(a, b);
    forall x: (A, B), s ensures Reads(c.read(c.write(x) + s), x, s) {
      var t := b.write(x.1) + s;
      assert c.write(x) + s == a.write(x.0) + t;
      assert Reads(a.read(a.write(x.0) + t), x.0, t);
      var rest := a.read(a.write(x.0) + t).value.1;
      assert b.read(rest) == b.read(t);
      assert Reads(b.read(b.write(x.1) + s), x.1, s);
    }
    forall s, t | SkipSpace(s) == SkipSpace(t) ensures c.read(s) == c.read(t) {
      assert a.read(s) == a.read(t);
    }
  }

  /** The int a message's opcode is kept in. */
  function OpcodeCodec(): Codec<Opcode> {
    Codec((n: Opcode) => Decimal(n) + " ", ReadOpcode)
  }

  function ReadOpcode(s: string): Option<(Opcode, string)> {
    match ReadNat(s, INT_MAX)
    case None => None
    case Some((n, rest)) => Some((n, rest))
  }

  lemma {:induction false} OpcodeFaithful()
    ensures Faithful(OpcodeCodec())
  {
    var c := OpcodeCodec();
    forall n: Opcode, s ensures Reads(c.read(c.write(n) + s), n, s) {
      assert c.write(n) + s == Decimal(n) + (" " + s);
      NatRoundTrip(n, INT_MAX, " " + s);
      SkipAfter(" ", s);
    }
  }

  /** Writing one space more changes nothing. */
  function Spaced<T>(c: Codec<T>): Codec<T> {
    Codec((x: T) => " " + c.write(x), c.read)
  }

  lemma {:induction false} SpacedFaithful<T(!new)>(c: Codec<T>)
    requires Faithful(c)
    ensures Faithful(Spaced(c))
  {
    var d := Spaced(c);
    forall x: T, s ensures Reads(d.read(d.write(x) + s), x, s) {
      assert d.write(x) + s == " " + (c.write(x) + s);
      SkipAfter(" ", c.write(x) + s);
      assert Reads(c.read(c.write(x) + s), x, s);
    }
  }

  // ---------- Maps ----------

  function WriteEntry<K, V>(key: Codec<K>, val: Codec<V>, e: (K, V)): string {
    "  " + key.write(e.0) + " -> " + val.write(e.1) + "\n"
  }

  function WriteEntries<K, V>(key: Codec<K>, val: Codec<V>, l: seq<(K, V)>): string {
    if l == [] then "" else WriteEntry(key, val, l[0]) + WriteEntries(key, val, l[1..])
  }

  function WriteMap<K, V>(key: Codec<K>, val: Codec<V>, l: seq<(K, V)>): string {
    "map " + Decimal(|l|) + " {\n" + WriteEntries(key, val, l) + "}\n"
  }

  function ReadEntry<K, V>(key: Codec<K>, val: Codec<V>, s: string): Option<((K, V), string)> {
    match key.read(s)
    case None => None
    case Some((k, s1)) =>
      match ReadWord(s1)
      case None => None
      case Some((_, s2)) =>
        match val.read(s2)
        case None => None
        case Some((v, s3)) => Some(((k, v), s3))
  }

  function ReadEntries<K, V>(key: Codec<K>, val: Codec<V>, n: nat, m: map<K, V>, s: string): Option<(map<K, V>,
                             string)> {
    if n == 0 then Some((m, s)) else
      match ReadEntry(key, val, s)
      case None => None
      case Some((e, rest)) => ReadEntries(key, val, n - 1, m[e.0 := e.1], rest)
  }

  function ReadHeader(s: string): Option<(nat, string)> {
    match ReadWord(s)
    case None => None
    case Some((_, s1)) =>
      match ReadNat(s1, INT_MAX)
      case None => None
      case Some((n, s2)) =>
        match ReadWord(s2)
        case None => None
        case Some((_, s3)) => Some((n, s3))
  }

  function ReadMap<K, V>(key: Codec<K>, val: Codec<V>, s: string): Option<(map<K, V>, string)> {
    match ReadHeader(s)
    case None => None
    case Some((n, s1)) =>
      match ReadEntries(key, val, n, map[], s1)
      case None => None
      case Some((m, s2)) =>
        match ReadWord(s2)
        case None => None
        case Some((_, s3)) => Some((m, s3))
  }

  /** `l` lists the entries of `m`, each once, as iterating over a std::map does. */
  ghost predicate Lists<K, V>(l: seq<(K, V)>, m: map<K, V>) {
    && (forall i :: 0 <= i < |l| ==> l[i].0 in m && m[l[i].0] == l[i].1)
    && (forall i, j :: 0 <= i < j < |l| ==> l[i].0 != l[j].0)
    && (forall k :: k in m ==> exists i :: 0 <= i < |l| && l[i].0 == k)
  }

  /** What storing the entries one after another into `m` makes of it. */
  function Stored<K, V>(m: map<K, V>, l: seq<(K, V)>): map<K, V>
    decreases |l|
  {
    if l == [] then m else Stored(m[l[0].0 := l[0].1], l[1..])
  }

  lemma {:induction false} EntryRoundTrip<K(!new), V(!new)>(key: Codec<K>, val: Codec<V>, e: (K, V), s: string)
    requires Faithful(key) && Faithful(val)
    ensures Reads(ReadEntry(key, val, WriteEntry(key, val, e) + s), e, s)
  {
    hide ReadWord, ReadWord, SkipSpace;
    var t3 := "\n" + s;
    var t2 := val.write(e.1) + t3;
    var t1 := key.write(e.0) + (" -> " + t2);
    assert WriteEntry(key, val, e) + s == "  " + t1;
    SkipAfter("  ", t1);
    assert Reads(key.read(t1), e.0, " -> " + t2);
    ArrowRoundTrip(key.read(t1).value.1, t2);
    assert Reads(val.read(t2), e.1, t3);
    SkipAfter(" ", t2);
    SkipAfter("\n", s);
  }

  lemma {:induction false} ArrowRoundTrip(r: string, s: string)
    requires SkipSpace(r) == SkipSpace(" -> " + s)
    ensures ReadWord(r) == Some(("->", " " + s))
  {
    assert " -> " + s == " " + ("->" + (" " + s));
    SkipAfter(" ", "->" + (" " + s));
    WordRoundTrip("->", " " + s);
    SameSkip(r, "->" + (" " + s));
  }

  lemma {:induction false} SameSkip(r: string, s: string)
    requires SkipSpace(r) == SkipSpace(s)
    ensures ReadWord(r) == ReadWord(s)
    ensures forall max :: ReadNat(r, max) == ReadNat(s, max)
    ensures ReadChar(r) == ReadChar(s)
  {
  }

  lemma {:induction false} EntriesRoundTrip<K(!new), V(!new)>(key: Codec<K>, val: Codec<V>, l: seq<(K, V)>, m: map<K,
                                              V>,
      r: string, s: string)
    requires Faithful(key) && Faithful(val)
    requires SkipSpace(r) == SkipSpace(WriteEntries(key, val, l) + s)
    ensures Reads(ReadEntries(key, val, |l|, m, r), Stored(m, l), s)
    decreases |l|
  {
    if l == [] {
      assert WriteEntries(key, val, l) + s == s;
    } else {
      var t := WriteEntries(key, val, l[1..]) + s;
      assert WriteEntries(key, val, l) + s == WriteEntry(key, val, l[0]) + t;
      EntryRoundTrip(key, val, l[0], t);
      EntrySkips(key, val, r, WriteEntry(key, val, l[0]) + t);
      EntriesRoundTrip(key, val, l[1..], m[l[0].0 := l[0].1], ReadEntry(key, val, r).value.1, s);
    }
  }

  lemma {:induction false} EntrySkips<K(!new), V(!new)>(key: Codec<K>, val: Codec<V>, r: string, s: string)
    requires Faithful(key) && SkipSpace(r) == SkipSpace(s)
    ensures ReadEntry(key, val, r) == ReadEntry(key, val, s)
  {
  }

  lemma {:induction false} StoredLists<K, V>(l: seq<(K, V)>, m: map<K, V>, acc: map<K, V>)
    requires forall i :: 0 <= i < |l| ==> l[i].0 in m && m[l[i].0] == l[i].1
    requires forall k :: k in acc ==> k in m && acc[k] == m[k]
    requires forall k :: k in m && k !in acc ==> exists i :: 0 <= i < |l| && l[i].0 == k
    ensures Stored(acc, l) == m
  {
    if l == [] {
      assert acc == m;
    } else {
      var acc' := acc[l[0].0 := l[0].1];
      forall k | k in m && k !in acc' ensures exists i :: 0 <= i < |l[1..]| && l[1..][i].0 == k {
        var i :| 0 <= i < |l| && l[i].0 == k;
        assert l[1..][i - 1] == l[i];
      }
      StoredLists(l[1..], m, acc');
    }
  }

  lemma {:induction false} HeaderRoundTrip(n: nat, r: string, s: string)
    requires n <= INT_MAX && SkipSpace(r) == SkipSpace("map " + Decimal(n) + " {\n" + s)
    ensures ReadHeader(r) == Some((n, "\n" + s))
  {
    hide ReadWord, ReadNat;
    var t2 := "{" + ("\n" + s);
    var t1 := Decimal(n) + (" " + t2);
    var t0 := "map" + (" " + t1);
    assert "map " + Decimal(n) + " {\n" + s == t0;
    SameSkip(r, t0);
    WordRoundTrip("map", " " + t1);
    SkipAfter(" ", t1);
    SameSkip(" " + t1, t1);
    NatRoundTrip(n, INT_MAX, " " + t2);
    SkipAfter(" ", t2);
    SameSkip(" " + t2, t2);
    WordRoundTrip("{", "\n" + s);
  }

  /** A map read back is the map written, whatever order it was listed in and whatever
      follows it, and reading stops right behind it. */
  lemma {:induction false} MapRoundTrip<K(!new), V(!new)>(key: Codec<K>, val: Codec<V>, l: seq<(K, V)>, m: map<K, V>,
      r: string, s: string)
    requires Faithful(key) && Faithful(val) && Lists(l, m) && |l| <= INT_MAX
    requires SkipSpace(r) == SkipSpace(WriteMap(key, val, l) + s)
    ensures Reads(ReadMap(key, val, r), m, s)
  {
    hide ReadWord, ReadHeader, ReadEntries, WriteEntries, Faithful;
    var t2 := "}" + ("\n" + s);
    var t1 := WriteEntries(key, val, l) + t2;
    assert WriteMap(key, val, l) + s == "map " + Decimal(|l|) + " {\n" + t1;
    HeaderRoundTrip(|l|, r, t1);
    SkipAfter("\n", t1);
    EntriesRoundTrip(key, val, l, map[], "\n" + t1, t2);
    StoredLists(l, m, map[]);
    WordRoundTrip("}", "\n" + s);
    SameSkip(ReadEntries(key, val, |l|, map[], "\n" + t1).value.1, t2);
    SkipAfter("\n", s);
  }

  // ---------- Nodes ----------

  /** A node as it is stored: its pivots, each with the child's object and size, and its
      messages by timestamp and key. */
  datatype Image<K, V> = Image(pivots: map<K, (U64, U64)>, elements: map<(U64, K), (Opcode, V)>)

  function ChildCodec(): Codec<(U64, U64)> {
    PairCodec(NumberCodec(), Spaced(NumberCodec()))
  }

  function MessageKeyCodec<K>(key: Codec<K>): Codec<(U64, K)> {
    PairCodec(NumberCodec(), key)
  }

  function MessageCodec<V>(val: Codec<V>): Codec<(Opcode, V)> {
    PairCodec(OpcodeCodec(), val)
  }

  function WriteNode<K, V>(key: Codec<K>, val: Codec<V>, pivots: seq<(K, (U64, U64))>,
                           elements: seq<((U64, K), (Opcode, V))>): string {
    "pivots:\n" + WriteMap(key, ChildCodec(), pivots) + "elements:\n" +
    WriteMap(MessageKeyCodec(key), MessageCodec(val), elements)
  }

  function ReadNode<K, V>(key: Codec<K>, val: Codec<V>, s: string): Option<(Image<K, V>, string)> {
    match ReadWord(s)
    case None => None
    case Some((_, s1)) =>
      match ReadMap(key, ChildCodec(), s1)
      case None => None
      case Some((pivots, s2)) =>
        match ReadWord(s2)
        case None => None
        case Some((_, s3)) =>
          match ReadMap(MessageKeyCodec(key), MessageCodec(val), s3)
          case None => None
          case Some((elements, s4)) => Some((Image(pivots, elements), s4))
  }

  lemma {:induction false} NodeCodecsFaithful<K(!new), V(!new)>(key: Codec<K>, val: Codec<V>)
    requires Faithful(key) && Faithful(val)
    ensures Faithful(ChildCodec()) && Faithful(MessageKeyCodec(key)) && Faithful(MessageCodec(val))
  {
    hide Faithful;
    NumberFaithful();
    OpcodeFaithful();
    SpacedFaithful(NumberCodec());
    PairFaithful(NumberCodec(), Spaced(NumberCodec()));
    PairFaithful(NumberCodec(), key);
    PairFaithful(OpcodeCodec(), val);
  }

  /** A node read back is the node written, for every key and value type whose own text
      reads back. */
  lemma {:induction false} NodeRoundTrip<K(!new), V(!new)>(key: Codec<K>, val: Codec<V>, pivots: seq<(K, (U64, U64))>,
      elements: seq<((U64, K), (Opcode, V))>, node: Image<K, V>, s: string)
    requires Faithful(key) && Faithful(val)
    requires Lists(pivots, node.pivots) && |pivots| <= INT_MAX
    requires Lists(elements, node.elements) && |elements| <= INT_MAX
    ensures Reads(ReadNode(key, val, WriteNode(key, val, pivots, elements) + s), node, s)
  {
    hide Faithful, Lists, ReadWord, ReadMap, WriteMap, SkipSpace, ChildCodec, MessageKeyCodec, MessageCodec;
    NodeCodecsFaithful(key, val);
    var t3 := WriteMap(MessageKeyCodec(key), MessageCodec(val), elements) + s;
    var t2 := "elements:" + ("\n" + t3);
    var t1 := WriteMap(key, ChildCodec(), pivots) + t2;
    assert WriteNode(key, val, pivots, elements) + s == "pivots:" + ("\n" + t1);
    WordRoundTrip("pivots:", "\n" + t1);
    SkipAfter("\n", t1);
    MapRoundTrip(key, ChildCodec(), pivots, node.pivots, "\n" + t1, t2);
    WordRoundTrip("elements:", "\n" + t3);
    SameSkip(ReadMap(key, ChildCodec(), "\n" + t1).value.1, t2);
    SkipAfter("\n", t3);
    MapRoundTrip(MessageKeyCodec(key), MessageCodec(val), elements, node.elements, "\n" + t3, s);
  }

  lemma {:induction false} EntriesConcat<K, V>(key: Codec<K>, val: Codec<V>, l: seq<(K, V)>, l': seq<(K, V)>)
    ensures WriteEntries(key, val, l + l') == WriteEntries(key, val, l) + WriteEntries(key, val, l')
    decreases |l|
  {
    hide WriteEntry;
    if l == [] {
      assert l + l' == l';
    } else {
      assert (l + l')[1..] == l[1..] + l';
      EntriesConcat(key, val, l[1..], l');
    }
  }

  /** Every entry has its line in the text of a map, in the order of the list, between the
      head, which gives their number, and the closing brace. */
  lemma {:induction false} MapText<K, V>(key: Codec<K>, val: Codec<V>, l: seq<(K, V)>, i: nat)
    requires i < |l|
    ensures WriteMap(key, val, l)
         == "map " + Decimal(|l|) + " {\n" + (WriteEntries(key, val, l[..i]) + WriteEntry(key, val, l[i])
            + WriteEntries(key, val, l[i + 1..])) + "}\n"
  {
    hide WriteEntry, Decimal;
    assert l == l[..i] + l[i..] && l[i..][1..] == l[i + 1..];
    EntriesConcat(key, val, l[..i], l[i..]);
    assert WriteEntries(key, val, l[i..]) == WriteEntry(key, val, l[i]) + WriteEntries(key, val, l[i + 1..]);
  }

  /** The line of a child: its key, the object it is and its size. */
  lemma {:induction false} ChildText(k: Bytes, child: U64, size: U64)
    ensures WriteEntry(StringCodec(), ChildCodec(), (k, (child, size)))
         == "  " + (Decimal(|k|) + "," + k) + " -> " + (Decimal(child) + "  " + Decimal(size) + " ") + "\n"
  {
    hide Decimal;
    assert ChildCodec().write((child, size)) == Decimal(child) + "  " + Decimal(size) + " ";
  }

  /** The line of a message: timestamp, key, opcode and value. */
  lemma {:induction false} MessageText(ts: U64, key: Bytes, opcode: Opcode, val: Bytes)
    ensures WriteEntry(MessageKeyCodec(StringCodec()), MessageCodec(StringCodec()), ((ts, key), (opcode, val)))
         == "  " + (Decimal(ts) + " " + (Decimal(|key|) + "," + key)) + " -> "
            + (Decimal(opcode) + " " + (Decimal(|val|) + "," + val)) + "\n"
  {
    hide Decimal;
    assert MessageKeyCodec(StringCodec()).write((ts, key)) == Decimal(ts) + " " + (Decimal(|key|) + "," + key);
    assert MessageCodec(StringCodec()).write((opcode, val)) == Decimal(opcode) + " " + (Decimal(|val|) + "," + val);
  }

  // ---------- Streams ----------

  lemma {:induction false} WriteNext<K, V>(key: Codec<K>, val: Codec<V>, l: seq<(K, V)>, i: nat, t: string)
    requires i < |l|
    ensures t + WriteEntries(key, val, l[i..]) == t + WriteEntry(key, val, l[i]) + WriteEntries(key, val, l[i + 1..])
  {
  }

  /** The std::iostream a node is written to or read from; `text` is what is in it and
      not yet read. */
  class Stream {
    var text: string

    constructor ()
      ensures text == ""
    {
      text := "";
    }

    method SerializeEntry<K, V>(key: Codec<K>, val: Codec<V>, e: (K, V))
      modifies this
      ensures text == old(text) + WriteEntry(key, val, e)
    {
      text := text + "  ";
      text := text + key.write(e.0);
      text := text + " -> ";
      text := text + val.write(e.1);
      text := text + "\n";
    }

    method SerializeEntries<K, V>(key: Codec<K>, val: Codec<V>, l: seq<(K, V)>)
      modifies this
      ensures text == old(text) + WriteEntries(key, val, l)
    {
      hide WriteEntry;
      var i := 0;
      while i < |l|
        invariant 0 <= i <= |l|
        invariant text + WriteEntries(key, val, l[i..]) == old(text) + WriteEntries(key, val, l)
      {
        WriteNext(key, val, l, i, text);
        SerializeEntry(key, val, l[i]);
        i := i + 1;
      }
      assert text + WriteEntries(key, val, []) == text;
    }

    method SerializeMap<K, V>(key: Codec<K>, val: Codec<V>, l: seq<(K, V)>)
      modifies this
      ensures text == old(text) + WriteMap(key, val, l)
    {
      hide WriteEntries;
      text := text + "map " + Decimal(|l|) + " {\n";
      SerializeEntries(key, val, l);
      text := text + "}\n";
    }

    method DeserializeEntries<K, V>(key: Codec<K>, val: Codec<V>, size: nat) returns (r: Option<map<K, V>>)
      modifies this
      ensures match ReadEntries(key, val, size, map[], old(text))
        case None => r == None
        case Some((m, rest)) => r == Some(m) && text == rest
    {
      hide ReadEntry;
      var m: map<K, V> := map[];
      var i := 0;
      while i < size
        invariant 0 <= i <= size
        invariant ReadEntries(key, val, size - i, m, text) == ReadEntries(key, val, size, map[], old(text))
      {
        var e := ReadEntry(key, val, text);
        if e.None? {
          return None;
        }
        text := e.value.1;
        m := m[e.value.0.0 := e.value.0.1];
        i := i + 1;
      }
      r := Some(m);
    }

    method DeserializeMap<K, V>(key: Codec<K>, val: Codec<V>) returns (r: Option<map<K, V>>)
      modifies this
      ensures match ReadMap(key, val, old(text))
        case None => r == None
        case Some((m, rest)) => r == Some(m) && text == rest
    {
      hide ReadHeader, ReadEntries, ReadWord;
      var header := ReadHeader(text);
      if header.None? {
        return None;
      }
      text := header.value.1;
      r := DeserializeEntries(key, val, header.value.0);
      if r.None? {
        return;
      }
      var brace := ReadWord(text);
      if brace.None? {
        return None;
      }
      text := brace.value.1;
    }

    method SerializeNode<K, V>(key: Codec<K>, val: Codec<V>, pivots: seq<(K, (U64, U64))>,
                               elements: seq<((U64, K), (Opcode, V))>)
      modifies this
      ensures text == old(text) + WriteNode(key, val, pivots, elements)
    {
      hide WriteMap;
      text := text + "pivots:\n";
      SerializeMap(key, ChildCodec(), pivots);
      text := text + "elements:\n";
      SerializeMap(MessageKeyCodec(key), MessageCodec(val), elements);
    }

    method DeserializeNode<K, V>(key: Codec<K>, val: Codec<V>) returns (r: Option<Image<K, V>>)
      modifies this
      ensures match ReadNode(key, val, old(text))
        case None => r == None
        case Some((node, rest)) => r == Some(node) && text == rest
    {
      hide ReadMap, ReadWord;
      r := None;
      match ReadWord(text) {
        case None => return;
        case Some((_, rest)) => text := rest;
      }
      var pivots := DeserializeMap(key, ChildCodec());
      if pivots == None { return; }
      match ReadWord(text) {
        case None => return;
        case Some((_, rest)) => text := rest;
      }
      var elements := DeserializeMap(MessageKeyCodec(key), MessageCodec(val));
      if elements == None { return; }
      r := Some(Image(pivots.value, elements.value));
    }
  }

  /** Swapping a node out and in again, with std::string keys and values of arbitrary
      bytes. */
  method SwapOutAndIn(pivots: seq<(Bytes, (U64, U64))>, elements: seq<((U64, Bytes), (Opcode, Bytes))>,
                      ghost node: Image<Bytes, Bytes>) returns (r: Option<Image<Bytes, Bytes>>)
    requires Lists(pivots, node.pivots) && |pivots| <= INT_MAX
    requires Lists(elements, node.elements) && |elements| <= INT_MAX
    ensures r == Some(node)
  {
    hide Lists, Faithful, ReadNode, WriteNode;
    StringFaithful();
    NodeRoundTrip(StringCodec(), StringCodec(), pivots, elements, node, "");
    var fs := new Stream();
    fs.SerializeNode(StringCodec(), StringCodec(), pivots, elements);
    assert fs.text == WriteNode(StringCodec(), StringCodec(), pivots, elements) + "";
    r := fs.DeserializeNode(StringCodec(), StringCodec());
  }
}
