/** Unpadded standard base64, sections 3.2 and 4 of RFC 4648, as Go's RawStdEncoding reads and writes it. */
module Base64 {
  import opened Wrappers

  type byte = x: int | 0 <= x < 256
  type sextet = x: int | 0 <= x < 64

  function CharOf(i: sextet): char {
    if i < 26 then 'A' + i as char
    else if i < 52 then 'a' + (i - 26) as char
    else if i < 62 then '0' + (i - 52) as char
    else if i == 62 then '+' else '/'
  }

  function SextetOf(c: char): Option<sextet> {
    if 'A' <= c <= 'Z' then Some(c as int - 65)
    else if 'a' <= c <= 'z' then Some(c as int - 71)
    else if '0' <= c <= '9' then Some(c as int + 4)
    else if c == '+' then Some(62) else if c == '/' then Some(63) else None
  }

  function Sextets(b: seq<byte>): (x: seq<sextet>) {
    if |b| == 0 then []
    else if |b| == 1 then [b[0] / 4, b[0] % 4 * 16]
    else if |b| == 2 then [b[0] / 4, b[0] % 4 * 16 + b[1] / 16, b[1] % 16 * 4]
    else [b[0] / 4, b[0] % 4 * 16 + b[1] / 16, b[1] % 16 * 4 + b[2] / 64, b[2] % 64] + Sextets(b[3..])
  }

  /** The bytes that four sextets a, b, c, d make up. */
  function FirstByte(a: int, b: int): byte
    requires 0 <= a < 64 && 0 <= b < 64
  {
    a * 4 + b / 16
  }

  function SecondByte(b: int, c: int): byte
    requires 0 <= b < 64 && 0 <= c < 64
  {
    b % 16 * 16 + c / 4
  }

  function ThirdByte(c: int, d: int): byte
    requires 0 <= c < 64 && 0 <= d < 64
  {
    c % 4 * 64 + d
  }

  /** Bits beyond the last whole byte are ignored; a single left-over character is an error. */
  function Bytes(x: seq<sextet>): Option<seq<byte>> {
    if |x| == 0 then Some([])
    else if |x| == 1 then None
    else if |x| == 2 then Some([FirstByte(x[0], x[1])])
    else if |x| == 3 then Some([FirstByte(x[0], x[1]), SecondByte(x[1], x[2])])
    else
      var rest := Bytes(x[4..]);
      if rest.None? then None
      else Some([FirstByte(x[0], x[1]), SecondByte(x[1], x[2]), ThirdByte(x[2], x[3])] + rest.value)
  }

  function Encode(b: seq<byte>): string {
    var x := Sextets(b);
    seq(|x|, i requires 0 <= i < |x| => CharOf(x[i]))
  }

  /** Line breaks are skipped, any other foreign character is an error. */
  function ReadSextets(s: string): Option<seq<sextet>> {
    if s == [] then Some([])
    else if s[0] == '\r' || s[0] == '\n' then ReadSextets(s[1..])
    else
      var c, rest := SextetOf(s[0]), ReadSextets(s[1..]);
      if c.None? || rest.None? then None else Some([c.value] + rest.value)
  }

  function Decode(s: string): Option<seq<byte>> {
    var x := ReadSextets(s);
    if x.None? then None else Bytes(x.value)
  }

  // ----- The encoding bit by bit -----

  ghost const ALPHABET := "ABCDEFGHIJKLMNOPQRSTUVWXYZ" + "abcdefghijklmnopqrstuvwxyz" + "0123456789" + "+/"

  /** Bit `j` of a byte, the most significant one first. */
  ghost function BitOf(x: byte, j: int): int
    requires 0 <= j < 8
  {
    match j
    case 0 => x / 128 case 1 => x / 64 % 2 case 2 => x / 32 % 2 case 3 => x / 16 % 2
    case 4 => x / 8 % 2 case 5 => x / 4 % 2 case 6 => x / 2 % 2 case _ => x % 2
  }

  /** Bit `i` of the bytes; zero past the end. */
  ghost function Bit(b: seq<byte>, i: nat): int {
    if i / 8 < |b| then BitOf(b[i / 8], i % 8) else 0
  }

  /** Group number `k` of six bits. */
  ghost function SixBits(b: seq<byte>, k: nat): int {
    Bit(b, 6 * k) * 32 + Bit(b, 6 * k + 1) * 16 + Bit(b, 6 * k + 2) * 8 + Bit(b, 6 * k + 3) * 4
    + Bit(b, 6 * k + 4) * 2 + Bit(b, 6 * k + 5)
  }

  lemma CharMeans(i: sextet)
    ensures |ALPHABET| == 64 && CharOf(i) == ALPHABET[i]
  {
  }

  lemma HighBits(x: byte)
    ensures BitOf(x, 0) * 2 + BitOf(x, 1) == x / 64
    ensures BitOf(x, 0) * 8 + BitOf(x, 1) * 4 + BitOf(x, 2) * 2 + BitOf(x, 3) == x / 16
    ensures BitOf(x, 0) * 32 + BitOf(x, 1) * 16 + BitOf(x, 2) * 8 + BitOf(x, 3) * 4 + BitOf(x, 4) * 2 + BitOf(x, 5)
            == x / 4
  {
    assert x / 64 / 2 == x / 128 && x / 32 / 2 == x / 64 && x / 16 / 2 == x / 32;
    assert x / 8 / 2 == x / 16 && x / 4 / 2 == x / 8;
  }

  lemma LowBits(x: byte)
    ensures BitOf(x, 6) * 2 + BitOf(x, 7) == x % 4
    ensures BitOf(x, 4) * 8 + BitOf(x, 5) * 4 + BitOf(x, 6) * 2 + BitOf(x, 7) == x % 16
    ensures BitOf(x, 2) * 32 + BitOf(x, 3) * 16 + BitOf(x, 4) * 8 + BitOf(x, 5) * 4 + BitOf(x, 6) * 2 + BitOf(x, 7)
            == x % 64
  {
    assert x / 32 / 2 == x / 64 && x / 16 / 2 == x / 32 && x / 8 / 2 == x / 16;
    assert x / 4 / 2 == x / 8 && x / 2 / 2 == x / 4;
  }

  /** The eight bits of byte number `n`. */
  lemma ByteAt(b: seq<byte>, n: nat)
    ensures forall j :: 8 * n <= j < 8 * n + 8 ==> Bit(b, j) == BitOf(if n < |b| then b[n] else 0, j - 8 * n)
  {
    forall j | 8 * n <= j < 8 * n + 8 ensures Bit(b, j) == BitOf(if n < |b| then b[n] else 0, j - 8 * n) {
      assert j / 8 == n && j % 8 == j - 8 * n;
    }
  }

  lemma FirstSextets(b: seq<byte>)
    requires b != []
    ensures var x, y, z := b[0], if |b| > 1 then b[1] else 0, if |b| > 2 then b[2] else 0;
            && SixBits(b, 0) == x / 4 && SixBits(b, 1) == x % 4 * 16 + y / 16
            && SixBits(b, 2) == y % 16 * 4 + z / 64 && SixBits(b, 3) == z % 64
  {
    hide Bit, BitOf;
    var x, y, z := b[0], if |b| > 1 then b[1] else 0, if |b| > 2 then b[2] else 0;
    ByteAt(b, 0); ByteAt(b, 1); ByteAt(b, 2);
    HighBits(x); HighBits(y); HighBits(z);
    LowBits(x); LowBits(y); LowBits(z);
  }

  lemma LaterBit(b: seq<byte>, i: nat)
    requires |b| >= 3
    ensures Bit(b, i + 24) == Bit(b[3..], i)
  {
    assert (i + 24) / 8 == i / 8 + 3 && (i + 24) % 8 == i % 8;
  }

  lemma LaterSextet(b: seq<byte>, k: nat)
    requires |b| >= 3
    ensures SixBits(b, k + 4) == SixBits(b[3..], k)
  {
    hide Bit;
    LaterBit(b, 6 * k); LaterBit(b, 6 * k + 1); LaterBit(b, 6 * k + 2);
    LaterBit(b, 6 * k + 3); LaterBit(b, 6 * k + 4); LaterBit(b, 6 * k + 5);
  }

  lemma {:induction false} SextetAt(b: seq<byte>, k: nat)
    ensures |Sextets(b)| == (8 * |b| + 5) / 6
    ensures k < |Sextets(b)| ==> Sextets(b)[k] == SixBits(b, k)
  {
    hide SixBits;
    if b != [] { FirstSextets(b); }
    if |b| >= 3 {
      SextetAt(b[3..], if k >= 4 then k - 4 else 0);
      if k >= 4 { LaterSextet(b, k - 4); }
    }
  }

  /** Character `k` of the text is the letter for group `k` of six bits; there is no padding. */
  lemma EncodeMeans(b: seq<byte>)
    ensures |Encode(b)| == (8 * |b| + 5) / 6
    ensures forall k :: 0 <= k < |Encode(b)| ==>
              0 <= SixBits(b, k) < |ALPHABET| && Encode(b)[k] == ALPHABET[SixBits(b, k)]
  {
    hide SixBits, CharOf, ALPHABET;
    SextetAt(b, 0);
    CharMeans(0);
    forall k | 0 <= k < |Encode(b)|
      ensures 0 <= SixBits(b, k) < |ALPHABET| && Encode(b)[k] == ALPHABET[SixBits(b, k)]
    {
      SextetAt(b, k);
      CharMeans(Sextets(b)[k]);
    }
  }

  // ----- Decoding undoes it -----

  lemma CharRoundTrip(i: sextet)
    ensures SextetOf(CharOf(i)) == Some(i) && CharOf(i) != '\r' && CharOf(i) != '\n' && CharOf(i) != '$'
  {
  }

  lemma QuadRoundTrip(a: byte, b: byte, c: byte)
    ensures FirstByte(a / 4, a % 4 * 16 + b / 16) == a
    ensures SecondByte(a % 4 * 16 + b / 16, b % 16 * 4 + c / 64) == b
    ensures ThirdByte(b % 16 * 4 + c / 64, c % 64) == c
  {
  }

  lemma {:induction false} BytesRoundTrip(b: seq<byte>)
    ensures Bytes(Sextets(b)) == Some(b)
  {
    if |b| >= 3 {
      BytesRoundTrip(b[3..]);
      QuadRoundTrip(b[0], b[1], b[2]);
      assert Sextets(b)[4..] == Sextets(b[3..]);
      assert b == [b[0], b[1], b[2]] + b[3..];
    } else if |b| == 2 {
      assert b == [b[0], b[1]];
    } else if |b| == 1 {
      assert b == [b[0]];
    }
  }

  lemma {:induction false} ReadRoundTrip(x: seq<sextet>, s: string)
    requires |s| == |x| && forall i :: 0 <= i < |x| ==> s[i] == CharOf(x[i])
    ensures ReadSextets(s) == Some(x)
  {
    if x != [] {
      CharRoundTrip(x[0]);
      ReadRoundTrip(x[1..], s[1..]);
      assert x == [x[0]] + x[1..];
    }
  }

  /** Decoding undoes encoding, and the encoding never contains the record separator. */
  lemma RoundTrip(b: seq<byte>)
    ensures Decode(Encode(b)) == Some(b) && '$' !in Encode(b)
  {
    ReadRoundTrip(Sextets(b), Encode(b));
    BytesRoundTrip(b);
    forall i | 0 <= i < |Encode(b)| ensures Encode(b)[i] != '$' { CharRoundTrip(Sextets(b)[i]); }
  }
}

/** The password record that HashPassword prints and VerifyPassword parses. Argon2id is a parameter. */
module Password {
  import opened Wrappers
  import opened Base64
  import opened Digits

  const MAX_BYTES := 1024
  const MEMORY := 65536
  const ITERATIONS := 3
  const PARALLELISM := 2

  /** argon2.IDKey(password, salt, iterations, memory, parallelism, keyLen). */
  type Kdf = (seq<byte>, seq<byte>, nat, nat, nat, nat) -> seq<byte>

  ghost predicate KeysHaveLength(kdf: Kdf) {
    forall pw, salt, t, m, p, n :: |kdf(pw, salt, t, m, p, n)| == n
  }

  datatype Params = Params(memory: nat, iterations: nat, parallelism: nat)
  datatype Record = Record(params: Params, salt: seq<byte>, key: seq<byte>)

  // ----- Decimal numbers -----

  /** fmt's %d. */
  function Decimal(n: nat): (s: string)
    ensures |s| >= 1 && forall i :: 0 <= i < |s| ==> '0' <= s[i] <= '9'
  {
    if n < 10 then [Digit(n)] else Decimal(n / 10) + [Digit(n % 10)]
  }

  function Value(digits: string): nat
    requires forall i :: 0 <= i < |digits| ==> '0' <= digits[i] <= '9'
  {
    if digits == [] then 0
    else Value(digits[..|digits| - 1]) * 10 + (digits[|digits| - 1] as int - 48)
  }

  function DigitsEnd(s: string): (n: nat)
    ensures n <= |s| && forall i :: 0 <= i < n ==> '0' <= s[i] <= '9'
    ensures n < |s| ==> !('0' <= s[n] <= '9')
  {
    if s == [] || !('0' <= s[0] <= '9') then 0 else 1 + DigitsEnd(s[1..])
  }

  lemma {:induction false} DecimalValue(n: nat)
    ensures Value(Decimal(n)) == n
  {
    if n >= 10 {
      DecimalValue(n / 10);
      var s := Decimal(n);
      assert s[..|s| - 1] == Decimal(n / 10);
    } else {
      assert Decimal(n)[..0] == [];
    }
  }

  /** Scans `literal` and then a decimal number below `limit`; gives the number and what is left. */
  function Scan(s: string, literal: string, limit: nat): Option<(nat, string)> {
    if !(literal <= s) then None else
      var t := s[|literal|..];
      var n := DigitsEnd(t);
      if n == 0 || Value(t[..n]) >= limit then None else Some((Value(t[..n]), t[n..]))
  }

  lemma {:induction false} DigitsStop(d: string, rest: string)
    requires forall i :: 0 <= i < |d| ==> '0' <= d[i] <= '9'
    requires rest == [] || !('0' <= rest[0] <= '9')
    ensures DigitsEnd(d + rest) == |d|
  {
    if d == [] {
      assert d + rest == rest;
    } else {
      assert (d + rest)[1..] == d[1..] + rest;
      DigitsStop(d[1..], rest);
    }
  }

  lemma {:induction false} ScanPrinted(literal: string, n: nat, rest: string, limit: nat)
    requires n < limit && (rest == [] || !('0' <= rest[0] <= '9'))
    ensures Scan(literal + (Decimal(n) + rest), literal, limit) == Some((n, rest))
  {
    var t := Decimal(n) + rest;
    assert (literal + t)[|literal|..] == t;
    DigitsStop(Decimal(n), rest);
    assert t[..|Decimal(n)|] == Decimal(n) && t[|Decimal(n)|..] == rest;
    DecimalValue(n);
  }

  // ----- Printing and parsing -----

  const TWO32: nat := 0x1_0000_0000

  const M := "m="
  const T := ",t="
  const P := ",p="

  function PrintParams(p: Params): string {
    M + (Decimal(p.memory) + (T + (Decimal(p.iterations) + (P + (Decimal(p.parallelism) + "")))))
  }

  /** fmt.Sscanf(s, "m=%d,t=%d,p=%d") into two uint32 and a uint8; text after the last number is ignored. */
  function ParseParams(s: string): Option<Params> {
    var m := Scan(s, M, TWO32);
    if m.None? then None else
      var t := Scan(m.value.1, T, TWO32);
      if t.None? then None else
        var p := Scan(t.value.1, P, 256);
        if p.None? then None else Some(Params(m.value.0, t.value.0, p.value.0))
  }

  lemma ParamsRoundTrip(p: Params)
    requires p.memory < TWO32 && p.iterations < TWO32 && p.parallelism < 256
    ensures ParseParams(PrintParams(p)) == Some(p)
  {
    var c := P + (Decimal(p.parallelism) + "");
    var b := T + (Decimal(p.iterations) + c);
    ScanPrinted(P, p.parallelism, "", 256);
    ScanPrinted(T, p.iterations, c, TWO32);
    ScanPrinted(M, p.memory, b, TWO32);
  }

  /** strings.Split(s, "$"). */
  function Split(s: string): (parts: seq<string>)
    ensures |parts| >= 1
  {
    if s == [] then [[]]
    else
      var rest := Split(s[1..]);
      if s[0] == '$' then [[]] + rest else [[s[0]] + rest[0]] + rest[1..]
  }

  /** The parts with a '$' between each two. */
  function Join(parts: seq<string>): string
    requires parts != []
  {
    if |parts| == 1 then parts[0] else parts[0] + (['$'] + Join(parts[1..]))
  }

  lemma {:induction false} SplitPart(part: string, rest: string)
    requires '$' !in part
    ensures Split(part) == [part] && Split(part + (['$'] + rest)) == [part] + Split(rest)
  {
    if part == [] {
      assert part + (['$'] + rest) == ['$'] + rest;
      assert (['$'] + rest)[1..] == rest;
    } else {
      SplitPart(part[1..], rest);
      assert (part + (['$'] + rest))[1..] == part[1..] + (['$'] + rest);
      assert part == [part[0]] + part[1..];
    }
  }

  lemma {:induction false} SplitJoin(parts: seq<string>)
    requires parts != [] && forall i :: 0 <= i < |parts| ==> '$' !in parts[i]
    ensures Split(Join(parts)) == parts
  {
    if |parts| == 1 {
      SplitPart(parts[0], []);
    } else {
      SplitJoin(parts[1..]);
      SplitPart(parts[0], Join(parts[1..]));
    }
  }

  const ALGORITHM := "argon2id"
  const VERSION := "v=19"

  function Parts(r: Record): seq<string> {
    ["", ALGORITHM, VERSION, PrintParams(r.params), Encode(r.salt), Encode(r.key)]
  }

  /** "$argon2id$v=19$m=..,t=..,p=..$salt$key". */
  function PrintRecord(r: Record): string {
    Join(Parts(r))
  }

  function ParseParts(p: seq<string>): Option<Record> {
    if |p| != 6 || p[1] != ALGORITHM || p[2] != VERSION then None else
      var params, salt, key := ParseParams(p[3]), Decode(p[4]), Decode(p[5]);
      if params.None? || salt.None? || key.None? || |salt.value| != 16 || |key.value| != 32 then None
      else Some(Record(params.value, salt.value, key.value))
  }

  /** The parsing half of VerifyPassword, up to the bounds on the parameters. */
  function ParseRecord(encoded: string): Option<Record> {
    ParseParts(Split(encoded))
  }

  lemma ParamsNoDollar(p: Params)
    ensures '$' !in PrintParams(p)
  {
  }

  lemma PartsNoDollar(r: Record)
    ensures forall i :: 0 <= i < 6 ==> '$' !in Parts(r)[i]
  {
    ParamsNoDollar(r.params);
    RoundTrip(r.salt);
    RoundTrip(r.key);
  }

  lemma PartsRoundTrip(r: Record)
    requires r.params.memory < TWO32 && r.params.iterations < TWO32 && r.params.parallelism < 256
    requires |r.salt| == 16 && |r.key| == 32
    ensures ParseParts(Parts(r)) == Some(r)
  {
    ParamsRoundTrip(r.params);
    RoundTrip(r.salt);
    RoundTrip(r.key);
    SixParts(PrintParams(r.params), Encode(r.salt), Encode(r.key), r);
  }

  lemma SixParts(params: string, salt: string, key: string, r: Record)
    requires ParseParams(params) == Some(r.params) && Decode(salt) == Some(r.salt) && Decode(key) == Some(r.key)
    requires |r.salt| == 16 && |r.key| == 32
    ensures ParseParts(["", ALGORITHM, VERSION, params, salt, key]) == Some(r)
  {
    var p := ["", ALGORITHM, VERSION, params, salt, key];
    assert p[1] == ALGORITHM && p[2] == VERSION && p[3] == params && p[4] == salt && p[5] == key;
  }

  /** Parsing undoes printing, for every parameter that fits its integer type, every 16-byte salt and 32-byte key. */
  lemma RecordRoundTrip(r: Record)
    requires r.params.memory < TWO32 && r.params.iterations < TWO32 && r.params.parallelism < 256
    requires |r.salt| == 16 && |r.key| == 32
    ensures ParseRecord(PrintRecord(r)) == Some(r)
  {
    PartsNoDollar(r);
    SplitJoin(Parts(r));
    PartsRoundTrip(r);
  }

  /** HashPassword with the drawn salt as a parameter. */
  function HashPassword(password: seq<byte>, salt: seq<byte>, kdf: Kdf): Option<string> {
    if |password| < 6 || |password| > MAX_BYTES then None
    else Some(PrintRecord(Record(Params(MEMORY, ITERATIONS, PARALLELISM), salt,
                                 kdf(password, salt, ITERATIONS, MEMORY, PARALLELISM, 32))))
  }

  predicate VerifyPassword(encoded: string, password: seq<byte>, kdf: Kdf) {
    var r := ParseRecord(encoded);
    && |password| <= MAX_BYTES && r.Some?
    && r.value.params.memory <= 262144 && r.value.params.iterations <= 10 && r.value.params.parallelism <= 8
    && kdf(password, r.value.salt, r.value.params.iterations, r.value.params.memory, r.value.params.parallelism, 32)
       == r.value.key
  }

  /** The text of a record, as it is stored. */
  lemma RecordText(r: Record)
    ensures PrintRecord(r)
            == "$argon2id$v=19$m=" + Decimal(r.params.memory) + ",t=" + Decimal(r.params.iterations) + ",p="
               + Decimal(r.params.parallelism) + "$" + Encode(r.salt) + "$" + Encode(r.key)
  {
    hide Decimal, Encode, Join;
    var m, t, p := Decimal(r.params.memory), Decimal(r.params.iterations), Decimal(r.params.parallelism);
    var salt, key := Encode(r.salt), Encode(r.key);
    JoinSix("", ALGORITHM, VERSION, PrintParams(r.params), salt, key);
    ParamsText(m, t, p, salt, key);
  }

  lemma ParamsText(m: string, t: string, p: string, salt: string, key: string)
    ensures "" + "$" + "argon2id" + "$" + "v=19" + "$" + ("m=" + (m + (",t=" + (t + (",p=" + (p + ""))))))
            + "$" + salt + "$" + key
            == "$argon2id$v=19$m=" + m + ",t=" + t + ",p=" + p + "$" + salt + "$" + key
  {
    assert "" + "$" + "argon2id" + "$" + "v=19" + "$" + "m=" == "$argon2id$v=19$m=";
    var head := "$argon2id$v=19$m=";
    assert p + "" == p;
    assert "m=" + (m + (",t=" + (t + (",p=" + p)))) == "m=" + m + ",t=" + t + ",p=" + p;
    assert "" + "$" + "argon2id" + "$" + "v=19" + "$" + ("m=" + (m + (",t=" + (t + (",p=" + p)))))
           == head + (m + (",t=" + (t + (",p=" + p))));
    assert head + (m + (",t=" + (t + (",p=" + p)))) == head + m + ",t=" + t + ",p=" + p;
  }

  lemma {:induction false} JoinFirst(part: string, rest: seq<string>)
    requires rest != []
    ensures Join([part] + rest) == part + ("$" + Join(rest))
  {
    assert ([part] + rest)[1..] == rest;
  }

  lemma JoinSix(a: string, b: string, c: string, d: string, e: string, f: string)
    ensures Join([a, b, c, d, e, f]) == a + "$" + b + "$" + c + "$" + d + "$" + e + "$" + f
  {
    JoinFirst(e, [f]);
    JoinFirst(d, [e] + [f]);
    JoinFirst(c, [d] + ([e] + [f]));
    JoinFirst(b, [c] + ([d] + ([e] + [f])));
    JoinFirst(a, [b] + ([c] + ([d] + ([e] + [f]))));
    assert Join([f]) == f;
    hide Join;
    assert [a, b, c, d, e, f] == [a] + ([b] + ([c] + ([d] + ([e] + [f]))));
  }

  lemma SmallDecimals()
    ensures Decimal(65536) == "65536" && Decimal(3) == "3" && Decimal(2) == "2"
  {
    assert Decimal(65) == "65";
    assert Decimal(6553) == "6553";
  }

  /** What is stored for a new password. */
  lemma HashText(password: seq<byte>, salt: seq<byte>, kdf: Kdf)
    ensures HashPassword(password, salt, kdf).Some? <==> 6 <= |password| <= 1024
    ensures 6 <= |password| <= 1024 ==>
              HashPassword(password, salt, kdf).value
              == "$argon2id$v=19$m=65536,t=3,p=2$" + Encode(salt) + "$" + Encode(kdf(password, salt, 3, 65536, 2, 32))
  {
    hide Decimal, Encode, PrintRecord;
    SmallDecimals();
    RecordText(Record(Params(65536, 3, 2), salt, kdf(password, salt, 3, 65536, 2, 32)));
  }

  /** A record is used exactly within these bounds, and then it accepts what derives its key. */
  lemma VerifyMeans(r: Record, password: seq<byte>, kdf: Kdf)
    requires r.params.memory < TWO32 && r.params.iterations < TWO32 && r.params.parallelism < 256
    requires |r.salt| == 16 && |r.key| == 32
    ensures var m, t, p := r.params.memory, r.params.iterations, r.params.parallelism;
            var text := "$argon2id$v=19$m=" + Decimal(m) + ",t=" + Decimal(t) + ",p=" + Decimal(p) + "$"
                        + Encode(r.salt) + "$" + Encode(r.key);
            VerifyPassword(text, password, kdf)
            <==> (|password| <= 1024 && m <= 262144 && t <= 10 && p <= 8 && kdf(password, r.salt, t, m, p, 32) == r.key)
  {
    hide Decimal, Encode, PrintRecord, ParseRecord;
    RecordText(r);
    RecordRoundTrip(r);
  }

  /**
    A stored record accepts exactly the passwords of acceptable length with the same derived key;
    in particular it accepts the password it was made from.
   */
  lemma VerifyHashed(password: seq<byte>, salt: seq<byte>, other: seq<byte>, kdf: Kdf)
    requires KeysHaveLength(kdf) && |salt| == 16 && 6 <= |password| <= MAX_BYTES
    ensures HashPassword(password, salt, kdf).Some?
    ensures VerifyPassword(HashPassword(password, salt, kdf).value, other, kdf)
            <==> |other| <= MAX_BYTES && kdf(other, salt, ITERATIONS, MEMORY, PARALLELISM, 32)
                                         == kdf(password, salt, ITERATIONS, MEMORY, PARALLELISM, 32)
    ensures VerifyPassword(HashPassword(password, salt, kdf).value, password, kdf)
  {
    var key := kdf(password, salt, ITERATIONS, MEMORY, PARALLELISM, 32);
    RecordRoundTrip(Record(Params(MEMORY, ITERATIONS, PARALLELISM), salt, key));
  }
}
