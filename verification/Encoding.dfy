/** Bytes, decimal and hexadecimal text, and the field formats that make a hashed text unambiguous. */
module Encoding {
  type Byte = b: int | 0 <= b < 256
  type Bytes = seq<Byte>

  const BAR: Byte := 124
  const COLON: Byte := 58
  const NEWLINE: Byte := 10
  const RETURN: Byte := 13
  const MINUS: Byte := 45

  function Ascii(s: string): Bytes {
    seq(|s|, i requires 0 <= i < |s| => s[i] as int % 256)
  }

  predicate Free(text: Bytes, c: Byte) {
    forall i :: 0 <= i < |text| ==> text[i] != c
  }

  /** What stands before the first separator, and what stands after it, can be read back. */
  lemma CutAt(a: Bytes, x: Bytes, b: Bytes, y: Bytes, sep: Byte)
    requires Free(a, sep) && Free(b, sep) && a + [sep] + x == b + [sep] + y
    ensures a == b && x == y
  {
    var s, t := a + [sep] + x, b + [sep] + y;
    assert s[|a|] == sep && t[|b|] == sep;
    assert a == s[..|a|] && b == t[..|b|] && x == s[|a| + 1..] && y == t[|b| + 1..];
  }

  // ----- splitting

  /** `text.split(sep)` */
  function Split(text: Bytes, sep: Byte): (parts: seq<Bytes>)
    ensures parts != []
  {
    if text == [] then [[]]
    else
      var rest := Split(text[1..], sep);
      if text[0] == sep then [[]] + rest else [[text[0]] + rest[0]] + rest[1..]
  }

  function Join(parts: seq<Bytes>, sep: Byte): Bytes {
    if parts == [] then []
    else if |parts| == 1 then parts[0]
    else parts[0] + [sep] + Join(parts[1..], sep)
  }

  /** `Split` cuts at every separator and nowhere else. */
  lemma {:induction false} SplitInverse(s: Bytes, sep: Byte)
    ensures Join(Split(s, sep), sep) == s
    ensures forall i :: 0 <= i < |Split(s, sep)| ==> Free(Split(s, sep)[i], sep)
  {
    if s != [] {
      SplitInverse(s[1..], sep);
      var rest := Split(s[1..], sep);
      if s[0] == sep {
        assert Split(s, sep)[1..] == rest;
      } else {
        assert Split(s, sep)[1..] == rest[1..];
      }
    }
  }

  lemma {:induction false} SplitCut(a: Bytes, x: Bytes, sep: Byte)
    requires Free(a, sep)
    ensures Split(a + [sep] + x, sep) == [a] + Split(x, sep)
  {
    var s := a + [sep] + x;
    if a == [] {
      assert s[1..] == x;
    } else {
      assert s[1..] == a[1..] + [sep] + x && s[0] == a[0];
      SplitCut(a[1..], x, sep);
      assert [a[0]] + a[1..] == a;
    }
  }

  lemma {:induction false} SplitLast(a: Bytes, sep: Byte)
    requires Free(a, sep)
    ensures Split(a, sep) == [a]
  {
    if a != [] {
      SplitLast(a[1..], sep);
      assert [a[0]] + a[1..] == a;
    }
  }

  /** Parts without a separator are read back. */
  lemma {:induction false} SplitOfJoin(parts: seq<Bytes>, sep: Byte)
    requires parts != [] && forall i :: 0 <= i < |parts| ==> Free(parts[i], sep)
    ensures Split(Join(parts, sep), sep) == parts
  {
    hide Split;
    if |parts| == 1 {
      SplitLast(parts[0], sep);
    } else {
      SplitOfJoin(parts[1..], sep);
      SplitCut(parts[0], Join(parts[1..], sep), sep);
    }
  }

  lemma SplitCons(s: Bytes, sep: Byte)
    requires s != []
    ensures var rest := Split(s[1..], sep);
      Split(s, sep) == if s[0] == sep then [[]] + rest else [[s[0]] + rest[0]] + rest[1..]
  {}

  lemma PrependPart(x: seq<Bytes>, y: seq<Bytes>, z: seq<Bytes>, b: Byte)
    requires x == y + z && y != []
    ensures [[]] + x == [[]] + y + z
    ensures [[b] + x[0]] + x[1..] == [[b] + y[0]] + y[1..] + z
  {
    assert x[1..] == y[1..] + z;
  }

  lemma {:induction false} SplitConcat(a: Bytes, b: Bytes, sep: Byte)
    ensures Split(a + b, sep) == Split(a + Split(b, sep)[0], sep) + Split(b, sep)[1..]
  {
    if a == [] {
      SplitInverse(b, sep);
      SplitLast(Split(b, sep)[0], sep);
      assert a + b == b && a + Split(b, sep)[0] == Split(b, sep)[0];
    } else {
      SplitConcat(a[1..], b, sep);
      var c := Split(b, sep)[0];
      assert (a + b)[1..] == a[1..] + b && (a + c)[1..] == a[1..] + c;
      SplitCons(a + b, sep);
      SplitCons(a + c, sep);
      hide Split;
      assert (a + b)[0] == (a + c)[0] == a[0];
      PrependPart(Split(a[1..] + b, sep), Split(a[1..] + c, sep), Split(b, sep)[1..], a[0]);
    }
  }

  // ----- decimal numbers

  predicate Digits(text: Bytes) {
    |text| > 0 && forall i :: 0 <= i < |text| ==> 48 <= text[i] <= 57
  }

  function DecNat(n: nat): (d: Bytes)
    ensures Digits(d)
  {
    if n < 10 then [48 + n] else DecNat(n / 10) + [48 + n % 10]
  }

  function Dec(n: int): (d: Bytes)
    ensures |d| > 0 && Free(d, BAR) && Free(d, COLON) && (d[0] == MINUS <==> n < 0)
  {
    if n < 0 then [MINUS] + DecNat(-n) else DecNat(n)
  }

  function Value(d: Bytes): int {
    if d == [] then 0 else 10 * Value(d[..|d| - 1]) + d[|d| - 1] - 48
  }

  lemma {:induction false} ValueOfDecNat(n: nat)
    ensures Value(DecNat(n)) == n
  {
    if n < 10 {
      assert DecNat(n)[..0] == [];
    } else {
      ValueOfDecNat(n / 10);
      assert DecNat(n)[..|DecNat(n)| - 1] == DecNat(n / 10);
    }
  }

  lemma DecInjective(m: int, n: int)
    requires Dec(m) == Dec(n)
    ensures m == n
  {
    hide DecNat; hide Value;
    if m < 0 && n < 0 {
      assert DecNat(-m) == Dec(m)[1..] && DecNat(-n) == Dec(n)[1..];
      ValueOfDecNat(-m);
      ValueOfDecNat(-n);
    } else if m >= 0 && n >= 0 {
      ValueOfDecNat(m);
      ValueOfDecNat(n);
    }
  }

  // ----- hexadecimal text

  predicate IsHex(c: Byte) {
    48 <= c <= 57 || 97 <= c <= 102
  }

  predicate HexText(s: Bytes) {
    forall i :: 0 <= i < |s| ==> IsHex(s[i])
  }

  function HexValue(c: Byte): (n: nat)
    requires IsHex(c)
    ensures n < 16
  {
    if c <= 57 then c - 48 else c - 87
  }

  function HexDigit(n: nat): (c: Byte)
    requires n < 16
    ensures IsHex(c) && HexValue(c) == n
  {
    if n < 10 then 48 + n else 87 + n
  }

  function FromHex(s: Bytes): (b: Bytes)
    requires |s| % 2 == 0 && HexText(s)
    ensures |b| == |s| / 2
  {
    seq(|s| / 2, i requires 0 <= i < |s| / 2 => 16 * HexValue(s[2 * i]) + HexValue(s[2 * i + 1]))
  }

  function Hex(b: Bytes): (s: Bytes)
    ensures |s| == 2 * |b| && HexText(s)
  {
    seq(2 * |b|, j requires 0 <= j < 2 * |b| => HexDigit(if j % 2 == 0 then b[j / 2] / 16 else b[j / 2] % 16))
  }

  lemma HexAt(b: Bytes, i: nat)
    requires i < |b|
    ensures b[i] == 16 * HexValue(Hex(b)[2 * i]) + HexValue(Hex(b)[2 * i + 1])
  {
    hide HexValue; hide HexDigit;
    assert (2 * i) / 2 == i && (2 * i) % 2 == 0 && (2 * i + 1) / 2 == i && (2 * i + 1) % 2 == 1;
    assert Hex(b)[2 * i] == HexDigit(b[i] / 16) && Hex(b)[2 * i + 1] == HexDigit(b[i] % 16);
  }

  /** Two characters a byte, the one of the high half first; read back as they were. */
  lemma HexRoundTrip(b: Bytes)
    ensures FromHex(Hex(b)) == b
    ensures b != [] ==> b[0] == 16 * HexValue(Hex(b)[0]) + HexValue(Hex(b)[1])
  {
    hide HexValue; hide HexDigit; hide Hex;
    var s := Hex(b);
    forall i | 0 <= i < |b|
      ensures FromHex(s)[i] == b[i]
    {
      HexAt(b, i);
    }
  }

  lemma FromHexInjective(s: Bytes, t: Bytes)
    requires |s| % 2 == 0 && |t| % 2 == 0 && HexText(s) && HexText(t) && FromHex(s) == FromHex(t)
    ensures s == t
  {
    assert |s| == |t|;
    forall i | 0 <= i < |s| / 2
      ensures s[2 * i] == t[2 * i] && s[2 * i + 1] == t[2 * i + 1]
    {
      assert FromHex(s)[i] == 16 * HexValue(s[2 * i]) + HexValue(s[2 * i + 1]);
      assert FromHex(t)[i] == 16 * HexValue(t[2 * i]) + HexValue(t[2 * i + 1]);
    }
    hide FromHex;
    forall j | 0 <= j < |s|
      ensures s[j] == t[j]
    {
      var i := j / 2;
      assert j == 2 * i || j == 2 * i + 1;
    }
  }

  // ----- fields

  /** Fields joined by bars. */
  function Fields(fs: seq<Bytes>): Bytes
    requires |fs| > 0
  {
    if |fs| == 1 then fs[0] else fs[0] + [BAR] + Fields(fs[1..])
  }

  lemma {:induction false} FieldsJoin(fs: seq<Bytes>)
    requires |fs| > 0
    ensures Fields(fs) == Join(fs, BAR)
  {
    if |fs| > 1 { FieldsJoin(fs[1..]); }
  }

  lemma JoinCons(x: Bytes, parts: seq<Bytes>, sep: Byte)
    requires parts != []
    ensures Join([x] + parts, sep) == x + [sep] + Join(parts, sep)
  {
    assert ([x] + parts)[1..] == parts;
  }

  lemma JoinOfThree(x: Bytes, y: Bytes, z: Bytes, sep: Byte)
    ensures Join([x, y, z], sep) == x + [sep] + y + [sep] + z
  {
    JoinCons(y, [z], sep);
    JoinCons(x, [y, z], sep);
    assert [x] + [y, z] == [x, y, z] && [y] + [z] == [y, z];
  }

  /** Three parts in front of fields. */
  lemma JoinThree(x: Bytes, y: Bytes, z: Bytes, fs: seq<Bytes>)
    requires fs != []
    ensures Join([x, y, z] + fs, BAR) == x + [BAR] + y + [BAR] + z + [BAR] + Fields(fs)
  {
    hide Join; hide Fields;
    FieldsJoin(fs);
    JoinCons(z, fs, BAR);
    JoinCons(y, [z] + fs, BAR);
    JoinCons(x, [y] + ([z] + fs), BAR);
    assert [x] + ([y] + ([z] + fs)) == [x, y, z] + fs;
  }

  lemma FieldsCons(x: Bytes, fs: seq<Bytes>)
    requires fs != []
    ensures Fields([x] + fs) == x + [BAR] + Fields(fs)
  {
    assert ([x] + fs)[1..] == fs;
  }

  /** Only the last field may hold a bar. */
  predicate Clean(fs: seq<Bytes>) {
    forall i :: 0 <= i < |fs| - 1 ==> Free(fs[i], BAR)
  }

  lemma {:induction false} FieldsInjective(fs: seq<Bytes>, gs: seq<Bytes>)
    requires |fs| == |gs| > 0 && Clean(fs) && Clean(gs) && Fields(fs) == Fields(gs)
    ensures fs == gs
  {
    if |fs| > 1 {
      CutAt(fs[0], Fields(fs[1..]), gs[0], Fields(gs[1..]), BAR);
      FieldsInjective(fs[1..], gs[1..]);
      assert fs == [fs[0]] + fs[1..] && gs == [gs[0]] + gs[1..];
    }
  }

  /** The length in bytes, a colon, and the text itself: whatever the text is, its end is known. */
  function Sized(text: Bytes): Bytes {
    Dec(|text|) + [COLON] + text
  }

  lemma SizedCut(t: Bytes, x: Bytes, u: Bytes, y: Bytes)
    requires Sized(t) + x == Sized(u) + y
    ensures t == u && x == y
  {
    assert Sized(t) + x == Dec(|t|) + [COLON] + (t + x);
    assert Sized(u) + y == Dec(|u|) + [COLON] + (u + y);
    CutAt(Dec(|t|), t + x, Dec(|u|), u + y, COLON);
    DecInjective(|t|, |u|);
    assert t == (t + x)[..|t|] && u == (u + y)[..|u|] && x == (t + x)[|t|..] && y == (u + y)[|u|..];
  }

  // ----- hashing

  /** The hash has 32-byte digests. */
  ghost predicate Digests(h: Bytes -> Bytes) {
    forall text: Bytes :: |h(text)| == 32
  }

  /** No two different texts of the set share a digest. */
  predicate NoCollision(h: Bytes -> Bytes, texts: set<Bytes>) {
    forall a, b :: a in texts && b in texts && h(a) == h(b) ==> a == b
  }

  /** `hexdigest` */
  function HexDigest(h: Bytes -> Bytes, text: Bytes): Bytes {
    Hex(h(text))
  }

  lemma HexDigestFixes(h: Bytes -> Bytes, texts: set<Bytes>, a: Bytes, b: Bytes)
    requires NoCollision(h, texts) && a in texts && b in texts && HexDigest(h, a) == HexDigest(h, b)
    ensures a == b
  {
    HexRoundTrip(h(a));
    HexRoundTrip(h(b));
  }
}
