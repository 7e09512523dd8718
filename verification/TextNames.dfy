/** Names are byte strings, one character a byte.  Which of them are text, and which may be archived. */
module TextNames {
  import opened Disk

  predicate ValidName(n: Name) {
    n != "" && n != "." && n != ".." && '/' !in n
  }

  predicate GoodPath(p: Path) {
    forall n | n in p :: ValidName(n)
  }

  predicate Within(c: char, low: int, high: int) {
    low <= c as int <= high
  }

  /** The bytes are well-formed UTF-8. */
  predicate Utf8(s: string) {
    if s == "" then true
    else if Within(s[0], 0, 0x7f) then Utf8(s[1..])
    else if Within(s[0], 0xc2, 0xdf) then |s| >= 2 && Within(s[1], 0x80, 0xbf) && Utf8(s[2..])
    else if Within(s[0], 0xe0, 0xef) then
      && |s| >= 3 && Within(s[1], if s[0] as int == 0xe0 then 0xa0 else 0x80, if s[0] as int == 0xed then 0x9f else 0xbf)
      && Within(s[2], 0x80, 0xbf) && Utf8(s[3..])
    else
      && |s| >= 4 && Within(s[0], 0xf0, 0xf4)
      && Within(s[1], if s[0] as int == 0xf0 then 0x90 else 0x80, if s[0] as int == 0xf4 then 0x8f else 0xbf)
      && Within(s[2], 0x80, 0xbf) && Within(s[3], 0x80, 0xbf) && Utf8(s[4..])
  }

  predicate TextName(n: Name) {
    ValidName(n) && Utf8(n)
  }

  /** What an archive may name: proper components, all of them text. */
  predicate TextPath(p: Path) {
    forall n | n in p :: TextName(n)
  }

  // ---------------------------------------------------------------- encoding

  /** A Unicode scalar value: a code point that is no surrogate. */
  predicate Scalar(c: int) {
    0 <= c < 0xd800 || 0xe000 <= c < 0x110000
  }

  predicate Scalars(cs: seq<int>) {
    forall k | 0 <= k < |cs| :: Scalar(cs[k])
  }

  /** One to four bytes; the first has the high bits, every other one six bits. */
  function Encoded(c: int): string
    requires Scalar(c)
  {
    if c < 0x80 then [c as char]
    else if c < 0x800 then [(0xc0 + c / 64) as char, (0x80 + c % 64) as char]
    else if c < 0x10000 then [(0xe0 + c / 4096) as char, (0x80 + c / 64 % 64) as char, (0x80 + c % 64) as char]
    else
      [(0xf0 + c / 262144) as char, (0x80 + c / 4096 % 64) as char, (0x80 + c / 64 % 64) as char, (0x80 + c % 64) as char]
  }

  function Encoding(cs: seq<int>): string
    requires Scalars(cs)
  {
    if cs == [] then "" else Encoded(cs[0]) + Encoding(cs[1..])
  }

  lemma EncodedFirst(c: int, rest: string)
    requires Scalar(c)
    ensures Utf8(Encoded(c) + rest) <==> Utf8(rest)
  {
    var e := Encoded(c);
    assert (e + rest)[|e|..] == rest;
  }

  lemma {:induction false} EncodingIsText(cs: seq<int>)
    requires Scalars(cs)
    ensures Utf8(Encoding(cs))
  {
    if cs != [] {
      EncodingIsText(cs[1..]);
      EncodedFirst(cs[0], Encoding(cs[1..]));
    }
  }

  /** The first scalar value of a text, read back from its bytes. */
  function FirstScalar(s: string): (int, nat)
    requires s != "" && Utf8(s)
  {
    var b := s[0] as int;
    if b < 0x80 then (b, 1)
    else if b < 0xe0 then ((b - 0xc0) * 64 + (s[1] as int - 0x80), 2)
    else if b < 0xf0 then ((b - 0xe0) * 4096 + (s[1] as int - 0x80) * 64 + (s[2] as int - 0x80), 3)
    else ((b - 0xf0) * 262144 + (s[1] as int - 0x80) * 4096 + (s[2] as int - 0x80) * 64 + (s[3] as int - 0x80), 4)
  }

  /** The six-bit groups of a number. */
  lemma Groups(a: int, b: int, c: int, d: int)
    requires a >= 0 && 0 <= b < 64 && 0 <= c < 64 && 0 <= d < 64
    ensures var x := a * 262144 + b * 4096 + c * 64 + d;
            x / 262144 == a && x / 4096 % 64 == b && x / 64 % 64 == c && x % 64 == d
            && x / 4096 == a * 64 + b && x / 64 == a * 4096 + b * 64 + c
  {
    var x := a * 262144 + b * 4096 + c * 64 + d;
    assert x == 64 * (a * 4096 + b * 64 + c) + d;
    assert x / 64 == a * 4096 + b * 64 + c;
    assert x == 4096 * (a * 64 + b) + (c * 64 + d) && 0 <= c * 64 + d < 4096;
    assert x / 4096 == a * 64 + b;
    assert x == 262144 * a + (b * 4096 + c * 64 + d) && 0 <= b * 4096 + c * 64 + d < 262144;
  }

  lemma FirstScalarEncoded(s: string)
    requires s != "" && Utf8(s)
    ensures var (c, n) := FirstScalar(s); Scalar(c) && 1 <= n <= |s| && Encoded(c) == s[..n] && Utf8(s[n..])
  {
    var (c, n) := FirstScalar(s);
    if n == 1 {
      assert s[..1] == [s[0]];
    } else if n == 2 {
      TwoBytes(s);
    } else if n == 3 {
      ThreeBytes(s);
    } else {
      FourBytes(s);
    }
  }

  lemma TwoBytes(s: string)
    requires s != "" && Utf8(s) && Within(s[0], 0xc2, 0xdf)
    ensures var (c, n) := FirstScalar(s); n == 2 && Scalar(c) && Encoded(c) == s[..2]
  {
    Groups(0, 0, s[0] as int - 0xc0, s[1] as int - 0x80);
    assert s[..2] == [s[0], s[1]];
  }

  lemma ThreeBytes(s: string)
    requires s != "" && Utf8(s) && Within(s[0], 0xe0, 0xef)
    ensures var (c, n) := FirstScalar(s); n == 3 && Scalar(c) && Encoded(c) == s[..3]
  {
    Groups(0, s[0] as int - 0xe0, s[1] as int - 0x80, s[2] as int - 0x80);
    assert s[..3] == [s[0], s[1], s[2]];
  }

  lemma FourBytes(s: string)
    requires s != "" && Utf8(s) && Within(s[0], 0xf0, 0xf4)
    ensures var (c, n) := FirstScalar(s); n == 4 && Scalar(c) && Encoded(c) == s[..4]
  {
    Groups(s[0] as int - 0xf0, s[1] as int - 0x80, s[2] as int - 0x80, s[3] as int - 0x80);
    assert s[..4] == [s[0], s[1], s[2], s[3]];
  }

  lemma {:induction false} TextIsEncoding(s: string) returns (cs: seq<int>)
    requires Utf8(s)
    ensures Scalars(cs) && Encoding(cs) == s
  {
    if s == "" {
      cs := [];
    } else {
      var (c, n) := FirstScalar(s);
      FirstScalarEncoded(s);
      var rest := TextIsEncoding(s[n..]);
      cs := [c] + rest;
      assert cs[1..] == rest;
    }
  }

  /** A byte string is text exactly when it is the encoding of some sequence of scalar values. */
  lemma Utf8Exact(s: string)
    ensures Utf8(s) <==> exists cs :: Scalars(cs) && Encoding(cs) == s
  {
    if Utf8(s) {
      var cs := TextIsEncoding(s);
    }
    if exists cs :: Scalars(cs) && Encoding(cs) == s {
      var cs :| Scalars(cs) && Encoding(cs) == s;
      EncodingIsText(cs);
    }
  }

  /** A name that spells a non-empty sequence of scalar values, is neither "." nor "..", and has no slash. */
  predicate Spells(n: Name, cs: seq<int>) {
    && Scalars(cs) && cs != [] && n == Encoding(cs)
    && n != "." && n != ".." && forall k | 0 <= k < |cs| :: cs[k] != 0x2f
  }

  lemma {:induction false} NoSlash(cs: seq<int>)
    requires Scalars(cs)
    ensures '/' !in Encoding(cs) <==> forall k | 0 <= k < |cs| :: cs[k] != 0x2f
  {
    if cs != [] {
      NoSlash(cs[1..]);
      assert '/' in Encoded(cs[0]) <==> cs[0] == 0x2f;
      assert forall k | 1 <= k < |cs| :: cs[k] == cs[1..][k - 1];
      assert forall k | 0 <= k < |cs| - 1 :: cs[1..][k] == cs[k + 1];
    }
  }

  /** Exactly those names may be archived. */
  lemma TextNameExact(n: Name)
    ensures TextName(n) <==> exists cs :: Spells(n, cs)
  {
    if TextName(n) {
      var cs := TextIsEncoding(n);
      NoSlash(cs);
      assert Spells(n, cs);
    }
    if exists cs :: Spells(n, cs) {
      var cs :| Spells(n, cs);
      EncodingIsText(cs);
      NoSlash(cs);
      assert |Encoded(cs[0])| > 0;
    }
  }
}
