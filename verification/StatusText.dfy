/** The text of a prompt marker: what integers its status spells, and streams built from printed statuses. */
module StatusText {
  import opened Common
  import opened Marker

  // ---------------------------------------------------------------- decimal digits

  function Pow10(k: nat): nat {
    if k == 0 then 1 else 10 * Pow10(k - 1)
  }

  predicate AllDigits(t: seq<byte>) {
    forall k | 0 <= k < |t| :: t[k] as int - '0' as int in {0, 1, 2, 3, 4, 5, 6, 7, 8, 9}
  }

  /** Each digit times its power of ten, added up. */
  function Positional(t: seq<byte>): int {
    if t == [] then 0 else (t[0] - '0' as int) * Pow10(|t| - 1) + Positional(t[1..])
  }

  /** Read from the other end. */
  lemma {:induction false} PositionalLast(t: seq<byte>)
    requires t != []
    ensures Positional(t) == 10 * Positional(t[..|t| - 1]) + (t[|t| - 1] - '0' as int)
  {
    if |t| == 1 {
      assert t[1..] == [] && t[..0] == [] && Pow10(0) == 1;
    } else {
      PositionalLast(t[1..]);
      var front := t[..|t| - 1];
      assert t[1..][..|t| - 2] == front[1..] && t[1..][|t| - 2] == t[|t| - 1];
      assert Pow10(|t| - 1) == 10 * Pow10(|t| - 2) && front[0] == t[0];
    }
  }

  lemma {:induction false} NumberIs(t: seq<byte>)
    requires AllDigits(t)
    ensures (forall k | 0 <= k < |t| :: 48 <= t[k] <= 57) && Number(t) == Positional(t)
  {
    if t != [] {
      NumberIs(t[..|t| - 1]);
      PositionalLast(t);
    }
  }

  /** What spells an integer: an optional sign, then digits whose positional value it is, within 64 bits. */
  ghost predicate SpellsInt(t: seq<byte>, n: int, sign: seq<byte>, digits: seq<byte>) {
    && t == sign + digits && (sign == [] || sign == ['+' as int] || sign == ['-' as int])
    && digits != [] && AllDigits(digits)
    && n == (if sign == ['-' as int] then -Positional(digits) else Positional(digits))
    && -0x8000_0000_0000_0000 <= n <= 0x7fff_ffff_ffff_ffff
  }

  lemma AtoiExact(t: seq<byte>, n: int)
    ensures Atoi(t) == Some(n) <==> exists sign, digits :: SpellsInt(t, n, sign, digits)
  {
    if Atoi(t) == Some(n) {
      var signed := t != [] && (t[0] == 43 || t[0] == 45);
      var sign, digits := if signed then t[..1] else [], if signed then t[1..] else t;
      assert Digits(digits) && t == sign + digits;
      NumberIs(digits);
      assert SpellsInt(t, n, sign, digits);
    }
    if exists sign, digits :: SpellsInt(t, n, sign, digits) {
      var sign, digits :| SpellsInt(t, n, sign, digits);
      SpelledReads(t, n, sign, digits);
    }
  }

  lemma SpelledReads(t: seq<byte>, n: int, sign: seq<byte>, digits: seq<byte>)
    requires SpellsInt(t, n, sign, digits)
    ensures Atoi(t) == Some(n)
  {
    NumberIs(digits);
    if sign == [] {
      assert t == digits;
      PlainReads(digits);
    } else {
      assert t == [sign[0]] + digits;
      SignedReads(sign[0], digits);
    }
  }

  lemma PlainReads(digits: seq<byte>)
    requires Digits(digits) && -MAX_INT64 - 1 <= Number(digits) <= MAX_INT64
    ensures Atoi(digits) == Some(Number(digits))
  {
    assert digits[0] >= 48;
  }

  lemma SignedReads(sign: byte, digits: seq<byte>)
    requires Digits(digits) && (sign == 43 || sign == 45)
    ensures var n := if sign == 45 then -Number(digits) else Number(digits);
            Atoi([sign] + digits) == if -MAX_INT64 - 1 <= n <= MAX_INT64 then Some(n) else None
  {
    assert ([sign] + digits)[1..] == digits;
  }

  // ---------------------------------------------------------------- printing

  function PrintNat(n: nat): seq<byte> {
    if n < 10 then ['0' as int + n] else PrintNat(n / 10) + ['0' as int + n % 10]
  }

  function PrintInt(n: int): seq<byte> {
    if n < 0 then ['-' as int] + PrintNat(-n) else PrintNat(n)
  }

  lemma {:induction false} PrintedDigits(n: nat)
    ensures PrintNat(n) != [] && AllDigits(PrintNat(n)) && Positional(PrintNat(n)) == n
  {
    var t := PrintNat(n);
    if n < 10 {
      assert t[1..] == [] && Pow10(0) == 1;
    } else {
      PrintedDigits(n / 10);
      PositionalLast(t);
      assert t[..|t| - 1] == PrintNat(n / 10);
    }
  }

  /** Every 64-bit integer is read back from its decimal text, also with a plus sign. */
  lemma AtoiPrints(n: int)
    requires -0x8000_0000_0000_0000 <= n <= 0x7fff_ffff_ffff_ffff
    ensures Atoi(PrintInt(n)) == Some(n)
    ensures n >= 0 ==> Atoi(['+' as int] + PrintNat(n)) == Some(n)
  {
    PrintedDigits(if n < 0 then -n else n);
    if n < 0 {
      SpelledReads(PrintInt(n), n, ['-' as int], PrintNat(-n));
    } else {
      SpelledReads(PrintInt(n), n, [], PrintNat(n));
      assert [] + PrintNat(n) == PrintNat(n);
      SpelledReads(['+' as int] + PrintNat(n), n, ['+' as int], PrintNat(n));
    }
  }

  // ---------------------------------------------------------------- printed streams

  function Ascii(s: string): seq<byte>
    requires forall k | 0 <= k < |s| :: s[k] as int < 128
  {
    seq(|s|, k requires 0 <= k < |s| => s[k] as int)
  }

  lemma PrefixText(nonce: seq<byte>)
    ensures PrefixOf(nonce) == [0x1b] + Ascii("]777;pwnbridge;") + nonce + Ascii(";prompt;")
  {
    assert HEAD == [0x1b] + Ascii("]777;pwnbridge;");
    assert TAIL == Ascii(";prompt;");
  }

  /** Plain output, or the marker the shell prints for a status. */
  datatype Piece = Text(bytes: seq<byte>) | Status(n: int)

  predicate Printable(p: Piece) {
    match p
    case Text(bytes) => 0x1b !in bytes
    case Status(n) => -0x8000_0000_0000_0000 <= n <= 0x7fff_ffff_ffff_ffff
  }

  function Printed(nonce: seq<byte>, pieces: seq<Piece>): seq<byte> {
    if pieces == [] then []
    else
      (match pieces[0]
       case Text(bytes) => bytes
       case Status(n) => [0x1b] + Ascii("]777;pwnbridge;") + nonce + Ascii(";prompt;") + PrintInt(n) + [7])
      + Printed(nonce, pieces[1..])
  }

  function StatusesOf(pieces: seq<Piece>): seq<int> {
    if pieces == [] then []
    else (if pieces[0].Status? then [pieces[0].n] else []) + StatusesOf(pieces[1..])
  }

  function TextOf(pieces: seq<Piece>): seq<byte> {
    if pieces == [] then []
    else (if pieces[0].Text? then pieces[0].bytes else []) + TextOf(pieces[1..])
  }

  /** A printed marker at the front is one, whatever follows. */
  lemma MarkerPrinted(prefix: seq<byte>, n: int, rest: seq<byte>)
    requires Printable(Status(n))
    ensures MarkerAt(prefix, prefix + PrintInt(n) + [7] + rest) == Some(Found(n, |prefix| + |PrintInt(n)| + 1))
  {
    AtoiPrints(n);
    MarkerText(prefix, PrintInt(n), n, rest);
  }

  lemma MarkerText(prefix: seq<byte>, t: seq<byte>, n: int, rest: seq<byte>)
    requires Atoi(t) == Some(n)
    ensures MarkerAt(prefix, prefix + t + [7] + rest) == Some(Found(n, |prefix| + |t| + 1))
  {
    EndOfStatus(t, rest);
    MarkerReads(prefix, t + [7] + rest, n, |t|);
    assert prefix + t + [7] + rest == prefix + (t + [7] + rest);
  }

  lemma MarkerReads(prefix: seq<byte>, s: seq<byte>, n: int, end: nat)
    requires Find(s, BEL) == Some(end) && Atoi(s[..end]) == Some(n)
    ensures MarkerAt(prefix, prefix + s) == Some(Found(n, |prefix| + end + 1))
  {
    assert (prefix + s)[|prefix|..] == s;
  }

  lemma EndOfStatus(t: seq<byte>, rest: seq<byte>)
    requires Atoi(t).Some?
    ensures Find(t + [7] + rest, 7) == Some(|t|) && (t + [7] + rest)[..|t|] == t
  {
    AtoiText(t);
    assert (t + [7] + rest)[..|t|] == t;
    FindIs(t + [7] + rest, 7, |t|);
  }

  lemma {:induction false} PrintedIdeal(nonce: seq<byte>, pieces: seq<Piece>)
    requires forall k | 0 <= k < |pieces| :: Printable(pieces[k])
    ensures Prompts(Ideal(PrefixOf(nonce), Printed(nonce, pieces))) == StatusesOf(pieces)
    ensures Output(Ideal(PrefixOf(nonce), Printed(nonce, pieces))) == TextOf(pieces)
  {
    if pieces != [] {
      var prefix, rest := PrefixOf(nonce), Printed(nonce, pieces[1..]);
      PrintedIdeal(nonce, pieces[1..]);
      match pieces[0]
      case Text(bytes) =>
        var s := bytes + rest;
        forall k | 0 <= k < |bytes| ensures MarkerAt(prefix, s[k..]).None? {
          assert s[k..][0] == bytes[k] && prefix[0] == 0x1b;
        }
        IdealPlain(prefix, s, |bytes|);
        assert s[..|bytes|] == bytes && s[|bytes|..] == rest;
        PlainsThen(bytes, Ideal(prefix, rest));
      case Status(n) =>
        PrefixText(nonce);
        MarkerPrinted(prefix, n, rest);
        var s := prefix + PrintInt(n) + [7] + rest;
        assert Printed(nonce, pieces) == s;
        assert s[|prefix| + |PrintInt(n)| + 1..] == rest;
        assert Ideal(prefix, s) == [Marked(n)] + Ideal(prefix, rest);
        assert ([Marked(n)] + Ideal(prefix, rest))[1..] == Ideal(prefix, rest);
    }
  }

  lemma {:induction false} PlainsThen(bytes: seq<byte>, items: seq<Item>)
    ensures Prompts(Plains(bytes) + items) == Prompts(items)
    ensures Output(Plains(bytes) + items) == bytes + Output(items)
  {
    if bytes == [] {
      assert Plains(bytes) + items == items;
    } else {
      PlainsThen(bytes[1..], items);
      assert (Plains(bytes) + items)[1..] == Plains(bytes[1..]) + items;
    }
  }

  /** What the shell prints is what the parser reports, for every cut of the stream: the statuses in order,
      and the output between the markers. */
  method ParsePrinted(nonce: seq<byte>, pieces: seq<Piece>, chunks: seq<seq<byte>>) returns (events: seq<Event>, rest: seq<byte>)
    requires ESC !in nonce && Concat(chunks) == Printed(nonce, pieces)
    requires forall k | 0 <= k < |pieces| :: Printable(pieces[k])
    ensures Prompts(Flat(events) + Plains(rest)) == StatusesOf(pieces)
    ensures Output(Flat(events) + Plains(rest)) == TextOf(pieces)
  {
    events, rest := ParseAll(nonce, chunks);
    PrintedIdeal(nonce, pieces);
  }
}
