/** The prompt-marker parser: terminal output is cut anywhere, and markers are found all the same. */
module Marker {
  import opened Common

  const ESC: byte := 0x1b
  const BEL: byte := 7
  const MAX_INT64: int := 0x7fff_ffff_ffff_ffff

  /** ESC ] 7 7 7 ; p w n b r i d g e ; */
  const HEAD: seq<byte> := [ESC, 93, 55, 55, 55, 59, 112, 119, 110, 98, 114, 105, 100, 103, 101, 59]

  /** ; p r o m p t ; */
  const TAIL: seq<byte> := [59, 112, 114, 111, 109, 112, 116, 59]

  function PrefixOf(nonce: seq<byte>): seq<byte> {
    HEAD + nonce + TAIL
  }

  datatype Event = Data(bytes: seq<byte>) | Prompt(status: int)

  /** One byte of output, or one prompt. */
  datatype Item = Plain(b: byte) | Marked(status: int)

  // ---------------------------------------------------------------- integer text

  predicate Digits(t: seq<byte>) {
    t != [] && forall k | 0 <= k < |t| :: 48 <= t[k] <= 57
  }

  function Number(t: seq<byte>): int
    requires forall k | 0 <= k < |t| :: 48 <= t[k] <= 57
  {
    if t == [] then 0 else 10 * Number(t[..|t| - 1]) + (t[|t| - 1] - 48)
  }

  /** An optional sign and decimal digits, within 64 bits. */
  function Atoi(t: seq<byte>): Option<int> {
    var signed := t != [] && (t[0] == 43 || t[0] == 45);
    var digits := if signed then t[1..] else t;
    if !Digits(digits) then None
    else
      var n := if signed && t[0] == 45 then -Number(digits) else Number(digits);
      if -MAX_INT64 - 1 <= n <= MAX_INT64 then Some(n) else None
  }

  lemma AtoiText(t: seq<byte>)
    requires Atoi(t).Some?
    ensures ESC !in t && BEL !in t
  {
    var digits := if t[0] == 43 || t[0] == 45 then t[1..] else t;
    forall k | 0 <= k < |t| ensures t[k] != ESC && t[k] != BEL {
      if digits != t && k > 0 {
        assert digits[k - 1] == t[k];
      }
    }
  }

  // ---------------------------------------------------------------- the whole stream

  /** The first position of a byte. */
  function Find(s: seq<byte>, b: byte): (k: Option<nat>)
    ensures k.Some? ==> k.value < |s| && s[k.value] == b && b !in s[..k.value]
    ensures k.None? ==> b !in s
  {
    if s == [] then None
    else if s[0] == b then Some(0)
    else
      var k := Find(s[1..], b);
      if k.None? then None
      else
        assert s[..k.value + 1] == [s[0]] + s[1..][..k.value];
        Some(k.value + 1)
  }

  datatype Found = Found(status: int, length: nat)

  /** Does a complete marker stand at the front? */
  function MarkerAt(prefix: seq<byte>, s: seq<byte>): (m: Option<Found>)
    ensures m.Some? ==> |prefix| < m.value.length <= |s|
  {
    if !(prefix <= s) then None
    else
      var end := Find(s[|prefix|..], BEL);
      if end.None? then None
      else
        var status := Atoi(s[|prefix|..][..end.value]);
        if status.None? then None else Some(Found(status.value, |prefix| + end.value + 1))
  }

  /** What the whole stream means: markers become prompts, every other byte is output. */
  function Ideal(prefix: seq<byte>, s: seq<byte>): seq<Item>
    decreases |s|
  {
    if s == [] then []
    else
      var m := MarkerAt(prefix, s);
      if m.Some? then [Marked(m.value.status)] + Ideal(prefix, s[m.value.length..])
      else [Plain(s[0])] + Ideal(prefix, s[1..])
  }

  function Plains(s: seq<byte>): seq<Item> {
    seq(|s|, k requires 0 <= k < |s| => Plain(s[k]))
  }

  function Flat(es: seq<Event>): seq<Item> {
    if es == [] then []
    else
      Flat(es[..|es| - 1]) + match es[|es| - 1] case Data(d) => Plains(d) case Prompt(status) => [Marked(status)]
  }

  /** Bytes at which no marker can begin, whatever follows, come out as they are. */
  lemma {:induction false} IdealPlain(prefix: seq<byte>, s: seq<byte>, n: nat)
    requires n <= |s| && forall k | 0 <= k < n :: MarkerAt(prefix, s[k..]).None?
    ensures Ideal(prefix, s) == Plains(s[..n]) + Ideal(prefix, s[n..])
  {
    if n > 0 {
      assert s[0..] == s;
      forall k | 0 <= k < n - 1 ensures MarkerAt(prefix, s[1..][k..]).None? {
        assert s[1..][k..] == s[k + 1..];
      }
      IdealPlain(prefix, s[1..], n - 1);
      assert s[1..][..n - 1] == s[1..n] && s[1..][n - 1..] == s[n..];
      assert Plains(s[..n]) == [Plain(s[0])] + Plains(s[1..n]);
    } else {
      assert s[0..] == s;
    }
  }

  /** A marker, or text that turned out to be none, is settled as soon as its end is there. */
  lemma MarkerStays(prefix: seq<byte>, s: seq<byte>, rest: seq<byte>)
    requires prefix <= s && BEL in s[|prefix|..]
    ensures MarkerAt(prefix, s + rest) == MarkerAt(prefix, s)
  {
    var n := |prefix|;
    assert (s + rest)[n..] == s[n..] + rest;
    var end := Find(s[n..], BEL).value;
    assert (s + rest)[n..][..end] == s[n..][..end];
    FindIs((s + rest)[n..], BEL, end);
  }

  lemma {:induction false} FindIs(s: seq<byte>, b: byte, k: nat)
    requires k < |s| && s[k] == b && b !in s[..k]
    ensures Find(s, b) == Some(k)
  {
    if k > 0 {
      assert s[..k] == [s[0]] + s[1..][..k - 1];
      FindIs(s[1..], b, k - 1);
    }
  }

  // ---------------------------------------------------------------- the parser

  predicate OccursAt(s: seq<byte>, prefix: seq<byte>, k: int) {
    0 <= k <= k + |prefix| <= |s| && s[k..k + |prefix|] == prefix
  }

  /** bytes.Index: the first occurrence. */
  method Index(s: seq<byte>, prefix: seq<byte>) returns (k: Option<nat>)
    ensures k.Some? ==> OccursAt(s, prefix, k.value) && forall j | 0 <= j < k.value :: !OccursAt(s, prefix, j)
    ensures k.None? ==> forall j | 0 <= j <= |s| :: !OccursAt(s, prefix, j)
  {
    var i := 0;
    while i + |prefix| <= |s|
      invariant forall j | 0 <= j < i :: !OccursAt(s, prefix, j)
    {
      if s[i..i + |prefix|] == prefix {
        return Some(i);
      }
      i := i + 1;
    }
    return None;
  }

  predicate SuffixIsPrefix(data: seq<byte>, prefix: seq<byte>, size: int) {
    0 <= size <= |data| && size < |prefix| && data[|data| - size..] == prefix[..size]
  }

  /** The longest end of the data that is a proper beginning of the prefix. */
  method SuffixPrefix(data: seq<byte>, prefix: seq<byte>) returns (size: nat)
    requires prefix != []
    ensures SuffixIsPrefix(data, prefix, size)
    ensures forall longer | SuffixIsPrefix(data, prefix, longer) :: longer <= size
  {
    var limit := if |data| < |prefix| - 1 then |data| else |prefix| - 1;
    size := limit;
    while size > 0
      invariant size <= limit
      invariant forall longer | SuffixIsPrefix(data, prefix, longer) :: longer <= size
    {
      if data[|data| - size..] == prefix[..size] {
        return;
      }
      size := size - 1;
    }
    assert data[|data|..] == prefix[..0];
  }

  /** Data events that would be neighbours are merged. */
  function AppendData(es: seq<Event>, data: seq<byte>): seq<Event> {
    if data == [] then es
    else if es != [] && es[|es| - 1].Data? then es[..|es| - 1] + [Data(es[|es| - 1].bytes + data)]
    else es + [Data(data)]
  }

  lemma FlatAppend(es: seq<Event>, data: seq<byte>)
    ensures Flat(AppendData(es, data)) == Flat(es) + Plains(data)
  {
    if data == [] {
      assert Plains(data) == [];
    } else if es != [] && es[|es| - 1].Data? {
      var last := es[|es| - 1].bytes;
      assert AppendData(es, data)[..|es| - 1] == es[..|es| - 1];
      assert Plains(last + data) == Plains(last) + Plains(data);
    } else {
      assert (es + [Data(data)])[..|es|] == es;
    }
  }

  lemma FlatPrompt(es: seq<Event>, status: int)
    ensures Flat(es + [Prompt(status)]) == Flat(es) + [Marked(status)]
  {
    assert (es + [Prompt(status)])[..|es|] == es;
  }

  /** What may be kept back between calls: a beginning of a marker that is not complete. */
  predicate Waiting(prefix: seq<byte>, p: seq<byte>) {
    (|p| < |prefix| && p <= prefix) || (prefix <= p && BEL !in p[|prefix|..])
  }

  /** What was put out so far and what is kept back stand for the stream so far, whatever follows. */
  ghost predicate Stands(prefix: seq<byte>, s: seq<byte>, out: seq<Item>, pending: seq<byte>) {
    forall rest {:trigger Ideal(prefix, pending + rest)} :: Ideal(prefix, s + rest) == out + Ideal(prefix, pending + rest)
  }

  lemma StandsPlain(prefix: seq<byte>, s: seq<byte>, out: seq<Item>, pending: seq<byte>, n: nat)
    requires Stands(prefix, s, out, pending) && n <= |pending|
    requires forall rest, k | 0 <= k < n :: MarkerAt(prefix, (pending + rest)[k..]).None?
    ensures Stands(prefix, s, out + Plains(pending[..n]), pending[n..])
  {
    forall rest ensures Ideal(prefix, s + rest) == out + Plains(pending[..n]) + Ideal(prefix, pending[n..] + rest) {
      assert Ideal(prefix, s + rest) == out + Ideal(prefix, pending + rest);
      IdealPlain(prefix, pending + rest, n);
      assert (pending + rest)[..n] == pending[..n] && (pending + rest)[n..] == pending[n..] + rest;
    }
  }

  /** No marker begins in front of the first occurrence of the prefix. */
  lemma PlainBefore(prefix: seq<byte>, s: seq<byte>, out: seq<Item>, pending: seq<byte>, index: nat)
    requires Stands(prefix, s, out, pending)
    requires OccursAt(pending, prefix, index) && forall j | 0 <= j < index :: !OccursAt(pending, prefix, j)
    ensures Stands(prefix, s, out + Plains(pending[..index]), pending[index..])
  {
    forall rest, k | 0 <= k < index ensures MarkerAt(prefix, (pending + rest)[k..]).None? {
      var t := (pending + rest)[k..];
      assert pending[k..k + |prefix|] == t[..|prefix|];
      assert !OccursAt(pending, prefix, k);
    }
    StandsPlain(prefix, s, out, pending, index);
  }

  /** Nor, when it does not occur, in front of the longest end that could become one. */
  lemma PlainOutside(prefix: seq<byte>, s: seq<byte>, out: seq<Item>, pending: seq<byte>, keep: nat)
    requires Stands(prefix, s, out, pending) && keep <= |pending|
    requires forall j | 0 <= j <= |pending| :: !OccursAt(pending, prefix, j)
    requires forall longer | SuffixIsPrefix(pending, prefix, longer) :: longer <= keep
    ensures Stands(prefix, s, out + Plains(pending[..|pending| - keep]), pending[|pending| - keep..])
  {
    forall rest, k | 0 <= k < |pending| - keep ensures MarkerAt(prefix, (pending + rest)[k..]).None? {
      var t, here := (pending + rest)[k..], |pending| - k;
      assert !OccursAt(pending, prefix, k) && !SuffixIsPrefix(pending, prefix, here);
      if here >= |prefix| {
        assert pending[k..k + |prefix|] == t[..|prefix|];
      } else {
        assert pending[|pending| - here..] == t[..here];
      }
    }
    StandsPlain(prefix, s, out, pending, |pending| - keep);
  }

  /** A prefix whose text is no integer gives up its first byte only. */
  lemma PlainRefused(prefix: seq<byte>, s: seq<byte>, out: seq<Item>, pending: seq<byte>)
    requires Stands(prefix, s, out, pending) && prefix != []
    requires prefix <= pending && BEL in pending[|prefix|..] && MarkerAt(prefix, pending).None?
    ensures Stands(prefix, s, out + Plains(pending[..1]), pending[1..])
  {
    forall rest, k | 0 <= k < 1 ensures MarkerAt(prefix, (pending + rest)[k..]).None? {
      MarkerStays(prefix, pending, rest);
      assert (pending + rest)[0..] == pending + rest;
    }
    StandsPlain(prefix, s, out, pending, 1);
  }

  lemma StandsMarker(prefix: seq<byte>, s: seq<byte>, out: seq<Item>, pending: seq<byte>)
    requires Stands(prefix, s, out, pending) && prefix <= pending && MarkerAt(prefix, pending).Some?
    ensures var m := MarkerAt(prefix, pending).value;
            Stands(prefix, s, out + [Marked(m.status)], pending[m.length..])
  {
    var m := MarkerAt(prefix, pending).value;
    forall rest ensures Ideal(prefix, s + rest) == out + [Marked(m.status)] + Ideal(prefix, pending[m.length..] + rest) {
      assert Ideal(prefix, s + rest) == out + Ideal(prefix, pending + rest);
      MarkerStays(prefix, pending, rest);
      assert (pending + rest)[m.length..] == pending[m.length..] + rest;
    }
  }

  /** No piece of data is empty, and none follows another. */
  predicate Merged(es: seq<Event>) {
    forall k | 0 <= k < |es| && es[k].Data? :: es[k].bytes != [] && (k + 1 < |es| ==> es[k + 1].Prompt?)
  }

  class MarkerParser {
    const prefix: seq<byte>
    var pending: seq<byte>

    constructor (nonce: seq<byte>)
      ensures prefix == PrefixOf(nonce) && pending == []
    {
      prefix, pending := PrefixOf(nonce), [];
    }

    /** Puts the first n kept bytes out as output. */
    method EmitPlain(events: seq<Event>, n: nat, ghost s: seq<byte>) returns (more: seq<Event>)
      requires n <= |pending| && Stands(prefix, s, Flat(events) + Plains(pending[..n]), pending[n..])
      modifies this
      ensures Stands(prefix, s, Flat(more), pending) && pending == old(pending)[n..]
      ensures Merged(events) ==> Merged(more)
    {
      more := AppendData(events, pending[..n]);
      FlatAppend(events, pending[..n]);
      pending := pending[n..];
    }

    method Feed(data: seq<byte>) returns (events: seq<Event>)
      requires prefix != []
      modifies this
      ensures Stands(prefix, old(pending) + data, Flat(events), pending)
      ensures Waiting(prefix, pending) && Merged(events)
    {
      ghost var s := pending + data;
      pending := pending + data;
      events := [];
      var more := true;
      while more
        invariant Stands(prefix, s, Flat(events), pending) && Merged(events) && (!more ==> Waiting(prefix, pending))
        decreases more, |pending|
      {
        more, events := Round(events, s);
      }
    }

    /** Puts out what is in front of the next place where a marker could be, and looks at that place. */
    method Round(events: seq<Event>, ghost s: seq<byte>) returns (more: bool, next: seq<Event>)
      requires prefix != [] && Stands(prefix, s, Flat(events), pending)
      modifies this
      ensures Stands(prefix, s, Flat(next), pending) && (Merged(events) ==> Merged(next))
      ensures if more then |pending| < |old(pending)| else Waiting(prefix, pending)
    {
      var index := Index(pending, prefix);
      if index.None? {
        var keep := SuffixPrefix(pending, prefix);
        PlainOutside(prefix, s, Flat(events), pending, keep);
        next := EmitPlain(events, |pending| - keep, s);
        return false, next;
      }
      PlainBefore(prefix, s, Flat(events), pending, index.value);
      next := EmitPlain(events, index.value, s);
      more, next := TakeMarker(next, s);
    }

    /** One round with the prefix at the front: wait for its end, take the marker, or give up a byte. */
    method TakeMarker(events: seq<Event>, ghost s: seq<byte>) returns (more: bool, next: seq<Event>)
      requires prefix != [] && prefix <= pending && Stands(prefix, s, Flat(events), pending)
      modifies this
      ensures Stands(prefix, s, Flat(next), pending) && (Merged(events) ==> Merged(next))
      ensures if more then |pending| < |old(pending)| else pending == old(pending) && Waiting(prefix, pending)
    {
      var end := Find(pending[|prefix|..], BEL);
      if end.None? {
        return false, events;
      }
      var status := Atoi(pending[|prefix|..][..end.value]);
      more := true;
      if status.None? {
        PlainRefused(prefix, s, Flat(events), pending);
        next := EmitPlain(events, 1, s);
      } else {
        StandsMarker(prefix, s, Flat(events), pending);
        FlatPrompt(events, status.value);
        next := EmitPrompt(events, status.value, |prefix| + end.value + 1, s);
      }
    }

    method EmitPrompt(events: seq<Event>, status: int, n: nat, ghost s: seq<byte>) returns (next: seq<Event>)
      requires n <= |pending| && Stands(prefix, s, Flat(events + [Prompt(status)]), pending[n..])
      modifies this
      ensures Stands(prefix, s, Flat(next), pending) && pending == old(pending)[n..]
      ensures Merged(events) ==> Merged(next)
    {
      next := events + [Prompt(status)];
      pending := pending[n..];
    }

    method Flush() returns (data: seq<byte>)
      modifies this
      ensures data == old(pending) && pending == []
    {
      data := pending;
      pending := [];
    }
  }

  // ---------------------------------------------------------------- the whole stream, for every cut

  /** What is kept back holds no marker, so flushing it is right. */
  lemma {:induction false} WaitingIsPlain(prefix: seq<byte>, p: seq<byte>)
    requires EscapeFirst(prefix) && Waiting(prefix, p)
    ensures Ideal(prefix, p) == Plains(p)
  {
    forall k | 0 <= k < |p| ensures MarkerAt(prefix, p[k..]).None? {
      if prefix <= p[k..] && prefix <= p {
        if k < |prefix| {
          assert p[k..][0] == p[k] == prefix[k];
        }
        assert BEL !in p[k..][|prefix|..] by {
          assert p[|prefix|..][k..] == p[k..][|prefix|..];
        }
      }
    }
    IdealPlain(prefix, p, |p|);
    assert p[..|p|] == p && p[|p|..] == [];
  }

  /** Escape stands at the front of the prefix and nowhere else in it. */
  predicate EscapeFirst(prefix: seq<byte>) {
    prefix != [] && prefix[0] == ESC && forall k | 0 < k < |prefix| :: prefix[k] != ESC
  }

  lemma NonceWithoutEscape(nonce: seq<byte>)
    requires ESC !in nonce
    ensures EscapeFirst(PrefixOf(nonce))
  {
    var prefix := PrefixOf(nonce);
    forall k | 0 < k < |prefix| ensures prefix[k] != ESC {
      if |HEAD| <= k < |HEAD| + |nonce| {
        assert prefix[k] == nonce[k - |HEAD|];
      }
    }
  }

  /** For every stream and every cut of it, the events and the final flush are the ideal reading: the
      prompts are the occurrences of complete markers, and the output is all other bytes. */
  method ParseAll(nonce: seq<byte>, chunks: seq<seq<byte>>) returns (events: seq<Event>, rest: seq<byte>)
    requires ESC !in nonce
    ensures Flat(events) + Plains(rest) == Ideal(PrefixOf(nonce), Concat(chunks))
    ensures Prompts(Flat(events) + Plains(rest)) == Occurrences(Marks(PrefixOf(nonce), Concat(chunks)), 0)
    ensures Output(Flat(events) + Plains(rest)) == Uncovered(Marks(PrefixOf(nonce), Concat(chunks)), Concat(chunks), 0)
  {
    var parser := new MarkerParser(nonce);
    NonceWithoutEscape(nonce);
    events := [];
    assert Concat(chunks[..0]) == [];
    for k := 0 to |chunks|
      invariant parser.prefix == PrefixOf(nonce) && Stands(parser.prefix, Concat(chunks[..k]), Flat(events), parser.pending)
      invariant Waiting(parser.prefix, parser.pending)
    {
      ghost var before := parser.pending;
      var more := parser.Feed(chunks[k]);
      StandsMore(parser.prefix, Concat(chunks[..k]), Flat(events), before, chunks[k], Flat(more), parser.pending);
      assert chunks[..k + 1] == chunks[..k] + [chunks[k]];
      ConcatAppend(chunks[..k], chunks[k]);
      FlatConcat(events, more);
      events := events + more;
    }
    ghost var pending := parser.pending;
    assert chunks[..|chunks|] == chunks && Concat(chunks) + [] == Concat(chunks) && pending + [] == pending;
    assert Ideal(parser.prefix, Concat(chunks) + []) == Flat(events) + Ideal(parser.prefix, pending + []);
    WaitingIsPlain(parser.prefix, pending);
    IdealIsExact(parser.prefix, Concat(chunks));
    rest := parser.Flush();
  }

  lemma StandsMore(prefix: seq<byte>, s: seq<byte>, out: seq<Item>, before: seq<byte>, data: seq<byte>, more: seq<Item>,
                   pending: seq<byte>)
    requires Stands(prefix, s, out, before) && Stands(prefix, before + data, more, pending)
    ensures Stands(prefix, s + data, out + more, pending)
  {
    forall rest ensures Ideal(prefix, s + data + rest) == out + more + Ideal(prefix, pending + rest) {
      assert s + data + rest == s + (data + rest) && before + data + rest == before + (data + rest);
      var x, y, z := Ideal(prefix, s + data + rest), Ideal(prefix, before + data + rest), Ideal(prefix, pending + rest);
      assert y == more + z;
      assert x == out + Ideal(prefix, before + (data + rest));
      Joined(x, y, z, out, more);
    }
  }

  lemma Joined(x: seq<Item>, y: seq<Item>, z: seq<Item>, out: seq<Item>, more: seq<Item>)
    requires x == out + y && y == more + z
    ensures x == out + more + z
  {
  }

  lemma {:induction false} FlatConcat(es: seq<Event>, fs: seq<Event>)
    ensures Flat(es + fs) == Flat(es) + Flat(fs)
  {
    if fs == [] {
      assert es + fs == es;
    } else {
      assert (es + fs)[..|es + fs| - 1] == es + fs[..|fs| - 1];
      FlatConcat(es, fs[..|fs| - 1]);
    }
  }

  // ---------------------------------------------------------------- what the ideal reading is

  function Prompts(items: seq<Item>): seq<int> {
    if items == [] then []
    else (match items[0] case Marked(status) => [status] case Plain(_) => []) + Prompts(items[1..])
  }

  function Output(items: seq<Item>): seq<byte> {
    if items == [] then []
    else (match items[0] case Plain(b) => [b] case Marked(_) => []) + Output(items[1..])
  }

  /** At each position, the complete marker that stands there. */
  function Marks(prefix: seq<byte>, s: seq<byte>): (marks: seq<Option<Found>>)
    ensures |marks| == |s|
  {
    seq(|s|, i requires 0 <= i < |s| => MarkerAt(prefix, s[i..]))
  }

  /** The statuses of all of them, wherever they stand. */
  function Occurrences(marks: seq<Option<Found>>, from: nat): seq<int>
    requires from <= |marks|
    decreases |marks| - from
  {
    if from == |marks| then []
    else (if marks[from].Some? then [marks[from].value.status] else []) + Occurrences(marks, from + 1)
  }

  predicate Covers(marks: seq<Option<Found>>, j: int, i: int) {
    0 <= j <= i && j < |marks| && marks[j].Some? && i < j + marks[j].value.length
  }

  /** Position i lies in some complete marker. */
  predicate Covered(marks: seq<Option<Found>>, i: nat) {
    exists j | 0 <= j <= i :: Covers(marks, j, i)
  }

  /** The bytes that lie in none. */
  function Uncovered(marks: seq<Option<Found>>, s: seq<byte>, from: nat): seq<byte>
    requires from <= |s|
    decreases |s| - from
  {
    if from == |s| then [] else (if Covered(marks, from) then [] else [s[from]]) + Uncovered(marks, s, from + 1)
  }

  /** Inside a complete marker no other begins: its text and its end hold no escape. */
  lemma NoneInside(prefix: seq<byte>, s: seq<byte>, j: nat, i: nat)
    requires EscapeFirst(prefix) && j < i < |s| && MarkerAt(prefix, s[j..]).Some?
    requires i < j + MarkerAt(prefix, s[j..]).value.length
    ensures MarkerAt(prefix, s[i..]).None?
  {
    var n, t := |prefix|, s[j..];
    var end := Find(t[n..], BEL).value;
    AtoiText(t[n..][..end]);
    assert s[i] == t[i - j];
    if i - j < n {
      assert t[i - j] == prefix[i - j];
    } else if i - j < n + end {
      assert t[i - j] == t[n..][..end][i - j - n];
    } else {
      assert t[i - j] == t[n..][end];
    }
    assert s[i..][0] == s[i] != ESC;
  }

  /** Markers do not overlap and do not reach over the end. */
  ghost predicate Apart(marks: seq<Option<Found>>) {
    && (forall j, i | j < i < |marks| && Covers(marks, j, i) :: marks[i].None?)
    && (forall j | 0 <= j < |marks| && marks[j].Some? :: 0 < marks[j].value.length <= |marks| - j)
  }

  lemma MarksApart(prefix: seq<byte>, s: seq<byte>)
    requires EscapeFirst(prefix)
    ensures Apart(Marks(prefix, s))
  {
    var marks := Marks(prefix, s);
    forall j, i | j < i < |marks| && Covers(marks, j, i) ensures marks[i].None? {
      NoneInside(prefix, s, j, i);
    }
  }

  /** No marker in front of `from` reaches over it. */
  ghost predicate Boundary(marks: seq<Option<Found>>, from: nat) {
    forall j | 0 <= j < from :: !Covers(marks, j, from)
  }

  /** The prompts are exactly the occurrences, none hidden by anything in front of it; the output is
      exactly the bytes outside all occurrences. */
  lemma {:induction false} IdealIsExact(prefix: seq<byte>, s: seq<byte>)
    requires EscapeFirst(prefix)
    ensures Prompts(Ideal(prefix, s)) == Occurrences(Marks(prefix, s), 0)
    ensures Output(Ideal(prefix, s)) == Uncovered(Marks(prefix, s), s, 0)
  {
    var marks := Marks(prefix, s);
    MarksApart(prefix, s);
    IdealIsReading(prefix, s, 0);
    assert s[0..] == s;
    ReadingIsExact(marks, s, 0);
  }

  /** The ideal reading, taking the markers as given. */
  function Reading(marks: seq<Option<Found>>, s: seq<byte>, from: nat): seq<Item>
    requires from <= |s| == |marks|
    decreases |s| - from
  {
    if from == |s| then []
    else if marks[from].Some? && 0 < marks[from].value.length <= |s| - from
    then [Marked(marks[from].value.status)] + Reading(marks, s, from + marks[from].value.length)
    else [Plain(s[from])] + Reading(marks, s, from + 1)
  }

  lemma {:induction false} IdealIsReading(prefix: seq<byte>, s: seq<byte>, from: nat)
    requires from <= |s|
    ensures Ideal(prefix, s[from..]) == Reading(Marks(prefix, s), s, from)
    decreases |s| - from
  {
    if from < |s| {
      var next := AfterStep(Marks(prefix, s), from);
      IdealIsReading(prefix, s, next);
      IdealStep(prefix, s, from);
      ReadingStep(Marks(prefix, s), s, from);
    }
  }

  /** Where reading goes on, and what is read until there. */
  function AfterStep(marks: seq<Option<Found>>, from: nat): (next: nat)
    requires from < |marks|
    ensures from < next <= |marks|
  {
    if marks[from].Some? && 0 < marks[from].value.length <= |marks| - from then from + marks[from].value.length else from + 1
  }

  function ItemAt(marks: seq<Option<Found>>, s: seq<byte>, from: nat): Item
    requires from < |s| == |marks|
  {
    if marks[from].Some? && 0 < marks[from].value.length <= |s| - from then Marked(marks[from].value.status) else Plain(s[from])
  }

  lemma ReadingStep(marks: seq<Option<Found>>, s: seq<byte>, from: nat)
    requires from < |s| == |marks|
    ensures Reading(marks, s, from) == [ItemAt(marks, s, from)] + Reading(marks, s, AfterStep(marks, from))
  {
  }

  lemma {:induction false} ReadingIsExact(marks: seq<Option<Found>>, s: seq<byte>, from: nat)
    requires from <= |s| == |marks| && Apart(marks) && Boundary(marks, from)
    ensures Prompts(Reading(marks, s, from)) == Occurrences(marks, from)
    ensures Output(Reading(marks, s, from)) == Uncovered(marks, s, from)
    decreases |s| - from
  {
    if from < |s| {
      if marks[from].Some? {
        var next := from + marks[from].value.length;
        SkipMarker(marks, s, from);
        ReadingIsExact(marks, s, next);
        SplitMarked(marks[from].value.status, Reading(marks, s, next));
      } else {
        StepPlain(marks, s, from);
        ReadingIsExact(marks, s, from + 1);
        SplitPlain(s[from], Reading(marks, s, from + 1));
      }
    }
  }

  lemma IdealStep(prefix: seq<byte>, s: seq<byte>, from: nat)
    requires from < |s|
    ensures Ideal(prefix, s[from..]) ==
            [ItemAt(Marks(prefix, s), s, from)] + Ideal(prefix, s[AfterStep(Marks(prefix, s), from)..])
  {
    var t := s[from..];
    var m := MarkerAt(prefix, t);
    assert t[1..] == s[from + 1..];
    if m.Some? {
      assert t[m.value.length..] == s[from + m.value.length..];
    }
  }

  lemma SplitMarked(status: int, items: seq<Item>)
    ensures Prompts([Marked(status)] + items) == [status] + Prompts(items) && Output([Marked(status)] + items) == Output(items)
  {
    assert ([Marked(status)] + items)[1..] == items;
  }

  lemma SplitPlain(b: byte, items: seq<Item>)
    ensures Prompts([Plain(b)] + items) == Prompts(items) && Output([Plain(b)] + items) == [b] + Output(items)
  {
    assert ([Plain(b)] + items)[1..] == items;
  }

  lemma StepPlain(marks: seq<Option<Found>>, s: seq<byte>, from: nat)
    requires from < |s| == |marks| && Apart(marks) && Boundary(marks, from) && marks[from].None?
    ensures Boundary(marks, from + 1)
    ensures Occurrences(marks, from) == Occurrences(marks, from + 1)
    ensures Uncovered(marks, s, from) == [s[from]] + Uncovered(marks, s, from + 1)
  {
    var next := from + 1;
    forall j | 0 <= j < next ensures !Covers(marks, j, next) {
      assert j < from ==> !Covers(marks, j, from);
    }
    assert !Covered(marks, from);
  }

  lemma {:induction false} SkipMarker(marks: seq<Option<Found>>, s: seq<byte>, j: nat)
    requires j < |s| == |marks| && Apart(marks) && Boundary(marks, j) && marks[j].Some?
    ensures var next := j + marks[j].value.length;
            && next <= |s| && Boundary(marks, next)
            && Occurrences(marks, j) == [marks[j].value.status] + Occurrences(marks, next)
            && Uncovered(marks, s, j) == Uncovered(marks, s, next)
  {
    var next := j + marks[j].value.length;
    assert Covers(marks, j, j);
    SkipInside(marks, s, j, j + 1);
    forall k | 0 <= k < next ensures !Covers(marks, k, next) {
      if k < j {
        assert !Covers(marks, k, j);
      } else if j < k {
        assert Covers(marks, j, k);
      }
    }
  }

  lemma {:induction false} SkipInside(marks: seq<Option<Found>>, s: seq<byte>, j: nat, i: nat)
    requires j < |s| == |marks| && Apart(marks) && marks[j].Some? && j < i <= j + marks[j].value.length
    ensures Occurrences(marks, i) == Occurrences(marks, j + marks[j].value.length)
    ensures Uncovered(marks, s, i) == Uncovered(marks, s, j + marks[j].value.length)
    decreases j + marks[j].value.length - i
  {
    if i < j + marks[j].value.length {
      assert Covers(marks, j, i);
      SkipInside(marks, s, j, i + 1);
    }
  }
}
