/** The filter that removes the server's exit notice from the output, however the output is cut. */
module NoticeFilter {
  import opened Common

  const CR: byte := 13
  const LF: byte := 10

  predicate LineEnd(b: byte) {
    b == CR || b == LF
  }

  /** The whole stream without each leftmost notice and the line ends right after it. */
  function Removed(notice: seq<byte>, s: seq<byte>, after: bool): seq<byte>
    requires notice != []
    decreases |s|
  {
    if s == [] then []
    else if after && LineEnd(s[0]) then Removed(notice, s[1..], true)
    else if notice <= s then Removed(notice, s[|notice|..], true)
    else [s[0]] + Removed(notice, s[1..], false)
  }

  /** Bytes at which no notice begins, whatever follows, pass through. */
  lemma {:induction false} PassThrough(notice: seq<byte>, s: seq<byte>, n: nat)
    requires notice != [] && n <= |s| && forall k | 0 <= k < n :: !(notice <= s[k..])
    ensures Removed(notice, s, false) == s[..n] + Removed(notice, s[n..], false)
  {
    if n == 0 {
      assert s[0..] == s;
    } else {
      assert s[0..] == s;
      forall k | 0 <= k < n - 1 ensures !(notice <= s[1..][k..]) {
        assert s[1..][k..] == s[k + 1..];
      }
      PassThrough(notice, s[1..], n - 1);
      assert s[1..][n - 1..] == s[n..] && [s[0]] + s[1..][..n - 1] == s[..n];
    }
  }

  /** What was written and what is kept back stand for the stream so far, whatever follows. */
  ghost predicate Stands(notice: seq<byte>, s: seq<byte>, out: seq<byte>, pending: seq<byte>, after: bool)
    requires notice != []
  {
    forall rest {:trigger Removed(notice, pending + rest, after)} ::
      Removed(notice, s + rest, false) == out + Removed(notice, pending + rest, after)
  }

  /** The last n bytes of the text begin a notice. */
  predicate EndBegins(notice: seq<byte>, since: seq<byte>, n: int) {
    0 <= n <= |since| && since[|since| - n..] <= notice
  }

  /** The kept bytes are the longest end of the text since the last removal that begins a notice. */
  predicate LongestEnd(notice: seq<byte>, since: seq<byte>, pending: seq<byte>) {
    && |pending| <= |since| && since[|since| - |pending|..] == pending && EndBegins(notice, since, |pending|)
    && forall n | |pending| < n <= |since| :: !EndBegins(notice, since, n)
  }

  class NoticeFilter {
    const notice: seq<byte>
    var out: seq<byte>
    var pending: seq<byte>
    var after: bool
    ghost var since: seq<byte>

    constructor (notice: seq<byte>)
      requires notice != []
      ensures this.notice == notice && out == [] && pending == [] && !after && Valid()
      ensures Stands(notice, [], out, pending, after)
    {
      this.notice, out, pending, after, since := notice, [], [], false, [];
      new;
      StandsStart(this.notice);
    }

    ghost predicate Valid()
      reads this
    {
      && notice != [] && pending < notice && (after ==> pending == [])
      && LongestEnd(notice, since, pending)
    }

    /** One byte; returns what may now be written. */
    method Take(value: byte, ghost s: seq<byte>, ghost done: seq<byte>) returns (written: seq<byte>)
      requires Valid() && Stands(notice, s, done, pending, after)
      modifies `pending, `after, `since
      ensures Valid() && Stands(notice, s + [value], done + written, pending, after)
    {
      if after && LineEnd(value) {
        StandsSkip(notice, s, done, value);
        return [];
      }
      StandsByte(notice, s, done, pending, after, value);
      LongestGrows(notice, since, pending, value);
      after := false;
      pending, since := pending + [value], since + [value];
      written := Shift(pending);
      StandsPass(notice, s + [value], done, pending, |written|);
      LongestFound(notice, since, pending, |written|);
      pending := pending[|written|..];
      if pending == notice {
        StandsNotice(notice, s + [value], done + written);
        pending, after, since := [], true, [];
      }
    }

    /** The bytes to give up from the front until what is left begins a notice. */
    method Shift(all: seq<byte>) returns (written: seq<byte>)
      ensures written <= all && all[|written|..] <= notice
      ensures forall k | 0 <= k < |written| :: !(all[k..] <= notice)
    {
      written := [];
      var left := all;
      while left != [] && !(left <= notice)
        invariant |written| <= |all| && written == all[..|written|] && left == all[|written|..]
        invariant forall k | 0 <= k < |written| :: !(all[k..] <= notice)
        decreases |left|
      {
        written := written + [left[0]];
        left := left[1..];
      }
    }

    /** One call of Write: the bytes are taken one by one, then written together. */
    method Write(data: seq<byte>, ghost s: seq<byte>)
      requires Valid() && Stands(notice, s, out, pending, after)
      modifies this
      ensures Valid() && Stands(notice, s + data, out, pending, after)
    {
      var written: seq<byte> := [];
      assert data[..0] == [] && s + [] == s && out + [] == out;
      for k := 0 to |data|
        invariant Valid() && out == old(out) && Stands(notice, s + data[..k], out + written, pending, after)
      {
        assert s + data[..k + 1] == s + data[..k] + [data[k]];
        var more := Take(data[k], s + data[..k], out + written);
        assert out + written + more == out + (written + more);
        written := written + more;
      }
      assert data[..|data|] == data;
      out := out + written;
    }

    method Flush()
      requires Valid()
      modifies this
      ensures out == old(out) + old(pending) && pending == []
    {
      out := out + pending;
      pending, since := [], [];
    }
  }

  lemma StandsSkip(notice: seq<byte>, s: seq<byte>, done: seq<byte>, value: byte)
    requires notice != [] && Stands(notice, s, done, [], true) && LineEnd(value)
    ensures Stands(notice, s + [value], done + [], [], true)
  {
    forall rest ensures Removed(notice, s + [value] + rest, false) == done + [] + Removed(notice, [] + rest, true) {
      assert Removed(notice, s + ([value] + rest), false) == done + Removed(notice, [] + ([value] + rest), true);
      SkipOne(notice, s, done, value, rest);
    }
  }

  lemma SkipOne(notice: seq<byte>, s: seq<byte>, done: seq<byte>, value: byte, rest: seq<byte>)
    requires notice != [] && LineEnd(value)
    requires Removed(notice, s + ([value] + rest), false) == done + Removed(notice, [] + ([value] + rest), true)
    ensures Removed(notice, s + [value] + rest, false) == done + [] + Removed(notice, [] + rest, true)
  {
    var line := [value] + rest;
    assert s + [value] + rest == s + line && [] + line == line && [] + rest == rest && done + [] == done;
    assert line[0] == value && line[1..] == rest;
  }

  lemma StandsByte(notice: seq<byte>, s: seq<byte>, done: seq<byte>, pending: seq<byte>, after: bool, value: byte)
    requires notice != [] && Stands(notice, s, done, pending, after)
    requires after ==> pending == [] && !LineEnd(value)
    ensures Stands(notice, s + [value], done, pending + [value], false)
  {
    forall rest ensures Removed(notice, s + [value] + rest, false) == done + Removed(notice, pending + [value] + rest, false) {
      assert s + [value] + rest == s + ([value] + rest) && pending + [value] + rest == pending + ([value] + rest);
      assert Removed(notice, s + ([value] + rest), false) == done + Removed(notice, pending + ([value] + rest), after);
    }
  }

  lemma StandsPass(notice: seq<byte>, s: seq<byte>, done: seq<byte>, all: seq<byte>, n: nat)
    requires notice != [] && Stands(notice, s, done, all, false) && n <= |all| <= |notice|
    requires forall k | 0 <= k < n :: !(all[k..] <= notice)
    ensures Stands(notice, s, done + all[..n], all[n..], false)
  {
    forall rest ensures Removed(notice, s + rest, false) == done + all[..n] + Removed(notice, all[n..] + rest, false) {
      assert Removed(notice, s + rest, false) == done + Removed(notice, all + rest, false);
      forall k | 0 <= k < n ensures !(notice <= (all + rest)[k..]) {
        assert (all + rest)[k..] == all[k..] + rest && (all + rest)[k..][..|all| - k] == all[k..];
      }
      PassThrough(notice, all + rest, n);
      assert (all + rest)[..n] == all[..n] && (all + rest)[n..] == all[n..] + rest;
    }
  }

  lemma StandsNotice(notice: seq<byte>, s: seq<byte>, done: seq<byte>)
    requires notice != [] && Stands(notice, s, done, notice, false)
    ensures Stands(notice, s, done, [], true)
  {
    forall rest ensures Removed(notice, s + rest, false) == done + Removed(notice, [] + rest, true) {
      assert Removed(notice, s + rest, false) == done + Removed(notice, notice + rest, false);
      assert (notice + rest)[|notice|..] == [] + rest;
    }
  }

  /** Before the shift, every longer end already failed to begin a notice. */
  lemma LongestGrows(notice: seq<byte>, since: seq<byte>, pending: seq<byte>, value: byte)
    requires LongestEnd(notice, since, pending)
    ensures var s, p := since + [value], pending + [value];
            s[|s| - |p|..] == p && forall n | |p| < n <= |s| :: !EndBegins(notice, s, n)
  {
    var s, p := since + [value], pending + [value];
    forall n | |p| < n <= |s| ensures !EndBegins(notice, s, n) {
      var shorter := since[|since| - (n - 1)..];
      assert s[|s| - n..] == shorter + [value];
      assert !EndBegins(notice, since, n - 1);
      assert (shorter + [value])[..n - 1] == shorter;
    }
  }

  lemma LongestFound(notice: seq<byte>, since: seq<byte>, all: seq<byte>, n: nat)
    requires |all| <= |since| && since[|since| - |all|..] == all && n <= |all| && all[n..] <= notice
    requires forall m | |all| < m <= |since| :: !EndBegins(notice, since, m)
    requires forall k | 0 <= k < n :: !(all[k..] <= notice)
    ensures LongestEnd(notice, since, all[n..])
  {
    assert since[|since| - (|all| - n)..] == all[n..];
    forall m | |all| - n < m <= |since| ensures !EndBegins(notice, since, m) {
      if m <= |all| {
        assert since[|since| - m..] == all[|all| - m..];
      }
    }
  }

  lemma StandsStart(notice: seq<byte>)
    requires notice != []
    ensures Stands(notice, [], [], [], false)
  {
    forall rest ensures Removed(notice, [] + rest, false) == [] + Removed(notice, [] + rest, false) {
    }
  }

  /** For every notice, every stream and every cut of it: what is written, with the final flush, is
      the stream with the notices removed. */
  method FilterAll(notice: seq<byte>, chunks: seq<seq<byte>>) returns (out: seq<byte>)
    requires notice != []
    ensures out == Removed(notice, Concat(chunks), false)
  {
    var filter := new NoticeFilter(notice);
    assert Concat(chunks[..0]) == [];
    for k := 0 to |chunks|
      invariant filter.Valid() && filter.notice == notice
      invariant Stands(notice, Concat(chunks[..k]), filter.out, filter.pending, filter.after)
    {
      assert chunks[..k + 1] == chunks[..k] + [chunks[k]];
      ConcatAppend(chunks[..k], chunks[k]);
      filter.Write(chunks[k], Concat(chunks[..k]));
    }
    assert chunks[..|chunks|] == chunks && Concat(chunks) + [] == Concat(chunks);
    ghost var pending, after := filter.pending, filter.after;
    assert pending + [] == pending;
    assert Removed(notice, Concat(chunks) + [], false) == filter.out + Removed(notice, pending + [], after);
    KeptIsPlain(notice, pending, after);
    filter.Flush();
    out := filter.out;
  }

  lemma KeptIsPlain(notice: seq<byte>, pending: seq<byte>, after: bool)
    requires notice != [] && pending < notice && (after ==> pending == [])
    ensures Removed(notice, pending, after) == pending
  {
    if !after {
      forall k | 0 <= k < |pending| ensures !(notice <= pending[k..]) {
      }
      PassThrough(notice, pending, |pending|);
      assert pending[|pending|..] == [] && pending[..|pending|] == pending;
    }
  }

  // ---------------------------------------------------------------- what is removed, in plain terms

  /** Text in which no notice begins is left as it is. */
  lemma NoNotice(notice: seq<byte>, s: seq<byte>)
    requires notice != [] && forall k | 0 <= k < |s| :: !(notice <= s[k..])
    ensures Removed(notice, s, false) == s
  {
    PassThrough(notice, s, |s|);
    assert s[..|s|] == s && s[|s|..] == [];
  }

  /** The leftmost notice is removed with all carriage returns and line feeds right after it, and nothing
      else is.  Together with the case of no notice this determines the output. */
  lemma FirstNotice(notice: seq<byte>, before: seq<byte>, ends: seq<byte>, rest: seq<byte>)
    requires notice != [] && forall k | 0 <= k < |before| :: !(notice <= (before + notice + ends + rest)[k..])
    requires forall k | 0 <= k < |ends| :: ends[k] == 13 || ends[k] == 10
    requires rest != [] ==> rest[0] != 13 && rest[0] != 10
    ensures Removed(notice, before + notice + ends + rest, false) == before + Removed(notice, rest, false)
  {
    var s := before + notice + ends + rest;
    PassThrough(notice, s, |before|);
    assert s[..|before|] == before && s[|before|..] == notice + ends + rest;
    NoticeTaken(notice, ends, rest);
  }

  lemma NoticeTaken(notice: seq<byte>, ends: seq<byte>, rest: seq<byte>)
    requires notice != [] && forall k | 0 <= k < |ends| :: ends[k] == 13 || ends[k] == 10
    requires rest != [] ==> rest[0] != 13 && rest[0] != 10
    ensures Removed(notice, notice + ends + rest, false) == Removed(notice, rest, false)
  {
    var s := notice + ends + rest;
    assert s[|notice|..] == ends + rest && notice <= s;
    EndsRemoved(notice, ends, rest);
  }

  lemma {:induction false} EndsRemoved(notice: seq<byte>, ends: seq<byte>, rest: seq<byte>)
    requires notice != [] && forall k | 0 <= k < |ends| :: ends[k] == 13 || ends[k] == 10
    requires rest != [] ==> rest[0] != 13 && rest[0] != 10
    ensures Removed(notice, ends + rest, true) == Removed(notice, rest, false)
  {
    if ends == [] {
      assert ends + rest == rest;
    } else {
      EndsRemoved(notice, ends[1..], rest);
      assert (ends + rest)[1..] == ends[1..] + rest;
    }
  }
}
