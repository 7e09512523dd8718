/** Typed input: the bracketed-paste tracker, and the gate that lets a command line through to the
    terminal only after a synchronization barrier. */
module InputGate {
  import opened Common

  const ESC: byte := 0x1b
  const CR: byte := 13
  const LF: byte := 10

  /** ESC [ 2 0 0 ~ and ESC [ 2 0 1 ~ */
  const PASTE_BEGIN: seq<byte> := [ESC, 91, 50, 48, 48, 126]
  const PASTE_END: seq<byte> := [ESC, 91, 50, 48, 49, 126]

  predicate Newline(b: byte) {
    b == CR || b == LF
  }

  // ---------------------------------------------------------------- the paste tracker

  function Delimiter(active: bool): (d: seq<byte>)
    ensures |d| == 6 && d[0] == ESC && forall k | 0 < k < 6 :: d[k] != ESC
    ensures forall k | 0 <= k < 6 :: !Newline(d[k])
  {
    if active then PASTE_END else PASTE_BEGIN
  }

  /** Whether the text ends inside a paste: each leftmost delimiter found switches. */
  function InPaste(s: seq<byte>, active: bool): bool
    decreases |s|
  {
    if s == [] then active
    else if Delimiter(active) <= s then InPaste(s[6..], !active)
    else InPaste(s[1..], active)
  }

  lemma {:induction false} NoDelimiter(s: seq<byte>, active: bool, n: nat)
    requires n <= |s| && forall k | 0 <= k < n :: !(Delimiter(active) <= s[k..])
    ensures InPaste(s, active) == InPaste(s[n..], active)
  {
    assert s[0..] == s;
    if n > 0 {
      forall k | 0 <= k < n - 1 ensures !(Delimiter(active) <= s[1..][k..]) {
        assert s[1..][k..] == s[k + 1..];
      }
      NoDelimiter(s[1..], active, n - 1);
      assert s[1..][n - 1..] == s[n..];
    }
  }

  /** The tracker's two fields stand for the text so far, whatever follows. */
  ghost predicate Tracks(s: seq<byte>, active: bool, matched: nat)
    requires matched < 6
  {
    forall rest {:trigger InPaste(Delimiter(active)[..matched] + rest, active)} ::
      InPaste(s + rest, false) == InPaste(Delimiter(active)[..matched] + rest, active)
  }

  lemma TracksMatch(s: seq<byte>, active: bool, matched: nat, value: byte)
    requires matched < 6 && Tracks(s, active, matched) && value == Delimiter(active)[matched]
    ensures if matched == 5 then Tracks(s + [value], !active, 0) else Tracks(s + [value], active, matched + 1)
  {
    var d := Delimiter(active);
    if matched == 5 {
      forall rest ensures InPaste(s + [value] + rest, false) == InPaste(Delimiter(!active)[..0] + rest, !active) {
        MatchedMore(s, active, matched, value, rest);
        assert d[..6] == d && (d + rest)[6..] == rest && Delimiter(!active)[..0] + rest == rest;
      }
    } else {
      forall rest ensures InPaste(s + [value] + rest, false) == InPaste(d[..matched + 1] + rest, active) {
        MatchedMore(s, active, matched, value, rest);
      }
    }
  }

  lemma MatchedMore(s: seq<byte>, active: bool, matched: nat, value: byte, rest: seq<byte>)
    requires matched < 6 && Tracks(s, active, matched) && value == Delimiter(active)[matched]
    ensures InPaste(s + [value] + rest, false) == InPaste(Delimiter(active)[..matched + 1] + rest, active)
  {
    var d := Delimiter(active);
    assert s + [value] + rest == s + ([value] + rest);
    assert d[..matched] + ([value] + rest) == d[..matched + 1] + rest;
    assert InPaste(s + ([value] + rest), false) == InPaste(d[..matched] + ([value] + rest), active);
  }

  lemma TracksMismatch(s: seq<byte>, active: bool, matched: nat, value: byte)
    requires matched < 6 && Tracks(s, active, matched) && value != Delimiter(active)[matched]
    ensures Tracks(s + [value], active, if value == ESC then 1 else 0)
  {
    var d, next := Delimiter(active), if value == ESC then 1 else 0;
    forall rest ensures InPaste(s + [value] + rest, false) == InPaste(d[..next] + rest, active) {
      var t := d[..matched] + ([value] + rest);
      assert s + [value] + rest == s + ([value] + rest);
      assert InPaste(s + ([value] + rest), false) == InPaste(t, active);
      var n := matched + 1 - next;
      forall k | 0 <= k < n ensures !(d <= t[k..]) {
        if k == 0 {
          assert t[0..][matched] == value;
        } else {
          assert t[k..][0] == t[k];
        }
      }
      NoDelimiter(t, active, n);
      assert t[n..] == d[..next] + rest;
    }
  }

  class PasteTracker {
    var active: bool
    var matched: nat
    ghost var fed: seq<byte>

    constructor ()
      ensures Valid() && fed == []
    {
      active, matched, fed := false, 0, [];
      new;
      forall rest ensures InPaste([] + rest, false) == InPaste(Delimiter(false)[..0] + rest, false) {
        assert [] + rest == rest && Delimiter(false)[..0] + rest == rest;
      }
    }

    ghost predicate Valid()
      reads this
    {
      matched < 6 && Tracks(fed, active, matched)
    }

    method Reset()
      modifies this
      ensures Valid() && fed == []
    {
      active, matched, fed := false, 0, [];
      forall rest ensures InPaste([] + rest, false) == InPaste(Delimiter(false)[..0] + rest, false) {
        assert [] + rest == rest && Delimiter(false)[..0] + rest == rest;
      }
    }

    /** Whatever the cuts were, a newline is classified as pasted exactly when it is inside a paste. */
    method Feed(value: byte) returns (pasted: bool)
      requires Valid()
      modifies this
      ensures Valid() && fed == old(fed) + [value]
      ensures Newline(value) ==> (pasted <==> InPaste(old(fed), false))
    {
      ActiveIsInPaste(fed, active, matched);
      var wasActive := active;
      var delimiter := Delimiter(active);
      if value == delimiter[matched] {
        TracksMatch(fed, active, matched, value);
        fed := fed + [value];
        matched := matched + 1;
        if matched == |delimiter| {
          active, matched := !active, 0;
        }
        return true;
      }
      TracksMismatch(fed, active, matched, value);
      fed := fed + [value];
      matched := 0;
      if value == delimiter[0] {
        matched := 1;
      }
      pasted := wasActive || active || matched > 0;
    }
  }

  lemma ActiveIsInPaste(s: seq<byte>, active: bool, matched: nat)
    requires matched < 6 && Tracks(s, active, matched)
    ensures InPaste(s, false) == active
  {
    var kept := Delimiter(active)[..matched];
    assert s + [] == s && kept + [] == kept;
    assert InPaste(s + [], false) == InPaste(kept + [], active);
    NoDelimiter(kept, active, matched);
    assert kept[matched..] == [];
  }

  // ---------------------------------------------------------------- the gate

  /** How a byte got to the terminal: while a command ran, at a prompt (inside a paste or not), or after
      the barrier with this number. */
  datatype Way = WhileRunning | AtPrompt(inPaste: bool) | AfterBarrier(id: nat)

  datatype Written = Written(value: byte, way: Way)

  function Count(s: seq<byte>, b: byte): nat {
    if s == [] then 0 else Count(s[..|s| - 1], b) + if s[|s| - 1] == b then 1 else 0
  }

  lemma {:induction false} CountConcat(s: seq<byte>, t: seq<byte>, b: byte)
    ensures Count(s + t, b) == Count(s, b) + Count(t, b)
  {
    if t == [] {
      assert s + t == s;
    } else {
      assert (s + t)[..|s + t| - 1] == s + t[..|t| - 1];
      CountConcat(s, t[..|t| - 1], b);
    }
  }

  function CountWritten(ws: seq<Written>, b: byte): nat {
    if ws == [] then 0 else CountWritten(ws[..|ws| - 1], b) + if ws[|ws| - 1].value == b then 1 else 0
  }

  lemma CountWrittenOne(ws: seq<Written>, w: Written, b: byte)
    ensures CountWritten(ws + [w], b) == CountWritten(ws, b) + if w.value == b then 1 else 0
  {
    assert (ws + [w])[..|ws|] == ws;
  }

  /** How many of the newlines that wait for a barrier have this value. */
  function CountFlights(f: map<nat, byte>, b: byte): nat {
    |Flights(f, b)|
  }

  function Flights(f: map<nat, byte>, b: byte): set<nat> {
    set id | id in f && f[id] == b
  }

  lemma FlightStarts(f: map<nat, byte>, id: nat, value: byte, b: byte)
    requires id !in f
    ensures CountFlights(f[id := value], b) == CountFlights(f, b) + if value == b then 1 else 0
  {
    assert Flights(f[id := value], b) == if value == b then Flights(f, b) + {id} else Flights(f, b);
  }

  lemma FlightEnds(f: map<nat, byte>, id: nat, b: byte)
    requires id in f
    ensures CountFlights(f, b) == CountFlights(f - {id}, b) + if f[id] == b then 1 else 0
  {
    FlightStarts(f - {id}, id, f[id], b);
    assert (f - {id})[id := f[id]] == f;
  }

  /** The bytes from position k on: the next one and the rest. */
  lemma CountNext(data: seq<byte>, k: nat, b: byte)
    requires k < |data|
    ensures Count(data[k..], b) == (if data[k] == b then 1 else 0) + Count(data[k + 1..], b)
  {
    assert data[k..] == [data[k]] + data[k + 1..];
    CountConcat([data[k]], data[k + 1..], b);
    assert [data[k]][..0] == [];
  }

  /** The bytes that got to the terminal. */
  function Bytes(ws: seq<Written>): seq<byte> {
    if ws == [] then [] else Bytes(ws[..|ws| - 1]) + [ws[|ws| - 1].value]
  }

  lemma BytesOne(ws: seq<Written>, w: Written)
    ensures Bytes(ws + [w]) == Bytes(ws) + [w.value]
  {
    assert (ws + [w])[..|ws|] == ws;
  }

  /** A newline at position k of the data that is not pasted, after what was fed before. */
  predicate Submits(fed: seq<byte>, data: seq<byte>, k: nat) {
    k < |data| && Newline(data[k]) && !InPaste(fed + data[..k], false)
  }

  /** What Input may let through: everything before the first newline that submits. */
  predicate UpToSubmit(fed: seq<byte>, data: seq<byte>, n: nat) {
    n <= |data| && (n < |data| ==> Submits(fed, data, n)) && forall k | 0 <= k < n :: !Submits(fed, data, k)
  }

  /** What is shown, what is queued and which newlines wait. */
  datatype Shown = Shown(bytes: seq<byte>, pending: seq<byte>, inFlight: map<nat, byte>)

  /** At a prompt: bytes pass up to the first newline that submits; that one waits for a barrier, and
      what follows is queued. */
  predicate Prompted(fed: seq<byte>, data: seq<byte>, n: nat, barrier: Option<nat>, before: Shown, after: Shown) {
    && UpToSubmit(fed, data, n) && after.bytes == before.bytes + data[..n]
    && if n == |data| then barrier.None? && after.pending == before.pending && after.inFlight == before.inFlight
       else barrier.Some? && barrier.value !in before.inFlight && after.pending == before.pending + data[n + 1..]
            && after.inFlight == before.inFlight[barrier.value := data[n]]
  }

  /** The gate.  `watched` is any byte value: what is shown for it holds for every value, so the
      counts below speak about multisets of bytes. */
  class InputController {
    const paste: PasteTracker
    var atPrompt: bool
    var syncing: bool
    var pending: seq<byte>
    var inFlight: map<nat, byte>
    var next: nat
    ghost const watched: byte
    ghost var pty: seq<Written>
    ghost var typed: nat
    ghost var held: nat
    ghost var dropped: nat
    ghost var passed: set<nat>

    constructor (ghost watched: byte)
      ensures this.watched == watched && Valid() && fresh(paste) && Conserved(0) && typed == 0 && pty == []
    {
      paste := new PasteTracker();
      this.watched := watched;
      atPrompt, syncing, pending, inFlight, next := false, false, [], map[], 0;
      pty, typed, held, dropped, passed := [], 0, 0, 0, {};
      new;
      assert Flights(map[], watched) == {};
    }

    /** A newline written at a prompt was inside a paste; one written after a barrier had its own,
        which succeeded; only newlines wait for barriers or are dropped. */
    ghost predicate Valid()
      reads this, paste
    {
      && paste.Valid()
      && (forall id | id in inFlight :: Newline(inFlight[id]) && id < next && id !in passed)
      && (forall id | id in passed :: id < next)
      && (forall k | 0 <= k < |pty| :: Right(pty[k], passed))
      && (dropped > 0 ==> Newline(watched))
    }

    ghost function View(): Shown
      reads this
    {
      Shown(Bytes(pty), pending, inFlight)
    }

    /** Every typed byte is written once, waits, is on its way (here or taken by Prompt), or was dropped. */
    ghost predicate Conserved(inHand: nat)
      reads this
    {
      typed == CountWritten(pty, watched) + Count(pending, watched) + CountFlights(inFlight, watched) + held + dropped + inHand
    }

    /** The part of Input under the lock.  `fromHeld` bytes were taken from the queue by Prompt; others
        are typed now.  A newline outside a paste leaves a barrier to wait for. */
    method Input(data: seq<byte>, ghost fromHeld: bool) returns (barrier: Option<nat>, ghost n: nat)
      requires Valid() && Conserved(0) && (fromHeld ==> Count(data, watched) <= held)
      modifies this, paste
      ensures Valid() && Conserved(0)
      ensures typed == if fromHeld then old(typed) else old(typed) + Count(data, watched)
      ensures old(pty) <= pty && dropped == old(dropped) && passed == old(passed)
      ensures held == if fromHeld then old(held) - Count(data, watched) else old(held)
      ensures if old(syncing) then barrier.None? && View() == old(View()).(pending := old(pending) + data)
              else if !old(atPrompt) then barrier.None? && View() == old(View()).(bytes := old(View()).bytes + data)
              else Prompted(old(paste.fed), data, n, barrier, old(View()), View())
      ensures atPrompt == old(atPrompt) && syncing == (old(syncing) || barrier.Some?)
    {
      n := 0;
      if fromHeld {
        held := held - Count(data, watched);
      } else {
        typed := typed + Count(data, watched);
      }
      barrier := None;
      if syncing {
        CountConcat(pending, data, watched);
        pending := pending + data;
      } else if !atPrompt {
        WriteAll(data);
      } else {
        barrier, n := TypeAtPrompt(data);
      }
    }

    method WriteOne(value: byte, ghost way: Way, ghost inHand: nat)
      requires Valid() && Right(Written(value, way), passed) && Conserved(inHand + if value == watched then 1 else 0)
      modifies `pty
      ensures Valid() && Conserved(inHand) && pty == old(pty) + [Written(value, way)]
      ensures Bytes(pty) == Bytes(old(pty)) + [value]
    {
      BytesOne(pty, Written(value, way));
      CountWrittenOne(pty, Written(value, way), watched);
      pty := pty + [Written(value, way)];
    }

    /** A running command gets the bytes as they are. */
    method WriteAll(data: seq<byte>)
      requires Valid() && Conserved(Count(data, watched))
      modifies `pty
      ensures Valid() && Conserved(0) && old(pty) <= pty && Bytes(pty) == Bytes(old(pty)) + data
    {
      assert data[0..] == data;
      for k := 0 to |data|
        invariant Valid() && old(pty) <= pty && Conserved(Count(data[k..], watched))
        invariant Bytes(pty) == Bytes(old(pty)) + data[..k]
      {
        assert data[..k + 1] == data[..k] + [data[k]];
        CountNext(data, k, watched);
        WriteOne(data[k], WhileRunning, Count(data[k + 1..], watched));
      }
      assert data[|data|..] == [] && data[..|data|] == data;
    }

    /** At a prompt bytes pass one by one up to the first newline outside a paste; that one waits for a
        barrier, and what follows is queued. */
    method TypeAtPrompt(data: seq<byte>) returns (barrier: Option<nat>, ghost n: nat)
      requires Valid() && atPrompt && !syncing && Conserved(Count(data, watched))
      modifies `pty, `pending, `syncing, `inFlight, `next, paste
      ensures Valid() && Conserved(0) && old(pty) <= pty
      ensures Prompted(old(paste.fed), data, n, barrier, old(View()), View()) && syncing == barrier.Some?
    {
      assert data[0..] == data && paste.fed + data[..0] == paste.fed;
      for index := 0 to |data|
        invariant Valid() && !syncing && old(pty) <= pty && Conserved(Count(data[index..], watched))
        invariant View() == old(View()).(bytes := old(View()).bytes + data[..index])
        invariant paste.fed == old(paste.fed) + data[..index]
        invariant forall k | 0 <= k < index :: !Submits(old(paste.fed), data, k)
      {
        assert data[..index + 1] == data[..index] + [data[index]];
        CountNext(data, index, watched);
        var submits := TypeOne(data[index], Count(data[index + 1..], watched));
        assert submits <==> Submits(old(paste.fed), data, index);
        if submits {
          var id := Hold(data[index], data[index + 1..]);
          return Some(id), index;
        }
      }
      assert data[|data|..] == [] && data[..|data|] == data;
      barrier, n := None, |data|;
    }

    /** One byte at a prompt: it is written unless it submits. */
    method TypeOne(value: byte, ghost inHand: nat) returns (submits: bool)
      requires Valid() && Conserved(inHand + if value == watched then 1 else 0)
      modifies `pty, paste
      ensures Valid() && paste.fed == old(paste.fed) + [value]
      ensures submits <==> Newline(value) && !InPaste(old(paste.fed), false)
      ensures submits ==> pty == old(pty)
      ensures !submits ==> old(pty) <= pty && Bytes(pty) == Bytes(old(pty)) + [value] && Conserved(inHand)
    {
      ghost var inside := InPaste(paste.fed, false);
      var pasteByte := paste.Feed(value);
      submits := !pasteByte && Newline(value);
      if !submits {
        WriteOne(value, AtPrompt(inside), inHand);
      }
    }

    /** The newline waits for a barrier; the rest is queued. */
    method Hold(value: byte, rest: seq<byte>) returns (id: nat)
      requires Valid() && Newline(value) && Conserved((if value == watched then 1 else 0) + Count(rest, watched))
      modifies `pending, `syncing, `inFlight, `next
      ensures Valid() && Conserved(0) && syncing
      ensures id !in old(inFlight) && inFlight == old(inFlight)[id := value] && pending == old(pending) + rest
    {
      assert next !in inFlight;
      FlightStarts(inFlight, next, value, watched);
      CountConcat(pending, rest, watched);
      id := next;
      pending := pending + rest;
      inFlight, next, syncing := inFlight[next := value], next + 1, true;
    }

    /** The barrier for a waiting newline has ended. */
    method BarrierEnded(id: nat, ok: bool)
      requires Valid() && Conserved(0) && id in inFlight
      modifies this
      ensures Valid() && Conserved(0) && typed == old(typed) && pending == old(pending) && held == old(held)
      ensures inFlight == old(inFlight) - {id}
      ensures if ok then pty == old(pty) + [Written(old(inFlight[id]), AfterBarrier(id))] && dropped == old(dropped)
              else pty == old(pty) && dropped == old(dropped) + if old(inFlight[id]) == watched then 1 else 0
      ensures atPrompt == !ok && !syncing
    {
      var value := inFlight[id];
      FlightEnds(inFlight, id, watched);
      inFlight := inFlight - {id};
      syncing, atPrompt := false, !ok;
      if ok {
        PassedMore(pty, passed, id);
        passed := passed + {id};
        WriteOne(value, AfterBarrier(id), 0);
      } else {
        dropped := dropped + if value == watched then 1 else 0;
      }
    }

    method BeginPrompt()
      requires Valid() && Conserved(0)
      modifies `syncing, `atPrompt, paste
      ensures Valid() && Conserved(0) && syncing && !atPrompt && paste.fed == []
    {
      syncing, atPrompt := true, false;
      paste.Reset();
    }

    /** Takes the queue; its bytes are then given to Input. */
    method Prompt() returns (queued: seq<byte>)
      requires Valid() && Conserved(0)
      modifies `syncing, `atPrompt, `pending, `held
      ensures Valid() && Conserved(0) && atPrompt && !syncing
      ensures queued == old(pending) && pending == [] && held == old(held) + Count(queued, watched)
    {
      syncing, atPrompt := false, true;
      queued := pending;
      held := held + Count(queued, watched);
      pending := [];
    }
  }

  ghost predicate Right(w: Written, passed: set<nat>) {
    match w.way
    case WhileRunning => true
    case AtPrompt(inPaste) => Newline(w.value) ==> inPaste
    case AfterBarrier(id) => Newline(w.value) && id in passed
  }

  lemma PassedMore(pty: seq<Written>, passed: set<nat>, id: nat)
    requires forall k | 0 <= k < |pty| :: Right(pty[k], passed)
    ensures forall k | 0 <= k < |pty| :: Right(pty[k], passed + {id})
  {
    forall k | 0 <= k < |pty| ensures Right(pty[k], passed + {id}) {
      assert Right(pty[k], passed);
    }
  }

  // ---------------------------------------------------------------- every interleaving

  /** One atomic step: typing, a queue taken earlier being given to Input, the end of a barrier, the
      shell beginning a prompt, the prompt itself. */
  datatype Action = Type(data: seq<byte>) | Deliver(k: nat) | Ended(id: nat, ok: bool) | PromptBegins | PromptShown

  function CountHands(hands: seq<seq<byte>>, b: byte): nat {
    if hands == [] then 0 else CountHands(hands[..|hands| - 1], b) + Count(hands[|hands| - 1], b)
  }

  lemma {:induction false} CountWithout(hands: seq<seq<byte>>, k: nat, b: byte)
    requires k < |hands|
    ensures CountHands(hands, b) == CountHands(hands[..k] + hands[k + 1..], b) + Count(hands[k], b)
  {
    var last := |hands| - 1;
    if k == last {
      assert hands[..k] + hands[k + 1..] == hands[..last];
    } else {
      CountWithout(hands[..last], k, b);
      var rest := hands[..k] + hands[k + 1..];
      assert rest[..|rest| - 1] == hands[..last][..k] + hands[..last][k + 1..];
    }
  }

  function CountTyped(actions: seq<Action>, b: byte): nat {
    if actions == [] then 0
    else CountTyped(actions[..|actions| - 1], b)
         + if actions[|actions| - 1].Type? then Count(actions[|actions| - 1].data, b) else 0
  }

  /** Whatever the order of the steps: no newline typed at a prompt outside a paste is written without
      its own successful barrier, and no byte is lost or doubled but the newlines of failed barriers. */
  method Interleave(actions: seq<Action>, ghost watched: byte) returns (gate: InputController)
    ensures fresh(gate) && gate.watched == watched && gate.Valid() && gate.Conserved(0)
    ensures gate.typed == CountTyped(actions, watched)
  {
    gate := new InputController(watched);
    var hands: seq<seq<byte>> := [];
    for k := 0 to |actions|
      invariant fresh(gate) && fresh(gate.paste) && gate.watched == watched && gate.Valid() && gate.Conserved(0)
      invariant gate.held == CountHands(hands, watched) && gate.typed == CountTyped(actions[..k], watched)
    {
      assert actions[..k + 1][..k] == actions[..k];
      match actions[k]
      case Type(data) =>
        var _, _ := gate.Input(data, false);
      case Deliver(h) =>
        if h < |hands| {
          CountWithout(hands, h, watched);
          var _, _ := gate.Input(hands[h], true);
          hands := hands[..h] + hands[h + 1..];
        }
      case Ended(id, ok) =>
        if id in gate.inFlight {
          gate.BarrierEnded(id, ok);
        }
      case PromptBegins => gate.BeginPrompt();
      case PromptShown =>
        var queued := gate.Prompt();
        assert (hands + [queued])[..|hands|] == hands;
        hands := hands + [queued];
    }
    assert actions[..|actions|] == actions;
  }

  // ---------------------------------------------------------------- pastes and newlines, in plain terms

  predicate BeginAt(s: seq<byte>, i: int) {
    0 <= i && i + 6 <= |s| && s[i..i + 6] == [0x1b, '[' as int, '2' as int, '0' as int, '0' as int, '~' as int]
  }

  predicate EndAt(s: seq<byte>, i: int) {
    0 <= i && i + 6 <= |s| && s[i..i + 6] == [0x1b, '[' as int, '2' as int, '0' as int, '1' as int, '~' as int]
  }

  /** A paste has begun at i and has not ended since. */
  predicate OpenSince(s: seq<byte>, i: int) {
    BeginAt(s, i) && forall j | i < j <= |s| :: !EndAt(s, j)
  }

  predicate NoEnd(s: seq<byte>) {
    forall j | 0 <= j <= |s| :: !EndAt(s, j)
  }

  /** The text ends inside a paste exactly when its last delimiter, of either kind, begins one. */
  lemma InPasteExact(s: seq<byte>)
    ensures InPaste(s, false) <==> exists i :: OpenSince(s, i)
  {
    LastDelimiter(s, false);
  }

  lemma {:induction false} LastDelimiter(s: seq<byte>, active: bool)
    ensures InPaste(s, active) <==> (exists i :: OpenSince(s, i)) || (active && NoEnd(s))
    decreases |s|
  {
    if s != [] {
      var n := if Delimiter(active) <= s then 6 else 1;
      forall i ensures BeginAt(s[n..], i) <==> i >= 0 && BeginAt(s, i + n)
               ensures EndAt(s[n..], i) <==> i >= 0 && EndAt(s, i + n)
      {
        if 0 <= i && i + 6 <= |s[n..]| {
          assert s[n..][i..i + 6] == s[i + n..i + n + 6];
        }
      }
      forall i | 0 < i < n ensures !BeginAt(s, i) && !EndAt(s, i) {
        assert i + 6 <= |s| ==> s[i..i + 6][0] == s[i] && s[i] == s[..6][i];
      }
      assert Delimiter(active) <= s <==> |s| >= 6 && s[0..6] == Delimiter(active);
      LastDelimiter(s[n..], if n == 6 then !active else active);
      Shifted(s, n);
    }
  }

  /** How the last delimiter of the text follows from the last one after its first bytes. */
  lemma Shifted(s: seq<byte>, n: nat)
    requires 0 < n <= |s| && forall i | 0 < i < n :: !BeginAt(s, i) && !EndAt(s, i)
    requires forall i :: BeginAt(s[n..], i) <==> i >= 0 && BeginAt(s, i + n)
    requires forall i :: EndAt(s[n..], i) <==> i >= 0 && EndAt(s, i + n)
    ensures NoEnd(s) <==> NoEnd(s[n..]) && !EndAt(s, 0)
    ensures (exists i :: OpenSince(s, i)) <==> (exists i :: OpenSince(s[n..], i)) || (BeginAt(s, 0) && NoEnd(s[n..]))
  {
    var t := s[n..];
    if NoEnd(s) {
      forall j | 0 <= j <= |t| ensures !EndAt(t, j) {
        assert !EndAt(s, j + n);
      }
    }
    if NoEnd(t) {
      forall j | 0 < j <= |s| ensures !EndAt(s, j) {
        assert j >= n ==> !EndAt(t, j - n);
      }
      if BeginAt(s, 0) {
        assert OpenSince(s, 0);
      }
    }
    if i :| OpenSince(t, i) {
      forall j | i + n < j <= |s| ensures !EndAt(s, j) {
        assert !EndAt(t, j - n);
      }
      assert OpenSince(s, i + n);
    }
    if i :| OpenSince(s, i) {
      if i == 0 {
        forall j | 0 <= j <= |t| ensures !EndAt(t, j) {
          assert !EndAt(s, j + n);
        }
      } else {
        assert i >= n;
        forall j | i - n < j <= |t| ensures !EndAt(t, j) {
          assert !EndAt(s, j + n);
        }
        assert OpenSince(t, i - n);
      }
    }
  }

  /** What Input lets through at a prompt, and what it holds: the first carriage return or line feed after which
      no paste is open. */
  lemma SubmitExact(fed: seq<byte>, data: seq<byte>, k: nat)
    ensures Submits(fed, data, k) <==>
            k < |data| && (data[k] == 13 || data[k] == 10) && !exists i :: OpenSince(fed + data[..k], i)
  {
    if k < |data| {
      InPasteExact(fed + data[..k]);
    }
  }
}
