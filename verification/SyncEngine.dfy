/** The driver of the synchronization engine, over every sequence of answers the engine may give. */
module SyncEngine {
  import opened Common
  import Health

  type Id = string
  type Fingerprint = string

  const READY_ATTEMPTS := 50

  /** An answer to one engine command; a failure has the text of its error.  An unhealthy status is an
      error too, but never one that means that the session is missing. */
  datatype Answer = Done | Healthy | Unhealthy | Failed(text: string)

  datatype Op = Version | DaemonStart | Probe | Create | Lookup | Resume | Flush | Status | Terminate

  /** A command with its answer, or the stored identifier being set or cleared. */
  datatype Event = Call(op: Op, target: Option<Id>, answer: Answer) | Stored(id: Id) | Cleared(id: Id)

  /** The driver reads a missing session off the error's text. */
  predicate Missing(a: Answer) {
    && a.Failed?
    && (Health.Contains(Health.Lower(a.text), "not found") || Health.Contains(Health.Lower(a.text), "did not match"))
  }

  /** The readiness probe counts as answered when the daemon says that it knows no such session. */
  predicate Answered(a: Answer) {
    a.Done? || (a.Failed? && Health.Contains(a.text, "did not match any sessions"))
  }

  /** The two texts that mean a missing session, in any case, and the one that answers the probe, as it is. */
  lemma AnswersRead(a: Answer)
    ensures Missing(a) <==> a.Failed? && (Health.Mentions(a.text, "not found") || Health.Mentions(a.text, "did not match"))
    ensures Answered(a) <==>
              a.Done? || (a.Failed? && exists before, after :: a.text == before + "did not match any sessions" + after)
  {
    if a.Failed? {
      Health.ContainsExact(a.text, "not found");
      Health.ContainsExact(a.text, "did not match");
      Health.SplitAround(a.text, "did not match any sessions");
    }
  }

  /** A text that says nothing about any session is taken for a missing one: the engine's program itself
      was not found.  So the driver's view of "missing" is exact only when such errors do not occur. */
  lemma ProgramNotFoundCountsAsMissing()
    ensures Missing(Failed("exec: \"mutagen\": executable file not found in $PATH"))
  {
    var text := "exec: \"mutagen\": executable file not found in $PATH";
    var low := Health.Lower(text);
    assert |low| == |text| && low[33..42] == "not found" by {
      assert forall i | 33 <= i < 42 :: low[i] == text[i];
      assert text[33..42] == "not found";
    }
    assert Health.OccursAt(low, "not found", 33);
  }

  // ---------------------------------------------------------------- what a trace must satisfy

  /** A healthy barrier on this session was the last thing that happened before position k. */
  predicate BarrierBefore(trace: seq<Event>, k: nat, id: Id) {
    2 <= k <= |trace| && trace[k - 2] == Call(Flush, Some(id), Done) && trace[k - 1] == Call(Status, Some(id), Healthy)
  }

  /** And it was resumed right before that. */
  predicate ResumedBefore(trace: seq<Event>, id: Option<Id>) {
    |trace| >= 3 && trace[|trace| - 3] == Call(Resume, id, Done)
  }

  /** The event in front says that the session is gone. */
  predicate GoneBefore(trace: seq<Event>, k: nat, id: Id) {
    && 1 <= k <= |trace| && trace[k - 1].Call? && trace[k - 1].target == Some(id)
    && ((trace[k - 1].op.Terminate? && trace[k - 1].answer.Done?) || Missing(trace[k - 1].answer))
  }

  /** The identifier stored after the first n events. */
  function Current(initial: Option<Id>, trace: seq<Event>): Option<Id> {
    if trace == [] then initial
    else
      match trace[|trace| - 1]
      case Stored(id) => Some(id)
      case Cleared(_) => None
      case Call(_, _, _) => Current(initial, trace[..|trace| - 1])
  }

  predicate SafeAt(initial: Option<Id>, trace: seq<Event>, k: nat)
    requires k < |trace|
  {
    match trace[k]
    case Call(op, id, _) =>
      && (op.Terminate? ==> id.Some? && BarrierBefore(trace, k, id.value) && Current(initial, trace[..k]) == id)
      && (op.Create? ==> Current(initial, trace[..k]).None?)
    case Cleared(id) => GoneBefore(trace, k, id) && Current(initial, trace[..k]) == Some(id)
    case Stored(_) => Current(initial, trace[..k]).None?
  }

  /** A session is terminated only right after a healthy barrier on it; the stored identifier is cleared
      only right after that session was terminated or found missing; and a session is created and
      stored only while none is stored. */
  predicate Safe(initial: Option<Id>, trace: seq<Event>) {
    forall k | 0 <= k < |trace| :: SafeAt(initial, trace, k)
  }

  lemma SafeMore(initial: Option<Id>, trace: seq<Event>, e: Event)
    requires Safe(initial, trace) && SafeAt(initial, trace + [e], |trace|)
    ensures Safe(initial, trace + [e])
  {
    var all := trace + [e];
    forall k | 0 <= k < |all| ensures SafeAt(initial, all, k) {
      if k < |trace| {
        assert SafeAt(initial, trace, k) && all[..k] == trace[..k];
      }
    }
  }

  lemma CurrentMore(initial: Option<Id>, trace: seq<Event>, e: Event)
    ensures Current(initial, trace + [e]) ==
            match e case Stored(id) => Some(id) case Cleared(_) => None case Call(_, _, _) => Current(initial, trace)
  {
    assert (trace + [e])[..|trace|] == trace;
  }

  datatype Outcome = Success | UnhealthyError | MissingError | Failure

  /** An answer that a command may fail on; a lookup may also name no session. */
  predicate Refusal(e: Event) {
    e.Call? && match e.op
               case Probe => !Answered(e.answer)
               case Status => !e.answer.Healthy?
               case Lookup => true
               case _ => !e.answer.Done?
  }

  /** Every failure has its reason in the engine's last answer. */
  predicate Refused(trace: seq<Event>) {
    trace != [] && Refusal(trace[|trace| - 1])
  }

  /** What a barrier does: flush, then status, and the outcome those answers mean. */
  predicate IsBarrier(before: seq<Event>, trace: seq<Event>, id: Id, outcome: Outcome) {
    var n := |before|;
    && before < trace && trace[n].Call? && trace[n].op.Flush? && trace[n].target == Some(id)
    && if !trace[n].answer.Done?
       then |trace| == n + 1 && outcome == if Missing(trace[n].answer) then MissingError else Failure
       else |trace| == n + 2 && trace[n + 1].Call? && trace[n + 1].op.Status? && trace[n + 1].target == Some(id)
            && outcome == match trace[n + 1].answer
                          case Healthy => Success
                          case Unhealthy => UnhealthyError
                          case a => if Missing(a) then MissingError else Failure
  }

  /** The hot path: resume and barrier of the stored session, and nothing else. */
  predicate HotPath(before: seq<Event>, trace: seq<Event>, id: Id, outcome: Outcome) {
    var n := |before|;
    && before < trace && trace[n].Call? && trace[n].op.Resume? && trace[n].target == Some(id)
    && if trace[n].answer.Done? then IsBarrier(trace[..n + 1], trace, id, outcome) && !outcome.MissingError?
       else |trace| == n + 1 && outcome.Failure? && !Missing(trace[n].answer)
  }

  predicate Asks(e: Event, op: Op) {
    e.Call? && e.op == op
  }

  predicate Replied(e: Event) {
    Asks(e, Probe) && Answered(e.answer)
  }

  /** Anything but the hot path begins with the version gate, then the start of the daemon, then a probe,
      each asked only when the one in front was answered. */
  predicate Begins(before: seq<Event>, trace: seq<Event>) {
    var n := |before|;
    && before < trace && Asks(trace[n], Version)
    && if !trace[n].answer.Done? then |trace| == n + 1
       else && |trace| > n + 1 && Asks(trace[n + 1], DaemonStart)
            && if !trace[n + 1].answer.Done? then |trace| == n + 2 else |trace| > n + 2 && Asks(trace[n + 2], Probe)
  }

  /** The stored session was given up within the first three answers, as missing by Safe, and what follows
      begins with the gate. */
  predicate FellBack(before: seq<Event>, trace: seq<Event>, id: Id) {
    exists k :: |before| < k < |trace| && k <= |before| + 3 && trace[k] == Cleared(id) && Begins(trace[..k + 1], trace)
  }

  /** The last thing that happened: the engine said that it knows the session, or it was created and stored. */
  predicate Confirmed(trace: seq<Event>, id: Id) {
    && trace != []
    && var last := trace[|trace| - 1];
       last == Stored(id) || last == Call(Status, Some(id), Healthy) || last == Call(Status, Some(id), Unhealthy)
  }

  lemma GaveUp(before: seq<Event>, given: seq<Event>, trace: seq<Event>, id: Id)
    requires before < given && |before| + 2 <= |given| <= |before| + 4 && given[|given| - 1] == Cleared(id)
    requires Begins(given, trace)
    ensures FellBack(before, trace, id)
  {
    assert trace[..|given|] == given && trace[|given| - 1] == Cleared(id);
  }

  class Driver {
    var identifier: Option<Id>
    var fingerprint: Fingerprint
    ghost const initial: Option<Id>
    ghost var trace: seq<Event>

    constructor (identifier: Option<Id>, fingerprint: Fingerprint)
      ensures this.identifier == identifier && this.fingerprint == fingerprint && initial == identifier
      ensures trace == [] && Valid()
    {
      this.identifier, this.fingerprint, initial, trace := identifier, fingerprint, identifier, [];
    }

    ghost predicate Valid()
      reads this
    {
      Safe(initial, trace) && identifier == Current(initial, trace)
    }

    /** One engine command; the engine may answer anything that fits it. */
    method Ask(op: Op, id: Option<Id>) returns (answer: Answer)
      requires Valid() && !op.Create? && (op.Terminate? ==> id.Some? && id == identifier && BarrierBefore(trace, |trace|, id.value))
      modifies `trace
      ensures Valid() && trace == old(trace) + [Call(op, id, answer)]
      ensures (answer.Healthy? || answer.Unhealthy?) ==> op.Status?
      ensures answer.Done? ==> !op.Status?
    {
      answer :| true;
      if op.Status? && answer.Done? {
        answer := Failed("");
      } else if !op.Status? && (answer.Healthy? || answer.Unhealthy?) {
        answer := Failed("");
      }
      ghost var e := Call(op, id, answer);
      assert (trace + [e])[..|trace|] == trace;
      SafeMore(initial, trace, e);
      CurrentMore(initial, trace, e);
      trace := trace + [e];
    }

    method AskCreate() returns (answer: Answer)
      requires Valid() && identifier.None?
      modifies `trace
      ensures Valid() && trace == old(trace) + [Call(Create, None, answer)]
    {
      answer :| true;
      ghost var e := Call(Create, None, answer);
      assert (trace + [e])[..|trace|] == trace;
      SafeMore(initial, trace, e);
      CurrentMore(initial, trace, e);
      trace := trace + [e];
    }

    method Forget()
      requires Valid() && identifier.Some? && GoneBefore(trace, |trace|, identifier.value)
      modifies this
      ensures Valid() && identifier.None? && trace == old(trace) + [Cleared(old(identifier.value))]
    {
      ghost var e := Cleared(identifier.value);
      assert (trace + [e])[..|trace|] == trace;
      SafeMore(initial, trace, e);
      CurrentMore(initial, trace, e);
      trace := trace + [e];
      identifier, fingerprint := None, "";
    }

    method Remember(id: Id, spec: Fingerprint)
      requires Valid() && identifier.None?
      modifies this
      ensures Valid() && identifier == Some(id) && fingerprint == spec && trace == old(trace) + [Stored(id)]
    {
      ghost var e := Stored(id);
      assert (trace + [e])[..|trace|] == trace;
      SafeMore(initial, trace, e);
      CurrentMore(initial, trace, e);
      trace := trace + [e];
      identifier, fingerprint := Some(id), spec;
    }

    /** Flush, then a healthy status. */
    method Barrier(id: Id) returns (outcome: Outcome)
      requires Valid()
      modifies `trace
      ensures Valid() && old(trace) < trace
      ensures IsBarrier(old(trace), trace, id, outcome)
      ensures outcome.Success? ==> BarrierBefore(trace, |trace|, id)
      ensures outcome.MissingError? ==> GoneBefore(trace, |trace|, id)
    {
      var flushed := Ask(Flush, Some(id));
      if !flushed.Done? {
        return if Missing(flushed) then MissingError else Failure;
      }
      var status := Ask(Status, Some(id));
      match status
      case Healthy => outcome := Success;
      case Unhealthy => outcome := UnhealthyError;
      case _ => outcome := if Missing(status) then MissingError else Failure;
    }

    /** Polls until the daemon answers, also when it answers that the probe matches no session. */
    method WaitReady() returns (ok: bool, ghost cancelled: bool)
      requires Valid()
      modifies `trace
      ensures Valid() && old(trace) <= trace
      ensures old(trace) < trace && forall k | |old(trace)| <= k < |trace| :: Asks(trace[k], Probe)
      ensures |trace| <= |old(trace)| + 50
      ensures ok <==> Replied(trace[|trace| - 1])
      ensures forall k | |old(trace)| <= k < |trace| - 1 :: !Replied(trace[k])
      ensures !ok ==> cancelled || |trace| == |old(trace)| + 50
    {
      cancelled := false;
      for attempt := 0 to READY_ATTEMPTS
        invariant Valid() && old(trace) <= trace
        invariant |trace| == |old(trace)| + attempt
        invariant forall k | |old(trace)| <= k < |trace| :: Asks(trace[k], Probe) && !Replied(trace[k])
      {
        var answer := Ask(Probe, None);
        if Answered(answer) {
          return true, false;
        }
        var stop: bool := *;
        if stop {
          return false, true;
        }
      }
      return false, false;
    }

    /** A stored session with another fingerprint is emptied, terminated and forgotten; one that is
        missing is just forgotten. */
    method ReplaceChanged() returns (ok: bool)
      requires Valid() && identifier.Some?
      modifies this
      ensures Valid() && old(trace) <= trace
      ensures ok ==> identifier.None?
      ensures |trace| > |old(trace)| && Asks(trace[|old(trace)|], Resume) && trace[|old(trace)|].target == old(identifier)
      ensures !trace[|old(trace)|].answer.Done? ==> (ok <==> Missing(trace[|old(trace)|].answer))
      ensures !ok ==> identifier == old(identifier) && fingerprint == old(fingerprint) && Refused(trace)
    {
      var id := identifier.value;
      var resumed := Ask(Resume, Some(id));
      if resumed.Done? {
        var barrier := Barrier(id);
        if !barrier.Success? {
          return false;
        }
        var terminated := Ask(Terminate, Some(id));
        if !terminated.Done? {
          return false;
        }
      } else if !Missing(resumed) {
        return false;
      }
      Forget();
      ok := true;
    }

    /** Creates a session and stores its identifier: the one the command printed or else the one the lookup
        did; `printed` and `listed` are what those outputs show, if any. */
    method CreateSession(spec: Fingerprint, printed: Option<Id>, listed: Option<Id>) returns (ok: bool)
      requires Valid() && identifier.None?
      modifies this
      ensures Valid() && old(trace) < trace && Asks(trace[|old(trace)|], Create)
      ensures var n := |old(trace)|;
              if !trace[n].answer.Done? then |trace| == n + 1 && !ok
              else if printed.Some? then trace[n + 1..] == [Stored(printed.value)]
              else && |trace| > n + 1 && Asks(trace[n + 1], Lookup)
                   && trace[n + 2..] == if trace[n + 1].answer.Done? && listed.Some? then [Stored(listed.value)] else []
      ensures if ok then identifier == (if printed.Some? then printed else listed) && identifier.Some? && fingerprint == spec
                         && trace[|trace| - 1] == Stored(identifier.value)
              else identifier.None? && Refused(trace)
    {
      var created := AskCreate();
      if !created.Done? {
        return false;
      }
      var id := printed;
      if id.None? {
        var looked := Ask(Lookup, None);
        if !looked.Done? {
          return false;
        }
        id := listed;
      }
      if id.None? {
        return false;
      }
      Remember(id.value, spec);
      ok := true;
    }

    /** The version gate, the daemon, and the wait for it. */
    method Start() returns (ok: bool)
      requires Valid()
      modifies `trace
      ensures Valid() && old(trace) < trace && Begins(old(trace), trace)
      ensures forall k | |old(trace)| + 2 <= k < |trace| :: Asks(trace[k], Probe)
      ensures ok ==> |trace| > |old(trace)| + 2
      ensures ok <==> Replied(trace[|trace| - 1])
      ensures !ok ==> Refused(trace)
    {
      var version := Ask(Version, None);
      if !version.Done? { return false; }
      var started := Ask(DaemonStart, None);
      if !started.Done? { return false; }
      ghost var cancelled;
      ok, cancelled := WaitReady();
    }

    /** A stored session is kept when the engine still knows it, and forgotten when it is missing. */
    method CheckStored() returns (ok: bool)
      requires Valid() && identifier.Some?
      modifies this
      ensures Valid() && old(trace) < trace
      ensures Asks(trace[|old(trace)|], Status) && trace[|old(trace)|].target == old(identifier)
      ensures var status := trace[|old(trace)|].answer;
              && (ok <==> status.Healthy? || status.Unhealthy? || Missing(status))
              && if Missing(status) then identifier.None?
                 else identifier == old(identifier) && fingerprint == old(fingerprint) && |trace| == |old(trace)| + 1
      ensures !ok ==> Refused(trace)
    {
      var status := Ask(Status, identifier);
      if status.Healthy? || status.Unhealthy? {
        return true;
      }
      if !Missing(status) {
        return false;
      }
      Forget();
      ok := true;
    }

    /** Leaves a stored session with the wanted fingerprint, or fails. */
    method Ensure(spec: Fingerprint) returns (ok: bool)
      requires Valid()
      modifies this
      ensures Valid() && old(trace) < trace && Begins(old(trace), trace)
      ensures ok ==> |trace| > |old(trace)| + 2
      ensures if ok then identifier.Some? && fingerprint == spec && Confirmed(trace, identifier.value) else Refused(trace)
    {
      ok := Start();
      if ok && identifier.Some? && fingerprint != spec {
        ok := ReplaceChanged();
      }
      if ok && identifier.Some? {
        ok := CheckStored();
      }
      if ok && identifier.None? {
        var printed, listed: Option<Id> := *, *;
        ok := CreateSession(spec, printed, listed);
      }
    }

    /** The execution barrier: it succeeds only when the last engine calls were a flush and a healthy
        status of the stored session, whose fingerprint is the wanted one.  An unhealthy session is
        never replaced. */
    method Prepare(spec: Fingerprint) returns (outcome: Outcome)
      requires Valid()
      modifies this
      ensures Valid() && old(trace) < trace
      ensures outcome.Success? ==> identifier.Some? && fingerprint == spec && BarrierBefore(trace, |trace|, identifier.value)
      ensures outcome.Success? ==> ResumedBefore(trace, identifier)
      ensures outcome.UnhealthyError? ==> identifier.Some? && trace[|trace| - 1] == Call(Status, identifier, Unhealthy)
      ensures !outcome.Success? ==> Refused(trace)
      ensures old(identifier).Some? && old(fingerprint) == spec ==>
                HotPath(old(trace), trace, old(identifier).value, outcome) || FellBack(old(trace), trace, old(identifier).value)
      ensures old(identifier).None? || old(fingerprint) != spec ==> Begins(old(trace), trace)
    {
      ghost var given := trace;
      if identifier.Some? && fingerprint == spec {
        var gone;
        outcome, gone := TryStored();
        if !gone { return; }
        given := trace;
      }
      outcome := Establish(spec);
      if old(identifier).Some? && old(fingerprint) == spec {
        GaveUp(old(trace), given, trace, old(identifier).value);
      }
    }

    /** The hot path; a session that is missing is given up. */
    method TryStored() returns (outcome: Outcome, gone: bool)
      requires Valid() && identifier.Some?
      modifies this
      ensures Valid() && old(trace) < trace
      ensures !gone ==> identifier == old(identifier) && fingerprint == old(fingerprint)
                        && HotPath(old(trace), trace, identifier.value, outcome)
                        && (outcome.Success? ==> BarrierBefore(trace, |trace|, identifier.value) && ResumedBefore(trace, identifier))
                        && (outcome.UnhealthyError? ==> trace[|trace| - 1] == Call(Status, identifier, Unhealthy))
                        && (!outcome.Success? ==> Refused(trace))
      ensures gone ==> |old(trace)| + 2 <= |trace| <= |old(trace)| + 4 && trace[|trace| - 1] == Cleared(old(identifier).value)
    {
      outcome, gone := MissingError, false;
      var id := identifier.value;
      var resumed := Ask(Resume, Some(id));
      if resumed.Done? {
        ghost var asked := trace;
        outcome := Barrier(id);
        assert trace[..|asked|] == asked;
        if !outcome.MissingError? { return; }
      } else if !Missing(resumed) {
        return Failure, false;
      }
      Forget();
      gone := true;
    }

    /** The rest of Prepare: leave a matching session, resume it and run the barrier. */
    method Establish(spec: Fingerprint) returns (outcome: Outcome)
      requires Valid()
      modifies this
      ensures Valid() && old(trace) < trace && Begins(old(trace), trace)
      ensures outcome.Success? ==> identifier.Some? && fingerprint == spec && BarrierBefore(trace, |trace|, identifier.value)
      ensures outcome.Success? ==> ResumedBefore(trace, identifier)
      ensures outcome.UnhealthyError? ==> identifier.Some? && trace[|trace| - 1] == Call(Status, identifier, Unhealthy)
      ensures !outcome.Success? ==> Refused(trace)
    {
      var ok := Ensure(spec);
      if !ok {
        return Failure;
      }
      var resumed := Ask(Resume, identifier);
      if !resumed.Done? {
        return Failure;
      }
      outcome := Barrier(identifier.value);
    }
  }
}
