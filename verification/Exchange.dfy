/** The exchange that moves a losing copy off the other machine.

    The agent streams a tree, waits for an acknowledgement, hashes the tree again and removes it.  The
    client extracts the stream, records the copy, acknowledges and waits for the answer.  Either side
    may fail or die at any step, the connection may cut the stream or lose a message, and anybody
    may change the source tree at any time. */
module Exchange {
  import opened Common
  import opened Disk
  import opened Directories
  import opened FileTree
  import opened ArchiveStream
  import opened Extract
  import opened RoundTrip
  import opened AtomicFile
  import opened RecoveryCatalog
  import opened PowerLoss

  /** The object at the source name: its identity and its tree. */
  datatype Source = Source(id: nat, tree: Tree)

  datatype Ack = Ack(commit: bool, digest: Digest)

  datatype Reply = Reply(removed: bool, digest: Digest, size: nat, items: nat)

  /** The agent's standard input: nothing yet, a whole acknowledgement, or the end of input. */
  datatype Pipe = Empty | Written(ack: Ack) | Shut(last: Option<Ack>)

  datatype Agent =
    | Streaming
    | AwaitingAck(own: Summary, seen: nat)
    | Verifying(own: Summary, seen: nat)
    | Replying(own: Summary)
    | Exited(clean: bool)

  /** How the client's call ends: with no error, with a failure before the acknowledgement was
      tried, with a failed acknowledgement, or not knowing what the agent did. */
  datatype Outcome = NoError | FailedBeforeAck | Preserved | Uncertain

  datatype Client =
    | Extracting
    | Recording(summary: Summary)
    | Acknowledging(summary: Summary)
    | Closing(summary: Summary)
    | Awaiting(summary: Summary)
    | Returned(outcome: Outcome)
    | Crashed

  /** What the agent's removal destroyed; `complete` says that nothing of it was left. */
  datatype Removal = Untouched | Destroyed(what: Source, complete: bool)

  /** `streamed` and `removal` record what happened; no party reads them. */
  datatype World = World(
    source: Option<Source>,
    streamed: Option<Source>,
    sent: Stream,
    agent: Agent,
    client: Client,
    ack: Pipe,
    reply: Option<Reply>,
    removal: Removal,
    img: Image)

  /** What does not change: where the copy goes, and the client's volume at the start. */
  datatype Site = Site(codec: Codec, root: Path, archive: Name, relative: Path, linkMode: nat, start: Image)

  function Dest(s: Site): Path {
    BackupId(s.archive, LocalWins, s.relative)
  }

  function Base(s: Site): Path {
    s.root + Dest(s)
  }

  predicate Whole(stream: Stream) {
    stream.ended && stream.trailer == TRAILER
  }

  /** The connection delivers the stream, or loses its end. */
  predicate Delivered(sent: Stream, got: Stream) {
    got == sent || !Whole(got)
  }

  function Content(p: Pipe): Option<Ack> {
    match p
    case Empty => None
    case Written(a) => Some(a)
    case Shut(last) => last
  }

  function ReplyOf(own: Summary): Reply {
    Reply(true, own.digest, own.size, own.items)
  }

  /** The client's last check: the answer must name the copy it holds. */
  predicate ReplyMatches(r: Reply, own: Summary) {
    r.removed && r.digest == own.digest && r.size == own.size && r.items == own.items
  }

  // ---------------------------------------------------------------- steps

  datatype Step =
    | Change(to: Option<Source>)
    | Send(what: Source)
    | SendFail(left: Stream)
    | ReadAck(read: Option<Ack>)
    | Refuse
    | Remove
    | RemoveFail(rest: Option<Source>)
    | Answer
    | AgentDies
    | Rebuild(got: Stream, summary: Summary, extracted: Image)
    | RebuildFail(after: Image)
    | Record(copy: Tree, manifest: Manifest, mode: nat, temporary: Name, recorded: Image)
    | RecordFail(after: Image)
    | Acknowledge
    | AcknowledgeFail
    | Close
    | CloseFail
    | ReadReply(answer: Option<Reply>)
    | ClientDies

  /** The source still is the object that was streamed, with the digest that was acknowledged. */
  predicate Verified(w: World) {
    && w.agent.Verifying? && w.source.Some?
    && WithinLimits(w.source.value.tree)
    && SummaryOf(w.source.value.tree).digest == w.agent.own.digest
    && w.source.value.id == w.agent.seen
  }

  predicate AgentTook(w: World, step: Step, w': World) {
    match step
    case Send(what) =>
      && w.agent.Streaming? && WithinLimits(what.tree)
      && w' == w.(streamed := Some(what), sent := StreamOf(what.tree), agent := AwaitingAck(SummaryOf(what.tree), what.id))
    case SendFail(left) =>
      w.agent.Streaming? && !Whole(left) && w' == w.(sent := left, agent := Exited(false))
    case ReadAck(read) =>
      && w.agent.AwaitingAck? && (read.None? || read == Content(w.ack))
      && w' == w.(agent := if read.Some? && read.value.commit && read.value.digest == w.agent.own.digest
                           then Verifying(w.agent.own, w.agent.seen) else Exited(false))
    case Refuse =>
      w.agent.Verifying? && w' == w.(agent := Exited(false))
    case Remove =>
      Verified(w) && w' == w.(agent := Replying(w.agent.own), source := None, removal := Destroyed(w.source.value, true))
    case RemoveFail(rest) =>
      && Verified(w)
      && w' == w.(agent := Exited(false), source := rest, removal := Destroyed(w.source.value, rest.None?))
    case Answer =>
      w.agent.Replying? && w' == w.(agent := Exited(true), reply := Some(ReplyOf(w.agent.own)))
    case AgentDies =>
      !w.agent.Exited? && w' == w.(agent := Exited(false))
    case _ => false
  }

  /** When the client stops it closes the pipe; what it wrote before stays readable. */
  function Stopped(w: World, end: Client): World {
    w.(client := end, ack := Shut(Content(w.ack)))
  }

  ghost predicate ClientTook(s: Site, w: World, step: Step, w': World) {
    match step
    case Rebuild(got, summary, extracted) =>
      && w.client.Extracting? && Delivered(w.sent, got)
      && Acceptable(got) && Summarizes(got, summary) && ValidRelative(s.relative)
      && Copied(w.img, extracted, s.root, Dest(s), Collect(got.members, s.linkMode)) && Lawful(extracted)
      && w' == w.(client := Recording(summary), img := extracted)
    case RebuildFail(after) =>
      w.client.Extracting? && Lawful(after) && w' == Stopped(w.(img := after), Returned(FailedBeforeAck))
    case Record(copy, manifest, mode, temporary, recorded) =>
      && w.client.Recording? && Lawful(recorded) && Recorded(s, w.img, recorded, copy, w.client.summary, manifest, mode, temporary)
      && w' == w.(client := Acknowledging(w.client.summary), img := recorded)
    case RecordFail(after) =>
      w.client.Recording? && Lawful(after) && w' == Stopped(w.(img := after), Returned(FailedBeforeAck))
    case Acknowledge =>
      && w.client.Acknowledging?
      && w' == w.(client := Closing(w.client.summary), ack := Written(Ack(true, w.client.summary.digest)))
    case AcknowledgeFail =>
      w.client.Acknowledging? && w' == Stopped(w, Returned(Preserved))
    case Close =>
      w.client.Closing? && w' == Stopped(w, Awaiting(w.client.summary))
    case CloseFail =>
      w.client.Closing? && w' == Stopped(w, Returned(Uncertain))
    case ReadReply(answer) =>
      && w.client.Awaiting? && (answer.None? || answer == w.reply)
      && w' == w.(client := Returned(if w.agent == Exited(true) && answer.Some? && ReplyMatches(answer.value, w.client.summary)
                                     then NoError else Uncertain))
    case ClientDies =>
      !w.client.Returned? && !w.client.Crashed? && w' == Stopped(w, Crashed)
    case _ => false
  }

  /** What a successful RecordSummary leaves. */
  ghost predicate Recorded(s: Site, i: Image, j: Image, copy: Tree, summary: Summary, manifest: Manifest, mode: nat,
                           temporary: Name)
  {
    && Shows(i, Base(s), Some(copy)) && SummaryAccepted(copy, summary)
    && RecordOf(s.relative, summary) in manifest.records
    && Kept(s.codec, j, s.root, s.archive, LocalWins, manifest, mode)
    && ".manifest-" <= temporary && s.relative != []
    && (Standing(i, s.root + [s.archive]) ==>
          FirmerBut(i, j, ManifestPath(s.root, s.archive), s.root + [s.archive, temporary]))
  }

  ghost predicate Took(s: Site, w: World, step: Step, w': World) {
    (step.Change? && w' == w.(source := step.to)) || AgentTook(w, step, w') || ClientTook(s, w, step, w')
  }

  ghost predicate Initial(s: Site, w: World) {
    && w.streamed.None? && !Whole(w.sent) && w.agent.Streaming? && w.client.Extracting?
    && w.ack.Empty? && w.reply.None? && w.removal.Untouched? && w.img == s.start && Lawful(s.start)
  }

  ghost predicate IsRun(s: Site, run: seq<World>, steps: seq<Step>) {
    && |run| == |steps| + 1 && Initial(s, run[0])
    && forall k {:trigger steps[k]} | 0 <= k < |steps| :: Took(s, run[k], steps[k], run[k + 1])
  }

  // ---------------------------------------------------------------- what every step keeps

  /** The client holds this tree, links taking the local mode, and the way down to it from the
      recovery root; the root's own names are as durable as they were at the start. */
  ghost predicate Stored(s: Site, i: Image, t: Tree) {
    && Holds(i, Base(s), Localize(t, s.linkMode))
    && (forall n | 0 <= n < |Base(s)| :: IsDir(i, Base(s)[..n]))
    && (forall n | |s.root| < n < |Base(s)| :: KeptDir(i, Base(s)[..n]))
    && (forall n | 0 < n <= |s.root| :: KeptDir(i, s.root[..n]) <==> KeptDir(s.start, s.root[..n]))
  }

  /** It is stored and its record is durable in the catalog. */
  ghost predicate Secured(s: Site, i: Image, t: Tree) {
    && Stored(s, i, t)
    && Catalogued(s.codec, i, s.root, s.archive, LocalWins, RecordOf(s.relative, SummaryOf(t)))
    && (t.Symlink? ==> t.mode == s.linkMode)
  }

  ghost predicate AgentInv(w: World) {
    && (Whole(w.sent) ==> w.streamed.Some?)
    && (w.streamed.Some? ==> WithinLimits(w.streamed.value.tree) && w.sent == StreamOf(w.streamed.value.tree))
    && (w.agent.Streaming? ==> w.streamed.None?)
    && (w.agent.AwaitingAck? || w.agent.Verifying? ==>
          w.streamed.Some? && w.agent.seen == w.streamed.value.id && w.removal.Untouched?)
    && (w.agent.AwaitingAck? || w.agent.Verifying? || w.agent.Replying? ==>
          w.streamed.Some? && w.agent.own == SummaryOf(w.streamed.value.tree))
    && (w.agent.Verifying? || w.removal.Destroyed? ==> Content(w.ack).Some?)
    && (w.removal.Destroyed? ==> w.streamed == Some(w.removal.what))
    && (w.agent.Replying? || w.agent == Exited(true) ==> w.removal.Destroyed? && w.removal.complete)
  }

  ghost predicate ClientInv(s: Site, w: World) {
    && Lawful(w.img)
    && (Content(w.ack).Some? ==>
          && w.streamed.Some? && Secured(s, w.img, w.streamed.value.tree)
          && (w.client.Closing? || w.client.Awaiting? || w.client.Crashed?
              || w.client == Returned(NoError) || w.client == Returned(Uncertain)))
    && match w.client
       case Extracting => w.img == s.start
       case Recording(summary) =>
         w.streamed.Some? && summary == SummaryOf(w.streamed.value.tree) && Stored(s, w.img, w.streamed.value.tree)
       case Acknowledging(summary) =>
         w.streamed.Some? && summary == SummaryOf(w.streamed.value.tree) && Secured(s, w.img, w.streamed.value.tree)
       case Closing(_) => Content(w.ack).Some?
       case Awaiting(_) => Content(w.ack).Some?
       case Returned(NoError) => Content(w.ack).Some? && w.removal.Destroyed? && w.removal.complete
       case Returned(Preserved) => w.streamed.Some? && Secured(s, w.img, w.streamed.value.tree)
       case Returned(Uncertain) => Content(w.ack).Some?
       case _ => true
  }

  lemma AgentKeeps(s: Site, w: World, step: Step, w': World)
    requires AgentInv(w) && ClientInv(s, w) && AgentTook(w, step, w')
    ensures AgentInv(w') && ClientInv(s, w')
    ensures w.removal.Untouched? && w'.removal.Destroyed? ==>
              w.source == Some(w'.removal.what) && Secured(s, w.img, w'.removal.what.tree)
  {
    if Verified(w) {
      StreamInjective(w.source.value.tree, w.streamed.value.tree);
    }
    assert w.streamed == w'.streamed || (w.streamed.None? && Content(w.ack).None? && !w.client.Acknowledging?);
  }

  lemma ExtractKeeps(s: Site, w: World, got: Stream, summary: Summary, extracted: Image)
    requires AgentInv(w) && w.client.Extracting? && w.img == s.start
    requires Delivered(w.sent, got) && Acceptable(got) && Summarizes(got, summary) && ValidRelative(s.relative)
    requires Copied(w.img, extracted, s.root, Dest(s), Collect(got.members, s.linkMode))
    ensures w.streamed.Some? && summary == SummaryOf(w.streamed.value.tree)
    ensures Stored(s, extracted, w.streamed.value.tree)
  {
    var t := w.streamed.value.tree;
    ExtractionRebuilds(w.img, extracted, s.root, Dest(s), t, s.linkMode);
    SummariesAgree(t, summary);
  }

  lemma RecordKeeps(s: Site, i: Image, j: Image, t: Tree, copy: Tree, manifest: Manifest, mode: nat, temporary: Name)
    requires WithinLimits(t) && Stored(s, i, t)
    requires Recorded(s, i, j, copy, SummaryOf(t), manifest, mode, temporary)
    ensures Secured(s, j, t)
  {
    var base := Base(s);
    forall q ensures Lookup(copy, q) == Lookup(Localize(t, s.linkMode), q) {
      assert Now(i, base + q) == Lookup(copy, q);
      assert Now(i, base + q) == Lookup(Localize(t, s.linkMode), q);
    }
    SameLookups(copy, Localize(t, s.linkMode));
    CatalogAccepts(t, s.linkMode);
    forall n | 0 <= n <= |s.root + [s.archive]| ensures IsDir(i, (s.root + [s.archive])[..n]) {
      assert (s.root + [s.archive])[..n] == base[..n];
    }
    CopyUndisturbed(i, j, s.root, s.archive, LocalWins, s.relative, temporary, Localize(t, s.linkMode));
    StoredUndisturbed(s, i, j, t, temporary);
  }

  lemma StoredUndisturbed(s: Site, i: Image, j: Image, t: Tree, temporary: Name)
    requires Stored(s, i, t) && Holds(j, Base(s), Localize(t, s.linkMode)) && TEMPORARY <= temporary && s.relative != []
    requires FirmerBut(i, j, ManifestPath(s.root, s.archive), s.root + [s.archive, temporary])
    ensures Stored(s, j, t)
  {
    var base := Base(s);
    WayUndisturbed(i, j, s.root, s.archive, LocalWins, s.relative, temporary);
    WayStands(s, i, j, temporary);
    forall n | |s.root| < n < |base| ensures KeptDir(j, base[..n]) {
      assert KeptDir(i, base[..n]);
    }
  }

  lemma WayStands(s: Site, i: Image, j: Image, temporary: Name)
    requires TEMPORARY <= temporary && forall n | 0 <= n < |Base(s)| :: IsDir(i, Base(s)[..n])
    requires FirmerBut(i, j, ManifestPath(s.root, s.archive), s.root + [s.archive, temporary])
    ensures forall n | 0 <= n < |Base(s)| :: IsDir(j, Base(s)[..n])
  {
    var base := Base(s);
    forall n | 0 <= n < |base| ensures IsDir(j, base[..n]) {
      WayNames(s.root, s.archive, LocalWins, s.relative, temporary, n);
      assert Firmer(At(i, base[..n]), At(j, base[..n]));
    }
  }

  lemma ClientKeeps(s: Site, w: World, step: Step, w': World)
    requires AgentInv(w) && ClientInv(s, w) && ClientTook(s, w, step, w')
    ensures AgentInv(w') && ClientInv(s, w')
  {
    match step
    case Rebuild(got, summary, extracted) =>
      ExtractKeeps(s, w, got, summary, extracted);
    case Record(copy, manifest, mode, temporary, recorded) =>
      RecordKeeps(s, w.img, recorded, w.streamed.value.tree, copy, manifest, mode, temporary);
    case _ =>
  }

  /** Every step of either side, of the connection and of anybody else keeps the invariant; the step
      that removes finds the source to be what was streamed, and the copy already secured. */
  lemma StepKeeps(s: Site, w: World, step: Step, w': World)
    requires AgentInv(w) && ClientInv(s, w) && Took(s, w, step, w')
    ensures AgentInv(w') && ClientInv(s, w')
    ensures w.removal.Untouched? && w'.removal.Destroyed? ==>
              w.source == Some(w'.removal.what) && Secured(s, w.img, w'.removal.what.tree)
  {
    if AgentTook(w, step, w') {
      AgentKeeps(s, w, step, w');
    } else if ClientTook(s, w, step, w') {
      ClientKeeps(s, w, step, w');
      assert w'.removal == w.removal;
    }
  }

  lemma {:induction false} RunKeeps(s: Site, run: seq<World>, steps: seq<Step>, k: nat)
    requires IsRun(s, run, steps) && k < |run|
    ensures AgentInv(run[k]) && ClientInv(s, run[k])
  {
    if k > 0 {
      RunKeeps(s, run, steps, k - 1);
      StepKeeps(s, run[k - 1], steps[k - 1], run[k]);
    }
  }

  // ---------------------------------------------------------------- the main results

  /** In every run the source is removed only while the client already holds a durable, catalogued
      copy equal to the very tree that is removed. */
  lemma {:induction false} RemovedOnlyWhenSecured(s: Site, run: seq<World>, steps: seq<Step>, k: nat)
    requires IsRun(s, run, steps) && k < |steps|
    requires run[k].removal.Untouched? && run[k + 1].removal.Destroyed?
    ensures run[k].source == Some(run[k + 1].removal.what)
    ensures Secured(s, run[k].img, run[k + 1].removal.what.tree)
  {
    RunKeeps(s, run, steps, k);
    StepKeeps(s, run[k], steps[k], run[k + 1]);
  }

  /** And the copy is there in every later state. */
  lemma {:induction false} RemovedStaysSecured(s: Site, run: seq<World>, steps: seq<Step>, k: nat)
    requires IsRun(s, run, steps) && k < |run| && run[k].removal.Destroyed?
    ensures Secured(s, run[k].img, run[k].removal.what.tree)
    ensures exists rec :: Describes(rec, s.relative, run[k].removal.what.tree, Digest(StreamOf(run[k].removal.what.tree)))
                          && Catalogued(s.codec, run[k].img, s.root, s.archive, LocalWins, rec)
  {
    RunKeeps(s, run, steps, k);
    TreeDescribed(s.relative, run[k].removal.what.tree);
  }

  /** A client that returns no error has removed the whole source; one that reports a preserved or an
      uncertain source holds the secured copy. */
  lemma {:induction false} OutcomesTrue(s: Site, run: seq<World>, steps: seq<Step>, k: nat)
    requires IsRun(s, run, steps) && k < |run| && run[k].client.Returned?
    ensures run[k].client.outcome.NoError? ==> run[k].removal.Destroyed? && run[k].removal.complete
    ensures !run[k].client.outcome.FailedBeforeAck? ==>
              run[k].streamed.Some? && Secured(s, run[k].img, run[k].streamed.value.tree)
  {
    RunKeeps(s, run, steps, k);
  }

  lemma ReplyStep(s: Site, w: World, step: Step, w': World)
    requires AgentInv(w) && Took(s, w, step, w')
    ensures !step.Answer? ==> w'.reply == w.reply
    ensures step.Answer? ==> && w'.removal.Destroyed? && w'.removal.complete
                             && var t := w'.removal.what.tree;
                                w'.reply == Some(Reply(true, Digest(StreamOf(t)), TreeBytes(t), TreeItems(t)))
  {
    if step.Answer? {
      TreeDescribed(s.relative, w.removal.what.tree);
    }
  }

  /** The agent's answer is sent once everything is removed, and gives the figures of what was. */
  lemma {:induction false} ReplyTrue(s: Site, run: seq<World>, steps: seq<Step>, k: nat)
    requires IsRun(s, run, steps) && k < |run| && run[k].reply.Some?
    ensures run[k].removal.Destroyed? && run[k].removal.complete
    ensures var t := run[k].removal.what.tree;
            run[k].reply.value == Reply(true, Digest(StreamOf(t)), TreeBytes(t), TreeItems(t))
  {
    RunKeeps(s, run, steps, k);
    if k > 0 {
      RunKeeps(s, run, steps, k - 1);
      ReplyStep(s, run[k - 1], steps[k - 1], run[k]);
      if !steps[k - 1].Answer? {
        ReplyTrue(s, run, steps, k - 1);
        RemovalStands(s, run, steps, k - 1, k);
      }
    }
  }

  lemma {:induction false} ReturnStands(s: Site, run: seq<World>, steps: seq<Step>, k: nat, j: nat)
    requires IsRun(s, run, steps) && k <= j < |run| && run[k].client.Returned?
    ensures run[j].client == run[k].client
  {
    if k < j {
      ReturnStands(s, run, steps, k, j - 1);
      assert Took(s, run[j - 1], steps[j - 1], run[j]);
    }
  }

  /** A client that fails before or in the acknowledgement: the agent has removed nothing and never will. */
  lemma {:induction false} FailureKeepsSource(s: Site, run: seq<World>, steps: seq<Step>, k: nat, j: nat)
    requires IsRun(s, run, steps) && k < |run| && j < |run|
    requires run[k].client == Returned(FailedBeforeAck) || run[k].client == Returned(Preserved)
    ensures run[j].removal.Untouched?
  {
    if k <= j {
      ReturnStands(s, run, steps, k, j);
      RunKeeps(s, run, steps, j);
    } else {
      RunKeeps(s, run, steps, k);
      if run[j].removal.Destroyed? {
        RemovalStands(s, run, steps, j, k);
      }
    }
  }

  lemma {:induction false} RemovalStands(s: Site, run: seq<World>, steps: seq<Step>, k: nat, j: nat)
    requires IsRun(s, run, steps) && k <= j < |run| && run[k].removal.Destroyed?
    ensures run[j].removal == run[k].removal
  {
    if k < j {
      RemovalStands(s, run, steps, k, j - 1);
      RunKeeps(s, run, steps, j - 1);
      assert Took(s, run[j - 1], steps[j - 1], run[j]);
    }
  }

  /** A root link whose mode the receiving machine cannot give is never removed: its copy is refused. */
  lemma {:induction false} ForeignLinkNeverRemoved(s: Site, run: seq<World>, steps: seq<Step>, k: nat)
    requires IsRun(s, run, steps) && k < |run| && run[k].streamed.Some?
    requires run[k].streamed.value.tree.Symlink? && run[k].streamed.value.tree.mode != s.linkMode
    ensures run[k].removal.Untouched? && Content(run[k].ack).None?
  {
    RunKeeps(s, run, steps, k);
  }

  /** What is removed outlives every later power loss on the client exactly when the recovery root
      was itself a durable directory before the exchange: nothing in it settles the root's own name. */
  lemma {:induction false} SurvivesPowerLoss(s: Site, run: seq<World>, steps: seq<Step>, k: nat)
    requires IsRun(s, run, steps) && k < |run| && run[k].removal.Destroyed?
    ensures (forall j | MayLeave(run[k].img, j) ::
               Shows(j, s.root + [s.archive, "local-winner"] + s.relative,
                     Some(Localize(run[k].removal.what.tree, s.linkMode)))) <==>
            (forall n | 0 < n <= |s.root| :: KeptDir(s.start, s.root[..n]))
  {
    RunKeeps(s, run, steps, k);
    assert Base(s) == s.root + [s.archive, "local-winner"] + s.relative;
    SurvivesIff(run[k].img, s.root, Dest(s), Localize(run[k].removal.what.tree, s.linkMode));
  }

  /** Then the record outlives it too: the catalog read after the power loss describes the removed tree. */
  lemma {:induction false} RecordSurvives(s: Site, run: seq<World>, steps: seq<Step>, k: nat, j: Image)
    requires IsRun(s, run, steps) && k < |run| && run[k].removal.Destroyed? && MayLeave(run[k].img, j)
    requires Faithful(s.codec) && forall n | 0 < n <= |s.root| :: KeptDir(s.start, s.root[..n])
    ensures ListsTree(s.codec, j, s.root, s.archive, LocalWins, s.relative, run[k].removal.what.tree)
  {
    RunKeeps(s, run, steps, k);
    var i, base := run[k].img, Base(s);
    var there := s.root + [s.archive];
    forall n | 0 < n <= |there| ensures KeptDir(i, there[..n]) {
      assert there[..n] == base[..n] && (n <= |s.root| ==> s.root[..n] == base[..n]);
    }
    var t := run[k].removal.what.tree;
    RecordKept(s.codec, i, j, s.root, s.archive, LocalWins, RecordOf(s.relative, SummaryOf(t)));
    ListedIsDescribed(s.codec, j, s.root, s.archive, LocalWins, s.relative, t);
  }
}
