/** The code of both sides of the exchange, one method a stage; every stage is a step of Exchange. */
module ExchangeSession {
  import opened Common
  import opened Disk
  import opened Directories
  import opened FileTree
  import opened ArchiveStream
  import opened TextNames
  import opened Extract
  import opened RoundTrip
  import opened AtomicFile
  import opened RecoveryCatalog
  import opened Exchange

  class Session {
    const disk: Volume
    const codec: Codec
    const root: Path
    const archive: Name
    const relative: Path
    ghost const start: Image

    var source: Option<Source>
    var sent: Stream
    var agent: Agent
    var client: Client
    var ack: Pipe
    var reply: Option<Reply>
    ghost var streamed: Option<Source>
    ghost var removal: Removal

    constructor (disk: Volume, codec: Codec, root: Path, archive: Name, relative: Path, source: Option<Source>)
      requires disk.Valid()
      ensures this.disk == disk && this.codec == codec && this.root == root && this.archive == archive
      ensures this.relative == relative && start == disk.img && this.source == source
      ensures Initial(Place(), View())
    {
      this.disk, this.codec, this.root, this.archive, this.relative := disk, codec, root, archive, relative;
      start := disk.img;
      this.source, sent, agent, client := source, Stream([], false, ""), Streaming, Extracting;
      ack, reply, streamed, removal := Empty, None, None, Untouched;
    }

    ghost function View(): World
      reads this, disk
    {
      World(source, streamed, sent, agent, client, ack, reply, removal, disk.img)
    }

    ghost function Place(): Site {
      Site(codec, root, archive, relative, disk.linkMode, start)
    }

    // -------------------------------------------------------------- the agent

    /** `observed` is what the walk reads; others may change the tree while it does. */
    method AgentStream(observed: Option<Source>, calm: bool) returns (ghost step: Step)
      requires agent.Streaming?
      modifies this
      ensures Took(Place(), old(View()), step, View())
      ensures calm && observed.Some? && WithinLimits(observed.value.tree) ==> step == Send(observed.value)
    {
      if observed.None? {
        sent, agent := Stream([], false, ""), Exited(false);
        return SendFail(sent);
      }
      var summary;
      sent, summary := WriteArchive(observed.value.tree, calm);
      if summary.Err? {
        agent := Exited(false);
        return SendFail(sent);
      }
      streamed := observed;
      agent := AwaitingAck(summary.value, observed.value.id);
      step := Send(observed.value);
    }

    /** Reads standard input to its end; the connection may have lost what was written. */
    method AgentReadAck(lost: bool) returns (ghost step: Step)
      requires agent.AwaitingAck?
      modifies this
      ensures Took(Place(), old(View()), step, View())
      ensures lost ==> agent == Exited(false)
      ensures !lost ==> step == ReadAck(old(Content(ack)))
    {
      var read := if lost then None else Content(ack);
      if read.None? || !read.value.commit || read.value.digest != agent.own.digest {
        agent := Exited(false);
      } else {
        agent := Verifying(agent.own, agent.seen);
      }
      step := ReadAck(read);
    }

    /** Hashes the tree again and removes it; a failed removal may leave part of it. */
    method AgentVerifyAndRemove(calm: bool) returns (ghost step: Step)
      requires agent.Verifying?
      modifies this
      ensures Took(Place(), old(View()), step, View())
      ensures calm && Verified(old(View())) ==> step == Remove
    {
      if source.None? {
        agent := Exited(false);
        return Refuse;
      }
      var stream, current := WriteArchive(source.value.tree, calm);
      if current.Err? || current.value.digest != agent.own.digest || source.value.id != agent.seen {
        agent := Exited(false);
        return Refuse;
      }
      var fault: bool := *;
      removal := Destroyed(source.value, true);
      if fault && !calm {
        source := *;
        removal := Destroyed(removal.what, source.None?);
        agent := Exited(false);
        return RemoveFail(source);
      }
      source, agent := None, Replying(agent.own);
      step := Remove;
    }

    method AgentAnswer() returns (ghost step: Step)
      requires agent.Replying?
      modifies this
      ensures Took(Place(), old(View()), step, View())
      ensures agent == Exited(true) && reply.Some? && step.Answer?
    {
      reply := Some(Reply(true, agent.own.digest, agent.own.size, agent.own.items));
      agent := Exited(true);
      step := Answer;
    }

    // -------------------------------------------------------------- the client

    method ClientExtract(got: Stream, calm: bool) returns (ghost step: Step)
      requires client.Extracting? && disk.Valid() && Delivered(sent, got)
      modifies this, disk
      ensures disk.Valid()
      ensures Took(Place(), old(View()), step, View())
      ensures var base := root + BackupId(archive, LocalWins, relative);
              (calm && Acceptable(got) && ValidRelative(relative) && GoodPath([archive])
               && Now(old(disk.img), base).None? && Openable(old(disk.img), Parent(base))) ==> step.Rebuild?
      ensures step.Rebuild? ==> client.Recording?
      ensures OnlyParents(old(disk.img), disk.img, root + BackupId(archive, LocalWins, relative))
    {
      if !ValidRelative(relative) {
        ack, client := Shut(Content(ack)), Returned(FailedBeforeAck);
        return RebuildFail(disk.img);
      }
      assert forall n | n in BackupId(archive, LocalWins, relative) ::
          n == archive || n == WinnerDirectory(LocalWins) || n in relative;
      var r, cleaned := ExtractArchive(disk, got, root, BackupId(archive, LocalWins, relative), calm);
      if r.Err? {
        ack, client := Shut(Content(ack)), Returned(FailedBeforeAck);
        return RebuildFail(disk.img);
      }
      client := Recording(r.value);
      step := Rebuild(got, r.value, disk.img);
    }

    /** `copy` is what the volume holds at the copy's name. */
    method ClientRecord(copy: Option<Tree>, temporary: Name, calm: bool) returns (ghost step: Step)
      requires client.Recording? && disk.Valid() && TEMPORARY <= temporary
      requires Shows(disk.img, root + BackupId(archive, LocalWins, relative), copy)
      modifies this, disk
      ensures disk.Valid()
      ensures Took(Place(), old(View()), step, View())
      ensures step.Record? || step.RecordFail?
      ensures step.Record? ==> client == Acknowledging(old(client.summary))
                               && Recorded(Place(), old(disk.img), disk.img, step.copy, old(client.summary), step.manifest,
                                           step.mode, step.temporary)
      ensures var now := Current(codec, old(disk.img), root, archive, LocalWins);
              step.Record? ==> step.temporary == temporary && now.Some?
                               && step.manifest == With(now.value, relative, old(client.summary))
      ensures source == old(source) && agent == old(agent)
      ensures var now := Current(codec, old(disk.img), root, archive, LocalWins);
              (calm && Standing(old(disk.img), root + [archive]) && Now(old(disk.img), root + [archive, temporary]).None?
               && ValidRelative(relative) && copy.Some? && old(client.summary).mode <= 0x1ff
               && SummaryAccepted(copy.value, old(client.summary)) && now.Some? && !HasPath(now.value, relative)
               && |codec.encode(With(now.value, relative, old(client.summary)))| <= MAX_MANIFEST) ==> step.Record?
    {
      ghost var before := disk.img;
      var r, mode := RecordSummary(disk, codec, root, archive, LocalWins, relative, copy, client.summary, temporary, calm);
      if r.Err? {
        ack, client := Shut(Content(ack)), Returned(FailedBeforeAck);
        return RecordFail(disk.img);
      }
      assert RecordOf(relative, client.summary) == r.value.records[|r.value.records| - 1];
      assert Recorded(Place(), before, disk.img, copy.value, client.summary, r.value, mode, temporary);
      step := Step.Record(copy.value, r.value, mode, temporary, disk.img);
      client := Acknowledging(client.summary);
    }

    /** One write of the acknowledgement: it arrives whole or it fails. */
    method ClientAcknowledge(calm: bool) returns (ghost step: Step)
      requires client.Acknowledging?
      modifies this
      ensures Took(Place(), old(View()), step, View())
      ensures calm ==> step.Acknowledge?
    {
      var fault: bool := *;
      if fault && !calm {
        ack, client := Shut(Content(ack)), Returned(Preserved);
        return AcknowledgeFail;
      }
      ack := Written(Ack(true, client.summary.digest));
      client := Closing(client.summary);
      step := Acknowledge;
    }

    method ClientClose(calm: bool) returns (ghost step: Step)
      requires client.Closing?
      modifies this
      ensures Took(Place(), old(View()), step, View())
      ensures calm ==> step.Close?
    {
      var fault: bool := *;
      ack := Shut(Content(ack));
      if fault && !calm {
        client := Returned(Uncertain);
        return CloseFail;
      }
      client := Awaiting(client.summary);
      step := Close;
    }

    /** Reads the answer and the agent's exit status. */
    method ClientAwait(lost: bool) returns (ghost step: Step)
      requires client.Awaiting?
      modifies this
      ensures Took(Place(), old(View()), step, View())
      ensures !lost ==> step == ReadReply(old(reply))
      ensures client == Returned(NoError) <==>
                && !lost && agent == Exited(true)
                && reply == Some(Reply(true, old(client.summary.digest), old(client.summary.size), old(client.summary.items)))
      ensures client == Returned(NoError) || client == Returned(Uncertain)
    {
      var answer := if lost then None else reply;
      var own := client.summary;
      if agent == Exited(true) && answer.Some? && ReplyMatches(answer.value, own) {
        client := Returned(NoError);
      } else {
        client := Returned(Uncertain);
      }
      step := ReadReply(answer);
    }
  }

  /** One move: what is moved, where its copy goes, and the name its record is written under at first. */
  datatype Move = Move(relative: Path, source: Source, copy: Tree, temporary: Name)

  function BaseOf(root: Path, archive: Name, m: Move): Path {
    root + BackupId(archive, LocalWins, m.relative)
  }

  /** What the call needs: valid names, a tree within the limits, a free destination, room in the manifest. */
  ghost predicate Possible(i: Image, linkMode: nat, codec: Codec, root: Path, archive: Name, m: Move) {
    var now := Current(codec, i, root, archive, LocalWins);
    && ValidRelative(m.relative) && GoodPath([archive]) && TEMPORARY <= m.temporary
    && WithinLimits(m.source.tree) && WellNamed(m.source.tree)
    && (m.source.tree.Symlink? ==> m.source.tree.mode == linkMode) && m.copy == Localize(m.source.tree, linkMode)
    && Openable(i, Parent(BaseOf(root, archive, m))) && Now(i, BaseOf(root, archive, m)).None?
    && Now(i, root + [archive, m.temporary]).None?
    && now.Some? && !HasPath(now.value, m.relative)
    && |codec.encode(With(now.value, m.relative, SummaryOf(m.source.tree)))| <= MAX_MANIFEST
  }

  /** Everything but the copy, the manifest and its temporary name is as durable as it was, and stands as
      it was, but that the way to the copy was made. */
  ghost predicate Beside(i: Image, j: Image, root: Path, archive: Name, m: Move) {
    forall p | !(BaseOf(root, archive, m) <= p) && p != ManifestPath(root, archive) && !(root + [archive, m.temporary] <= p)
               && (Now(i, p).Some? || !(p <= BaseOf(root, archive, m))) :: Firmer(At(i, p), At(j, p))
  }

  /** The run nobody disturbs: it moves the tree to the client, and the client returns no error. */
  method Undisturbed(disk: Volume, codec: Codec, root: Path, archive: Name, m: Move) returns (session: Session)
    requires disk.Valid() && Possible(disk.img, disk.linkMode, codec, root, archive, m)
    modifies disk
    ensures fresh(session) && disk.Valid()
    ensures session.client == Returned(NoError) && session.source.None?
    ensures session.removal == Destroyed(m.source, true) && Secured(session.Place(), disk.img, m.source.tree)
    ensures session.disk == disk && session.codec == codec && session.root == root && session.archive == archive
    ensures session.relative == m.relative && Beside(old(disk.img), disk.img, root, archive, m)
    ensures Faithful(codec) ==>
              Current(codec, disk.img, root, archive, LocalWins) ==
              Some(With(Current(codec, old(disk.img), root, archive, LocalWins).value, m.relative, SummaryOf(m.source.tree)))
  {
    session := new Session(disk, codec, root, archive, m.relative, Some(m.source));
    Deliver(session, m);
    Commit(session);
  }

  /** Everything up to the acknowledgement. */
  method Deliver(session: Session, m: Move)
    requires session.disk.Valid() && Initial(session.Place(), session.View())
    requires session.source == Some(m.source) && session.relative == m.relative
    requires Possible(session.disk.img, session.disk.linkMode, session.codec, session.root, session.archive, m)
    modifies session, session.disk
    ensures session.disk.Valid() && Secured(session.Place(), session.disk.img, m.source.tree)
    ensures session.source == old(session.source) && session.client == Acknowledging(SummaryOf(m.source.tree))
    ensures session.agent == AwaitingAck(SummaryOf(m.source.tree), m.source.id)
    ensures Beside(old(session.disk.img), session.disk.img, session.root, session.archive, m)
    ensures Faithful(session.codec) ==>
              Current(session.codec, session.disk.img, session.root, session.archive, LocalWins) ==
              Some(With(Current(session.codec, old(session.disk.img), session.root, session.archive, LocalWins).value,
                        m.relative, SummaryOf(m.source.tree)))
  {
    ghost var i0 := session.disk.img;
    Transfer(session);
    ghost var i1 := session.disk.img;
    assert Stored(session.Place(), i1, m.source.tree);
    ManifestUntouched(session.start, i1, session.root, session.archive, m.relative, m.temporary);
    assert Current(session.codec, i1, session.root, session.archive, LocalWins) ==
           Current(session.codec, i0, session.root, session.archive, LocalWins);
    ReadyToRecord(session.Place(), i1, m.source.tree);
    Catalog(session, m.copy, m.temporary);
    BesideBoth(i0, i1, session.disk.img, session.root, session.archive, m);
  }

  lemma BesideBoth(i0: Image, i1: Image, i2: Image, root: Path, archive: Name, m: Move)
    requires BesideFirmer(i0, i1, BaseOf(root, archive, m))
    requires FirmerBut(i1, i2, ManifestPath(root, archive), root + [archive, m.temporary])
    ensures Beside(i0, i2, root, archive, m)
  {
    forall p | !(BaseOf(root, archive, m) <= p) && p != ManifestPath(root, archive) && !(root + [archive, m.temporary] <= p)
               && (Now(i0, p).Some? || !(p <= BaseOf(root, archive, m)))
      ensures Firmer(At(i0, p), At(i2, p))
    {
      assert Firmer(At(i0, p), At(i1, p)) && Firmer(At(i1, p), At(i2, p));
    }
  }

  /** Two moves into one archive, one after the other: both sources are gone, both copies stand durably,
      and the catalog lists both.  The second move leaves the first copy and its record as they are. */
  method MoveBoth(disk: Volume, codec: Codec, root: Path, archive: Name, a: Move, b: Move)
      returns (first: Session, second: Session)
    requires disk.Valid() && Faithful(codec)
    requires Possible(disk.img, disk.linkMode, codec, root, archive, a)
    requires Possible(disk.img, disk.linkMode, codec, root, archive, b)
    requires !(a.relative <= b.relative) && !(b.relative <= a.relative) && a.temporary != b.temporary
    requires var now := Current(codec, disk.img, root, archive, LocalWins).value;
             var next := With(now, a.relative, SummaryOf(a.source.tree));
             |codec.encode(With(next, b.relative, SummaryOf(b.source.tree)))| <= MAX_MANIFEST
    modifies disk
    ensures disk.Valid() && first.removal == Destroyed(a.source, true) && second.removal == Destroyed(b.source, true)
    ensures Holds(disk.img, BaseOf(root, archive, a), a.copy) && Holds(disk.img, BaseOf(root, archive, b), b.copy)
    ensures ListsTree(codec, disk.img, root, archive, LocalWins, a.relative, a.source.tree)
    ensures ListsTree(codec, disk.img, root, archive, LocalWins, b.relative, b.source.tree)
  {
    ghost var i0 := disk.img;
    first := Undisturbed(disk, codec, root, archive, a);
    ghost var i1 := disk.img;
    assert Base(first.Place()) == BaseOf(root, archive, a);
    StillPossible(i0, i1, disk.linkMode, codec, root, archive, a, b);
    second := Undisturbed(disk, codec, root, archive, b);
    assert Base(second.Place()) == BaseOf(root, archive, b);
    CopyBeside(i1, disk.img, root, archive, a, b);
    ghost var now := Current(codec, i0, root, archive, LocalWins).value;
    BothListed(now, a.relative, SummaryOf(a.source.tree), b.relative, SummaryOf(b.source.tree));
    ListedIsDescribed(codec, disk.img, root, archive, LocalWins, a.relative, a.source.tree);
    ListedIsDescribed(codec, disk.img, root, archive, LocalWins, b.relative, b.source.tree);
  }

  lemma BothListed(m: Manifest, p: Path, s: Summary, q: Path, t: Summary)
    ensures RecordOf(p, s) in With(With(m, p, s), q, t).records && RecordOf(q, t) in With(With(m, p, s), q, t).records
  {
    var all := With(With(m, p, s), q, t).records;
    assert all[|all| - 1] == RecordOf(q, t) && all[|all| - 2] == RecordOf(p, s);
  }

  /** The two destinations lie apart. */
  lemma Separate(root: Path, archive: Name, a: Move, b: Move, q: Path)
    requires !(a.relative <= b.relative) && !(b.relative <= a.relative) && TEMPORARY <= b.temporary
    ensures var p := BaseOf(root, archive, a) + q;
            !(BaseOf(root, archive, b) <= p) && !(p <= BaseOf(root, archive, b))
            && p != ManifestPath(root, archive) && !(root + [archive, b.temporary] <= p)
  {
    var base, p, n := BaseOf(root, archive, b), BaseOf(root, archive, a) + q, |root| + 2;
    ManifestNames(root, archive, b.temporary);
    assert root + [archive, b.temporary] == Parent(ManifestPath(root, archive)) + [b.temporary];
    assert base[n..] == b.relative && p[n..] == a.relative + q;
  }

  lemma CopyBeside(i: Image, j: Image, root: Path, archive: Name, a: Move, b: Move)
    requires Holds(i, BaseOf(root, archive, a), a.copy) && Beside(i, j, root, archive, b)
    requires !(a.relative <= b.relative) && !(b.relative <= a.relative) && TEMPORARY <= b.temporary
    ensures Holds(j, BaseOf(root, archive, a), a.copy)
  {
    var base := BaseOf(root, archive, a);
    forall q ensures Firmer(At(i, base + q), At(j, base + q)) {
      Separate(root, archive, a, b, q);
    }
    forall q | Lookup(a.copy, q).Some? ensures Durable(j, base + q, Lookup(a.copy, q).value) {
      assert Durable(i, base + q, Lookup(a.copy, q).value);
    }
  }

  lemma StillPossible(i: Image, j: Image, lm: nat, codec: Codec, root: Path, archive: Name, a: Move, b: Move)
    requires Possible(i, lm, codec, root, archive, a) && Possible(i, lm, codec, root, archive, b)
    requires Beside(i, j, root, archive, a) && a.temporary != b.temporary
    requires forall n | 0 <= n < |BaseOf(root, archive, a)| :: IsDir(j, BaseOf(root, archive, a)[..n])
    requires !(a.relative <= b.relative) && !(b.relative <= a.relative)
    requires var now := Current(codec, i, root, archive, LocalWins).value;
             var next := With(now, a.relative, SummaryOf(a.source.tree));
             Current(codec, j, root, archive, LocalWins) == Some(next)
             && |codec.encode(With(next, b.relative, SummaryOf(b.source.tree)))| <= MAX_MANIFEST
    ensures Possible(j, lm, codec, root, archive, b)
  {
    var base := BaseOf(root, archive, b);
    Separate(root, archive, b, a, []);
    assert base + [] == base;
    assert Firmer(At(i, base), At(j, base));
    TemporaryApart(root, archive, a, b);
    assert Firmer(At(i, root + [archive, b.temporary]), At(j, root + [archive, b.temporary]));
    forall n | 0 < n <= |Parent(base)| ensures Now(j, Parent(base)[..n]).None? || IsDir(j, Parent(base)[..n]) {
      WayApart(i, j, root, archive, a, b, n);
    }
    var now := Current(codec, i, root, archive, LocalWins).value;
    var next := With(now, a.relative, SummaryOf(a.source.tree));
    assert !HasPath(next, b.relative) by {
      forall k | 0 <= k < |next.records| ensures next.records[k].path != b.relative {
        if k < |now.records| {
          assert next.records[k] == now.records[k];
        }
      }
    }
  }

  lemma TemporaryApart(root: Path, archive: Name, a: Move, b: Move)
    requires TEMPORARY <= a.temporary && TEMPORARY <= b.temporary && a.temporary != b.temporary
    ensures var p := root + [archive, b.temporary];
            && !(BaseOf(root, archive, a) <= p) && !(p <= BaseOf(root, archive, a)) && p != ManifestPath(root, archive)
            && !(root + [archive, a.temporary] <= p)
  {
    var p := root + [archive, b.temporary];
    assert p[|root| + 1] == b.temporary && b.temporary[0] == '.';
    assert BaseOf(root, archive, a)[|root| + 1] == "local-winner" && ManifestPath(root, archive)[|root| + 1] == MANIFEST;
    assert (root + [archive, a.temporary])[|root| + 1] == a.temporary;
  }

  /** The way to the second copy is as it was, or the first move made it. */
  lemma WayApart(i: Image, j: Image, root: Path, archive: Name, a: Move, b: Move, n: nat)
    requires Beside(i, j, root, archive, a) && TEMPORARY <= a.temporary && !(a.relative <= b.relative)
    requires b.relative != [] && Openable(i, Parent(BaseOf(root, archive, b))) && 0 < n <= |Parent(BaseOf(root, archive, b))|
    requires forall k | 0 <= k < |BaseOf(root, archive, a)| :: IsDir(j, BaseOf(root, archive, a)[..k])
    ensures var p := Parent(BaseOf(root, archive, b))[..n]; Now(j, p).None? || IsDir(j, p)
  {
    var own, base := BaseOf(root, archive, a), BaseOf(root, archive, b);
    var p := Parent(base)[..n];
    assert p == base[..n];
    assert base[|root| + 2..] == b.relative && own[|root| + 2..] == a.relative;
    assert !(own <= p);
    WayNames(root, archive, LocalWins, b.relative, a.temporary, n);
    if p <= own {
      assert p == own[..n];
    } else {
      assert Firmer(At(i, p), At(j, p));
    }
  }

  /** Stream and extraction. */
  method Transfer(session: Session)
    requires Initial(session.Place(), session.View()) && session.disk.Valid()
    requires session.source.Some? && WithinLimits(session.source.value.tree) && WellNamed(session.source.value.tree)
    requires ValidRelative(session.relative) && GoodPath([session.archive])
    requires var base := session.root + BackupId(session.archive, LocalWins, session.relative);
             Openable(session.disk.img, Parent(base)) && Now(session.disk.img, base).None?
    modifies session, session.disk
    ensures session.disk.Valid()
    ensures AgentInv(session.View()) && ClientInv(session.Place(), session.View())
    ensures session.client.Recording? && session.agent.AwaitingAck?
    ensures session.source == old(session.source) && session.streamed == session.source
    ensures OnlyParents(old(session.disk.img), session.disk.img,
                        session.root + BackupId(session.archive, LocalWins, session.relative))
    ensures BesideFirmer(old(session.disk.img), session.disk.img,
                         session.root + BackupId(session.archive, LocalWins, session.relative))
  {
    ghost var w := session.View();
    ghost var step := session.AgentStream(session.source, true);
    StepKeeps(session.Place(), w, step, session.View());
    w := session.View();
    EmittedAccepted(session.source.value.tree);
    step := session.ClientExtract(session.sent, true);
    StepKeeps(session.Place(), w, step, session.View());
  }

  method Catalog(session: Session, copy: Tree, temporary: Name)
    requires session.disk.Valid() && session.source.Some? && Stored(session.Place(), session.disk.img, session.source.value.tree)
    requires session.client == Recording(SummaryOf(session.source.value.tree))
    requires ValidRelative(session.relative) && TEMPORARY <= temporary
    requires var t := session.source.value.tree;
             WithinLimits(t) && WellNamed(t) && copy == Localize(t, session.disk.linkMode)
             && (t.Symlink? ==> t.mode == session.disk.linkMode)
    requires Standing(session.disk.img, session.root + [session.archive])
    requires Now(session.disk.img, session.root + [session.archive, temporary]).None?
    requires Shows(session.disk.img, session.root + BackupId(session.archive, LocalWins, session.relative), Some(copy))
    requires var now := Current(session.codec, session.disk.img, session.root, session.archive, LocalWins);
             now.Some? && !HasPath(now.value, session.relative)
             && |session.codec.encode(With(now.value, session.relative, SummaryOf(session.source.value.tree)))| <= MAX_MANIFEST
    modifies session, session.disk
    ensures session.disk.Valid()
    ensures session.source == old(session.source) && session.agent == old(session.agent)
    ensures session.client == Acknowledging(SummaryOf(session.source.value.tree))
    ensures Secured(session.Place(), session.disk.img, session.source.value.tree)
    ensures FirmerBut(old(session.disk.img), session.disk.img, ManifestPath(session.root, session.archive),
                      session.root + [session.archive, temporary])
    ensures Faithful(session.codec) ==>
              Current(session.codec, session.disk.img, session.root, session.archive, LocalWins) ==
              Some(With(Current(session.codec, old(session.disk.img), session.root, session.archive, LocalWins).value,
                        session.relative, SummaryOf(session.source.value.tree)))
  {
    ghost var t, before := session.source.value.tree, session.disk.img;
    CatalogAccepts(t, session.disk.linkMode);
    TopMode(t);
    ghost var step := session.ClientRecord(Some(copy), temporary, true);
    RecordKeeps(session.Place(), before, session.disk.img, t, step.copy, step.manifest, step.mode, step.temporary);
    if Faithful(session.codec) {
      ReadsBack(session.codec, session.disk.img, session.root, session.archive, LocalWins, step.manifest, step.mode);
    }
  }

  /** Acknowledgement, removal and answer. */
  method Commit(session: Session)
    requires session.source.Some? && WithinLimits(session.source.value.tree)
    requires session.client == Acknowledging(SummaryOf(session.source.value.tree))
    requires session.agent == AwaitingAck(SummaryOf(session.source.value.tree), session.source.value.id)
    modifies session
    ensures session.client == Returned(NoError) && session.source.None?
    ensures session.removal == Destroyed(old(session.source.value), true)
    ensures session.disk.img == old(session.disk.img)
  {
    AcknowledgeCopy(session);
    ghost var step := session.AgentVerifyAndRemove(true);
    step := session.AgentAnswer();
    step := session.ClientAwait(false);
  }

  method AcknowledgeCopy(session: Session)
    requires session.client.Acknowledging? && session.agent.AwaitingAck?
    requires session.agent.own.digest == session.client.summary.digest
    modifies session
    ensures session.client == Awaiting(old(session.client.summary))
    ensures session.agent == Verifying(old(session.agent.own), old(session.agent.seen))
    ensures session.source == old(session.source)
  {
    ghost var step := session.ClientAcknowledge(true);
    step := session.ClientClose(true);
    step := session.AgentReadAck(false);
  }

  lemma ManifestUntouched(i: Image, j: Image, root: Path, archive: Name, relative: Path, temporary: Name)
    requires TEMPORARY <= temporary && OnlyParents(i, j, root + BackupId(archive, LocalWins, relative))
    ensures Now(j, ManifestPath(root, archive)) == Now(i, ManifestPath(root, archive))
    ensures Now(j, root + [archive, temporary]) == Now(i, root + [archive, temporary])
  {
    var base := root + BackupId(archive, LocalWins, relative);
    assert temporary[0] == '.' && base[|root| + 1] == "local-winner";
    assert (root + [archive, temporary])[|root| + 1] == temporary && ManifestPath(root, archive)[|root| + 1] == MANIFEST;
  }

  lemma ReadyToRecord(s: Site, i: Image, t: Tree)
    requires Stored(s, i, t) && s.relative != []
    ensures Standing(i, s.root + [s.archive])
    ensures Shows(i, Base(s), Some(Localize(t, s.linkMode)))
  {
    forall n | 0 <= n <= |s.root + [s.archive]| ensures IsDir(i, (s.root + [s.archive])[..n]) {
      assert (s.root + [s.archive])[..n] == Base(s)[..n];
    }
  }

  lemma TopMode(t: Tree)
    requires WellNamed(t)
    ensures SummaryOf(t).mode <= 0x1ff
  {
    assert Walk([], t)[0] == Entry([], Head(t));
  }
}
