/** Progress of the upload protocol: a complete upload is assembled, calls end, and a run in which
    nothing fails leaves the file in the store. */
module Completion {
  import opened Chunking
  import opened Keys
  import opened Protocol
  import opened World
  import opened Safety

  // ---------- the invariant ----------

  /** Until a key expires or a call sweeps, the session is there and every marked bit is set. */
  ghost predicate Undisturbed(w: World, id: string) {
    id in w.uploads && id !in w.lapsed && !Swept(w, id)
  }

  ghost predicate KeysPresent(w: World, id: string) {
    && MetaKey(id) in w.mem.redis && BitmapKey(id) in w.mem.redis
    && forall i: nat :: MarkedBy(w, id, i) ==> i in BitsOf(w.mem.redis, id)
  }

  ghost predicate BitsComplete(w: World) {
    forall id :: Undisturbed(w, id) ==> KeysPresent(w, id)
  }

  /** The call has yet to count, saw the full count, or was stopped by a failure. */
  predicate Answers(c: Call, id: string) {
    c.id == id && ((c.stage == Marked && c.outcome == Running) || c.stage.Rank() >= 4 || c.outcome == Internal)
  }

  ghost predicate SomeAnswers(w: World, id: string) {
    exists k :: 0 <= k < |w.calls| && Answers(w.calls[k], id)
  }

  /** When every chunk is marked, some call is responsible for noticing it. */
  ghost predicate Noticed(w: World) {
    forall id :: id in w.uploads && FullyMarked(w, id) ==> SomeAnswers(w, id)
  }

  ghost predicate FullyMarked(w: World, id: string)
    requires id in w.uploads
  {
    id !in w.lapsed && w.uploads[id].session.Total() > 0 && AllMarked(w, id, w.uploads[id].session.Total())
  }

  ghost predicate OneBucket(w: World, id: string, bucket: string) {
    forall k :: 0 <= k < |w.calls| && w.calls[k].id == id ==> w.calls[k].bucket == bucket
  }

  ghost predicate PartDeleted(w: World, bucket: string, id: string) {
    exists i: nat :: (id, PartName(bucket, id, i)) in w.deleted
  }

  /** Without faults and expiry a well-formed call fails only after another has put the file. */
  ghost predicate FailsLate(w: World, c: Call) {
    c.id in w.uploads && c.id !in w.faulty && c.id !in w.lapsed && c.bucket != ""
    && c.seqNo < w.uploads[c.id].session.Total() ==>
      && c.outcome != InvalidArgument
      && (c.outcome == NotFound ==> Swept(w, c.id))
      && (c.outcome == Internal && OneBucket(w, c.id, c.bucket) ==> Swept(w, c.id) || PartDeleted(w, c.bucket, c.id))
  }

  ghost predicate AllFailLate(w: World) {
    forall k :: 0 <= k < |w.calls| ==> FailsLate(w, w.calls[k])
  }

  /** Keys are dropped only after their time to live. */
  ghost predicate LapsesLate(w: World) {
    forall id :: id in w.lapsed ==> id in w.uploads && w.clock >= w.uploads[id].expiry
  }

  ghost predicate Live(w: World) {
    BitsComplete(w) && Noticed(w) && AllFailLate(w) && LapsesLate(w)
  }

  // ---------- every action keeps it ----------

  /** A chunk is newly marked only by the call whose step set its bit. */
  lemma MarkedFrom(w: World, a: Action, id: string, i: nat)
    requires Enabled(w, a) && MarkedBy(Apply(w, a), id, i)
    ensures MarkedBy(w, id, i)
            || (a.Operate? && Apply(w, a).calls[a.k].stage == Marked && w.calls[a.k].id == id
                && w.calls[a.k].seqNo == i && w.calls[a.k].stage == Stored)
  {
    var w' := Apply(w, a);
    var k :| 0 <= k < |w'.calls| && w'.calls[k].id == id && w'.calls[k].seqNo == i && w'.calls[k].stage.Rank() >= 3;
    if a.Operate? && k == a.k {
      StageMoves(w.calls[k], w.mem, a.choice);
    }
  }

  lemma NewUploadUnmarked(w: World, a: Action, i: nat)
    requires Enabled(w, a) && a.Open?
    ensures !MarkedBy(Apply(w, a), a.id, i)
  {
  }

  lemma StepBitsComplete(w: World, a: Action)
    requires Safe(w) && BitsComplete(w) && Enabled(w, a)
    ensures BitsComplete(Apply(w, a))
  {
    var w' := Apply(w, a);
    StepGrows(w, a);
    GrowsKeeps(w, w');
    forall id | Undisturbed(w', id) ensures KeysPresent(w', id) {
      if a.Open? && a.id == id {
        forall i: nat ensures !MarkedBy(w', id, i) { NewUploadUnmarked(w, a, i); }
        SessionKeysInjective(id, id);
      } else {
        KeysStay(w, a, id);
      }
    }
  }

  lemma KeysStay(w: World, a: Action, id: string)
    requires Safe(w) && BitsComplete(w) && Enabled(w, a) && !(a.Open? && a.id == id)
    requires Undisturbed(Apply(w, a), id) && Undisturbed(w, id)
    ensures KeysPresent(Apply(w, a), id)
  {
    var w' := Apply(w, a);
    assert KeysPresent(w, id);
    KeysSurvive(w, a, id);
    forall i: nat | MarkedBy(w', id, i) ensures i in BitsOf(w'.mem.redis, id) {
      MarkedFrom(w, a, id, i);
    }
  }

  /** Short of an expiry or a sweep the session's keys stay, and bits are only added. */
  lemma KeysSurvive(w: World, a: Action, id: string)
    requires Enabled(w, a) && !(a.Open? && a.id == id)
    requires id !in Apply(w, a).lapsed && !Swept(w, id)
    requires MetaKey(id) in w.mem.redis && BitmapKey(id) in w.mem.redis
    ensures var w' := Apply(w, a);
      && MetaKey(id) in w'.mem.redis && BitmapKey(id) in w'.mem.redis
      && BitsOf(w.mem.redis, id) <= BitsOf(w'.mem.redis, id)
      && (a.Operate? && w.calls[a.k].id == id && w.calls[a.k].stage == Stored && w'.calls[a.k].stage == Marked ==>
            w.calls[a.k].seqNo in BitsOf(w'.mem.redis, id))
  {
    match a
    case Open(other, _, _, _, _) =>
      SessionKeysInjective(id, other);
      SessionKeysInjective(other, id);
    case Spawn(_, _, _, _) =>
    case Expire(other, _) =>
      SessionKeysInjective(id, other);
      SessionKeysInjective(other, id);
    case Delete(_) =>
    case Tick(_) =>
    case Operate(k, choice) =>
      var c := w.calls[k];
      SessionKeysInjective(id, c.id);
      SessionKeysInjective(c.id, id);
      OnlyRedisEffects(c, w.mem, choice);
      assert c.stage == Sweeping ==> c.id != id;
  }

  lemma StepNoticed(w: World, a: Action)
    requires Safe(w) && BitsComplete(w) && Noticed(w) && Enabled(w, a)
    ensures Noticed(Apply(w, a))
  {
    var w' := Apply(w, a);
    StepGrows(w, a);
    GrowsKeeps(w, w');
    if a.Open? { NewUploadUnmarked(w, a, 0); }
    forall id | id in w'.uploads && FullyMarked(w', id) ensures SomeAnswers(w', id) {
      assert MarkedBy(w', id, 0);
      if id in w.uploads && FullyMarked(w, id) {
        StillAnswers(w, a, id);
      } else if id in w.uploads {
        LastMarkAnswers(w, a, id);
      }
    }
  }

  /** The call that sets the last bit has yet to count. */
  lemma LastMarkAnswers(w: World, a: Action, id: string)
    requires Enabled(w, a) && id in w.uploads && !FullyMarked(w, id) && id in Apply(w, a).uploads && FullyMarked(Apply(w, a), id)
    ensures SomeAnswers(Apply(w, a), id)
  {
    var w' := Apply(w, a);
    StepGrows(w, a);
    var i: nat :| i < w.uploads[id].session.Total() && !MarkedBy(w, id, i);
    assert MarkedBy(w', id, i);
    MarkedFrom(w, a, id, i);
    StageMoves(w.calls[a.k], w.mem, a.choice);
    MarkingCallRuns(w, a);
    assert Answers(w'.calls[a.k], id);
  }

  lemma MarkingCallRuns(w: World, a: Action)
    requires Enabled(w, a) && a.Operate? && w.calls[a.k].stage == Stored
    ensures Apply(w, a).calls[a.k].outcome in {Running, Internal}
  {
    assert Next(w.calls[a.k], w.mem, a.choice) == MarkBit(w.calls[a.k], w.mem, a.choice);
  }

  lemma StillAnswers(w: World, a: Action, id: string)
    requires Safe(w) && BitsComplete(w) && Enabled(w, a)
    requires id in w.uploads && FullyMarked(w, id) && SomeAnswers(w, id)
    ensures SomeAnswers(Apply(w, a), id)
  {
    var w' := Apply(w, a);
    StepGrows(w, a);
    GrowsKeeps(w, w');
    var k :| 0 <= k < |w.calls| && Answers(w.calls[k], id);
    if Swept(w, id) {
      SweptAnswers(w', id);
    } else if w.calls[k].stage == Marked && a.Operate? && a.k == k {
      CountingCallAnswers(w, a);
    } else {
      AnswerKept(w, a, id, k);
    }
  }

  lemma SweptAnswers(w: World, id: string)
    requires Swept(w, id)
    ensures SomeAnswers(w, id)
  {
    var j :| 0 <= j < |w.calls| && w.calls[j].id == id && w.calls[j].stage == Sweeping;
    assert Answers(w.calls[j], id);
  }

  lemma AnswerKept(w: World, a: Action, id: string, k: nat)
    requires Enabled(w, a) && k < |w.calls| && Answers(w.calls[k], id)
    requires !(w.calls[k].stage == Marked && a.Operate? && a.k == k)
    ensures SomeAnswers(Apply(w, a), id)
  {
    StepGrows(w, a);
    CallUnchanged(w, a, k);
    assert Answers(Apply(w, a).calls[k], id);
  }

  lemma CallUnchanged(w: World, a: Action, k: nat)
    requires Enabled(w, a) && k < |w.calls|
    ensures Apply(w, a).calls[k] == w.calls[k] || (a.Operate? && a.k == k && w.calls[k].outcome == Running)
  {
  }

  lemma CountingCallAnswers(w: World, a: Action)
    requires Safe(w) && BitsComplete(w) && Enabled(w, a) && a.Operate? && w.calls[a.k].stage == Marked
    requires var id := w.calls[a.k].id; id in w.uploads && FullyMarked(w, id) && !Swept(w, id)
    ensures SomeAnswers(Apply(w, a), w.calls[a.k].id)
  {
    assert CallTrue(w, w.calls[a.k]);
    FullCountIsSeen(w, w.calls[a.k], a.choice);
    assert Answers(Apply(w, a).calls[a.k], w.calls[a.k].id);
  }

  lemma FullCountIsSeen(w: World, c: Call, f: Choice)
    requires Safe(w) && BitsComplete(w) && CallTrue(w, c) && c.stage == Marked && Undisturbed(w, c.id)
    requires AllMarked(w, c.id, c.session.Total())
    ensures CountBits(c, w.mem, f).stage == Assembling || CountBits(c, w.mem, f).outcome == Internal
  {
    assert KeysPresent(w, c.id);
    FullSetHasAll(BitsOf(w.mem.redis, c.id), c.session.Total());
  }

  lemma StepFailsLate(w: World, a: Action)
    requires Safe(w) && BitsComplete(w) && AllFailLate(w) && Enabled(w, a)
    ensures AllFailLate(Apply(w, a))
  {
    var w' := Apply(w, a);
    StepGrows(w, a);
    forall k | 0 <= k < |w'.calls| ensures FailsLate(w', w'.calls[k]) {
      if a.Operate? && a.k == k {
        if w'.calls[k].outcome != Running && a.choice == Proceed { EndedCallFailsLate(w, a); }
      } else if k < |w.calls| {
        assert FailsLate(w, w.calls[k]);
        FailsLateGrows(w, w', w.calls[k]);
      }
    }
  }

  lemma FailsLateGrows(w: World, w': World, c: Call)
    requires Grows(w, w') && FailsLate(w, c) && (c.id in w'.uploads ==> c.id in w.uploads)
    ensures FailsLate(w', c)
  {
    GrowsKeeps(w, w');
    if OneBucket(w', c.id, c.bucket) {
      forall k | 0 <= k < |w.calls| && w.calls[k].id == c.id ensures w.calls[k].bucket == c.bucket {
        assert w'.calls[k].id == c.id;
      }
    }
  }

  lemma EndedCallFailsLate(w: World, a: Action)
    requires Safe(w) && BitsComplete(w) && Enabled(w, a) && a.Operate? && a.choice == Proceed
    requires Apply(w, a).calls[a.k].outcome != Running
    ensures FailsLate(Apply(w, a), Apply(w, a).calls[a.k])
  {
    var w', c := Apply(w, a), w.calls[a.k];
    StepGrows(w, a);
    GrowsKeeps(w, w');
    assert CallTrue(w, c);
    if c.id in w.uploads && c.id !in w.lapsed && c.bucket != "" && c.seqNo < w.uploads[c.id].session.Total() {
      if c.stage == Begun {
        assert Swept(w, c.id) || KeysPresent(w, c.id);
      } else if c.stage == Assembling {
        AssembleProceeds(w, c);
        if OneBucket(w', c.id, c.bucket) { MissingPart(w, c); }
      }
    }
  }

  /** A marked part that is missing in the only bucket was swept or deleted. */
  lemma MissingPart(w: World, c: Call)
    requires Safe(w) && CallTrue(w, c) && OneBucket(w, c.id, c.bucket)
    requires c.stage == Assembling && c.cursor < c.session.Total()
    ensures PartName(c.bucket, c.id, c.cursor) in w.mem.objects || Swept(w, c.id) || PartDeleted(w, c.bucket, c.id)
  {
    assert MarkedBy(w, c.id, c.cursor);
    var k :| 0 <= k < |w.calls| && w.calls[k].id == c.id && w.calls[k].seqNo == c.cursor && w.calls[k].stage.Rank() >= 3;
    assert PartKept(w, w.calls[k]);
    if SweptPast(w, c.bucket, c.id, c.cursor) {
      SweptPastIsSweptIn(w, c.bucket, c.id, c.cursor);
      var j :| 0 <= j < |w.calls| && w.calls[j].bucket == c.bucket && w.calls[j].id == c.id && w.calls[j].stage == Sweeping;
      assert Swept(w, c.id);
    }
  }

  lemma StepLive(w: World, a: Action)
    requires Safe(w) && Live(w) && Enabled(w, a)
    ensures Live(Apply(w, a))
  {
    StepBitsComplete(w, a);
    StepNoticed(w, a);
    StepFailsLate(w, a);
  }

  lemma {:induction false} RunLive(w: World, run: seq<Action>)
    requires Safe(w) && Live(w) && Legal(w, run)
    ensures Safe(After(w, run)) && Live(After(w, run))
    decreases |run|
  {
    if run != [] {
      StepSafe(w, run[0]);
      StepLive(w, run[0]);
      RunLive(Apply(w, run[0]), run[1..]);
    }
  }

  lemma ReachableLive(w: World)
    requires Reachable(w)
    ensures Safe(w) && Live(w)
  {
    var start, run :| Initial(start) && Legal(start, run) && After(start, run) == w;
    RunLive(start, run);
  }

  // ---------- main results ----------

  /** Every chunk of the file has a call. */
  ghost predicate AllSent(w: World, id: string)
    requires id in w.uploads
  {
    forall i: nat :: i < w.uploads[id].session.Total() ==> Sent(w, id, i)
  }

  ghost predicate Sent(w: World, id: string, i: nat) {
    exists k :: 0 <= k < |w.calls| && w.calls[k].id == id && w.calls[k].seqNo == i
  }

  predicate InRange(w: World, c: Call, id: string)
    requires id in w.uploads
  {
    c.id == id && c.seqNo < w.uploads[id].session.Total()
  }

  ghost predicate AllOk(w: World, id: string) {
    forall k :: 0 <= k < |w.calls| && w.calls[k].id == id ==> w.calls[k].outcome == Ok
  }

  ghost predicate AllEnded(w: World, id: string) {
    forall k :: 0 <= k < |w.calls| && w.calls[k].id == id ==> w.calls[k].outcome != Running
  }

  /** A call has assembled in `bucket`, and the file is there unless, since the upload was opened, it
      was deleted or another upload has put its own under the same name. */
  ghost predicate CompletedIn(w: World, bucket: string, id: string)
    requires id in w.uploads
  {
    SweptIn(w, bucket, id) && (FinalStored(w, bucket, id) || FinalDeleted(w, bucket, id))
  }

  /** Once completed, an upload stays completed on every continuation. */
  lemma {:induction false} CompletedForGood(w: World, run: seq<Action>, bucket: string, id: string)
    requires Safe(w) && Legal(w, run) && id in w.uploads && CompletedIn(w, bucket, id)
    ensures id in After(w, run).uploads && CompletedIn(After(w, run), bucket, id)
    decreases |run|
  {
    if run != [] {
      var w' := Apply(w, run[0]);
      StepGrows(w, run[0]);
      GrowsKeeps(w, w');
      StepSafe(w, run[0]);
      SweptFileStored(w', bucket, id);
      CompletedForGood(w', run[1..], bucket, id);
    }
  }

  lemma SentAndOkIsMarked(w: World, id: string)
    requires Safe(w) && id in w.uploads && AllSent(w, id)
    requires forall k :: 0 <= k < |w.calls| && InRange(w, w.calls[k], id) ==> w.calls[k].outcome == Ok
    ensures AllMarked(w, id, w.uploads[id].session.Total())
  {
    forall i: nat | i < w.uploads[id].session.Total() ensures MarkedBy(w, id, i) {
      assert Sent(w, id, i);
      var k :| 0 <= k < |w.calls| && w.calls[k].id == id && w.calls[k].seqNo == i;
      assert InRange(w, w.calls[k], id) && CallTrue(w, w.calls[k]);
    }
  }

  /** Until the client's deadline no key of the upload has expired. */
  lemma InTimeMeansPresent(w: World, id: string)
    requires Reachable(w) && id in w.uploads && w.clock < w.uploads[id].deadline
    ensures id !in w.lapsed
  {
    ReachableLive(w);
  }

  /** When every chunk is marked and no call was stopped, one of them has swept. */
  lemma NoticedMeansSwept(w: World, id: string) returns (k: nat)
    requires CallsTrue(w) && Noticed(w) && id in w.uploads && FullyMarked(w, id)
    requires forall j :: 0 <= j < |w.calls| && InRange(w, w.calls[j], id) ==> w.calls[j].outcome == Ok
    ensures k < |w.calls| && w.calls[k].id == id && w.calls[k].stage == Sweeping
  {
    assert SomeAnswers(w, id);
    k :| 0 <= k < |w.calls| && Answers(w.calls[k], id);
    AnswerIsSweeping(w, w.calls[k], id);
  }

  /** A call that noticed the full count and answered Ok has swept. */
  lemma AnswerIsSweeping(w: World, c: Call, id: string)
    requires CallTrue(w, c) && id in w.uploads && Answers(c, id)
    requires InRange(w, c, id) ==> c.outcome == Ok
    ensures c.stage == Sweeping
  {
    assert c.stage != Begun;
    assert InRange(w, c, id);
  }

  /** No lost completion: when every chunk was sent and every call answered Ok before the client's
      deadline, one of the calls has assembled: in its bucket the file is stored. */
  lemma NoLostCompletion(w: World, id: string)
    requires Reachable(w) && id in w.uploads && w.uploads[id].session.Total() > 0
    requires w.clock < w.uploads[id].deadline || id !in w.lapsed
    requires AllSent(w, id) && AllOk(w, id)
    ensures exists bucket :: CompletedIn(w, bucket, id)
  {
    ReachableLive(w);
    if w.clock < w.uploads[id].deadline { InTimeMeansPresent(w, id); }
    SentAndOkIsMarked(w, id);
    var k := NoticedMeansSwept(w, id);
    assert SweptIn(w, w.calls[k].bucket, id);
    SweptFileStored(w, w.calls[k].bucket, id);
    assert CompletedIn(w, w.calls[k].bucket, id);
  }

  lemma SweptInOneBucket(w: World, id: string, bucket: string)
    requires Swept(w, id) && OneBucket(w, id, bucket)
    ensures SweptIn(w, bucket, id)
  {
    var k :| 0 <= k < |w.calls| && w.calls[k].id == id && w.calls[k].stage == Sweeping;
    assert w.calls[k].bucket == bucket;
  }

  /** A run without faults ends with the file: when all chunks were sent in one bucket (some perhaps
      more than once), every call has ended, no operation failed, no key expired and nothing of
      the upload was deleted, the file is stored, even if some calls did not answer Ok. */
  lemma FaultFreeRunStoresFile(w: World, id: string, bucket: string)
    requires Reachable(w) && id in w.uploads && w.uploads[id].session.Total() > 0
    requires id !in w.faulty && id !in w.lapsed
    requires bucket != "" && OneBucket(w, id, bucket) && AllSent(w, id) && AllEnded(w, id)
    requires !PartDeleted(w, bucket, id) && !FinalDeleted(w, bucket, id) && !FinalOverwritten(w, bucket, id)
    ensures FileStored(w, bucket, id)
  {
    ReachableLive(w);
    SweptWhenEnded(w, id, bucket);
    SweptInOneBucket(w, id, bucket);
    SweptFileStored(w, bucket, id);
  }

  /** The end of a run without faults is reached only through a sweep. */
  lemma SweptWhenEnded(w: World, id: string, bucket: string)
    requires Safe(w) && Live(w) && id in w.uploads && w.uploads[id].session.Total() > 0
    requires id !in w.faulty && id !in w.lapsed
    requires bucket != "" && OneBucket(w, id, bucket) && AllSent(w, id) && AllEnded(w, id)
    requires !PartDeleted(w, bucket, id)
    ensures Swept(w, id)
  {
    if k :| 0 <= k < |w.calls| && InRange(w, w.calls[k], id) && w.calls[k].outcome != Ok {
      LateFailureMeansSwept(w, id, bucket, k);
    } else {
      AllOkMeansSwept(w, id);
    }
  }

  lemma LateFailureMeansSwept(w: World, id: string, bucket: string, k: nat)
    requires AllFailLate(w) && id in w.uploads && id !in w.faulty && id !in w.lapsed
    requires bucket != "" && OneBucket(w, id, bucket) && !PartDeleted(w, bucket, id) && CallsTrue(w)
    requires k < |w.calls| && InRange(w, w.calls[k], id)
    requires w.calls[k].outcome != Ok && w.calls[k].outcome != Running
    ensures Swept(w, id)
  {
    assert FailsLate(w, w.calls[k]) && CallTrue(w, w.calls[k]);
  }

  lemma AllOkMeansSwept(w: World, id: string)
    requires Safe(w) && Noticed(w) && id in w.uploads && id !in w.lapsed && w.uploads[id].session.Total() > 0
    requires AllSent(w, id) && AllEnded(w, id)
    requires forall k :: 0 <= k < |w.calls| && InRange(w, w.calls[k], id) ==> w.calls[k].outcome == Ok
    ensures Swept(w, id)
  {
    SentAndOkIsMarked(w, id);
    assert FullyMarked(w, id);
    var k := NoticedMeansSwept(w, id);
    assert 0 <= k < |w.calls| && w.calls[k].id == id && w.calls[k].stage == Sweeping;
  }

  /** An upload gets as far as a stored part only if its file is not empty and the server's uint64
      chunk count did not wrap: a zero-size or wrapped session takes no part at all. */
  lemma OnlyCountableUploadsStart(w: World, id: string, k: nat)
    requires Reachable(w) && id in w.uploads && k < |w.calls| && w.calls[k].id == id && w.calls[k].stage != Begun
    ensures |w.uploads[id].file| > 0 && |w.uploads[id].file| + w.uploads[id].session.chunk - 1 < TWO_64
  {
    ReachableSafe(w);
    assert CallTrue(w, w.calls[k]);
    ServerTotalExact(|w.uploads[id].file|, w.uploads[id].session.chunk);
  }

  // ---------- calls end ----------

  function TotalOf(w: World, id: string): nat {
    if id in w.uploads then w.uploads[id].session.Total() else 0
  }

  /** Operations that the calls of `w` can still make. */
  function Remaining(w: World, n: nat): nat
    requires n <= |w.calls|
  {
    if n == 0 then 0 else Remaining(w, n - 1) + OperationsLeft(w.calls[n - 1], TotalOf(w, w.calls[n - 1].id))
  }

  lemma {:induction false} RemainingAfterOperate(w: World, w': World, k: nat, n: nat)
    requires k < |w.calls| == |w'.calls| && n <= |w.calls| && w'.uploads == w.uploads
    requires forall j :: 0 <= j < |w.calls| && j != k ==> w'.calls[j] == w.calls[j]
    requires w'.calls[k].id == w.calls[k].id
    requires OperationsLeft(w'.calls[k], TotalOf(w, w.calls[k].id)) < OperationsLeft(w.calls[k], TotalOf(w, w.calls[k].id))
    ensures if k < n then Remaining(w', n) < Remaining(w, n) else Remaining(w', n) == Remaining(w, n)
  {
    if n > 0 { RemainingAfterOperate(w, w', k, n - 1); }
  }

  /** Every operation of any call, failing or not, lowers the number of operations that can still
      come, and a running call can always make one: calls end on every schedule. */
  lemma CallsEnd(w: World, k: nat, choice: Choice)
    requires Reachable(w) && k < |w.calls| && w.calls[k].outcome == Running
    ensures Enabled(w, Operate(k, choice))
    ensures var w' := Apply(w, Operate(k, choice));
            |w'.calls| == |w.calls| && Remaining(w', |w.calls|) < Remaining(w, |w.calls|)
  {
    ReachableSafe(w);
    var c := w.calls[k];
    assert CallTrue(w, c);
    NextDecreases(c, w.mem, choice, TotalOf(w, c.id));
    var w' := Apply(w, Operate(k, choice));
    assert w'.calls[k] == Next(c, w.mem, choice).1 && w'.uploads == w.uploads;
    StageMoves(c, w.mem, choice);
    RemainingAfterOperate(w, w', k, |w.calls|);
  }
}
