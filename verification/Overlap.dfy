/** Calls that overlap: when a second assembler fails, what a late duplicate leaves behind, and what
    one call per chunk guarantees. */
module Overlap {
  import opened Chunking
  import opened Keys
  import opened Protocol
  import opened World
  import opened Safety
  import opened Completion
  import opened Delivery

  // ---------- the invariant ----------

  /** No chunk of the upload was sent twice. */
  ghost predicate OneCallEach(w: World, id: string) {
    forall j, k :: 0 <= j < k < |w.calls| && w.calls[j].id == id && w.calls[k].id == id ==> w.calls[j].seqNo != w.calls[k].seqNo
  }

  /** One call per chunk, all in one bucket, and no fault, no expiry and no deletion of a part. */
  ghost predicate Orderly(w: World, id: string, bucket: string) {
    && id in w.uploads && id !in w.faulty && id !in w.lapsed && bucket != ""
    && OneCallEach(w, id) && OneBucket(w, id, bucket) && !PartDeleted(w, bucket, id)
    && forall k :: 0 <= k < |w.calls| && w.calls[k].id == id ==> InRange(w, w.calls[k], id)
  }

  /** What a sweep has removed stays away. */
  ghost predicate SweepHolds(w: World, c: Call) {
    c.stage == Sweeping && OneCallEach(w, c.id) && c.id !in w.faulty ==>
      && (forall i: nat :: i < c.cursor ==> PartName(c.bucket, c.id, i) !in w.mem.objects)
      && (c.outcome == Ok ==> MetaKey(c.id) !in w.mem.redis && BitmapKey(c.id) !in w.mem.redis)
  }

  /** A call answers Ok, or stopped at a part that another call of its upload had swept. */
  ghost predicate AnswersOrderly(w: World, c: Call) {
    Orderly(w, c.id, c.bucket) ==>
      || c.outcome == Running || c.outcome == Ok
      || (c.outcome == Internal && c.stage == Assembling && c.cursor < c.session.Total()
          && SweptPast(w, c.bucket, c.id, c.cursor))
  }

  ghost predicate Tidy(w: World) {
    && (forall k :: 0 <= k < |w.calls| ==> SweepHolds(w, w.calls[k]))
    && (forall k :: 0 <= k < |w.calls| ==> AnswersOrderly(w, w.calls[k]))
  }

  // ---------- every action keeps it ----------

  /** With one call per chunk, nobody has yet to store or mark when somebody assembles. */
  lemma NoneBehind(w: World, j: nat, k: nat)
    requires Safe(w) && j < |w.calls| && k < |w.calls| && w.calls[j].id == w.calls[k].id
    requires OneCallEach(w, w.calls[j].id) && w.calls[j].stage.Rank() >= 4
    requires w.calls[k].stage != Begun || (w.calls[k].id in w.uploads && InRange(w, w.calls[k], w.calls[k].id))
    ensures w.calls[k].stage.Rank() >= 3
  {
    assert CallTrue(w, w.calls[j]) && CallTrue(w, w.calls[k]);
    var id, i := w.calls[k].id, w.calls[k].seqNo;
    assert MarkedBy(w, id, i);
    var m :| 0 <= m < |w.calls| && w.calls[m].id == id && w.calls[m].seqNo == i && w.calls[m].stage.Rank() >= 3;
    assert m == k;
  }

  lemma OrderlyBefore(w: World, w': World, id: string, bucket: string)
    requires Grows(w, w') && id in w.uploads
    ensures OneCallEach(w', id) ==> OneCallEach(w, id)
    ensures Orderly(w', id, bucket) ==> Orderly(w, id, bucket)
  {
    if OneCallEach(w', id) {
      forall j, k | 0 <= j < k < |w.calls| && w.calls[j].id == id && w.calls[k].id == id
        ensures w.calls[j].seqNo != w.calls[k].seqNo
      {
        assert w'.calls[j].id == id && w'.calls[k].id == id;
      }
    }
    if Orderly(w', id, bucket) {
      forall k | 0 <= k < |w.calls| && w.calls[k].id == id ensures w.calls[k].bucket == bucket && InRange(w, w.calls[k], id) {
        assert w'.calls[k].id == id;
      }
      if PartDeleted(w, bucket, id) { assert PartDeleted(w', bucket, id); }
    }
  }

  lemma StepSweepHolds(w: World, a: Action, k: nat)
    requires Safe(w) && Tidy(w) && Enabled(w, a) && k < |w.calls|
    ensures SweepHolds(Apply(w, a), Apply(w, a).calls[k])
  {
    var w', c := Apply(w, a), w.calls[k];
    StepGrows(w, a);
    assert CallTrue(w, c) && SweepHolds(w, c);
    if w'.calls[k].stage == Sweeping && OneCallEach(w', c.id) && c.id !in w'.faulty {
      if a.Operate? {
        assert CallTrue(w, w.calls[a.k]);
        OrderlyBefore(w, w', c.id, c.bucket);
        if a.k == k { OwnSweepHolds(w, a); } else { OthersSweepHolds(w, a, k); }
      } else {
        OrderlyBefore(w, w', c.id, c.bucket);
        if a.Open? { AllSessionKeysInjective(); }
      }
    }
  }

  lemma OwnSweepHolds(w: World, a: Action)
    requires Enabled(w, a) && a.Operate? && a.choice == Proceed && SweepHolds(w, w.calls[a.k]) && CallTrue(w, w.calls[a.k])
    requires OneCallEach(w, w.calls[a.k].id) && w.calls[a.k].id !in w.faulty
    ensures SweepHolds(Apply(w, a), Apply(w, a).calls[a.k])
  {
    var c := w.calls[a.k];
    if c.stage == Assembling { SweepStarts(c, w.mem, a.choice); } else { StageMoves(c, w.mem, a.choice); }
  }

  lemma OthersSweepHolds(w: World, a: Action, k: nat)
    requires Safe(w) && Enabled(w, a) && a.Operate? && k < |w.calls| && a.k != k
    requires w.calls[k].stage == Sweeping && OneCallEach(w, w.calls[k].id) && w.calls[k].id !in w.faulty
    requires SweepHolds(w, w.calls[k])
    ensures SweepHolds(Apply(w, a), w.calls[k])
  {
    var c, d := w.calls[k], w.calls[a.k];
    assert CallTrue(w, d);
    if d.id == c.id && d.stage != Begun { NoneBehind(w, k, a.k); }
    OnlyObjectEffects(d, w.mem, a.choice);
    OnlyRedisEffects(d, w.mem, a.choice);
    SessionKeysInjective(c.id, d.id);
    SessionKeysInjective(d.id, c.id);
    forall i: nat | i < c.cursor ensures PartName(c.bucket, c.id, i) !in Apply(w, a).mem.objects {
      if d.id != c.id { OtherParts(c.id, i, d.id, d.seqNo); }
      assert IsPartKey(PartKey(c.id, i));
    }
  }

  lemma StepAnswersOrderly(w: World, a: Action, k: nat)
    requires Safe(w) && Live(w) && Tidy(w) && Enabled(w, a) && k < |w.calls|
    ensures AnswersOrderly(Apply(w, a), Apply(w, a).calls[k])
  {
    var w', c := Apply(w, a), w.calls[k];
    StepGrows(w, a);
    GrowsKeeps(w, w');
    assert CallTrue(w, c) && AnswersOrderly(w, c);
    if c.id in w.uploads { OrderlyBefore(w, w', c.id, c.bucket); }
    if Orderly(w', c.id, c.bucket) {
      if a.Operate? && a.k == k {
        OperatedAnswers(w, a);
      } else {
        CallUnchanged(w, a, k);
        if a.Open? { assert c.id in w.uploads; }
      }
    }
  }

  lemma OperatedAnswers(w: World, a: Action)
    requires Safe(w) && Live(w) && Enabled(w, a) && a.Operate? && a.choice == Proceed
    requires Orderly(w, w.calls[a.k].id, w.calls[a.k].bucket)
    ensures var c := Apply(w, a).calls[a.k];
      || c.outcome == Running || c.outcome == Ok
      || (c.outcome == Internal && c.stage == Assembling && c.cursor < c.session.Total()
          && SweptPast(w, c.bucket, c.id, c.cursor))
  {
    var c := w.calls[a.k];
    assert CallTrue(w, c) && InRange(w, c, c.id);
    if c.stage == Begun {
      SessionStillThere(w, a.k);
    } else if c.stage == Assembling {
      AssembleProceeds(w, c);
      if c.cursor < c.session.Total() { MissingPartWasSwept(w, c); }
    }
  }

  /** While a call of an orderly upload has yet to look its session up, nobody has swept it. */
  lemma SessionStillThere(w: World, k: nat)
    requires Safe(w) && Live(w) && k < |w.calls| && w.calls[k].stage == Begun
    requires Orderly(w, w.calls[k].id, w.calls[k].bucket)
    ensures MetaKey(w.calls[k].id) in w.mem.redis
  {
    var id := w.calls[k].id;
    if Swept(w, id) {
      var j :| 0 <= j < |w.calls| && w.calls[j].id == id && w.calls[j].stage == Sweeping;
      NoneBehind(w, j, k);
    }
    assert KeysPresent(w, id);
  }

  /** A marked part that is missing in the only bucket was swept, or deleted. */
  lemma MissingPartWasSwept(w: World, c: Call)
    requires Safe(w) && CallTrue(w, c) && OneBucket(w, c.id, c.bucket) && !PartDeleted(w, c.bucket, c.id)
    requires c.stage == Assembling && c.cursor < c.session.Total()
    ensures PartName(c.bucket, c.id, c.cursor) in w.mem.objects || SweptPast(w, c.bucket, c.id, c.cursor)
  {
    assert MarkedBy(w, c.id, c.cursor);
    var k :| 0 <= k < |w.calls| && w.calls[k].id == c.id && w.calls[k].seqNo == c.cursor && w.calls[k].stage.Rank() >= 3;
    assert PartKept(w, w.calls[k]);
  }

  lemma StepTidy(w: World, a: Action)
    requires Safe(w) && Live(w) && Tidy(w) && Enabled(w, a)
    ensures Tidy(Apply(w, a))
  {
    var w' := Apply(w, a);
    forall k | 0 <= k < |w'.calls| ensures SweepHolds(w', w'.calls[k]) && AnswersOrderly(w', w'.calls[k]) {
      if k < |w.calls| {
        StepSweepHolds(w, a, k);
        StepAnswersOrderly(w, a, k);
      }
    }
  }

  lemma {:induction false} RunTidy(w: World, run: seq<Action>)
    requires Safe(w) && Live(w) && Tidy(w) && Legal(w, run)
    ensures Safe(After(w, run)) && Live(After(w, run)) && Tidy(After(w, run))
    decreases |run|
  {
    if run != [] {
      StepSafe(w, run[0]);
      StepLive(w, run[0]);
      StepTidy(w, run[0]);
      RunTidy(Apply(w, run[0]), run[1..]);
    }
  }

  lemma ReachableTidy(w: World)
    requires Reachable(w)
    ensures Safe(w) && Live(w) && Tidy(w)
  {
    var start, run :| Initial(start) && Legal(start, run) && After(start, run) == w;
    RunTidy(start, run);
  }

  // ---------- one call per chunk ----------

  /** A second assembler fails exactly when it is overtaken: in an orderly upload the read of part j
      fails if and only if another call of the upload has swept past j. */
  lemma AssemblerFailsExactly(w: World, id: string, bucket: string, k: nat)
    requires Reachable(w) && Orderly(w, id, bucket) && k < |w.calls| && w.calls[k].id == id
    requires w.calls[k].stage == Assembling && w.calls[k].outcome == Running
    ensures var c, c' := w.calls[k], Apply(w, Operate(k, Proceed)).calls[k];
      c'.outcome == Internal <==> c.cursor < c.session.Total() && SweptPast(w, bucket, id, c.cursor)
  {
    ReachableTidy(w);
    var c := w.calls[k];
    assert CallTrue(w, c);
    AssembleProceeds(w, c);
    assert Apply(w, Operate(k, Proceed)).calls[k] == Assemble(c, w.mem, Proceed).1;
    if c.cursor < c.session.Total() {
      MissingPartWasSwept(w, c);
      if SweptPast(w, bucket, id, c.cursor) { SweptPartIsGone(w, bucket, id, c.cursor); }
    }
  }

  lemma SweptPartIsGone(w: World, bucket: string, id: string, i: nat)
    requires Tidy(w) && OneCallEach(w, id) && id !in w.faulty && SweptPast(w, bucket, id, i)
    ensures PartName(bucket, id, i) !in w.mem.objects
  {
    var j :| 0 <= j < |w.calls| && w.calls[j].bucket == bucket && w.calls[j].id == id && w.calls[j].stage == Sweeping
             && w.calls[j].cursor > i;
    assert SweepHolds(w, w.calls[j]);
  }

  /** In an orderly upload a call that does not answer Ok is such an overtaken assembler. */
  lemma OrderlyAnswers(w: World, id: string, bucket: string, k: nat)
    requires Reachable(w) && Orderly(w, id, bucket) && k < |w.calls| && w.calls[k].id == id
    requires w.calls[k].outcome != Running && w.calls[k].outcome != Ok
    ensures var c := w.calls[k];
      c.outcome == Internal && c.stage == Assembling && c.cursor < c.session.Total() && SweptPast(w, bucket, id, c.cursor)
  {
    ReachableTidy(w);
    assert AnswersOrderly(w, w.calls[k]);
  }

  /** The call has seen the full count. */
  predicate Assembler(c: Call, id: string) {
    c.id == id && c.stage.Rank() >= 4
  }

  /** A call of an orderly upload that fails needs a second assembler, and so a second chunk. */
  lemma FailureNeedsTwoAssemblers(w: World, id: string, bucket: string, k: nat)
    requires Reachable(w) && Orderly(w, id, bucket) && k < |w.calls| && w.calls[k].id == id
    requires w.calls[k].outcome != Running && w.calls[k].outcome != Ok
    ensures Assembler(w.calls[k], id) && exists j :: 0 <= j < |w.calls| && j != k && Assembler(w.calls[j], id)
    ensures w.uploads[id].session.Total() >= 2
  {
    OrderlyAnswers(w, id, bucket, k);
    var j :| 0 <= j < |w.calls| && w.calls[j].bucket == bucket && w.calls[j].id == id && w.calls[j].stage == Sweeping
             && w.calls[j].cursor > w.calls[k].cursor;
    assert Assembler(w.calls[j], id) && InRange(w, w.calls[j], id) && InRange(w, w.calls[k], id);
    assert w.calls[j].seqNo != w.calls[k].seqNo;
  }

  /** When every chunk was sent once, in any interleaving, and every call has ended, no part, no session
      and no bitmap is left. */
  lemma KeysGoneWhenEnded(w: World, id: string, bucket: string)
    requires Reachable(w) && Orderly(w, id, bucket) && w.uploads[id].session.Total() > 0
    requires AllSent(w, id) && AllEnded(w, id)
    ensures MetaKey(id) !in w.mem.redis && BitmapKey(id) !in w.mem.redis
    ensures forall i: nat :: PartName(bucket, id, i) !in w.mem.objects
  {
    ReachableTidy(w);
    SweptWhenEnded(w, id, bucket);
    var k :| 0 <= k < |w.calls| && w.calls[k].id == id && w.calls[k].stage == Sweeping;
    assert CallTrue(w, w.calls[k]) && SweepHolds(w, w.calls[k]);
    forall i: nat ensures PartName(bucket, id, i) !in w.mem.objects {
      assert PartName(bucket, id, i) in w.mem.objects ==> PartTrue(w, bucket, id, i);
    }
  }

  /** One call per chunk, in any interleaving, ends as one put of the file would: the file is stored,
      and no part, no session and no bitmap is left. */
  lemma OneCallEachLeavesNothing(w: World, id: string, bucket: string)
    requires Reachable(w) && Orderly(w, id, bucket) && w.uploads[id].session.Total() > 0
    requires AllSent(w, id) && AllEnded(w, id)
    requires !FinalDeleted(w, bucket, id) && !FinalOverwritten(w, bucket, id)
    ensures FileStored(w, bucket, id)
    ensures MetaKey(id) !in w.mem.redis && BitmapKey(id) !in w.mem.redis
    ensures forall i: nat :: PartName(bucket, id, i) !in w.mem.objects
  {
    KeysGoneWhenEnded(w, id, bucket);
    FaultFreeRunStoresFile(w, id, bucket);
  }

  // ---------- a run with an overtaken assembler ----------

  lemma OneAction(w: World, a: Action)
    requires Enabled(w, a)
    ensures Legal(w, [a]) && After(w, [a]) == Apply(w, a)
  {
    assert [a][1..] == [];
    assert Legal(Apply(w, a), []) && After(Apply(w, a), []) == Apply(w, a);
  }

  lemma ReachableStep(w: World, a: Action)
    requires Reachable(w) && Enabled(w, a)
    ensures Reachable(Apply(w, a))
  {
    var start, run :| Initial(start) && Legal(start, run) && After(start, run) == w;
    OneMoreAction(start, run, a);
  }

  lemma OneMoreAction(w: World, run: seq<Action>, a: Action)
    requires Legal(w, run) && Enabled(After(w, run), a)
    ensures Legal(w, run + [a]) && After(w, run + [a]) == Apply(After(w, run), a)
  {
    OneAction(After(w, run), a);
    RunsJoin(w, run, [a]);
  }

  lemma OnlyRanJoin(w: World, w': World, w'': World, id: string)
    requires OnlyRan(w, w', id) && OnlyRan(w', w'', id)
    ensures OnlyRan(w, w'', id)
  {
  }

  /** Call `k` of `w` looks up its session, stores its part and sets its bit. */
  lemma MarksInWorld(w: World, k: nat, s: Session, file: Bytes) returns (run: seq<Action>)
    requires k < |w.calls| && w.calls[k] == Fresh(w.calls[k].bucket, w.calls[k].id, w.calls[k].seqNo, w.calls[k].data)
    requires w.calls[k].bucket != "" && SessionLive(w.mem, w.calls[k].id, s, file) && w.calls[k].seqNo < s.Total()
    ensures var c := w.calls[k];
      && Legal(w, run) && OnlyRan(w, After(w, run), c.id)
      && After(w, run).mem == WithPart(w.mem, c.bucket, c.id, c.seqNo, c.data)
      && After(w, run).calls == w.calls[k := c.(stage := Marked, session := s)]
  {
    var c, a := w.calls[k], Operate(k, Proceed);
    var w1 := Apply(w, a);
    assert w1.calls[k] == c.(stage := Admitted, session := s) && w1.mem == w.mem;
    var w2 := Apply(w1, a);
    assert w2.calls[k] == c.(stage := Stored, session := s);
    var w3 := Apply(w2, a);
    assert w3.calls[k] == c.(stage := Marked, session := s);
    assert w3.mem == WithPart(w.mem, c.bucket, c.id, c.seqNo, c.data);
    assert w3.calls == w.calls[k := w3.calls[k]];
    OneAction(w, a);
    OneMoreAction(w, [a], a);
    OneMoreAction(w, [a] + [a], a);
    run := [a] + [a] + [a];
  }

  lemma SoloInWorld(w: World, k: nat)
    requires k < |w.calls|
    ensures var run, r := Solo([], w.calls[k], w.mem, k), RunAlone([], w.calls[k], w.mem);
      && Legal(w, run) && OnlyRan(w, After(w, run), w.calls[k].id)
      && After(w, run).mem == r.0 && After(w, run).calls == w.calls[k := r.1]
  {
    SoloIsRunAlone(w, [], k);
    SoloTouchesOnly(w, k);
  }

  /** The last two chunks `i` and `i + 1` of an upload, sent at once: both calls set their bits, the
      second sees the full count, the first assembles and sweeps, and the second finds no part. */
  lemma LastTwoCalls(w: World, m0: Memory, bucket: string, id: string, i: nat) returns (run: seq<Action>)
    requires id in w.uploads && UploadTrue(w.uploads[id]) && i + 2 == w.uploads[id].session.Total()
    requires bucket != "" && Unused(m0, bucket, id)
    requires Holds(w.mem, m0, bucket, id, w.uploads[id].session, w.uploads[id].file, UpTo(i))
    ensures Legal(w, run) && OnlyRan(w, After(w, run), id)
    ensures After(w, run).mem == Completed(m0, bucket, id, w.uploads[id].session, w.uploads[id].file)
    ensures var calls := After(w, run).calls;
      && |calls| == |w.calls| + 2 && calls[..|w.calls|] == w.calls
      && AnsweredOk(calls[|w.calls|], bucket, id, i)
      && SameCall(Fresh(bucket, id, i + 1, Slice(w.uploads[id].file, w.uploads[id].session.chunk, i + 1)), calls[|w.calls| + 1])
      && calls[|w.calls| + 1].outcome == Internal
  {
    var u := w.uploads[id];
    var data, data' := Slice(u.file, u.session.chunk, i), Slice(u.file, u.session.chunk, i + 1);
    SpawnBoth(w, bucket, id, i, data, i + 1, data');
    var spawns := [Spawn(bucket, id, i, data), Spawn(bucket, id, i + 1, data')];
    var w2 := After(w, spawns);
    var rest := MarkAndRace(w2, m0, bucket, id, u.session, u.file, i, |w.calls|);
    RunsJoin(w, spawns, rest);
    run := spawns + rest;
    assert w2.calls[..|w.calls|] == w.calls;
  }

  lemma SpawnBoth(w: World, bucket: string, id: string, i: nat, data: Bytes, j: nat, data': Bytes)
    requires Enabled(w, Spawn(bucket, id, i, data)) && Enabled(w, Spawn(bucket, id, j, data'))
    ensures var run := [Spawn(bucket, id, i, data), Spawn(bucket, id, j, data')];
      Legal(w, run) && After(w, run) == w.(calls := w.calls + [Fresh(bucket, id, i, data), Fresh(bucket, id, j, data')])
  {
    OneAction(w, Spawn(bucket, id, i, data));
    OneMoreAction(w, [Spawn(bucket, id, i, data)], Spawn(bucket, id, j, data'));
    assert [Spawn(bucket, id, i, data)] + [Spawn(bucket, id, j, data')] == [Spawn(bucket, id, i, data), Spawn(bucket, id, j, data')];
    assert w.calls + [Fresh(bucket, id, i, data)] + [Fresh(bucket, id, j, data')]
           == w.calls + [Fresh(bucket, id, i, data), Fresh(bucket, id, j, data')];
  }

  lemma MarkAndRace(w: World, m0: Memory, bucket: string, id: string, s: Session, file: Bytes, i: nat, p: nat)
    returns (run: seq<Action>)
    requires bucket != "" && s.size == |file| < TWO_64 && 0 < s.chunk < TWO_64 && i + 2 == s.Total()
    requires !IsPartKey(s.prefix)
    requires Unused(m0, bucket, id) && Holds(w.mem, m0, bucket, id, s, file, UpTo(i))
    requires |w.calls| == p + 2
    requires w.calls[p] == Fresh(bucket, id, i, Slice(file, s.chunk, i))
    requires w.calls[p + 1] == Fresh(bucket, id, i + 1, Slice(file, s.chunk, i + 1))
    ensures Legal(w, run) && OnlyRan(w, After(w, run), id)
    ensures After(w, run).mem == Completed(m0, bucket, id, s, file)
    ensures var calls := After(w, run).calls;
      && |calls| == p + 2 && calls[..p] == w.calls[..p]
      && SameCall(w.calls[p], calls[p]) && calls[p].outcome == Ok
      && SameCall(w.calls[p + 1], calls[p + 1]) && calls[p + 1].outcome == Internal
  {
    var marks := LastTwoMark(w, m0, bucket, id, s, file, i, p);
    var w' := After(w, marks);
    assert w'.calls[p] == w.calls[p].(stage := Marked, session := s);
    assert w'.calls[p + 1] == w.calls[p + 1].(stage := Marked, session := s);
    assert w'.calls[..p] == w.calls[..p];
    var race := AssemblersRace(w', m0, bucket, id, s, file, p);
    RunsJoin(w, marks, race);
    OnlyRanJoin(w, w', After(w', race), id);
    run := marks + race;
  }

  /** Call `k` stores and marks chunk `i`, after which the stores hold one chunk more. */
  lemma MarksOneMore(w: World, m0: Memory, bucket: string, id: string, s: Session, file: Bytes, i: nat, k: nat)
    returns (run: seq<Action>)
    requires bucket != "" && s.size == |file| < TWO_64 && 0 < s.chunk < TWO_64 && i < s.Total()
    requires Unused(m0, bucket, id) && Holds(w.mem, m0, bucket, id, s, file, UpTo(i))
    requires k < |w.calls| && w.calls[k] == Fresh(bucket, id, i, Slice(file, s.chunk, i))
    ensures Legal(w, run) && OnlyRan(w, After(w, run), id)
    ensures Holds(After(w, run).mem, m0, bucket, id, s, file, UpTo(i + 1))
    ensures After(w, run).calls == w.calls[k := w.calls[k].(stage := Marked, session := s)]
  {
    HoldsBits(w.mem, m0, bucket, id, s, file, UpTo(i));
    run := MarksInWorld(w, k, s, file);
    HoldsOneMore(w.mem, m0, bucket, id, s, file, UpTo(i), i);
    assert UpTo(i) + {i} == UpTo(i + 1);
  }

  lemma LastTwoMark(w: World, m0: Memory, bucket: string, id: string, s: Session, file: Bytes, i: nat, p: nat)
    returns (run: seq<Action>)
    requires bucket != "" && s.size == |file| < TWO_64 && 0 < s.chunk < TWO_64 && i + 2 == s.Total()
    requires Unused(m0, bucket, id) && Holds(w.mem, m0, bucket, id, s, file, UpTo(i))
    requires |w.calls| == p + 2
    requires w.calls[p] == Fresh(bucket, id, i, Slice(file, s.chunk, i))
    requires w.calls[p + 1] == Fresh(bucket, id, i + 1, Slice(file, s.chunk, i + 1))
    ensures Legal(w, run) && OnlyRan(w, After(w, run), id)
    ensures Holds(After(w, run).mem, m0, bucket, id, s, file, UpTo(i + 2))
    ensures var marked := w.calls[p].(stage := Marked, session := s);
      var marked' := w.calls[p + 1].(stage := Marked, session := s);
      After(w, run).calls == w.calls[p := marked][p + 1 := marked']
  {
    var first := MarksOneMore(w, m0, bucket, id, s, file, i, p);
    var w' := After(w, first);
    var second := MarksOneMore(w', m0, bucket, id, s, file, i + 1, p + 1);
    RunsJoin(w, first, second);
    OnlyRanJoin(w, w', After(w', second), id);
    run := first + second;
  }

  /** Two calls about to count a full bitmap, numbers `p` and `p + 1`: the second counts first, but
      the first assembles and sweeps before the second reads a part. */
  lemma AssemblersRace(w: World, m0: Memory, bucket: string, id: string, s: Session, file: Bytes, p: nat)
    returns (run: seq<Action>)
    requires p + 2 == |w.calls| && s.size == |file| < TWO_64 && 0 < s.chunk < TWO_64 && s.Total() > 0
    requires w.calls[p] == Fresh(bucket, id, w.calls[p].seqNo, w.calls[p].data).(stage := Marked, session := s)
    requires w.calls[p + 1] == Fresh(bucket, id, w.calls[p + 1].seqNo, w.calls[p + 1].data).(stage := Marked, session := s)
    requires !IsPartKey(s.prefix)
    requires Unused(m0, bucket, id) && Holds(w.mem, m0, bucket, id, s, file, UpTo(s.Total()))
    ensures Legal(w, run) && OnlyRan(w, After(w, run), id)
    ensures After(w, run).mem == Completed(m0, bucket, id, s, file)
    ensures var calls := After(w, run).calls;
      && |calls| == p + 2 && calls[..p] == w.calls[..p]
      && SameCall(w.calls[p], calls[p]) && calls[p].outcome == Ok
      && SameCall(w.calls[p + 1], calls[p + 1]) && calls[p + 1].outcome == Internal
  {
    var count := Operate(p + 1, Proceed);
    var w1 := Apply(w, count);
    CountsFull(w, m0, bucket, id, s, file, p + 1);
    OneAction(w, count);
    var rest := WinnerAndLoser(w1, m0, bucket, id, s, file, p);
    RunsJoin(w, [count], rest);
    OnlyRanJoin(w, w1, After(w1, rest), id);
    run := [count] + rest;
    assert w1.calls[..p] == w.calls[..p];
  }

  lemma CountsFull(w: World, m0: Memory, bucket: string, id: string, s: Session, file: Bytes, k: nat)
    requires k < |w.calls| && s.size == |file| < TWO_64 && 0 < s.chunk < TWO_64
    requires w.calls[k] == Fresh(bucket, id, w.calls[k].seqNo, w.calls[k].data).(stage := Marked, session := s)
    requires Holds(w.mem, m0, bucket, id, s, file, UpTo(s.Total()))
    ensures var w' := Apply(w, Operate(k, Proceed));
      OnlyRan(w, w', id) && w'.mem == w.mem && w'.calls == w.calls[k := w.calls[k].(stage := Assembling)]
  {
    HoldsBits(w.mem, m0, bucket, id, s, file, UpTo(s.Total()));
    FullSetHasAll(UpTo(s.Total()), s.Total());
  }

  lemma WinnerAndLoser(w: World, m0: Memory, bucket: string, id: string, s: Session, file: Bytes, p: nat)
    returns (run: seq<Action>)
    requires p + 2 == |w.calls| && s.size == |file| < TWO_64 && 0 < s.chunk < TWO_64 && s.Total() > 0
    requires w.calls[p] == Fresh(bucket, id, w.calls[p].seqNo, w.calls[p].data).(stage := Marked, session := s)
    requires w.calls[p + 1] == Fresh(bucket, id, w.calls[p + 1].seqNo, w.calls[p + 1].data).(stage := Assembling, session := s)
    requires !IsPartKey(s.prefix)
    requires Unused(m0, bucket, id) && Holds(w.mem, m0, bucket, id, s, file, UpTo(s.Total()))
    ensures Legal(w, run) && OnlyRan(w, After(w, run), id)
    ensures After(w, run).mem == Completed(m0, bucket, id, s, file)
    ensures var calls := After(w, run).calls;
      && |calls| == p + 2 && calls[..p] == w.calls[..p]
      && SameCall(w.calls[p], calls[p]) && calls[p].outcome == Ok
      && SameCall(w.calls[p + 1], calls[p + 1]) && calls[p + 1].outcome == Internal
  {
    var first := WinnerCompletes(w, m0, bucket, id, s, file, p);
    var w' := After(w, first);
    var second := LoserFails(w', m0, p + 1, file);
    RunsJoin(w, first, second);
    OnlyRanJoin(w, w', After(w', second), id);
    run := first + second;
  }

  /** A call about to count the full bitmap runs to its end. */
  lemma WinnerCompletes(w: World, m0: Memory, bucket: string, id: string, s: Session, file: Bytes, k: nat)
    returns (run: seq<Action>)
    requires k < |w.calls| && s.size == |file| < TWO_64 && 0 < s.chunk < TWO_64 && s.Total() > 0
    requires w.calls[k] == Fresh(bucket, id, w.calls[k].seqNo, w.calls[k].data).(stage := Marked, session := s)
    requires Unused(m0, bucket, id) && Holds(w.mem, m0, bucket, id, s, file, UpTo(s.Total()))
    ensures Legal(w, run) && OnlyRan(w, After(w, run), id)
    ensures After(w, run).mem == Completed(m0, bucket, id, s, file)
    ensures var calls := After(w, run).calls;
      |calls| == |w.calls| && calls == w.calls[k := calls[k]] && SameCall(w.calls[k], calls[k]) && calls[k].outcome == Ok
  {
    HoldsBits(w.mem, m0, bucket, id, s, file, UpTo(s.Total()));
    FullSetHasAll(UpTo(s.Total()), s.Total());
    StoredIsJoined(w.mem, bucket, id, file, s.chunk, s.Total());
    JoinedIsFile(file, s.chunk);
    MarkedCallCompletes(w.calls[k], w.mem);
    CompletedFromHolds(w.mem, m0, bucket, id, s, file, UpTo(s.Total()));
    SoloInWorld(w, k);
    SoloKeepsNames([], w.calls[k], w.mem);
    run := Solo([], w.calls[k], w.mem, k);
  }

  /** An assembler that begins to read after the parts were swept fails. */
  lemma LoserFails(w: World, m0: Memory, k: nat, file: Bytes) returns (run: seq<Action>)
    requires k < |w.calls|
    requires var c := w.calls[k]; c.stage == Assembling && c.outcome == Running && c.cursor == 0 < c.session.Total()
    requires w.mem == Completed(m0, w.calls[k].bucket, w.calls[k].id, w.calls[k].session, file)
    requires !IsPartKey(w.calls[k].session.prefix)
    ensures Legal(w, run) && OnlyRan(w, After(w, run), w.calls[k].id) && After(w, run).mem == w.mem
    ensures var calls := After(w, run).calls;
      |calls| == |w.calls| && calls == w.calls[k := calls[k]] && SameCall(w.calls[k], calls[k]) && calls[k].outcome == Internal
  {
    var c := w.calls[k];
    CompletedHasFileOnly(m0, c.bucket, c.id, c.session, file);
    MissingPartFails(c, w.mem, 0);
    SoloInWorld(w, k);
    SoloKeepsNames([], c, w.mem);
    run := Solo([], c, w.mem, k);
  }

  /** An orderly upload of `file` in which every chunk was sent and every call has ended, the file is
      stored, and yet some call has answered an error. */
  ghost predicate FailsAndStores(w: World, bucket: string, id: string, s: Session, file: Bytes) {
    && Orderly(w, id, bucket) && w.uploads[id].session == s && w.uploads[id].file == file
    && AllSent(w, id) && AllEnded(w, id) && FileStored(w, bucket, id)
    && exists k :: 0 <= k < |w.calls| && w.calls[k].id == id && w.calls[k].outcome == Internal
  }

  /** An upload without any fault can have a failing call if and only if it has more than one chunk:
      then two calls can both see the full count, and one can sweep before the other has read. */
  lemma FailingCallExactly(start: World, bucket: string, id: string, prefix: string, file: Bytes, preferred: nat)
    requires Initial(start) && bucket != "" && !IsPartKey(prefix) && preferred < TWO_64
    requires 0 < |file| && |file| + ChooseChunk(preferred, start.config.chunkSize) - 1 < TWO_64
    requires Session(prefix, |file|, ChooseChunk(preferred, start.config.chunkSize)).Total() <= MAX_BITS
    ensures var s := Session(prefix, |file|, ChooseChunk(preferred, start.config.chunkSize));
      s.Total() >= 2 <==> exists run :: Legal(start, run) && FailsAndStores(After(start, run), bucket, id, s, file)
  {
    var s := Session(prefix, |file|, ChooseChunk(preferred, start.config.chunkSize));
    if run :| Legal(start, run) && FailsAndStores(After(start, run), bucket, id, s, file) {
      var w := After(start, run);
      var k :| 0 <= k < |w.calls| && w.calls[k].id == id && w.calls[k].outcome == Internal;
      FailureNeedsTwoAssemblers(w, id, bucket, k);
    }
    if s.Total() >= 2 { OvertakenRunExists(start, bucket, id, prefix, file, preferred); }
  }

  lemma OvertakenRunExists(start: World, bucket: string, id: string, prefix: string, file: Bytes, preferred: nat)
    requires Initial(start) && bucket != "" && !IsPartKey(prefix) && preferred < TWO_64
    requires 0 < |file| && |file| + ChooseChunk(preferred, start.config.chunkSize) - 1 < TWO_64
    requires 2 <= Session(prefix, |file|, ChooseChunk(preferred, start.config.chunkSize)).Total()
    ensures var s := Session(prefix, |file|, ChooseChunk(preferred, start.config.chunkSize));
      exists run :: Legal(start, run) && FailsAndStores(After(start, run), bucket, id, s, file)
  {
    var open := Open(id, prefix, file, preferred, 0);
    Opened(start, open);
    var w0 := Apply(start, open);
    var run := OvertakenFromOpened(w0, start.mem, bucket, id);
    OneAction(start, open);
    RunsJoin(start, [open], run);
    assert FailsAndStores(After(start, [open] + run), bucket, id, w0.uploads[id].session, file);
  }

  lemma OvertakenFromOpened(w0: World, m0: Memory, bucket: string, id: string) returns (run: seq<Action>)
    requires id in w0.uploads && UploadTrue(w0.uploads[id]) && w0.uploads[id].session.Total() >= 2 && bucket != ""
    requires w0.calls == [] && w0.deleted == {} && w0.faulty == w0.lapsed == {}
    requires Unused(m0, bucket, id) && w0.mem == OpenSession(m0, id, w0.uploads[id].session)
    ensures Legal(w0, run)
    ensures FailsAndStores(After(w0, run), bucket, id, w0.uploads[id].session, w0.uploads[id].file)
  {
    var u := w0.uploads[id];
    var n := u.session.Total();
    UploadsInOrder(w0, m0, bucket, id, n - 2);
    var first :| Legal(w0, first) && UploadedInOrder(w0, first, m0, bucket, id, n - 2);
    var w1 := After(w0, first);
    var last := LastTwoCalls(w1, m0, bucket, id, n - 2);
    CompletedHasFileOnly(m0, bucket, id, u.session, u.file);
    OneCallInEachPlace(w0, w1, After(w1, last), bucket, id);
    RunsJoin(w0, first, last);
    run := first + last;
  }

  lemma OneCallInEachPlace(w0: World, w1: World, w: World, bucket: string, id: string)
    requires id in w0.uploads && w0.calls == [] && w0.deleted == {} && w0.faulty == w0.lapsed == {} && bucket != ""
    requires w0.uploads[id].session.Total() >= 2
    requires SentInOrder(w0, w1, bucket, id, w0.uploads[id].session.Total() - 2) && OnlyRan(w1, w, id)
    requires |w.calls| == |w1.calls| + 2 && w.calls[..|w1.calls|] == w1.calls
    requires AnsweredOk(w.calls[|w1.calls|], bucket, id, |w1.calls|)
    requires w.calls[|w1.calls| + 1].bucket == bucket && w.calls[|w1.calls| + 1].id == id
    requires w.calls[|w1.calls| + 1].seqNo == |w1.calls| + 1 && w.calls[|w1.calls| + 1].outcome == Internal
    ensures Orderly(w, id, bucket) && AllSent(w, id) && AllEnded(w, id)
    ensures w.uploads[id] == w0.uploads[id]
  {
    forall k | 0 <= k < |w.calls|
      ensures w.calls[k].id == id && w.calls[k].bucket == bucket && w.calls[k].seqNo == k && w.calls[k].outcome != Running
    {
      if k < |w1.calls| {
        assert w.calls[..|w1.calls|][k] == w1.calls[k];
        assert AnsweredOk(w1.calls[k], bucket, id, k);
      }
    }
    forall i: nat | i < w.uploads[id].session.Total() ensures Sent(w, id, i) { assert w.calls[i].seqNo == i; }
  }

  // ---------- late duplicates ----------

  /** A call that looked its session up before another call swept, and does all the rest afterwards.
      Its part and a bitmap without a session stay behind, unless it is the only chunk and has the
      declared length: then it is assembled and swept again.  It fails only when it is the only
      chunk and has another length. */
  lemma LateDuplicateLeaves(m: Memory, bucket: string, id: string, s: Session, i: nat, data: Bytes)
    requires Unused(m, bucket, id) && !IsPartKey(s.prefix) && i < s.Total()
    ensures var r := RunAlone([], Fresh(bucket, id, i, data).(stage := Admitted, session := s), m);
      var again := s.Total() == 1 && |data| == s.size;
      && MetaKey(id) !in r.0.redis
      && (BitmapKey(id) in r.0.redis <==> !again)
      && (PartName(bucket, id, i) in r.0.objects <==> !again)
      && r.0 == (if again then m.(objects := m.objects[ObjectName(bucket, s.prefix) := data])
                 else WithPart(m, bucket, id, i, data))
      && r.1.outcome == if s.Total() > 1 || again then Ok else Internal
  {
    var c0, m' := Fresh(bucket, id, i, data).(stage := Admitted, session := s), WithPart(m, bucket, id, i, data);
    var c := c0.(stage := Marked);
    var r1 := Next(c0, m, Proceed);
    assert Next(r1.1, r1.0, Proceed) == (m', c);
    assert RunAlone([], c0, m) == RunAlone([], r1.1, r1.0) == RunAlone([], c, m');
    SessionKeysInjective(id, id);
    assert BitsOf(m'.redis, id) == {i} && |{i}| == 1;
    if s.Total() == 1 {
      MarkedCallCompletes(c, m');
      assert StoredStream(m', bucket, id, 1) == [] + data == data;
      PartsDoNotOutlive(m, bucket, id, s, i, data, data);
      NothingToRemove(m, bucket, id, s, data);
    } else {
      assert Next(c, m', Proceed) == (m', c.(outcome := Ok));
      assert RunAlone([], c, m') == RunAlone([], c.(outcome := Ok), m') == (m', c.(outcome := Ok));
    }
  }

  lemma NothingToRemove(m: Memory, bucket: string, id: string, s: Session, blob: Bytes)
    requires Unused(m, bucket, id) && !IsPartKey(s.prefix)
    ensures Completed(m, bucket, id, s, blob) == m.(objects := m.objects[ObjectName(bucket, s.prefix) := blob])
  {
    forall name | name in PartNames(bucket, id, 0, s.Total()) ensures name !in m.objects[ObjectName(bucket, s.prefix) := blob] {
      var i: nat :| i < s.Total() && name == PartName(bucket, id, i);
      assert s.prefix != PartKey(id, i);
    }
  }

  /** A call whose part was stored before the sweep and whose bit is set after it always leaves a
      bitmap without a session; with a single chunk it also fails. */
  lemma LateBitLeaves(m: Memory, bucket: string, id: string, s: Session, i: nat, data: Bytes)
    requires Unused(m, bucket, id) && i < s.Total()
    ensures var r := RunAlone([], Fresh(bucket, id, i, data).(stage := Stored, session := s), m);
      && r.0 == m.(redis := m.redis[BitmapKey(id) := Bits({i})])
      && r.1.outcome == if s.Total() > 1 then Ok else Internal
  {
    var c0, m' := Fresh(bucket, id, i, data).(stage := Stored, session := s), m.(redis := m.redis[BitmapKey(id) := Bits({i})]);
    var c := c0.(stage := Marked);
    assert BitsOf(m.redis, id) + {i} == {i};
    assert BitsOf(m'.redis, id) == {i} && |{i}| == 1;
    assert Next(c0, m, Proceed) == (m', c);
    assert RunAlone([], c0, m) == RunAlone([], c, m');
    if s.Total() == 1 {
      assert Next(c, m', Proceed) == (m', c.(stage := Assembling));
      MissingPartFails(c.(stage := Assembling), m', 0);
    } else {
      assert Next(c, m', Proceed) == (m', c.(outcome := Ok));
      assert RunAlone([], c, m') == RunAlone([], c.(outcome := Ok), m') == (m', c.(outcome := Ok));
    }
  }

  /** An upload of `file` without faults, whose calls all answered Ok, with the file stored, and with a
      bitmap and a part left that nothing will remove. */
  ghost predicate StoredWithLeftovers(w: World, bucket: string, id: string, s: Session, file: Bytes) {
    && UploadedBy(w, bucket, id, s.prefix, file) && w.uploads[id].session == s
    && MetaKey(id) !in w.mem.redis && BitmapKey(id) in w.mem.redis && PartName(bucket, id, 0) in w.mem.objects
    && !OneCallEach(w, id)
  }

  /** Every upload of more than one chunk has a run in which all calls answer Ok and a chunk sent twice
      leaves a bitmap and a part.  `OneCallEachLeavesNothing` says that only a chunk sent twice can. */
  lemma LateDuplicateExists(start: World, bucket: string, id: string, prefix: string, file: Bytes, preferred: nat)
    requires Initial(start) && bucket != "" && !IsPartKey(prefix) && preferred < TWO_64
    requires 0 < |file| && |file| + ChooseChunk(preferred, start.config.chunkSize) - 1 < TWO_64
    requires 2 <= Session(prefix, |file|, ChooseChunk(preferred, start.config.chunkSize)).Total() <= MAX_BITS
    ensures var s := Session(prefix, |file|, ChooseChunk(preferred, start.config.chunkSize));
      exists run :: Legal(start, run) && StoredWithLeftovers(After(start, run), bucket, id, s, file)
  {
    var open := Open(id, prefix, file, preferred, 0);
    Opened(start, open);
    var w0 := Apply(start, open);
    var run := LeavesFromOpened(w0, start.mem, bucket, id);
    OneAction(start, open);
    RunsJoin(start, [open], run);
    assert StoredWithLeftovers(After(start, [open] + run), bucket, id, w0.uploads[id].session, file);
  }

  lemma LeavesFromOpened(w0: World, m0: Memory, bucket: string, id: string) returns (run: seq<Action>)
    requires id in w0.uploads && UploadTrue(w0.uploads[id]) && w0.uploads[id].session.Total() > 1 && bucket != ""
    requires w0.calls == [] && w0.deleted == {} && w0.overwritten == {} && w0.faulty == w0.lapsed == {}
    requires Unused(m0, bucket, id) && w0.mem == OpenSession(m0, id, w0.uploads[id].session)
    ensures Legal(w0, run)
    ensures StoredWithLeftovers(After(w0, run), bucket, id, w0.uploads[id].session, w0.uploads[id].file)
  {
    var u := w0.uploads[id];
    SessionKeysInjective(id, id);
    var early := AdmitEarly(w0, bucket, id);
    var w1 := After(w0, early);
    UploadsInOrder(w1, m0, bucket, id, u.session.Total());
    var all :| Legal(w1, all) && UploadedInOrder(w1, all, m0, bucket, id, u.session.Total());
    var w2 := After(w1, all);
    var late := FinishLate(w2, m0, bucket, id);
    RunsJoin(w1, all, late);
    RunsJoin(w0, early, all + late);
    LeftoversShown(w0, w1, w2, After(w2, late), bucket, id);
    run := early + (all + late);
  }

  /** A call for chunk 0 that only looks up its session. */
  lemma AdmitEarly(w: World, bucket: string, id: string) returns (run: seq<Action>)
    requires id in w.uploads && UploadTrue(w.uploads[id]) && w.uploads[id].session.Total() > 0 && bucket != "" && w.calls == []
    requires SessionLive(w.mem, id, w.uploads[id].session, w.uploads[id].file)
    ensures var u := w.uploads[id];
      Legal(w, run) && After(w, run)
        == w.(calls := [Fresh(bucket, id, 0, Slice(u.file, u.session.chunk, 0)).(stage := Admitted, session := u.session)])
  {
    var u := w.uploads[id];
    var spawn := Spawn(bucket, id, 0, Slice(u.file, u.session.chunk, 0));
    OneAction(w, spawn);
    OneMoreAction(w, [spawn], Operate(0, Proceed));
    run := [spawn] + [Operate(0, Proceed)];
  }

  lemma FinishLate(w: World, m0: Memory, bucket: string, id: string) returns (run: seq<Action>)
    requires id in w.uploads && w.uploads[id].session.Total() > 1 && !IsPartKey(w.uploads[id].session.prefix)
    requires Unused(m0, bucket, id) && w.mem == Completed(m0, bucket, id, w.uploads[id].session, w.uploads[id].file)
    requires |w.calls| > 0
    requires w.calls[0] == Fresh(bucket, id, 0, w.calls[0].data).(stage := Admitted, session := w.uploads[id].session)
    ensures Legal(w, run) && OnlyRan(w, After(w, run), id)
    ensures After(w, run).mem == WithPart(w.mem, bucket, id, 0, w.calls[0].data)
    ensures var calls := After(w, run).calls;
      |calls| == |w.calls| && AnsweredOk(calls[0], bucket, id, 0) && calls[1..] == w.calls[1..]
    ensures MetaKey(id) !in After(w, run).mem.redis && FileStored(After(w, run), bucket, id)
  {
    var s, data := w.uploads[id].session, w.calls[0].data;
    NothingToRemove(m0, bucket, id, s, w.uploads[id].file);
    forall i: nat ensures PartName(bucket, id, i) !in w.mem.objects { assert s.prefix != PartKey(id, i); }
    LateDuplicateLeaves(w.mem, bucket, id, s, 0, data);
    SoloInWorld(w, 0);
    SoloKeepsNames([], w.calls[0], w.mem);
    run := Solo([], w.calls[0], w.mem, 0);
    assert s.prefix != PartKey(id, 0);
  }

  lemma LeftoversShown(w0: World, w1: World, w2: World, w3: World, bucket: string, id: string)
    requires id in w0.uploads && w0.calls == [] && w0.deleted == {} && w0.overwritten == {} && w0.faulty == w0.lapsed == {}
    requires w0.uploads[id].session.Total() > 1
    requires w1 == w0.(calls := w1.calls) && |w1.calls| == 1
    requires SentInOrder(w1, w2, bucket, id, w0.uploads[id].session.Total()) && OnlyRan(w2, w3, id)
    requires |w3.calls| == |w2.calls| && AnsweredOk(w3.calls[0], bucket, id, 0) && w3.calls[1..] == w2.calls[1..]
    requires FileStored(w3, bucket, id) && MetaKey(id) !in w3.mem.redis
    requires w3.mem == WithPart(w2.mem, bucket, id, 0, w1.calls[0].data)
    ensures StoredWithLeftovers(w3, bucket, id, w0.uploads[id].session, w0.uploads[id].file)
  {
    forall k | 0 < k < |w3.calls| ensures AnsweredOk(w3.calls[k], bucket, id, k - 1) {
      assert w3.calls[1..][k - 1] == w2.calls[1..][k - 1] == w2.calls[k];
    }
    forall i: nat | i < w0.uploads[id].session.Total() ensures Sent(w3, id, i) {
      assert AnsweredOk(w3.calls[i + 1], bucket, id, i);
    }
    assert AnsweredOk(w3.calls[1], bucket, id, 0);
  }
}
