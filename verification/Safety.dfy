/** Safety of the upload protocol: what holds in every reachable state, whatever the interleaving,
    the faults, the expiries and the deletions. */
module Safety {
  import opened Chunking
  import opened Keys
  import opened Protocol
  import opened World

  // ---------- the invariant ----------

  ghost predicate UploadTrue(u: Upload) {
    && |u.file| < TWO_64 && u.session.size == |u.file|
    && 0 < u.session.chunk < TWO_64
    && !IsPartKey(u.session.prefix)
    && u.deadline <= u.expiry
  }

  ghost predicate UploadsTrue(w: World) {
    && 0 < w.config.chunkSize < TWO_63
    && (forall id :: id in w.uploads ==> UploadTrue(w.uploads[id]))
    && (forall e :: e in w.deleted ==> e.0 in w.uploads) && (forall e :: e in w.overwritten ==> e.0 in w.uploads)
  }

  /** A stored session is the one that was opened under that id. */
  ghost predicate SessionsTrue(w: World) {
    forall id :: MetaKey(id) in w.mem.redis ==>
      id in w.uploads && w.mem.redis[MetaKey(id)] == Meta(w.uploads[id].session)
  }

  /** Every set bit is below the total and was set by a call of that upload. */
  ghost predicate BitsTrue(w: World) {
    forall id :: BitmapKey(id) in w.mem.redis ==> BitmapTrue(w, id)
  }

  ghost predicate BitmapTrue(w: World, id: string)
    requires BitmapKey(id) in w.mem.redis
  {
    && id in w.uploads
    && w.mem.redis[BitmapKey(id)].Bits?
    && forall i :: i in w.mem.redis[BitmapKey(id)].bits ==> i < w.uploads[id].session.Total() && MarkedBy(w, id, i)
  }

  /** A stored part is the slice of the file that its name says. */
  ghost predicate PartsTrue(w: World) {
    forall bucket, id, i: nat :: PartName(bucket, id, i) in w.mem.objects ==> PartTrue(w, bucket, id, i)
  }

  ghost predicate PartTrue(w: World, bucket: string, id: string, i: nat)
    requires PartName(bucket, id, i) in w.mem.objects
  {
    && id in w.uploads
    && i < w.uploads[id].session.Total()
    && w.mem.objects[PartName(bucket, id, i)] == Slice(w.uploads[id].file, w.uploads[id].session.chunk, i)
  }

  ghost predicate WholeFileOf(w: World, id: string, prefix: string, blob: Bytes) {
    id in w.uploads && w.uploads[id].session.prefix == prefix && w.uploads[id].file == blob
  }

  /** Every object that is not a part is the whole file of one upload with that prefix. */
  ghost predicate FinalsWhole(w: World) {
    forall name :: name in w.mem.objects && !IsPartKey(name.key) ==>
      exists id :: WholeFileOf(w, id, name.key, w.mem.objects[name])
  }

  /** The final object is there, unless it was deleted, and is the file of the call's upload, unless
      another upload has put its own. */
  ghost predicate FinalKept(w: World, c: Call) {
    var name := FinalOf(c);
    || (c.id, name) in w.deleted
    || (name in w.mem.objects
        && ((c.id, name) in w.overwritten || (c.id in w.uploads && w.mem.objects[name] == w.uploads[c.id].file)))
  }

  /** A call without a bucket, or for a chunk that its upload does not have. */
  ghost predicate Malformed(w: World, c: Call) {
    c.bucket == "" || (c.id in w.uploads && c.seqNo >= w.uploads[c.id].session.Total())
  }

  /** A sweep ends in one way only: with everything visited and the answer Ok. */
  predicate SweepTrue(c: Call) {
    c.outcome == Running || (c.outcome == Ok && c.cursor == c.session.Total())
  }

  ghost predicate CallTrue(w: World, c: Call) {
    && c.outcome != Panicked && c.outcome != Unknown
    && (c.outcome == Ok ==> c.stage.Rank() >= 3)
    && (c.outcome == Internal ==> c.stage != Begun)
    && (c.stage != Begun ==> c.bucket != "")
    && (c.outcome == InvalidArgument ==> c.stage == Begun && Malformed(w, c))
    && (c.id in w.uploads && c.seqNo < w.uploads[c.id].session.Total() ==>
          c.data == Slice(w.uploads[c.id].file, w.uploads[c.id].session.chunk, c.seqNo))
    && (c.stage != Begun ==>
          c.id in w.uploads && c.session == w.uploads[c.id].session && c.seqNo < c.session.Total())
    && (c.stage.Rank() >= 4 ==> c.cursor <= c.session.Total() && AllMarked(w, c.id, c.session.Total()))
    && (c.stage == Assembling ==>
          c.stream == Joined(w.uploads[c.id].file, c.session.chunk, c.cursor) && c.outcome != Ok)
    && (c.stage == Sweeping ==> FinalKept(w, c) && SweepTrue(c))
  }

  ghost predicate CallsTrue(w: World) {
    forall k :: 0 <= k < |w.calls| ==> CallTrue(w, w.calls[k])
  }

  /** A part once put is there until a call of its upload, in its bucket, has put the final object
      and swept past it, or until someone deletes it. */
  ghost predicate PartKept(w: World, c: Call) {
    c.stage.Rank() >= 2 ==>
      || PartName(c.bucket, c.id, c.seqNo) in w.mem.objects
      || SweptPast(w, c.bucket, c.id, c.seqNo)
      || (c.id, PartName(c.bucket, c.id, c.seqNo)) in w.deleted
  }

  ghost predicate PartsKept(w: World) {
    forall k :: 0 <= k < |w.calls| ==> PartKept(w, w.calls[k])
  }

  ghost predicate Safe(w: World) {
    && UploadsTrue(w) && SessionsTrue(w) && BitsTrue(w) && PartsTrue(w) && FinalsWhole(w)
    && CallsTrue(w) && PartsKept(w)
  }

  // ---------- every action keeps it ----------

  lemma DeadlineBeforeExpiry(clock: nat, ttl: nat, delay: nat)
    ensures (clock + ttl) / SECOND * SECOND <= clock + delay + ttl
  {
  }

  lemma StepUploads(w: World, a: Action)
    requires UploadsTrue(w) && Enabled(w, a)
    ensures UploadsTrue(Apply(w, a))
  {
    if a.Open? { DeadlineBeforeExpiry(w.clock, w.config.uploadTTL, a.delay); }
  }

  lemma StepSessions(w: World, a: Action)
    requires SessionsTrue(w) && Enabled(w, a)
    ensures SessionsTrue(Apply(w, a))
  {
    StepGrows(w, a);
    forall id | MetaKey(id) in Apply(w, a).mem.redis
      ensures id in Apply(w, a).uploads && Apply(w, a).mem.redis[MetaKey(id)] == Meta(Apply(w, a).uploads[id].session)
    {
      match a
      case Open(other, _, _, _, _) =>
        SessionKeysInjective(id, other);
      case Expire(other, _) =>
      case Operate(k, choice) =>
        SessionKeysInjective(id, w.calls[k].id);
        OnlyRedisEffects(w.calls[k], w.mem, choice);
      case _ =>
    }
  }

  /** What one operation can do to Redis: set one bit, drop both session keys, or nothing. */
  lemma OnlyRedisEffects(c: Call, m: Memory, f: Choice)
    requires c.outcome == Running
    ensures var r := Next(c, m, f);
      || r.0.redis == m.redis
      || (c.stage == Stored && r.1.stage == Marked
          && r.0.redis == m.redis[BitmapKey(c.id) := Bits(BitsOf(m.redis, c.id) + {c.seqNo})])
      || (c.stage == Sweeping && r.0.redis == m.redis - {MetaKey(c.id), BitmapKey(c.id)})
  {
  }

  lemma StepBits(w: World, a: Action)
    requires BitsTrue(w) && CallsTrue(w) && Enabled(w, a)
    ensures BitsTrue(Apply(w, a))
  {
    AllSessionKeysInjective();
    var w' := Apply(w, a);
    StepGrows(w, a);
    GrowsKeeps(w, w');
    forall id | BitmapKey(id) in w'.mem.redis ensures BitmapTrue(w', id) {
      if a.Operate? { OperateBits(w, a, id); }
      else if BitmapKey(id) in w.mem.redis { assert BitmapTrue(w, id); }
    }
  }

  lemma OperateBits(w: World, a: Action, id: string)
    requires BitsTrue(w) && CallsTrue(w) && Enabled(w, a) && a.Operate?
    requires BitmapKey(id) in Apply(w, a).mem.redis
    ensures BitmapTrue(Apply(w, a), id)
  {
    var w', c := Apply(w, a), w.calls[a.k];
    StepGrows(w, a);
    GrowsKeeps(w, w');
    SessionKeysInjective(c.id, id);
    assert CallTrue(w, c);
    OnlyRedisEffects(c, w.mem, a.choice);
    if BitmapKey(id) in w.mem.redis { assert BitmapTrue(w, id); }
    if w'.calls[a.k].stage == Marked { assert MarkedBy(w', c.id, c.seqNo); }
  }

  lemma StepParts(w: World, a: Action)
    requires UploadsTrue(w) && PartsTrue(w) && CallsTrue(w) && Enabled(w, a)
    ensures PartsTrue(Apply(w, a))
  {
    var w' := Apply(w, a);
    StepGrows(w, a);
    forall bucket, id, i: nat | PartName(bucket, id, i) in w'.mem.objects ensures PartTrue(w', bucket, id, i) {
      if a.Operate? { OperateParts(w, a, bucket, id, i); }
      else { assert PartTrue(w, bucket, id, i); }
    }
  }

  lemma OperateParts(w: World, a: Action, bucket: string, id: string, i: nat)
    requires UploadsTrue(w) && PartsTrue(w) && CallsTrue(w) && Enabled(w, a) && a.Operate?
    requires PartName(bucket, id, i) in Apply(w, a).mem.objects
    ensures PartTrue(Apply(w, a), bucket, id, i)
  {
    var c, name := w.calls[a.k], PartName(bucket, id, i);
    assert CallTrue(w, c);
    OnlyObjectEffects(c, w.mem, a.choice);
    if name in w.mem.objects { assert PartTrue(w, bucket, id, i); }
    if PartKey(id, i) == PartKey(c.id, c.seqNo) { PartKeyInjective(id, i, c.id, c.seqNo); }
    assert IsPartKey(PartKey(id, i));
  }

  lemma StepFinals(w: World, a: Action)
    requires UploadsTrue(w) && FinalsWhole(w) && CallsTrue(w) && Enabled(w, a)
    ensures FinalsWhole(Apply(w, a))
  {
    var w' := Apply(w, a);
    forall name | name in w'.mem.objects && !IsPartKey(name.key)
      ensures exists id :: WholeFileOf(w', id, name.key, w'.mem.objects[name])
    {
      if name in w.mem.objects && w.mem.objects[name] == w'.mem.objects[name] {
        var id :| WholeFileOf(w, id, name.key, w.mem.objects[name]);
        assert WholeFileOf(w', id, name.key, w'.mem.objects[name]);
      } else {
        NewFinalIsWhole(w, a, name);
      }
    }
  }

  lemma NewFinalIsWhole(w: World, a: Action, name: ObjectName)
    requires UploadsTrue(w) && CallsTrue(w) && Enabled(w, a) && name in Apply(w, a).mem.objects && !IsPartKey(name.key)
    requires name in w.mem.objects ==> w.mem.objects[name] != Apply(w, a).mem.objects[name]
    ensures exists id :: WholeFileOf(Apply(w, a), id, name.key, Apply(w, a).mem.objects[name])
  {
    var c := w.calls[a.k];
    assert CallTrue(w, c);
    OnlyObjectEffects(c, w.mem, a.choice);
    assert PartName(c.bucket, c.id, c.seqNo) != name;
    assert c.stage == Assembling && c.cursor == c.session.Total();
    StreamIsFile(w, c);
    assert WholeFileOf(Apply(w, a), c.id, name.key, Apply(w, a).mem.objects[name]);
  }

  /** A full bitmap has every bit: the count reaches the total only when all are set. */
  lemma {:induction false} FullSetHasAll(s: set<nat>, n: nat)
    requires forall i :: i in s ==> i < n
    ensures |s| <= n
    ensures |s| == n <==> forall i: nat :: i < n ==> i in s
  {
    if n == 0 {
      assert s == {};
    } else {
      var t := s - {n - 1};
      FullSetHasAll(t, n - 1);
      if n - 1 in s { assert |s| == |t| + 1; } else { assert s == t; }
    }
  }

  lemma CountMeansAllMarked(w: World, c: Call)
    requires BitsTrue(w) && CallTrue(w, c) && c.stage != Begun
    requires |BitsOf(w.mem.redis, c.id)| == c.session.Total()
    ensures AllMarked(w, c.id, c.session.Total())
  {
    FullSetHasAll(BitsOf(w.mem.redis, c.id), c.session.Total());
  }

  /** The operation just made keeps its own call true in the world before the step. */
  lemma OperatedCall(w: World, c: Call, f: Choice)
    requires UploadsTrue(w) && SessionsTrue(w) && BitsTrue(w) && PartsTrue(w) && CallTrue(w, c) && c.outcome == Running
    ensures var r := Next(c, w.mem, f);
            r.1.stage == Sweeping || CallTrue(w, r.1)
  {
    match c.stage
    case Begun => AdmittedCall(w, c, f);
    case Admitted =>
    case Stored =>
    case Marked => CountedCall(w, c, f);
    case Assembling => AssemblingCall(w, c, f);
    case Sweeping =>
  }

  lemma AdmittedCall(w: World, c: Call, f: Choice)
    requires UploadsTrue(w) && SessionsTrue(w) && CallTrue(w, c) && c.outcome == Running && c.stage == Begun
    ensures CallTrue(w, Admit(c, w.mem, f))
  {
  }

  lemma CountedCall(w: World, c: Call, f: Choice)
    requires BitsTrue(w) && CallTrue(w, c) && c.outcome == Running && c.stage == Marked
    ensures CallTrue(w, CountBits(c, w.mem, f))
  {
    if |BitsOf(w.mem.redis, c.id)| == c.session.Total() { CountMeansAllMarked(w, c); }
  }

  lemma AssemblingCall(w: World, c: Call, f: Choice)
    requires PartsTrue(w) && CallTrue(w, c) && c.outcome == Running && c.stage == Assembling
    ensures var r := Assemble(c, w.mem, f).1;
            r.stage == Sweeping || CallTrue(w, r)
  {
    if PartName(c.bucket, c.id, c.cursor) in w.mem.objects {
      assert w.mem.objects[PartName(c.bucket, c.id, c.cursor)] == Slice(w.uploads[c.id].file, c.session.chunk, c.cursor);
    }
  }

  lemma CallTrueGrows(w: World, w': World, c: Call)
    requires Grows(w, w') && CallTrue(w, c)
    requires c.id in w.uploads || c.id !in w'.uploads
    requires c.stage == Sweeping ==> FinalKept(w', c)
    ensures CallTrue(w', c)
  {
    GrowsKeeps(w, w');
  }

  /** Only a deletion removes a final object, and only another upload's put changes it. */
  lemma FinalStays(w: World, a: Action, c: Call)
    requires Enabled(w, a) && CallsTrue(w) && UploadsTrue(w)
    requires c.stage == Sweeping && CallTrue(w, c)
    ensures FinalKept(Apply(w, a), c)
  {
    if a.Operate? {
      var d := w.calls[a.k];
      assert CallTrue(w, d);
      assert PartName(d.bucket, d.id, d.cursor) != FinalOf(c);
      OnlyObjectEffects(d, w.mem, a.choice);
      if PutsFinal(d, a.choice) && d.id == c.id { StreamIsFile(w, d); }
    }
  }

  lemma StreamIsFile(w: World, c: Call)
    requires UploadsTrue(w) && CallTrue(w, c) && c.stage == Assembling && c.cursor >= c.session.Total()
    ensures c.stream == w.uploads[c.id].file
  {
    JoinedIsFile(w.uploads[c.id].file, c.session.chunk);
  }

  /** What one operation can do to the objects: put a part, put the final object, remove a part,
      or nothing. */
  lemma OnlyObjectEffects(c: Call, m: Memory, f: Choice)
    requires c.outcome == Running
    ensures var r := Next(c, m, f);
      || r.0.objects == m.objects
      || (c.stage == Admitted && r.0.objects == m.objects[PartName(c.bucket, c.id, c.seqNo) := c.data])
      || (PutsFinal(c, f) && r.0.objects == m.objects[ObjectName(c.bucket, c.session.prefix) := c.stream])
      || (c.stage == Sweeping && r.1.stage == Sweeping && c.cursor < c.session.Total()
          && r.0.objects == m.objects - {PartName(c.bucket, c.id, c.cursor)})
  {
  }

  lemma SweepStarts(c: Call, m: Memory, f: Choice)
    requires c.outcome == Running && c.stage == Assembling && c.cursor <= c.session.Total()
    ensures var r := Next(c, m, f);
      r.1.stage == Sweeping ==>
        && r.1.cursor == 0 && r.1.outcome == Running && r.1.(stage := Assembling, cursor := c.cursor) == c
        && c.cursor == c.session.Total()
        && FinalOf(c) in r.0.objects && r.0.objects[FinalOf(c)] == c.stream
  {
  }

  /** An assembler whose operation does not fail stops only at a missing part: once it has read every
      part, its stream has the declared length. */
  lemma AssembleProceeds(w: World, c: Call)
    requires UploadsTrue(w) && CallTrue(w, c) && c.stage == Assembling && c.outcome == Running
    ensures var c', missing := Assemble(c, w.mem, Proceed).1,
                               c.cursor < c.session.Total() && PartName(c.bucket, c.id, c.cursor) !in w.mem.objects;
      && c'.outcome == (if missing then Internal else Running)
      && (missing ==> c' == c.(outcome := Internal))
  {
    if c.cursor >= c.session.Total() { StreamIsFile(w, c); }
  }

  lemma StepOneCall(w: World, a: Action)
    requires Safe(w) && Enabled(w, a) && a.Operate?
    ensures CallTrue(Apply(w, a), Apply(w, a).calls[a.k])
  {
    var w', c := Apply(w, a), w.calls[a.k];
    var c' := w'.calls[a.k];
    StepGrows(w, a);
    assert CallTrue(w, c);
    if c'.stage == Sweeping {
      GrowsKeeps(w, w');
      if c.stage == Assembling {
        SweepStarts(c, w.mem, a.choice);
        StreamIsFile(w, c);
      } else {
        FinalStays(w, a, c);
      }
    } else {
      OperatedCall(w, c, a.choice);
      CallTrueGrows(w, w', c');
    }
  }

  lemma StepOtherCall(w: World, a: Action, k: nat)
    requires UploadsTrue(w) && CallsTrue(w) && Enabled(w, a) && k < |w.calls|
    ensures CallTrue(Apply(w, a), w.calls[k])
  {
    var c := w.calls[k];
    StepGrows(w, a);
    assert CallTrue(w, c);
    if c.stage == Sweeping { FinalStays(w, a, c); }
    CallTrueGrows(w, Apply(w, a), c);
  }

  lemma StepCalls(w: World, a: Action)
    requires Safe(w) && Enabled(w, a)
    ensures CallsTrue(Apply(w, a))
  {
    var w' := Apply(w, a);
    forall k | 0 <= k < |w'.calls| ensures CallTrue(w', w'.calls[k]) {
      if a.Operate? && k == a.k { StepOneCall(w, a); }
      else if k < |w.calls| { StepOtherCall(w, a, k); }
      else { SpawnedCall(w, a); }
    }
  }

  lemma SpawnedCall(w: World, a: Action)
    requires Enabled(w, a) && a.Spawn?
    ensures CallTrue(Apply(w, a), Fresh(a.bucket, a.id, a.seqNo, a.data))
  {
  }

  lemma StepKept(w: World, a: Action)
    requires UploadsTrue(w) && CallsTrue(w) && PartsKept(w) && Enabled(w, a)
    ensures PartsKept(Apply(w, a))
  {
    var w' := Apply(w, a);
    StepGrows(w, a);
    GrowsKeeps(w, w');
    forall k | 0 <= k < |w'.calls| ensures PartKept(w', w'.calls[k]) {
      if k < |w.calls| {
        if a.Operate? {
          PartStays(w, a, k);
        } else {
          assert PartKept(w, w.calls[k]);
        }
      }
    }
  }

  lemma PartStays(w: World, a: Action, k: nat)
    requires k < |w.calls| && Enabled(w, a) && a.Operate?
    requires UploadsTrue(w) && CallsTrue(w) && PartKept(w, w.calls[k])
    ensures PartKept(Apply(w, a), Apply(w, a).calls[k])
  {
    var w', c := Apply(w, a), w.calls[a.k];
    StepGrows(w, a);
    GrowsKeeps(w, w');
    AllPartKeysInjective();
    OnlyObjectEffects(c, w.mem, a.choice);
    StageMoves(c, w.mem, a.choice);
    if c.stage == Admitted { StoredMeansPut(c, w.mem, a.choice); }
    if c.stage == Sweeping {
      assert w'.calls[a.k].stage == Sweeping;
      assert SweptIn(w', c.bucket, c.id);
    }
  }

  lemma StageMoves(c: Call, m: Memory, f: Choice)
    requires c.outcome == Running
    ensures var c' := Next(c, m, f).1;
      && SameCall(c, c')
      && c.stage.Rank() <= c'.stage.Rank() <= c.stage.Rank() + 1
  {
    match c.stage
    case Begun => assert Next(c, m, f).1 == Admit(c, m, f);
    case Admitted => assert Next(c, m, f) == StorePart(c, m, f);
    case Stored => assert Next(c, m, f) == MarkBit(c, m, f);
    case Marked => assert Next(c, m, f).1 == CountBits(c, m, f);
    case Assembling => assert Next(c, m, f) == Assemble(c, m, f);
    case Sweeping => assert Next(c, m, f) == Sweep(c, m, f);
  }

  predicate SameCall(c: Call, c': Call) {
    c'.bucket == c.bucket && c'.id == c.id && c'.seqNo == c.seqNo && c'.data == c.data
  }

  lemma StoredMeansPut(c: Call, m: Memory, f: Choice)
    requires c.outcome == Running && c.stage == Admitted
    ensures var r := Next(c, m, f);
      r.1.stage == Stored ==> r.0.objects == m.objects[PartName(c.bucket, c.id, c.seqNo) := c.data]
  {
  }

  lemma StepSafe(w: World, a: Action)
    requires Safe(w) && Enabled(w, a)
    ensures Safe(Apply(w, a))
  {
    StepUploads(w, a);
    StepSessions(w, a);
    StepBits(w, a);
    StepParts(w, a);
    StepFinals(w, a);
    StepCalls(w, a);
    StepKept(w, a);
  }

  lemma {:induction false} RunSafe(w: World, run: seq<Action>)
    requires Safe(w) && Legal(w, run)
    ensures Safe(After(w, run))
    decreases |run|
  {
    if run != [] {
      StepSafe(w, run[0]);
      RunSafe(Apply(w, run[0]), run[1..]);
    }
  }

  lemma ReachableSafe(w: World)
    requires Reachable(w)
    ensures Safe(w)
  {
    var start, run :| Initial(start) && Legal(start, run) && After(start, run) == w;
    RunSafe(start, run);
  }

  // ---------- main results ----------

  /** No torn objects: over any number of sessions and calls, with any faults, expiries and
      deletions, an object under a final prefix is byte for byte the file of one upload to it. */
  lemma NoTornObjects(w: World, name: ObjectName)
    requires Reachable(w) && name in w.mem.objects && !IsPartKey(name.key)
    ensures exists id :: WholeFileOf(w, id, name.key, w.mem.objects[name])
  {
    ReachableSafe(w);
  }

  /** The complete file of `id` is the stored object under its prefix. */
  ghost predicate FileStored(w: World, bucket: string, id: string)
    requires id in w.uploads
  {
    var name := ObjectName(bucket, w.uploads[id].session.prefix);
    name in w.mem.objects && w.mem.objects[name] == w.uploads[id].file
  }

  /** The final object was deleted after the upload was opened. */
  ghost predicate FinalDeleted(w: World, bucket: string, id: string)
    requires id in w.uploads
  {
    (id, ObjectName(bucket, w.uploads[id].session.prefix)) in w.deleted
  }

  /** Another upload has put its own file under the same name after the upload was opened. */
  ghost predicate FinalOverwritten(w: World, bucket: string, id: string)
    requires id in w.uploads
  {
    (id, ObjectName(bucket, w.uploads[id].session.prefix)) in w.overwritten
  }

  /** An object is stored under the final name, and it is the file unless another upload put its own. */
  ghost predicate FinalStored(w: World, bucket: string, id: string)
    requires id in w.uploads
  {
    ObjectName(bucket, w.uploads[id].session.prefix) in w.mem.objects && (FileStored(w, bucket, id) || FinalOverwritten(w, bucket, id))
  }

  /** After one call of an upload has begun to sweep, the file is stored, unless it was deleted or
      another upload has put its own since. */
  lemma SweptFileStored(w: World, bucket: string, id: string)
    requires Safe(w) && SweptIn(w, bucket, id)
    ensures id in w.uploads
    ensures FinalStored(w, bucket, id) || FinalDeleted(w, bucket, id)
  {
    var k :| 0 <= k < |w.calls| && w.calls[k].bucket == bucket && w.calls[k].id == id && w.calls[k].stage == Sweeping;
    assert CallTrue(w, w.calls[k]);
  }

  /** No acknowledged chunk is ever lost: the chunk of a call that answered Ok is stored as a part,
      or the final object is stored (and is the whole file unless another upload has put its own
      there), or one of the two was deleted.  Only what happened since the upload was opened
      excuses. */
  lemma NoAcknowledgedChunkLost(w: World, k: nat)
    requires Reachable(w) && k < |w.calls| && w.calls[k].outcome == Ok
    ensures var c := w.calls[k];
      var part := PartName(c.bucket, c.id, c.seqNo);
      && c.id in w.uploads && c.session == w.uploads[c.id].session
      && (|| (part in w.mem.objects && w.mem.objects[part] == c.data)
          || FinalStored(w, c.bucket, c.id)
          || (c.id, part) in w.deleted || FinalDeleted(w, c.bucket, c.id))
  {
    ReachableSafe(w);
    var c := w.calls[k];
    assert CallTrue(w, c) && PartKept(w, c);
    if SweptPast(w, c.bucket, c.id, c.seqNo) {
      SweptPastIsSweptIn(w, c.bucket, c.id, c.seqNo);
      SweptFileStored(w, c.bucket, c.id);
    }
  }

  /** Bitmap exactness: every set bit names a chunk of the file whose part a call has put, and the
      count equals the total exactly when the bit of every chunk is set. */
  lemma BitmapExact(w: World, id: string)
    requires Reachable(w) && id in w.uploads
    ensures var bits, total := BitsOf(w.mem.redis, id), w.uploads[id].session.Total();
      && (forall i :: i in bits ==> i < total && MarkedBy(w, id, i))
      && |bits| <= total
      && (|bits| == total <==> forall i: nat :: i < total ==> i in bits)
  {
    ReachableSafe(w);
    FullSetHasAll(BitsOf(w.mem.redis, id), w.uploads[id].session.Total());
  }

  /** Only malformed calls are refused as invalid, and a malformed call never stores anything: it
      stays before its first effect and never answers Ok.  A lookup that does not fail refuses it as
      invalid if and only if it has no bucket, or finds the session and a chunk that it does not
      have. */
  lemma MalformedCallsRefused(w: World, k: nat)
    requires Reachable(w) && k < |w.calls|
    ensures w.calls[k].outcome == InvalidArgument ==> Malformed(w, w.calls[k])
    ensures Malformed(w, w.calls[k]) ==> w.calls[k].stage == Begun && w.calls[k].outcome !in {Ok, Internal, Panicked, Unknown}
    ensures w.calls[k].outcome == Running && w.calls[k].stage == Begun ==>
              var c := w.calls[k];
              (Apply(w, Operate(k, Proceed)).calls[k].outcome == InvalidArgument <==>
                 c.bucket == "" || (MetaKey(c.id) in w.mem.redis && c.id in w.uploads && w.uploads[c.id].session.chunk > 0
                                    && c.seqNo >= ServerTotal(|w.uploads[c.id].file|, w.uploads[c.id].session.chunk)))
  {
    ReachableSafe(w);
    assert CallTrue(w, w.calls[k]);
  }

  /** No stored session has chunk size zero, and no call ever panics. */
  lemma NoPanic(w: World, id: string, k: nat)
    requires Reachable(w)
    ensures MetaKey(id) in w.mem.redis ==> w.mem.redis[MetaKey(id)].Meta? && w.mem.redis[MetaKey(id)].session.chunk > 0
    ensures k < |w.calls| ==> w.calls[k].outcome != Panicked
  {
    ReachableSafe(w);
    if k < |w.calls| { assert CallTrue(w, w.calls[k]); }
  }
}
