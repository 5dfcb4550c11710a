/** Which lists of sends can leave something behind: exactly those that send a chunk twice. */
module Duplicates {
  import opened Chunking
  import opened Keys
  import opened Protocol
  import opened World
  import opened Safety
  import opened Completion
  import opened Delivery
  import opened Overlap

  /** The calls of a fault-free run are these sends of `file`, one after another, and all have ended. */
  ghost predicate EndedWith(w: World, bucket: string, id: string, s: Session, file: Bytes, sends: seq<nat>) {
    && id in w.uploads && w.uploads[id].session == s && w.uploads[id].file == file
    && id !in w.lapsed && id !in w.faulty && !PartDeleted(w, bucket, id)
    && |w.calls| == |sends|
    && forall k :: 0 <= k < |sends| ==> SentAs(w.calls[k], bucket, id, sends[k]) && w.calls[k].outcome != Running
  }

  predicate SentAs(c: Call, bucket: string, id: string, i: nat) {
    c.bucket == bucket && c.id == id && c.seqNo == i
  }

  /** Something of the upload but its final object is still stored. */
  ghost predicate Leftover(w: World, bucket: string, id: string) {
    MetaKey(id) in w.mem.redis || BitmapKey(id) in w.mem.redis || exists i: nat :: PartName(bucket, id, i) in w.mem.objects
  }

  predicate SentTwice(sends: seq<nat>) {
    exists a, b :: 0 <= a < b < |sends| && sends[a] == sends[b]
  }

  ghost predicate LeavesAfter(w: World, bucket: string, id: string, s: Session, file: Bytes, sends: seq<nat>) {
    EndedWith(w, bucket, id, s, file, sends) && Leftover(w, bucket, id)
  }

  /** Some run of exactly these sends, without faults and with all calls ended, leaves something behind. */
  ghost predicate CanLeave(start: World, bucket: string, id: string, s: Session, file: Bytes, sends: seq<nat>) {
    exists run :: Legal(start, run) && LeavesAfter(After(start, run), bucket, id, s, file, sends)
  }

  /** Any list of sends that covers the file: some run of exactly these sends, without faults and with all
      calls ended, leaves something behind, if and only if the list has a chunk twice. */
  lemma LeftoverExactlyByDuplicate(start: World, bucket: string, id: string, prefix: string, file: Bytes, preferred: nat,
                                   sends: seq<nat>)
    requires Initial(start) && bucket != "" && !IsPartKey(prefix) && preferred < TWO_64
    requires 0 < |file| && |file| + ChooseChunk(preferred, start.config.chunkSize) - 1 < TWO_64
    requires var total := Session(prefix, |file|, ChooseChunk(preferred, start.config.chunkSize)).Total();
      total <= MAX_BITS && Covers(sends, total) && forall k :: 0 <= k < |sends| ==> sends[k] < total
    ensures var s := Session(prefix, |file|, ChooseChunk(preferred, start.config.chunkSize));
      SentTwice(sends) <==> CanLeave(start, bucket, id, s, file, sends)
  {
    var s := Session(prefix, |file|, ChooseChunk(preferred, start.config.chunkSize));
    if SentTwice(sends) {
      DuplicateCanLeave(start, bucket, id, prefix, file, preferred, sends);
    } else if CanLeave(start, bucket, id, s, file, sends) {
      var run :| Legal(start, run) && LeavesAfter(After(start, run), bucket, id, s, file, sends);
      ServerTotalExact(|file|, s.chunk);
      MulCancel(0, s.Total(), s.chunk);
      NothingWithoutDuplicate(After(start, run), bucket, id, s, file, sends);
    }
  }

  lemma DuplicateCanLeave(start: World, bucket: string, id: string, prefix: string, file: Bytes, preferred: nat, sends: seq<nat>)
    requires Initial(start) && bucket != "" && !IsPartKey(prefix) && preferred < TWO_64 && SentTwice(sends)
    requires 0 < |file| && |file| + ChooseChunk(preferred, start.config.chunkSize) - 1 < TWO_64
    requires var total := Session(prefix, |file|, ChooseChunk(preferred, start.config.chunkSize)).Total();
      Covers(sends, total) && forall k :: 0 <= k < |sends| ==> sends[k] < total
    ensures CanLeave(start, bucket, id, Session(prefix, |file|, ChooseChunk(preferred, start.config.chunkSize)), file, sends)
  {
    var a, b :| 0 <= a < b < |sends| && sends[a] == sends[b];
    var open := Open(id, prefix, file, preferred, 0);
    Opened(start, open);
    var w0 := Apply(start, open);
    var run := LeavesBit(w0, start.mem, bucket, id, sends, a, b);
    OneAction(start, open);
    RunsJoin(start, [open], run);
    assert LeavesAfter(After(start, [open] + run), bucket, id, w0.uploads[id].session, file, sends);
  }

  lemma NothingWithoutDuplicate(w: World, bucket: string, id: string, s: Session, file: Bytes, sends: seq<nat>)
    requires Reachable(w) && bucket != "" && EndedWith(w, bucket, id, s, file, sends) && !SentTwice(sends)
    requires s.Total() > 0 && Covers(sends, s.Total()) && forall k :: 0 <= k < |sends| ==> sends[k] < s.Total()
    ensures !Leftover(w, bucket, id)
  {
    forall j, k | 0 <= j < k < |w.calls| ensures w.calls[j].seqNo != w.calls[k].seqNo {
      assert SentAs(w.calls[j], bucket, id, sends[j]) && SentAs(w.calls[k], bucket, id, sends[k]);
    }
    forall k | 0 <= k < |w.calls| ensures w.calls[k].bucket == bucket && InRange(w, w.calls[k], id) {
      assert SentAs(w.calls[k], bucket, id, sends[k]);
    }
    forall i: nat | i < s.Total() ensures Sent(w, id, i) {
      assert i in sends;
      var k :| 0 <= k < |sends| && sends[k] == i;
      assert SentAs(w.calls[k], bucket, id, sends[k]);
    }
    KeysGoneWhenEnded(w, id, bucket);
  }

  // ---------- the run that leaves a bitmap ----------

  function CallsOf(bucket: string, id: string, chunk: nat, file: Bytes, sends: seq<nat>): seq<Call> {
    seq(|sends|, k requires 0 <= k < |sends| => Fresh(bucket, id, sends[k], Slice(file, chunk, sends[k])))
  }

  /** All sends are spawned, one after another. */
  lemma {:induction false} SpawnsAll(w: World, bucket: string, id: string, sends: seq<nat>) returns (run: seq<Action>)
    requires id in w.uploads
    ensures var u := w.uploads[id];
      Legal(w, run) && After(w, run) == w.(calls := w.calls + CallsOf(bucket, id, u.session.chunk, u.file, sends))
  {
    var u := w.uploads[id];
    if sends == [] {
      run := [];
      assert w.calls + CallsOf(bucket, id, u.session.chunk, u.file, []) == w.calls;
    } else {
      var n := |sends| - 1;
      var before := SpawnsAll(w, bucket, id, sends[..n]);
      var spawn := Spawn(bucket, id, sends[n], Slice(u.file, u.session.chunk, sends[n]));
      OneMoreAction(w, before, spawn);
      run := before + [spawn];
      var calls, calls' := CallsOf(bucket, id, u.session.chunk, u.file, sends[..n]), CallsOf(bucket, id, u.session.chunk, u.file, sends);
      assert calls' == calls + [Fresh(bucket, id, spawn.seqNo, spawn.data)];
      assert w.calls + calls + [Fresh(bucket, id, spawn.seqNo, spawn.data)] == w.calls + calls';
    }
  }

  predicate Full(sent: set<nat>, total: nat) {
    forall i: nat :: i < total ==> i in sent
  }

  /** The stores when the chunks `sent` were delivered, perhaps all. */
  ghost predicate HoldsOrCompleted(m: Memory, m0: Memory, bucket: string, id: string, s: Session, file: Bytes, sent: set<nat>) {
    && (forall i :: i in sent ==> i < s.Total())
    && if Full(sent, s.Total()) then m == Completed(m0, bucket, id, s, file)
       else Holds(m, m0, bucket, id, s, file, sent)
  }

  /** One more delivery, before or after the completion. */
  lemma OneDelivery(m: Memory, m0: Memory, bucket: string, id: string, s: Session, file: Bytes, sent: set<nat>, i: nat)
    requires bucket != "" && Prepared(m0, bucket, id, s.chunk, file) && HoldsOrCompleted(m, m0, bucket, id, s, file, sent)
    requires s.size == |file| < TWO_64 && 0 < s.chunk < TWO_64 && i < s.Total()
    ensures var r := RunAlone([], Fresh(bucket, id, i, Slice(file, s.chunk, i)), m);
      HoldsOrCompleted(r.0, m0, bucket, id, s, file, sent + {i}) && r.1.outcome != Running
  {
    if Full(sent, s.Total()) {
      assert sent + {i} == sent;
      CallAfterCompletion(m, Fresh(bucket, id, i, Slice(file, s.chunk, i)));
    } else {
      OneMoreDelivery(m, m0, bucket, id, s, file, sent, i);
      assert Full(sent + {i}, s.Total()) <==> forall j: nat :: j < s.Total() ==> j in sent + {i};
    }
  }

  /** The chunks of the sends from `k` on, without number `b`. */
  function ChunksFrom(sends: seq<nat>, k: nat, b: nat): set<nat> {
    set x | k <= x < |sends| && x != b :: sends[x]
  }

  lemma ChunksFromStep(sends: seq<nat>, k: nat, b: nat, sent: set<nat>)
    requires k <= |sends|
    ensures sent + ChunksFrom(sends, k, b) ==
      if k == |sends| then sent
      else if k == b then sent + ChunksFrom(sends, k + 1, b)
      else sent + {sends[k]} + ChunksFrom(sends, k + 1, b)
  {
    if k < |sends| && k != b {
      assert ChunksFrom(sends, k, b) == {sends[k]} + ChunksFrom(sends, k + 1, b);
    }
  }

  /** The calls of `w` from `k` on, but call `b`, have yet to begin. */
  ghost predicate Waiting(w: World, bucket: string, id: string, chunk: nat, file: Bytes, sends: seq<nat>, b: nat, k: nat) {
    && |w.calls| == |sends|
    && forall x :: k <= x < |sends| && x != b ==> w.calls[x] == Fresh(bucket, id, sends[x], Slice(file, chunk, sends[x]))
  }

  /** From `w` to `w'` these calls have run to their ends, and no other has moved. */
  ghost predicate RanFrom(w: World, w': World, bucket: string, id: string, sends: seq<nat>, b: nat, k: nat) {
    && OnlyRan(w, w', id) && |w.calls| == |w'.calls| == |sends|
    && forall x :: 0 <= x < |sends| ==>
         if x < k || x == b then w'.calls[x] == w.calls[x]
         else SentAs(w'.calls[x], bucket, id, sends[x]) && w'.calls[x].outcome != Running
  }

  /** Call `k` runs to its end. */
  lemma RunOne(w: World, m0: Memory, bucket: string, id: string, s: Session, file: Bytes,
               sends: seq<nat>, b: nat, k: nat, sent: set<nat>) returns (run: seq<Action>)
    requires bucket != "" && s.size == |file| < TWO_64 && 0 < s.chunk < TWO_64 && Prepared(m0, bucket, id, s.chunk, file)
    requires k < |sends| && k != b && sends[k] < s.Total() && Waiting(w, bucket, id, s.chunk, file, sends, b, k)
    requires HoldsOrCompleted(w.mem, m0, bucket, id, s, file, sent)
    ensures Legal(w, run) && OnlyRan(w, After(w, run), id) && |After(w, run).calls| == |sends|
    ensures After(w, run).calls == w.calls[k := After(w, run).calls[k]]
    ensures SentAs(After(w, run).calls[k], bucket, id, sends[k]) && After(w, run).calls[k].outcome != Running
    ensures HoldsOrCompleted(After(w, run).mem, m0, bucket, id, s, file, sent + {sends[k]})
  {
    OneDelivery(w.mem, m0, bucket, id, s, file, sent, sends[k]);
    SoloInWorld(w, k);
    SoloKeepsNames([], w.calls[k], w.mem);
    run := Solo([], w.calls[k], w.mem, k);
  }

  /** The calls from `k` on, but call `b`, run to their ends one by one. */
  lemma {:induction false} RunOthers(w: World, m0: Memory, bucket: string, id: string, s: Session, file: Bytes,
                                     sends: seq<nat>, b: nat, k: nat, sent: set<nat>, all: set<nat>) returns (run: seq<Action>)
    requires bucket != "" && s.size == |file| < TWO_64 && 0 < s.chunk < TWO_64 && Prepared(m0, bucket, id, s.chunk, file)
    requires k <= |sends| && all == sent + ChunksFrom(sends, k, b) && forall x :: 0 <= x < |sends| ==> sends[x] < s.Total()
    requires Waiting(w, bucket, id, s.chunk, file, sends, b, k) && HoldsOrCompleted(w.mem, m0, bucket, id, s, file, sent)
    ensures Legal(w, run) && RanFrom(w, After(w, run), bucket, id, sends, b, k)
    ensures HoldsOrCompleted(After(w, run).mem, m0, bucket, id, s, file, all)
    decreases |sends| - k
  {
    ChunksFromStep(sends, k, b, sent);
    if k == |sends| {
      run := [];
    } else if k == b {
      run := RunOthers(w, m0, bucket, id, s, file, sends, b, k + 1, sent, all);
    } else {
      var one := RunOne(w, m0, bucket, id, s, file, sends, b, k, sent);
      var w' := After(w, one);
      var rest := RunOthers(w', m0, bucket, id, s, file, sends, b, k + 1, sent + {sends[k]}, all);
      RunsJoin(w, one, rest);
      RanJoin(w, w', After(w', rest), bucket, id, sends, b, k);
      run := one + rest;
    }
  }

  lemma RanJoin(w: World, w': World, w'': World, bucket: string, id: string, sends: seq<nat>, b: nat, k: nat)
    requires OnlyRan(w, w', id) && |w.calls| == |sends| && k < |sends| && k != b
    requires |w'.calls| == |sends| && w'.calls == w.calls[k := w'.calls[k]]
    requires SentAs(w'.calls[k], bucket, id, sends[k]) && w'.calls[k].outcome != Running
    requires RanFrom(w', w'', bucket, id, sends, b, k + 1)
    ensures RanFrom(w, w'', bucket, id, sends, b, k)
  {
  }

  /** Chunk `d` stored in advance. */
  function WithEarlyPart(m: Memory, bucket: string, id: string, chunk: nat, file: Bytes, d: nat): Memory {
    m.(objects := m.objects[PartName(bucket, id, d) := Slice(file, chunk, d)])
  }

  lemma EarlyIsPrepared(m: Memory, bucket: string, id: string, s: Session, file: Bytes, d: nat)
    requires Unused(m, bucket, id) && s.Total() > 0
    ensures var m' := WithEarlyPart(m, bucket, id, s.chunk, file, d);
      Prepared(m', bucket, id, s.chunk, file) && HoldsOrCompleted(OpenSession(m', id, s), m', bucket, id, s, file, {})
  {
    var m' := WithEarlyPart(m, bucket, id, s.chunk, file, d);
    forall i: nat | PartName(bucket, id, i) in m'.objects ensures HasPart(m', bucket, id, file, s.chunk, i) {
      if PartKey(id, i) == PartKey(id, d) { PartKeyInjective(id, i, id, d); }
    }
    var none: set<nat> := {};
    assert !Full(none, s.Total()) by { assert (0 as nat) !in none; }
  }

  /** Call `b` looks up its session and stores its part; a call of the same chunk and all others run to
      their ends, so that everything is swept; then call `b` sets its bit. */
  lemma LeavesBit(w0: World, m0: Memory, bucket: string, id: string, sends: seq<nat>, a: nat, b: nat) returns (run: seq<Action>)
    requires id in w0.uploads && UploadTrue(w0.uploads[id]) && w0.uploads[id].session.Total() > 0 && bucket != ""
    requires w0.calls == [] && w0.deleted == {} && w0.faulty == w0.lapsed == {}
    requires Unused(m0, bucket, id) && w0.mem == OpenSession(m0, id, w0.uploads[id].session)
    requires a < b < |sends| && sends[a] == sends[b] && Covers(sends, w0.uploads[id].session.Total())
    requires forall k :: 0 <= k < |sends| ==> sends[k] < w0.uploads[id].session.Total()
    ensures Legal(w0, run)
    ensures EndedWith(After(w0, run), bucket, id, w0.uploads[id].session, w0.uploads[id].file, sends)
    ensures Leftover(After(w0, run), bucket, id)
  {
    var s, file := w0.uploads[id].session, w0.uploads[id].file;
    var spawns := SpawnsAll(w0, bucket, id, sends);
    var w1 := After(w0, spawns);
    var early := StoresEarly(w1, m0, bucket, id, s, file, b);
    var w2 := After(w1, early);
    var rest := OthersThenLast(w2, m0, bucket, id, s, file, sends, a, b);
    RunsJoin(w1, early, rest);
    RunsJoin(w0, spawns, early + rest);
    OnlyRanJoin(w1, w2, After(w2, rest), id);
    run := spawns + (early + rest);
  }

  /** All calls but `b` run to their ends, and then call `b`. */
  lemma OthersThenLast(w: World, m0: Memory, bucket: string, id: string, s: Session, file: Bytes,
                       sends: seq<nat>, a: nat, b: nat) returns (run: seq<Action>)
    requires bucket != "" && s.size == |file| < TWO_64 && 0 < s.chunk < TWO_64 && s.Total() > 0 && !IsPartKey(s.prefix)
    requires a < b < |sends| && sends[a] == sends[b] && Covers(sends, s.Total()) && Unused(m0, bucket, id)
    requires forall k :: 0 <= k < |sends| ==> sends[k] < s.Total()
    requires w.mem == OpenSession(WithEarlyPart(m0, bucket, id, s.chunk, file, sends[b]), id, s)
    requires Waiting(w, bucket, id, s.chunk, file, sends, b, 0)
    requires w.calls[b] == Fresh(bucket, id, sends[b], Slice(file, s.chunk, sends[b])).(stage := Stored, session := s)
    ensures Legal(w, run) && OnlyRan(w, After(w, run), id) && BitmapKey(id) in After(w, run).mem.redis
    ensures var calls := After(w, run).calls;
      |calls| == |sends| && forall k :: 0 <= k < |sends| ==> SentAs(calls[k], bucket, id, sends[k]) && calls[k].outcome != Running
  {
    var m0' := WithEarlyPart(m0, bucket, id, s.chunk, file, sends[b]);
    EarlyIsPrepared(m0, bucket, id, s, file, sends[b]);
    var others := RunOthers(w, m0', bucket, id, s, file, sends, b, 0, {}, {} + ChunksFrom(sends, 0, b));
    var w' := After(w, others);
    AllChunksWithout(sends, a, b, s.Total());
    var last := MarksLate(w', m0, bucket, id, s, file, b);
    RunsJoin(w, others, last);
    OnlyRanJoin(w, w', After(w', last), id);
    run := others + last;
  }

  /** Call `b` sets its bit after everything was swept. */
  lemma MarksLate(w: World, m0: Memory, bucket: string, id: string, s: Session, file: Bytes, b: nat) returns (run: seq<Action>)
    requires b < |w.calls| && w.calls[b].seqNo < s.Total() && !IsPartKey(s.prefix) && Unused(m0, bucket, id)
    requires w.calls[b] == Fresh(bucket, id, w.calls[b].seqNo, w.calls[b].data).(stage := Stored, session := s)
    requires w.mem == Completed(WithEarlyPart(m0, bucket, id, s.chunk, file, w.calls[b].seqNo), bucket, id, s, file)
    ensures Legal(w, run) && OnlyRan(w, After(w, run), id) && BitmapKey(id) in After(w, run).mem.redis
    ensures var calls := After(w, run).calls;
      && |calls| == |w.calls| && calls == w.calls[b := calls[b]]
      && SameCall(w.calls[b], calls[b]) && calls[b].outcome != Running
  {
    NothingOfCompleted(m0, bucket, id, s, file, w.calls[b].seqNo);
    LateBitLeaves(w.mem, bucket, id, s, w.calls[b].seqNo, w.calls[b].data);
    SoloInWorld(w, b);
    SoloKeepsNames([], w.calls[b], w.mem);
    run := Solo([], w.calls[b], w.mem, b);
  }

  lemma AllChunksWithout(sends: seq<nat>, a: nat, b: nat, total: nat)
    requires a < b < |sends| && sends[a] == sends[b] && Covers(sends, total)
    ensures Full({} + ChunksFrom(sends, 0, b), total)
  {
    forall i: nat | i < total ensures i in ChunksFrom(sends, 0, b) {
      assert i in sends;
      var x :| 0 <= x < |sends| && sends[x] == i;
      assert sends[if x == b then a else x] == i;
    }
  }

  lemma NothingOfCompleted(m0: Memory, bucket: string, id: string, s: Session, file: Bytes, d: nat)
    requires Unused(m0, bucket, id) && d < s.Total() && !IsPartKey(s.prefix)
    ensures Unused(Completed(WithEarlyPart(m0, bucket, id, s.chunk, file, d), bucket, id, s, file), bucket, id)
  {
    var m' := WithEarlyPart(m0, bucket, id, s.chunk, file, d);
    forall i: nat ensures PartName(bucket, id, i) !in Completed(m', bucket, id, s, file).objects {
      assert s.prefix != PartKey(id, i);
      if PartKey(id, i) == PartKey(id, d) { PartKeyInjective(id, i, id, d); }
    }
  }

  lemma StoresEarly(w: World, m0: Memory, bucket: string, id: string, s: Session, file: Bytes, b: nat) returns (run: seq<Action>)
    requires b < |w.calls| && bucket != "" && s.size == |file| < TWO_64 && 0 < s.chunk < TWO_64
    requires w.calls[b].seqNo < s.Total() && w.mem == OpenSession(m0, id, s)
    requires w.calls[b] == Fresh(bucket, id, w.calls[b].seqNo, Slice(file, s.chunk, w.calls[b].seqNo))
    ensures Legal(w, run) && OnlyRan(w, After(w, run), id)
    ensures After(w, run).mem == OpenSession(WithEarlyPart(m0, bucket, id, s.chunk, file, w.calls[b].seqNo), id, s)
    ensures After(w, run).calls == w.calls[b := w.calls[b].(stage := Stored, session := s)]
  {
    var op := Operate(b, Proceed);
    SessionKeysInjective(id, id);
    var w1 := Apply(w, op);
    assert w1.calls[b] == w.calls[b].(stage := Admitted, session := s) && w1.mem == w.mem;
    var w2 := Apply(w1, op);
    assert w2.calls == w.calls[b := w2.calls[b]];
    OneAction(w, op);
    OneMoreAction(w, [op], op);
    run := [op] + [op];
  }
}
