/** Several uploads to one name: when a final object is overwritten by another upload, and what a
    prefix that names another upload's part does to that upload. */
module Sharing {
  import opened Chunking
  import opened Keys
  import opened Protocol
  import opened World
  import opened Safety
  import opened Completion
  import opened Delivery
  import opened Overlap

  // ---------- uploads to the same prefix ----------

  /** The upload can put nothing any more: its session is gone, and no running call has looked it up. */
  ghost predicate Over(w: World, id: string) {
    && id in w.uploads && MetaKey(id) !in w.mem.redis
    && forall k :: 0 <= k < |w.calls| && w.calls[k].id == id && w.calls[k].outcome == Running ==> w.calls[k].stage == Begun
  }

  /** An upload whose chunks were sent once each, and whose calls have ended without faults, is over. */
  lemma EndedIsOver(w: World, id: string, bucket: string)
    requires Reachable(w) && Orderly(w, id, bucket) && w.uploads[id].session.Total() > 0
    requires AllSent(w, id) && AllEnded(w, id)
    ensures Over(w, id)
  {
    KeysGoneWhenEnded(w, id, bucket);
  }

  /** Every upload to the prefix of `id`, but `id` itself, is over. */
  ghost predicate OthersOver(w: World, id: string)
    requires id in w.uploads
  {
    forall other :: other in w.uploads && other != id && w.uploads[other].session.prefix == w.uploads[id].session.prefix ==>
                      Over(w, other)
  }

  /** Once over, always over: calls that come later find no session. */
  lemma StepOver(w: World, a: Action, id: string)
    requires Enabled(w, a) && Over(w, id)
    ensures Over(Apply(w, a), id)
  {
    match a
    case Open(other, _, _, _, _) =>
      SessionKeysInjective(other, id);
      SessionKeysInjective(id, other);
    case Operate(k, choice) =>
      SessionKeysInjective(id, w.calls[k].id);
      OnlyRedisEffects(w.calls[k], w.mem, choice);
    case _ =>
  }

  lemma {:induction false} RunGrows(w: World, run: seq<Action>)
    requires Legal(w, run)
    ensures w.uploads.Keys <= After(w, run).uploads.Keys
    ensures forall id :: id in w.uploads ==> After(w, run).uploads[id] == w.uploads[id]
    decreases |run|
  {
    if run != [] { RunGrows(Apply(w, run[0]), run[1..]); }
  }

  /** No upload to the prefix of `id` is opened between `w` and `w'`. */
  ghost predicate NoneOpened(w: World, w': World, id: string)
    requires id in w.uploads
  {
    forall other :: other in w'.uploads && w'.uploads[other].session.prefix == w.uploads[id].session.prefix ==>
                      other in w.uploads
  }

  lemma {:induction false} StaysUndisturbed(w: World, run: seq<Action>, bucket: string, id: string)
    requires Safe(w) && Legal(w, run) && id in w.uploads && OthersOver(w, id) && !FinalOverwritten(w, bucket, id)
    requires NoneOpened(w, After(w, run), id)
    ensures id in After(w, run).uploads && !FinalOverwritten(After(w, run), bucket, id)
    decreases |run|
  {
    if run != [] {
      var w' := Apply(w, run[0]);
      StepSafe(w, run[0]);
      RunGrows(w', run[1..]);
      forall other | other in w'.uploads && other != id && w'.uploads[other].session.prefix == w.uploads[id].session.prefix
        ensures Over(w', other)
      {
        assert other in After(w, run).uploads;
        StepOver(w, run[0], other);
      }
      if run[0].Operate? { assert CallTrue(w, w.calls[run[0].k]); }
      StaysUndisturbed(w', run[1..], bucket, id);
    }
  }

  /** A second upload to a prefix is safe when the earlier ones are over: on every continuation in
      which no further upload to that prefix is opened, no other upload puts over its object. */
  lemma ReuploadUndisturbed(w: World, open: Action, run: seq<Action>, bucket: string)
    requires Reachable(w) && open.Open? && Enabled(w, open) && Legal(Apply(w, open), run)
    requires OthersOver(Apply(w, open), open.id) && NoneOpened(Apply(w, open), After(Apply(w, open), run), open.id)
    ensures open.id in After(Apply(w, open), run).uploads
    ensures !FinalOverwritten(After(Apply(w, open), run), bucket, open.id)
  {
    ReachableSafe(w);
    StepSafe(w, open);
    StaysUndisturbed(Apply(w, open), run, bucket, open.id);
  }

  // ---------- prefixes named like a part ----------

  /** A whole upload, delivered one call at a time in any order, leaves a stored part of another upload
      as it was if and only if its prefix is not that part's name, or its file is what the part
      held anyway. */
  lemma ForeignPartsKept(m: Memory, bucket: string, id: string, s: Session, file: Bytes, order: seq<nat>,
                         other: string, i: nat)
    requires bucket != "" && Unused(m, bucket, id) && other != id && PartName(bucket, other, i) in m.objects
    requires s.size == |file| < TWO_64 && 0 < s.chunk < TWO_64 && s.Total() > 0
    requires (forall k :: 0 <= k < |order| ==> order[k] < s.Total()) && Covers(order, s.Total())
    ensures var part, r := PartName(bucket, other, i), Deliver(OpenSession(m, id, s), bucket, id, s.chunk, file, order);
      && part in r.objects
      && (r.objects[part] == m.objects[part] <==> s.prefix != PartKey(other, i) || file == m.objects[part])
  {
    DeliveredSoFar(m, bucket, id, s, file, order);
    forall j: nat ensures PartName(bucket, other, i) != PartName(bucket, id, j) { OtherParts(other, i, id, j); }
  }

  /** An upload keeps its own final object if and only if its prefix is not one of its own part keys.  No
      request can bring about the failing case on purpose: the prefix is fixed before the id is drawn. */
  lemma OwnPrefixKept(m: Memory, bucket: string, id: string, s: Session, file: Bytes, order: seq<nat>)
    requires bucket != "" && Unused(m, bucket, id)
    requires s.size == |file| < TWO_64 && 0 < s.chunk < TWO_64 && s.Total() > 0
    requires (forall k :: 0 <= k < |order| ==> order[k] < s.Total()) && Covers(order, s.Total())
    ensures ObjectName(bucket, s.prefix) in Deliver(OpenSession(m, id, s), bucket, id, s.chunk, file, order).objects <==>
            forall i: nat :: i < s.Total() ==> s.prefix != PartKey(id, i)
  {
    DeliveredSoFar(m, bucket, id, s, file, order);
    var final, parts := ObjectName(bucket, s.prefix), PartNames(bucket, id, 0, s.Total());
    if i: nat :| i < s.Total() && s.prefix == PartKey(id, i) {
      assert final == PartName(bucket, id, i) && final in parts;
    } else {
      forall i: nat | i < s.Total() ensures PartName(bucket, id, i) != final {}
      assert final !in parts;
    }
  }

  /** Replacing one stored part changes the assembled stream, unless the new bytes are the old ones, and
      its length by the difference. */
  lemma {:induction false} OnePartCounts(m: Memory, m': Memory, bucket: string, id: string, n: nat, i: nat)
    requires i < n && PartsPresent(m, bucket, id, n) && PartsPresent(m', bucket, id, n)
    requires forall j: nat :: j < n && j != i ==> m'.objects[PartName(bucket, id, j)] == m.objects[PartName(bucket, id, j)]
    ensures StoredStream(m', bucket, id, n) == StoredStream(m, bucket, id, n) <==>
            m'.objects[PartName(bucket, id, i)] == m.objects[PartName(bucket, id, i)]
    ensures |StoredStream(m', bucket, id, n)| - |StoredStream(m, bucket, id, n)|
            == |m'.objects[PartName(bucket, id, i)]| - |m.objects[PartName(bucket, id, i)]|
  {
    if i == n - 1 {
      SameStream(m, m', bucket, id, i);
      SamePrefix(StoredStream(m, bucket, id, i), m.objects[PartName(bucket, id, i)], m'.objects[PartName(bucket, id, i)]);
    } else {
      OnePartCounts(m, m', bucket, id, n - 1, i);
      SameSuffix(StoredStream(m, bucket, id, n - 1), StoredStream(m', bucket, id, n - 1),
                 m.objects[PartName(bucket, id, n - 1)]);
    }
  }

  lemma {:induction false} SameStream(m: Memory, m': Memory, bucket: string, id: string, n: nat)
    requires PartsPresent(m, bucket, id, n) && PartsPresent(m', bucket, id, n)
    requires forall j: nat :: j < n ==> m'.objects[PartName(bucket, id, j)] == m.objects[PartName(bucket, id, j)]
    ensures StoredStream(m', bucket, id, n) == StoredStream(m, bucket, id, n)
  {
    if n > 0 { SameStream(m, m', bucket, id, n - 1); }
  }

  lemma SamePrefix(a: Bytes, x: Bytes, y: Bytes)
    ensures a + x == a + y <==> x == y
  {
    assert (a + x)[|a|..] == x && (a + y)[|a|..] == y;
  }

  lemma SameSuffix(x: Bytes, y: Bytes, z: Bytes)
    ensures x + z == y + z <==> x == y
  {
    if x + z == y + z {
      assert |x| == |y|;
      assert (x + z)[..|x|] == x && (y + z)[..|y|] == y;
    }
  }
  /** Opening and completing another upload leaves the session and bits of `id` alone, and of its parts
      replaces the one that the other's prefix names. */
  ghost predicate OnePartReplaced(m1: Memory, m2: Memory, bucket: string, id: string, i: nat, blob: Bytes) {
    && (MetaKey(id) in m1.redis ==> MetaKey(id) in m2.redis && m2.redis[MetaKey(id)] == m1.redis[MetaKey(id)])
    && BitsOf(m2.redis, id) == BitsOf(m1.redis, id)
    && PartName(bucket, id, i) in m2.objects && m2.objects[PartName(bucket, id, i)] == blob
    && forall j: nat :: j != i && PartName(bucket, id, j) in m1.objects ==>
         PartName(bucket, id, j) in m2.objects && m2.objects[PartName(bucket, id, j)] == m1.objects[PartName(bucket, id, j)]
  }

  lemma ForeignPartReplaced(m: Memory, bucket: string, id: string, s: Session, file: Bytes, order: seq<nat>, other: string, i: nat)
    requires bucket != "" && Unused(m, bucket, id) && other != id && s.prefix == PartKey(other, i)
    requires s.size == |file| < TWO_64 && 0 < s.chunk < TWO_64 && s.Total() > 0
    requires (forall k :: 0 <= k < |order| ==> order[k] < s.Total()) && Covers(order, s.Total())
    ensures OnePartReplaced(m, Deliver(OpenSession(m, id, s), bucket, id, s.chunk, file, order), bucket, other, i, file)
  {
    DeliveredSoFar(m, bucket, id, s, file, order);
    SessionKeysInjective(id, other);
    SessionKeysInjective(other, id);
    forall j: nat, k: nat ensures PartName(bucket, other, j) != PartName(bucket, id, k) { OtherParts(other, j, id, k); }
    forall j: nat | j != i ensures PartName(bucket, other, j) != ObjectName(bucket, s.prefix) {
      if PartKey(other, j) == PartKey(other, i) { PartKeyInjective(other, j, other, i); }
    }
  }

  lemma HeldIsUnused(m: Memory, m0: Memory, bucket: string, id: string, s: Session, file: Bytes, sent: set<nat>, other: string)
    requires Holds(m, m0, bucket, id, s, file, sent) && Unused(m0, bucket, other) && other != id
    ensures Unused(m, bucket, other)
  {
    SessionKeysInjective(id, other);
    SessionKeysInjective(other, id);
    forall i: nat ensures PartName(bucket, other, i) !in m.objects {
      if PartName(bucket, other, i) in NamesOf(bucket, id, sent) {
        var k :| k in sent && PartName(bucket, other, i) == PartName(bucket, id, k);
        OtherParts(other, i, id, k);
      }
    }
  }

  /** Sending chunk `i` again stores the whole file, and removes what is stored under that part's name. */
  ghost predicate Repairs(m: Memory, bucket: string, id: string, s: Session, file: Bytes, i: nat) {
    var r := RunAlone([], Fresh(bucket, id, i, Slice(file, s.chunk, i)), m);
    && r.1.outcome == Ok && PartName(bucket, id, i) !in r.0.objects
    && ObjectName(bucket, s.prefix) in r.0.objects && r.0.objects[ObjectName(bucket, s.prefix)] == file
  }

  /** What the last call of an upload does, when part `i` was replaced by `blob`.  It answers Ok if and
      only if the lengths agree; then the object it puts is the file if and only if the bytes agree
      too, and what was under the part's name is gone.  Otherwise it stores nothing but its part and
      its bit, and sending chunk `i` again repairs the upload. */
  ghost predicate EndsAsReplaced(m: Memory, r: (Memory, Call), bucket: string, id: string, s: Session, file: Bytes,
                                 j: nat, i: nat, blob: Bytes)
  {
    var final := ObjectName(bucket, s.prefix);
    && (r.1.outcome == Ok <==> |blob| == |Slice(file, s.chunk, i)|)
    && (r.1.outcome == Ok ==>
          && PartName(bucket, id, i) !in r.0.objects && final in r.0.objects
          && (r.0.objects[final] == file <==> blob == Slice(file, s.chunk, i)))
    && (r.1.outcome != Ok ==>
          && r.1.outcome == Internal
          && r.0 == WithPart(m, bucket, id, j, Slice(file, s.chunk, j))
          && Repairs(r.0, bucket, id, s, file, i))
  }

  /** Why a final prefix must not be named like a part.  Upload `id` has delivered all chunks but `j`;
      another client opens and completes an upload whose prefix is the name of part `i` of `id`,
      which the server does not refuse; then chunk `j` arrives.  If the other file is as long as that
      part, the last call answers Ok and puts a torn object, unless the bytes are the same too; if
      not, the last call fails, and can be repaired. */
  lemma ForeignPrefixTearsFile(m: Memory, bucket: string, id: string, s: Session, file: Bytes, order: seq<nat>, j: nat, i: nat,
                               other: string, s': Session, file': Bytes, order': seq<nat>)
    requires bucket != "" && id != other && Unused(m, bucket, id) && Unused(m, bucket, other)
    requires s.size == |file| < TWO_64 && 0 < s.chunk < TWO_64 && !IsPartKey(s.prefix)
    requires s'.size == |file'| < TWO_64 && 0 < s'.chunk < TWO_64 && s'.Total() > 0 && s'.prefix == PartKey(id, i)
    requires (forall k :: 0 <= k < |order| ==> order[k] < s.Total()) && j !in order && Covers(order + [j], s.Total())
    requires j < s.Total() && i in order
    requires (forall k :: 0 <= k < |order'| ==> order'[k] < s'.Total()) && Covers(order', s'.Total())
    ensures var m1 := Deliver(OpenSession(m, id, s), bucket, id, s.chunk, file, order);
      var m2 := Deliver(OpenSession(m1, other, s'), bucket, other, s'.chunk, file', order');
      var r := RunAlone([], Fresh(bucket, id, j, Slice(file, s.chunk, j)), m2);
      EndsAsReplaced(m2, r, bucket, id, s, file, j, i, file')
  {
    assert !Covers(order, s.Total());
    DeliveredSoFar(m, bucket, id, s, file, order);
    var m1, sent := Deliver(OpenSession(m, id, s), bucket, id, s.chunk, file, order), Elements(order);
    HoldsBits(m1, m, bucket, id, s, file, sent);
    HeldIsUnused(m1, m, bucket, id, s, file, sent, other);
    ForeignPartReplaced(m1, bucket, other, s', file', order', id, i);
    AllButOne(order, j, s.Total());
    LastCallAfterReplacement(m1, Deliver(OpenSession(m1, other, s'), bucket, other, s'.chunk, file', order'),
                             bucket, id, s, file, sent, j, i, file');
  }

  lemma AllButOne(order: seq<nat>, j: nat, total: nat)
    requires (forall k :: 0 <= k < |order| ==> order[k] < total) && j < total && Covers(order + [j], total)
    ensures |Elements(order) + {j}| == total
    ensures forall k: nat :: k < total && k != j ==> k in Elements(order)
  {
    forall k: nat | k < total ensures k in Elements(order) || k == j { assert k in order + [j]; }
    FullSetHasAll(Elements(order) + {j}, total);
  }

  /** In `m` every chunk of `id` but `j` is stored and marked. */
  ghost predicate OneMissing(m: Memory, bucket: string, id: string, s: Session, file: Bytes, sent: set<nat>, j: nat) {
    && SessionLive(m, id, s, file) && BitsOf(m.redis, id) == sent && |sent + {j}| == s.Total()
    && j < s.Total() && j !in sent
    && (forall k :: k in sent ==> k < s.Total() && HasPart(m, bucket, id, file, s.chunk, k))
    && forall k: nat :: k < s.Total() && k != j ==> k in sent
  }

  lemma LastCallAfterReplacement(m1: Memory, m2: Memory, bucket: string, id: string, s: Session, file: Bytes, sent: set<nat>,
                                 j: nat, i: nat, blob: Bytes)
    requires bucket != "" && !IsPartKey(s.prefix) && OneMissing(m1, bucket, id, s, file, sent, j)
    requires OnePartReplaced(m1, m2, bucket, id, i, blob) && i in sent
    ensures EndsAsReplaced(m2, RunAlone([], Fresh(bucket, id, j, Slice(file, s.chunk, j)), m2), bucket, id, s, file, j, i, blob)
  {
    var data, n := Slice(file, s.chunk, j), s.Total();
    var bad := WithPart(m2, bucket, id, j, data);
    StreamAfterReplacement(m1, m2, bucket, id, s, file, sent, j, i, blob);
    CompletingCallStores(m2, bucket, s, file, id, j, data);
    if |blob| == |Slice(file, s.chunk, i)| {
      CompletedClears(m2, bucket, id, s, StoredStream(bad, bucket, id, n), i);
    } else {
      RepairedByResending(m1, m2, bucket, id, s, file, sent, j, i, blob);
    }
  }

  lemma CompletedClears(m: Memory, bucket: string, id: string, s: Session, blob: Bytes, i: nat)
    requires !IsPartKey(s.prefix) && i < s.Total()
    ensures var r := Completed(m, bucket, id, s, blob);
      && PartName(bucket, id, i) !in r.objects
      && ObjectName(bucket, s.prefix) in r.objects && r.objects[ObjectName(bucket, s.prefix)] == blob
  {
    CompletedHasFileOnly(m, bucket, id, s, blob);
  }

  /** The stream that the last call reads. */
  lemma StreamAfterReplacement(m1: Memory, m2: Memory, bucket: string, id: string, s: Session, file: Bytes, sent: set<nat>,
                               j: nat, i: nat, blob: Bytes)
    requires OneMissing(m1, bucket, id, s, file, sent, j) && OnePartReplaced(m1, m2, bucket, id, i, blob) && i in sent
    ensures var bad := WithPart(m2, bucket, id, j, Slice(file, s.chunk, j));
      && PartsPresent(bad, bucket, id, s.Total())
      && (StoredStream(bad, bucket, id, s.Total()) == file <==> blob == Slice(file, s.chunk, i))
      && (|StoredStream(bad, bucket, id, s.Total())| == |file| <==> |blob| == |Slice(file, s.chunk, i)|)
  {
    var data, n := Slice(file, s.chunk, j), s.Total();
    var good, bad := WithPart(m1, bucket, id, j, data), WithPart(m2, bucket, id, j, data);
    AllPartKeysInjective();
    forall k: nat | k < n ensures HasPart(good, bucket, id, file, s.chunk, k) {
      if k != j { OtherPartKept(m1, bucket, id, file, s.chunk, k, j); }
    }
    StoredIsJoined(good, bucket, id, file, s.chunk, n);
    JoinedIsFile(file, s.chunk);
    forall k: nat | k < n
      ensures PartName(bucket, id, k) in bad.objects
      ensures k != i ==> bad.objects[PartName(bucket, id, k)] == good.objects[PartName(bucket, id, k)]
      ensures k == i ==> bad.objects[PartName(bucket, id, k)] == blob
    {
      if k != j { assert HasPart(m1, bucket, id, file, s.chunk, k); }
    }
    OnePartCounts(good, bad, bucket, id, n, i);
    assert HasPart(good, bucket, id, file, s.chunk, i);
  }

  /** Sending the replaced chunk again puts it back, and its call finds the bitmap full. */
  lemma RepairedByResending(m1: Memory, m2: Memory, bucket: string, id: string, s: Session, file: Bytes, sent: set<nat>,
                            j: nat, i: nat, blob: Bytes)
    requires bucket != "" && !IsPartKey(s.prefix) && OneMissing(m1, bucket, id, s, file, sent, j)
    requires OnePartReplaced(m1, m2, bucket, id, i, blob) && i in sent
    ensures Repairs(WithPart(m2, bucket, id, j, Slice(file, s.chunk, j)), bucket, id, s, file, i)
  {
    var m := WithPart(m2, bucket, id, j, Slice(file, s.chunk, j));
    AllPartKeysInjective();
    SessionKeysInjective(id, id);
    forall k: nat | k < s.Total() && k != i ensures HasPart(m, bucket, id, file, s.chunk, k) {
      if k != j { assert HasPart(m1, bucket, id, file, s.chunk, k); }
    }
    assert BitsOf(m.redis, id) + {i} == sent + {j};
    CompletingCall(m, bucket, s, file, id, i);
    CompletedClears(m, bucket, id, s, file, i);
  }
}
