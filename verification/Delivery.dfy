/** Calls that run one at a time: delivery order does not matter, and a stalled upload can be
    finished by sending any one chunk again. */
module Delivery {
  import opened Chunking
  import opened Keys
  import opened Protocol
  import opened World
  import opened Safety
  import opened Completion

  // ---------- one undisturbed, faultless call ----------

  /** The names of parts `from..total`. */
  function PartNames(bucket: string, id: string, from: nat, total: nat): set<ObjectName> {
    set i: nat | from <= i < total :: PartName(bucket, id, i)
  }

  /** The stores after an upload of `file` was assembled and swept. */
  function Completed(m: Memory, bucket: string, id: string, s: Session, file: Bytes): Memory {
    Memory(m.objects[ObjectName(bucket, s.prefix) := file] - PartNames(bucket, id, 0, s.Total()),
           m.redis - {MetaKey(id), BitmapKey(id)})
  }

  /** The stores after one more part, with the bitmap not yet full. */
  function WithPart(m: Memory, bucket: string, id: string, i: nat, data: Bytes): Memory {
    Memory(m.objects[PartName(bucket, id, i) := data],
           m.redis[BitmapKey(id) := Bits(BitsOf(m.redis, id) + {i})])
  }

  ghost predicate HasPart(m: Memory, bucket: string, id: string, file: Bytes, chunk: nat, i: nat) {
    PartName(bucket, id, i) in m.objects && m.objects[PartName(bucket, id, i)] == Slice(file, chunk, i)
  }

  /** The first `n` parts are stored. */
  ghost predicate PartsPresent(m: Memory, bucket: string, id: string, n: nat) {
    forall i: nat :: i < n ==> PartName(bucket, id, i) in m.objects
  }

  /** The first `n` parts as they are stored, end to end. */
  ghost function StoredStream(m: Memory, bucket: string, id: string, n: nat): Bytes
    requires PartsPresent(m, bucket, id, n)
  {
    if n == 0 then [] else StoredStream(m, bucket, id, n - 1) + m.objects[PartName(bucket, id, n - 1)]
  }

  lemma {:induction false} StoredIsJoined(m: Memory, bucket: string, id: string, file: Bytes, chunk: nat, n: nat)
    requires forall i: nat :: i < n ==> HasPart(m, bucket, id, file, chunk, i)
    ensures PartsPresent(m, bucket, id, n) && StoredStream(m, bucket, id, n) == Joined(file, chunk, n)
  {
    forall i: nat | i < n ensures PartName(bucket, id, i) in m.objects {
      assert HasPart(m, bucket, id, file, chunk, i);
    }
    if n > 0 {
      StoredIsJoined(m, bucket, id, file, chunk, n - 1);
      assert HasPart(m, bucket, id, file, chunk, n - 1);
    }
  }

  /** An assembler puts what is stored under the part names, as long as it has the declared length. */
  lemma {:induction false} AssemblesStoredParts(c: Call, m: Memory)
    requires c.stage == Assembling && c.outcome == Running && c.cursor <= c.session.Total()
    requires PartsPresent(m, c.bucket, c.id, c.session.Total())
    requires c.stream == StoredStream(m, c.bucket, c.id, c.cursor)
    requires |StoredStream(m, c.bucket, c.id, c.session.Total())| == c.session.size
    ensures var whole := StoredStream(m, c.bucket, c.id, c.session.Total());
      RunAlone([], c, m) ==
        RunAlone([], c.(stage := Sweeping, cursor := 0, stream := whole),
                 m.(objects := m.objects[ObjectName(c.bucket, c.session.prefix) := whole]))
    decreases c.session.Total() - c.cursor
  {
    if c.cursor < c.session.Total() {
      AssemblesStoredParts(Next(c, m, Proceed).1, m);
    }
  }

  /** Parts that do not add up to the declared length fail the put, and nothing is stored. */
  lemma {:induction false} WrongLengthFails(c: Call, m: Memory)
    requires c.stage == Assembling && c.outcome == Running && c.cursor <= c.session.Total()
    requires PartsPresent(m, c.bucket, c.id, c.session.Total())
    requires c.stream == StoredStream(m, c.bucket, c.id, c.cursor)
    requires |StoredStream(m, c.bucket, c.id, c.session.Total())| != c.session.size
    ensures RunAlone([], c, m).0 == m && RunAlone([], c, m).1.outcome == Internal
    decreases c.session.Total() - c.cursor
  {
    if c.cursor < c.session.Total() {
      WrongLengthFails(Next(c, m, Proceed).1, m);
    }
  }

  lemma {:induction false} SweepsAllParts(c: Call, m: Memory)
    requires c.stage == Sweeping && c.outcome == Running && c.cursor <= c.session.Total()
    ensures RunAlone([], c, m) ==
      (Memory(m.objects - PartNames(c.bucket, c.id, c.cursor, c.session.Total()),
              m.redis - {MetaKey(c.id), BitmapKey(c.id)}),
       c.(cursor := c.session.Total(), outcome := Ok))
    decreases c.session.Total() - c.cursor
  {
    var total := c.session.Total();
    if c.cursor < total {
      var m' := m.(objects := m.objects - {PartName(c.bucket, c.id, c.cursor)});
      SweepsAllParts(c.(cursor := c.cursor + 1), m');
      var rest := PartNames(c.bucket, c.id, c.cursor + 1, total);
      assert PartNames(c.bucket, c.id, c.cursor, total) == {PartName(c.bucket, c.id, c.cursor)} + rest;
      assert m'.objects - rest == m.objects - PartNames(c.bucket, c.id, c.cursor, total);
    } else {
      assert PartNames(c.bucket, c.id, c.cursor, total) == {};
      assert m.objects - {} == m.objects;
    }
  }

  /** The session of `id` is stored and describes `file`. */
  ghost predicate SessionLive(m: Memory, id: string, s: Session, file: Bytes) {
    && MetaKey(id) in m.redis && m.redis[MetaKey(id)] == Meta(s)
    && s.size == |file| < TWO_64 && 0 < s.chunk < TWO_64
  }

  /** An admitted call has stored its part, set its bit, and is about to count. */
  lemma StoresAndMarks(m: Memory, bucket: string, s: Session, file: Bytes, id: string, i: nat, data: Bytes)
    requires bucket != "" && SessionLive(m, id, s, file) && i < s.Total()
    ensures RunAlone([], Fresh(bucket, id, i, data), m) ==
            RunAlone([], Fresh(bucket, id, i, data).(stage := Marked, session := s), WithPart(m, bucket, id, i, data))
  {
    var c0 := Fresh(bucket, id, i, data);
    var c1 := c0.(stage := Admitted, session := s);
    assert Next(c0, m, Proceed) == (m, c1);
    var r2 := Next(c1, m, Proceed);
    var r3 := Next(r2.1, r2.0, Proceed);
    assert r3 == (WithPart(m, bucket, id, i, data), c1.(stage := Marked));
    assert RunAlone([], c1, m) == RunAlone([], r2.1, r2.0) == RunAlone([], r3.1, r3.0);
  }

  lemma PartialCall(m: Memory, bucket: string, s: Session, file: Bytes, id: string, i: nat, data: Bytes)
    requires bucket != "" && SessionLive(m, id, s, file) && i < s.Total()
    requires |BitsOf(m.redis, id) + {i}| != s.Total()
    ensures RunAlone([], Fresh(bucket, id, i, data), m).0 == WithPart(m, bucket, id, i, data)
    ensures RunAlone([], Fresh(bucket, id, i, data), m).1.outcome == Ok
  {
    StoresAndMarks(m, bucket, s, file, id, i, data);
  }

  /** A call that is about to count a full bitmap, with all parts in its bucket: it stores them, end to
      end, when they have the declared length together, and otherwise fails and stores nothing. */
  lemma MarkedCallCompletes(c: Call, m: Memory)
    requires c.stage == Marked && c.outcome == Running && c.cursor == 0 && c.stream == []
    requires |BitsOf(m.redis, c.id)| == c.session.Total() && PartsPresent(m, c.bucket, c.id, c.session.Total())
    ensures var r, whole := RunAlone([], c, m), StoredStream(m, c.bucket, c.id, c.session.Total());
      if |whole| == c.session.size then r.0 == Completed(m, c.bucket, c.id, c.session, whole) && r.1.outcome == Ok
      else r.0 == m && r.1.outcome == Internal
  {
    var c' := c.(stage := Assembling);
    assert Next(c, m, Proceed) == (m, c');
    var whole := StoredStream(m, c.bucket, c.id, c.session.Total());
    if |whole| != c.session.size {
      WrongLengthFails(c', m);
      return;
    }
    AssemblesStoredParts(c', m);
    SweepsAllParts(c.(stage := Sweeping, stream := whole), m.(objects := m.objects[ObjectName(c.bucket, c.session.prefix) := whole]));
  }

  /** The call that completes the bitmap puts the parts as they are stored, end to end, removes every
      part and both keys, and answers Ok, when they have the declared length together; otherwise it
      fails and leaves its part and its bit. */
  lemma CompletingCallStores(m: Memory, bucket: string, s: Session, file: Bytes, id: string, i: nat, data: Bytes)
    requires bucket != "" && SessionLive(m, id, s, file) && i < s.Total()
    requires |BitsOf(m.redis, id) + {i}| == s.Total()
    requires PartsPresent(WithPart(m, bucket, id, i, data), bucket, id, s.Total())
    ensures var m' := WithPart(m, bucket, id, i, data);
      var r, whole := RunAlone([], Fresh(bucket, id, i, data), m), StoredStream(m', bucket, id, s.Total());
      if |whole| == |file| then r.0 == Completed(m, bucket, id, s, whole) && r.1.outcome == Ok
      else r.0 == m' && r.1.outcome == Internal
  {
    var c, m' := Fresh(bucket, id, i, data).(stage := Marked, session := s), WithPart(m, bucket, id, i, data);
    StoresAndMarks(m, bucket, s, file, id, i, data);
    MarkedCallCompletes(c, m');
    PartsDoNotOutlive(m, bucket, id, s, i, data, StoredStream(m', bucket, id, s.Total()));
  }

  /** The call that completes the bitmap stores the file, removes every part and both keys, and
      answers Ok. */
  lemma CompletingCall(m: Memory, bucket: string, s: Session, file: Bytes, id: string, i: nat)
    requires bucket != "" && SessionLive(m, id, s, file) && i < s.Total()
    requires |BitsOf(m.redis, id) + {i}| == s.Total()
    requires forall j: nat :: j < s.Total() && j != i ==> HasPart(m, bucket, id, file, s.chunk, j)
    ensures RunAlone([], Fresh(bucket, id, i, Slice(file, s.chunk, i)), m).0 == Completed(m, bucket, id, s, file)
    ensures RunAlone([], Fresh(bucket, id, i, Slice(file, s.chunk, i)), m).1.outcome == Ok
  {
    var m' := WithPart(m, bucket, id, i, Slice(file, s.chunk, i));
    forall j: nat | j < s.Total() ensures HasPart(m', bucket, id, file, s.chunk, j) {
      if j != i { OtherPartKept(m, bucket, id, file, s.chunk, j, i); }
    }
    StoredIsJoined(m', bucket, id, file, s.chunk, s.Total());
    JoinedIsFile(file, s.chunk);
    CompletingCallStores(m, bucket, s, file, id, i, Slice(file, s.chunk, i));
  }

  /** The last part and bit leave no trace once everything is removed. */
  lemma PartsDoNotOutlive(m: Memory, bucket: string, id: string, s: Session, i: nat, data: Bytes, file: Bytes)
    requires i < s.Total()
    ensures var m' := WithPart(m, bucket, id, i, data);
      && m'.objects[ObjectName(bucket, s.prefix) := file] - PartNames(bucket, id, 0, s.Total())
           == m.objects[ObjectName(bucket, s.prefix) := file] - PartNames(bucket, id, 0, s.Total())
      && m'.redis - {MetaKey(id), BitmapKey(id)} == m.redis - {MetaKey(id), BitmapKey(id)}
  {
    assert PartName(bucket, id, i) in PartNames(bucket, id, 0, s.Total());
  }

  /** A missing part ends the stream in an error, and nothing is stored. */
  lemma {:induction false} MissingPartFails(c: Call, m: Memory, missing: nat)
    requires c.stage == Assembling && c.outcome == Running && c.cursor <= missing < c.session.Total()
    requires PartName(c.bucket, c.id, missing) !in m.objects
    ensures RunAlone([], c, m).0 == m && RunAlone([], c, m).1.outcome == Internal
    decreases missing - c.cursor
  {
    var r := Next(c, m, Proceed);
    if r.1.outcome == Running { MissingPartFails(r.1, m, missing); }
  }

  /** The call that sees the full count answers Ok, and stores the file, exactly when every other
      part is in its own bucket; otherwise it fails and stores nothing but its part. */
  lemma CompletingCallOutcome(m: Memory, bucket: string, s: Session, file: Bytes, id: string, i: nat)
    requires bucket != "" && SessionLive(m, id, s, file) && i < s.Total()
    requires |BitsOf(m.redis, id) + {i}| == s.Total()
    requires forall j: nat :: j < s.Total() && PartName(bucket, id, j) in m.objects ==> HasPart(m, bucket, id, file, s.chunk, j)
    ensures var data := Slice(file, s.chunk, i);
      var r := RunAlone([], Fresh(bucket, id, i, data), m);
      var complete := forall j: nat :: j < s.Total() && j != i ==> PartName(bucket, id, j) in m.objects;
      && (r.1.outcome == Ok <==> complete)
      && r.0 == (if complete then Completed(m, bucket, id, s, file) else WithPart(m, bucket, id, i, data))
  {
    if j: nat :| j < s.Total() && j != i && PartName(bucket, id, j) !in m.objects {
      var data := Slice(file, s.chunk, i);
      var c, m' := Fresh(bucket, id, i, data).(stage := Marked, session := s), WithPart(m, bucket, id, i, data);
      StoresAndMarks(m, bucket, s, file, id, i, data);
      assert Next(c, m', Proceed) == (m', c.(stage := Assembling));
      if PartKey(id, j) == PartKey(id, i) { PartKeyInjective(id, j, id, i); }
      MissingPartFails(c.(stage := Assembling), m', j);
    } else {
      CompletingCall(m, bucket, s, file, id, i);
    }
  }

  lemma CallAfterCompletion(m: Memory, c: Call)
    requires MetaKey(c.id) !in m.redis && c.stage == Begun && c.outcome == Running && c.bucket != ""
    ensures RunAlone([], c, m) == (m, c.(outcome := NotFound))
  {
  }

  // ---------- any delivery order ----------

  /** `id` has left no trace in the stores. */
  ghost predicate Unused(m: Memory, bucket: string, id: string) {
    && MetaKey(id) !in m.redis && BitmapKey(id) !in m.redis
    && forall i: nat :: PartName(bucket, id, i) !in m.objects
  }

  /** No key of `id` is stored, and if a part is, it is the right one. */
  ghost predicate Prepared(m: Memory, bucket: string, id: string, chunk: nat, file: Bytes) {
    && MetaKey(id) !in m.redis && BitmapKey(id) !in m.redis
    && forall i: nat :: PartName(bucket, id, i) in m.objects ==> HasPart(m, bucket, id, file, chunk, i)
  }

  /** The stores after the chunks `order` were delivered one call at a time. */
  function Deliver(m: Memory, bucket: string, id: string, chunk: nat, file: Bytes, order: seq<nat>): Memory {
    if order == [] then m
    else
      var last := order[|order| - 1];
      RunAlone([], Fresh(bucket, id, last, Slice(file, chunk, last)),
               Deliver(m, bucket, id, chunk, file, order[..|order| - 1])).0
  }

  function Elements(order: seq<nat>): (s: set<nat>)
    ensures forall i :: i in s <==> i in order
  {
    set i | i in order
  }

  predicate Covers(order: seq<nat>, total: nat) {
    forall i: nat :: i < total ==> i in order
  }

  function NamesOf(bucket: string, id: string, sent: set<nat>): set<ObjectName> {
    set i | i in sent :: PartName(bucket, id, i)
  }

  /** `m` holds exactly what `m0` held, and the parts and bits of `sent`. */
  ghost predicate Holds(m: Memory, m0: Memory, bucket: string, id: string, s: Session, file: Bytes, sent: set<nat>) {
    && m.redis == m0.redis[MetaKey(id) := Meta(s)][BitmapKey(id) := Bits(sent)]
    && m.objects.Keys == m0.objects.Keys + NamesOf(bucket, id, sent)
    && (forall name :: name in m0.objects ==> m.objects[name] == m0.objects[name])
    && (forall i :: i in sent ==> HasPart(m, bucket, id, file, s.chunk, i))
  }

  lemma HoldsOneMore(m: Memory, m0: Memory, bucket: string, id: string, s: Session, file: Bytes, sent: set<nat>, i: nat)
    requires Prepared(m0, bucket, id, s.chunk, file) && Holds(m, m0, bucket, id, s, file, sent)
    ensures Holds(WithPart(m, bucket, id, i, Slice(file, s.chunk, i)), m0, bucket, id, s, file, sent + {i})
  {
    HoldsBits(m, m0, bucket, id, s, file, sent);
    PutAddsName(m.objects, m0.objects, bucket, id, sent, i, Slice(file, s.chunk, i));
    var m' := WithPart(m, bucket, id, i, Slice(file, s.chunk, i));
    forall j | j in sent + {i} ensures HasPart(m', bucket, id, file, s.chunk, j) {
      if j != i { OtherPartKept(m, bucket, id, file, s.chunk, j, i); }
    }
  }

  lemma PutAddsName(objects: map<ObjectName, Bytes>, objects0: map<ObjectName, Bytes>, bucket: string, id: string,
                    sent: set<nat>, i: nat, data: Bytes)
    requires objects.Keys == objects0.Keys + NamesOf(bucket, id, sent)
    requires PartName(bucket, id, i) in objects0 ==> objects0[PartName(bucket, id, i)] == data
    requires forall name :: name in objects0 ==> objects[name] == objects0[name]
    ensures var objects' := objects[PartName(bucket, id, i) := data];
      && objects'.Keys == objects0.Keys + NamesOf(bucket, id, sent + {i})
      && forall name :: name in objects0 ==> objects'[name] == objects0[name]
  {
    assert NamesOf(bucket, id, sent + {i}) == NamesOf(bucket, id, sent) + {PartName(bucket, id, i)};
  }

  lemma OtherPartKept(m: Memory, bucket: string, id: string, file: Bytes, chunk: nat, j: nat, i: nat)
    requires HasPart(m, bucket, id, file, chunk, j) && i != j
    ensures HasPart(WithPart(m, bucket, id, i, Slice(file, chunk, i)), bucket, id, file, chunk, j)
  {
    if PartKey(id, j) == PartKey(id, i) { PartKeyInjective(id, j, id, i); }
  }

  lemma CompletedFromHolds(m: Memory, m0: Memory, bucket: string, id: string, s: Session, file: Bytes, sent: set<nat>)
    requires Holds(m, m0, bucket, id, s, file, sent)
    requires forall i :: i in sent ==> i < s.Total()
    ensures Completed(m, bucket, id, s, file) == Completed(m0, bucket, id, s, file)
  {
    var final, parts := ObjectName(bucket, s.prefix), PartNames(bucket, id, 0, s.Total());
    assert NamesOf(bucket, id, sent) <= parts;
    assert m.objects[final := file] - parts == m0.objects[final := file] - parts;
    assert m.redis - {MetaKey(id), BitmapKey(id)} == m0.redis - {MetaKey(id), BitmapKey(id)};
  }

  /** The state after any list of deliveries: parts and bits of what came so far, or, as soon as
      every chunk came, the completed upload. */
  lemma {:induction false} DeliveredSoFar(m: Memory, bucket: string, id: string, s: Session, file: Bytes, order: seq<nat>)
    requires bucket != "" && Prepared(m, bucket, id, s.chunk, file)
    requires s.size == |file| < TWO_64 && 0 < s.chunk < TWO_64 && s.Total() > 0
    requires forall k :: 0 <= k < |order| ==> order[k] < s.Total()
    ensures var r := Deliver(OpenSession(m, id, s), bucket, id, s.chunk, file, order);
      if Covers(order, s.Total()) then r == Completed(m, bucket, id, s, file)
      else Holds(r, m, bucket, id, s, file, Elements(order))
    decreases |order|
  {
    if order == [] {
      assert 0 !in order && !Covers(order, s.Total());
      assert Elements(order) == {};
    } else {
      var before, last := order[..|order| - 1], order[|order| - 1];
      DeliveredSoFar(m, bucket, id, s, file, before);
      var r := Deliver(OpenSession(m, id, s), bucket, id, s.chunk, file, before);
      assert order == before + [last];
      assert Elements(order) == Elements(before) + {last};
      if Covers(before, s.Total()) {
        SessionKeysInjective(id, id);
        CallAfterCompletion(r, Fresh(bucket, id, last, Slice(file, s.chunk, last)));
      } else {
        OneMoreDelivery(r, m, bucket, id, s, file, Elements(before), last);
        assert Covers(order, s.Total()) <==> forall j: nat :: j < s.Total() ==> j in Elements(order);
      }
    }
  }

  lemma OneMoreDelivery(r: Memory, m: Memory, bucket: string, id: string, s: Session, file: Bytes, sent: set<nat>, last: nat)
    requires bucket != "" && Prepared(m, bucket, id, s.chunk, file) && Holds(r, m, bucket, id, s, file, sent)
    requires s.size == |file| < TWO_64 && 0 < s.chunk < TWO_64 && last < s.Total()
    requires forall i :: i in sent ==> i < s.Total()
    ensures RunAlone([], Fresh(bucket, id, last, Slice(file, s.chunk, last)), r).1.outcome == Ok
    ensures var r' := RunAlone([], Fresh(bucket, id, last, Slice(file, s.chunk, last)), r).0;
      if forall j: nat :: j < s.Total() ==> j in sent + {last} then r' == Completed(m, bucket, id, s, file)
      else Holds(r', m, bucket, id, s, file, sent + {last})
  {
    HoldsBits(r, m, bucket, id, s, file, sent);
    FullSetHasAll(sent + {last}, s.Total());
    if forall j: nat :: j < s.Total() ==> j in sent + {last} {
      LastDelivery(r, bucket, id, s, file, sent, last);
      CompletedFromHolds(r, m, bucket, id, s, file, sent);
    } else {
      PartialCall(r, bucket, s, file, id, last, Slice(file, s.chunk, last));
      HoldsOneMore(r, m, bucket, id, s, file, sent, last);
    }
  }

  lemma LastDelivery(r: Memory, bucket: string, id: string, s: Session, file: Bytes, sent: set<nat>, last: nat)
    requires bucket != "" && SessionLive(r, id, s, file)
    requires BitsOf(r.redis, id) == sent && last < s.Total() == |sent + {last}|
    requires forall j :: j in sent ==> HasPart(r, bucket, id, file, s.chunk, j)
    requires forall j: nat :: j < s.Total() ==> j in sent + {last}
    ensures var r' := RunAlone([], Fresh(bucket, id, last, Slice(file, s.chunk, last)), r);
            r'.0 == Completed(r, bucket, id, s, file) && r'.1.outcome == Ok
  {
    forall j: nat | j < s.Total() && j != last ensures HasPart(r, bucket, id, file, s.chunk, j) {
      assert j in sent + {last};
    }
    CompletingCall(r, bucket, s, file, id, last);
  }

  lemma HoldsBits(r: Memory, m: Memory, bucket: string, id: string, s: Session, file: Bytes, sent: set<nat>)
    requires Holds(r, m, bucket, id, s, file, sent)
    ensures BitsOf(r.redis, id) == sent
    ensures s.size == |file| < TWO_64 && 0 < s.chunk < TWO_64 ==> SessionLive(r, id, s, file)
  {
    SessionKeysInjective(id, id);
  }

  /** Order independence: whatever the order and the duplicates, delivering every chunk leaves the
      stores as one direct put of the file would: no part, no session and no bitmap is left, and
      every later call is answered NotFound. */
  lemma DeliveryOrderIrrelevant(m: Memory, bucket: string, id: string, s: Session, file: Bytes, order: seq<nat>, late: nat)
    requires bucket != "" && Unused(m, bucket, id) && !IsPartKey(s.prefix)
    requires s.size == |file| < TWO_64 && 0 < s.chunk < TWO_64 && s.Total() > 0
    requires forall k :: 0 <= k < |order| ==> order[k] < s.Total()
    requires Covers(order, s.Total())
    ensures var r := Deliver(OpenSession(m, id, s), bucket, id, s.chunk, file, order);
      && r == m.(objects := m.objects[ObjectName(bucket, s.prefix) := file])
      && RunAlone([], Fresh(bucket, id, late, Slice(file, s.chunk, late)), r).1.outcome == NotFound
  {
    DeliveredSoFar(m, bucket, id, s, file, order);
    var final := ObjectName(bucket, s.prefix);
    forall name | name in PartNames(bucket, id, 0, s.Total()) ensures name !in m.objects[final := file] {
      var i: nat :| i < s.Total() && name == PartName(bucket, id, i);
      assert s.prefix != PartKey(id, i);
    }
    assert Completed(m, bucket, id, s, file) == m.(objects := m.objects[final := file]);
    CallAfterCompletion(Completed(m, bucket, id, s, file), Fresh(bucket, id, late, Slice(file, s.chunk, late)));
  }

  /** Until every chunk has come nothing is stored under the final name, and the session is live. */
  lemma NothingEarly(m: Memory, bucket: string, id: string, s: Session, file: Bytes, order: seq<nat>)
    requires bucket != "" && Unused(m, bucket, id) && !IsPartKey(s.prefix)
    requires s.size == |file| < TWO_64 && 0 < s.chunk < TWO_64 && s.Total() > 0
    requires forall k :: 0 <= k < |order| ==> order[k] < s.Total()
    requires ObjectName(bucket, s.prefix) !in m.objects
    ensures var r := Deliver(OpenSession(m, id, s), bucket, id, s.chunk, file, order);
      && (ObjectName(bucket, s.prefix) in r.objects <==> Covers(order, s.Total()))
      && (MetaKey(id) in r.redis <==> !Covers(order, s.Total()))
  {
    DeliveredSoFar(m, bucket, id, s, file, order);
    SessionKeysInjective(id, id);
    var final := ObjectName(bucket, s.prefix);
    forall i: nat ensures PartName(bucket, id, i) != final { assert s.prefix != PartKey(id, i); }
  }

  /** One call at a time: in any order with any duplicates, a delivery is answered Ok exactly when some
      chunk was still missing before it, and NotFound afterwards.  So calls that do not overlap,
      one per chunk, all answer Ok. */
  lemma OkUntilComplete(m: Memory, bucket: string, id: string, s: Session, file: Bytes, order: seq<nat>, next: nat)
    requires bucket != "" && Unused(m, bucket, id)
    requires s.size == |file| < TWO_64 && 0 < s.chunk < TWO_64 && s.Total() > 0
    requires forall k :: 0 <= k < |order| ==> order[k] < s.Total()
    requires next < s.Total()
    ensures var before := Deliver(OpenSession(m, id, s), bucket, id, s.chunk, file, order);
      var outcome := RunAlone([], Fresh(bucket, id, next, Slice(file, s.chunk, next)), before).1.outcome;
      && (outcome == Ok <==> !Covers(order, s.Total()))
      && (outcome == NotFound <==> Covers(order, s.Total()))
      && (next !in order ==> outcome == Ok)
  {
    DeliveredSoFar(m, bucket, id, s, file, order);
    var r := Deliver(OpenSession(m, id, s), bucket, id, s.chunk, file, order);
    if Covers(order, s.Total()) {
      SessionKeysInjective(id, id);
      CallAfterCompletion(r, Fresh(bucket, id, next, Slice(file, s.chunk, next)));
    } else {
      OneMoreDelivery(r, m, bucket, id, s, file, Elements(order), next);
    }
  }

  // ---------- recovery ----------

  /** The actions of call `k` running to its end with nothing in between. */
  function Solo(plan: seq<Choice>, c: Call, m: Memory, k: nat): seq<Action>
    decreases if c.outcome == Running then 1 else 0, 6 - c.stage.Rank(), LoopLeft(c)
  {
    if c.outcome != Running then []
    else
      var f := if plan == [] then Proceed else plan[0];
      var r := Next(c, m, f);
      [Operate(k, f)] + Solo(if plan == [] then [] else plan[1..], r.1, r.0, k)
  }

  /** Running alone is one of the interleavings: the actions are legal and end as the run says. */
  lemma {:induction false} SoloIsRunAlone(w: World, plan: seq<Choice>, k: nat)
    requires k < |w.calls|
    ensures var run := Solo(plan, w.calls[k], w.mem, k);
      && Legal(w, run)
      && After(w, run).mem == RunAlone(plan, w.calls[k], w.mem).0
      && |After(w, run).calls| == |w.calls|
      && After(w, run).calls[k] == RunAlone(plan, w.calls[k], w.mem).1
      && After(w, run).uploads == w.uploads
    decreases if w.calls[k].outcome == Running then 1 else 0, 6 - w.calls[k].stage.Rank(), LoopLeft(w.calls[k])
  {
    var c := w.calls[k];
    if c.outcome == Running {
      var f := if plan == [] then Proceed else plan[0];
      var rest := if plan == [] then [] else plan[1..];
      var w' := Apply(w, Operate(k, f));
      SoloIsRunAlone(w', rest, k);
      var run := Solo(plan, c, w.mem, k);
      assert run[0] == Operate(k, f) && run[1..] == Solo(rest, w'.calls[k], w'.mem, k);
    }
  }

  /** A stalled upload: every chunk marked, the session still there, and no sweep begun. */
  ghost predicate Stalled(w: World, id: string, bucket: string) {
    && id in w.uploads && MetaKey(id) in w.mem.redis
    && (forall i: nat :: i < w.uploads[id].session.Total() ==> i in BitsOf(w.mem.redis, id))
    && !Swept(w, id) && OneBucket(w, id, bucket) && !PartDeleted(w, bucket, id)
  }

  lemma BitIsMarked(w: World, id: string, j: nat)
    requires BitsTrue(w) && j in BitsOf(w.mem.redis, id)
    ensures id in w.uploads && MarkedBy(w, id, j)
  {
    assert BitmapTrue(w, id);
  }

  lemma StalledHasParts(w: World, id: string, bucket: string, j: nat)
    requires Safe(w) && Stalled(w, id, bucket) && j < w.uploads[id].session.Total()
    ensures HasPart(w.mem, bucket, id, w.uploads[id].file, w.uploads[id].session.chunk, j)
  {
    BitIsMarked(w, id, j);
    var k :| 0 <= k < |w.calls| && w.calls[k].id == id && w.calls[k].seqNo == j && w.calls[k].stage.Rank() >= 3;
    assert PartKept(w, w.calls[k]);
    if SweptPast(w, bucket, id, j) { SweptPastIsSweptIn(w, bucket, id, j); }
    SweptInIsSwept(w, bucket, id);
  }

  lemma SweptInIsSwept(w: World, bucket: string, id: string)
    ensures SweptIn(w, bucket, id) ==> Swept(w, id)
  {
    if SweptIn(w, bucket, id) {
      var k :| 0 <= k < |w.calls| && w.calls[k].bucket == bucket && w.calls[k].id == id && w.calls[k].stage == Sweeping;
      assert w.calls[k].stage == Sweeping;
    }
  }

  /** What one more call does to a stalled upload. */
  lemma StalledCallCompletes(w: World, id: string, bucket: string, i: nat)
    requires Safe(w) && bucket != "" && Stalled(w, id, bucket) && i < w.uploads[id].session.Total()
    ensures var u := w.uploads[id];
      RunAlone([], Fresh(bucket, id, i, Slice(u.file, u.session.chunk, i)), w.mem).0
        == Completed(w.mem, bucket, id, u.session, u.file)
      && RunAlone([], Fresh(bucket, id, i, Slice(u.file, u.session.chunk, i)), w.mem).1.outcome == Ok
  {
    var u := w.uploads[id];
    forall j: nat | j < u.session.Total() && j != i ensures HasPart(w.mem, bucket, id, u.file, u.session.chunk, j) {
      StalledHasParts(w, id, bucket, j);
    }
    var bits := BitsOf(w.mem.redis, id);
    assert bits + {i} == bits;
    BitIsMarked(w, id, i);
    assert BitmapTrue(w, id);
    FullSetHasAll(bits, u.session.Total());
    CompletingCall(w.mem, bucket, u.session, u.file, id, i);
  }

  lemma CompletedHasFileOnly(m: Memory, bucket: string, id: string, s: Session, file: Bytes)
    requires !IsPartKey(s.prefix)
    ensures var r := Completed(m, bucket, id, s, file);
      && ObjectName(bucket, s.prefix) in r.objects && r.objects[ObjectName(bucket, s.prefix)] == file
      && MetaKey(id) !in r.redis && BitmapKey(id) !in r.redis
      && forall j: nat :: j < s.Total() ==> PartName(bucket, id, j) !in r.objects
  {
    forall j: nat | j < s.Total() ensures s.prefix != PartKey(id, j) {
      assert IsPartKey(PartKey(id, j));
    }
  }

  /** Recoverability: sending any one chunk of a stalled upload again, and letting that call run to
      its end without faults, is a legal continuation that stores the complete file and leaves
      no part and no key of the upload. */
  lemma StalledUploadRecovers(w: World, id: string, bucket: string, i: nat)
    requires Reachable(w) && bucket != "" && Stalled(w, id, bucket) && i < w.uploads[id].session.Total()
    ensures var u := w.uploads[id];
      var run := SpawnAlone(bucket, id, i, Slice(u.file, u.session.chunk, i), w.mem, |w.calls|);
      && Legal(w, run) && RecoveredBy(w, run, bucket, id)
      && |After(w, run).calls| == |w.calls| + 1 && After(w, run).calls[|w.calls|].outcome == Ok
  {
    ReachableSafe(w);
    var u := w.uploads[id];
    SpawnedRunsAlone(w, bucket, id, i, Slice(u.file, u.session.chunk, i));
    StalledCallCompletes(w, id, bucket, i);
    CompletedHasFileOnly(w.mem, bucket, id, u.session, u.file);
  }

  ghost predicate RecoveredBy(w: World, run: seq<Action>, bucket: string, id: string)
    requires Legal(w, run)
  {
    var w' := After(w, run);
    && id in w'.uploads && id in w.uploads && w'.uploads[id] == w.uploads[id]
    && FileStored(w', bucket, id)
    && MetaKey(id) !in w'.mem.redis && BitmapKey(id) !in w'.mem.redis
    && forall j: nat :: j < w.uploads[id].session.Total() ==> PartName(bucket, id, j) !in w'.mem.objects
  }

  // ---------- every file can be uploaded ----------

  lemma {:induction false} RunsJoin(w: World, a: seq<Action>, b: seq<Action>)
    requires Legal(w, a) && Legal(After(w, a), b)
    ensures Legal(w, a + b) && After(w, a + b) == After(After(w, a), b)
    decreases |a|
  {
    if a == [] {
      assert a + b == b;
    } else {
      assert (a + b)[0] == a[0] && (a + b)[1..] == a[1..] + b;
      RunsJoin(Apply(w, a[0]), a[1..], b);
    }
  }

  /** `w'` differs from `w` only in the stores, the calls, and what other uploads than `id` may note. */
  ghost predicate OnlyRan(w: World, w': World, id: string) {
    && w' == w.(mem := w'.mem, calls := w'.calls, overwritten := w'.overwritten)
    && forall name :: (id, name) in w'.overwritten ==> (id, name) in w.overwritten
  }

  /** A faultless call running alone changes the stores and itself, nothing else. */
  lemma {:induction false} SoloTouchesOnly(w: World, k: nat)
    requires k < |w.calls| && Legal(w, Solo([], w.calls[k], w.mem, k))
    ensures var w' := After(w, Solo([], w.calls[k], w.mem, k));
            |w'.calls| == |w.calls| && w'.calls == w.calls[k := w'.calls[k]] && OnlyRan(w, w', w.calls[k].id)
    decreases if w.calls[k].outcome == Running then 1 else 0, 6 - w.calls[k].stage.Rank(), LoopLeft(w.calls[k])
  {
    var c := w.calls[k];
    if c.outcome == Running {
      var w1 := Apply(w, Operate(k, Proceed));
      var run := Solo([], c, w.mem, k);
      assert run[0] == Operate(k, Proceed) && run[1..] == Solo([], w1.calls[k], w1.mem, k);
      StageMoves(c, w.mem, Proceed);
      SoloTouchesOnly(w1, k);
      var w' := After(w1, run[1..]);
      assert w1.calls[k := w'.calls[k]] == w.calls[k := w'.calls[k]];
    } else {
      assert w.calls[k := c] == w.calls;
    }
  }

  predicate AnsweredOk(c: Call, bucket: string, id: string, i: nat) {
    c.bucket == bucket && c.id == id && c.seqNo == i && c.outcome == Ok
  }

  /** After the calls of `w0`, `w` has one for each of the first `n` chunks, all Ok. */
  ghost predicate SentInOrder(w0: World, w: World, bucket: string, id: string, n: nat) {
    && OnlyRan(w0, w, id) && |w.calls| == |w0.calls| + n && w.calls[..|w0.calls|] == w0.calls
    && forall k :: |w0.calls| <= k < |w.calls| ==> AnsweredOk(w.calls[k], bucket, id, k - |w0.calls|)
  }

  function UpTo(n: nat): (s: set<nat>)
    ensures forall i: nat :: i in s <==> i < n
  {
    if n == 0 then {} else UpTo(n - 1) + {n - 1}
  }

  /** What the stores hold after the first `n` chunks. */
  ghost predicate StoresAfter(m: Memory, m0: Memory, bucket: string, u: Upload, id: string, n: nat) {
    if n < u.session.Total() then Holds(m, m0, bucket, id, u.session, u.file, UpTo(n))
    else m == Completed(m0, bucket, id, u.session, u.file)
  }

  ghost predicate UploadedInOrder(w0: World, run: seq<Action>, m0: Memory, bucket: string, id: string, n: nat)
    requires Legal(w0, run) && id in w0.uploads
  {
    SentInOrder(w0, After(w0, run), bucket, id, n) && StoresAfter(After(w0, run).mem, m0, bucket, w0.uploads[id], id, n)
  }

  /** The n-th call of a client that sends its chunks in order, one at a time. */
  lemma NextInOrder(m: Memory, m0: Memory, bucket: string, u: Upload, id: string, n: nat)
    requires bucket != "" && UploadTrue(u) && n < u.session.Total() && Unused(m0, bucket, id)
    requires StoresAfter(m, m0, bucket, u, id, n)
    ensures var r := RunAlone([], Fresh(bucket, id, n, Slice(u.file, u.session.chunk, n)), m);
            r.1.outcome == Ok && StoresAfter(r.0, m0, bucket, u, id, n + 1)
  {
    assert UpTo(n) + {n} == UpTo(n + 1);
    var last: nat := u.session.Total() - 1;
    assert last in UpTo(n + 1) <==> last < n + 1;
    OneMoreDelivery(m, m0, bucket, id, u.session, u.file, UpTo(n), n);
  }

  lemma {:induction false} UploadsInOrder(w0: World, m0: Memory, bucket: string, id: string, n: nat)
    requires id in w0.uploads && UploadTrue(w0.uploads[id]) && bucket != ""
    requires w0.uploads[id].session.Total() > 0 && n <= w0.uploads[id].session.Total()
    requires Unused(m0, bucket, id) && w0.mem == OpenSession(m0, id, w0.uploads[id].session)
    ensures exists run :: Legal(w0, run) && UploadedInOrder(w0, run, m0, bucket, id, n)
  {
    var u := w0.uploads[id];
    if n == 0 {
      SessionKeysInjective(id, id);
      assert UpTo(0) == {};
      assert Holds(w0.mem, m0, bucket, id, u.session, u.file, {});
      assert Legal(w0, []) && UploadedInOrder(w0, [], m0, bucket, id, 0);
    } else {
      UploadsInOrder(w0, m0, bucket, id, n - 1);
      var run :| Legal(w0, run) && UploadedInOrder(w0, run, m0, bucket, id, n - 1);
      OneMoreInOrder(w0, run, m0, bucket, id, n - 1);
    }
  }

  lemma OneMoreInOrder(w0: World, run: seq<Action>, m0: Memory, bucket: string, id: string, n: nat)
    requires id in w0.uploads && UploadTrue(w0.uploads[id]) && bucket != "" && Unused(m0, bucket, id)
    requires n < w0.uploads[id].session.Total()
    requires Legal(w0, run) && UploadedInOrder(w0, run, m0, bucket, id, n)
    ensures exists run' :: Legal(w0, run') && UploadedInOrder(w0, run', m0, bucket, id, n + 1)
  {
    var u, w := w0.uploads[id], After(w0, run);
    var data := Slice(u.file, u.session.chunk, n);
    var more := SpawnAlone(bucket, id, n, data, w.mem, |w.calls|);
    SpawnedRunsAlone(w, bucket, id, n, data);
    NextInOrder(w.mem, m0, bucket, u, id, n);
    SoloKeepsNames([], Fresh(bucket, id, n, data), w.mem);
    OneMoreSent(w0, w, After(w, more), bucket, id, n);
    RunsJoin(w0, run, more);
    assert UploadedInOrder(w0, run + more, m0, bucket, id, n + 1);
  }

  lemma OneMoreSent(w0: World, w: World, w': World, bucket: string, id: string, n: nat)
    requires SentInOrder(w0, w, bucket, id, n)
    requires OnlyRan(w, w', id) && |w'.calls| == |w.calls| + 1 && w'.calls[..|w.calls|] == w.calls
    requires AnsweredOk(w'.calls[|w.calls|], bucket, id, n)
    ensures SentInOrder(w0, w', bucket, id, n + 1)
  {
    assert w'.calls[..|w0.calls|] == w'.calls[..|w.calls|][..|w0.calls|];
    forall k | |w0.calls| <= k < |w.calls| ensures w'.calls[k] == w.calls[k] {
      assert w'.calls[..|w.calls|][k] == w.calls[k];
    }
  }

  /** A new call, number `k`, run to its end at once. */
  function SpawnAlone(bucket: string, id: string, i: nat, data: Bytes, m: Memory, k: nat): seq<Action> {
    [Spawn(bucket, id, i, data)] + Solo([], Fresh(bucket, id, i, data), m, k)
  }

  lemma SpawnedRunsAlone(w: World, bucket: string, id: string, i: nat, data: Bytes)
    requires Enabled(w, Spawn(bucket, id, i, data))
    ensures var more := SpawnAlone(bucket, id, i, data, w.mem, |w.calls|);
      var r := RunAlone([], Fresh(bucket, id, i, data), w.mem);
      Legal(w, more) && After(w, more).mem == r.0 && After(w, more).calls == w.calls + [r.1] && OnlyRan(w, After(w, more), id)
  {
    var spawn, c, k := Spawn(bucket, id, i, data), Fresh(bucket, id, i, data), |w.calls|;
    var w1, solo := Apply(w, spawn), Solo([], c, w.mem, k);
    SoloIsRunAlone(w1, [], k);
    SoloTouchesOnly(w1, k);
    var more := SpawnAlone(bucket, id, i, data, w.mem, k);
    assert more[0] == spawn && more[1..] == solo;
    ReplaceLast(w.calls, c, RunAlone([], c, w.mem).1);
  }

  lemma ReplaceLast(calls: seq<Call>, c: Call, d: Call)
    ensures (calls + [c])[|calls| := d] == calls + [d]
  {
  }

  lemma {:induction false} SoloKeepsNames(plan: seq<Choice>, c: Call, m: Memory)
    ensures SameCall(c, RunAlone(plan, c, m).1)
    decreases if c.outcome == Running then 1 else 0, 6 - c.stage.Rank(), LoopLeft(c)
  {
    if c.outcome == Running {
      var f := if plan == [] then Proceed else plan[0];
      StageMoves(c, m, f);
      SoloKeepsNames(if plan == [] then [] else plan[1..], Next(c, m, f).1, Next(c, m, f).0);
    }
  }

  /** The largest number of bits that Redis keeps under one key. */
  const MAX_BITS: nat := 0x1_0000_0000

  /** Every non-empty file whose count does not wrap, and whose bits fit into one Redis key, has a run
      that uploads it: all its calls answer Ok, none is missing, and the file is stored.  The
      hypotheses of the results about finished uploads can be met for every such file. */
  lemma EveryFileCanBeUploaded(start: World, bucket: string, id: string, prefix: string, file: Bytes, preferred: nat)
    requires Initial(start) && bucket != "" && !IsPartKey(prefix) && preferred < TWO_64
    requires 0 < |file| && |file| + ChooseChunk(preferred, start.config.chunkSize) - 1 < TWO_64
    requires Session(prefix, |file|, ChooseChunk(preferred, start.config.chunkSize)).Total() <= MAX_BITS
    ensures exists run :: Legal(start, run) && UploadedBy(After(start, run), bucket, id, prefix, file)
  {
    var open := Open(id, prefix, file, preferred, 0);
    Opened(start, open);
    var w0 := Apply(start, open);
    var u := w0.uploads[id];
    UploadsInOrder(w0, start.mem, bucket, id, u.session.Total());
    var run :| Legal(w0, run) && UploadedInOrder(w0, run, start.mem, bucket, id, u.session.Total());
    CompletedHasFileOnly(start.mem, bucket, id, u.session, file);
    InOrderIsUploaded(w0, After(w0, run), bucket, id);
    assert ([open] + run)[0] == open && ([open] + run)[1..] == run;
    assert Legal(start, [open] + run) && After(start, [open] + run) == After(w0, run);
  }

  /** What opening the first session of an empty store yields. */
  lemma Opened(start: World, open: Action)
    requires Initial(start) && open.Open? && !IsPartKey(open.prefix) && open.preferred < TWO_64
    requires 0 < |open.file| && |open.file| + ChooseChunk(open.preferred, start.config.chunkSize) - 1 < TWO_64
    ensures Enabled(start, open) && open.id in Apply(start, open).uploads
    ensures var w, u := Apply(start, open), Apply(start, open).uploads[open.id];
      && UploadTrue(u) && u.file == open.file && u.session.prefix == open.prefix && u.session.Total() > 0
      && u.session.chunk == ChooseChunk(open.preferred, start.config.chunkSize)
      && w == start.(mem := OpenSession(start.mem, open.id, u.session), clock := w.clock, uploads := map[open.id := u])
  {
    var chunk := ChooseChunk(open.preferred, start.config.chunkSize);
    DeadlineBeforeExpiry(start.clock, start.config.uploadTTL, open.delay);
    ServerTotalExact(|open.file|, chunk);
    MulCancel(0, ServerTotal(|open.file|, chunk), chunk);
  }

  lemma InOrderIsUploaded(w0: World, w: World, bucket: string, id: string)
    requires id in w0.uploads && w0.calls == [] && w0.deleted == {} && w0.overwritten == {} && w0.faulty == w0.lapsed == {}
    requires w0.uploads[id].session.Total() > 0
    requires SentInOrder(w0, w, bucket, id, w0.uploads[id].session.Total()) && FileStored(w, bucket, id)
    ensures UploadedBy(w, bucket, id, w0.uploads[id].session.prefix, w0.uploads[id].file)
  {
    forall i: nat | i < w0.uploads[id].session.Total() ensures Sent(w, id, i) {
      assert AnsweredOk(w.calls[i], bucket, id, i);
    }
  }

  ghost predicate UploadedBy(w: World, bucket: string, id: string, prefix: string, file: Bytes) {
    && id in w.uploads && w.uploads[id].file == file && w.uploads[id].session.prefix == prefix
    && w.uploads[id].session.Total() > 0 && id !in w.lapsed && id !in w.faulty
    && OneBucket(w, id, bucket) && AllSent(w, id) && AllOk(w, id) && FileStored(w, bucket, id)
    && !FinalDeleted(w, bucket, id) && !FinalOverwritten(w, bucket, id)
  }
}
