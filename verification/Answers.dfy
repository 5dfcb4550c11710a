/** What one call answers, and what it leaves in the stores, when it runs alone under any plan of
    failing operations: the run from its lookup to its end, in one step. */
module Answers {
  import opened Chunking
  import opened Keys
  import opened Protocol
  import opened Delivery

  // ---------- from the lookup to the count ----------

  /** The call finds something under its session key. */
  predicate Found(plan: seq<Choice>, m: Memory, bucket: string, id: string) {
    bucket != "" && Fault(plan, 0) == Proceed && MetaKey(id) in m.redis
  }

  /** What it finds is a session that counts chunks, `i` among them. */
  predicate Accepted(plan: seq<Choice>, m: Memory, bucket: string, id: string, i: nat) {
    && Found(plan, m, bucket, id) && m.redis[MetaKey(id)].Meta?
    && var s := m.redis[MetaKey(id)].session; s.chunk > 0 && i < ServerTotal(s.size, s.chunk)
  }

  /** An admitted call answers Ok or Internal. */
  lemma {:induction false} AdmittedEnds(plan: seq<Choice>, c: Call, m: Memory)
    requires c.stage != Begun && c.outcome in {Running, Ok, Internal}
    ensures RunAlone(plan, c, m).1.outcome in {Ok, Internal}
    decreases if c.outcome == Running then 1 else 0, 6 - c.stage.Rank(), LoopLeft(c)
  {
    if c.outcome == Running {
      var r := Next(c, m, if plan == [] then Proceed else plan[0]);
      AdmittedEnds(if plan == [] then [] else plan[1..], r.1, r.0);
    }
  }

  /** Which calls are refused, and how.  NotFound: nothing could be found under the session key.
      InvalidArgument: no bucket, or a sequence number past the session's count.  A session of chunk
      size zero panics, and a value that is not a session is an internal error.  In all these cases
      nothing is stored. */
  lemma RefusedExactly(plan: seq<Choice>, m: Memory, bucket: string, id: string, i: nat, data: Bytes)
    ensures var r, found := RunAlone(plan, Fresh(bucket, id, i, data), m), Found(plan, m, bucket, id);
      && (r.1.outcome == NotFound <==> bucket != "" && !found)
      && (r.1.outcome == InvalidArgument <==>
            bucket == ""
            || (found && m.redis[MetaKey(id)].Meta?
                && var s := m.redis[MetaKey(id)].session;
                   (s.size == 0 || s.chunk > 0) && i >= ServerTotal(s.size, s.chunk)))
      && (r.1.outcome == Panicked <==>
            found && m.redis[MetaKey(id)].Meta?
            && m.redis[MetaKey(id)].session.size > 0 && m.redis[MetaKey(id)].session.chunk == 0)
      && (found && m.redis[MetaKey(id)].Bits? ==> r.1.outcome == Internal)
      && (!Accepted(plan, m, bucket, id, i) ==> r.0 == m && r.1.outcome != Ok)
      && r.1.outcome in {Ok, NotFound, InvalidArgument, Internal, Panicked}
  {
    var c := Fresh(bucket, id, i, data);
    assert Rest(plan, 0) == plan;
    FirstOperation(plan, 0, c, m);
    var c' := Next(c, m, Fault(plan, 0)).1;
    if c'.outcome == Running { AdmittedEnds(Rest(plan, 1), c', m); }
  }

  /** What an accepted call leaves after its part, and after its part and its bit. */
  function PartOnly(m: Memory, bucket: string, id: string, i: nat, data: Bytes): Memory {
    Memory(m.objects[PartName(bucket, id, i) := data], m.redis)
  }

  function PartAndBit(m: Memory, bucket: string, id: string, i: nat, data: Bytes): Memory {
    Memory(m.objects[PartName(bucket, id, i) := data], m.redis[BitmapKey(id) := Bits(BitsOf(m.redis, id) + {i})])
  }

  /** An accepted call, up to its count.  A failing operation ends it with an internal error, and
      leaves what the operations before it stored, and its own effect when it had one.  A count
      below the total ends it with Ok; at the total it goes on to assemble. */
  lemma AcceptedExactly(plan: seq<Choice>, m: Memory, bucket: string, id: string, i: nat, data: Bytes)
    requires Accepted(plan, m, bucket, id, i)
    ensures var r, s := RunAlone(plan, Fresh(bucket, id, i, data), m), m.redis[MetaKey(id)].session;
      var part, both := PartOnly(m, bucket, id, i, data), PartAndBit(m, bucket, id, i, data);
      if Fault(plan, 1) == FailBefore then r.0 == m && r.1.outcome == Internal
      else if Fault(plan, 1) == FailAfter || Fault(plan, 2) == FailBefore then r.0 == part && r.1.outcome == Internal
      else if Fault(plan, 2) == FailAfter || Fault(plan, 3) != Proceed then r.0 == both && r.1.outcome == Internal
      else if |BitsOf(m.redis, id) + {i}| != ServerTotal(s.size, s.chunk) then r.0 == both && r.1.outcome == Ok
      else r == RunAlone(Rest(plan, 4), Fresh(bucket, id, i, data).(stage := Assembling, session := s), both)
  {
    var c, s := Fresh(bucket, id, i, data), m.redis[MetaKey(id)].session;
    assert Rest(plan, 0) == plan;
    FirstOperation(plan, 0, c, m);
    var c1 := c.(stage := Admitted, session := s);
    assert Next(c, m, Proceed) == (m, c1);
    FirstOperation(plan, 1, c1, m);
    var part, both := PartOnly(m, bucket, id, i, data), PartAndBit(m, bucket, id, i, data);
    if Fault(plan, 1) == Proceed {
      var c2 := c1.(stage := Stored);
      assert Next(c1, m, Proceed) == (part, c2);
      FirstOperation(plan, 2, c2, part);
      if Fault(plan, 2) == Proceed {
        var c3 := c2.(stage := Marked);
        assert Next(c2, part, Proceed) == (both, c3);
        FirstOperation(plan, 3, c3, both);
        assert BitsOf(both.redis, id) == BitsOf(m.redis, id) + {i};
      }
    }
  }

  // ---------- from the count to the end ----------

  /** The reads of an assembly that starts at operation `n` all succeed. */
  predicate Readable(plan: seq<Choice>, n: nat, m: Memory, bucket: string, id: string, total: nat) {
    forall k: nat :: k < total ==> ReadsAt(plan, n, m, bucket, id, k)
  }

  predicate ReadsAt(plan: seq<Choice>, n: nat, m: Memory, bucket: string, id: string, k: nat) {
    Fault(plan, n + k) == Proceed && PartName(bucket, id, k) in m.objects
  }

  /** One read of the assembly. */
  lemma ReadsOne(plan: seq<Choice>, n: nat, c: Call, m: Memory)
    requires c.stage == Assembling && c.outcome == Running && c.cursor < c.session.Total()
    ensures var r, part := RunAlone(Rest(plan, n), c, m), PartName(c.bucket, c.id, c.cursor);
      if Fault(plan, n) == Proceed && part in m.objects
      then r == RunAlone(Rest(plan, n + 1), c.(cursor := c.cursor + 1, stream := c.stream + m.objects[part]), m)
      else r.0 == m && r.1.outcome == Internal
  {
    FirstOperation(plan, n, c, m);
    assert Next(c, m, Fault(plan, n)) == Assemble(c, m, Fault(plan, n));
  }

  /** The call when it has read `k` parts. */
  function ReadUpTo(c: Call, k: nat, stream: Bytes): Call {
    c.(cursor := k, stream := stream)
  }

  lemma ReadsAll(plan: seq<Choice>, n: nat, c: Call, m: Memory)
    requires c.stage == Assembling && c.outcome == Running && c.cursor == 0 && c.stream == []
    ensures var r, total := RunAlone(Rest(plan, n), c, m), c.session.Total();
      if Readable(plan, n, m, c.bucket, c.id, total)
      then PartsPresent(m, c.bucket, c.id, total)
           && r == RunAlone(Rest(plan, n + total), ReadUpTo(c, total, StoredStream(m, c.bucket, c.id, total)), m)
      else r.0 == m && r.1.outcome == Internal
  {
    hide RunAlone;
    var total, r, k, stream := c.session.Total(), RunAlone(Rest(plan, n), c, m), 0, [];
    assert ReadUpTo(c, 0, []) == c;
    while k < total && ReadsAt(plan, n, m, c.bucket, c.id, k)
      invariant 0 <= k <= total && PartsPresent(m, c.bucket, c.id, k) && stream == StoredStream(m, c.bucket, c.id, k)
      invariant forall j: nat :: j < k ==> ReadsAt(plan, n, m, c.bucket, c.id, j)
      invariant r == RunAlone(Rest(plan, n + k), ReadUpTo(c, k, stream), m)
      decreases total - k
    {
      ReadsOne(plan, n + k, ReadUpTo(c, k, stream), m);
      stream := stream + m.objects[PartName(c.bucket, c.id, k)];
      k := k + 1;
    }
    if k < total { ReadsOne(plan, n + k, ReadUpTo(c, k, stream), m); }
  }

  /** The parts whose removal takes effect, in a sweep that starts at operation `n`. */
  function Removed(plan: seq<Choice>, n: nat, bucket: string, id: string, from: nat, total: nat): set<ObjectName> {
    set k: nat | from <= k < total && Fault(plan, n + k) != FailBefore :: PartName(bucket, id, k)
  }

  /** One removal of the sweep. */
  lemma RemovesOne(plan: seq<Choice>, n: nat, c: Call, m: Memory)
    requires c.stage == Sweeping && c.outcome == Running && c.cursor < c.session.Total()
    ensures var m' := if Fault(plan, n) == FailBefore then m else m.(objects := m.objects - {PartName(c.bucket, c.id, c.cursor)});
      RunAlone(Rest(plan, n), c, m) == RunAlone(Rest(plan, n + 1), c.(cursor := c.cursor + 1), m')
  {
    FirstOperation(plan, n, c, m);
    assert Next(c, m, Fault(plan, n)) == Sweep(c, m, Fault(plan, n));
  }

  lemma {:induction false} SweepsExactly(plan: seq<Choice>, n: nat, c: Call, m: Memory, k: nat)
    requires c.stage == Sweeping && c.outcome == Running && k <= c.session.Total()
    ensures var r, total := RunAlone(Rest(plan, n + k), c.(cursor := k), m), c.session.Total();
      && r.1.outcome == Ok
      && r.0.objects == m.objects - Removed(plan, n, c.bucket, c.id, k, total)
      && r.0.redis == if Fault(plan, n + total) == FailBefore then m.redis else m.redis - {MetaKey(c.id), BitmapKey(c.id)}
    decreases c.session.Total() - k
  {
    hide RunAlone;
    var total := c.session.Total();
    if k < total {
      var m' := if Fault(plan, n + k) == FailBefore then m else m.(objects := m.objects - {PartName(c.bucket, c.id, k)});
      RemovesOne(plan, n + k, c.(cursor := k), m);
      assert c.(cursor := k).(cursor := k + 1) == c.(cursor := k + 1) && n + k + 1 == n + (k + 1);
      SweepsExactly(plan, n, c, m', k + 1);
      RemovedOneMore(plan, n, c.bucket, c.id, k, total, m.objects);
    } else {
      SweepEnds(plan, n + k, c.(cursor := k), m);
      assert Removed(plan, n, c.bucket, c.id, total, total) == {};
      assert m.objects - {} == m.objects;
    }
  }

  lemma SweepEnds(plan: seq<Choice>, n: nat, c: Call, m: Memory)
    requires c.stage == Sweeping && c.outcome == Running && c.cursor == c.session.Total()
    ensures var r := RunAlone(Rest(plan, n), c, m);
      && r.1.outcome == Ok && r.0.objects == m.objects
      && r.0.redis == if Fault(plan, n) == FailBefore then m.redis else m.redis - {MetaKey(c.id), BitmapKey(c.id)}
  {
    FirstOperation(plan, n, c, m);
    assert Next(c, m, Fault(plan, n)) == Sweep(c, m, Fault(plan, n));
  }

  lemma RemovedOneMore(plan: seq<Choice>, n: nat, bucket: string, id: string, k: nat, total: nat, objects: map<ObjectName, Bytes>)
    requires k < total
    ensures objects - Removed(plan, n, bucket, id, k, total) ==
      (if Fault(plan, n + k) == FailBefore then objects else objects - {PartName(bucket, id, k)})
      - Removed(plan, n, bucket, id, k + 1, total)
  {
    var all, rest := Removed(plan, n, bucket, id, k, total), Removed(plan, n, bucket, id, k + 1, total);
    if Fault(plan, n + k) == FailBefore {
      assert all == rest;
    } else {
      assert all == {PartName(bucket, id, k)} + rest;
    }
  }

  /** A call that has seen the full count answers Ok if and only if every read succeeds, every part is
      there, they have the declared size together, and the put succeeds; otherwise it answers
      Internal, and has changed something only when the put took effect and lost its reply.  When it
      answers Ok, the final object is those parts end to end; every part is gone whose removal took
      effect, and both keys unless theirs did not. */
  lemma AssemblyExactly(plan: seq<Choice>, n: nat, c: Call, m: Memory)
    requires c.stage == Assembling && c.outcome == Running && c.cursor == 0 && c.stream == []
    ensures var r, total, final := RunAlone(Rest(plan, n), c, m), c.session.Total(), ObjectName(c.bucket, c.session.prefix);
      if Readable(plan, n, m, c.bucket, c.id, total) && PartsPresent(m, c.bucket, c.id, total)
         && |StoredStream(m, c.bucket, c.id, total)| == c.session.size && Fault(plan, n + total) != FailBefore
      then
        var stored := m.objects[final := StoredStream(m, c.bucket, c.id, total)];
        if Fault(plan, n + total) == FailAfter then r.0 == Memory(stored, m.redis) && r.1.outcome == Internal
        else
          && r.1.outcome == Ok
          && r.0.objects == stored - Removed(plan, n + total + 1, c.bucket, c.id, 0, total)
          && r.0.redis == if Fault(plan, n + total + 1 + total) == FailBefore then m.redis
                          else m.redis - {MetaKey(c.id), BitmapKey(c.id)}
      else r.0 == m && r.1.outcome == Internal
  {
    hide RunAlone;
    var total := c.session.Total();
    ReadsAll(plan, n, c, m);
    if Readable(plan, n, m, c.bucket, c.id, total) {
      PutExactly(plan, n + total, ReadUpTo(c, total, StoredStream(m, c.bucket, c.id, total)), m);
    }
  }

  /** The final put, and the sweep when it succeeds. */
  lemma PutExactly(plan: seq<Choice>, n: nat, c: Call, m: Memory)
    requires c.stage == Assembling && c.outcome == Running && c.cursor == c.session.Total()
    ensures var r, total, final := RunAlone(Rest(plan, n), c, m), c.session.Total(), ObjectName(c.bucket, c.session.prefix);
      if |c.stream| == c.session.size && Fault(plan, n) != FailBefore
      then
        var stored := m.objects[final := c.stream];
        if Fault(plan, n) == FailAfter then r.0 == Memory(stored, m.redis) && r.1.outcome == Internal
        else
          && r.1.outcome == Ok
          && r.0.objects == stored - Removed(plan, n + 1, c.bucket, c.id, 0, total)
          && r.0.redis == if Fault(plan, n + 1 + total) == FailBefore then m.redis
                          else m.redis - {MetaKey(c.id), BitmapKey(c.id)}
      else r.0 == m && r.1.outcome == Internal
  {
    FirstOperation(plan, n, c, m);
    assert Next(c, m, Fault(plan, n)) == Assemble(c, m, Fault(plan, n));
    if |c.stream| == c.session.size && Fault(plan, n) == Proceed {
      var m' := m.(objects := m.objects[ObjectName(c.bucket, c.session.prefix) := c.stream]);
      var swept := c.(stage := Sweeping, cursor := 0);
      assert Next(c, m, Proceed) == (m', swept);
      assert swept.(cursor := 0) == swept;
      SweepsExactly(plan, n + 1, swept, m', 0);
    }
  }
}
