/** The storage server.  Each method is the whole body of one request handler, run without
    interference; operation `n` of the handler ends as `plan[n]` says. */
module Server {
  import opened Chunking
  import opened Keys
  import opened Protocol

  datatype InitiateReply =
    | Initiated(uploadId: string, chunkSize: nat, totalChunks: nat, expiresAtUnix: int)
    | InitiateFailed(outcome: Outcome)

  datatype RangeReply = RangeData(offset: nat, data: Bytes, totalSize: nat) | RangeFailed(outcome: Outcome)

  /** What one range of a stable object reads as, in Go's int64 arithmetic.  The buffer is made
      with the requested length, so a negative length panics.  A read at a negative offset is an
      error, and not the end of the file, which the handler would ignore. */
  function ReadRange(blob: Bytes, offset: nat, limit: nat): RangeReply
    requires |blob| < TWO_63
  {
    var off, lim := I64(offset), I64(limit);
    if lim < 0 then RangeFailed(Panicked)
    else
      var expected := if I64(off + lim) > |blob| then I64(|blob| - off) else lim;
      if off < 0 then RangeFailed(Internal)
      else
        var from := if off < |blob| then off else |blob|;
        var n := if lim < |blob| - from then lim else |blob| - from;
        if n != expected then RangeFailed(Internal)
        else RangeData(offset, blob[from..from + n], |blob|)
  }

  /** In plain arithmetic: a range that starts inside the object, or at its end, is served whole and
      cut at the end of the object, exactly when its length is a non-negative int64 and its end does
      not wrap.  A longer length panics, and every other range is refused. */
  lemma ReadRangeExact(blob: Bytes, offset: nat, limit: nat)
    requires |blob| < TWO_63 && offset < TWO_64 && limit < TWO_64
    ensures ReadRange(blob, offset, limit) ==
      if limit >= TWO_63 then RangeFailed(Panicked)
      else if offset > |blob| || offset + limit >= TWO_63 then RangeFailed(Internal)
      else RangeData(offset, blob[offset..if offset + limit < |blob| then offset + limit else |blob|], |blob|)
  {
    if limit >= TWO_63 {
      LargeIsNegative(limit);
    } else if offset >= TWO_63 {
      LargeIsNegative(offset);
    } else {
      SmallIsItself(offset);
      SmallIsItself(limit);
      assert offset <= |blob| ==> I64(|blob| - offset) == |blob| - offset;
      assert offset > |blob| ==> I64(|blob| - offset) == |blob| - offset < 0;
      if offset + limit < TWO_63 { SmallIsItself(offset + limit); } else { LargeIsNegative(offset + limit); }
    }
  }

  /** A server exists only with both connections, a positive time to live and a positive chunk size. */
  method NewServer(hasMinio: bool, hasRedis: bool, uploadTTL: int, chunkSize: int) returns (server: StorageServer?)
    requires -TWO_63 <= chunkSize < TWO_63
    ensures server != null <==> hasMinio && hasRedis && uploadTTL > 0 && chunkSize > 0
    ensures server != null ==> fresh(server) && server.Valid() && server.Mem() == Memory(map[], map[])
    ensures server != null ==> server.chunkSize == chunkSize && server.uploadTTL == uploadTTL
  {
    if !hasMinio || !hasRedis || uploadTTL <= 0 || chunkSize <= 0 { return null; }
    server := new StorageServer(chunkSize, uploadTTL);
  }

  class StorageServer {
    var objects: map<ObjectName, Bytes>
    var redis: map<string, Entry>
    const chunkSize: nat
    const uploadTTL: int

    ghost predicate Valid() {
      0 < chunkSize < TWO_63 && uploadTTL > 0
    }

    function Mem(): Memory
      reads this
    {
      Memory(objects, redis)
    }

    constructor (chunkSize: nat, uploadTTL: int)
      requires 0 < chunkSize < TWO_63 && uploadTTL > 0
      ensures Valid() && this.chunkSize == chunkSize && this.uploadTTL == uploadTTL
      ensures Mem() == Memory(map[], map[])
    {
      this.chunkSize := chunkSize;
      this.uploadTTL := uploadTTL;
      objects, redis := map[], map[];
    }

    /** Opens a session.  `size` is absent when the request carries no metadata; `bucketReady` says
        whether the bucket check succeeds (its error is passed on without a code) and `pipe` how the Redis transaction ends: it stores both
        keys or none, and its reply can be lost.  The new id is chosen outside; times are in
        nanoseconds. */
    method InitiateUpload(bucket: string, uploadId: string, prefix: string, size: nat, hasMeta: bool,
                          preferred: nat, now: int, bucketReady: bool, pipe: Choice)
      returns (reply: InitiateReply)
      requires Valid() && size < TWO_64 && preferred < TWO_64
      modifies this
      ensures reply.Initiated? <==> bucket != "" && bucketReady && hasMeta && pipe == Proceed
      ensures bucket == "" ==> reply == InitiateFailed(InvalidArgument)
      ensures bucket != "" && !bucketReady ==> reply == InitiateFailed(Unknown)
      ensures bucket != "" && bucketReady && !hasMeta ==> reply == InitiateFailed(InvalidArgument)
      ensures bucket != "" && bucketReady && hasMeta && pipe != Proceed ==> reply == InitiateFailed(Internal)
      ensures objects == old(objects)
      ensures if bucket != "" && bucketReady && hasMeta && pipe != FailBefore
              then var chunk := if preferred > 0 then preferred else this.chunkSize;
                   redis == old(redis)[MetaKey(uploadId) := Meta(Session(prefix, size, chunk))][BitmapKey(uploadId) := Bits({})]
              else redis == old(redis)
      ensures reply.Initiated? ==>
                && reply.uploadId == uploadId
                && (preferred > 0 ==> reply.chunkSize == preferred) && (preferred == 0 ==> reply.chunkSize == this.chunkSize)
                && (size == 0 ==> reply.totalChunks == 0)
                && (size > 0 ==> if size + reply.chunkSize - 1 < TWO_64 then JustCovers(size, reply.chunkSize, reply.totalChunks)
                                 else reply.totalChunks == 0)
                && reply.expiresAtUnix == (now + uploadTTL) / 1_000_000_000
      ensures bucket != "" && bucketReady && hasMeta && pipe != FailBefore ==>
                Mem() == OpenSession(old(Mem()), uploadId, Session(prefix, size, ChooseChunk(preferred, chunkSize)))
    {
      if bucket == "" { return InitiateFailed(InvalidArgument); }
      if !bucketReady { return InitiateFailed(Unknown); }
      if !hasMeta { return InitiateFailed(InvalidArgument); }
      var chunk := preferred;
      if chunk == 0 { chunk := chunkSize; }
      var total := 0;
      if size > 0 { total := U64(size + chunk - 1) / chunk; }
      if pipe != FailBefore {
        redis := redis[MetaKey(uploadId) := Meta(Session(prefix, size, chunk))][BitmapKey(uploadId) := Bits({})];
      }
      if pipe != Proceed { return InitiateFailed(Internal); }
      if size > 0 { ServerTotalExact(size, chunk); }
      reply := Initiated(uploadId, chunk, total, (now + uploadTTL) / 1_000_000_000);
    }

    /** Receives one part, and assembles and cleans up when it completes the bitmap.  What it does
        to the stores, and how it ends, is the run of one call with nothing in between. */
    method UploadPart(bucket: string, id: string, seqNo: nat, data: Bytes, plan: seq<Choice>) returns (outcome: Outcome)
      modifies this
      ensures (Mem(), outcome) == Ended(RunAlone(plan, Fresh(bucket, id, seqNo, data), old(Mem())))
    {
      var c := Fresh(bucket, id, seqNo, data);
      assert Rest(plan, 0) == plan;
      FirstOperation(plan, 0, c, Mem());
      if bucket == "" { return InvalidArgument; }

      if Fault(plan, 0) != Proceed || MetaKey(id) !in redis { return NotFound; }
      var entry := redis[MetaKey(id)];
      if entry.Bits? { return Internal; }
      var session := entry.session;
      if session.size > 0 && session.chunk == 0 { return Panicked; }
      var total := session.Total();
      if seqNo >= total { return InvalidArgument; }
      c := c.(stage := Admitted, session := session);

      FirstOperation(plan, 1, c, Mem());
      if Fault(plan, 1) != FailBefore { objects := objects[PartName(bucket, id, seqNo) := data]; }
      if Fault(plan, 1) != Proceed { return Internal; }
      c := c.(stage := Stored);

      FirstOperation(plan, 2, c, Mem());
      if Fault(plan, 2) != FailBefore { redis := redis[BitmapKey(id) := Bits(BitsOf(redis, id) + {seqNo})]; }
      if Fault(plan, 2) != Proceed { return Internal; }
      c := c.(stage := Marked);

      FirstOperation(plan, 3, c, Mem());
      if Fault(plan, 3) != Proceed { return Internal; }
      if |BitsOf(redis, id)| != total { return Ok; }
      outcome := AssembleAndSweep(c.(stage := Assembling), plan);
    }

    /** The completion branch of UploadPart, from a full count to the answer. */
    method AssembleAndSweep(c: Call, plan: seq<Choice>) returns (outcome: Outcome)
      requires c.stage == Assembling && c.outcome == Running && c.cursor == 0 && c.stream == []
      modifies this
      ensures (Mem(), outcome) == Ended(RunAlone(Rest(plan, 4), c, old(Mem())))
    {
      var total := c.session.Total();
      ghost var whole := Ended(RunAlone(Rest(plan, 4), c, Mem()));
      var stream, i := [], 0;
      while i < total
        invariant 0 <= i <= total
        invariant whole == Ended(RunAlone(Rest(plan, 4 + i), c.(cursor := i, stream := stream), Mem()))
      {
        FirstOperation(plan, 4 + i, c.(cursor := i, stream := stream), Mem());
        if Fault(plan, 4 + i) != Proceed || PartName(c.bucket, c.id, i) !in objects { return Internal; }
        stream := stream + objects[PartName(c.bucket, c.id, i)];
        i := i + 1;
      }
      FirstOperation(plan, 4 + total, c.(cursor := i, stream := stream), Mem());
      if |stream| != c.session.size { return Internal; }
      if Fault(plan, 4 + total) != FailBefore {
        objects := objects[ObjectName(c.bucket, c.session.prefix) := stream];
      }
      if Fault(plan, 4 + total) != Proceed { return Internal; }
      outcome := RemoveParts(c.(stage := Sweeping, stream := stream), plan, 5 + total);
    }

    /** Removes the parts and the session keys; a failing removal does not stop it. */
    method RemoveParts(c: Call, plan: seq<Choice>, first: nat) returns (outcome: Outcome)
      requires c.stage == Sweeping && c.outcome == Running && c.cursor == 0
      modifies this
      ensures (Mem(), outcome) == Ended(RunAlone(Rest(plan, first), c, old(Mem())))
      ensures outcome == Ok
    {
      var total := c.session.Total();
      ghost var whole := RunAlone(Rest(plan, first), c, Mem());
      var i := 0;
      assert c.(cursor := 0) == c;
      while i < total
        invariant 0 <= i <= total
        invariant whole == RunAlone(Rest(plan, first + i), c.(cursor := i), Mem())
      {
        RemovesOne(plan, first, c, i, Mem());
        if Fault(plan, first + i) != FailBefore { objects := objects - {PartName(c.bucket, c.id, i)}; }
        i := i + 1;
      }
      RemovesKeys(plan, first + total, c.(cursor := total), Mem());
      if Fault(plan, first + total) != FailBefore { redis := redis - {MetaKey(c.id), BitmapKey(c.id)}; }
      outcome := Ok;
      assert whole == (Mem(), c.(cursor := total, outcome := Ok));
    }

    /** The removal of part `i`. */
    static lemma RemovesOne(plan: seq<Choice>, first: nat, c: Call, i: nat, m: Memory)
      requires c.stage == Sweeping && c.outcome == Running && i < c.session.Total()
      ensures var m' := if Fault(plan, first + i) == FailBefore then m else m.(objects := m.objects - {PartName(c.bucket, c.id, i)});
        RunAlone(Rest(plan, first + i), c.(cursor := i), m) == RunAlone(Rest(plan, first + (i + 1)), c.(cursor := i + 1), m')
    {
      var now := c.(cursor := i);
      FirstOperation(plan, first + i, now, m);
      assert now.(cursor := i + 1) == c.(cursor := i + 1);
      assert first + i + 1 == first + (i + 1);
    }

    /** The removal of the session keys, after which the call has ended. */
    static lemma RemovesKeys(plan: seq<Choice>, n: nat, c: Call, m: Memory)
      requires c.stage == Sweeping && c.outcome == Running && c.cursor == c.session.Total()
      ensures RunAlone(Rest(plan, n), c, m) ==
        (if Fault(plan, n) == FailBefore then m else m.(redis := m.redis - {MetaKey(c.id), BitmapKey(c.id)}), c.(outcome := Ok))
    {
      FirstOperation(plan, n, c, m);
    }

    static function Ended(r: (Memory, Call)): (Memory, Outcome) {
      (r.0, r.1.outcome)
    }

    /** Serves one range of a stored object; `readable` says whether the store's three operations
        succeed.  What starts inside the object is served as exactly its bytes, up to the range's end
        or the object's. */
    method DownloadRange(bucket: string, prefix: string, offset: nat, limit: nat, readable: bool) returns (reply: RangeReply)
      requires ObjectName(bucket, prefix) in objects ==> |objects[ObjectName(bucket, prefix)]| < TWO_63
      requires offset < TWO_64 && limit < TWO_64
      ensures bucket == "" ==> reply == RangeFailed(InvalidArgument)
      ensures bucket != "" && (!readable || ObjectName(bucket, prefix) !in objects) ==> reply == RangeFailed(Internal)
      ensures bucket != "" && readable && ObjectName(bucket, prefix) in objects ==>
                var blob := objects[ObjectName(bucket, prefix)];
                && (reply == RangeFailed(Panicked) <==> limit >= TWO_63)
                && (reply.RangeData? <==> limit < TWO_63 && offset <= |blob| && offset + limit < TWO_63)
                && (reply.RangeData? ==>
                      reply == RangeData(offset, blob[offset..if offset + limit < |blob| then offset + limit else |blob|], |blob|))
    {
      if bucket == "" { return RangeFailed(InvalidArgument); }
      if !readable || ObjectName(bucket, prefix) !in objects { return RangeFailed(Internal); }
      var blob := objects[ObjectName(bucket, prefix)];
      ReadRangeExact(blob, offset, limit);
      var off, lim := I64(offset), I64(limit);
      if lim < 0 { return RangeFailed(Panicked); }
      var expected := lim;
      if I64(off + lim) > |blob| { expected := I64(|blob| - off); }
      if off < 0 { return RangeFailed(Internal); }
      var from := if off < |blob| then off else |blob|;
      var n := if lim < |blob| - from then lim else |blob| - from;
      if n != expected { return RangeFailed(Internal); }
      reply := RangeData(offset, blob[from..from + n], |blob|);
    }
  }
}
