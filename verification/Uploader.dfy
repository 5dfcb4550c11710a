/** The upload loop with its variables updated in place: the semaphore, the counter, and the error
    group.  Each method is one step of the loop or the end of one send. */
module Uploader {
  import opened Chunking
  import opened Upload

  class ChunkUploader {
    const file: Bytes
    const chunk: nat
    const capacity: int
    var loop: Loop
    var slots: nat
    var uploaded: int
    var failed: bool
    var cancelled: bool
    ghost var inFlight: set<nat>
    ghost var sent: seq<(nat, Bytes)>
    ghost var replies: map<nat, Reply>

    ghost function View(): Transfer
      reads this
    {
      Transfer(file, chunk, capacity, loop, slots, inFlight, uploaded, failed, cancelled, sent, replies)
    }

    constructor (file: Bytes, chunk: nat, workers: int)
      requires Transferable(file, chunk)
      ensures this.file == file && this.chunk == chunk
      ensures View() == Start(file, chunk, workers)
    {
      var segments := ClientSegments(|file|, chunk);
      var count := workers;
      if count > segments { count := segments; }
      this.file, this.chunk, this.capacity := file, chunk, count;
      loop := if count < 0 then Panicked else Sending(0);
      slots, uploaded, failed, cancelled := 0, 0, false, false;
      inFlight, sent, replies := {}, [], map[];
    }

    /** Takes a slot and sends the next range. */
    method Dispatch() returns (part: (nat, Bytes))
      requires Transferable(file, chunk) && Enabled(View(), Action.Dispatch)
      modifies this
      ensures View() == Apply(old(View()), Action.Dispatch)
      ensures sent == old(sent) + [part]
    {
      var i := loop.next;
      var offset, limit := I64(i * chunk), chunk;
      if I64(offset + limit) > |file| { limit := I64(|file| - offset); }
      var range := Range(offset, limit);
      assert range == ClientRange(|file|, chunk, i);
      RangeInFile(file, chunk, i);
      part := (i, ReadAt(file, range));
      slots := slots + 1;
      loop := Sending(i + 1);
      inFlight, sent := inFlight + {i}, sent + [part];
    }

    /** A send ends and gives its slot back. */
    method Complete(i: nat, reply: Reply)
      requires Transferable(file, chunk) && Enabled(View(), Action.Complete(i, reply))
      modifies this
      ensures View() == Apply(old(View()), Action.Complete(i, reply))
    {
      match reply {
        case Acknowledged => uploaded := uploaded + ClientRange(|file|, chunk, i).limit;
        case Refused => cancelled := true;
        case Errored => failed, cancelled := true, true;
      }
      slots := slots - 1;
      inFlight, replies := inFlight - {i}, replies[i := reply];
    }

    method Join() returns (success: bool)
      requires Transferable(file, chunk) && Enabled(View(), Action.Join)
      modifies this
      ensures View() == Apply(old(View()), Action.Join) && loop == Returned(success)
    {
      success := !failed;
      loop := Returned(success);
    }

    /** Runs a whole schedule and collects the parts that were sent. */
    method Run(schedule: seq<Action>) returns (parts: seq<(nat, Bytes)>)
      requires Transferable(file, chunk) && Legal(View(), schedule)
      modifies this
      ensures View() == After(old(View()), schedule)
      ensures sent == old(sent) + parts
    {
      parts := [];
      var rest := schedule;
      while rest != []
        invariant Legal(View(), rest)
        invariant After(View(), rest) == After(old(View()), schedule)
        invariant sent == old(sent) + parts
        decreases |rest|
      {
        match rest[0] {
          case Dispatch =>
            var part := Dispatch();
            parts := parts + [part];
          case Complete(i, reply) => Complete(i, reply);
          case Join => var _ := Join();
        }
        rest := rest[1..];
      }
    }
  }

  /** How the sends of a schedule may end: `accepted` says which replies are allowed. */
  predicate AllReplies(schedule: seq<Action>, accepted: set<Reply>) {
    forall k :: 0 <= k < |schedule| && schedule[k].Complete? ==> schedule[k].reply in accepted
  }

  /** After every step of the schedule at most `limit` sends are in flight. */
  ghost predicate ThrottledBy(t: Transfer, schedule: seq<Action>, limit: int)
    requires Transferable(t.file, t.chunk)
  {
    forall n {:trigger schedule[..n]} :: 0 <= n <= |schedule| ==>
      Legal(t, schedule[..n]) && |After(t, schedule[..n]).inFlight| <= limit
  }

  /** Uploads a file on any schedule that runs to the return.  The parts sent are the slices of the
      file, in order, each once; the result is nil exactly when no send ended in an error; the
      counter reaches the size exactly when every reply acknowledged its part; and at no moment
      are more sends in flight than there are workers, or ranges. */
  method UploadChunks(file: Bytes, chunk: nat, workers: int, schedule: seq<Action>)
    returns (success: bool, uploaded: int, parts: seq<(nat, Bytes)>)
    requires Transferable(file, chunk)
    requires Legal(Start(file, chunk, workers), schedule) && After(Start(file, chunk, workers), schedule).loop.Returned?
    ensures parts == seq(Segments(file, chunk), i requires 0 <= i => (i, Slice(file, chunk, i)))
    ensures success <==> AllReplies(schedule, {Acknowledged, Refused})
    ensures |file| + chunk - 1 < TWO_63 ==> (uploaded == |file| <==> AllReplies(schedule, {Acknowledged}))
    ensures ThrottledBy(Start(file, chunk, workers), schedule, workers)
    ensures ThrottledBy(Start(file, chunk, workers), schedule, Segments(file, chunk))
  {
    var u := new ChunkUploader(file, chunk, workers);
    parts := u.Run(schedule);
    success := u.loop == Returned(true);
    uploaded := u.uploaded;
    ScheduleResult(file, chunk, workers, schedule);
  }

  lemma ScheduleResult(file: Bytes, chunk: nat, workers: int, schedule: seq<Action>)
    requires Transferable(file, chunk)
    requires Legal(Start(file, chunk, workers), schedule) && After(Start(file, chunk, workers), schedule).loop.Returned?
    ensures var t := After(Start(file, chunk, workers), schedule);
      && t.sent == seq(Segments(file, chunk), i requires 0 <= i => (i, Slice(file, chunk, i)))
      && (t.loop == Returned(true) <==> AllReplies(schedule, {Acknowledged, Refused}))
      && (Sized(file, chunk) ==> (t.uploaded == |file| <==> AllReplies(schedule, {Acknowledged})))
    ensures ThrottledBy(Start(file, chunk, workers), schedule, workers)
    ensures ThrottledBy(Start(file, chunk, workers), schedule, Segments(file, chunk))
  {
    var start := Start(file, chunk, workers);
    var t := After(start, schedule);
    assert Reachable(t, file, chunk, workers);
    ReachableValid(t, file, chunk, workers);
    NothingAcked(|file|, chunk, Segments(file, chunk));
    assert Valid(start);
    forall i: nat, r: Reply ensures i in t.replies && t.replies[i] == r <==> Complete(i, r) in schedule {
      RepliesOfRun(start, schedule, i, r);
    }
    SameReplies(t.replies, schedule, {Acknowledged, Refused});
    SameReplies(t.replies, schedule, {Acknowledged});
    if Sized(file, chunk) { CountAtReturn(t); }
    forall n | 0 <= n <= |schedule|
      ensures Legal(start, schedule[..n]) && |After(start, schedule[..n]).inFlight| <= workers
      ensures |After(start, schedule[..n]).inFlight| <= Segments(file, chunk)
    {
      ThrottledThroughout(start, schedule, n);
    }
  }

  /** When the replies are those of the schedule, both are accepted or neither is. */
  lemma SameReplies(replies: map<nat, Reply>, schedule: seq<Action>, accepted: set<Reply>)
    requires forall i: nat, r: Reply {:trigger Complete(i, r)} ::
               i in replies && replies[i] == r <==> Complete(i, r) in schedule
    ensures AllReplies(schedule, accepted) <==> forall i :: i in replies ==> replies[i] in accepted
  {
    forall i | i in replies ensures Complete(i, replies[i]) in schedule {}
    forall k | 0 <= k < |schedule| && schedule[k].Complete?
      ensures schedule[k].i in replies && replies[schedule[k].i] == schedule[k].reply
    {
      assert Complete(schedule[k].i, schedule[k].reply) == schedule[k];
    }
  }
}
