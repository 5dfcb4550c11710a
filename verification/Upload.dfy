/** The client's upload loop: one send per range, at most `workers` of them in flight, counted by
    a semaphore.  The loop does not look at failures; it waits for all sends at the end. */
module Upload {
  import opened Chunking

  /** How a send ends: acknowledged, answered with ok == false (which only cancels the context), or
      with an error. */
  datatype Reply = Acknowledged | Refused | Errored

  datatype Loop = Sending(next: nat) | Returned(success: bool) | Panicked

  /** `slots` is the semaphore's content.  `sent` and `replies` are history: the parts dispatched, in
      order, and how they ended.  A dispatched part whose read fails ends in an error without ever
      reaching the server. */
  datatype Transfer = Transfer(file: Bytes, chunk: nat, capacity: int, loop: Loop, slots: nat, inFlight: set<nat>,
                               uploaded: int, failed: bool, cancelled: bool,
                               sent: seq<(nat, Bytes)>, replies: map<nat, Reply>)

  datatype Action = Dispatch | Complete(i: nat, reply: Reply) | Join

  /** The semaphore holds min(workers, segments) slots; making it with a negative size panics, which
      can also come from a wrapped count. */
  function Start(file: Bytes, chunk: nat, workers: int): Transfer
    requires Transferable(file, chunk)
  {
    var segments := ClientSegments(|file|, chunk);
    var capacity := if workers > segments then segments else workers;
    Transfer(file, chunk, capacity, if capacity < 0 then Panicked else Sending(0), 0, {}, 0, false, false, [], map[])
  }

  /** file.ReadAt into a buffer of the range's length. */
  function ReadAt(file: Bytes, range: Range): Bytes
    requires 0 <= range.offset <= range.offset + range.limit <= |file|
  {
    file[range.offset..range.offset + range.limit]
  }

  predicate Enabled(t: Transfer, a: Action)
    requires Transferable(t.file, t.chunk)
  {
    match a
    case Dispatch => t.loop.Sending? && t.loop.next < Segments(t.file, t.chunk) && t.slots < t.capacity
    case Complete(i, _) => i in t.inFlight && t.slots > 0
    case Join => t.loop.Sending? && t.loop.next >= Segments(t.file, t.chunk) && t.inFlight == {}
  }

  /** Range `i` is inside the file, so that the read is the whole slice. */
  lemma RangeInFile(file: Bytes, chunk: nat, i: nat)
    requires Transferable(file, chunk) && i < Segments(file, chunk)
    ensures var r := ClientRange(|file|, chunk, i);
      && 0 <= r.offset <= r.offset + r.limit <= |file|
      && ReadAt(file, r) == Slice(file, chunk, i)
      && r.limit == Cut(|file|, chunk, i + 1) - Cut(|file|, chunk, i)
  {
    ClientRangeExact(|file|, chunk, i);
    CutMonotone(|file|, chunk, i, i + 1);
  }

  function Apply(t: Transfer, a: Action): Transfer
    requires Transferable(t.file, t.chunk) && Enabled(t, a)
  {
    match a
    case Dispatch =>
      var i := t.loop.next;
      RangeInFile(t.file, t.chunk, i);
      t.(loop := Sending(i + 1), slots := t.slots + 1, inFlight := t.inFlight + {i},
         sent := t.sent + [(i, ReadAt(t.file, ClientRange(|t.file|, t.chunk, i)))])
    case Complete(i, reply) =>
      t.(slots := t.slots - 1, inFlight := t.inFlight - {i}, replies := t.replies[i := reply],
         uploaded := if reply == Acknowledged then t.uploaded + ClientRange(|t.file|, t.chunk, i).limit else t.uploaded,
         failed := t.failed || reply == Errored, cancelled := t.cancelled || reply != Acknowledged)
    case Join => t.(loop := Returned(!t.failed))
  }

  lemma ApplyKeepsInput(t: Transfer, a: Action)
    requires Transferable(t.file, t.chunk) && Enabled(t, a)
    ensures Apply(t, a).file == t.file && Apply(t, a).chunk == t.chunk && Apply(t, a).capacity == t.capacity
  {
  }

  predicate Legal(t: Transfer, run: seq<Action>)
    requires Transferable(t.file, t.chunk)
    decreases |run|
  {
    run == [] || (Enabled(t, run[0]) && (ApplyKeepsInput(t, run[0]); Legal(Apply(t, run[0]), run[1..])))
  }

  function After(t: Transfer, run: seq<Action>): Transfer
    requires Transferable(t.file, t.chunk) && Legal(t, run)
    decreases |run|
  {
    if run == [] then t else
      ApplyKeepsInput(t, run[0]);
      After(Apply(t, run[0]), run[1..])
  }

  ghost predicate Reachable(t: Transfer, file: Bytes, chunk: nat, workers: int)
    requires Transferable(file, chunk)
  {
    exists run :: Legal(Start(file, chunk, workers), run) && After(Start(file, chunk, workers), run) == t
  }

  lemma {:induction false} OneMoreStep(t: Transfer, run: seq<Action>, a: Action)
    requires Transferable(t.file, t.chunk) && Legal(t, run)
    requires Transferable(After(t, run).file, After(t, run).chunk) && Enabled(After(t, run), a)
    ensures Legal(t, run + [a]) && After(t, run + [a]) == Apply(After(t, run), a)
    decreases |run|
  {
    if run == [] {
      assert [] + [a] == [a] && [a][1..] == [];
      ApplyKeepsInput(t, a);
      assert Legal(Apply(t, a), []) && After(Apply(t, a), []) == Apply(t, a);
    } else {
      ApplyKeepsInput(t, run[0]);
      OneMoreStep(Apply(t, run[0]), run[1..], a);
      assert (run + [a])[1..] == run[1..] + [a];
    }
  }

  /** A step from a reachable state leads to a reachable state. */
  lemma ReachableStep(t: Transfer, a: Action, file: Bytes, chunk: nat, workers: int)
    requires Transferable(file, chunk) && Reachable(t, file, chunk, workers)
    requires Transferable(t.file, t.chunk) && Enabled(t, a)
    ensures Reachable(Apply(t, a), file, chunk, workers)
  {
    var run :| Legal(Start(file, chunk, workers), run) && After(Start(file, chunk, workers), run) == t;
    OneMoreStep(Start(file, chunk, workers), run, a);
  }

  // ---------- the invariant ----------

  /** Bytes of the acknowledged ranges among the first `n`. */
  function AckedBytes(replies: map<nat, Reply>, size: nat, chunk: nat, n: nat): int {
    if n == 0 then 0
    else AckedBytes(replies, size, chunk, n - 1)
         + (if n - 1 in replies && replies[n - 1] == Acknowledged then Cut(size, chunk, n) - Cut(size, chunk, n - 1) else 0)
  }

  ghost predicate Valid(t: Transfer) {
    && Transferable(t.file, t.chunk)
    && t.capacity <= Segments(t.file, t.chunk)
    && |t.inFlight| == t.slots && (t.capacity >= 0 ==> t.slots <= t.capacity) && (t.capacity < 0 ==> t.slots == 0)
    && |t.sent| <= Segments(t.file, t.chunk)
    && (t.loop.Sending? ==> t.loop.next == |t.sent|)
    && (t.loop.Returned? ==> |t.sent| == Segments(t.file, t.chunk) && t.inFlight == {} && t.loop.success == !t.failed)
    && (t.loop.Panicked? <==> t.capacity < 0) && (t.loop.Panicked? ==> t.sent == [])
    && (forall i :: 0 <= i < |t.sent| ==> t.sent[i] == (i, Slice(t.file, t.chunk, i)))
    && (forall i :: i in t.inFlight ==> i < |t.sent| && i !in t.replies)
    && (forall i: nat :: i < |t.sent| ==> i in t.inFlight || i in t.replies)
    && (forall i :: i in t.replies ==> i < |t.sent|)
    && (t.failed <==> exists i :: i in t.replies && t.replies[i] == Errored)
    && (t.cancelled <==> exists i :: i in t.replies && t.replies[i] != Acknowledged)
    && t.uploaded == AckedBytes(t.replies, |t.file|, t.chunk, Segments(t.file, t.chunk))
  }

  lemma {:induction false} AckedUpdate(replies: map<nat, Reply>, size: nat, chunk: nat, n: nat, i: nat, reply: Reply)
    requires i !in replies
    ensures AckedBytes(replies[i := reply], size, chunk, n) ==
            AckedBytes(replies, size, chunk, n)
            + (if reply == Acknowledged && i < n then Cut(size, chunk, i + 1) - Cut(size, chunk, i) else 0)
  {
    if n > 0 { AckedUpdate(replies, size, chunk, n - 1, i, reply); }
  }

  lemma {:induction false} NothingAcked(size: nat, chunk: nat, n: nat)
    ensures AckedBytes(map[], size, chunk, n) == 0
  {
    if n > 0 { NothingAcked(size, chunk, n - 1); }
  }

  lemma {:induction false} AckedIsCut(replies: map<nat, Reply>, size: nat, chunk: nat, n: nat)
    requires forall i: nat :: i < n ==> i in replies
    ensures AckedBytes(replies, size, chunk, n) <= Cut(size, chunk, n)
    ensures (forall i: nat :: i < n ==> replies[i] == Acknowledged) ==> AckedBytes(replies, size, chunk, n) == Cut(size, chunk, n)
  {
    if n > 0 {
      AckedIsCut(replies, size, chunk, n - 1);
      CutMonotone(size, chunk, n - 1, n);
    }
  }

  /** One range that is not acknowledged leaves the sum short, since no range is empty. */
  lemma {:induction false} AckedFallsShort(replies: map<nat, Reply>, file: Bytes, chunk: nat, n: nat, i: nat)
    requires Transferable(file, chunk) && i < n <= Segments(file, chunk)
    requires forall j: nat :: j < n ==> j in replies
    requires replies[i] != Acknowledged
    ensures AckedBytes(replies, |file|, chunk, n) < Cut(|file|, chunk, n)
  {
    CutMonotone(|file|, chunk, n - 1, n);
    if i == n - 1 {
      AckedIsCut(replies, |file|, chunk, n - 1);
      ClientRangeExact(|file|, chunk, n - 1);
    } else {
      AckedFallsShort(replies, file, chunk, n - 1, i);
    }
  }

  lemma DispatchValid(t: Transfer)
    requires Valid(t) && Enabled(t, Dispatch)
    ensures Valid(Apply(t, Dispatch))
  {
    RangeInFile(t.file, t.chunk, t.loop.next);
  }

  lemma CompleteValid(t: Transfer, i: nat, reply: Reply)
    requires Valid(t) && Enabled(t, Complete(i, reply))
    ensures Valid(Apply(t, Complete(i, reply)))
  {
    var t' := Apply(t, Complete(i, reply));
    RangeInFile(t.file, t.chunk, i);
    AckedUpdate(t.replies, |t.file|, t.chunk, Segments(t.file, t.chunk), i, reply);
    if t.failed {
      var j :| j in t.replies && t.replies[j] == Errored;
      assert t'.replies[j] == Errored;
    }
    if t.cancelled {
      var j :| j in t.replies && t.replies[j] != Acknowledged;
      assert t'.replies[j] != Acknowledged;
    }
    assert t'.replies[i] == reply;
  }

  lemma StepValid(t: Transfer, a: Action)
    requires Valid(t) && Enabled(t, a)
    ensures Valid(Apply(t, a))
  {
    match a
    case Dispatch => DispatchValid(t);
    case Complete(i, reply) => CompleteValid(t, i, reply);
    case Join =>
  }

  lemma {:induction false} RunValid(t: Transfer, run: seq<Action>)
    requires Valid(t) && Legal(t, run)
    ensures Valid(After(t, run)) && After(t, run).file == t.file && After(t, run).chunk == t.chunk
    ensures After(t, run).capacity == t.capacity
    decreases |run|
  {
    if run != [] {
      StepValid(t, run[0]);
      RunValid(Apply(t, run[0]), run[1..]);
    }
  }

  lemma ReachableValid(t: Transfer, file: Bytes, chunk: nat, workers: int)
    requires Transferable(file, chunk) && Reachable(t, file, chunk, workers)
    ensures Valid(t) && t.file == file && t.chunk == chunk && t.capacity == Start(file, chunk, workers).capacity
  {
    var run :| Legal(Start(file, chunk, workers), run) && After(Start(file, chunk, workers), run) == t;
    NothingAcked(|file|, chunk, Segments(file, chunk));
    RunValid(Start(file, chunk, workers), run);
  }

  /** How each send ended is what the schedule said. */
  lemma {:induction false} RepliesOfRun(t: Transfer, run: seq<Action>, i: nat, reply: Reply)
    requires Valid(t) && Legal(t, run)
    ensures i in After(t, run).replies && After(t, run).replies[i] == reply <==>
            (i in t.replies && t.replies[i] == reply) || Complete(i, reply) in run
    decreases |run|
  {
    if run != [] {
      var t' := Apply(t, run[0]);
      StepValid(t, run[0]);
      RepliesOfRun(t', run[1..], i, reply);
      assert Complete(i, reply) in run <==> run[0] == Complete(i, reply) || Complete(i, reply) in run[1..];
      if i in t.replies { AnsweredOnce(t, run, i); }
    }
  }

  /** A send that was answered is not answered again. */
  lemma AnsweredOnce(t: Transfer, run: seq<Action>, i: nat)
    requires Valid(t) && Legal(t, run) && run != [] && i in t.replies
    ensures !(run[0].Complete? && run[0].i == i)
  {
  }

  /** The first `n` steps of a run are a run, and the throttle holds after them. */
  lemma {:induction false} ThrottledThroughout(t: Transfer, run: seq<Action>, n: nat)
    requires Valid(t) && Legal(t, run) && n <= |run|
    ensures Legal(t, run[..n]) && Valid(After(t, run[..n])) && After(t, run[..n]).capacity == t.capacity
    decreases |run|
  {
    if n > 0 {
      StepValid(t, run[0]);
      ThrottledThroughout(Apply(t, run[0]), run[1..], n - 1);
      assert run[..n][1..] == run[1..][..n - 1];
    }
  }

  // ---------- main results ----------

  /** The throttle holds, and every range is sent at most once, in order, with exactly its bytes. */
  lemma Throttled(t: Transfer, file: Bytes, chunk: nat, workers: int)
    requires Transferable(file, chunk) && Reachable(t, file, chunk, workers)
    ensures workers >= 0 ==> |t.inFlight| <= workers
    ensures |t.inFlight| <= Segments(file, chunk)
    ensures forall i :: 0 <= i < |t.sent| ==> t.sent[i] == (i, Slice(file, chunk, i))
  {
    ReachableValid(t, file, chunk, workers);
  }

  /** The context of the other sends is cancelled if and only if some reply did not acknowledge its part:
      an error, or a refusal, which is not an error. */
  lemma CancelledExactly(t: Transfer, file: Bytes, chunk: nat, workers: int)
    requires Transferable(file, chunk) && Reachable(t, file, chunk, workers)
    ensures t.cancelled <==> exists i :: i in t.replies && t.replies[i] != Acknowledged
  {
    ReachableValid(t, file, chunk, workers);
  }

  /** `n` sends were dispatched and none has ended. */
  predicate Dispatched(t: Transfer, n: nat) {
    t.loop == Sending(n) && t.slots == n
  }

  lemma DispatchOne(t: Transfer, n: nat)
    requires Transferable(t.file, t.chunk) && Dispatched(t, n) && n < t.capacity && n < Segments(t.file, t.chunk)
    ensures Enabled(t, Dispatch) && Dispatched(Apply(t, Dispatch), n + 1)
  {
  }

  lemma {:induction false} Dispatches(t: Transfer, n: nat, m: nat) returns (run: seq<Action>)
    requires Transferable(t.file, t.chunk) && Dispatched(t, n) && n <= m <= t.capacity && m <= Segments(t.file, t.chunk)
    ensures Legal(t, run) && Dispatched(After(t, run), m)
    decreases m - n
  {
    if n == m {
      run := [];
    } else {
      DispatchOne(t, n);
      ApplyKeepsInput(t, Dispatch);
      var rest := Dispatches(Apply(t, Dispatch), n + 1, m);
      run := [Dispatch] + rest;
      assert run[1..] == rest;
    }
  }

  /** As many sends can be in flight at once as there are workers, or ranges. */
  lemma AllSlotsBusy(file: Bytes, chunk: nat, workers: int)
    requires Sized(file, chunk) && workers >= 0
    ensures exists t :: Reachable(t, file, chunk, workers)
                        && |t.inFlight| == if workers <= Segments(file, chunk) then workers else Segments(file, chunk)
  {
    var n := if workers <= Segments(file, chunk) then workers else Segments(file, chunk);
    var start := Start(file, chunk, workers);
    var run := Dispatches(start, 0, n);
    var t := After(start, run);
    assert Reachable(t, file, chunk, workers);
    ReachableValid(t, file, chunk, workers);
  }

  /** When the loop returns, every range was sent once and answered, whatever failed on the way.
      The result is nil exactly when no send ended in an error, and then the counter reaches the
      size exactly when no reply refused its part. */
  lemma ResultIsExact(t: Transfer, file: Bytes, chunk: nat, workers: int)
    requires Sized(file, chunk) && Reachable(t, file, chunk, workers) && t.loop.Returned?
    ensures |t.sent| == Segments(file, chunk) == ServerTotal(|file|, chunk)
    ensures forall i: nat :: i < |t.sent| ==> i in t.replies
    ensures t.loop.success <==> forall i :: i in t.replies ==> t.replies[i] != Errored
    ensures t.uploaded == |file| <==> forall i :: i in t.replies ==> t.replies[i] == Acknowledged
  {
    ReachableValid(t, file, chunk, workers);
    CountAtReturn(t);
  }

  /** The counter at the return tells whether every reply acknowledged its part. */
  lemma CountAtReturn(t: Transfer)
    requires Valid(t) && Sized(t.file, t.chunk) && t.loop.Returned?
    ensures t.uploaded == |t.file| <==> forall i :: i in t.replies ==> t.replies[i] == Acknowledged
  {
    var n := Segments(t.file, t.chunk);
    LastCut(|t.file|, t.chunk, n);
    AckedIsCut(t.replies, |t.file|, t.chunk, n);
    if i :| i in t.replies && t.replies[i] != Acknowledged {
      AckedFallsShort(t.replies, t.file, t.chunk, n, i);
    }
  }

  /** The loop has not panicked, and a nil result means that as many parts were sent as the server
      counts. */
  ghost predicate Honest(t: Transfer)
    requires t.chunk > 0
  {
    t.loop != Panicked && (t.loop == Returned(true) ==> |t.sent| == ServerTotal(|t.file|, t.chunk))
  }

  /** On every run the loop does not panic, and a nil result means that all parts were sent, if and
      only if the client's sum does not wrap and the worker count is not negative.  On a wrap the loop
      panics when its count is negative, and otherwise returns nil at once with nothing sent. */
  lemma NilMeansSentExactly(file: Bytes, chunk: nat, workers: int)
    requires Transferable(file, chunk)
    ensures |file| + chunk - 1 < TWO_63 && workers >= 0 <==>
      forall t {:trigger Reachable(t, file, chunk, workers)} ::
        Reachable(t, file, chunk, workers) ==> t.file == file && t.chunk == chunk && Honest(t)
  {
    if |file| + chunk - 1 < TWO_63 && workers >= 0 {
      forall t | Reachable(t, file, chunk, workers) ensures t.file == file && t.chunk == chunk && Honest(t) {
        HonestWhenSized(t, file, chunk, workers);
      }
    } else {
      var t := NotHonest(file, chunk, workers);
      assert Reachable(t, file, chunk, workers);
    }
  }

  lemma HonestWhenSized(t: Transfer, file: Bytes, chunk: nat, workers: int)
    requires Sized(file, chunk) && workers >= 0 && Reachable(t, file, chunk, workers)
    ensures t.file == file && t.chunk == chunk && Honest(t)
  {
    ReachableValid(t, file, chunk, workers);
  }

  lemma NotHonest(file: Bytes, chunk: nat, workers: int) returns (t: Transfer)
    requires Transferable(file, chunk) && (workers < 0 || !Sized(file, chunk))
    ensures Reachable(t, file, chunk, workers) && t.chunk == chunk && !Honest(t)
  {
    t := Start(file, chunk, workers);
    assert Legal(t, []) && After(t, []) == t;
    if t.loop != Panicked {
      WrappedReturnsNil(file, chunk, workers);
      t := t.(loop := Returned(true));
    }
  }

  lemma WrappedReturnsNil(file: Bytes, chunk: nat, workers: int)
    requires Transferable(file, chunk) && !Sized(file, chunk)
    requires workers >= 0 && ClientSegments(|file|, chunk) == 0
    ensures var start := Start(file, chunk, workers);
      Legal(start, [Join]) && Reachable(start.(loop := Returned(true)), file, chunk, workers)
  {
    var start := Start(file, chunk, workers);
    var joined := Apply(start, Join);
    assert [Join][1..] == [];
    assert Legal(joined, []) && After(joined, []) == joined;
    assert Legal(start, [Join]) && After(start, [Join]) == joined;
  }

  ghost predicate CanMove(t: Transfer)
    requires Transferable(t.file, t.chunk)
  {
    exists a: Action :: Enabled(t, a)
  }

  lemma SendingMoves(t: Transfer)
    requires Valid(t) && t.loop.Sending? && t.capacity > 0
    ensures CanMove(t)
  {
    if i :| i in t.inFlight {
      assert Enabled(t, Complete(i, Acknowledged));
    } else {
      assert t.slots == 0;
      assert Enabled(t, if t.loop.next < Segments(t.file, t.chunk) then Dispatch else Join);
    }
  }

  /** The loop has a slot for its sends; or, when its count wrapped, nothing to send and no negative size. */
  predicate HasSlots(file: Bytes, chunk: nat, workers: int)
    requires Transferable(file, chunk)
  {
    if |file| + chunk - 1 < TWO_63 then workers >= 1 else workers >= 0 && ClientSegments(|file|, chunk) == 0
  }

  /** In this state the loop has returned, or can take a step. */
  ghost predicate Alive(t: Transfer) {
    t.loop.Returned? || (t.loop.Sending? && Transferable(t.file, t.chunk) && CanMove(t))
  }

  /** The loop neither panics nor blocks in any reachable state exactly when it has a worker, or has
      nothing to send because its count wrapped to zero. */
  lemma RunsExactlyWithWorkers(file: Bytes, chunk: nat, workers: int)
    requires Transferable(file, chunk)
    ensures HasSlots(file, chunk, workers) <==>
            forall t {:trigger Reachable(t, file, chunk, workers)} :: Reachable(t, file, chunk, workers) ==> Alive(t)
  {
    if HasSlots(file, chunk, workers) {
      forall t | Reachable(t, file, chunk, workers) ensures Alive(t) {
        Moves(t, file, chunk, workers);
      }
    } else {
      var t := BlockedAtStart(file, chunk, workers);
      assert Reachable(t, file, chunk, workers);
    }
  }

  lemma Moves(t: Transfer, file: Bytes, chunk: nat, workers: int)
    requires Transferable(file, chunk) && Reachable(t, file, chunk, workers) && HasSlots(file, chunk, workers)
    ensures Alive(t)
  {
    ReachableValid(t, file, chunk, workers);
    if t.loop.Sending? {
      if Sized(file, chunk) { SendingMoves(t); } else { assert t.inFlight == {} && Enabled(t, Join); }
    }
  }

  lemma BlockedAtStart(file: Bytes, chunk: nat, workers: int) returns (t: Transfer)
    requires Transferable(file, chunk) && !HasSlots(file, chunk, workers)
    ensures Reachable(t, file, chunk, workers) && !Alive(t)
  {
    t := Start(file, chunk, workers);
    assert Legal(t, []) && After(t, []) == t;
    assert t.capacity <= 0 && (Sized(file, chunk) || t.capacity < 0);
  }

  /** Ranges to send, sends in flight and the final wait. */
  function Remaining(t: Transfer): nat
    requires Transferable(t.file, t.chunk)
  {
    |t.inFlight|
    + match t.loop
      case Sending(next) => (if next < Segments(t.file, t.chunk) then 2 * (Segments(t.file, t.chunk) - next) else 0) + 1
      case _ => 0
  }

  /** Every step lowers the measure, also after an error: the loop ends after all dispatches. */
  lemma StepsRunOut(t: Transfer, a: Action)
    requires Transferable(t.file, t.chunk) && Enabled(t, a)
    ensures Apply(t, a).file == t.file && Apply(t, a).chunk == t.chunk && Remaining(Apply(t, a)) < Remaining(t)
  {
    match a
    case Dispatch =>
      assert |t.inFlight + {t.loop.next}| <= |t.inFlight| + 1 by { AddOne(t.inFlight, t.loop.next); }
    case Complete(i, _) => assert |t.inFlight - {i}| == |t.inFlight| - 1;
    case Join =>
  }

  lemma AddOne(s: set<nat>, i: nat)
    ensures |s + {i}| <= |s| + 1
  {
    if i in s { assert s + {i} == s; }
  }
}
