/** The parallel download of one stable object: a feeder hands ranges to workers over an unbuffered
    channel, each worker requests its range and writes it in place, and the first failure
    cancels the rest. */
module Download {
  import opened Chunking
  import opened Server

  // ---------- state ----------

  /** A worker with a range remembers its offset and limit; `job`, the index of the range, is history. */
  datatype Worker = Idle | Asking(job: nat, range: Range) | Received(job: nat, range: Range, data: Bytes) | Left {
    predicate Holds(i: nat) {
      match this
      case Idle => false
      case Asking(j, _) => j == i
      case Received(j, _, _) => j == i
      case Left => false
    }

    function StepsLeft(): nat {
      match this
      case Idle => 1
      case Asking(_, _) => 3
      case Received(_, _, _) => 2
      case Left => 0
    }
  }

  /** The feeder sends ranges, then waits for the workers, then returns; it returns an error
      right away when it sees the cancellation while sending. */
  datatype Feeder = Feeding(next: nat) | Waiting | Returned(success: bool)

  /** What became of a range: a history that the code does not keep. */
  datatype JobState = Unsent | With(worker: nat) | Written | Lost

  /** `hits` counts, byte by byte, how often the output was written. */
  datatype Transfer = Transfer(blob: Bytes, chunk: nat, feeder: Feeder, workers: seq<Worker>,
                               cancelled: bool, failed: bool, output: Bytes, downloaded: int,
                               jobs: seq<JobState>, hits: seq<nat>)

  datatype Action =
    | Hand(w: nat)                        // the feeder's send meets an idle worker
    | Ask(w: nat, answered: bool)         // the range request returns
    | Write(w: nat, complete: bool, n: nat) // the write returns, perhaps after `n` bytes and an error
    | Leave(w: nat)                       // an idle worker sees the closed channel
    | Close                               // the feeder has sent everything
    | GiveUp                              // the feeder sees the cancellation
    | Join                                // every worker has left
    | Abort                               // the caller's context is cancelled

  /** How many workers are started. */
  function WorkerCount(workers: int, segments: int): nat {
    var n := if workers > segments then segments else workers;
    if n < 0 then 0 else n
  }

  function Start(blob: Bytes, chunk: nat, workers: int, output: Bytes): Transfer
    requires Transferable(blob, chunk)
  {
    Transfer(blob, chunk, Feeding(0), seq(WorkerCount(workers, ClientSegments(|blob|, chunk)), _ => Idle), false, false, output, 0,
             seq(Segments(blob, chunk), _ => Unsent), seq(|blob|, _ => 0))
  }

  // ---------- steps ----------

  /** os.File.WriteAt inside the file. */
  function WriteAt(output: Bytes, offset: nat, data: Bytes): Bytes
    requires offset + |data| <= |output|
  {
    output[..offset] + data + output[offset + |data|..]
  }

  function CountHits(hits: seq<nat>, offset: nat, n: nat): seq<nat>
    requires offset + n <= |hits|
  {
    seq(|hits|, p requires 0 <= p < |hits| => if offset <= p < offset + n then hits[p] + 1 else hits[p])
  }

  /** The reply to a range request. */
  function Request(blob: Bytes, range: Range): RangeReply
    requires |blob| < TWO_63
  {
    ReadRange(blob, U64(range.offset), U64(range.limit))
  }

  predicate Enabled(t: Transfer, a: Action)
    requires Transferable(t.blob, t.chunk)
  {
    match a
    case Hand(w) =>
      t.feeder.Feeding? && t.feeder.next < Segments(t.blob, t.chunk) == |t.jobs| && w < |t.workers| && t.workers[w].Idle?
    case Ask(w, _) => w < |t.workers| && t.workers[w].Asking? && t.workers[w].job < |t.jobs|
    case Write(w, complete, n) =>
      && w < |t.workers| && t.workers[w].Received? && t.workers[w].job < |t.jobs|
      && n <= |t.workers[w].data| && (complete ==> n == |t.workers[w].data|)
      && 0 <= t.workers[w].range.offset && t.workers[w].range.offset + |t.workers[w].data| <= |t.output| == |t.hits|
    case Leave(w) => w < |t.workers| && t.workers[w].Idle? && !t.feeder.Feeding?
    case Close => t.feeder.Feeding? && t.feeder.next >= Segments(t.blob, t.chunk)
    case GiveUp => t.feeder.Feeding? && t.feeder.next < Segments(t.blob, t.chunk) && t.cancelled
    case Join => t.feeder.Waiting? && forall w :: 0 <= w < |t.workers| ==> t.workers[w].Left?
    case Abort => true
  }

  /** A worker returns an error: it leaves, its range is lost, and the context is cancelled. */
  function Fail(t: Transfer, w: nat): Transfer
    requires w < |t.workers| && (t.workers[w].Asking? || t.workers[w].Received?) && t.workers[w].job < |t.jobs|
  {
    t.(workers := t.workers[w := Left], jobs := t.jobs[t.workers[w].job := Lost], failed := true, cancelled := true)
  }

  function Apply(t: Transfer, a: Action): Transfer
    requires Transferable(t.blob, t.chunk) && Enabled(t, a)
  {
    match a
    case Hand(w) =>
      t.(feeder := Feeding(t.feeder.next + 1), workers := t.workers[w := Asking(t.feeder.next, ClientRange(|t.blob|, t.chunk, t.feeder.next))],
         jobs := t.jobs[t.feeder.next := With(w)])
    case Ask(w, answered) =>
      var i, range := t.workers[w].job, t.workers[w].range;
      var reply := Request(t.blob, range);
      if answered && reply.RangeData? && |reply.data| == range.limit
      then t.(workers := t.workers[w := Received(i, range, reply.data)])
      else Fail(t, w)
    case Write(w, complete, n) =>
      var i, offset, data := t.workers[w].job, t.workers[w].range.offset, t.workers[w].data[..n];
      var t' := t.(output := WriteAt(t.output, offset, data), hits := CountHits(t.hits, offset, n));
      if complete
      then t'.(workers := t.workers[w := Idle], jobs := t.jobs[i := Written], downloaded := t.downloaded + n)
      else Fail(t', w)
    case Leave(w) => t.(workers := t.workers[w := Left])
    case Close => t.(feeder := Waiting)
    case GiveUp => t.(feeder := Returned(false))
    case Join => t.(feeder := Returned(!t.failed))
    case Abort => t.(cancelled := true)
  }

  lemma ApplyKeepsInput(t: Transfer, a: Action)
    requires Transferable(t.blob, t.chunk) && Enabled(t, a)
    ensures Apply(t, a).blob == t.blob && Apply(t, a).chunk == t.chunk
  {
  }

  predicate Legal(t: Transfer, run: seq<Action>)
    requires Transferable(t.blob, t.chunk)
    decreases |run|
  {
    run == [] || (Enabled(t, run[0]) && (ApplyKeepsInput(t, run[0]); Legal(Apply(t, run[0]), run[1..])))
  }

  function After(t: Transfer, run: seq<Action>): Transfer
    requires Transferable(t.blob, t.chunk) && Legal(t, run)
    decreases |run|
  {
    if run == [] then t else
      ApplyKeepsInput(t, run[0]);
      After(Apply(t, run[0]), run[1..])
  }

  /** `t` is a state of some download of `blob` over some initial output of the right length. */
  ghost predicate Reachable(t: Transfer, blob: Bytes, chunk: nat, workers: int)
    requires Transferable(blob, chunk)
  {
    exists output, run :: |output| == |blob| && Legal(Start(blob, chunk, workers, output), run)
                          && After(Start(blob, chunk, workers, output), run) == t
  }

  // ---------- the invariant ----------

  /** Bytes of the written ranges among the first `n`. */
  function WrittenBytes(jobs: seq<JobState>, size: nat, chunk: nat, n: nat): int
    requires n <= |jobs|
  {
    if n == 0 then 0
    else WrittenBytes(jobs, size, chunk, n - 1)
         + (if jobs[n - 1].Written? then Cut(size, chunk, n) - Cut(size, chunk, n - 1) else 0)
  }

  /** The range that holds byte `p`. */
  function RangeIndex(p: nat, chunk: nat): nat
    requires chunk > 0
  {
    p / chunk
  }

  /** A byte is written once when its range is, never before its range is, and then right. */
  predicate ByteOk(job: JobState, hit: nat, got: Byte, want: Byte) {
    match job
    case Written => hit == 1 && got == want
    case Lost => true
    case Unsent => hit == 0
    case With(_) => hit == 0
  }

  predicate ByteTrue(t: Transfer, p: nat)
    requires t.chunk > 0 && p < |t.blob| == |t.output| == |t.hits| && RangeIndex(p, t.chunk) < |t.jobs|
  {
    ByteOk(t.jobs[RangeIndex(p, t.chunk)], t.hits[p], t.output[p], t.blob[p])
  }

  ghost predicate BytesTrue(t: Transfer)
    requires Shape(t)
  {
    forall p: nat :: p < |t.blob| && RangeIndex(p, t.chunk) < |t.jobs| ==> ByteTrue(t, p)
  }

  ghost predicate Shape(t: Transfer) {
    && Transferable(t.blob, t.chunk) && |t.output| == |t.hits| == |t.blob| && |t.jobs| == Segments(t.blob, t.chunk)
    && (t.feeder.Feeding? ==> t.feeder.next <= |t.jobs|)
  }

  /** Range `i` in plain arithmetic. */
  function PlainRange(size: nat, chunk: nat, i: nat): Range {
    Range(Cut(size, chunk, i), Cut(size, chunk, i + 1) - Cut(size, chunk, i))
  }

  /** Worker `w` holds a range of its own, with the right bounds and the right bytes. */
  ghost predicate WorkerTrue(t: Transfer, w: nat)
    requires w < |t.workers|
  {
    match t.workers[w]
    case Idle => true
    case Left => true
    case Asking(i, range) => i < |t.jobs| && t.jobs[i] == With(w) && range == PlainRange(|t.blob|, t.chunk, i)
    case Received(i, range, data) =>
      && i < |t.jobs| && t.jobs[i] == With(w) && range == PlainRange(|t.blob|, t.chunk, i)
      && data == Slice(t.blob, t.chunk, i)
  }

  /** Range and worker agree on who holds what. */
  ghost predicate Agrees(t: Transfer) {
    && (forall i :: 0 <= i < |t.jobs| && t.jobs[i].With? ==>
          t.jobs[i].worker < |t.workers| && t.workers[t.jobs[i].worker].Holds(i))
    && (forall w :: 0 <= w < |t.workers| ==> WorkerTrue(t, w))
  }

  ghost predicate Discipline(t: Transfer) {
    && (forall i :: 0 <= i < |t.jobs| ==> (t.jobs[i].Unsent? <==> t.feeder.Feeding? && i >= t.feeder.next) || t.feeder == Returned(false))
    && (forall i :: 0 <= i < |t.jobs| && t.jobs[i].Lost? ==> t.failed)
    && (t.failed ==> t.cancelled)
    && (t.feeder.Feeding? && !t.failed ==> forall w :: 0 <= w < |t.workers| ==> !t.workers[w].Left?)
    && (t.feeder == Returned(true) ==> !t.failed && forall w :: 0 <= w < |t.workers| ==> t.workers[w].Left?)
  }

  ghost predicate Valid(t: Transfer) {
    && Shape(t) && Agrees(t) && Discipline(t)
    && BytesTrue(t)
    && t.downloaded == WrittenBytes(t.jobs, |t.blob|, t.chunk, |t.jobs|)
  }

  // ---------- every step keeps it ----------

  lemma {:induction false} WrittenUpdate(jobs: seq<JobState>, size: nat, chunk: nat, n: nat, i: nat, s: JobState)
    requires n <= |jobs| && i < |jobs| && !jobs[i].Written?
    ensures WrittenBytes(jobs[i := s], size, chunk, n) ==
            WrittenBytes(jobs, size, chunk, n)
            + (if s.Written? && i < n then Cut(size, chunk, i + 1) - Cut(size, chunk, i) else 0)
  {
    if n > 0 { WrittenUpdate(jobs, size, chunk, n - 1, i, s); }
  }

  lemma {:induction false} AllWrittenBytes(jobs: seq<JobState>, size: nat, chunk: nat, n: nat)
    requires n <= |jobs| && forall i :: 0 <= i < n ==> jobs[i].Written?
    ensures WrittenBytes(jobs, size, chunk, n) == Cut(size, chunk, n)
  {
    if n > 0 { AllWrittenBytes(jobs, size, chunk, n - 1); }
  }

  lemma {:induction false} NoneWrittenBytes(jobs: seq<JobState>, size: nat, chunk: nat, n: nat)
    requires n <= |jobs| && forall i :: 0 <= i < n ==> !jobs[i].Written?
    ensures WrittenBytes(jobs, size, chunk, n) == 0
  {
    if n > 0 { NoneWrittenBytes(jobs, size, chunk, n - 1); }
  }

  lemma StartValid(blob: Bytes, chunk: nat, workers: int, output: Bytes)
    requires Transferable(blob, chunk) && |output| == |blob|
    ensures Valid(Start(blob, chunk, workers, output))
  {
    var t := Start(blob, chunk, workers, output);
    NoneWrittenBytes(t.jobs, |blob|, chunk, |t.jobs|);
    assert Shape(t) && Agrees(t) && Discipline(t);
    NothingWritten(t);
  }

  lemma NothingWritten(t: Transfer)
    requires Shape(t)
    requires forall i :: 0 <= i < |t.jobs| ==> t.jobs[i] == Unsent
    requires forall p :: 0 <= p < |t.hits| ==> t.hits[p] == 0
    ensures BytesTrue(t)
  {
    forall p: nat | p < |t.blob| && RangeIndex(p, t.chunk) < |t.jobs| ensures ByteTrue(t, p) {
      var q: nat := RangeIndex(p, t.chunk);
      assert t.jobs[q] == Unsent;
    }
  }

  /** The client's int64 arithmetic yields the plain range. */
  lemma RangeIsPlain(blob: Bytes, chunk: nat, i: nat)
    requires Transferable(blob, chunk) && i < Segments(blob, chunk)
    ensures ClientRange(|blob|, chunk, i) == PlainRange(|blob|, chunk, i)
  {
    ClientRangeExact(|blob|, chunk, i);
  }

  lemma PlainRangeFits(blob: Bytes, chunk: nat, i: nat)
    requires Transferable(blob, chunk) && i < Segments(blob, chunk)
    ensures var r := PlainRange(|blob|, chunk, i);
      && 0 <= r.offset < |blob| && 0 < r.limit == |Slice(blob, chunk, i)|
      && r.offset + r.limit == Cut(|blob|, chunk, i + 1) <= |blob|
  {
    ClientRangeExact(|blob|, chunk, i);
    CutMonotone(|blob|, chunk, i, i + 1);
  }

  /** The range service fits its client: every request a worker makes is in range and is answered
      with exactly the slice, so the worker's length check never rejects a stable object. */
  lemma RequestAnswered(blob: Bytes, chunk: nat, i: nat)
    requires Transferable(blob, chunk) && i < Segments(blob, chunk)
    ensures var range := ClientRange(|blob|, chunk, i);
      && Request(blob, range).RangeData?
      && Request(blob, range).data == Slice(blob, chunk, i)
      && |Request(blob, range).data| == range.limit
  {
    RangeIsPlain(blob, chunk, i);
    PlainRangeFits(blob, chunk, i);
    var range := PlainRange(|blob|, chunk, i);
    SmallIsItself(range.offset);
    SmallIsItself(range.limit);
    ReadRangeExact(blob, range.offset, range.limit);
  }

  /** When only worker `w` and the range it holds, or is handed, change, the others still agree. */
  lemma OthersAgree(t: Transfer, t': Transfer, w: nat, i: nat)
    requires Agrees(t) && w < |t.workers| == |t'.workers| && i < |t.jobs| == |t'.jobs|
    requires t'.blob == t.blob && t'.chunk == t.chunk
    requires forall v :: 0 <= v < |t.workers| && v != w ==> t'.workers[v] == t.workers[v]
    requires forall j :: 0 <= j < |t.jobs| && j != i ==> t'.jobs[j] == t.jobs[j]
    requires t'.jobs[i] == t.jobs[i] || t.jobs[i].Unsent? || t.jobs[i] == With(w)
    requires t.jobs[i] == With(w) || t.workers[w].Idle?
    requires t'.jobs[i].With? && t'.jobs[i].worker == w ==> t'.workers[w].Holds(i)
    requires t'.jobs[i].With? && t'.jobs[i].worker != w ==> t.jobs[i] == t'.jobs[i]
    requires WorkerTrue(t', w)
    ensures Agrees(t')
  {
    forall v | 0 <= v < |t'.workers| ensures WorkerTrue(t', v) {
      if v != w { assert WorkerTrue(t, v); }
    }
    forall j | 0 <= j < |t'.jobs| && t'.jobs[j].With?
      ensures t'.jobs[j].worker < |t'.workers| && t'.workers[t'.jobs[j].worker].Holds(j)
    {
    }
  }

  lemma HandValid(t: Transfer, a: Action)
    requires Valid(t) && a.Hand? && Enabled(t, a)
    ensures Valid(Apply(t, a))
  {
    var n, t' := t.feeder.next, Apply(t, a);
    RangeIsPlain(t.blob, t.chunk, n);
    WrittenUpdate(t.jobs, |t.blob|, t.chunk, |t.jobs|, n, With(a.w));
    OthersAgree(t, t', a.w, n);
    KeepsBytes(t, t');
  }

  /** Bytes stay true when neither output nor hits change and no range becomes written. */
  lemma KeepsBytes(t: Transfer, t': Transfer)
    requires Shape(t) && Shape(t') && t'.blob == t.blob && t'.chunk == t.chunk && t'.output == t.output && t'.hits == t.hits
    requires BytesTrue(t)
    requires forall i :: 0 <= i < |t.jobs| ==> t'.jobs[i] == t.jobs[i] || t'.jobs[i].Lost? || (t'.jobs[i].With? && t.jobs[i].Unsent?)
    ensures BytesTrue(t')
  {
    forall p: nat | p < |t'.blob| && RangeIndex(p, t'.chunk) < |t'.jobs| ensures ByteTrue(t', p) {
      assert ByteTrue(t, p);
    }
  }

  lemma AskValid(t: Transfer, a: Action)
    requires Valid(t) && a.Ask? && Enabled(t, a)
    ensures Valid(Apply(t, a))
  {
    var i, t' := t.workers[a.w].job, Apply(t, a);
    assert WorkerTrue(t, a.w);
    if a.answered { AnsweredWorker(t, a); } else { WrittenUpdate(t.jobs, |t.blob|, t.chunk, |t.jobs|, i, Lost); }
    OthersAgree(t, t', a.w, i);
    KeepsBytes(t, t');
  }

  lemma AnsweredWorker(t: Transfer, a: Action)
    requires Valid(t) && a.Ask? && a.answered && Enabled(t, a)
    ensures var i := t.workers[a.w].job;
            Apply(t, a) == t.(workers := t.workers[a.w := Received(i, PlainRange(|t.blob|, t.chunk, i), Slice(t.blob, t.chunk, i))])
  {
    assert WorkerTrue(t, a.w);
    RangeIsPlain(t.blob, t.chunk, t.workers[a.w].job);
    RequestAnswered(t.blob, t.chunk, t.workers[a.w].job);
  }

  lemma WriteValid(t: Transfer, a: Action)
    requires Valid(t) && a.Write? && Enabled(t, a)
    ensures Valid(Apply(t, a))
  {
    var t' := Apply(t, a);
    var i := t.workers[a.w].job;
    assert WorkerTrue(t, a.w);
    PlainRangeFits(t.blob, t.chunk, i);
    WrittenUpdate(t.jobs, |t.blob|, t.chunk, |t.jobs|, i, t'.jobs[i]);
    OthersAgree(t, t', a.w, i);
    assert Shape(t') && Discipline(t');
    WriteBytesTrue(t, a);
  }

  lemma WriteBytesTrue(t: Transfer, a: Action)
    requires Valid(t) && a.Write? && Enabled(t, a) && Shape(Apply(t, a))
    ensures BytesTrue(Apply(t, a))
  {
    var t' := Apply(t, a);
    forall p: nat | p < |t'.blob| && RangeIndex(p, t'.chunk) < |t'.jobs| ensures ByteTrue(t', p) {
      WriteByteTrue(t, a, p);
    }
  }

  lemma WriteByteTrue(t: Transfer, a: Action, p: nat)
    requires Valid(t) && a.Write? && Enabled(t, a) && Shape(Apply(t, a))
    requires p < |t.blob| && RangeIndex(p, t.chunk) < |t.jobs|
    ensures ByteTrue(Apply(t, a), p)
  {
    var t', i, q := Apply(t, a), t.workers[a.w].job, RangeIndex(p, t.chunk);
    assert ByteTrue(t, p) && WorkerTrue(t, a.w);
    PlainRangeFits(t.blob, t.chunk, i);
    InOnePlainRange(t.blob, t.chunk, p, i);
    ByteAfterWrite(t.output, t.hits, t.workers[a.w].range.offset, t.workers[a.w].data, a.n, p,
                   t.jobs[q], t'.jobs[q], t.blob[p]);
  }

  lemma InOnePlainRange(blob: Bytes, chunk: nat, p: nat, i: nat)
    requires Transferable(blob, chunk) && p < |blob| && i < Segments(blob, chunk)
    ensures var r := PlainRange(|blob|, chunk, i);
      && (r.offset <= p < r.offset + r.limit <==> i == RangeIndex(p, chunk))
      && |Slice(blob, chunk, i)| == r.limit
      && (i == RangeIndex(p, chunk) ==> Slice(blob, chunk, i)[p - r.offset] == blob[p])
  {
    PlainRangeFits(blob, chunk, i);
    ByteInOneRange(|blob|, chunk, Segments(blob, chunk), p, i);
  }

  /** One byte under a write of the first `n` bytes of a range. */
  lemma ByteAfterWrite(output: Bytes, hits: seq<nat>, offset: nat, data: Bytes, n: nat, p: nat,
                       job: JobState, job': JobState, want: Byte)
    requires n <= |data| && offset + |data| <= |output| == |hits| && p < |output|
    requires ByteOk(job, hits[p], output[p], want)
    requires if offset <= p < offset + |data|
             then job.With? && data[p - offset] == want && (job'.Lost? || (job'.Written? && n == |data|))
             else job' == job
    ensures ByteOk(job', CountHits(hits, offset, n)[p], WriteAt(output, offset, data[..n])[p], want)
  {
    WriteAtByte(output, offset, data[..n], p);
  }

  lemma WriteAtByte(output: Bytes, offset: nat, data: Bytes, p: nat)
    requires offset + |data| <= |output| && p < |output|
    ensures |WriteAt(output, offset, data)| == |output|
    ensures WriteAt(output, offset, data)[p] == if offset <= p < offset + |data| then data[p - offset] else output[p]
  {
  }

  lemma StepValid(t: Transfer, a: Action)
    requires Valid(t) && Enabled(t, a)
    ensures Valid(Apply(t, a))
  {
    match a
    case Hand(_) => HandValid(t, a);
    case Ask(_, _) => AskValid(t, a);
    case Write(_, _, _) => WriteValid(t, a);
    case Leave(_) => LeaveValid(t, a);
    case Close => FeederValid(t, a);
    case GiveUp => FeederValid(t, a);
    case Join => FeederValid(t, a);
    case Abort => FeederValid(t, a);
  }

  lemma FeederValid(t: Transfer, a: Action)
    requires Valid(t) && (a.Close? || a.GiveUp? || a.Join? || a.Abort?) && Enabled(t, a)
    ensures Valid(Apply(t, a))
  {
    forall w | 0 <= w < |t.workers| ensures WorkerTrue(Apply(t, a), w) {
      assert WorkerTrue(t, w);
    }
    KeepsBytes(t, Apply(t, a));
  }

  lemma LeaveValid(t: Transfer, a: Action)
    requires Valid(t) && a.Leave? && Enabled(t, a)
    ensures Valid(Apply(t, a))
  {
    forall v | 0 <= v < |t.workers| ensures WorkerTrue(Apply(t, a), v) {
      assert WorkerTrue(t, v);
    }
    KeepsBytes(t, Apply(t, a));
  }

  lemma {:induction false} RunValid(t: Transfer, run: seq<Action>)
    requires Valid(t) && Legal(t, run)
    ensures Valid(After(t, run)) && After(t, run).blob == t.blob && After(t, run).chunk == t.chunk
    ensures |After(t, run).workers| == |t.workers|
    decreases |run|
  {
    if run != [] {
      StepValid(t, run[0]);
      RunValid(Apply(t, run[0]), run[1..]);
    }
  }

  lemma ReachableValid(t: Transfer, blob: Bytes, chunk: nat, workers: int)
    requires Transferable(blob, chunk) && Reachable(t, blob, chunk, workers)
    ensures Valid(t) && t.blob == blob && t.chunk == chunk
    ensures |t.workers| == WorkerCount(workers, ClientSegments(|blob|, chunk))
  {
    var output, run :| |output| == |blob| && Legal(Start(blob, chunk, workers, output), run)
                       && After(Start(blob, chunk, workers, output), run) == t;
    StartValid(blob, chunk, workers, output);
    RunValid(Start(blob, chunk, workers, output), run);
  }

  // ---------- main results ----------

  /** The output is the object, every byte was written exactly once, and the counter is the size. */
  ghost predicate IsCopy(t: Transfer) {
    && t.output == t.blob && t.downloaded == |t.blob| == |t.hits|
    && forall p :: 0 <= p < |t.hits| ==> t.hits[p] == 1
  }

  /** A parallel download is a plain copy: however ranges fall to workers and however their writes
      interleave, a nil result means that the output is the object, every byte was written exactly
      once, and the counter is the size. */
  lemma SuccessIsCopy(t: Transfer, blob: Bytes, chunk: nat, workers: int)
    requires Sized(blob, chunk) && Reachable(t, blob, chunk, workers)
    requires t.feeder == Returned(true)
    ensures t.blob == blob && IsCopy(t)
  {
    ReachableValid(t, blob, chunk, workers);
    AllWrittenBytes(t.jobs, |blob|, chunk, |t.jobs|);
    LastCut(|blob|, chunk, |t.jobs|);
    forall p: nat | p < |blob| ensures t.hits[p] == 1 && t.output[p] == blob[p] {
      ByteInOneRange(|blob|, chunk, |t.jobs|, p, 0);
      assert ByteTrue(t, p);
    }
  }

  /** A nil result means a copy on every run if and only if the client's sum does not wrap.  When it
      wraps no range is sent, no worker is started, and the download returns nil at once. */
  lemma NilMeansCopyExactly(blob: Bytes, chunk: nat, workers: int)
    requires Transferable(blob, chunk)
    ensures |blob| + chunk - 1 < TWO_63 <==>
      forall t {:trigger Reachable(t, blob, chunk, workers)} ::
        Reachable(t, blob, chunk, workers) && t.feeder == Returned(true) ==> t.blob == blob && IsCopy(t)
  {
    if Sized(blob, chunk) {
      forall t | Reachable(t, blob, chunk, workers) && t.feeder == Returned(true) ensures t.blob == blob && IsCopy(t) {
        SuccessIsCopy(t, blob, chunk, workers);
      }
    } else {
      WrappedReturnsNil(blob, chunk, workers, blob);
    }
  }

  /** A wrapped count: over any output the download returns nil and has written nothing. */
  lemma WrappedReturnsNil(blob: Bytes, chunk: nat, workers: int, output: Bytes)
    requires Transferable(blob, chunk) && !Sized(blob, chunk) && |output| == |blob|
    ensures var start := Start(blob, chunk, workers, output);
      && Legal(start, [Close, Join])
      && After(start, [Close, Join]) == start.(feeder := Returned(true))
      && Reachable(start.(feeder := Returned(true)), blob, chunk, workers)
  {
    var start := Start(blob, chunk, workers, output);
    var closed := Apply(start, Close);
    var joined := Apply(closed, Join);
    assert [Close, Join][1..] == [Join] && [Join][1..] == [];
    assert Legal(joined, []) && After(joined, []) == joined;
    assert Legal(closed, [Join]) && After(closed, [Join]) == joined;
    assert Legal(start, [Close, Join]) && After(start, [Close, Join]) == joined;
  }

  /** Without a worker nothing is ever written. */
  lemma {:induction false} NoWorkerNoWrite(t: Transfer, run: seq<Action>)
    requires Transferable(t.blob, t.chunk) && Legal(t, run) && t.workers == []
    ensures After(t, run).output == t.output
    decreases |run|
  {
    if run != [] { NoWorkerNoWrite(Apply(t, run[0]), run[1..]); }
  }

  // ---------- when the result is nil ----------

  ghost predicate SomeLost(t: Transfer) {
    exists i :: 0 <= i < |t.jobs| && t.jobs[i].Lost?
  }

  ghost predicate SomeUnsent(t: Transfer) {
    exists i :: 0 <= i < |t.jobs| && t.jobs[i].Unsent?
  }

  /** A failed worker has lost its range, and an error result has a reason. */
  ghost predicate Accounted(t: Transfer) {
    (t.failed ==> SomeLost(t)) && (t.feeder == Returned(false) ==> SomeLost(t) || SomeUnsent(t))
  }

  lemma StepAccounted(t: Transfer, a: Action)
    requires Valid(t) && Accounted(t) && Enabled(t, a)
    ensures Accounted(Apply(t, a))
  {
    var t' := Apply(t, a);
    match a
    case Hand(w) =>
      if t.failed { LostStays(t, a); }
    case Ask(w, _) => JobsMove(t, a, w);
    case Write(w, _, _) => JobsMove(t, a, w);
    case GiveUp => assert t'.jobs[t.feeder.next].Unsent?;
    case _ => assert t'.jobs == t.jobs;
  }

  lemma LostStays(t: Transfer, a: Action)
    requires Valid(t) && a.Hand? && Enabled(t, a) && SomeLost(t)
    ensures SomeLost(Apply(t, a))
  {
    var i :| 0 <= i < |t.jobs| && t.jobs[i].Lost?;
    assert Apply(t, a).jobs[i].Lost?;
  }

  lemma JobsMove(t: Transfer, a: Action, w: nat)
    requires Valid(t) && Accounted(t) && Enabled(t, a) && ((a.Ask? && a.w == w) || (a.Write? && a.w == w))
    ensures Accounted(Apply(t, a))
  {
    var t', i := Apply(t, a), t.workers[w].job;
    assert WorkerTrue(t, w);
    if t'.failed && !t.failed { assert t'.jobs[i].Lost?; }
    if j :| 0 <= j < |t.jobs| && t.jobs[j].Lost? { assert t'.jobs[j].Lost?; }
    if j :| 0 <= j < |t.jobs| && t.jobs[j].Unsent? { assert t'.jobs[j].Unsent?; }
  }

  lemma {:induction false} RunAccounted(t: Transfer, run: seq<Action>)
    requires Valid(t) && Accounted(t) && Legal(t, run)
    ensures Accounted(After(t, run))
    decreases |run|
  {
    if run != [] {
      StepValid(t, run[0]);
      StepAccounted(t, run[0]);
      RunAccounted(Apply(t, run[0]), run[1..]);
    }
  }

  /** The result is nil if and only if every range was written: a cancellation that comes too late to
      leave a range unwritten does not make it an error. */
  lemma NilExactlyWhenWritten(t: Transfer, blob: Bytes, chunk: nat, workers: int)
    requires Transferable(blob, chunk) && Reachable(t, blob, chunk, workers) && t.feeder.Returned?
    ensures t.feeder == Returned(true) <==> forall i :: 0 <= i < |t.jobs| ==> t.jobs[i].Written?
  {
    var output, run :| |output| == |blob| && Legal(Start(blob, chunk, workers, output), run)
                       && After(Start(blob, chunk, workers, output), run) == t;
    StartValid(blob, chunk, workers, output);
    RunValid(Start(blob, chunk, workers, output), run);
    RunAccounted(Start(blob, chunk, workers, output), run);
  }

  /** The steps that fail: a request that is not answered, a write that is not complete, and the feeder
      giving up on a cancelled context before every range was sent. */
  predicate Fails(a: Action) {
    match a
    case Ask(_, answered) => !answered
    case Write(_, complete, _) => !complete
    case GiveUp => true
    case _ => false
  }

  /** Something has failed, so that the result is, or will be, an error. */
  predicate Doomed(t: Transfer) {
    t.failed || t.feeder == Returned(false)
  }

  lemma StepDoomed(t: Transfer, a: Action)
    requires Valid(t) && Enabled(t, a)
    ensures Doomed(Apply(t, a)) <==> Doomed(t) || Fails(a)
  {
    if a.Ask? && a.answered { AnsweredWorker(t, a); }
  }

  lemma {:induction false} RunDoomed(t: Transfer, run: seq<Action>)
    requires Valid(t) && Legal(t, run)
    ensures Valid(After(t, run))
    ensures Doomed(After(t, run)) <==> Doomed(t) || exists k :: 0 <= k < |run| && Fails(run[k])
    decreases |run|
  {
    if run != [] {
      StepValid(t, run[0]);
      StepDoomed(t, run[0]);
      RunDoomed(Apply(t, run[0]), run[1..]);
      if k :| 0 <= k < |run[1..]| && Fails(run[1..][k]) { assert Fails(run[k + 1]); }
      if k :| 0 <= k < |run| && Fails(run[k]) {
        if k > 0 { assert Fails(run[1..][k - 1]); }
      }
    }
  }

  /** On every run that returns, the result is nil if and only if no step has failed. */
  lemma NilExactlyWithoutFailure(blob: Bytes, chunk: nat, workers: int, output: Bytes, run: seq<Action>)
    requires Transferable(blob, chunk) && |output| == |blob| && Legal(Start(blob, chunk, workers, output), run)
    requires After(Start(blob, chunk, workers, output), run).feeder.Returned?
    ensures After(Start(blob, chunk, workers, output), run).feeder == Returned(true) <==>
            forall k :: 0 <= k < |run| ==> !Fails(run[k])
  {
    StartValid(blob, chunk, workers, output);
    RunDoomed(Start(blob, chunk, workers, output), run);
  }

  /** A cancellation lets the feeder give up its next send, with an error, and nothing but a
      cancellation or a failure does. */
  lemma GiveUpExactly(t: Transfer, blob: Bytes, chunk: nat, workers: int)
    requires Transferable(blob, chunk) && Reachable(t, blob, chunk, workers)
    requires t.feeder.Feeding? && t.feeder.next < |t.jobs|
    ensures Transferable(t.blob, t.chunk) && |t.jobs| == Segments(blob, chunk)
    ensures var t' := Apply(t, Abort);
      Enabled(t', GiveUp) && Apply(t', GiveUp).feeder == Returned(false) && t'.(cancelled := t.cancelled) == t
    ensures t.failed ==> Enabled(t, GiveUp)
    ensures !t.cancelled ==> !Enabled(t, GiveUp)
  {
    ReachableValid(t, blob, chunk, workers);
  }

  // ---------- how many workers ----------

  /** Workers `0..n` hold ranges `0..n`, one each; the others are idle. */
  predicate Handed(t: Transfer, n: nat) {
    && t.feeder == Feeding(n) && n <= |t.workers|
    && forall w :: 0 <= w < |t.workers| ==> if w < n then t.workers[w].Asking? && t.workers[w].job == w else t.workers[w].Idle?
  }

  lemma {:induction false} HandsOut(blob: Bytes, chunk: nat, workers: int, output: Bytes, n: nat) returns (run: seq<Action>)
    requires Sized(blob, chunk) && |output| == |blob|
    requires n <= workers && n <= Segments(blob, chunk)
    ensures Legal(Start(blob, chunk, workers, output), run) && Handed(After(Start(blob, chunk, workers, output), run), n)
    ensures var m := |After(Start(blob, chunk, workers, output), run).workers|;
      m <= workers && m <= Segments(blob, chunk) && (m == workers || m == Segments(blob, chunk))
  {
    var start := Start(blob, chunk, workers, output);
    if n == 0 {
      run := [];
    } else {
      var before := HandsOut(blob, chunk, workers, output, n - 1);
      var t := After(start, before);
      StartValid(blob, chunk, workers, output);
      RunValid(start, before);
      OneMoreStep(start, before, Hand(n - 1));
      run := before + [Hand(n - 1)];
    }
  }

  lemma {:induction false} OneMoreStep(t: Transfer, run: seq<Action>, a: Action)
    requires Transferable(t.blob, t.chunk) && Legal(t, run)
    requires Transferable(After(t, run).blob, After(t, run).chunk) && Enabled(After(t, run), a)
    ensures Legal(t, run + [a]) && After(t, run + [a]) == Apply(After(t, run), a)
    decreases |run|
  {
    if run == [] {
      assert [] + [a] == [a] && [a][1..] == [];
      ApplyKeepsInput(t, a);
      assert Legal(Apply(t, a), []) && After(Apply(t, a), []) == Apply(t, a);
    } else {
      ApplyKeepsInput(t, run[0]);
      OneMoreStep(Apply(t, run[0]), run[1..], a);
      assert (run + [a])[1..] == run[1..] + [a];
    }
  }

  /** As many requests can be open at once as there are workers wanted, or ranges, and never more. */
  lemma AllWorkersBusy(blob: Bytes, chunk: nat, workers: int)
    requires Sized(blob, chunk) && workers >= 0
    ensures exists t :: Reachable(t, blob, chunk, workers) && AllAsking(t) && MinOf(|t.workers|, workers, Segments(blob, chunk))
    ensures forall t {:trigger Reachable(t, blob, chunk, workers)} ::
              Reachable(t, blob, chunk, workers) ==> MinOf(|t.workers|, workers, Segments(blob, chunk))
  {
    var n := if workers <= Segments(blob, chunk) then workers else Segments(blob, chunk);
    var run := HandsOut(blob, chunk, workers, blob, n);
    var t := After(Start(blob, chunk, workers, blob), run);
    assert Reachable(t, blob, chunk, workers);
    ReachableValid(t, blob, chunk, workers);
    assert AllAsking(t);
    forall t | Reachable(t, blob, chunk, workers) ensures MinOf(|t.workers|, workers, Segments(blob, chunk)) {
      ReachableValid(t, blob, chunk, workers);
    }
  }

  predicate AllAsking(t: Transfer) {
    forall w :: 0 <= w < |t.workers| ==> t.workers[w].Asking?
  }

  predicate MinOf(m: int, a: int, b: int) {
    m <= a && m <= b && (m == a || m == b)
  }

  lemma {:induction false} WrittenAtMostCut(jobs: seq<JobState>, size: nat, chunk: nat, n: nat)
    requires n <= |jobs|
    ensures 0 <= WrittenBytes(jobs, size, chunk, n) <= Cut(size, chunk, n) <= size
  {
    if n > 0 {
      WrittenAtMostCut(jobs, size, chunk, n - 1);
      CutMonotone(size, chunk, n - 1, n);
    }
  }

  /** The counter never exceeds the size, so it stays in int64. */
  lemma CounterInRange(t: Transfer, blob: Bytes, chunk: nat, workers: int)
    requires Transferable(blob, chunk) && Reachable(t, blob, chunk, workers)
    ensures 0 <= t.downloaded <= |blob|
  {
    ReachableValid(t, blob, chunk, workers);
    WrittenAtMostCut(t.jobs, |blob|, chunk, |t.jobs|);
  }

  /** A range that was not written never yields nil. */
  lemma FailureIsReported(t: Transfer, blob: Bytes, chunk: nat, workers: int)
    requires Transferable(blob, chunk) && Reachable(t, blob, chunk, workers)
    requires t.feeder.Returned? && exists i :: 0 <= i < |t.jobs| && !t.jobs[i].Written?
    ensures t.feeder == Returned(false)
  {
    ReachableValid(t, blob, chunk, workers);
  }

  /** Steps in which nothing fails and nobody cancels. */
  predicate Faultless(a: Action) {
    match a
    case Ask(_, answered) => answered
    case Write(_, complete, _) => complete
    case Abort => false
    case _ => true
  }

  predicate Healthy(t: Transfer) {
    !t.failed && !t.cancelled && t.feeder != Returned(false)
  }

  /** Without faults a download that returns has succeeded. */
  lemma {:induction false} FaultlessSucceeds(t: Transfer, run: seq<Action>)
    requires Valid(t) && Healthy(t) && Legal(t, run)
    requires forall i :: 0 <= i < |run| ==> Faultless(run[i])
    ensures After(t, run).feeder.Returned? ==> After(t, run).feeder == Returned(true)
    decreases |run|
  {
    if run != [] {
      var a := run[0];
      if a.Ask? { AnsweredWorker(t, a); }
      StepValid(t, a);
      FaultlessSucceeds(Apply(t, a), run[1..]);
    }
  }

  ghost predicate CanMove(t: Transfer)
    requires Transferable(t.blob, t.chunk)
  {
    exists a: Action :: a != Abort && Enabled(t, a)
  }

  lemma HolderMoves(t: Transfer, w: nat)
    requires Valid(t) && w < |t.workers| && (t.workers[w].Asking? || t.workers[w].Received?)
    ensures CanMove(t)
  {
    var i := t.workers[w].job;
    assert WorkerTrue(t, w);
    PlainRangeFits(t.blob, t.chunk, i);
    if t.workers[w].Asking? {
      assert Enabled(t, Ask(w, true));
    } else {
      assert Enabled(t, Write(w, true, |t.workers[w].data|));
    }
  }

  /** The download is never stuck before it returns, also after failures, as long as it has a
      worker. */
  lemma NeverStuck(t: Transfer)
    requires Valid(t) && |t.workers| > 0 && !t.feeder.Returned?
    ensures CanMove(t)
  {
    if w :| 0 <= w < |t.workers| && (t.workers[w].Asking? || t.workers[w].Received?) {
      HolderMoves(t, w);
    } else if t.feeder.Feeding? && t.feeder.next >= |t.jobs| {
      assert Enabled(t, Close);
    } else if w :| 0 <= w < |t.workers| && t.workers[w].Idle? {
      assert Enabled(t, if t.feeder.Feeding? then Hand(w) else Leave(w));
    } else if t.feeder.Waiting? {
      assert Enabled(t, Join);
    } else {
      assert t.workers[0].Left?;
      assert Enabled(t, GiveUp);
    }
  }

  /** Every reachable state that has not returned can move if and only if the client was given at
      least one worker, or its count wrapped; otherwise the feeder blocks on its first send, until
      the caller cancels. */
  lemma StuckExactlyWithoutWorkers(blob: Bytes, chunk: nat, workers: int)
    requires Transferable(blob, chunk)
    ensures workers >= 1 || |blob| + chunk - 1 >= TWO_63 <==>
      forall t {:trigger Reachable(t, blob, chunk, workers)} ::
        Reachable(t, blob, chunk, workers) && Transferable(t.blob, t.chunk) && !t.feeder.Returned? ==> CanMove(t)
  {
    if workers >= 1 || !Sized(blob, chunk) {
      forall t | Reachable(t, blob, chunk, workers) && Transferable(t.blob, t.chunk) && !t.feeder.Returned? ensures CanMove(t) {
        ReachableValid(t, blob, chunk, workers);
        if Sized(blob, chunk) { NeverStuck(t); } else { assert Enabled(t, if t.feeder.Feeding? then Close else Join); }
      }
    } else {
      var t := Start(blob, chunk, workers, blob);
      assert Legal(t, []) && After(t, []) == t;
      assert Reachable(t, blob, chunk, workers);
      assert t.workers == [];
    }
  }

  // ---------- termination ----------

  function WorkersLeft(workers: seq<Worker>): nat {
    if workers == [] then 0 else workers[0].StepsLeft() + WorkersLeft(workers[1..])
  }

  lemma {:induction false} WorkersLeftUpdate(workers: seq<Worker>, w: nat, x: Worker)
    requires w < |workers|
    ensures WorkersLeft(workers[w := x]) == WorkersLeft(workers) - workers[w].StepsLeft() + x.StepsLeft()
  {
    if w > 0 {
      WorkersLeftUpdate(workers[1..], w - 1, x);
      assert workers[w := x][1..] == workers[1..][w - 1 := x];
    } else {
      assert workers[w := x][1..] == workers[1..];
    }
  }

  /** Undispatched ranges, ranges in flight and live workers, weighed. */
  function Remaining(t: Transfer): nat
    requires Transferable(t.blob, t.chunk)
  {
    var segments := Segments(t.blob, t.chunk);
    WorkersLeft(t.workers)
    + match t.feeder
      case Feeding(next) => (if next < segments then 4 * (segments - next) else 0) + 2
      case Waiting => 1
      case Returned(_) => 0
  }

  /** Every step, failing or not, lowers the measure; the caller's cancellation leaves it. */
  lemma StepsRunOut(t: Transfer, a: Action)
    requires Transferable(t.blob, t.chunk) && Enabled(t, a)
    ensures Apply(t, a).blob == t.blob && Apply(t, a).chunk == t.chunk
    ensures if a == Abort then Remaining(Apply(t, a)) == Remaining(t) else Remaining(Apply(t, a)) < Remaining(t)
  {
    match a
    case Hand(w) => WorkersLeftUpdate(t.workers, w, Apply(t, a).workers[w]);
    case Ask(w, _) => WorkersLeftUpdate(t.workers, w, Apply(t, a).workers[w]);
    case Write(w, _, _) => WorkersLeftUpdate(t.workers, w, Apply(t, a).workers[w]);
    case Leave(w) => WorkersLeftUpdate(t.workers, w, Left);
    case Close =>
    case GiveUp =>
    case Join =>
    case Abort =>
  }
}
