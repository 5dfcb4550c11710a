/** The download in place: the client's variables, its worker pool, and the output file as an
    array that the workers write into.  Each method is one step of the feeder or of a worker. */
module Downloader {
  import opened Chunking
  import opened Server
  import opened Download

  class ChunkDownloader {
    const blob: Bytes
    const chunk: nat
    const output: array<Byte>
    var feeder: Feeder
    var workers: seq<Worker>
    var cancelled: bool
    var failed: bool
    var downloaded: int
    ghost var jobs: seq<JobState>
    ghost var hits: seq<nat>

    ghost function View(): Transfer
      reads this, output
    {
      Transfer(blob, chunk, feeder, workers, cancelled, failed, output[..], downloaded, jobs, hits)
    }

    constructor (blob: Bytes, chunk: nat, count: int, output: array<Byte>)
      requires Transferable(blob, chunk)
      ensures this.blob == blob && this.chunk == chunk && this.output == output
      ensures View() == Start(blob, chunk, count, old(output[..]))
    {
      this.blob, this.chunk, this.output := blob, chunk, output;
      feeder, cancelled, failed, downloaded := Feeding(0), false, false, 0;
      jobs, hits := seq(Segments(blob, chunk), _ => Unsent), seq(|blob|, _ => 0);
      workers := [];
      new;
      var segments := ClientSegments(|blob|, chunk);
      var n := if count > segments then segments else count;
      var w := 0;
      while w < n
        invariant 0 <= w && (0 <= n ==> w <= n) && (n < 0 ==> w == 0)
        invariant workers == seq(w, _ => Idle)
        invariant feeder == Feeding(0) && !cancelled && !failed && downloaded == 0
        invariant jobs == seq(Segments(blob, chunk), _ => Unsent) && hits == seq(|blob|, _ => 0)
      {
        workers := workers + [Idle];
        w := w + 1;
      }
    }

    /** The feeder computes the next range and an idle worker takes it. */
    method Dispatch(w: nat)
      requires Transferable(blob, chunk) && Enabled(View(), Hand(w))
      modifies this
      ensures View() == Apply(old(View()), Hand(w))
    {
      var i := feeder.next;
      var offset, limit := I64(i * chunk), chunk;
      if I64(offset + limit) > |blob| { limit := I64(|blob| - offset); }
      workers := workers[w := Asking(i, Range(offset, limit))];
      jobs := jobs[i := With(w)];
      feeder := Feeding(i + 1);
    }

    /** A worker returns an error. */
    method Quit(w: nat)
      requires w < |workers| && (workers[w].Asking? || workers[w].Received?) && workers[w].job < |jobs|
      modifies this
      ensures View() == Fail(old(View()), w)
    {
      jobs := jobs[workers[w].job := Lost];
      workers := workers[w := Left];
      failed, cancelled := true, true;
    }

    /** A worker's request returns and its length is checked. */
    method Receive(w: nat, answered: bool)
      requires Transferable(blob, chunk) && Enabled(View(), Ask(w, answered))
      modifies this
      ensures View() == Apply(old(View()), Ask(w, answered))
    {
      var range := workers[w].range;
      var reply := ReadRange(blob, U64(range.offset), U64(range.limit));
      if !answered || reply.RangeFailed? || |reply.data| != range.limit {
        Quit(w);
      } else {
        workers := workers[w := Received(workers[w].job, range, reply.data)];
      }
    }

    /** Copies the first `n` bytes of `data` into the file, one by one. */
    method CopyIn(offset: nat, data: Bytes, n: nat)
      requires n <= |data| && offset + n <= output.Length
      modifies output
      ensures output[..] == WriteAt(old(output[..]), offset, data[..n])
    {
      var k := 0;
      while k < n
        invariant 0 <= k <= n
        invariant forall p :: 0 <= p < output.Length ==>
                    output[p] == if offset <= p < offset + k then data[p - offset] else old(output[p])
      {
        output[offset + k] := data[k];
        k := k + 1;
      }
      assert output[..] == WriteAt(old(output[..]), offset, data[..n]);
    }

    /** A worker's write returns, and the counter is raised when it was complete. */
    method WriteBack(w: nat, complete: bool, n: nat)
      requires Transferable(blob, chunk) && Enabled(View(), Write(w, complete, n))
      modifies this, output
      ensures View() == Apply(old(View()), Write(w, complete, n))
    {
      var i, range, data := workers[w].job, workers[w].range, workers[w].data;
      CopyIn(range.offset, data, n);
      hits := CountHits(hits, range.offset, n);
      if complete {
        downloaded := downloaded + n;
        workers := workers[w := Idle];
        jobs := jobs[i := Written];
      } else {
        Quit(w);
      }
    }

    /** The steps that only close, leave, join or cancel. */
    method Settle(a: Action)
      requires Transferable(blob, chunk) && Enabled(View(), a) && !a.Hand? && !a.Ask? && !a.Write?
      modifies this
      ensures View() == Apply(old(View()), a)
    {
      match a
      case Leave(w) => workers := workers[w := Left];
      case Close => feeder := Waiting;
      case GiveUp => feeder := Returned(false);
      case Join => feeder := Returned(!failed);
      case Abort => cancelled := true;
    }

    method Step(a: Action)
      requires Transferable(blob, chunk) && Enabled(View(), a)
      modifies this, output
      ensures View() == Apply(old(View()), a)
    {
      match a
      case Hand(w) => Dispatch(w);
      case Ask(w, answered) => Receive(w, answered);
      case Write(w, complete, n) => WriteBack(w, complete, n);
      case _ => Settle(a);
    }

    /** Runs a whole schedule. */
    method Run(schedule: seq<Action>)
      requires Transferable(blob, chunk) && Legal(View(), schedule)
      modifies this, output
      ensures View() == After(old(View()), schedule)
    {
      var rest := schedule;
      while rest != []
        invariant Legal(View(), rest)
        invariant After(View(), rest) == After(old(View()), schedule)
        decreases |rest|
      {
        Step(rest[0]);
        rest := rest[1..];
      }
    }
  }

  /** Downloads `blob` into `output` on the given schedule.  A nil result means that the array
      holds the object, or, when the client's sum wraps, that it was not touched. */
  method DownloadChunks(blob: Bytes, chunk: nat, count: int, output: array<Byte>, schedule: seq<Action>) returns (success: bool)
    requires Transferable(blob, chunk) && output.Length == |blob|
    requires Legal(Start(blob, chunk, count, output[..]), schedule)
    modifies output
    ensures success <==> After(Start(blob, chunk, count, old(output[..])), schedule).feeder == Returned(true)
    ensures success <==>
              && After(Start(blob, chunk, count, old(output[..])), schedule).feeder.Returned?
              && forall k :: 0 <= k < |schedule| ==> !Fails(schedule[k])
    ensures After(Start(blob, chunk, count, old(output[..])), schedule).feeder.Returned? ==>
              (success <==> AllWritten(After(Start(blob, chunk, count, old(output[..])), schedule)))
    ensures success ==> output[..] == if |blob| + chunk - 1 < TWO_63 then blob else old(output[..])
  {
    ghost var before := output[..];
    var d := new ChunkDownloader(blob, chunk, count, output);
    d.Run(schedule);
    success := d.feeder == Returned(true);
    RunResult(blob, chunk, count, before, schedule);
  }

  predicate AllWritten(t: Transfer) {
    forall i :: 0 <= i < |t.jobs| ==> t.jobs[i].Written?
  }

  lemma RunResult(blob: Bytes, chunk: nat, count: int, before: Bytes, schedule: seq<Action>)
    requires Transferable(blob, chunk) && |before| == |blob| && Legal(Start(blob, chunk, count, before), schedule)
    ensures var t := After(Start(blob, chunk, count, before), schedule);
      && (t.feeder == Returned(true) ==> t.output == if |blob| + chunk - 1 < TWO_63 then blob else before)
      && (t.feeder.Returned? ==>
            && (t.feeder == Returned(true) <==> forall k :: 0 <= k < |schedule| ==> !Fails(schedule[k]))
            && (t.feeder == Returned(true) <==> AllWritten(t)))
  {
    var t := After(Start(blob, chunk, count, before), schedule);
    if t.feeder.Returned? {
      assert Reachable(t, blob, chunk, count);
      NilExactlyWithoutFailure(blob, chunk, count, before, schedule);
      NilExactlyWhenWritten(t, blob, chunk, count);
    }
    if Sized(blob, chunk) {
      if t.feeder == Returned(true) {
        assert Reachable(t, blob, chunk, count);
        SuccessIsCopy(t, blob, chunk, count);
      }
    } else {
      NoWorkerNoWrite(Start(blob, chunk, count, before), schedule);
    }
  }
}
