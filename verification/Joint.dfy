/** The client's upload loop and the server together: each send of the loop is a call of the server,
    and other clients, faults and expiries go on in between. */
module Joint {
  import opened Chunking
  import opened Keys
  import opened Protocol
  import W = World
  import Safety
  import Completion
  import D = Delivery
  import Overlap
  import U = Upload
  import E = EndToEnd

  /** `calls` says which call of the world carries which chunk; a history. */
  datatype State = State(u: U.Transfer, w: W.World, calls: map<nat, nat>)

  datatype Step =
    | Send(arrives: bool)             // the loop starts a send; reading the file or the request may fail
    | Answer(i: nat, reply: U.Reply)  // a send ends
    | Return                          // all sends have ended
    | Serve(a: W.Action)              // an action of the server, of its stores or of another client

  /** The part that the loop sends next. */
  function NextPart(u: U.Transfer): (nat, Bytes)
    requires Transferable(u.file, u.chunk) && U.Enabled(u, U.Dispatch)
  {
    U.Apply(u, U.Dispatch).sent[|u.sent|]
  }

  ghost function SpawnNext(u: U.Transfer, bucket: string, id: string): W.Action
    requires Transferable(u.file, u.chunk) && U.Enabled(u, U.Dispatch)
  {
    W.Spawn(bucket, id, NextPart(u).0, NextPart(u).1)
  }

  /** A send is acknowledged only when its call answered Ok, and may fail at any time.  The server never
      refuses a part without an error.  Only this client sends parts of `id`. */
  ghost predicate Enabled(j: State, step: Step, bucket: string, id: string)
    requires Transferable(j.u.file, j.u.chunk)
  {
    match step
    case Send(arrives) => U.Enabled(j.u, U.Dispatch) && (arrives ==> W.Enabled(j.w, SpawnNext(j.u, bucket, id)))
    case Answer(i, reply) =>
      && U.Enabled(j.u, U.Complete(i, reply)) && reply != U.Refused
      && (reply == U.Acknowledged ==> i in j.calls && j.calls[i] < |j.w.calls| && j.w.calls[j.calls[i]].outcome == Ok)
    case Return => U.Enabled(j.u, U.Join)
    case Serve(a) => W.Enabled(j.w, a) && (a.Spawn? ==> a.id != id)
  }

  ghost function Apply(j: State, step: Step, bucket: string, id: string): State
    requires Transferable(j.u.file, j.u.chunk) && Enabled(j, step, bucket, id)
  {
    match step
    case Send(arrives) =>
      var u := U.Apply(j.u, U.Dispatch);
      if arrives then State(u, W.Apply(j.w, SpawnNext(j.u, bucket, id)), j.calls[NextPart(j.u).0 := |j.w.calls|])
      else j.(u := u)
    case Answer(i, reply) => j.(u := U.Apply(j.u, U.Complete(i, reply)))
    case Return => j.(u := U.Apply(j.u, U.Join))
    case Serve(a) => j.(w := W.Apply(j.w, a))
  }

  ghost predicate Legal(j: State, run: seq<Step>, bucket: string, id: string)
    requires Transferable(j.u.file, j.u.chunk)
    decreases |run|
  {
    run == [] || (Enabled(j, run[0], bucket, id) && (KeepsInput(j, run[0], bucket, id);
                                                     Legal(Apply(j, run[0], bucket, id), run[1..], bucket, id)))
  }

  ghost function After(j: State, run: seq<Step>, bucket: string, id: string): State
    requires Transferable(j.u.file, j.u.chunk) && Legal(j, run, bucket, id)
    decreases |run|
  {
    if run == [] then j else
      KeepsInput(j, run[0], bucket, id);
      After(Apply(j, run[0], bucket, id), run[1..], bucket, id)
  }

  lemma KeepsInput(j: State, step: Step, bucket: string, id: string)
    requires Transferable(j.u.file, j.u.chunk) && Enabled(j, step, bucket, id)
    ensures Apply(j, step, bucket, id).u.file == j.u.file && Apply(j, step, bucket, id).u.chunk == j.u.chunk
  {
  }

  /** The client has just opened its session, and starts its loop on the file with the session's chunk size. */
  ghost predicate Begins(j: State, id: string, workers: int) {
    && W.Reachable(j.w) && id in j.w.uploads && j.calls == map[]
    && (forall k :: 0 <= k < |j.w.calls| ==> j.w.calls[k].id != id)
    && Transferable(j.w.uploads[id].file, j.w.uploads[id].session.chunk)
    && j.u == U.Start(j.w.uploads[id].file, j.w.uploads[id].session.chunk, workers)
  }

  // ---------- the invariant ----------

  predicate CarriesPart(j: State, bucket: string, id: string, i: nat)
    requires i in j.calls
  {
    && i < |j.u.sent| && j.calls[i] < |j.w.calls|
    && var c := j.w.calls[j.calls[i]]; c.bucket == bucket && c.id == id && c.seqNo == i
  }

  ghost predicate Coupled(j: State, bucket: string, id: string, workers: int) {
    && W.Reachable(j.w) && id in j.w.uploads
    && Transferable(j.w.uploads[id].file, j.w.uploads[id].session.chunk)
    && U.Reachable(j.u, j.w.uploads[id].file, j.w.uploads[id].session.chunk, workers)
    && j.u.file == j.w.uploads[id].file && j.u.chunk == j.w.uploads[id].session.chunk
    && (forall i :: i in j.calls ==> CarriesPart(j, bucket, id, i))
    && (forall k :: 0 <= k < |j.w.calls| && j.w.calls[k].id == id ==>
          j.w.calls[k].seqNo in j.calls && j.calls[j.w.calls[k].seqNo] == k)
    && (forall i :: i in j.u.replies ==> j.u.replies[i] != U.Refused)
    && (forall i :: i in j.u.replies && j.u.replies[i] == U.Acknowledged ==> i in j.calls && j.w.calls[j.calls[i]].outcome == Ok)
  }

  /** Whatever the loop sends next, the server may receive. */
  lemma SendCanArrive(j: State, bucket: string, id: string, workers: int)
    requires Coupled(j, bucket, id, workers) && U.Enabled(j.u, U.Dispatch)
    ensures NextPart(j.u) == (|j.u.sent|, Slice(j.u.file, j.u.chunk, |j.u.sent|))
    ensures Enabled(j, Send(true), bucket, id)
  {
    U.ReachableValid(j.u, j.u.file, j.u.chunk, workers);
    U.RangeInFile(j.u.file, j.u.chunk, j.u.loop.next);
  }

  lemma SendCoupled(j: State, arrives: bool, bucket: string, id: string, workers: int)
    requires Coupled(j, bucket, id, workers) && Enabled(j, Send(arrives), bucket, id)
    ensures Coupled(Apply(j, Send(arrives), bucket, id), bucket, id, workers)
  {
    SendCanArrive(j, bucket, id, workers);
    U.ReachableStep(j.u, U.Dispatch, j.u.file, j.u.chunk, workers);
    if arrives { Overlap.ReachableStep(j.w, SpawnNext(j.u, bucket, id)); }
  }

  lemma AnswerCoupled(j: State, step: Step, bucket: string, id: string, workers: int)
    requires Coupled(j, bucket, id, workers) && (step.Answer? || step.Return?) && Enabled(j, step, bucket, id)
    ensures Coupled(Apply(j, step, bucket, id), bucket, id, workers)
  {
    U.ReachableStep(j.u, if step.Answer? then U.Complete(step.i, step.reply) else U.Join, j.u.file, j.u.chunk, workers);
  }

  lemma ServeCoupled(j: State, a: W.Action, bucket: string, id: string, workers: int)
    requires Coupled(j, bucket, id, workers) && Enabled(j, Serve(a), bucket, id)
    ensures Coupled(Apply(j, Serve(a), bucket, id), bucket, id, workers)
  {
    Overlap.ReachableStep(j.w, a);
    W.StepGrows(j.w, a);
    var j' := Apply(j, Serve(a), bucket, id);
    forall k | 0 <= k < |j'.w.calls| && j'.w.calls[k].id == id
      ensures k < |j.w.calls| && j.w.calls[k].id == id && j.w.calls[k].seqNo == j'.w.calls[k].seqNo
    {
      OwnCallsKept(j.w, a, id, k);
    }
    forall i | i in j'.calls
      ensures CarriesPart(j', bucket, id, i)
      ensures j.w.calls[j.calls[i]].outcome == Ok ==> j'.w.calls[j'.calls[i]].outcome == Ok
    {
      assert CarriesPart(j, bucket, id, i);
      Completion.CallUnchanged(j.w, a, j.calls[i]);
    }
  }

  /** No action of the others makes a call of this upload. */
  lemma OwnCallsKept(w: W.World, a: W.Action, id: string, k: nat)
    requires W.Enabled(w, a) && (a.Spawn? ==> a.id != id) && k < |W.Apply(w, a).calls| && W.Apply(w, a).calls[k].id == id
    ensures k < |w.calls| && w.calls[k].id == id && w.calls[k].seqNo == W.Apply(w, a).calls[k].seqNo
  {
    W.StepGrows(w, a);
  }

  lemma StepCoupled(j: State, step: Step, bucket: string, id: string, workers: int)
    requires Coupled(j, bucket, id, workers) && Enabled(j, step, bucket, id)
    ensures Coupled(Apply(j, step, bucket, id), bucket, id, workers)
  {
    match step
    case Send(arrives) => SendCoupled(j, arrives, bucket, id, workers);
    case Answer(_, _) => AnswerCoupled(j, step, bucket, id, workers);
    case Return => AnswerCoupled(j, step, bucket, id, workers);
    case Serve(a) => ServeCoupled(j, a, bucket, id, workers);
  }

  lemma {:induction false} RunCoupled(j: State, run: seq<Step>, bucket: string, id: string, workers: int)
    requires Coupled(j, bucket, id, workers) && Legal(j, run, bucket, id)
    ensures Coupled(After(j, run, bucket, id), bucket, id, workers)
    decreases |run|
  {
    if run != [] {
      StepCoupled(j, run[0], bucket, id, workers);
      RunCoupled(Apply(j, run[0], bucket, id), run[1..], bucket, id, workers);
    }
  }

  lemma BeginsCoupled(j: State, bucket: string, id: string, workers: int)
    requires Begins(j, id, workers)
    ensures Coupled(j, bucket, id, workers)
  {
    assert U.Legal(j.u, []) && U.After(j.u, []) == j.u;
  }

  // ---------- main results ----------

  /** However the server, its faults and other clients act in between: when the loop returns, the calls
      of the upload are its sends, one call per chunk at most, and an acknowledged part has a call
      that answered Ok. */
  lemma LoopIsServed(j: State, run: seq<Step>, bucket: string, id: string, workers: int)
    requires Begins(j, id, workers) && Legal(j, run, bucket, id) && After(j, run, bucket, id).u.loop.Returned?
    ensures var j' := After(j, run, bucket, id);
      E.Serves(j'.w, bucket, id, j'.u) && Overlap.OneCallEach(j'.w, id)
  {
    BeginsCoupled(j, bucket, id, workers);
    RunCoupled(j, run, bucket, id, workers);
    var j' := After(j, run, bucket, id);
    U.ReachableValid(j'.u, j'.u.file, j'.u.chunk, workers);
    forall i | i in j'.u.replies && j'.u.replies[i] == U.Acknowledged ensures Completion.Sent(j'.w, id, i) {
      assert CarriesPart(j', bucket, id, i);
    }
    forall k | 0 <= k < |j'.w.calls| && j'.w.calls[k].id == id
      ensures j'.w.calls[k].bucket == bucket && j'.w.calls[k].seqNo in j'.u.replies
    {
      assert CarriesPart(j', bucket, id, j'.w.calls[k].seqNo);
    }
  }

  /** An upload that returns nil before its deadline has stored the file: whatever the server, its faults
      and other clients did in between, unless the object was deleted or another upload put its own. */
  lemma NilUploadStoresFile(j: State, run: seq<Step>, bucket: string, id: string, workers: int)
    requires Begins(j, id, workers) && Legal(j, run, bucket, id)
    requires Sized(j.u.file, j.u.chunk)
    requires var j' := After(j, run, bucket, id);
      j'.u.loop == U.Returned(true) && id in j'.w.uploads && j'.w.clock < j'.w.uploads[id].deadline
    ensures var j' := After(j, run, bucket, id);
      && E.Finished(j'.w, bucket, id) && j'.w.uploads[id].file == j.u.file
      && (E.Untouched(j'.w, bucket, id) ==> Safety.FileStored(j'.w, bucket, id))
  {
    BeginsCoupled(j, bucket, id, workers);
    RunCoupled(j, run, bucket, id, workers);
    RunKeepsFile(j, run, bucket, id);
    LoopIsServed(j, run, bucket, id, workers);
    var j' := After(j, run, bucket, id);
    U.ResultIsExact(j'.u, j'.u.file, j'.u.chunk, workers);
    E.ClientSuccessStoresFile(j'.w, bucket, id, j'.u, workers);
  }

  lemma {:induction false} RunKeepsFile(j: State, run: seq<Step>, bucket: string, id: string)
    requires Transferable(j.u.file, j.u.chunk) && Legal(j, run, bucket, id)
    ensures After(j, run, bucket, id).u.file == j.u.file && After(j, run, bucket, id).u.chunk == j.u.chunk
    decreases |run|
  {
    if run != [] {
      KeepsInput(j, run[0], bucket, id);
      RunKeepsFile(Apply(j, run[0], bucket, id), run[1..], bucket, id);
    }
  }

  // ---------- every file has a successful joint run ----------

  lemma {:induction false} RunsJoin(j: State, a: seq<Step>, b: seq<Step>, bucket: string, id: string)
    requires Transferable(j.u.file, j.u.chunk) && Legal(j, a, bucket, id)
    requires var j' := After(j, a, bucket, id); Transferable(j'.u.file, j'.u.chunk) && Legal(j', b, bucket, id)
    ensures Legal(j, a + b, bucket, id) && After(j, a + b, bucket, id) == After(After(j, a, bucket, id), b, bucket, id)
    decreases |a|
  {
    if a == [] {
      assert a + b == b;
    } else {
      KeepsInput(j, a[0], bucket, id);
      assert (a + b)[0] == a[0] && (a + b)[1..] == a[1..] + b;
      RunsJoin(Apply(j, a[0], bucket, id), a[1..], b, bucket, id);
    }
  }

  lemma OneStep(j: State, step: Step, bucket: string, id: string)
    requires Transferable(j.u.file, j.u.chunk) && Enabled(j, step, bucket, id)
    ensures Legal(j, [step], bucket, id) && After(j, [step], bucket, id) == Apply(j, step, bucket, id)
  {
    KeepsInput(j, step, bucket, id);
    var j' := Apply(j, step, bucket, id);
    assert [step][1..] == [];
    assert Legal(j', [], bucket, id) && After(j', [], bucket, id) == j';
  }

  function Served(run: seq<W.Action>): seq<Step> {
    seq(|run|, k requires 0 <= k < |run| => Serve(run[k]))
  }

  /** What the server may do on its own it may do beside the loop. */
  lemma {:induction false} ServedRun(j: State, run: seq<W.Action>, bucket: string, id: string)
    requires Transferable(j.u.file, j.u.chunk) && W.Legal(j.w, run)
    requires forall a :: a in run ==> a.Operate?
    ensures Legal(j, Served(run), bucket, id) && After(j, Served(run), bucket, id) == j.(w := W.After(j.w, run))
    decreases |run|
  {
    if run != [] {
      assert run[0] in run;
      var j' := Apply(j, Serve(run[0]), bucket, id);
      assert Served(run)[0] == Serve(run[0]) && Served(run)[1..] == Served(run[1..]);
      ServedRun(j', run[1..], bucket, id);
    }
  }

  lemma {:induction false} SoloOperates(c: Call, m: Memory, k: nat)
    ensures forall a :: a in D.Solo([], c, m, k) ==> a.Operate?
    decreases if c.outcome == Running then 1 else 0, 6 - c.stage.Rank(), LoopLeft(c)
  {
    if c.outcome == Running {
      var r := Next(c, m, Proceed);
      SoloOperates(r.1, r.0, k);
      assert D.Solo([], c, m, k) == [W.Operate(k, Proceed)] + D.Solo([], r.1, r.0, k);
    }
  }

  /** The first `n` parts were sent one at a time, and all were acknowledged. */
  ghost predicate Progress(j0: State, j: State, m0: Memory, bucket: string, id: string, n: nat)
    requires id in j0.w.uploads
  {
    && j.u == j0.u.(loop := U.Sending(n), sent := j.u.sent, uploaded := j.u.uploaded, replies := j.u.replies)
    && |j.u.sent| == n && (forall i :: i in j.u.replies ==> j.u.replies[i] == U.Acknowledged)
    && D.SentInOrder(j0.w, j.w, bucket, id, n) && D.StoresAfter(j.w.mem, m0, bucket, j0.w.uploads[id], id, n)
  }

  /** The next part is sent, its call runs to its end, and is acknowledged. */
  lemma OneMorePart(j0: State, j: State, m0: Memory, bucket: string, id: string, workers: int, n: nat) returns (run: seq<Step>)
    requires Begins(j0, id, workers) && workers >= 1 && bucket != "" && Sized(j0.u.file, j0.u.chunk) && D.Unused(m0, bucket, id)
    requires Coupled(j, bucket, id, workers) && Progress(j0, j, m0, bucket, id, n) && n < Segments(j0.u.file, j0.u.chunk)
    ensures Legal(j, run, bucket, id) && Progress(j0, After(j, run, bucket, id), m0, bucket, id, n + 1)
  {
    var send := SendAndServe(j0, j, m0, bucket, id, workers, n);
    var j2 := After(j, send, bucket, id);
    var answer := Answer(n, U.Acknowledged);
    U.ReachableValid(j.u, j.u.file, j.u.chunk, workers);
    SentAndAnswered(j.u, n);
    OneStep(j2, answer, bucket, id);
    RunsJoin(j, send, [answer], bucket, id);
    run := send + [answer];
  }

  /** Sending one part and having it acknowledged, with no other in flight. */
  lemma SentAndAnswered(u: U.Transfer, n: nat)
    requires U.Valid(u) && u.inFlight == {} && u.slots == 0 && u.loop == U.Sending(n) && U.Enabled(u, U.Dispatch)
    ensures var u1 := U.Apply(u, U.Dispatch);
      && U.Enabled(u1, U.Complete(n, U.Acknowledged))
      && var u2 := U.Apply(u1, U.Complete(n, U.Acknowledged));
         && u2 == u.(loop := U.Sending(n + 1), sent := u2.sent, uploaded := u2.uploaded, replies := u.replies[n := U.Acknowledged])
         && |u2.sent| == |u.sent| + 1
  {
    var u1 := U.Apply(u, U.Dispatch);
    assert u1.inFlight - {n} == {};
  }

  /** The next part is sent, and its call runs to its end. */
  lemma SendAndServe(j0: State, j: State, m0: Memory, bucket: string, id: string, workers: int, n: nat) returns (run: seq<Step>)
    requires Begins(j0, id, workers) && workers >= 1 && bucket != "" && Sized(j0.u.file, j0.u.chunk) && D.Unused(m0, bucket, id)
    requires Coupled(j, bucket, id, workers) && Progress(j0, j, m0, bucket, id, n) && n < Segments(j0.u.file, j0.u.chunk)
    ensures Legal(j, run, bucket, id)
    ensures var j' := After(j, run, bucket, id);
      && Transferable(j.u.file, j.u.chunk) && U.Enabled(j.u, U.Dispatch) && j'.u == U.Apply(j.u, U.Dispatch)
      && j'.calls == j.calls[n := |j.w.calls|]
      && |j'.w.calls| == |j.w.calls| + 1 && j'.w.calls[|j.w.calls|].outcome == Ok
      && D.SentInOrder(j0.w, j'.w, bucket, id, n + 1)
      && D.StoresAfter(j'.w.mem, m0, bucket, j0.w.uploads[id], id, n + 1)
  {
    var u, k := j0.w.uploads[id], |j.w.calls|;
    Safety.ReachableSafe(j0.w);
    SendCanArrive(j, bucket, id, workers);
    var j1 := Apply(j, Send(true), bucket, id);
    OneStep(j, Send(true), bucket, id);
    var c := Fresh(bucket, id, n, Slice(u.file, u.session.chunk, n));
    var solo := D.Solo([], c, j.w.mem, k);
    CallRuns(j0, j, j1, m0, bucket, id, n);
    SoloOperates(c, j.w.mem, k);
    ServedRun(j1, solo, bucket, id);
    RunsJoin(j, [Send(true)], Served(solo), bucket, id);
    run := [Send(true)] + Served(solo);
  }

  lemma CallRuns(j0: State, j: State, j1: State, m0: Memory, bucket: string, id: string, n: nat)
    requires id in j0.w.uploads && bucket != "" && D.Unused(m0, bucket, id) && Safety.UploadTrue(j0.w.uploads[id])
    requires Progress(j0, j, m0, bucket, id, n) && n < j0.w.uploads[id].session.Total()
    requires var u := j0.w.uploads[id];
      var spawn := W.Spawn(bucket, id, n, Slice(u.file, u.session.chunk, n)); W.Enabled(j.w, spawn) && j1.w == W.Apply(j.w, spawn)
    ensures var u := j0.w.uploads[id];
      var solo := D.Solo([], Fresh(bucket, id, n, Slice(u.file, u.session.chunk, n)), j.w.mem, |j.w.calls|);
      && W.Legal(j1.w, solo) && |W.After(j1.w, solo).calls| == |j.w.calls| + 1
      && W.After(j1.w, solo).calls[|j.w.calls|].outcome == Ok
      && D.SentInOrder(j0.w, W.After(j1.w, solo), bucket, id, n + 1)
      && D.StoresAfter(W.After(j1.w, solo).mem, m0, bucket, u, id, n + 1)
  {
    var u := j0.w.uploads[id];
    var data := Slice(u.file, u.session.chunk, n);
    D.SpawnedRunsAlone(j.w, bucket, id, n, data);
    D.NextInOrder(j.w.mem, m0, bucket, u, id, n);
    D.SoloKeepsNames([], Fresh(bucket, id, n, data), j.w.mem);
    var more := D.SpawnAlone(bucket, id, n, data, j.w.mem, |j.w.calls|);
    assert more[0] == W.Spawn(bucket, id, n, data) && more[1..] == D.Solo([], Fresh(bucket, id, n, data), j.w.mem, |j.w.calls|);
    D.OneMoreSent(j0.w, j.w, W.After(j.w, more), bucket, id, n);
  }

  lemma {:induction false} PartsInOrder(j0: State, m0: Memory, bucket: string, id: string, workers: int, n: nat) returns (run: seq<Step>)
    requires Begins(j0, id, workers) && workers >= 1 && bucket != "" && Sized(j0.u.file, j0.u.chunk) && D.Unused(m0, bucket, id)
    requires j0.w.mem == OpenSession(m0, id, j0.w.uploads[id].session) && n <= Segments(j0.u.file, j0.u.chunk)
    ensures Legal(j0, run, bucket, id) && Progress(j0, After(j0, run, bucket, id), m0, bucket, id, n)
  {
    var u := j0.w.uploads[id];
    Safety.ReachableSafe(j0.w);
    if n == 0 {
      run := [];
      SessionKeysInjective(id, id);
      assert D.UpTo(0) == {};
      assert D.Holds(j0.w.mem, m0, bucket, id, u.session, u.file, {});
      assert Progress(j0, j0, m0, bucket, id, 0);
    } else {
      var before := PartsInOrder(j0, m0, bucket, id, workers, n - 1);
      BeginsCoupled(j0, bucket, id, workers);
      RunCoupled(j0, before, bucket, id, workers);
      var more := OneMorePart(j0, After(j0, before, bucket, id), m0, bucket, id, workers, n - 1);
      RunsJoin(j0, before, more, bucket, id);
      run := before + more;
    }
  }

  /** The loop has returned nil, in time, and the file is stored. */
  ghost predicate Succeeds(j: State, bucket: string, id: string, file: Bytes) {
    && j.u.loop == U.Returned(true) && id in j.w.uploads && j.w.uploads[id].file == file
    && j.w.clock < j.w.uploads[id].deadline
    && Safety.FileStored(j.w, bucket, id)
  }

  /** Every file can be uploaded so: from an empty store, by a client with at least one worker, when the
      session lives for a second or more and the file's bits fit into one Redis key. */
  lemma SuccessfulUploadExists(start: W.World, bucket: string, id: string, prefix: string, file: Bytes, preferred: nat, workers: int)
    requires W.Initial(start) && bucket != "" && !IsPartKey(prefix) && preferred < TWO_64 && workers >= 1
    requires start.config.uploadTTL >= W.SECOND
    requires Sized(file, ChooseChunk(preferred, start.config.chunkSize))
    requires Segments(file, ChooseChunk(preferred, start.config.chunkSize)) <= D.MAX_BITS
    ensures var open := W.Open(id, prefix, file, preferred, 0);
      && W.Enabled(start, open)
      && var j := State(U.Start(file, ChooseChunk(preferred, start.config.chunkSize), workers), W.Apply(start, open), map[]);
      && Begins(j, id, workers)
      && exists run :: Legal(j, run, bucket, id) && Succeeds(After(j, run, bucket, id), bucket, id, file)
  {
    var open := W.Open(id, prefix, file, preferred, 0);
    D.Opened(start, open);
    var w0 := W.Apply(start, open);
    var chunk := ChooseChunk(preferred, start.config.chunkSize);
    assert W.Legal(start, []) && W.After(start, []) == start && W.Reachable(start);
    Overlap.ReachableStep(start, open);
    var j := State(U.Start(file, chunk, workers), w0, map[]);
    assert Begins(j, id, workers);
    var parts := PartsInOrder(j, start.mem, bucket, id, workers, Segments(file, chunk));
    var j' := After(j, parts, bucket, id);
    BeginsCoupled(j, bucket, id, workers);
    RunCoupled(j, parts, bucket, id, workers);
    D.CompletedHasFileOnly(start.mem, bucket, id, w0.uploads[id].session, file);
    OneStep(j', Return, bucket, id);
    RunsJoin(j, parts, [Return], bucket, id);
    InTime(start.clock, start.config.uploadTTL);
    assert Succeeds(After(j, parts + [Return], bucket, id), bucket, id, file);
  }

  lemma InTime(clock: nat, ttl: nat)
    requires ttl >= W.SECOND
    ensures clock < (clock + ttl) / W.SECOND * W.SECOND
  {
  }
}
