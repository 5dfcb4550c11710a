/** Any number of upload sessions and UploadPart calls running at once.  A run is a sequence of
    actions; all nondeterminism (interleaving, faults, expiry, deletion) is in the actions. */
module World {
  import opened Chunking
  import opened Keys
  import opened Protocol

  const SECOND: int := 1_000_000_000

  /** A session that was opened, and the file its senders cut.  Times are in nanoseconds;
      `deadline` is the instant ExpiresAtUnix names and `expiry` the instant from which Redis may drop the keys. */
  datatype Upload = Upload(session: Session, file: Bytes, deadline: int, expiry: int)

  datatype Config = Config(chunkSize: nat, uploadTTL: nat)

  /** The stores and the calls, with a history of what happened: the sessions opened, the uploads
      one of whose keys expired, the uploads one of whose operations failed, and, for each upload,
      the objects deleted, and the final objects put by other uploads, since it was opened. */
  datatype World = World(config: Config, mem: Memory, calls: seq<Call>, clock: nat,
                         uploads: map<string, Upload>, lapsed: set<string>, faulty: set<string>,
                         deleted: set<(string, ObjectName)>, overwritten: set<(string, ObjectName)>)

  datatype Action =
    | Open(id: string, prefix: string, file: Bytes, preferred: nat, delay: nat)
    | Spawn(bucket: string, id: string, seqNo: nat, data: Bytes)
    | Operate(k: nat, choice: Choice)
    | Expire(id: string, metaKey: bool)
    | Delete(name: ObjectName)
    | Tick(elapsed: nat)

  predicate Initial(w: World) {
    && 0 < w.config.chunkSize < TWO_63 && w.config.uploadTTL > 0
    && w.mem == Memory(map[], map[])
    && w.calls == [] && w.uploads == map[] && w.lapsed == {} && w.faulty == {}
    && w.deleted == {} && w.overwritten == {}
  }

  /** What the environment may do.  A new upload id is unused; a final prefix is not named like a
      part; a sender sends the slice its sequence number names; Redis drops a key only after its
      time to live. */
  ghost predicate Enabled(w: World, a: Action) {
    match a
    case Open(id, prefix, file, preferred, _) =>
      && id !in w.uploads && (forall k :: 0 <= k < |w.calls| ==> w.calls[k].id != id)
      && !IsPartKey(prefix) && |file| < TWO_64 && preferred < TWO_64
    case Spawn(_, id, seqNo, data) =>
      id in w.uploads && seqNo < w.uploads[id].session.Total() ==>
        data == Slice(w.uploads[id].file, w.uploads[id].session.chunk, seqNo)
    case Operate(k, _) => k < |w.calls| && w.calls[k].outcome == Running
    case Expire(id, _) => id in w.uploads && w.clock >= w.uploads[id].expiry
    case Delete(_) => true
    case Tick(_) => true
  }

  /** One event on `name`, noted for each of the uploads `ids`. */
  function Noted(ids: set<string>, name: ObjectName): (s: set<(string, ObjectName)>)
    ensures forall id, n :: (id, n) in s <==> id in ids && n == name
  {
    set id | id in ids :: (id, name)
  }

  function FinalOf(c: Call): ObjectName {
    ObjectName(c.bucket, c.session.prefix)
  }

  ghost function Apply(w: World, a: Action): World
    requires Enabled(w, a)
  {
    match a
    case Open(id, prefix, file, preferred, delay) =>
      var session := Session(prefix, |file|, ChooseChunk(preferred, w.config.chunkSize));
      var deadline := (w.clock + w.config.uploadTTL) / SECOND * SECOND;
      w.(mem := OpenSession(w.mem, id, session),
         clock := w.clock + delay,
         uploads := w.uploads[id := Upload(session, file, deadline, w.clock + delay + w.config.uploadTTL)])
    case Spawn(bucket, id, seqNo, data) =>
      w.(calls := w.calls + [Fresh(bucket, id, seqNo, data)])
    case Operate(k, choice) =>
      var r := Next(w.calls[k], w.mem, choice);
      w.(mem := r.0, calls := w.calls[k := r.1],
         faulty := if choice == Proceed then w.faulty else w.faulty + {w.calls[k].id},
         overwritten := if !PutsFinal(w.calls[k], choice) then w.overwritten
                        else w.overwritten + Noted(w.uploads.Keys - {w.calls[k].id}, FinalOf(w.calls[k])))
    case Expire(id, metaKey) =>
      w.(mem := w.mem.(redis := w.mem.redis - {if metaKey then MetaKey(id) else BitmapKey(id)}),
         lapsed := w.lapsed + {id})
    case Delete(name) =>
      w.(mem := w.mem.(objects := w.mem.objects - {name}), deleted := w.deleted + Noted(w.uploads.Keys, name))
    case Tick(elapsed) =>
      w.(clock := w.clock + elapsed)
  }

  /** What opening a session leaves: the session under its key with the preferred chunk size, or the server's
      own, and an empty bitmap; the client's deadline is the last whole second of the keys' time to
      live, counted from before they are stored, and Redis may drop them a time to live after that. */
  lemma OpenExact(w: World, a: Action)
    requires a.Open? && Enabled(w, a)
    ensures a.id in Apply(w, a).uploads
    ensures var w', u := Apply(w, a), Apply(w, a).uploads[a.id];
      && u.file == a.file && u.session.prefix == a.prefix && u.session.size == |a.file|
      && u.session.chunk == (if a.preferred > 0 then a.preferred else w.config.chunkSize)
      && u.deadline % SECOND == 0 && u.deadline <= w.clock + w.config.uploadTTL < u.deadline + SECOND
      && u.expiry == w'.clock + w.config.uploadTTL && w'.clock == w.clock + a.delay
      && w'.mem.objects == w.mem.objects
      && w'.mem.redis == w.mem.redis[MetaKey(a.id) := Meta(u.session)][BitmapKey(a.id) := Bits({})]
      && w' == w.(mem := w'.mem, clock := w'.clock, uploads := w.uploads[a.id := u])
  {
    var t := w.clock + w.config.uploadTTL;
    assert t / SECOND * SECOND + t % SECOND == t;
  }

  ghost predicate Legal(w: World, run: seq<Action>)
    decreases |run|
  {
    run == [] || (Enabled(w, run[0]) && Legal(Apply(w, run[0]), run[1..]))
  }

  ghost function After(w: World, run: seq<Action>): World
    requires Legal(w, run)
    decreases |run|
  {
    if run == [] then w else After(Apply(w, run[0]), run[1..])
  }

  /** `w` is the state after some run from an empty store. */
  ghost predicate Reachable(w: World) {
    exists start, run :: Initial(start) && Legal(start, run) && After(start, run) == w
  }

  // ---------- what calls have done ----------

  /** Some call of the upload has set the bit of `i`. */
  ghost predicate MarkedBy(w: World, id: string, i: nat) {
    exists k :: 0 <= k < |w.calls| && w.calls[k].id == id && w.calls[k].seqNo == i && w.calls[k].stage.Rank() >= 3
  }

  ghost predicate AllMarked(w: World, id: string, total: nat) {
    forall i: nat :: i < total ==> MarkedBy(w, id, i)
  }

  /** Some call of the upload has put the final object and gone on to remove parts. */
  ghost predicate Swept(w: World, id: string) {
    exists k :: 0 <= k < |w.calls| && w.calls[k].id == id && w.calls[k].stage == Sweeping
  }

  ghost predicate SweptIn(w: World, bucket: string, id: string) {
    exists k :: 0 <= k < |w.calls| && w.calls[k].bucket == bucket && w.calls[k].id == id && w.calls[k].stage == Sweeping
  }

  /** Some call of the upload has come past part `i` in its sweep. */
  ghost predicate SweptPast(w: World, bucket: string, id: string, i: nat) {
    exists k :: 0 <= k < |w.calls| && w.calls[k].bucket == bucket && w.calls[k].id == id && w.calls[k].stage == Sweeping
                && w.calls[k].cursor > i
  }

  lemma SweptPastIsSweptIn(w: World, bucket: string, id: string, i: nat)
    requires SweptPast(w, bucket, id, i)
    ensures SweptIn(w, bucket, id)
  {
    var k :| 0 <= k < |w.calls| && w.calls[k].bucket == bucket && w.calls[k].id == id && w.calls[k].stage == Sweeping
             && w.calls[k].cursor > i;
    assert w.calls[k].stage == Sweeping;
  }

  /** The calls of `w` are still in `w'`, at least as far on. */
  ghost predicate Grows(w: World, w': World) {
    && |w.calls| <= |w'.calls|
    && w.deleted <= w'.deleted && w.overwritten <= w'.overwritten && w.lapsed <= w'.lapsed && w.faulty <= w'.faulty
    && w.uploads.Keys <= w'.uploads.Keys
    && (forall id :: id in w.uploads ==> w'.uploads[id] == w.uploads[id])
    && forall k {:trigger w'.calls[k]} {:trigger w.calls[k]} :: 0 <= k < |w.calls| ==>
         && w'.calls[k].bucket == w.calls[k].bucket && w'.calls[k].id == w.calls[k].id
         && w'.calls[k].seqNo == w.calls[k].seqNo && w'.calls[k].data == w.calls[k].data
         && w'.calls[k].stage.Rank() >= w.calls[k].stage.Rank()
         && (w.calls[k].stage == Sweeping ==> w'.calls[k].cursor >= w.calls[k].cursor)
  }

  lemma StepGrows(w: World, a: Action)
    requires Enabled(w, a)
    ensures Grows(w, Apply(w, a))
  {
  }

  lemma GrowsKeeps(w: World, w': World)
    requires Grows(w, w')
    ensures forall id, i: nat :: MarkedBy(w, id, i) ==> MarkedBy(w', id, i)
    ensures forall id, total :: AllMarked(w, id, total) ==> AllMarked(w', id, total)
    ensures forall id :: Swept(w, id) ==> Swept(w', id)
    ensures forall bucket, id :: SweptIn(w, bucket, id) ==> SweptIn(w', bucket, id)
    ensures forall bucket, id, i: nat :: SweptPast(w, bucket, id, i) ==> SweptPast(w', bucket, id, i)
  {
    forall bucket, id, i: nat | SweptPast(w, bucket, id, i) ensures SweptPast(w', bucket, id, i) {
      var k :| 0 <= k < |w.calls| && w.calls[k].bucket == bucket && w.calls[k].id == id && w.calls[k].stage == Sweeping
               && w.calls[k].cursor > i;
      assert w'.calls[k].stage == Sweeping;
    }
    forall id, i: nat | MarkedBy(w, id, i) ensures MarkedBy(w', id, i) {
      var k :| 0 <= k < |w.calls| && w.calls[k].id == id && w.calls[k].seqNo == i && w.calls[k].stage.Rank() >= 3;
      assert w'.calls[k].id == id;
    }
    forall id | Swept(w, id) ensures Swept(w', id) {
      var k :| 0 <= k < |w.calls| && w.calls[k].id == id && w.calls[k].stage == Sweeping;
      assert w'.calls[k].stage == Sweeping;
    }
    forall bucket, id | SweptIn(w, bucket, id) ensures SweptIn(w', bucket, id) {
      var k :| 0 <= k < |w.calls| && w.calls[k].bucket == bucket && w.calls[k].id == id && w.calls[k].stage == Sweeping;
      assert w'.calls[k].stage == Sweeping;
    }
  }
}
