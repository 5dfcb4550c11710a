/** One UploadPart call, cut at its operations on the object store and on Redis.  Between two
    such operations other calls may run, and each operation may fail. */
module Protocol {
  import opened Chunking
  import opened Keys

  // ---------- what the server stores ----------

  datatype ObjectName = ObjectName(bucket: string, key: string)

  /** The upload session as InitiateUpload writes it. */
  datatype Session = Session(prefix: string, size: nat, chunk: nat) {
    /** The chunk count.  A zero chunk size would make the server divide by zero; `Admit` treats
        that case before it uses the count. */
    function Total(): nat {
      if chunk == 0 then 0 else ServerTotal(size, chunk)
    }
  }

  datatype Entry = Meta(session: Session) | Bits(bits: set<nat>)

  datatype Memory = Memory(objects: map<ObjectName, Bytes>, redis: map<string, Entry>)

  function PartName(bucket: string, id: string, i: nat): ObjectName {
    ObjectName(bucket, PartKey(id, i))
  }

  /** The bits of an upload; a missing bitmap has none. */
  function BitsOf(redis: map<string, Entry>, id: string): set<nat> {
    if BitmapKey(id) in redis && redis[BitmapKey(id)].Bits? then redis[BitmapKey(id)].bits else {}
  }

  /** The chunk size of a session: the client's wish, or the server's own when there is none. */
  function ChooseChunk(preferred: nat, own: nat): nat {
    if preferred == 0 then own else preferred
  }

  /** What opening a session stores: the session, and an empty bitmap. */
  function OpenSession(m: Memory, id: string, s: Session): Memory {
    m.(redis := m.redis[MetaKey(id) := Meta(s)][BitmapKey(id) := Bits({})])
  }

  // ---------- one call ----------

  /** How far a call has come: the last operation that took effect. */
  datatype Stage = Begun | Admitted | Stored | Marked | Assembling | Sweeping {
    function Rank(): nat {
      match this
      case Begun => 0
      case Admitted => 1
      case Stored => 2
      case Marked => 3
      case Assembling => 4
      case Sweeping => 5
    }
  }

  datatype Outcome = Running | Ok | NotFound | InvalidArgument | Internal | Unknown | Panicked

  const NO_SESSION := Session("", 0, 0)

  datatype Call = Call(bucket: string, id: string, seqNo: nat, data: Bytes,
                       stage: Stage, session: Session, cursor: nat, stream: Bytes, outcome: Outcome)

  function Fresh(bucket: string, id: string, seqNo: nat, data: Bytes): Call {
    Call(bucket, id, seqNo, data, Begun, NO_SESSION, 0, [], Running)
  }

  /** How one operation ends: it succeeds, it fails without effect, or it takes effect and yet
      reports a failure (a lost reply). */
  datatype Choice = Proceed | FailBefore | FailAfter

  /** The session lookup, with the checks that need no further operation. */
  function Admit(c: Call, m: Memory, f: Choice): Call {
    if c.bucket == "" then
      c.(outcome := InvalidArgument)
    else if f != Proceed || MetaKey(c.id) !in m.redis then
      c.(outcome := NotFound)
    else
      match m.redis[MetaKey(c.id)]
      case Bits(_) => c.(outcome := Internal)
      case Meta(s) =>
        if s.size > 0 && s.chunk == 0 then c.(outcome := Panicked)
        else if c.seqNo >= s.Total() then c.(outcome := InvalidArgument)
        else c.(stage := Admitted, session := s)
  }

  function StorePart(c: Call, m: Memory, f: Choice): (Memory, Call) {
    if f == FailBefore then
      (m, c.(outcome := Internal))
    else
      (m.(objects := m.objects[PartName(c.bucket, c.id, c.seqNo) := c.data]),
       c.(stage := Stored, outcome := if f == FailAfter then Internal else Running))
  }

  function MarkBit(c: Call, m: Memory, f: Choice): (Memory, Call) {
    if f == FailBefore then
      (m, c.(outcome := Internal))
    else
      (m.(redis := m.redis[BitmapKey(c.id) := Bits(BitsOf(m.redis, c.id) + {c.seqNo})]),
       c.(stage := Marked, outcome := if f == FailAfter then Internal else Running))
  }

  function CountBits(c: Call, m: Memory, f: Choice): Call {
    if f != Proceed then c.(outcome := Internal)
    else if |BitsOf(m.redis, c.id)| == c.session.Total() then c.(stage := Assembling, cursor := 0, stream := [])
    else c.(outcome := Ok)
  }

  /** The next operation is the final put, and it takes effect. */
  predicate PutsFinal(c: Call, f: Choice) {
    c.stage == Assembling && c.cursor >= c.session.Total() && |c.stream| == c.session.size && f != FailBefore
  }

  /** The reading goroutine and the put it feeds.  A missing part ends the stream in an error and
      so fails the put.  The put declares the session's size: it fails without effect when the
      stream has another length, and otherwise stores the whole stream or nothing. */
  function Assemble(c: Call, m: Memory, f: Choice): (Memory, Call)
    requires c.stage == Assembling
  {
    if c.cursor < c.session.Total() then
      var part := PartName(c.bucket, c.id, c.cursor);
      if f != Proceed || part !in m.objects then (m, c.(outcome := Internal))
      else (m, c.(cursor := c.cursor + 1, stream := c.stream + m.objects[part]))
    else if !PutsFinal(c, f) then
      (m, c.(outcome := Internal))
    else
      var stored := m.(objects := m.objects[ObjectName(c.bucket, c.session.prefix) := c.stream]);
      if f == FailAfter then (stored, c.(outcome := Internal))
      else (stored, c.(stage := Sweeping, cursor := 0))
  }

  /** Removing the parts and then both session keys.  Failures here are only logged. */
  function Sweep(c: Call, m: Memory, f: Choice): (Memory, Call) {
    if c.cursor < c.session.Total() then
      (if f == FailBefore then m else m.(objects := m.objects - {PartName(c.bucket, c.id, c.cursor)}),
       c.(cursor := c.cursor + 1))
    else
      (if f == FailBefore then m else m.(redis := m.redis - {MetaKey(c.id), BitmapKey(c.id)}),
       c.(outcome := Ok))
  }

  /** One operation of a running call. */
  function Next(c: Call, m: Memory, f: Choice): (Memory, Call)
    requires c.outcome == Running
  {
    match c.stage
    case Begun => (m, Admit(c, m, f))
    case Admitted => StorePart(c, m, f)
    case Stored => MarkBit(c, m, f)
    case Marked => (m, CountBits(c, m, f))
    case Assembling => Assemble(c, m, f)
    case Sweeping => Sweep(c, m, f)
  }

  // ---------- a call on its own ----------

  /** Operations left inside the two loops. */
  function LoopLeft(c: Call): nat {
    if c.cursor < c.session.Total() then c.session.Total() - c.cursor else 0
  }

  /** A call run to its end with nothing in between.  Operation `n` ends as `plan[n]` says;
      operations past the end of the plan succeed. */
  function RunAlone(plan: seq<Choice>, c: Call, m: Memory): (Memory, Call)
    decreases if c.outcome == Running then 1 else 0, 6 - c.stage.Rank(), LoopLeft(c)
  {
    if c.outcome != Running then (m, c)
    else
      var r := Next(c, m, if plan == [] then Proceed else plan[0]);
      RunAlone(if plan == [] then [] else plan[1..], r.1, r.0)
  }

  /** How operation `n` of a plan ends, and the plan from operation `n` on. */
  function Fault(plan: seq<Choice>, n: nat): Choice {
    if n < |plan| then plan[n] else Proceed
  }

  function Rest(plan: seq<Choice>, n: nat): seq<Choice> {
    if n < |plan| then plan[n..] else []
  }

  /** A run unfolds at its first operation. */
  lemma FirstOperation(plan: seq<Choice>, n: nat, c: Call, m: Memory)
    requires c.outcome == Running
    ensures var r := Next(c, m, Fault(plan, n));
      && RunAlone(Rest(plan, n), c, m) == RunAlone(Rest(plan, n + 1), r.1, r.0)
      && (r.1.outcome != Running ==> RunAlone(Rest(plan, n), c, m) == r)
  {
    var rest := Rest(plan, n);
    assert Fault(plan, n) == if rest == [] then Proceed else rest[0];
    assert Rest(plan, n + 1) == if rest == [] then [] else rest[1..];
  }

  // ---------- bounds on one operation ----------

  /** Operations a call can still make, when its session has `total` chunks. */
  function OperationsLeft(c: Call, total: nat): nat {
    if c.outcome != Running then 0
    else
      var left := if c.cursor < total then total - c.cursor else 0;
      match c.stage
      case Begun => 2 * total + 7
      case Admitted => 2 * total + 6
      case Stored => 2 * total + 5
      case Marked => 2 * total + 4
      case Assembling => left + total + 3
      case Sweeping => left + 2
  }

  /** Every operation brings the call nearer to its end, whatever the others do. */
  lemma NextDecreases(c: Call, m: Memory, f: Choice, total: nat)
    requires c.outcome == Running
    requires c.stage != Begun ==> c.session.Total() == total
    ensures OperationsLeft(Next(c, m, f).1, total) < OperationsLeft(c, total)
  {
  }

  /** A call changes nothing of another upload: not its session, not its bitmap, and not its
      parts, as long as no final object is named like one of those parts. */
  lemma UploadsDoNotInterfere(c: Call, m: Memory, f: Choice, other: string, bucket: string, i: nat)
    requires c.outcome == Running && c.id != other
    ensures var r := Next(c, m, f).0;
      && (MetaKey(other) in m.redis <==> MetaKey(other) in r.redis)
      && (MetaKey(other) in m.redis ==> r.redis[MetaKey(other)] == m.redis[MetaKey(other)])
      && BitsOf(r.redis, other) == BitsOf(m.redis, other)
      && (c.session.prefix != PartKey(other, i) ==>
           && (PartName(bucket, other, i) in m.objects <==> PartName(bucket, other, i) in r.objects)
           && (PartName(bucket, other, i) in m.objects ==>
                 r.objects[PartName(bucket, other, i)] == m.objects[PartName(bucket, other, i)]))
  {
    SessionKeysInjective(c.id, other);
    SessionKeysInjective(other, c.id);
    OtherParts(c.id, c.seqNo, other, i);
    OtherParts(c.id, c.cursor, other, i);
  }

  lemma OtherParts(id: string, i: nat, other: string, j: nat)
    requires id != other
    ensures PartKey(id, i) != PartKey(other, j)
  {
    if PartKey(id, i) == PartKey(other, j) { PartKeyInjective(id, i, other, j); }
  }
}
