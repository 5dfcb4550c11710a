/** Upload and download put together, with the encryption and the archive around them. */
module EndToEnd {
  import opened Chunking
  import opened Keys
  import opened Protocol
  import W = World
  import Safety
  import Completion
  import U = Upload
  import D = Download
  import Archive

  // ---------- transfer ----------

  /** The object that an upload leaves under its prefix. */
  function FinalName(w: W.World, bucket: string, id: string): ObjectName
    requires id in w.uploads
  {
    ObjectName(bucket, w.uploads[id].session.prefix)
  }

  /** Since the upload was opened nothing else has touched its final object: no other upload's put
      and no deletion. */
  ghost predicate Untouched(w: W.World, bucket: string, id: string) {
    id in w.uploads && !Safety.FinalOverwritten(w, bucket, id) && !Safety.FinalDeleted(w, bucket, id)
  }

  /** The upload finished: every chunk was sent in `bucket`, and all calls answered Ok in time. */
  ghost predicate Finished(w: W.World, bucket: string, id: string) {
    && id in w.uploads && w.uploads[id].session.Total() > 0
    && (w.clock < w.uploads[id].deadline || id !in w.lapsed)
    && Completion.OneBucket(w, id, bucket) && Completion.AllSent(w, id) && Completion.AllOk(w, id)
  }

  /** A finished and untouched upload is stored whole. */
  lemma FinishedIsStored(w: W.World, bucket: string, id: string)
    requires W.Reachable(w) && Finished(w, bucket, id) && Untouched(w, bucket, id)
    ensures Safety.FileStored(w, bucket, id)
  {
    Completion.NoLostCompletion(w, id);
    var b :| Completion.CompletedIn(w, b, id);
    var k :| 0 <= k < |w.calls| && w.calls[k].bucket == b && w.calls[k].id == id && w.calls[k].stage == Sweeping;
    assert w.calls[k].bucket == bucket;
  }

  /** End-to-end round trip: after any interleaving of a finished upload, any download of the object,
      with any other chunk size, any workers and any interleaving, that returns nil has written the
      original bytes. */
  lemma DownloadReturnsUpload(w: W.World, bucket: string, id: string, t: D.Transfer, chunk: nat, workers: int)
    requires W.Reachable(w) && Finished(w, bucket, id) && Untouched(w, bucket, id)
    requires FinalName(w, bucket, id) in w.mem.objects && Sized(w.mem.objects[FinalName(w, bucket, id)], chunk)
    requires D.Reachable(t, w.mem.objects[FinalName(w, bucket, id)], chunk, workers) && t.feeder == D.Returned(true)
    ensures t.output == w.uploads[id].file
  {
    FinishedIsStored(w, bucket, id);
    D.SuccessIsCopy(t, w.uploads[id].file, chunk, workers);
  }

  /** Every part that the client's loop sends is one that the server's senders may send: client and
      server cut the file alike, and the loop sends as many parts as the session counts. */
  lemma ClientSendsWhatServerExpects(w: W.World, bucket: string, id: string, u: U.Transfer, workers: int, k: nat)
    requires W.Reachable(w) && id in w.uploads
    requires Sized(w.uploads[id].file, w.uploads[id].session.chunk)
    requires U.Reachable(u, w.uploads[id].file, w.uploads[id].session.chunk, workers) && k < |u.sent|
    ensures u.sent[k].0 == k < w.uploads[id].session.Total()
    ensures W.Enabled(w, W.Spawn(bucket, id, u.sent[k].0, u.sent[k].1))
    ensures u.loop.Returned? ==> |u.sent| == w.uploads[id].session.Total()
  {
    Safety.ReachableSafe(w);
    U.ReachableValid(u, w.uploads[id].file, w.uploads[id].session.chunk, workers);
  }

  /** The calls of upload `id` in `w` are sends of the client's loop: each carries one of its parts, and
      an acknowledgement means that the part has a call and that its calls answered Ok.
      `Joint.LoopIsServed` shows that every return of the loop is so. */
  ghost predicate Serves(w: W.World, bucket: string, id: string, u: U.Transfer) {
    && Completion.OneBucket(w, id, bucket)
    && (forall k :: 0 <= k < |w.calls| && w.calls[k].id == id ==>
          && w.calls[k].seqNo in u.replies
          && (u.replies[w.calls[k].seqNo] == U.Acknowledged ==> w.calls[k].outcome == Ok))
    && (forall i :: i in u.replies && u.replies[i] == U.Acknowledged ==> Completion.Sent(w, id, i))
  }

  /** When the client's loop has counted every byte as uploaded before its deadline, the upload is
      finished, and the file is stored unless something else touched the object. */
  lemma ClientSuccessStoresFile(w: W.World, bucket: string, id: string, u: U.Transfer, workers: int)
    requires W.Reachable(w) && id in w.uploads && w.clock < w.uploads[id].deadline
    requires Sized(w.uploads[id].file, w.uploads[id].session.chunk)
    requires U.Reachable(u, w.uploads[id].file, w.uploads[id].session.chunk, workers) && Serves(w, bucket, id, u)
    requires u.loop.Returned? && u.uploaded == |w.uploads[id].file|
    ensures Finished(w, bucket, id)
    ensures Untouched(w, bucket, id) ==> Safety.FileStored(w, bucket, id)
  {
    var file, chunk := w.uploads[id].file, w.uploads[id].session.chunk;
    Safety.ReachableSafe(w);
    U.ResultIsExact(u, file, chunk, workers);
    assert w.uploads[id].session.Total() == |u.sent|;
    if Untouched(w, bucket, id) { FinishedIsStored(w, bucket, id); }
  }

  // ---------- encryption and archive ----------

  datatype Option<T> = None | Some(value: T)

  /** The outside functions: the cipher under one key, and the zip format. */
  datatype Codec = Codec(seal: (Bytes, Bytes) -> Bytes, open: (Bytes, Bytes) -> Option<Bytes>,
                         zip: seq<Archive.Entry> -> Bytes, unzip: Bytes -> Option<seq<Archive.Entry>>)

  /** Open undoes Seal on one plaintext. */
  predicate OpensSeal(codec: Codec, nonce: Bytes, plain: Bytes) {
    codec.open(nonce, codec.seal(nonce, plain)) == Some(plain)
  }

  /** The nonce in front, the sealed bytes behind. */
  function Encrypt(codec: Codec, nonce: Bytes, plain: Bytes): Bytes {
    nonce + codec.seal(nonce, plain)
  }

  function Decrypt(codec: Codec, nonceSize: nat, data: Bytes): Option<Bytes> {
    if |data| < nonceSize then None else codec.open(data[..nonceSize], data[nonceSize..])
  }

  /** Decryption undoes encryption, for every nonce. */
  lemma DecryptUndoesEncrypt(codec: Codec, nonce: Bytes, plain: Bytes)
    requires OpensSeal(codec, nonce, plain)
    ensures Decrypt(codec, |nonce|, Encrypt(codec, nonce, plain)) == Some(plain)
  {
    var data := Encrypt(codec, nonce, plain);
    assert data[..|nonce|] == nonce && data[|nonce|..] == codec.seal(nonce, plain);
  }

  /** The bytes of a file, or of the zip file of a directory. */
  function Plain(codec: Codec, artifact: Archive.Node): Bytes {
    if artifact.File? then artifact.data else codec.zip(Archive.ZipDir(artifact))
  }

  /** The outside functions do what they should on this artifact: Open undoes Seal when it is sealed, and
      reading its zip file gives the entries written to it when it is a directory. */
  predicate SoundOn(codec: Codec, nonce: Option<Bytes>, artifact: Archive.Node) {
    && (nonce.Some? ==> OpensSeal(codec, nonce.value, Plain(codec, artifact)))
    && (artifact.Dir? ==> codec.unzip(codec.zip(Archive.ZipDir(artifact))) == Some(Archive.ZipDir(artifact)))
  }

  /** What UploadArtifact sends for a file or a directory, with a key or without. */
  function Prepare(codec: Codec, nonce: Option<Bytes>, artifact: Archive.Node): Bytes {
    var plain := Plain(codec, artifact);
    if nonce.None? then plain else Encrypt(codec, nonce.value, plain)
  }

  /** What DownloadArtifact makes of the bytes it fetched, where `dst` is what its destination holds; None
      when it ends in an error. */
  function Restore(codec: Codec, nonceSize: Option<nat>, isDir: bool, dst: Option<Archive.Node>, data: Bytes): Option<Archive.Node> {
    var plain := if nonceSize.None? then Some(data) else Decrypt(codec, nonceSize.value, data);
    if plain.None? then None
    else if !isDir then
      if dst.Some? && dst.value.Dir? then None else Some(Archive.File(plain.value))
    else if dst.Some? && dst.value.File? then None
    else
      var entries := codec.unzip(plain.value);
      if entries.None? then None
      else
        var r := Archive.Unpack(if dst.None? then Archive.Dir(map[]) else dst.value, entries.value);
        if r.1 then Some(r.0) else None
  }

  /** With a key, the data is too short for a nonce, or does not open. */
  predicate KeyRefuses(codec: Codec, nonceSize: Option<nat>, data: Bytes) {
    nonceSize.Some? && (|data| < nonceSize.value || codec.open(data[..nonceSize.value], data[nonceSize.value..]) == None)
  }

  /** What the key leaves of the data. */
  function Opened(codec: Codec, nonceSize: Option<nat>, data: Bytes): Bytes
    requires !KeyRefuses(codec, nonceSize, data)
  {
    if nonceSize.None? then data else codec.open(data[..nonceSize.value], data[nonceSize.value..]).value
  }

  /** The directory to unpack into; it is made when it is missing. */
  function Into(dst: Option<Archive.Node>): Archive.Node {
    if dst.None? then Archive.Dir(map[]) else dst.value
  }

  /** When a download is refused after its last byte, and what it leaves otherwise, for any data: refused
      by the key, by a destination of the other kind, by an archive that does not unzip, or by entries
      that do not unpack. */
  lemma RestoreExact(codec: Codec, nonceSize: Option<nat>, isDir: bool, dst: Option<Archive.Node>, data: Bytes)
    ensures var r := Restore(codec, nonceSize, isDir, dst, data);
      && (r == None <==>
            || KeyRefuses(codec, nonceSize, data)
            || (dst.Some? && (isDir <==> dst.value.File?))
            || (isDir && (var entries := codec.unzip(Opened(codec, nonceSize, data));
                          entries.None? || !Archive.Unpack(Into(dst), entries.value).1)))
      && (r.Some? ==>
            if isDir then r.value == Archive.Unpack(Into(dst), codec.unzip(Opened(codec, nonceSize, data)).value).0
            else r.value == Archive.File(Opened(codec, nonceSize, data)))
  {
  }

  function SizeOf(nonce: Option<Bytes>): Option<nat> {
    if nonce.None? then None else Some(|nonce.value|)
  }

  /** What was prepared is restored, also over an existing destination.  A file replaces a file.  A directory
      is laid over a directory: its files and directories are as they were prepared, and what it does
      not have is as before.  It is refused when some name contains "..", and when one side has a
      file where the other has a directory. */
  lemma RestoreUndoesPrepare(codec: Codec, nonce: Option<Bytes>, artifact: Archive.Node, dst: Option<Archive.Node>)
    requires SoundOn(codec, nonce, artifact) && Archive.WellNamed(artifact)
    ensures var r := Restore(codec, SizeOf(nonce), artifact.Dir?, dst, Prepare(codec, nonce, artifact));
      && (r == None <==> Archive.DottedTree(artifact) || (dst.Some? && Archive.Clashes(dst.value, artifact)))
      && (r.Some? ==>
            forall path :: Archive.At(r.value, path) ==
              if Archive.At(artifact, path) == Archive.Nothing && artifact.Dir? then Archive.At(Into(dst), path)
              else Archive.At(artifact, path))
      && (dst == None ==> r == if Archive.DottedTree(artifact) then None else Some(artifact))
  {
    var plain := Plain(codec, artifact);
    if nonce.Some? { DecryptUndoesEncrypt(codec, nonce.value, plain); }
    var root: seq<string> := [];
    assert Archive.Clash(Archive.At(Into(dst), root), Archive.At(artifact, root)) <==> Into(dst).Dir? != artifact.Dir?;
    if artifact.Dir? {
      if dst == None { Archive.RoundTrip(artifact); }
      if Into(dst).Dir? { Archive.UnpackOver(Into(dst), artifact); }
    } else {
      FileClashes(Into(dst), artifact);
    }
  }

  lemma FileClashes(dst: Archive.Node, file: Archive.Node)
    requires file.File?
    ensures Archive.Clashes(dst, file) <==> dst.Dir?
  {
    var root: seq<string> := [];
    assert Archive.Clash(Archive.At(dst, root), Archive.At(file, root)) <==> dst.Dir?;
    assert forall path :: path != root ==> Archive.At(file, path) == Archive.Nothing;
  }

  /** The whole way: a file or directory, sealed or not, uploaded by any interleaving and downloaded
      by any other to a new place, comes back as it was, unless a name in the directory contains "..". */
  lemma ArtifactRoundTrip(w: W.World, bucket: string, id: string, t: D.Transfer, chunk: nat, workers: int,
                          codec: Codec, nonce: Option<Bytes>, artifact: Archive.Node)
    requires SoundOn(codec, nonce, artifact) && Archive.WellNamed(artifact)
    requires W.Reachable(w) && Finished(w, bucket, id) && Untouched(w, bucket, id)
    requires w.uploads[id].file == Prepare(codec, nonce, artifact)
    requires FinalName(w, bucket, id) in w.mem.objects && Sized(w.mem.objects[FinalName(w, bucket, id)], chunk)
    requires D.Reachable(t, w.mem.objects[FinalName(w, bucket, id)], chunk, workers) && t.feeder == D.Returned(true)
    ensures Restore(codec, SizeOf(nonce), artifact.Dir?, None, t.output)
            == if Archive.DottedTree(artifact) then None else Some(artifact)
  {
    DownloadReturnsUpload(w, bucket, id, t, chunk, workers);
    RestoreUndoesPrepare(codec, nonce, artifact, None);
  }
}
