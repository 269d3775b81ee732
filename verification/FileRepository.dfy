/** What file creation asks of the file repository: counts over live rows, the limits they are held
    to, and the agreement between rows and blobs. */
module FileRepository {
  import opened Prelude
  import opened ChunkKeys
  import opened Domain
  import opened MemoryStore
  import opened ObjectStore
  import opened Totals

  type Hash = Bytes -> string
  type Files = Store<FilePayload>
  type Rows = map<string, FileRow>
  type Blobs = map<Key, Bytes>

  /** SHA-256 of a blob, and of the text an etag is made from. */
  datatype Hashes = Hashes(blob: Hash, text: string -> string)

  /** Zero means unlimited. */
  datatype Limits = Limits(maxFile: nat, maxMetadata: nat, maxFiles: nat, maxBytes: nat)

  /** What `count_by_owner` and `bytes_by_owner` range over, at the time the caller read the clock. */
  function LiveSizes(rows: Rows, owner: string, at: Time): map<string, nat> {
    map id | id in rows && rows[id].owner == owner && rows[id].Live(at) :: rows[id].payload.size
  }

  predicate NoRoom(lim: Limits, rows: Rows, owner: string, at: Time) {
    lim.maxFiles != 0 && |LiveSizes(rows, owner, at)| >= lim.maxFiles
  }

  ghost predicate NoBytes(lim: Limits, rows: Rows, owner: string, size: nat, at: Time) {
    lim.maxBytes != 0 && Sum(LiveSizes(rows, owner, at)) + size > lim.maxBytes
  }

  /** `_check_governance`, with its order of refusals. */
  ghost function Governance(lim: Limits, rows: Rows, owner: string, size: nat, metadata: Json, at: Time): Result<bool> {
    if lim.maxFile != 0 && size > lim.maxFile then Err(PayloadTooLarge)
    else if lim.maxMetadata != 0 && |metadata| > lim.maxMetadata then Err(PayloadTooLarge)
    else if NoRoom(lim, rows, owner, at) then Err(QuotaExceeded)
    else if NoBytes(lim, rows, owner, size, at) then Err(QuotaExceeded)
    else Ok(true)
  }

  method CheckGovernance(lim: Limits, rows: Rows, owner: string, size: nat, metadata: Json, at: Time)
      returns (r: Result<bool>)
    ensures r == Governance(lim, rows, owner, size, metadata, at)
  {
    if lim.maxFile != 0 && size > lim.maxFile {
      return Err(PayloadTooLarge);
    }
    if lim.maxMetadata != 0 && |metadata| > lim.maxMetadata {
      return Err(PayloadTooLarge);
    }
    if lim.maxFiles != 0 && |LiveSizes(rows, owner, at)| >= lim.maxFiles {
      return Err(QuotaExceeded);
    }
    if lim.maxBytes != 0 {
      var used := SumValues(LiveSizes(rows, owner, at));
      if used + size > lim.maxBytes {
        return Err(QuotaExceeded);
      }
    }
    r := Ok(true);
  }

  /** The recount after the insert. */
  ghost predicate Over(lim: Limits, rows: Rows, owner: string, at: Time) {
    || (lim.maxFiles != 0 && |LiveSizes(rows, owner, at)| > lim.maxFiles)
    || (lim.maxBytes != 0 && Sum(LiveSizes(rows, owner, at)) > lim.maxBytes)
  }

  method Recount(lim: Limits, rows: Rows, owner: string, at: Time) returns (over: bool)
    ensures over == Over(lim, rows, owner, at)
  {
    over := lim.maxFiles != 0 && |LiveSizes(rows, owner, at)| > lim.maxFiles;
    if !over && lim.maxBytes != 0 {
      var used := SumValues(LiveSizes(rows, owner, at));
      over := used > lim.maxBytes;
    }
  }

  lemma OneMore(rows: Rows, row: FileRow, owner: string, at: Time)
    requires row.id !in rows
    ensures var before, after := LiveSizes(rows, owner, at), LiveSizes(rows[row.id := row], owner, at);
            |after| <= |before| + 1 && Sum(after) <= Sum(before) + row.payload.size
  {
    var before, after := LiveSizes(rows, owner, at), LiveSizes(rows[row.id := row], owner, at);
    if row.id in after {
      WithinButOne(after, before, row.id);
    } else {
      WithinBounds(after, before);
    }
  }

  /** With nothing in between, the pre-check already decides: the recount never fires. */
  lemma RecountQuietAlone(lim: Limits, rows: Rows, row: FileRow, at: Time)
    requires row.id !in rows && Governance(lim, rows, row.owner, row.payload.size, row.metadata, at).Ok?
    ensures !Over(lim, rows[row.id := row], row.owner, at)
  {
    OneMore(rows, row, row.owner, at);
  }

  /** A row that becomes live keeps its owner within the limits if and only if there was room for it. */
  lemma EntersIff(lim: Limits, rows: Rows, id: string, row: FileRow, at: Time)
    requires !Over(lim, rows, row.owner, at) && row.Live(at) && id !in LiveSizes(rows, row.owner, at)
    ensures !Over(lim, rows[id := row], row.owner, at) <==>
              !NoRoom(lim, rows, row.owner, at) && !NoBytes(lim, rows, row.owner, row.payload.size, at)
  {
    var before, after := LiveSizes(rows, row.owner, at), LiveSizes(rows[id := row], row.owner, at);
    EntrySizes(before, id, row.payload.size);
    assert after == before[id := row.payload.size];
  }

  lemma EntrySizes(m: map<string, nat>, id: string, size: nat)
    requires id !in m
    ensures |m[id := size]| == |m| + 1 && Sum(m[id := size]) == Sum(m) + size
  {
    SumRemove(m[id := size], id);
    assert m[id := size] - {id} == m;
  }

  // ---------- Rows and blobs ----------

  ghost predicate BlobAgrees(h: Hash, row: FileRow, blobs: Blobs) {
    && row.payload.path == row.id
    && FileKey(row.id) in blobs
    && |blobs[FileKey(row.id)]| == row.payload.size
    && h(blobs[FileKey(row.id)]) == row.payload.sha256
  }

  /** File rows and file blobs are in bijection by id, and each blob is what its row says. */
  ghost predicate RowsMatchBlobs(h: Hash, rows: Rows, blobs: Blobs) {
    && (forall id :: FileKey(id) in blobs ==> id in rows)
    && (forall id :: id in rows ==> rows[id].id == id && BlobAgrees(h, rows[id], blobs))
  }

  lemma AddBoth(h: Hash, rows: Rows, blobs: Blobs, row: FileRow, data: Bytes)
    requires RowsMatchBlobs(h, rows, blobs) && row.id !in rows
    requires row.payload.path == row.id && row.payload.size == |data| && row.payload.sha256 == h(data)
    ensures RowsMatchBlobs(h, rows[row.id := row], blobs[FileKey(row.id) := data])
  {
  }

  lemma RemoveBoth(h: Hash, rows: Rows, blobs: Blobs, id: string)
    requires RowsMatchBlobs(h, rows, blobs)
    ensures RowsMatchBlobs(h, rows - {id}, blobs - {FileKey(id)})
  {
  }

  /** Chunks come and go beside the files. */
  lemma ChunksApart(h: Hash, rows: Rows, blobs: Blobs, blobs': Blobs)
    requires RowsMatchBlobs(h, rows, blobs)
    requires forall id :: FileKey(id) in blobs <==> FileKey(id) in blobs'
    requires forall id :: FileKey(id) in blobs ==> blobs'[FileKey(id)] == blobs[FileKey(id)]
    ensures RowsMatchBlobs(h, rows, blobs')
  {
  }

  // ---------- Etags ----------

  function FileEtag(text: string -> string, sha: string, size: nat): string {
    text(sha + ":" + Digits(size))
  }

  predicate NoColon(s: string) {
    forall i :: 0 <= i < |s| ==> s[i] != ':'
  }

  /** The etag stands for the digest and the size, as far as its own digest can tell. */
  lemma FileEtagIdentity(text: string -> string, a: string, m: nat, b: string, n: nat)
    requires forall x, y :: text(x) == text(y) ==> x == y
    requires NoColon(a) && NoColon(b)
    ensures FileEtag(text, a, m) == FileEtag(text, b, n) <==> a == b && m == n
  {
    if FileEtag(text, a, m) == FileEtag(text, b, n) {
      var s, t := a + ":" + Digits(m), b + ":" + Digits(n);
      assert s[|a|] == ':' == t[|b|];
      assert forall i :: 0 <= i < |a| ==> s[i] == a[i];
      assert forall i :: 0 <= i < |b| ==> t[i] == b[i];
      assert |a| == |b|;
      assert a == s[..|a|] && b == t[..|b|];
      assert Digits(m) == s[|a| + 1..] && Digits(n) == t[|b| + 1..];
      ParseDigits(m);
      ParseDigits(n);
    }
  }
}
