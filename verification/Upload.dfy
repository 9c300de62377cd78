/** Chunked upload: the server's session, the client's loop with retries, and reassembly. */
module Upload {
  import opened Basics

  const DEFAULT_CHUNK_SIZE := 4 * 1024 * 1024
  const MAX_CHUNK_SIZE := 8 * 1024 * 1024
  const MAX_FILE_SIZE := 500 * 1024 * 1024

  function TotalChunks(size: int, chunk: int): int
    requires chunk > 0
  {
    (size + chunk - 1) / chunk
  }

  datatype InitReply = Created(chunkSize: nat, totalChunks: nat) | Conflict | BadRequest

  /** `upload_init`. `nameLength` is the length of the file name, `duplicate` says whether the user has
      an active file with this hash. */
  function UploadInit(size: int, nameLength: nat, duplicate: bool, chunkSize: Option<int>): (r: InitReply)
    ensures r.Created? <==>
              && 0 < size <= 524_288_000 && 1 <= nameLength <= 255 && !duplicate
              && (chunkSize.Some? ==> 1024 <= chunkSize.value <= 8_388_608)
    ensures r.Conflict? <==> 0 < size <= 524_288_000 && 1 <= nameLength <= 255 && duplicate
    ensures r.Created? ==>
              && r.chunkSize == (if chunkSize.Some? then chunkSize.value else 4_194_304) && r.totalChunks >= 1
              && (r.totalChunks - 1) * r.chunkSize < size <= r.totalChunks * r.chunkSize
  {
    if size <= 0 || size > MAX_FILE_SIZE then BadRequest
    else if nameLength == 0 || nameLength > 255 then BadRequest
    else if duplicate then Conflict
    else
      var chunk := if chunkSize.Some? then chunkSize.value else DEFAULT_CHUNK_SIZE;
      if chunk < 1024 || chunk > MAX_CHUNK_SIZE then BadRequest
      else
        CeilingBounds(size, chunk);
        Created(chunk, TotalChunks(size, chunk))
  }

  /** The rounded-up quotient: the last chunk is not empty, and nothing is left over. */
  lemma CeilingBounds(size: int, chunk: int)
    requires size > 0 && chunk > 0
    ensures var n := TotalChunks(size, chunk); n >= 1 && (n - 1) * chunk < size <= n * chunk
  {
    var n := TotalChunks(size, chunk);
    var r := (size + chunk - 1) % chunk;
    assert size + chunk - 1 == chunk * n + r;
    assert (n - 1) * chunk == chunk * n - chunk;
    if n <= 0 { TimesNegative(chunk, n); }
  }

  lemma TimesNegative(chunk: int, n: int)
    requires chunk > 0 && n <= 0
    ensures chunk * n <= 0
  {
  }

  // ---------- Slices ----------

  /** What the client reads for chunk `i`. */
  function Slice(data: seq<byte>, chunk: nat, i: nat): seq<byte>
    requires i * chunk <= |data|
  {
    data[i * chunk..Min((i + 1) * chunk, |data|)]
  }

  ghost predicate Covers(size: nat, chunk: nat, total: nat) {
    chunk > 0 && total >= 1 && (total - 1) * chunk < size <= total * chunk
  }

  lemma {:induction false} EarlierChunk(size: nat, chunk: nat, total: nat, i: nat)
    requires Covers(size, chunk, total) && i <= total
    ensures i < total ==> i * chunk < size
    ensures (i + 1) * chunk == i * chunk + chunk
    decreases total - i
  {
    if i + 1 < total {
      EarlierChunk(size, chunk, total, i + 1);
    }
  }

  /** The chunk files put together in order of their index, as far as they exist. */
  function Assembled(files: map<nat, seq<byte>>, n: nat): seq<byte> {
    if n == 0 then [] else Assembled(files, n - 1) + if n - 1 in files then files[n - 1] else []
  }

  predicate HoldsSlice(data: seq<byte>, chunk: nat, files: map<nat, seq<byte>>, i: nat) {
    i * chunk <= |data| && i in files && files[i] == Slice(data, chunk, i)
  }

  /** Chunk files that hold the client's slices assemble to the client's file. */
  lemma {:induction false} SlicesAssemble(data: seq<byte>, chunk: nat, total: nat, files: map<nat, seq<byte>>, n: nat)
    requires Covers(|data|, chunk, total) && n <= total
    requires forall i: nat :: i < n ==> HoldsSlice(data, chunk, files, i)
    ensures Assembled(files, n) == data[..Min(n * chunk, |data|)]
    decreases n
  {
    if n > 0 {
      SlicesAssemble(data, chunk, total, files, n - 1);
      EarlierChunk(|data|, chunk, total, n - 1);
      assert HoldsSlice(data, chunk, files, n - 1);
      OneMoreSlice(data, (n - 1) * chunk, Min(n * chunk, |data|));
    }
  }

  lemma OneMoreSlice(data: seq<byte>, a: nat, b: nat)
    requires a <= b <= |data|
    ensures data[..b] == data[..a] + data[a..b]
  {
  }

  /** Sending chunk `i` leaves its slice in its file, whatever was there. */
  function Send(data: seq<byte>, chunk: nat, files: map<nat, seq<byte>>, i: nat): map<nat, seq<byte>>
    requires i * chunk <= |data|
  {
    files[i := Slice(data, chunk, i)]
  }

  function SendAll(data: seq<byte>, chunk: nat, files: map<nat, seq<byte>>, order: seq<nat>): map<nat, seq<byte>>
    requires forall k :: 0 <= k < |order| ==> order[k] * chunk <= |data|
    decreases |order|
  {
    if order == [] then files else Send(data, chunk, SendAll(data, chunk, files, order[..|order| - 1]), order[|order| - 1])
  }

  lemma {:induction false} SentAreThere(data: seq<byte>, chunk: nat, files: map<nat, seq<byte>>, order: seq<nat>, i: nat)
    requires forall k :: 0 <= k < |order| ==> order[k] * chunk <= |data|
    requires i in order
    ensures i in SendAll(data, chunk, files, order) && i * chunk <= |data|
    ensures SendAll(data, chunk, files, order)[i] == Slice(data, chunk, i)
    decreases |order|
  {
    if order[|order| - 1] != i { SentAreThere(data, chunk, files, order[..|order| - 1], i); }
  }

  /** However the chunks are ordered and repeated, over whatever was there before: once each index was
      sent, the files assemble to the client's file. */
  lemma AnyOrderAssembles(data: seq<byte>, chunk: nat, total: nat, files: map<nat, seq<byte>>, order: seq<nat>)
    requires Covers(|data|, chunk, total)
    requires forall k :: 0 <= k < |order| ==> order[k] < total && order[k] * chunk <= |data|
    requires forall i: nat :: i < total ==> i in order
    ensures Assembled(SendAll(data, chunk, files, order), total) == data
  {
    var sent := SendAll(data, chunk, files, order);
    forall i: nat | i < total ensures HoldsSlice(data, chunk, sent, i) {
      SentAreThere(data, chunk, files, order, i);
    }
    SlicesAssemble(data, chunk, total, sent, total);
    assert data[..|data|] == data;
  }

  // ---------- Completeness by counting ----------

  function Range(n: nat): (r: set<nat>)
    ensures |r| == n && forall i: nat :: i in r <==> i < n
  {
    if n == 0 then {} else Range(n - 1) + {n - 1}
  }

  /** `n` different indexes below `n` are all of them, so comparing counts is enough. */
  lemma CountIsEnough(s: set<nat>, n: nat)
    requires forall i :: i in s ==> i < n
    ensures |s| == n <==> s == Range(n)
  {
    assert s <= Range(n);
    if s < Range(n) {
      var missing :| missing in Range(n) && missing !in s;
      SubsetIsSmaller(s, Range(n) - {missing});
    }
  }

  lemma {:induction false} SubsetIsSmaller<T>(s: set<T>, t: set<T>)
    requires s <= t
    ensures |s| <= |t|
  {
    if s != {} {
      var x :| x in s;
      SubsetIsSmaller(s - {x}, t - {x});
    }
  }

  // ---------- The server's session ----------

  datatype ChunkReply = Received(bytes: nat) | NotFound | Unauthorized | ChunkRefused
  datatype CompleteReply = Completed | NoSession | WrongUser | Incomplete | MissingChunk | HashMismatch | SizeMismatch | Duplicate

  class Session {
    const owner: string
    const fileSize: nat
    const sha: string
    const chunkSize: nat
    const total: nat
    var pending: bool
    var rows: map<nat, nat>
    var files: map<nat, seq<byte>>
    var stored: Option<seq<byte>>

    /** A row only for a chunk in range, with its file, of the size the row says. */
    ghost predicate Valid()
      reads this
    {
      && (forall i :: i in rows ==> i < total && i in files && |files[i]| == rows[i] <= chunkSize)
    }

    constructor (owner: string, fileSize: nat, sha: string, chunkSize: nat, total: nat)
      ensures Valid() && pending && rows == map[] && stored == None
      ensures this.owner == owner && this.fileSize == fileSize && this.sha == sha
      ensures this.chunkSize == chunkSize && this.total == total
    {
      this.owner, this.fileSize, this.sha, this.chunkSize, this.total := owner, fileSize, sha, chunkSize, total;
      pending, rows, files, stored := true, map[], map[], None;
    }

    /** `upload_chunk`. */
    method Receive(user: string, index: int, body: seq<byte>) returns (r: ChunkReply)
      requires Valid()
      modifies `rows, `files
      ensures Valid()
      ensures r.Received? <==> pending && user == owner && 0 <= index < total && |body| <= chunkSize
      ensures (r.NotFound? <==> !pending) && (r.Unauthorized? <==> pending && user != owner)
      ensures r.Received? ==> rows == old(rows)[index := |body|] && files == old(files)[index := body] && r.bytes == |body|
      ensures !r.Received? ==> rows == old(rows) && files == old(files)
    {
      if !pending { return NotFound; }
      if user != owner { return Unauthorized; }
      if index < 0 || index >= total { return ChunkRefused; }
      if |body| > chunkSize { return ChunkRefused; }
      files := files[index := body];
      rows := rows[index := |body|];
      return Received(|body|);
    }

    /** `upload_complete`: success means all chunks are there and their concatenation has the promised
        size and hash, and then that is what is stored; a failure changes nothing, and names the first
        thing that is wrong. A chunk file is never found missing. */
    method Complete(user: string, hash: seq<byte> -> string, duplicate: bool) returns (r: CompleteReply)
      requires Valid()
      modifies this
      ensures Valid()
      ensures var whole := Assembled(old(files), total);
              r.Completed? <==> old(pending) && user == owner && old(rows).Keys == Range(total)
                                && hash(whole) == sha && |whole| == fileSize && !duplicate
      ensures r.NoSession? <==> !old(pending)
      ensures r.WrongUser? <==> old(pending) && user != owner
      ensures var mine := old(pending) && user == owner;
              var all, whole := mine && old(rows).Keys == Range(total), Assembled(old(files), total);
              && (r.Incomplete? <==> mine && !all)
              && (r.HashMismatch? <==> all && hash(whole) != sha)
              && (r.SizeMismatch? <==> all && hash(whole) == sha && |whole| != fileSize)
              && (r.Duplicate? <==> all && hash(whole) == sha && |whole| == fileSize && duplicate)
      ensures r.Completed? ==> stored == Some(Assembled(old(files), total)) && !pending && rows == map[]
      ensures !r.Completed? ==> stored == old(stored) && pending == old(pending) && rows == old(rows) && files == old(files)
      ensures r != MissingChunk
    {
      CountIsEnough(rows.Keys, total);
      if !pending { return NoSession; }
      if user != owner { return WrongUser; }
      if |rows.Keys| != total { return Incomplete; }
      var whole: seq<byte> := [];
      for i := 0 to total
        invariant whole == Assembled(files, i)
      {
        if i !in files { assert false; return MissingChunk; }
        whole := whole + files[i];
      }
      if hash(whole) != sha { return HashMismatch; }
      if |whole| != fileSize { return SizeMismatch; }
      if duplicate { return Duplicate; }
      stored := Some(whole);
      pending := false;
      rows := map[];
      files := map[];
      return Completed;
    }
  }

  // ---------- The client ----------

  /** The first `n` chunks are at the server. */
  ghost predicate SentUpTo(files: map<nat, seq<byte>>, rows: map<nat, nat>, data: seq<byte>, chunk: nat, n: nat) {
    forall k: nat :: k < n ==> HoldsSlice(data, chunk, files, k) && k in rows
  }

  lemma SentOneMore(files: map<nat, seq<byte>>, rows: map<nat, nat>, data: seq<byte>, chunk: nat, n: nat)
    requires SentUpTo(files, rows, data, chunk, n) && n * chunk <= |data|
    ensures SentUpTo(files[n := Slice(data, chunk, n)], rows[n := |Slice(data, chunk, n)|], data, chunk, n + 1)
  {
    var files' := files[n := Slice(data, chunk, n)];
    forall k: nat | k < n + 1 ensures HoldsSlice(data, chunk, files', k) {
      if k < n { assert HoldsSlice(data, chunk, files, k); }
    }
  }

  /** The bytes of the first `n` chunks. */
  function Acknowledged(size: nat, chunk: nat, n: nat): nat {
    Min(n * chunk, size)
  }

  /** Behind the first `i` chunks the file goes on with slice `i`. */
  lemma NextSlice(data: seq<byte>, chunk: nat, total: nat, i: nat)
    requires Covers(|data|, chunk, total) && i < total
    ensures i * chunk <= |data|
    ensures var at := Acknowledged(|data|, chunk, i);
            && at <= |data|
            && data[at..Min(at + chunk, |data|)] == Slice(data, chunk, i)
            && |Slice(data, chunk, i)| <= chunk
            && Acknowledged(|data|, chunk, i + 1) == at + |Slice(data, chunk, i)|
  {
    EarlierChunk(|data|, chunk, total, i);
  }

  const MAX_RETRIES := 3

  /** Fills a chunk from the file at position `at`. A read returns at least one byte and perhaps fewer
      than asked for, as many as `some` says, and nothing only at the end of the file. */
  method ReadChunk(data: seq<byte>, at: nat, chunk: nat, some: nat -> nat) returns (buf: seq<byte>)
    requires at <= |data|
    ensures buf == data[at..Min(at + chunk, |data|)]
  {
    buf := [];
    while |buf| < chunk
      invariant |buf| <= chunk && at + |buf| <= |data| && buf == data[at..at + |buf|]
      decreases chunk - |buf|
    {
      var from := at + |buf|;
      var wanted := Min(chunk - |buf|, |data| - from);
      var n := Min(Max(some(from), 1), wanted);
      if n == 0 { break; }
      buf := buf + data[from..from + n];
    }
  }

  /** One of the attempts at a chunk, the first or a retry, gets through and back. */
  ghost predicate GetsThrough(fates: nat -> Fate) {
    exists k: nat :: k < 4 && fates(k).Delivered?
  }

  /** Sends one chunk, again up to three times after a failure; a lost reply leaves the chunk there. It
      succeeds exactly when one of the four attempts gets through and back. */
  method SendChunk(session: Session, user: string, i: nat, body: seq<byte>, fates: nat -> Fate) returns (ok: bool, received: nat)
    requires session.Valid() && session.pending && user == session.owner
    requires i < session.total && |body| <= session.chunkSize
    modifies session`rows, session`files
    ensures session.Valid()
    ensures ok <==> GetsThrough(fates)
    ensures ok ==> session.files == old(session.files)[i := body] && session.rows == old(session.rows)[i := |body|] && received == |body|
    ensures session.files == old(session.files) || session.files == old(session.files)[i := body]
  {
    var retries := 0;
    ghost var files, rows := session.files[i := body], session.rows[i := |body|];
    while true
      invariant 0 <= retries <= MAX_RETRIES && session.Valid()
      invariant forall k: nat :: k < retries ==> !fates(k).Delivered?
      invariant session.files == old(session.files) || session.files == files
      invariant session.rows == old(session.rows) || session.rows == rows
      decreases MAX_RETRIES - retries
    {
      var fate := fates(retries);
      if !fate.RequestLost? {
        var reply := session.Receive(user, i, body);
        assert session.files == files && session.rows == rows;
        if reply.Received? && fate.Delivered? { return true, reply.bytes; }
      }
      if retries >= MAX_RETRIES { return false, 0; }
      retries := retries + 1;
    }
  }

  /** The loop over the chunks: it gets to the end exactly when each chunk gets through, and then the
      session holds the slices of the file and as many bytes were acknowledged as the file has. */
  method SendChunks(session: Session, user: string, data: seq<byte>, fates: nat -> nat -> Fate, some: nat -> nat)
    returns (ok: bool, transferred: nat)
    requires session.Valid() && session.pending && user == session.owner
    requires Covers(|data|, session.chunkSize, session.total)
    modifies session`rows, session`files
    ensures session.Valid()
    ensures ok <==> forall i: nat :: i < session.total ==> GetsThrough(fates(i))
    ensures ok ==> SentUpTo(session.files, session.rows, data, session.chunkSize, session.total) && transferred == |data|
  {
    var chunk := session.chunkSize;
    transferred := 0;
    var at := 0;
    for i := 0 to session.total
      invariant session.Valid()
      invariant SentUpTo(session.files, session.rows, data, chunk, i)
      invariant forall k: nat :: k < i ==> GetsThrough(fates(k))
      invariant transferred == at == Acknowledged(|data|, chunk, i)
    {
      NextSlice(data, chunk, session.total, i);
      SentOneMore(session.files, session.rows, data, chunk, i);
      var body := ReadChunk(data, at, chunk, some);
      at := at + |body|;
      var sent, received := SendChunk(session, user, i, body, fates(i));
      if !sent { return false, transferred; }
      transferred := transferred + received;
    }
    return true, transferred;
  }

  /** `upload_file` from an open session on: every chunk in turn, then completion. It succeeds exactly when each chunk gets
      through within its four attempts, so does the one request to complete, and no other upload of
      the file came first; then the server stores exactly the client's file, and as many bytes were
      acknowledged as the file has. Lost requests and replies, short reads, and what was sent to the
      session before make no difference to what is stored. */
  method FillSession(session: Session, user: string, data: seq<byte>, hash: seq<byte> -> string, duplicate: bool,
                    fates: nat -> nat -> Fate, last: Fate, some: nat -> nat) returns (ok: bool, transferred: nat)
    requires session.Valid() && session.pending && user == session.owner
    requires Covers(|data|, session.chunkSize, session.total) && session.fileSize == |data| && session.sha == hash(data)
    modifies session
    ensures ok <==> (forall i: nat :: i < session.total ==> GetsThrough(fates(i))) && last.Delivered? && !duplicate
    ensures ok ==> session.stored == Some(data) && !session.pending && transferred == |data|
    ensures session.stored == old(session.stored) || session.stored == Some(data)
    ensures duplicate ==> session.stored == old(session.stored)
  {
    var sent;
    sent, transferred := SendChunks(session, user, data, fates, some);
    if !sent || last.RequestLost? { return false, transferred; }
    WholeFile(session, data);
    var reply := session.Complete(user, hash, duplicate);
    return reply.Completed? && last.Delivered?, transferred;
  }

  /** The request to open a session, for a file with `nameLength` characters in its name; `known` says
      whether the user has an active file with this hash. The client leaves the chunk size to the server. */
  method OpenSession(user: string, nameLength: nat, data: seq<byte>, sha: string, known: bool, fate: Fate)
    returns (session: Option<Session>, told: bool)
    ensures session.Some? <==> !fate.RequestLost? && UploadInit(|data|, nameLength, known, None).Created?
    ensures told <==> session.Some? && fate.Delivered?
    ensures session.Some? ==>
              && fresh(session.value) && session.value.Valid() && session.value.pending && session.value.stored == None
              && session.value.owner == user && session.value.fileSize == |data| && session.value.sha == sha
              && session.value.chunkSize == 4_194_304
              && Covers(|data|, session.value.chunkSize, session.value.total)
  {
    if fate.RequestLost? { return None, false; }
    var reply := UploadInit(|data|, nameLength, known, None);
    if !reply.Created? { return None, false; }
    var created := new Session(user, |data|, sha, reply.chunkSize, reply.totalChunks);
    return Some(created), fate.Delivered?;
  }

  /** `upload_file`: open a session, send every chunk in turn, complete. It succeeds exactly when the file
      and its name are of legal size, no active file has its hash, before or at the end, the requests to
      open and to complete get through and back, and each chunk does within its four attempts. Then the
      session stores exactly the client's file; in any case it stores that or nothing. */
  method UploadFile(user: string, nameLength: nat, data: seq<byte>, hash: seq<byte> -> string, known: bool, duplicate: bool,
                    first: Fate, fates: nat -> nat -> Fate, last: Fate, some: nat -> nat)
    returns (ok: bool, transferred: nat, session: Option<Session>)
    ensures ok <==>
              && 0 < |data| <= 524_288_000 && 1 <= nameLength <= 255 && !known && !duplicate
              && first.Delivered? && last.Delivered?
              && forall i: nat :: i * 4_194_304 < |data| ==> GetsThrough(fates(i))
    ensures ok ==> session.Some? && session.value.stored == Some(data) && transferred == |data|
    ensures session.Some? ==> fresh(session.value) && (session.value.stored == None || session.value.stored == Some(data))
  {
    var told;
    session, told := OpenSession(user, nameLength, data, hash(data), known, first);
    if !told { return false, 0, session; }
    ok, transferred := FillSession(session.value, user, data, hash, duplicate, fates, last, some);
  }

  lemma WholeFile(session: Session, data: seq<byte>)
    requires session.Valid() && Covers(|data|, session.chunkSize, session.total) && SentUpTo(session.files, session.rows, data, session.chunkSize, session.total)
    ensures Assembled(session.files, session.total) == data
    ensures session.rows.Keys == Range(session.total)
  {
    SlicesAssemble(data, session.chunkSize, session.total, session.files, session.total);
    assert data[..|data|] == data;
  }
}
