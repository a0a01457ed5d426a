/** The request-body lifecycle (common/gin.go) over storages shared by all requests of a server.

    A pointer to a storage is its index among all storages ever created.  Disk capacity, disk
    failures, the decoder's verdict and what a closed network stream still yields are parameters. */
module RequestBody {
  import opened Framing
  import opened Options
  import opened BodyStorage

  /** Request.Body: the network stream, an independent reader over a storage, the storage behind a
      no-op closer, the storage itself, or http.NoBody. */
  datatype Body =
    | Stream(data: Bytes, broken: bool)
    | Reader(source: nat)
    | Shared(source: nat)
    | Held(source: nat)
    | NoBody

  datatype Request = Request(storage: Option<nat>, cached: Option<Bytes>, body: Body, getBody: Option<nat>, length: int)

  /** The cache configuration of one decision, the usage it sees, and whether the file can be
      created and opened again. */
  datatype Disk = Disk(enabled: bool, thresholdMB: int, maxSizeMB: int, usage: int, created: bool, opens: bool)

  function Megabytes(n: int): int {
    n * 0x10_0000
  }

  const DEFAULT_MAX_MB := 128

  predicate ChoosesDisk(d: Disk, size: int) {
    d.enabled && size >= Megabytes(d.thresholdMB) && d.usage + size <= Megabytes(d.maxSizeMB)
  }

  /** CreateBodyStorage: on disk when chosen and the file could be created, else in memory. */
  predicate Placed(d: Disk, data: Bytes) {
    ChoosesDisk(d, |data|) && d.created
  }

  datatype Loaded = Loaded(bytes: Bytes) | TooLarge | Failed

  function MaxBytes(maxMB: int): int {
    Megabytes(if maxMB <= 0 then DEFAULT_MAX_MB else maxMB)
  }

  /** What a first read of the body yields. */
  function FromBody(body: Body, length: int, maxMB: int, d: Disk): Loaded {
    var data := if body.Stream? then body.data else [];
    if length > 0 && ChoosesDisk(d, length) && !d.created then Failed
    else if |data| > MaxBytes(maxMB) then TooLarge
    else if body.Stream? && body.broken then Failed
    else Loaded(data)
  }

  /** The payload a request has: that of its storage, else the cached bytes, else the body. */
  function Payload(storages: seq<Storage>, r: Request, maxMB: int, d: Disk): Loaded
    requires r.storage.Some? ==> r.storage.value < |storages|
  {
    match r.storage
    case Some(i) => if storages[i].closed then Failed else Loaded(storages[i].content)
    case None => if r.cached.Some? then Loaded(r.cached.value) else FromBody(r.body, r.length, maxMB, d)
  }

  /** An open storage comes first, cached bytes next, and the body is read only without both. */
  lemma PayloadMeans(storages: seq<Storage>, r: Request, maxMB: int, d: Disk)
    requires r.storage.Some? ==> r.storage.value < |storages|
    ensures var p := Payload(storages, r, maxMB, d);
      && (r.storage.Some? && !storages[r.storage.value].closed ==> p == Loaded(storages[r.storage.value].content))
      && (r.storage.Some? && storages[r.storage.value].closed ==> p == Failed)
      && (r.storage.None? && r.cached.Some? ==> p == Loaded(r.cached.value))
      && (r.storage.None? && r.cached.None? ==> p == FromBody(r.body, r.length, maxMB, d))
  {
  }

  /** The placement in numbers: bytes against megabytes of 1,048,576. */
  lemma PlacedExactly(d: Disk, data: Bytes)
    ensures Placed(d, data) <==>
      && d.enabled && d.created && |data| >= 1048576 * d.thresholdMB && d.usage + |data| <= 1048576 * d.maxSizeMB
  {
  }

  /** The outcome of a first read in numbers: a file that cannot be created fails first, then too many
      bytes, then a broken stream; 128 MB without a configured limit. */
  lemma FromBodyExactly(body: Body, length: int, maxMB: int, d: Disk)
    ensures var data := if body.Stream? then body.data else [];
      var fits := length >= 1048576 * d.thresholdMB && d.usage + length <= 1048576 * d.maxSizeMB;
      var streams := length > 0 && d.enabled && fits;
      var max := if maxMB > 0 then 1048576 * maxMB else 134217728;
      var r := FromBody(body, length, maxMB, d);
      && (r == TooLarge <==> !(streams && !d.created) && |data| > max)
      && (r == Loaded(data) <==> !(streams && !d.created) && |data| <= max && !(body.Stream? && body.broken))
      && (r == TooLarge || r == Failed || r == Loaded(data))
  {
  }

  // ----- totals over all storages -----

  function Total(weight: Storage -> nat, s: seq<Storage>): nat {
    if s == [] then 0 else Total(weight, s[..|s| - 1]) + weight(s[|s| - 1])
  }

  function Buffer(s: Storage): nat {
    if s.closed || s.disk then 0 else 1
  }

  function BufferBytes(s: Storage): nat {
    if s.closed || s.disk then 0 else |s.content|
  }

  lemma {:induction false} TotalUpdate(weight: Storage -> nat, s: seq<Storage>, i: nat, x: Storage)
    requires i < |s|
    ensures Total(weight, s[i := x]) == Total(weight, s) - weight(s[i]) + weight(x)
  {
    var n := |s| - 1;
    if i == n {
      assert s[i := x][..n] == s[..n];
    } else {
      TotalUpdate(weight, s[..n], i, x);
      assert s[i := x][..n] == s[..n][i := x];
    }
  }

  lemma TotalAppend(weight: Storage -> nat, s: seq<Storage>, x: Storage)
    ensures Total(weight, s + [x]) == Total(weight, s) + weight(x)
  {
    assert (s + [x])[..|s|] == s;
  }

  lemma TotalAppendNothing(s: seq<Storage>, x: Storage)
    requires x.closed
    ensures Total(Buffer, s + [x]) == Total(Buffer, s) && Total(BufferBytes, s + [x]) == Total(BufferBytes, s)
  {
    TotalAppend(Buffer, s, x);
    TotalAppend(BufferBytes, s, x);
  }

  lemma {:induction false} TotalZero(weight: Storage -> nat, s: seq<Storage>)
    requires forall i :: 0 <= i < |s| ==> weight(s[i]) == 0
    ensures Total(weight, s) == 0
  {
    if s != [] { TotalZero(weight, s[..|s| - 1]); }
  }

  // ----- who holds what -----

  /** Every way to replay the body leads to the storage in the context. */
  predicate Consistent(r: Request) {
    && (r.getBody.Some? ==> r.getBody == r.storage)
    && (r.body.Reader? || r.body.Shared? || r.body.Held? ==> r.storage == Some(r.body.source))
  }

  /** A storage has one owner for life; an open one is in its owner's context. */
  ghost predicate Coherent(storages: seq<Storage>, owner: seq<nat>, requests: seq<Request>) {
    && |owner| == |storages|
    && (forall i :: 0 <= i < |storages| && !storages[i].closed ==>
          owner[i] < |requests| && requests[owner[i]].storage == Some(i))
    && (forall q :: 0 <= q < |requests| ==> Consistent(requests[q]))
    && (forall q :: 0 <= q < |requests| && requests[q].storage.Some? ==>
          requests[q].storage.value < |storages| && owner[requests[q].storage.value] == q)
  }

  /** No storage disappears, changes its payload or opens again. */
  ghost predicate Grows(before: seq<Storage>, after: seq<Storage>) {
    && |before| <= |after|
    && forall i :: 0 <= i < |before| ==>
         && after[i].content == before[i].content && after[i].disk == before[i].disk
         && (before[i].closed ==> after[i].closed)
  }

  /** Open, at its start, with this payload. */
  predicate Ready(s: Storage, payload: Bytes) {
    !s.closed && s.pos == 0 && s.content == payload
  }

  predicate Serves(storages: seq<Storage>, r: Request, payload: Bytes) {
    r.storage.Some? && r.storage.value < |storages| && Ready(storages[r.storage.value], payload)
  }

  /** Body, GetBody and ContentLength all speak of the context's storage. */
  predicate Restored(r: Request, size: nat) {
    r.storage.Some? && r.body == Reader(r.storage.value) && r.getBody == r.storage && r.length == size
  }

  /** The context's storage, if any, is closed. */
  predicate LetGo(storages: seq<Storage>, r: Request) {
    r.storage.Some? ==> r.storage.value < |storages| && storages[r.storage.value].closed
  }

  lemma Adopts(storages: seq<Storage>, owner: seq<nat>, requests: seq<Request>, q: nat, x: Storage, r: Request)
    requires Coherent(storages, owner, requests) && q < |requests| && LetGo(storages, requests[q])
    requires r.storage == Some(|storages|) && Consistent(r)
    ensures Coherent(storages + [x], owner + [q], requests[q := r])
  {
  }

  lemma Releases(storages: seq<Storage>, owner: seq<nat>, requests: seq<Request>, q: nat, r: Request)
    requires Coherent(storages, owner, requests) && q < |requests| && LetGo(storages, requests[q])
    requires r.storage == None && Consistent(r)
    ensures Coherent(storages, owner, requests[q := r])
  {
  }

  /** The storages with the given one closed. */
  function Close1(storages: seq<Storage>, at: Option<nat>): seq<Storage>
    requires at.Some? ==> at.value < |storages|
  {
    if at.None? then storages else storages[at.value := storages[at.value].(closed := true)]
  }

  lemma Closes(storages: seq<Storage>, owner: seq<nat>, requests: seq<Request>, q: nat)
    requires Coherent(storages, owner, requests) && q < |requests|
    ensures var after := Close1(storages, requests[q].storage);
      Coherent(after, owner, requests) && LetGo(after, requests[q]) && Grows(storages, after)
  {
  }

  /** A storage that was closed before any context saw it. */
  lemma Discards(storages: seq<Storage>, owner: seq<nat>, requests: seq<Request>, q: nat, x: Storage)
    requires Coherent(storages, owner, requests) && x.closed
    ensures Coherent(storages + [x], owner + [q], requests)
  {
  }

  lemma Steps(storages: seq<Storage>, owner: seq<nat>, requests: seq<Request>, i: nat, call: Call)
    requires Coherent(storages, owner, requests) && i < |storages|
    ensures var after := storages[i := Perform(storages[i], call).next];
      Coherent(after, owner, requests) && Grows(storages, after)
  {
    FileBytesWhole(storages[i]);
  }

  lemma AllClosed(storages: seq<Storage>, owner: seq<nat>, requests: seq<Request>)
    requires Coherent(storages, owner, requests)
    requires forall q :: 0 <= q < |requests| ==> requests[q].storage == None
    ensures forall i :: 0 <= i < |storages| ==> storages[i].closed
  {
  }

  lemma CloseAppended(storages: seq<Storage>, x: Storage)
    ensures Close1(storages + [x], Some(|storages|)) == storages + [x.(closed := true)]
  {
  }

  lemma CloseThenAppend(storages: seq<Storage>, at: Option<nat>, x: Storage)
    requires at.Some? ==> at.value < |storages|
    ensures Close1(storages + [x], at) == Close1(storages, at) + [x]
  {
  }

  /** The context after a replacement by storage i. */
  function Replaced(i: nat, size: nat): Request {
    Request(Some(i), None, Reader(i), Some(i), size)
  }

  /** What can happen: a request arrives, with or without cached bytes; the operations of this file;
      a call on the storage itself, Close included; a handler making the storage the body. */
  datatype Event =
    | Arrive(data: Bytes, broken: bool, length: int, cached: Option<Bytes>)
    | Get(q: nat, maxMB: int, d: Disk, after: Bytes, broken: bool)
    | Replace(q: nat, data: Bytes, d: Disk)
    | Decode(q: nat, maxMB: int, d: Disk, after: Bytes, broken: bool, json: bool, decodes: bool, consumed: nat)
    | Clean(q: nat)
    | Direct(q: nat, call: Call)
    | Attach(q: nat, held: bool)

  const RELEASED := Request(None, None, NoBody, None, 0)

  class Server {
    var storages: seq<Storage>
    var requests: seq<Request>
    var buffers: int
    var bytes: int
    ghost var owner: seq<nat>

    /** The counters are the number and total size of the open memory buffers. */
    ghost predicate Counted()
      reads this
    {
      buffers == Total(Buffer, storages) && bytes == Total(BufferBytes, storages)
    }

    ghost predicate Valid()
      reads this
    {
      Counted() && Coherent(storages, owner, requests)
    }

    constructor ()
      ensures Valid() && storages == [] && requests == []
    {
      storages, requests, buffers, bytes, owner := [], [], 0, 0, [];
    }

    method Arrive(r: Request) returns (q: nat)
      requires Valid() && r.storage == None && Consistent(r)
      modifies this
      ensures Valid() && q == |old(requests)| && requests == old(requests) + [r] && storages == old(storages)
    {
      q := |requests|;
      requests := requests + [r];
    }

    // ----- storages -----

    /** A new storage of either kind; only memory is counted here. */
    method Add(data: Bytes, disk: bool) returns (i: nat)
      requires Counted()
      modifies this`storages, this`buffers, this`bytes
      ensures Counted() && i == |old(storages)|
      ensures storages == old(storages) + [Storage(data, disk, 0, false)]
    {
      i := |storages|;
      if !disk { buffers, bytes := buffers + 1, bytes + |data|; }
      var x := Storage(data, disk, 0, false);
      TotalAppend(Buffer, storages, x);
      TotalAppend(BufferBytes, storages, x);
      storages := storages + [x];
    }

    /** One call on a storage; only the first Close of a memory storage counts. */
    method Call(i: nat, call: Call) returns (answer: Answer)
      requires Counted() && i < |storages|
      modifies this`storages, this`buffers, this`bytes
      ensures Counted() && answer == Perform(old(storages)[i], call).answer
      ensures storages == old(storages)[i := Perform(old(storages)[i], call).next]
    {
      var s := storages[i];
      var step := Perform(s, call);
      if call.Close? && !s.closed && !s.disk { buffers, bytes := buffers - 1, bytes - |s.content|; }
      FileBytesWhole(s);
      TotalUpdate(Buffer, storages, i, step.next);
      TotalUpdate(BufferBytes, storages, i, step.next);
      storages := storages[i := step.next];
      return step.answer;
    }

    method CloseStorage(i: nat)
      requires Counted() && i < |storages|
      modifies this`storages, this`buffers, this`bytes
      ensures Counted() && storages == Close1(old(storages), Some(i))
    {
      var _ := Call(i, BodyStorage.Close);
    }

    /** closeRequestBodyResources. */
    method CloseResources(body: Body, storage: Option<nat>)
      requires Counted() && (storage.Some? ==> storage.value < |storages|)
      requires body.Held? ==> storage == Some(body.source)
      modifies this`storages, this`buffers, this`bytes
      ensures Counted() && storages == Close1(old(storages), storage)
    {
      if body.Held? { CloseStorage(body.source); }
      if storage.None? || body == Held(storage.value) { return; }
      CloseStorage(storage.value);
    }

    // ----- request bodies -----

    /** One call, of any kind, on the storage in a context. */
    method Use(q: nat, call: Call) returns (answer: Answer)
      requires Valid() && q < |requests| && requests[q].storage.Some?
      modifies this`storages, this`buffers, this`bytes
      ensures Valid() && Grows(old(storages), storages)
      ensures var i := requests[q].storage.value;
        var step := Perform(old(storages)[i], call);
        answer == step.answer && storages == old(storages)[i := step.next]
    {
      Steps(storages, owner, requests, requests[q].storage.value, call);
      answer := Call(requests[q].storage.value, call);
    }

    /** Seek to a position from the start. */
    method Rewind(q: nat, at: nat) returns (open: bool)
      requires Valid() && q < |requests| && requests[q].storage.Some?
      modifies this`storages, this`buffers, this`bytes
      ensures Valid() && Grows(old(storages), storages)
      ensures var i := requests[q].storage.value;
        var s := old(storages)[i];
        open == !s.closed && storages == if open then old(storages)[i := s.(pos := at)] else old(storages)
    {
      var answer := Use(q, Seek(at, Start));
      return !answer.Closed?;
    }

    /** GetRequestBody: the context's storage rewound, or a new one from the cached bytes or the body;
        `after` is what the closed stream would still yield. */
    method GetRequestBody(q: nat, maxMB: int, d: Disk, after: Body) returns (loaded: Loaded)
      requires Valid() && q < |requests| && after.Stream?
      modifies this
      ensures Valid() && Grows(old(storages), storages)
      ensures loaded == Payload(old(storages), old(requests)[q], maxMB, d)
      ensures |requests| == |old(requests)| && requests == old(requests)[q := requests[q]]
      ensures loaded.Loaded? ==> Serves(storages, requests[q], loaded.bytes)
    {
      if requests[q].storage.Some? {
        var open := Rewind(q, 0);
        return if !open then Failed else Loaded(storages[requests[q].storage.value].content);
      }
      loaded := Load(q, maxMB, d, after);
    }

    /** The part of GetRequestBody for a context without a storage. */
    method Load(q: nat, maxMB: int, d: Disk, after: Body) returns (loaded: Loaded)
      requires Valid() && q < |requests| && requests[q].storage == None && after.Stream?
      modifies this
      ensures Valid() && Grows(old(storages), storages)
      ensures loaded == Payload(old(storages), old(requests)[q], maxMB, d)
      ensures |requests| == |old(requests)| && requests == old(requests)[q := requests[q]]
      ensures loaded.Loaded? ==> Serves(storages, requests[q], loaded.bytes)
    {
      var r := requests[q];
      if r.cached.Some? {
        var _ := AdoptNew(q, r.cached.value, Placed(d, r.cached.value));
        return Loaded(r.cached.value);
      }
      SetBody(q, after);
      loaded := FromStream(q, r.body, r.length, maxMB, d);
    }

    /** CreateBodyStorageFromReader. */
    method FromStream(q: nat, body: Body, length: int, maxMB: int, d: Disk) returns (loaded: Loaded)
      requires Valid() && q < |requests| && requests[q].storage == None
      modifies this
      ensures Valid() && Grows(old(storages), storages)
      ensures loaded == FromBody(body, length, maxMB, d)
      ensures |requests| == |old(requests)| && requests == old(requests)[q := requests[q]]
      ensures loaded.Loaded? ==> Serves(storages, requests[q], loaded.bytes)
    {
      var disk;
      loaded, disk := ReadBody(body, length, maxMB, d);
      if loaded.Loaded? { var _ := AdoptNew(q, loaded.bytes, disk); }
    }

    /** What the stream yields, and whether it goes to disk. */
    static method ReadBody(body: Body, length: int, maxMB: int, d: Disk) returns (loaded: Loaded, disk: bool)
      ensures loaded == FromBody(body, length, maxMB, d)
      ensures loaded.Loaded? ==> disk == ((length > 0 && ChoosesDisk(d, length)) || Placed(d, loaded.bytes))
    {
      var streamed := length > 0 && ChoosesDisk(d, length);
      if streamed && !d.created { return Failed, false; }
      var data := if body.Stream? then body.data else [];
      if |data| > MaxBytes(maxMB) { return TooLarge, false; }
      if body.Stream? && body.broken { return Failed, false; }
      return Loaded(data), streamed || Placed(d, data);
    }

    method SetBody(q: nat, body: Body)
      requires Valid() && q < |requests| && Consistent(requests[q].(body := body))
      modifies this`requests
      ensures Valid() && requests == old(requests)[q := old(requests)[q].(body := body)]
    {
      requests := requests[q := requests[q].(body := body)];
    }

    /** A new storage put into a context that has none. */
    method AdoptNew(q: nat, data: Bytes, disk: bool) returns (i: nat)
      requires Valid() && q < |requests| && requests[q].storage == None
      modifies this
      ensures Valid() && i == |old(storages)|
      ensures storages == old(storages) + [Storage(data, disk, 0, false)]
      ensures requests == old(requests)[q := old(requests)[q].(storage := Some(i))]
    {
      var r := requests[q].(storage := Some(|storages|));
      Adopts(storages, owner, requests, q, Storage(data, disk, 0, false), r);
      i := Add(data, disk);
      owner := owner + [q];
      requests := requests[q := r];
    }

    /** ReplaceRequestBody: all replay paths move to a new storage and the previous one is closed, or,
        when the new one cannot be opened for reading, nothing changes. */
    method ReplaceRequestBody(q: nat, data: Bytes, d: Disk) returns (ok: bool)
      requires Valid() && q < |requests|
      modifies this
      ensures Valid() && Grows(old(storages), storages) && ok == (Placed(d, data) ==> d.opens)
      ensures ok ==>
        && requests == old(requests)[q := Replaced(|old(storages)|, |data|)]
        && storages == Close1(old(storages), old(requests)[q].storage) + [Storage(data, Placed(d, data), 0, false)]
      ensures ok ==> Restored(requests[q], |data|) && Serves(storages, requests[q], data)
      ensures !ok ==>
        && requests == old(requests) && buffers == old(buffers) && bytes == old(bytes)
        && storages == old(storages) + [Storage(data, true, 0, true)]
    {
      if Placed(d, data) && !d.opens {
        Discard(q, data);
        return false;
      }
      Swap(q, data, Placed(d, data));
      return true;
    }

    /** The failing path: the new disk storage is closed before anything refers to it. */
    method Discard(q: nat, data: Bytes)
      requires Valid()
      modifies this
      ensures Valid() && requests == old(requests) && buffers == old(buffers) && bytes == old(bytes)
      ensures storages == old(storages) + [Storage(data, true, 0, true)]
    {
      ghost var owners := owner + [q];
      Discards(storages, owner, requests, q, Storage(data, true, 0, true));
      AddClosed(data);
      owner := owners;
    }

    method AddClosed(data: Bytes)
      requires Counted()
      modifies this`storages, this`buffers, this`bytes
      ensures Counted() && storages == old(storages) + [Storage(data, true, 0, true)]
      ensures buffers == old(buffers) && bytes == old(bytes)
    {
      TotalAppendNothing(storages, Storage(data, true, 0, true));
      CloseAppended(storages, Storage(data, true, 0, false));
      var i := Add(data, true);
      CloseStorage(i);
    }

    method Swap(q: nat, data: Bytes, disk: bool)
      requires Valid() && q < |requests|
      modifies this
      ensures Valid() && requests == old(requests)[q := Replaced(|old(storages)|, |data|)]
      ensures storages == Close1(old(storages), old(requests)[q].storage) + [Storage(data, disk, 0, false)]
    {
      var r, before, x := requests[q], storages, Storage(data, disk, 0, false);
      Closes(before, owner, requests, q);
      Adopts(Close1(before, r.storage), owner, requests, q, x, Replaced(|before|, |data|));
      var i := Add(data, disk);
      requests := requests[q := Replaced(i, |data|)];
      owner := owner + [q];
      CloseResources(r.body, r.storage);
      CloseThenAppend(before, r.storage, x);
    }

    /** restoreRequestBodyFromStorage with the context's own storage. */
    method RestoreRequestBody(q: nat, opens: bool) returns (ok: bool)
      requires Valid() && q < |requests| && requests[q].storage.Some?
      modifies this`requests
      ensures Valid()
      ensures var r := old(requests)[q]; var s := storages[r.storage.value];
        && ok == (!s.closed && (s.disk ==> opens))
        && requests == if !ok then old(requests) else
             old(requests)[q := Request(r.storage, r.cached, Reader(r.storage.value), r.storage, |s.content|)]
    {
      var r := requests[q];
      var i := r.storage.value;
      var s := storages[i];
      if s.closed || (s.disk && !opens) { return false; }
      requests := requests[q := r.(body := Reader(i), getBody := Some(i), length := |s.content|)];
      // The previous body is never another storage, so closing it closes no storage.
      return true;
    }

    /** UnmarshalBodyReusable: the decoder sees the whole payload, streamed from a disk storage or as
        one slice, and the body is restored; `consumed` is where a failing streamed decode stopped. */
    method Unmarshal(q: nat, maxMB: int, d: Disk, after: Body, json: bool, decodes: bool, consumed: nat)
      returns (ok: bool, seen: Option<Bytes>)
      requires Valid() && q < |requests| && after.Stream?
      modifies this
      ensures Valid() && Grows(old(storages), storages)
      ensures |requests| == |old(requests)| && requests == old(requests)[q := requests[q]]
      ensures var loaded := Payload(old(storages), old(requests)[q], maxMB, d);
        seen == if loaded.Loaded? then Some(loaded.bytes) else None
      ensures ok ==> seen.Some? && decodes
      ensures ok ==> Serves(storages, requests[q], seen.value) && Restored(requests[q], |seen.value|)
    {
      var loaded := GetRequestBody(q, maxMB, d, after);
      if !loaded.Loaded? { return false, None; }
      var payload := Decode(q, json, loaded.bytes, consumed);
      seen := Some(payload);
      if !decodes { return false, seen; }
      ok := Reset(q, loaded.bytes, d.opens);
    }

    /** Rewinds the storage and restores the body from it. */
    method Reset(q: nat, ghost bytes: Bytes, opens: bool) returns (ok: bool)
      requires Valid() && q < |requests| && requests[q].storage.Some?
      requires storages[requests[q].storage.value].content == bytes
      modifies this
      ensures Valid() && Grows(old(storages), storages)
      ensures |requests| == |old(requests)| && requests == old(requests)[q := requests[q]]
      ensures ok ==> Serves(storages, requests[q], bytes) && Restored(requests[q], |bytes|)
    {
      var _ := Rewind(q, 0);
      ok := RestoreRequestBody(q, opens);
    }

    /** What the decoder is given. */
    method Decode(q: nat, json: bool, ghost bytes: Bytes, consumed: nat) returns (seen: Bytes)
      requires Valid() && q < |requests| && Serves(storages, requests[q], bytes)
      modifies this`storages, this`buffers, this`bytes
      ensures Valid() && Grows(old(storages), storages) && seen == bytes
    {
      var i := requests[q].storage.value;
      if storages[i].disk && json {
        var _ := Rewind(q, 0);
        seen := storages[i].content[storages[i].pos..];
        var _ := Rewind(q, consumed);
      } else {
        FileBytesWhole(storages[i]);
        var answer := Use(q, GetBytes);
        seen := answer.bytes;
      }
    }

    /** CleanupBodyStorage. */
    method Cleanup(q: nat)
      requires Valid() && q < |requests|
      modifies this
      ensures Valid() && Grows(old(storages), storages)
      ensures storages == Close1(old(storages), old(requests)[q].storage)
      ensures requests == old(requests)[q := RELEASED]
    {
      var r := requests[q];
      Closes(storages, owner, requests, q);
      Releases(Close1(storages, r.storage), owner, requests, q, RELEASED);
      requests := requests[q := RELEASED];
      CloseResources(r.body, r.storage);
    }

    /** A handler makes the storage, if any, the body, bare or behind a no-op closer. */
    method AttachStorage(q: nat, held: bool)
      requires Valid() && q < |requests|
      modifies this`requests
      ensures Valid() && |requests| == |old(requests)|
    {
      if requests[q].storage.Some? {
        var i := requests[q].storage.value;
        SetBody(q, if held then Held(i) else Shared(i));
      }
    }

    // ----- whole runs -----

    method Handle(e: Event)
      requires Valid()
      modifies this
      ensures Valid() && Grows(old(storages), storages) && |requests| >= |old(requests)|
    {
      if e.Arrive? {
        var _ := Arrive(Request(None, e.cached, Stream(e.data, e.broken), None, e.length));
      } else if e.q < |requests| {
        match e {
          case Get(q, maxMB, d, after, broken) => var _ := GetRequestBody(q, maxMB, d, Stream(after, broken));
          case Replace(q, data, d) => var _ := ReplaceRequestBody(q, data, d);
          case Decode(q, maxMB, d, after, broken, json, decodes, consumed) =>
            var _, _ := Unmarshal(q, maxMB, d, Stream(after, broken), json, decodes, consumed);
          case Clean(q) => Cleanup(q);
          case Direct(q, call) => if requests[q].storage.Some? { var _ := Use(q, call); }
          case Attach(q, held) => AttachStorage(q, held);
        }
      }
    }

    /** Every interleaving of any number of requests keeps the counters exact and the storages owned. */
    method Serve(events: seq<Event>)
      requires Valid()
      modifies this
      ensures Valid() && Grows(old(storages), storages)
    {
      for k := 0 to |events|
        invariant Valid() && Grows(old(storages), storages)
      {
        Handle(events[k]);
      }
    }

    /** After any run, once every request has been cleaned up no storage is open and nothing is counted. */
    method Drain(events: seq<Event>)
      requires Valid()
      modifies this
      ensures Valid() && forall i :: 0 <= i < |storages| ==> storages[i].closed
      ensures buffers == 0 && bytes == 0
    {
      Serve(events);
      var n := |requests|;
      for q := 0 to n
        invariant Valid() && |requests| == n
        invariant forall p :: 0 <= p < q ==> requests[p].storage == None
      {
        Cleanup(q);
      }
      AllClosed(storages, owner, requests);
      TotalZero(Buffer, storages);
      TotalZero(BufferBytes, storages);
    }
  }
}
