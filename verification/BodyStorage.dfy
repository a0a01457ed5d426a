/** Request-body storages (common/body_storage.go): a memory buffer and a cache file behind one
    interface, and how far a caller can tell them apart. */
module BodyStorage {
  import opened Framing

  /** A storage: its payload, its own cursor, and whether it has been closed. */
  datatype Storage = Storage(content: Bytes, disk: bool, pos: nat, closed: bool)

  datatype Whence = Start | Current | End

  datatype Call = Read(n: nat) | Seek(offset: int, whence: Whence) | GetBytes | NewReader | Size | Close

  datatype Answer =
    | Data(bytes: Bytes)
    | EndOfFile
    | Position(at: nat)
    | NegativePosition
    | Replay(from: Bytes)
    | Length(n: nat)
    | Closed
    | Done

  datatype Step = Step(answer: Answer, next: Storage)

  function Min(a: nat, b: nat): nat {
    if a < b then a else b
  }

  /** The bytes a read of n takes at the cursor. */
  function Chunk(s: Storage, n: nat): Bytes
    requires s.pos <= |s.content|
  {
    s.content[s.pos..Min(s.pos + n, |s.content|)]
  }

  /** bytes.Reader.Read looks for the end first. */
  function BufferRead(s: Storage, n: nat): Step {
    if s.pos >= |s.content| then Step(EndOfFile, s)
    else Step(Data(Chunk(s, n)), s.(pos := Min(s.pos + n, |s.content|)))
  }

  /** os.File.Read answers an empty read before it looks at the file. */
  function FileRead(s: Storage, n: nat): Step {
    if n == 0 then Step(Data([]), s)
    else if s.pos >= |s.content| then Step(EndOfFile, s)
    else Step(Data(Chunk(s, n)), s.(pos := Min(s.pos + n, |s.content|)))
  }

  /** Both kinds move their cursor alike, also beyond the end. */
  function SeekTo(s: Storage, offset: int, whence: Whence): Step {
    var at := offset + (match whence case Start => 0 case Current => s.pos case End => |s.content|);
    if at < 0 then Step(NegativePosition, s) else Step(Position(at), s.(pos := at))
  }

  /** diskStorage.Bytes: remember the cursor, go to the start, read the recorded size, go back. */
  function FileBytes(s: Storage): Step {
    var rewound := SeekTo(s, 0, Start).next;
    var read := FileRead(rewound, |s.content|);
    Step(read.answer, SeekTo(read.next, s.pos, Start).next)
  }

  function Perform(s: Storage, call: Call): Step {
    match call
    case Size => Step(Length(|s.content|), s)
    case Close => Step(Done, s.(closed := true))
    case _ =>
      if s.closed then Step(Closed, s)
      else match call
        case Read(n) => if s.disk then FileRead(s, n) else BufferRead(s, n)
        case Seek(offset, whence) => SeekTo(s, offset, whence)
        case GetBytes => if s.disk then FileBytes(s) else Step(Data(s.content), s)
        case _ => Step(Replay(s.content), s)
  }

  /** Everything a caller sees over a run of calls. */
  function Answers(s: Storage, calls: seq<Call>): (answers: seq<Answer>)
    ensures |answers| == |calls|
    decreases |calls|
  {
    if calls == [] then []
    else
      var step := Perform(s, calls[0]);
      [step.answer] + Answers(step.next, calls[1..])
  }

  /** An empty read on an open storage with nothing left. */
  predicate EmptyReadAtEnd(s: Storage, call: Call) {
    call == Read(0) && !s.closed && s.pos >= |s.content|
  }

  /** No call of the run is one. */
  predicate Tactful(s: Storage, calls: seq<Call>)
    decreases |calls|
  {
    calls == [] || (!EmptyReadAtEnd(s, calls[0]) && Tactful(Perform(s, calls[0]).next, calls[1..]))
  }

  function OnDisk(s: Storage): Storage {
    s.(disk := true)
  }

  lemma SameStep(s: Storage, call: Call)
    requires !s.disk
    ensures Perform(OnDisk(s), call).next == OnDisk(Perform(s, call).next) && !Perform(s, call).next.disk
    ensures Perform(OnDisk(s), call).answer == Perform(s, call).answer <==> !EmptyReadAtEnd(s, call)
  {
    if call.GetBytes? && !s.closed {
      var read := FileRead(OnDisk(s).(pos := 0), |s.content|);
      if s.content != [] { assert s.content[0..|s.content|] == s.content; }
    }
  }

  /** A memory and a disk storage of one payload give the same answers over a whole run of calls
      exactly when the run never makes an empty read at the end. */
  lemma {:induction false} IndistinguishableExactly(s: Storage, calls: seq<Call>)
    requires !s.disk
    ensures Answers(OnDisk(s), calls) == Answers(s, calls) <==> Tactful(s, calls)
    decreases |calls|
  {
    if calls != [] {
      var call, rest := calls[0], calls[1..];
      var a, b := Perform(OnDisk(s), call), Perform(s, call);
      SameStep(s, call);
      IndistinguishableExactly(b.next, rest);
      var x, y := Answers(OnDisk(s), calls), Answers(s, calls);
      assert x[0] == a.answer && y[0] == b.answer;
      assert x[1..] == Answers(a.next, rest) && y[1..] == Answers(b.next, rest);
    }
  }

  /** Whatever was read, sought or closed in between, Bytes and every replay reader give the whole
      payload from its start, and after Close nothing does. */
  lemma {:induction false} PayloadSurvives(s: Storage, calls: seq<Call>, i: nat)
    requires i < |calls|
    ensures var answer := Answers(s, calls)[i];
      var closed := s.closed || Close in calls[..i];
      && (calls[i] == GetBytes ==> answer == if closed then Closed else Data(s.content))
      && (calls[i] == NewReader ==> answer == if closed then Closed else Replay(s.content))
    decreases |calls|
  {
    if i == 0 {
      FileBytesWhole(s);
    } else {
      var step, rest := Perform(s, calls[0]), calls[1..];
      PayloadSurvives(step.next, rest, i - 1);
      assert step.next.content == s.content;
      assert calls[..i] == [calls[0]] + rest[..i - 1];
    }
  }

  lemma FileBytesWhole(s: Storage)
    ensures FileBytes(s) == Step(Data(s.content), s)
  {
    assert s.content[0..|s.content|] == s.content;
  }

  // ----- reading -----

  /** A read of n > 0 takes the next n bytes, or what is left of them, and moves past them. */
  lemma ReadExactly(s: Storage, n: nat)
    requires !s.closed && n > 0
    ensures var step := Perform(s, Read(n));
      var left := |s.content| - s.pos;
      && (left <= 0 ==> step == Step(EndOfFile, s))
      && (left > 0 ==>
            var k := if n <= left then n else left;
            step == Step(Data(s.content[s.pos..s.pos + k]), s.(pos := s.pos + k)))
  {
  }

  function Collected(answers: seq<Answer>): Bytes {
    if answers == [] then []
    else (if answers[0].Data? then answers[0].bytes else []) + Collected(answers[1..])
  }

  ghost predicate OnlyReads(calls: seq<Call>) {
    forall i :: 0 <= i < |calls| ==> calls[i].Read?
  }

  function FinalPos(s: Storage, calls: seq<Call>): nat
    decreases |calls|
  {
    if calls == [] then s.pos else FinalPos(Perform(s, calls[0]).next, calls[1..])
  }

  lemma ReadMoves(s: Storage, call: Call)
    requires !s.closed && s.pos <= |s.content| && call.Read?
    ensures var step := Perform(s, call);
      && step.next == s.(pos := step.next.pos) && s.pos <= step.next.pos <= |s.content|
      && (if step.answer.Data? then step.answer.bytes else []) == s.content[s.pos..step.next.pos]
  {
  }

  lemma CollectedHead(a: Answer, rest: seq<Answer>)
    ensures Collected([a] + rest) == (if a.Data? then a.bytes else []) + Collected(rest)
  {
    assert ([a] + rest)[1..] == rest;
  }

  lemma Adjacent(b: Bytes, i: nat, j: nat, k: nat)
    requires i <= j <= k <= |b|
    ensures b[i..j] + b[j..k] == b[i..k]
  {
  }

  /** Successive reads of any sizes yield consecutive parts of the payload: together exactly the bytes
      between the first cursor and the last. */
  lemma {:induction false} ReadsConsecutive(s: Storage, calls: seq<Call>)
    requires !s.closed && s.pos <= |s.content| && OnlyReads(calls)
    ensures s.pos <= FinalPos(s, calls) <= |s.content|
    ensures Collected(Answers(s, calls)) == s.content[s.pos..FinalPos(s, calls)]
    decreases |calls|
  {
    if calls != [] {
      var step, rest := Perform(s, calls[0]), calls[1..];
      ReadMoves(s, calls[0]);
      ReadsConsecutive(step.next, rest);
      CollectedHead(step.answer, Answers(step.next, rest));
      Adjacent(s.content, s.pos, step.next.pos, FinalPos(s, calls));
    }
  }

  /** A seek counts from the start, from the cursor or from the end, and a read continues there. */
  lemma SeekExactly(s: Storage, offset: int, whence: Whence, n: nat)
    requires !s.closed && n > 0
    ensures var at := match whence case Start => offset case Current => s.pos + offset case End => |s.content| + offset;
      var step := Perform(s, Seek(offset, whence));
      && (at < 0 ==> step == Step(NegativePosition, s))
      && (0 <= at ==> step.answer == Position(at))
      && (0 <= at < |s.content| && at + n <= |s.content| ==>
            Perform(step.next, Read(n)).answer == Data(s.content[at..at + n]))
      && (at >= |s.content| ==> Perform(step.next, Read(n)).answer == EndOfFile)
  {
  }
}
