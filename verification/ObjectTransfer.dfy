/** Chunked transfer of objects: the polling range reader and the multipart upload. */
module ObjectTransfer {
  import opened Prelude

  type Byte = bv8
  type Bytes = seq<Byte>

  const CHUNK_SIZE: nat := 10 * 1024 * 1024

  /** An inclusive byte range, as in a range request. */
  datatype Range = Range(first: nat, last: nat)

  /** What polling the outstanding request yields. */
  datatype Response = StillPending | Body(bytes: Bytes) | Failed

  /** What a poll of the reader yields. */
  datatype Polled = NotReady | Delivered(bytes: Bytes) | Broken

  datatype Reader = Reader(buffer: Bytes, position: nat, size: nat, active: Option<Range>)

  function Min(a: nat, b: nat): nat {
    if a <= b then a else b
  }

  /** One poll with room for `capacity` bytes. */
  function Poll(r: Reader, capacity: nat, response: Response): (Reader, Polled) {
    if r.active.Some? then
      match response
      case StillPending => (r, NotReady)
      case Failed => (r, Broken)
      case Body(b) => (r.(active := None, position := r.position + |b|, buffer := r.buffer + b), NotReady)
    else if |r.buffer| > capacity then (r.(buffer := r.buffer[capacity..]), Delivered(r.buffer[..capacity]))
    else if r.position >= r.size then (r.(buffer := []), Delivered(r.buffer))
    else
      var length := Min(CHUNK_SIZE, r.size - r.position);
      (r.(active := Some(Range(r.position, r.position + length - 1))), NotReady)
  }

  /** The server answers a range request with exactly that part of the object. */
  ghost predicate Honest(content: Bytes, r: Reader, response: Response) {
    r.active.Some? && response.Body? ==>
      r.active.value.first <= r.active.value.last < |content| &&
      response.bytes == content[r.active.value.first..r.active.value.last + 1]
  }

  /** A reader with what it delivered so far and the largest capacity it was offered. */
  datatype Session = Session(reader: Reader, delivered: Bytes, widest: nat)

  function Step(x: Session, capacity: nat, response: Response): Session {
    var (r, p) := Poll(x.reader, capacity, response);
    Session(r, if p.Delivered? then x.delivered + p.bytes else x.delivered, if capacity > x.widest then capacity else x.widest)
  }

  /** A requested range is non-empty and within the object. */
  predicate Satisfiable(content: Bytes, range: Range) {
    range.first <= range.last < |content|
  }

  ghost predicate Faithful(content: Bytes, x: Session) {
    && x.reader.size == |content| && x.reader.position <= |content|
    && x.delivered + x.reader.buffer == content[..x.reader.position]
    && (x.reader.active.Some? ==>
          && Satisfiable(content, x.reader.active.value)
          && x.reader.active.value.first == x.reader.position
          && x.reader.active.value.last + 1 == Min(x.reader.position + CHUNK_SIZE, |content|)
          && |x.reader.buffer| <= x.widest)
    && |x.reader.buffer| <= x.widest + CHUNK_SIZE
  }

  lemma StepFaithful(content: Bytes, x: Session, capacity: nat, response: Response)
    requires Faithful(content, x) && Honest(content, x.reader, response)
    ensures Faithful(content, Step(x, capacity, response))
  {
    var r := x.reader;
    if r.active.Some? && response.Body? {
      var range := r.active.value;
      assert content[..range.first] + content[range.first..range.last + 1] == content[..range.last + 1];
      assert x.delivered + (r.buffer + response.bytes) == (x.delivered + r.buffer) + response.bytes;
    } else if r.active.None? && |r.buffer| > capacity {
      assert x.delivered + r.buffer[..capacity] + r.buffer[capacity..] == x.delivered + r.buffer;
    } else if r.active.None? && r.position >= r.size {
      assert x.delivered + r.buffer + [] == x.delivered + r.buffer;
    }
  }

  /** A reader that was just opened on an object of known size. */
  function Opened(size: nat): Session {
    Session(Reader([], 0, size, None), [], 0)
  }

  /** `polls` leads from one session state to another, against an honest server. */
  ghost predicate Polls(content: Bytes, x: Session, polls: seq<(nat, Response)>, y: Session)
    decreases |polls|
  {
    if polls == [] then x == y
    else Honest(content, x.reader, polls[0].1) && Polls(content, Step(x, polls[0].0, polls[0].1), polls[1..], y)
  }

  lemma {:induction false} PollsFaithful(content: Bytes, x: Session, polls: seq<(nat, Response)>, y: Session)
    requires Faithful(content, x) && Polls(content, x, polls, y)
    ensures Faithful(content, y)
    decreases |polls|
  {
    if polls == [] {
    } else {
      StepFaithful(content, x, polls[0].0, polls[0].1);
      PollsFaithful(content, Step(x, polls[0].0, polls[0].1), polls[1..], y);
    }
  }

  /**
   * For every sequence of caller capacities and response timings: what was delivered and what is buffered is the
   * content up to the position, requests stay within the object, the buffer stays within the widest read plus one
   * chunk, and an empty delivery into a non-empty buffer means that the whole object was delivered.
   */
  lemma ReaderIsFaithful(content: Bytes, polls: seq<(nat, Response)>, y: Session, capacity: nat, response: Response)
    requires Polls(content, Opened(|content|), polls, y) && Honest(content, y.reader, response)
    ensures y.reader.position <= |content| && y.delivered + y.reader.buffer == content[..y.reader.position]
    ensures y.reader.active.Some? ==>
              && Satisfiable(content, y.reader.active.value) && y.reader.active.value.first == y.reader.position
              && y.reader.active.value.last + 1 == Min(y.reader.position + CHUNK_SIZE, |content|)
    ensures Poll(y.reader, capacity, response).1.Broken? <==> y.reader.active.Some? && response.Failed?
    ensures var p := Poll(y.reader, capacity, response).1;
            p.Delivered? ==> |p.bytes| == Min(capacity, |y.reader.buffer|) && (|p.bytes| < capacity ==> y.reader.position == |content|)
    ensures |y.reader.buffer| <= y.widest + CHUNK_SIZE
    ensures Poll(y.reader, capacity, response).1 == Delivered([]) && capacity > 0 ==> y.delivered == content
    ensures y.delivered == content && y.reader.active.None? ==> Poll(y.reader, capacity, response).1 == Delivered([])
  {
    PollsFaithful(content, Opened(|content|), polls, y);
    assert content[..|content|] == content;
    if Poll(y.reader, capacity, response).1 == Delivered([]) && capacity > 0 {
      assert y.reader.buffer == [];
    }
    if y.delivered == content {
      assert |y.delivered + y.reader.buffer| == |content[..y.reader.position]|;
    }
  }

  /** An upper bound on the polls that are left until the end of the object. */
  function Left(r: Reader): int {
    4 * (r.size - r.position) + |r.buffer| + if r.active.Some? then 0 else 1
  }

  /** A poll with room for something either makes progress, waits for the server, or reports the end. */
  lemma PollProgresses(content: Bytes, x: Session, capacity: nat, response: Response)
    requires Faithful(content, x) && Honest(content, x.reader, response) && capacity > 0
    ensures Left(x.reader) >= 0
    ensures var (r, p) := Poll(x.reader, capacity, response);
            || Left(r) < Left(x.reader)
            || (x.reader.active.Some? && !response.Body?)
            || (p == Delivered([]) && x.delivered == content)
  {
    assert content[..|content|] == content;
  }

  class ObjectReader {
    var buffer: Bytes
    var position: nat
    var size: nat
    var active: Option<Range>

    ghost function Value(): Reader
      reads this
    {
      Reader(buffer, position, size, active)
    }

    constructor (size: nat)
      ensures Value() == Opened(size).reader
    {
      buffer, position, this.size, active := [], 0, size, None;
    }

    method PollRead(capacity: nat, response: Response) returns (p: Polled)
      modifies this
      ensures (Value(), p) == Poll(old(Value()), capacity, response)
    {
      if active.Some? {
        match response {
          case Body(data) =>
            active := None;
            position := position + |data|;
            buffer := buffer + data;
            return NotReady;
          case Failed => return Broken;
          case StillPending => return NotReady;
        }
      }
      if |buffer| > capacity {
        var segment := buffer[..capacity];
        buffer := buffer[capacity..];
        return Delivered(segment);
      }
      if position >= size {
        var segment := buffer;
        buffer := [];
        return Delivered(segment);
      }
      StartRequest(Min(CHUNK_SIZE, size - position));
      return NotReady;
    }

    method StartRequest(length: nat)
      requires length > 0
      modifies this`active
      ensures active == Some(Range(position, position + length - 1))
    {
      active := Some(Range(position, position + length - 1));
    }
  }

  /** Reads until an empty delivery, with room for any positive number of bytes each time. */
  method ReadAll(content: Bytes, capacities: nat -> nat) returns (out: Bytes)
    requires forall k :: capacities(k) > 0
    ensures out == content
  {
    out := [];
    var reader := new ObjectReader(|content|);
    ghost var x := Opened(|content|);
    var p := NotReady;
    var turn := 0;
    while p != Delivered([])
      invariant reader.Value() == x.reader && out == x.delivered && Faithful(content, x)
      invariant p == Delivered([]) ==> out == content
      decreases p != Delivered([]), Left(x.reader)
    {
      var capacity := capacities(turn);
      var response := match reader.active case Some(r) => Body(content[r.first..r.last + 1]) case None => StillPending;
      PollProgresses(content, x, capacity, response);
      StepFaithful(content, x, capacity, response);
      x := Step(x, capacity, response);
      p := reader.PollRead(capacity, response);
      if p.Delivered? {
        out := out + p.bytes;
      }
      turn := turn + 1;
    }
  }

  // Multipart upload

  datatype Part = Part(number: nat, bytes: Bytes)

  /** The object that the server assembles from numbered parts. */
  function Assembled(parts: seq<Part>): Bytes {
    if parts == [] then [] else Assembled(parts[..|parts| - 1]) + parts[|parts| - 1].bytes
  }

  /** Cuts a file into chunks; the parts are numbered from one without gaps, and all but the last are full. */
  method SplitParts(file: Bytes) returns (parts: seq<Part>)
    ensures Assembled(parts) == file
    ensures |parts| == (|file| + CHUNK_SIZE - 1) / CHUNK_SIZE
    ensures forall i :: 0 <= i < |parts| ==>
              && parts[i].number == i + 1 && 0 < |parts[i].bytes| <= CHUNK_SIZE
              && (i < |parts| - 1 ==> |parts[i].bytes| == CHUNK_SIZE)
  {
    parts := [];
    var pos := 0;
    while pos < |file|
      invariant 0 <= pos <= |file| && Assembled(parts) == file[..pos]
      invariant pos < |file| ==> pos == |parts| * CHUNK_SIZE
      invariant pos == |file| ==> |parts| == (|file| + CHUNK_SIZE - 1) / CHUNK_SIZE
      invariant forall i :: 0 <= i < |parts| ==>
                  && parts[i].number == i + 1 && 0 < |parts[i].bytes| <= CHUNK_SIZE
                  && (i < |parts| - 1 || pos < |file| ==> |parts[i].bytes| == CHUNK_SIZE)
    {
      var length := if |file| - pos > CHUNK_SIZE then CHUNK_SIZE else |file| - pos;
      var part := Part(|parts| + 1, file[pos..pos + length]);
      assert (parts + [part])[..|parts|] == parts;
      assert file[..pos] + file[pos..pos + length] == file[..pos + length];
      parts := parts + [part];
      pos := pos + length;
    }
    assert file[..pos] == file;
  }

  /** A finished layer is put in one piece when it is small and as parts when it is large; reading it back gives the file. */
  method StoreThenRead(file: Bytes, capacities: nat -> nat) returns (parts: seq<Part>, out: Bytes)
    requires forall k :: capacities(k) > 0
    ensures |file| > CHUNK_SIZE <==> parts != []
    ensures out == file
  {
    parts := [];
    var stored := file;
    if |file| > CHUNK_SIZE {
      parts := SplitParts(file);
      stored := Assembled(parts);
    }
    out := ReadAll(stored, capacities);
  }
}
