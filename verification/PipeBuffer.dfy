/** The ring buffer of a kernel pipe as a bounded queue of bytes. */
module PipeBuffer {
  import opened Common
  import opened FdTables

  const PIPE_BUF: nat := 4096
  const CAPACITY: nat := PIPE_BUF - 1

  datatype ReadResult = Data(bytes: seq<Byte>) | EndOfFile | Again | BadDescriptor

  // ----- the queue -----

  /** How many bytes of `data` a queue still takes. */
  function Accepted(q: seq<Byte>, data: seq<Byte>): (n: nat)
    requires |q| <= CAPACITY
    ensures n <= |data|
  {
    Min(|data|, CAPACITY - |q|)
  }

  /** How many bytes a reader with room for `n` gets. */
  function Given(q: seq<Byte>, n: nat): (k: nat)
    ensures k <= |q|
  {
    Min(|q|, n)
  }

  /** What a read gives, from the state of the two ends and the queued bytes. */
  function ReadOutcome(e: Ends, q: seq<Byte>, n: nat): ReadResult {
    if !e.readOpen then BadDescriptor
    else if q == [] then (if e.writeRefs == 0 then EndOfFile else Again)
    else Data(q[..Given(q, n)])
  }

  datatype Event = Wrote(data: seq<Byte>) | Took(n: nat)

  /** Queue contents, bytes accepted and bytes handed out so far. */
  datatype Trace = Trace(queue: seq<Byte>, put: seq<Byte>, got: seq<Byte>)

  function Step(t: Trace, e: Event): (r: Trace)
    requires |t.queue| <= CAPACITY
    ensures |r.queue| <= CAPACITY
  {
    match e
    case Wrote(data) =>
      var n := Accepted(t.queue, data);
      Trace(t.queue + data[..n], t.put + data[..n], t.got)
    case Took(n) =>
      var k := Given(t.queue, n);
      Trace(t.queue[k..], t.put, t.got + t.queue[..k])
  }

  function Run(t: Trace, es: seq<Event>): (r: Trace)
    requires |t.queue| <= CAPACITY
    ensures |r.queue| <= CAPACITY
    decreases |es|
  {
    if es == [] then t else Run(Step(t, es[0]), es[1..])
  }

  /** Over every run the bytes handed out, followed by the bytes still queued, are exactly the bytes
      accepted, in order: nothing is lost, repeated or reordered. */
  lemma {:induction false} RunConserves(t: Trace, es: seq<Event>)
    requires |t.queue| <= CAPACITY && t.put == t.got + t.queue
    ensures Run(t, es).put == Run(t, es).got + Run(t, es).queue
    decreases |es|
  {
    if es != [] {
      var r := Step(t, es[0]);
      match es[0] {
        case Wrote(data) => assert t.got + t.queue + data[..Accepted(t.queue, data)] == r.got + r.queue;
        case Took(n) => assert t.queue == t.queue[..Given(t.queue, n)] + t.queue[Given(t.queue, n)..];
      }
      RunConserves(r, es[1..]);
    }
  }

  // ----- the ring -----

  class Ring {
    const buf: array<Byte>
    var head: nat
    var tail: nat
    var ends: Ends

    ghost predicate Valid()
      reads this
    {
      buf.Length == PIPE_BUF && head < PIPE_BUF && tail < PIPE_BUF
    }

    function Length(): (n: nat)
      requires Valid()
      reads this
      ensures n < PIPE_BUF
    {
      (tail + PIPE_BUF - head) % PIPE_BUF
    }

    /** The bytes from `head` up to `tail`, around the end of the buffer. */
    ghost function Queue(): (q: seq<Byte>)
      requires Valid()
      reads this, buf
      ensures |q| == Length()
    {
      LengthCases(head, tail);
      QueueOf(buf[..], head, tail)
    }

    /** `alloc` empties the buffer and opens both ends. */
    constructor ()
      ensures Valid() && fresh(buf) && Queue() == [] && ends == Ends(true, true, 1, 1)
    {
      buf := new Byte[PIPE_BUF](_ => 0);
      head, tail, ends := 0, 0, Ends(true, true, 1, 1);
    }

    /** `pipe::write`: as many bytes as fit, or -5 on a closed end. */
    method Write(data: seq<Byte>) returns (r: int)
      requires Valid()
      modifies `tail, buf
      ensures Valid()
      ensures !ends.writeOpen ==> r == -5 && Queue() == old(Queue())
      ensures ends.writeOpen ==> r == Min(|data|, 4095 - |old(Queue())|) && Queue() == old(Queue()) + data[..r]
    {
      if !ends.writeOpen { return -5; }
      r := Fill(data);
    }

    /** The copying loop of `pipe::write`. */
    method Fill(data: seq<Byte>) returns (written: nat)
      requires Valid()
      modifies `tail, buf
      ensures Valid() && written == Accepted(old(Queue()), data) && Queue() == old(Queue()) + data[..written]
    {
      hide Queue, Length;
      ghost var q := Queue();
      written := 0;
      while written < |data|
        invariant Valid() && written <= |data| && Queue() == q + data[..written]
        decreases |data| - written
      {
        if PIPE_BUF - 1 - Length() == 0 { break; }
        Push(data[written]);
        PrefixSnoc(q, data, written);
        written := written + 1;
      }
    }

    /** One byte at the tail. */
    method Push(b: Byte)
      requires Valid() && Length() < CAPACITY
      modifies `tail, buf
      ensures Valid() && Queue() == old(Queue()) + [b]
    {
      LengthCases(head, tail);
      PushQueue(buf[..], head, tail, b);
      buf[tail] := b;
      assert buf[..] == old(buf[..])[tail := b];
      tail := (tail + 1) % PIPE_BUF;
    }

    /** One byte from the head. */
    method Pop() returns (b: Byte)
      requires Valid() && head != tail
      modifies `head
      ensures Valid() && old(Queue()) == [b] + Queue()
    {
      PopQueue(buf[..], head, tail);
      b := buf[head];
      head := (head + 1) % PIPE_BUF;
    }

    lemma EmptyQueue()
      requires Valid()
      ensures Queue() == [] <==> head == tail
    {
      LengthCases(head, tail);
    }

    /** `pipe::read` into a buffer of `n` bytes: an empty pipe ends the file only when nobody holds the
        write end. */
    method Read(n: nat) returns (r: ReadResult)
      requires Valid()
      modifies `head
      ensures Valid()
      ensures r == ReadOutcome(ends, old(Queue()), n)
      ensures Queue() == if r.Data? then old(Queue())[Given(old(Queue()), n)..] else old(Queue())
    {
      if !ends.readOpen { return BadDescriptor; }
      EmptyQueue();
      hide Queue, Length;
      if head == tail {
        return if ends.writeRefs == 0 then EndOfFile else Again;
      }
      var bytes := Drain(n);
      return Data(bytes);
    }

    /** The copying loop of `pipe::read`. */
    method Drain(n: nat) returns (bytes: seq<Byte>)
      requires Valid()
      modifies `head
      ensures Valid()
      ensures bytes == old(Queue())[..Given(old(Queue()), n)] && Queue() == old(Queue())[Given(old(Queue()), n)..]
    {
      hide Queue, Length;
      ghost var q := Queue();
      bytes := [];
      while |bytes| < n && head != tail
        invariant Valid() && |bytes| <= n && bytes + Queue() == q
        decreases n - |bytes|
      {
        ghost var before := bytes;
        var b := Pop();
        bytes := bytes + [b];
        assert before + ([b] + Queue()) == bytes + Queue();
      }
      EmptyQueue();
      assert bytes == q[..|bytes|] && Queue() == q[|bytes|..];
    }
  }

  /** The bytes of a ring from `head` up to `tail`. */
  function QueueOf(buf: seq<Byte>, head: nat, tail: nat): (q: seq<Byte>)
    requires |buf| == PIPE_BUF && head < PIPE_BUF && tail < PIPE_BUF
    ensures |q| == if head <= tail then tail - head else PIPE_BUF - head + tail
  {
    if head <= tail then buf[head..tail] else buf[head..] + buf[..tail]
  }

  lemma NextIndex(i: nat)
    requires i < PIPE_BUF
    ensures (i + 1) % PIPE_BUF == if i + 1 == PIPE_BUF then 0 else i + 1
  {
  }

  lemma PushQueue(buf: seq<Byte>, head: nat, tail: nat, b: Byte)
    requires |buf| == PIPE_BUF && head < PIPE_BUF && tail < PIPE_BUF && |QueueOf(buf, head, tail)| < CAPACITY
    ensures QueueOf(buf[tail := b], head, (tail + 1) % PIPE_BUF) == QueueOf(buf, head, tail) + [b]
  {
    NextIndex(tail);
    var buf1 := buf[tail := b];
    if tail + 1 == PIPE_BUF {
      assert buf1[head..] + buf1[..0] == buf[head..tail] + [b];
    } else if head <= tail {
      assert buf1[head..tail + 1] == buf[head..tail] + [b];
    } else {
      assert buf1[head..] == buf[head..] && buf1[..tail + 1] == buf[..tail] + [b];
    }
  }

  lemma PopQueue(buf: seq<Byte>, head: nat, tail: nat)
    requires |buf| == PIPE_BUF && head < PIPE_BUF && tail < PIPE_BUF && head != tail
    ensures QueueOf(buf, head, tail) == [buf[head]] + QueueOf(buf, (head + 1) % PIPE_BUF, tail)
  {
    NextIndex(head);
    if head < tail {
      assert buf[head..tail] == [buf[head]] + buf[head + 1..tail];
    } else if head + 1 == PIPE_BUF {
      assert buf[head..] == [buf[head]];
    } else {
      assert buf[head..] == [buf[head]] + buf[head + 1..];
      assert [buf[head]] + buf[head + 1..] + buf[..tail] == [buf[head]] + (buf[head + 1..] + buf[..tail]);
    }
  }

  lemma PrefixSnoc(q: seq<Byte>, data: seq<Byte>, n: nat)
    requires n < |data|
    ensures q + data[..n] + [data[n]] == q + data[..n + 1]
  {
  }

  lemma LengthCases(head: nat, tail: nat)
    requires head < PIPE_BUF && tail < PIPE_BUF
    ensures (tail + PIPE_BUF - head) % PIPE_BUF == if head <= tail then tail - head else PIPE_BUF - head + tail
  {
    if head <= tail {
      assert (tail - head + PIPE_BUF) % PIPE_BUF == tail - head;
    }
  }
}
