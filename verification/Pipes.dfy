/** A pipe: a ring buffer between one reader and one writer that park and wake each other.

    Each method is one stretch with interrupts off, from entry or wake-up to the next block point.
 */
module Pipes {

  const CAPACITY: nat := 0x1_0000

  type Byte = x: nat | x < 256

  function Min(a: nat, b: nat): nat {
    if a < b then a else b
  }

  /** Position `i` bytes after `head` in the ring. */
  function Wrap(head: nat, i: nat): nat
    requires head < CAPACITY && i <= CAPACITY
  {
    if head + i < CAPACITY then head + i else head + i - CAPACITY
  }

  lemma WrapIsModulo(head: nat, i: nat)
    requires head < CAPACITY && i <= CAPACITY
    ensures (head + i) % CAPACITY == Wrap(head, i) < CAPACITY
  {
  }

  /** The bytes in the ring, oldest first. */
  function Ring(data: seq<Byte>, head: nat, length: nat): (r: seq<Byte>)
    requires |data| == CAPACITY && head < CAPACITY && length <= CAPACITY
    ensures |r| == length
  {
    if length == 0 then [] else Ring(data, head, length - 1) + [data[Wrap(head, length - 1)]]
  }

  lemma {:induction false} RingAt(data: seq<Byte>, head: nat, length: nat, i: nat)
    requires |data| == CAPACITY && head < CAPACITY && i < length <= CAPACITY
    ensures Ring(data, head, length)[i] == data[Wrap(head, i)]
    decreases length
  {
    if i < length - 1 { RingAt(data, head, length - 1, i); }
  }

  /** Filling the free part behind the ring, in at most two pieces, appends. */
  lemma RingAppend(data: seq<Byte>, data': seq<Byte>, head: nat, length: nat, src: seq<Byte>)
    requires |data| == |data'| == CAPACITY && head < CAPACITY && length + |src| <= CAPACITY
    requires forall i :: 0 <= i < length ==> data'[Wrap(head, i)] == data[Wrap(head, i)]
    requires forall i :: 0 <= i < |src| ==> data'[Wrap(head, length + i)] == src[i]
    ensures Ring(data', head, length + |src|) == Ring(data, head, length) + src
  {
    hide Ring;
    var x, y := Ring(data', head, length + |src|), Ring(data, head, length) + src;
    forall i | 0 <= i < |x|
      ensures x[i] == y[i]
    {
      RingAt(data', head, length + |src|, i);
      if i < length { RingAt(data, head, length, i); }
    }
  }

  /** Taking bytes off the front leaves the rest. */
  lemma RingDrop(data: seq<Byte>, head: nat, length: nat, n: nat)
    requires |data| == CAPACITY && head < CAPACITY && n <= length <= CAPACITY
    ensures Wrap(head, n) < CAPACITY && Ring(data, Wrap(head, n), length - n) == Ring(data, head, length)[n..]
  {
    hide Ring;
    var x, y := Ring(data, Wrap(head, n), length - n), Ring(data, head, length)[n..];
    forall i | 0 <= i < |x|
      ensures x[i] == y[i]
    {
      RingAt(data, Wrap(head, n), length - n, i);
      RingAt(data, head, length, n + i);
    }
  }

  // ---------------------------------------------------------------------------
  // The ring buffer
  // ---------------------------------------------------------------------------

  class PipeBuffer {
    const data: array<Byte>
    var head: nat
    var length: nat

    ghost predicate Valid()
      reads this
    {
      data.Length == CAPACITY && head < CAPACITY && length <= CAPACITY
    }

    ghost function Contents(): (s: seq<Byte>)
      requires Valid()
      reads this, data
      ensures |s| == length
    {
      Ring(data[..], head, length)
    }

    constructor ()
      ensures Valid() && Contents() == [] && fresh(data)
    {
      data := new Byte[CAPACITY](_ => 0);
      head, length := 0, 0;
    }

    /** Copy `src[from..to]` to `data[at..]`. */
    method CopyIn(src: seq<Byte>, from: nat, to: nat, at: nat)
      requires Valid() && from <= to <= |src| && at + (to - from) <= CAPACITY
      modifies data
      ensures forall i :: 0 <= i < CAPACITY ==>
                data[i] == if at <= i < at + (to - from) then src[from + (i - at)] else old(data[i])
    {
      for k := 0 to to - from
        invariant forall i :: 0 <= i < CAPACITY ==>
                  data[i] == if at <= i < at + k then src[from + (i - at)] else old(data[i])
      {
        data[at + k] := src[from + k];
      }
    }

    /** `write_bytes`: as much of `src` as fits, at the back. */
    method WriteBytes(src: seq<Byte>) returns (n: nat)
      requires Valid()
      modifies this`length, data
      ensures Valid() && n == Min(|src|, CAPACITY - old(length))
      ensures Contents() == old(Contents()) + src[..n]
    {
      hide Ring, Wrap;
      n := Min(|src|, CAPACITY - length);
      if n == 0 {
        assert src[..n] == [];
        return;
      }
      WrapIsModulo(head, length);
      var back := (head + length) % CAPACITY;
      var first := Min(n, CAPACITY - back);
      ghost var before := data[..];
      CopyIn(src, 0, first, back);
      if first < n {
        CopyIn(src, first, n, 0);
      }
      Appended(before, data[..], head, length, src, n, first);
      length := length + n;
    }

    /** `read_bytes`: up to `want` of the oldest bytes, off the front. */
    method ReadBytes(want: nat) returns (out: seq<Byte>)
      requires Valid()
      modifies this`head, this`length
      ensures Valid() && |out| == Min(want, old(length))
      ensures old(Contents()) == out + Contents()
    {
      hide Ring, Wrap;
      var n := Min(want, length);
      if n == 0 {
        return [];
      }
      ghost var all := data[..];
      TakenFront(all, head, length, n);
      RingDrop(all, head, length, n);
      WrapIsModulo(head, n);
      var first := Min(n, CAPACITY - head);
      assert data[head..head + first] == all[head..head + first];
      out := data[head..head + first];
      if first < n {
        assert data[..n - first] == all[..n - first];
        out := out + data[..n - first];
      }
      head, length := (head + n) % CAPACITY, length - n;
    }
  }

  lemma Appended(data: seq<Byte>, data': seq<Byte>, head: nat, length: nat, src: seq<Byte>, n: nat, first: nat)
    requires |data| == |data'| == CAPACITY && head < CAPACITY && length + n <= CAPACITY && 0 < n <= |src|
    requires first == Min(n, CAPACITY - Wrap(head, length))
    requires forall i :: 0 <= i < CAPACITY ==>
               data'[i] == if first < n && i < n - first then src[first + i]
                           else if Wrap(head, length) <= i < Wrap(head, length) + first then src[i - Wrap(head, length)]
                           else data[i]
    ensures Ring(data', head, length + n) == Ring(data, head, length) + src[..n]
  {
    hide Ring;
    forall i | 0 <= i < n
      ensures data'[Wrap(head, length + i)] == src[..n][i]
    {
    }
    RingAppend(data, data', head, length, src[..n]);
  }

  /** The `n` bytes at the front of the ring, as the two copies deliver them. */
  function FrontOf(data: seq<Byte>, head: nat, n: nat): seq<Byte>
    requires |data| == CAPACITY && head < CAPACITY && n <= CAPACITY
  {
    if n <= CAPACITY - head then data[head..head + n] else data[head..CAPACITY] + data[..n - (CAPACITY - head)]
  }

  lemma TakenFront(data: seq<Byte>, head: nat, length: nat, n: nat)
    requires |data| == CAPACITY && head < CAPACITY && 0 < n <= length <= CAPACITY
    ensures FrontOf(data, head, n) == Ring(data, head, length)[..n]
    ensures Ring(data, head, length) == Ring(data, head, length)[..n] + Ring(data, head, length)[n..]
  {
    hide Ring;
    var x, y := FrontOf(data, head, n), Ring(data, head, length)[..n];
    forall i | 0 <= i < n
      ensures x[i] == y[i]
    {
      RingAt(data, head, length, i);
    }
  }

  // ---------------------------------------------------------------------------
  // Parking and waking
  // ---------------------------------------------------------------------------

  datatype ReadResult = Data(bytes: seq<Byte>) | EndOfFile | ReaderParks

  datatype WriteResult = Written(count: nat) | BrokenPipe(count: nat) | WriterParks(count: nat)

  datatype Event =
    | Reads(want: nat)
    | Writes(src: seq<Byte>)
    | ClonesRead
    | ClonesWrite
    | DropsRead
    | DropsWrite
    | Interrupts(reader: bool)

  /** The pipe as its users see it: a bounded queue, its ends, who is parked, and what went in and out. */
  datatype Queue = Queue(
    contents: seq<Byte>, readEnds: nat, writeEnds: nat, readerParked: bool, writerParked: bool,
    accepted: seq<Byte>, delivered: seq<Byte>)

  /** A read takes what is there, waits while there may be more, and makes room for the writer. */
  function Read(q: Queue, want: nat): Queue {
    if q.contents != [] then
      var n := Min(want, |q.contents|);
      q.(contents := q.contents[n..], delivered := q.delivered + q.contents[..n], writerParked := false)
    else if q.writeEnds == 0 then q
    else q.(readerParked := true)
  }

  /** A write puts in what fits, wakes the reader for it, and waits with the rest. */
  function Write(q: Queue, src: seq<Byte>): Queue
    requires |q.contents| <= CAPACITY
  {
    if src == [] || q.readEnds == 0 then q
    else
      var n := Min(|src|, CAPACITY - |q.contents|);
      q.(contents := q.contents + src[..n], accepted := q.accepted + src[..n],
         readerParked := n == 0 && q.readerParked, writerParked := n < |src|)
  }

  function Next(q: Queue, e: Event): Queue
    requires |q.contents| <= CAPACITY
  {
    match e
    case Reads(want) => if 0 < q.readEnds && !q.readerParked then Read(q, want) else q
    case Writes(src) => if 0 < q.writeEnds && !q.writerParked then Write(q, src) else q
    case ClonesRead => if 0 < q.readEnds then q.(readEnds := q.readEnds + 1) else q
    case ClonesWrite => if 0 < q.writeEnds then q.(writeEnds := q.writeEnds + 1) else q
    case DropsRead =>
      if 0 < q.readEnds then q.(readEnds := q.readEnds - 1, writerParked := 1 < q.readEnds && q.writerParked) else q
    case DropsWrite =>
      if 0 < q.writeEnds then q.(writeEnds := q.writeEnds - 1, readerParked := 1 < q.writeEnds && q.readerParked) else q
    case Interrupts(reader) => if reader then q.(readerParked := false) else q.(writerParked := false)
  }

  /** Nothing is lost or reordered, and whoever is parked has a reason to be. */
  predicate Fine(q: Queue) {
    && |q.contents| <= CAPACITY && q.accepted == q.delivered + q.contents
    && (q.readerParked ==> q.contents == [] && 0 < q.writeEnds)
    && (q.writerParked ==> |q.contents| == CAPACITY && 0 < q.readEnds)
  }

  lemma ReadFine(q: Queue, want: nat)
    requires Fine(q) && !q.readerParked
    ensures Fine(Read(q, want)) && Read(q, want).accepted == q.accepted && q.delivered <= Read(q, want).delivered
  {
    var n := Min(want, |q.contents|);
    assert q.contents == q.contents[..n] + q.contents[n..];
    assert q.delivered + (q.contents[..n] + q.contents[n..]) == (q.delivered + q.contents[..n]) + q.contents[n..];
  }

  lemma WriteFine(q: Queue, src: seq<Byte>)
    requires Fine(q) && !q.writerParked
    ensures Fine(Write(q, src)) && q.accepted <= Write(q, src).accepted && Write(q, src).delivered == q.delivered
  {
    var n := Min(|src|, CAPACITY - |q.contents|);
    assert (q.delivered + q.contents) + src[..n] == q.delivered + (q.contents + src[..n]);
  }

  lemma NextFine(q: Queue, e: Event)
    requires Fine(q)
    ensures Fine(Next(q, e))
    ensures q.accepted <= Next(q, e).accepted && q.delivered <= Next(q, e).delivered
  {
    hide Read, Write;
    match e
    case Reads(want) => if !q.readerParked { ReadFine(q, want); }
    case Writes(src) => if !q.writerParked { WriteFine(q, src); }
    case _ =>
  }

  function After(q: Queue, events: seq<Event>): (r: Queue)
    requires Fine(q)
    ensures Fine(r)
  {
    if events == [] then q
    else
      var before := After(q, events[..|events| - 1]);
      NextFine(before, events[|events| - 1]);
      Next(before, events[|events| - 1])
  }

  /** Over every run: the bytes read so far, followed by those buffered, are the bytes accepted so far,
      reader and writer are never both parked, and what was accepted or delivered stays so. */
  lemma {:induction false} RunIsFine(q: Queue, events: seq<Event>)
    requires Fine(q)
    ensures var r := After(q, events);
            && r.accepted == r.delivered + r.contents && q.accepted <= r.accepted && q.delivered <= r.delivered
            && !(r.readerParked && r.writerParked)
  {
    if events != [] {
      var front := events[..|events| - 1];
      RunIsFine(q, front);
      NextFine(After(q, front), events[|events| - 1]);
    }
  }

  lemma WroteMore(contents: seq<Byte>, src: seq<Byte>, total: nat, n: nat)
    requires total + n <= |src|
    ensures contents + src[..total] + src[total..][..n] == contents + src[..total + n]
  {
    assert src[..total] + src[total..][..n] == src[..total + n];
  }

  class Pipe {
    const buf: PipeBuffer
    var writeEnds: nat
    var readEnds: nat
    /** The process recorded as waiting on each side; the record may outlive the wait. */
    var blockedReader: bool
    var blockedWriter: bool
    /** Scheduler state: the process is off the run queue until someone unblocks it. */
    var readerParked: bool
    var writerParked: bool
    ghost var accepted: seq<Byte>
    ghost var delivered: seq<Byte>

    ghost function View(): Queue
      reads this, buf, buf.data
      requires buf.Valid()
    {
      Queue(buf.Contents(), readEnds, writeEnds, readerParked, writerParked, accepted, delivered)
    }

    /** The queue is fine, and whoever is parked is on record. */
    ghost predicate Valid()
      reads this, buf, buf.data
    {
      buf.Valid() && Fine(View()) && (readerParked ==> blockedReader) && (writerParked ==> blockedWriter)
    }

    constructor ()
      ensures Valid() && View() == Queue([], 1, 1, false, false, [], []) && fresh(buf) && fresh(buf.data)
    {
      buf := new PipeBuffer();
      writeEnds, readEnds := 1, 1;
      blockedReader, blockedWriter, readerParked, writerParked := false, false, false, false;
      accepted, delivered := [], [];
    }

    /** `pipe_read_blocking` from entry or wake-up to its return or block point. */
    method ReadStretch(want: nat) returns (r: ReadResult)
      requires Valid() && !readerParked
      modifies this, buf, buf.data
      ensures Valid() && View() == Read(old(View()), want)
      ensures r == if old(buf.length) > 0 then Data(old(buf.Contents())[..Min(want, old(buf.length))])
                   else if writeEnds == 0 then EndOfFile else ReaderParks
      ensures readerParked <==> r.ReaderParks?
    {
      hide Ring;
      ghost var contents := buf.Contents();
      if buf.length > 0 {
        var out := buf.ReadBytes(want);
        assert contents[..|out|] == out && contents[|out|..] == buf.Contents();
        assert delivered + (out + buf.Contents()) == (delivered + out) + buf.Contents();
        delivered := delivered + out;
        if blockedWriter {
          blockedWriter := false;
          writerParked := false;
        }
        return Data(out);
      }
      if writeEnds == 0 {
        return EndOfFile;
      }
      blockedReader := true;
      readerParked := true;
      return ReaderParks;
    }

    /** `pipe_write_blocking` from entry or wake-up to its return or block point; `src` is what is left. */
    method WriteStretch(src: seq<Byte>) returns (r: WriteResult)
      requires Valid() && !writerParked
      modifies this, buf, buf.data
      ensures Valid() && View() == Write(old(View()), src)
      ensures var n := Min(|src|, CAPACITY - old(buf.length));
              r == if src == [] then Written(0) else if readEnds == 0 then BrokenPipe(0)
                   else if n == |src| then Written(n) else WriterParks(n)
      ensures writerParked <==> r.WriterParks?
    {
      hide Ring, Fine;
      WriteFine(View(), src);
      var total := 0;
      ghost var contents, before := buf.Contents(), accepted;
      assert src[..0] == [] && contents + src[..0] == contents && before + src[..0] == before;
      assert src[..|src|] == src && |contents| <= CAPACITY;
      while total < |src|
        invariant buf.Valid() && total <= |src| && buf.Contents() == contents + src[..total]
        invariant accepted == before + src[..total] && delivered == old(delivered)
        invariant writeEnds == old(writeEnds) && readEnds == old(readEnds) && !writerParked
        invariant readerParked == (total == 0 && old(readerParked)) && (readerParked ==> blockedReader)
        invariant 0 < total ==> 0 < readEnds && (total == |src| || buf.length == CAPACITY)
        decreases |src| - total
      {
        if readEnds == 0 {
          return BrokenPipe(total);
        }
        var n := buf.WriteBytes(src[total..]);
        if n > 0 {
          WroteMore(contents, src, total, n);
          WroteMore(before, src, total, n);
          accepted := accepted + src[total..][..n];
          total := total + n;
          if blockedReader {
            blockedReader := false;
            readerParked := false;
          }
        } else {
          assert |contents + src[..total]| == CAPACITY && total == Min(|src|, CAPACITY - |contents|);
          blockedWriter := true;
          writerParked := true;
          assert View() == Write(old(View()), src);
          return WriterParks(total);
        }
      }
      return Written(total);
    }

    /** A handle on the read end goes away; with the last one a parked writer is woken to see it. */
    method DropReadEnd()
      requires Valid() && 0 < readEnds
      modifies this
      ensures Valid() && View() == Next(old(View()), DropsRead)
    {
      readEnds := readEnds - 1;
      if readEnds == 0 && blockedWriter {
        writerParked := false;
      }
    }

    /** A handle on the write end goes away; with the last one a parked reader is woken for end of file. */
    method DropWriteEnd()
      requires Valid() && 0 < writeEnds
      modifies this
      ensures Valid() && View() == Next(old(View()), DropsWrite)
    {
      writeEnds := writeEnds - 1;
      if writeEnds == 0 && blockedReader {
        readerParked := false;
      }
    }

    /** One event, if it can happen now. */
    method Happen(e: Event)
      requires Valid()
      modifies this, buf, buf.data
      ensures Valid() && View() == Next(old(View()), e)
    {
      match e
      case Reads(want) =>
        if 0 < readEnds && !readerParked {
          var r := ReadStretch(want);
        }
      case Writes(src) =>
        if 0 < writeEnds && !writerParked {
          var r := WriteStretch(src);
        }
      case ClonesRead =>
        if 0 < readEnds { readEnds := readEnds + 1; }
      case ClonesWrite =>
        if 0 < writeEnds { writeEnds := writeEnds + 1; }
      case DropsRead =>
        if 0 < readEnds { DropReadEnd(); }
      case DropsWrite =>
        if 0 < writeEnds { DropWriteEnd(); }
      case Interrupts(reader) =>
        if reader { readerParked := false; } else { writerParked := false; }
    }

    /** Any run of the two processes, of handles coming and going, and of signals that cut a wait short. */
    method Run(events: seq<Event>)
      requires Valid()
      modifies this, buf, buf.data
      ensures Valid() && View() == After(old(View()), events)
    {
      hide Ring, Next, Fine;
      for k := 0 to |events|
        invariant Valid() && View() == After(old(View()), events[..k])
      {
        assert events[..k + 1][..k] == events[..k];
        Happen(events[k]);
      }
      assert events[..|events|] == events;
    }
  }
}
