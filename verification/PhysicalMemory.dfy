/** Physical page frames and the LIFO frame allocator whose list lives inside the free frames.

  Memory is untyped: a frame is 512 sixty-four-bit words, whether it holds a translation table,
  user data or the `next` link of a free frame.  A word is written here as the pair of the address
  field that `entry & mask` selects and the remaining bits, of which the four the kernel tests are
  named.  The split loses nothing, so a word read back from a frame that was a
  table, a page or a list node is whatever was last stored there.
 */
module PhysicalMemory {
  import opened Options

  type Frame = nat

  const WORDS: nat := 512

  datatype Word = Word(valid: bool, table: bool, ap: nat, cow: bool, frame: Frame, rest: nat)

  const ZERO: Word := Word(false, false, 0, false, 0, 0)

  type Page = p: seq<Word> | |p| == WORDS witness seq(WORDS, _ => ZERO)

  function ZeroPage(): (p: Page)
    ensures forall i :: 0 <= i < WORDS ==> p[i] == ZERO
  {
    seq(WORDS, _ => ZERO)
  }

  type Memory = map<Frame, Page>

  /** The word stored for the discriminant of `Option<PhysicalAddress>`: 1 for Some, 0 for None. */
  function TagWord(some: bool): Word {
    ZERO.(valid := some)
  }

  /** A frame after `node.next = next`: the link takes the first two words, the rest is kept. */
  function ListNode(old_: Page, next: Option<Frame>): Page {
    match next
    case None => old_[0 := TagWord(false)]
    case Some(f) => old_[0 := TagWord(true)][1 := ZERO.(frame := f)]
  }

  function NextFree(page: Page): Option<Frame> {
    if page[0].valid then Some(page[1].frame) else None
  }

  function Successor(free: seq<Frame>, k: nat): Option<Frame> {
    if k + 1 < |free| then Some(free[k + 1]) else None
  }

  /** `free` is the list that starts at `head` and is threaded through the free frames. */
  ghost predicate IsFreeList(m: Memory, head: Option<Frame>, free: seq<Frame>) {
    && head == (if free == [] then None else Some(free[0]))
    && (forall k :: 0 <= k < |free| ==> free[k] in m)
    && (forall k :: 0 <= k < |free| ==> NextFree(m[free[k]]) == Successor(free, k))
    && Distinct(free)
  }

  function Elements(s: seq<Frame>): set<Frame> {
    set f | f in s
  }

  function Reversed(s: seq<Frame>): seq<Frame> {
    if s == [] then [] else Reversed(s[1..]) + [s[0]]
  }

  lemma {:induction false} ReversedMembers(s: seq<Frame>)
    ensures forall f :: f in Reversed(s) <==> f in s
    ensures |Reversed(s)| == |s|
  {
    if s != [] {
      ReversedMembers(s[1..]);
      assert s == [s[0]] + s[1..];
    }
  }

  lemma {:induction false} ReversedSnoc(s: seq<Frame>, f: Frame)
    ensures Reversed(s + [f]) == [f] + Reversed(s)
  {
    if s == [] {
      assert s + [f] == [f];
    } else {
      ReversedSnoc(s[1..], f);
      assert (s + [f])[1..] == s[1..] + [f];
    }
  }

  ghost predicate Distinct(s: seq<Frame>) {
    forall j, k :: 0 <= j < k < |s| ==> s[j] != s[k]
  }

  lemma PushTwice(f: Frame, s: seq<Frame>)
    ensures f in s ==> !Distinct([f] + s)
  {
    if f in s {
      var k :| 0 <= k < |s| && s[k] == f;
      assert ([f] + s)[0] == ([f] + s)[k + 1];
    }
  }

  class PhysicalAllocator {
    var mem: Memory
    var head: Option<Frame>
    var count: nat
    ghost var free: seq<Frame>

    ghost predicate Valid()
      reads this
    {
      IsFreeList(mem, head, free) && count == |free|
    }

    /** An allocator over `ram` with an empty list; boot frees the usable frames into it one by one. */
    constructor (ram: Memory)
      ensures Valid() && mem == ram && free == []
    {
      mem, head, count := ram, None, 0;
      free := [];
    }

    method Alloc() returns (r: Option<Frame>)
      requires Valid()
      modifies this
      ensures Valid() && mem == old(mem)
      ensures old(free) == [] ==> r == None && free == []
      ensures old(free) != [] ==>
                && r == Some(old(free)[0]) && free == old(free)[1..]
                && r.value in mem && r.value !in free
    {
      match head
      case None =>
        r := None;
      case Some(f) =>
        head := NextFree(mem[f]);
        count := count - 1;
        free := free[1..];
        r := Some(f);
    }

    /** Pushes `f` without looking whether it is on the list already; the list stays one only if it is not. */
    method FreePage(f: Frame)
      requires f in mem
      modifies this
      ensures free == [f] + old(free) && head == Some(f)
      ensures mem == old(mem)[f := ListNode(old(mem)[f], old(head))]
      ensures old(Valid()) ==> (Valid() <==> f !in old(free))
    {
      mem := mem[f := ListNode(mem[f], head)];
      head := Some(f);
      count := count + 1;
      free := [f] + free;
      PushTwice(f, old(free));
    }

    /** `create_table`: a frame off the list, all words zero. */
    method CreateTable() returns (r: Option<Frame>)
      requires Valid()
      modifies this
      ensures Valid()
      ensures old(free) == [] ==> r == None && free == [] && mem == old(mem)
      ensures old(free) != [] ==>
                && r == Some(old(free)[0]) && free == old(free)[1..]
                && mem == old(mem)[old(free)[0] := ZeroPage()]
    {
      r := Alloc();
      if r.Some? {
        mem := mem[r.value := ZeroPage()];
      }
    }

    /** Overwrite a whole frame that is not on the list. */
    method Fill(f: Frame, page: Page)
      requires Valid() && f in mem && f !in free
      modifies this
      ensures Valid() && free == old(free) && mem == old(mem)[f := page]
    {
      mem := mem[f := page];
    }

    /** Store one word of a frame; the list survives if the frame is not on it. */
    method Store(f: Frame, i: nat, w: Word)
      requires f in mem && i < WORDS
      modifies this
      ensures free == old(free) && mem == old(mem)[f := old(mem)[f][i := w]]
      ensures old(Valid()) && f !in free ==> Valid()
      ensures head == old(head) && count == old(count)
    {
      mem := mem[f := mem[f][i := w]];
    }
  }
}
