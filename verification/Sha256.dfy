/** SHA-256 as a stream: whatever the split into updates, the digest is that of the padded message.

    The reference follows sections 5.1.1 (padding) and 6.2.2 (hash computation) of FIPS 180-4.
 */
module Sha256 {
  type Byte = bv8
  type Word = bv32

  const BLOCK: nat := 64
  const WORDS: nat := 8

  /** Where block `n` begins. */
  function At(n: nat): nat {
    64 * n
  }

  // ---------------------------------------------------------------------------
  // The standard
  // ---------------------------------------------------------------------------

  /** The initial hash value. */
  function InitialHash(): (h: seq<Word>)
    ensures |h| == WORDS
  {
    [0x6a09e667, 0xbb67ae85, 0x3c6ef372, 0xa54ff53a, 0x510e527f, 0x9b05688c, 0x1f83d9ab, 0x5be0cd19]
  }

  /** Eight of the round constants: row `r` of the table. */
  function ConstantRow(r: nat): (row: seq<Word>)
    requires r < 8
    ensures |row| == 8
  {
    if r == 0 then [0x428a2f98, 0x71374491, 0xb5c0fbcf, 0xe9b5dba5, 0x3956c25b, 0x59f111f1, 0x923f82a4, 0xab1c5ed5]
    else if r == 1 then [0xd807aa98, 0x12835b01, 0x243185be, 0x550c7dc3, 0x72be5d74, 0x80deb1fe, 0x9bdc06a7, 0xc19bf174]
    else if r == 2 then [0xe49b69c1, 0xefbe4786, 0x0fc19dc6, 0x240ca1cc, 0x2de92c6f, 0x4a7484aa, 0x5cb0a9dc, 0x76f988da]
    else if r == 3 then [0x983e5152, 0xa831c66d, 0xb00327c8, 0xbf597fc7, 0xc6e00bf3, 0xd5a79147, 0x06ca6351, 0x14292967]
    else if r == 4 then [0x27b70a85, 0x2e1b2138, 0x4d2c6dfc, 0x53380d13, 0x650a7354, 0x766a0abb, 0x81c2c92e, 0x92722c85]
    else if r == 5 then [0xa2bfe8a1, 0xa81a664b, 0xc24b8b70, 0xc76c51a3, 0xd192e819, 0xd6990624, 0xf40e3585, 0x106aa070]
    else if r == 6 then [0x19a4c116, 0x1e376c08, 0x2748774c, 0x34b0bcb5, 0x391c0cb3, 0x4ed8aa4a, 0x5b9cca4f, 0x682e6ff3]
    else [0x748f82ee, 0x78a5636f, 0x84c87814, 0x8cc70208, 0x90befffa, 0xa4506ceb, 0xbef9a3f7, 0xc67178f2]
  }

  function RoundConstants(): (k: seq<Word>)
    ensures |k| == 64
  {
    ConstantRow(0) + ConstantRow(1) + ConstantRow(2) + ConstantRow(3) +
    ConstantRow(4) + ConstantRow(5) + ConstantRow(6) + ConstantRow(7)
  }

  function Xor(x: Word, y: Word): Word {
    x ^ y
  }

  function And(x: Word, y: Word): Word {
    x & y
  }

  function Not(x: Word): Word {
    !x
  }

  function SmallSigma0(x: Word): Word {
    Xor(Xor(x.RotateRight(7), x.RotateRight(18)), x >> 3)
  }

  function SmallSigma1(x: Word): Word {
    Xor(Xor(x.RotateRight(17), x.RotateRight(19)), x >> 10)
  }

  function BigSigma0(x: Word): Word {
    Xor(Xor(x.RotateRight(2), x.RotateRight(13)), x.RotateRight(22))
  }

  function BigSigma1(x: Word): Word {
    Xor(Xor(x.RotateRight(6), x.RotateRight(11)), x.RotateRight(25))
  }

  function Choose(x: Word, y: Word, z: Word): Word {
    Xor(And(x, y), And(Not(x), z))
  }

  function Majority(x: Word, y: Word, z: Word): Word {
    Xor(Xor(And(x, y), And(x, z)), And(y, z))
  }

  function BigEndian(b0: Byte, b1: Byte, b2: Byte, b3: Byte): Word {
    ((b0 as Word) << 24) | ((b1 as Word) << 16) | ((b2 as Word) << 8) | (b3 as Word)
  }

  /** Word `t` of the message schedule. */
  function Schedule(block: seq<Byte>, t: nat): Word
    requires |block| == BLOCK
  {
    if t < 16 then BigEndian(block[4 * t], block[4 * t + 1], block[4 * t + 2], block[4 * t + 3])
    else Extend(Schedule(block, t - 2), Schedule(block, t - 7), Schedule(block, t - 15), Schedule(block, t - 16))
  }

  function Extend(w2: Word, w7: Word, w15: Word, w16: Word): Word {
    Add4(SmallSigma1(w2), w7, SmallSigma0(w15), w16)
  }

  function Add4(a: Word, b: Word, c: Word, d: Word): Word {
    a + b + c + d
  }

  datatype Vars = Vars(a: Word, b: Word, c: Word, d: Word, e: Word, f: Word, g: Word, h: Word)

  function Start(hash: seq<Word>): Vars
    requires |hash| == WORDS
  {
    Vars(hash[0], hash[1], hash[2], hash[3], hash[4], hash[5], hash[6], hash[7])
  }

  function Temp1(e: Word, f: Word, g: Word, h: Word, k: Word, w: Word): Word {
    h + BigSigma1(e) + Choose(e, f, g) + k + w
  }

  function Temp2(a: Word, b: Word, c: Word): Word {
    BigSigma0(a) + Majority(a, b, c)
  }

  function Round(v: Vars, k: Word, w: Word): Vars {
    var t1, t2 := Temp1(v.e, v.f, v.g, v.h, k, w), Temp2(v.a, v.b, v.c);
    Vars(Sum(t1, t2), v.a, v.b, v.c, Sum(v.d, t1), v.e, v.f, v.g)
  }

  function Sum(x: Word, y: Word): Word {
    x + y
  }

  function Rounds(v: Vars, block: seq<Byte>, t: nat): Vars
    requires |block| == BLOCK && t <= 64
  {
    if t == 0 then v else Round(Rounds(v, block, t - 1), RoundConstants()[t - 1], Schedule(block, t - 1))
  }

  function Compress(hash: seq<Word>, block: seq<Byte>): (r: seq<Word>)
    requires |hash| == WORDS && |block| == BLOCK
    ensures |r| == WORDS
  {
    var v := Rounds(Start(hash), block, 64);
    [Sum(v.a, hash[0]), Sum(v.b, hash[1]), Sum(v.c, hash[2]), Sum(v.d, hash[3]),
     Sum(v.e, hash[4]), Sum(v.f, hash[5]), Sum(v.g, hash[6]), Sum(v.h, hash[7])]
  }

  /** Folding the compression over the first `n` blocks of `data`. */
  function Absorb(hash: seq<Word>, data: seq<Byte>, n: nat): (r: seq<Word>)
    requires |hash| == WORDS && At(n) <= |data|
    ensures |r| == WORDS
  {
    if n == 0 then hash else Compress(Absorb(hash, data, n - 1), data[At(n - 1)..At(n)])
  }

  /** Blocks of the padded form of an `n`-byte message: room for the 0x80 byte and eight length bytes. */
  function PaddedBlocks(n: nat): nat {
    (n + 9 + (BLOCK - 1)) / BLOCK
  }

  /** The smallest number of zero bytes that fills the last block. */
  function ZeroCount(n: nat): (z: nat)
    ensures z < BLOCK && n + 1 + z + 8 == At(PaddedBlocks(n))
  {
    At(PaddedBlocks(n)) - (n + 9)
  }

  function Zeros(n: nat): (r: seq<Byte>)
    ensures |r| == n && forall i :: 0 <= i < n ==> r[i] == 0
  {
    if n == 0 then [] else Zeros(n - 1) + [0]
  }

  const LIMIT: nat := 0x2000_0000_0000_0000

  /** The low `k` base-256 digits of a number, most significant first. */
  function Digits(n: nat, k: nat): (r: seq<nat>)
    ensures |r| == k && forall i :: 0 <= i < k ==> r[i] < 0x100
  {
    if k == 0 then [] else Digits(n / 0x100, k - 1) + [n % 0x100]
  }

  /** The number that digits spell. */
  function Spelled(s: seq<nat>): nat {
    if s == [] then 0 else 0x100 * Spelled(s[..|s| - 1]) + s[|s| - 1]
  }

  function Power(k: nat): nat {
    if k == 0 then 1 else 0x100 * Power(k - 1)
  }

  /** The digits spell the number back whenever it fits. */
  lemma {:induction false} DigitsSpell(n: nat, k: nat)
    requires n < Power(k)
    ensures Spelled(Digits(n, k)) == n
  {
    if k > 0 {
      DigitsSpell(n / 0x100, k - 1);
      assert (Digits(n / 0x100, k - 1) + [n % 0x100])[..k - 1] == Digits(n / 0x100, k - 1);
    }
  }

  /** The bit count as eight bytes, most significant first. */
  function LengthBytes(bits: nat): (r: seq<Byte>)
    requires bits < 8 * LIMIT
    ensures |r| == 8
  {
    var digits := Digits(bits, 8);
    seq(8, i requires 0 <= i < 8 => digits[i] as Byte)
  }

  function Pad(message: seq<Byte>): (r: seq<Byte>)
    requires |message| < LIMIT
    ensures |r| == At(PaddedBlocks(|message|))
  {
    message + [0x80] + Zeros(ZeroCount(|message|)) + LengthBytes(8 * |message|)
  }

  function WordBytes(w: Word): (r: seq<Byte>)
    ensures |r| == 4
  {
    [((w >> 24) & 0xFF) as Byte, ((w >> 16) & 0xFF) as Byte, ((w >> 8) & 0xFF) as Byte, (w & 0xFF) as Byte]
  }

  /** The words of the hash, most significant byte first. */
  function Digest(hash: seq<Word>): seq<Byte> {
    if hash == [] then [] else Digest(hash[..|hash| - 1]) + WordBytes(hash[|hash| - 1])
  }

  function Hash(message: seq<Byte>): seq<Byte>
    requires |message| < LIMIT
  {
    Digest(Absorb(InitialHash(), Pad(message), PaddedBlocks(|message|)))
  }

  // ---------------------------------------------------------------------------
  // Absorbing in pieces
  // ---------------------------------------------------------------------------

  /** Later bytes do not change what earlier blocks make. */
  lemma {:induction false} AbsorbPrefix(hash: seq<Word>, data: seq<Byte>, more: seq<Byte>, n: nat)
    requires |hash| == WORDS && At(n) <= |data|
    ensures Absorb(hash, data + more, n) == Absorb(hash, data, n)
  {
    hide Compress;
    if n > 0 {
      AbsorbPrefix(hash, data, more, n - 1);
      assert (data + more)[At(n - 1)..At(n)] == data[At(n - 1)..At(n)];
    }
  }

  lemma AbsorbNext(hash: seq<Word>, data: seq<Byte>, n: nat)
    requires |hash| == WORDS && At(n) + BLOCK <= |data|
    ensures Absorb(hash, data, n + 1) == Compress(Absorb(hash, data, n), data[At(n)..At(n) + BLOCK])
  {
    hide Compress;
  }

  /** Absorbing may be cut at any block. */
  lemma {:induction false} AbsorbCut(hash: seq<Word>, data: seq<Byte>, b: nat, n: nat)
    requires |hash| == WORDS && At(b) + At(n) <= |data|
    ensures Absorb(Absorb(hash, data, b), data[At(b)..], n) == Absorb(hash, data, b + n)
  {
    hide Compress;
    if n > 0 {
      AbsorbCut(hash, data, b, n - 1);
      assert data[At(b)..][At(n - 1)..At(n)] == data[At(b + n - 1)..At(b + n)];
    }
  }

  // ---------------------------------------------------------------------------
  // The compression function
  // ---------------------------------------------------------------------------

  /** The schedule in a table of 64 words. */
  method FillSchedule(block: seq<Byte>) returns (w: array<Word>)
    requires |block| == BLOCK
    ensures w.Length == 64 && fresh(w) && forall t :: 0 <= t < 64 ==> w[t] == Schedule(block, t)
  {
    hide Schedule, Add4, BigEndian, SmallSigma0, SmallSigma1;
    w := new Word[64](_ => 0);
    for i := 0 to 16
      invariant forall t :: 0 <= t < i ==> w[t] == Schedule(block, t)
    {
      ScheduleStart(block, i);
      w[i] := BigEndian(block[4 * i], block[4 * i + 1], block[4 * i + 2], block[4 * i + 3]);
    }
    for i := 16 to 64
      invariant forall t :: 0 <= t < i ==> w[t] == Schedule(block, t)
    {
      ScheduleStep(block, i);
      var s0, s1 := SmallSigma0(w[i - 15]), SmallSigma1(w[i - 2]);
      Add4Reversed(w[i - 16], s0, w[i - 7], s1);
      w[i] := Add4(w[i - 16], s0, w[i - 7], s1);
    }
  }

  /** The loop adds the four terms up in the opposite order. */
  lemma Add4Reversed(a: Word, b: Word, c: Word, d: Word)
    ensures Add4(a, b, c, d) == Add4(d, c, b, a)
  {
  }

  lemma ScheduleStart(block: seq<Byte>, t: nat)
    requires |block| == BLOCK && t < 16
    ensures Schedule(block, t) == BigEndian(block[4 * t], block[4 * t + 1], block[4 * t + 2], block[4 * t + 3])
  {
    hide BigEndian;
  }

  lemma ScheduleStep(block: seq<Byte>, t: nat)
    requires |block| == BLOCK && 16 <= t
    ensures Schedule(block, t) ==
            Extend(Schedule(block, t - 2), Schedule(block, t - 7), Schedule(block, t - 15), Schedule(block, t - 16))
  {
    hide BigEndian, Extend;
  }

  /** One block into the hash. */
  method CompressBlock(state: seq<Word>, block: seq<Byte>) returns (r: seq<Word>)
    requires |state| == WORDS && |block| == BLOCK
    ensures |r| == WORDS && r == Compress(state, block)
  {
    hide Schedule, RoundConstants, Temp1, Temp2, Sum, Rounds;
    var w := FillSchedule(block);
    var k := RoundConstants();
    var a, b, c, d := state[0], state[1], state[2], state[3];
    var e, f, g, h := state[4], state[5], state[6], state[7];
    NoRounds(Start(state), block);
    for i := 0 to 64
      invariant Vars(a, b, c, d, e, f, g, h) == Rounds(Start(state), block, i)
      invariant forall t :: 0 <= t < 64 ==> w[t] == Schedule(block, t)
    {
      OneRound(Start(state), block, i);
      var t1 := Temp1(e, f, g, h, k[i], w[i]);
      var t2 := Temp2(a, b, c);
      h := g;
      g := f;
      f := e;
      e := Sum(d, t1);
      d := c;
      c := b;
      b := a;
      a := Sum(t1, t2);
    }
    r := [Sum(a, state[0]), Sum(b, state[1]), Sum(c, state[2]), Sum(d, state[3]),
          Sum(e, state[4]), Sum(f, state[5]), Sum(g, state[6]), Sum(h, state[7])];
  }

  lemma NoRounds(v: Vars, block: seq<Byte>)
    requires |block| == BLOCK
    ensures Rounds(v, block, 0) == v
  {
  }

  lemma OneRound(v: Vars, block: seq<Byte>, t: nat)
    requires |block| == BLOCK && t < 64
    ensures Rounds(v, block, t + 1) == Round(Rounds(v, block, t), RoundConstants()[t], Schedule(block, t))
  {
    hide Schedule, RoundConstants, Round;
  }

  /** Hash whole blocks straight from the input, from byte `start` on. */
  method WholeBlocks(hash: seq<Word>, data: seq<Byte>, start: nat) returns (r: seq<Word>, offset: nat, ghost n: nat)
    requires |hash| == WORDS && start <= |data|
    ensures offset == start + At(n) <= |data| < offset + BLOCK
    ensures |r| == WORDS && r == Absorb(hash, data[start..], n)
  {
    hide Absorb, Compress;
    r, offset, n := hash, start, 0;
    AbsorbNone(hash, data[start..]);
    while offset + BLOCK <= |data|
      invariant offset == start + At(n) <= |data| && |r| == WORDS && r == Absorb(hash, data[start..], n)
    {
      AbsorbNext(hash, data[start..], n);
      assert data[start..][At(n)..At(n) + BLOCK] == data[offset..offset + BLOCK];
      r := CompressBlock(r, data[offset..offset + BLOCK]);
      offset, n := offset + BLOCK, n + 1;
    }
  }

  lemma AbsorbNone(hash: seq<Word>, data: seq<Byte>)
    requires |hash| == WORDS
    ensures Absorb(hash, data, 0) == hash
  {
    hide Compress;
  }

  // ---------------------------------------------------------------------------
  // The hasher
  // ---------------------------------------------------------------------------

  class Hasher {
    var state: seq<Word>
    const buffer: array<Byte>
    var bufferLen: nat
    var total: nat
    ghost var message: seq<Byte>
    ghost var blocks: nat

    /** The state has absorbed the whole blocks of the message and the buffer holds the rest. */
    ghost predicate Valid()
      reads this, buffer
    {
      && |state| == WORDS && buffer.Length == BLOCK && bufferLen < BLOCK
      && total == |message| < LIMIT && total == At(blocks) + bufferLen
      && state == Absorb(InitialHash(), message, blocks)
      && buffer[..bufferLen] == message[At(blocks)..]
    }

    constructor ()
      ensures Valid() && message == [] && fresh(buffer)
    {
      state := InitialHash();
      buffer := new Byte[BLOCK](_ => 0);
      bufferLen, total := 0, 0;
      message, blocks := [], 0;
    }

    /** Copy `src` into the buffer from byte `at` on. */
    method Fill(src: seq<Byte>, at: nat)
      requires buffer.Length == BLOCK && at + |src| <= BLOCK
      modifies buffer
      ensures buffer[..] == old(buffer[..])[..at] + src + old(buffer[..])[at + |src|..]
    {
      for k := 0 to |src|
        invariant buffer[..] == old(buffer[..])[..at] + src[..k] + old(buffer[..])[at + k..]
      {
        buffer[at + k] := src[k];
      }
    }

    /** The first `done` bytes of `all` are in the state or in the buffer. */
    ghost predicate Holding(all: seq<Byte>, done: nat)
      reads this, buffer
    {
      && |state| == WORDS && buffer.Length == BLOCK && bufferLen < BLOCK
      && done == At(blocks) + bufferLen <= |all|
      && state == Absorb(InitialHash(), all, blocks)
      && buffer[..bufferLen] == all[At(blocks)..At(blocks) + bufferLen]
    }

    /** Complete a partly filled buffer; a full one is hashed. */
    method TopUp(data: seq<Byte>, ghost all: seq<Byte>) returns (offset: nat)
      requires |data| <= |all| && Holding(all, |all| - |data|) && data == all[|all| - |data|..]
      modifies this`state, this`bufferLen, this`blocks, buffer
      ensures offset <= |data| && Holding(all, |all| - |data| + offset) && (bufferLen == 0 || offset == |data|)
    {
      hide Absorb, Compress, InitialHash;
      if bufferLen == 0 {
        return 0;
      }
      var needed := BLOCK - bufferLen;
      offset := if needed < |data| then needed else |data|;
      ghost var before, len := buffer[..], bufferLen;
      Fill(data[..offset], bufferLen);
      bufferLen := bufferLen + offset;
      Filled(before, buffer[..], len, data, offset, all, blocks);
      if bufferLen == BLOCK {
        AbsorbNext(InitialHash(), all, blocks);
        state := CompressBlock(state, buffer[..]);
        bufferLen, blocks := 0, blocks + 1;
      }
    }

    /** Feed `data`: complete the buffered block, hash whole blocks from the input, keep the rest. */
    method Update(data: seq<Byte>)
      requires Valid() && |message| + |data| < LIMIT
      modifies this, buffer
      ensures Valid() && message == old(message) + data
    {
      hide Absorb, Compress, InitialHash, At;
      ghost var all := message + data;
      AbsorbPrefix(InitialHash(), message, data, blocks);
      assert all[At(blocks)..At(blocks) + bufferLen] == message[At(blocks)..];
      assert data == all[|all| - |data|..];
      total := total + |data|;
      message := all;
      var offset := TopUp(data, all);
      ghost var n;
      ghost var start := offset;
      state, offset, n := WholeBlocks(state, data, offset);
      Continue(all, blocks, data, start, bufferLen, n);
      blocks := blocks + n;
      if offset < |data| {
        Fill(data[offset..], 0);
        bufferLen := |data| - offset;
        assert buffer[..bufferLen] == data[offset..];
        assert data[offset..] == all[At(blocks)..];
      } else {
        assert all[At(blocks)..At(blocks) + bufferLen] == all[At(blocks)..];
      }
    }

    /** Zero the bytes `lo..hi` of the buffer. */
    method ZeroFrom(lo: nat, hi: nat)
      requires buffer.Length == BLOCK && lo <= hi <= BLOCK
      modifies buffer
      ensures buffer[..] == old(buffer[..])[..lo] + Zeros(hi - lo) + old(buffer[..])[hi..]
    {
      for k := lo to hi
        invariant buffer[..] == old(buffer[..])[..lo] + Zeros(k - lo) + old(buffer[..])[k..]
      {
        buffer[k] := 0;
      }
    }

    /** No room for the length: fill the block with zeros, hash it and start an empty one. */
    method SpillBlock(ghost all: seq<Byte>, ghost b: nat, ghost kept: seq<Byte>, ghost length: seq<Byte>)
      requires |state| == WORDS && buffer.Length == BLOCK && 56 <= |kept| < BLOCK && |length| == 8
      requires bufferLen == |kept| + 1 && buffer[..bufferLen] == kept + [0x80] && Tail(all, b, kept, length)
      requires state == Absorb(InitialHash(), all, b)
      modifies this`state, this`bufferLen, buffer
      ensures |state| == WORDS && bufferLen == 0 && state == Absorb(InitialHash(), all, b + 1)
    {
      hide Absorb, Compress, InitialHash, Zeros;
      ZeroFrom(bufferLen, BLOCK);
      assert buffer[..] == kept + [0x80] + Zeros(63 - |kept|);
      AbsorbNext(InitialHash(), all, b);
      state := CompressBlock(state, buffer[..]);
      bufferLen := 0;
      ZeroFrom(0, BLOCK);
    }

    /** Pad, hash the last one or two blocks, and give the digest. The hasher is used up. */
    method Finalize() returns (digest: seq<Byte>)
      requires Valid()
      modifies this, buffer
      ensures digest == Hash(old(message))
    {
      hide Absorb, Compress, InitialHash, Digest, LengthBytes, Zeros, PaddedBlocks, Pad;
      ghost var all, b, kept, length := Pad(message), blocks, buffer[..bufferLen], LengthBytes(8 * total);
      PadSplits(message, b);
      Fill([0x80], bufferLen);
      bufferLen := bufferLen + 1;
      if bufferLen > 56 {
        SpillBlock(all, b, kept, length);
        b := b + 1;
      }
      ZeroFrom(bufferLen, 56);
      Fill(LengthBytes(total * 8), 56);
      assert buffer[..] == (if |kept| < 56 then kept + [0x80] + Zeros(55 - |kept|) else Zeros(56)) + length;
      AbsorbNext(InitialHash(), all, b);
      state := CompressBlock(state, buffer[..]);
      digest := ToBytes(state);
    }
  }

  method ToBytes(hash: seq<Word>) returns (digest: seq<Byte>)
    ensures digest == Digest(hash)
  {
    hide WordBytes;
    digest := [];
    for i := 0 to |hash|
      invariant digest == Digest(hash[..i])
    {
      assert hash[..i + 1][..i] == hash[..i];
      digest := digest + WordBytes(hash[i]);
    }
    assert hash[..|hash|] == hash;
  }

  function Joined(parts: seq<seq<Byte>>): seq<Byte> {
    if parts == [] then [] else Joined(parts[..|parts| - 1]) + parts[|parts| - 1]
  }

  lemma {:induction false} JoinedPrefix(parts: seq<seq<Byte>>, n: nat)
    requires n <= |parts|
    ensures |Joined(parts[..n])| <= |Joined(parts)|
    decreases |parts|
  {
    if n < |parts| {
      assert parts[..|parts| - 1][..n] == parts[..n];
      JoinedPrefix(parts[..|parts| - 1], n);
    } else {
      assert parts[..n] == parts;
    }
  }

  /** Any split of a message into updates gives the digest of the message. */
  method HashPieces(parts: seq<seq<Byte>>) returns (digest: seq<Byte>)
    requires |Joined(parts)| < LIMIT
    ensures digest == Hash(Joined(parts))
  {
    hide Hash;
    var hasher := new Hasher();
    for i := 0 to |parts|
      invariant hasher.Valid() && fresh(hasher) && fresh(hasher.buffer) && hasher.message == Joined(parts[..i])
    {
      JoinedPrefix(parts, i + 1);
      assert parts[..i + 1][..i] == parts[..i];
      hasher.Update(parts[i]);
    }
    assert parts[..|parts|] == parts;
    digest := hasher.Finalize();
  }

  // ---------------------------------------------------------------------------
  // Slices of the message
  // ---------------------------------------------------------------------------

  /** The last one or two blocks of `all`: what is kept of the message, the 0x80 byte, zeros and the length. */
  predicate Tail(all: seq<Byte>, b: nat, kept: seq<Byte>, length: seq<Byte>)
    requires |kept| < BLOCK && |length| == 8
  {
    var at, r := At(b), |kept|;
    && |all| == at + (if r < 56 then 64 else 128)
    && (if r < 56 then all[at..at + 64] == kept + [0x80] + Zeros(55 - r) + length
        else && all[at..at + 64] == kept + [0x80] + Zeros(63 - r)
             && all[at + 64..at + 128] == Zeros(56) + length)
  }

  /** The blocks of the padded message after its first `b` ones. */
  lemma PadSplits(message: seq<Byte>, b: nat)
    requires |message| < LIMIT && At(b) <= |message| < At(b) + BLOCK
    ensures Tail(Pad(message), b, message[At(b)..], LengthBytes(8 * |message|))
    ensures Absorb(InitialHash(), Pad(message), b) == Absorb(InitialHash(), message, b)
    ensures PaddedBlocks(|message|) == if |message| - At(b) < 56 then b + 1 else b + 2
  {
    hide Absorb, Compress, InitialHash, LengthBytes, Zeros, Tail, PaddedBlocks;
    var length, z := LengthBytes(8 * |message|), ZeroCount(|message|);
    PaddedCount(|message|, b);
    AbsorbPrefix(InitialHash(), message, [0x80] + Zeros(z) + length, b);
    assert Pad(message) == message + ([0x80] + Zeros(z) + length);
    PadTail(message, b, z, length);
  }

  lemma PaddedCount(n: nat, b: nat)
    requires At(b) <= n < At(b) + BLOCK
    ensures PaddedBlocks(n) == if n - At(b) < 56 then b + 1 else b + 2
  {
  }

  lemma PadTail(message: seq<Byte>, b: nat, z: nat, length: seq<Byte>)
    requires At(b) <= |message| < At(b) + BLOCK && |length| == 8
    requires z == (if |message| - At(b) < 56 then 55 else 119) - (|message| - At(b))
    ensures Tail(message + [0x80] + Zeros(z) + length, b, message[At(b)..], length)
  {
    hide Zeros, At;
    var all, r, kept := message + [0x80] + Zeros(z) + length, |message| - At(b), message[At(b)..];
    var at, tail := At(b), kept + [0x80] + Zeros(z) + length;
    assert all[at..] == tail;
    assert all[at..at + 64] == tail[..64];
    if r >= 56 {
      assert Zeros(z)[..63 - r] == Zeros(63 - r) && Zeros(z)[63 - r..] == Zeros(56);
      assert tail[..64] == kept + [0x80] + Zeros(z)[..63 - r];
      assert all[at + 64..at + 128] == tail[64..];
      assert tail[64..] == Zeros(z)[63 - r..] + length;
    }
  }

  /** Either no input is left, or what is left follows the absorbed blocks. */
  lemma Continue(all: seq<Byte>, blocks: nat, data: seq<Byte>, start: nat, kept: nat, n: nat)
    requires start + At(n) <= |data| <= |all| && data == all[|all| - |data|..]
    requires |all| - |data| + start == At(blocks) + kept && (kept == 0 || start == |data|)
    ensures Absorb(Absorb(InitialHash(), all, blocks), data[start..], n) == Absorb(InitialHash(), all, blocks + n)
    ensures At(blocks + n) == At(blocks) + At(n) && (kept != 0 ==> n == 0)
  {
    hide Absorb, Compress, InitialHash;
    if kept == 0 {
      assert data[start..] == all[At(blocks)..];
      AbsorbCut(InitialHash(), all, blocks, n);
    } else {
      AbsorbNone(Absorb(InitialHash(), all, blocks), data[start..]);
    }
  }

  lemma Filled(before: seq<Byte>, after: seq<Byte>, len: nat, data: seq<Byte>, n: nat, all: seq<Byte>, blocks: nat)
    requires |before| == BLOCK && len + n <= BLOCK && n <= |data| <= |all| && data == all[|all| - |data|..]
    requires after == before[..len] + data[..n] + before[len + n..] && |all| - |data| == At(blocks) + len
    requires before[..len] == all[At(blocks)..At(blocks) + len]
    ensures after[..len + n] == all[At(blocks)..At(blocks) + len + n]
    ensures len + n == BLOCK ==> after == all[At(blocks)..At(blocks) + BLOCK]
  {
    var at := At(blocks);
    assert data[..n] == all[at + len..at + len + n];
    assert all[at..at + len] + all[at + len..at + len + n] == all[at..at + len + n];
    assert after[..len + n] == before[..len] + data[..n];
  }
}
