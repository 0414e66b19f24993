/** Streaming and one-shot SHA-256 around an arbitrary compression function. */
module Sha256 {
  import opened Geometry

  type Byte = b: nat | b < 256
  const BLOCK: nat := 64
  const WRAP: nat := 0x1_0000_0000_0000_0000

  /** The initial hash value and the compression of one block. */
  datatype Hash<!S> = Hash(initial: S, compress: (S, seq<Byte>) -> S)

  /** Block after block, as section 6.2.2 of FIPS 180-4 iterates. */
  function Fold<S>(h: Hash<S>, msg: seq<Byte>): S {
    if |msg| < BLOCK then h.initial
    else h.compress(Fold(h, msg[..|msg| - BLOCK]), msg[|msg| - BLOCK..])
  }

  function Zeros(n: nat): (r: seq<Byte>)
    ensures |r| == n && forall i :: 0 <= i < n ==> r[i] == 0
  {
    if n == 0 then [] else Zeros(n - 1) + [0]
  }

  /** The low 64 bits of a number, most significant byte first. */
  function Big(n: nat, bytes: nat): (r: seq<Byte>)
    ensures |r| == bytes
  {
    if bytes == 0 then [] else Big(n / 256, bytes - 1) + [n % 256]
  }

  /** Zero bytes between the 0x80 and the length: the fewest that fill a block. */
  function Gap(n: nat): nat { if n % BLOCK < 56 then 55 - n % BLOCK else 119 - n % BLOCK }

  function Length(n: nat): (r: seq<Byte>)
    ensures |r| == 8
  {
    Big(n % WRAP * 8 % WRAP, 8)
  }

  /** The padding of section 5.1.1 of FIPS 180-4. */
  function Padded(msg: seq<Byte>): (r: seq<Byte>)
    ensures |r| % BLOCK == 0
  {
    PadSize(|msg|, 0);
    msg + [0x80] + Zeros(Gap(|msg|)) + Length(|msg|)
  }

  /** The gap fills a block, and no smaller number `k` of zeros would. */
  lemma PadSize(n: nat, k: nat)
    ensures (n + 1 + Gap(n) + 8) % BLOCK == 0
    ensures (n + 1 + k + 8) % BLOCK == 0 ==> Gap(n) <= k
  {
  }

  function Digest<S>(h: Hash<S>, msg: seq<Byte>): S { Fold(h, Padded(msg)) }

  lemma FoldNext<S>(h: Hash<S>, msg: seq<Byte>, block: seq<Byte>)
    requires |block| == BLOCK
    ensures Fold(h, msg + block) == h.compress(Fold(h, msg), block)
  {
    assert (msg + block)[..|msg|] == msg && (msg + block)[|msg|..] == block;
  }

  lemma OneMore(n: nat)
    requires n % BLOCK == 0
    ensures (n + BLOCK) % BLOCK == 0
  {
  }

  lemma Remainder(n: nat, m: nat)
    requires n % BLOCK == 0 && m < BLOCK
    ensures (n + m) % BLOCK == m
  {
  }

  lemma Joined(a: seq<Byte>, b: seq<Byte>, c: seq<Byte>)
    ensures a + (b + c) == a + b + c
  {
  }

  lemma ZerosConcat(a: nat, b: nat)
    ensures Zeros(a) + Zeros(b) == Zeros(a + b)
  {
  }

  lemma SameLength(n: nat)
    ensures Length(n % WRAP) == Length(n)
  {
    hide Big;
  }

  /** The end of a message that leaves room for the length in its last block. */
  lemma OneBlock(whole: seq<Byte>, rest: seq<Byte>)
    requires |whole| % BLOCK == 0 && |rest| < 56
    ensures whole + (rest + [0x80] + Zeros(55 - |rest|) + Length(|whole + rest|)) == Padded(whole + rest)
  {
    hide Zeros, Length;
    var n := |whole + rest|;
    Remainder(|whole|, |rest|);
    assert Gap(n) == 55 - |rest|;
    Joined(whole, rest + [0x80] + Zeros(55 - |rest|), Length(n));
    Joined(whole, rest + [0x80], Zeros(55 - |rest|));
    Joined(whole, rest, [0x80]);
  }

  /** The end of a message that needs one more block. */
  lemma TwoBlocks(whole: seq<Byte>, rest: seq<Byte>)
    requires |whole| % BLOCK == 0 && 56 <= |rest| < BLOCK
    ensures whole + (rest + [0x80] + Zeros(63 - |rest|)) + (Zeros(56) + Length(|whole + rest|)) == Padded(whole + rest)
  {
    hide Zeros, Length;
    var n := |whole + rest|;
    Remainder(|whole|, |rest|);
    assert Gap(n) == 63 - |rest| + 56;
    ZerosConcat(63 - |rest|, 56);
    Joined(whole, rest + [0x80], Zeros(63 - |rest|));
    Joined(whole, rest, [0x80]);
    Joined(whole + rest + [0x80], Zeros(63 - |rest|), Zeros(56));
    Joined(whole + rest + [0x80] + Zeros(63 - |rest|), Zeros(56), Length(n));
  }

  /** The streaming context. */
  class Context<!S(0)> {
    const hash: Hash<S>
    var state: S
    var block: array<Byte>
    var used: nat
    var total: nat
    /** The part of the message that is compressed already. */
    ghost var whole: seq<Byte>

    ghost predicate Valid()
      reads this, block
    {
      && block.Length == BLOCK && used < BLOCK && |whole| % BLOCK == 0
      && state == Fold(hash, whole) && total == |Fed()| % WRAP
    }

    /** Everything fed so far. */
    ghost function Fed(): seq<Byte>
      reads this, block
    {
      if used <= block.Length then whole + block[..used] else whole
    }

    constructor (hash: Hash<S>)
      ensures Valid() && Fed() == [] && fresh(block) && this.hash == hash
    {
      this.hash, state, used, total, whole := hash, hash.initial, 0, 0, [];
      block := new Byte[BLOCK](_ => 0);
    }

    /** Copies bytes into the buffer behind the ones in use. */
    method Fill(data: seq<Byte>)
      requires block.Length == BLOCK && used + |data| <= BLOCK
      modifies block
      ensures block[..used + |data|] == old(block[..used]) + data
    {
      for i := 0 to |data|
        invariant block[..used + i] == old(block[..used]) + data[..i]
      {
        block[used + i] := data[i];
        assert block[..used + i + 1] == block[..used + i] + [data[i]];
        assert data[..i + 1] == data[..i] + [data[i]];
      }
      assert data[..|data|] == data;
    }

    /** Compresses the full buffer. */
    method Compress()
      requires block.Length == BLOCK && |whole| % BLOCK == 0 && state == Fold(hash, whole)
      modifies this`state, this`used, this`whole
      ensures used == 0 && whole == old(whole) + block[..] && |whole| % BLOCK == 0 && state == Fold(hash, whole)
    {
      hide Fold;
      FoldNext(hash, whole, block[..]);
      OneMore(|whole|);
      whole := whole + block[..];
      state := hash.compress(state, block[..]);
      used := 0;
    }

    /** Takes at most what fits into the buffer. */
    method Absorb(data: seq<Byte>)
      requires block.Length == BLOCK && used < BLOCK && |whole| % BLOCK == 0 && state == Fold(hash, whole)
      requires used + |data| <= BLOCK
      modifies this`state, this`used, this`whole, block
      ensures used < BLOCK && |whole| % BLOCK == 0 && state == Fold(hash, whole)
      ensures whole + block[..used] == old(whole + block[..used]) + data
    {
      hide Fold;
      Joined(whole, block[..used], data);
      Fill(data);
      used := used + |data|;
      if used == BLOCK {
        assert block[..] == block[..used];
        Compress();
        assert whole + block[..0] == whole;
      }
    }

    /** Takes any number of bytes. */
    method Update(data: seq<Byte>)
      requires Valid()
      modifies this, block
      ensures Valid() && Fed() == old(Fed()) + data && block == old(block)
    {
      hide Fold;
      ghost var start := Fed();
      total := (total + |data|) % WRAP;
      var done := 0;
      assert start + data[..0] == start;
      while done < |data|
        invariant done <= |data| && block == old(block) && block.Length == BLOCK && used < BLOCK
        invariant |whole| % BLOCK == 0 && state == Fold(hash, whole) && whole + block[..used] == start + data[..done]
        invariant total == (|start| + |data|) % WRAP
        decreases |data| - done
      {
        var take := Min(|data| - done, BLOCK - used);
        Joined(start, data[..done], data[done..done + take]);
        Absorb(data[done..done + take]);
        assert data[..done] + data[done..done + take] == data[..done + take];
        done := done + take;
      }
      assert data[..|data|] == data;
    }

    /** Pads and returns the digest of everything fed. */
    method Final() returns (out: S)
      requires Valid()
      modifies this, block
      ensures out == Digest(hash, old(Fed()))
    {
      hide Fold, Zeros, Length, Padded;
      ghost var rest, before := block[..used], whole;
      SameLength(|before + rest|);
      block[used] := 0x80;
      used := used + 1;
      assert block[..used] == rest + [0x80];
      if used > 56 {
        Fill(Zeros(BLOCK - used));
        assert block[..] == block[..BLOCK];
        Compress();
        TwoBlocks(before, rest);
      } else {
        OneBlock(before, rest);
      }
      ghost var tail := block[..used];
      Fill(Zeros(56 - used));
      used := 56;
      Fill(Length(total));
      assert block[..] == block[..BLOCK] == tail + Zeros(56 - |tail|) + Length(total);
      assert tail == [] ==> tail + Zeros(56 - |tail|) == Zeros(56);
      Compress();
      out := state;
    }
  }

  /** Splitting the message differently makes no difference. */
  method Stream<S(0)>(h: Hash<S>, parts: seq<seq<Byte>>) returns (out: S)
    ensures out == Digest(h, Concat(parts))
  {
    var c := new Context(h);
    for i := 0 to |parts|
      invariant c.Valid() && fresh(c) && fresh(c.block) && c.hash == h && c.Fed() == Concat(parts[..i])
    {
      assert parts[..i + 1][..i] == parts[..i];
      c.Update(parts[i]);
    }
    assert parts[..|parts|] == parts;
    out := c.Final();
  }

  function Concat(parts: seq<seq<Byte>>): seq<Byte> {
    if parts == [] then [] else Concat(parts[..|parts| - 1]) + parts[|parts| - 1]
  }

  /** The one-shot form: whole blocks in place, then a tail of one or two blocks. */
  method OneShot<S>(h: Hash<S>, data: seq<Byte>) returns (out: S)
    ensures out == Digest(h, data)
  {
    hide Fold, Zeros, Length, Padded;
    var at := 0;
    out := h.initial;
    NothingYet(h);
    while |data| - at >= BLOCK
      invariant at <= |data| && at % BLOCK == 0 && out == Fold(h, data[..at])
    {
      FoldNext(h, data[..at], data[at..at + BLOCK]);
      assert data[..at] + data[at..at + BLOCK] == data[..at + BLOCK];
      out := h.compress(out, data[at..at + BLOCK]);
      at := at + BLOCK;
    }
    var rest := data[at..];
    assert data == data[..at] + rest;
    if |rest| < 56 {
      var tail := rest + [0x80] + Zeros(55 - |rest|) + Length(|data|);
      OneBlock(data[..at], rest);
      FoldNext(h, data[..at], tail);
      out := h.compress(out, tail);
    } else {
      var first, second := rest + [0x80] + Zeros(63 - |rest|), Zeros(56) + Length(|data|);
      TwoBlocks(data[..at], rest);
      FoldNext(h, data[..at], first);
      FoldNext(h, data[..at] + first, second);
      out := h.compress(h.compress(out, first), second);
    }
  }

  lemma NothingYet<S>(h: Hash<S>)
    ensures Fold(h, []) == h.initial
  {
  }

  /** The digest that routes a name: folded in parts of 64 bytes, it is that of the folded name. */
  method NameDigest<S(0)>(h: Hash<S>, fold: Byte -> Byte, name: seq<Byte>) returns (out: S)
    ensures out == Digest(h, Mapped(fold, name))
  {
    hide Digest, Fold, Mapped, Context.Valid, Context.Fed;
    var c := new Context(h);
    var at := 0;
    assert |Mapped(fold, name[..0])| == 0;
    while at < |name|
      invariant at <= |name| && c.Valid() && fresh(c) && fresh(c.block) && c.hash == h
      invariant c.Fed() == Mapped(fold, name[..at])
    {
      var count := Min(BLOCK, |name| - at);
      var folded := Mapped(fold, name[at..at + count]);
      c.Update(folded);
      MappedJoin(fold, name, at, at + count);
      at := at + count;
    }
    assert name[..|name|] == name;
    out := c.Final();
  }

  function Mapped(fold: Byte -> Byte, name: seq<Byte>): (r: seq<Byte>)
    ensures |r| == |name| && forall i :: 0 <= i < |name| ==> r[i] == fold(name[i])
  {
    seq(|name|, (i: nat) requires i < |name| => fold(name[i]))
  }

  lemma MappedJoin(fold: Byte -> Byte, name: seq<Byte>, a: nat, b: nat)
    requires a <= b <= |name|
    ensures Mapped(fold, name[..a]) + Mapped(fold, name[a..b]) == Mapped(fold, name[..b])
  {
  }
}
