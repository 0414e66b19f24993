/** The on-disk form of a recovery locator: which 4096-byte blocks decode, and to what.
    The checksum is any function of the block; the proofs use nothing else about it. */
module LocatorCodec {
  import opened Geometry
  import opened Discovery

  type Byte = b: nat | b < 256
  type Crc = seq<Byte> -> nat

  const BLOCK: nat := 4096
  const HEADER: nat := 80
  const MAGIC: seq<Byte> := [0x49, 0x4E, 0x46, 0x53, 0x4C, 0x30, 0x31, 0x39]
  const SCHEMA := 1
  const MAJOR := 0
  const MINOR := 19

  function Pow256(n: nat): nat { if n == 0 then 1 else 256 * Pow256(n - 1) }

  function Zeros(n: nat): (z: seq<Byte>)
    ensures |z| == n
  {
    seq(n, _ => 0)
  }

  /** The low `n` bytes of a number, least significant first. */
  function Le(v: nat, n: nat): (s: seq<Byte>)
    ensures |s| == n
    decreases n
  {
    if n == 0 then [] else [v % 256] + Le(v / 256, n - 1)
  }

  function FromLe(s: seq<Byte>): nat {
    if s == [] then 0 else s[0] + 256 * FromLe(s[1..])
  }

  lemma {:induction false} LeInverse(v: nat, n: nat)
    requires v < Pow256(n)
    ensures FromLe(Le(v, n)) == v
    decreases n
  {
    if n > 0 {
      assert v / 256 < Pow256(n - 1);
      LeInverse(v / 256, n - 1);
      assert Le(v, n)[1..] == Le(v / 256, n - 1);
    }
  }

  lemma {:induction false} FromLeInverse(s: seq<Byte>)
    ensures Le(FromLe(s), |s|) == s && FromLe(s) < Pow256(|s|)
  {
    if s != [] {
      FromLeInverse(s[1..]);
      var rest := FromLe(s[1..]);
      assert (s[0] + 256 * rest) % 256 == s[0] && (s[0] + 256 * rest) / 256 == rest;
      assert s == [s[0]] + s[1..];
    }
  }

  /** The identifier is missing exactly when all its bytes are zero. */
  lemma {:induction false} NonZeroBytes(s: seq<Byte>)
    ensures FromLe(s) != 0 <==> exists i :: 0 <= i < |s| && s[i] != 0
  {
    if s != [] {
      NonZeroBytes(s[1..]);
      if FromLe(s[1..]) != 0 {
        var i :| 0 <= i < |s[1..]| && s[1..][i] != 0;
        assert s[i + 1] != 0;
      } else {
        assert forall i :: 0 < i < |s| ==> s[i] == s[1..][i - 1];
      }
    }
  }

  /** The loop over the identifier's bytes decides whether there is one. */
  method HasUuid(bytes: seq<Byte>) returns (found: bool)
    ensures found <==> FromLe(bytes) != 0
  {
    found := false;
    for i := 0 to |bytes|
      invariant found <==> exists k :: 0 <= k < i && bytes[k] != 0
    {
      found := found || bytes[i] != 0;
    }
    NonZeroBytes(bytes);
  }

  /** The numbers a locator holds fit the widths of their fields. */
  predicate Fitting(loc: Locator) {
    && loc.generation < Pow256(8) && loc.total < Pow256(8) && loc.uuid < Pow256(16)
    && loc.checkpoint[0] < Pow256(8) && loc.checkpoint[1] < Pow256(8) && loc.checkpoint[2] < Pow256(8)
  }

  /** The fixed words in front of the fields. */
  function Preamble(): (s: seq<Byte>)
    ensures |s| == 16
  {
    MAGIC + Le(SCHEMA, 2) + Le(HEADER, 2) + Le(MAJOR, 2) + Le(MINOR, 2)
  }

  function Fields(loc: Locator): (s: seq<Byte>)
    ensures |s| == 56
  {
    Le(loc.generation, 8) + Le(loc.total, 8)
    + (Le(loc.checkpoint[0], 8) + Le(loc.checkpoint[1], 8) + Le(loc.checkpoint[2], 8)) + Le(loc.uuid, 16)
  }

  /** A block with the given checksum bytes and nothing behind the header. */
  function Image(loc: Locator, sum: seq<Byte>): (s: seq<Byte>)
    requires |sum| == 8
    ensures |s| == BLOCK
  {
    Preamble() + Fields(loc) + sum + Zeros(BLOCK - HEADER)
  }

  function Encode(crc: Crc, loc: Locator): Option<seq<Byte>> {
    if ShapeValid(loc) then Some(Image(loc, Le(crc(Image(loc, Zeros(8))), 8))) else None
  }

  function Word(block: seq<Byte>, at: nat): nat
    requires at + 8 <= |block|
  {
    FromLe(block[at..at + 8])
  }

  function Parse(block: seq<Byte>): Locator
    requires |block| == BLOCK
  {
    Locator(Word(block, 16), Word(block, 24), [Word(block, 32), Word(block, 40), Word(block, 48)],
      FromLe(block[56..72]))
  }

  /** The block as the checksum sees it. */
  function Cleared(block: seq<Byte>): seq<Byte>
    requires |block| == BLOCK
  {
    block[..72] + Zeros(8) + block[80..]
  }

  predicate FrameOk(crc: Crc, block: seq<Byte>)
    requires |block| == BLOCK
  {
    && block[..8] == MAGIC
    && FromLe(block[8..10]) == SCHEMA && FromLe(block[10..12]) == HEADER
    && FromLe(block[12..14]) == MAJOR && FromLe(block[14..16]) == MINOR
    && (forall i :: HEADER <= i < BLOCK ==> block[i] == 0)
    && block[72..80] == Le(crc(Cleared(block)), 8)
  }

  function Decode(crc: Crc, block: seq<Byte>, device: nat): Option<Locator>
    requires |block| == BLOCK
  {
    if device >= MIN_VOLUME && FrameOk(crc, block) && ShapeValid(Parse(block)) && Parse(block).total <= device
    then Some(Parse(block))
    else None
  }

  lemma Piece(a: seq<Byte>, b: seq<Byte>, c: seq<Byte>)
    ensures (a + b + c)[|a|..|a| + |b|] == b
  {
  }

  /** Concatenating six fields and cutting at their offsets gives them back. */
  lemma SixPieces(a: seq<Byte>, b: seq<Byte>, c: seq<Byte>, d: seq<Byte>, e: seq<Byte>, u: seq<Byte>)
    requires |a| == |b| == |c| == |d| == |e| == 8 && |u| == 16
    ensures var s := a + b + (c + d + e) + u;
      s[..8] == a && s[8..16] == b && s[16..24] == c && s[24..32] == d && s[32..40] == e && s[40..56] == u
  {
    var s := a + b + (c + d + e) + u;
    Piece([], a, s[8..]);
    Piece(a, b, s[16..]);
    Piece(a + b, c, s[24..]);
    Piece(a + b + c, d, s[32..]);
    Piece(a + b + c + d, e, u);
    Piece(a + b + c + d + e, u, []);
    assert s == a + b + c + d + e + u;
    assert s == a + b + c + d + s[32..] == a + b + c + s[24..] == a + b + s[16..] == [] + a + s[8..];
    assert s == a + b + c + d + e + u + [];
  }

  lemma Nested(block: seq<Byte>, s: seq<Byte>, at: nat, i: nat, j: nat)
    requires at + |s| <= |block| && block[at..at + |s|] == s && i <= j <= |s|
    ensures block[at + i..at + j] == s[i..j]
  {
    forall k | 0 <= k < j - i ensures block[at + i..at + j][k] == s[i..j][k] {
      assert s[i + k] == block[at..at + |s|][i + k];
    }
  }

  lemma ParseFields(loc: Locator, sum: seq<Byte>)
    requires |sum| == 8 && Fitting(loc)
    ensures Parse(Image(loc, sum)) == loc
  {
    hide Le, FromLe, Pow256, Preamble, Zeros;
    var b := Image(loc, sum);
    assert b == Preamble() + Fields(loc) + (sum + Zeros(BLOCK - HEADER));
    Piece(Preamble(), Fields(loc), sum + Zeros(BLOCK - HEADER));
    SixPieces(Le(loc.generation, 8), Le(loc.total, 8), Le(loc.checkpoint[0], 8), Le(loc.checkpoint[1], 8),
      Le(loc.checkpoint[2], 8), Le(loc.uuid, 16));
    Nested(b, Fields(loc), 16, 0, 8);
    Nested(b, Fields(loc), 16, 8, 16);
    Nested(b, Fields(loc), 16, 16, 24);
    Nested(b, Fields(loc), 16, 24, 32);
    Nested(b, Fields(loc), 16, 32, 40);
    Nested(b, Fields(loc), 16, 40, 56);
    LeInverse(loc.generation, 8);
    LeInverse(loc.total, 8);
    LeInverse(loc.checkpoint[0], 8);
    LeInverse(loc.checkpoint[1], 8);
    LeInverse(loc.checkpoint[2], 8);
    LeInverse(loc.uuid, 16);
    assert Parse(b).checkpoint == loc.checkpoint;
  }

  lemma JoinSix(s: seq<Byte>)
    requires |s| == 56
    ensures s == s[..8] + s[8..16] + (s[16..24] + s[24..32] + s[32..40]) + s[40..56]
  {
  }

  /** What is parsed fits its fields, and writing it again gives the same bytes. */
  lemma FieldsOfParse(block: seq<Byte>)
    requires |block| == BLOCK
    ensures Fields(Parse(block)) == block[16..72] && Fitting(Parse(block))
  {
    hide Le, FromLe, Pow256;
    var s := block[16..72];
    JoinSix(s);
    Nested(block, s, 16, 0, 8);
    Nested(block, s, 16, 8, 16);
    Nested(block, s, 16, 16, 24);
    Nested(block, s, 16, 24, 32);
    Nested(block, s, 16, 32, 40);
    Nested(block, s, 16, 40, 56);
    FromLeInverse(block[16..24]);
    FromLeInverse(block[24..32]);
    FromLeInverse(block[32..40]);
    FromLeInverse(block[40..48]);
    FromLeInverse(block[48..56]);
    FromLeInverse(block[56..72]);
  }

  lemma FourWords(m: seq<Byte>, a: seq<Byte>, b: seq<Byte>, c: seq<Byte>, d: seq<Byte>)
    requires |m| == 8 && |a| == |b| == |c| == |d| == 2
    ensures var s := m + a + b + c + d;
      s[..8] == m && s[8..10] == a && s[10..12] == b && s[12..14] == c && s[14..16] == d
  {
  }

  lemma JoinWords(s: seq<Byte>)
    requires |s| == 16
    ensures s == s[..8] + s[8..10] + s[10..12] + s[12..14] + s[14..16]
  {
  }

  predicate Words(s: seq<Byte>)
    requires |s| == 16
  {
    && s[..8] == MAGIC
    && FromLe(s[8..10]) == SCHEMA && FromLe(s[10..12]) == HEADER
    && FromLe(s[12..14]) == MAJOR && FromLe(s[14..16]) == MINOR
  }

  lemma PreambleWords()
    ensures Words(Preamble())
  {
    hide Le, FromLe;
    FourWords(MAGIC, Le(SCHEMA, 2), Le(HEADER, 2), Le(MAJOR, 2), Le(MINOR, 2));
    assert Pow256(2) == 65536;
    LeInverse(SCHEMA, 2);
    LeInverse(HEADER, 2);
    LeInverse(MAJOR, 2);
    LeInverse(MINOR, 2);
  }

  lemma WordsArePreamble(s: seq<Byte>)
    requires |s| == 16 && Words(s)
    ensures s == Preamble()
  {
    hide Le, FromLe;
    JoinWords(s);
    FromLeInverse(s[8..10]);
    FromLeInverse(s[10..12]);
    FromLeInverse(s[12..14]);
    FromLeInverse(s[14..16]);
  }

  lemma ImageParts(loc: Locator, sum: seq<Byte>)
    requires |sum| == 8
    ensures Image(loc, sum)[..16] == Preamble() && Image(loc, sum)[72..80] == sum
    ensures Image(loc, sum)[80..] == Zeros(BLOCK - HEADER) && Cleared(Image(loc, sum)) == Image(loc, Zeros(8))
  {
    hide Preamble, Fields, Zeros;
  }

  lemma FrameWords(block: seq<Byte>)
    requires |block| == BLOCK
    ensures Words(block[..16]) <==>
      && block[..8] == MAGIC
      && FromLe(block[8..10]) == SCHEMA && FromLe(block[10..12]) == HEADER
      && FromLe(block[12..14]) == MAJOR && FromLe(block[14..16]) == MINOR
  {
    hide FromLe;
    Nested(block, block[..16], 0, 0, 8);
    Nested(block, block[..16], 0, 8, 10);
    Nested(block, block[..16], 0, 10, 12);
    Nested(block, block[..16], 0, 12, 14);
    Nested(block, block[..16], 0, 14, 16);
  }

  /** Every locator the writer accepts reads back unchanged on a device that holds the volume. */
  lemma RoundTrip(crc: Crc, loc: Locator, device: nat)
    requires ShapeValid(loc) && Fitting(loc) && loc.total <= device
    ensures Encode(crc, loc).Some? && Decode(crc, Encode(crc, loc).value, device) == Some(loc)
  {
    hide Le, FromLe, Image, Preamble, Fields, Parse, ShapeValid, Cleared;
    var sum := Le(crc(Image(loc, Zeros(8))), 8);
    var block := Image(loc, sum);
    ImageParts(loc, sum);
    PreambleWords();
    FrameWords(block);
    ParseFields(loc, sum);
    forall i | HEADER <= i < BLOCK ensures block[i] == 0 { assert block[i] == block[80..][i - 80]; }
    assert loc.total >= MIN_VOLUME by { TotalIsLarge(loc); }
  }

  lemma TotalIsLarge(loc: Locator)
    requires ShapeValid(loc)
    ensures loc.total >= MIN_VOLUME
  {
  }

  lemma BlockIsImage(block: seq<Byte>)
    requires |block| == BLOCK && Words(block[..16]) && forall i :: HEADER <= i < BLOCK ==> block[i] == 0
    ensures block == Image(Parse(block), block[72..80])
  {
    hide Le, FromLe, Preamble, Fields, Parse, Words;
    WordsArePreamble(block[..16]);
    FieldsOfParse(block);
    assert block[80..] == Zeros(BLOCK - HEADER);
    assert block == block[..16] + block[16..72] + block[72..80] + block[80..];
  }

  /** Nothing else decodes: an accepted block is the one encoding of what it decodes to. */
  lemma DecodeIsCanonical(crc: Crc, block: seq<Byte>, device: nat)
    requires |block| == BLOCK && Decode(crc, block, device).Some?
    ensures var loc := Decode(crc, block, device).value;
      Encode(crc, loc) == Some(block) && ShapeValid(loc) && Fitting(loc) && loc.total <= device
  {
    hide Le, FromLe, Image, Preamble, Fields, Parse, ShapeValid, Words, Fitting;
    var loc := Parse(block);
    FrameWords(block);
    BlockIsImage(block);
    ImageParts(loc, block[72..80]);
    FieldsOfParse(block);
  }

  /** Blocks and locators match one to one. */
  lemma DecodesExactlyEncodings(crc: Crc, block: seq<Byte>, loc: Locator, device: nat)
    requires |block| == BLOCK && device >= MIN_VOLUME
    ensures Decode(crc, block, device) == Some(loc) <==>
      Encode(crc, loc) == Some(block) && Fitting(loc) && loc.total <= device
  {
    hide Le, FromLe, Image, Parse, ShapeValid, Fitting, FrameOk;
    if Decode(crc, block, device).Some? { DecodeIsCanonical(crc, block, device); }
    if Encode(crc, loc) == Some(block) && Fitting(loc) && loc.total <= device { RoundTrip(crc, loc, device); }
  }

  datatype Plan = Start(root: nat) | BadRequest | NoSpace

  /** A run of metadata that keeps off both locators and ends before the middle checkpoint. */
  predicate Clear(total: nat, start: nat, count: nat) {
    && 2 <= start && start + count < total / 2
    && !(start <= LOCATOR_A < start + count) && !(start <= LOCATOR_B < start + count)
  }

  /** Where a new volume puts its metadata. */
  function PlanInitial(total: nat, count: nat): (p: Plan)
    ensures p.BadRequest? <==> total < MIN_VOLUME || count == 0 || count > total
    ensures p.Start? ==> Clear(total, p.root, count) && forall s :: Clear(total, s, count) ==> p.root <= s
    ensures p.NoSpace? ==> forall s :: !Clear(total, s, count)
  {
    var middle := total / 2;
    if total < MIN_VOLUME || count == 0 || count > total then BadRequest
    else if count <= LOCATOR_B - 2 && count < middle - 2 then Start(2)
    else if middle > LOCATOR_B + 1 && count < middle - (LOCATOR_B + 1) then Start(LOCATOR_B + 1)
    else NoSpace
  }
}
