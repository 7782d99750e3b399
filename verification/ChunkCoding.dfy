/** The encoding filter and the decoding filter, and how they fit together. */
module ChunkCoding {
  import opened Bytes
  import opened HexNumbers
  import opened Chunked
  import opened ChunkGrammar
  import Dechunk
  import DechunkRuns

  const Terminator: bytes := [48, 13, 10, 13, 10]

  function Chunk(block: bytes): bytes { Hex(|block|) + CRLF + block + CRLF }

  function Encode(blocks: seq<bytes>): bytes {
    if blocks == [] then Terminator else Chunk(blocks[0]) + Encode(blocks[1..])
  }

  /** Lengths are of type size_t. */
  ghost predicate Sized(blocks: seq<bytes>) { forall i :: 0 <= i < |blocks| ==> |blocks[i]| <= ULONG_MAX }

  ghost predicate NoneEmpty(blocks: seq<bytes>) { forall i :: 0 <= i < |blocks| ==> blocks[i] != [] }

  lemma EncodeStep(blocks: seq<bytes>, i: nat, before: bytes)
    requires i < |blocks|
    ensures before + Encode(blocks[i..]) == (before + Chunk(blocks[i])) + Encode(blocks[i + 1..])
  {
    hide Chunk;
    assert blocks[i..][1..] == blocks[i + 1..];
  }

  lemma NoBlocks(blocks: seq<bytes>) requires blocks == [] ensures Encode(blocks) == Terminator {}

  /** One call of the encoding filter: a framed bucket for each bucket, the terminator when closing. */
  method ChunkedEncode(buckets: seq<bytes>, closing: bool) returns (out: seq<bytes>)
    ensures closing ==> Concat(out) == Encode(buckets)
    ensures !closing ==> Concat(out) + Terminator == Encode(buckets)
  {
    hide Encode, Hex;
    out := [];
    var i := 0;
    assert buckets[0..] == buckets;
    while i < |buckets|
      invariant 0 <= i <= |buckets|
      invariant Encode(buckets) == Concat(out) + Encode(buckets[i..])
    {
      var buf := Hex(|buckets[i]|) + CRLF;
      buf := buf + buckets[i];
      buf := buf + CRLF;
      ConcatSnoc(out, buf);
      EncodeStep(buckets, i, Concat(out));
      out := out + [buf];
      i := i + 1;
    }
    assert Encode(buckets[i..]) == Terminator by { NoBlocks(buckets[i..]); }
    if closing {
      ConcatSnoc(out, Terminator);
      out := out + [Terminator];
    }
  }

  // ---- the encoder's output as chunked text

  function Framed(block: bytes): Frame { Frame(SizeText(Hex(|block|), [], CRLF), block, CRLF) }

  function AllFramed(blocks: seq<bytes>): seq<Frame> {
    if blocks == [] then [] else [Framed(blocks[0])] + AllFramed(blocks[1..])
  }

  const ZeroLine := SizeText([48], [], CRLF)

  lemma FramedIsChunk(block: bytes)
    requires 0 < |block| <= ULONG_MAX
    ensures FrameOk(Framed(block)) && FrameText(Framed(block)) == Chunk(block)
  {
    hide Hex, HexValue;
    HexValueOfHex(|block|);
    var h := Hex(|block|);
    assert (h + ([] + CRLF)) + (block + CRLF) == h + CRLF + block + CRLF;
  }

  lemma ZeroLineIsOk(z: bytes)
    ensures SizeOk(ZeroLine, 0, z) && LineText(ZeroLine) == [48] + CRLF
  {
    var d: bytes := [48];
    assert d[..0] == [] && HexValue([]) == 0 && HexValue(d) == 0;
  }

  lemma TerminatorSplits(z: bytes)
    ensures Terminator + z == LineText(ZeroLine) + (CRLF + z)
  {
    ZeroLineIsOk(z);
  }

  /** The encoder's output is chunked text without extensions, and an empty line behind it. */
  lemma {:induction false} EncodedIsText(blocks: seq<bytes>, trail: bytes)
    requires Sized(blocks) && NoneEmpty(blocks)
    ensures TextOk(AllFramed(blocks), ZeroLine, CRLF + trail) && Datas(AllFramed(blocks)) == blocks
    ensures Encode(blocks) + trail == Text(AllFramed(blocks), ZeroLine) + (CRLF + trail)
  {
    hide Chunk, LineText, FrameText, FrameOk, SizeOk;
    ZeroLineIsOk(CRLF + trail);
    if blocks == [] {
      TerminatorSplits(trail);
    } else {
      var fs := AllFramed(blocks[1..]);
      FramedIsChunk(blocks[0]);
      EncodedIsText(blocks[1..], trail);
      assert AllFramed(blocks)[1..] == fs && AllFramed(blocks)[0] == Framed(blocks[0]);
      SeqAssoc(Chunk(blocks[0]), Encode(blocks[1..]), trail);
      SeqAssoc(Chunk(blocks[0]), Text(fs, ZeroLine), CRLF + trail);
    }
  }

  lemma ChunkDecodes(block: bytes, z: bytes, eager: bool)
    requires 0 < |block| <= ULONG_MAX
    ensures Decode(Chunk(block) + z, 0, eager) == Prepend(block, Decode(z, 0, eager))
  {
    hide Decode, Chunk, FrameText, FrameOk;
    FramedIsChunk(block);
    FrameDecodes(Framed(block), z, eager);
  }

  lemma TerminatorDecodes(z: bytes, eager: bool)
    ensures Decode(Terminator + z, 0, eager) == Result([], CRLF + z, 0, Zero)
  {
    hide Decode, LineText, SizeOk;
    TerminatorSplits(z);
    ZeroLineIsOk(CRLF + z);
    LastLineDecodes(ZeroLine, CRLF + z, eager);
  }

  /** The loop behind both streaming decoders turns the encoder's output back into the blocks. */
  lemma EncodedDecodes(blocks: seq<bytes>, trail: bytes, eager: bool)
    requires Sized(blocks) && NoneEmpty(blocks)
    ensures Decode(Encode(blocks) + trail, 0, eager) == Result(Concat(blocks), CRLF + trail, 0, Zero)
  {
    hide Decode, Encode, Text, TextOk;
    EncodedIsText(blocks, trail);
    TextDecodes(AllFramed(blocks), ZeroLine, CRLF + trail, eager);
  }

  /**
   * The stream decoder on any chunked text, extensions included: the data comes out, what is behind
   * the last size line stays, less leading CR and LF.
   */
  lemma StreamDecodesText(fs: seq<Frame>, last: SizeText, trail: bytes, eager: bool)
    requires TextOk(fs, last, trail)
    ensures Dechunk.Updated(Dechunk.Initial, Text(fs, last) + trail, eager)
      == Dechunk.Step(true, Concat(Datas(fs)), Dechunk.Context(SkipEols(trail), 0, true))
  {
    hide Decode, TextOk, Text, SkipEols;
    var x := Text(fs, last) + trail;
    assert [] + x == x;
    TextDecodes(fs, last, trail, eager);
  }

  /** So it gives the blocks of the encoder's output. */
  lemma StreamDecodesEncoded(blocks: seq<bytes>, trail: bytes, eager: bool)
    requires Sized(blocks) && NoneEmpty(blocks)
    ensures Dechunk.Updated(Dechunk.Initial, Encode(blocks) + trail, eager)
      == Dechunk.Step(true, Concat(blocks), Dechunk.Context(SkipEols(trail), 0, true))
  {
    hide Encode, Text, TextOk, Dechunk.Updated, SkipEols;
    EncodedIsText(blocks, trail);
    StreamDecodesText(AllFramed(blocks), ZeroLine, CRLF + trail, eager);
    GapIsSkipped(CRLF, trail);
  }

  function FirstEmpty(blocks: seq<bytes>): (k: nat)
    ensures k <= |blocks|
    ensures forall i :: 0 <= i < k ==> blocks[i] != []
    ensures k < |blocks| ==> blocks[k] == []
  {
    if blocks == [] || blocks[0] == [] then 0 else 1 + FirstEmpty(blocks[1..])
  }

  lemma EmptyChunkIsTerminator() ensures Chunk([]) == Terminator {}

  /** An empty block is framed like the terminator: decoding ends there. */
  lemma {:induction false} EmptyBlockTerminates(blocks: seq<bytes>, eager: bool)
    requires Sized(blocks) && FirstEmpty(blocks) < |blocks|
    ensures Decode(Encode(blocks), 0, eager)
      == Result(Concat(blocks[..FirstEmpty(blocks)]), CRLF + Encode(blocks[FirstEmpty(blocks) + 1..]), 0, Zero)
  {
    hide Decode, Chunk;
    var k := FirstEmpty(blocks);
    var z := Encode(blocks[1..]);
    if k == 0 {
      EmptyChunkIsTerminator();
      TerminatorDecodes(z, eager);
    } else {
      ChunkDecodes(blocks[0], z, eager);
      EmptyBlockTerminates(blocks[1..], eager);
      assert blocks[..k][1..] == blocks[1..][..k - 1];
      assert blocks[k + 1..] == blocks[1..][k..];
    }
  }

  /** Blocks survive the coding, with nothing left over, just when none of them is empty. */
  lemma RoundTripIff(blocks: seq<bytes>, eager: bool)
    requires Sized(blocks)
    ensures (Dechunk.Updated(Dechunk.Initial, Encode(blocks), eager)
        == Dechunk.Step(true, Concat(blocks), Dechunk.Context([], 0, true))) <==> NoneEmpty(blocks)
  {
    hide Decode, Encode, EolRun;
    var x := Encode(blocks);
    assert [] + x == x && x + [] == x;
    if FirstEmpty(blocks) == |blocks| {
      StreamDecodesEncoded(blocks, [], eager);
    } else {
      var k := FirstEmpty(blocks);
      EmptyBlockTerminates(blocks, eager);
      var z := Encode(blocks[k + 1..]);
      SkipEolsSplits(CRLF, z);
      EolRunUnique(CRLF, 2);
      EncodeStartsWithDigit(blocks[k + 1..]);
      SkipEolsIdempotent(z);
    }
  }

  lemma EncodeStartsWithDigit(blocks: seq<bytes>)
    ensures Encode(blocks) != [] && IsHexDigit(Encode(blocks)[0])
  {
    if blocks != [] {
      assert Encode(blocks)[0] == Hex(|blocks[0]|)[0];
    }
  }

  /** One call of the decoding filter: status, the bytes of its buckets, the state it keeps. */
  datatype Filtered = Filtered(ok: bool, out: bytes, buffer: bytes, hexlen: nat)

  /** `inc` is PSFS_FLAG_FLUSH_INC, `closing` the close test. A failed call loses its buckets. */
  function FilterCall(buffer: bytes, hexlen: nat, data: bytes, inc: bool, closing: bool): Filtered {
    var r := Decode(buffer + data, hexlen, inc);
    if r.stop == Bad then Filtered(false, [], r.rest, 0)
    else if closing && r.hexlen > 0 then Filtered(true, r.out + r.rest, [], if r.rest == [] then r.hexlen else 0)
    else Filtered(true, r.out, r.rest, r.hexlen)
  }

  /** The decoding filter. It keeps no mark of the terminator: the next size line may follow. */
  class FilterDecoder {
    var buffer: bytes
    var hexlen: nat

    constructor ()
      ensures buffer == [] && hexlen == 0
    {
      buffer, hexlen := [], 0;
    }

    method Process(buckets: seq<bytes>, inc: bool, closing: bool) returns (ok: bool, out: seq<bytes>)
      modifies this
      ensures Filtered(ok, Concat(out), buffer, hexlen)
        == FilterCall(old(buffer), old(hexlen), Concat(buckets), inc, closing)
    {
      hide Decode;
      var i := 0;
      assert buckets[0..] == buckets;
      while i < |buckets|
        invariant 0 <= i <= |buckets|
        invariant old(buffer) + Concat(buckets) == buffer + Concat(buckets[i..])
        invariant hexlen == old(hexlen)
      {
        assert buckets[i..][1..] == buckets[i + 1..];
        buffer := buffer + buckets[i];
        i := i + 1;
      }
      assert buffer == old(buffer) + Concat(buckets);
      ok, out := Loop(inc);
      if !ok {
        return;
      }
      if closing && hexlen > 0 && buffer != [] {
        ConcatSnoc(out, buffer);
        out := out + [buffer];
        buffer := [];
        hexlen := 0;
      }
    }

    method Loop(inc: bool) returns (ok: bool, out: seq<bytes>)
      modifies this
      ensures Filtered(ok, Concat(out), buffer, hexlen)
        == FilterCall(old(buffer), old(hexlen), [], inc, false)
    {
      hide ReadLine, Concat, Decode, Prepend;
      ghost var goal := Decode(buffer, hexlen, inc);
      assert buffer + [] == buffer;
      out := [];
      assert Concat(out) == [] by { NoneConcat(); }
      NothingInFront(goal);
      while buffer != []
        invariant goal == Prepend(Concat(out), Decode(buffer, hexlen, inc))
        decreases |buffer|
      {
        DecodeTurns(buffer, hexlen, inc);
        if hexlen > 0 {
          if |buffer| < hexlen {
            if inc {
              ConcatSnoc(out, buffer);
              PrependTwice(Concat(out), buffer, Decode([], hexlen - |buffer|, inc));
              out := out + [buffer];
              hexlen := hexlen - |buffer|;
              buffer := [];
            } else {
              break;
            }
          } else {
            ConcatSnoc(out, buffer[..hexlen]);
            PrependTwice(Concat(out), buffer[..hexlen], Decode(buffer[hexlen..], 0, inc));
            out := out + [buffer[..hexlen]];
            buffer, hexlen := buffer[hexlen..], 0;
          }
        } else {
          var outcome := ReadSize();
          if outcome == Bad {
            PrependIs(Concat(out), Result([], buffer, 0, outcome));
            return false, [];
          } else if outcome == Zero || hexlen == 0 {
            PrependIs(Concat(out), Result([], buffer, 0, outcome));
            return true, out;
          }
        }
      }
      if buffer == [] { NothingToDecode(hexlen, inc); }
      PrependIs(Concat(out), Result([], buffer, hexlen, More));
      ok := true;
    }

    method ReadSize() returns (outcome: Stop)
      requires hexlen == 0 && buffer != []
      modifies this
      ensures match ReadLine(old(buffer))
        case NoLine(s) => outcome == More && buffer == s && hexlen == 0
        case BadLine(s) => outcome == Bad && buffer == s && hexlen == 0
        case SizeLine(n, t) => outcome == (if n == 0 then Zero else More) && buffer == t && hexlen == n
    {
      hide FirstEol, SkipEols, Strtoul, EolLen;
      outcome := More;
      buffer := Dechunk.DropLineEnds(buffer);
      if buffer != [] {
        var at, len := LocateBinEol(buffer);
        if at.Some? {
          var size := Strtoul(buffer);
          hexlen := size.value;
          if size.stop == 0 {
            return Bad;
          }
          buffer := buffer[at.value + len..];
          if hexlen == 0 {
            return Zero;
          }
        }
      }
    }
  }

  lemma NoneConcat() ensures Concat<byte>([]) == [] {}

  lemma PrependIs(x: bytes, r: Result)
    requires r.out == []
    ensures Prepend(x, r) == r.(out := x)
  {
    assert x + [] == x;
  }

  lemma NothingInFront(r: Result) ensures Prepend([], r) == r { assert [] + r.out == r.out; }

  /** The decoding filter on any chunked text; what is behind the last size line stays, line ends included. */
  lemma FilterDecodesText(fs: seq<Frame>, last: SizeText, trail: bytes, inc: bool, closing: bool)
    requires TextOk(fs, last, trail)
    ensures FilterCall([], 0, Text(fs, last) + trail, inc, closing) == Filtered(true, Concat(Datas(fs)), trail, 0)
  {
    hide Decode, Text, TextOk, Concat, Datas;
    TextDecodes(fs, last, trail, inc);
    var x := Text(fs, last) + trail;
    assert [] + x == x;
  }

  /** A filter that is closed in the middle of a chunk passes on what there is of it. */
  lemma ClosingPassesPartOn(fs: seq<Frame>, size: SizeText, n: nat, x: bytes, inc: bool)
    requires (forall i :: 0 <= i < |fs| ==> FrameOk(fs[i])) && SizeOk(size, n, x) && 0 < |x| < n
    ensures var r := FilterCall([], 0, Frames(fs) + (LineText(size) + x), inc, true);
      r.ok && r.out == Concat(Datas(fs)) + x && r.buffer == []
  {
    hide Decode, SizeOk, FrameOk, Frames, LineText, Concat, Datas;
    PartDecodes(fs, size, n, x, inc);
    var y := Frames(fs) + (LineText(size) + x);
    assert [] + y == y;
    assert (Concat(Datas(fs)) + x) + [] == Concat(Datas(fs)) + x;
  }

  /** The decoding filter undoes the encoding filter; the terminator's last line end stays behind. */
  lemma FilterDecodesEncoded(blocks: seq<bytes>, inc: bool, closing: bool)
    requires Sized(blocks) && NoneEmpty(blocks)
    ensures FilterCall([], 0, Encode(blocks), inc, closing) == Filtered(true, Concat(blocks), CRLF, 0)
  {
    hide Decode, Encode;
    EncodedDecodes(blocks, [], inc);
    assert [] + Encode(blocks) == Encode(blocks) + [];
    assert CRLF + [] == CRLF;
  }
}
