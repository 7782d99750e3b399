/** The stream decoder for the chunked coding, which keeps its state between calls. */
module Dechunk {
  import opened Bytes
  import opened HexNumbers
  import opened Chunked

  /** The decoder's context: data not yet passed on, bytes missing in the chunk, terminator seen. */
  datatype Context = Context(buffer: bytes, hexlen: nat, zeroed: bool)

  const Initial := Context([], 0, false)

  /** Holds between calls: a chunk waited for is incomplete, a held line has no end. */
  predicate Resumable(c: Context) {
    && (c.hexlen > 0 ==> !c.zeroed && |c.buffer| < c.hexlen)
    && (c.hexlen == 0 && !c.zeroed ==> FirstEol(c.buffer) == |c.buffer|)
  }

  datatype Step = Step(ok: bool, out: bytes, ctx: Context)

  /** One call with new data: it fails after the terminator and on an unreadable size line. */
  function Updated(c: Context, data: bytes, eager: bool): (s: Step)
    ensures s.ctx.hexlen > 0 ==> |s.ctx.buffer| < s.ctx.hexlen || s.ctx == c
  {
    if c.zeroed then Step(false, [], c)
    else
      var r := Decode(c.buffer + data, c.hexlen, eager);
      match r.stop
      case More => Step(true, r.out, Context(r.rest, r.hexlen, false))
      case Zero => Step(true, r.out, Context(SkipEols(r.rest), 0, true))
      case Bad => Step(false, [], Context(r.rest, 0, false))
  }

  /** A flush passes on what is held of a chunk. */
  function Flushed(c: Context): Step
    requires c.hexlen > 0 ==> |c.buffer| <= c.hexlen
  {
    if c.hexlen > 0 then Step(true, c.buffer, Context([], c.hexlen - |c.buffer|, c.zeroed))
    else Step(true, [], c)
  }

  class Decoder {
    const flushFull: bool
    var buffer: bytes
    var hexlen: nat
    var zeroed: bool

    ghost function State(): Context
      reads this
    {
      Context(buffer, hexlen, zeroed)
    }

    constructor (flushFull: bool)
      ensures State() == Initial && this.flushFull == flushFull
    {
      this.flushFull := flushFull;
      buffer, hexlen, zeroed := [], 0, false;
    }

    /** Behind the terminating size line only line ends are taken. */
    method EndOfBody()
      modifies this
      ensures State() == Context(SkipEols(old(buffer)), old(hexlen), true)
    {
      buffer := DropLineEnds(buffer);
      zeroed := true;
    }

    /** The part of the loop that runs while the size of the next chunk is not known. */
    method ReadSize() returns (outcome: Stop)
      requires hexlen == 0 && !zeroed && buffer != []
      modifies this
      ensures match ReadLine(old(buffer))
        case NoLine(s) => outcome == More && State() == Context(s, 0, false)
        case BadLine(s) => outcome == Bad && State() == Context(s, 0, false)
        case SizeLine(n, t) =>
          if n == 0 then outcome == Zero && State() == Context(SkipEols(t), 0, true)
          else outcome == More && State() == Context(t, n, false)
    {
      hide FirstEol, SkipEols, Strtoul, EolLen;
      outcome := More;
      var b := DropLineEnds(buffer);
      buffer := b;
      if b != [] {
        var at, len := LocateBinEol(b);
        if at.Some? {
          var size := Strtoul(b);
          hexlen := size.value;
          if size.stop == 0 {
            return Bad;
          }
          buffer := b[at.value + len..];
          if hexlen == 0 {
            EndOfBody();
            return Zero;
          }
        }
      }
    }

    method Update(data: bytes) returns (ok: bool, decoded: bytes)
      modifies this
      ensures Step(ok, decoded, State()) == Updated(old(State()), data, flushFull)
    {
      hide ReadLine, FirstEol, SkipEols, Strtoul;
      if zeroed {
        return false, [];
      }
      buffer := buffer + data;
      ghost var goal := Decode(buffer, hexlen, flushFull);
      decoded := [];
      while buffer != []
        invariant !zeroed
        invariant goal == Prepend(decoded, Decode(buffer, hexlen, flushFull))
        decreases |buffer|
      {
        if hexlen > 0 {
          if |buffer| < hexlen {
            if flushFull {
              decoded := decoded + buffer;
              hexlen := hexlen - |buffer|; // the guard keeps this from wrapping
              buffer := [];
            } else {
              break;
            }
          } else {
            ghost var rest := Decode(buffer[hexlen..], 0, flushFull);
            assert decoded + (buffer[..hexlen] + rest.out) == (decoded + buffer[..hexlen]) + rest.out;
            decoded := decoded + buffer[..hexlen];
            buffer, hexlen := buffer[hexlen..], 0;
          }
        } else {
          var outcome := ReadSize();
          if outcome == Bad {
            return false, [];
          } else if outcome == Zero || (outcome == More && hexlen == 0) {
            break;
          }
        }
      }
      ok := true;
    }

    method Flush() returns (decoded: bytes)
      requires hexlen > 0 ==> |buffer| < hexlen
      modifies this
      ensures Step(true, decoded, State()) == Flushed(old(State()))
    {
      if hexlen > 0 {
        decoded := buffer;
        hexlen := hexlen - |buffer|;
        buffer := [];
      } else {
        decoded := [];
      }
    }

    method Done() returns (done: bool)
      ensures done == State().zeroed
    {
      done := zeroed;
    }
  }

  method DropLineEnds(s: bytes) returns (rest: bytes)
    ensures rest == SkipEols(s)
  {
    var off := 0;
    while off < |s| && (s[off] == LF || s[off] == CR)
      invariant 0 <= off <= |s|
      invariant forall i :: 0 <= i < off ==> IsEolByte(s[i])
    {
      off := off + 1;
    }
    EolRunUnique(s, off);
    rest := s[off..];
  }
}
