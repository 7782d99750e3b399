/**
 * Chunked text as section 7.1 of RFC 9112 has it, extensions included, and what the decoding loop
 * makes of it. The encoder's output is one such text.
 */
module ChunkGrammar {
  import opened Bytes
  import opened HexNumbers
  import opened Chunked

  /** A size line: hex digits in either case, zeros in front or not, an extension, a line end. */
  datatype SizeText = SizeText(digits: bytes, extension: bytes, eol: bytes)

  /** A chunk: its size line, its data, and the line end behind it. */
  datatype Frame = Frame(size: SizeText, data: bytes, gap: bytes)

  ghost predicate AllEols(s: bytes) { forall i :: 0 <= i < |s| ==> IsEolByte(s[i]) }

  /** CR LF or LF; a CR alone is one too, unless a LF follows it. */
  ghost predicate LineEnds(eol: bytes, next: bytes) {
    eol == CRLF || eol == [LF] || (eol == [CR] && (next != [] ==> next[0] != LF))
  }

  /** Anything without a line end that is not taken for more digits; a semicolon in front qualifies. */
  ghost predicate ExtensionOk(x: bytes) {
    EndsDigits(x) && forall i :: 0 <= i < |x| ==> !IsEolByte(x[i])
  }

  ghost predicate SizeOk(t: SizeText, n: nat, next: bytes) {
    && t.digits != [] && AllHex(t.digits) && HexValue(t.digits) == n <= ULONG_MAX
    && ExtensionOk(t.extension) && LineEnds(t.eol, next)
  }

  ghost predicate FrameOk(f: Frame) { SizeOk(f.size, |f.data|, f.data) && f.data != [] && AllEols(f.gap) }

  ghost predicate TextOk(fs: seq<Frame>, last: SizeText, trail: bytes) {
    (forall i :: 0 <= i < |fs| ==> FrameOk(fs[i])) && SizeOk(last, 0, trail)
  }

  function LineText(t: SizeText): bytes { t.digits + (t.extension + t.eol) }
  function FrameText(f: Frame): bytes { LineText(f.size) + (f.data + f.gap) }

  /** Chunks and the last size line, which says zero. */
  function Text(fs: seq<Frame>, last: SizeText): bytes {
    if fs == [] then LineText(last) else FrameText(fs[0]) + Text(fs[1..], last)
  }

  function Datas(fs: seq<Frame>): seq<bytes> { if fs == [] then [] else [fs[0].data] + Datas(fs[1..]) }

  // ---- one size line

  lemma SizeLineParts(t: SizeText, n: nat, z: bytes)
    requires SizeOk(t, n, z)
    ensures var x, p := LineText(t) + z, |t.digits| + |t.extension|;
      && x == t.digits + (t.extension + t.eol + z) && EndsDigits(t.extension + t.eol + z)
      && FirstEol(x) == p < |x| && EolLen(x, p) == |t.eol| && x[p + |t.eol|..] == z
  {
    hide FirstEol, HexValue;
    var x, p := LineText(t) + z, |t.digits| + |t.extension|;
    var y := t.extension + t.eol + z;
    assert x == t.digits + y;
    assert y[0] == if t.extension != [] then t.extension[0] else t.eol[0];
    assert forall i :: 0 <= i < |t.digits| ==> x[i] == t.digits[i] && IsHexDigit(x[i]);
    assert forall i :: 0 <= i < |t.extension| ==> x[|t.digits| + i] == t.extension[i];
    assert x[p] == t.eol[0];
    assert p + 1 < |x| ==> x[p + 1] == if |t.eol| == 2 then t.eol[1] else z[0];
    FirstEolUnique(x, p);
    assert x[p + |t.eol|..] == z;
  }

  /** The size is read whatever its digits look like, and the extension is cut out with the line. */
  lemma SizeLineReads(t: SizeText, n: nat, z: bytes)
    requires SizeOk(t, n, z)
    ensures ReadLine(LineText(t) + z) == SizeLine(n, z) && LineReadable(LineText(t) + z)
  {
    hide FirstEol, Strtoul, EolLen, LineText, HexValue, ExtensionOk, LineEnds;
    var x := LineText(t) + z;
    SizeLineParts(t, n, z);
    var y := t.extension + t.eol + z;
    assert x[0] == t.digits[0] && IsHexDigit(x[0]);
    SkipEolsIdempotent(x);
    StrtoulOfDigits(t.digits, y);
    assert x[..FirstEol(x)][0] == x[0] && !IsSpace(x[0]);
  }

  // ---- chunks

  lemma GapIsSkipped(gap: bytes, z: bytes)
    requires AllEols(gap)
    ensures SkipEols(gap + z) == SkipEols(z)
  {
    hide EolRun;
    SkipEolsSplits(gap, z);
    EolRunUnique(gap, |gap|);
  }

  lemma GapDecodesToNothing(gap: bytes, z: bytes, eager: bool)
    requires AllEols(gap)
    ensures Decode(gap + z, 0, eager) == Decode(z, 0, eager)
    ensures Readable(gap + z, 0) == Readable(z, 0)
  {
    hide ReadLine, LineReadable, AllEols;
    assert ReadLine(gap + z) == ReadLine(z) && LineReadable(gap + z) == LineReadable(z) by {
      GapIsSkipped(gap, z);
      SameLineReads(gap + z, z);
    }
    EmptyReads();
  }

  lemma SameLineReads(x: bytes, y: bytes)
    requires SkipEols(x) == SkipEols(y)
    ensures ReadLine(x) == ReadLine(y) && LineReadable(x) == LineReadable(y)
  {
    hide FirstEol, Strtoul, SkipEols;
  }

  lemma EmptyReads()
    ensures ReadLine([]) == NoLine([]) && LineReadable([])
  {
    hide Strtoul;
    assert SkipEols([]) == [];
  }

  lemma FrameSplits(f: Frame, z: bytes)
    ensures FrameText(f) + z == LineText(f.size) + (f.data + (f.gap + z))
  {
    hide LineText;
    var l := LineText(f.size);
    assert (l + (f.data + f.gap)) + z == l + ((f.data + f.gap) + z);
    assert (f.data + f.gap) + z == f.data + (f.gap + z);
  }

  lemma FrameDecodes(f: Frame, z: bytes, eager: bool)
    requires FrameOk(f)
    ensures Decode(FrameText(f) + z, 0, eager) == Prepend(f.data, Decode(z, 0, eager))
    ensures Readable(z, 0) ==> Readable(FrameText(f) + z, 0)
  {
    hide ReadLine, LineText, FrameText, AllEols, SizeOk, LineReadable;
    var t := f.data + (f.gap + z);
    FrameSplits(f, z);
    FrameLineReads(f, t);
    assert t[..|f.data|] == f.data && t[|f.data|..] == f.gap + z;
    GapDecodesToNothing(f.gap, z, eager);
    var x := LineText(f.size) + t;
    assert x != [] by { LineIsNotEmpty(f); }
    assert Readable(x, 0) == Readable(t, |f.data|);
  }

  lemma LineIsNotEmpty(f: Frame) requires FrameOk(f) ensures LineText(f.size) != [] {}

  lemma FrameLineReads(f: Frame, z: bytes)
    requires FrameOk(f) && |z| >= |f.data| && z[..|f.data|] == f.data
    ensures ReadLine(LineText(f.size) + z) == SizeLine(|f.data|, z) && LineReadable(LineText(f.size) + z)
  {
    hide ReadLine, LineText, AllEols, LineReadable, HexValue, ExtensionOk;
    assert z[0] == f.data[0];
    SizeLineReads(f.size, |f.data|, z);
  }

  /**
   * The loop behind both streaming decoders takes any chunked text: the data of its chunks comes
   * out, and what is behind the last size line is left. No size line of such a text is blank.
   */
  lemma {:induction false} TextDecodes(fs: seq<Frame>, last: SizeText, trail: bytes, eager: bool)
    requires TextOk(fs, last, trail)
    ensures Decode(Text(fs, last) + trail, 0, eager) == Result(Concat(Datas(fs)), trail, 0, Zero)
    ensures Readable(Text(fs, last) + trail, 0)
  {
    hide Decode, FrameText, FrameOk, SizeOk, Readable;
    if fs == [] {
      LastLineDecodes(last, trail, eager);
    } else {
      var z := Text(fs[1..], last) + trail;
      SeqAssoc(FrameText(fs[0]), Text(fs[1..], last), trail);
      TextDecodes(fs[1..], last, trail, eager);
      FrameDecodes(fs[0], z, eager);
    }
  }

  lemma LastLineDecodes(last: SizeText, trail: bytes, eager: bool)
    requires SizeOk(last, 0, trail)
    ensures Decode(LineText(last) + trail, 0, eager) == Result([], trail, 0, Zero)
    ensures Readable(LineText(last) + trail, 0)
  {
    hide ReadLine, LineReadable, SizeOk, LineText;
    SizeLineReads(last, 0, trail);
    assert LineText(last) != [] by { SizeIsNotEmpty(last, trail); }
  }

  lemma SizeIsNotEmpty(t: SizeText, z: bytes) requires SizeOk(t, 0, z) ensures LineText(t) != [] {}

  lemma TextIsNotEmpty(fs: seq<Frame>, last: SizeText, trail: bytes)
    requires TextOk(fs, last, trail)
    ensures Text(fs, last) != []
  {
    if fs != [] { LineIsNotEmpty(fs[0]); }
  }

  // ---- text that breaks off

  function Frames(fs: seq<Frame>): bytes { if fs == [] then [] else FrameText(fs[0]) + Frames(fs[1..]) }

  lemma {:induction false} TextIsFrames(fs: seq<Frame>, last: SizeText, trail: bytes)
    ensures Text(fs, last) + trail == Frames(fs) + (LineText(last) + trail)
  {
    hide FrameText, LineText;
    if fs != [] {
      TextIsFrames(fs[1..], last, trail);
      SeqAssoc(FrameText(fs[0]), Text(fs[1..], last), trail);
      SeqAssoc(FrameText(fs[0]), Frames(fs[1..]), LineText(last) + trail);
    }
  }

  /** Whole chunks come out, whatever is behind them. */
  lemma {:induction false} FramesDecode(fs: seq<Frame>, y: bytes, eager: bool)
    requires forall i :: 0 <= i < |fs| ==> FrameOk(fs[i])
    ensures Decode(Frames(fs) + y, 0, eager) == Prepend(Concat(Datas(fs)), Decode(y, 0, eager))
  {
    hide Decode, FrameText, FrameOk, Readable;
    if fs == [] {
      assert [] + y == y && [] + Decode(y, 0, eager).out == Decode(y, 0, eager).out;
    } else {
      var z := Frames(fs[1..]) + y;
      SeqAssoc(FrameText(fs[0]), Frames(fs[1..]), y);
      FramesDecode(fs[1..], y, eager);
      FrameDecodes(fs[0], z, eager);
      SeqAssoc(fs[0].data, Concat(Datas(fs[1..])), Decode(y, 0, eager).out);
    }
  }

  /** A chunk of which not all has come in: what there is of it is passed on or held, and the rest is awaited. */
  lemma PartDecodes(fs: seq<Frame>, size: SizeText, n: nat, x: bytes, eager: bool)
    requires (forall i :: 0 <= i < |fs| ==> FrameOk(fs[i])) && SizeOk(size, n, x) && 0 < |x| < n
    ensures Decode(Frames(fs) + (LineText(size) + x), 0, eager)
      == if eager then Result(Concat(Datas(fs)) + x, [], n - |x|, More) else Result(Concat(Datas(fs)), x, n, More)
  {
    hide ReadLine, LineText, SizeOk, FrameOk, LineReadable, Frames;
    FramesDecode(fs, LineText(size) + x, eager);
    SizeLineReads(size, n, x);
    assert LineText(size) + x != [];
    assert Concat(Datas(fs)) + [] == Concat(Datas(fs));
  }
}
