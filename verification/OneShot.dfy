/** The one-shot decoder for the chunked coding. It reads a NUL-terminated copy of the whole input. */
module OneShot {
  import opened Bytes
  import opened HexNumbers
  import opened ChunkGrammar
  import opened ChunkCoding

  /**
   * How a call ends: the decoded bytes and the offset behind the last byte looked at, which can be
   * one past the terminating NUL; no result; or a chunk that starts past the NUL, where the model
   * stops (see LeavesDataIff).
   */
  datatype Outcome = Decoded(out: bytes, end: nat) | Trash | PastEnd

  /** The byte at `i`, with the NUL behind the data. */
  function At(s: bytes, i: nat): byte
    requires i <= |s|
  {
    if i < |s| then s[i] else NUL
  }

  /** C `strpbrk(s + i, "\r\n")`: a NUL ends the search. */
  function EolBeforeNul(s: bytes, i: nat): (r: Option<nat>)
    requires i <= |s|
    ensures r.Some? ==> i <= r.value < |s| && IsEolByte(s[r.value])
    ensures r.Some? ==> forall k :: i <= k < r.value ==> !IsEolByte(s[k]) && s[k] != NUL
    decreases |s| - i
  {
    if At(s, i) == NUL then None
    else if IsEolByte(s[i]) then Some(i)
    else EolBeforeNul(s, i + 1)
  }

  function SpacesEnd(s: bytes, i: nat): (r: nat)
    requires i <= |s|
    ensures i <= r <= |s|
    ensures i < r ==> s[i] == SP
    decreases |s| - i
  {
    if i < |s| && s[i] == SP then SpacesEnd(s, i + 1) else i
  }

  /** End of the run of '0', CR and LF from `i`. */
  function TerminatorEnd(s: bytes, i: nat): (r: nat)
    requires i <= |s|
    ensures i <= r <= |s|
    decreases |s| - i
  {
    if i < |s| && (s[i] == 48 || IsEolByte(s[i])) then TerminatorEnd(s, i + 1) else i
  }

  /**
   * Where the chunk's data starts for a size that ends at `n`, and the length of a line end.
   * A line end of the last chunk is taken again when the data stops behind the size.
   */
  function DataStart(s: bytes, n: nat, eolLen: nat): (r: (nat, nat))
    requires n <= |s|
    ensures n <= r.0
    ensures eolLen <= 2 ==> r.1 <= 2
  {
    if At(s, n) == NUL then (n + eolLen, eolLen)
    else
      match EolBeforeNul(s, n)
      case None => (n, 0)
      case Some(q) =>
        var len := EolLen(s, q);
        if SpacesEnd(s, n) == q then (q + len, len) else (n + len, len)
  }

  function Take(out: bytes, s: bytes, start: nat, len: nat): bytes
    requires start + len <= |s|
  {
    out + s[start..start + len]
  }

  /** The loop from offset `e`, with `out` decoded so far and the last line end `eolLen` long. */
  function From(s: bytes, e: nat, eolLen: nat, out: bytes): Outcome
    requires eolLen <= 2
    decreases if e < |s| then |s| - e else 0
  {
    if e >= |s| then Decoded(out, e)
    else
      var size := Strtoul(s[e..]);
      if size.stop == 0 then if e == 0 then Decoded(s, |s|) else Trash
      else if size.value == 0 then Decoded(out, TerminatorEnd(s, e))
      else
        var (start, len) := DataStart(s, e + size.stop, eolLen);
        if start > |s| then PastEnd
        else if size.value >= |s| - start then Decoded(Take(out, s, start, |s| - start), |s|)
        else From(s, start + size.value + len, len, Take(out, s, start, size.value))
  }

  method SkipTerminator(encoded: bytes, start: nat) returns (e: nat)
    requires start <= |encoded|
    ensures e == TerminatorEnd(encoded, start)
  {
    e := start;
    while e < |encoded| && (encoded[e] == 48 || encoded[e] == CR || encoded[e] == LF)
      invariant e <= |encoded|
      invariant TerminatorEnd(encoded, start) == TerminatorEnd(encoded, e)
    {
      e := e + 1;
    }
  }

  method DechunkOnce(encoded: bytes) returns (r: Outcome)
    ensures r == From(encoded, 0, 0, [])
  {
    hide Strtoul, DataStart, TerminatorEnd;
    var out: bytes, e, eolLen := [], 0, 0;
    while e < |encoded|
      invariant 0 <= eolLen <= 2
      invariant From(encoded, 0, 0, []) == From(encoded, e, eolLen, out)
      decreases if e < |encoded| then |encoded| - e else 0
    {
      var size := Strtoul(encoded[e..]);
      if size.stop == 0 {
        return if e == 0 then Decoded(encoded, |encoded|) else Trash;
      }
      if size.value == 0 {
        e := SkipTerminator(encoded, e);
        return Decoded(out, e);
      }
      var (start, len) := DataStart(encoded, e + size.stop, eolLen);
      eolLen := len;
      if start > |encoded| {
        return PastEnd;
      }
      var rest := |encoded| - start;
      var chunkLen := if size.value > rest then rest else size.value;
      out := Take(out, encoded, start, chunkLen);
      if chunkLen == rest {
        return Decoded(out, start + chunkLen);
      }
      e := start + chunkLen + eolLen;
    }
    r := Decoded(out, e);
  }

  lemma TerminatorEndsRun(s: bytes, e: nat)
    requires e <= |s| && s[e..] == Terminator
    ensures TerminatorEnd(s, e) == |s|
  {
    assert s[e] == s[e..][0] && s[e + 1] == s[e..][1] && s[e + 2] == s[e..][2];
    assert s[e + 3] == s[e..][3] && s[e + 4] == s[e..][4];
    assert TerminatorEnd(s, e + 4) == TerminatorEnd(s, e + 5);
    assert TerminatorEnd(s, e + 2) == TerminatorEnd(s, e + 4);
  }

  // ---- chunked text

  ghost predicate Spaces(x: bytes) { forall i :: 0 <= i < |x| ==> x[i] == SP }

  lemma {:induction false} EolIsAt(s: bytes, i: nat, q: nat)
    requires i <= q < |s| && IsEolByte(s[q])
    requires forall k :: i <= k < q ==> !IsEolByte(s[k]) && s[k] != NUL
    ensures EolBeforeNul(s, i) == Some(q)
    decreases q - i
  {
    if i < q { EolIsAt(s, i + 1, q); }
  }

  lemma {:induction false} SpacesEndAt(s: bytes, i: nat, q: nat)
    requires i <= q < |s| && IsEolByte(s[q])
    ensures SpacesEnd(s, i) == q <==> Spaces(s[i..q])
    decreases q - i
  {
    if i < q {
      SpacesEndAt(s, i + 1, q);
      FirstOfSpaces(s, i, q);
    }
  }

  lemma FirstOfSpaces(s: bytes, i: nat, q: nat)
    requires i < q <= |s|
    ensures Spaces(s[i..q]) <==> s[i] == SP && Spaces(s[i + 1..q])
  {
    var x, y := s[i..q], s[i + 1..q];
    assert x == [s[i]] + y;
    assert forall k :: 0 <= k < |y| ==> y[k] == x[1 + k];
  }

  /** Only spaces are taken between a size and its line end. */
  lemma DataStartIs(s: bytes, n: nat, q: nat, eolLen: nat)
    requires n <= q < |s| && IsEolByte(s[q])
    requires forall k :: n <= k < q ==> !IsEolByte(s[k]) && s[k] != NUL
    ensures var len := EolLen(s, q);
      DataStart(s, n, eolLen) == (if Spaces(s[n..q]) then q + len else n + len, len)
  {
    hide EolBeforeNul, SpacesEnd, Spaces;
    EolIsAt(s, n, q);
    SpacesEndAt(s, n, q);
  }

  /** A chunk with the same line end behind its size and its data, and no NUL in its extension. */
  ghost predicate Tight(f: Frame) { FrameOk(f) && f.gap == f.size.eol && NUL !in f.size.extension }

  lemma SizeIsAt(s: bytes, e: nat, t: SizeText, n: nat, z: bytes)
    requires e <= |s| && s[e..] == LineText(t) + z && SizeOk(t, n, z)
    ensures var k := e + |t.digits|; var q := k + |t.extension|;
      && Strtoul(s[e..]) == Number(n, |t.digits|) && q < |s| && s[k..q] == t.extension
      && IsEolByte(s[q]) && EolLen(s, q) == |t.eol| && q + |t.eol| <= |s| && s[q + |t.eol|..] == z
  {
    hide Strtoul, HexValue, ExtensionOk, AllHex, EolLen, FirstEol;
    var x, p := s[e..], |t.digits| + |t.extension|;
    SizeLineParts(t, n, z);
    var y := t.extension + t.eol + z;
    StrtoulOfDigits(t.digits, y);
    Peel(s, e, t.digits, y);
    SeqAssoc(t.extension, t.eol, z);
    Peel(s, e + |t.digits|, t.extension, t.eol + z);
    assert s[e + p] == x[p];
    SameEol(s, e, p);
    assert s[e + p + |t.eol|..] == x[p + |t.eol|..];
  }

  lemma SameEol(s: bytes, e: nat, p: nat)
    requires e <= |s| && p < |s| - e
    ensures EolLen(s, e + p) == EolLen(s[e..], p)
  {
    assert p + 1 < |s| - e ==> s[e + p + 1] == s[e..][p + 1];
  }

  /** Where the loop finds the data of a chunk: behind the size line, or inside its extension. */
  lemma FrameIsAt(s: bytes, e: nat, f: Frame, z: bytes, eolLen: nat)
    requires e <= |s| && s[e..] == FrameText(f) + z && Tight(f) && z != []
    ensures var n, len := e + |f.size.digits|, |f.size.eol|;
      var start := n + |f.size.extension| + len;
      && Strtoul(s[e..]) == Number(|f.data|, |f.size.digits|) && n <= |s|
      && DataStart(s, n, eolLen) == (if Spaces(f.size.extension) then start else n + len, len)
      && start + |f.data| + len == e + |FrameText(f)| < |s| && s[e + |FrameText(f)|..] == z
      && s[start..start + |f.data|] == f.data && 1 <= len <= 2
  {
    hide Strtoul, DataStart, Spaces, SizeOk, FrameOk, LineText, FrameText, EolLen;
    var y := f.data + (f.gap + z);
    FrameSplits(f, z);
    FrameFacts(f, y);
    SizeIsAt(s, e, f.size, |f.data|, y);
    var n, len := e + |f.size.digits|, |f.size.eol|;
    var q := n + |f.size.extension|;
    NoEndWithin(s, n, q, f.size.extension);
    DataStartIs(s, n, q, eolLen);
    Peel(s, q + len, f.data, f.gap + z);
    Peel(s, q + len + |f.data|, f.gap, z);
    LengthOfFrame(f);
  }

  lemma LengthOfFrame(f: Frame)
    ensures |FrameText(f)| == |f.size.digits| + |f.size.extension| + |f.size.eol| + |f.data| + |f.gap|
  {}

  lemma FrameFacts(f: Frame, y: bytes)
    requires Tight(f) && |y| >= |f.data| && y[..|f.data|] == f.data
    ensures SizeOk(f.size, |f.data|, y) && f.gap == f.size.eol && 1 <= |f.size.eol| <= 2 && f.data != []
    ensures NUL !in f.size.extension && forall i :: 0 <= i < |f.size.extension| ==> !IsEolByte(f.size.extension[i])
  {
    hide HexValue, AllEols;
    assert y[0] == f.data[0];
  }

  lemma NoEndWithin(s: bytes, n: nat, q: nat, x: bytes)
    requires n <= q <= |s| && s[n..q] == x && NUL !in x && forall i :: 0 <= i < |x| ==> !IsEolByte(x[i])
    ensures forall k :: n <= k < q ==> !IsEolByte(s[k]) && s[k] != NUL
  {
    forall k | n <= k < q ensures !IsEolByte(s[k]) && s[k] != NUL { assert s[k] == x[k - n]; }
  }

  /** One pass of the loop over a chunk without an extension that more text follows. */
  lemma OneFrame(s: bytes, e: nat, f: Frame, z: bytes, eolLen: nat, out: bytes)
    requires e <= |s| && s[e..] == FrameText(f) + z && z != []
    requires Tight(f) && Spaces(f.size.extension) && eolLen <= 2
    ensures From(s, e, eolLen, out) == From(s, e + |FrameText(f)|, |f.size.eol|, out + f.data)
    ensures e + |FrameText(f)| <= |s| && s[e + |FrameText(f)|..] == z && |f.size.eol| <= 2
  {
    hide Strtoul, TerminatorEnd, DataStart, Spaces, FrameText, FrameOk;
    FrameIsAt(s, e, f, z, eolLen);
    assert f.data != [] by { FrameHasData(f); }
  }

  lemma FrameHasData(f: Frame) requires Tight(f) ensures f.data != [] {}

  lemma FromZero(s: bytes, e: nat, last: SizeText, trail: bytes, eolLen: nat, out: bytes)
    requires e <= |s| && s[e..] == LineText(last) + trail && SizeOk(last, 0, trail) && eolLen <= 2
    ensures From(s, e, eolLen, out) == Decoded(out, TerminatorEnd(s, e))
  {
    hide TerminatorEnd, Strtoul, DataStart, HexValue, AllHex;
    SizeIsAt(s, e, last, 0, trail);
  }

  function Offset(fs: seq<Frame>, i: nat): nat
    requires i <= |fs|
  {
    if i == 0 then 0 else Offset(fs, i - 1) + |FrameText(fs[i - 1])|
  }

  lemma {:induction false} FramesFrom(fs: seq<Frame>, y: bytes, i: nat)
    requires i <= |fs|
    ensures var s := Frames(fs) + y; Offset(fs, i) <= |s| && s[Offset(fs, i)..] == Frames(fs[i..]) + y
  {
    hide FrameText;
    if i == 0 {
      assert fs[0..] == fs;
    } else {
      FramesFrom(fs, y, i - 1);
      var rest := fs[i - 1..];
      assert rest[0] == fs[i - 1] && rest[1..] == fs[i..];
      SeqAssoc(FrameText(rest[0]), Frames(rest[1..]), y);
      Peel(Frames(fs) + y, Offset(fs, i - 1), FrameText(rest[0]), Frames(fs[i..]) + y);
    }
  }

  lemma TextFrom(fs: seq<Frame>, last: SizeText, trail: bytes, i: nat)
    requires i <= |fs|
    ensures var s := Text(fs, last) + trail;
      Offset(fs, i) <= |s| && s[Offset(fs, i)..] == Text(fs[i..], last) + trail
  {
    hide Text, Frames, LineText, Offset;
    TextIsFrames(fs, last, trail);
    TextIsFrames(fs[i..], last, trail);
    FramesFrom(fs, LineText(last) + trail, i);
  }

  ghost predicate AllTight(fs: seq<Frame>) { forall i :: 0 <= i < |fs| ==> Tight(fs[i]) }
  ghost predicate NoExtensions(fs: seq<Frame>) { forall i :: 0 <= i < |fs| ==> Spaces(fs[i].size.extension) }

  /** The loop gets through chunks without extensions, whatever is behind them. */
  lemma {:induction false} FramesPass(fs: seq<Frame>, y: bytes, i: nat, eolLen: nat, out: bytes) returns (len: nat)
    requires AllTight(fs) && NoExtensions(fs) && i <= |fs| && eolLen <= 2 && y != []
    ensures var s := Frames(fs) + y;
      && Offset(fs, i) <= |s| && Offset(fs, |fs|) <= |s| && s[Offset(fs, |fs|)..] == y && len <= 2
      && From(s, Offset(fs, i), eolLen, out) == From(s, Offset(fs, |fs|), len, out + Concat(Datas(fs[i..])))
    decreases |fs| - i
  {
    hide FrameText, From, Tight, Spaces, FrameOk, Frames, Offset;
    FramesFrom(fs, y, i);
    FramesFrom(fs, y, |fs|);
    if i == |fs| {
      len := eolLen;
      assert fs[i..] == [] && Concat(Datas([])) == [] && out + [] == out;
      assert Frames([]) + y == y by { NoFrameText(); }
    } else {
      var f, z := fs[i], Frames(fs[i + 1..]) + y;
      NextFrame(fs, i, y);
      OneFrame(Frames(fs) + y, Offset(fs, i), f, z, eolLen, out);
      len := FramesPass(fs, y, i + 1, |f.size.eol|, out + f.data);
      SeqAssoc(out, f.data, Concat(Datas(fs[i + 1..])));
      assert Frames(fs[|fs|..]) + y == y by { NoFrameText(); }
    }
  }

  lemma NextFrame(fs: seq<Frame>, i: nat, y: bytes)
    requires i < |fs|
    ensures Frames(fs[i..]) + y == FrameText(fs[i]) + (Frames(fs[i + 1..]) + y)
    ensures Concat(Datas(fs[i..])) == fs[i].data + Concat(Datas(fs[i + 1..]))
    ensures Offset(fs, i + 1) == Offset(fs, i) + |FrameText(fs[i])|
  {
    hide FrameText;
    assert fs[i..][0] == fs[i] && fs[i..][1..] == fs[i + 1..];
    SeqAssoc(FrameText(fs[i]), Frames(fs[i + 1..]), y);
  }

  lemma FramesPassed(fs: seq<Frame>, y: bytes) returns (len: nat)
    requires AllTight(fs) && NoExtensions(fs) && y != []
    ensures var s := Frames(fs) + y;
      && Offset(fs, |fs|) <= |s| && s[Offset(fs, |fs|)..] == y && len <= 2
      && From(s, 0, 0, []) == From(s, Offset(fs, |fs|), len, Concat(Datas(fs)))
  {
    hide From, NoExtensions, AllTight, Frames;
    len := FramesPass(fs, y, 0, 0, []);
    assert fs[0..] == fs && [] + Concat(Datas(fs)) == Concat(Datas(fs));
  }

  /** The one-shot decoder takes chunked text without extensions, but for spaces behind a size. */
  lemma OneShotDecodesText(fs: seq<Frame>, last: SizeText, trail: bytes)
    requires TextOk(fs, last, trail) && AllTight(fs) && NoExtensions(fs)
    ensures var s := Text(fs, last) + trail;
      Offset(fs, |fs|) <= |s| && From(s, 0, 0, []) == Decoded(Concat(Datas(fs)), TerminatorEnd(s, Offset(fs, |fs|)))
  {
    hide From, TerminatorEnd, Text, NoExtensions, AllTight, Frames, LineText, SizeOk, Offset;
    var y := LineText(last) + trail;
    TextIsFrames(fs, last, trail);
    assert y != [] by { SizeIsNotEmpty(last, trail); }
    var len := FramesPassed(fs, y);
    FromZero(Frames(fs) + y, Offset(fs, |fs|), last, trail, len, Concat(Datas(fs)));
  }

  /** A text that breaks off within a chunk: what there is of it comes out, and all of the input is used. */
  lemma OneShotTakesPart(fs: seq<Frame>, size: SizeText, n: nat, x: bytes)
    requires AllTight(fs) && NoExtensions(fs) && SizeOk(size, n, x) && |x| < n
    requires Spaces(size.extension) && NUL !in size.extension
    ensures var s := Frames(fs) + (LineText(size) + x); From(s, 0, 0, []) == Decoded(Concat(Datas(fs)) + x, |s|)
  {
    hide NoExtensions, AllTight, Frames, LineText, SizeOk, Strtoul, DataStart, Spaces, Offset, From;
    var y := LineText(size) + x;
    assert y != [] by { LineIsThere(size, n, x); }
    var len := FramesPassed(fs, y);
    PartIsTaken(Frames(fs) + y, Offset(fs, |fs|), size, n, x, len, Concat(Datas(fs)));
  }

  lemma LineIsThere(size: SizeText, n: nat, x: bytes) requires SizeOk(size, n, x) ensures LineText(size) + x != [] {}

  lemma PartIsTaken(s: bytes, e: nat, size: SizeText, n: nat, x: bytes, eolLen: nat, out: bytes)
    requires e <= |s| && s[e..] == LineText(size) + x && SizeOk(size, n, x) && |x| < n && eolLen <= 2
    requires Spaces(size.extension) && NUL !in size.extension
    ensures From(s, e, eolLen, out) == Decoded(out + x, |s|)
  {
    hide LineText, Strtoul, DataStart, HexValue, AllHex, Spaces;
    SizeIsAt(s, e, size, n, x);
    var k := e + |size.digits|;
    var q := k + |size.extension|;
    NoEndWithin(s, k, q, size.extension);
    DataStartIs(s, k, q, eolLen);
    var start := q + |size.eol|;
    assert s[start..start + (|s| - start)] == x;
  }

  /** Anything that no size starts with: no digit, no sign, no white space. */
  predicate NoSizeAt(y: bytes) { y != [] && !IsHexDigit(y[0]) && !IsSpace(y[0]) && y[0] != 43 && y[0] != 45 }

  lemma NothingReads(y: bytes)
    requires NoSizeAt(y)
    ensures Strtoul(y).stop == 0
  {
    assert SpaceRun(y) == 0 && SignEnd(y) == 0 && DigitsStart(y) == 0;
    assert HexRunEnd(y, 0) == 0;
  }

  /** Text that does not start with a size is returned as it is, and anything but a size behind chunks is refused. */
  lemma TrashIsRefused(fs: seq<Frame>, y: bytes)
    requires AllTight(fs) && NoExtensions(fs) && NoSizeAt(y)
    ensures From(Frames(fs) + y, 0, 0, []) == if fs == [] then Decoded(y, |y|) else Trash
  {
    hide NoExtensions, AllTight, Frames, Strtoul, FrameText, DataStart;
    NothingReads(y);
    var len := FramesPassed(fs, y);
    if fs == [] {
      assert Frames([]) + y == y && y[0..] == y by { NoFrameText(); }
    } else {
      assert Offset(fs, |fs|) > 0 by { SomeOffset(fs); }
    }
  }

  lemma NoFrameText() ensures Frames([]) == [] {}

  lemma SomeOffset(fs: seq<Frame>)
    requires fs != [] && AllTight(fs)
    ensures Offset(fs, |fs|) > 0
  {
    hide AllTight, FrameText;
    LineIsNotEmptyAt(fs);
  }

  lemma LineIsNotEmptyAt(fs: seq<Frame>)
    requires fs != [] && AllTight(fs)
    ensures FrameText(fs[|fs| - 1]) != []
  {
    hide LineText;
    LineIsNotEmpty(fs[|fs| - 1]);
  }

  lemma {:induction false} AllFramedIsTight(blocks: seq<bytes>)
    requires Sized(blocks) && NoneEmpty(blocks)
    ensures AllTight(AllFramed(blocks)) && NoExtensions(AllFramed(blocks))
  {
    hide FrameOk;
    if blocks != [] {
      FramedIsChunk(blocks[0]);
      AllFramedIsTight(blocks[1..]);
    }
  }

  /** The one-shot decoder undoes the encoder and ends behind the terminator. */
  lemma OneShotDecodesEncoded(blocks: seq<bytes>)
    requires Sized(blocks) && NoneEmpty(blocks)
    ensures From(Encode(blocks), 0, 0, []) == Decoded(Concat(blocks), |Encode(blocks)|)
  {
    hide From, TerminatorEnd, Text, TextOk, NoExtensions, AllTight, Encode, Offset;
    var fs, s := AllFramed(blocks), Encode(blocks);
    assert s + [] == s && CRLF + [] == CRLF;
    EncodedIsText(blocks, []);
    AllFramedIsTight(blocks);
    OneShotDecodesText(fs, ZeroLine, CRLF);
    TextFrom(fs, ZeroLine, CRLF, |fs|);
    NoFrames(fs[|fs|..]);
    TerminatorSplits([]);
    assert Terminator + [] == Terminator;
    TerminatorEndsRun(s, Offset(fs, |fs|));
  }

  lemma NoFrames(fs: seq<Frame>) requires fs == [] ensures Text(fs, ZeroLine) == LineText(ZeroLine) {}

  // ---- when the loop stays within its input

  /** A place where a size is read, and the length of the line end of the chunk before it. */
  datatype Place = Place(at: nat, eolLen: nat)

  /** A complete chunk leads from one place to the next. */
  ghost predicate Hop(s: bytes, p: Place, q: Place) {
    p.at < |s| &&
    var size := Strtoul(s[p.at..]);
    var (start, len) := DataStart(s, p.at + size.stop, p.eolLen);
    size.value > 0 && start + size.value < |s| && q == Place(start + size.value + len, len)
  }

  ghost predicate Chain(s: bytes, ps: seq<Place>) {
    ps != [] && forall i :: 0 <= i < |ps| - 1 ==> Hop(s, ps[i], ps[i + 1])
  }

  /**
   * A size other than 0 is followed by no line end but by a NUL, or by the NUL behind the data, so
   * near to the end that the line end of the chunk before it does not fit.
   */
  ghost predicate Overruns(s: bytes, p: Place) {
    p.at < |s| &&
    var size := Strtoul(s[p.at..]);
    var n := p.at + size.stop;
    size.value > 0 && At(s, n) == NUL && n + p.eolLen > |s|
  }

  ghost predicate LeavesFrom(s: bytes, p: Place) {
    exists ps :: Chain(s, ps) && ps[0] == p && Overruns(s, ps[|ps| - 1])
  }

  // ---- what an extension does

  /** The chain of places from the start on has one where each chunk starts, and one behind them. */
  ghost predicate Follows(s: bytes, ps: seq<Place>, fs: seq<Frame>) {
    && |ps| == |fs| + 1 && Chain(s, ps) && ps[0] == Place(0, 0)
    && forall i :: 0 <= i <= |fs| ==> ps[i].at == Offset(fs, i)
  }

  /** From the start of a chunk the loop gets behind it if and only if only spaces follow the size. */
  lemma HopsOverIff(s: bytes, p: Place, f: Frame, z: bytes, q: Place)
    requires p.at <= |s| && s[p.at..] == FrameText(f) + z && Tight(f) && z != []
    requires q.at == p.at + |FrameText(f)|
    ensures Hop(s, p, q) <==> Spaces(f.size.extension) && q.eolLen == |f.size.eol|
  {
    hide Strtoul, DataStart, Spaces, FrameText, FrameOk;
    FrameIsAt(s, p.at, f, z, p.eolLen);
    assert f.data != [] by { FrameHasData(f); }
    if f.size.extension == [] { NothingIsSpaces(); }
  }

  lemma NothingIsSpaces() ensures Spaces([]) {}

  lemma FrameStands(fs: seq<Frame>, last: SizeText, trail: bytes, i: nat)
    requires TextOk(fs, last, trail) && i < |fs|
    ensures var s, z := Text(fs, last) + trail, Text(fs[i + 1..], last) + trail;
      Offset(fs, i) <= |s| && s[Offset(fs, i)..] == FrameText(fs[i]) + z && z != []
  {
    hide FrameText, SizeOk, FrameOk;
    TextFrom(fs, last, trail, i);
    assert fs[i..][0] == fs[i] && fs[i..][1..] == fs[i + 1..];
    SeqAssoc(FrameText(fs[i]), Text(fs[i + 1..], last), trail);
    TextIsNotEmpty(fs[i + 1..], last, trail);
  }

  lemma FoundHaveNone(fs: seq<Frame>, last: SizeText, trail: bytes, ps: seq<Place>)
    requires TextOk(fs, last, trail) && AllTight(fs) && Follows(Text(fs, last) + trail, ps, fs)
    ensures NoExtensions(fs)
  {
    hide Hop, Text, TextOk, FrameText, Tight, Spaces, Offset;
    forall i | 0 <= i < |fs| ensures Spaces(fs[i].size.extension) {
      FrameStands(fs, last, trail, i);
      NextOffset(fs, i);
      HopsOverIff(Text(fs, last) + trail, ps[i], fs[i], Text(fs[i + 1..], last) + trail, ps[i + 1]);
    }
  }

  function PlaceOf(fs: seq<Frame>, i: nat): Place
    requires i <= |fs|
  {
    Place(Offset(fs, i), if i == 0 then 0 else |fs[i - 1].size.eol|)
  }

  lemma PlacesFollow(fs: seq<Frame>, last: SizeText, trail: bytes, ps: seq<Place>)
    requires TextOk(fs, last, trail) && AllTight(fs) && NoExtensions(fs)
    requires |ps| == |fs| + 1 && forall i :: 0 <= i <= |fs| ==> ps[i] == PlaceOf(fs, i)
    ensures Follows(Text(fs, last) + trail, ps, fs)
  {
    hide Hop, Text, TextOk, FrameText, Tight, Spaces, Offset;
    var s := Text(fs, last) + trail;
    forall i | 0 <= i < |ps| - 1 ensures Hop(s, ps[i], ps[i + 1]) {
      FrameStands(fs, last, trail, i);
      NextOffset(fs, i);
      HopsOverIff(s, ps[i], fs[i], Text(fs[i + 1..], last) + trail, ps[i + 1]);
    }
    assert Offset(fs, 0) == 0 by { FirstOffset(fs); }
  }

  /**
   * The loop finds the chunks of a text where they are if and only if no size is followed by anything
   * but spaces. At the first extension it takes the data of the chunk from inside the size line.
   */
  lemma FindsChunksIff(fs: seq<Frame>, last: SizeText, trail: bytes)
    requires TextOk(fs, last, trail) && AllTight(fs)
    ensures (exists ps :: Follows(Text(fs, last) + trail, ps, fs)) <==> NoExtensions(fs)
  {
    hide Follows, Text, TextOk, Tight, Spaces, Offset, NoExtensions;
    if exists ps :: Follows(Text(fs, last) + trail, ps, fs) {
      var ps: seq<Place> :| Follows(Text(fs, last) + trail, ps, fs);
      FoundHaveNone(fs, last, trail, ps);
    }
    if NoExtensions(fs) {
      PlacesFollow(fs, last, trail, seq(|fs| + 1, i requires 0 <= i <= |fs| => PlaceOf(fs, i)));
    }
  }

  lemma NextOffset(fs: seq<Frame>, i: nat)
    requires i < |fs|
    ensures Offset(fs, i + 1) == Offset(fs, i) + |FrameText(fs[i])|
  {}

  lemma FirstOffset(fs: seq<Frame>) ensures Offset(fs, 0) == 0 {}

  const Extended := Frame(SizeText([49], [59, 120], CRLF), [97], CRLF)
  const ExtendedText: bytes := [49, 59, 120, 13, 10, 97, 13, 10, 48, 13, 10, 13, 10]

  lemma ExtendedIsText()
    ensures TextOk([Extended], ZeroLine, CRLF) && Text([Extended], ZeroLine) + CRLF == ExtendedText
    ensures ExtendedText == FrameText(Extended) + (LineText(ZeroLine) + CRLF)
  {
    hide SizeOk, FrameOk;
    OneIsOk(Extended);
    ZeroLineIsOk(CRLF);
    assert [Extended][1..] == [] && Text([], ZeroLine) == LineText(ZeroLine);
  }

  lemma DataFromExtension()
    ensures Strtoul(ExtendedText) == Number(1, 1) && DataStart(ExtendedText, 1, 0) == (3, 2)
  {
    hide Strtoul, DataStart, FrameText, LineText, FrameOk, Spaces;
    OneIsOk(Extended);
    ExtendedIsText();
    assert ExtendedText[0..] == ExtendedText;
    ZeroLineIsOk(CRLF);
    FrameIsAt(ExtendedText, 0, Extended, LineText(ZeroLine) + CRLF, 0);
    SemicolonIsNoSpace();
  }

  lemma SemicolonIsNoSpace() ensures !Spaces([59, 120]) { assert [59, 120][0] != SP; }

  /** The text "1;x CRLF a CRLF 0 CRLF CRLF" is chunked, and decoded into a CR where the data is an "a". */
  lemma ExtensionIsTaken()
    ensures TextOk([Extended], ZeroLine, CRLF) && Text([Extended], ZeroLine) + CRLF == ExtendedText
    ensures From(ExtendedText, 0, 0, []) == Decoded([13], |ExtendedText|)
  {
    hide Strtoul, DataStart, Text, TextOk, LineText, FrameText;
    var s := ExtendedText;
    ExtendedIsText();
    DataFromExtension();
    assert s[0..] == s && s[6..] == [13, 10, 48, 13, 10, 13, 10];
    SpacesThenZero();
    assert Take([], s, 3, 1) == [13];
    assert TerminatorEnd(s, 13) == 13 && TerminatorEnd(s, 11) == 13 && TerminatorEnd(s, 9) == 13;
    assert TerminatorEnd(s, 7) == 13;
  }

  lemma OneIsOk(f: Frame)
    requires f == Frame(SizeText([49], [59, 120], CRLF), [97], CRLF)
    ensures Tight(f)
  {
    var d: bytes := [49];
    assert d[..0] == [] && HexValue([]) == 0 && HexValue(d) == 1;
  }

  /** White space in front of a size is skipped by the reader of numbers. */
  lemma SpacesThenZero()
    ensures Strtoul([13, 10, 48, 13, 10, 13, 10]) == Number(0, 3)
  {
    var x: bytes := [13, 10, 48, 13, 10, 13, 10];
    assert SpaceRunEnd(x, 2) == 2 && SpaceRunEnd(x, 1) == 2;
    assert SpaceRun(x) == 2 && DigitsStart(x) == 2;
    assert HexRunEnd(x, 3) == 3 && HexRunEnd(x, 2) == 3;
    var d: bytes := [48];
    assert x[2..3] == d && d[..0] == [] && HexValue([]) == 0;
    assert HexValue(d) == 0;
  }

  lemma DataStartWithin(s: bytes, n: nat, eolLen: nat)
    requires n <= |s|
    ensures DataStart(s, n, eolLen).0 > |s| <==> At(s, n) == NUL && n + eolLen > |s|
  {
    hide EolBeforeNul;
  }

  lemma HopLeaves(s: bytes, p: Place, q: Place)
    requires Hop(s, p, q) && LeavesFrom(s, q)
    ensures LeavesFrom(s, p)
  {
    hide Hop, Overruns;
    var ps :| Chain(s, ps) && ps[0] == q && Overruns(s, ps[|ps| - 1]);
    var qs := [p] + ps;
    assert forall i :: 0 < i < |qs| ==> qs[i] == ps[i - 1];
    forall i | 0 <= i < |qs| - 1 ensures Hop(s, qs[i], qs[i + 1]) {
      if i > 0 { assert Hop(s, ps[i - 1], ps[i]); }
    }
    assert Chain(s, qs) && qs[|qs| - 1] == ps[|ps| - 1];
  }

  /** The first place of a chain that overruns does so itself or leads to the next. */
  lemma LeavesStep(s: bytes, p: Place) returns (q: Place)
    requires LeavesFrom(s, p)
    ensures Overruns(s, p) || (Hop(s, p, q) && LeavesFrom(s, q))
  {
    hide Hop, Overruns;
    var ps :| Chain(s, ps) && ps[0] == p && Overruns(s, ps[|ps| - 1]);
    if |ps| == 1 {
      q := p;
    } else {
      q := ps[1];
      var qs := ps[1..];
      assert forall i :: 0 <= i < |qs| ==> qs[i] == ps[i + 1];
      assert Chain(s, qs) && qs[|qs| - 1] == ps[|ps| - 1];
    }
  }

  lemma OverrunLeaves(s: bytes, p: Place)
    requires Overruns(s, p)
    ensures LeavesFrom(s, p)
  {
    hide Overruns;
    assert Chain(s, [p]) && [p][0] == p;
  }

  lemma {:induction false} LeavesFromIff(s: bytes, e: nat, eolLen: nat, out: bytes)
    requires eolLen <= 2
    ensures From(s, e, eolLen, out) == PastEnd <==> LeavesFrom(s, Place(e, eolLen))
    decreases if e < |s| then |s| - e else 0
  {
    hide Strtoul, DataStart, TerminatorEnd, LeavesFrom;
    var p := Place(e, eolLen);
    if e < |s| {
      var size := Strtoul(s[e..]);
      var (start, len) := DataStart(s, e + size.stop, eolLen);
      DataStartWithin(s, e + size.stop, eolLen);
      if size.value > 0 && start + size.value < |s| {
        var q := Place(start + size.value + len, len);
        assert Hop(s, p, q);
        LeavesFromIff(s, q.at, len, Take(out, s, start, size.value));
        if LeavesFrom(s, q) { HopLeaves(s, p, q); }
      } else if Overruns(s, p) {
        OverrunLeaves(s, p);
      }
    }
    if LeavesFrom(s, p) {
      var q := LeavesStep(s, p);
    }
  }

  /** The loop leaves its input if and only if the chunks lead to such a size. */
  lemma LeavesDataIff(s: bytes)
    ensures From(s, 0, 0, []) == PastEnd
      <==> exists ps :: Chain(s, ps) && ps[0] == Place(0, 0) && Overruns(s, ps[|ps| - 1])
  {
    LeavesFromIff(s, 0, 0, []);
  }

  /** The number that is read ends in a digit. */
  lemma SizeEndsInDigit(s: bytes)
    requires Strtoul(s).stop > 0
    ensures IsHexDigit(s[Strtoul(s).stop - 1])
  {
    hide HexValue, SignEnd, SpaceRun;
    var k := DigitsStart(s);
    var e := HexRunEnd(s, k);
  }

  lemma NoNumberNoSize(s: bytes)
    requires Strtoul(s).value > 0
    ensures Strtoul(s).stop > 0
  {
    hide Strtoul;
  }

  /** What a caller can see of its input: no NUL, and a last byte that is not a hex digit. */
  lemma StaysWithinData(s: bytes)
    requires NUL !in s && (s != [] ==> !IsHexDigit(s[|s| - 1]))
    ensures From(s, 0, 0, []) != PastEnd
  {
    hide From, Strtoul;
    LeavesDataIff(s);
    if exists ps :: Chain(s, ps) && ps[0] == Place(0, 0) && Overruns(s, ps[|ps| - 1]) {
      var ps: seq<Place> :| Chain(s, ps) && ps[0] == Place(0, 0) && Overruns(s, ps[|ps| - 1]);
      var e := ps[|ps| - 1].at;
      var size := Strtoul(s[e..]);
      assert e + size.stop == |s|;
      NoNumberNoSize(s[e..]);
      SizeEndsInDigit(s[e..]);
    }
  }

  /** Neither does a text with a single size, whatever it ends in. */
  lemma FirstChunkStaysWithinData(s: bytes)
    requires forall q :: !Hop(s, Place(0, 0), q)
    ensures From(s, 0, 0, []) != PastEnd
  {
    hide From, Hop, Strtoul;
    LeavesFromIff(s, 0, 0, []);
    if LeavesFrom(s, Place(0, 0)) {
      var q := LeavesStep(s, Place(0, 0));
    }
  }

  lemma NumberAtOnce(s: bytes)
    requires s != [] && IsHexDigit(s[0]) && s[0] != 48 && (|s| > 1 ==> !IsHexDigit(s[1]))
    ensures Strtoul(s) == Number(HexDigitValue(s[0]), 1)
  {
    assert SpaceRun(s) == 0 && SignEnd(s) == 0 && DigitsStart(s) == 0;
    assert HexRunEnd(s, 0) == 1;
    var d := [s[0]];
    assert s[0..1] == d && d[..0] == [] && HexValue([]) == 0;
    assert HexValue(d) == HexDigitValue(s[0]);
  }

  /** One chunk with its line end, and a size without one: the text "1 LF a LF 3". */
  lemma OpenSizeLeavesData()
    ensures From([49, 10, 97, 10, 51], 0, 0, []) == PastEnd
  {
    hide Strtoul;
    var s: bytes := [49, 10, 97, 10, 51];
    assert s[0..] == s;
    NumberAtOnce(s);
    assert EolBeforeNul(s, 1) == Some(1) && SpacesEnd(s, 1) == 1;
    assert DataStart(s, 1, 0) == (2, 1);
    assert s[4..] == [51];
    NumberAtOnce([51]);
    assert DataStart(s, 5, 1) == (6, 1);
  }

  /** What is decoded fits into as much room as the input takes. */
  lemma {:induction false} DecodedFits(s: bytes, e: nat, eolLen: nat, out: bytes)
    requires eolLen <= 2 && |out| <= e && |out| <= |s|
    ensures var r := From(s, e, eolLen, out); r.Decoded? ==> |r.out| <= |s|
    decreases if e < |s| then |s| - e else 0
  {
    hide Strtoul, DataStart, TerminatorEnd;
    if e < |s| {
      var size := Strtoul(s[e..]);
      var (start, len) := DataStart(s, e + size.stop, eolLen);
      if size.value > 0 && start + size.value < |s| {
        DecodedFits(s, start + size.value + len, len, Take(out, s, start, size.value));
      }
    }
  }
}
