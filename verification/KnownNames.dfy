/** Names of headers that the code looks for: they are canonical as it writes them. */
module KnownNames {
  import opened Bytes
  import opened HeaderNames
  import H = HeaderParser
  import M = MessageParser

  lemma LitConcat(a: string, b: string)
    ensures Lit(a + b) == Lit(a) + Lit(b)
  {
    var x, y := Lit(a + b), Lit(a) + Lit(b);
    forall i | 0 <= i < |x| ensures x[i] == y[i] {
      assert (a + b)[i] == if i < |a| then a[i] else b[i - |a|];
    }
  }

  /** A capital letter and small ones. */
  ghost predicate Title(w: bytes) { w != [] && IsUpper(w[0]) && forall i :: 1 <= i < |w| ==> IsLower(w[i]) }

  /** Two such words with a hyphen between them are a canonical name. */
  lemma TitlesAreCanonical(a: bytes, b: bytes)
    requires Title(a) && Title(b)
    ensures var k := a + ([45] + b); k != [] && H.IsName(k) && Canonical(k) == k && k[0] == a[0]
  {
    hide PrettyByte, H.IsNameByte, IsUpper, IsLower;
    var k := a + ([45] + b);
    forall i | 0 <= i < |k| ensures PrettyAt(k, i, true, true) == k[i] && H.IsNameByte(k[i]) {
      TitleByte(a, b, i);
      ByteStays(k[i], i > 0 && IsAlpha(k[i - 1]), i == 0);
    }
  }

  lemma ByteStays(c: byte, wasAlpha: bool, first: bool)
    requires c == 45 || (if wasAlpha then IsLower(c) else IsUpper(c))
    ensures PrettyByte(c, wasAlpha, first, true, true) == c && H.IsNameByte(c)
  {}

  lemma TitleByte(a: bytes, b: bytes, i: nat)
    requires Title(a) && Title(b) && i < |a| + 1 + |b|
    ensures var k := a + ([45] + b);
      k[i] == 45 || (if i > 0 && IsAlpha(k[i - 1]) then IsLower(k[i]) else IsUpper(k[i]))
  {
    var k, n := a + ([45] + b), |a|;
    if i < n {
      assert k[i] == a[i];
      if i > 0 { assert k[i - 1] == a[i - 1]; }
    } else if i == n {
      assert k[i] == 45;
    } else {
      assert k[i] == b[i - n - 1];
      if i == n + 1 { assert k[i - 1] == 45; } else { assert k[i - 1] == b[i - n - 2]; }
    }
  }

  lemma NameIsTitles(a: string, b: string)
    ensures Lit(a + "-" + b) == Lit(a) + ([45] + Lit(b))
  {
    LitConcat(a + "-", b);
    LitConcat(a, "-");
    assert Lit("-") == [45];
    SeqAssoc(Lit(a), [45], Lit(b));
  }

  lemma RangeNameOk()
    ensures var k := M.CONTENT_RANGE; k != [] && H.IsName(k) && Canonical(k) == k && k[0] == 67
  {
    hide Canonical, H.IsName;
    var a, b := Lit("Content"), Lit("Range");
    assert a == [67, 111, 110, 116, 101, 110, 116] && b == [82, 97, 110, 103, 101];
    assert "Content" + "-" + "Range" == "Content-Range";
    NameIsTitles("Content", "Range");
    TitlesAreCanonical(a, b);
  }

  lemma ChunkedNameOk()
    ensures var k := M.TRANSFER_ENCODING; k != [] && H.IsName(k) && Canonical(k) == k && k[0] == 84
  {
    hide Canonical, H.IsName;
    var a, b := Lit("Transfer"), Lit("Encoding");
    assert a == [84, 114, 97, 110, 115, 102, 101, 114] && b == [69, 110, 99, 111, 100, 105, 110, 103];
    assert "Transfer" + "-" + "Encoding" == "Transfer-Encoding";
    NameIsTitles("Transfer", "Encoding");
    TitlesAreCanonical(a, b);
  }

  lemma LengthNameOk()
    ensures var k := M.CONTENT_LENGTH; k != [] && H.IsName(k) && Canonical(k) == k && k[0] == 67
    ensures M.CONTENT_LENGTH == [67, 111, 110, 116, 101, 110, 116] + ([45] + [76, 101, 110, 103, 116, 104])
  {
    hide Canonical, H.IsName;
    var a, b := Lit("Content"), Lit("Length");
    assert a == [67, 111, 110, 116, 101, 110, 116] && b == [76, 101, 110, 103, 116, 104];
    assert "Content" + "-" + "Length" == "Content-Length";
    NameIsTitles("Content", "Length");
    TitlesAreCanonical(a, b);
  }
}
