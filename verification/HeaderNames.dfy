/** Canonical header names: the in-place rewrite of a key and what it identifies. */
module HeaderNames {
  import opened Bytes

  /** The byte at one place, given whether a letter stands before it. */
  function PrettyByte(b: byte, wasAlpha: bool, first: bool, uctitle: bool, xhyphen: bool): byte {
    if IsAlpha(b) then if !wasAlpha && uctitle then ToUpper(b) else ToLower(b)
    else if xhyphen && !first && b == 95 then 45
    else b
  }

  function PrettyAt(key: bytes, i: nat, uctitle: bool, xhyphen: bool): byte
    requires i < |key|
  {
    PrettyByte(key[i], i > 0 && IsAlpha(key[i - 1]), i == 0, uctitle, xhyphen)
  }

  function Pretty(key: bytes, uctitle: bool, xhyphen: bool): (r: bytes)
    ensures |r| == |key|
    ensures forall i :: 0 <= i < |key| ==> r[i] == PrettyAt(key, i, uctitle, xhyphen)
  {
    seq(|key|, i requires 0 <= i < |key| => PrettyAt(key, i, uctitle, xhyphen))
  }

  /** The canonical form, as headers are stored and looked up. */
  function Canonical(key: bytes): (r: bytes)
    ensures |r| == |key|
  {
    Pretty(key, true, true)
  }

  method PrettyKey(key: array<byte>, uctitle: bool, xhyphen: bool)
    modifies key
    ensures key[..] == Pretty(old(key[..]), uctitle, xhyphen)
  {
    var len := key.Length;
    if len == 0 {
      return;
    }
    var wasAlpha := IsAlpha(key[0]);
    if wasAlpha {
      if uctitle {
        key[0] := ToUpper(key[0]);
      } else {
        key[0] := ToLower(key[0]);
      }
    }
    var i := 1;
    while i < len
      invariant 1 <= i <= len
      invariant wasAlpha == IsAlpha(old(key[i - 1]))
      invariant forall j :: 0 <= j < i ==> key[j] == PrettyAt(old(key[..]), j, uctitle, xhyphen)
      invariant forall j :: i <= j < len ==> key[j] == old(key[j])
    {
      if IsAlpha(key[i]) {
        if wasAlpha {
          key[i] := ToLower(key[i]);
        } else if uctitle {
          key[i] := ToUpper(key[i]);
          wasAlpha := true;
        } else {
          key[i] := ToLower(key[i]);
          wasAlpha := true;
        }
      } else {
        if xhyphen && key[i] == 95 {
          key[i] := 45;
        }
        wasAlpha := false;
      }
      i := i + 1;
    }
  }

  // ---- what the four forms are

  predicate Letters(w: bytes) { forall i :: 0 <= i < |w| ==> IsAlpha(w[i]) }

  function Lowered(w: bytes): (r: bytes) { seq(|w|, i requires 0 <= i < |w| => ToLower(w[i])) }

  /** A word alone: its first letter is a capital if titles are asked for, and the others are not. */
  lemma PrettyWord(w: bytes, uctitle: bool, xhyphen: bool)
    requires Letters(w) && w != []
    ensures Pretty(w, uctitle, xhyphen) == if uctitle then [ToUpper(w[0])] + Lowered(w[1..]) else Lowered(w)
  {
    var r := Pretty(w, uctitle, xhyphen);
    forall i | 0 < i < |w| ensures r[i] == ToLower(w[i]) { assert IsAlpha(w[i - 1]); }
  }

  lemma PrettyFront(x: bytes, y: bytes, i: nat, uctitle: bool, xhyphen: bool)
    requires i < |x|
    ensures PrettyAt(x + y, i, uctitle, xhyphen) == PrettyAt(x, i, uctitle, xhyphen)
  {}

  lemma PrettyBehind(x: bytes, w: bytes, i: nat, uctitle: bool, xhyphen: bool)
    requires x != [] && !IsAlpha(x[|x| - 1]) && Letters(w) && i < |w|
    ensures PrettyAt(x + w, |x| + i, uctitle, xhyphen) == PrettyAt(w, i, uctitle, xhyphen)
  {
    assert (x + w)[|x| + i] == w[i];
    assert (x + w)[|x| + i - 1] == if i > 0 then w[i - 1] else x[|x| - 1];
  }

  /**
   * Words are told apart by bytes that are no letters. What is in front of such a byte and the word
   * behind it are rewritten by themselves; of these bytes only `_` changes, only if hyphens are asked
   * for, and not in first place.
   */
  lemma PrettyWords(key: bytes, c: byte, w: bytes, uctitle: bool, xhyphen: bool)
    requires !IsAlpha(c) && Letters(w)
    ensures var d := if xhyphen && c == 95 && key != [] then 45 else c;
      Pretty((key + [c]) + w, uctitle, xhyphen) == Pretty(key, uctitle, xhyphen) + [d] + Pretty(w, uctitle, xhyphen)
  {
    hide PrettyAt;
    var x, n, d := key + [c], |key|, if xhyphen && c == 95 && key != [] then 45 else c;
    var r, z := Pretty(x + w, uctitle, xhyphen), Pretty(key, uctitle, xhyphen) + [d] + Pretty(w, uctitle, xhyphen);
    forall i | 0 <= i < |r| ensures r[i] == z[i] {
      if i < n {
        PrettyFront(x, w, i, uctitle, xhyphen);
        PrettyFront(key, [c], i, uctitle, xhyphen);
      } else if i == n {
        PrettyFront(x, w, i, uctitle, xhyphen);
        PrettyBetween(key, c, uctitle, xhyphen);
      } else {
        PrettyBehind(x, w, i - n - 1, uctitle, xhyphen);
        assert z[i] == Pretty(w, uctitle, xhyphen)[i - n - 1];
      }
    }
  }

  lemma PrettyBetween(key: bytes, c: byte, uctitle: bool, xhyphen: bool)
    requires !IsAlpha(c)
    ensures PrettyAt(key + [c], |key|, uctitle, xhyphen) == if xhyphen && c == 95 && key != [] then 45 else c
  {}

  /** The bytes of a name that its canonical form does not depend on: case, and `_` for `-`. */
  ghost predicate SameName(a: bytes, b: bytes) {
    |a| == |b| &&
    forall i :: 0 <= i < |a| ==>
      ToLower(a[i]) == ToLower(b[i]) || (i > 0 && (a[i] == 45 || a[i] == 95) && (b[i] == 45 || b[i] == 95))
  }

  lemma CanonicalIdempotent(key: bytes)
    ensures Canonical(Canonical(key)) == Canonical(key)
  {
    var r := Canonical(key);
    assert forall i :: 0 <= i < |key| ==> IsAlpha(r[i]) == IsAlpha(key[i]);
    assert forall i :: 0 <= i < |key| ==> PrettyAt(r, i, true, true) == r[i];
  }

  lemma SameNameCollides(a: bytes, b: bytes)
    requires SameName(a, b)
    ensures Canonical(a) == Canonical(b)
  {
    assert forall i :: 0 <= i < |a| ==> IsAlpha(a[i]) == IsAlpha(b[i]);
    assert forall i :: 0 <= i < |a| ==> PrettyAt(a, i, true, true) == PrettyAt(b, i, true, true);
  }

  lemma PrettyByteKeeps(x: byte, p: bool, y: byte, q: bool, first: bool)
    requires PrettyByte(x, p, first, true, true) == PrettyByte(y, q, first, true, true)
    ensures ToLower(x) == ToLower(y) || (!first && (x == 45 || x == 95) && (y == 45 || y == 95))
  {}

  /** Two names collide exactly when they differ only in case or in `_` versus `-` after the first byte. */
  lemma NamesCollideIff(a: bytes, b: bytes)
    ensures Canonical(a) == Canonical(b) <==> SameName(a, b)
  {
    if SameName(a, b) {
      SameNameCollides(a, b);
    }
    if Canonical(a) == Canonical(b) {
      hide PrettyByte;
      assert |a| == |Canonical(a)| == |b|;
      forall i | 0 <= i < |a|
        ensures ToLower(a[i]) == ToLower(b[i]) || (i > 0 && (a[i] == 45 || a[i] == 95) && (b[i] == 45 || b[i] == 95))
      {
        assert PrettyAt(a, i, true, true) == Canonical(a)[i] == PrettyAt(b, i, true, true);
        PrettyByteKeeps(a[i], i > 0 && IsAlpha(a[i - 1]), b[i], i > 0 && IsAlpha(b[i - 1]), i == 0);
      }
    }
  }
}
