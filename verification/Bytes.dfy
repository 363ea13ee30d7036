/**
 * Byte strings: lexicographic order, ordered key iteration, big-endian integers; shared by the tree, manifest, policy
 * and grant models.
 */
module Bytes {
  import opened Outcomes

  newtype Byte = x: int | 0 <= x < 256

  type ByteString = seq<Byte>

  /** The bytes of an ASCII literal. */
  function Ascii(text: string): (bytes: ByteString)
    requires forall c :: c in text ==> c < 128 as char
  {
    seq(|text|, i requires 0 <= i < |text| =>
      assert text[i] in text; text[i] as int as Byte)
  }

  /** One byte for each character, with the character's code. */
  ghost predicate Spells(bytes: ByteString, text: string) {
    |bytes| == |text| && forall k :: 0 <= k < |bytes| ==> bytes[k] as int == text[k] as int
  }

  lemma {:induction false} AsciiSpells(text: string)
    requires forall c :: c in text ==> c < 128 as char
    ensures Spells(Ascii(text), text)
  {
    forall k | 0 <= k < |text| ensures Ascii(text)[k] as int == text[k] as int {
      assert text[k] in text;
    }
  }

  function Joined(parts: seq<ByteString>): ByteString {
    if parts == [] then [] else parts[0] + Joined(parts[1..])
  }

  /** Strict lexicographic order, the order of Rust's `str` and `[u8]`. */
  predicate Lt(a: ByteString, b: ByteString) {
    b != [] && (a == [] || a[0] < b[0] || (a[0] == b[0] && Lt(a[1..], b[1..])))
  }

  lemma {:induction false} LtIrreflexive(a: ByteString)
    ensures !Lt(a, a)
  {
    if a != [] {
      LtIrreflexive(a[1..]);
    }
  }

  lemma {:induction false} LtTransitive(a: ByteString, b: ByteString, c: ByteString)
    requires Lt(a, b) && Lt(b, c)
    ensures Lt(a, c)
  {
    if a != [] && a[0] == b[0] == c[0] {
      LtTransitive(a[1..], b[1..], c[1..]);
    }
  }

  lemma {:induction false} LtTotal(a: ByteString, b: ByteString)
    ensures Lt(a, b) || a == b || Lt(b, a)
  {
    if a != [] && b != [] && a[0] == b[0] {
      LtTotal(a[1..], b[1..]);
      if a[1..] == b[1..] {
        assert a == [a[0]] + a[1..] == [b[0]] + b[1..] == b;
      }
    }
  }

  lemma {:induction false} LtAsymmetric(a: ByteString, b: ByteString)
    requires Lt(a, b)
    ensures !Lt(b, a)
  {
    if Lt(b, a) {
      LtTransitive(a, b, a);
      LtIrreflexive(a);
    }
  }

  /** At place `k` the strings first differ: there `a` ends and `b` goes on, or `a` has the smaller byte. */
  ghost predicate BeforeAt(a: ByteString, b: ByteString, k: nat) {
    k <= |a| && k < |b| && a[..k] == b[..k] && (k < |a| ==> a[k] as int < b[k] as int)
  }

  ghost predicate ComesBefore(a: ByteString, b: ByteString) {
    exists k: nat :: BeforeAt(a, b, k)
  }

  lemma {:induction false} BeforeAtRest(a: ByteString, b: ByteString, k: nat)
    requires a != [] && b != [] && a[0] == b[0]
    ensures BeforeAt(a, b, k + 1) <==> BeforeAt(a[1..], b[1..], k)
  {
    if k + 1 <= |a| && k + 1 <= |b| {
      assert a[..k + 1] == [a[0]] + a[1..][..k] && b[..k + 1] == [b[0]] + b[1..][..k];
      if a[..k + 1] == b[..k + 1] {
        assert a[1..][..k] == a[..k + 1][1..] == b[..k + 1][1..] == b[1..][..k];
      }
    }
  }

  lemma {:induction false} FirstByteShared(a: ByteString, b: ByteString, k: nat)
    requires BeforeAt(a, b, k) && k > 0
    ensures a != [] && b != [] && a[0] == b[0]
  {
    assert a[0] == a[..k][0] && b[0] == b[..k][0];
  }

  /** The order compares the strings at the first place where they differ. */
  lemma {:induction false} LtExactly(a: ByteString, b: ByteString)
    ensures Lt(a, b) <==> ComesBefore(a, b)
  {
    if a != [] && b != [] && a[0] == b[0] {
      LtExactly(a[1..], b[1..]);
      if k: nat :| BeforeAt(a[1..], b[1..], k) {
        BeforeAtRest(a, b, k);
      }
      if k: nat :| BeforeAt(a, b, k) {
        assert k > 0;
        BeforeAtRest(a, b, k - 1);
      }
    } else {
      if Lt(a, b) { assert BeforeAt(a, b, 0); }
      if k: nat :| BeforeAt(a, b, k) {
        if k > 0 { FirstByteShared(a, b, k); }
      }
    }
  }

  /** A proper prefix sorts first. */
  lemma {:induction false} PrefixLt(a: ByteString, b: ByteString)
    requires a < b
    ensures Lt(a, b)
  {
    if a != [] {
      assert a[1..] < b[1..];
      PrefixLt(a[1..], b[1..]);
    }
  }

  /** The strings with one prefix are contiguous: nothing without it lies between it and one of them. */
  lemma {:induction false} PrefixInterval(p: ByteString, x: ByteString, y: ByteString)
    requires p <= y && !Lt(x, p) && !Lt(y, x)
    ensures p <= x
  {
    if p != [] {
      assert x != [] && x[0] == p[0] == y[0];
      PrefixInterval(p[1..], x[1..], y[1..]);
    }
  }

  /** Strictly increasing keys, hence without repetition. */
  predicate StrictlySorted(ks: seq<ByteString>) {
    forall i, j :: 0 <= i < j < |ks| ==> Lt(ks[i], ks[j])
  }

  /** Every key comes before the later ones, by the first place where they differ. */
  ghost predicate InByteOrder(ks: seq<ByteString>) {
    forall i, j :: 0 <= i < j < |ks| ==> ComesBefore(ks[i], ks[j])
  }

  lemma {:induction false} SortedExactly(ks: seq<ByteString>)
    ensures StrictlySorted(ks) <==> InByteOrder(ks)
  {
    forall i, j | 0 <= i < j < |ks| ensures Lt(ks[i], ks[j]) <==> ComesBefore(ks[i], ks[j]) {
      LtExactly(ks[i], ks[j]);
    }
  }

  /** The least element of a nonempty set. */
  function Least(s: set<ByteString>): (least: ByteString)
    requires s != {}
    ensures least in s
    ensures forall k :: k in s ==> !Lt(k, least)
  {
    LeastExists(s);
    var least :| least in s && forall k :: k in s ==> !Lt(k, least);
    assert forall other :: other in s && (forall k :: k in s ==> !Lt(k, other)) ==> other == least by {
      forall other | other in s && (forall k :: k in s ==> !Lt(k, other)) ensures other == least {
        LtTotal(other, least);
      }
    }
    least
  }

  lemma {:induction false} LeastExists(s: set<ByteString>)
    requires s != {}
    ensures exists least :: least in s && forall k :: k in s ==> !Lt(k, least)
  {
    var x :| x in s;
    var rest := s - {x};
    if rest == {} {
      LtIrreflexive(x);
      assert s == {x};
    } else {
      LeastExists(rest);
      var m :| m in rest && forall k :: k in rest ==> !Lt(k, m);
      LtIrreflexive(x);
      if Lt(x, m) {
        forall k | k in s ensures !Lt(k, x) {
          if k != x && Lt(k, x) { LtTransitive(k, x, m); }
        }
      } else {
        assert forall k :: k in s ==> k == x || k in rest;
        assert m in s && forall k :: k in s ==> !Lt(k, m);
      }
    }
  }

  /** Key iteration of an ordered map or set. */
  function SortedKeys(s: set<ByteString>): (ks: seq<ByteString>)
    ensures StrictlySorted(ks)
    ensures forall k :: k in ks <==> k in s
    ensures |ks| == |s|
  {
    if s == {} then []
    else
      var least := Least(s);
      var rest := SortedKeys(s - {least});
      assert forall i :: 0 <= i < |rest| ==> Lt(least, rest[i]) by {
        forall i | 0 <= i < |rest| ensures Lt(least, rest[i]) {
          assert rest[i] in rest;
          LtTotal(least, rest[i]);
        }
      }
      [least] + rest
  }

  /** `range(lo..).next()`: the first key that is not below `lo`. */
  function Ceiling(s: set<ByteString>, lo: ByteString): (first: Option<ByteString>)
    ensures first.Some? ==> first.value in s && !Lt(first.value, lo)
    ensures first.Some? ==> forall k :: k in s && !Lt(k, lo) ==> !Lt(k, first.value)
    ensures first.None? ==> forall k :: k in s ==> Lt(k, lo)
  {
    var above := set k | k in s && !Lt(k, lo);
    if above == {} then
      assert forall k :: k in s ==> Lt(k, lo) by {
        forall k | k in s ensures Lt(k, lo) { assert k !in above; }
      }
      None
    else
      Some(Least(above))
  }

  /** A strictly sorted sequence is determined by its elements. */
  lemma {:induction false} SortedUnique(a: seq<ByteString>, b: seq<ByteString>)
    requires StrictlySorted(a) && StrictlySorted(b)
    requires forall k :: k in a <==> k in b
    ensures a == b
  {
    if b != [] { assert b[0] in a; }
    if a != [] {
      assert a[0] in b;
      if a[0] != b[0] {
        var i :| 0 <= i < |a| && a[i] == b[0];
        var j :| 0 <= j < |b| && b[j] == a[0];
        LtAsymmetric(a[0], b[0]);
      }
      assert a == [a[0]] + a[1..] && b == [b[0]] + b[1..];
      forall k ensures k in a[1..] <==> k in b[1..] {
        LtIrreflexive(a[0]);
        assert a[0] !in a[1..] && b[0] !in b[1..];
        assert k in a <==> k == a[0] || k in a[1..];
        assert k in b <==> k == b[0] || k in b[1..];
      }
      SortedUnique(a[1..], b[1..]);
      assert a == [a[0]] + a[1..] && b == [b[0]] + b[1..];
    }
  }

  // ---------- big-endian integers ----------

  function Pow256(n: nat): (r: nat)
    ensures r > 0
  {
    if n == 0 then 1 else 256 * Pow256(n - 1)
  }

  /** `to_be_bytes` of an unsigned integer of `width` bytes. */
  function BigEndian(value: nat, width: nat): (bytes: ByteString)
    requires value < Pow256(width)
    ensures |bytes| == width
  {
    if width == 0 then [] else BigEndian(value / 256, width - 1) + [(value % 256) as Byte]
  }

  function FromBigEndian(bytes: ByteString): (value: nat)
    ensures value < Pow256(|bytes|)
  {
    if bytes == [] then 0
    else FromBigEndian(bytes[..|bytes| - 1]) * 256 + bytes[|bytes| - 1] as nat
  }

  lemma {:induction false} BigEndianRoundTrip(value: nat, width: nat)
    requires value < Pow256(width)
    ensures FromBigEndian(BigEndian(value, width)) == value
  {
    if width > 0 {
      var bytes := BigEndian(value, width);
      assert bytes[..width - 1] == BigEndian(value / 256, width - 1);
      BigEndianRoundTrip(value / 256, width - 1);
    }
  }

  lemma {:induction false} FromBigEndianRoundTrip(bytes: ByteString)
    ensures BigEndian(FromBigEndian(bytes), |bytes|) == bytes
  {
    if bytes != [] {
      var front := bytes[..|bytes| - 1];
      FromBigEndianRoundTrip(front);
      assert FromBigEndian(bytes) / 256 == FromBigEndian(front);
      assert bytes == front + [bytes[|bytes| - 1]];
    }
  }

  /** What eight bytes, most significant first, stand for. */
  function EightByteValue(b: ByteString): nat
    requires |b| == 8
  {
    b[0] as nat * 0x100_0000_0000_0000 + b[1] as nat * 0x1_0000_0000_0000 + b[2] as nat * 0x100_0000_0000
    + b[3] as nat * 0x1_0000_0000 + b[4] as nat * 0x100_0000 + b[5] as nat * 0x1_0000 + b[6] as nat * 0x100
    + b[7] as nat
  }

  function FourByteValue(b: ByteString): nat
    requires |b| == 4
  {
    b[0] as nat * 0x100_0000 + b[1] as nat * 0x1_0000 + b[2] as nat * 0x100 + b[3] as nat
  }

  lemma {:induction false} ValueOfLonger(b: ByteString, k: nat)
    requires k < |b|
    ensures FromBigEndian(b[..k + 1]) == FromBigEndian(b[..k]) * 256 + b[k] as nat
  {
    assert b[..k + 1][..k] == b[..k];
  }

  /** Four bytes stand for the value's digits in base 256, most significant first... */
  lemma {:induction false} FourBytesExactly(value: nat)
    requires value < Pow256(4)
    ensures FourByteValue(BigEndian(value, 4)) == value
  {
    var b := BigEndian(value, 4);
    BigEndianRoundTrip(value, 4);
    ValueOfLonger(b, 0);
    ValueOfLonger(b, 1);
    ValueOfLonger(b, 2);
    ValueOfLonger(b, 3);
    assert b[..4] == b && b[..0] == [];
  }

  /** ...and so do eight. */
  lemma {:induction false} EightBytesExactly(value: nat)
    requires value < Pow256(8)
    ensures EightByteValue(BigEndian(value, 8)) == value
  {
    var b := BigEndian(value, 8);
    BigEndianRoundTrip(value, 8);
    ValueOfLonger(b, 0);
    ValueOfLonger(b, 1);
    ValueOfLonger(b, 2);
    ValueOfLonger(b, 3);
    ValueOfLonger(b, 4);
    ValueOfLonger(b, 5);
    ValueOfLonger(b, 6);
    ValueOfLonger(b, 7);
    assert b[..8] == b && b[..0] == [];
  }

  const U64_BYTES := 8
  const U32_BYTES := 4

  lemma {:induction false} U64Range()
    ensures Pow256(U64_BYTES) == 0x1_0000_0000_0000_0000
    ensures Pow256(U32_BYTES) == 0x1_0000_0000
  {
    assert Pow256(1) == 256;
    assert Pow256(2) == 0x1_0000;
    assert Pow256(3) == 0x100_0000;
    assert Pow256(4) == 0x1_0000_0000;
    assert Pow256(5) == 0x100_0000_0000;
    assert Pow256(6) == 0x1_0000_0000_0000;
    assert Pow256(7) == 0x100_0000_0000_0000;
  }
}
