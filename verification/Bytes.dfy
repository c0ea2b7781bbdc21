/** Bytes, unsigned 64-bit words, concatenation and the big-endian length header. */
module Bytes {

  newtype byte = x: int | 0 <= x < 0x100
  newtype uint64 = x: int | 0 <= x < 0x1_0000_0000_0000_0000
  type bytes = seq<byte>

  datatype Option<+T> = None | Some(value: T)

  const MAX_INT64: uint64 := 0x7fff_ffff_ffff_ffff

  function Min(a: int, b: int): int { if a <= b then a else b }

  function Max(a: int, b: int): int { if a <= b then b else a }

  // ---------- concatenation ----------

  function Join(parts: seq<bytes>): bytes {
    if parts == [] then [] else Join(parts[..|parts| - 1]) + parts[|parts| - 1]
  }

  lemma JoinSnoc(parts: seq<bytes>, part: bytes)
    ensures Join(parts + [part]) == Join(parts) + part
  {
    assert (parts + [part])[..|parts|] == parts;
  }

  lemma {:induction false} JoinAppend(a: seq<bytes>, b: seq<bytes>)
    ensures Join(a + b) == Join(a) + Join(b)
  {
    if b == [] {
      assert a + b == a;
    } else {
      var k := |b| - 1;
      JoinAppend(a, b[..k]);
      assert a + b == (a + b[..k]) + [b[k]];
      JoinSnoc(a + b[..k], b[k]);
    }
  }

  lemma JoinCons(part: bytes, parts: seq<bytes>)
    ensures Join([part] + parts) == part + Join(parts)
  {
    JoinAppend([part], parts);
    assert Join([part]) == part by {
      assert [part][..0] == [];
      assert Join([]) + part == part;
    }
  }

  // Where a part sits in the whole.
  lemma JoinSegment(parts: seq<bytes>, i: nat)
    requires i < |parts|
    ensures var start := |Join(parts[..i])|;
            start + |parts[i]| <= |Join(parts)| && Join(parts)[start..start + |parts[i]|] == parts[i]
  {
    var head, tail := parts[..i], parts[i + 1..];
    assert parts == head + [parts[i]] + tail;
    JoinAppend(head + [parts[i]], tail);
    JoinSnoc(head, parts[i]);
  }

  // ---------- prefixes ----------

  lemma Reassociate(a: bytes, b: bytes, c: bytes)
    ensures (a + b) + c == a + (b + c)
  {
  }

  lemma TakeMore(b: bytes, n: nat, m: nat)
    requires n <= m <= |b|
    ensures b[..n] + b[n..m] == b[..m]
  {
  }

  // ---------- big-endian words ----------

  function Pow256(k: nat): (p: nat)
    ensures p > 0
  {
    if k == 0 then 1 else 0x100 * Pow256(k - 1)
  }

  // The k low-order base-256 digits of n, most significant first.
  function BigEndian(n: nat, k: nat): (b: bytes)
    ensures |b| == k
  {
    if k == 0 then [] else BigEndian(n / 0x100, k - 1) + [(n % 0x100) as byte]
  }

  function FromBigEndian(b: bytes): nat {
    if b == [] then 0 else 0x100 * FromBigEndian(b[..|b| - 1]) + b[|b| - 1] as nat
  }

  lemma {:induction false} FromBigEndianBound(b: bytes)
    ensures FromBigEndian(b) < Pow256(|b|)
  {
    if b != [] {
      FromBigEndianBound(b[..|b| - 1]);
    }
  }

  lemma {:induction false} DecodeEncodeWord(n: nat, k: nat)
    requires n < Pow256(k)
    ensures FromBigEndian(BigEndian(n, k)) == n
  {
    if k > 0 {
      DecodeEncodeWord(n / 0x100, k - 1);
      var b := BigEndian(n, k);
      assert b[..k - 1] == BigEndian(n / 0x100, k - 1);
    }
  }

  lemma {:induction false} EncodeDecodeWord(b: bytes)
    ensures BigEndian(FromBigEndian(b), |b|) == b
  {
    if b != [] {
      var k := |b| - 1;
      EncodeDecodeWord(b[..k]);
      var n := FromBigEndian(b);
      assert n / 0x100 == FromBigEndian(b[..k]) && n % 0x100 == b[k] as nat;
      assert b == b[..k] + [b[k]];
    }
  }

  lemma Pow256Of8()
    ensures Pow256(8) == 0x1_0000_0000_0000_0000
  {
    assert Pow256(4) == 0x1_0000_0000 by {
      assert Pow256(2) == 0x1_0000;
    }
    assert Pow256(6) == 0x1_0000_0000_0000;
  }

  const HEADER_LENGTH: nat := 8

  // The 8-byte header that precedes control frames and evidence alike.
  function Header(length: uint64): (h: bytes)
    ensures |h| == HEADER_LENGTH
  {
    BigEndian(length as nat, HEADER_LENGTH)
  }

  function ParseHeader(h: bytes): (length: uint64)
    requires |h| == HEADER_LENGTH
  {
    FromBigEndianBound(h);
    Pow256Of8();
    FromBigEndian(h) as uint64
  }

  // The header code is a bijection between 64-bit lengths and 8-byte strings.
  lemma HeaderBijective(length: uint64, h: bytes)
    requires |h| == HEADER_LENGTH
    ensures ParseHeader(Header(length)) == length
    ensures Header(ParseHeader(h)) == h
  {
    Pow256Of8();
    DecodeEncodeWord(length as nat, HEADER_LENGTH);
    EncodeDecodeWord(h);
  }

  // The eight bytes are the base-256 digits of the number, most significant first.
  ghost predicate Spells(h: bytes, n: nat) {
    && |h| == 8
    && h[0] as nat == n / 0x100_0000_0000_0000 % 0x100 && h[1] as nat == n / 0x1_0000_0000_0000 % 0x100
    && h[2] as nat == n / 0x100_0000_0000 % 0x100 && h[3] as nat == n / 0x1_0000_0000 % 0x100
    && h[4] as nat == n / 0x100_0000 % 0x100 && h[5] as nat == n / 0x1_0000 % 0x100
    && h[6] as nat == n / 0x100 % 0x100 && h[7] as nat == n % 0x100
  }

  lemma BigEndianStep(n: nat, k: nat)
    requires k > 0
    ensures BigEndian(n, k) == BigEndian(n / 0x100, k - 1) + [(n % 0x100) as byte]
  {
  }

  // What is on the wire is big-endian.
  lemma HeaderSpells(length: uint64)
    ensures Spells(Header(length), length as nat)
  {
    var n: nat := length as nat;
    var n1: nat, n2: nat, n3: nat, n4: nat := n / 0x100, n / 0x1_0000, n / 0x100_0000, n / 0x1_0000_0000;
    var n5: nat, n6: nat, n7: nat := n / 0x100_0000_0000, n / 0x1_0000_0000_0000, n / 0x100_0000_0000_0000;
    assert n1 / 0x100 == n2 && n2 / 0x100 == n3 && n3 / 0x100 == n4;
    assert n4 / 0x100 == n5 && n5 / 0x100 == n6 && n6 / 0x100 == n7;
    BigEndianStep(n, 8);
    BigEndianStep(n1, 7);
    BigEndianStep(n2, 6);
    BigEndianStep(n3, 5);
    BigEndianStep(n4, 4);
    BigEndianStep(n5, 3);
    BigEndianStep(n6, 2);
    BigEndianStep(n7, 1);
    assert BigEndian(n7 / 0x100, 0) == [];
    hide BigEndian;
  }

  lemma ParseHeaderSpells(h: bytes)
    requires |h| == HEADER_LENGTH
    ensures Spells(h, ParseHeader(h) as nat)
  {
    HeaderBijective(0, h);
    HeaderSpells(ParseHeader(h));
    hide Spells, Header, ParseHeader;
  }
}
