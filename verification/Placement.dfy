/** Placement of aircraft on shards and virtual shards, and which node owns which aircraft. */
module Placement {
  import opened Prelude

  const FNV_OFFSET_BASIS: bv64 := 0xcbf2_9ce4_8422_2325
  const FNV_PRIME: bv64 := 0x0000_0100_0000_01b3

  /** Counting up finds the byte with a given value. */
  lemma ByteOf(n: int) returns (b: bv8)
    requires 0 <= n < 0x100
    ensures b as int == n
    decreases n
  {
    b := 0;
    if n > 0 {
      var before := ByteOf(n - 1);
      b := before + 1;
    }
  }

  lemma BitsKeepBytes(b: bv8)
    ensures b as int as bv8 == b
  {
  }

  lemma ByteKeeps(n: int)
    requires 0 <= n < 0x100
    ensures n as bv8 as int == n
  {
    var b := ByteOf(n);
    BitsKeepBytes(b);
  }

  function Byte(n: int): (b: bv8)
    requires 0 <= n < 0x100
    ensures b as int == n
  {
    ByteKeeps(n);
    n as bv8
  }

  /** UTF-8, as RFC 3629 section 3 defines it. */
  function Utf8Char(c: char): seq<bv8> {
    var n := c as int;
    if n < 0x80 then [Byte(n)]
    else if n < 0x800 then [Byte(0xC0 + n / 0x40), Byte(0x80 + n % 0x40)]
    else if n < 0x10000 then
      [Byte(0xE0 + n / 0x1000), Byte(0x80 + n / 0x40 % 0x40), Byte(0x80 + n % 0x40)]
    else
      [Byte(0xF0 + n / 0x40000), Byte(0x80 + n / 0x1000 % 0x40), Byte(0x80 + n / 0x40 % 0x40), Byte(0x80 + n % 0x40)]
  }

  function Utf8(s: string): seq<bv8> {
    if s == [] then [] else Utf8(s[..|s| - 1]) + Utf8Char(s[|s| - 1])
  }

  function HashStep(hash: bv64, b: bv8): bv64 {
    (hash ^ (b as bv64)) * FNV_PRIME
  }

  function Fnv1a(key: seq<bv8>): bv64 {
    if key == [] then FNV_OFFSET_BASIS else HashStep(Fnv1a(key[..|key| - 1]), key[|key| - 1])
  }

  method Fnv1a64(key: seq<bv8>) returns (hash: bv64)
    ensures hash == Fnv1a(key)
  {
    hide HashStep;
    hash := FNV_OFFSET_BASIS;
    for i := 0 to |key|
      invariant hash == Fnv1a(key[..i])
    {
      assert key[..i + 1][..i] == key[..i];
      hash := HashStep(hash, key[i]);
    }
    assert key[..|key|] == key;
  }

  /** Reference values of the FNV-1a specification. */
  lemma KnownVectors()
    ensures Fnv1a(Utf8("")) == 0xcbf2_9ce4_8422_2325
    ensures Fnv1a(Utf8("a")) == 0xaf63_dc4c_8601_ec8c
    ensures Fnv1a(Utf8("foobar")) == 0x8594_4171_f739_67e8
  {
    hide Fnv1a, Utf8, HashStep;
    NoBytes();
    HashOfNothing();
    HashSteps();
    HashesOn("", "a", 0x61, 0xcbf2_9ce4_8422_2325, 0xaf63_dc4c_8601_ec8c);
    HashesOn("", "f", 0x66, 0xcbf2_9ce4_8422_2325, 0xaf63_db4c_8601_ead9);
    HashesOn("f", "fo", 0x6f, 0xaf63_db4c_8601_ead9, 0x0898_5907_b541_d342);
    HashesOn("fo", "foo", 0x6f, 0x0898_5907_b541_d342, 0xdcb2_7518_fed9_d577);
    HashesOn("foo", "foob", 0x62, 0xdcb2_7518_fed9_d577, 0xdd12_0e79_0c25_12af);
    HashesOn("foob", "fooba", 0x61, 0xdd12_0e79_0c25_12af, 0xcac1_65af_a2fe_f40a);
    HashesOn("fooba", "foobar", 0x72, 0xcac1_65af_a2fe_f40a, 0x8594_4171_f739_67e8);
  }

  lemma HashOfNothing()
    ensures Fnv1a([]) == 0xcbf2_9ce4_8422_2325
  {
  }

  lemma SameByte(a: bv8, b: bv8)
    requires a as int == b as int
    ensures a == b
  {
    BitsKeepBytes(a);
    BitsKeepBytes(b);
  }

  lemma HashSteps()
    ensures HashStep(0xcbf2_9ce4_8422_2325, 0x61) == 0xaf63_dc4c_8601_ec8c
    ensures HashStep(0xcbf2_9ce4_8422_2325, 0x66) == 0xaf63_db4c_8601_ead9
    ensures HashStep(0xaf63_db4c_8601_ead9, 0x6f) == 0x0898_5907_b541_d342
    ensures HashStep(0x0898_5907_b541_d342, 0x6f) == 0xdcb2_7518_fed9_d577
    ensures HashStep(0xdcb2_7518_fed9_d577, 0x62) == 0xdd12_0e79_0c25_12af
    ensures HashStep(0xdd12_0e79_0c25_12af, 0x61) == 0xcac1_65af_a2fe_f40a
    ensures HashStep(0xcac1_65af_a2fe_f40a, 0x72) == 0x8594_4171_f739_67e8
  {
  }

  /** One more ASCII character hashed. */
  lemma HashesOn(s: string, t: string, b: bv8, before: bv64, after: bv64)
    requires |t| == |s| + 1 && t[..|s|] == s && t[|s|] as int == b as int < 0x80
    requires Fnv1a(Utf8(s)) == before && HashStep(before, b) == after
    ensures Fnv1a(Utf8(t)) == after
  {
    hide HashStep, Byte;
    var key := Utf8(s);
    SameByte(Byte(b as int), b);
    assert Utf8(t) == key + [b];
    assert (key + [b])[..|key|] == key;
  }

  // ---- UTF-8 read back ----

  /** The code point the bytes start with, and how many bytes it takes. */
  function FirstPoint(b: seq<bv8>): (int, nat)
    requires b != []
  {
    var n := b[0] as int;
    if n < 0xC0 || |b| < 2 then (n, 1)
    else if n < 0xE0 || |b| < 3 then (n % 0x20 * 0x40 + b[1] as int % 0x40, 2)
    else if n < 0xF0 || |b| < 4 then ((n % 0x10 * 0x40 + b[1] as int % 0x40) * 0x40 + b[2] as int % 0x40, 3)
    else (((n % 0x8 * 0x40 + b[1] as int % 0x40) * 0x40 + b[2] as int % 0x40) * 0x40 + b[3] as int % 0x40, 4)
  }

  function Points(b: seq<bv8>): seq<int>
    decreases |b|
  {
    if b == [] then []
    else
      var (point, width) := FirstPoint(b);
      [point] + Points(b[if width <= |b| then width else |b|..])
  }

  /** Reassembling the bits of a code point cut into a lead part and continuations. */
  lemma TwoParts(n: int)
    requires 0x80 <= n < 0x800
    ensures (0xC0 + n / 0x40) % 0x20 * 0x40 + (0x80 + n % 0x40) % 0x40 == n
  {
  }

  lemma ThreeParts(n: int)
    requires 0x800 <= n < 0x10000
    ensures ((0xE0 + n / 0x1000) % 0x10 * 0x40 + (0x80 + n / 0x40 % 0x40) % 0x40) * 0x40 + (0x80 + n % 0x40) % 0x40 == n
  {
    assert n / 0x40 / 0x40 == n / 0x1000;
  }

  lemma FourParts(n: int)
    requires 0x10000 <= n < 0x110000
    ensures (((0xF0 + n / 0x40000) % 0x8 * 0x40 + (0x80 + n / 0x1000 % 0x40) % 0x40) * 0x40
             + (0x80 + n / 0x40 % 0x40) % 0x40) * 0x40 + (0x80 + n % 0x40) % 0x40 == n
  {
    assert n / 0x40 / 0x40 == n / 0x1000 && n / 0x1000 / 0x40 == n / 0x40000;
  }

  lemma CharReadsBack(c: char, rest: seq<bv8>)
    ensures FirstPoint(Utf8Char(c) + rest) == (c as int, |Utf8Char(c)|)
  {
    hide Byte, FirstPoint, Utf8Char;
    var n := c as int;
    if n < 0x800 {
      ShortReadsBack(c, rest);
    } else if n < 0x10000 {
      ThreeReadBack(c, rest);
    } else {
      FourReadBack(c, rest);
    }
  }

  lemma ShortReadsBack(c: char, rest: seq<bv8>)
    requires c as int < 0x800
    ensures FirstPoint(Utf8Char(c) + rest) == (c as int, |Utf8Char(c)|)
  {
    hide Byte, FirstPoint;
    var n, b := c as int, Utf8Char(c) + rest;
    if n < 0x80 {
      ReadFrom(b, n, 0, 0, 0, 1);
    } else {
      TwoParts(n);
      ReadFrom(b, 0xC0 + n / 0x40, 0x80 + n % 0x40, 0, 0, 2);
    }
  }

  lemma ThreeReadBack(c: char, rest: seq<bv8>)
    requires 0x800 <= c as int < 0x10000
    ensures FirstPoint(Utf8Char(c) + rest) == (c as int, |Utf8Char(c)|)
  {
    hide Byte, FirstPoint;
    var n, b := c as int, Utf8Char(c) + rest;
    ThreeParts(n);
    ReadFrom(b, 0xE0 + n / 0x1000, 0x80 + n / 0x40 % 0x40, 0x80 + n % 0x40, 0, 3);
  }

  lemma FourReadBack(c: char, rest: seq<bv8>)
    requires 0x10000 <= c as int
    ensures FirstPoint(Utf8Char(c) + rest) == (c as int, |Utf8Char(c)|)
  {
    hide Byte, FirstPoint;
    var n, b := c as int, Utf8Char(c) + rest;
    FourParts(n);
    ReadFrom(b, 0xF0 + n / 0x40000, 0x80 + n / 0x1000 % 0x40, 0x80 + n / 0x40 % 0x40, 0x80 + n % 0x40, 4);
  }

  /** What is read from bytes with these values, given the width the first announces. */
  lemma ReadFrom(b: seq<bv8>, n0: int, n1: int, n2: int, n3: int, width: nat)
    requires 1 <= width <= 4 && |b| >= width
    requires b[0] as int == n0 && (width > 1 ==> b[1] as int == n1)
    requires (width > 2 ==> b[2] as int == n2) && (width > 3 ==> b[3] as int == n3)
    requires if width == 1 then n0 < 0x80 else if width == 2 then 0xC0 <= n0 < 0xE0
             else if width == 3 then 0xE0 <= n0 < 0xF0 else 0xF0 <= n0
    ensures FirstPoint(b) ==
            (if width == 1 then n0
             else if width == 2 then n0 % 0x20 * 0x40 + n1 % 0x40
             else if width == 3 then (n0 % 0x10 * 0x40 + n1 % 0x40) * 0x40 + n2 % 0x40
             else ((n0 % 0x8 * 0x40 + n1 % 0x40) * 0x40 + n2 % 0x40) * 0x40 + n3 % 0x40, width)
  {
  }

  lemma {:induction false} Utf8First(s: string)
    requires s != []
    ensures Utf8(s) == Utf8Char(s[0]) + Utf8(s[1..])
  {
    hide Utf8Char;
    if |s| == 1 {
      assert Utf8(s[..0]) == [] && Utf8(s[1..]) == [];
    } else {
      var front, last := s[..|s| - 1], s[|s| - 1];
      Utf8First(front);
      assert s[1..][..|s| - 2] == front[1..] && s[1..][|s| - 2] == last;
    }
  }

  /** Reading the bytes of a string back gives its characters, so different strings have
      different bytes. */
  lemma {:induction false} Utf8ReadsBack(s: string)
    ensures |Points(Utf8(s))| == |s| && forall i :: 0 <= i < |s| ==> Points(Utf8(s))[i] == s[i] as int
  {
    hide Utf8, Utf8Char, FirstPoint;
    if s == [] {
      NoBytes();
    } else {
      var rest := Utf8(s[1..]);
      Utf8First(s);
      CharReadsBack(s[0], rest);
      CharHasBytes(s[0]);
      Utf8ReadsBack(s[1..]);
      assert (Utf8Char(s[0]) + rest)[|Utf8Char(s[0])|..] == rest;
      assert Points(Utf8(s)) == [s[0] as int] + Points(rest);
    }
  }

  lemma NoBytes()
    ensures Utf8("") == []
  {
  }

  lemma CharHasBytes(c: char)
    ensures Utf8Char(c) != []
  {
  }

  type NonZero = n: nat | 0 < n < U32_LIMIT witness 1

  function ShardFor(icao24: string, count: NonZero): (s: nat)
    ensures s < count
  {
    (Fnv1a(Utf8(icao24)) as nat) % count
  }

  function VshardFor(icao24: string, v: NonZero): (s: nat)
    ensures s < v
  {
    ShardFor(icao24, v)
  }

  /** Where the reference strings go, whatever the number of shards. */
  lemma KnownShards(count: NonZero)
    ensures ShardFor("", count) == 0xcbf2_9ce4_8422_2325 % count
    ensures ShardFor("a", count) == 0xaf63_dc4c_8601_ec8c % count
    ensures ShardFor("foobar", count) == 0x8594_4171_f739_67e8 % count
    ensures VshardFor("foobar", count) == 0x8594_4171_f739_67e8 % count
  {
    hide Fnv1a, Utf8;
    KnownVectors();
    assert 0xcbf2_9ce4_8422_2325 as bv64 as nat == 0xcbf2_9ce4_8422_2325;
    assert 0xaf63_dc4c_8601_ec8c as bv64 as nat == 0xaf63_dc4c_8601_ec8c;
    assert 0x8594_4171_f739_67e8 as bv64 as nat == 0x8594_4171_f739_67e8;
  }

  // ---- ownership ----

  datatype Ownership =
    | All
    | Modulo(index: nat, count: NonZero)
    | Mapped(group: nat, table: seq<nat>)

  /** The table's length as the 32-bit modulus. */
  function Modulus(table: seq<nat>): nat {
    |table| % U32_LIMIT
  }

  predicate Owns(o: Ownership, icao24: string) {
    match o
    case All => true
    case Modulo(index, count) => ShardFor(icao24, count) == index
    case Mapped(group, table) =>
      var v := Modulus(table);
      v != 0 && var vshard := VshardFor(icao24, v); vshard < |table| && table[vshard] == group
  }

  /** Every aircraft has exactly one owning group, as long as every entry names a group. */
  lemma OneOwner(table: seq<nat>, groups: nat, icao24: string)
    requires 0 < |table| < U32_LIMIT && forall e :: e in table ==> e < groups
    ensures exists g: nat :: g < groups && Owns(Mapped(g, table), icao24)
    ensures forall g: nat, h: nat :: Owns(Mapped(g, table), icao24) && Owns(Mapped(h, table), icao24) ==> g == h
  {
    hide ShardFor;
    assert Modulus(table) == |table|;
    var g := table[VshardFor(icao24, |table|)];
    assert g in table;
    assert Owns(Mapped(g, table), icao24);
  }

  /** Fixed placement: exactly one of the `count` nodes owns an aircraft. */
  lemma OneNode(count: NonZero, icao24: string)
    ensures exists i: nat :: i < count && Owns(Modulo(i, count), icao24)
    ensures forall i: nat, j: nat :: Owns(Modulo(i, count), icao24) && Owns(Modulo(j, count), icao24) ==> i == j
  {
    hide ShardFor;
    assert Owns(Modulo(ShardFor(icao24, count), count), icao24);
  }
}
