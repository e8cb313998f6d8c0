/**
 Identifiers. The catalog's Go code orders ids by their text form, the database
 by their sixteen bytes; both orders are the same order (section 4 of RFC 9562
 fixes the text form).
 */
module Uuids {
  import opened Ordering

  newtype Byte = x: int | 0 <= x < 256

  type Octets = b: seq<Byte> | |b| == 16 witness seq(16, _ => 0)

  datatype Uuid = Uuid(octets: Octets)

  /** The all-zero id, which requests may not use. */
  const NIL: Uuid := Uuid([0, 0, 0, 0, 0, 0, 0, 0, 0, 0, 0, 0, 0, 0, 0, 0])

  /** The ASCII code of a lower-case hexadecimal digit. */
  function HexDigit(n: int): int
    requires 0 <= n < 16
  {
    if n < 10 then 48 + n else 87 + n
  }

  function HexPair(b: Byte): seq<int> {
    [HexDigit(b as int / 16), HexDigit(b as int % 16)]
  }

  /** The group separators of the 8-4-4-4-12 layout stand before these bytes. */
  function Dash(i: int): seq<int> {
    if i == 4 || i == 6 || i == 8 || i == 10 then [45] else []
  }

  function TextFrom(b: seq<Byte>, i: nat): seq<int>
    requires i <= |b|
    decreases |b| - i
  {
    if i == |b| then [] else Dash(i) + HexPair(b[i]) + TextFrom(b, i + 1)
  }

  /** The ASCII codes of the text form, as `uuid.UUID.String` writes it. */
  function Text(u: Uuid): seq<int> {
    TextFrom(u.octets, 0)
  }

  /** The byte values, as the database compares them. */
  function Bytes(u: Uuid): seq<int> {
    seq(16, i requires 0 <= i < 16 => u.octets[i] as int)
  }

  function BytesFrom(b: seq<Byte>, i: nat): seq<int>
    requires i <= |b|
    decreases |b| - i
  {
    if i == |b| then [] else [b[i] as int] + BytesFrom(b, i + 1)
  }

  lemma {:induction false} BytesFromIsSuffix(u: Uuid, i: nat)
    requires i <= 16
    ensures BytesFrom(u.octets, i) == Bytes(u)[i..]
    decreases 16 - i
  {
    if i < 16 { BytesFromIsSuffix(u, i + 1); }
  }

  lemma HexPairOrder(a: Byte, b: Byte)
    ensures HexPair(a) == HexPair(b) <==> a == b
    ensures LexLess(HexPair(a), HexPair(b)) <==> a < b
  {
    var x, y := HexPair(a), HexPair(b);
    assert a as int == 16 * (a as int / 16) + a as int % 16;
    assert b as int == 16 * (b as int / 16) + b as int % 16;
    assert x[1..] == [x[1]] && y[1..] == [y[1]];
    assert x[1..][1..] == [] && y[1..][1..] == [];
    assert LexLess(x[1..], y[1..]) <==> x[1] < y[1];
  }

  lemma TextStep(u: Octets, i: nat)
    requires i < 16
    ensures TextFrom(u, i) == Dash(i) + (HexPair(u[i]) + TextFrom(u, i + 1))
  {
  }

  lemma EqualByteOrder(i: nat, x: Byte, ta: seq<int>, tb: seq<int>, ba: seq<int>, bb: seq<int>)
    requires LexLess(ta, tb) <==> LexLess(ba, bb)
    ensures LexLess(Dash(i) + (HexPair(x) + ta), Dash(i) + (HexPair(x) + tb))
       <==> LexLess([x as int] + ba, [x as int] + bb)
  {
    LexSamePrefix(Dash(i), HexPair(x) + ta, HexPair(x) + tb);
    LexSamePrefix(HexPair(x), ta, tb);
    LexSamePrefix([x as int], ba, bb);
  }

  lemma DifferentByteOrder(i: nat, x: Byte, y: Byte, ta: seq<int>, tb: seq<int>, ba: seq<int>, bb: seq<int>)
    requires x != y
    ensures LexLess(Dash(i) + (HexPair(x) + ta), Dash(i) + (HexPair(y) + tb))
       <==> LexLess([x as int] + ba, [y as int] + bb)
  {
    HexPairOrder(x, y);
    LexSamePrefix(Dash(i), HexPair(x) + ta, HexPair(y) + tb);
    LexPrefixDecides(HexPair(x), HexPair(y), ta, tb);
    LexPrefixDecides([x as int], [y as int], ba, bb);
  }

  lemma {:induction false} SuffixOrder(a: Octets, b: Octets, i: nat)
    requires i <= 16
    ensures LexLess(TextFrom(a, i), TextFrom(b, i)) <==> LexLess(BytesFrom(a, i), BytesFrom(b, i))
    decreases 16 - i
  {
    if i < 16 {
      var ta, tb, ba, bb := TextFrom(a, i + 1), TextFrom(b, i + 1), BytesFrom(a, i + 1), BytesFrom(b, i + 1);
      SuffixOrder(a, b, i + 1);
      TextStep(a, i);
      TextStep(b, i);
      if a[i] == b[i] {
        EqualByteOrder(i, a[i], ta, tb, ba, bb);
      } else {
        DifferentByteOrder(i, a[i], b[i], ta, tb, ba, bb);
      }
    }
  }

  /** Text order is byte order, so Go's sorts and the database's agree. */
  lemma TextOrderIsByteOrder(a: Uuid, b: Uuid)
    ensures LexLess(Text(a), Text(b)) <==> LexLess(Bytes(a), Bytes(b))
  {
    SuffixOrder(a.octets, b.octets, 0);
    BytesFromIsSuffix(a, 0);
    BytesFromIsSuffix(b, 0);
    assert Bytes(a)[0..] == Bytes(a) && Bytes(b)[0..] == Bytes(b);
  }

  /** Different ids have different texts. */
  lemma TextInjective(a: Uuid, b: Uuid)
    ensures Text(a) == Text(b) <==> a == b
  {
    if a != b {
      LexTotal(Bytes(a), Bytes(b));
      var i :| 0 <= i < 16 && a.octets[i] != b.octets[i];
      assert Bytes(a)[i] != Bytes(b)[i];
      TextOrderIsByteOrder(a, b);
      TextOrderIsByteOrder(b, a);
      LexIrreflexive(Text(a));
    }
  }

  /** The order every id sort of the catalog uses. */
  predicate Before(a: Uuid, b: Uuid) {
    LexLess(Text(a), Text(b))
  }

  /** The text form has 36 characters: 32 digits and four separators. */
  lemma TextLength(u: Uuid)
    ensures |Text(u)| == 36
  {
    TextLengthFrom(u.octets, 0);
  }

  lemma {:induction false} TextLengthFrom(u: Octets, i: nat)
    requires i <= 16
    ensures |TextFrom(u, i)|
      == 2 * (16 - i) + (if i <= 4 then 4 else if i <= 6 then 3 else if i <= 8 then 2 else if i <= 10 then 1 else 0)
    decreases 16 - i
  {
    if i < 16 { TextLengthFrom(u, i + 1); }
  }
}
