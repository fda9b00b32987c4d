/**
 The bytes the codec speaks, stated as a grammar (RFC 8949 sections 3, 3.1 and 3.3) and not as code: a value
 stands in a byte string between two positions. The decoder reads exactly what stands there.
 */
module CborGrammar {
  import opened Wrappers
  import opened Cbor

  // ── The grammar ───────────────────────────────────────────────────────────

  /** How many bytes of argument follow the initial byte. */
  function ArgumentWidth(info: nat): Option<nat> {
    if info < 24 then Some(0)
    else if info == 24 then Some(1)
    else if info == 25 then Some(2)
    else if info == 26 then Some(4)
    else if info == 27 then Some(8)
    else None
  }

  /** An initial byte of this major type and the big-endian argument it announces. */
  predicate HeadStands(s: Bytes, i: nat, next: nat, major: nat, n: nat) {
    && i < next <= |s| && s[i] / 32 == major
    && var info := s[i] % 32;
       && ArgumentWidth(info) == Some(next - i - 1)
       && n == if info < 24 then info else Spelt(s[i + 1..next])
  }

  ghost predicate Stands(s: Bytes, i: nat, next: nat, v: Value)
    decreases v
  {
    match v
    case False => i < |s| && next == i + 1 && s[i] == 0xf4
    case True => i < |s| && next == i + 1 && s[i] == 0xf5
    case Nil => i < |s| && next == i + 1 && s[i] == 0xf6
    case Int(n) => if n >= 0 then HeadStands(s, i, next, 0, n) else HeadStands(s, i, next, 1, -1 - n)
    case Text(utf8) =>
      exists mid: nat :: HeadStands(s, i, mid, 3, |utf8|) && mid + |utf8| == next <= |s| && s[mid..next] == utf8
    case Array(items) => exists mid: nat :: HeadStands(s, i, mid, 4, |items|) && ItemsStand(s, mid, next, items)
    case Map(pairs) => exists mid: nat :: HeadStands(s, i, mid, 5, |pairs|) && PairsStand(s, mid, next, pairs)
  }

  ghost predicate ItemsStand(s: Bytes, i: nat, next: nat, items: seq<Value>)
    decreases items
  {
    if items == [] then i == next <= |s|
    else exists mid: nat :: Stands(s, i, mid, items[0]) && ItemsStand(s, mid, next, items[1..])
  }

  ghost predicate PairsStand(s: Bytes, i: nat, next: nat, pairs: seq<Pair>)
    decreases pairs
  {
    if pairs == [] then i == next <= |s|
    else exists mid: nat :: PairStands(s, i, mid, pairs[0]) && PairsStand(s, mid, next, pairs[1..])
  }

  ghost predicate PairStands(s: Bytes, i: nat, next: nat, p: Pair)
    decreases p
  {
    exists mid: nat :: Stands(s, i, mid, p.key) && Stands(s, mid, next, p.value)
  }

  // ── Heads ─────────────────────────────────────────────────────────────────

  lemma {:induction false} SpeltAppend(a: Bytes, b: Bytes)
    ensures Spelt(a + b) == Spelt(a) * Pow256(|b|) + Spelt(b)
    decreases |b|
  {
    if b == [] {
      assert a + b == a;
    } else {
      var init, last := b[..|b| - 1], b[|b| - 1];
      SpeltAppend(a, init);
      assert (a + b)[..|a + b| - 1] == a + init;
      Regroup(Spelt(a), Pow256(|init|), Spelt(init), 256, last);
    }
  }

  lemma U64Spelt(s: Bytes, i: nat)
    requires i + 8 <= |s|
    ensures U32(s, i) * 0x1_0000_0000 + U32(s, i + 4) == Spelt(s[i..i + 8])
  {
    U32Spelt(s, i);
    U32Spelt(s, i + 4);
    assert s[i..i + 8] == s[i..i + 4] + s[i + 4..i + 8];
    SpeltAppend(s[i..i + 4], s[i + 4..i + 8]);
    assert Pow256(4) == 0x1_0000_0000;
  }

  lemma OneByteSpelt(s: Bytes, i: nat)
    requires i < |s|
    ensures Spelt(s[i..i + 1]) == s[i]
  {
    assert s[i..i + 1][..0] == [];
  }

  /** A head is read exactly where one stands. */
  lemma HeadExact(s: Bytes, i: nat, next: nat, n: nat)
    requires i < |s|
    ensures ReadUint(s, i + 1, s[i] % 32) == Success(Read(n, next)) <==> HeadStands(s, i, next, s[i] / 32, n)
  {
    var info := s[i] % 32;
    if info == 24 && i + 2 <= |s| {
      OneByteSpelt(s, i + 1);
    } else if info == 25 && i + 3 <= |s| {
      U16Spelt(s, i + 1);
    } else if info == 26 && i + 5 <= |s| {
      U32Spelt(s, i + 1);
    } else if info == 27 && i + 9 <= |s| {
      U64Spelt(s, i + 1);
    }
  }

  // ── What is decoded stands there ──────────────────────────────────────────

  lemma {:induction false} DecodedStands(s: Bytes, i: nat)
    requires Decode(s, i).Success?
    ensures var r := Decode(s, i).value;
            Stands(s, i, r.next, r.value)
    decreases |s| - i, 0
  {
    var major, info := s[i] / 32, s[i] % 32;
    if major < 7 {
      var head := ReadUint(s, i + 1, info).value;
      HeadExact(s, i, head.next, head.value);
      assert HeadStands(s, i, head.next, major, head.value);
      if major == 4 {
        DecodedItemsStand(s, head.next, head.value);
      } else if major == 5 {
        DecodedPairsStand(s, head.next, head.value);
      }
    }
  }

  lemma {:induction false} DecodedItemsStand(s: Bytes, next: nat, len: nat)
    requires next <= |s| && DecodeItems(s, next, len).Success?
    ensures var r := DecodeItems(s, next, len).value;
            ItemsStand(s, next, r.next, r.value)
    decreases |s| - next, 1
  {
    if len > 0 {
      var mid := Decode(s, next).value.next;
      DecodedStands(s, next);
      DecodedItemsStand(s, mid, len - 1);
      var r := DecodeItems(s, next, len).value;
      assert r.value[1..] == DecodeItems(s, mid, len - 1).value.value;
    }
  }

  lemma {:induction false} DecodedPairsStand(s: Bytes, next: nat, len: nat)
    requires next <= |s| && DecodePairs(s, next, len).Success?
    ensures var r := DecodePairs(s, next, len).value;
            PairsStand(s, next, r.next, r.value)
    decreases |s| - next, 1
  {
    if len > 0 {
      var key := Decode(s, next).value;
      var value := Decode(s, key.next).value;
      DecodedStands(s, next);
      DecodedStands(s, key.next);
      assert PairStands(s, next, value.next, Pair(key.value, value.value));
      DecodedPairsStand(s, value.next, len - 1);
      var r := DecodePairs(s, next, len).value;
      assert r.value[1..] == DecodePairs(s, value.next, len - 1).value.value;
    }
  }

  // ── What stands there is decoded ──────────────────────────────────────────

  lemma {:induction false} StandingDecodes(s: Bytes, i: nat, next: nat, v: Value)
    requires Stands(s, i, next, v)
    ensures Decode(s, i) == Success(Read(v, next))
    decreases v
  {
    match v
    case Int(n) => HeadExact(s, i, next, if n >= 0 then n else -1 - n);
    case Text(utf8) =>
      var mid: nat :| HeadStands(s, i, mid, 3, |utf8|) && mid + |utf8| == next && s[mid..next] == utf8;
      HeadExact(s, i, mid, |utf8|);
    case Array(items) =>
      var mid: nat :| HeadStands(s, i, mid, 4, |items|) && ItemsStand(s, mid, next, items);
      HeadExact(s, i, mid, |items|);
      StandingItemsDecode(s, mid, next, items);
    case Map(pairs) =>
      var mid: nat :| HeadStands(s, i, mid, 5, |pairs|) && PairsStand(s, mid, next, pairs);
      HeadExact(s, i, mid, |pairs|);
      StandingPairsDecode(s, mid, next, pairs);
    case _ =>
  }

  lemma {:induction false} StandingItemsDecode(s: Bytes, i: nat, next: nat, items: seq<Value>)
    requires i <= |s| && ItemsStand(s, i, next, items)
    ensures DecodeItems(s, i, |items|) == Success(Read(items, next))
    decreases items
  {
    if items != [] {
      var mid: nat :| Stands(s, i, mid, items[0]) && ItemsStand(s, mid, next, items[1..]);
      StandingDecodes(s, i, mid, items[0]);
      StandingItemsDecode(s, mid, next, items[1..]);
      assert items == [items[0]] + items[1..];
    }
  }

  lemma {:induction false} StandingPairsDecode(s: Bytes, i: nat, next: nat, pairs: seq<Pair>)
    requires i <= |s| && PairsStand(s, i, next, pairs)
    ensures DecodePairs(s, i, |pairs|) == Success(Read(pairs, next))
    decreases pairs
  {
    if pairs != [] {
      var mid: nat :| PairStands(s, i, mid, pairs[0]) && PairsStand(s, mid, next, pairs[1..]);
      StandingPairDecodes(s, i, mid, pairs[0]);
      StandingPairsDecode(s, mid, next, pairs[1..]);
      assert pairs == [pairs[0]] + pairs[1..];
    }
  }

  lemma {:induction false} StandingPairDecodes(s: Bytes, i: nat, next: nat, p: Pair)
    requires PairStands(s, i, next, p)
    ensures Decode(s, i).Success? && Decode(s, i).value.value == p.key
    ensures Decode(s, Decode(s, i).value.next) == Success(Read(p.value, next))
    decreases p
  {
    var mid: nat :| Stands(s, i, mid, p.key) && Stands(s, mid, next, p.value);
    StandingDecodes(s, i, mid, p.key);
    StandingDecodes(s, mid, next, p.value);
  }

  /** On any bytes, the decoder gives a value and an end exactly when that value stands there; so it refuses
      exactly the bytes where no value of the subset stands, and at most one value stands at any position. */
  lemma DecodeExact(s: Bytes, i: nat, next: nat, v: Value)
    ensures Decode(s, i) == Success(Read(v, next)) <==> Stands(s, i, next, v)
  {
    if Decode(s, i) == Success(Read(v, next)) {
      DecodedStands(s, i);
    }
    if Stands(s, i, next, v) {
      StandingDecodes(s, i, next, v);
    }
  }

  /** What the encoder writes is the value, its integers modulo 2^64, from the first byte to the last. */
  lemma EncodingStands(v: Value)
    requires Sized(v)
    ensures Stands(Encode(v), 0, |Encode(v)|, Wrap(v))
  {
    var s := Encode(v);
    assert s[0..|s|] == s;
    DecodeOfEncode(s, 0, v);
    DecodedStands(s, 0);
  }

  // ── Examples of RFC 8949, appendix A ──────────────────────────────────────

  lemma StandardNumbers()
    ensures Encode(Int(0)) == [0x00] && Encode(Int(23)) == [0x17] && Encode(Int(24)) == [0x18, 0x18]
    ensures Encode(Int(1000)) == [0x19, 0x03, 0xe8] && Encode(Int(1000000)) == [0x1a, 0x00, 0x0f, 0x42, 0x40]
    ensures Encode(Int(-1)) == [0x20] && Encode(Int(-1000)) == [0x39, 0x03, 0xe7]
  {
    assert BigEndian(1000, 2) == [0x03, 0xe8] && BigEndian(999, 2) == [0x03, 0xe7];
    assert BigEndian(15, 2) == [0x00, 0x0f];
    assert BigEndian(3906, 3) == [0x00, 0x0f] + [0x42];
    assert BigEndian(1000000, 4) == [0x00, 0x0f, 0x42] + [0x40];
  }

  lemma StandardItems()
    ensures Encode(Text([])) == [0x60] && Encode(Text([0x61])) == [0x61, 0x61]
    ensures Encode(Array([])) == [0x80] && Encode(Map([])) == [0xa0]
    ensures Encode(Array([Int(1), Int(2)])) == [0x82, 0x01, 0x02]
    ensures Encode(Map([Pair(Int(1), Int(2))])) == [0xa1, 0x01, 0x02]
  {
    assert Encode(Int(1)) == [0x01] && Encode(Int(2)) == [0x02];
    var items, pairs := [Int(1), Int(2)], [Pair(Int(1), Int(2))];
    assert items[1..] == [Int(2)] && items[1..][1..] == [] && pairs[1..] == [];
    assert EncodeItems(items[1..]) == [0x02] + EncodeItems([]) == [0x02];
    assert EncodeItems(items) == [0x01] + [0x02];
    assert EncodePairs(pairs) == EncodePair(pairs[0]) + EncodePairs([]) == [0x01] + [0x02];
  }
}
