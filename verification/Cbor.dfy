/**
 The CBOR subset of `emacs/ma-ipc.el`: integers, text, arrays, maps and three simple values of
 RFC 8949 (sections 3 and 3.1). Text is its UTF-8 bytes; a byte is an integer below 256.
 */
module Cbor {
  import opened Wrappers

  type byte = b: int | 0 <= b < 256

  type Bytes = seq<byte>

  datatype Value =
    | Nil
    | True
    | False
    | Int(n: int)
    | Text(utf8: Bytes)
    | Array(items: seq<Value>)
    | Map(pairs: seq<Pair>)

  datatype Pair = Pair(key: Value, value: Value)

  const TWO_64 := 0x1_0000_0000_0000_0000

  // ── Heads ─────────────────────────────────────────────────────────────────

  /** The low `width` bytes of `n`, most significant first: `(logand (ash n -k) 255)` for k = 8 (width - 1), .., 8, 0. */
  function BigEndian(n: nat, width: nat): (r: Bytes)
    ensures |r| == width
    decreases width, n
  {
    if width == 0 then [] else BigEndian(n / 256, width - 1) + [n % 256]
  }

  function EncodeUint(major: nat, n: nat): Bytes
    requires major < 8
  {
    if n < 24 then [major * 32 + n]
    else if n < 0x100 then [major * 32 + 24, n]
    else if n < 0x1_0000 then [major * 32 + 25] + BigEndian(n, 2)
    else if n < 0x1_0000_0000 then [major * 32 + 26] + BigEndian(n, 4)
    else [major * 32 + 27] + BigEndian(n, 8)
  }

  function U16(s: Bytes, i: nat): nat
    requires i + 2 <= |s|
  {
    s[i] as int * 0x100 + s[i + 1]
  }

  function U32(s: Bytes, i: nat): (r: nat)
    requires i + 4 <= |s|
    ensures r < 0x1_0000_0000
  {
    s[i] as int * 0x100_0000 + s[i + 1] as int * 0x1_0000 + s[i + 2] as int * 0x100 + s[i + 3]
  }

  datatype Read<+T> = Read(value: T, next: nat)

  /** `aref` past the end raises, and so does additional information above 27. */
  function ReadUint(s: Bytes, i: nat, ai: nat): (r: Result<Read<nat>>)
    requires i <= |s|
    ensures r.Success? ==> i <= r.value.next <= |s| && r.value.value < TWO_64
  {
    if ai < 24 then Success(Read(ai, i))
    else if ai == 24 && i + 1 <= |s| then Success(Read(s[i], i + 1))
    else if ai == 25 && i + 2 <= |s| then Success(Read(U16(s, i), i + 2))
    else if ai == 26 && i + 4 <= |s| then Success(Read(U32(s, i), i + 4))
    else if ai == 27 && i + 8 <= |s| then Success(Read(U32(s, i) * 0x1_0000_0000 + U32(s, i + 4), i + 8))
    else Failure("unreadable head")
  }

  // ── Encoder ───────────────────────────────────────────────────────────────

  function Encode(v: Value): (r: Bytes)
    ensures r != []
    decreases v
  {
    match v
    case Nil => [0xf6]
    case True => [0xf5]
    case False => [0xf4]
    case Int(n) => if n >= 0 then EncodeUint(0, n) else EncodeUint(1, -1 - n)
    case Text(utf8) => EncodeUint(3, |utf8|) + utf8
    case Array(items) => EncodeUint(4, |items|) + EncodeItems(items)
    case Map(pairs) => EncodeUint(5, |pairs|) + EncodePairs(pairs)
  }

  function EncodeItems(items: seq<Value>): Bytes
    decreases items
  {
    if items == [] then [] else Encode(items[0]) + EncodeItems(items[1..])
  }

  function EncodePairs(pairs: seq<Pair>): Bytes
    decreases pairs
  {
    if pairs == [] then []
    else EncodePair(pairs[0]) + EncodePairs(pairs[1..])
  }

  function EncodePair(p: Pair): Bytes
    decreases p
  {
    Encode(p.key) + Encode(p.value)
  }

  // ── Decoder ───────────────────────────────────────────────────────────────

  /** What decoding promises: a raise, or an end past the start and within the input. */
  predicate Advances<T>(s: Bytes, start: nat, r: Result<Read<T>>) {
    r.Success? ==> start < r.value.next <= |s|
  }

  /** As `Advances`, for loops that may run zero times. */
  predicate Progresses<T>(s: Bytes, start: nat, r: Result<Read<T>>) {
    r.Success? ==> start <= r.value.next <= |s|
  }

  function Decode(s: Bytes, start: nat): (r: Result<Read<Value>>)
    ensures Advances(s, start, r)
    decreases if start <= |s| then |s| - start else 0, 0
  {
    if start >= |s| then Failure("args out of range")
    else DecodeBody(s, start + 1, s[start] / 32, s[start] % 32)
  }

  /** The value whose head byte, just before `i`, split into `major` and `ai`. */
  function DecodeBody(s: Bytes, i: nat, major: nat, ai: nat): (r: Result<Read<Value>>)
    requires i <= |s|
    ensures Progresses(s, i, r)
    decreases |s| - i, 2
  {
    if major == 7 && ai == 20 then Success(Read(False, i))
    else if major == 7 && ai == 21 then Success(Read(True, i))
    else if major == 7 && ai == 22 then Success(Read(Nil, i))
    else if major == 2 || major > 5 then Failure("unsupported")
    else
      var head :- ReadUint(s, i, ai);
      if major == 0 then Success(Read(Int(head.value), head.next))
      else if major == 1 then Success(Read(Int(-1 - head.value), head.next))
      else if major == 3 then
        if head.next + head.value > |s| then Failure("args out of range")
        else Success(Read(Text(s[head.next..head.next + head.value]), head.next + head.value))
      else if major == 4 then
        var items :- DecodeItems(s, head.next, head.value);
        Success(Read(Array(items.value), items.next))
      else
        var pairs :- DecodePairs(s, head.next, head.value);
        Success(Read(Map(pairs.value), pairs.next))
  }

  /** `len` items; the announced length may be far larger than the input, which runs out first. */
  function DecodeItems(s: Bytes, next: nat, len: nat): (r: Result<Read<seq<Value>>>)
    requires next <= |s|
    ensures Progresses(s, next, r)
    ensures r.Success? ==> |r.value.value| == len
    decreases |s| - next, 1
  {
    if len == 0 then Success(Read([], next))
    else
      var item :- Decode(s, next);
      var rest :- DecodeItems(s, item.next, len - 1);
      Success(Read([item.value] + rest.value, rest.next))
  }

  function DecodePairs(s: Bytes, next: nat, len: nat): (r: Result<Read<seq<Pair>>>)
    requires next <= |s|
    ensures Progresses(s, next, r)
    ensures r.Success? ==> |r.value.value| == len
    decreases |s| - next, 1
  {
    if len == 0 then Success(Read([], next))
    else
      var key :- Decode(s, next);
      var value :- Decode(s, key.next);
      var rest :- DecodePairs(s, value.next, len - 1);
      Success(Read([Pair(key.value, value.value)] + rest.value, rest.next))
  }

  /** The decoder as the source runs it: one pass, array and map loops pushing in place. */
  method DecodeAt(s: Bytes, start: nat) returns (r: Result<Read<Value>>)
    ensures r == Decode(s, start)
    decreases if start <= |s| then |s| - start else 0, 0
  {
    if start >= |s| {
      return Failure("args out of range");
    }
    var major, ai := s[start] / 32, s[start] % 32;
    if major == 7 {
      match ai {
        case 20 => return Success(Read(False, start + 1));
        case 21 => return Success(Read(True, start + 1));
        case 22 => return Success(Read(Nil, start + 1));
        case _ => return Failure("unsupported");
      }
    }
    if major == 2 || major == 6 {
      return Failure("unsupported");
    }
    var head :- ReadUint(s, start + 1, ai);
    if major == 0 {
      return Success(Read(Int(head.value), head.next));
    }
    if major == 1 {
      return Success(Read(Int(-1 - head.value as int), head.next));
    }
    if major == 3 {
      if head.next + head.value > |s| {
        return Failure("args out of range");
      }
      return Success(Read(Text(s[head.next..head.next + head.value]), head.next + head.value));
    }
    if major == 4 {
      var items :- ReadItems(s, head.next, head.value);
      return Success(Read(Array(items.value), items.next));
    }
    var pairs :- ReadPairs(s, head.next, head.value);
    return Success(Read(Map(pairs.value), pairs.next));
  }

  method ReadItems(s: Bytes, start: nat, len: nat) returns (r: Result<Read<seq<Value>>>)
    requires start <= |s|
    ensures r == DecodeItems(s, start, len)
    decreases |s| - start, 1
  {
    var next, left := start, len;
    var items: seq<Value> := [];
    PrependNothing(DecodeItems(s, next, left));
    while left > 0
      invariant start <= next <= |s|
      invariant DecodeItems(s, start, len) == Prepend(items, DecodeItems(s, next, left))
      decreases |s| - next
    {
      ghost var before := items;
      var item :- DecodeAt(s, next);
      items := items + [item.value];
      next := item.next;
      left := left - 1;
      PrependStep(before, item.value, DecodeItems(s, next, left));
    }
    assert items + [] == items;
    return Success(Read(items, next));
  }

  method ReadPairs(s: Bytes, start: nat, len: nat) returns (r: Result<Read<seq<Pair>>>)
    requires start <= |s|
    ensures r == DecodePairs(s, start, len)
    decreases |s| - start, 1
  {
    var next, left := start, len;
    var pairs: seq<Pair> := [];
    PrependNothing(DecodePairs(s, next, left));
    while left > 0
      invariant start <= next <= |s|
      invariant DecodePairs(s, start, len) == Prepend(pairs, DecodePairs(s, next, left))
      decreases |s| - next
    {
      ghost var before := pairs;
      var key :- DecodeAt(s, next);
      var value :- DecodeAt(s, key.next);
      pairs := pairs + [Pair(key.value, value.value)];
      next := value.next;
      left := left - 1;
      PrependStep(before, Pair(key.value, value.value), DecodePairs(s, next, left));
    }
    assert pairs + [] == pairs;
    return Success(Read(pairs, next));
  }

  ghost function Prepend<T>(done: seq<T>, rest: Result<Read<seq<T>>>): Result<Read<seq<T>>> {
    match rest
    case Success(r) => Success(Read(done + r.value, r.next))
    case Failure(e) => Failure(e)
  }

  lemma PrependNothing<T>(rest: Result<Read<seq<T>>>)
    ensures Prepend([], rest) == rest
  {
    if rest.Success? {
      assert [] + rest.value.value == rest.value.value;
    }
  }

  lemma PrependStep<T>(done: seq<T>, x: T, rest: Result<Read<seq<T>>>)
    ensures Prepend(done, Prepend([x], rest)) == Prepend(done + [x], rest)
  {
    if rest.Success? {
      assert done + ([x] + rest.value.value) == (done + [x]) + rest.value.value;
    }
  }

  // ── Round trip ────────────────────────────────────────────────────────────

  /** `part` stands in `s` at `i`. */
  predicate At(s: Bytes, i: nat, part: Bytes) {
    i + |part| <= |s| && s[i..i + |part|] == part
  }

  lemma AtSplit(s: Bytes, i: nat, a: Bytes, b: Bytes)
    requires At(s, i, a + b)
    ensures At(s, i, a) && At(s, i + |a|, b)
  {
    assert s[i..i + |a|] == s[i..i + |a + b|][..|a|];
    assert s[i + |a|..i + |a| + |b|] == s[i..i + |a + b|][|a|..];
  }

  /** Lengths fit the 64-bit head; the integers may be any. */
  predicate Sized(v: Value)
    decreases v
  {
    match v
    case Text(utf8) => |utf8| < TWO_64
    case Array(items) => |items| < TWO_64 && SizedItems(items)
    case Map(pairs) => |pairs| < TWO_64 && SizedPairs(pairs)
    case _ => true
  }

  predicate SizedItems(items: seq<Value>)
    decreases items
  {
    items != [] ==> Sized(items[0]) && SizedItems(items[1..])
  }

  predicate SizedPairs(pairs: seq<Pair>)
    decreases pairs
  {
    pairs != [] ==> SizedPair(pairs[0]) && SizedPairs(pairs[1..])
  }

  predicate SizedPair(p: Pair)
    decreases p
  {
    Sized(p.key) && Sized(p.value)
  }

  /** Every integer's argument taken modulo 2^64, which is all a head can carry. */
  function Wrap(v: Value): Value
    decreases v
  {
    match v
    case Int(n) => if n >= 0 then Int(n % TWO_64) else Int(-1 - (-1 - n) % TWO_64)
    case Array(items) => Array(WrapItems(items))
    case Map(pairs) => Map(WrapPairs(pairs))
    case _ => v
  }

  function WrapItems(items: seq<Value>): (r: seq<Value>)
    ensures |r| == |items|
    decreases items
  {
    if items == [] then [] else [Wrap(items[0])] + WrapItems(items[1..])
  }

  function WrapPairs(pairs: seq<Pair>): (r: seq<Pair>)
    ensures |r| == |pairs|
    decreases pairs
  {
    if pairs == [] then [] else [WrapPair(pairs[0])] + WrapPairs(pairs[1..])
  }

  function WrapPair(p: Pair): Pair
    decreases p
  {
    Pair(Wrap(p.key), Wrap(p.value))
  }

  lemma SmallMultiple(d: int, m: int)
    requires -m < d * m < m
    ensures d == 0
  {
  }

  lemma QuotientUnique(x: nat, m: nat, q: nat, r: nat)
    requires x == q * m + r && r < m
    ensures x / m == q && x % m == r
  {
    assert (x / m - q) * m == r - x % m;
    SmallMultiple(x / m - q, m);
  }

  lemma Regroup(a: int, k: int, b: int, w: int, r: int)
    ensures (a * k + b) * w + r == a * (k * w) + (b * w + r)
  {
    assert (a * k + b) * w == a * k * w + b * w;
    assert a * k * w == a * (k * w);
  }

  lemma DigitBound(b: nat, k: nat, w: nat, r: nat)
    requires b < k && r < w
    ensures 0 <= b * w + r < k * w
  {
    var d := k - b - 1;
    assert (b + 1 + d) * w == b * w + w + d * w;
  }

  lemma Digits(n: nat, w: nat, k: nat, q: nat, r: nat, a: nat, b: nat)
    requires n == q * w + r && r < w
    requires q == a * k + b && b < k
    ensures k * w > 0 && n / (k * w) == a && n % (k * w) == b * w + r
  {
    Regroup(a, k, b, w, r);
    DigitBound(b, k, w, r);
    QuotientUnique(n, k * w, a, b * w + r);
  }

  /** Reading `n` modulo `k * w` as a digit of weight `w` and a remainder. */
  lemma SplitDigit(n: nat, w: nat, k: nat)
    requires w > 0 && k > 0
    ensures k * w > 0 && n % (k * w) == n / w % k * w + n % w
    ensures n / w / k == n / (k * w)
  {
    Digits(n, w, k, n / w, n % w, n / w / k, n / w % k);
  }

  /** `n` without its `k` low bytes. */
  function HighPart(n: nat, k: nat): nat
    decreases k, n
  {
    if k == 0 then n else HighPart(n / 256, k - 1)
  }

  /** The bytes of `n` are those of its high part followed by those of its low part. */
  lemma {:induction false} BigEndianSplit(n: nat, high: nat, low: nat)
    ensures BigEndian(n, high + low) == BigEndian(HighPart(n, low), high) + BigEndian(n, low)
    decreases low
  {
    if low > 0 {
      BigEndianSplit(n / 256, high, low - 1);
    } else {
      assert BigEndian(n, high) + [] == BigEndian(n, high);
    }
  }

  lemma HighPartOfFour(n: nat)
    ensures HighPart(n, 4) == n / 0x1_0000_0000
  {
    SplitDigit(n, 0x100, 0x100);
    SplitDigit(n, 0x1_0000, 0x100);
    SplitDigit(n, 0x100_0000, 0x100);
    assert HighPart(n, 4) == HighPart(n / 256, 3) == HighPart(n / 256 / 256, 2) == HighPart(n / 256 / 256 / 256, 1)
        == HighPart(n / 256 / 256 / 256 / 256, 0);
  }

  function Pow256(k: nat): (r: nat)
    ensures r > 0
  {
    if k == 0 then 1 else 256 * Pow256(k - 1)
  }

  /** The number a run of bytes spells. */
  function Spelt(b: Bytes): nat {
    if b == [] then 0 else Spelt(b[..|b| - 1]) * 256 + b[|b| - 1]
  }

  lemma {:induction false} SpeltBigEndian(n: nat, width: nat)
    ensures Spelt(BigEndian(n, width)) == n % Pow256(width)
    decreases width
  {
    if width > 0 {
      SpeltBigEndian(n / 256, width - 1);
      SplitDigit(n, 256, Pow256(width - 1));
      var b := BigEndian(n, width);
      assert b[..|b| - 1] == BigEndian(n / 256, width - 1);
    }
  }

  lemma U16Spelt(s: Bytes, i: nat)
    requires i + 2 <= |s|
    ensures U16(s, i) == Spelt(s[i..i + 2])
  {
    var b := s[i..i + 2];
    assert b[..1][..0] == [] && b[..1] == [s[i]];
    assert Spelt(b[..1]) == s[i];
  }

  lemma U32Spelt(s: Bytes, i: nat)
    requires i + 4 <= |s|
    ensures U32(s, i) == Spelt(s[i..i + 4])
  {
    var b := s[i..i + 4];
    U16Spelt(s, i);
    assert b[..3][..2] == s[i..i + 2] && b[..3][2] == s[i + 2] && b[3] == s[i + 3];
    assert Spelt(b[..3]) == Spelt(s[i..i + 2]) * 256 + s[i + 2];
    assert Spelt(b) == Spelt(b[..3]) * 256 + s[i + 3];
  }

  lemma PartAt(s: Bytes, i: nat, part: Bytes, k: nat)
    requires At(s, i, part) && k < |part|
    ensures s[i + k] == part[k]
  {
    assert s[i + k] == s[i..i + |part|][k];
  }

  lemma ReadU32(s: Bytes, i: nat, n: nat)
    requires At(s, i, BigEndian(n, 4))
    ensures U32(s, i) == n % 0x1_0000_0000
  {
    U32Spelt(s, i);
    SpeltBigEndian(n, 4);
    assert Pow256(4) == 0x1_0000_0000;
  }

  lemma LongHead(s: Bytes, i: nat, major: nat, n: nat)
    requires major < 8 && n >= 0x1_0000_0000 && At(s, i, EncodeUint(major, n))
    ensures s[i] == major * 32 + 27
    ensures ReadUint(s, i + 1, 27) == Success(Read(n % TWO_64, i + 9))
  {
    var hi := n / 0x1_0000_0000;
    HighPartOfFour(n);
    BigEndianSplit(n, 4, 4);
    PartAt(s, i, EncodeUint(major, n), 0);
    AtSplit(s, i, [major * 32 + 27], BigEndian(n, 8));
    AtSplit(s, i + 1, BigEndian(hi, 4), BigEndian(n, 4));
    ReadU32(s, i + 1, hi);
    ReadU32(s, i + 5, n);
    SplitDigit(n, 0x1_0000_0000, 0x1_0000_0000);
  }

  lemma MiddleHead(s: Bytes, i: nat, major: nat, n: nat)
    requires major < 8 && 0x1_0000 <= n < 0x1_0000_0000 && At(s, i, EncodeUint(major, n))
    ensures s[i] == major * 32 + 26
    ensures ReadUint(s, i + 1, 26) == Success(Read(n, i + 5))
  {
    PartAt(s, i, EncodeUint(major, n), 0);
    AtSplit(s, i, [major * 32 + 26], BigEndian(n, 4));
    ReadU32(s, i + 1, n);
  }

  lemma ShortHead(s: Bytes, i: nat, major: nat, n: nat)
    requires major < 8 && n < 0x1_0000 && At(s, i, EncodeUint(major, n))
    ensures var ai := if n < 24 then n else if n < 0x100 then 24 else 25;
            && s[i] == major * 32 + ai
            && ReadUint(s, i + 1, ai) == Success(Read(n, i + |EncodeUint(major, n)|))
  {
    PartAt(s, i, EncodeUint(major, n), 0);
    if 0x100 <= n {
      AtSplit(s, i, [major * 32 + 25], BigEndian(n, 2));
      U16Spelt(s, i + 1);
      SpeltBigEndian(n, 2);
      assert Pow256(2) == 0x1_0000;
    } else if 24 <= n {
      PartAt(s, i, EncodeUint(major, n), 1);
    }
  }

  lemma HeadRoundTrip(s: Bytes, i: nat, major: nat, n: nat)
    requires major < 8 && At(s, i, EncodeUint(major, n))
    ensures s[i] / 32 == major
    ensures ReadUint(s, i + 1, s[i] % 32) == Success(Read(n % TWO_64, i + |EncodeUint(major, n)|))
  {
    if n < 0x1_0000 {
      ShortHead(s, i, major, n);
    } else if n < 0x1_0000_0000 {
      MiddleHead(s, i, major, n);
    } else {
      LongHead(s, i, major, n);
    }
  }

  /** Decoding an encoded value inside any bytes gives the value back, integers modulo 2^64,
      and the offset just after it. */
  lemma {:induction false} DecodeOfEncode(s: Bytes, i: nat, v: Value)
    requires Sized(v) && At(s, i, Encode(v))
    ensures Decode(s, i) == Success(Read(Wrap(v), i + |Encode(v)|))
    decreases v
  {
    match v
    case Array(items) =>
      var next := ArrayHead(s, i, items);
      DecodeOfEncodeItems(s, next, items);
      DecodeArray(s, i, next, |items|);
    case Map(pairs) =>
      var next := MapHead(s, i, pairs);
      DecodeOfEncodePairs(s, next, pairs);
      DecodeMap(s, i, next, |pairs|);
    case _ => DecodeLeaf(s, i, v);
  }

  lemma DecodeLeaf(s: Bytes, i: nat, v: Value)
    requires !v.Array? && !v.Map? && Sized(v) && At(s, i, Encode(v))
    ensures Decode(s, i) == Success(Read(Wrap(v), i + |Encode(v)|))
  {
    match v
    case Int(n) => DecodeInt(s, i, n);
    case Text(utf8) => DecodeText(s, i, utf8);
    case Nil => PartAt(s, i, [0xf6], 0);
    case True => PartAt(s, i, [0xf5], 0);
    case False => PartAt(s, i, [0xf4], 0);
  }

  predicate HeadAt(s: Bytes, i: nat, major: nat, n: nat, next: nat) {
    && i < |s| && i < next <= |s|
    && s[i] / 32 == major
    && ReadUint(s, i + 1, s[i] % 32) == Success(Read(n, next))
  }

  lemma CountedHead(s: Bytes, i: nat, major: nat, n: nat, rest: Bytes) returns (next: nat)
    requires major < 8 && n < TWO_64 && At(s, i, EncodeUint(major, n) + rest)
    ensures HeadAt(s, i, major, n, next) && At(s, next, rest)
    ensures next == i + |EncodeUint(major, n)|
  {
    AtSplit(s, i, EncodeUint(major, n), rest);
    HeadRoundTrip(s, i, major, n);
    next := i + |EncodeUint(major, n)|;
  }

  lemma ArrayHead(s: Bytes, i: nat, items: seq<Value>) returns (next: nat)
    requires |items| < TWO_64 && At(s, i, Encode(Array(items)))
    ensures HeadAt(s, i, 4, |items|, next) && At(s, next, EncodeItems(items))
    ensures next + |EncodeItems(items)| == i + |Encode(Array(items))|
  {
    next := CountedHead(s, i, 4, |items|, EncodeItems(items));
  }

  lemma MapHead(s: Bytes, i: nat, pairs: seq<Pair>) returns (next: nat)
    requires |pairs| < TWO_64 && At(s, i, Encode(Map(pairs)))
    ensures HeadAt(s, i, 5, |pairs|, next) && At(s, next, EncodePairs(pairs))
    ensures next + |EncodePairs(pairs)| == i + |Encode(Map(pairs))|
  {
    next := CountedHead(s, i, 5, |pairs|, EncodePairs(pairs));
  }

  lemma DecodeInt(s: Bytes, i: nat, n: int)
    requires At(s, i, Encode(Int(n)))
    ensures Decode(s, i) == Success(Read(Wrap(Int(n)), i + |Encode(Int(n))|))
  {
    if n >= 0 {
      HeadRoundTrip(s, i, 0, n);
    } else {
      HeadRoundTrip(s, i, 1, -1 - n);
    }
  }

  lemma DecodeText(s: Bytes, i: nat, utf8: Bytes)
    requires |utf8| < TWO_64 && At(s, i, Encode(Text(utf8)))
    ensures Decode(s, i) == Success(Read(Text(utf8), i + |Encode(Text(utf8))|))
  {
    AtSplit(s, i, EncodeUint(3, |utf8|), utf8);
    HeadRoundTrip(s, i, 3, |utf8|);
  }

  lemma DecodeArray(s: Bytes, i: nat, next: nat, len: nat)
    requires HeadAt(s, i, 4, len, next) && DecodeItems(s, next, len).Success?
    ensures var r := DecodeItems(s, next, len).value;
            Decode(s, i) == Success(Read(Array(r.value), r.next))
  {
  }

  lemma DecodeMap(s: Bytes, i: nat, next: nat, len: nat)
    requires HeadAt(s, i, 5, len, next) && DecodePairs(s, next, len).Success?
    ensures var r := DecodePairs(s, next, len).value;
            Decode(s, i) == Success(Read(Map(r.value), r.next))
  {
  }

  lemma {:induction false} DecodeOfEncodeItems(s: Bytes, i: nat, items: seq<Value>)
    requires SizedItems(items) && At(s, i, EncodeItems(items))
    ensures DecodeItems(s, i, |items|) == Success(Read(WrapItems(items), i + |EncodeItems(items)|))
    decreases items
  {
    hide Decode, DecodeBody, Encode, At;
    if items != [] {
      var mid := FirstItem(s, i, items);
      DecodeOfEncode(s, i, items[0]);
      DecodeOfEncodeItems(s, mid, items[1..]);
      ItemsStep(s, i, items, mid);
    }
  }

  lemma FirstItem(s: Bytes, i: nat, items: seq<Value>) returns (mid: nat)
    requires items != [] && At(s, i, EncodeItems(items))
    ensures mid == i + |Encode(items[0])| && At(s, i, Encode(items[0])) && At(s, mid, EncodeItems(items[1..]))
    ensures mid + |EncodeItems(items[1..])| == i + |EncodeItems(items)|
  {
    AtSplit(s, i, Encode(items[0]), EncodeItems(items[1..]));
    mid := i + |Encode(items[0])|;
  }

  lemma ItemsStep(s: Bytes, i: nat, items: seq<Value>, mid: nat)
    requires i <= |s| && items != []
    requires Decode(s, i) == Success(Read(Wrap(items[0]), mid))
    requires var rest := DecodeItems(s, mid, |items| - 1);
             rest.Success? && rest.value.value == WrapItems(items[1..])
    ensures DecodeItems(s, i, |items|) ==
            Success(Read(WrapItems(items), DecodeItems(s, mid, |items| - 1).value.next))
  {
  }

  lemma {:induction false} DecodeOfEncodePairs(s: Bytes, i: nat, pairs: seq<Pair>)
    requires SizedPairs(pairs) && At(s, i, EncodePairs(pairs))
    ensures DecodePairs(s, i, |pairs|) == Success(Read(WrapPairs(pairs), i + |EncodePairs(pairs)|))
    decreases pairs
  {
    hide Decode, DecodeBody, Encode, EncodePair, At;
    if pairs != [] {
      var mid, end := FirstPair(s, i, pairs);
      DecodeOfEncodePair(s, i, mid, pairs[0]);
      DecodeOfEncodePairs(s, end, pairs[1..]);
      PairsStep(s, i, pairs, mid, end);
    }
  }

  lemma PairsStep(s: Bytes, i: nat, pairs: seq<Pair>, mid: nat, end: nat)
    requires i <= |s| && pairs != []
    requires Decode(s, i) == Success(Read(Wrap(pairs[0].key), mid))
    requires Decode(s, mid) == Success(Read(Wrap(pairs[0].value), end))
    requires var rest := DecodePairs(s, end, |pairs| - 1);
             rest.Success? && rest.value.value == WrapPairs(pairs[1..])
    ensures DecodePairs(s, i, |pairs|) ==
            Success(Read(WrapPairs(pairs), DecodePairs(s, end, |pairs| - 1).value.next))
  {
  }

  lemma FirstPair(s: Bytes, i: nat, pairs: seq<Pair>) returns (mid: nat, end: nat)
    requires pairs != [] && At(s, i, EncodePairs(pairs))
    ensures mid == i + |Encode(pairs[0].key)| && At(s, i, Encode(pairs[0].key))
    ensures end == mid + |Encode(pairs[0].value)| && At(s, mid, Encode(pairs[0].value))
    ensures At(s, end, EncodePairs(pairs[1..]))
    ensures end + |EncodePairs(pairs[1..])| == i + |EncodePairs(pairs)|
  {
    AtSplit(s, i, EncodePair(pairs[0]), EncodePairs(pairs[1..]));
    AtSplit(s, i, Encode(pairs[0].key), Encode(pairs[0].value));
    mid := i + |Encode(pairs[0].key)|;
    end := mid + |Encode(pairs[0].value)|;
  }

  lemma {:induction false} DecodeOfEncodePair(s: Bytes, i: nat, mid: nat, p: Pair)
    requires SizedPair(p) && mid == i + |Encode(p.key)|
    requires At(s, i, Encode(p.key)) && At(s, mid, Encode(p.value))
    ensures Decode(s, i) == Success(Read(Wrap(p.key), mid))
    ensures Decode(s, mid) == Success(Read(Wrap(p.value), mid + |Encode(p.value)|))
    decreases p
  {
    DecodeOfEncode(s, i, p.key);
    DecodeOfEncode(s, mid, p.value);
  }

  /** Every integer has a 64-bit argument. */
  predicate InRange(v: Value)
    decreases v
  {
    match v
    case Int(n) => -TWO_64 <= n < TWO_64
    case Array(items) => forall item | item in items :: InRange(item)
    case Map(pairs) => forall p | p in pairs :: InRange(p.key) && InRange(p.value)
    case _ => true
  }

  lemma {:induction false} WrapIsIdentityInRange(v: Value)
    ensures Wrap(v) == v <==> InRange(v)
    decreases v
  {
    match v
    case Array(items) => WrapItemsIdentity(items);
    case Map(pairs) => WrapPairsIdentity(pairs);
    case _ =>
  }

  lemma {:induction false} WrapItemsIdentity(items: seq<Value>)
    ensures WrapItems(items) == items <==> forall item | item in items :: InRange(item)
    decreases items
  {
    if items != [] {
      WrapIsIdentityInRange(items[0]);
      WrapItemsIdentity(items[1..]);
      assert items == [items[0]] + items[1..];
      assert WrapItems(items)[0] == Wrap(items[0]) && WrapItems(items)[1..] == WrapItems(items[1..]);
      assert forall item :: item in items <==> item == items[0] || item in items[1..];
    }
  }

  lemma {:induction false} WrapPairsIdentity(pairs: seq<Pair>)
    ensures WrapPairs(pairs) == pairs <==> forall p | p in pairs :: InRange(p.key) && InRange(p.value)
    decreases pairs
  {
    if pairs != [] {
      WrapPairIdentity(pairs[0]);
      WrapPairsIdentity(pairs[1..]);
      assert pairs == [pairs[0]] + pairs[1..];
      assert WrapPairs(pairs)[0] == WrapPair(pairs[0]);
      assert WrapPairs(pairs)[1..] == WrapPairs(pairs[1..]);
      assert forall p :: p in pairs <==> p == pairs[0] || p in pairs[1..];
    }
  }

  lemma {:induction false} WrapPairIdentity(p: Pair)
    ensures WrapPair(p) == p <==> InRange(p.key) && InRange(p.value)
    decreases p
  {
    WrapIsIdentityInRange(p.key);
    WrapIsIdentityInRange(p.value);
  }

  /** The round trip in context is exact for exactly the values whose integers fit. */
  lemma RoundTripInContext(p: Bytes, v: Value, s: Bytes)
    requires Sized(v)
    ensures Decode(p + Encode(v) + s, |p|).Success?
    ensures Decode(p + Encode(v) + s, |p|).value.next == |p| + |Encode(v)|
    ensures Decode(p + Encode(v) + s, |p|).value.value == v <==> InRange(v)
  {
    var all := p + Encode(v) + s;
    assert all[|p|..|p| + |Encode(v)|] == Encode(v);
    DecodeOfEncode(all, |p|, v);
    WrapIsIdentityInRange(v);
  }

  /** No encoding is a proper prefix of another, so encodings can be concatenated and read back; two values
      share an encoding only if their integers agree modulo 2^64. */
  lemma EncodingsArePrefixFree(v: Value, u: Value)
    requires Sized(v) && Sized(u) && Encode(v) <= Encode(u)
    ensures Encode(v) == Encode(u) && Wrap(v) == Wrap(u)
    ensures InRange(v) && InRange(u) ==> v == u
  {
    var s := Encode(u);
    assert s[0..|s|] == s && s[0..|Encode(v)|] == Encode(v);
    DecodeOfEncode(s, 0, v);
    DecodeOfEncode(s, 0, u);
    WrapIsIdentityInRange(v);
    WrapIsIdentityInRange(u);
  }

  // ── Shortest form ─────────────────────────────────────────────────────────

  lemma HeadIsShortest(s: Bytes, i: nat, ai: nat, major: nat)
    requires i <= |s| && major < 8 && ReadUint(s, i, ai).Success?
    ensures |EncodeUint(major, ReadUint(s, i, ai).value.value)| <= 1 + ReadUint(s, i, ai).value.next - i
  {
  }

  /** Whatever was decoded re-encodes in no more bytes than it came in, within 64 bits, to itself. */
  lemma {:induction false} ReencodingNeverGrows(s: Bytes, i: nat)
    requires Decode(s, i).Success?
    ensures |Encode(Decode(s, i).value.value)| <= Decode(s, i).value.next - i
    ensures Sized(Decode(s, i).value.value) && Wrap(Decode(s, i).value.value) == Decode(s, i).value.value
    decreases |s| - i, 0
  {
    var major, ai := s[i] / 32, s[i] % 32;
    if major < 7 {
      HeadIsShortest(s, i + 1, ai, major);
    }
    if major == 4 {
      var head := ReadUint(s, i + 1, ai).value;
      ReencodedItems(s, head.next, head.value);
      DecodeArray(s, i, head.next, head.value);
    } else if major == 5 {
      var head := ReadUint(s, i + 1, ai).value;
      ReencodedPairs(s, head.next, head.value);
      DecodeMap(s, i, head.next, head.value);
    } else if major == 3 {
      ReencodedText(s, i);
    } else if major < 2 {
      ReencodedInt(s, i);
    }
  }

  lemma ReencodedInt(s: Bytes, i: nat)
    requires Decode(s, i).Success? && s[i] / 32 < 2
    ensures |Encode(Decode(s, i).value.value)| <= Decode(s, i).value.next - i
    ensures Sized(Decode(s, i).value.value) && Wrap(Decode(s, i).value.value) == Decode(s, i).value.value
  {
    HeadIsShortest(s, i + 1, s[i] % 32, s[i] / 32);
    var n := ReadUint(s, i + 1, s[i] % 32).value.value;
    assert n % TWO_64 == n;
    assert Decode(s, i).value.value == if s[i] / 32 == 0 then Int(n) else Int(-1 - n);
  }

  lemma ReencodedText(s: Bytes, i: nat)
    requires Decode(s, i).Success? && s[i] / 32 == 3
    ensures |Encode(Decode(s, i).value.value)| <= Decode(s, i).value.next - i
    ensures Sized(Decode(s, i).value.value) && Wrap(Decode(s, i).value.value) == Decode(s, i).value.value
  {
    HeadIsShortest(s, i + 1, s[i] % 32, 3);
  }

  lemma {:induction false} ReencodedItems(s: Bytes, next: nat, len: nat)
    requires next <= |s| && DecodeItems(s, next, len).Success?
    ensures var r := DecodeItems(s, next, len).value;
            |EncodeItems(r.value)| <= r.next - next && SizedItems(r.value) && WrapItems(r.value) == r.value
    decreases |s| - next, 1
  {
    if len > 0 {
      ReencodingNeverGrows(s, next);
      ReencodedItems(s, Decode(s, next).value.next, len - 1);
      var r := DecodeItems(s, next, len).value;
      assert r.value[1..] == DecodeItems(s, Decode(s, next).value.next, len - 1).value.value;
    }
  }

  lemma {:induction false} ReencodedPairs(s: Bytes, next: nat, len: nat)
    requires next <= |s| && DecodePairs(s, next, len).Success?
    ensures var r := DecodePairs(s, next, len).value;
            |EncodePairs(r.value)| <= r.next - next && SizedPairs(r.value) && WrapPairs(r.value) == r.value
    decreases |s| - next, 1
  {
    if len > 0 {
      ReencodingNeverGrows(s, next);
      var key := Decode(s, next).value;
      ReencodingNeverGrows(s, key.next);
      var value := Decode(s, key.next).value;
      ReencodedPairs(s, value.next, len - 1);
      var r := DecodePairs(s, next, len).value;
      assert r.value[1..] == DecodePairs(s, value.next, len - 1).value.value;
    }
  }
}
