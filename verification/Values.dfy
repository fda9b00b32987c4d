/**
 Conversion between Scheme values and CBOR values, and the decoding of replies (`src/context.rs`).
 Floats and byte strings are opaque tokens with equality; an ordered map is its bindings in key order.
 */
module Values {
  import opened Wrappers

  type Token = nat

  datatype SchemeVal =
    | Str(text: string)
    | Bytes(token: Token)
    | Int(n: int)
    | Float(token: Token)
    | Bool(b: bool)
    | Nil
    | List(items: seq<SchemeVal>)
    | Map(bindings: seq<Binding>)
    | Procedure(shown: string)

  datatype Binding = Binding(key: string, value: SchemeVal)

  datatype Cbor =
    | Text(text: string)
    | ByteString(token: Token)
    | Integer(n: int)
    | FloatNumber(token: Token)
    | Truth(b: bool)
    | Null
    | Array(elements: seq<Cbor>)
    | Table(pairs: seq<Pair>)
    | Tag(tag: nat, inner: Cbor)
    | Simple(debug: string)

  datatype Pair = Pair(key: Cbor, value: Cbor)

  // ── Ordered maps ──────────────────────────────────────────────────────────

  predicate Less(a: string, b: string) {
    b != "" && (a == "" || a[0] < b[0] || (a[0] == b[0] && Less(a[1..], b[1..])))
  }

  lemma {:induction false} LessIsTotal(a: string, b: string)
    ensures Less(a, b) || a == b || Less(b, a)
  {
    if a != "" && b != "" && a[0] == b[0] {
      LessIsTotal(a[1..], b[1..]);
      assert a == [a[0]] + a[1..] && b == [b[0]] + b[1..];
    }
  }

  lemma {:induction false} LessIsStrict(a: string, b: string)
    ensures !(Less(a, b) && Less(b, a)) && !Less(a, a)
  {
    if a != "" {
      LessIsStrict(a[1..], if b != "" then b[1..] else "");
    }
  }

  lemma {:induction false} LessIsTransitive(a: string, b: string, c: string)
    requires Less(a, b) && Less(b, c)
    ensures Less(a, c)
  {
    if a != "" && a[0] == b[0] == c[0] {
      LessIsTransitive(a[1..], b[1..], c[1..]);
    }
  }

  ghost predicate Sorted(bs: seq<Binding>) {
    forall i, j | 0 <= i < j < |bs| :: Less(bs[i].key, bs[j].key)
  }

  /** `BTreeMap::insert`: a present key keeps its place and takes the new value. */
  function Insert(bs: seq<Binding>, key: string, value: SchemeVal): seq<Binding> {
    if bs == [] || Less(key, bs[0].key) then [Binding(key, value)] + bs
    else if key == bs[0].key then [Binding(key, value)] + bs[1..]
    else [bs[0]] + Insert(bs[1..], key, value)
  }

  function Lookup(bs: seq<Binding>, key: string): Option<SchemeVal> {
    if bs == [] then None
    else if bs[0].key == key then Some(bs[0].value)
    else Lookup(bs[1..], key)
  }

  lemma {:induction false} InsertKeepsSorted(bs: seq<Binding>, key: string, value: SchemeVal)
    requires Sorted(bs)
    ensures Sorted(Insert(bs, key, value))
    ensures forall b | b in Insert(bs, key, value) :: b in bs || b == Binding(key, value)
    decreases |bs|
  {
    if bs != [] {
      LessIsTotal(key, bs[0].key);
      if Less(key, bs[0].key) {
        forall j | 0 <= j < |bs|
          ensures Less(key, bs[j].key)
        {
          if j > 0 {
            LessIsTransitive(key, bs[0].key, bs[j].key);
          }
        }
      } else if key != bs[0].key {
        var rest := Insert(bs[1..], key, value);
        InsertKeepsSorted(bs[1..], key, value);
        forall j | 0 <= j < |rest|
          ensures Less(bs[0].key, rest[j].key)
        {
          assert rest[j] in rest;
        }
      }
    }
  }

  lemma {:induction false} LookupOfInsert(bs: seq<Binding>, key: string, value: SchemeVal, asked: string)
    requires Sorted(bs)
    ensures Lookup(Insert(bs, key, value), asked) == if asked == key then Some(value) else Lookup(bs, asked)
    decreases |bs|
  {
    if bs != [] {
      LessIsStrict(key, bs[0].key);
      if !Less(key, bs[0].key) && key != bs[0].key {
        LookupOfInsert(bs[1..], key, value, asked);
      }
    }
  }

  lemma {:induction false} InsertBeyondEnd(bs: seq<Binding>, key: string, value: SchemeVal)
    requires forall b | b in bs :: Less(b.key, key)
    ensures Insert(bs, key, value) == bs + [Binding(key, value)]
    decreases |bs|
  {
    if bs != [] {
      assert bs[0] in bs;
      LessIsStrict(bs[0].key, key);
      InsertBeyondEnd(bs[1..], key, value);
    }
  }

  // ── Scheme to CBOR ────────────────────────────────────────────────────────

  function ToCbor(v: SchemeVal): Cbor
    decreases v
  {
    match v
    case Str(s) => Text(s)
    case Bytes(t) => ByteString(t)
    case Int(n) => Integer(n)
    case Float(t) => FloatNumber(t)
    case Bool(b) => Truth(b)
    case Nil => Null
    case List(items) => Array(ToElements(items))
    case Map(bindings) => Table(ToPairs(bindings))
    case Procedure(shown) => Text(shown)
  }

  function ToElements(items: seq<SchemeVal>): (r: seq<Cbor>)
    ensures |r| == |items|
    decreases items
  {
    if items == [] then [] else [ToCbor(items[0])] + ToElements(items[1..])
  }

  function ToPair(b: Binding): Pair
    decreases b
  {
    Pair(Text(b.key), ToCbor(b.value))
  }

  function ToPairs(bindings: seq<Binding>): (r: seq<Pair>)
    ensures |r| == |bindings|
    decreases bindings
  {
    if bindings == [] then [] else [ToPair(bindings[0])] + ToPairs(bindings[1..])
  }

  // ── CBOR to Scheme ────────────────────────────────────────────────────────

  const I64_MIN := -0x8000_0000_0000_0000
  const I64_MAX := 0x7fff_ffff_ffff_ffff

  function Digits(n: nat): string {
    if n < 10 then [n as char + '0'] else Digits(n / 10) + [(n % 10) as char + '0']
  }

  function Decimal(n: int): string {
    if n < 0 then "-" + Digits(-n) else Digits(n)
  }

  predicate TextKeyed(pairs: seq<Pair>) {
    forall p | p in pairs :: p.key.Text?
  }

  function FromCbor(v: Cbor): SchemeVal
    decreases v
  {
    match v
    case Text(s) => Str(s)
    case ByteString(t) => Bytes(t)
    case Integer(n) => if I64_MIN <= n <= I64_MAX then Int(n) else Str(Decimal(n))
    case FloatNumber(t) => Float(t)
    case Truth(b) => Bool(b)
    case Null => Nil
    case Array(elements) => List(FromElements(elements))
    case Table(pairs) =>
      if TextKeyed(pairs) then Map(InsertAll([], FromPairs(pairs))) else List(PairLists(FromPairs(pairs)))
    case Tag(_, inner) => FromCbor(inner)
    case Simple(debug) => Str(debug)
  }

  function FromElements(elements: seq<Cbor>): (r: seq<SchemeVal>)
    ensures |r| == |elements|
    decreases elements
  {
    if elements == [] then [] else [FromCbor(elements[0])] + FromElements(elements[1..])
  }

  /** A converted pair keeps its raw key beside the converted one. */
  datatype Converted = Converted(key: Cbor, keyVal: SchemeVal, value: SchemeVal)

  function FromPair(p: Pair): Converted
    decreases p
  {
    Converted(p.key, FromCbor(p.key), FromCbor(p.value))
  }

  function FromPairs(pairs: seq<Pair>): (r: seq<Converted>)
    ensures |r| == |pairs|
    ensures forall i | 0 <= i < |pairs| :: r[i].key == pairs[i].key
    decreases pairs
  {
    if pairs == [] then [] else [FromPair(pairs[0])] + FromPairs(pairs[1..])
  }

  function KeyText(c: Converted): string {
    match c.key
    case Text(s) => s
    case _ => ""
  }

  function InsertAll(acc: seq<Binding>, entries: seq<Converted>): seq<Binding>
    decreases |entries|
  {
    if entries == [] then acc
    else InsertAll(Insert(acc, KeyText(entries[0]), entries[0].value), entries[1..])
  }

  function PairLists(entries: seq<Converted>): seq<SchemeVal> {
    seq(|entries|, i requires 0 <= i < |entries| => List([entries[i].keyVal, entries[i].value]))
  }

  /** Entries that come in key order are appended as they come. */
  lemma {:induction false} InsertSorted(acc: seq<Binding>, bs: seq<Binding>, entries: seq<Converted>)
    requires Sorted(acc + bs) && |entries| == |bs|
    requires forall i | 0 <= i < |bs| :: KeyText(entries[i]) == bs[i].key && entries[i].value == bs[i].value
    ensures InsertAll(acc, entries) == acc + bs
    decreases |bs|
  {
    if bs != [] {
      forall b | b in acc
        ensures Less(b.key, bs[0].key)
      {
        var i :| 0 <= i < |acc| && acc[i] == b;
        assert (acc + bs)[i] == b && (acc + bs)[|acc|] == bs[0];
      }
      InsertBeyondEnd(acc, bs[0].key, bs[0].value);
      assert (acc + [bs[0]]) + bs[1..] == acc + bs;
      InsertSorted(acc + [bs[0]], bs[1..], entries[1..]);
    }
  }

  /** The map-building loop of the source: inserting until a key that is not text sends the whole map to a list. */
  method MapOrList(pairs: seq<Pair>) returns (r: SchemeVal)
    ensures r == FromCbor(Table(pairs))
  {
    var entries := FromPairs(pairs);
    var bindings: seq<Binding> := [];
    for i := 0 to |pairs|
      invariant forall j | 0 <= j < i :: pairs[j].key.Text?
      invariant InsertAll([], entries) == InsertAll(bindings, entries[i..])
    {
      if !pairs[i].key.Text? {
        assert pairs[i] in pairs;
        return List(PairLists(entries));
      }
      bindings := Insert(bindings, KeyText(entries[i]), entries[i].value);
    }
    return Map(bindings);
  }

  // ── Round trip ────────────────────────────────────────────────────────────

  /** A value the host can hold: 64-bit integers and ordered maps. */
  ghost predicate Valid(v: SchemeVal)
    decreases v
  {
    match v
    case Int(n) => I64_MIN <= n <= I64_MAX
    case List(items) => forall item | item in items :: Valid(item)
    case Map(bindings) => Sorted(bindings) && forall b | b in bindings :: Valid(b.value)
    case _ => true
  }

  /** Procedures do not travel; they arrive as the text they display as. */
  function Shown(v: SchemeVal): SchemeVal
    decreases v
  {
    match v
    case Procedure(shown) => Str(shown)
    case List(items) => List(ShownItems(items))
    case Map(bindings) => Map(ShownBindings(bindings))
    case _ => v
  }

  function ShownItems(items: seq<SchemeVal>): (r: seq<SchemeVal>)
    ensures |r| == |items|
    decreases items
  {
    if items == [] then [] else [Shown(items[0])] + ShownItems(items[1..])
  }

  function ShownBinding(b: Binding): (r: Binding)
    ensures r.key == b.key
    decreases b
  {
    Binding(b.key, Shown(b.value))
  }

  function ShownBindings(bindings: seq<Binding>): (r: seq<Binding>)
    ensures |r| == |bindings|
    ensures forall i | 0 <= i < |r| :: r[i].key == bindings[i].key
    decreases bindings
  {
    if bindings == [] then [] else [ShownBinding(bindings[0])] + ShownBindings(bindings[1..])
  }

  predicate HasProcedure(v: SchemeVal)
    decreases v
  {
    match v
    case Procedure(_) => true
    case List(items) => exists item | item in items :: HasProcedure(item)
    case Map(bindings) => exists b | b in bindings :: HasProcedure(b.value)
    case _ => false
  }

  lemma {:induction false} ThereAndBack(v: SchemeVal)
    requires Valid(v)
    ensures FromCbor(ToCbor(v)) == Shown(v)
    decreases v
  {
    match v
    case List(items) => ItemsThereAndBack(items);
    case Map(bindings) =>
      BindingsThereAndBack(bindings);
      ShownStaysSorted(bindings);
      InsertSorted([], ShownBindings(bindings), FromPairs(ToPairs(bindings)));
    case _ =>
  }

  lemma {:induction false} ItemsThereAndBack(items: seq<SchemeVal>)
    requires forall item | item in items :: Valid(item)
    ensures FromElements(ToElements(items)) == ShownItems(items)
    decreases items
  {
    if items != [] {
      ThereAndBack(items[0]);
      ItemsThereAndBack(items[1..]);
      assert ToElements(items)[1..] == ToElements(items[1..]);
    }
  }

  function Reread(b: Binding): Converted {
    Converted(Text(b.key), Str(b.key), b.value)
  }

  lemma {:induction false} BindingThereAndBack(b: Binding)
    requires Valid(b.value)
    ensures FromPair(ToPair(b)) == Reread(ShownBinding(b))
    decreases b
  {
    ThereAndBack(b.value);
  }

  lemma {:induction false} BindingsThereAndBack(bindings: seq<Binding>)
    requires forall b | b in bindings :: Valid(b.value)
    ensures TextKeyed(ToPairs(bindings))
    ensures forall i | 0 <= i < |bindings| :: FromPairs(ToPairs(bindings))[i] == Reread(ShownBindings(bindings)[i])
    decreases bindings
  {
    if bindings != [] {
      BindingThereAndBack(bindings[0]);
      BindingsThereAndBack(bindings[1..]);
      hide ToCbor, FromCbor, Shown, Valid, ToPair, FromPair, Reread;
      assert ToPairs(bindings)[1..] == ToPairs(bindings[1..]);
      assert forall p :: p in ToPairs(bindings) <==> p == ToPair(bindings[0]) || p in ToPairs(bindings[1..]);
      assert FromPairs(ToPairs(bindings)) == [FromPair(ToPair(bindings[0]))] + FromPairs(ToPairs(bindings[1..]));
    }
  }

  lemma ShownStaysSorted(bindings: seq<Binding>)
    requires Sorted(bindings)
    ensures Sorted(ShownBindings(bindings))
  {
  }

  lemma {:induction false} ShownIsIdentity(v: SchemeVal)
    ensures Shown(v) == v <==> !HasProcedure(v)
    decreases v
  {
    match v
    case List(items) => ShownItemsIdentity(items);
    case Map(bindings) => ShownBindingsIdentity(bindings);
    case _ =>
  }

  lemma {:induction false} ShownItemsIdentity(items: seq<SchemeVal>)
    ensures ShownItems(items) == items <==> forall item | item in items :: !HasProcedure(item)
    decreases items
  {
    if items != [] {
      ShownIsIdentity(items[0]);
      ShownItemsIdentity(items[1..]);
      assert items == [items[0]] + items[1..];
      assert ShownItems(items)[0] == Shown(items[0]) && ShownItems(items)[1..] == ShownItems(items[1..]);
      assert forall item :: item in items <==> item == items[0] || item in items[1..];
    }
  }

  lemma {:induction false} ShownBindingIdentity(b: Binding)
    ensures ShownBinding(b) == b <==> !HasProcedure(b.value)
    decreases b
  {
    ShownIsIdentity(b.value);
  }

  lemma {:induction false} ShownBindingsIdentity(bindings: seq<Binding>)
    ensures ShownBindings(bindings) == bindings <==> forall b | b in bindings :: !HasProcedure(b.value)
    decreases bindings
  {
    if bindings != [] {
      ShownBindingIdentity(bindings[0]);
      ShownBindingsIdentity(bindings[1..]);
      assert bindings == [bindings[0]] + bindings[1..];
      assert ShownBindings(bindings)[0] == ShownBinding(bindings[0]);
      assert ShownBindings(bindings)[1..] == ShownBindings(bindings[1..]);
      assert forall b :: b in bindings <==> b == bindings[0] || b in bindings[1..];
    }
  }

  /** A value goes to CBOR and back unchanged iff no procedure is anywhere inside it. */
  lemma RoundTripExact(v: SchemeVal)
    requires Valid(v)
    ensures FromCbor(ToCbor(v)) == v <==> !HasProcedure(v)
  {
    ThereAndBack(v);
    ShownIsIdentity(v);
  }

  // ── Normalisation ─────────────────────────────────────────────────────────

  lemma {:induction false} DecodedIsValid(v: Cbor)
    ensures Valid(FromCbor(v)) && !HasProcedure(FromCbor(v))
    decreases v
  {
    match v
    case Array(elements) => DecodedElementsValid(elements);
    case Table(pairs) =>
      DecodedPairsValid(pairs);
      if TextKeyed(pairs) {
        InsertAllKeeps([], FromPairs(pairs));
      } else {
        forall item | item in PairLists(FromPairs(pairs))
          ensures Valid(item) && !HasProcedure(item)
        {
          var i :| 0 <= i < |pairs| && item == PairLists(FromPairs(pairs))[i];
          assert FromPairs(pairs)[i] in FromPairs(pairs);
        }
      }
    case Tag(_, inner) => DecodedIsValid(inner);
    case _ =>
  }

  lemma {:induction false} DecodedElementsValid(elements: seq<Cbor>)
    ensures forall item | item in FromElements(elements) :: Valid(item) && !HasProcedure(item)
    decreases elements
  {
    if elements != [] {
      DecodedIsValid(elements[0]);
      DecodedElementsValid(elements[1..]);
    }
  }

  predicate ConvertedPlain(c: Converted) {
    !HasProcedure(c.keyVal) && !HasProcedure(c.value)
  }

  ghost predicate ConvertedValid(c: Converted) {
    Valid(c.keyVal) && Valid(c.value) && ConvertedPlain(c)
  }

  lemma {:induction false} DecodedPairValid(p: Pair)
    ensures ConvertedValid(FromPair(p))
    decreases p
  {
    DecodedIsValid(p.key);
    DecodedIsValid(p.value);
  }

  lemma {:induction false} DecodedPairsValid(pairs: seq<Pair>)
    ensures forall c | c in FromPairs(pairs) :: ConvertedValid(c)
    decreases pairs
  {
    if pairs != [] {
      DecodedPairValid(pairs[0]);
      DecodedPairsValid(pairs[1..]);
    }
  }

  lemma {:induction false} InsertAllKeeps(acc: seq<Binding>, entries: seq<Converted>)
    requires Sorted(acc) && forall b | b in acc :: Valid(b.value) && !HasProcedure(b.value)
    requires forall c | c in entries :: ConvertedValid(c)
    ensures var bs := InsertAll(acc, entries);
            Sorted(bs) && forall b | b in bs :: Valid(b.value) && !HasProcedure(b.value)
    decreases |entries|
  {
    if entries != [] {
      assert entries[0] in entries;
      InsertKeepsSorted(acc, KeyText(entries[0]), entries[0].value);
      InsertAllKeeps(Insert(acc, KeyText(entries[0]), entries[0].value), entries[1..]);
    }
  }

  /** One decode normalises: whatever CBOR came in, what it became survives every later trip. */
  lemma DecodeNormalises(v: Cbor)
    ensures FromCbor(ToCbor(FromCbor(v))) == FromCbor(v)
  {
    DecodedIsValid(v);
    RoundTripExact(FromCbor(v));
  }

  // ── Maps ──────────────────────────────────────────────────────────────────

  /** The value of the last pair whose key is the text `key`. */
  function LastValue(pairs: seq<Pair>, key: string): Option<SchemeVal> {
    if pairs == [] then None
    else
      var last := pairs[|pairs| - 1];
      if last.key == Text(key) then Some(FromCbor(last.value)) else LastValue(pairs[..|pairs| - 1], key)
  }

  lemma {:induction false} InsertAllSnoc(acc: seq<Binding>, entries: seq<Converted>, c: Converted)
    ensures InsertAll(acc, entries + [c]) == Insert(InsertAll(acc, entries), KeyText(c), c.value)
    decreases |entries|
  {
    if entries == [] {
      assert entries + [c] == [c] && [c][1..] == [];
    } else {
      assert (entries + [c])[1..] == entries[1..] + [c];
      InsertAllSnoc(Insert(acc, KeyText(entries[0]), entries[0].value), entries[1..], c);
    }
  }

  lemma {:induction false} FromPairsSnoc(pairs: seq<Pair>, p: Pair)
    ensures FromPairs(pairs + [p]) == FromPairs(pairs) + [FromPair(p)]
    decreases |pairs|
  {
    if pairs == [] {
      assert pairs + [p] == [p];
    } else {
      assert (pairs + [p])[1..] == pairs[1..] + [p];
      FromPairsSnoc(pairs[1..], p);
    }
  }

  /** A map whose keys are all text decodes to an ordered map in which the last write of each key wins. */
  lemma {:induction false} LastWriteWins(pairs: seq<Pair>, key: string)
    requires TextKeyed(pairs)
    ensures FromCbor(Table(pairs)).Map?
    ensures Sorted(FromCbor(Table(pairs)).bindings)
    ensures Lookup(FromCbor(Table(pairs)).bindings, key) == LastValue(pairs, key)
    decreases |pairs|
  {
    DecodedIsValid(Table(pairs));
    if pairs != [] {
      var init, last := pairs[..|pairs| - 1], pairs[|pairs| - 1];
      assert last in pairs && forall p | p in init :: p in pairs;
      LastWriteWins(init, key);
      assert pairs == init + [last];
      FromPairsSnoc(init, last);
      InsertAllSnoc([], FromPairs(init), FromPair(last));
      LookupOfInsert(FromCbor(Table(init)).bindings, KeyText(FromPair(last)), FromCbor(last.value), key);
    }
  }

  lemma {:induction false} FromPairsAt(pairs: seq<Pair>, i: nat)
    requires i < |pairs|
    ensures FromPairs(pairs)[i] == FromPair(pairs[i])
    decreases i
  {
    if i > 0 {
      FromPairsAt(pairs[1..], i - 1);
    }
  }

  /** One key that is not text, anywhere, turns the whole map into the list of its pairs, in order. */
  lemma NonTextKeyMakesPairList(pairs: seq<Pair>)
    ensures FromCbor(Table(pairs)).List? <==> exists p :: p in pairs && !p.key.Text?
    ensures FromCbor(Table(pairs)).List? ==>
              && |FromCbor(Table(pairs)).items| == |pairs|
              && forall i | 0 <= i < |pairs| ::
                   FromCbor(Table(pairs)).items[i] == List([FromCbor(pairs[i].key), FromCbor(pairs[i].value)])
  {
    forall i | 0 <= i < |pairs|
      ensures FromPairs(pairs)[i] == FromPair(pairs[i])
    {
      FromPairsAt(pairs, i);
    }
  }

  // ── Replies ───────────────────────────────────────────────────────────────

  /** A reply payload: the CBOR value in it, if it is CBOR at all, and its lossy text. */
  datatype Payload = Payload(cbor: Option<Cbor>, text: string)

  function DecodeReply(p: Payload): Result<SchemeVal> {
    if p.cbor.None? then Success(Str(p.text))
    else
      match p.cbor.value
      case Array(elements) =>
        if elements != [] && elements[0] == Text(":ok") then
          Success(if |elements| > 1 then FromCbor(elements[1]) else Str(":ok"))
        else if elements != [] && elements[0] == Text(":error") then
          Failure(if |elements| > 1 && elements[1].Text? then elements[1].text else p.text)
        else Success(FromCbor(p.cbor.value))
      case other => Success(FromCbor(other))
  }

  predicate Headed(p: Payload, head: string) {
    p.cbor.Some? && p.cbor.value.Array? && p.cbor.value.elements != [] && p.cbor.value.elements[0] == Text(head)
  }

  /** A reply fails iff it is an array headed `:error`, with its second element when that is text and with the
      lossy payload otherwise. An `:ok` array hands over its second element or, bare, the atom itself; any other
      CBOR hands over itself; bytes that are no CBOR hand over their text. */
  lemma DecodeReplyExact(p: Payload)
    ensures DecodeReply(p).Failure? <==> Headed(p, ":error")
    ensures Headed(p, ":error") ==>
              var elements := p.cbor.value.elements;
              && (forall reason | |elements| > 1 && elements[1] == Text(reason) :: DecodeReply(p) == Failure(reason))
              && (|elements| == 1 || !elements[1].Text? ==> DecodeReply(p) == Failure(p.text))
    ensures Headed(p, ":ok") ==>
              var elements := p.cbor.value.elements;
              DecodeReply(p) == Success(if |elements| == 1 then Str(":ok") else FromCbor(elements[1]))
    ensures p.cbor.Some? && !Headed(p, ":ok") && !Headed(p, ":error") ==>
              DecodeReply(p) == Success(FromCbor(p.cbor.value))
    ensures p.cbor.None? ==> DecodeReply(p) == Success(Str(p.text))
  {
  }

  /** What a call is answered with is the value the other side put in its `:ok`, and the reason it put in its
      `:error`. */
  lemma ReplyRoundTrip(v: SchemeVal, reason: string, text: string)
    ensures Valid(v) && !HasProcedure(v) ==>
              DecodeReply(Payload(Some(Array([Text(":ok"), ToCbor(v)])), text)) == Success(v)
    ensures DecodeReply(Payload(Some(Array([Text(":error"), ToCbor(Str(reason))])), text)) == Failure(reason)
  {
    if Valid(v) && !HasProcedure(v) {
      RoundTripExact(v);
    }
  }

  // ── Kind by kind ──────────────────────────────────────────────────────────

  lemma {:induction false} ToElementsAt(items: seq<SchemeVal>, i: nat)
    requires i < |items|
    ensures ToElements(items)[i] == ToCbor(items[i])
    decreases i
  {
    if i > 0 {
      ToElementsAt(items[1..], i - 1);
    }
  }

  lemma {:induction false} ToPairsAt(bindings: seq<Binding>, i: nat)
    requires i < |bindings|
    ensures ToPairs(bindings)[i] == ToPair(bindings[i])
    decreases i
  {
    if i > 0 {
      ToPairsAt(bindings[1..], i - 1);
    }
  }

  lemma {:induction false} FromElementsAt(elements: seq<Cbor>, i: nat)
    requires i < |elements|
    ensures FromElements(elements)[i] == FromCbor(elements[i])
    decreases i
  {
    if i > 0 {
      FromElementsAt(elements[1..], i - 1);
    }
  }

  /** Which CBOR kind each Scheme kind becomes: lists and maps element by element, in order. */
  lemma SchemeKinds(v: SchemeVal)
    ensures match ToCbor(v)
            case Text(s) => v == Str(s) || v == Procedure(s)
            case ByteString(t) => v == Bytes(t)
            case Integer(n) => v == Int(n)
            case FloatNumber(t) => v == Float(t)
            case Truth(b) => v == Bool(b)
            case Null => v == Nil
            case Array(elements) =>
              && v.List? && |elements| == |v.items|
              && forall i | 0 <= i < |elements| :: elements[i] == ToCbor(v.items[i])
            case Table(pairs) =>
              && v.Map? && |pairs| == |v.bindings|
              && forall i | 0 <= i < |pairs| :: pairs[i] == Pair(Text(v.bindings[i].key), ToCbor(v.bindings[i].value))
            case _ => false
  {
    match v
    case List(items) =>
      forall i | 0 <= i < |items|
        ensures ToElements(items)[i] == ToCbor(items[i])
      {
        ToElementsAt(items, i);
      }
    case Map(bindings) =>
      forall i | 0 <= i < |bindings|
        ensures ToPairs(bindings)[i] == ToPair(bindings[i])
      {
        ToPairsAt(bindings, i);
      }
    case _ =>
  }

  /** Which Scheme kind each CBOR kind becomes: an integer beyond 64 bits its decimal digits, a tagged value what
      is inside the tag, and anything else its debug text. */
  lemma CborKinds(v: Cbor)
    ensures match v
            case Text(s) => FromCbor(v) == Str(s)
            case ByteString(t) => FromCbor(v) == Bytes(t)
            case Integer(n) =>
              if -0x8000_0000_0000_0000 <= n < 0x8000_0000_0000_0000 then FromCbor(v) == Int(n)
              else FromCbor(v).Str? && Spells(FromCbor(v).text, n)
            case FloatNumber(t) => FromCbor(v) == Float(t)
            case Truth(b) => FromCbor(v) == Bool(b)
            case Null => FromCbor(v) == Nil
            case Array(elements) =>
              && FromCbor(v).List? && |FromCbor(v).items| == |elements|
              && forall i | 0 <= i < |elements| :: FromCbor(v).items[i] == FromCbor(elements[i])
            case Table(_) => FromCbor(v).Map? || FromCbor(v).List?
            case Tag(_, inner) => FromCbor(v) == FromCbor(inner)
            case Simple(debug) => FromCbor(v) == Str(debug)
  {
    match v
    case Integer(n) => DecimalExact(n);
    case Array(elements) =>
      forall i | 0 <= i < |elements|
        ensures FromElements(elements)[i] == FromCbor(elements[i])
      {
        FromElementsAt(elements, i);
      }
    case _ =>
  }

  /** The number a run of decimal digits stands for. */
  function Number(digits: string): int {
    if digits == [] then 0
    else 10 * Number(digits[..|digits| - 1]) + (digits[|digits| - 1] as int - '0' as int)
  }

  predicate IsDigits(text: string) {
    text != "" && (|text| > 1 ==> text[0] != '0') && forall c | c in text :: '0' <= c <= '9'
  }

  /** `text` is `n` in decimal: a sign if negative, and digits without a leading zero. */
  predicate Spells(text: string, n: int) {
    if n < 0 then text != "" && text[0] == '-' && IsDigits(text[1..]) && Number(text[1..]) == -n
    else IsDigits(text) && Number(text) == n
  }

  lemma {:induction false} DigitsExact(n: nat)
    ensures IsDigits(Digits(n)) && Number(Digits(n)) == n
    ensures n > 0 ==> Digits(n)[0] != '0'
  {
    if n >= 10 {
      DigitsExact(n / 10);
      var text := Digits(n);
      assert text[..|text| - 1] == Digits(n / 10);
    } else {
      assert Digits(n)[..0] == [];
    }
  }

  lemma DecimalExact(n: int)
    ensures Spells(Decimal(n), n)
  {
    DigitsExact(if n < 0 then -n else n);
    if n < 0 {
      assert Decimal(n)[1..] == Digits(-n);
    }
  }

  predicate DiffersAt(a: string, b: string, i: nat) {
    i < |a| && i < |b| && a[..i] == b[..i] && a[i] != b[i]
  }

  lemma DiffersLater(a: string, b: string, i: nat)
    requires a != "" && b != "" && a[0] == b[0]
    ensures DiffersAt(a, b, i + 1) <==> DiffersAt(a[1..], b[1..], i)
  {
    if i + 1 < |a| && i + 1 < |b| {
      assert a[..i + 1] == [a[0]] + a[1..][..i] && b[..i + 1] == [b[0]] + b[1..][..i];
      assert a[..i + 1][1..] == a[1..][..i] && b[..i + 1][1..] == b[1..][..i];
    }
  }

  lemma PrefixLater(a: string, b: string)
    requires a != "" && b != "" && a[0] == b[0]
    ensures a <= b <==> a[1..] <= b[1..]
    ensures a == b <==> a[1..] == b[1..]
  {
    assert a == [a[0]] + a[1..] && b == [b[0]] + b[1..];
  }

  ghost predicate Precedes(a: string, b: string) {
    (a <= b && a != b) || exists i: nat :: DiffersAt(a, b, i) && a[i] < b[i]
  }

  /** Keys are ordered as strings are: by the first character that differs, a prefix before what it begins. */
  lemma {:induction false} LessExact(a: string, b: string)
    ensures Less(a, b) <==> Precedes(a, b)
  {
    if a != "" && b != "" {
      if a[0] == b[0] {
        LessExact(a[1..], b[1..]);
        PrefixLater(a, b);
        if i: nat :| DiffersAt(a[1..], b[1..], i) && a[1..][i] < b[1..][i] {
          DiffersLater(a, b, i);
        }
        if i: nat :| DiffersAt(a, b, i) && a[i] < b[i] {
          DiffersLater(a, b, i - 1);
        }
      } else {
        assert DiffersAt(a, b, 0);
      }
    }
  }
}
