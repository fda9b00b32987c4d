/** The string and list procedures of `lib/stdlib.zscheme`. Named-let loops keep their accumulators. */
module Stdlib {
  import opened Wrappers

  // ── Substring search ──────────────────────────────────────────────────────

  predicate OccursAt(hay: string, needle: string, i: nat) {
    i + |needle| <= |hay| && hay[i..i + |needle|] == needle
  }

  lemma SliceOfTail(s: string, i: nat, n: nat)
    requires i + 1 + n <= |s|
    ensures s[1..][i..i + n] == s[i + 1..i + 1 + n]
  {
  }

  /** The host primitive `string-index`: None for `#f`. */
  function StringIndex(hay: string, needle: string): (r: Option<nat>)
    ensures r.Some? ==> OccursAt(hay, needle, r.value)
  {
    if needle <= hay then Some(0)
    else if hay == [] then None
    else
      match StringIndex(hay[1..], needle)
      case None => None
      case Some(i) =>
        SliceOfTail(hay, i, |needle|);
        Some(i + 1)
  }

  lemma OccursInTail(hay: string, needle: string, j: nat)
    requires hay != []
    ensures OccursAt(hay, needle, j + 1) <==> OccursAt(hay[1..], needle, j)
  {
    if j + 1 + |needle| <= |hay| {
      SliceOfTail(hay, j, |needle|);
    }
  }

  /** It finds the first occurrence, and one whenever there is one. */
  lemma {:induction false} StringIndexIsFirst(hay: string, needle: string, j: nat)
    requires OccursAt(hay, needle, j)
    ensures StringIndex(hay, needle).Some? && StringIndex(hay, needle).value <= j
  {
    if !(needle <= hay) {
      assert j > 0;
      OccursInTail(hay, needle, j - 1);
      StringIndexIsFirst(hay[1..], needle, j - 1);
    }
  }

  predicate StringContains(hay: string, needle: string) {
    StringIndex(hay, needle).Some?
  }

  // ── Lists ─────────────────────────────────────────────────────────────────

  function Reverse<T>(xs: seq<T>): seq<T> {
    if xs == [] then [] else Reverse(xs[1..]) + [xs[0]]
  }

  lemma ReverseCons<T>(x: T, xs: seq<T>)
    ensures Reverse([x] + xs) == Reverse(xs) + [x]
  {
    assert ([x] + xs)[1..] == xs;
  }

  lemma {:induction false} ReverseSnoc<T>(xs: seq<T>, x: T)
    ensures Reverse(xs + [x]) == [x] + Reverse(xs)
  {
    if xs == [] {
      assert xs + [x] == [x];
    } else {
      ReverseSnoc(xs[1..], x);
      assert (xs + [x])[1..] == xs[1..] + [x];
    }
  }

  lemma {:induction false} ReverseTwice<T>(xs: seq<T>)
    ensures Reverse(Reverse(xs)) == xs
  {
    if xs != [] {
      ReverseTwice(xs[1..]);
      ReverseSnoc(Reverse(xs[1..]), xs[0]);
    }
  }

  function Filter<T>(keep: T -> bool, xs: seq<T>): seq<T> {
    if xs == [] then []
    else if keep(xs[0]) then [xs[0]] + Filter(keep, xs[1..])
    else Filter(keep, xs[1..])
  }

  lemma {:induction false} FilterMembers<T>(keep: T -> bool, xs: seq<T>)
    ensures forall x :: x in Filter(keep, xs) <==> x in xs && keep(x)
  {
    if xs != [] {
      FilterMembers(keep, xs[1..]);
      assert forall x :: x in xs <==> x == xs[0] || x in xs[1..];
    }
  }

  /** Filtering keeps order and repeats: it works piece by piece. */
  lemma {:induction false} FilterAppend<T>(keep: T -> bool, xs: seq<T>, ys: seq<T>)
    ensures Filter(keep, xs + ys) == Filter(keep, xs) + Filter(keep, ys)
  {
    if xs == [] {
      assert xs + ys == ys;
    } else {
      assert (xs + ys)[1..] == xs[1..] + ys;
      FilterAppend(keep, xs[1..], ys);
    }
  }

  lemma {:induction false} FilterNone<T>(keep: T -> bool, xs: seq<T>)
    ensures Filter(keep, xs) == [] <==> forall x | x in xs :: !keep(x)
  {
    if xs != [] {
      FilterNone(keep, xs[1..]);
      assert forall x :: x in xs <==> x == xs[0] || x in xs[1..];
    }
  }

  /** `i` is the only position whose element passes. */
  predicate OnlyAt<T>(keep: T -> bool, xs: seq<T>, i: nat) {
    i < |xs| && keep(xs[i]) && forall j | 0 <= j < |xs| && j != i :: !keep(xs[j])
  }

  lemma {:induction false} FilterOnly<T>(keep: T -> bool, xs: seq<T>, i: nat)
    requires OnlyAt(keep, xs, i)
    ensures Filter(keep, xs) == [xs[i]]
    decreases |xs|
  {
    var tail := xs[1..];
    assert forall j | 0 <= j < |tail| :: tail[j] == xs[j + 1];
    if i == 0 {
      FilterNone(keep, tail);
    } else {
      assert OnlyAt(keep, tail, i - 1);
      FilterOnly(keep, tail, i - 1);
    }
  }

  lemma {:induction false} FilteredIsOnly<T>(keep: T -> bool, xs: seq<T>) returns (i: nat)
    requires |Filter(keep, xs)| == 1
    ensures OnlyAt(keep, xs, i) && Filter(keep, xs) == [xs[i]]
    decreases |xs|
  {
    var tail := xs[1..];
    assert forall j | 0 < j < |xs| :: xs[j] == tail[j - 1];
    if keep(xs[0]) {
      i := 0;
      FilterNone(keep, tail);
      assert forall j | 0 < j < |xs| :: xs[j] in tail;
    } else {
      var k := FilteredIsOnly(keep, tail);
      i := k + 1;
    }
  }

  function MapSeq<T, U>(f: T -> U, xs: seq<T>): seq<U> {
    if xs == [] then [] else [f(xs[0])] + MapSeq(f, xs[1..])
  }

  lemma {:induction false} MapMembers<T, U>(f: T -> U, xs: seq<T>, y: U)
    ensures y in MapSeq(f, xs) <==> exists x :: x in xs && f(x) == y
  {
    if xs != [] {
      MapMembers(f, xs[1..], y);
      assert forall x :: x in xs <==> x == xs[0] || x in xs[1..];
    }
  }

  /** Element by element, in order. */
  lemma {:induction false} MapPointwise<T, U>(f: T -> U, xs: seq<T>)
    ensures |MapSeq(f, xs)| == |xs| && forall i | 0 <= i < |xs| :: MapSeq(f, xs)[i] == f(xs[i])
  {
    if xs != [] {
      MapPointwise(f, xs[1..]);
      assert forall i | 0 < i < |xs| :: xs[i] == xs[1..][i - 1] && MapSeq(f, xs)[i] == MapSeq(f, xs[1..])[i - 1];
    }
  }

  /** `fold` hands the current item first and the accumulator second. */
  function Fold<T, A>(f: (T, A) -> A, init: A, xs: seq<T>): A {
    if xs == [] then init else Fold(f, f(xs[0], init), xs[1..])
  }

  /** A list element is a nested list or an atom; `flatten-list` splices every level. */
  datatype Nested<T> = Atom(value: T) | Node(items: seq<Nested<T>>)

  function FlattenList<T>(xs: seq<Nested<T>>): seq<T> {
    if xs == [] then []
    else match xs[0]
      case Node(items) => FlattenList(items) + FlattenList(xs[1..])
      case Atom(v) => [v] + FlattenList(xs[1..])
  }

  function Atoms<T>(xs: seq<T>): seq<Nested<T>> {
    if xs == [] then [] else [Atom(xs[0])] + Atoms(xs[1..])
  }

  lemma {:induction false} FlattenAtoms<T>(xs: seq<T>)
    ensures FlattenList(Atoms(xs)) == xs
  {
    if xs != [] {
      FlattenAtoms(xs[1..]);
      assert Atoms(xs)[1..] == Atoms(xs[1..]);
    }
  }

  lemma Assoc<T>(a: seq<T>, b: seq<T>, c: seq<T>)
    ensures (a + b) + c == a + (b + c)
  {
  }

  function FlattenOne<T>(x: Nested<T>): seq<T> {
    match x
    case Node(items) => FlattenList(items)
    case Atom(v) => [v]
  }

  lemma FlattenCons<T>(xs: seq<Nested<T>>, x: Nested<T>, tail: seq<Nested<T>>)
    requires xs == [x] + tail
    ensures FlattenList(xs) == FlattenOne(x) + FlattenList(tail)
  {
    assert xs[0] == x && xs[1..] == tail;
  }

  lemma {:induction false} FlattenAppend<T>(xs: seq<Nested<T>>, ys: seq<Nested<T>>)
    ensures FlattenList(xs + ys) == FlattenList(xs) + FlattenList(ys)
    decreases |xs|
  {
    if xs == [] {
      assert xs + ys == ys;
    } else {
      var x, tail := xs[0], xs[1..];
      FlattenAppend(tail, ys);
      FlattenCons(xs, x, tail);
      assert xs + ys == [x] + (tail + ys);
      FlattenCons(xs + ys, x, tail + ys);
      Assoc(FlattenOne(x), FlattenList(tail), FlattenList(ys));
    }
  }

  /** Whatever the nesting, flattening keeps the order of the atoms and splices every list in place. */
  lemma FlattenSplices<T>(xs: seq<Nested<T>>, inner: seq<Nested<T>>, ys: seq<Nested<T>>)
    ensures FlattenList(xs + ([Node(inner)] + ys)) == FlattenList(xs + (inner + ys))
    ensures FlattenList(xs + (inner + ys)) == FlattenList(xs) + (FlattenList(inner) + FlattenList(ys))
  {
    FlattenAppend(xs, inner + ys);
    FlattenAppend(inner, ys);
    FlattenAppend(xs, [Node(inner)] + ys);
    FlattenCons([Node(inner)] + ys, Node(inner), ys);
  }

  function UniqueList<T(==)>(xs: seq<T>): seq<T> {
    if xs == [] then []
    else if xs[0] in xs[1..] then UniqueList(xs[1..])
    else [xs[0]] + UniqueList(xs[1..])
  }

  ghost predicate Distinct<T>(xs: seq<T>) {
    forall i, j | 0 <= i < j < |xs| :: xs[i] != xs[j]
  }

  /** `unique-list` drops repeats and nothing else. */
  lemma {:induction false} UniqueListExact<T>(xs: seq<T>)
    ensures Distinct(UniqueList(xs))
    ensures forall x :: x in UniqueList(xs) <==> x in xs
  {
    if xs != [] {
      UniqueListExact(xs[1..]);
      assert forall x :: x in xs <==> x == xs[0] || x in xs[1..];
    }
  }

  lemma {:induction false} FilterOut<T(!new)>(xs: seq<T>, x: T)
    requires x !in xs
    ensures Filter((y: T) => y != x, xs) == xs
  {
    if xs != [] {
      FilterOut(xs[1..], x);
    }
  }

  /** Of several occurrences the last one stays: appending a value moves it to the end. */
  lemma {:induction false} UniqueListKeepsLast<T(!new)>(xs: seq<T>, x: T)
    ensures UniqueList(xs + [x]) == Filter((y: T) => y != x, UniqueList(xs)) + [x]
    decreases |xs|
  {
    var keep := (y: T) => y != x;
    if xs == [] {
      assert xs + [x] == [x];
    } else {
      var tail := xs[1..];
      assert (xs + [x])[1..] == tail + [x];
      UniqueListKeepsLast(tail, x);
      if xs[0] !in tail {
        assert xs[0] in tail + [x] <==> xs[0] == x;
        assert ([xs[0]] + UniqueList(tail))[1..] == UniqueList(tail);
      }
    }
  }

  // ── Split and join ────────────────────────────────────────────────────────

  /** The two substrings on either side of the first delimiter, if there is one. */
  datatype Cut = Whole | CutAt(before: string, after: string)

  function FirstCut(s: string, delim: string): (r: Cut)
    requires delim != ""
    ensures r.CutAt? ==> |r.before| + |delim| + |r.after| == |s|
  {
    match StringIndex(s, delim)
    case None => Whole
    case Some(idx) => CutAt(s[..idx], s[idx + |delim|..])
  }

  function SplitLoop(rest: string, delim: string, acc: seq<string>): seq<string>
    requires delim != ""
    decreases |rest|
  {
    match FirstCut(rest, delim)
    case Whole => Reverse([rest] + acc)
    case CutAt(before, after) => SplitLoop(after, delim, [before] + acc)
  }

  /** The source leaves an empty delimiter undefined: it could never consume input. */
  function StringSplit(s: string, delim: string): seq<string>
    requires delim != ""
  {
    SplitLoop(s, delim, [])
  }

  function JoinLoop(rest: seq<string>, delim: string, acc: string): string {
    if rest == [] then acc else JoinLoop(rest[1..], delim, acc + delim + rest[0])
  }

  function StringJoin(xs: seq<string>, delim: string): string {
    if xs == [] then "" else JoinLoop(xs[1..], delim, xs[0])
  }

  lemma PrefixHasNoEarlierOccurrence(s: string, delim: string, idx: nat)
    requires StringIndex(s, delim) == Some(idx) && delim != ""
    ensures !StringContains(s[..idx], delim)
  {
    if j :| StringIndex(s[..idx], delim) == Some(j) {
      assert s[..idx][j..j + |delim|] == s[j..j + |delim|];
      StringIndexIsFirst(s, delim, j);
    }
  }

  lemma CutExact(s: string, delim: string)
    requires delim != ""
    ensures match FirstCut(s, delim)
            case Whole => !StringContains(s, delim)
            case CutAt(before, after) => s == before + delim + after && !StringContains(before, delim)
  {
    match StringIndex(s, delim)
    case None =>
    case Some(idx) => PrefixHasNoEarlierOccurrence(s, delim, idx);
  }

  lemma ContainsChar(s: string, c: char)
    ensures StringContains(s, [c]) <==> c in s
  {
    if i :| 0 <= i < |s| && s[i] == c {
      assert s[i..i + 1] == [c];
      StringIndexIsFirst(s, [c], i);
    }
    if StringContains(s, [c]) {
      var i := StringIndex(s, [c]).value;
      assert s[i] == s[i..i + 1][0] == c;
    }
  }

  /** At one character, the cut leaves none of it before. */
  lemma CharCut(s: string, c: char)
    ensures match FirstCut(s, [c])
            case Whole => c !in s
            case CutAt(before, after) => s == before + [c] + after && c !in before && c in s
  {
    CutExact(s, [c]);
    match FirstCut(s, [c])
    case Whole => ContainsChar(s, c);
    case CutAt(before, _) =>
      ContainsChar(before, c);
      assert s[|before|] == c;
  }

  lemma CutOfChar(x: string, c: char, tail: string)
    requires c !in x
    ensures FirstCut(x + [c] + tail, [c]) == CutAt(x, tail)
  {
    var s := x + [c] + tail;
    CharCut(s, c);
    assert s[|x|] == c;
    var cut := FirstCut(s, [c]);
    assert forall k | 0 <= k < |cut.before| :: s[k] == cut.before[k];
    assert s[|cut.before|] == c;
    assert forall k | 0 <= k < |x| :: s[k] == x[k];
    assert |cut.before| == |x|;
    assert cut.before == s[..|x|] == x && cut.after == s[|x| + 1..] == tail;
  }

  lemma Regroup<T>(before: seq<T>, x: T, after: seq<T>)
    ensures (before + [x]) + after == before + ([x] + after)
    ensures Reverse([x]) == [x] && [x] + [] == [x] && [] + [x] == [x] && [] + after == after
  {
    assert [x][1..] == [];
  }

  lemma {:induction false} SplitAccumulates(rest: string, delim: string, acc: seq<string>)
    requires delim != ""
    ensures SplitLoop(rest, delim, acc) == Reverse(acc) + StringSplit(rest, delim)
    decreases |rest|
  {
    match FirstCut(rest, delim)
    case Whole =>
      Regroup([], rest, []);
      ReverseCons(rest, acc);
    case CutAt(before, after) =>
      Regroup([], before, []);
      SplitAccumulates(after, delim, [before] + acc);
      SplitAccumulates(after, delim, [before]);
      ReverseCons(before, acc);
      Regroup(Reverse(acc), before, StringSplit(after, delim));
  }

  /** The accumulator-free view: the piece before the first delimiter, then the rest. */
  lemma SplitStep(s: string, delim: string)
    requires delim != ""
    ensures StringSplit(s, delim) ==
            match FirstCut(s, delim)
            case Whole => [s]
            case CutAt(before, after) => [before] + StringSplit(after, delim)
  {
    match FirstCut(s, delim)
    case Whole => Regroup([], s, []);
    case CutAt(before, after) =>
      Regroup([], before, []);
      SplitAccumulates(after, delim, [before]);
  }

  lemma {:induction false} JoinAccumulates(rest: seq<string>, delim: string, prefix: string, acc: string)
    ensures JoinLoop(rest, delim, prefix + acc) == prefix + JoinLoop(rest, delim, acc)
    decreases |rest|
  {
    if rest != [] {
      JoinAccumulates(rest[1..], delim, prefix, acc + delim + rest[0]);
      assert prefix + (acc + delim + rest[0]) == (prefix + acc) + delim + rest[0];
    }
  }

  lemma JoinStep(x: string, xs: seq<string>, delim: string)
    ensures StringJoin([x] + xs, delim) == if xs == [] then x else x + delim + StringJoin(xs, delim)
  {
    assert ([x] + xs)[1..] == xs;
    if xs != [] {
      JoinAccumulates(xs[1..], delim, x + delim, xs[0]);
    }
  }

  lemma {:induction false} JoinOfSplitText(s: string, delim: string)
    requires delim != ""
    ensures StringSplit(s, delim) != [] && StringJoin(StringSplit(s, delim), delim) == s
    decreases |s|
  {
    SplitStep(s, delim);
    CutExact(s, delim);
    match FirstCut(s, delim)
    case Whole => JoinStep(s, [], delim);
    case CutAt(before, after) =>
      JoinOfSplitText(after, delim);
      JoinStep(before, StringSplit(after, delim), delim);
  }

  lemma {:induction false} PiecesHaveNoDelimiter(s: string, delim: string)
    requires delim != ""
    ensures forall p | p in StringSplit(s, delim) :: !StringContains(p, delim)
    decreases |s|
  {
    SplitStep(s, delim);
    CutExact(s, delim);
    match FirstCut(s, delim)
    case Whole =>
    case CutAt(before, after) =>
      PiecesHaveNoDelimiter(after, delim);
      var pieces := StringSplit(after, delim);
      assert forall p :: p in [before] + pieces <==> p == before || p in pieces;
  }

  /** Splitting loses nothing and leaves no delimiter inside a piece. */
  lemma JoinOfSplit(s: string, delim: string)
    requires delim != ""
    ensures StringSplit(s, delim) != []
    ensures StringJoin(StringSplit(s, delim), delim) == s
    ensures forall p | p in StringSplit(s, delim) :: !StringContains(p, delim)
  {
    JoinOfSplitText(s, delim);
    PiecesHaveNoDelimiter(s, delim);
  }

  /** For a one-character delimiter, splitting undoes joining. */
  lemma {:induction false} SplitOfJoin(xs: seq<string>, c: char)
    requires xs != [] && forall x | x in xs :: c !in x
    ensures StringSplit(StringJoin(xs, [c]), [c]) == xs
  {
    var x, rest := xs[0], xs[1..];
    assert xs == [x] + rest;
    JoinStep(x, rest, [c]);
    SplitStep(StringJoin(xs, [c]), [c]);
    if rest == [] {
      assert StringJoin(xs, [c]) == x && xs == [x];
      CharCut(x, c);
    } else {
      SplitOfJoin(rest, c);
      CutOfChar(x, c, StringJoin(rest, [c]));
    }
  }
}
