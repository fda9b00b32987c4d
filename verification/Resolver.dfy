/** The object-reference resolver of `lib/runtime.zscheme` and its one-entry front in `lib/avatar.zscheme`. */
module Resolver {
  import opened Wrappers
  import opened Stdlib

  /** The part of an actor's ctx map the libraries read. Every ctx carries a string "actor". */
  datatype Ctx = Ctx(
    actor: string,
    parent: Option<string>,
    kind: string,
    name: Option<string>,
    nick: Option<string>,
    description: Option<string>)

  datatype Key = Name | Nick | Description

  function Attr(entry: Ctx, key: Key): Option<string> {
    match key
    case Name => entry.name
    case Nick => entry.nick
    case Description => entry.description
  }

  predicate StartsWithDid(value: string) {
    "did:ma:" <= value
  }

  /** `string-downcase`, on ASCII letters. */
  function Downcase(s: string): (r: string)
    ensures |r| == |s|
  {
    seq(|s|, i requires 0 <= i < |s| =>
      if 'A' <= s[i] <= 'Z' then (s[i] as int + 32) as char else s[i])
  }

  function QueryWords(text: string): seq<string> {
    Filter((w: string) => w != "", StringSplit(Downcase(text), " "))
  }

  predicate NameMatches(word: string, entry: Ctx, key: Key) {
    var value := Attr(entry, key);
    var needles := QueryWords(word);
    && value.Some?
    && needles != []
    && var haystack := QueryWords(value.value);
       Fold((needle: string, acc: bool) => acc && needle in haystack, true, needles)
  }

  function CandidatesByKeys(word: string, pool: seq<Ctx>, keys: seq<Key>): seq<Ctx> {
    if keys == [] then []
    else
      var hits := Filter((entry: Ctx) => NameMatches(word, entry, keys[0]), pool);
      if hits == [] then CandidatesByKeys(word, pool, keys[1..]) else hits
  }

  function ResolveInPool(word: string, pool: seq<Ctx>, keys: seq<Key>): seq<string> {
    MapSeq((entry: Ctx) => entry.actor, CandidatesByKeys(word, pool, keys))
  }

  function ResolveRef(word: string, pool: seq<Ctx>): seq<string> {
    UniqueList(FlattenList([
      Node(Atoms(ResolveInPool(word, pool, [Name]))),
      Node(Atoms(ResolveInPool(word, pool, [Nick]))),
      Node(Atoms(ResolveInPool(word, pool, [Description])))]))
  }

  function FindEntryByActor(pool: seq<Ctx>, did: string): (r: Option<Ctx>)
    ensures r.Some? ==> r.value in pool && r.value.actor == did
    ensures r.None? ==> forall entry | entry in pool :: entry.actor != did
  {
    if pool == [] then None
    else if pool[0].actor == did then Some(pool[0])
    else FindEntryByActor(pool[1..], did)
  }

  function CandidateForDid(pool: seq<Ctx>, did: string): (r: Ctx)
    ensures r.actor == did
  {
    match FindEntryByActor(pool, did)
    case Some(entry) => entry
    case None => Ctx(did, None, "", None, None, None)
  }

  /** The first entry of the pool for the actor, and a bare one only when the pool has none. */
  lemma CandidateForDidExact(pool: seq<Ctx>, did: string)
    ensures (exists i: nat :: FirstFor(pool, did, i) && CandidateForDid(pool, did) == pool[i])
            || ((forall entry | entry in pool :: entry.actor != did)
                && CandidateForDid(pool, did) == Ctx(did, None, "", None, None, None))
  {
    FindsFirst(pool, did);
  }

  predicate FirstFor(pool: seq<Ctx>, did: string, i: nat) {
    i < |pool| && pool[i].actor == did && forall j | 0 <= j < i :: pool[j].actor != did
  }

  lemma {:induction false} FindsFirst(pool: seq<Ctx>, did: string)
    ensures FindEntryByActor(pool, did).Some? ==>
              exists i: nat :: FirstFor(pool, did, i) && FindEntryByActor(pool, did).value == pool[i]
  {
    if pool != [] {
      if pool[0].actor == did {
        assert FirstFor(pool, did, 0);
      } else if FindEntryByActor(pool, did).Some? {
        var tail := pool[1..];
        FindsFirst(tail, did);
        var i: nat :| FirstFor(tail, did, i) && FindEntryByActor(tail, did).value == tail[i];
        assert forall j | 0 < j <= i :: pool[j] == tail[j - 1];
        assert FirstFor(pool, did, i + 1) && pool[i + 1] == tail[i];
      }
    }
  }

  function NoMatchError(word: string): string {
    "no match for \"" + word + "\" here."
  }

  /** Without the candidate listing the source appends. */
  function AmbiguousError(word: string): string {
    "\"" + word + "\" matches more than one"
  }

  function ResolveOneEntry(word: string, pool: seq<Ctx>): Result<Ctx> {
    if StartsWithDid(word) then Success(CandidateForDid(pool, word))
    else
      var hits := ResolveRef(word, pool);
      if hits == [] then Failure(NoMatchError(word))
      else if |hits| == 1 then Success(CandidateForDid(pool, hits[0]))
      else Failure(AmbiguousError(word))
  }

  // ── What a match means ────────────────────────────────────────────────────

  /** `w` stands at `i` in `text` with a space or an end of text on either side. */
  predicate StandsAt(text: string, w: string, i: nat) {
    && OccursAt(text, w, i)
    && (i == 0 || text[i - 1] == ' ')
    && (i + |w| == |text| || text[i + |w|] == ' ')
  }

  /** `w` is a whole word of `text`. */
  ghost predicate WholeWord(text: string, w: string) {
    w != "" && ' ' !in w && exists i: nat :: StandsAt(text, w, i)
  }

  /** The same character, or the same one of the 26 letters in either case. */
  predicate SameLetter(c: char, d: char) {
    || c == d
    || ('A' <= c <= 'Z' && 'a' <= d <= 'z' && c as int - 'A' as int == d as int - 'a' as int)
    || ('a' <= c <= 'z' && 'A' <= d <= 'Z' && c as int - 'a' as int == d as int - 'A' as int)
  }

  /** Equal letter by letter, up to case. */
  predicate SameText(u: string, v: string) {
    |u| == |v| && forall i | 0 <= i < |u| :: SameLetter(u[i], v[i])
  }

  ghost predicate HasWord(value: string, w: string) {
    exists v :: WholeWord(value, v) && SameText(w, v)
  }

  /** The query has a word, and every word of it is, up to case, a whole word of the value. */
  ghost predicate Describes(word: string, value: string) {
    && (exists w :: WholeWord(word, w))
    && (forall w :: WholeWord(word, w) ==> HasWord(value, w))
  }

  ghost predicate Refers(word: string, entry: Ctx) {
    || (entry.name.Some? && Describes(word, entry.name.value))
    || (entry.nick.Some? && Describes(word, entry.nick.value))
    || (entry.description.Some? && Describes(word, entry.description.value))
  }

  ghost function MatchingActors(word: string, pool: seq<Ctx>): set<string> {
    set entry | entry in pool && Refers(word, entry) :: entry.actor
  }

  // ── Splitting finds exactly the whole words ───────────────────────────────

  lemma {:induction false} PiecesAreDelimited(s: string, w: string)
    ensures w in StringSplit(s, " ") <==> ' ' !in w && exists i: nat :: StandsAt(s, w, i)
    decreases |s|
  {
    SplitStep(s, " ");
    CharCut(s, ' ');
    match FirstCut(s, " ")
    case Whole =>
      if w == s {
        assert StandsAt(s, w, 0);
      }
    case CutAt(before, after) =>
      PiecesAreDelimited(after, w);
      StandsInHeadOrTail(before, after, w);
  }

  lemma StandsInHeadOrTail(before: string, after: string, w: string)
    requires ' ' !in before
    ensures (' ' !in w && exists i: nat :: StandsAt(before + " " + after, w, i)) <==>
            w == before || (' ' !in w && exists i: nat :: StandsAt(after, w, i))
  {
    var s := before + " " + after;
    if w == before {
      assert StandsAt(s, w, 0);
    }
    if i: nat :| StandsAt(after, w, i) {
      StandsLater(before, after, w, i);
    }
    if ' ' !in w {
      forall i: nat | StandsAt(s, w, i)
        ensures w == before || (exists j: nat :: StandsAt(after, w, j))
      {
        if i <= |before| {
          StandsBefore(before, after, w, i);
        } else {
          var j: nat := i - |before| - 1;
          StandsLater(before, after, w, j);
        }
      }
    }
  }

  lemma SliceAfter(before: string, after: string, j: nat, n: nat)
    requires j + n <= |after|
    ensures var s, at := before + " " + after, |before| + 1 + j;
            s[at..at + n] == after[j..j + n]
  {
  }

  lemma StandsLater(before: string, after: string, w: string, j: nat)
    ensures StandsAt(before + " " + after, w, |before| + 1 + j) <==> StandsAt(after, w, j)
  {
    if j + |w| <= |after| {
      SliceAfter(before, after, j, |w|);
    }
  }

  lemma StandsBefore(before: string, after: string, w: string, i: nat)
    requires ' ' !in before && ' ' !in w && StandsAt(before + " " + after, w, i) && i <= |before|
    ensures w == before
  {
    var s, idx := before + " " + after, |before|;
    assert s[idx] == ' ' && s[..idx] == before;
    assert forall k | 0 <= k < idx :: s[k] == before[k];
    assert i == 0;
    assert s[..|w|] == w;
    assert forall k | 0 <= k < |w| :: w[k] == s[k];
  }

  lemma QueryWordsAreWholeWords(text: string, w: string)
    ensures w in QueryWords(text) <==> WholeWord(Downcase(text), w)
  {
    FilterMembers((w: string) => w != "", StringSplit(Downcase(text), " "));
    PiecesAreDelimited(Downcase(text), w);
  }

  lemma {:induction false} FoldTestsEveryNeedle(haystack: seq<string>, init: bool, needles: seq<string>)
    ensures Fold((needle: string, acc: bool) => acc && needle in haystack, init, needles)
        <==> init && forall w | w in needles :: w in haystack
  {
    if needles != [] {
      FoldTestsEveryNeedle(haystack, init && needles[0] in haystack, needles[1..]);
      assert forall w :: w in needles <==> w == needles[0] || w in needles[1..];
    }
  }

  // ── Case ──────────────────────────────────────────────────────────────────

  /** Down-casing identifies exactly the texts that are equal up to case. */
  lemma DowncaseExact(u: string, v: string)
    ensures Downcase(u) == Downcase(v) <==> SameText(u, v)
  {
    if Downcase(u) == Downcase(v) {
      forall i | 0 <= i < |u|
        ensures SameLetter(u[i], v[i])
      {
        assert Downcase(u)[i] == Downcase(v)[i];
      }
    }
  }

  lemma DowncasedStands(text: string, w: string, i: nat)
    ensures StandsAt(text, w, i) ==> StandsAt(Downcase(text), Downcase(w), i)
    ensures i + |w| <= |text| && StandsAt(Downcase(text), Downcase(w), i) ==> StandsAt(text, text[i..i + |w|], i)
  {
    if i + |w| <= |text| {
      assert Downcase(text)[i..i + |w|] == Downcase(text[i..i + |w|]);
    }
  }

  lemma DowncasedSpaces(w: string)
    ensures ' ' in w <==> ' ' in Downcase(w)
  {
    if ' ' in w {
      var i :| 0 <= i < |w| && w[i] == ' ';
      assert Downcase(w)[i] == ' ';
    }
    if ' ' in Downcase(w) {
      var i :| 0 <= i < |w| && Downcase(w)[i] == ' ';
      assert w[i] == ' ';
    }
  }

  lemma UpcasedWord(text: string, x: string) returns (w: string)
    requires WholeWord(Downcase(text), x)
    ensures WholeWord(text, w) && Downcase(w) == x
  {
    var i: nat :| StandsAt(Downcase(text), x, i);
    w := text[i..i + |x|];
    assert Downcase(w) == Downcase(text)[i..i + |x|] == x;
    hide Downcase;
    DowncasedStands(text, w, i);
    DowncasedSpaces(w);
  }

  /** The words of a down-cased text are its words, down-cased. */
  lemma DowncasedWords(text: string, x: string)
    ensures WholeWord(Downcase(text), x) <==> exists w :: WholeWord(text, w) && Downcase(w) == x
  {
    if WholeWord(Downcase(text), x) {
      var w := UpcasedWord(text, x);
    }
    if w :| WholeWord(text, w) && Downcase(w) == x {
      var i: nat :| StandsAt(text, w, i);
      DowncasedStands(text, w, i);
      DowncasedSpaces(w);
      assert StandsAt(Downcase(text), x, i);
    }
  }

  ghost predicate DescribesDowncased(word: string, value: string) {
    && (exists w :: WholeWord(Downcase(word), w))
    && (forall w :: WholeWord(Downcase(word), w) ==> WholeWord(Downcase(value), w))
  }

  lemma HasWordDowncased(value: string, w: string)
    ensures HasWord(value, w) <==> WholeWord(Downcase(value), Downcase(w))
  {
    DowncasedWords(value, Downcase(w));
    if v :| WholeWord(value, v) && SameText(w, v) {
      DowncaseExact(w, v);
    }
    if v :| WholeWord(value, v) && Downcase(v) == Downcase(w) {
      DowncaseExact(w, v);
    }
  }

  lemma DescribesExact(word: string, value: string)
    ensures Describes(word, value) <==> DescribesDowncased(word, value)
  {
    if Describes(word, value) {
      var w :| WholeWord(word, w);
      DowncasedWords(word, Downcase(w));
      forall x | WholeWord(Downcase(word), x)
        ensures WholeWord(Downcase(value), x)
      {
        DowncasedWords(word, x);
        var w :| WholeWord(word, w) && Downcase(w) == x;
        HasWordDowncased(value, w);
      }
    }
    if DescribesDowncased(word, value) {
      var x :| WholeWord(Downcase(word), x);
      DowncasedWords(word, x);
      forall w | WholeWord(word, w)
        ensures HasWord(value, w)
      {
        DowncasedWords(word, Downcase(w));
        HasWordDowncased(value, w);
      }
    }
  }

  /** Queries equal up to case match alike, and so do values. */
  lemma CaseIsIgnored(word: string, again: string, entry: Ctx, other: Ctx, key: Key)
    requires SameText(word, again)
    requires match (Attr(entry, key), Attr(other, key))
             case (Some(v), Some(u)) => SameText(v, u)
             case (None, None) => true
             case _ => false
    ensures NameMatches(word, entry, key) <==> NameMatches(again, other, key)
  {
    DowncaseExact(word, again);
    if Attr(entry, key).Some? {
      DowncaseExact(Attr(entry, key).value, Attr(other, key).value);
    }
  }

  /** `name-matches?` is exactly the whole-word description test. */
  lemma NameMatchesExact(word: string, entry: Ctx, key: Key)
    ensures NameMatches(word, entry, key)
        <==> Attr(entry, key).Some? && Describes(word, Attr(entry, key).value)
  {
    if Attr(entry, key).Some? {
      var value := Attr(entry, key).value;
      FoldTestsEveryNeedle(QueryWords(value), true, QueryWords(word));
      forall w
        ensures w in QueryWords(word) <==> WholeWord(Downcase(word), w)
        ensures w in QueryWords(value) <==> WholeWord(Downcase(value), w)
      {
        QueryWordsAreWholeWords(word, w);
        QueryWordsAreWholeWords(value, w);
      }
      if QueryWords(word) != [] {
        assert QueryWords(word)[0] in QueryWords(word);
      }
      DescribesExact(word, value);
    }
  }

  // ── Exactness of the resolver ─────────────────────────────────────────────

  lemma AttributeHits(word: string, pool: seq<Ctx>, key: Key, a: string)
    ensures a in ResolveInPool(word, pool, [key])
        <==> exists entry :: entry in pool && entry.actor == a && NameMatches(word, entry, key)
  {
    var keep := (entry: Ctx) => NameMatches(word, entry, key);
    assert [key][1..] == [] && [key][0] == key;
    assert CandidatesByKeys(word, pool, [key]) == Filter((entry: Ctx) => NameMatches(word, entry, [key][0]), pool);
    FilterMembers((entry: Ctx) => NameMatches(word, entry, [key][0]), pool);
    MapMembers((entry: Ctx) => entry.actor, CandidatesByKeys(word, pool, [key]), a);
  }

  lemma RefHits(word: string, pool: seq<Ctx>, a: string)
    ensures a in ResolveRef(word, pool) <==>
            || a in ResolveInPool(word, pool, [Name])
            || a in ResolveInPool(word, pool, [Nick])
            || a in ResolveInPool(word, pool, [Description])
    ensures Distinct(ResolveRef(word, pool))
  {
    var n, k, d := ResolveInPool(word, pool, [Name]), ResolveInPool(word, pool, [Nick]),
      ResolveInPool(word, pool, [Description]);
    var lists: seq<Nested<string>> := [Node(Atoms(n)), Node(Atoms(k)), Node(Atoms(d))];
    FlattenNode(n, [Node(Atoms(k)), Node(Atoms(d))]);
    FlattenNode(k, [Node(Atoms(d))]);
    FlattenNode(d, []);
    assert lists == [Node(Atoms(n))] + ([Node(Atoms(k))] + ([Node(Atoms(d))] + []));
    assert [Node(Atoms(k)), Node(Atoms(d))] == [Node(Atoms(k))] + ([Node(Atoms(d))] + []);
    assert [Node(Atoms(d))] == [Node(Atoms(d))] + [];
    UniqueListExact(FlattenList(lists));
  }

  lemma FlattenNode(xs: seq<string>, rest: seq<Nested<string>>)
    ensures FlattenList([Node(Atoms(xs))] + rest) == xs + FlattenList(rest)
  {
    FlattenAtoms(xs);
    assert ([Node(Atoms(xs))] + rest)[1..] == rest;
  }

  /** `resolve-ref` lists, once each, exactly the actors some pool entry ties to every query word. */
  lemma ResolveRefExact(word: string, pool: seq<Ctx>)
    ensures Distinct(ResolveRef(word, pool))
    ensures forall a :: a in ResolveRef(word, pool) <==>
              exists entry :: entry in pool && entry.actor == a && Refers(word, entry)
  {
    RefHits(word, pool, "");
    forall a
      ensures a in ResolveRef(word, pool) <==>
              exists entry :: entry in pool && entry.actor == a && Refers(word, entry)
    {
      RefHits(word, pool, a);
      AttributeHits(word, pool, Name, a);
      AttributeHits(word, pool, Nick, a);
      AttributeHits(word, pool, Description, a);
      forall entry
        ensures Refers(word, entry) <==>
                NameMatches(word, entry, Name) || NameMatches(word, entry, Nick) || NameMatches(word, entry, Description)
      {
        ReferExact(word, entry);
      }
    }
  }

  lemma HitsAreMatchingActors(word: string, pool: seq<Ctx>)
    ensures Distinct(ResolveRef(word, pool))
    ensures forall a :: a in ResolveRef(word, pool) <==> a in MatchingActors(word, pool)
  {
    ResolveRefExact(word, pool);
  }

  /** A bare word resolves iff exactly one distinct actor matches it, and then to that actor. */
  lemma ResolveOneExact(word: string, pool: seq<Ctx>)
    requires !StartsWithDid(word)
    ensures ResolveOneEntry(word, pool).Success? <==> exists a :: MatchingActors(word, pool) == {a}
    ensures ResolveOneEntry(word, pool).Success? ==>
              MatchingActors(word, pool) == {ResolveOneEntry(word, pool).value.actor}
    ensures ResolveOneEntry(word, pool) == Failure(NoMatchError(word)) <==> MatchingActors(word, pool) == {}
  {
    HitsAreMatchingActors(word, pool);
    var hits := ResolveRef(word, pool);
    assert NoMatchError(word)[0] == 'n' && AmbiguousError(word)[0] == '"';
    if |hits| == 1 {
      assert MatchingActors(word, pool) == {hits[0]};
    } else if hits != [] {
      assert hits[0] != hits[1];
      assert hits[0] in MatchingActors(word, pool) && hits[1] in MatchingActors(word, pool);
    }
  }

  /** The answer depends on which entries the pool holds, not on their order or repetition. */
  lemma ResolveOneIgnoresPoolOrder(word: string, pool: seq<Ctx>, other: seq<Ctx>)
    requires forall entry :: entry in pool <==> entry in other
    ensures match ResolveOneEntry(word, pool)
            case Failure(e) => ResolveOneEntry(word, other) == Failure(e)
            case Success(entry) =>
              && ResolveOneEntry(word, other).Success?
              && ResolveOneEntry(word, other).value.actor == entry.actor
  {
    if !StartsWithDid(word) {
      ResolveOneExact(word, pool);
      ResolveOneExact(word, other);
      assert MatchingActors(word, pool) == MatchingActors(word, other);
    }
  }

  /** A query finds the same actor however its letters are cased. */
  lemma ResolveOneIgnoresCase(word: string, again: string, pool: seq<Ctx>)
    requires SameText(word, again) && !StartsWithDid(word) && !StartsWithDid(again)
    ensures MatchingActors(word, pool) == MatchingActors(again, pool)
    ensures match (ResolveOneEntry(word, pool), ResolveOneEntry(again, pool))
            case (Success(entry), Success(other)) => entry.actor == other.actor
            case (Failure(_), Failure(_)) => true
            case _ => false
  {
    forall entry
      ensures Refers(word, entry) <==> Refers(again, entry)
    {
      CaseIsIgnored(word, again, entry, entry, Name);
      CaseIsIgnored(word, again, entry, entry, Nick);
      CaseIsIgnored(word, again, entry, entry, Description);
      ReferExact(word, entry);
      ReferExact(again, entry);
    }
    ResolveOneExact(word, pool);
    ResolveOneExact(again, pool);
  }

  lemma ReferExact(word: string, entry: Ctx)
    ensures Refers(word, entry) <==>
            NameMatches(word, entry, Name) || NameMatches(word, entry, Nick) || NameMatches(word, entry, Description)
  {
    NameMatchesExact(word, entry, Name);
    NameMatchesExact(word, entry, Nick);
    NameMatchesExact(word, entry, Description);
  }

  /** A DID is never looked up by name: it resolves to itself, as the pool's first entry for it if there is one. */
  lemma ResolveDid(did: string, pool: seq<Ctx>)
    requires |did| >= 7 && did[..7] == "did:ma:"
    ensures ResolveOneEntry(did, pool).Success? && ResolveOneEntry(did, pool).value.actor == did
    ensures (exists i: nat :: FirstFor(pool, did, i) && ResolveOneEntry(did, pool).value == pool[i])
            || forall entry | entry in pool :: entry.actor != did
  {
    CandidateForDidExact(pool, did);
  }

  // ── Keys in order of preference ───────────────────────────────────────────

  predicate MatchesAny(word: string, pool: seq<Ctx>, key: Key) {
    exists entry | entry in pool :: NameMatches(word, entry, key)
  }

  lemma HitsOfKey(word: string, pool: seq<Ctx>, key: Key)
    ensures var hits := Filter((entry: Ctx) => NameMatches(word, entry, key), pool);
            && (hits == [] <==> !MatchesAny(word, pool, key))
            && forall entry :: entry in hits <==> entry in pool && NameMatches(word, entry, key)
  {
    var matches := (entry: Ctx) => NameMatches(word, entry, key);
    FilterNone(matches, pool);
    FilterMembers(matches, pool);
  }

  /** The first key anything matches decides: the candidates are exactly the entries that match it. */
  lemma {:induction false} FirstMatchingKeyDecides(word: string, pool: seq<Ctx>, keys: seq<Key>, k: nat)
    requires k < |keys| && MatchesAny(word, pool, keys[k])
    requires forall j | 0 <= j < k :: !MatchesAny(word, pool, keys[j])
    ensures CandidatesByKeys(word, pool, keys) == Filter((entry: Ctx) => NameMatches(word, entry, keys[k]), pool)
    ensures CandidatesByKeys(word, pool, keys) != []
    ensures forall entry :: entry in CandidatesByKeys(word, pool, keys) <==>
                            entry in pool && NameMatches(word, entry, keys[k])
    decreases k
  {
    HitsOfKey(word, pool, keys[0]);
    if k > 0 {
      FirstMatchingKeyDecides(word, pool, keys[1..], k - 1);
    }
  }

  lemma {:induction false} NoKeyMatches(word: string, pool: seq<Ctx>, keys: seq<Key>)
    ensures CandidatesByKeys(word, pool, keys) == [] <==> forall key | key in keys :: !MatchesAny(word, pool, key)
    decreases |keys|
  {
    if keys != [] {
      HitsOfKey(word, pool, keys[0]);
      NoKeyMatches(word, pool, keys[1..]);
      assert forall key :: key in keys <==> key == keys[0] || key in keys[1..];
    }
  }
}
