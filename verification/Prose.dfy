/**
 Trigger prose (`lib/avatar.zscheme`): text with parenthesised spans, parsed into the parts the trigger
 actor concatenates. `isNumber` is the host's `string->number` test; a number is kept as its literal.
 */
module Prose {
  import opened Wrappers
  import opened Stdlib

  datatype Term =
    | Quoted(text: string)
    | Symbol(token: string)
    | Number(literal: string)
    | Form(head: string, args: seq<Term>)

  datatype Part = Literal(text: string) | Span(form: Term)

  type NumberTest = string -> bool

  // ── The parser ────────────────────────────────────────────────────────────

  /** At least two characters, opened and closed so. */
  predicate Wrapped(w: string, open: char, close: char) {
    |w| >= 2 && w[0] == open && w[|w| - 1] == close
  }

  function ArgValue(isNumber: NumberTest, w: string): Result<Term>
    decreases |w|, 0, 0
  {
    if Wrapped(w, '"', '"') then Success(Quoted(w[1..|w| - 1]))
    else if Wrapped(w, '(', ')') then SpanToForm(isNumber, w[1..|w| - 1])
    else if ":" <= w then Success(Symbol(w))
    else if isNumber(w) then Success(Number(w))
    else Failure("invalid trigger expression token: " + w)
  }

  function ArgValues(isNumber: NumberTest, words: seq<string>, longest: nat): Result<seq<Term>>
    requires forall w | w in words :: |w| <= longest
    decreases longest, 1, |words|
  {
    if words == [] then Success([])
    else
      assert words[0] in words;
      var first :- ArgValue(isNumber, words[0]);
      var rest :- ArgValues(isNumber, words[1..], longest);
      Success([first] + rest)
  }

  function SpanToForm(isNumber: NumberTest, span: string): Result<Term>
    decreases |span|, 2, 0
  {
    PiecesComeFrom(span);
    var words := StringSplit(span, " ");
    if words == [] || words[0] == "" then Failure("empty trigger expression")
    else
      var args :- ArgValues(isNumber, words[1..], |span|);
      Success(Form(":" + words[0], args))
  }

  function ProseLoop(isNumber: NumberTest, rest: string, acc: seq<Part>): Result<seq<Part>>
    decreases |rest|
  {
    match FirstCut(rest, "(")
    case Whole => Success(Reverse(if rest == "" then acc else [Literal(rest)] + acc))
    case CutAt(before, tail) =>
      match FirstCut(tail, ")")
      case Whole => Failure("unbalanced ( in trigger text")
      case CutAt(span, after) =>
        var acc' := if before == "" then acc else [Literal(before)] + acc;
        var form :- SpanToForm(isNumber, span);
        ProseLoop(isNumber, after, [Span(form)] + acc')
  }

  function ProseToParts(isNumber: NumberTest, text: string): Result<seq<Part>> {
    ProseLoop(isNumber, text, [])
  }

  /** The pieces of a split are made of the text's own characters, and none is longer than it. */
  lemma {:induction false} PiecesComeFrom(s: string)
    ensures forall p | p in StringSplit(s, " ") :: |p| <= |s| && forall c | c in p :: c in s
    decreases |s|
  {
    SplitStep(s, " ");
    CharCut(s, ' ');
    match FirstCut(s, " ")
    case Whole =>
    case CutAt(before, after) => PiecesComeFrom(after);
  }

  // ── The printer ───────────────────────────────────────────────────────────

  function PrintArg(t: Term): string {
    match t
    case Quoted(text) => "\"" + text + "\""
    case Symbol(token) => token
    case Number(literal) => literal
    case Form(_, _) => ""
  }

  function PrintArgs(args: seq<Term>): (r: seq<string>)
    ensures |r| == |args| && forall i | 0 <= i < |args| :: r[i] == PrintArg(args[i])
  {
    if args == [] then [] else [PrintArg(args[0])] + PrintArgs(args[1..])
  }

  function PrintForm(f: Term): string
    requires f.Form? && f.head != ""
  {
    StringJoin([f.head[1..]] + PrintArgs(f.args), " ")
  }

  predicate Token(w: string) {
    ' ' !in w && ')' !in w
  }

  predicate CanonicalArg(isNumber: NumberTest, t: Term) {
    match t
    case Quoted(text) => Token(text)
    case Symbol(token) => Token(token) && ":" <= token
    case Number(literal) =>
      Token(literal) && isNumber(literal) && !Wrapped(literal, '"', '"') && !(":" <= literal)
    case Form(_, _) => false
  }

  predicate CanonicalForm(isNumber: NumberTest, f: Term) {
    && f.Form? && |f.head| >= 2 && f.head[0] == ':' && Token(f.head[1..])
    && forall arg | arg in f.args :: CanonicalArg(isNumber, arg)
  }

  predicate CanonicalPart(isNumber: NumberTest, p: Part) {
    match p
    case Literal(text) => text != "" && '(' !in text
    case Span(f) => CanonicalForm(isNumber, f)
  }

  predicate Canonical(isNumber: NumberTest, parts: seq<Part>) {
    && (forall p | p in parts :: CanonicalPart(isNumber, p))
    && (forall i | 0 <= i < |parts| - 1 :: !(parts[i].Literal? && parts[i + 1].Literal?))
  }

  function PrintPart(p: Part): string
    requires p.Span? ==> p.form.Form? && p.form.head != ""
  {
    match p
    case Literal(text) => text
    case Span(f) => "(" + PrintForm(f) + ")"
  }

  function Print(isNumber: NumberTest, parts: seq<Part>): string
    requires Canonical(isNumber, parts)
  {
    if parts == [] then ""
    else
      assert parts[0] in parts;
      assert Canonical(isNumber, parts[1..]) by {
        CanonicalTail(isNumber, parts);
      }
      PrintPart(parts[0]) + Print(isNumber, parts[1..])
  }

  lemma CanonicalTail(isNumber: NumberTest, parts: seq<Part>)
    requires Canonical(isNumber, parts) && parts != []
    ensures Canonical(isNumber, parts[1..])
  {
    var tail := parts[1..];
    forall i | 0 <= i < |tail| - 1
      ensures !(tail[i].Literal? && tail[i + 1].Literal?)
    {
      assert tail[i] == parts[i + 1] && tail[i + 1] == parts[(i + 1) + 1];
    }
  }

  // ── Tokens and spans ──────────────────────────────────────────────────────

  /** On a token the argument reader and printer are inverse; the nested-form branch is never taken. */
  lemma ArgExact(isNumber: NumberTest, w: string, t: Term)
    requires Token(w)
    ensures ArgValue(isNumber, w) == Success(t) <==> CanonicalArg(isNumber, t) && PrintArg(t) == w
  {
    assert |w| > 0 ==> w[|w| - 1] in w;
    if Wrapped(w, '"', '"') {
      var text := w[1..|w| - 1];
      assert w == "\"" + text + "\"";
      assert forall c | c in text :: c in w;
    }
    if t.Quoted? {
      var p := PrintArg(t);
      assert p[1..|p| - 1] == t.text;
    }
  }

  /** The arguments are canonical and print, one by one, as the words. */
  predicate PrintAs(isNumber: NumberTest, args: seq<Term>, words: seq<string>) {
    && |args| == |words|
    && forall i | 0 <= i < |args| :: CanonicalArg(isNumber, args[i]) && PrintArg(args[i]) == words[i]
  }

  lemma PrintAsExact(isNumber: NumberTest, args: seq<Term>, words: seq<string>)
    ensures PrintAs(isNumber, args, words) <==>
            (forall arg | arg in args :: CanonicalArg(isNumber, arg)) && PrintArgs(args) == words
  {
  }

  lemma PrintAsStep(isNumber: NumberTest, args: seq<Term>, words: seq<string>)
    requires args != [] && words != []
    ensures PrintAs(isNumber, args, words) <==>
            CanonicalArg(isNumber, args[0]) && PrintArg(args[0]) == words[0] && PrintAs(isNumber, args[1..], words[1..])
  {
    if PrintAs(isNumber, args[1..], words[1..]) && CanonicalArg(isNumber, args[0]) && PrintArg(args[0]) == words[0] {
      forall i | 0 <= i < |args|
        ensures CanonicalArg(isNumber, args[i]) && PrintArg(args[i]) == words[i]
      {
        assert i > 0 ==> args[i] == args[1..][i - 1] && words[i] == words[1..][i - 1];
      }
    }
  }

  lemma ArgValuesStep(isNumber: NumberTest, words: seq<string>, longest: nat, args: seq<Term>)
    requires words != [] && args != [] && forall w | w in words :: |w| <= longest
    ensures ArgValues(isNumber, words, longest) == Success(args) <==>
            words[0] in words && ArgValue(isNumber, words[0]) == Success(args[0])
            && ArgValues(isNumber, words[1..], longest) == Success(args[1..])
  {
    assert args == [args[0]] + args[1..];
    var r := ArgValues(isNumber, words[1..], longest);
    if r.Success? {
      assert ([args[0]] + r.value)[1..] == r.value;
    }
  }

  lemma {:induction false} ArgsExact(isNumber: NumberTest, words: seq<string>, longest: nat, args: seq<Term>)
    requires forall w | w in words :: |w| <= longest && Token(w)
    ensures ArgValues(isNumber, words, longest) == Success(args) <==> PrintAs(isNumber, args, words)
    decreases |words|
  {
    if words != [] && args != [] {
      assert words[0] in words;
      ArgsExact(isNumber, words[1..], longest, args[1..]);
      ArgValuesStep(isNumber, words, longest, args);
      ArgExact(isNumber, words[0], args[0]);
      PrintAsStep(isNumber, args, words);
    }
  }

  lemma SpanWords(span: string)
    requires ')' !in span
    ensures var words := StringSplit(span, " ");
            words != [] && StringJoin(words, " ") == span && forall w | w in words :: |w| <= |span| && Token(w)
  {
    var words := StringSplit(span, " ");
    PiecesComeFrom(span);
    JoinOfSplit(span, " ");
    forall w | w in words
      ensures Token(w)
    {
      ContainsChar(w, ' ');
    }
  }

  lemma FormOfWords(isNumber: NumberTest, span: string, f: Term)
    requires ')' !in span && f.Form?
    ensures StringSplit(span, " ") != []
    ensures var words := StringSplit(span, " ");
            SpanToForm(isNumber, span) == Success(f) <==>
              words[0] != "" && f.head == ":" + words[0] && PrintAs(isNumber, f.args, words[1..])
  {
    SpanWords(span);
    ArgsExact(isNumber, StringSplit(span, " ")[1..], |span|, f.args);
  }

  lemma FormReads(isNumber: NumberTest, span: string, f: Term)
    requires ')' !in span && SpanToForm(isNumber, span) == Success(f)
    ensures CanonicalForm(isNumber, f) && PrintForm(f) == span
  {
    var words := StringSplit(span, " ");
    SpanWords(span);
    FormOfWords(isNumber, span, f);
    PrintAsExact(isNumber, f.args, words[1..]);
    assert words[0] in words && f.head[1..] == words[0];
    assert [f.head[1..]] + PrintArgs(f.args) == words;
  }

  lemma FormPrints(isNumber: NumberTest, f: Term)
    requires CanonicalForm(isNumber, f)
    ensures ')' !in PrintForm(f) && SpanToForm(isNumber, PrintForm(f)) == Success(f)
  {
    TokensSplit(isNumber, f);
    var words := StringSplit(PrintForm(f), " ");
    FormOfWords(isNumber, PrintForm(f), f);
    assert words[1..] == PrintArgs(f.args) && f.head == ":" + words[0];
    PrintAsExact(isNumber, f.args, words[1..]);
  }

  /** A span without ")" reads as the form it prints from, and only that one. */
  lemma FormExact(isNumber: NumberTest, span: string, f: Term)
    requires ')' !in span
    ensures SpanToForm(isNumber, span) == Success(f) <==> CanonicalForm(isNumber, f) && PrintForm(f) == span
  {
    if SpanToForm(isNumber, span) == Success(f) {
      FormReads(isNumber, span, f);
    }
    if CanonicalForm(isNumber, f) && PrintForm(f) == span {
      FormPrints(isNumber, f);
    }
  }

  lemma TokensSplit(isNumber: NumberTest, f: Term)
    requires CanonicalForm(isNumber, f)
    ensures StringSplit(PrintForm(f), " ") == [f.head[1..]] + PrintArgs(f.args)
    ensures ')' !in PrintForm(f)
  {
    var tokens := [f.head[1..]] + PrintArgs(f.args);
    forall i | 0 <= i < |tokens|
      ensures Token(tokens[i])
    {
      if i > 0 {
        assert f.args[i - 1] in f.args;
      }
    }
    SplitOfJoin(tokens, ' ');
    JoinedChars(tokens);
  }

  lemma {:induction false} JoinedChars(tokens: seq<string>)
    requires forall w | w in tokens :: ')' !in w
    ensures ')' !in StringJoin(tokens, " ")
    decreases |tokens|
  {
    if tokens != [] {
      assert tokens == [tokens[0]] + tokens[1..];
      assert tokens[0] in tokens;
      JoinStep(tokens[0], tokens[1..], " ");
      JoinedChars(tokens[1..]);
    }
  }

  // ── Texts ─────────────────────────────────────────────────────────────────

  /** The loop without its accumulator. */
  function Parts(isNumber: NumberTest, rest: string): Result<seq<Part>>
    decreases |rest|
  {
    match FirstCut(rest, "(")
    case Whole => Success(Lead(rest))
    case CutAt(before, tail) =>
      match FirstCut(tail, ")")
      case Whole => Failure("unbalanced ( in trigger text")
      case CutAt(span, after) =>
        var form :- SpanToForm(isNumber, span);
        Ahead(Lead(before) + [Span(form)], Parts(isNumber, after))
  }

  function Ahead(front: seq<Part>, r: Result<seq<Part>>): Result<seq<Part>> {
    match r
    case Success(ps) => Success(front + ps)
    case Failure(e) => Failure(e)
  }

  function Lead(text: string): seq<Part> {
    if text == "" then [] else [Literal(text)]
  }

  lemma AheadTwice(a: seq<Part>, b: seq<Part>, r: Result<seq<Part>>)
    ensures Ahead(a, Ahead(b, r)) == Ahead(a + b, r)
  {
    if r.Success? {
      assert a + (b + r.value) == (a + b) + r.value;
    }
  }

  lemma PushSpan(acc: seq<Part>, before: string, span: Part)
    ensures var acc' := if before == "" then acc else [Literal(before)] + acc;
            Reverse([span] + acc') == Reverse(acc) + (Lead(before) + [span])
  {
    var acc' := if before == "" then acc else [Literal(before)] + acc;
    ReverseCons(Literal(before), acc);
    ReverseCons(span, acc');
  }

  lemma NoSpan(isNumber: NumberTest, rest: string, acc: seq<Part>)
    requires FirstCut(rest, "(").Whole?
    ensures ProseLoop(isNumber, rest, acc) == Ahead(Reverse(acc), Parts(isNumber, rest))
  {
    ReverseCons(Literal(rest), acc);
    assert Reverse(acc) + [] == Reverse(acc);
  }

  lemma {:induction false} LoopAccumulates(isNumber: NumberTest, rest: string, acc: seq<Part>)
    ensures ProseLoop(isNumber, rest, acc) == Ahead(Reverse(acc), Parts(isNumber, rest))
    decreases |rest|
  {
    match FirstCut(rest, "(")
    case Whole => NoSpan(isNumber, rest, acc);
    case CutAt(before, tail) =>
      match FirstCut(tail, ")")
      case Whole =>
      case CutAt(span, after) =>
        match SpanToForm(isNumber, span)
        case Failure(_) =>
        case Success(f) =>
          var acc' := if before == "" then acc else [Literal(before)] + acc;
          LoopAccumulates(isNumber, after, [Span(f)] + acc');
          PushSpan(acc, before, Span(f));
          AheadTwice(Reverse(acc), Lead(before) + [Span(f)], Parts(isNumber, after));
  }

  lemma PrintLead(isNumber: NumberTest, text: string, parts: seq<Part>)
    requires '(' !in text && Canonical(isNumber, parts) && (parts != [] ==> parts[0].Span?)
    ensures Canonical(isNumber, Lead(text) + parts)
    ensures Print(isNumber, Lead(text) + parts) == text + Print(isNumber, parts)
  {
    var all := Lead(text) + parts;
    if text == "" {
      assert all == parts;
    } else {
      assert all == [Literal(text)] + parts;
      forall i | 0 <= i < |all| - 1
        ensures !(all[i].Literal? && all[i + 1].Literal?)
      {
        if i > 0 {
          assert all[i] == parts[i - 1] && all[i + 1] == parts[(i - 1) + 1];
        }
      }
      assert all[1..] == parts;
    }
  }

  lemma PrintSpan(isNumber: NumberTest, f: Term, later: seq<Part>)
    requires CanonicalForm(isNumber, f) && Canonical(isNumber, later)
    ensures Canonical(isNumber, [Span(f)] + later)
    ensures Print(isNumber, [Span(f)] + later) == "(" + PrintForm(f) + ")" + Print(isNumber, later)
  {
    var all := [Span(f)] + later;
    forall i | 0 <= i < |all| - 1
      ensures !(all[i].Literal? && all[i + 1].Literal?)
    {
      if i > 0 {
        assert all[i] == later[i - 1] && all[i + 1] == later[(i - 1) + 1];
      }
    }
    assert all[1..] == later;
  }

  /** What is parsed is canonical and prints back as the text. */
  lemma {:induction false} ParsedPrintsBack(isNumber: NumberTest, text: string)
    requires Parts(isNumber, text).Success?
    ensures Canonical(isNumber, Parts(isNumber, text).value)
    ensures Print(isNumber, Parts(isNumber, text).value) == text
    decreases |text|
  {
    CharCut(text, '(');
    match FirstCut(text, "(")
    case Whole =>
      PrintLead(isNumber, text, []);
      assert Lead(text) + [] == Lead(text);
    case CutAt(before, tail) =>
      CharCut(tail, ')');
      var span, after := FirstCut(tail, ")").before, FirstCut(tail, ")").after;
      var f := SpanToForm(isNumber, span).value;
      FormExact(isNumber, span, f);
      ParsedPrintsBack(isNumber, after);
      PrintThree(isNumber, before, f, Parts(isNumber, after).value);
      Reassociate(before, span, after);
  }

  lemma Reassociate(a: string, p: string, q: string)
    ensures a + "(" + (p + ")" + q) == a + ("(" + p + ")" + q)
  {
  }

  lemma PrintThree(isNumber: NumberTest, before: string, f: Term, later: seq<Part>)
    requires '(' !in before && CanonicalForm(isNumber, f) && Canonical(isNumber, later)
    ensures Canonical(isNumber, Lead(before) + [Span(f)] + later)
    ensures Print(isNumber, Lead(before) + [Span(f)] + later)
         == before + ("(" + PrintForm(f) + ")" + Print(isNumber, later))
  {
    PrintSpan(isNumber, f, later);
    PrintLead(isNumber, before, [Span(f)] + later);
    assert Lead(before) + [Span(f)] + later == Lead(before) + ([Span(f)] + later);
  }

  /** A canonical parts list, printed, is parsed back. */
  lemma {:induction false} PrintedParsesBack(isNumber: NumberTest, parts: seq<Part>)
    requires Canonical(isNumber, parts)
    ensures Parts(isNumber, Print(isNumber, parts)) == Success(parts)
    decreases |parts|
  {
    if parts != [] {
      assert parts[0] in parts;
      CanonicalTail(isNumber, parts);
      if parts[0].Span? {
        SpanFirst(isNumber, "", parts[0].form, parts[1..]);
        PrintedParsesBack(isNumber, parts[1..]);
        assert parts == [Span(parts[0].form)] + parts[1..];
        PrintSpan(isNumber, parts[0].form, parts[1..]);
        assert "" + Print(isNumber, parts) == Print(isNumber, parts);
        assert Lead("") + [Span(parts[0].form)] + parts[1..] == parts;
      } else if |parts| == 1 {
        var text := parts[0].text;
        assert parts[1..] == [] && text + "" == text;
        CharCut(text, '(');
        assert Lead(text) == parts;
      } else {
        LiteralThenSpan(isNumber, parts);
      }
    }
  }

  lemma {:induction false} LiteralThenSpan(isNumber: NumberTest, parts: seq<Part>)
    requires Canonical(isNumber, parts) && |parts| > 1 && parts[0].Literal?
    ensures Parts(isNumber, Print(isNumber, parts)) == Success(parts)
    decreases |parts|, 0
  {
    assert parts[0] in parts && parts[1] in parts;
    assert !(parts[0].Literal? && parts[0 + 1].Literal?);
    CanonicalTail(isNumber, parts);
    CanonicalTail(isNumber, parts[1..]);
    var text, f, later := parts[0].text, parts[1].form, parts[1..][1..];
    assert parts[1..] == [Span(f)] + later;
    PrintedParsesBack(isNumber, later);
    SpanFirst(isNumber, text, f, later);
    assert Lead(text) + [Span(f)] + later == parts;
  }

  lemma SpanFirst(isNumber: NumberTest, text: string, f: Term, later: seq<Part>)
    requires '(' !in text && CanonicalForm(isNumber, f) && Canonical(isNumber, later)
    ensures Canonical(isNumber, [Span(f)] + later)
    ensures Parts(isNumber, Print(isNumber, later)) == Success(later) ==>
              Parts(isNumber, text + Print(isNumber, [Span(f)] + later)) == Success(Lead(text) + [Span(f)] + later)
  {
    PrintSpan(isNumber, f, later);
    FormPrints(isNumber, f);
    Reassociate(text, PrintForm(f), Print(isNumber, later));
    PartsOfThree(isNumber, text, PrintForm(f), Print(isNumber, later));
  }

  /** A text that starts with a "("-free literal and a ")"-free span. */
  lemma PartsOfThree(isNumber: NumberTest, text: string, span: string, after: string)
    requires '(' !in text && ')' !in span && SpanToForm(isNumber, span).Success?
    ensures Parts(isNumber, text + "(" + (span + ")" + after))
         == Ahead(Lead(text) + [Span(SpanToForm(isNumber, span).value)], Parts(isNumber, after))
  {
    var tail := span + ")" + after;
    CutOfChar(text, '(', tail);
    CutOfChar(span, ')', after);
  }

  lemma AheadNothing(r: Result<seq<Part>>)
    ensures Ahead(Reverse([]), r) == r
  {
    if r.Success? {
      assert [] + r.value == r.value;
    }
  }

  lemma ParserIsParts(isNumber: NumberTest, text: string)
    ensures ProseToParts(isNumber, text) == Parts(isNumber, text)
  {
    LoopAccumulates(isNumber, text, []);
    AheadNothing(Parts(isNumber, text));
  }

  /** Parsing and printing are inverse: a text parses to `parts` iff `parts` is canonical and prints as the text. */
  lemma ProseExact(isNumber: NumberTest, text: string, parts: seq<Part>)
    ensures ProseToParts(isNumber, text) == Success(parts) <==>
            Canonical(isNumber, parts) && Print(isNumber, parts) == text
  {
    ParserIsParts(isNumber, text);
    if Parts(isNumber, text).Success? {
      ParsedPrintsBack(isNumber, text);
    }
    if Canonical(isNumber, parts) && Print(isNumber, parts) == text {
      PrintedParsesBack(isNumber, parts);
    }
  }

  /** A span ends at its first ")", so an argument in parentheses never reaches the nested-form branch:
      no text at all parses to a nested form. */
  lemma SpansNeverNest(isNumber: NumberTest, text: string)
    requires ProseToParts(isNumber, text).Success?
    ensures forall p | p in ProseToParts(isNumber, text).value && p.Span? ::
              p.form.Form? && forall arg | arg in p.form.args :: !arg.Form?
  {
    ProseExact(isNumber, text, ProseToParts(isNumber, text).value);
  }
}
