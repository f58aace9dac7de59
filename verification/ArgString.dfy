/** The quote-counting argument splitter of QLauncher/xdgdesktopfile.cpp and the printer it inverts. */
module ArgString {
  /** The variables of the loop. */
  datatype Lexer = Lexer(quoteCount: nat, inQuote: bool, tmp: string, args: seq<string>)

  const START := Lexer(0, false, "", [])

  function Flush(tmp: string, args: seq<string>): seq<string> {
    if tmp == "" then args else args + [tmp]
  }

  /** One character; `isSpace` is QChar::isSpace. */
  function Step(s: Lexer, c: char, isSpace: char -> bool): Lexer {
    if c == '"' then
      if s.quoteCount + 1 == 3 then s.(quoteCount := 0, tmp := s.tmp + [c])
      else s.(quoteCount := s.quoteCount + 1)
    else
      var inQuote := if s.quoteCount == 1 then !s.inQuote else s.inQuote;
      if !inQuote && isSpace(c) then Lexer(0, inQuote, "", Flush(s.tmp, s.args))
      else Lexer(0, inQuote, s.tmp + [c], s.args)
  }

  function Run(s: Lexer, text: string, isSpace: char -> bool): Lexer {
    if text == [] then s else Step(Run(s, text[..|text| - 1], isSpace), text[|text| - 1], isSpace)
  }

  function Parse(text: string, isSpace: char -> bool): seq<string> {
    var s := Run(START, text, isSpace);
    Flush(s.tmp, s.args)
  }

  /** parseCombinedArgString. */
  method ParseCombinedArgString(program: string, isSpace: char -> bool) returns (args: seq<string>)
    ensures args == Parse(program, isSpace)
  {
    args := [];
    var tmp, quoteCount, inQuote := "", 0, false;
    var i := 0;
    while i < |program|
      invariant 0 <= i <= |program|
      invariant Lexer(quoteCount, inQuote, tmp, args) == Run(START, program[..i], isSpace)
    {
      var c := program[i];
      assert program[..i + 1][..i] == program[..i];
      i := i + 1;
      if c == '"' {
        quoteCount := quoteCount + 1;
        if quoteCount == 3 {
          quoteCount := 0;
          tmp := tmp + [c];
        }
        continue;
      }
      if quoteCount != 0 {
        if quoteCount == 1 {
          inQuote := !inQuote;
        }
        quoteCount := 0;
      }
      if !inQuote && isSpace(c) {
        if tmp != "" {
          args := args + [tmp];
          tmp := "";
        }
      } else {
        tmp := tmp + [c];
      }
    }
    assert program[..|program|] == program;
    if tmp != "" {
      args := args + [tmp];
    }
  }

  // ---------- printing ----------

  function TripledChar(c: char): string {
    if c == '"' then "\"\"\"" else [c]
  }

  function Tripled(arg: string): string {
    if arg == [] then "" else Tripled(arg[..|arg| - 1]) + TripledChar(arg[|arg| - 1])
  }

  function Quoted(arg: string): string {
    "\"" + Tripled(arg) + "\""
  }

  function Print(args: seq<string>): string {
    if args == [] then ""
    else if |args| == 1 then Quoted(args[0])
    else Print(args[..|args| - 1]) + " " + Quoted(args[|args| - 1])
  }

  function NonEmpty(args: seq<string>): seq<string> {
    if args == [] then [] else Flush(args[|args| - 1], NonEmpty(args[..|args| - 1]))
  }

  // ---------- reading back ----------

  lemma {:induction false} RunAppend(s: Lexer, a: string, b: string, isSpace: char -> bool)
    ensures Run(s, a + b, isSpace) == Run(Run(s, a, isSpace), b, isSpace)
  {
    if b == [] {
      assert a + b == a;
    } else {
      RunAppend(s, a, b[..|b| - 1], isSpace);
      assert (a + b)[..|a + b| - 1] == a + b[..|b| - 1];
    }
  }

  lemma RunOne(s: Lexer, c: char, isSpace: char -> bool)
    ensures Run(s, [c], isSpace) == Step(s, c, isSpace)
  {
    assert [c][..0] == [];
  }

  lemma RunThreeQuotes(s: Lexer, isSpace: char -> bool)
    ensures Run(s, "\"\"\"", isSpace) == Step(Step(Step(s, '"', isSpace), '"', isSpace), '"', isSpace)
  {
    RunAppend(s, "\"\"", "\"", isSpace);
    RunAppend(s, "\"", "\"", isSpace);
    RunOne(s, '"', isSpace);
    RunOne(Step(s, '"', isSpace), '"', isSpace);
    RunOne(Step(Step(s, '"', isSpace), '"', isSpace), '"', isSpace);
    assert "\"" + "\"" == "\"\"" && "\"\"" + "\"" == "\"\"\"";
  }

  predicate AllQuotes(s: string) {
    forall i :: 0 <= i < |s| ==> s[i] == '"'
  }

  /** After the opening quote and `done` of a quoted piece: while only quotes came, the opening one is still
      pending. */
  function Open(base: string, done: string, args: seq<string>): Lexer {
    if AllQuotes(done) then Lexer(1, false, base + done, args) else Lexer(0, true, base + done, args)
  }

  /** After the closing quote. */
  function Closed(base: string, piece: string, args: seq<string>): Lexer {
    if AllQuotes(piece) then Lexer(2, false, base + piece, args) else Lexer(1, true, base + piece, args)
  }

  lemma AllQuotesSnoc(done: string, c: char)
    ensures AllQuotes(done + [c]) <==> AllQuotes(done) && c == '"'
  {
    assert (done + [c])[|done|] == c;
    if AllQuotes(done + [c]) {
      forall i | 0 <= i < |done| ensures done[i] == '"' { assert (done + [c])[i] == done[i]; }
    }
  }

  lemma ReadTripledChar(base: string, done: string, c: char, args: seq<string>, isSpace: char -> bool)
    ensures Run(Open(base, done, args), TripledChar(c), isSpace) == Open(base, done + [c], args)
  {
    AllQuotesSnoc(done, c);
    assert base + (done + [c]) == base + done + [c];
    if c == '"' {
      RunThreeQuotes(Open(base, done, args), isSpace);
    } else {
      RunOne(Open(base, done, args), c, isSpace);
    }
  }

  lemma {:induction false} ReadTripled(base: string, piece: string, args: seq<string>, isSpace: char -> bool)
    ensures Run(Open(base, "", args), Tripled(piece), isSpace) == Open(base, piece, args)
  {
    if piece == [] {
    } else {
      var done, c := piece[..|piece| - 1], piece[|piece| - 1];
      ReadTripled(base, done, args, isSpace);
      RunAppend(Open(base, "", args), Tripled(done), TripledChar(c), isSpace);
      ReadTripledChar(base, done, c, args, isSpace);
      assert piece == done + [c];
    }
  }

  lemma ReadQuoted(base: string, piece: string, args: seq<string>, isSpace: char -> bool)
    ensures Run(Lexer(0, false, base, args), Quoted(piece), isSpace) == Closed(base, piece, args)
  {
    var s := Lexer(0, false, base, args);
    RunOne(s, '"', isSpace);
    RunAppend(s, "\"", Tripled(piece), isSpace);
    assert base + "" == base;
    ReadTripled(base, piece, args, isSpace);
    RunAppend(s, "\"" + Tripled(piece), "\"", isSpace);
    RunOne(Open(base, piece, args), '"', isSpace);
  }

  lemma {:induction false} ReadPrinted(args: seq<string>, isSpace: char -> bool)
    requires args != [] && isSpace(' ')
    ensures Run(START, Print(args), isSpace) == Closed("", args[|args| - 1], NonEmpty(args[..|args| - 1]))
  {
    var last := args[|args| - 1];
    if |args| == 1 {
      assert args[..0] == [];
      ReadQuoted("", last, [], isSpace);
    } else {
      var front := args[..|args| - 1];
      ReadPrinted(front, isSpace);
      RunAppend(START, Print(front), " ", isSpace);
      RunOne(Run(START, Print(front), isSpace), ' ', isSpace);
      RunAppend(START, Print(front) + " ", Quoted(last), isSpace);
      assert "" + front[|front| - 1] == front[|front| - 1];
      ReadQuoted("", last, NonEmpty(front), isSpace);
    }
  }

  /** Reading back what was printed gives the list without its empty arguments. */
  lemma ParsePrint(args: seq<string>, isSpace: char -> bool)
    requires isSpace(' ')
    ensures Parse(Print(args), isSpace) == NonEmpty(args)
  {
    if args != [] {
      ReadPrinted(args, isSpace);
      assert "" + args[|args| - 1] == args[|args| - 1];
    }
  }

  lemma {:induction false} NonEmptyShrinks(args: seq<string>)
    ensures |NonEmpty(args)| <= |args|
  {
    if args == [] {
    } else {
      NonEmptyShrinks(args[..|args| - 1]);
    }
  }

  lemma {:induction false} NonEmptyDrops(args: seq<string>, i: nat)
    requires i < |args| && args[i] == ""
    ensures |NonEmpty(args)| < |args|
  {
    var n := |args| - 1;
    NonEmptyShrinks(args[..n]);
    if i < n {
      NonEmptyDrops(args[..n], i);
    }
  }

  lemma {:induction false} NonEmptyExact(args: seq<string>)
    requires forall i :: 0 <= i < |args| ==> args[i] != ""
    ensures NonEmpty(args) == args
  {
    if args == [] {
    } else {
      NonEmptyExact(args[..|args| - 1]);
    }
  }

  lemma NonEmptyKeeps(args: seq<string>)
    ensures NonEmpty(args) == args <==> forall i :: 0 <= i < |args| ==> args[i] != ""
  {
    if i :| 0 <= i < |args| && args[i] == "" {
      NonEmptyDrops(args, i);
    } else {
      NonEmptyExact(args);
    }
  }

  /** The round trip is exact precisely for lists without empty arguments. */
  lemma RoundTripExactly(args: seq<string>, isSpace: char -> bool)
    requires isSpace(' ')
    ensures Parse(Print(args), isSpace) == args <==> forall i :: 0 <= i < |args| ==> args[i] != ""
  {
    ParsePrint(args, isSpace);
    NonEmptyKeeps(args);
  }

  /** An empty argument is lost. */
  lemma EmptyArgumentLost(isSpace: char -> bool)
    requires isSpace(' ')
    ensures Parse(Print([""]), isSpace) == []
  {
    ParsePrint([""], isSpace);
    assert [""][..0] == [];
  }

  // ---------- words with and without quotes ----------

  function Quotes(n: nat): string {
    if n == 0 then "" else Quotes(n - 1) + "\""
  }

  function AfterQuotes(s: Lexer, n: nat, isSpace: char -> bool): Lexer {
    if n == 0 then s else Step(AfterQuotes(s, n - 1, isSpace), '"', isSpace)
  }

  lemma {:induction false} RunQuotes(s: Lexer, n: nat, isSpace: char -> bool)
    ensures Run(s, Quotes(n), isSpace) == AfterQuotes(s, n, isSpace)
  {
    if n == 0 {
    } else {
      RunQuotes(s, n - 1, isSpace);
      RunAppend(s, Quotes(n - 1), "\"", isSpace);
      RunOne(Run(s, Quotes(n - 1), isSpace), '"', isSpace);
    }
  }

  lemma OneMoreQuote(tmp: string, m: nat)
    ensures tmp + Quotes(m + 1) == tmp + Quotes(m) + ['"']
  {
  }

  lemma {:induction false} QuotesCount(s: Lexer, m: nat, k: nat, isSpace: char -> bool)
    requires s.quoteCount == 0 && k < 3
    ensures AfterQuotes(s, 3 * m + k, isSpace) == s.(quoteCount := k, tmp := s.tmp + Quotes(m))
    decreases m, k
  {
    if k > 0 {
      QuotesCount(s, m, k - 1, isSpace);
    } else if m > 0 {
      QuotesCount(s, m - 1, 2, isSpace);
      OneMoreQuote(s.tmp, m - 1);
    } else {
      assert s.tmp + Quotes(0) == s.tmp;
    }
  }

  /** Of a run of quotes every third is a character of the argument; one or two may stay pending. */
  lemma QuoteRun(s: Lexer, m: nat, k: nat, isSpace: char -> bool)
    requires s.quoteCount == 0 && k < 3
    ensures Run(s, Quotes(3 * m + k), isSpace) == s.(quoteCount := k, tmp := s.tmp + Quotes(m))
  {
    RunQuotes(s, 3 * m + k, isSpace);
    QuotesCount(s, m, k, isSpace);
  }

  /** A word is made of bare and of quoted pieces, as in a"b c"d. */
  datatype Piece = Bare(text: string) | InQuotes(text: string)

  type Word = seq<Piece>

  ghost predicate IsBare(text: string, isSpace: char -> bool) {
    text != "" && forall i :: 0 <= i < |text| ==> text[i] != '"' && !isSpace(text[i])
  }

  /** Bare pieces hold neither quotes nor spaces, and one stands between any two quoted pieces. */
  ghost predicate IsWord(w: Word, isSpace: char -> bool) {
    && (forall i :: 0 <= i < |w| && w[i].Bare? ==> IsBare(w[i].text, isSpace))
    && (forall i :: 0 < i < |w| && w[i].InQuotes? ==> w[i - 1].Bare?)
  }

  function PieceText(p: Piece): string {
    if p.Bare? then p.text else Quoted(p.text)
  }

  function WordText(w: Word): string {
    if w == [] then "" else WordText(w[..|w| - 1]) + PieceText(w[|w| - 1])
  }

  /** The argument that a word stands for. */
  function Meaning(w: Word): string {
    if w == [] then "" else Meaning(w[..|w| - 1]) + w[|w| - 1].text
  }

  ghost predicate IsGap(gap: string, isSpace: char -> bool) {
    forall i :: 0 <= i < |gap| ==> gap[i] != '"' && isSpace(gap[i])
  }

  /** Words with gaps before them. */
  function Spaced(gaps: seq<string>, words: seq<Word>): string
    requires |gaps| == |words|
  {
    if words == [] then ""
    else
      var n := |words| - 1;
      Spaced(gaps[..n], words[..n]) + gaps[n] + WordText(words[n])
  }

  function Meanings(words: seq<Word>): seq<string> {
    if words == [] then [] else Meanings(words[..|words| - 1]) + [Meaning(words[|words| - 1])]
  }

  /** No quote is open, whatever is still pending. */
  predicate AtRest(s: Lexer, tmp: string, args: seq<string>) {
    s.quoteCount < 3 && (s.inQuote <==> s.quoteCount == 1) && s.tmp == tmp && s.args == args
  }

  lemma {:induction false} ReadBare(s: Lexer, tmp: string, args: seq<string>, text: string, isSpace: char -> bool)
    requires AtRest(s, tmp, args) && IsBare(text, isSpace)
    ensures Run(s, text, isSpace) == Lexer(0, false, tmp + text, args)
  {
    var n := |text| - 1;
    if n == 0 {
      RunOne(s, text[0], isSpace);
      assert text == [text[0]];
    } else {
      ReadBare(s, tmp, args, text[..n], isSpace);
      assert tmp + text[..n] + [text[n]] == tmp + text;
    }
  }

  lemma {:induction false} ReadGap(s: Lexer, tmp: string, args: seq<string>, gap: string, isSpace: char -> bool)
    requires AtRest(s, tmp, args) && IsGap(gap, isSpace) && gap != ""
    ensures Run(s, gap, isSpace) == Lexer(0, false, "", Flush(tmp, args))
  {
    var n := |gap| - 1;
    if n == 0 {
      RunOne(s, gap[0], isSpace);
      assert gap == [gap[0]];
    } else {
      ReadGap(s, tmp, args, gap[..n], isSpace);
    }
  }

  lemma {:induction false} ReadWord(args: seq<string>, w: Word, isSpace: char -> bool)
    requires IsWord(w, isSpace)
    ensures AtRest(Run(Lexer(0, false, "", args), WordText(w), isSpace), Meaning(w), args)
    ensures w == [] || w[|w| - 1].Bare? ==>
              Run(Lexer(0, false, "", args), WordText(w), isSpace) == Lexer(0, false, Meaning(w), args)
  {
    var s := Lexer(0, false, "", args);
    if w == [] {
    } else {
      var front, p := w[..|w| - 1], w[|w| - 1];
      ReadWord(args, front, isSpace);
      RunAppend(s, WordText(front), PieceText(p), isSpace);
      if p.Bare? {
        ReadBare(Run(s, WordText(front), isSpace), Meaning(front), args, p.text, isSpace);
      } else {
        assert front != [] ==> w[|w| - 2].Bare?;
        ReadQuoted(Meaning(front), p.text, args, isSpace);
      }
    }
  }

  ghost predicate AreWords(gaps: seq<string>, words: seq<Word>, isSpace: char -> bool) {
    && |gaps| == |words|
    && (forall i :: 0 <= i < |words| ==> IsWord(words[i], isSpace) && IsGap(gaps[i], isSpace))
    && (forall i :: 0 < i < |words| ==> gaps[i] != "")
  }

  lemma ReadNext(s: Lexer, tmp: string, args: seq<string>, gap: string, w: Word, isSpace: char -> bool)
    requires AtRest(s, tmp, args) && IsGap(gap, isSpace) && IsWord(w, isSpace)
    requires gap != "" || s == Lexer(0, false, "", args)
    ensures AtRest(Run(s, gap + WordText(w), isSpace), Meaning(w), Flush(tmp, args))
  {
    RunAppend(s, gap, WordText(w), isSpace);
    if gap != "" {
      ReadGap(s, tmp, args, gap, isSpace);
    }
    ReadWord(Flush(tmp, args), w, isSpace);
  }

  function LastMeaning(words: seq<Word>): string {
    if words == [] then "" else Meaning(words[|words| - 1])
  }

  function Before(words: seq<Word>): seq<string> {
    if words == [] then [] else NonEmpty(Meanings(words[..|words| - 1]))
  }

  lemma NonEmptySnoc(words: seq<Word>)
    ensures Flush(LastMeaning(words), Before(words)) == NonEmpty(Meanings(words))
  {
    if words != [] {
      var n := |words| - 1;
      assert Meanings(words)[..n] == Meanings(words[..n]) by { MeaningsLength(words[..n]); }
      MeaningsLength(words[..n]);
    }
  }

  lemma {:induction false} MeaningsLength(words: seq<Word>)
    ensures |Meanings(words)| == |words|
  {
    if words == [] {
    } else {
      MeaningsLength(words[..|words| - 1]);
    }
  }

  lemma {:induction false} ReadSpaced(gaps: seq<string>, words: seq<Word>, isSpace: char -> bool)
    requires AreWords(gaps, words, isSpace)
    ensures AtRest(Run(START, Spaced(gaps, words), isSpace), LastMeaning(words), Before(words))
    ensures words == [] ==> Run(START, Spaced(gaps, words), isSpace) == START
  {
    if words == [] {
    } else {
      var n := |words| - 1;
      var text := Spaced(gaps[..n], words[..n]);
      ReadSpaced(gaps[..n], words[..n], isSpace);
      NonEmptySnoc(words[..n]);
      RunAppend(START, text, gaps[n] + WordText(words[n]), isSpace);
      assert Spaced(gaps, words) == text + (gaps[n] + WordText(words[n]));
      ReadNext(Run(START, text, isSpace), LastMeaning(words[..n]), Before(words[..n]), gaps[n], words[n], isSpace);
    }
  }

  /** Words with spaces before, between and after them are read as the arguments they stand for, without the empty
      ones, whatever mixture of bare and quoted pieces they are made of. */
  lemma ParseWords(gaps: seq<string>, words: seq<Word>, trail: string, isSpace: char -> bool)
    requires AreWords(gaps, words, isSpace) && IsGap(trail, isSpace)
    ensures Parse(Spaced(gaps, words) + trail, isSpace) == NonEmpty(Meanings(words))
  {
    var text := Spaced(gaps, words);
    ReadSpaced(gaps, words, isSpace);
    RunAppend(START, text, trail, isSpace);
    NonEmptySnoc(words);
    if trail != "" {
      ReadGap(Run(START, text, isSpace), LastMeaning(words), Before(words), trail, isSpace);
    }
  }

  function Plain(gaps: seq<string>, texts: seq<string>): string
    requires |gaps| == |texts|
  {
    if texts == [] then ""
    else
      var n := |texts| - 1;
      Plain(gaps[..n], texts[..n]) + gaps[n] + texts[n]
  }

  function BareWords(texts: seq<string>): (words: seq<Word>)
    ensures |words| == |texts| && forall i :: 0 <= i < |texts| ==> words[i] == [Bare(texts[i])]
  {
    seq(|texts|, i requires 0 <= i < |texts| => [Bare(texts[i])])
  }

  lemma OneBare(text: string)
    ensures WordText([Bare(text)]) == text && Meaning([Bare(text)]) == text
  {
    var w := [Bare(text)];
    assert w[..0] == [];
    assert "" + text == text;
  }

  lemma {:induction false} PlainIsSpaced(gaps: seq<string>, texts: seq<string>)
    requires |gaps| == |texts|
    ensures Spaced(gaps, BareWords(texts)) == Plain(gaps, texts)
  {
    if texts == [] {
    } else {
      var n := |texts| - 1;
      PlainIsSpaced(gaps[..n], texts[..n]);
      OneBare(texts[n]);
      assert BareWords(texts)[..n] == BareWords(texts[..n]);
    }
  }

  lemma MeaningsSnoc(words: seq<Word>, w: Word)
    ensures Meanings(words + [w]) == Meanings(words) + [Meaning(w)]
  {
    assert (words + [w])[..|words|] == words;
  }

  lemma {:induction false} BareMeanings(texts: seq<string>)
    ensures Meanings(BareWords(texts)) == texts
  {
    if texts == [] {
    } else {
      var n := |texts| - 1;
      BareMeanings(texts[..n]);
      assert BareWords(texts) == BareWords(texts[..n]) + [[Bare(texts[n])]];
      MeaningsSnoc(BareWords(texts[..n]), [Bare(texts[n])]);
      assert Meaning([Bare(texts[n])]) == texts[n] by { OneBare(texts[n]); }
      assert texts == texts[..n] + [texts[n]];
    }
  }

  lemma BareAreWords(gaps: seq<string>, texts: seq<string>, isSpace: char -> bool)
    requires |gaps| == |texts|
    requires forall i :: 0 <= i < |texts| ==> IsBare(texts[i], isSpace) && IsGap(gaps[i], isSpace)
    requires forall i :: 0 < i < |texts| ==> gaps[i] != ""
    ensures AreWords(gaps, BareWords(texts), isSpace)
  {
    forall i | 0 <= i < |texts|
      ensures IsWord(BareWords(texts)[i], isSpace)
    {
      assert BareWords(texts)[i] == [Bare(texts[i])];
    }
  }

  /** In particular plain words come out exactly as they are written. */
  lemma ParsePlain(gaps: seq<string>, texts: seq<string>, trail: string, isSpace: char -> bool)
    requires |gaps| == |texts| && IsGap(trail, isSpace)
    requires forall i :: 0 <= i < |texts| ==> IsBare(texts[i], isSpace) && IsGap(gaps[i], isSpace)
    requires forall i :: 0 < i < |texts| ==> gaps[i] != ""
    ensures Parse(Plain(gaps, texts) + trail, isSpace) == texts
  {
    PlainIsSpaced(gaps, texts);
    BareMeanings(texts);
    BareAreWords(gaps, texts, isSpace);
    ParseWords(gaps, BareWords(texts), trail, isSpace);
    NonEmptyKeeps(texts);
  }
}
