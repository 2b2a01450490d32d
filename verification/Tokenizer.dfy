/**
 Splitting a listed firewall rule into its arguments: `tokenizeRule` (common/porthop/porthop.go).

 The partner is printing: how `iptables -S` spells an argument list.  A `Style` leaves open which
 characters a printer considers plain and which it escapes, as long as an argument printed bare
 holds no space, quote or backslash, and quotes and backslashes are escaped inside quotes.  Beyond what a
 printer writes, every text is a line of blanks and words, and is read as those words.
 */
module Tokenizer {

  // ----- the scan

  /** The variables of the loop. */
  datatype Scan = Scan(tokens: seq<string>, current: string, quoted: bool, escaped: bool, started: bool)

  const FRESH := Scan([], "", false, false, false)

  function Feed(s: Scan, r: char): Scan {
    if s.escaped then s.(current := s.current + [r], escaped := false)
    else if r == '\\' then s.(escaped := true, started := true)
    else if r == '"' then s.(quoted := !s.quoted, started := true)
    else if r == ' ' && !s.quoted then
      if s.started then Scan(s.tokens + [s.current], "", s.quoted, s.escaped, false) else s
    else s.(current := s.current + [r], started := true)
  }

  function FeedAll(s: Scan, line: string): Scan
    decreases |line|
  {
    if line == "" then s else FeedAll(Feed(s, line[0]), line[1..])
  }

  function Tokenize(line: string): seq<string> {
    var s := FeedAll(FRESH, line);
    if s.started then s.tokens + [s.current] else s.tokens
  }

  lemma FeedOne(s: Scan, r: char)
    ensures FeedAll(s, [r]) == Feed(s, r)
  {
    assert [r][1..] == "";
  }

  lemma {:induction false} FeedConcat(s: Scan, a: string, b: string)
    ensures FeedAll(s, a + b) == FeedAll(FeedAll(s, a), b)
    decreases |a|
  {
    if a == "" {
      assert a + b == b;
    } else {
      assert (a + b)[1..] == a[1..] + b;
      FeedConcat(Feed(s, a[0]), a[1..], b);
    }
  }

  /** `tokenizeRule`: however the line is written, what is read is its words. */
  method TokenizeRule(line: string) returns (tokens: seq<string>)
    ensures tokens == Tokenize(line)
    ensures forall l: Line | Fits(l) && LineText(l) == line :: tokens == Words(l)
  {
    forall l: Line | Fits(l) && LineText(l) == line ensures Tokenize(line) == Words(l) {
      TokenizeReadsWords(l);
    }
    tokens := [];
    var current, quoted, escaped, started := "", false, false, false;
    for i := 0 to |line|
      invariant Scan(tokens, current, quoted, escaped, started) == FeedAll(FRESH, line[..i])
    {
      var r := line[i];
      FeedConcat(FRESH, line[..i], [r]);
      assert line[..i + 1] == line[..i] + [r];
      FeedOne(FeedAll(FRESH, line[..i]), r);
      if escaped {
        current := current + [r];
        escaped := false;
      } else if r == '\\' {
        escaped := true;
        started := true;
      } else if r == '"' {
        quoted := !quoted;
        started := true;
      } else if r == ' ' && !quoted {
        if started {
          tokens := tokens + [current];
          current := "";
          started := false;
        }
      } else {
        current := current + [r];
        started := true;
      }
    }
    assert line[..|line|] == line;
    if started {
      tokens := tokens + [current];
    }
  }

  // ----- printing

  datatype Style = Style(plain: char -> bool, escapes: char -> bool) {
    ghost predicate Sound() {
      && (forall c :: plain(c) ==> c != ' ' && c != '"' && c != '\\')
      && escapes('"') && escapes('\\')
    }
  }

  predicate Bare(st: Style, arg: string) {
    arg != "" && forall i | 0 <= i < |arg| :: st.plain(arg[i])
  }

  function Escape(st: Style, arg: string): string {
    if arg == "" then ""
    else (if st.escapes(arg[0]) then ['\\', arg[0]] else [arg[0]]) + Escape(st, arg[1..])
  }

  function PrintArg(st: Style, arg: string): string {
    if Bare(st, arg) then arg else ['"'] + Escape(st, arg) + ['"']
  }

  function Print(st: Style, args: seq<string>): string {
    if args == [] then ""
    else if |args| == 1 then PrintArg(st, args[0])
    else PrintArg(st, args[0]) + " " + Print(st, args[1..])
  }

  // ----- tokenizing undoes printing

  lemma {:induction false} FeedBare(st: Style, s: Scan, arg: string)
    requires st.Sound() && !s.quoted && !s.escaped && forall i | 0 <= i < |arg| :: st.plain(arg[i])
    ensures FeedAll(s, arg) == s.(current := s.current + arg, started := s.started || arg != "")
    decreases |arg|
  {
    if arg == "" {
      assert s.current + arg == s.current;
    } else {
      assert st.plain(arg[0]);
      FeedBare(st, Feed(s, arg[0]), arg[1..]);
      assert s.current + [arg[0]] + arg[1..] == s.current + arg;
    }
  }

  lemma FeedRune(st: Style, s: Scan, c: char)
    requires st.Sound() && s.quoted && !s.escaped && s.started
    ensures FeedAll(s, if st.escapes(c) then ['\\', c] else [c]) == s.(current := s.current + [c])
  {
    FeedOne(s, c);
    FeedOne(s, '\\');
    FeedOne(Feed(s, '\\'), c);
    FeedConcat(s, ['\\'], [c]);
    assert ['\\'] + [c] == ['\\', c];
  }

  lemma {:induction false} FeedEscaped(st: Style, s: Scan, arg: string)
    requires st.Sound() && s.quoted && !s.escaped && s.started
    ensures FeedAll(s, Escape(st, arg)) == s.(current := s.current + arg)
    decreases |arg|
  {
    if arg == "" {
      assert s.current + arg == s.current;
    } else {
      var c := arg[0];
      var head := if st.escapes(c) then ['\\', c] else [c];
      var s' := s.(current := s.current + [c]);
      FeedRune(st, s, c);
      FeedConcat(s, head, Escape(st, arg[1..]));
      FeedEscaped(st, s', arg[1..]);
      assert s.current + [c] + arg[1..] == s.current + arg;
    }
  }

  /** After a printed argument the scan has read exactly that argument. */
  lemma FeedPrinted(st: Style, tokens: seq<string>, arg: string)
    requires st.Sound()
    ensures FeedAll(Scan(tokens, "", false, false, false), PrintArg(st, arg)) == Scan(tokens, arg, false, false, true)
  {
    var s := Scan(tokens, "", false, false, false);
    assert "" + arg == arg;
    if Bare(st, arg) {
      FeedBare(st, s, arg);
    } else {
      var s1 := Scan(tokens, "", true, false, true);
      var q := ['"'];
      assert q[1..] == "";
      assert FeedAll(s, q) == s1;
      FeedConcat(s, q, Escape(st, arg));
      FeedEscaped(st, s1, arg);
      FeedConcat(s, q + Escape(st, arg), q);
    }
  }

  /** A space after a printed argument completes it. */
  lemma FeedPrintedSpace(st: Style, tokens: seq<string>, arg: string, rest: string)
    requires st.Sound()
    ensures FeedAll(Scan(tokens, "", false, false, false), PrintArg(st, arg) + " " + rest)
         == FeedAll(Scan(tokens + [arg], "", false, false, false), rest)
  {
    var s := Scan(tokens, "", false, false, false);
    var p := PrintArg(st, arg);
    FeedPrinted(st, tokens, arg);
    FeedConcat(s, p, " ");
    FeedOne(FeedAll(s, p), ' ');
    FeedConcat(s, p + " ", rest);
  }

  /** Scanning a text after some tokens gives these tokens in all. */
  ghost predicate Yields(tokens: seq<string>, text: string, all: seq<string>) {
    var s := FeedAll(Scan(tokens, "", false, false, false), text);
    s.started && s.tokens + [s.current] == all
  }

  lemma YieldsLonger(st: Style, tokens: seq<string>, first: string, rest: string, all: seq<string>)
    requires st.Sound() && Yields(tokens + [first], rest, all)
    ensures Yields(tokens, PrintArg(st, first) + " " + rest, all)
  {
    FeedPrintedSpace(st, tokens, first, rest);
  }

  lemma {:induction false} ListYieldsItself(st: Style, tokens: seq<string>, args: seq<string>)
    requires st.Sound() && args != []
    ensures Yields(tokens, Print(st, args), tokens + args)
    decreases |args|
  {
    if |args| == 1 {
      FeedPrinted(st, tokens, args[0]);
      assert args == [args[0]];
    } else {
      ListYieldsItself(st, tokens + [args[0]], args[1..]);
      Prepended(tokens, args[0], args[1..]);
      assert [args[0]] + args[1..] == args;
      YieldsLonger(st, tokens, args[0], Print(st, args[1..]), tokens + args);
    }
  }

  /** For every printer style and every argument list, also empty and quote-bearing arguments. */
  lemma TokenizeUndoesPrint(st: Style, args: seq<string>)
    requires st.Sound()
    ensures Tokenize(Print(st, args)) == args
  {
    if args != [] {
      ListYieldsItself(st, [], args);
      assert [] + args == args;
    }
  }

  // ----- every line is read as words

  /** How one character of a word may be written; a quote opens or closes, and writes nothing. */
  datatype Bit =
    | Lit(c: char)
    | Esc(c: char)       // behind a backslash
    | Quote
    | Dangling           // a backslash at the end of the line

  /** A line: blanks and words in turn. */
  datatype Line =
    | End(blanks: nat)
    | Word(blanks: nat, bits: seq<Bit>, rest: Line)

  function BitText(b: Bit): string {
    match b
    case Lit(c) => [c]
    case Esc(c) => ['\\', c]
    case Quote => ['"']
    case Dangling => ['\\']
  }

  function BitsText(bits: seq<Bit>): string {
    if bits == [] then "" else BitText(bits[0]) + BitsText(bits[1..])
  }

  /** What a word says. */
  function Meaning(bits: seq<Bit>): string {
    if bits == [] then ""
    else Says(bits[0]) + Meaning(bits[1..])
  }

  function Says(b: Bit): string {
    match b
    case Lit(c) => [c]
    case Esc(c) => [c]
    case _ => ""
  }

  /** The quotes are open after the word. */
  function Open(bits: seq<Bit>, quoted: bool): bool {
    if bits == [] then quoted else Open(bits[1..], if bits[0].Quote? then !quoted else quoted)
  }

  predicate Dangles(bits: seq<Bit>) {
    bits != [] && bits[|bits| - 1].Dangling?
  }

  /** A blank stands for itself only inside quotes; quotes and backslashes never do. */
  predicate FitsBits(bits: seq<Bit>, quoted: bool) {
    if bits == [] then true
    else
      && (bits[0].Lit? ==> bits[0].c != '"' && bits[0].c != '\\' && (bits[0].c == ' ' ==> quoted))
      && (bits[0].Dangling? ==> |bits| == 1)
      && FitsBits(bits[1..], if bits[0].Quote? then !quoted else quoted)
  }

  predicate Closed(bits: seq<Bit>) {
    !Open(bits, false) && !Dangles(bits)
  }

  /** Words are not empty as text; behind one that is not closed the line ends. */
  predicate Fits(line: Line) {
    match line
    case End(_) => true
    case Word(_, bits, rest) =>
      && bits != [] && FitsBits(bits, false) && Fits(rest)
      && (rest.Word? ==> rest.blanks > 0) && (!Closed(bits) ==> rest == End(0))
  }

  function Blanks(n: nat): string {
    if n == 0 then "" else " " + Blanks(n - 1)
  }

  function LineText(line: Line): string {
    match line
    case End(n) => Blanks(n)
    case Word(n, bits, rest) => Blanks(n) + (BitsText(bits) + LineText(rest))
  }

  function Words(line: Line): seq<string> {
    match line
    case End(_) => []
    case Word(_, bits, rest) => [Meaning(bits)] + Words(rest)
  }

  function WordCount(line: Line): nat {
    match line
    case End(_) => 0
    case Word(_, _, rest) => 1 + WordCount(rest)
  }

  function Fresh(tokens: seq<string>): Scan {
    Scan(tokens, "", false, false, false)
  }

  /** What the scan returns if the line ends here. */
  function Final(s: Scan): seq<string> {
    if s.started then s.tokens + [s.current] else s.tokens
  }

  lemma {:induction false} FeedBlanks(tokens: seq<string>, n: nat)
    ensures FeedAll(Fresh(tokens), Blanks(n)) == Fresh(tokens)
  {
    if n > 0 {
      FeedBlanks(tokens, n - 1);
      FeedConcat(Fresh(tokens), " ", Blanks(n - 1));
      FeedOne(Fresh(tokens), ' ');
    }
  }

  lemma FeedBit(s: Scan, b: Bit)
    requires !s.escaped && FitsBits([b], s.quoted)
    ensures FeedAll(s, BitText(b)) ==
              Scan(s.tokens, s.current + Says(b), if b.Quote? then !s.quoted else s.quoted, b.Dangling?, true)
  {
    assert s.current + "" == s.current;
    match b
    case Lit(c) => FeedOne(s, c);
    case Esc(c) =>
      FeedConcat(s, ['\\'], [c]);
      FeedOne(s, '\\');
      FeedOne(Feed(s, '\\'), c);
      assert ['\\'] + [c] == ['\\', c];
    case Quote => FeedOne(s, '"');
    case Dangling => FeedOne(s, '\\');
  }

  lemma SaysThenMeaning(current: string, bits: seq<Bit>)
    requires bits != []
    ensures current + Says(bits[0]) + Meaning(bits[1..]) == current + Meaning(bits)
  {
  }

  lemma DanglesBehind(bits: seq<Bit>)
    requires bits != []
    ensures Dangles(bits) == if |bits| == 1 then bits[0].Dangling? else Dangles(bits[1..])
  {
  }

  /** A word is read as it is meant. */
  lemma {:induction false} FeedBits(s: Scan, bits: seq<Bit>)
    requires !s.escaped && FitsBits(bits, s.quoted) && bits != []
    ensures FeedAll(s, BitsText(bits)) ==
              Scan(s.tokens, s.current + Meaning(bits), Open(bits, s.quoted), Dangles(bits), true)
    decreases |bits|
  {
    var b, rest := bits[0], bits[1..];
    var s' := Scan(s.tokens, s.current + Says(b), if b.Quote? then !s.quoted else s.quoted, b.Dangling?, true);
    FeedBit(s, b);
    FeedConcat(s, BitText(b), BitsText(rest));
    SaysThenMeaning(s.current, bits);
    DanglesBehind(bits);
    if rest == [] {
      assert s'.current + "" == s'.current;
    } else {
      FeedBits(s', rest);
    }
  }

  /** Behind a closed word a blank completes it. */
  lemma FeedBlankAfter(tokens: seq<string>, word: string)
    ensures FeedAll(Scan(tokens, word, false, false, true), " ") == Fresh(tokens + [word])
  {
    FeedOne(Scan(tokens, word, false, false, true), ' ');
  }

  lemma {:induction false} LineYieldsWords(tokens: seq<string>, line: Line)
    requires Fits(line)
    ensures Final(FeedAll(Fresh(tokens), LineText(line))) == tokens + Words(line)
    decreases WordCount(line), 1
  {
    FeedBlanks(tokens, line.blanks);
    if line.Word? {
      var text, rest := BitsText(line.bits), line.rest;
      var s := Scan(tokens, Meaning(line.bits), Open(line.bits, false), Dangles(line.bits), true);
      FeedConcat(Fresh(tokens), Blanks(line.blanks), text + LineText(rest));
      FeedConcat(Fresh(tokens), text, LineText(rest));
      FeedBits(Fresh(tokens), line.bits);
      assert "" + Meaning(line.bits) == Meaning(line.bits);
      assert FeedAll(Fresh(tokens), text) == s;
      WordThenRest(tokens, line);
    } else {
      assert tokens + [] == tokens;
    }
  }

  /** The line with another number of blanks in front. */
  function Shifted(line: Line, blanks: nat): Line {
    if line.End? then End(blanks) else Word(blanks, line.bits, line.rest)
  }

  lemma OneBlankMore(line: Line)
    ensures var more := Shifted(line, line.blanks + 1);
      && LineText(more) == " " + LineText(line) && Words(more) == Words(line) && WordCount(more) == WordCount(line)
      && Fits(more) == Fits(line)
  {
    if line.Word? {
      var text := BitsText(line.bits) + LineText(line.rest);
      assert " " + Blanks(line.blanks) + text == " " + (Blanks(line.blanks) + text);
    }
  }

  lemma Prepended(tokens: seq<string>, word: string, words: seq<string>)
    ensures tokens + [word] + words == tokens + ([word] + words)
  {
  }

  lemma {:induction false} WordThenRest(tokens: seq<string>, line: Line)
    requires line.Word? && Fits(line)
    ensures var s := Scan(tokens, Meaning(line.bits), Open(line.bits, false), Dangles(line.bits), true);
      Final(FeedAll(s, LineText(line.rest))) == tokens + Words(line)
    decreases WordCount(line), 0
  {
    var word, rest := Meaning(line.bits), line.rest;
    var s := Scan(tokens, word, Open(line.bits, false), Dangles(line.bits), true);
    if rest == End(0) {
      assert Words(line) == [word];
    } else {
      var fewer := Shifted(rest, rest.blanks - 1);
      OneBlankMore(fewer);
      FeedConcat(s, " ", LineText(fewer));
      FeedBlankAfter(tokens, word);
      LineYieldsWords(tokens + [word], fewer);
      Prepended(tokens, word, Words(rest));
    }
  }

  /** However a line is written, it is read as its words. */
  lemma TokenizeReadsWords(line: Line)
    requires Fits(line)
    ensures Tokenize(LineText(line)) == Words(line)
  {
    LineYieldsWords([], line);
    assert [] + Words(line) == Words(line);
  }

  /** The first word of a text, which may stand inside quotes, and its length. */
  lemma {:induction false} FirstWord(text: string, quoted: bool) returns (bits: seq<Bit>, k: nat)
    ensures k <= |text| && BitsText(bits) == text[..k] && FitsBits(bits, quoted)
    ensures k < |text| ==> text[k] == ' ' && !Open(bits, quoted) && !Dangles(bits)
    ensures text != "" && (text[0] != ' ' || quoted) ==> k > 0 && bits != []
    decreases |text|
  {
    if text == "" || (text[0] == ' ' && !quoted) {
      return [], 0;
    }
    var b :=
      if text[0] == '\\' then (if |text| == 1 then Dangling else Esc(text[1]))
      else if text[0] == '"' then Quote
      else Lit(text[0]);
    var n := |BitText(b)|;
    assert BitText(b) == text[..n];
    var more, m := FirstWord(text[n..], if b.Quote? then !quoted else quoted);
    bits, k := [b] + more, n + m;
    Joined(text, n, m);
    assert bits[1..] == more;
    DanglesBehind(bits);
    assert b.Dangling? ==> text[n..] == "" && more == [] by {
      if b.Dangling? && more != [] {
        BitsNotEmpty(more);
      }
    }
  }

  lemma Joined(text: string, n: nat, m: nat)
    requires n + m <= |text|
    ensures text[..n + m] == text[..n] + text[n..][..m] && (n + m < |text| ==> text[n + m] == text[n..][m])
  {
  }

  lemma BitsNotEmpty(bits: seq<Bit>)
    requires bits != []
    ensures BitsText(bits) != ""
  {
  }

  /** And every text is such a line, so that this says what is read out of any text. */
  lemma {:induction false} EveryTextIsALine(text: string) returns (line: Line)
    ensures Fits(line) && LineText(line) == text
    ensures (text == "" ==> line == End(0)) && (text != "" && text[0] == ' ' ==> line.blanks > 0)
    decreases |text|
  {
    if text == "" {
      line := End(0);
    } else if text[0] == ' ' {
      var rest := EveryTextIsALine(text[1..]);
      line := Shifted(rest, rest.blanks + 1);
      OneBlankMore(rest);
      assert text == " " + text[1..];
    } else {
      var bits, k := FirstWord(text, false);
      var rest := EveryTextIsALine(text[k..]);
      line := Word(0, bits, rest);
      assert text == text[..k] + text[k..];
      assert "" + (BitsText(bits) + LineText(rest)) == text;
    }
  }
}
