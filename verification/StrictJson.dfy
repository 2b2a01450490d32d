/**
 Strict JSON (RFC 8259) against the trimming of Json5: no JSON text is changed by it, however deep it
 is nested and wherever its white space stands.

 A JSON text is given as a syntax tree with its white space, and `PrintValue` writes it down.  The
 trees admit a little more than the grammar (any word of letters, digits, signs and points as a
 number or name, any escape in a string), so the result covers every JSON text.
 */
module StrictJson {
  import opened Common
  import opened Json5

  /** Part of a string literal: a character that stands for itself, or one behind a backslash. */
  datatype Piece = Plain(c: char) | Quoted(c: char)

  datatype Value =
    | Word(text: string)                        // a number, true, false or null
    | Literal(pieces: seq<Piece>)
    | Empty(braces: bool, blank: string)
    | Nest(braces: bool, items: Items)          // an object's items have keys, an array's have none

  datatype Items = Last(item: Item) | More(item: Item, rest: Items)

  datatype Item = Item(key: Option<Key>, before: string, value: Value, after: string)

  datatype Key = Key(before: string, pieces: seq<Piece>, after: string)

  /** A whole file. */
  datatype Text = Text(before: string, value: Value, after: string)

  // ----- the grammar

  predicate Blank(s: string) {
    forall i | 0 <= i < |s| :: s[i] == ' ' || s[i] == '\t' || s[i] == '\n' || s[i] == '\r'
  }

  predicate IsWordChar(c: char) {
    'a' <= c <= 'z' || 'A' <= c <= 'Z' || '0' <= c <= '9' || c == '+' || c == '-' || c == '.'
  }

  predicate WellFormedPieces(pieces: seq<Piece>) {
    forall i | 0 <= i < |pieces| :: pieces[i].Plain? ==> pieces[i].c != '"' && pieces[i].c != '\\'
  }

  predicate WellFormed(v: Value) {
    match v
    case Word(text) => text != "" && forall i | 0 <= i < |text| :: IsWordChar(text[i])
    case Literal(pieces) => WellFormedPieces(pieces)
    case Empty(_, blank) => Blank(blank)
    case Nest(braces, items) => WellFormedItems(items, braces)
  }

  predicate WellFormedItems(items: Items, braces: bool) {
    match items
    case Last(item) => WellFormedItem(item, braces)
    case More(item, rest) => WellFormedItem(item, braces) && WellFormedItems(rest, braces)
  }

  predicate WellFormedItem(item: Item, braces: bool) {
    && (item.key.Some? <==> braces)
    && (item.key.Some? ==>
        Blank(item.key.value.before) && WellFormedPieces(item.key.value.pieces) && Blank(item.key.value.after))
    && Blank(item.before) && WellFormed(item.value) && Blank(item.after)
  }

  predicate WellFormedText(t: Text) {
    Blank(t.before) && WellFormed(t.value) && Blank(t.after)
  }

  // ----- printing

  function PrintPieces(pieces: seq<Piece>): string {
    if pieces == [] then ""
    else (if pieces[0].Plain? then [pieces[0].c] else ['\\', pieces[0].c]) + PrintPieces(pieces[1..])
  }

  function PrintLiteral(pieces: seq<Piece>): string {
    ['"'] + (PrintPieces(pieces) + ['"'])
  }

  function Enclosed(braces: bool, inner: string): string {
    [if braces then '{' else '['] + (inner + [if braces then '}' else ']'])
  }

  function PrintValue(v: Value): string {
    match v
    case Word(text) => text
    case Literal(pieces) => PrintLiteral(pieces)
    case Empty(braces, blank) => Enclosed(braces, blank)
    case Nest(braces, items) => Enclosed(braces, PrintItems(items))
  }

  function PrintItems(items: Items): string {
    match items
    case Last(item) => PrintItem(item)
    case More(item, rest) => PrintItem(item) + ([','] + PrintItems(rest))
  }

  function PrintKey(key: Option<Key>): string {
    match key
    case None => ""
    case Some(Key(before, pieces, after)) => before + (PrintLiteral(pieces) + (after + [':']))
  }

  function PrintItem(item: Item): string {
    PrintKey(item.key) + (item.before + (PrintValue(item.value) + item.after))
  }

  function Print(t: Text): string {
    t.before + (PrintValue(t.value) + t.after)
  }

  // ----- a scan that rejects whatever trimming could change

  /** `Comma`: outside strings, with nothing but white space since a comma. */
  datatype Scan = Clear | Comma | Inside | Behind | Bad

  function Step(s: Scan, c: char): Scan {
    match s
    case Inside => if c == '"' then Clear else if c == '\\' then Behind else Inside
    case Behind => Inside
    case Bad => Bad
    case _ =>
      if c == '"' then Inside
      else if c == ',' then Comma
      else if c == '/' || (s.Comma? && (c == '}' || c == ']')) then Bad
      else if s.Comma? && (c == ' ' || c == '\t' || c == '\n' || c == '\r') then Comma
      else Clear
  }

  function ScanTo(s: Scan, text: string, i: nat): Scan
    requires i <= |text|
  {
    if i == 0 then s else Step(ScanTo(s, text, i - 1), text[i - 1])
  }

  function ScanAll(s: Scan, text: string): Scan {
    ScanTo(s, text, |text|)
  }

  lemma {:induction false} ScanPrefix(s: Scan, a: string, b: string, i: nat)
    requires i <= |a|
    ensures ScanTo(s, a + b, i) == ScanTo(s, a, i)
  {
    if i > 0 {
      ScanPrefix(s, a, b, i - 1);
    }
  }

  lemma {:induction false} ScanSuffix(s: Scan, a: string, b: string, j: nat)
    requires j <= |b|
    ensures ScanTo(s, a + b, |a| + j) == ScanTo(ScanAll(s, a), b, j)
  {
    if j == 0 {
      ScanPrefix(s, a, b, |a|);
    } else {
      ScanSuffix(s, a, b, j - 1);
    }
  }

  lemma ScanConcat(s: Scan, a: string, b: string)
    ensures ScanAll(s, a + b) == ScanAll(ScanAll(s, a), b)
  {
    ScanSuffix(s, a, b, |b|);
  }

  lemma ScanOne(s: Scan, c: char)
    ensures ScanAll(s, [c]) == Step(s, c)
  {
    assert ScanTo(s, [c], 0) == s;
  }

  // ----- a text that passes the scan is left alone

  function ModeOf(s: Scan): Mode {
    match s
    case Inside => InString
    case Behind => Escaped
    case _ => Outside
  }

  lemma {:induction false} BadStays(s: Scan, text: string, i: nat, j: nat)
    requires i <= j <= |text| && ScanTo(s, text, i) == Bad
    ensures ScanTo(s, text, j) == Bad
  {
    if i < j {
      BadStays(s, text, i, j - 1);
    }
  }

  lemma {:induction false} ScanFollowsLexer(text: string, i: nat)
    requires i <= |text| && ScanTo(Clear, text, i) != Bad
    ensures ModeOf(ScanTo(Clear, text, i)) == ModeAt(text, i)
  {
    if i > 0 {
      ScanFollowsLexer(text, i - 1);
    }
  }

  /** Behind a comma the scan rejects a closing bracket. */
  lemma {:induction false} CommaThenClose(text: string, i: nat, k: nat)
    requires i <= k < |text| && ScanTo(Clear, text, i) == Comma
    requires (text[k] == '}' || text[k] == ']') && AllWhite(text, i, k)
    ensures ScanAll(Clear, text) == Bad
    decreases k - i
  {
    if i == k {
      BadStays(Clear, text, i + 1, |text|);
    } else {
      assert AllWhite(text, i + 1, k);
      CommaThenClose(text, i + 1, k);
    }
  }

  lemma PassedMeansUnchanged(text: string)
    requires ScanAll(Clear, text) != Bad
    ensures SlashFree(text) && From(text, 0) == text
  {
    forall i | 0 <= i < |text| && ModeAt(text, i) == Outside ensures text[i] != '/' {
      NeverBad(text, i);
      NeverBad(text, i + 1);
      ScanFollowsLexer(text, i);
    }
    SlashFreeTrimmed(text);
    forall i | 0 <= i < |text| ensures Trimmed(text)[i] == text[i] {
      NoPlainTrailingComma(text, i);
    }
  }

  lemma NoPlainTrailingComma(text: string, i: nat)
    requires i < |text| && ScanAll(Clear, text) != Bad
    ensures !PlainTrailingComma(text, i)
  {
    if PlainTrailingComma(text, i) {
      NeverBad(text, i);
      ScanFollowsLexer(text, i);
      var k :| i + 1 <= k < |text| && (text[k] == '}' || text[k] == ']') && AllWhite(text, i + 1, k);
      CommaThenClose(text, i + 1, k);
    }
  }

  lemma NeverBad(text: string, i: nat)
    requires i <= |text| && ScanAll(Clear, text) != Bad
    ensures ScanTo(Clear, text, i) != Bad
  {
    if ScanTo(Clear, text, i) == Bad {
      BadStays(Clear, text, i, |text|);
    }
  }

  // ----- JSON passes the scan

  lemma {:induction false} ScanBlank(s: Scan, text: string, i: nat)
    requires (s.Clear? || s.Comma?) && Blank(text) && i <= |text|
    ensures ScanTo(s, text, i) == s
  {
    if i > 0 {
      ScanBlank(s, text, i - 1);
    }
  }

  lemma {:induction false} ScanWord(s: Scan, text: string, i: nat)
    requires (s.Clear? || s.Comma?) && 0 < i <= |text| && forall k | 0 <= k < |text| :: IsWordChar(text[k])
    ensures ScanTo(s, text, i) == Clear
  {
    if i > 1 {
      ScanWord(s, text, i - 1);
    } else {
      assert ScanTo(s, text, 0) == s;
    }
    assert IsWordChar(text[i - 1]);
  }

  lemma {:induction false} ScanPieces(pieces: seq<Piece>)
    requires WellFormedPieces(pieces)
    ensures ScanAll(Inside, PrintPieces(pieces)) == Inside
  {
    if pieces != [] {
      var p := pieces[0];
      ScanPieces(pieces[1..]);
      var first := if p.Plain? then [p.c] else ['\\', p.c];
      ScanConcat(Inside, first, PrintPieces(pieces[1..]));
      if p.Plain? {
        ScanOne(Inside, p.c);
      } else {
        ScanConcat(Inside, ['\\'], [p.c]);
        ScanOne(Inside, '\\');
        ScanOne(Behind, p.c);
        assert ['\\'] + [p.c] == first;
      }
    }
  }

  lemma ScanLiteral(s: Scan, pieces: seq<Piece>)
    requires (s.Clear? || s.Comma?) && WellFormedPieces(pieces)
    ensures ScanAll(s, PrintLiteral(pieces)) == Clear
  {
    ScanConcat(s, ['"'], PrintPieces(pieces) + ['"']);
    ScanOne(s, '"');
    ScanPieces(pieces);
    ScanConcat(Inside, PrintPieces(pieces), ['"']);
    ScanOne(Inside, '"');
  }

  lemma ScanEnclosed(s: Scan, braces: bool, inner: string)
    requires (s.Clear? || s.Comma?) && ScanAll(Clear, inner) == Clear
    ensures ScanAll(s, Enclosed(braces, inner)) == Clear
  {
    var open, close := if braces then '{' else '[', if braces then '}' else ']';
    ScanConcat(s, [open], inner + [close]);
    ScanOne(s, open);
    ScanConcat(Clear, inner, [close]);
    ScanOne(Clear, close);
  }

  lemma ScanKey(s: Scan, key: Key)
    requires (s.Clear? || s.Comma?) && Blank(key.before) && WellFormedPieces(key.pieces) && Blank(key.after)
    ensures ScanAll(s, PrintKey(Some(key))) == Clear
  {
    var text := PrintLiteral(key.pieces);
    ScanConcat(s, key.before, text + (key.after + [':']));
    ScanBlank(s, key.before, |key.before|);
    ScanConcat(s, text, key.after + [':']);
    ScanLiteral(s, key.pieces);
    ScanConcat(Clear, key.after, [':']);
    ScanBlank(Clear, key.after, |key.after|);
    ScanOne(Clear, ':');
  }

  lemma {:induction false} ScanValue(s: Scan, v: Value)
    requires (s.Clear? || s.Comma?) && WellFormed(v)
    ensures ScanAll(s, PrintValue(v)) == Clear
    decreases v, 0
  {
    match v
    case Word(text) => ScanWord(s, text, |text|);
    case Literal(pieces) => ScanLiteral(s, pieces);
    case Empty(braces, blank) =>
      ScanBlank(Clear, blank, |blank|);
      ScanEnclosed(s, braces, blank);
    case Nest(braces, items) =>
      ScanItems(Clear, items, braces);
      ScanEnclosed(s, braces, PrintItems(items));
  }

  lemma {:induction false} ScanItems(s: Scan, items: Items, braces: bool)
    requires (s.Clear? || s.Comma?) && WellFormedItems(items, braces)
    ensures ScanAll(s, PrintItems(items)) == Clear
    decreases items
  {
    ScanItem(s, items.item, braces);
    if items.More? {
      ScanConcat(s, PrintItem(items.item), [','] + PrintItems(items.rest));
      ScanConcat(Clear, [','], PrintItems(items.rest));
      ScanOne(Clear, ',');
      ScanItems(Comma, items.rest, braces);
    }
  }

  lemma {:induction false} ScanItem(s: Scan, item: Item, braces: bool)
    requires (s.Clear? || s.Comma?) && WellFormedItem(item, braces)
    ensures ScanAll(s, PrintItem(item)) == Clear
    decreases item
  {
    var s' := if braces then Clear else s;
    if braces {
      ScanKey(s, item.key.value);
    }
    ScanConcat(s, PrintKey(item.key), item.before + (PrintValue(item.value) + item.after));
    ScanPadded(s', item.before, item.value, item.after);
  }

  lemma {:induction false} ScanPadded(s: Scan, before: string, v: Value, after: string)
    requires (s.Clear? || s.Comma?) && Blank(before) && WellFormed(v) && Blank(after)
    ensures ScanAll(s, before + (PrintValue(v) + after)) == Clear
    decreases v, 1
  {
    ScanConcat(s, before, PrintValue(v) + after);
    ScanBlank(s, before, |before|);
    ScanConcat(s, PrintValue(v), after);
    ScanValue(s, v);
    ScanBlank(Clear, after, |after|);
  }

  /** `prep` hands every JSON text on as it is: there is nothing in it that looks like a comment or a trailing comma. */
  lemma StrictJsonUnchanged(t: Text)
    requires WellFormedText(t)
    ensures SlashFree(Print(t)) && From(Print(t), 0) == Print(t)
  {
    ScanPadded(Clear, t.before, t.value, t.after);
    PassedMeansUnchanged(Print(t));
  }
}
