/**
 The trimming of comments and trailing commas before a config is parsed (`prep` and
 `consumeComment`, common/json5/json5.go).  A byte is a `char`.

 The reference is a lexer of JSON with comments, where strings stand in double quotes, and says of every
 byte whether it goes.  On any input the buffer keeps its length and bytes only ever turn into spaces, so offsets in
 the trimmed text are offsets in the file.  `prep` gives what the reference says exactly when, in every
 block comment, each star is followed by the closing slash or by a space: the scan steps over the byte
 behind a star without looking at it.
 */
module Json5 {

  // ----- the reference, on literal characters

  datatype Mode =
    | Outside
    | InString
    | Escaped        // behind a backslash in a string
    | InLine         // in a line comment, behind its first slash
    | Opened         // at the star that opens a block comment
    | InBlock
    | Starred        // in a block comment, behind a star of its text

  predicate StartsComment(s: seq<char>, i: nat)
    requires i < |s|
  {
    s[i] == '/' && i + 1 < |s| && (s[i + 1] == '/' || s[i + 1] == '*')
  }

  /** The newline that ends a line comment is outside it. */
  function Next(m: Mode, s: seq<char>, i: nat): Mode
    requires i < |s|
  {
    match m
    case Outside =>
      if s[i] == '"' then InString
      else if !StartsComment(s, i) then Outside
      else if s[i + 1] == '/' then InLine
      else Opened
    case InString => if s[i] == '"' then Outside else if s[i] == '\\' then Escaped else InString
    case Escaped => InString
    case InLine => if i + 1 < |s| && (s[i + 1] == '\n' || s[i + 1] == '\r') then Outside else InLine
    case Opened => InBlock
    case InBlock => if s[i] == '*' then Starred else InBlock
    case Starred => if s[i] == '/' then Outside else if s[i] == '*' then Starred else InBlock
  }

  /** Where the text before position i leaves the lexer. */
  function ModeAt(s: seq<char>, i: nat): Mode
    requires i <= |s|
  {
    if i == 0 then Outside else Next(ModeAt(s, i - 1), s, i - 1)
  }

  predicate InComment(s: seq<char>, i: nat)
    requires i < |s|
  {
    match ModeAt(s, i)
    case Outside => StartsComment(s, i)
    case InString => false
    case Escaped => false
    case _ => true
  }

  /** The next byte at or behind i that is neither white space nor in a comment closes an object or array. */
  predicate ClosesNext(s: seq<char>, i: nat)
    requires i <= |s|
    decreases |s| - i
  {
    i < |s| && if SkippedAt(s, i) then ClosesNext(s, i + 1) else s[i] == '}' || s[i] == ']'
  }

  /** White space, or in a comment. */
  predicate SkippedAt(s: seq<char>, i: nat)
    requires i < |s|
  {
    InComment(s, i) || s[i] == ' ' || s[i] == '\t' || s[i] == '\n' || s[i] == '\r'
  }

  predicate TrailingComma(s: seq<char>, i: nat)
    requires i < |s|
  {
    ModeAt(s, i) == Outside && s[i] == ',' && ClosesNext(s, i + 1)
  }

  /** Comments and trailing commas are blanked, and nothing else is touched. */
  function Trimmed(s: seq<char>): seq<char> {
    seq(|s|, i requires 0 <= i < |s| => if InComment(s, i) || TrailingComma(s, i) then ' ' else s[i])
  }

  /** Every slash outside strings belongs to a comment. */
  ghost predicate Lexical(s: seq<char>) {
    forall i | 0 <= i < |s| :: LexicalAt(s, i)
  }

  predicate LexicalAt(s: seq<char>, i: nat)
    requires i < |s|
  {
    ModeAt(s, i) == Outside && s[i] == '/' ==> StartsComment(s, i)
  }

  /** The byte behind a star in a block comment, which is neither its closing slash nor a space. */
  predicate Untamed(s: seq<char>, i: nat)
    requires i < |s|
  {
    ModeAt(s, i) == Starred && s[i] != '/' && s[i] != ' '
  }

  ghost predicate Tame(s: seq<char>) {
    forall i | 0 <= i < |s| :: !Untamed(s, i)
  }

  // ----- the code's tests

  predicate IsNewline(c: char) { c == '\n' || c == '\r' }

  predicate IsSpace(c: char) { c == ' ' || c == '\t' || IsNewline(c) }

  // ----- the code, on values: each function gives the buffer and the index it leaves

  function Line(s: seq<char>, i: nat): (r: (seq<char>, nat))
    requires i <= |s|
    ensures |r.0| == |s| && i <= r.1 <= |s|
    decreases |s| - i
  {
    if i == |s| || IsNewline(s[i]) then (s, i) else Line(s[i := ' '], i + 1)
  }

  /** The scan of a block comment: a star that no slash follows makes it step over the byte behind it. */
  function Block(s: seq<char>, i: nat): (r: (seq<char>, nat))
    ensures |r.0| == |s| && r.1 >= i
    decreases |s| - i
  {
    if i >= |s| then (s, i)
    else if s[i] != '*' then Block(s[i := ' '], i + 1)
    else if i + 1 < |s| && s[i + 1] == '/' then (s[i := ' '][i + 1 := ' '], i + 1)
    else Block(s[i := ' '], i + 2)
  }

  /** `consumeComment`, called with the index behind a slash. */
  function Comment(s: seq<char>, i: nat): (r: (seq<char>, nat))
    requires 1 <= i <= |s|
    ensures |r.0| == |s| && r.1 >= i
  {
    if i == |s| then (s, i)
    else if s[i] == '/' then Line(s[i - 1 := ' '], i)
    else if s[i] == '*' then Block(s[i - 1 := ' '][i := ' '], i)
    else (s, i)
  }

  /** Behind a quote: the index behind the string literal. */
  function StringEnd(s: seq<char>, i: nat): (e: nat)
    ensures e >= i
    decreases |s| - i
  {
    if i >= |s| then i
    else if s[i] == '"' then i + 1
    else StringEnd(s, if s[i] == '\\' then i + 2 else i + 1)
  }

  /** The loop that decides about the comma at j, before its step from i. */
  function Comma(s: seq<char>, j: nat, i: nat): (r: (seq<char>, nat))
    requires j < |s| && j <= i
    ensures |r.0| == |s| && r.1 > i
    decreases |s| - i
  {
    var i := i + 1;
    if i >= |s| then (s, i)
    else if s[i] == '}' || s[i] == ']' then (s[j := ' '], i)
    else if s[i] == '/' then var (s', e) := Comment(s, i + 1); Comma(s', j, e)
    else if !IsSpace(s[i]) then (s, i)
    else Comma(s, j, i)
  }

  /** The main loop from i on. */
  function From(s: seq<char>, i: nat): (r: seq<char>)
    ensures |r| == |s|
    decreases |s| - i
  {
    if i >= |s| then s
    else if s[i] == '"' then From(s, StringEnd(s, i + 1))
    else if s[i] == '/' then var (s', e) := Comment(s, i + 1); From(s', e)
    else if s[i] == ',' then var (s', e) := Comma(s, i, i); From(s', e)
    else From(s, i + 1)
  }

  // ----- bytes only turn into spaces, and what lies behind the scan is settled

  ghost predicate OnlyBlanked(was: seq<char>, s: seq<char>) {
    |s| == |was| && forall k | 0 <= k < |s| :: s[k] == was[k] || s[k] == ' '
  }

  /** The same, and nothing before i is changed. */
  ghost predicate BlankedFrom(was: seq<char>, s: seq<char>, i: nat) {
    OnlyBlanked(was, s) && forall k | 0 <= k < |s| && k < i :: s[k] == was[k]
  }

  lemma {:induction false} LineBlanks(s: seq<char>, i: nat)
    requires i <= |s|
    ensures BlankedFrom(s, Line(s, i).0, i)
    decreases |s| - i
  {
    if i < |s| && !IsNewline(s[i]) {
      LineBlanks(s[i := ' '], i + 1);
    }
  }

  lemma {:induction false} BlockBlanks(s: seq<char>, i: nat)
    ensures BlankedFrom(s, Block(s, i).0, i)
    decreases |s| - i
  {
    if i < |s| && s[i] != '*' {
      BlockBlanks(s[i := ' '], i + 1);
    } else if i < |s| && !(i + 1 < |s| && s[i + 1] == '/') {
      BlockBlanks(s[i := ' '], i + 2);
    }
  }

  lemma CommentBlanks(s: seq<char>, i: nat)
    requires 1 <= i <= |s|
    ensures BlankedFrom(s, Comment(s, i).0, i - 1)
  {
    LineBlanks(s[i - 1 := ' '], i);
    if i < |s| {
      BlockBlanks(s[i - 1 := ' '][i := ' '], i);
    }
  }

  lemma {:induction false} CommaBlanks(s: seq<char>, j: nat, i: nat)
    requires j < |s| && j <= i
    ensures OnlyBlanked(s, Comma(s, j, i).0)
    ensures forall k | 0 <= k < |s| && k <= i && k != j :: Comma(s, j, i).0[k] == s[k]
    decreases |s| - i
  {
    if i + 1 < |s| && s[i + 1] != '}' && s[i + 1] != ']' {
      if s[i + 1] == '/' {
        CommentBlanks(s, i + 2);
        var (s', e) := Comment(s, i + 2);
        CommaBlanks(s', j, e);
      } else if IsSpace(s[i + 1]) {
        CommaBlanks(s, j, i + 1);
      }
    }
  }

  lemma {:induction false} FromBlanks(s: seq<char>, i: nat)
    ensures BlankedFrom(s, From(s, i), i)
    decreases |s| - i
  {
    if i < |s| {
      if s[i] == '"' {
        FromBlanks(s, StringEnd(s, i + 1));
      } else if s[i] == '/' {
        var (s', e) := Comment(s, i + 1);
        CommentBlanks(s, i + 1);
        FromBlanks(s', e);
      } else if s[i] == ',' {
        var (s', e) := Comma(s, i, i);
        CommaBlanks(s, i, i);
        FromBlanks(s', e);
      } else {
        FromBlanks(s, i + 1);
      }
    }
  }

  // ----- the buffer while it is trimmed

  /** What the reference wants at one position. */
  ghost predicate WantedAt(was: seq<char>, want: seq<char>, k: nat)
    requires k < |was| == |want|
  {
    want[k] == if InComment(was, k) || TrailingComma(was, k) then ' ' else was[k]
  }

  ghost predicate Wanted(was: seq<char>, want: seq<char>) {
    |want| == |was| && forall k | 0 <= k < |was| :: WantedAt(was, want, k)
  }

  /** The buffer is trimmed before i, but for the comma at j, and untouched from i on. */
  ghost predicate TrimmedTo(was: seq<char>, want: seq<char>, s: seq<char>, i: nat, j: int) {
    && |s| == |was| == |want|
    && (forall k | 0 <= k < |s| && k < i :: s[k] == if k == j then was[k] else want[k])
    && (forall k | i <= k < |s| :: s[k] == was[k])
  }

  lemma TrimmedOneMore(was: seq<char>, want: seq<char>, s: seq<char>, i: nat, j: int)
    requires TrimmedTo(was, want, s, i, j) && i < |was| && j != i
    ensures s[i] == was[i] && TrimmedTo(was, want, s[i := want[i]], i + 1, j)
    ensures want[i] == was[i] ==> TrimmedTo(was, want, s, i + 1, j)
  {
  }

  ghost predicate OutsideAt(was: seq<char>, i: nat) {
    i < |was| ==> ModeAt(was, i) == Outside
  }

  ghost predicate Clean(was: seq<char>, want: seq<char>, s: seq<char>, i: nat) {
    TrimmedTo(was, want, s, i, -1) && OutsideAt(was, i)
  }

  /** `bad` is the first untamed byte; a number behind the end says that there is none. */
  ghost predicate FirstUntamed(was: seq<char>, bad: nat) {
    && (forall k | 0 <= k < |was| && k < bad :: !Untamed(was, k))
    && (bad < |was| ==> Untamed(was, bad))
  }

  /** The scan has not passed an untamed byte. */
  predicate Before(was: seq<char>, i: nat, bad: nat) {
    i <= bad || bad >= |was|
  }

  /** The scan has passed the first untamed byte, and left it as it was. */
  predicate Spoiled(was: seq<char>, s: seq<char>, i: nat, bad: nat) {
    bad < |was| && bad < |s| && bad < i && s[bad] == was[bad]
  }

  /** Only an untamed byte is untamed. */
  lemma StepBefore(was: seq<char>, i: nat, bad: nat)
    requires FirstUntamed(was, bad) && Before(was, i, bad) && (i < |was| ==> !Untamed(was, i))
    ensures Before(was, i + 1, bad)
  {
  }

  /** Everything from a to before b is white space or in a comment. */
  ghost predicate Skipped(was: seq<char>, a: nat, b: nat) {
    forall k | a <= k < b && k < |was| :: SkippedAt(was, k)
  }

  lemma {:induction false} ClosesBehind(was: seq<char>, a: nat, b: nat)
    requires a <= b && a <= |was| && Skipped(was, a, b)
    ensures ClosesNext(was, a) <==> b <= |was| && ClosesNext(was, b)
    decreases b - a
  {
    if a < b && a < |was| {
      ClosesBehind(was, a + 1, b);
      assert SkippedAt(was, a);
    }
  }

  // ----- comments

  /**
   How a comment leaves things: trimmed behind its last byte, or behind the newline that ended it,
   unless the scan has passed an untamed byte.
   */
  ghost predicate Commented(was: seq<char>, want: seq<char>, r: (seq<char>, nat), i: nat, j: int, bad: nat) {
    if Before(was, r.1 + 1, bad)
    then
      && TrimmedTo(was, want, r.0, r.1 + 1, j) && Skipped(was, i, r.1 + 1) && OutsideAt(was, r.1 + 1)
      && (r.1 < |was| ==> IsSpace(r.0[r.1]))
    else Spoiled(was, r.0, r.1, bad)
  }

  lemma CommentedEarlier(was: seq<char>, want: seq<char>, r: (seq<char>, nat), i: nat, j: int, bad: nat)
    requires Commented(was, want, r, i + 1, j, bad) && i < |was| && SkippedAt(was, i)
    ensures Commented(was, want, r, i, j, bad)
  {
  }

  /** A byte of a comment is blanked. */
  lemma CommentByte(was: seq<char>, want: seq<char>, s: seq<char>, i: nat, j: int)
    requires Wanted(was, want) && TrimmedTo(was, want, s, i, j) && j < i < |was| && InComment(was, i)
    ensures s[i] == was[i] && want[i] == ' ' && SkippedAt(was, i) && TrimmedTo(was, want, s[i := ' '], i + 1, j)
    ensures was[i] == ' ' ==> TrimmedTo(was, want, s, i + 1, j)
  {
    assert WantedAt(was, want, i);
    TrimmedOneMore(was, want, s, i, j);
  }

  /** The newline behind a line comment stays. */
  lemma NewlineByte(was: seq<char>, want: seq<char>, s: seq<char>, i: nat, j: int)
    requires Wanted(was, want) && TrimmedTo(was, want, s, i, j) && j < i < |was|
    requires ModeAt(was, i) == Outside && IsNewline(was[i])
    ensures SkippedAt(was, i) && TrimmedTo(was, want, s, i + 1, j) && OutsideAt(was, i + 1) && s[i] == was[i]
  {
    assert WantedAt(was, want, i);
    TrimmedOneMore(was, want, s, i, j);
  }

  lemma {:induction false} LineMeaning(was: seq<char>, want: seq<char>, s: seq<char>, i: nat, j: int, bad: nat)
    requires Wanted(was, want) && FirstUntamed(was, bad)
    requires i <= |was| && TrimmedTo(was, want, s, i, j) && j < i && Before(was, i, bad)
    requires i < |was| ==> ModeAt(was, i) == if IsNewline(was[i]) then Outside else InLine
    ensures Commented(was, want, Line(s, i), i, j, bad)
    decreases |was| - i
  {
    if i < |was| {
      StepBefore(was, i, bad);
      if IsNewline(was[i]) {
        NewlineByte(was, want, s, i, j);
      } else {
        CommentByte(was, want, s, i, j);
        LineMeaning(was, want, s[i := ' '], i + 1, j, bad);
        CommentedEarlier(was, want, Line(s, i), i, j, bad);
      }
    }
  }

  /** The scan of a block comment ends behind its closing slash, unless it has passed an untamed byte. */
  lemma {:induction false} BlockMeaning(was: seq<char>, want: seq<char>, s: seq<char>, i: nat, j: int, bad: nat)
    requires Wanted(was, want) && FirstUntamed(was, bad)
    requires TrimmedTo(was, want, s, i, j) && j < i && Before(was, i, bad)
    requires i < |was| ==> ModeAt(was, i) == InBlock
    ensures Commented(was, want, Block(s, i), i, j, bad)
    decreases |was| - i
  {
    if i < |was| {
      var t := s[i := ' '];
      CommentByte(was, want, s, i, j);
      StepBefore(was, i, bad);
      if was[i] != '*' {
        BlockMeaning(was, want, t, i + 1, j, bad);
      } else {
        StarMeaning(was, want, t, i + 1, j, bad);
        assert i + 1 < |was| ==> t[i + 1] == s[i + 1];
      }
      CommentedEarlier(was, want, Block(s, i), i, j, bad);
    }
  }

  /** What the scan does behind a star. */
  function BehindStar(s: seq<char>, i: nat): (r: (seq<char>, nat)) {
    if i < |s| && s[i] == '/' then (s[i := ' '], i) else Block(s, i + 1)
  }

  lemma {:induction false} StarMeaning(was: seq<char>, want: seq<char>, s: seq<char>, i: nat, j: int, bad: nat)
    requires Wanted(was, want) && FirstUntamed(was, bad)
    requires TrimmedTo(was, want, s, i, j) && j < i && Before(was, i, bad)
    requires i < |was| ==> ModeAt(was, i) == Starred
    ensures Commented(was, want, BehindStar(s, i), i, j, bad)
    decreases |was| - i
  {
    if i < |was| {
      CommentByte(was, want, s, i, j);
      if bad == i {
        BlockBlanks(s, i + 1);
      } else {
        StepBefore(was, i, bad);
        if was[i] != '/' {
          assert !Untamed(was, i);
          BlockMeaning(was, want, s, i + 1, j, bad);
          CommentedEarlier(was, want, Block(s, i + 1), i, j, bad);
        }
      }
    }
  }

  lemma OpenedMeaning(was: seq<char>, want: seq<char>, s: seq<char>, i: nat, j: int, bad: nat)
    requires Wanted(was, want) && FirstUntamed(was, bad)
    requires i < |was| && TrimmedTo(was, want, s, i, j) && j < i && Before(was, i, bad) && ModeAt(was, i) == Opened
    ensures Commented(was, want, Block(s[i := ' '], i), i, j, bad)
  {
    var t := s[i := ' '];
    CommentByte(was, want, s, i, j);
    StepBefore(was, i, bad);
    BlockMeaning(was, want, t, i + 1, j, bad);
    assert t[i := ' '] == t;
    CommentedEarlier(was, want, Block(t, i), i, j, bad);
  }

  lemma CommentMeaning(was: seq<char>, want: seq<char>, s: seq<char>, i: nat, j: int, bad: nat)
    requires Wanted(was, want) && FirstUntamed(was, bad)
    requires 1 <= i <= |was| && TrimmedTo(was, want, s, i - 1, j) && j < i - 1 && Before(was, i - 1, bad)
    requires ModeAt(was, i - 1) == Outside && StartsComment(was, i - 1)
    ensures Commented(was, want, Comment(s, i), i - 1, j, bad)
  {
    CommentByte(was, want, s, i - 1, j);
    StepBefore(was, i - 1, bad);
    var t := s[i - 1 := ' '];
    assert t[i] == s[i] == was[i];
    if was[i] == '/' {
      LineMeaning(was, want, t, i, j, bad);
    } else {
      OpenedMeaning(was, want, t, i, j, bad);
    }
    CommentedEarlier(was, want, Comment(s, i), i - 1, j, bad);
  }

  // ----- strings

  predicate InLiteral(was: seq<char>, k: nat)
    requires k < |was|
  {
    ModeAt(was, k) == InString || ModeAt(was, k) == Escaped
  }

  lemma {:induction false} StringMeaning(was: seq<char>, s: seq<char>, i: nat)
    requires |s| == |was| && (forall k | i <= k < |s| :: s[k] == was[k])
    requires i < |was| ==> ModeAt(was, i) == InString
    ensures OutsideAt(was, StringEnd(s, i))
    ensures forall k | i <= k < StringEnd(s, i) && k < |was| :: InLiteral(was, k)
    decreases |was| - i
  {
    if i < |was| {
      assert s[i] == was[i] && InLiteral(was, i);
      if was[i] == '\\' {
        assert i + 1 < |was| ==> InLiteral(was, i + 1);
        StringMeaning(was, s, i + 2);
      } else if was[i] != '"' {
        StringMeaning(was, s, i + 1);
      }
    }
  }

  /** A string literal is passed over. */
  lemma StringDecided(was: seq<char>, want: seq<char>, s: seq<char>, i: nat, bad: nat)
    requires Wanted(was, want) && FirstUntamed(was, bad)
    requires Clean(was, want, s, i) && i < |was| && was[i] == '"' && Before(was, i, bad)
    ensures Clean(was, want, s, StringEnd(s, i + 1)) && Before(was, StringEnd(s, i + 1), bad)
  {
    StringMeaning(was, s, i + 1);
    var e := StringEnd(s, i + 1);
    assert WantedAt(was, want, i);
    forall k | i < k < e && k < |was| ensures want[k] == was[k] && !Untamed(was, k) {
      assert InLiteral(was, k) && WantedAt(was, want, k);
    }
  }

  // ----- commas

  /** The comma at j is still to be decided, and everything between it and i has been skipped. */
  ghost predicate Pending(was: seq<char>, want: seq<char>, s: seq<char>, j: nat, i: nat) {
    && j < |was| && j <= i && was[j] == ',' && ModeAt(was, j) == Outside
    && TrimmedTo(was, want, s, i + 1, j) && OutsideAt(was, i + 1) && Skipped(was, j + 1, i + 1)
  }

  /** What the next byte that counts says about the comma. */
  lemma CommaDecided(was: seq<char>, want: seq<char>, s: seq<char>, j: nat, i: nat)
    requires Wanted(was, want) && Pending(was, want, s, j, i) && (i + 1 < |was| ==> !SkippedAt(was, i + 1))
    ensures var closes := i + 1 < |was| && (was[i + 1] == '}' || was[i + 1] == ']');
      Clean(was, want, if closes then s[j := ' '] else s, i + 1)
  {
    ClosesBehind(was, j + 1, i + 1);
    assert WantedAt(was, want, j);
  }

  lemma SpaceByte(was: seq<char>, want: seq<char>, s: seq<char>, j: nat, i: nat, bad: nat)
    requires Wanted(was, want) && Pending(was, want, s, j, i) && i + 1 < |was| && IsSpace(was[i + 1])
    requires FirstUntamed(was, bad) && Before(was, i + 1, bad)
    ensures Pending(was, want, s, j, i + 1) && Before(was, i + 2, bad)
  {
    assert WantedAt(was, want, i + 1) && SkippedAt(was, i + 1);
    TrimmedOneMore(was, want, s, i + 1, j);
  }

  lemma {:induction false} CommaMeaning(was: seq<char>, want: seq<char>, s: seq<char>, j: nat, i: nat, bad: nat)
    requires Wanted(was, want) && Lexical(was) && FirstUntamed(was, bad)
    requires Before(was, i + 1, bad) && Pending(was, want, s, j, i)
    ensures var r := Comma(s, j, i);
      if Before(was, r.1, bad) then Clean(was, want, r.0, r.1) else Spoiled(was, r.0, r.1, bad)
    decreases |was| - i
  {
    if i + 1 >= |was| {
      CommaDecided(was, want, s, j, i);
    } else {
      assert s[i + 1] == was[i + 1];
      if was[i + 1] == '/' {
        assert LexicalAt(was, i + 1);
        CommentMeaning(was, want, s, i + 2, j, bad);
        var (s', e) := Comment(s, i + 2);
        if Before(was, e + 1, bad) {
          CommaMeaning(was, want, s', j, e, bad);
        } else {
          CommaBlanks(s', j, e);
        }
      } else if IsSpace(was[i + 1]) {
        SpaceByte(was, want, s, j, i, bad);
        CommaMeaning(was, want, s, j, i + 1, bad);
      } else {
        CommaDecided(was, want, s, j, i);
      }
    }
  }

  // ----- the whole text

  /** A comma is reached. */
  lemma CommaByte(was: seq<char>, want: seq<char>, s: seq<char>, i: nat, bad: nat)
    requires FirstUntamed(was, bad) && Before(was, i, bad)
    requires Clean(was, want, s, i) && i < |was| && was[i] == ','
    ensures Pending(was, want, s, i, i) && Before(was, i + 1, bad)
  {
  }

  /** Any other byte is passed over. */
  lemma PlainByte(was: seq<char>, want: seq<char>, s: seq<char>, i: nat, bad: nat)
    requires Wanted(was, want) && FirstUntamed(was, bad) && Before(was, i, bad)
    requires Clean(was, want, s, i) && i < |was| && was[i] != '"' && was[i] != '/' && was[i] != ','
    ensures Clean(was, want, s, i + 1) && Before(was, i + 1, bad)
  {
    assert WantedAt(was, want, i);
    TrimmedOneMore(was, want, s, i, -1);
  }

  /** The result is the wanted text, or keeps the first untamed byte. */
  ghost predicate Settled(was: seq<char>, want: seq<char>, r: seq<char>, bad: nat) {
    if bad >= |was| then r == want else |r| == |was| && r[bad] == was[bad]
  }

  lemma {:induction false} FromMeaning(was: seq<char>, want: seq<char>, s: seq<char>, i: nat, bad: nat)
    requires Wanted(was, want) && Lexical(was) && FirstUntamed(was, bad)
    requires Before(was, i, bad) && Clean(was, want, s, i)
    ensures Settled(was, want, From(s, i), bad)
    decreases |was| - i
  {
    if i < |was| {
      assert s[i] == was[i];
      if was[i] == '"' {
        StringDecided(was, want, s, i, bad);
        FromMeaning(was, want, s, StringEnd(s, i + 1), bad);
      } else if was[i] == '/' {
        assert LexicalAt(was, i);
        CommentMeaning(was, want, s, i + 1, -1, bad);
        BehindComment(was, want, s, i, bad);
      } else if was[i] == ',' {
        CommaByte(was, want, s, i, bad);
        CommaMeaning(was, want, s, i, i, bad);
        var (s', e) := Comma(s, i, i);
        if Before(was, e, bad) {
          FromMeaning(was, want, s', e, bad);
        } else {
          FromBlanks(s', e);
        }
      } else {
        PlainByte(was, want, s, i, bad);
        FromMeaning(was, want, s, i + 1, bad);
      }
    }
  }

  lemma {:induction false} BehindComment(was: seq<char>, want: seq<char>, s: seq<char>, i: nat, bad: nat)
    requires Wanted(was, want) && Lexical(was) && FirstUntamed(was, bad)
    requires |s| == |was| && i < |was| && Commented(was, want, Comment(s, i + 1), i, -1, bad)
    ensures Settled(was, want, From(Comment(s, i + 1).0, Comment(s, i + 1).1), bad)
    decreases |was| - i, 0
  {
    var (s', e) := Comment(s, i + 1);
    if Before(was, e + 1, bad) {
      assert From(s', e) == From(s', e + 1);
      FromMeaning(was, want, s', e + 1, bad);
    } else {
      FromBlanks(s', e);
    }
  }

  lemma FindUntamed(s: seq<char>) returns (bad: nat)
    ensures FirstUntamed(s, bad) && (bad >= |s| <==> Tame(s))
  {
    bad := 0;
    while bad < |s| && !Untamed(s, bad)
      invariant forall k | 0 <= k < bad && k < |s| :: !Untamed(s, k)
    {
      bad := bad + 1;
    }
  }

  /**
   When every slash outside strings belongs to a comment, the text is trimmed as the reference says
   exactly when each star in a block comment is followed by the closing slash or by a space.
   */
  lemma TrimsExactlyTheTame(s: seq<char>)
    requires Lexical(s)
    ensures From(s, 0) == Trimmed(s) <==> Tame(s)
  {
    var bad := FindUntamed(s);
    var want := Trimmed(s);
    assert Wanted(s, want);
    FromMeaning(s, want, s, 0, bad);
    assert bad < |s| ==> WantedAt(s, want, bad);
  }

  // ----- the code, in place

  method ConsumeLine(s: array<char>, i0: nat) returns (i: nat)
    requires i0 <= s.Length
    modifies s
    ensures (s[..], i) == Line(old(s[..]), i0)
  {
    i := i0;
    while i < s.Length && !IsNewline(s[i])
      invariant i <= s.Length && Line(s[..], i) == Line(old(s[..]), i0)
    {
      ghost var now := s[..];
      s[i] := ' ';
      assert s[..] == now[i := ' '];
      i := i + 1;
    }
  }

  method ConsumeBlock(s: array<char>, i0: nat) returns (i: nat)
    modifies s
    ensures (s[..], i) == Block(old(s[..]), i0)
  {
    i := i0;
    while i < s.Length
      invariant Block(s[..], i) == Block(old(s[..]), i0)
      decreases s.Length - i
    {
      ghost var now := s[..];
      if s[i] != '*' {
        s[i] := ' ';
      } else {
        s[i] := ' ';
        i := i + 1;
        if i < s.Length {
          if s[i] == '/' {
            s[i] := ' ';
            assert s[..] == now[i - 1 := ' '][i := ' '];
            break;
          }
        }
        assert s[..] == now[i - 1 := ' '];
      }
      i := i + 1;
    }
  }

  /** `consumeComment`. */
  method ConsumeComment(s: array<char>, i0: nat) returns (i: nat)
    requires 1 <= i0 <= s.Length
    modifies s
    ensures (s[..], i) == Comment(old(s[..]), i0)
  {
    ghost var was := s[..];
    i := i0;
    if i < s.Length && s[i] == '/' {
      s[i - 1] := ' ';
      assert s[..] == was[i - 1 := ' '];
      i := ConsumeLine(s, i);
      LineEnds(was[i0 - 1 := ' '], i0);
      assert i < s.Length ==> s[..][i] == s[i];
    }
    if i < s.Length && s[i] == '*' {
      s[i - 1] := ' ';
      s[i] := ' ';
      assert s[..] == was[i - 1 := ' '][i := ' '];
      i := ConsumeBlock(s, i);
    }
  }

  lemma {:induction false} LineEnds(s: seq<char>, i: nat)
    requires i <= |s|
    ensures var (s', e) := Line(s, i); e < |s| ==> IsNewline(s'[e])
    decreases |s| - i
  {
    if i < |s| && !IsNewline(s[i]) {
      LineEnds(s[i := ' '], i + 1);
    }
  }

  method SkipString(s: array<char>, i0: nat) returns (i: nat)
    ensures i == StringEnd(s[..], i0)
  {
    i := i0;
    while i < s.Length
      invariant i >= i0 && StringEnd(s[..], i) == StringEnd(s[..], i0)
      decreases s.Length - i
    {
      if s[i] == '"' {
        i := i + 1;
        break;
      } else if s[i] == '\\' {
        i := i + 1;
      }
      i := i + 1;
    }
  }

  method HandleComma(s: array<char>, j: nat) returns (i: nat)
    requires j < s.Length
    modifies s
    ensures (s[..], i) == Comma(old(s[..]), j, j)
  {
    i := j;
    while true
      invariant j <= i && Comma(s[..], j, i) == Comma(old(s[..]), j, j)
      decreases s.Length - i
    {
      ghost var now := s[..];
      i := i + 1;
      if i >= s.Length {
        break;
      } else if s[i] == '}' || s[i] == ']' {
        s[j] := ' ';
        assert s[..] == now[j := ' '];
        break;
      } else if s[i] == '/' {
        i := ConsumeComment(s, i + 1);
      } else if !IsSpace(s[i]) {
        break;
      }
    }
  }

  /**
   `prep`, on the bytes read.  Bytes only turn into spaces; and when every slash outside strings belongs
   to a comment, the text is trimmed as the reference says exactly when its block comments are tame.
   */
  method Prep(s: array<char>)
    modifies s
    ensures OnlyBlanked(old(s[..]), s[..])
    ensures Lexical(old(s[..])) ==> (s[..] == Trimmed(old(s[..])) <==> Tame(old(s[..])))
    ensures SlashFree(old(s[..])) ==>
              forall i | 0 <= i < s.Length :: s[i] == if PlainTrailingComma(old(s[..]), i) then ' ' else old(s[i])
  {
    ghost var was := s[..];
    var i := 0;
    while i < s.Length
      invariant From(s[..], i) == From(was, 0)
      decreases s.Length - i
    {
      if s[i] == '"' {
        i := SkipString(s, i + 1);
      } else if s[i] == '/' {
        i := ConsumeComment(s, i + 1);
      } else if s[i] == ',' {
        i := HandleComma(s, i);
      } else {
        i := i + 1;
      }
    }
    FromBlanks(was, 0);
    if Lexical(was) {
      TrimsExactlyTheTame(was);
    }
    if SlashFree(was) {
      SlashFreeTrimmed(was);
    }
    assert forall i | 0 <= i < s.Length :: s[i] == s[..][i] && was[i] == old(s[i]);
  }

  // ----- text without slashes outside strings

  ghost predicate SlashFree(s: seq<char>) {
    forall i | 0 <= i < |s| && ModeAt(s, i) == Outside :: s[i] != '/'
  }

  lemma {:induction false} SlashFreeModes(s: seq<char>, i: nat)
    requires SlashFree(s) && i <= |s|
    ensures ModeAt(s, i) == Outside || ModeAt(s, i) == InString || ModeAt(s, i) == Escaped
  {
    if i > 0 {
      SlashFreeModes(s, i - 1);
    }
  }

  /** Everything from a to before b is white space. */
  ghost predicate AllWhite(s: seq<char>, a: nat, b: nat)
    requires b <= |s|
  {
    forall m | a <= m < b :: s[m] == ' ' || s[m] == '\t' || s[m] == '\n' || s[m] == '\r'
  }

  /** A comma outside strings with nothing but white space before a closing brace or bracket. */
  ghost predicate PlainTrailingComma(s: seq<char>, i: nat)
    requires i < |s|
  {
    && ModeAt(s, i) == Outside && s[i] == ','
    && exists k :: i + 1 <= k < |s| && (s[k] == '}' || s[k] == ']') && AllWhite(s, i + 1, k)
  }

  /** Without a slash outside strings exactly those commas go. */
  lemma SlashFreeTrimmed(s: seq<char>)
    requires SlashFree(s)
    ensures From(s, 0) == Trimmed(s)
    ensures forall i | 0 <= i < |s| :: From(s, 0)[i] == if PlainTrailingComma(s, i) then ' ' else s[i]
  {
    forall i | 0 <= i < |s| ensures !Untamed(s, i) && LexicalAt(s, i) {
      SlashFreeModes(s, i);
    }
    TrimsExactlyTheTame(s);
    forall i | 0 <= i < |s| ensures Trimmed(s)[i] == if PlainTrailingComma(s, i) then ' ' else s[i] {
      SlashFreeAt(s, i);
    }
  }

  lemma SlashFreeAt(s: seq<char>, i: nat)
    requires SlashFree(s) && i < |s|
    ensures !InComment(s, i) && (TrailingComma(s, i) <==> PlainTrailingComma(s, i))
  {
    forall k | i <= k < |s| ensures !InComment(s, k) {
      SlashFreeModes(s, k);
    }
    ClosesNextIff(s, i + 1);
  }

  lemma {:induction false} ClosesNextIff(s: seq<char>, i: nat)
    requires i <= |s| && forall k | i <= k < |s| :: !InComment(s, k)
    ensures ClosesNext(s, i) <==> exists k :: i <= k < |s| && (s[k] == '}' || s[k] == ']') && AllWhite(s, i, k)
    decreases |s| - i
  {
    if i < |s| {
      ClosesNextIff(s, i + 1);
      if SkippedAt(s, i) && ClosesNext(s, i + 1) {
        var k :| i + 1 <= k < |s| && (s[k] == '}' || s[k] == ']') && AllWhite(s, i + 1, k);
        assert AllWhite(s, i, k);
      }
      if k :| i <= k < |s| && (s[k] == '}' || s[k] == ']') && AllWhite(s, i, k) {
        assert k > i ==> AllWhite(s, i + 1, k) && SkippedAt(s, i);
      }
    }
  }

  // ----- where a line comment ends

  lemma {:induction false} LineEndsAt(s: seq<char>, i: nat, e: nat)
    requires i <= e <= |s| && (forall k | i <= k < e :: s[k] != '\n' && s[k] != '\r')
    requires e < |s| ==> s[e] == '\n' || s[e] == '\r'
    ensures Line(s, i).1 == e && forall k | 0 <= k < |s| :: Line(s, i).0[k] == if i <= k < e then ' ' else s[k]
    decreases e - i
  {
    if i < e {
      LineEndsAt(s[i := ' '], i + 1, e);
    }
  }

  /** A line comment is blanked from its first slash to before the first newline or carriage return, or the end. */
  lemma LineCommentEndsAtNewline(s: seq<char>, i: nat, e: nat)
    requires 1 <= i < |s| && s[i] == '/' && i <= e <= |s| && (forall k | i <= k < e :: s[k] != '\n' && s[k] != '\r')
    requires e < |s| ==> s[e] == '\n' || s[e] == '\r'
    ensures Comment(s, i).1 == e
    ensures forall k | 0 <= k < |s| :: Comment(s, i).0[k] == if i - 1 <= k < e then ' ' else s[k]
  {
    LineEndsAt(s[i - 1 := ' '], i, e);
  }

  // ----- where a block comment ends

  /** The first star and slash at or behind p are at q. */
  ghost predicate ClosesAt(s: seq<char>, p: nat, q: nat) {
    && p <= q && q + 1 < |s| && s[q] == '*' && s[q + 1] == '/'
    && forall k | p <= k < q :: !(s[k] == '*' && s[k + 1] == '/')
  }

  /** How many stars in a row end at q, from p on. */
  function StarRun(s: seq<char>, p: nat, q: nat): nat
    requires p <= q < |s|
  {
    if s[q] != '*' then 0 else if q == p then 1 else 1 + StarRun(s, p, q - 1)
  }

  lemma {:induction false} StarRunFrom(s: seq<char>, p: nat, q: nat)
    requires p < q < |s|
    ensures StarRun(s, p, q) == StarRun(s, p + 1, q) + if s[p] == '*' && StarRun(s, p + 1, q) == q - p then 1 else 0
    ensures StarRun(s, p + 1, q) <= q - p
  {
    if p + 1 < q {
      StarRunFrom(s, p, q - 1);
    }
  }

  lemma {:induction false} StarRunLocal(s: seq<char>, t: seq<char>, p: nat, q: nat)
    requires p <= q < |s| == |t| && forall k | p <= k <= q :: s[k] == t[k]
    ensures StarRun(s, p, q) == StarRun(t, p, q)
  {
    if s[q] == '*' && p < q {
      StarRunLocal(s, t, p, q - 1);
    }
  }

  /**
   The scan of a block comment whose text starts at p ends at its first star and slash exactly when the
   stars in front of that slash are odd in number.
   */
  lemma {:induction false} EndsAtCloseIffStarsOdd(s: seq<char>, p: nat, q: nat)
    requires ClosesAt(s, p, q)
    ensures Block(s, p).1 == q + 1 <==> StarRun(s, p, q) % 2 == 1
    decreases q - p
  {
    if p < q {
      var t := s[p := ' '];
      StarRunFrom(s, p, q);
      if s[p] != '*' {
        EndsAtCloseIffStarsOdd(t, p + 1, q);
        StarRunLocal(s, t, p + 1, q);
      } else if p + 1 < q {
        StarRunFrom(s, p + 1, q);
        EndsAtCloseIffStarsOdd(t, p + 2, q);
        StarRunLocal(s, t, p + 2, q);
      } else {
        assert Block(s, p) == Block(t, q + 1) && t[q + 1] == '/';
      }
    }
  }

  /** So a comment that `consumeComment` is called for ends where it should exactly when those stars are odd. */
  lemma CommentEndsIffStarsOdd(s: seq<char>, i: nat, q: nat)
    requires 1 <= i < |s| && s[i] == '*' && ClosesAt(s, i + 1, q)
    ensures Comment(s, i).1 == q + 1 <==> StarRun(s, i + 1, q) % 2 == 1
  {
    var t := s[i - 1 := ' '][i := ' '];
    assert t[i := ' '] == t;
    EndsAtCloseIffStarsOdd(t, i + 1, q);
    StarRunLocal(s, t, i + 1, q);
  }

  // ----- two texts that are not trimmed right

  /** The first untamed byte stays, although it is in a comment. */
  lemma FirstUntamedStays(s: seq<char>, bad: nat)
    requires Lexical(s) && bad < |s| && FirstUntamed(s, bad)
    ensures From(s, 0)[bad] == s[bad] != ' ' && Trimmed(s)[bad] == ' '
  {
    var want := Trimmed(s);
    assert Wanted(s, want);
    FromMeaning(s, want, s, 0, bad);
    assert WantedAt(s, want, bad);
  }

  /** Three stars between two slashes: the comment does not end, and its last star stays. */
  lemma ThreeStarCommentRunsOn()
    ensures var s := "/***/"; Lexical(s) && Comment(s, 1).1 != 4 && From(s, 0)[3] == '*' && Trimmed(s) == "     "
  {
    var s := "/***/";
    assert ModeAt(s, 0) == Outside && ModeAt(s, 1) == Opened && ModeAt(s, 2) == InBlock;
    assert ModeAt(s, 3) == Starred && ModeAt(s, 4) == Starred;
    assert forall i | 0 <= i < 5 :: InComment(s, i) && LexicalAt(s, i);
    FirstUntamedStays(s, 3);
    CommentEndsIffStarsOdd(s, 1, 3);
  }

  /** A star inside a comment: the byte behind it stays. */
  lemma StarInsideCommentKeepsByte()
    ensures var s := "/* a*b */"; Lexical(s) && From(s, 0)[5] == 'b' && Trimmed(s) == "         "
  {
    var s := "/* a*b */";
    assert ModeAt(s, 0) == Outside && ModeAt(s, 1) == Opened && ModeAt(s, 2) == InBlock;
    assert ModeAt(s, 3) == InBlock && ModeAt(s, 4) == InBlock && ModeAt(s, 5) == Starred;
    assert ModeAt(s, 6) == InBlock && ModeAt(s, 7) == InBlock && ModeAt(s, 8) == Starred;
    assert forall i | 0 <= i < 9 :: InComment(s, i) && LexicalAt(s, i);
    FirstUntamedStays(s, 5);
  }
}
