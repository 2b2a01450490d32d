/**
 Firewall rules and chains as the port-hopping manager sees them (common/porthop/porthop.go): which
 rules carry a node's comment, what appending and deleting do to them, and what `staleRules` reads
 out of a listed chain.
 */
module FirewallRules {
  import opened Tokenizer

  /** The arguments behind "-A PREROUTING". */
  datatype Rule = Rule(args: seq<string>)

  datatype Range = Range(from: nat, to: nat)

  // ----- rules

  function Itoa(n: nat): (s: string)
    ensures s != "" && '0' <= s[0] <= '9'
  {
    var digit := ['0' + (n % 10) as char];
    if n < 10 then digit else Itoa(n / 10) + digit
  }

  function RangeString(r: Range): (s: string)
    ensures s != "" && '0' <= s[0] <= '9'
  {
    if r.from == r.to then Itoa(r.from) else Itoa(r.from) + ":" + Itoa(r.to)
  }

  /** A node tag. */
  datatype Tag = Tag(text: string)

  const COMMENT_PREFIX := "N2X:porthop:"

  function Comment(tag: Tag): string {
    COMMENT_PREFIX + tag.text
  }

  function RuleArgs(r: Range, listenPort: nat, tag: Tag): Rule {
    Rule(["-p", "udp", "--dport", RangeString(r), "-m", "comment", "--comment", Comment(tag),
          "-j", "REDIRECT", "--to-ports", Itoa(listenPort)])
  }

  /** Some "--comment" of the rule is followed by this text. */
  predicate Carries(rule: Rule, want: string) {
    Mentions(rule.args, want)
  }

  predicate Mentions(tokens: seq<string>, want: string) {
    exists i :: 0 <= i < |tokens| - 1 && tokens[i] == "--comment" && tokens[i + 1] == want
  }

  lemma CommentInjective(a: Tag, b: Tag)
    requires Comment(a) == Comment(b)
    ensures a == b
  {
    assert Comment(a)[|COMMENT_PREFIX|..] == a.text && Comment(b)[|COMMENT_PREFIX|..] == b.text;
  }

  /** A rule of ours carries its own comment and no other. */
  lemma OwnComment(r: Range, listenPort: nat, tag: Tag, want: string)
    ensures Carries(RuleArgs(r, listenPort, tag), want) <==> want == Comment(tag)
  {
    var rule := RuleArgs(r, listenPort, tag).args;
    assert rule[6] == "--comment" && rule[7] == Comment(tag);
    assert Comment(tag)[0] == 'N' && RangeString(r)[0] != '-' && Itoa(listenPort)[0] != '-';
    forall i | 0 <= i < |rule| - 1 && rule[i] == "--comment" ensures i == 6 {
      assert rule[i][0] == '-' && |rule[i]| == 9;
    }
  }

  // ----- chains

  /** The rules of a chain that carry a comment, or those that do not. */
  function Only(chain: seq<Rule>, want: string, carrying: bool): seq<Rule> {
    if chain == [] then []
    else Kept(chain[0], want, carrying) + Only(chain[1..], want, carrying)
  }

  function Kept(x: Rule, want: string, carrying: bool): seq<Rule> {
    if Carries(x, want) == carrying then [x] else []
  }

  function Tagged(chain: seq<Rule>, want: string): seq<Rule> {
    Only(chain, want, true)
  }

  function Others(chain: seq<Rule>, want: string): seq<Rule> {
    Only(chain, want, false)
  }

  /** The chain without its first occurrence of a rule. */
  function RemoveFirst(chain: seq<Rule>, rule: Rule): seq<Rule> {
    if chain == [] then []
    else if chain[0] == rule then chain[1..]
    else [chain[0]] + RemoveFirst(chain[1..], rule)
  }

  lemma OnlyCons(x: Rule, chain: seq<Rule>, want: string, carrying: bool)
    ensures Only([x] + chain, want, carrying) == Kept(x, want, carrying) + Only(chain, want, carrying)
  {
    assert ([x] + chain)[1..] == chain;
  }

  lemma RemoveCons(x: Rule, chain: seq<Rule>, y: Rule)
    ensures RemoveFirst([x] + chain, y) == if x == y then chain else [x] + RemoveFirst(chain, y)
  {
    assert ([x] + chain)[1..] == chain;
  }

  lemma {:induction false} Appended(chain: seq<Rule>, x: Rule, want: string, carrying: bool)
    ensures Only(chain + [x], want, carrying) == Only(chain, want, carrying) + Kept(x, want, carrying)
  {
    if chain == [] {
      assert chain + [x] == [x] + [];
      OnlyCons(x, [], want, carrying);
    } else {
      var rest := chain[1..];
      Appended(rest, x, want, carrying);
      assert chain + [x] == [chain[0]] + (rest + [x]);
      OnlyCons(chain[0], rest + [x], want, carrying);
    }
  }

  lemma {:induction false} OnlyIn(chain: seq<Rule>, x: Rule, want: string, carrying: bool)
    ensures x in Only(chain, want, carrying) <==> x in chain && Carries(x, want) == carrying
  {
    if chain != [] {
      OnlyIn(chain[1..], x, want, carrying);
    }
  }

  /** Deleting a rule deletes it from the rules of its kind and leaves those of the other kind alone. */
  lemma {:induction false} Deleted(chain: seq<Rule>, x: Rule, want: string, carrying: bool)
    requires x in chain
    ensures Only(RemoveFirst(chain, x), want, carrying) ==
              if Carries(x, want) == carrying then RemoveFirst(Only(chain, want, carrying), x)
              else Only(chain, want, carrying)
  {
    var rest := Only(chain[1..], want, carrying);
    if chain[0] == x {
      RemoveCons(x, rest, x);
      assert [] + rest == rest;
    } else {
      Deleted(chain[1..], x, want, carrying);
      OnlyCons(chain[0], RemoveFirst(chain[1..], x), want, carrying);
      RemoveCons(chain[0], rest, x);
      var rest' := Only(RemoveFirst(chain[1..], x), want, carrying);
      assert [] + rest == rest && [] + rest' == rest';
    }
  }

  lemma {:induction false} NoneTagged(chain: seq<Rule>, want: string)
    requires Tagged(chain, want) == []
    ensures Others(chain, want) == chain
  {
    if chain != [] {
      NoneTagged(chain[1..], want);
      assert chain == [chain[0]] + chain[1..];
    }
  }

  lemma {:induction false} RemovedCount(chain: seq<Rule>, x: Rule)
    requires x in chain
    ensures multiset(RemoveFirst(chain, x)) == multiset(chain) - multiset{x}
  {
    assert chain == [chain[0]] + chain[1..];
    if chain[0] != x {
      RemovedCount(chain[1..], x);
    }
  }

  // ----- reading a listed chain

  /** The rule that one line of a listing names, if it carries the comment. */
  function StaleLine(line: string, want: string): seq<Rule> {
    var tokens := Tokenize(line);
    if |tokens| < 2 || tokens[0] != "-A" || tokens[1] != "PREROUTING" || !Mentions(tokens, want) then []
    else [Rule(tokens[2..])]
  }

  function StaleIn(lines: seq<string>, want: string): seq<Rule> {
    if lines == [] then [] else StaleIn(lines[..|lines| - 1], want) + StaleLine(lines[|lines| - 1], want)
  }

  /** The body of `staleRules` for one line. */
  method StaleRule(line: string, want: string) returns (rules: seq<Rule>)
    ensures rules == StaleLine(line, want)
  {
    rules := [];
    var tokens := TokenizeRule(line);
    if |tokens| < 2 || tokens[0] != "-A" || tokens[1] != "PREROUTING" {
      return;
    }
    for i := 0 to |tokens|
      invariant rules == []
      invariant forall j | 0 <= j < i && j < |tokens| - 1 :: tokens[j] != "--comment" || tokens[j + 1] != want
    {
      if tokens[i] != "--comment" || i + 1 >= |tokens| || tokens[i + 1] != want {
        continue;
      }
      rules := [Rule(tokens[2..])];
      break;
    }
  }

  /** `staleRules`, on the lines of a listing. */
  method StaleRules(lines: seq<string>, want: string) returns (rules: seq<Rule>)
    ensures rules == StaleIn(lines, want)
  {
    rules := [];
    for n := 0 to |lines|
      invariant rules == StaleIn(lines[..n], want)
    {
      assert lines[..n + 1][..n] == lines[..n];
      var rule := StaleRule(lines[n], want);
      rules := rules + rule;
    }
    assert lines[..|lines|] == lines;
  }

  function RuleLine(st: Style, rule: Rule): string {
    Print(st, ["-A", "PREROUTING"] + rule.args)
  }

  /** How the firewall lists a chain: some lines that are no rules of it, the rules, and an empty last line. */
  function Lines(st: Style, header: seq<string>, chain: seq<Rule>): seq<string> {
    if chain == [] then header
    else Lines(st, header, chain[..|chain| - 1]) + [RuleLine(st, chain[|chain| - 1])]
  }

  function Listing(st: Style, header: seq<string>, chain: seq<Rule>): seq<string> {
    Lines(st, header, chain) + [""]
  }

  /** A line names a rule of the chain: its tokens are "-A", "PREROUTING" and the rule's arguments. */
  ghost predicate NamesRule(line: string, rule: Rule) {
    Tokenize(line) == ["-A", "PREROUTING"] + rule.args
  }

  /** A rule is read out of a line exactly when the line names it and it carries the comment. */
  lemma StaleLineIff(line: string, want: string)
    ensures forall rule :: rule in StaleLine(line, want) <==>
              NamesRule(line, rule) &&
              exists i :: 0 <= i < |rule.args| - 1 && rule.args[i] == "--comment" && rule.args[i + 1] == want
    ensures |StaleLine(line, want)| <= 1
  {
    var tokens := Tokenize(line);
    forall rule | NamesRule(line, rule)
      ensures tokens[2..] == rule.args && (Mentions(tokens, want) <==> Mentions(rule.args, want))
    {
      MentionsBehind(rule.args, want);
    }
    if StaleLine(line, want) != [] {
      assert tokens == ["-A", "PREROUTING"] + tokens[2..];
      assert NamesRule(line, Rule(tokens[2..]));
    }
  }

  /** Lines that name no rule of the chain, such as its policy. */
  ghost predicate Quiet(header: seq<string>) {
    forall line, rule | line in header :: !NamesRule(line, rule)
  }

  lemma {:induction false} QuietIn(header: seq<string>, want: string)
    requires Quiet(header)
    ensures StaleIn(header, want) == []
  {
    if header != [] {
      var n := |header| - 1;
      assert header == header[..n] + [header[n]];
      QuietIn(header[..n], want);
      StaleLineIff(header[n], want);
    }
  }

  lemma MentionsBehind(args: seq<string>, want: string)
    ensures Mentions(["-A", "PREROUTING"] + args, want) <==> Mentions(args, want)
  {
    var tokens := ["-A", "PREROUTING"] + args;
    if i :| 0 <= i < |tokens| - 1 && tokens[i] == "--comment" && tokens[i + 1] == want {
      assert |tokens[0]| == 2 && |tokens[1]| == 10;
      assert args[i - 2] == "--comment" && args[i - 1] == want;
    }
    if i :| 0 <= i < |args| - 1 && args[i] == "--comment" && args[i + 1] == want {
      assert tokens[i + 2] == "--comment" && tokens[i + 3] == want;
    }
  }

  lemma RuleLineReadsBack(st: Style, rule: Rule, want: string)
    requires st.Sound()
    ensures StaleLine(RuleLine(st, rule), want) == Kept(rule, want, true)
  {
    var tokens := ["-A", "PREROUTING"] + rule.args;
    TokenizeUndoesPrint(st, tokens);
    MentionsBehind(rule.args, want);
    assert tokens[2..] == rule.args && tokens[0] == "-A" && tokens[1] == "PREROUTING";
  }

  lemma StaleSnoc(lines: seq<string>, line: string, want: string)
    ensures StaleIn(lines + [line], want) == StaleIn(lines, want) + StaleLine(line, want)
  {
    assert (lines + [line])[..|lines|] == lines;
  }

  lemma {:induction false} StaleLines(st: Style, header: seq<string>, chain: seq<Rule>, want: string)
    requires st.Sound() && Quiet(header)
    ensures StaleIn(Lines(st, header, chain), want) == Tagged(chain, want)
  {
    if chain == [] {
      QuietIn(header, want);
    } else {
      var front, last := chain[..|chain| - 1], chain[|chain| - 1];
      StaleLines(st, header, front, want);
      StaleSnoc(Lines(st, header, front), RuleLine(st, last), want);
      RuleLineReadsBack(st, last, want);
      Appended(front, last, want, true);
      assert front + [last] == chain;
    }
  }

  /** Reading a listed chain finds exactly the rules that carry the comment, each as often as it is there. */
  lemma StaleRulesOfListing(st: Style, header: seq<string>, chain: seq<Rule>, want: string)
    requires st.Sound() && Quiet(header)
    ensures StaleIn(Listing(st, header, chain), want) == Tagged(chain, want)
  {
    StaleLines(st, header, chain, want);
    StaleSnoc(Lines(st, header, chain), "", want);
    assert Tokenize("") == [];
  }
}
