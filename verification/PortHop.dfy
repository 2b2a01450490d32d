/**
 The port-hopping firewall manager (common/porthop/porthop.go): `Apply`, `remove`, `RemoveAll`,
 `rollback` and `removeStale`, against a firewall whose commands may fail at any call.

 The chains are handed from command to command.  A `Plan` says which commands of a call work: any of
 them may fail.  A command that fails changes nothing; a delete also fails when no rule matches and
 otherwise takes out the first match.  Nobody else edits the chains while a manager runs.
 */
module PortHop {
  import opened Common
  import opened Tokenizer
  import opened FirewallRules
  import opened RuleEffect

  datatype Command = Iptables | Ip6tables

  function Other(c: Command): Command {
    if c.Iptables? then Ip6tables else Iptables
  }

  datatype Redirect = Redirect(tag: Tag, listenPort: nat, ranges: seq<Range>)

  /** One rule that an `Apply` in progress has put in place. */
  datatype InstalledRule = InstalledRule(command: Command, range: Range)

  /** The nat PREROUTING chain of each command. */
  datatype Chains = Chains(v4: seq<Rule>, v6: seq<Rule>) {
    function Of(c: Command): seq<Rule> { if c.Iptables? then v4 else v6 }
    function With(c: Command, chain: seq<Rule>): Chains {
      if c.Iptables? then this.(v4 := chain) else this.(v6 := chain)
    }
  }

  // ----- the host

  /**
   What a manager finds on its host.  The firewall keeps rules in a normal form of its own (iptables
   adds "-m udp", for example): `norm` may be any function that leaves alone what is already normal,
   which comments a rule carries, which ports it matches and where it sends them.  `style` and `header`
   say how it lists a chain.
   */
  datatype Host = Host(
    linux: bool, hasIptables: bool, hasIp6tables: bool, norm: Rule -> Rule, style: Style, header: seq<string>)
  {
    ghost predicate Sane() {
      && (forall r {:trigger norm(norm(r))} :: norm(norm(r)) == norm(r))
      && (forall r, want {:trigger Carries(norm(r), want)} :: Carries(norm(r), want) <==> Carries(r, want))
      && (forall r, p {:trigger Matches(norm(r), p)} :: Matches(norm(r), p) <==> Matches(r, p))
      && (forall r, q {:trigger RedirectsTo(norm(r), q)} :: RedirectsTo(norm(r), q) <==> RedirectsTo(r, q))
      && style.Sound() && Quiet(header)
    }

    predicate Drives(c: Command) {
      c.Iptables? || hasIp6tables
    }

    /** The rule a range of a redirect becomes. */
    function RuleFor(r: Redirect, range: Range): Rule {
      norm(RuleArgs(range, r.listenPort, r.tag))
    }

    ghost function RulesFor(r: Redirect, ranges: seq<Range>): seq<Rule> {
      if ranges == [] then [] else RulesFor(r, ranges[..|ranges| - 1]) + [RuleFor(r, ranges[|ranges| - 1])]
    }
  }

  /** Every rule kept is in normal form. */
  ghost predicate Normal(h: Host, chains: Chains) {
    (forall r | r in chains.v4 :: h.norm(r) == r) && (forall r | r in chains.v6 :: h.norm(r) == r)
  }

  /** Which commands of a call work, in the order in which they are given. */
  type Plan = nat -> bool

  /** From the t-th command on all work. */
  ghost predicate AllWork(plan: Plan, t: nat) {
    forall i: nat | i >= t :: plan(i)
  }

  /** Two commands fail. */
  ghost predicate TwoFail(plan: Plan) {
    exists i: nat, j: nat :: i < j && !plan(i) && !plan(j)
  }

  method Append(h: Host, chains0: Chains, c: Command, rule: Rule, works: bool) returns (ok: bool, chains: Chains)
    requires h.Sane() && Normal(h, chains0)
    ensures Normal(h, chains) && ok == works
    ensures chains == if ok then chains0.With(c, chains0.Of(c) + [h.norm(rule)]) else chains0
  {
    ok := works;
    chains := if ok then chains0.With(c, chains0.Of(c) + [h.norm(rule)]) else chains0;
  }

  method Delete(h: Host, chains0: Chains, c: Command, rule: Rule, works: bool) returns (ok: bool, chains: Chains)
    requires Normal(h, chains0)
    ensures Normal(h, chains) && (ok <==> works && h.norm(rule) in chains0.Of(c))
    ensures chains == if ok then chains0.With(c, RemoveFirst(chains0.Of(c), h.norm(rule))) else chains0
  {
    ok := works && h.norm(rule) in chains0.Of(c);
    RemoveFirstIn(chains0.Of(c), h.norm(rule));
    chains := if ok then chains0.With(c, RemoveFirst(chains0.Of(c), h.norm(rule))) else chains0;
  }

  method List(h: Host, chains: Chains, c: Command, works: bool) returns (lines: Option<seq<string>>)
    ensures lines == if works then Some(Listing(h.style, h.header, chains.Of(c))) else None
  {
    lines := if works then Some(Listing(h.style, h.header, chains.Of(c))) else None;
  }

  lemma {:induction false} RemoveFirstIn(chain: seq<Rule>, x: Rule)
    ensures forall r | r in RemoveFirst(chain, x) :: r in chain
  {
    if chain != [] {
      RemoveFirstIn(chain[1..], x);
    }
  }

  // ----- what an operation for one comment may do to a chain

  /** No rule carries both comments. */
  ghost predicate Apart(chain: seq<Rule>, want: string, other: string) {
    forall r | r in chain :: !(Carries(r, want) && Carries(r, other))
  }

  /** The rule carries this comment and no other. */
  ghost predicate Pure(x: Rule, want: string) {
    forall w | Carries(x, w) :: w == want
  }

  /**
   Only rules under the comment were added or removed: all others keep their content and order, and so do
   the rules under any other comment that shared none with it.  What was added carries no other comment.
   */
  ghost predicate Touches(before: seq<Rule>, after: seq<Rule>, want: string) {
    && Others(after, want) == Others(before, want)
    && (forall w | w != want && Apart(before, want, w) ::
          Apart(after, want, w) && Tagged(after, w) == Tagged(before, w))
    && (forall x | x in after && Carries(x, want) :: x in before || Pure(x, want))
  }

  lemma DeleteTouches(chain: seq<Rule>, x: Rule, want: string)
    requires x in chain && Carries(x, want)
    ensures Touches(chain, RemoveFirst(chain, x), want)
    ensures Tagged(RemoveFirst(chain, x), want) == RemoveFirst(Tagged(chain, want), x)
  {
    Deleted(chain, x, want, false);
    Deleted(chain, x, want, true);
    RemoveFirstIn(chain, x);
    forall w | w != want && Apart(chain, want, w) ensures Tagged(RemoveFirst(chain, x), w) == Tagged(chain, w) {
      Deleted(chain, x, w, true);
    }
  }

  lemma AppendTouches(chain: seq<Rule>, x: Rule, want: string)
    requires forall w :: Carries(x, w) <==> w == want
    ensures Touches(chain, chain + [x], want)
    ensures Tagged(chain + [x], want) == Tagged(chain, want) + [x]
  {
    Appended(chain, x, want, false);
    Appended(chain, x, want, true);
    forall w | w != want ensures Tagged(chain + [x], w) == Tagged(chain, w) {
      Appended(chain, x, w, true);
    }
  }

  lemma TouchesTransitive(a: seq<Rule>, b: seq<Rule>, c: seq<Rule>, want: string)
    requires Touches(a, b, want) && Touches(b, c, want)
    ensures Touches(a, c, want)
  {
  }

  /** A chain was only touched under the tag's comment, and not at all by a command that is not there. */
  ghost predicate OnlyTouched(h: Host, before: Chains, after: Chains, tag: Tag) {
    && Touches(before.v4, after.v4, Comment(tag))
    && if h.hasIp6tables then Touches(before.v6, after.v6, Comment(tag)) else after.v6 == before.v6
  }

  lemma OnlyTouchedTransitive(h: Host, a: Chains, b: Chains, c: Chains, tag: Tag)
    requires OnlyTouched(h, a, b, tag) && OnlyTouched(h, b, c, tag)
    ensures OnlyTouched(h, a, c, tag)
  {
  }

  lemma Untouched(h: Host, chains: Chains, tag: Tag)
    ensures OnlyTouched(h, chains, chains, tag)
  {
  }

  /** The chains hold no rule under a tag's comment. */
  ghost predicate NoRules(h: Host, chains: Chains, tag: Tag) {
    && Tagged(chains.v4, Comment(tag)) == []
    && (h.hasIp6tables ==> Tagged(chains.v6, Comment(tag)) == [])
  }

  ghost function Driven(h: Host): set<Command> {
    {Iptables} + if h.hasIp6tables then {Ip6tables} else {}
  }

  /** The commands whose chain holds rules under a tag's comment. */
  ghost function Left(h: Host, chains: Chains, tag: Tag): set<Command> {
    set c | c in Driven(h) && Tagged(chains.Of(c), Comment(tag)) != []
  }

  lemma NoRulesIff(h: Host, chains: Chains, tag: Tag)
    ensures NoRules(h, chains, tag) <==> Left(h, chains, tag) == {}
  {
    assert Iptables in Left(h, chains, tag) <==> Tagged(chains.v4, Comment(tag)) != [];
    assert Ip6tables in Left(h, chains, tag) <==> h.hasIp6tables && Tagged(chains.v6, Comment(tag)) != [];
  }

  /** The chains hold exactly a redirect's rules under its comment. */
  ghost predicate Holds(h: Host, chains: Chains, r: Redirect) {
    && Tagged(chains.v4, Comment(r.tag)) == h.RulesFor(r, r.ranges)
    && (h.hasIp6tables ==> Tagged(chains.v6, Comment(r.tag)) == h.RulesFor(r, r.ranges))
  }

  /** Every chain is what it was without the tag's rules, followed by the given ones. */
  ghost predicate Replaced(h: Host, before: Chains, after: Chains, tag: Tag, rules: seq<Rule>) {
    && after.v4 == Others(before.v4, Comment(tag)) + rules
    && (h.hasIp6tables ==> after.v6 == Others(before.v6, Comment(tag)) + rules)
  }

  /** After a clean removal a chain is what it was without the tag's rules. */
  lemma Cleared(h: Host, before: Chains, after: Chains, tag: Tag)
    requires OnlyTouched(h, before, after, tag) && NoRules(h, after, tag)
    ensures Replaced(h, before, after, tag, [])
  {
    NoneTagged(after.v4, Comment(tag));
    assert after.v4 + [] == after.v4 && after.v6 + [] == after.v6;
    if h.hasIp6tables {
      NoneTagged(after.v6, Comment(tag));
    }
  }

  lemma ReplacedThenAppended(h: Host, before: Chains, base: Chains, after: Chains, tag: Tag, rules: seq<Rule>)
    requires Replaced(h, before, base, tag, [])
    requires after.v4 == base.v4 + rules && (h.hasIp6tables ==> after.v6 == base.v6 + rules)
    ensures Replaced(h, before, after, tag, rules)
  {
    assert Others(before.v4, Comment(tag)) + [] == Others(before.v4, Comment(tag));
    assert Others(before.v6, Comment(tag)) + [] == Others(before.v6, Comment(tag));
  }

  // ----- the rules of a redirect

  lemma RuleForCarries(h: Host, r: Redirect, range: Range, want: string)
    requires h.Sane()
    ensures Carries(h.RuleFor(r, range), want) <==> want == Comment(r.tag)
  {
    OwnComment(range, r.listenPort, r.tag, want);
  }

  lemma {:induction false} RulesForCarry(h: Host, r: Redirect, ranges: seq<Range>, x: Rule, want: string)
    requires h.Sane() && x in h.RulesFor(r, ranges)
    ensures Carries(x, want) <==> want == Comment(r.tag)
  {
    var n := |ranges| - 1;
    if x == h.RuleFor(r, ranges[n]) {
      RuleForCarries(h, r, ranges[n], want);
    } else {
      RulesForCarry(h, r, ranges[..n], x, want);
    }
  }

  lemma {:induction false} RulesForLength(h: Host, r: Redirect, ranges: seq<Range>)
    ensures |h.RulesFor(r, ranges)| == |ranges|
  {
    if ranges != [] {
      RulesForLength(h, r, ranges[..|ranges| - 1]);
    }
  }

  lemma {:induction false} RulesForAt(h: Host, r: Redirect, ranges: seq<Range>, i: nat)
    requires i < |ranges|
    ensures i < |h.RulesFor(r, ranges)| && h.RulesFor(r, ranges)[i] == h.RuleFor(r, ranges[i])
  {
    var n := |ranges| - 1;
    RulesForLength(h, r, ranges[..n]);
    if i < n {
      RulesForAt(h, r, ranges[..n], i);
    }
  }

  // ----- what a redirect's rules do

  /** Some rule of the chain with this comment matches port p. */
  ghost predicate Matched(chain: seq<Rule>, want: string, p: nat) {
    exists x :: x in chain && Carries(x, want) && Matches(x, p)
  }

  predicate InSome(ranges: seq<Range>, p: nat) {
    exists i :: 0 <= i < |ranges| && ranges[i].from <= p <= ranges[i].to
  }

  /** The chain's rules with this comment match exactly the ports of the ranges and send them to one port. */
  ghost predicate Redirects(chain: seq<Rule>, want: string, ranges: seq<Range>, port: nat) {
    && (forall p: nat :: Matched(chain, want, p) <==> InSome(ranges, p))
    && (forall x, q: nat | x in chain && Carries(x, want) :: RedirectsTo(x, q) <==> q == port)
  }

  /** In every chain the redirect is in force. */
  ghost predicate InForce(h: Host, chains: Chains, r: Redirect) {
    && Redirects(chains.v4, "N2X:porthop:" + r.tag.text, r.ranges, r.listenPort)
    && (h.hasIp6tables ==> Redirects(chains.v6, "N2X:porthop:" + r.tag.text, r.ranges, r.listenPort))
  }

  lemma RuleForDoes(h: Host, r: Redirect, range: Range)
    requires h.Sane()
    ensures forall p: nat :: Matches(h.RuleFor(r, range), p) <==> range.from <= p <= range.to
    ensures forall q: nat :: RedirectsTo(h.RuleFor(r, range), q) <==> q == r.listenPort
  {
    RuleDoes(range, r.listenPort, r.tag);
  }

  lemma {:induction false} RulesForIn(h: Host, r: Redirect, ranges: seq<Range>, x: Rule) returns (i: nat)
    requires x in h.RulesFor(r, ranges)
    ensures i < |ranges| && x == h.RuleFor(r, ranges[i])
  {
    i := |ranges| - 1;
    if x != h.RuleFor(r, ranges[i]) {
      i := RulesForIn(h, r, ranges[..|ranges| - 1], x);
    }
  }

  lemma HeldRedirects(h: Host, r: Redirect, chain: seq<Rule>)
    requires h.Sane() && Tagged(chain, Comment(r.tag)) == h.RulesFor(r, r.ranges)
    ensures Redirects(chain, Comment(r.tag), r.ranges, r.listenPort)
  {
    var want := Comment(r.tag);
    forall x | x in chain && Carries(x, want)
      ensures forall q: nat :: RedirectsTo(x, q) <==> q == r.listenPort
      ensures forall p: nat | Matches(x, p) :: InSome(r.ranges, p)
    {
      OnlyIn(chain, x, want, true);
      var i := RulesForIn(h, r, r.ranges, x);
      RuleForDoes(h, r, r.ranges[i]);
    }
    forall p: nat | InSome(r.ranges, p) ensures Matched(chain, want, p) {
      var i :| 0 <= i < |r.ranges| && r.ranges[i].from <= p <= r.ranges[i].to;
      RulesForAt(h, r, r.ranges, i);
      RuleForDoes(h, r, r.ranges[i]);
      OnlyIn(chain, h.RuleFor(r, r.ranges[i]), want, true);
      assert Matches(h.RuleFor(r, r.ranges[i]), p);
    }
  }

  /** A redirect whose rules are held is in force. */
  lemma HeldIsInForce(h: Host, chains: Chains, r: Redirect)
    requires h.Sane() && Holds(h, chains, r)
    ensures InForce(h, chains, r)
  {
    HeldRedirects(h, r, chains.v4);
    if h.hasIp6tables {
      HeldRedirects(h, r, chains.v6);
    }
  }

  // ----- deleting what is there

  /** One delete of a rule under a comment. */
  method DeleteUnder(h: Host, chains0: Chains, c: Command, rule: Rule, works: bool, ghost want: string)
    returns (ok: bool, chains: Chains)
    requires Normal(h, chains0) && Carries(h.norm(rule), want)
    ensures Normal(h, chains) && chains == chains0.With(c, chains.Of(c))
    ensures Touches(chains0.Of(c), chains.Of(c), want)
    ensures ok <==> works && h.norm(rule) in Tagged(chains0.Of(c), want)
    ensures Tagged(chains.Of(c), want) ==
              if ok then RemoveFirst(Tagged(chains0.Of(c), want), h.norm(rule)) else Tagged(chains0.Of(c), want)
  {
    ok, chains := Delete(h, chains0, c, rule, works);
    OnlyIn(chains0.Of(c), h.norm(rule), want, true);
    if ok {
      DeleteTouches(chains0.Of(c), h.norm(rule), want);
    }
  }

  lemma RemoveHead(rules: seq<Rule>, i: nat)
    requires i < |rules|
    ensures RemoveFirst(rules[i..], rules[i]) == rules[i + 1..]
  {
    RemoveCons(rules[i], rules[i + 1..], rules[i]);
    assert rules[i..] == [rules[i]] + rules[i + 1..];
  }

  lemma {:induction false} RemoveFirstLength(rules: seq<Rule>, x: Rule)
    ensures |RemoveFirst(rules, x)| == if x in rules then |rules| - 1 else |rules|
  {
    if rules != [] && rules[0] != x {
      RemoveFirstLength(rules[1..], x);
    }
  }

  /**
   Half-way through a list of deletes: as long as every one worked, what is left under the comment is the
   rest of the list; after one that failed it is more than that.
   */
  ghost predicate Deleting(left: seq<Rule>, rules: seq<Rule>, i: nat, ok: bool) {
    i <= |rules| && if ok then left == rules[i..] else |left| > |rules| - i
  }

  lemma DeletingStep(left: seq<Rule>, left': seq<Rule>, rules: seq<Rule>, i: nat, ok: bool, deleted: bool)
    requires i < |rules| && Deleting(left, rules, i, ok)
    requires left' == if deleted then RemoveFirst(left, rules[i]) else left
    ensures Deleting(left', rules, i + 1, ok && deleted)
  {
    RemoveHead(rules, i);
    RemoveFirstLength(left, rules[i]);
  }

  /** One round of the two loops that delete a list of rules; `start` is the chains before the first. */
  method DeleteNext(h: Host, chains0: Chains, c: Command, rule: Rule, works: bool, ok0: bool,
                    ghost want: string, ghost start: Chains, ghost rules: seq<Rule>, ghost i: nat)
    returns (ok: bool, chains: Chains)
    requires Normal(h, chains0) && chains0 == start.With(c, chains0.Of(c))
    requires Touches(start.Of(c), chains0.Of(c), want)
    requires i < |rules| && h.norm(rule) == rules[i] && Carries(rules[i], want)
    requires Deleting(Tagged(chains0.Of(c), want), rules, i, ok0)
    ensures Normal(h, chains) && chains == start.With(c, chains.Of(c))
    ensures Touches(start.Of(c), chains.Of(c), want)
    ensures Deleting(Tagged(chains.Of(c), want), rules, i + 1, ok) && (ok <==> ok0 && works)
  {
    var deleted;
    deleted, chains := DeleteUnder(h, chains0, c, rule, works, want);
    TouchesTransitive(start.Of(c), chains0.Of(c), chains.Of(c), want);
    DeletingStep(Tagged(chains0.Of(c), want), Tagged(chains.Of(c), want), rules, i, ok0, deleted);
    assert ok0 ==> rules[i..][0] == rules[i];
    ok := ok0 && deleted;
  }

  /**
   The body of `removeStale` for one command.  Once the chain has been listed, success is reported exactly
   when no rule is left under the comment.
   */
  method RemoveStaleOn(h: Host, chains0: Chains, c: Command, tag: Tag, plan: Plan, t0: nat)
    returns (ok: bool, chains: Chains, t: nat)
    requires h.Sane() && Normal(h, chains0)
    ensures Normal(h, chains) && chains == chains0.With(c, chains.Of(c))
    ensures Touches(chains0.Of(c), chains.Of(c), Comment(tag))
    ensures plan(t0) ==> (ok <==> Tagged(chains.Of(c), Comment(tag)) == [])
    ensures !plan(t0) ==> !ok && chains == chains0
    ensures t >= t0 && (AllWork(plan, t0) ==> ok)
  {
    var want := Comment(tag);
    chains, t := chains0, t0 + 1;
    var lines := List(h, chains, c, plan(t0));
    if lines.None? {
      return false, chains, t;
    }
    StaleRulesOfListing(h.style, h.header, chains.Of(c), want);
    var rules := StaleRules(lines.value, want);
    ok := true;
    for i := 0 to |rules|
      invariant Normal(h, chains) && chains == chains0.With(c, chains.Of(c))
      invariant Touches(chains0.Of(c), chains.Of(c), want)
      invariant Deleting(Tagged(chains.Of(c), want), rules, i, ok)
      invariant t >= t0 && (AllWork(plan, t0) ==> ok)
    {
      OnlyIn(chains0.Of(c), rules[i], want, true);
      ok, chains := DeleteNext(h, chains, c, rules[i], plan(t), ok, want, chains0, rules, i);
      t := t + 1;
    }
  }

  /**
   `removeStale`: every command is tried, and the result says whether all of it worked.  Rules are left
   exactly where a delete failed, or where there were some and the chain could not be listed.
   */
  method RemoveStale(h: Host, chains0: Chains, tag: Tag, plan: Plan, t0: nat)
    returns (ok: bool, chains: Chains, t: nat, ghost failed: set<Command>, ghost unlisted: set<Command>)
    requires h.Sane() && Normal(h, chains0)
    ensures Normal(h, chains) && OnlyTouched(h, chains0, chains, tag)
    ensures h.linux && h.hasIptables ==>
      && Left(h, chains, tag) == failed + (unlisted * Left(h, chains0, tag))
      && (!plan(t0) ==> !ok && chains.v4 == chains0.v4 && Iptables in unlisted)
    ensures (ok <==> failed + unlisted == {}) && failed + unlisted <= Driven(h)
    ensures t >= t0 && (AllWork(plan, t0) ==> ok)
  {
    failed, unlisted := {}, {};
    if !h.linux || !h.hasIptables {
      return true, chains0, t0, failed, unlisted;
    }
    ok, chains, t := RemoveStaleOn(h, chains0, Iptables, tag, plan, t0);
    failed := if plan(t0) && !ok then {Iptables} else {};
    unlisted := if plan(t0) then {} else {Iptables};
    if h.hasIp6tables {
      var ok6;
      ghost var t1 := t;
      ok6, chains, t := RemoveStaleOn(h, chains, Ip6tables, tag, plan, t);
      failed := failed + if plan(t1) && !ok6 then {Ip6tables} else {};
      unlisted := unlisted + if plan(t1) then {} else {Ip6tables};
      ok := ok && ok6;
    }
  }

  /**
   The body of `remove` for one command: the recorded rules are deleted in order, and success is reported
   exactly when none is left under the comment.
   */
  method RemoveOn(h: Host, chains0: Chains, c: Command, r: Redirect, plan: Plan, t0: nat)
    returns (ok: bool, chains: Chains, t: nat)
    requires h.Sane() && Normal(h, chains0) && Tagged(chains0.Of(c), Comment(r.tag)) == h.RulesFor(r, r.ranges)
    ensures Normal(h, chains) && chains == chains0.With(c, chains.Of(c))
    ensures Touches(chains0.Of(c), chains.Of(c), Comment(r.tag))
    ensures ok <==> Tagged(chains.Of(c), Comment(r.tag)) == []
    ensures t >= t0 && (AllWork(plan, t0) ==> ok)
  {
    var want := Comment(r.tag);
    ghost var rules := h.RulesFor(r, r.ranges);
    RulesForLength(h, r, r.ranges);
    chains, ok, t := chains0, true, t0;
    for i := 0 to |r.ranges|
      invariant Normal(h, chains) && chains == chains0.With(c, chains.Of(c))
      invariant Touches(chains0.Of(c), chains.Of(c), want)
      invariant Deleting(Tagged(chains.Of(c), want), rules, i, ok)
      invariant t >= t0 && (AllWork(plan, t0) ==> ok)
    {
      var rule := RuleArgs(r.ranges[i], r.listenPort, r.tag);
      RuleForCarries(h, r, r.ranges[i], want);
      RulesForAt(h, r, r.ranges, i);
      ok, chains := DeleteNext(h, chains, c, rule, plan(t), ok, want, chains0, rules, i);
      t := t + 1;
    }
  }

  // ----- installing

  /** What the rules put in place so far are, command by command. */
  ghost function InstalledOn(h: Host, r: Redirect, installed: seq<InstalledRule>, c: Command): seq<Rule> {
    if installed == [] then []
    else
      var n := |installed| - 1;
      InstalledOn(h, r, installed[..n], c) + if installed[n].command ==
          c then [h.RuleFor(r, installed[n].range)] else []
  }

  lemma InstalledSnoc(h: Host, r: Redirect, installed: seq<InstalledRule>, c: Command, range: Range, d: Command)
    ensures InstalledOn(h, r, installed + [InstalledRule(c, range)], d) ==
              InstalledOn(h, r, installed, d) + if c == d then [h.RuleFor(r, range)] else []
  {
    assert (installed + [InstalledRule(c, range)])[..|installed|] == installed;
  }

  /** Appending a redirect's rules touches nothing but its own comment. */
  lemma {:induction false} InstalledTouches(
      h: Host, r: Redirect, chain: seq<Rule>, installed: seq<InstalledRule>, c: Command)
    requires h.Sane()
    ensures Touches(chain, chain + InstalledOn(h, r, installed, c), Comment(r.tag))
    ensures Tagged(chain + InstalledOn(h, r, installed, c), Comment(r.tag)) ==
              Tagged(chain, Comment(r.tag)) + InstalledOn(h, r, installed, c)
  {
    if installed == [] {
      assert chain + [] == chain;
    } else {
      var n := |installed| - 1;
      var front := InstalledOn(h, r, installed[..n], c);
      InstalledTouches(h, r, chain, installed[..n], c);
      if installed[n].command == c {
        var x := h.RuleFor(r, installed[n].range);
        forall w ensures Carries(x, w) <==> w == Comment(r.tag) {
          RuleForCarries(h, r, installed[n].range, w);
        }
        AppendTouches(chain + front, x, Comment(r.tag));
        assert chain + front + [x] == chain + (front + [x]);
        TouchesTransitive(chain, chain + front, chain + front + [x], Comment(r.tag));
      } else {
        assert front + [] == front;
      }
    }
  }

  /** The chains are what they were, followed by the rules put in place. */
  ghost predicate InPlace(h: Host, r: Redirect, base: Chains, installed: seq<InstalledRule>, chains: Chains) {
    && chains.v4 == base.v4 + InstalledOn(h, r, installed, Iptables)
    && chains.v6 == base.v6 + InstalledOn(h, r, installed, Ip6tables)
  }

  lemma InPlaceOneMore(
      h: Host, r: Redirect, base: Chains, installed: seq<InstalledRule>, chains: Chains, c: Command, range: Range)
    requires InPlace(h, r, base, installed, chains)
    ensures InPlace(h, r, base, installed + [InstalledRule(c, range)], chains.With(c, chains.Of(c) + [h.RuleFor(r,
              range)]))
  {
    InstalledSnoc(h, r, installed, c, range, Iptables);
    InstalledSnoc(h, r, installed, c, range, Ip6tables);
  }

  lemma NothingInPlace(h: Host, r: Redirect, chains: Chains)
    ensures InPlace(h, r, chains, [], chains)
    ensures forall c :: InstalledOn(h, r, [], c) == []
    ensures [] + h.RulesFor(r, r.ranges) == h.RulesFor(r, r.ranges)
  {
    assert chains.v4 + [] == chains.v4 && chains.v6 + [] == chains.v6;
  }

  /** Every range of a list, for one command. */
  ghost function Pairs(c: Command, ranges: seq<Range>): seq<InstalledRule> {
    if ranges == [] then [] else Pairs(c, ranges[..|ranges| - 1]) + [InstalledRule(c, ranges[|ranges| - 1])]
  }

  lemma {:induction false} InstalledPairs(
      h: Host, r: Redirect, installed: seq<InstalledRule>, c: Command, ranges: seq<Range>, d: Command)
    ensures InstalledOn(h, r, installed + Pairs(c, ranges), d) ==
              InstalledOn(h, r, installed, d) + if c == d then h.RulesFor(r, ranges) else []
  {
    if ranges == [] {
      assert installed + [] == installed;
    } else {
      var n := |ranges| - 1;
      var front, range := ranges[..n], ranges[n];
      InstalledPairs(h, r, installed, c, front, d);
      InstalledSnoc(h, r, installed + Pairs(c, front), c, range, d);
      Assoc(installed, Pairs(c, front), [InstalledRule(c, range)]);
      Assoc(InstalledOn(h, r, installed, d), h.RulesFor(r, front), [h.RuleFor(r, range)]);
    }
  }

  lemma Snoc<T>(s: seq<T>, i: nat)
    requires i < |s|
    ensures s[..i + 1] == s[..i] + [s[i]]
  {
  }

  lemma Assoc<T>(a: seq<T>, b: seq<T>, c: seq<T>)
    ensures a + b + c == a + (b + c)
  {
  }

  lemma PairsOneMore(before: seq<InstalledRule>, c: Command, ranges: seq<Range>, i: nat)
    requires i < |ranges|
    ensures before + Pairs(c, ranges[..i + 1]) == before + Pairs(c, ranges[..i]) + [InstalledRule(c, ranges[i])]
  {
    assert ranges[..i + 1][..i] == ranges[..i];
  }

  lemma {:induction false} PairsCommand(c: Command, ranges: seq<Range>)
    ensures forall x | x in Pairs(c, ranges) :: x.command == c
  {
    if ranges != [] {
      PairsCommand(c, ranges[..|ranges| - 1]);
    }
  }

  /** The inner loop of the installation: the first k ranges are put in place. */
  method InstallOn(h: Host, chains0: Chains, c: Command, r: Redirect, installed0: seq<InstalledRule>,
                   plan: Plan, t0: nat, ghost base: Chains)
    returns (ok: bool, chains: Chains, installed: seq<InstalledRule>, t: nat, ghost k: nat)
    requires h.Sane() && Normal(h, chains0) && InPlace(h, r, base, installed0, chains0)
    ensures Normal(h, chains) && InPlace(h, r, base, installed, chains)
    ensures k <= |r.ranges| && installed == installed0 + Pairs(c, r.ranges[..k]) && (ok <==> k == |r.ranges|)
    ensures t >= t0 && (!ok ==> t0 < t && !plan(t - 1))
  {
    chains, installed, t, k := chains0, installed0, t0, 0;
    for i := 0 to |r.ranges|
      invariant Normal(h, chains) && InPlace(h, r, base, installed, chains)
      invariant k == i && t >= t0 && installed == installed0 + Pairs(c, r.ranges[..i])
    {
      InPlaceOneMore(h, r, base, installed, chains, c, r.ranges[i]);
      ok, chains := Append(h, chains, c, RuleArgs(r.ranges[i], r.listenPort, r.tag), plan(t));
      t := t + 1;
      if !ok {
        return false, chains, installed, t, k;
      }
      PairsOneMore(installed0, c, r.ranges, i);
      installed := installed + [InstalledRule(c, r.ranges[i])];
      k := k + 1;
    }
    ok := true;
  }

  /** The loops of the installation. */
  method Install(h: Host, chains0: Chains, r: Redirect, plan: Plan, t0: nat)
    returns (ok: bool, chains: Chains, installed: seq<InstalledRule>, t: nat)
    requires h.Sane() && Normal(h, chains0)
    ensures Normal(h, chains) && InPlace(h, r, chains0, installed, chains)
    ensures forall x | x in installed :: h.Drives(x.command)
    ensures !h.hasIp6tables ==> InstalledOn(h, r, installed, Ip6tables) == []
    ensures ok ==> InstalledOn(h, r, installed, Iptables) == h.RulesFor(r, r.ranges)
    ensures ok && h.hasIp6tables ==> InstalledOn(h, r, installed, Ip6tables) == h.RulesFor(r, r.ranges)
    ensures t >= t0 && (!ok ==> t0 < t && !plan(t - 1))
  {
    ok, chains, installed, t := InstallFirst(h, chains0, r, plan, t0);
    if ok && h.hasIp6tables {
      ok, chains, installed, t := InstallFor(h, chains, Ip6tables, r, installed, plan, t, chains0);
    }
  }

  /** The installation for the first command. */
  method InstallFirst(h: Host, chains0: Chains, r: Redirect, plan: Plan, t0: nat)
    returns (ok: bool, chains: Chains, installed: seq<InstalledRule>, t: nat)
    requires h.Sane() && Normal(h, chains0)
    ensures Normal(h, chains) && InPlace(h, r, chains0, installed, chains)
    ensures forall x | x in installed :: x.command == Iptables
    ensures InstalledOn(h, r, installed, Ip6tables) == []
    ensures ok ==> InstalledOn(h, r, installed, Iptables) == h.RulesFor(r, r.ranges)
    ensures t >= t0 && (!ok ==> t0 < t && !plan(t - 1))
  {
    NothingInPlace(h, r, chains0);
    ok, chains, installed, t := InstallFor(h, chains0, Iptables, r, [], plan, t0, chains0);
  }

  /** The installation for one more command. */
  method InstallFor(h: Host, chains0: Chains, c: Command, r: Redirect, installed0: seq<InstalledRule>,
                    plan: Plan, t0: nat, ghost base: Chains)
    returns (ok: bool, chains: Chains, installed: seq<InstalledRule>, t: nat)
    requires h.Sane() && Normal(h, chains0) && InPlace(h, r, base, installed0, chains0)
    ensures Normal(h, chains) && InPlace(h, r, base, installed, chains)
    ensures forall x | x in installed :: x in installed0 || x.command == c
    ensures InstalledOn(h, r, installed, Other(c)) == InstalledOn(h, r, installed0, Other(c))
    ensures ok ==> InstalledOn(h, r, installed, c) == InstalledOn(h, r, installed0, c) + h.RulesFor(r, r.ranges)
    ensures t >= t0 && (!ok ==> t0 < t && !plan(t - 1))
  {
    ghost var k;
    ok, chains, installed, t, k := InstallOn(h, chains0, c, r, installed0, plan, t0, base);
    AfterOne(h, r, installed0, c, installed, k);
  }

  /** What is in place after the first k ranges for one more command. */
  lemma AfterOne(
      h: Host, r: Redirect, before: seq<InstalledRule>, c: Command, installed: seq<InstalledRule>, k: nat)
    requires k <= |r.ranges| && installed == before + Pairs(c, r.ranges[..k])
    ensures forall x | x in installed :: x in before || x.command == c
    ensures InstalledOn(h, r, installed, Other(c)) == InstalledOn(h, r, before, Other(c))
    ensures k == |r.ranges| ==>
              InstalledOn(h, r, installed, c) == InstalledOn(h, r, before, c) + h.RulesFor(r, r.ranges)
  {
    PairsCommand(c, r.ranges[..k]);
    InstalledPairs(h, r, before, c, r.ranges[..k], c);
    InstalledPairs(h, r, before, c, r.ranges[..k], Other(c));
    assert InstalledOn(h, r, before, Other(c)) + [] == InstalledOn(h, r, before, Other(c));
    if k == |r.ranges| {
      assert r.ranges[..k] == r.ranges;
    }
  }

  // ----- rolling back

  /**
   Half-way through a rollback: only the comment is touched, and if no delete failed what is left of it is
   still there; otherwise more than that.
   */
  ghost predicate RollingBack(
      h: Host, r: Redirect, before: Chains, left: seq<InstalledRule>, chains: Chains, clean: bool, c: Command)
  {
    var tagged := Tagged(chains.Of(c), Comment(r.tag));
    && Touches(before.Of(c), chains.Of(c), Comment(r.tag))
    && if clean then multiset(InstalledOn(h, r, left, c)) == multiset(tagged)
       else |InstalledOn(h, r, left, c)| < |tagged|
  }

  /** The same for all commands; `failed` are those a delete failed for. */
  ghost predicate AllRollingBack(
      h: Host, r: Redirect, before: Chains, left: seq<InstalledRule>, chains: Chains, failed: set<Command>)
  {
    && RollingBack(h, r, before, left, chains, Iptables !in failed, Iptables)
    && if h.hasIp6tables then RollingBack(h, r, before, left, chains, Ip6tables !in failed, Ip6tables)
       else chains.v6 == before.v6
  }

  lemma SameSize(a: seq<Rule>, b: seq<Rule>)
    requires multiset(a) == multiset(b)
    ensures |a| == |b|
  {
    assert |multiset(a)| == |a| && |multiset(b)| == |b|;
  }

  lemma RollBackOne(
      h: Host, r: Redirect, before: Chains, left: seq<InstalledRule>, chains: Chains, clean: bool, c: Command,
      range: Range)
    requires h.Sane() && h.RuleFor(r, range) in chains.Of(c)
    requires RollingBack(h, r, before, left + [InstalledRule(c, range)], chains, clean, c)
    ensures RollingBack(h, r, before, left, chains.With(c, RemoveFirst(chains.Of(c), h.RuleFor(r, range))), clean, c)
  {
    var x, chain, want := h.RuleFor(r, range), chains.Of(c), Comment(r.tag);
    InstalledSnoc(h, r, left, c, range, c);
    RuleForCarries(h, r, range, want);
    DeleteTouches(chain, x, want);
    TouchesTransitive(before.Of(c), chain, RemoveFirst(chain, x), want);
    OnlyIn(chain, x, want, true);
    RemovedCount(Tagged(chain, want), x);
    RemoveFirstLength(Tagged(chain, want), x);
  }

  /** A delete that fails leaves its rule. */
  lemma RollBackMissed(
      h: Host, r: Redirect, before: Chains, left: seq<InstalledRule>, chains: Chains, clean: bool, c: Command,
      range: Range)
    requires RollingBack(h, r, before, left + [InstalledRule(c, range)], chains, clean, c)
    ensures RollingBack(h, r, before, left, chains, false, c)
  {
    InstalledSnoc(h, r, left, c, range, c);
    if clean {
      SameSize(InstalledOn(h, r, left + [InstalledRule(c, range)], c), Tagged(chains.Of(c), Comment(r.tag)));
    }
  }

  /** The other command's chain is as it was. */
  lemma RollBackOther(
      h: Host, r: Redirect, before: Chains, left: seq<InstalledRule>, chains: Chains, chains': Chains, clean: bool,
      c: Command, range: Range, d: Command)
    requires c != d && chains'.Of(d) == chains.Of(d)
    requires RollingBack(h, r, before, left + [InstalledRule(c, range)], chains, clean, d)
    ensures RollingBack(h, r, before, left, chains', clean, d)
  {
    InstalledSnoc(h, r, left, c, range, d);
    assert InstalledOn(h, r, left, d) + [] == InstalledOn(h, r, left, d);
  }

  lemma RollBackStep(
      h: Host, r: Redirect, before: Chains, left: seq<InstalledRule>, chains: Chains, failed: set<Command>,
      c: Command, range: Range, deleted: bool)
    requires h.Sane() && h.Drives(c) && (deleted ==> h.RuleFor(r, range) in chains.Of(c))
    requires AllRollingBack(h, r, before, left + [InstalledRule(c, range)], chains, failed)
    ensures deleted ==>
              AllRollingBack(h, r, before, left, chains.With(c, RemoveFirst(chains.Of(c), h.RuleFor(r, range))), failed)
    ensures !deleted ==> AllRollingBack(h, r, before, left, chains, failed + {c})
  {
    var chains' := if deleted then chains.With(c, RemoveFirst(chains.Of(c), h.RuleFor(r, range))) else chains;
    var d := Other(c);
    if h.Drives(d) {
      RollBackOther(h, r, before, left, chains, chains', d !in failed, c, range, d);
    }
    if deleted {
      RollBackOne(h, r, before, left, chains, c !in failed, c, range);
    } else {
      RollBackMissed(h, r, before, left, chains, c !in failed, c, range);
    }
  }

  /** What is still to be rolled back is there, unless a delete has failed. */
  lemma StillThere(
      h: Host, r: Redirect, before: Chains, left: seq<InstalledRule>, chains: Chains, failed: set<Command>,
      c: Command, range: Range)
    requires h.Drives(c) && c !in failed
    requires AllRollingBack(h, r, before, left + [InstalledRule(c, range)], chains, failed)
    ensures h.RuleFor(r, range) in chains.Of(c)
  {
    var x := h.RuleFor(r, range);
    InstalledSnoc(h, r, left, c, range, c);
    assert RollingBack(h, r, before, left + [InstalledRule(c, range)], chains, true, c);
    assert x in InstalledOn(h, r, left + [InstalledRule(c, range)], c);
    assert x in multiset(Tagged(chains.Of(c), Comment(r.tag)));
    OnlyIn(chains.Of(c), x, Comment(r.tag), true);
  }

  /** One round of `rollback`. */
  method RollBackNext(h: Host, chains0: Chains, c: Command, range: Range, r: Redirect, works: bool,
                      ghost start: Chains, ghost left: seq<InstalledRule>, ghost failed0: set<Command>)
    returns (chains: Chains, ghost failed: set<Command>)
    requires h.Sane() && Normal(h, chains0) && h.Drives(c) && failed0 <= Driven(h)
    requires AllRollingBack(h, r, start, left + [InstalledRule(c, range)], chains0, failed0)
    ensures Normal(h, chains) && AllRollingBack(h, r, start, left, chains, failed) && failed <= Driven(h)
    ensures failed == failed0 || (failed == failed0 + {c} && !works)
  {
    var deleted;
    deleted, chains := Delete(h, chains0, c, RuleArgs(range, r.listenPort, r.tag), works);
    RollBackStep(h, r, start, left, chains0, failed0, c, range, deleted);
    if c !in failed0 {
      StillThere(h, r, start, left, chains0, failed0, c, range);
    }
    failed := if deleted then failed0 else failed0 + {c};
  }

  /** `rollback`; `failed` are the commands a delete failed for, and the `bad`-th command is such a delete. */
  method Rollback(h: Host, chains0: Chains, installed: seq<InstalledRule>, r: Redirect, plan: Plan, t0: nat)
    returns (chains: Chains, ghost failed: set<Command>, ghost bad: nat)
    requires h.Sane() && Normal(h, chains0) && AllRollingBack(h, r, chains0, installed, chains0, {})
    requires forall x | x in installed :: h.Drives(x.command)
    ensures Normal(h, chains) && AllRollingBack(h, r, chains0, [], chains, failed)
    ensures failed <= Driven(h) && (failed != {} ==> bad >= t0 && !plan(bad))
  {
    chains, failed, bad := chains0, {}, t0;
    var t := t0;
    var i := |installed|;
    assert installed[..i] == installed;
    while i > 0
      invariant 0 <= i <= |installed| && Normal(h, chains) && t >= t0
      invariant AllRollingBack(h, r, chains0, installed[..i], chains, failed)
      invariant failed <= Driven(h) && (failed != {} ==> bad >= t0 && !plan(bad))
    {
      i := i - 1;
      var InstalledRule(c, range) := installed[i];
      Snoc(installed, i);
      ghost var failed0 := failed;
      chains, failed := RollBackNext(h, chains, c, range, r, plan(t), chains0, installed[..i], failed);
      bad := if failed == failed0 then bad else t;
      t := t + 1;
    }
  }

  /** Rules are left exactly where a delete failed. */
  lemma RolledBack(h: Host, r: Redirect, before: Chains, chains: Chains, failed: set<Command>)
    requires AllRollingBack(h, r, before, [], chains, failed) && failed <= Driven(h)
    ensures OnlyTouched(h, before, chains, r.tag) && Left(h, chains, r.tag) == failed
  {
    forall c | c in Driven(h) ensures Tagged(chains.Of(c), Comment(r.tag)) != [] <==> c in failed {
      var tagged := Tagged(chains.Of(c), Comment(r.tag));
      assert InstalledOn(h, r, [], c) == [] && RollingBack(h, r, before, [], chains, c !in failed, c);
      if c !in failed {
        SameSize([], tagged);
      }
    }
  }

  /** What installing does, seen from chains without the tag's rules. */
  lemma InstalledOver(h: Host, r: Redirect, base: Chains, installed: seq<InstalledRule>, chains: Chains)
    requires h.Sane() && InPlace(h, r, base, installed, chains) && NoRules(h, base, r.tag)
    requires !h.hasIp6tables ==> InstalledOn(h, r, installed, Ip6tables) == []
    ensures OnlyTouched(h, base, chains, r.tag)
    ensures Tagged(chains.v4, Comment(r.tag)) == InstalledOn(h, r, installed, Iptables)
    ensures h.hasIp6tables ==> Tagged(chains.v6, Comment(r.tag)) == InstalledOn(h, r, installed, Ip6tables)
    ensures AllRollingBack(h, r, chains, installed, chains, {})
  {
    InstalledTouches(h, r, base.v4, installed, Iptables);
    InstalledTouches(h, r, base.v6, installed, Ip6tables);
  }

  /** The part of `Apply` after the cleanup, seen from the chains before it. */
  method InstallOrRollBack(h: Host, chains0: Chains, r: Redirect, plan: Plan, t0: nat, ghost start: Chains)
    returns (ok: bool, chains: Chains, ghost failed: set<Command>)
    requires h.Sane() && Normal(h, chains0) && OnlyTouched(h, start, chains0, r.tag) && NoRules(h, chains0, r.tag)
    ensures Normal(h, chains) && OnlyTouched(h, start, chains, r.tag) && OnlyTouched(h, chains0, chains, r.tag)
    ensures ok ==> Holds(h, chains, r) && Replaced(h, start, chains, r.tag, h.RulesFor(r, r.ranges))
    ensures !ok ==> Left(h, chains, r.tag) == failed && (failed == {} ==> Replaced(h, start, chains, r.tag, []))
    ensures AllWork(plan, t0) ==> ok
    ensures !ok && failed != {} ==> TwoFail(plan)
  {
    var installed, t;
    failed := {};
    ok, chains, installed, t := Install(h, chains0, r, plan, t0);
    InstalledOver(h, r, chains0, installed, chains);
    if ok {
      Cleared(h, start, chains0, r.tag);
      ReplacedThenAppended(h, start, chains0, chains, r.tag, h.RulesFor(r, r.ranges));
    } else {
      ghost var partial := chains;
      ghost var bad;
      chains, failed, bad := Rollback(h, chains, installed, r, plan, t);
      RolledBack(h, r, partial, chains, failed);
      OnlyTouchedTransitive(h, chains0, partial, chains, r.tag);
      if failed != {} {
        assert !plan(t - 1) && !plan(bad) && t - 1 < bad;
      }
    }
    OnlyTouchedTransitive(h, start, chains0, chains, r.tag);
    NoRulesIff(h, chains, r.tag);
    if !ok && failed == {} {
      Cleared(h, start, chains, r.tag);
    }
  }

  // ----- the manager

  /** The records agree with the chains. */
  ghost predicate Records(h: Host, records: map<Tag, Redirect>, chains: Chains) {
    forall tag | tag in records ::
      records[tag].tag == tag && records[tag].ranges != [] && Holds(h, chains, records[tag])
  }

  /** No rule under the comment carries another one. */
  ghost predicate PureIn(chain: seq<Rule>, want: string) {
    forall x | x in chain && Carries(x, want) :: Pure(x, want)
  }

  ghost predicate AllPure(h: Host, chains: Chains, tag: Tag) {
    forall c | c in Driven(h) :: PureIn(chains.Of(c), Comment(tag))
  }

  /** Rules that carry one comment only are not affected by what is done under another one. */
  lemma PureKept(before: seq<Rule>, after: seq<Rule>, want: string, other: string)
    requires Touches(before, after, want) && PureIn(before, other) && want != other
    ensures Tagged(after, other) == Tagged(before, other) && PureIn(after, other)
  {
    assert Apart(before, want, other);
    forall x | x in after && Carries(x, other) ensures Pure(x, other) {
      OnlyIn(after, x, other, true);
      OnlyIn(before, x, other, true);
    }
  }

  /** What is done for one tag leaves the rules of every other tag alone whose rules are pure. */
  lemma OtherKept(h: Host, before: Chains, after: Chains, tag: Tag, t: Tag)
    requires OnlyTouched(h, before, after, tag) && AllPure(h, before, t) && t != tag
    ensures forall c | c in Driven(h) :: Tagged(after.Of(c), Comment(t)) == Tagged(before.Of(c), Comment(t))
    ensures AllPure(h, after, t)
  {
    if Comment(t) == Comment(tag) {
      CommentInjective(t, tag);
    }
    forall c | c in Driven(h)
      ensures Tagged(after.Of(c), Comment(t)) == Tagged(before.Of(c), Comment(t)) && PureIn(after.Of(c), Comment(t))
    {
      PureKept(before.Of(c), after.Of(c), Comment(tag), Comment(t));
    }
  }

  lemma OwnPure(h: Host, before: Chains, after: Chains, tag: Tag)
    requires OnlyTouched(h, before, after, tag) && AllPure(h, before, tag)
    ensures AllPure(h, after, tag)
  {
    forall c | c in Driven(h) ensures PureIn(after.Of(c), Comment(tag)) {
      assert PureIn(before.Of(c), Comment(tag)) && Touches(before.Of(c), after.Of(c), Comment(tag));
    }
  }

  lemma NoRulesPure(h: Host, chains: Chains, tag: Tag)
    requires NoRules(h, chains, tag)
    ensures AllPure(h, chains, tag)
  {
    forall c, x | c in Driven(h) && x in chains.Of(c) ensures !Carries(x, Comment(tag)) {
      OnlyIn(chains.Of(c), x, Comment(tag), true);
    }
  }

  lemma RecordedPure(h: Host, chains: Chains, r: Redirect)
    requires h.Sane() && Holds(h, chains, r) && r.ranges != []
    ensures AllPure(h, chains, r.tag) && Left(h, chains, r.tag) == Driven(h)
  {
    forall c, x | c in Driven(h) && x in chains.Of(c) && Carries(x, Comment(r.tag)) ensures Pure(x, Comment(r.tag)) {
      OnlyIn(chains.Of(c), x, Comment(r.tag), true);
      forall w | Carries(x, w) ensures w == Comment(r.tag) {
        RulesForCarry(h, r, r.ranges, x, w);
      }
    }
    RulesForLength(h, r, r.ranges);
  }

  /** The records of all other tags stay right. */
  lemma KeepsRecords(h: Host, records: map<Tag, Redirect>, before: Chains, after: Chains, tag: Tag)
    requires h.Sane() && OnlyTouched(h, before, after, tag)
    requires Records(h, records, before) && tag !in records
    ensures Records(h, records, after)
  {
    forall t | t in records ensures Holds(h, after, records[t]) {
      RecordedPure(h, before, records[t]);
      OtherKept(h, before, after, tag, t);
      assert Tagged(after.Of(Iptables), Comment(t)) == Tagged(before.Of(Iptables), Comment(t));
      assert h.hasIp6tables ==> Tagged(after.Of(Ip6tables), Comment(t)) == Tagged(before.Of(Ip6tables), Comment(t));
    }
  }

  /**
   The tags that lost their record, each with the commands whose chain still holds rules of it; all of
   those rules are this process's own.
   */
  ghost predicate Accounted(h: Host, forgotten: map<Tag, set<Command>>, chains: Chains) {
    forall tag | tag in forgotten :: forgotten[tag] == Left(h, chains, tag) && AllPure(h, chains, tag)
  }

  /** What is done for one tag keeps the account of all others. */
  lemma KeepsAccount(h: Host, forgotten: map<Tag, set<Command>>, before: Chains, after: Chains, tag: Tag)
    requires Accounted(h, forgotten, before) && tag !in forgotten && OnlyTouched(h, before, after, tag)
    ensures Accounted(h, forgotten, after)
  {
    forall t | t in forgotten ensures Left(h, after, t) == Left(h, before, t) && AllPure(h, after, t) {
      OtherKept(h, before, after, tag, t);
    }
  }

  /** The record is written anew. */
  lemma Recorded(
      h: Host, records: map<Tag, Redirect>, r: Redirect, chains: Chains, forgotten: map<Tag, set<Command>>)
    requires Records(h, records - {r.tag}, chains) && Holds(h, chains, r) && r.ranges != []
    requires forgotten.Keys !! (records - {r.tag}).Keys && r.tag !in forgotten
    ensures (records - {r.tag})[r.tag := r] == records[r.tag := r]
    ensures Records(h, records[r.tag := r], chains) && forgotten.Keys !! records[r.tag := r].Keys
  {
    var all := records[r.tag := r];
    forall tag | tag in all ensures all[tag].tag == tag && all[tag].ranges != [] && Holds(h, chains, all[tag]) {
      assert tag != r.tag ==> tag in records - {r.tag};
    }
  }

  /** `NoRanges` and `Done` are a nil error. */
  datatype ApplyResult = NoRanges | NotLinux | NoCommand | NoPort | StaleFailed | InstallFailed | Done

  /**
   `Apply` from the cleanup on, with the records of the other tags.  Unless it succeeds, rules are left
   exactly where a delete failed, or where there were some and the chain could not be listed.
   */
  method ReplaceRules(h: Host, chains0: Chains, r: Redirect, plan: Plan, ghost records: map<Tag, Redirect>)
    returns (res: ApplyResult, chains: Chains, ghost failed: set<Command>, ghost unlisted: set<Command>)
    requires h.Sane() && Normal(h, chains0) && h.linux && h.hasIptables
    requires Records(h, records, chains0) && r.tag !in records
    ensures Normal(h, chains) && OnlyTouched(h, chains0, chains, r.tag) && Records(h, records, chains)
    ensures res.Done? || res.StaleFailed? || res.InstallFailed?
    ensures res.Done? ==> Holds(h, chains, r) && Replaced(h, chains0, chains, r.tag, h.RulesFor(r, r.ranges))
    ensures !res.Done? ==> Left(h, chains, r.tag) == failed + (unlisted * Left(h, chains0, r.tag))
    ensures res.StaleFailed? ==> failed + unlisted != {}
    ensures res.InstallFailed? ==> unlisted == {} && AllPure(h, chains, r.tag)
    ensures res.InstallFailed? && failed == {} ==> Replaced(h, chains0, chains, r.tag, [])
    ensures res.InstallFailed? && failed != {} ==> TwoFail(plan)
    ensures AllWork(plan, 0) ==> res.Done?
    ensures !plan(0) ==> res.StaleFailed? && chains.v4 == chains0.v4 && Iptables in unlisted
  {
    var ok, t;
    ok, chains, t, failed, unlisted := RemoveStale(h, chains0, r.tag, plan, 0);
    res := StaleFailed;
    if ok {
      NoRulesIff(h, chains, r.tag);
      NoRulesPure(h, chains, r.tag);
      ghost var cleared := chains;
      ok, chains, failed := InstallOrRollBack(h, chains, r, plan, t, chains0);
      OwnPure(h, cleared, chains, r.tag);
      res := if ok then Done else InstallFailed;
    }
    KeepsRecords(h, records, chains0, chains, r.tag);
  }

  /** `remove` without the record, with the records of the other tags. */
  method RemoveRules(h: Host, chains0: Chains, r: Redirect, plan: Plan, t0: nat, ghost records: map<Tag, Redirect>)
    returns (ok: bool, chains: Chains, t: nat)
    requires h.Sane() && Normal(h, chains0) && Holds(h, chains0, r)
    requires Records(h, records, chains0) && r.tag !in records
    ensures Normal(h, chains) && OnlyTouched(h, chains0, chains, r.tag) && Records(h, records, chains)
    ensures (ok <==> NoRules(h, chains, r.tag)) && (ok ==> Replaced(h, chains0, chains, r.tag, []))
    ensures t >= t0 && (AllWork(plan, t0) ==> ok)
  {
    ok, chains, t := RemoveOn(h, chains0, Iptables, r, plan, t0);
    if h.hasIp6tables {
      var ok6;
      ok6, chains, t := RemoveOn(h, chains, Ip6tables, r, plan, t);
      ok := ok && ok6;
    }
    KeepsRecords(h, records, chains0, chains, r.tag);
    if ok {
      Cleared(h, chains0, chains, r.tag);
    }
  }

  /** The account after an `Apply` that got as far as the cleanup, or after a `remove`. */
  ghost function AccountAfter(
      h: Host, forgotten: map<Tag, set<Command>>, recorded: bool, tag: Tag, res: ApplyResult, failed: set<Command>,
      unlisted: set<Command>)
    : map<Tag, set<Command>>
  {
    match res
    case Done => forgotten - {tag}
    case InstallFailed => forgotten[tag := failed]
    case StaleFailed =>
      if recorded then forgotten[tag := failed + (unlisted * Driven(h))]
      else if tag in forgotten then forgotten[tag := failed + (unlisted * forgotten[tag])]
      else forgotten
    case _ => forgotten
  }

  lemma AccountKeys(
      h: Host, forgotten: map<Tag, set<Command>>, records: map<Tag, Redirect>, tag: Tag, res: ApplyResult,
      failed: set<Command>, unlisted: set<Command>)
    requires forgotten.Keys !! records.Keys
    ensures var after := AccountAfter(h, forgotten, tag in records, tag, res, failed, unlisted);
      after.Keys !! (records - {tag}).Keys && (res.Done? ==> tag !in after)
  {
  }

  lemma KeepsAccountApply(
      h: Host, forgotten: map<Tag, set<Command>>, records: map<Tag, Redirect>, before: Chains, after: Chains, tag: Tag,
      res: ApplyResult, failed: set<Command>, unlisted: set<Command>)
    requires h.Sane() && Accounted(h, forgotten, before) && Records(h, records, before)
    requires OnlyTouched(h, before, after, tag) && (tag in records ==> tag !in forgotten)
    requires res.Done? || res.InstallFailed? || res.StaleFailed?
    requires !res.Done? ==> Left(h, after, tag) == failed + (unlisted * Left(h, before, tag))
    requires res.InstallFailed? ==> unlisted == {} && AllPure(h, after, tag)
    ensures Accounted(h, AccountAfter(h, forgotten, tag in records, tag, res, failed, unlisted), after)
  {
    KeepsAccount(h, forgotten - {tag}, before, after, tag);
    if tag in records {
      RecordedPure(h, before, records[tag]);
    }
    if res.StaleFailed? && (tag in records || tag in forgotten) {
      OwnPure(h, before, after, tag);
    }
  }

  /** `ReplaceRules` with the account of what was forgotten. */
  method ReplaceAndAccount(
      h: Host, chains0: Chains, r: Redirect, plan: Plan, ghost records: map<Tag, Redirect>,
      ghost forgotten0: map<Tag, set<Command>>)
    returns (res: ApplyResult, chains: Chains, ghost failed: set<Command>, ghost unlisted: set<Command>,
             ghost forgotten: map<Tag, set<Command>>)
    requires h.Sane() && Normal(h, chains0) && h.linux && h.hasIptables && Records(h, records, chains0)
    requires Accounted(h, forgotten0, chains0) && forgotten0.Keys !! records.Keys
    ensures Normal(h, chains) && OnlyTouched(h, chains0, chains, r.tag) && Records(h, records - {r.tag}, chains)
    ensures Accounted(h, forgotten, chains) && forgotten.Keys !! (records - {r.tag}).Keys
    ensures forgotten == AccountAfter(h, forgotten0, r.tag in records, r.tag, res, failed, unlisted)
    ensures res.Done? || res.StaleFailed? || res.InstallFailed?
    ensures res.Done? ==> Holds(h, chains, r) && Replaced(h, chains0, chains, r.tag, h.RulesFor(r, r.ranges))
    ensures res.Done? ==> r.tag !in forgotten
    ensures res.InstallFailed? && failed == {} ==> Replaced(h, chains0, chains, r.tag, [])
    ensures res.InstallFailed? && failed != {} ==> TwoFail(plan)
    ensures AllWork(plan, 0) ==> res.Done?
    ensures !plan(0) ==> res.StaleFailed? && chains.v4 == chains0.v4 && Iptables in unlisted
  {
    res, chains, failed, unlisted := ReplaceRules(h, chains0, r, plan, records - {r.tag});
    AccountKeys(h, forgotten0, records, r.tag, res, failed, unlisted);
    KeepsAccountApply(h, forgotten0, records, chains0, chains, r.tag, res, failed, unlisted);
    forgotten := AccountAfter(h, forgotten0, r.tag in records, r.tag, res, failed, unlisted);
  }

  /** Nothing is left of these tags, as far as they are accounted for. */
  ghost predicate NoneLeft(forgotten: map<Tag, set<Command>>, tags: set<Tag>) {
    forall tag | tag in tags && tag in forgotten :: forgotten[tag] == {}
  }

  /** One more tag is accounted for. */
  lemma NoneLeftOneMore(forgotten: map<Tag, set<Command>>, tags: set<Tag>, tag: Tag, left: set<Command>)
    requires tag !in tags
    ensures NoneLeft(forgotten[tag := left], tags + {tag}) <==> NoneLeft(forgotten, tags) && left == {}
  {
    var f := forgotten[tag := left];
    assert f[tag] == left;
    assert forall t | t in tags && t in forgotten :: t in f && f[t] == forgotten[t];
  }

  /** Nothing is left exactly when nothing is accounted for as left. */
  lemma NoneLeftIff(h: Host, forgotten: map<Tag, set<Command>>, chains: Chains, tags: set<Tag>)
    requires Accounted(h, forgotten, chains) && tags <= forgotten.Keys
    ensures NoneLeft(forgotten, tags) <==> forall tag | tag in tags :: NoRules(h, chains, tag)
  {
    forall tag | tag in tags ensures NoRules(h, chains, tag) <==> forgotten[tag] == {} {
      NoRulesIff(h, chains, tag);
    }
  }

  /** What was forgotten before is as it was. */
  ghost predicate Extends(forgotten: map<Tag, set<Command>>, before: map<Tag, set<Command>>) {
    forall tag | tag in before :: tag in forgotten && forgotten[tag] == before[tag]
  }

  /** Of all tags recorded at first some are done and some are left. */
  ghost predicate Removing(
      forgotten: map<Tag, set<Command>>, before: map<Tag, set<Command>>, all: set<Tag>, done: set<Tag>, tags: set<Tag>)
  {
    && done !! tags && done + tags == all
    && forgotten.Keys == before.Keys + done && Extends(forgotten, before)
  }

  lemma RemovingOneMore(
      forgotten: map<Tag, set<Command>>, before: map<Tag, set<Command>>, all: set<Tag>, done: set<Tag>, tags: set<Tag>,
      tag: Tag, left: set<Command>)
    requires Removing(forgotten, before, all, done, tags) && tag in tags && tag !in forgotten
    ensures Removing(forgotten[tag := left], before, all, done + {tag}, tags - {tag})
  {
  }

  lemma NoneLeftExtends(forgotten: map<Tag, set<Command>>, before: map<Tag, set<Command>>, tags: set<Tag>)
    requires Extends(forgotten, before) && forgotten.Keys == before.Keys + tags
    ensures NoneLeft(forgotten, forgotten.Keys) <==> NoneLeft(forgotten, tags) && NoneLeft(before, before.Keys)
  {
  }

  class Manager {
    const h: Host
    var chains: Chains                           // the host's firewall
    var applied: map<Tag, Redirect>
    ghost var forgotten: map<Tag, set<Command>>  // what was installed and has no record, and where rules of it are left

    /** What the manager remembers is what the chains hold, and what it forgot is accounted for. */
    ghost predicate Valid()
      reads this
    {
      && Normal(h, chains) && Records(h, applied, chains)
      && Accounted(h, forgotten, chains) && forgotten.Keys !! applied.Keys
    }

    constructor (h: Host, chains: Chains)
      requires h.Sane() && Normal(h, chains)
      ensures Valid() && this.h == h && this.chains == chains && applied == map[] && forgotten == map[]
    {
      this.h, this.chains, applied, forgotten := h, chains, map[], map[];
    }

    /**
     `Apply`.  Whatever fails, rules without the tag's comment keep their content and order.  If it
     succeeds every chain ends in exactly the requested rules and holds no other rule under the
     comment, also when stale copies were stacked there before.  If the installation fails and the
     rollback commands work, no rule is left under the comment; it takes two failing commands to leave
     one.  It succeeds if all commands work.  `failed` are the commands a delete failed for, and
     `unlisted` those whose chain could not be listed.
     */
    method Apply(r: Redirect, plan: Plan)
      returns (res: ApplyResult, ghost failed: set<Command>, ghost unlisted: set<Command>)
      requires h.Sane() && Valid()
      modifies this
      ensures Valid() && OnlyTouched(h, old(chains), chains, r.tag)
      ensures res.Done? ==> Replaced(h, old(chains), chains, r.tag, h.RulesFor(r, r.ranges)) && Holds(h, chains, r)
      ensures res.Done? ==> InForce(h, chains, r)
      ensures res.InstallFailed? && failed == {} ==> Replaced(h, old(chains), chains, r.tag, [])
      ensures res.InstallFailed? && failed != {} ==> TwoFail(plan)
      ensures applied == match res
        case Done => old(applied)[r.tag := r]
        case StaleFailed => old(applied) - {r.tag}
        case InstallFailed => old(applied) - {r.tag}
        case _ => old(applied)
      ensures forgotten == AccountAfter(h, old(forgotten), r.tag in old(applied), r.tag, res, failed, unlisted)
      ensures res.NoRanges? || res.NotLinux? || res.NoCommand? || res.NoPort? ==> chains == old(chains)
      ensures res.NoRanges? <==> r.ranges == []
      ensures res.NotLinux? <==> r.ranges != [] && !h.linux
      ensures res.NoCommand? <==> r.ranges != [] && h.linux && !h.hasIptables
      ensures res.NoPort? <==> r.ranges != [] && h.linux && h.hasIptables && r.listenPort == 0
      ensures r.ranges != [] && h.linux && h.hasIptables && r.listenPort != 0 ==>
        && (AllWork(plan, 0) ==> res.Done?)
        && (!plan(0) ==> res.StaleFailed? && chains.v4 == old(chains.v4) && Iptables in unlisted)
    {
      failed, unlisted := {}, {};
      Untouched(h, chains, r.tag);
      if r.ranges == [] {
        return NoRanges, failed, unlisted;
      }
      if !h.linux {
        return NotLinux, failed, unlisted;
      }
      if !h.hasIptables {
        return NoCommand, failed, unlisted;
      }
      if r.listenPort == 0 {
        return NoPort, failed, unlisted;
      }
      res, failed, unlisted := ApplyRules(r, plan);
      if res.Done? {
        HeldIsInForce(h, chains, r);
      }
    }

    /** `Apply` for a redirect that can be applied. */
    method ApplyRules(r: Redirect, plan: Plan)
      returns (res: ApplyResult, ghost failed: set<Command>, ghost unlisted: set<Command>)
      requires h.Sane() && Valid() && r.ranges != [] && h.linux && h.hasIptables
      modifies this
      ensures Valid() && OnlyTouched(h, old(chains), chains, r.tag)
      ensures res.Done? || res.StaleFailed? || res.InstallFailed?
      ensures res.Done? ==> Replaced(h, old(chains), chains, r.tag, h.RulesFor(r, r.ranges)) && Holds(h, chains, r)
      ensures res.InstallFailed? && failed == {} ==> Replaced(h, old(chains), chains, r.tag, [])
      ensures res.InstallFailed? && failed != {} ==> TwoFail(plan)
      ensures applied == if res.Done? then old(applied)[r.tag := r] else old(applied) - {r.tag}
      ensures forgotten == AccountAfter(h, old(forgotten), r.tag in old(applied), r.tag, res, failed, unlisted)
      ensures AllWork(plan, 0) ==> res.Done?
      ensures !plan(0) ==> res.StaleFailed? && chains.v4 == old(chains.v4) && Iptables in unlisted
    {
      res, chains, failed, unlisted, forgotten := ReplaceAndAccount(h, chains, r, plan, applied, forgotten);
      applied := applied - {r.tag};
      if res.Done? {
        Recorded(h, old(applied), r, chains, forgotten);
        applied := applied[r.tag := r];
      }
    }

    /**
     `remove`: the record is dropped whether or not the deletes work, and success is reported exactly when
     no rule is left under the comment.
     */
    method Remove(tag: Tag, plan: Plan, t0: nat) returns (ok: bool, t: nat)
      requires h.Sane() && Valid()
      modifies this
      ensures Valid() && applied == old(applied) - {tag}
      ensures forgotten == if tag in old(applied) then old(forgotten)[tag := Left(h, chains, tag)] else old(forgotten)
      ensures OnlyTouched(h, old(chains), chains, tag)
      ensures tag in old(applied) ==> (ok <==> NoRules(h, chains, tag))
      ensures ok && tag in old(applied) ==> Replaced(h, old(chains), chains, tag, [])
      ensures tag !in old(applied) ==> ok && chains == old(chains)
      ensures t >= t0 && (AllWork(plan, t0) ==> ok)
    {
      if tag !in applied {
        return true, t0;
      }
      var r := applied[tag];
      RecordedPure(h, chains, r);
      applied := applied - {tag};
      ok, chains, t := RemoveRules(h, chains, r, plan, t0, applied);
      KeepsAccount(h, forgotten, old(chains), chains, tag);
      OwnPure(h, old(chains), chains, tag);
      forgotten := forgotten[tag := Left(h, chains, tag)];
    }

    /**
     `RemoveAll`: nothing stays recorded, and rules that carry no recorded comment keep their content and
     order.  Success is reported exactly when no rule is left under any comment that was recorded.  No rule
     this process installed is left anywhere exactly when, besides, none was left of what it had forgotten.
     */
    method RemoveAll(plan: Plan) returns (ok: bool)
      requires h.Sane() && Valid()
      modifies this
      ensures Valid() && applied == map[] && forgotten.Keys == old(forgotten).Keys + old(applied).Keys
      ensures Extends(forgotten, old(forgotten))
      ensures ok <==> forall tag | tag in old(applied).Keys :: NoRules(h, chains, tag)
      ensures (forall tag | tag in forgotten.Keys :: NoRules(h, chains, tag)) <==>
                ok && NoneLeft(old(forgotten), old(forgotten).Keys)
      ensures Unmarked(chains.v4, Comments(old(applied))) == Unmarked(old(chains).v4, Comments(old(applied)))
      ensures Unmarked(chains.v6, Comments(old(applied))) == Unmarked(old(chains).v6, Comments(old(applied)))
      ensures AllWork(plan, 0) ==> ok
    {
      var tags := applied.Keys;
      var t := 0;
      ok := true;
      ghost var wants, all, done := Comments(applied), applied.Keys, {};
      while tags != {}
        invariant Valid() && applied.Keys == tags && Removing(forgotten, old(forgotten), all, done, tags)
        invariant ok <==> NoneLeft(forgotten, done)
        invariant Unmarked(chains.v4, wants) == Unmarked(old(chains).v4, wants)
        invariant Unmarked(chains.v6, wants) == Unmarked(old(chains).v6, wants)
        invariant AllWork(plan, 0) ==> ok
      {
        var tag :| tag in tags;
        ghost var before, forgotten0 := chains, forgotten;
        var removed;
        removed, t := Remove(tag, plan, t);
        NoRulesIff(h, chains, tag);
        NoneLeftOneMore(forgotten0, done, tag, Left(h, chains, tag));
        RemovingOneMore(forgotten0, old(forgotten), all, done, tags, tag, Left(h, chains, tag));
        tags, done := tags - {tag}, done + {tag};
        ok := ok && removed;
        UnmarkedTouched(h, before, chains, wants, tag);
      }
      NoneLeftIff(h, forgotten, chains, done);
      NoneLeftIff(h, forgotten, chains, forgotten.Keys);
      NoneLeftExtends(forgotten, old(forgotten), done);
    }
  }

  /**
   A run after which `RemoveAll` reports success although rules this process installed are still there: a
   redirect is applied, the chain cannot be listed when it is applied again, and so its record is dropped.
   */
  method ForgottenRules(m: Manager, r: Redirect, works: Plan, listingFails: Plan)
    returns (first: ApplyResult, again: ApplyResult, ok: bool)
    requires m.h.Sane() && m.Valid() && m.h.linux && m.h.hasIptables && r.ranges != [] && r.listenPort != 0
    requires m.applied == map[] && AllWork(works, 0) && !listingFails(0)
    modifies m
    ensures first == Done && again == StaleFailed && ok && m.applied == map[]
    ensures Tagged(m.chains.v4, Comment(r.tag)) == m.h.RulesFor(r, r.ranges) != []
  {
    first, again := ApplyTwice(m, r, works, listingFails);
    ok := RemoveNothing(m, works);
    RulesForLength(m.h, r, r.ranges);
  }

  method ApplyTwice(m: Manager, r: Redirect, works: Plan, listingFails: Plan)
    returns (first: ApplyResult, again: ApplyResult)
    requires m.h.Sane() && m.Valid() && m.h.linux && m.h.hasIptables && r.ranges != [] && r.listenPort != 0
    requires m.applied == map[] && AllWork(works, 0) && !listingFails(0)
    modifies m
    ensures m.Valid() && first == Done && again == StaleFailed && m.applied == map[]
    ensures Tagged(m.chains.v4, Comment(r.tag)) == m.h.RulesFor(r, r.ranges)
  {
    ghost var failed, unlisted;
    first, failed, unlisted := m.Apply(r, works);
    ghost var after := m.chains;
    assert Tagged(after.v4, Comment(r.tag)) == m.h.RulesFor(r, r.ranges);
    again, failed, unlisted := m.Apply(r, listingFails);
    assert m.chains.v4 == after.v4;
  }

  /** Without records `RemoveAll` reports success and does nothing. */
  method RemoveNothing(m: Manager, works: Plan) returns (ok: bool)
    requires m.h.Sane() && m.Valid() && m.applied == map[] && AllWork(works, 0)
    modifies m
    ensures ok && m.applied == map[] && m.chains.v4 == old(m.chains.v4)
  {
    UnmarkedNone(m.chains.v4);
    assert Comments(m.applied) == {};
    ok := m.RemoveAll(works);
    UnmarkedNone(m.chains.v4);
  }

  // ----- removing everything

  ghost function Comments(records: map<Tag, Redirect>): set<string> {
    set tag | tag in records :: Comment(tag)
  }

  /** The rules of a chain that carry none of these comments. */
  ghost function Unmarked(chain: seq<Rule>, wants: set<string>): seq<Rule> {
    if chain == [] then []
    else (if forall w | w in wants :: !Carries(chain[0], w) then [chain[0]] else []) + Unmarked(chain[1..], wants)
  }

  lemma {:induction false} UnmarkedOthers(chain: seq<Rule>, wants: set<string>, want: string)
    requires want in wants
    ensures Unmarked(Others(chain, want), wants) == Unmarked(chain, wants)
  {
    if chain != [] {
      UnmarkedOthers(chain[1..], wants, want);
      var rest := Others(chain[1..], want);
      if Carries(chain[0], want) {
        assert [] + rest == rest && [] + Unmarked(chain[1..], wants) == Unmarked(chain[1..], wants);
      } else {
        assert ([chain[0]] + rest)[1..] == rest;
      }
    }
  }

  lemma UnmarkedTouched(h: Host, before: Chains, after: Chains, wants: set<string>, tag: Tag)
    requires OnlyTouched(h, before, after, tag) && Comment(tag) in wants
    ensures Unmarked(after.v4, wants) == Unmarked(before.v4, wants)
    ensures Unmarked(after.v6, wants) == Unmarked(before.v6, wants)
  {
    UnmarkedOthers(before.v4, wants, Comment(tag));
    UnmarkedOthers(before.v6, wants, Comment(tag));
    UnmarkedOthers(after.v4, wants, Comment(tag));
    UnmarkedOthers(after.v6, wants, Comment(tag));
  }

  lemma {:induction false} UnmarkedNone(chain: seq<Rule>)
    ensures Unmarked(chain, {}) == chain
  {
    if chain != [] {
      UnmarkedNone(chain[1..]);
    }
  }
}
