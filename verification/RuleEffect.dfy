/**
 What a firewall rule does: which UDP ports it matches and where it sends them.  The reader takes a rule's
 arguments as option and value, two by two, and reads decimal numbers; it knows nothing of how
 common/porthop/porthop.go writes them.
 */
module RuleEffect {
  import opened Common
  import opened FirewallRules

  // ----- reading numbers and ports

  predicate IsDigit(c: char) { '0' <= c <= '9' }

  /** The value of a decimal number. */
  function ReadNumber(s: string): Option<nat> {
    if s == "" || !IsDigit(s[|s| - 1]) then None
    else
      var n, d: nat := |s| - 1, (s[|s| - 1] as int) - ('0' as int);
      if n == 0 then Some(d)
      else
        var front := ReadNumber(s[..n]);
        if front.None? then None else Some(10 * front.value + d)
  }

  /** The first and the last port of "from:to" or of a single port. */
  function ReadPorts(s: string): Option<(nat, nat)> {
    var k := ColonFrom(s, 0);
    var from := ReadNumber(s[..k]);
    if from.None? then None
    else if k == |s| then Some((from.value, from.value))
    else
      var to := ReadNumber(s[k + 1..]);
      if to.None? then None else Some((from.value, to.value))
  }

  /** The first colon at or behind i, or the end. */
  function ColonFrom(s: string, i: nat): (k: nat)
    requires i <= |s|
    ensures i <= k <= |s| && (k < |s| ==> s[k] == ':') && forall j | i <= j < k :: s[j] != ':'
    decreases |s| - i
  {
    if i == |s| || s[i] == ':' then i else ColonFrom(s, i + 1)
  }

  // ----- reading a rule

  /** The value of the first option of this name. */
  function Value(args: seq<string>, name: string): Option<string> {
    if |args| < 2 then None
    else if args[0] == name then Some(args[1])
    else Value(args[2..], name)
  }

  /** Some option of this name has this value. */
  predicate Has(args: seq<string>, name: string, value: string) {
    |args| >= 2 && ((args[0] == name && args[1] == value) || Has(args[2..], name, value))
  }

  /** The rule matches packets to UDP port p, with the match extension that its comment needs. */
  predicate Matches(rule: Rule, p: nat) {
    && Value(rule.args, "-p") == Some("udp") && Has(rule.args, "-m", "comment")
    && var dport := Value(rule.args, "--dport");
       && dport.Some? && ReadPorts(dport.value).Some?
       && ReadPorts(dport.value).value.0 <= p <= ReadPorts(dport.value).value.1
  }

  /** The rule sends what it matches to local port q. */
  predicate RedirectsTo(rule: Rule, q: nat) {
    && Value(rule.args, "-j") == Some("REDIRECT")
    && var to := Value(rule.args, "--to-ports");
       to.Some? && ReadNumber(to.value) == Some(q)
  }

  // ----- what the manager's rules do

  lemma {:induction false} ItoaDigits(n: nat)
    ensures forall i | 0 <= i < |Itoa(n)| :: IsDigit(Itoa(n)[i])
  {
    if n >= 10 {
      ItoaDigits(n / 10);
    }
  }

  /** Numbers are written in decimal. */
  lemma {:induction false} ItoaReadsBack(n: nat)
    ensures ReadNumber(Itoa(n)) == Some(n)
  {
    var s, d := Itoa(n), (n % 10);
    assert s[|s| - 1] == '0' + d as char;
    if n >= 10 {
      ItoaReadsBack(n / 10);
      assert s[..|s| - 1] == Itoa(n / 10);
    }
  }

  lemma RangeReadsBack(r: Range)
    ensures ReadPorts(RangeString(r)) == Some((r.from, r.to))
  {
    var s, from, to := RangeString(r), Itoa(r.from), Itoa(r.to);
    ItoaDigits(r.from);
    ItoaReadsBack(r.from);
    ItoaReadsBack(r.to);
    var k := ColonFrom(s, 0);
    if r.from == r.to {
      assert k == |s| && s[..k] == from;
    } else {
      assert s[|from|] == ':' && forall j | 0 <= j < |from| :: s[j] == from[j];
      assert k == |from| && s[..k] == from && s[k + 1..] == to;
    }
  }


  /** A rule of ours matches exactly the ports of its range and sends them to the listen port alone. */
  lemma RuleDoes(r: Range, listenPort: nat, tag: Tag)
    ensures forall p: nat :: Matches(RuleArgs(r, listenPort, tag), p) <==> r.from <= p <= r.to
    ensures forall q: nat :: RedirectsTo(RuleArgs(r, listenPort, tag), q) <==> q == listenPort
  {
    RangeReadsBack(r);
    ItoaReadsBack(listenPort);
    var args := RuleArgs(r, listenPort, tag).args;
    var a1, a2, a3, a4, a5 := args[2..], args[4..], args[6..], args[8..], args[10..];
    assert args[2..] == a1 && a1[2..] == a2 && a2[2..] == a3 && a3[2..] == a4 && a4[2..] == a5;
    assert args[0] == "-p" && args[1] == "udp";
    assert a1[0] == "--dport" && a1[1] == RangeString(r);
    assert a2[0] == "-m" && a2[1] == "comment" && a3[0] == "--comment";
    assert a4[0] == "-j" && a4[1] == "REDIRECT" && a5[0] == "--to-ports" && a5[1] == Itoa(listenPort);
    DistinctNames();
    assert Value(args, "--dport") == Value(a1, "--dport") == Some(RangeString(r));
    assert Has(a2, "-m", "comment") && Has(a1, "-m", "comment") && Has(args, "-m", "comment");
    assert Value(args, "-j") == Value(a1, "-j") == Value(a2, "-j") == Value(a3, "-j") == Value(a4, "-j");
    assert Value(args, "--to-ports") == Value(a1, "--to-ports") == Value(a2, "--to-ports") == Value(a3, "--to-ports");
    assert Value(a3, "--to-ports") == Value(a4, "--to-ports") == Value(a5, "--to-ports");
  }

  /** The option names differ in length or in a letter. */
  lemma DistinctNames()
    ensures "-p" != "--dport" && "-p" != "-j" && "-p" != "--to-ports" && "--dport" != "-j" && "--dport" != "--to-ports"
    ensures "-m" != "-j" && "-m" != "--to-ports" && "--comment" != "-j" && "--comment" != "--to-ports"
    ensures "-j" != "--to-ports"
  {
    assert |"-p"| == 2 && |"--dport"| == 7 && |"--to-ports"| == 10 && |"--comment"| == 9;
    assert "-p"[1] != "-j"[1] && "-m"[1] != "-j"[1];
  }
}
