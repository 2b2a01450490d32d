/**
 The typo suggestions of the config validator: the optimal-string-alignment table of
 `editDistance` and the search of `suggestField` (conf/validate_schema.go).

 The reference is operational and knows nothing of the table: a script is a list of edits
 that is run over a text, each edit reading the runes after those its predecessors read, and
 its cost is the number of edits that are not `Keep`.  The distance is the least cost of all
 scripts; its laws are proved of scripts, and the table is shown to compute it.
 */
module EditDistance {
  import opened Common

  datatype Edit =
    | Keep                 // copy the next rune
    | Change(to: char)     // replace the next rune
    | Insert(ins: char)    // write a rune, reading none
    | Delete               // read a rune, writing none
    | Swap                 // read two runes, write them in the opposite order

  datatype Script = Nothing | Then(before: Script, last: Edit)

  function EditCost(e: Edit): nat {
    if e.Keep? then 0 else 1
  }

  function Cost(s: Script): nat {
    match s
    case Nothing => 0
    case Then(before, last) => Cost(before) + EditCost(last)
  }

  /** How many source runes an edit reads. */
  function Reads(e: Edit): nat {
    match e
    case Insert(_) => 0
    case Swap => 2
    case _ => 1
  }

  /** What an edit writes for the runes it has read. */
  function Writes(e: Edit, src: string): string
    requires |src| == Reads(e)
  {
    match e
    case Keep => src
    case Change(c) => [c]
    case Insert(c) => [c]
    case Delete => ""
    case Swap => [src[1], src[0]]
  }

  predicate Produces(e: Edit, src: string, out: string) {
    |src| == Reads(e) && out == Writes(e, src)
  }

  /** The script reads all of a and writes exactly b. */
  ghost predicate Rewrites(s: Script, a: string, b: string)
    decreases s
  {
    match s
    case Nothing => a == "" && b == ""
    case Then(before, e) =>
      exists k: nat, w: nat :: k <= |a| && w <= |b| && Produces(e, a[k..], b[w..]) && Rewrites(before, a[..k], b[..w])
  }

  /** d is the optimal-string-alignment distance of a and b. */
  ghost predicate IsDistance(a: string, b: string, d: nat) {
    && (exists s :: Rewrites(s, a, b) && Cost(s) == d)
    && (forall s | Rewrites(s, a, b) :: d <= Cost(s))
  }

  // ----- scripts over prefixes, without slices

  /** One edit takes the first i runes of a to i', having written the runes j to j' of b. */
  predicate Aligns(e: Edit, a: string, b: string, i: nat, j: nat, i': nat, j': nat)
    requires i' <= |a| && j' <= |b|
  {
    match e
    case Keep => i' == i + 1 && j' == j + 1 && a[i] == b[j]
    case Change(c) => i' == i + 1 && j' == j + 1 && b[j] == c
    case Insert(c) => i' == i && j' == j + 1 && b[j] == c
    case Delete => i' == i + 1 && j' == j
    case Swap => i' == i + 2 && j' == j + 2 && a[i] == b[j + 1] && a[i + 1] == b[j]
  }

  /** The script rewrites the first i runes of a into the first j of b. */
  ghost predicate Turns(s: Script, a: string, b: string, i: nat, j: nat)
    requires i <= |a| && j <= |b|
  {
    match s
    case Nothing => i == 0 && j == 0
    case Then(before, e) =>
      exists i0: nat, j0: nat :: i0 <= i && j0 <= j && Aligns(e, a, b, i0, j0, i, j) && Turns(before, a, b, i0, j0)
  }

  lemma AlignsIff(e: Edit, a: string, b: string, i: nat, j: nat, i': nat, j': nat)
    requires i <= i' <= |a| && j <= j' <= |b|
    ensures Aligns(e, a, b, i, j, i', j') <==>
              Produces(e, a[i..i'], b[j..j'])
  {
    if e.Keep? && i' == i + 1 && j' == j + 1 {
      assert a[i..i'] == [a[i]] && b[j..j'] == [b[j]];
    } else if e.Swap? && i' == i + 2 && j' == j + 2 {
      assert a[i..i'] == [a[i], a[i + 1]] && b[j..j'] == [b[j], b[j + 1]];
    } else if (e.Change? || e.Insert?) && j' == j + 1 {
      assert b[j..j'] == [b[j]];
    }
  }

  lemma Slices(a: string, i0: nat, i: nat)
    requires i0 <= i <= |a|
    ensures a[..i][i0..] == a[i0..i] && a[..i][..i0] == a[..i0]
  {
  }

  lemma {:induction false} TurnsRewrites(s: Script, a: string, b: string, i: nat, j: nat)
    requires i <= |a| && j <= |b| && Turns(s, a, b, i, j)
    ensures Rewrites(s, a[..i], b[..j])
  {
    if s.Then? {
      var i0: nat, j0: nat :| i0 <= i && j0 <= j && Aligns(s.last, a, b, i0, j0, i, j) && Turns(s.before, a, b, i0, j0);
      TurnsRewrites(s.before, a, b, i0, j0);
      AlignsIff(s.last, a, b, i0, j0, i, j);
      Slices(a, i0, i);
      Slices(b, j0, j);
    }
  }

  lemma {:induction false} RewritesTurns(s: Script, a: string, b: string, i: nat, j: nat)
    requires i <= |a| && j <= |b| && Rewrites(s, a[..i], b[..j])
    ensures Turns(s, a, b, i, j)
  {
    if s.Then? {
      var i0: nat, j0: nat :| i0 <= |a[..i]| && j0 <= |b[..j]|
        && Produces(s.last, a[..i][i0..], b[..j][j0..]) && Rewrites(s.before, a[..i][..i0], b[..j][..j0]);
      Slices(a, i0, i);
      Slices(b, j0, j);
      AlignsIff(s.last, a, b, i0, j0, i, j);
      RewritesTurns(s.before, a, b, i0, j0);
    }
  }

  // ----- laws of scripts

  /** A script can be turned around at the same cost. */
  lemma {:induction false} TurnedAround(s: Script, a: string, b: string, i: nat, j: nat) returns (t: Script)
    requires i <= |a| && j <= |b| && Turns(s, a, b, i, j)
    ensures Turns(t, b, a, j, i) && Cost(t) == Cost(s)
  {
    match s
    case Nothing => t := Nothing;
    case Then(before, e) =>
      var i0: nat, j0: nat :| i0 <= i && j0 <= j && Aligns(e, a, b, i0, j0, i, j) && Turns(before, a, b, i0, j0);
      var t' := TurnedAround(before, a, b, i0, j0);
      var f :=
        match e
        case Change(_) => Change(a[i0])
        case Insert(_) => Delete
        case Delete => Insert(a[i0])
        case _ => e;
      assert Aligns(f, b, a, j0, i0, j, i);
      t := Then(t', f);
  }

  /** A script is never cheaper than the length difference, and free only when it changes nothing. */
  lemma {:induction false} CostBounds(s: Script, a: string, b: string, i: nat, j: nat)
    requires i <= |a| && j <= |b| && Turns(s, a, b, i, j)
    ensures i - j <= Cost(s) && j - i <= Cost(s)
    ensures Cost(s) == 0 ==> a[..i] == b[..j]
  {
    if s.Then? {
      var i0: nat, j0: nat :| i0 <= i && j0 <= j && Aligns(s.last, a, b, i0, j0, i, j) && Turns(s.before, a, b, i0, j0);
      CostBounds(s.before, a, b, i0, j0);
      assert s.last.Keep? ==> a[..i] == a[..i0] + [a[i0]] && b[..j] == b[..j0] + [b[j0]];
    }
  }

  /** Some script costs at most the longer length, and nothing when the texts are equal. */
  lemma {:induction false} CheapScript(a: string, b: string, i: nat, j: nat) returns (s: Script)
    requires i <= |a| && j <= |b|
    ensures Turns(s, a, b, i, j) && Cost(s) <= Max(i, j)
    ensures i == j && (forall k | 0 <= k < i :: a[k] == b[k]) ==> Cost(s) == 0
    decreases i + j
  {
    if i == 0 && j == 0 {
      s := Nothing;
    } else if i == 0 {
      var s' := CheapScript(a, b, i, j - 1);
      assert Aligns(Insert(b[j - 1]), a, b, i, j - 1, i, j);
      s := Then(s', Insert(b[j - 1]));
    } else if j == 0 {
      var s' := CheapScript(a, b, i - 1, j);
      assert Aligns(Delete, a, b, i - 1, j, i, j);
      s := Then(s', Delete);
    } else {
      var s' := CheapScript(a, b, i - 1, j - 1);
      var e := if a[i - 1] == b[j - 1] then Keep else Change(b[j - 1]);
      assert Aligns(e, a, b, i - 1, j - 1, i, j);
      s := Then(s', e);
    }
  }

  // ----- laws of the distance

  /** d is the least cost of a script for the first i runes of a and the first j of b. */
  ghost predicate At(a: string, b: string, i: nat, j: nat, d: nat)
    requires i <= |a| && j <= |b|
  {
    && (exists s :: Turns(s, a, b, i, j) && Cost(s) == d)
    && (forall s | Turns(s, a, b, i, j) :: d <= Cost(s))
  }

  lemma AtIff(a: string, b: string, d: nat)
    ensures IsDistance(a, b, d) <==> At(a, b, |a|, |b|, d)
  {
    assert a[..|a|] == a && b[..|b|] == b;
    forall s | Turns(s, a, b, |a|, |b|) ensures Rewrites(s, a, b) {
      TurnsRewrites(s, a, b, |a|, |b|);
    }
    forall s | Rewrites(s, a, b) ensures Turns(s, a, b, |a|, |b|) {
      RewritesTurns(s, a, b, |a|, |b|);
    }
  }

  /** The distance is symmetric. */
  lemma Symmetric(a: string, b: string, d: nat)
    requires IsDistance(a, b, d)
    ensures IsDistance(b, a, d)
  {
    AtIff(a, b, d);
    AtIff(b, a, d);
    var s :| Turns(s, a, b, |a|, |b|) && Cost(s) == d;
    var _ := TurnedAround(s, a, b, |a|, |b|);
    forall t | Turns(t, b, a, |b|, |a|) ensures d <= Cost(t) {
      var _ := TurnedAround(t, b, a, |b|, |a|);
    }
  }

  /** The distance is zero exactly on equal texts and lies between the length difference and the longer length. */
  lemma DistanceBounds(a: string, b: string, d: nat)
    requires IsDistance(a, b, d)
    ensures d == 0 <==> a == b
    ensures |a| - |b| <= d && |b| - |a| <= d <= Max(|a|, |b|)
  {
    AtIff(a, b, d);
    var s :| Turns(s, a, b, |a|, |b|) && Cost(s) == d;
    CostBounds(s, a, b, |a|, |b|);
    var _ := CheapScript(a, b, |a|, |b|);
    assert a[..|a|] == a && b[..|b|] == b;
  }

  // ----- one cell of the table

  /** Along the edges of the table the distance is the length of the other prefix. */
  lemma Edge(a: string, b: string, i: nat, j: nat)
    requires i <= |a| && j <= |b| && (i == 0 || j == 0)
    ensures At(a, b, i, j, i + j)
  {
    var s := CheapScript(a, b, i, j);
    CostBounds(s, a, b, i, j);
    forall t | Turns(t, a, b, i, j) ensures i + j <= Cost(t) {
      CostBounds(t, a, b, i, j);
    }
  }

  /** The last two runes of the two prefixes are each other's swap. */
  predicate Crossed(a: string, b: string, i: nat, j: nat)
    requires i <= |a| && j <= |b|
  {
    i > 1 && j > 1 && a[i - 1] == b[j - 2] && a[i - 2] == b[j - 1]
  }

  /** d is the value the inner loop writes, computed from the four cells it reads. */
  predicate Chosen(d: nat, up: nat, left: nat, diag: nat, same: bool, crossed: bool, cross: nat) {
    && d <= up + 1 && d <= left + 1 && d <= diag + (if same then 0 else 1) && (crossed ==> d <= cross + 1)
    && (d == up + 1 || d == left + 1 || d == diag + (if same then 0 else 1) || (crossed && d == cross + 1))
  }

  /** Choosing from the distances of the four smaller pairs of prefixes gives the distance of this pair. */
  lemma Cell(a: string, b: string, i: nat, j: nat, d: nat, up: nat, left: nat, diag: nat, cross: nat)
    requires 1 <= i <= |a| && 1 <= j <= |b|
    requires At(a, b, i - 1, j, up) && At(a, b, i, j - 1, left) && At(a, b, i - 1, j - 1, diag)
    requires Crossed(a, b, i, j) ==> At(a, b, i - 2, j - 2, cross)
    requires Chosen(d, up, left, diag, a[i - 1] == b[j - 1], Crossed(a, b, i, j), cross)
    ensures At(a, b, i, j, d)
  {
    forall s | Turns(s, a, b, i, j) ensures d <= Cost(s) {
      var i0: nat, j0: nat :| i0 <= i && j0 <= j && Aligns(s.last, a, b, i0, j0, i, j) && Turns(s.before, a, b, i0, j0);
    }
    if d == up + 1 {
      Longer(a, b, i - 1, j, up, Delete, i, j);
    } else if d == left + 1 {
      Longer(a, b, i, j - 1, left, Insert(b[j - 1]), i, j);
    } else if d == diag + (if a[i - 1] == b[j - 1] then 0 else 1) {
      Longer(a, b, i - 1, j - 1, diag, if a[i - 1] == b[j - 1] then Keep else Change(b[j - 1]), i, j);
    } else {
      Longer(a, b, i - 2, j - 2, cross, Swap, i, j);
    }
  }

  lemma Longer(a: string, b: string, i: nat, j: nat, d: nat, e: Edit, i': nat, j': nat)
    requires i <= i' <= |a| && j <= j' <= |b|
    requires At(a, b, i, j, d) && Aligns(e, a, b, i, j, i', j')
    ensures exists s :: Turns(s, a, b, i', j') && Cost(s) == d + EditCost(e)
  {
    var p :| Turns(p, a, b, i, j) && Cost(p) == d;
    var s := Then(p, e);
    assert Turns(s, a, b, i', j') && Cost(s) == d + EditCost(e);
  }

  // ----- the table

  /** The rows above i hold distances, and so do the first j cells of row i and all of column 0. */
  ghost predicate Filled(rows: array2<nat>, a: string, b: string, i: nat, j: nat)
    reads rows
  {
    && rows.Length0 == |a| + 1 && rows.Length1 == |b| + 1
    && forall p, q | 0 <= p <= |a| && 0 <= q <= |b| && (p < i || (p == i && q < j) || q == 0) ::
         At(a, b, p, q, rows[p, q])
  }

  method Edges(a: string, b: string) returns (rows: array2<nat>)
    ensures fresh(rows) && Filled(rows, a, b, 1, 0)
  {
    rows := new nat[|a| + 1, |b| + 1];
    for i := 0 to |a| + 1
      invariant forall p | 0 <= p < i :: rows[p, 0] == p
    {
      rows[i, 0] := i;
    }
    for j := 0 to |b| + 1
      invariant forall p | 0 <= p <= |a| :: rows[p, 0] == p
      invariant forall q | 0 <= q < j :: rows[0, q] == q
    {
      rows[0, j] := j;
    }
    forall p, q | 0 <= p <= |a| && 0 <= q <= |b| && (p < 1 || q == 0) ensures At(a, b, p, q, rows[p, q]) {
      Edge(a, b, p, q);
    }
  }

  method FillCell(rows: array2<nat>, a: string, b: string, i: nat, j: nat)
    requires 1 <= i <= |a| && 1 <= j <= |b| && Filled(rows, a, b, i, j)
    modifies rows
    ensures Filled(rows, a, b, i, j + 1)
  {
    ghost var cross := if Crossed(a, b, i, j) then rows[i - 2, j - 2] else 0;
    var cost := 1;
    if a[i - 1] == b[j - 1] {
      cost := 0;
    }
    rows[i, j] := Min(rows[i - 1, j] + 1, Min(rows[i, j - 1] + 1, rows[i - 1, j - 1] + cost));
    if i > 1 && j > 1 && a[i - 1] == b[j - 2] && a[i - 2] == b[j - 1] {
      rows[i, j] := Min(rows[i, j], rows[i - 2, j - 2] + 1);
    }
    Cell(a, b, i, j, rows[i, j], rows[i - 1, j], rows[i, j - 1], rows[i - 1, j - 1], cross);
  }

  /** `editDistance`: the result is the cost of some script, and no script costs less. */
  method Distance(a: string, b: string) returns (d: nat)
    ensures IsDistance(a, b, d)
  {
    var rows := Edges(a, b);
    for i := 1 to |a| + 1
      invariant Filled(rows, a, b, i, 0)
    {
      for j := 1 to |b| + 1
        invariant Filled(rows, a, b, i, j)
      {
        FillCell(rows, a, b, i, j);
      }
    }
    d := rows[|a|, |b|];
    AtIff(a, b, d);
  }

  // ----- the suggestion

  datatype SchemaField = SchemaField(name: string)

  /** k is the first of the least numbers. */
  predicate FirstLeast(ds: seq<nat>, k: nat) {
    k < |ds| && (forall i | 0 <= i < |ds| :: ds[k] <= ds[i]) && (forall i | 0 <= i < k :: ds[k] < ds[i])
  }

  /**
   `suggestField`.  `lower` is strings.ToLower and `keyBytes` the byte length of the key, which
   the allowed distance is computed from.
   */
  method SuggestField(key: string, keyBytes: nat, fields: seq<SchemaField>, lower: string -> string)
    returns (r: string, ghost ds: seq<nat>, ghost at: nat)
    ensures |ds| == |fields| && forall i | 0 <= i < |fields| :: IsDistance(lower(key), lower(fields[i].name), ds[i])
    ensures fields == [] ==> r == ""
    ensures fields != [] ==> FirstLeast(ds, at) && r == if ds[at] <= Max(2, keyBytes / 3) then fields[at].name else ""
  {
    var lowerKey := lower(key);
    var best, bestDistance: int := "", -1;
    ds, at := [], 0;
    for i := 0 to |fields|
      invariant |ds| == i && forall j | 0 <= j < i :: IsDistance(lowerKey, lower(fields[j].name), ds[j])
      invariant bestDistance < 0 <==> i == 0
      invariant i > 0 ==> FirstLeast(ds, at) && best == fields[at].name && bestDistance == ds[at]
    {
      var distance := Distance(lowerKey, lower(fields[i].name));
      ds := ds + [distance];
      if bestDistance < 0 || distance < bestDistance {
        best, bestDistance := fields[i].name, distance;
        at := i;
      }
    }
    var limit := Max(2, keyBytes / 3);
    if bestDistance < 0 || bestDistance > limit {
      return "", ds, at;
    }
    return best, ds, at;
  }
}
