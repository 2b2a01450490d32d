/**
 The CDN prefix index (common/cdn/ip.go): `buildIndex` sorts every provider's prefixes into
 buckets by prefix length, and `Provider` probes one masked address per bucket.

 An address is its bits, most significant first: 32 of them for IPv4, 128 for IPv6.  The reference
 is a scan of the provider lists in their order that looks at prefixes and addresses bit by bit and
 knows neither masks nor buckets.
 */
module CdnIndex {
  import opened Common

  datatype Family = V4 | V6

  function Width(f: Family): nat { if f.V4? then 32 else 128 }

  /** A netip.Addr without its zone, which every lookup drops. */
  datatype RawAddr = RawAddr(family: Family, bits: seq<bool>)
  type Addr = a: RawAddr | |a.bits| == Width(a.family) witness RawAddr(V4, seq(32, _ => false))

  /** A netip.Prefix: any bits may be set behind the first `len`. */
  datatype RawPrefix = RawPrefix(addr: Addr, len: nat)
  type Prefix = p: RawPrefix | p.len <= |p.addr.bits| witness RawPrefix(RawAddr(V4, seq(32, _ => false)), 0)

  datatype Provider = Provider(name: string, prefixes: seq<Prefix>)

  datatype Entry = Entry(name: string, rank: nat)

  type Index = map<nat, map<Prefix, Entry>>

  // ----- the reference

  /** The address agrees with the prefix on its first bits. */
  predicate Contains(p: Prefix, a: Addr) {
    p.addr.family == a.family && a.bits[..p.len] == p.addr.bits[..p.len]
  }

  predicate Owns(pr: Provider, a: Addr) {
    exists i :: 0 <= i < |pr.prefixes| && Contains(pr.prefixes[i], a)
  }

  ghost predicate IsFirstOwner(providers: seq<Provider>, a: Addr, k: int) {
    0 <= k < |providers| && Owns(providers[k], a) && forall j | 0 <= j < k :: !Owns(providers[j], a)
  }

  ghost predicate NoOwner(providers: seq<Provider>, a: Addr) {
    forall k | 0 <= k < |providers| :: !Owns(providers[k], a)
  }

  /** The first provider from position k on that owns the address. */
  function FirstOwner(providers: seq<Provider>, a: Addr, k: nat): (r: Option<nat>)
    requires k <= |providers|
    ensures r.Some? ==> k <= r.value < |providers| && Owns(providers[r.value], a)
    ensures r.Some? ==> forall i | k <= i < r.value :: !Owns(providers[i], a)
    ensures r.None? ==> forall i | k <= i < |providers| :: !Owns(providers[i], a)
    decreases |providers| - k
  {
    if k == |providers| then None
    else if Owns(providers[k], a) then Some(k)
    else FirstOwner(providers, a, k + 1)
  }

  // ----- masks

  function Mask(a: Addr, len: nat): Addr
    requires len <= |a.bits|
  {
    RawAddr(a.family, a.bits[..len] + seq(|a.bits| - len, _ => false))
  }

  /** `Prefix.Masked` and, for an address, `Addr.Prefix`. */
  function Masked(p: Prefix): Prefix {
    RawPrefix(Mask(p.addr, p.len), p.len)
  }

  /** `Unmap`: an IPv4-mapped IPv6 address stands for the IPv4 address in its last 32 bits. */
  function Unmap(a: Addr): Addr {
    if a.family.V6? && a.bits[..80] == seq(80, _ => false) && a.bits[80..96] == seq(16, _ => true)
    then RawAddr(V4, a.bits[96..])
    else a
  }

  /** The address that a host is known by: for an IPv4-mapped IPv6 address the IPv4 address, else itself. */
  ghost predicate KnownBy(ip: Addr, a: Addr) {
    if ip.family.V6? && (forall k | 0 <= k < 80 :: !ip.bits[k]) && (forall k | 80 <= k < 96 :: ip.bits[k])
    then a.family.V4? && forall k | 0 <= k < 32 :: a.bits[k] == ip.bits[96 + k]
    else a == ip
  }

  lemma UnmapIsKnownBy(ip: Addr, a: Addr)
    ensures a == Unmap(ip) <==> KnownBy(ip, a)
  {
    if ip.family.V6? {
      assert ip.bits[..80] == seq(80, _ => false) <==> forall k | 0 <= k < 80 :: !ip.bits[k] by {
        forall k | 0 <= k < 80 ensures ip.bits[..80][k] == ip.bits[k] && !seq(80, _ => false)[k] {
        }
      }
      assert ip.bits[80..96] == seq(16, _ => true) <==> forall k | 80 <= k < 96 :: ip.bits[k] by {
        forall k | 80 <= k < 96 ensures ip.bits[80..96][k - 80] == ip.bits[k] && seq(16, _ => true)[k - 80] {
        }
      }
      if a.family.V4? {
        assert a.bits == ip.bits[96..] <==> forall k | 0 <= k < 32 :: a.bits[k] == ip.bits[96 + k];
      }
    }
  }

  /** A prefix contains an address exactly when both have the same mask. */
  lemma ContainsIffSameMask(p: Prefix, a: Addr)
    ensures Contains(p, a) <==> p.len <= |a.bits| && Masked(p) == Masked(RawPrefix(a, p.len))
  {
    if p.addr.family == a.family {
      assert Mask(p.addr, p.len).bits[..p.len] == p.addr.bits[..p.len];
      assert Mask(a, p.len).bits[..p.len] == a.bits[..p.len];
    }
  }

  // ----- building the index

  /** Some provider before rank n, or the first j prefixes of provider n, has a prefix with this mask. */
  ghost predicate Listed(providers: seq<Provider>, n: nat, j: nat, m: Prefix, rank: nat) {
    && rank < |providers|
    && exists i :: 0 <= i < |providers[rank].prefixes| && (rank < n || (rank == n && i < j)) &&
        Masked(providers[rank].prefixes[i]) == m
  }

  predicate Holds(idx: Index, m: Prefix, e: Entry) {
    m.len in idx && m in idx[m.len] && idx[m.len][m] == e
  }

  /** The index holds exactly the masks listed so far, each with the first provider that lists it. */
  ghost predicate Built(providers: seq<Provider>, n: nat, j: nat, idx: Index) {
    && (forall len, m | len in idx && m in idx[len] :: m.len == len)
    && (forall m: Prefix, e | Holds(idx, m, e) ::
          && Listed(providers, n, j, m, e.rank) && e.name == providers[e.rank].name
          && forall r | 0 <= r < e.rank :: !Listed(providers, n, j, m, r))
    && (forall m: Prefix, r | Listed(providers, n, j, m, r) :: m.len in idx && m in idx[m.len])
  }

  function Inserted(idx: Index, m: Prefix, e: Entry): Index {
    var bucket := if m.len in idx then idx[m.len] else map[];
    idx[m.len := if m in bucket then bucket else bucket[m := e]]
  }

  lemma ListedOneMore(providers: seq<Provider>, n: nat, j: nat, m: Prefix, r: nat)
    requires n < |providers| && j < |providers[n].prefixes|
    ensures Listed(providers, n, j + 1, m, r) <==>
              Listed(providers, n, j, m, r) || (r == n && Masked(providers[n].prefixes[j]) == m)
  {
    if Listed(providers, n, j + 1, m, r) && !(r == n && Masked(providers[n].prefixes[j]) == m) {
      var i :| 0 <= i < |providers[r].prefixes| && (r < n || (r == n && i < j + 1)) &&
          Masked(providers[r].prefixes[i]) == m;
      assert r == n ==> i != j;
    }
  }

  lemma InsertKeepsBuilt(providers: seq<Provider>, n: nat, j: nat, idx: Index)
    requires n < |providers| && j < |providers[n].prefixes| && Built(providers, n, j, idx)
    ensures Built(providers, n, j + 1, Inserted(idx, Masked(providers[n].prefixes[j]), Entry(providers[n].name, n)))
  {
    var j' := j + 1;
    var p := Masked(providers[n].prefixes[j]);
    var idx' := Inserted(idx, p, Entry(providers[n].name, n));
    forall m: Prefix, e | Holds(idx', m, e)
      ensures Listed(providers, n, j', m, e.rank) && e.name == providers[e.rank].name
      ensures forall r | 0 <= r < e.rank :: !Listed(providers, n, j', m, r)
    {
      ListedOneMore(providers, n, j, m, e.rank);
      forall r: nat | r < e.rank ensures !Listed(providers, n, j', m, r) {
        ListedOneMore(providers, n, j, m, r);
        assert Holds(idx, m, e) || m == p;
      }
      assert Holds(idx, m, e) || m == p;
    }
    forall m: Prefix, r | Listed(providers, n, j', m, r) ensures m.len in idx' && m in idx'[m.len] {
      ListedOneMore(providers, n, j, m, r);
    }
  }

  lemma NextProvider(providers: seq<Provider>, n: nat, idx: Index)
    requires n < |providers| && Built(providers, n, |providers[n].prefixes|, idx)
    ensures Built(providers, n + 1, 0, idx)
  {
    var n', j := n + 1, |providers[n].prefixes|;
    forall m: Prefix, r: nat ensures Listed(providers, n', 0, m, r) <==> Listed(providers, n, j, m, r) {
    }
  }

  /** `buildIndex`, for any ordered list of providers. */
  method BuildIndex(providers: seq<Provider>) returns (idx: Index)
    ensures Built(providers, |providers|, 0, idx)
  {
    idx := map[];
    for n := 0 to |providers|
      invariant Built(providers, n, 0, idx)
    {
      for j := 0 to |providers[n].prefixes|
        invariant Built(providers, n, j, idx)
      {
        InsertKeepsBuilt(providers, n, j, idx);
        ghost var before := idx;
        var p := Masked(providers[n].prefixes[j]);
        if p.len !in idx {
          idx := idx[p.len := map[]];
        }
        if p !in idx[p.len] {
          idx := idx[p.len := idx[p.len][p := Entry(providers[n].name, n)]];
        }
        assert idx == Inserted(before, p, Entry(providers[n].name, n));
      }
      NextProvider(providers, n, idx);
    }
  }

  // ----- looking an address up

  /** The entry a bucket holds for the address, if any. */
  function Probe(idx: Index, a: Addr, len: nat): Option<Entry>
    requires len in idx
  {
    if len > |a.bits| then None
    else
      var m := Masked(RawPrefix(a, len));
      if m in idx[len] then Some(idx[len][m]) else None
  }

  /** What a bucket holds for the address is a provider that owns it. */
  lemma ProbedOwns(providers: seq<Provider>, idx: Index, a: Addr, len: nat)
    requires Built(providers, |providers|, 0, idx) && len in idx && Probe(idx, a, len).Some?
    ensures var e := Probe(idx, a, len).value;
      e.rank < |providers| && e.name == providers[e.rank].name && Owns(providers[e.rank], a)
  {
    var m := Masked(RawPrefix(a, len));
    var e := Probe(idx, a, len).value;
    assert Holds(idx, m, e);
    var i :| 0 <= i < |providers[e.rank].prefixes| && Masked(providers[e.rank].prefixes[i]) == m;
    ContainsIffSameMask(providers[e.rank].prefixes[i], a);
  }

  /** A provider that owns the address, or an earlier one, is found in some bucket. */
  lemma OwnerIsProbed(providers: seq<Provider>, idx: Index, a: Addr, k: nat) returns (len: nat)
    requires Built(providers, |providers|, 0, idx) && k < |providers| && Owns(providers[k], a)
    ensures len in idx && Probe(idx, a, len).Some? && Probe(idx, a, len).value.rank <= k
  {
    var i :| 0 <= i < |providers[k].prefixes| && Contains(providers[k].prefixes[i], a);
    var p := providers[k].prefixes[i];
    ContainsIffSameMask(p, a);
    var m := Masked(p);
    len := p.len;
    assert Listed(providers, |providers|, 0, m, k);
    assert Holds(idx, m, idx[m.len][m]);
  }

  /** The best of all probes is the first owner. */
  lemma BestIsFirstOwner(providers: seq<Provider>, idx: Index, a: Addr, best: Option<Entry>)
    requires Built(providers, |providers|, 0, idx)
    requires best.Some? ==> exists len :: len in idx && Probe(idx, a, len) == best
    requires forall len | len in idx && Probe(idx, a, len).Some? ::
              best.Some? && best.value.rank <= Probe(idx, a, len).value.rank
    ensures match FirstOwner(providers, a, 0)
      case None => best.None?
      case Some(k) => best == Some(Entry(providers[k].name, k))
  {
    if best.Some? {
      var len :| len in idx && Probe(idx, a, len) == best;
      ProbedOwns(providers, idx, a, len);
    }
    var first := FirstOwner(providers, a, 0);
    if first.Some? {
      var len := OwnerIsProbed(providers, idx, a, first.value);
    }
  }

  /** `Provider`: the buckets are walked in any order, and the best rank is kept. */
  method LookUp(idx: Index, ghost providers: seq<Provider>, ip: Option<Addr>) returns (name: string)
    requires Built(providers, |providers|, 0, idx)
    ensures ip.None? ==> name == ""
    ensures ip.Some? ==>
      match FirstOwner(providers, Unmap(ip.value), 0)
      case None => name == ""
      case Some(k) => name == providers[k].name
    ensures forall a, k | ip.Some? && KnownBy(ip.value, a) && IsFirstOwner(providers, a, k) :: name == providers[k].name
    ensures forall a | ip.Some? && KnownBy(ip.value, a) && NoOwner(providers, a) :: name == ""
  {
    if ip.None? {
      return "";
    }
    var addr := Unmap(ip.value);
    forall a ensures KnownBy(ip.value, a) <==> a == addr {
      UnmapIsKnownBy(ip.value, a);
    }
    var best, found := Entry("", 0), false;
    var lens := idx.Keys;
    while lens != {}
      invariant lens <= idx.Keys
      invariant !found ==> best.name == ""
      invariant found ==> exists len :: len in idx.Keys - lens && Probe(idx, addr, len) == Some(best)
      invariant forall len | len in idx.Keys - lens && Probe(idx, addr, len).Some? ::
                  found && best.rank <= Probe(idx, addr, len).value.rank
    {
      var bits :| bits in lens;
      lens := lens - {bits};
      if bits > |addr.bits| {
        continue;
      }
      var masked := Masked(RawPrefix(addr, bits));
      if masked in idx[bits] && (!found || idx[bits][masked].rank < best.rank) {
        best, found := idx[bits][masked], true;
        assert Probe(idx, addr, bits) == Some(best);
      }
    }
    BestIsFirstOwner(providers, idx, addr, if found then Some(best) else None);
    return best.name;
  }

  /** `Exempt`: the owner, unless its exemption has been switched off.  `lower` is strings.ToLower. */
  method Exempt(
      idx: Index, ghost providers: seq<Provider>, ip: Option<Addr>, disabled: set<string>, lower: string -> string)
    returns (name: string)
    requires Built(providers, |providers|, 0, idx)
    ensures ip.None? ==> name == ""
    ensures ip.Some? ==>
      match FirstOwner(providers, Unmap(ip.value), 0)
      case None => name == ""
      case Some(k) => name == if lower(providers[k].name) in disabled then "" else providers[k].name
  {
    name := LookUp(idx, providers, ip);
    if name == "" {
      return "";
    }
    if lower(name) in disabled {
      return "";
    }
  }
}
