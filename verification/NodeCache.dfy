/**
 The node-config cache of the panel client (api/panel/node.go, api/panel/panel.go).

 `GetNodeInfo` holds the lock twice: once to read the cache before the request is sent, and
 once to store what the response brought.  In between, a panel push or a forced retry may take
 the lock any number of times.  `Client` gives each locked section as a method; every method
 is tied to a function on the value `Cache`, and runs are sequences of those functions.

 `Content` is a decoded, normalized node config.  A `World` says how the outside names
 contents: `hash` is SHA-256 (assumed free of collisions, never empty), and `named` is the
 content a panel means by a non-empty ETag.
 */
module NodeCache {
  import opened Common

  type Content = nat

  datatype World = World(hash: Content -> string, named: string -> Content) {
    ghost predicate Sound() {
      && (forall c :: hash(c) != "")
      && (forall c, d :: hash(c) == hash(d) ==> c == d)
    }
  }

  datatype Cache = Cache(etag: string, hash: string, version: nat, retry: nat)

  /** What `GetNodeInfo` remembers between its two locked sections. */
  datatype Fetch = Fetch(etag: string, hash: string, version: nat, retry: nat)

  /** The panel's answer: a failed request or undecodable body, a 304, or a decodable 200. */
  datatype Response =
    | Failed
    | NotModified
    | Ok(content: Content, etag: string)

  // ----- the locked sections, on values

  const EMPTY := Cache("", "", 0, 0)

  function Begun(c: Cache): Fetch {
    Fetch(c.etag, c.hash, c.version, c.retry)
  }

  /** The response of fetch f is stored; the node is handed to the controller if there is one. */
  function Committed(w: World, c: Cache, f: Fetch, r: Response): (Cache, Option<Content>) {
    match r
    case Failed => (c, None)
    case NotModified => (c, None)
    case Ok(content, etag) =>
      var kept := if c.version == f.version then c.(etag := etag) else c;
      if f.hash == w.hash(content) then (kept, None)
      else if c.retry == f.retry then (kept.(hash := w.hash(content)), Some(content))
      else (kept, Some(content))
  }

  function Pushed(c: Cache): Cache {
    c.(etag := "", version := c.version + 1)
  }

  function Forced(c: Cache): Cache {
    Cache("", "", c.version + 1, c.retry + 1)
  }

  // ----- the client

  class Client {
    var nodeEtag: string
    var nodeConfigHash: string
    var nodeCacheVersion: nat
    var nodeRetryVersion: nat

    ghost function View(): Cache
      reads this
    {
      Cache(nodeEtag, nodeConfigHash, nodeCacheVersion, nodeRetryVersion)
    }

    constructor ()
      ensures View() == EMPTY
    {
      nodeEtag, nodeConfigHash, nodeCacheVersion, nodeRetryVersion := "", "", 0, 0;
    }

    /** The first locked section; the request carries `f.etag` as If-None-Match. */
    method BeginFetch() returns (f: Fetch)
      ensures f == Begun(View())
    {
      f := Fetch(nodeEtag, nodeConfigHash, nodeCacheVersion, nodeRetryVersion);
    }

    /** Everything after the response has arrived. */
    method CompleteFetch(w: World, f: Fetch, r: Response) returns (node: Option<Content>)
      modifies this
      ensures (View(), node) == Committed(w, old(View()), f, r)
    {
      if r.Failed? || r.NotModified? {
        return None;
      }
      var newConfigHash := w.hash(r.content);
      if f.hash == newConfigHash {
        if nodeCacheVersion == f.version {
          nodeEtag := r.etag;
        }
        return None;
      }
      if nodeRetryVersion == f.retry {
        nodeConfigHash := newConfigHash;
      }
      if nodeCacheVersion == f.version {
        nodeEtag := r.etag;
      }
      return Some(r.content);
    }

    /** `invalidateNodeInfoCache`: the panel pushed sync.config. */
    method InvalidateForPush()
      modifies this
      ensures View() == Pushed(old(View()))
    {
      nodeEtag := "";
      nodeCacheVersion := nodeCacheVersion + 1;
    }

    /** `InvalidateNodeInfoCache`: a rebuild failed and must be tried again. */
    method InvalidateForRetry()
      modifies this
      ensures View() == Forced(old(View()))
    {
      nodeEtag, nodeConfigHash := "", "";
      nodeCacheVersion, nodeRetryVersion := nodeCacheVersion + 1, nodeRetryVersion + 1;
    }
  }

  // ----- runs

  /**
   A fetch is named by the moment it began, so that any number may be in flight.  `handed` is the
   last node given to the controller.
   */
  datatype State = State(cache: Cache, inflight: map<nat, Fetch>, handed: Option<Content>)

  datatype Action =
    | Begin(id: nat)
    | Complete(of: nat, response: Response, current: Content)
    | Push
    | Force

  const START := State(EMPTY, map[], None)

  /**
   Which actions the protocol and an honest panel allow: `current` is the content the panel holds
   when it answers; a 304 says it is what the request's ETag names, a 200 carries it, and a
   non-empty ETag on a 200 names it from then on.
   */
  ghost predicate Enabled(w: World, s: State, a: Action) {
    match a
    case Begin(id) => id !in s.inflight
    case Complete(id, r, current) =>
      && id in s.inflight
      && (r.NotModified? ==> s.inflight[id].etag != "" && w.named(s.inflight[id].etag) == current)
      && (r.Ok? ==> r.content == current && (r.etag != "" ==> w.named(r.etag) == r.content))
    case Push => true
    case Force => true
  }

  function Next(w: World, s: State, a: Action): State
    requires a.Complete? ==> a.of in s.inflight
  {
    match a
    case Begin(id) => s.(inflight := s.inflight[id := Begun(s.cache)])
    case Complete(id, r, _) =>
      var (cache, node) := Committed(w, s.cache, s.inflight[id], r);
      State(cache, s.inflight - {id}, if node.Some? then node else s.handed)
    case Push => s.(cache := Pushed(s.cache))
    case Force => s.(cache := Forced(s.cache))
  }

  ghost predicate StepAt(w: World, states: seq<State>, acts: seq<Action>, i: nat)
    requires |states| == |acts| + 1 && i < |acts|
  {
    Enabled(w, states[i], acts[i]) && states[i + 1] == Next(w, states[i], acts[i])
  }

  ghost predicate IsRun(w: World, states: seq<State>, acts: seq<Action>) {
    && w.Sound()
    && |states| == |acts| + 1
    && states[0] == START
    && forall i | 0 <= i < |acts| :: StepAt(w, states, acts, i)
  }

  /** No fetch is begun while another is in flight. */
  ghost predicate Serial(states: seq<State>, acts: seq<Action>) {
    |states| == |acts| + 1 && forall i | 0 <= i < |acts| && acts[i].Begin? :: states[i].inflight == map[]
  }

  // ----- no invalidation is lost (any number of fetches in flight)

  /** Fetches in flight never remember a version from the future. */
  lemma {:induction false} VersionsBehind(w: World, states: seq<State>, acts: seq<Action>, n: nat)
    requires IsRun(w, states, acts) && n < |states|
    ensures forall id | id in states[n].inflight ::
              && states[n].inflight[id].version <= states[n].cache.version
              && states[n].inflight[id].retry <= states[n].cache.retry
  {
    if n > 0 {
      VersionsBehind(w, states, acts, n - 1);
      assert StepAt(w, states, acts, n - 1);
    }
  }

  /** After an invalidation, and until the next fetch begins, nothing in flight can store an ETag. */
  lemma {:induction false} EtagStaysEmpty(w: World, states: seq<State>, acts: seq<Action>, i: nat, j: nat)
    requires IsRun(w, states, acts) && i < j < |states|
    requires acts[i].Push? || acts[i].Force?
    requires forall k | i < k < j :: !acts[k].Begin?
    ensures states[j].cache.etag == ""
    ensures forall id | id in states[j].inflight :: states[j].inflight[id].version < states[j].cache.version
  {
    assert StepAt(w, states, acts, j - 1);
    if i + 1 == j {
      VersionsBehind(w, states, acts, i);
    } else {
      EtagStaysEmpty(w, states, acts, i, j - 1);
    }
  }

  /** After a push or a forced retry the next fetch begun sends an empty If-None-Match. */
  lemma NextFetchIsUnconditional(w: World, states: seq<State>, acts: seq<Action>, i: nat, j: nat)
    requires IsRun(w, states, acts) && i < j < |acts|
    requires acts[i].Push? || acts[i].Force?
    requires acts[j].Begin? && forall k | i < k < j :: !acts[k].Begin?
    ensures acts[j].id in states[j + 1].inflight && states[j + 1].inflight[acts[j].id].etag == ""
  {
    EtagStaysEmpty(w, states, acts, i, j);
    assert StepAt(w, states, acts, j);
  }

  /** After a forced retry, and until the next fetch begins, nothing in flight can store a hash. */
  lemma {:induction false} HashStaysEmpty(w: World, states: seq<State>, acts: seq<Action>, i: nat, j: nat)
    requires IsRun(w, states, acts) && i < j < |states|
    requires acts[i].Force?
    requires forall k | i < k < j :: !acts[k].Begin?
    ensures states[j].cache.hash == ""
    ensures forall id | id in states[j].inflight :: states[j].inflight[id].retry < states[j].cache.retry
  {
    assert StepAt(w, states, acts, j - 1);
    if i + 1 == j {
      VersionsBehind(w, states, acts, i);
    } else {
      HashStaysEmpty(w, states, acts, i, j - 1);
    }
  }

  /** A fetch in flight keeps what it read when it began. */
  lemma {:induction false} FetchUnchanged(w: World, states: seq<State>, acts: seq<Action>, id: nat, j: nat, k: nat)
    requires IsRun(w, states, acts) && j <= k < |states| && id in states[j].inflight
    requires forall m | j <= m < k :: acts[m].Complete? ==> acts[m].of != id
    ensures id in states[k].inflight && states[k].inflight[id] == states[j].inflight[id]
  {
    if j < k {
      FetchUnchanged(w, states, acts, id, j, k - 1);
      assert StepAt(w, states, acts, k - 1);
    }
  }

  /**
   After a forced retry the next fetch begun hands out its node whenever it is answered with a
   decodable 200, whatever else happens while it is in flight.
   */
  lemma ForcedRetryHandsOut(w: World, states: seq<State>, acts: seq<Action>, i: nat, j: nat, k: nat)
    requires IsRun(w, states, acts) && i < j < k < |acts|
    requires acts[i].Force?
    requires acts[j].Begin? && forall m | i < m < j :: !acts[m].Begin?
    requires acts[k].Complete? && acts[k].of == acts[j].id && acts[k].response.Ok?
    requires forall m | j < m < k :: acts[m].Complete? ==> acts[m].of != acts[j].id
    ensures acts[j].id in states[k].inflight
    ensures Committed(w, states[k].cache, states[k].inflight[acts[j].id], acts[k].response).1
              == Some(acts[k].response.content)
  {
    HashStaysEmpty(w, states, acts, i, j);
    assert StepAt(w, states, acts, j);
    FetchUnchanged(w, states, acts, acts[j].id, j + 1, k);
    assert w.hash(acts[k].response.content) != "";
  }

  // ----- what a completed fetch stores (any number of fetches in flight)

  /** The version counts the pushes and forced retries. */
  lemma {:induction false} VersionCounts(w: World, states: seq<State>, acts: seq<Action>, i: nat, k: nat)
    requires IsRun(w, states, acts) && i <= k < |states|
    ensures states[i].cache.version <= states[k].cache.version
    ensures states[i].cache.version == states[k].cache.version <==>
              forall m | i <= m < k :: !acts[m].Push? && !acts[m].Force?
  {
    if i < k {
      VersionCounts(w, states, acts, i, k - 1);
      assert StepAt(w, states, acts, k - 1);
    }
  }

  /** Action k completes the fetch that action j began. */
  ghost predicate Completes(acts: seq<Action>, j: nat, k: nat) {
    && j < k < |acts| && acts[j].Begin? && acts[k].Complete? && acts[k].of == acts[j].id
    && forall m | j < m < k :: acts[m].Complete? ==> acts[m].of != acts[j].id
  }

  /**
   A fetch that is answered with a decodable 200 stores the ETag of the answer exactly if no push and no
   forced retry has come since it began; otherwise the ETag stays as it is.
   */
  lemma EtagIsStoredUnlessInvalidated(w: World, states: seq<State>, acts: seq<Action>, j: nat, k: nat)
    requires IsRun(w, states, acts) && Completes(acts, j, k) && acts[k].response.Ok?
    ensures states[k + 1].cache.etag ==
              if forall m | j < m < k :: !acts[m].Push? && !acts[m].Force? then acts[k].response.etag
              else states[k].cache.etag
  {
    assert StepAt(w, states, acts, j) && StepAt(w, states, acts, k);
    FetchUnchanged(w, states, acts, acts[j].id, j + 1, k);
    VersionCounts(w, states, acts, j + 1, k);
  }

  lemma {:induction false} RetryCounts(w: World, states: seq<State>, acts: seq<Action>, i: nat, k: nat)
    requires IsRun(w, states, acts) && i <= k < |states|
    ensures states[i].cache.retry <= states[k].cache.retry
    ensures states[i].cache.retry == states[k].cache.retry <==> forall m | i <= m < k :: !acts[m].Force?
  {
    if i < k {
      RetryCounts(w, states, acts, i, k - 1);
      assert StepAt(w, states, acts, k - 1);
    }
  }

  /**
   It hands out the content exactly if its hash was not the stored one when the fetch began, and then
   stores that hash exactly if no forced retry has come since.
   */
  lemma HashIsStoredUnlessForced(w: World, states: seq<State>, acts: seq<Action>, j: nat, k: nat)
    requires IsRun(w, states, acts) && Completes(acts, j, k) && acts[k].response.Ok?
    ensures var content := acts[k].response.content;
      if states[j].cache.hash == w.hash(content)
      then states[k + 1].handed == states[k].handed && states[k + 1].cache.hash == states[k].cache.hash
      else
        && states[k + 1].handed == Some(content)
        && states[k + 1].cache.hash ==
             if forall m | j < m < k :: !acts[m].Force? then w.hash(content) else states[k].cache.hash
  {
    assert StepAt(w, states, acts, j) && StepAt(w, states, acts, k);
    FetchUnchanged(w, states, acts, acts[j].id, j + 1, k);
    RetryCounts(w, states, acts, j + 1, k);
  }

  /** A failed request, an undecodable answer and a 304 leave the cache as it was and hand nothing out. */
  lemma FruitlessFetchChangesNothing(w: World, states: seq<State>, acts: seq<Action>, k: nat)
    requires IsRun(w, states, acts) && k < |acts| && acts[k].Complete? && !acts[k].response.Ok?
    ensures states[k + 1].cache == states[k].cache && states[k + 1].handed == states[k].handed
  {
    assert StepAt(w, states, acts, k);
  }

  lemma {:induction false} EtagStays(w: World, states: seq<State>, acts: seq<Action>, k: nat, n: nat)
    requires IsRun(w, states, acts) && k <= n < |states|
    requires forall m | k <= m < n ::
               !acts[m].Push? && !acts[m].Force? && (acts[m].Complete? ==> !acts[m].response.Ok?)
    ensures states[n].cache.etag == states[k].cache.etag
  {
    if k < n {
      EtagStays(w, states, acts, k, n - 1);
      assert StepAt(w, states, acts, n - 1);
    }
  }

  /** That ETag is what later fetches send, until a push, a forced retry or another 200. */
  lemma StoredEtagIsSent(w: World, states: seq<State>, acts: seq<Action>, j: nat, k: nat, n: nat)
    requires IsRun(w, states, acts) && Completes(acts, j, k) && acts[k].response.Ok? && k < n < |acts|
    requires forall m | j < m < n && m != k ::
               !acts[m].Push? && !acts[m].Force? && (k < m && acts[m].Complete? ==> !acts[m].response.Ok?)
    requires acts[n].Begin?
    ensures acts[n].id in states[n + 1].inflight
    ensures states[n + 1].inflight[acts[n].id].etag == acts[k].response.etag
  {
    EtagIsStoredUnlessInvalidated(w, states, acts, j, k);
    EtagStays(w, states, acts, k + 1, n);
    assert StepAt(w, states, acts, n);
  }

  // ----- a 304 never hides a change (one fetch at a time)

  /** The hash is that of the last node handed out, unless it was cleared. */
  ghost predicate HashIsHanded(w: World, hash: string, handed: Option<Content>) {
    hash == "" || (handed.Some? && hash == w.hash(handed.value))
  }

  /** A non-empty ETag comes with the hash of the content it names. */
  ghost predicate EtagMatchesHash(w: World, etag: string, hash: string) {
    etag != "" ==> hash == w.hash(w.named(etag))
  }

  ghost predicate Coherent(w: World, s: State) {
    && HashIsHanded(w, s.cache.hash, s.handed)
    && EtagMatchesHash(w, s.cache.etag, s.cache.hash)
    && (forall x, y | x in s.inflight && y in s.inflight :: x == y)
    && forall id | id in s.inflight ::
         var f := s.inflight[id];
         && f.version <= s.cache.version && f.retry <= s.cache.retry
         && EtagMatchesHash(w, f.etag, f.hash)
         && HashIsHanded(w, f.hash, s.handed)
         && s.cache.hash == (if f.retry == s.cache.retry then f.hash else "")
         && s.cache.etag == (if f.version == s.cache.version then f.etag else "")
         && (f.version == s.cache.version ==> f.retry == s.cache.retry)
  }

  lemma {:induction false} StaysCoherent(w: World, states: seq<State>, acts: seq<Action>, n: nat)
    requires IsRun(w, states, acts) && Serial(states, acts) && n < |states|
    ensures Coherent(w, states[n])
  {
    if n > 0 {
      StaysCoherent(w, states, acts, n - 1);
      assert StepAt(w, states, acts, n - 1);
    }
  }

  /**
   In every reachable state a non-empty ETag implies that the stored hash is that of the content
   the ETag names, and a stored hash is that of the last node handed out.
   */
  lemma EtagNeverOutlivesItsHash(w: World, states: seq<State>, acts: seq<Action>, n: nat)
    requires IsRun(w, states, acts) && Serial(states, acts) && n < |states|
    ensures var c := states[n].cache;
      && (c.etag != "" ==> c.hash == w.hash(w.named(c.etag)))
      && (c.hash != "" ==> states[n].handed.Some? && c.hash == w.hash(states[n].handed.value))
  {
    StaysCoherent(w, states, acts, n);
  }

  /** When a fetch is answered 304, what the panel holds is what the controller was last given. */
  lemma NotModifiedHidesNothing(w: World, states: seq<State>, acts: seq<Action>, k: nat)
    requires IsRun(w, states, acts) && Serial(states, acts) && k < |acts|
    requires acts[k].Complete? && acts[k].response.NotModified?
    ensures states[k].handed == Some(acts[k].current)
  {
    StaysCoherent(w, states, acts, k);
    assert StepAt(w, states, acts, k);
    assert w.hash(acts[k].current) != "";
  }

  // ----- pushes alone never rebuild

  /** Without a forced retry all fetches have the same retry version. */
  lemma {:induction false} RetriesAgree(w: World, states: seq<State>, acts: seq<Action>, n: nat)
    requires IsRun(w, states, acts) && n < |states|
    requires forall k | 0 <= k < n :: !acts[k].Force?
    ensures forall id | id in states[n].inflight :: states[n].inflight[id].retry == states[n].cache.retry
  {
    if n > 0 {
      RetriesAgree(w, states, acts, n - 1);
      assert StepAt(w, states, acts, n - 1);
    }
  }

  /**
   Without a forced retry the stored hash is always that of the last node handed out, however many
   pushes arrive and however many fetches are in flight.
   */
  lemma {:induction false} HashFollowsHanded(w: World, states: seq<State>, acts: seq<Action>, n: nat)
    requires IsRun(w, states, acts) && n < |states|
    requires forall k | 0 <= k < n :: !acts[k].Force?
    ensures states[n].cache.hash == if states[n].handed.Some? then w.hash(states[n].handed.value) else ""
  {
    if n > 0 {
      HashFollowsHanded(w, states, acts, n - 1);
      RetriesAgree(w, states, acts, n - 1);
      assert StepAt(w, states, acts, n - 1);
    }
  }

  /** What the controller is handed when action k completes a fetch. */
  function HandedAt(w: World, states: seq<State>, acts: seq<Action>, k: nat): Option<Content>
    requires k < |acts| && k < |states| && acts[k].Complete? && acts[k].of in states[k].inflight
  {
    Committed(w, states[k].cache, states[k].inflight[acts[k].of], acts[k].response).1
  }

  /** What it should be handed on an answer: the content, if it differs from the node it was last handed. */
  function Due(s: State, answer: Content): Option<Content> {
    if s.handed == Some(answer) then None else Some(answer)
  }

  /**
   Without a forced retry a fetch hands out what is due exactly when no other fetch has changed the
   hash since it began, or the answer has neither of the two hashes.
   */
  lemma HandsOutDueIff(w: World, states: seq<State>, acts: seq<Action>, k: nat)
    requires IsRun(w, states, acts) && k < |acts|
    requires forall m | 0 <= m < k :: !acts[m].Force?
    requires acts[k].Complete? && acts[k].response.Ok?
    ensures acts[k].of in states[k].inflight
    ensures var f, c, hash := states[k].inflight[acts[k].of], states[k].cache, w.hash(acts[k].response.content);
      HandedAt(w, states, acts, k) == Due(states[k], acts[k].response.content) <==>
        f.hash == c.hash || (hash != f.hash && hash != c.hash)
  {
    HashFollowsHanded(w, states, acts, k);
    assert StepAt(w, states, acts, k);
    assert w.hash(acts[k].response.content) != "";
  }

  /**
   However many pushes arrive, and whenever they arrive, with one fetch at a time and without a forced
   retry the controller is handed a node exactly when the answer differs from the node it was last handed.
   */
  lemma RebuildOnlyOnChange(w: World, states: seq<State>, acts: seq<Action>, k: nat)
    requires IsRun(w, states, acts) && Serial(states, acts) && k < |acts|
    requires forall m | 0 <= m < k :: !acts[m].Force?
    requires acts[k].Complete? && acts[k].response.Ok?
    ensures acts[k].of in states[k].inflight
    ensures HandedAt(w, states, acts, k) == Due(states[k], acts[k].response.content)
  {
    StaysCoherent(w, states, acts, k);
    RetriesAgree(w, states, acts, k);
    HandsOutDueIff(w, states, acts, k);
  }

  // ----- what overlapping fetches cost, exactly

  /**
   A completion that parts the ETag from its hash: an unchanged answer brings an ETag after another
   fetch has changed the hash, or a changed answer replaces the hash under an ETag that was stored after
   a push.
   */
  predicate EtagClash(w: World, c: Cache, f: Fetch, r: Response) {
    r.Ok? && c.hash != w.hash(r.content) &&
    if f.hash == w.hash(r.content)
    then c.version == f.version && r.etag != ""
    else c.version != f.version && c.retry == f.retry && c.etag != ""
  }

  /** A completion that hands a node out behind a hash that another fetch has stored after a forced retry. */
  predicate HandClash(w: World, c: Cache, f: Fetch, r: Response) {
    r.Ok? && f.hash != w.hash(r.content) && c.retry != f.retry && c.hash != "" && c.hash != w.hash(r.content)
  }

  ghost predicate EtagClashAt(w: World, states: seq<State>, acts: seq<Action>, k: nat)
    requires k < |acts| && k < |states|
  {
    acts[k].Complete? && acts[k].of in states[k].inflight &&
    EtagClash(w, states[k].cache, states[k].inflight[acts[k].of], acts[k].response)
  }

  ghost predicate HandClashAt(w: World, states: seq<State>, acts: seq<Action>, k: nat)
    requires k < |acts| && k < |states|
  {
    acts[k].Complete? && acts[k].of in states[k].inflight &&
    HandClash(w, states[k].cache, states[k].inflight[acts[k].of], acts[k].response)
  }

  /** A non-empty ETag names the content whose hash is stored. */
  ghost predicate EtagRight(w: World, s: State) {
    EtagMatchesHash(w, s.cache.etag, s.cache.hash)
  }

  /** A stored hash is that of the last node handed out. */
  ghost predicate HashRight(w: World, s: State) {
    HashIsHanded(w, s.cache.hash, s.handed)
  }

  /** A fetch that remembers the current version remembers the current retry version. */
  lemma {:induction false} VersionFixesRetry(w: World, states: seq<State>, acts: seq<Action>, n: nat)
    requires IsRun(w, states, acts) && n < |states|
    ensures forall id | id in states[n].inflight && states[n].inflight[id].version == states[n].cache.version ::
              states[n].inflight[id].retry == states[n].cache.retry
  {
    if n > 0 {
      VersionFixesRetry(w, states, acts, n - 1);
      VersionsBehind(w, states, acts, n - 1);
      assert StepAt(w, states, acts, n - 1);
    }
  }

  lemma EtagRightUnlessClash(w: World, states: seq<State>, acts: seq<Action>, k: nat)
    requires IsRun(w, states, acts) && k < |acts| && EtagRight(w, states[k])
    ensures EtagRight(w, states[k + 1]) <==> !EtagClashAt(w, states, acts, k)
  {
    VersionFixesRetry(w, states, acts, k);
    assert StepAt(w, states, acts, k);
  }

  lemma HashRightUnlessClash(w: World, states: seq<State>, acts: seq<Action>, k: nat)
    requires IsRun(w, states, acts) && k < |acts| && HashRight(w, states[k])
    ensures HashRight(w, states[k + 1]) <==> !HandClashAt(w, states, acts, k)
  {
    assert StepAt(w, states, acts, k);
    assert acts[k].Complete? && acts[k].response.Ok? ==> w.hash(acts[k].response.content) != "";
  }

  /**
   For any run and any number of fetches in flight: up to state n every non-empty ETag names the content
   whose hash is stored if and only if no completion so far was a clash.
   */
  lemma {:induction false} EtagRightIffNoClash(w: World, states: seq<State>, acts: seq<Action>, n: nat)
    requires IsRun(w, states, acts) && n < |states|
    ensures (forall k | 0 <= k <= n :: EtagRight(w, states[k])) <==>
              (forall k | 0 <= k < n :: !EtagClashAt(w, states, acts, k))
  {
    if n > 0 {
      EtagRightIffNoClash(w, states, acts, n - 1);
      if EtagRight(w, states[n - 1]) {
        EtagRightUnlessClash(w, states, acts, n - 1);
      }
    }
  }

  /** The same for the stored hash and the last node handed out. */
  lemma {:induction false} HashRightIffNoClash(w: World, states: seq<State>, acts: seq<Action>, n: nat)
    requires IsRun(w, states, acts) && n < |states|
    ensures (forall k | 0 <= k <= n :: HashRight(w, states[k])) <==>
              (forall k | 0 <= k < n :: !HandClashAt(w, states, acts, k))
  {
    if n > 0 {
      HashRightIffNoClash(w, states, acts, n - 1);
      if HashRight(w, states[n - 1]) {
        HashRightUnlessClash(w, states, acts, n - 1);
      }
    }
  }

  /** With one fetch at a time no completion is a clash. */
  lemma SerialNeverClashes(w: World, states: seq<State>, acts: seq<Action>, n: nat)
    requires IsRun(w, states, acts) && Serial(states, acts) && n < |acts|
    ensures !EtagClashAt(w, states, acts, n) && !HandClashAt(w, states, acts, n)
  {
    StaysCoherent(w, states, acts, n);
    StaysCoherent(w, states, acts, n + 1);
    EtagRightUnlessClash(w, states, acts, n);
    HashRightUnlessClash(w, states, acts, n);
  }

  /** A fetch begun while the ETag was right remembers an ETag and the hash of the content it names. */
  lemma {:induction false} FetchesAreRight(w: World, states: seq<State>, acts: seq<Action>, n: nat)
    requires IsRun(w, states, acts) && n < |states|
    requires forall k | 0 <= k < n :: !EtagClashAt(w, states, acts, k)
    ensures forall id | id in states[n].inflight ::
              EtagMatchesHash(w, states[n].inflight[id].etag, states[n].inflight[id].hash)
  {
    if n > 0 {
      FetchesAreRight(w, states, acts, n - 1);
      EtagRightIffNoClash(w, states, acts, n - 1);
      assert EtagRight(w, states[n - 1]);
      assert StepAt(w, states, acts, n - 1);
    }
  }

  /**
   Without clashes and forced retries a 304 says that the panel holds what the controller was last given
   exactly when no other fetch has changed the hash since this one began.
   */
  lemma NotModifiedHidesNothingIff(w: World, states: seq<State>, acts: seq<Action>, k: nat)
    requires IsRun(w, states, acts) && k < |acts|
    requires forall m | 0 <= m < k :: !acts[m].Force? && !EtagClashAt(w, states, acts, m)
    requires acts[k].Complete? && acts[k].response.NotModified?
    ensures acts[k].of in states[k].inflight
    ensures states[k].handed == Some(acts[k].current) <==>
              states[k].inflight[acts[k].of].hash == states[k].cache.hash
  {
    FetchesAreRight(w, states, acts, k);
    HashFollowsHanded(w, states, acts, k);
    assert StepAt(w, states, acts, k);
    assert w.hash(acts[k].current) != "";
  }

  /** Two fetches in flight that clash: the ETag left behind names a content whose hash is not the stored one. */
  lemma OverlapBreaksCoherence(w: World) returns (states: seq<State>, acts: seq<Action>)
    requires w.Sound() && w.named("one") == 1 && w.named("two") == 2
    ensures IsRun(w, states, acts)
    ensures !EtagRight(w, states[|acts|]) && EtagClashAt(w, states, acts, |acts| - 1)
  {
    acts := [Begin(0), Complete(0, Ok(1, ""), 1), Begin(0), Begin(1),
             Complete(0, Ok(2, "two"), 2), Complete(1, Ok(1, "one"), 1)];
    var s0 := START;
    var s1 := Next(w, s0, acts[0]);
    var s2 := Next(w, s1, acts[1]);
    var s3 := Next(w, s2, acts[2]);
    var s4 := Next(w, s3, acts[3]);
    var s5 := Next(w, s4, acts[4]);
    var s6 := Next(w, s5, acts[5]);
    states := [s0, s1, s2, s3, s4, s5, s6];
    assert StepAt(w, states, acts, 0) && StepAt(w, states, acts, 1) && StepAt(w, states, acts, 2);
    assert StepAt(w, states, acts, 3) && StepAt(w, states, acts, 4) && StepAt(w, states, acts, 5);
    assert w.hash(1) != w.hash(2) && w.hash(1) != "" && w.hash(2) != "";
  }
}
