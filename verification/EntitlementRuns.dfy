/**
 Runs of whole calls against the entitlement collections, interleaved with
 arbitrary outside changes to purchases, materials and users.
 */
module EntitlementRuns {
  import opened Wrappers
  import opened Entitlement

  datatype Step =
    | ResolveStep(rq: Request, env: Env)
    | CreateStep(materialId: Id, buyer: Address, purchaseId: Option<Id>, contentHash: Option<string>, env: Env)
    | InvalidateStep(materialId: Id, buyer: Address, reason: string, purchaseId: Option<Id>,
                     settlement: Option<Settlement>, env: Env)
    | OutsideStep(purchases: map<Key, Purchase>, materials: map<Id, Material>, suspended: set<Address>, env: Env)

  /** `revokeEntitlement`. */
  function RevokeStep(materialId: Id, buyer: Address, env: Env): Step {
    InvalidateStep(materialId, buyer, "refunded", None, Some(Refunded), env)
  }

  /** The cache entry a step stores, if it stores one. */
  function WriteOf(p: Policy, db: Db, s: Step): Option<(Key, CacheEntry)> {
    match s
    case ResolveStep(rq, env) =>
      (match Decide(p, db, rq, env, true)
       case Write(e, _, _) => if env.faults.cacheWrite then None else Some((KeyOf(p, rq), e))
       case Answer(_) => None)
    case CreateStep(id, buyer, purchaseId, hash, env) =>
      if id == "" || buyer == "" || env.faults.connect || env.faults.cacheWrite then None
      else Some(((id, p.norm(buyer)),
                 NewEntry(env.config, env.writeAt, Provisional, "purchase-api", Or(purchaseId, None), Some(Pending),
                          Or(hash, None))))
    case InvalidateStep(id, buyer, reason, purchaseId, settlement, env) =>
      if id == "" || buyer == "" || env.faults.connect || env.faults.cacheWrite then None
      else Some(((id, p.norm(buyer)),
                 NewEntry(env.config, env.writeAt, Revoked, reason, purchaseId, settlement, None)))
    case OutsideStep(_, _, _, _) => None
  }

  function Next(p: Policy, db: Db, s: Step): Db {
    match s
    case ResolveStep(rq, env) => Resolve(p, db, rq, env).0
    case OutsideStep(purchases, materials, suspended, _) => Db(purchases, db.cache, materials, suspended)
    case _ =>
      match WriteOf(p, db, s)
      case None => db
      case Some((k, e)) => db.(cache := db.cache[k := e])
  }

  lemma NextCache(p: Policy, db: Db, s: Step)
    ensures Next(p, db, s).cache ==
            match WriteOf(p, db, s) { case None => db.cache case Some((k, e)) => db.cache[k := e] }
  {
  }

  function After(p: Policy, db: Db, run: seq<Step>): Db {
    if run == [] then db else Next(p, After(p, db, run[..|run| - 1]), run[|run| - 1])
  }

  /** The collections as step `i` of the run finds them. */
  function Before(p: Policy, db: Db, run: seq<Step>, i: nat): Db
    requires i <= |run|
  {
    After(p, db, run[..i])
  }

  lemma BeforeNext(p: Policy, db: Db, run: seq<Step>, i: nat)
    requires i < |run|
    ensures Before(p, db, run, i + 1) == Next(p, Before(p, db, run, i), run[i])
  {
    assert run[..i + 1][..i] == run[..i];
  }

  // ---------------------------------------------------------------------
  // Where a cache entry comes from
  // ---------------------------------------------------------------------

  /** Step `j` stored `e` for `k`, and no step between `j` and `i` stored anything for `k`. */
  ghost predicate LastWrite(p: Policy, db: Db, run: seq<Step>, k: Key, e: CacheEntry, j: nat, i: nat)
    requires j < i <= |run|
  {
    && WriteOf(p, Before(p, db, run, j), run[j]) == Some((k, e))
    && forall m :: j < m < i ==> !Writes(p, db, run, k, m)
  }

  ghost predicate Writes(p: Policy, db: Db, run: seq<Step>, k: Key, m: nat)
    requires m < |run|
  {
    var w := WriteOf(p, Before(p, db, run, m), run[m]);
    w.Some? && w.value.0 == k
  }

  /** The entry for `k` is the one the run started with; no step before `i` stored anything for `k`. */
  ghost predicate Untouched(p: Policy, db: Db, run: seq<Step>, k: Key, e: CacheEntry, i: nat)
    requires i <= |run|
  {
    && k in db.cache && db.cache[k] == e
    && forall m :: 0 <= m < i ==> !Writes(p, db, run, k, m)
  }

  /** Every entry was stored by the last step of the run to write its pair, or was there at the start. */
  lemma {:induction false} EntryWasWritten(p: Policy, db: Db, run: seq<Step>, k: Key, i: nat) returns (j: Option<nat>)
    requires i <= |run| && k in Before(p, db, run, i).cache
    ensures j.Some? ==> j.value < i && LastWrite(p, db, run, k, Before(p, db, run, i).cache[k], j.value, i)
    ensures j.None? ==> Untouched(p, db, run, k, Before(p, db, run, i).cache[k], i)
    decreases i
  {
    assert run[..0] == [];
    if i == 0 {
      j := None;
    } else {
      BeforeNext(p, db, run, i - 1);
      NextCache(p, Before(p, db, run, i - 1), run[i - 1]);
      if Writes(p, db, run, k, i - 1) {
        j := Some(i - 1);
      } else {
        j := EntryWasWritten(p, db, run, k, i - 1);
      }
    }
  }

  /** Calls are made one after the other, each reading the clock before it writes. */
  ghost predicate Monotone(run: seq<Step>) {
    && (forall i :: 0 <= i < |run| ==> run[i].env.readAt <= run[i].env.writeAt)
    && (forall i, j :: 0 <= i < j < |run| ==> run[i].env.writeAt <= run[j].env.readAt)
  }

  // ---------------------------------------------------------------------
  // Cached access is justified
  // ---------------------------------------------------------------------

  /**
   What makes a stored entry a reason to grant `id` for the pair: a recorded
   purchase, an on-chain "true" without a record, or a completed record whose
   settlement the chain was asked about and did not answer with a revoking state.
   */
  ghost predicate Justifies(p: Policy, db: Db, s: Step, k: Key, id: Option<Id>) {
    match s
    case CreateStep(m, buyer, purchaseId, _, _) => (m, p.norm(buyer)) == k && Or(purchaseId, None) == id
    case ResolveStep(rq, env) =>
      && KeyOf(p, rq) == k
      && LookupOf(p, db, rq, env).Found?
      && (match LookupOf(p, db, rq, env).purchase
          case None => env.chain.entitled == Some(true) && rq.purchaseId == id
          case Some(purchase) =>
            && p.completed(purchase.status) && !Revoking(purchase.settlement)
            && EffectiveId(rq, purchase) == id && !Revoking(ChainState(env, id)))
    case _ => false
  }

  /** The content hash a step stores with its entry. */
  function HashOf(s: Step): Option<string> {
    match s
    case CreateStep(_, _, _, hash, _) => Or(hash, None)
    case ResolveStep(rq, _) => rq.contentHash
    case _ => None
  }

  /** The writing step ran under the network, contract, cache version and content the reading call relies on. */
  ghost predicate SameBinding(s: Step, rq: Request, env: Env) {
    && !Conflict(s.env.config.network, env.config.network)
    && !Conflict(s.env.config.contractId, env.config.contractId)
    && !Conflict(HashOf(s), rq.contentHash)
    && s.env.config.version >= env.config.version
  }

  lemma AllowingWriteJustifies(p: Policy, db: Db, s: Step, k: Key, e: CacheEntry)
    requires WriteOf(p, db, s) == Some((k, e)) && Allowing(e.state)
    ensures Justifies(p, db, s, k, e.purchaseId)
    ensures e.checkedAt == Some(s.env.writeAt) && e.version == Some(s.env.config.version)
    ensures e.network == s.env.config.network && e.contractId == s.env.config.contractId && e.contentHash == HashOf(s)
  {
  }

  /** An earlier step stored the entry the call at `i` relies on, under the TTL and for the purchase it found. */
  ghost predicate JustifiedBy(p: Policy, db: Db, run: seq<Step>, i: nat, j: nat)
    requires i < |run| && run[i].ResolveStep? && ServedFromCache(p, Before(p, db, run, i), run[i].rq, run[i].env)
    requires j < i
  {
    var rq, env, now := run[i].rq, run[i].env, Before(p, db, run, i);
    && Justifies(p, Before(p, db, run, j), run[j], KeyOf(p, rq),
                 EffectiveId(rq, LookupOf(p, now, rq, env).purchase.value))
    && SameBinding(run[j], rq, env)
    && (forall m :: j < m < i ==> !Writes(p, db, run, KeyOf(p, rq), m))
    && 0 <= env.readAt - run[j].env.writeAt < env.config.ttl
  }

  /** The entry the call at `i` relies on is an allowing one from before the run, still fresh, for that purchase. */
  ghost predicate InheritedBy(p: Policy, db: Db, run: seq<Step>, i: nat)
    requires i < |run| && run[i].ResolveStep? && ServedFromCache(p, Before(p, db, run, i), run[i].rq, run[i].env)
  {
    var rq, env, now := run[i].rq, run[i].env, Before(p, db, run, i);
    && KeyOf(p, rq) in db.cache
    && Untouched(p, db, run, KeyOf(p, rq), db.cache[KeyOf(p, rq)], i)
    && CacheHit(env.config, Some(db.cache[KeyOf(p, rq)]), EffectiveId(rq, LookupOf(p, now, rq, env).purchase.value),
                rq.contentHash, env.readAt)
  }

  /**
   On every run, an access served from the cache goes back to a justifying write
   of the run, less than the TTL old, not overwritten since and made under the
   same binding, or else to an entry that was there at the start, untouched and
   still fresh; and the purchase read in the serving call itself is completed
   and unrevoked.
   */
  lemma CachedAccessIsJustified(p: Policy, db: Db, run: seq<Step>, i: nat) returns (j: Option<nat>)
    requires i < |run| && Monotone(run)
    requires run[i].ResolveStep? && ServedFromCache(p, Before(p, db, run, i), run[i].rq, run[i].env)
    ensures j.Some? ==> j.value < i && JustifiedBy(p, db, run, i, j.value)
    ensures j.None? ==> InheritedBy(p, db, run, i)
    ensures db.cache == map[] ==> j.Some?
    ensures var purchase := LookupOf(p, Before(p, db, run, i), run[i].rq, run[i].env).purchase.value;
            p.completed(purchase.status) && !Revoking(purchase.settlement)
  {
    var now, k := Before(p, db, run, i), KeyOf(p, run[i].rq);
    j := EntryWasWritten(p, db, run, k, i);
    if j.Some? {
      AllowingWriteJustifies(p, Before(p, db, run, j.value), run[j.value], k, now.cache[k]);
    }
  }

  /** Caching and never caching disagree on access only within one TTL of such a write or such an entry. */
  lemma DisagreementIsBounded(p: Policy, db: Db, run: seq<Step>, i: nat) returns (j: Option<nat>)
    requires i < |run| && Monotone(run) && run[i].ResolveStep?
    requires Resolve(p, Before(p, db, run, i), run[i].rq, run[i].env).1.hasAccess
             != ResolveUncached(p, Before(p, db, run, i), run[i].rq, run[i].env).1.hasAccess
    ensures ServedFromCache(p, Before(p, db, run, i), run[i].rq, run[i].env)
    ensures j.Some? ==> j.value < i && JustifiedBy(p, db, run, i, j.value)
    ensures j.None? ==> InheritedBy(p, db, run, i)
    ensures db.cache == map[] ==> j.Some?
  {
    UncachedDiffersIff(p, Before(p, db, run, i), run[i].rq, run[i].env);
    j := CachedAccessIsJustified(p, db, run, i);
  }

  // ---------------------------------------------------------------------
  // Revocation is sticky
  // ---------------------------------------------------------------------

  ghost predicate RevokedIn(db: Db, k: Key) {
    k in db.cache && db.cache[k].state.Revoked?
  }

  ghost predicate Creates(p: Policy, s: Step, k: Key) {
    s.CreateStep? && (s.materialId, p.norm(s.buyer)) == k
  }

  lemma RevocationStep(p: Policy, db: Db, s: Step, k: Key)
    requires RevokedIn(db, k) && !Creates(p, s, k)
    ensures RevokedIn(Next(p, db, s), k)
    ensures s.ResolveStep? && KeyOf(p, s.rq) == k ==> !Resolve(p, db, s.rq, s.env).1.hasAccess
  {
    NextCache(p, db, s);
  }

  /**
   Once the entry of a pair is revoked it stays revoked, and every resolve for
   the pair denies, whatever the other steps, the chain, the faults and the
   clocks do, until `createEntitlement` is called for the pair.
   */
  lemma {:induction false} RevocationIsSticky(p: Policy, db: Db, run: seq<Step>, k: Key, i: nat, n: nat)
    requires i <= n <= |run| && RevokedIn(Before(p, db, run, i), k)
    requires forall m :: i <= m < n ==> !Creates(p, run[m], k)
    ensures RevokedIn(Before(p, db, run, n), k)
    ensures forall m :: i <= m < n && run[m].ResolveStep? && KeyOf(p, run[m].rq) == k ==>
              !Resolve(p, Before(p, db, run, m), run[m].rq, run[m].env).1.hasAccess
    decreases n
  {
    if i < n {
      RevocationIsSticky(p, db, run, k, i, n - 1);
      BeforeNext(p, db, run, n - 1);
      RevocationStep(p, Before(p, db, run, n - 1), run[n - 1], k);
    }
  }

  /** How an entry becomes revoked: by invalidation, or by a resolve that saw a revoking chain state. */
  lemma RevokedByIff(p: Policy, db: Db, s: Step, k: Key)
    requires !RevokedIn(db, k)
    ensures RevokedIn(Next(p, db, s), k) <==>
            || (s.InvalidateStep? && WriteOf(p, db, s).Some? && (s.materialId, p.norm(s.buyer)) == k)
            || (s.ResolveStep? && WriteOf(p, db, s).Some? && KeyOf(p, s.rq) == k
                && LookupOf(p, db, s.rq, s.env).Found? && LookupOf(p, db, s.rq, s.env).purchase.Some?
                && Revoking(ChainState(s.env, EffectiveId(s.rq, LookupOf(p, db, s.rq, s.env).purchase.value))))
  {
    NextCache(p, db, s);
  }
}
