/**
 The verdicts of `resolveEntitlement` case by case, on the raw records: the
 settlement states, addresses, ids, bindings and sources by name.
 */
module EntitlementCases {
  import opened Wrappers
  import opened Entitlement
  import opened EntitlementRuns

  /** The three states that end an entitlement. */
  const ENDED: set<Option<Settlement>> := {Some(Refunded), Some(Disputed), Some(Expired)}

  /** No operation of the call throws. */
  predicate NoFault(f: Faults) {
    !f.connect && !f.users && f.purchaseRead.None? && !f.cacheRead && !f.cacheWrite && !f.mirror
  }

  // ---------------------------------------------------------------------
  // Which record is found
  // ---------------------------------------------------------------------

  lemma {:induction false} AmongWithoutFault(db: Db, ids: seq<Id>, buyer: Address, i: nat)
    ensures FindAmong(db, ids, buyer, None, i).Found?
  {
    if ids != [] { AmongWithoutFault(db, ids[1..], buyer, i + 1); }
  }

  lemma {:induction false} AmongFindsFirst(db: Db, ids: seq<Id>, buyer: Address, i: nat, j: nat)
    requires j < |ids| && FirstAt(db, ids, buyer, j)
    ensures FindAmong(db, ids, buyer, None, i) == Found(Some(db.purchases[(ids[j], buyer)]))
    decreases j
  {
    if j > 0 {
      assert FirstAt(db, ids[1..], buyer, j - 1);
      AmongFindsFirst(db, ids[1..], buyer, i + 1, j - 1);
    }
  }

  /** The record under the id itself comes before all others. */
  lemma OwnRecordIsFound(db: Db, id: Id, buyer: Address)
    requires (id, buyer) in db.purchases
    ensures FindPurchase(db, id, buyer, None) == Found(Some(db.purchases[(id, buyer)]))
  {
  }

  /** Then comes the one under the id the material was merged into. */
  lemma MergedRecordIsFound(db: Db, id: Id, buyer: Address, target: Id)
    requires (id, buyer) !in db.purchases && id in db.materials && db.materials[id].mergedInto == Some(target)
    requires target != "" && (target, buyer) in db.purchases
    ensures FindPurchase(db, id, buyer, None) == Found(Some(db.purchases[(target, buyer)]))
  {
    var ids := Candidates(MaterialOf(db, id));
    assert ids[0] == target;
    AmongFindsFirst(db, ids, buyer, 2, 0);
  }

  /** Then the first along the aliases. */
  lemma AliasRecordIsFound(db: Db, id: Id, buyer: Address, j: nat)
    requires (id, buyer) !in db.purchases && id in db.materials
    requires var m := db.materials[id];
             && (m.mergedInto.Some? ==> (m.mergedInto.value, buyer) !in db.purchases)
             && j < |m.aliases| && FirstAt(db, m.aliases, buyer, j)
    ensures FindPurchase(db, id, buyer, None) == Found(Some(db.purchases[(db.materials[id].aliases[j], buyer)]))
  {
    var m, ids := db.materials[id], Candidates(MaterialOf(db, id));
    var n := |ids| - |m.aliases|;
    FirstBehind(db, ids, m.aliases, buyer, n, j);
    AmongFindsFirst(db, ids, buyer, 2, n + j);
  }

  lemma FirstBehind(db: Db, ids: seq<Id>, more: seq<Id>, buyer: Address, n: nat, j: nat)
    requires n <= |ids| && ids[n..] == more && j < |more| && FirstAt(db, more, buyer, j)
    requires forall k :: 0 <= k < n ==> (ids[k], buyer) !in db.purchases
    ensures n + j < |ids| && ids[n + j] == more[j] && FirstAt(db, ids, buyer, n + j)
  {
    assert forall k :: n <= k < |ids| ==> ids[k] == more[k - n];
  }

  /** Without a record under any of them, none is found. */
  lemma NoRecordIsFound(db: Db, id: Id, buyer: Address)
    requires (id, buyer) !in db.purchases
    requires id in db.materials ==>
      && (db.materials[id].mergedInto.Some? ==> (db.materials[id].mergedInto.value, buyer) !in db.purchases)
      && forall j :: 0 <= j < |db.materials[id].aliases| ==> (db.materials[id].aliases[j], buyer) !in db.purchases
    ensures FindPurchase(db, id, buyer, None) == Found(None)
  {
    var ids := Candidates(MaterialOf(db, id));
    AmongWithoutFault(db, ids, buyer, 2);
    FindAmongMeans(db, ids, buyer, None, 2);
  }

  /** The reads of one lookup: the id, the material, then one per id tried. */
  function ReadsOf(db: Db, id: Id, buyer: Address): nat {
    if (id, buyer) in db.purchases then 1 else 2 + ReadsAmong(db, Candidates(MaterialOf(db, id)), buyer)
  }

  function ReadsAmong(db: Db, ids: seq<Id>, buyer: Address): nat {
    if ids == [] then 0
    else if (ids[0], buyer) in db.purchases then 1
    else 1 + ReadsAmong(db, ids[1..], buyer)
  }

  lemma {:induction false} AmongFailsIff(db: Db, ids: seq<Id>, buyer: Address, n: nat, i: nat)
    ensures FindAmong(db, ids, buyer, Some(n), i).Failed? <==> i <= n < i + ReadsAmong(db, ids, buyer)
  {
    if ids != [] { AmongFailsIff(db, ids[1..], buyer, n, i + 1); }
  }

  /** A failing read fails the lookup exactly when the lookup gets to it. */
  lemma LookupFailsIff(db: Db, id: Id, buyer: Address, fault: Option<nat>)
    ensures FindPurchase(db, id, buyer, fault).Failed? <==> fault.Some? && fault.value < ReadsOf(db, id, buyer)
  {
    var ids := Candidates(MaterialOf(db, id));
    if fault.Some? { AmongFailsIff(db, ids, buyer, fault.value, 2); } else { AmongWithoutFault(db, ids, buyer, 2); }
  }

  // ---------------------------------------------------------------------
  // Who asks, and about which purchase
  // ---------------------------------------------------------------------

  /** Two spellings of an address that normalize alike are the same buyer. */
  lemma SameBuyer(p: Policy, db: Db, rq: Request, other: Address, env: Env)
    requires p.norm(other) == p.norm(rq.buyer) && (other == "" <==> rq.buyer == "")
    ensures Resolve(p, db, rq.(buyer := other), env) == Resolve(p, db, rq, env)
  {
  }

  /** A request without an id or an address is UNAVAILABLE and leaves everything as it is. */
  lemma MalformedIsUnavailable(p: Policy, db: Db, rq: Request, env: Env)
    requires rq.materialId == "" || rq.buyer == ""
    ensures Resolve(p, db, rq, env) == (db, Deny(Unavailable, "invalid-params"))
  {
  }

  lemma {:induction false} UsersDoNotMatter(db: Db, ids: seq<Id>, buyer: Address, fault: Option<nat>, i: nat)
    ensures FindAmong(db.(suspended := {}), ids, buyer, fault, i) == FindAmong(db, ids, buyer, fault, i)
  {
    if ids != [] { UsersDoNotMatter(db, ids[1..], buyer, fault, i + 1); }
  }

  /** A suspended buyer is denied. */
  lemma SuspendedIsDenied(p: Policy, db: Db, rq: Request, env: Env)
    requires rq.materialId != "" && rq.buyer != "" && !env.faults.connect
    requires p.norm(rq.buyer) in db.suspended && !env.faults.users
    ensures Resolve(p, db, rq, env) == (db, Deny(Revoked, "buyer-suspended"))
  {
  }

  /** A failing look at the users denies nobody: the call goes on as if no one were suspended. */
  lemma UsersFaultDeniesNobody(p: Policy, db: Db, rq: Request, env: Env)
    requires env.faults.users
    ensures Resolve(p, db, rq, env).1 ==
            Resolve(p, db.(suspended := {}), rq, env.(faults := env.faults.(users := false))).1
  {
    SamePlan(p, db, rq, env);
    SameAnswer(p, db, db.(suspended := {}), rq, env, env.(faults := env.faults.(users := false)),
               Decide(p, db, rq, env, true));
  }

  lemma SamePlan(p: Policy, db: Db, rq: Request, env: Env)
    requires env.faults.users
    ensures Decide(p, db.(suspended := {}), rq, env.(faults := env.faults.(users := false)), true)
            == Decide(p, db, rq, env, true)
  {
    LookupWithoutUsers(p, db, rq, env);
  }

  lemma SameAnswer(p: Policy, db: Db, other: Db, rq: Request, env: Env, otherEnv: Env, plan: Plan)
    requires env.faults.cacheWrite == otherEnv.faults.cacheWrite
    ensures Commit(p, db, rq, env, plan).1 == Commit(p, other, rq, otherEnv, plan).1
  {
  }

  lemma LookupWithoutUsers(p: Policy, db: Db, rq: Request, env: Env)
    ensures LookupOf(p, db.(suspended := {}), rq, env.(faults := env.faults.(users := false))) == LookupOf(p, db, rq, env)
  {
    var db' := db.(suspended := {});
    assert MaterialOf(db', rq.materialId) == MaterialOf(db, rq.materialId);
    UsersDoNotMatter(db, Candidates(MaterialOf(db, rq.materialId)), p.norm(rq.buyer), env.faults.purchaseRead, 2);
  }

  /** The purchase id of a call: the one asked for unless empty, else that of the record unless empty. */
  lemma PurchaseIdOf(rq: Request, purchase: Purchase)
    ensures (exists s :: s != "" && rq.purchaseId == Some(s)) ==> EffectiveId(rq, purchase) == rq.purchaseId
    ensures (rq.purchaseId.None? || rq.purchaseId == Some("")) ==>
              EffectiveId(rq, purchase) == if purchase.purchaseId == Some("") then None else purchase.purchaseId
  {
  }

  /** The chain is asked about a purchase exactly when there is an id to ask with. */
  lemma ChainAsked(env: Env, id: Option<Id>)
    ensures ChainState(env, id) == if id.None? || id == Some("") then None else env.chain.settlement
  {
  }

  // ---------------------------------------------------------------------
  // Settlement states, by name
  // ---------------------------------------------------------------------

  /** A record that is refunded, disputed or expired denies, whatever the cache, the chain and the faults. */
  lemma EndedRecordDenies(p: Policy, db: Db, rq: Request, env: Env, purchase: Purchase)
    requires LookupOf(p, db, rq, env) == Found(Some(purchase))
    requires purchase.settlement in ENDED
    ensures !Resolve(p, db, rq, env).1.hasAccess && Resolve(p, db, rq, env).0 == db
  {
  }

  /** The call gets past the guards in front of the record. */
  predicate ReachesRecord(p: Policy, db: Db, rq: Request, env: Env, purchase: Purchase) {
    && rq.materialId != "" && rq.buyer != "" && NoFault(env.faults) && p.norm(rq.buyer) !in db.suspended
    && (CacheOf(db, (rq.materialId, p.norm(rq.buyer))).Some? ==>
          db.cache[(rq.materialId, p.norm(rq.buyer))].state != Revoked)
    && LookupOf(p, db, rq, env) == Found(Some(purchase))
    && p.completed(purchase.status)
  }

  /** Refunded, disputed or expired on the record: REVOKED, naming the state. */
  lemma EndedRecordIsRevoked(p: Policy, db: Db, rq: Request, env: Env, purchase: Purchase)
    requires ReachesRecord(p, db, rq, env, purchase)
    requires purchase.settlement in ENDED
    ensures Resolve(p, db, rq, env) == (db, Verdict(Revoked, false, "purchases-db", None, purchase.settlement))
  {
  }

  /** A revoked entry denies whatever the record and the chain say, and gives its own reason if it has one. */
  lemma RevokedEntryDenies(p: Policy, db: Db, rq: Request, env: Env)
    requires rq.materialId != "" && rq.buyer != "" && NoFault(env.faults) && p.norm(rq.buyer) !in db.suspended
    requires (rq.materialId, p.norm(rq.buyer)) in db.cache
    requires db.cache[(rq.materialId, p.norm(rq.buyer))].state == Revoked
    ensures var reason := db.cache[(rq.materialId, p.norm(rq.buyer))].source;
            Resolve(p, db, rq, env) == (db, Verdict(Revoked, false, if reason == "" then "cache" else reason, None, None))
  {
    LookupFailsIff(db, rq.materialId, p.norm(rq.buyer), None);
  }

  /** The chain's word past the cache. */
  ghost predicate ChainSays(p: Policy, db: Db, rq: Request, env: Env, purchase: Purchase, word: Option<Settlement>) {
    && ReachesRecord(p, db, rq, env, purchase)
    && purchase.settlement !in ENDED
    && !ServedFromCache(p, db, rq, env)
    && (if EffectiveId(rq, purchase).None? then word.None? else word == env.chain.settlement)
  }

  /** Refunded, disputed or expired on the chain: denied, and the pair's entry is REVOKED with that state. */
  lemma EndedChainRevokes(p: Policy, db: Db, rq: Request, env: Env, purchase: Purchase, word: Option<Settlement>)
    requires ChainSays(p, db, rq, env, purchase, word) && word in ENDED
    ensures var r, k := Resolve(p, db, rq, env), (rq.materialId, p.norm(rq.buyer));
            && r.1 == Verdict(Revoked, false, "chain", None, word)
            && r.0.cache == db.cache[k := CacheEntry(
                 Revoked, "chain", EffectiveId(rq, purchase), word, env.config.network, env.config.contractId, None,
                 Some(env.config.version), Some(env.writeAt))]
  {
  }

  /**
   Any other answer, or none, grants: FINALIZED with an answer, PROVISIONAL
   without one. The entry stored says the same, with the state that was used.
   */
  lemma OtherStatesGrant(p: Policy, db: Db, rq: Request, env: Env, purchase: Purchase, word: Option<Settlement>)
    requires ChainSays(p, db, rq, env, purchase, word) && word !in ENDED
    ensures var r, k := Resolve(p, db, rq, env), (rq.materialId, p.norm(rq.buyer));
            var state, source := if word.Some? then Finalized else Provisional,
                                 if word.Some? then "chain" else "purchases-db";
            && r.1 == Verdict(state, true, source, EffectiveId(rq, purchase), None)
            && r.0.purchases == db.purchases
            && r.0.cache == db.cache[k := CacheEntry(
                 state, source, EffectiveId(rq, purchase), if word.Some? then word else purchase.settlement,
                 env.config.network, env.config.contractId, rq.contentHash,
                 Some(env.config.version), Some(env.writeAt))]
  {
  }

  /** Pending, Released, any unknown name or nothing at all: none of them denies a completed purchase by itself. */
  lemma OpenStatesNeverDeny(p: Policy, db: Db, rq: Request, env: Env, purchase: Purchase, name: string)
    requires ReachesRecord(p, db, rq, env, purchase)
    requires purchase.settlement in {None, Some(Pending), Some(Released), Some(OtherState(name))}
    requires env.chain.settlement in {None, Some(Pending), Some(Released), Some(OtherState(name))}
    ensures Resolve(p, db, rq, env).1.hasAccess
  {
  }

  /** Without a record only an on-chain "true" grants, and it is stored as released. */
  lemma UnrecordedCases(p: Policy, db: Db, rq: Request, env: Env)
    requires rq.materialId != "" && rq.buyer != "" && NoFault(env.faults) && p.norm(rq.buyer) !in db.suspended
    requires LookupOf(p, db, rq, env) == Found(None) && !RevokedEntry(p, db, rq)
    ensures env.chain.entitled in {None, Some(false)} ==>
              Resolve(p, db, rq, env) == (db, Verdict(NotEntitled, false, "not-found", None, None))
    ensures env.chain.entitled == Some(true) ==>
              var r, k := Resolve(p, db, rq, env), (rq.materialId, p.norm(rq.buyer));
              && r.1 == Verdict(Finalized, true, "chain", rq.purchaseId, None)
              && r.0 == db.(cache := db.cache[k := CacheEntry(
                   Finalized, "chain", rq.purchaseId, Some(Released), env.config.network, env.config.contractId,
                   rq.contentHash, Some(env.config.version), Some(env.writeAt))])
  {
  }

  // ---------------------------------------------------------------------
  // Freshness and binding
  // ---------------------------------------------------------------------

  /** Both sides name something, and not the same. */
  predicate Differ(a: Option<string>, b: Option<string>) {
    a !in {None, Some("")} && b !in {None, Some("")} && a != b
  }

  /**
   An entry is served exactly while it allows, is for this purchase, was checked
   less than the TTL ago under a cache version no older than the current one,
   and contradicts neither network, contract nor content hash.
   */
  lemma EntryServedIff(c: Config, e: CacheEntry, id: Option<Id>, hash: Option<string>, now: int)
    ensures CacheHit(c, Some(e), id, hash, now) <==>
              && (e.state == Finalized || e.state == Provisional)
              && e.purchaseId == id
              && e.checkedAt.Some? && e.checkedAt.value > now - c.ttl
              && (if e.version.Some? then e.version.value >= c.version else c.version <= 0)
              && !Differ(e.network, c.network) && !Differ(e.contractId, c.contractId) && !Differ(e.contentHash, hash)
    ensures !CacheHit(c, None, id, hash, now)
  {
  }

  // ---------------------------------------------------------------------
  // Creation and revocation
  // ---------------------------------------------------------------------

  /** A creation stores a PROVISIONAL entry, pending, with the ids it is given unless they are empty. */
  lemma CreationStores(p: Policy, db: Db, id: Id, buyer: Address, purchaseId: Option<Id>, hash: Option<string>, env: Env)
    requires id != "" && buyer != "" && !env.faults.connect && !env.faults.cacheWrite
    ensures Next(p, db, CreateStep(id, buyer, purchaseId, hash, env)) ==
            db.(cache := db.cache[(id, p.norm(buyer)) := CacheEntry(
              Provisional, "purchase-api", if purchaseId == Some("") then None else purchaseId, Some(Pending),
              env.config.network, env.config.contractId, if hash == Some("") then None else hash,
              Some(env.config.version), Some(env.writeAt))])
  {
  }

  /** An invalidation stores a REVOKED entry with its reason, and the next resolve of the pair denies. */
  lemma InvalidationStores(p: Policy, db: Db, id: Id, buyer: Address, reason: string, purchaseId: Option<Id>,
                           settlement: Option<Settlement>, env: Env, rq: Request, later: Env)
    requires id != "" && buyer != "" && !env.faults.connect && !env.faults.cacheWrite
    requires rq.materialId == id && p.norm(rq.buyer) == p.norm(buyer)
    ensures var after := Next(p, db, InvalidateStep(id, buyer, reason, purchaseId, settlement, env));
            && after == db.(cache := db.cache[(id, p.norm(buyer)) := CacheEntry(
                 Revoked, reason, purchaseId, settlement, env.config.network, env.config.contractId, None,
                 Some(env.config.version), Some(env.writeAt))])
            && !Resolve(p, after, rq, later).1.hasAccess
  {
  }

  /** A revocation is an invalidation because of a refund. */
  lemma RevocationIs(id: Id, buyer: Address, env: Env)
    ensures RevokeStep(id, buyer, env) == InvalidateStep(id, buyer, "refunded", None, Some(Refunded), env)
  {
  }

  /** A creation or invalidation without an id or an address, or one that cannot write, changes nothing. */
  lemma FailedStepsChangeNothing(p: Policy, db: Db, id: Id, buyer: Address, text: string, purchaseId: Option<Id>,
                                 hash: Option<string>, settlement: Option<Settlement>, env: Env)
    requires id == "" || buyer == "" || env.faults.connect || env.faults.cacheWrite
    ensures Next(p, db, CreateStep(id, buyer, purchaseId, hash, env)) == db
    ensures Next(p, db, InvalidateStep(id, buyer, text, purchaseId, settlement, env)) == db
  {
  }

  // ---------------------------------------------------------------------
  // authorizeMaterialAccess
  // ---------------------------------------------------------------------

  /** Some address the document names as an owner's is the buyer's. */
  ghost predicate OwnedBy(p: Policy, d: Document, buyer: Address) {
    exists a: Address :: Some(a) in d.owners && a != "" && p.norm(a) == p.norm(buyer)
  }

  /** Owners, and everyone for free public material, are let in whatever the collections, the chain and the faults. */
  lemma BypassAllows(p: Policy, db: Db, d: Document, buyer: Address, purchaseId: Option<Id>, env: Env)
    requires buyer != "" && (OwnedBy(p, d, buyer) || d.freePublic)
    ensures Authorize(p, db, Some(d), buyer, purchaseId, env) ==
            (db, Decision(true, Finalized, 200, if OwnedBy(p, d, buyer) then "owner" else "free-public"))
  {
    OwnerIff(p, d, buyer);
  }

  lemma OwnerIff(p: Policy, d: Document, buyer: Address)
    ensures IsOwner(p, d, buyer) <==> OwnedBy(p, d, buyer)
  {
    if i :| 0 <= i < |d.owners| && Truthy(d.owners[i]) && p.norm(d.owners[i].value) == p.norm(buyer) {
      assert d.owners[i] == Some(d.owners[i].value);
    }
  }

  /** A missing document is not found, and a missing buyer is a bad request, before anything else is looked at. */
  lemma MissingIsRefused(p: Policy, db: Db, d: Document, buyer: Address, purchaseId: Option<Id>, env: Env)
    ensures Authorize(p, db, None, buyer, purchaseId, env) == (db, Decision(false, Unavailable, 404, "orphaned"))
    ensures Authorize(p, db, Some(d), "", purchaseId, env) == (db, Decision(false, Unavailable, 400, "missing-buyer"))
  {
  }

  /**
   Past the bypasses the decision is the verdict on the document's id and content
   hash: 200 with access, 503 when unavailable, 403 for any other denial.
   */
  lemma VerdictDecides(p: Policy, db: Db, d: Document, buyer: Address, purchaseId: Option<Id>, env: Env)
    requires buyer != "" && !OwnedBy(p, d, buyer) && !d.freePublic
    ensures var r := Authorize(p, db, Some(d), buyer, purchaseId, env);
            var v := Resolve(p, db, Request(d.id, buyer, purchaseId, d.contentHash), env);
            && r.0 == v.0 && r.1.state == v.1.state && r.1.source == v.1.source
            && (r.1.allowed <==> v.1.hasAccess)
            && (r.1.httpStatus == 200 <==> v.1.hasAccess)
            && (r.1.httpStatus == 503 <==> v.1.state == Unavailable)
            && (r.1.httpStatus == 403 <==> v.1.state == Revoked || v.1.state == NotEntitled)
  {
    OwnerIff(p, d, buyer);
    AccessIffAllowing(p, db, Request(d.id, buyer, purchaseId, d.contentHash), env);
  }
}
