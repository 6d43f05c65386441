/**
 The entitlement policy of src/lib/entitlement.js: one call as a function from
 the stored collections, the chain's answers, the injected faults and the clock
 to a verdict and the collections it leaves behind.
 */
module Entitlement {
  import opened Wrappers

  type Id = string
  type Address = string
  type Key = (Id, Address)

  datatype State = Finalized | Provisional | Revoked | Unavailable | NotEntitled

  predicate Allowing(s: State) {
    s.Finalized? || s.Provisional?
  }

  datatype Settlement = Pending | Released | Refunded | Disputed | Expired | OtherState(name: string)

  predicate Revoking(s: Option<Settlement>) {
    s.Some? && (s.value.Refunded? || s.value.Disputed? || s.value.Expired?)
  }

  /** A purchase record; an empty or missing settlement state is None. */
  datatype Purchase = Purchase(status: string, purchaseId: Option<Id>, settlement: Option<Settlement>)

  datatype CacheEntry = CacheEntry(
    state: State,
    source: string,
    purchaseId: Option<Id>,
    settlement: Option<Settlement>,
    network: Option<string>,
    contractId: Option<string>,
    contentHash: Option<string>,
    version: Option<int>,
    checkedAt: Option<int>)

  datatype Material = Material(mergedInto: Option<Id>, aliases: seq<Id>)

  datatype Db = Db(
    purchases: map<Key, Purchase>,
    cache: map<Key, CacheEntry>,
    materials: map<Id, Material>,
    suspended: set<Address>)

  /** `normalizeBuyerAddress` and `isCompletedPurchaseStatus`. */
  datatype Policy = Policy(norm: Address -> Address, completed: string -> bool)

  /** The process configuration a call runs under. */
  datatype Config = Config(network: Option<string>, contractId: Option<string>, version: int, ttl: int)

  /** Which of the call's database operations throw; a purchase lookup is a numbered series of reads. */
  datatype Faults = Faults(
    connect: bool, users: bool, purchaseRead: Option<nat>, cacheRead: bool, cacheWrite: bool,
    mirror: bool,                        // copying a revoking state onto the purchase record
    extras: bool)                        // storing the payment fields next to a new entry

  /** What the chain answers in this call, if it answers. */
  datatype Chain = Chain(entitled: Option<bool>, settlement: Option<Settlement>)

  datatype Env = Env(config: Config, faults: Faults, chain: Chain, readAt: int, writeAt: int)

  datatype Request = Request(materialId: Id, buyer: Address, purchaseId: Option<Id>, contentHash: Option<string>)

  datatype Verdict = Verdict(
    state: State, hasAccess: bool, source: string, purchaseId: Option<Id>, settlement: Option<Settlement>)

  function Deny(state: State, source: string): Verdict {
    Verdict(state, false, source, None, None)
  }

  /** A denial that names the settlement state it rests on. */
  function DenySettled(source: string, settlement: Option<Settlement>): Verdict {
    Verdict(Revoked, false, source, None, settlement)
  }

  function Grant(state: State, source: string, purchaseId: Option<Id>): Verdict {
    Verdict(state, true, source, purchaseId, None)
  }

  predicate Truthy(o: Option<string>) {
    o.Some? && o.value != ""
  }

  /** `a || b || null`. */
  function Or(a: Option<string>, b: Option<string>): Option<string> {
    if Truthy(a) then a else if Truthy(b) then b else None
  }

  // ---------------------------------------------------------------------
  // Finding the purchase
  // ---------------------------------------------------------------------

  datatype Lookup = Failed | Found(purchase: Option<Purchase>)

  /** The ids a material was merged into or is also known by, in the order they are tried. */
  function Candidates(m: Option<Material>): seq<Id> {
    if m.None? then []
    else (if Truthy(m.value.mergedInto) then [m.value.mergedInto.value] else []) + m.value.aliases
  }

  function MaterialOf(db: Db, id: Id): Option<Material> {
    if id in db.materials then Some(db.materials[id]) else None
  }

  /** Reads `i`, `i + 1`, ... of the series, one per candidate, until one finds a record. */
  function FindAmong(db: Db, ids: seq<Id>, buyer: Address, fault: Option<nat>, i: nat): Lookup {
    if ids == [] then Found(None)
    else if fault == Some(i) then Failed
    else if (ids[0], buyer) in db.purchases then Found(Some(db.purchases[(ids[0], buyer)]))
    else FindAmong(db, ids[1..], buyer, fault, i + 1)
  }

  function FindPurchase(db: Db, id: Id, buyer: Address, fault: Option<nat>): Lookup {
    if fault == Some(0) then Failed
    else if (id, buyer) in db.purchases then Found(Some(db.purchases[(id, buyer)]))
    else if fault == Some(1) then Failed
    else FindAmong(db, Candidates(MaterialOf(db, id)), buyer, fault, 2)
  }

  // ---------------------------------------------------------------------
  // The cache
  // ---------------------------------------------------------------------

  predicate IsFresh(c: Config, e: CacheEntry, now: int) {
    && e.checkedAt.Some?
    && now - e.checkedAt.value < c.ttl
    && (if e.version.Some? then e.version.value else 0) >= c.version
  }

  predicate Conflict(a: Option<string>, b: Option<string>) {
    Truthy(a) && Truthy(b) && a != b
  }

  predicate BindingMatches(c: Config, e: CacheEntry, contentHash: Option<string>) {
    !Conflict(e.contractId, c.contractId) && !Conflict(e.network, c.network) && !Conflict(e.contentHash, contentHash)
  }

  /** The short cut: a fresh allowing entry for the same purchase and binding. */
  predicate CacheHit(c: Config, e: Option<CacheEntry>, purchaseId: Option<Id>, contentHash: Option<string>, now: int) {
    && e.Some?
    && IsFresh(c, e.value, now)
    && Allowing(e.value.state)
    && e.value.purchaseId == purchaseId
    && BindingMatches(c, e.value, contentHash)
  }

  function NewEntry(c: Config, at: int, state: State, source: string,
                    purchaseId: Option<Id>, settlement: Option<Settlement>, contentHash: Option<string>): CacheEntry {
    CacheEntry(state, source, purchaseId, settlement, c.network, c.contractId, contentHash, Some(c.version), Some(at))
  }

  function CacheOf(db: Db, k: Key): Option<CacheEntry> {
    if k in db.cache then Some(db.cache[k]) else None
  }

  // ---------------------------------------------------------------------
  // resolveEntitlement
  // ---------------------------------------------------------------------

  /** What a call decides before it writes: an answer, or a write whose success the answer depends on. */
  datatype Plan =
    | Answer(verdict: Verdict)
    | Write(entry: CacheEntry, verdict: Verdict, mirror: Option<Settlement>)

  predicate ValidRequest(rq: Request) {
    rq.materialId != "" && rq.buyer != ""
  }

  function KeyOf(p: Policy, rq: Request): Key {
    (rq.materialId, p.norm(rq.buyer))
  }

  predicate ConfirmedSuspended(p: Policy, db: Db, rq: Request, env: Env) {
    !env.faults.users && p.norm(rq.buyer) in db.suspended
  }

  function LookupOf(p: Policy, db: Db, rq: Request, env: Env): Lookup {
    FindPurchase(db, rq.materialId, p.norm(rq.buyer), env.faults.purchaseRead)
  }

  function EffectiveId(rq: Request, purchase: Purchase): Option<Id> {
    Or(rq.purchaseId, purchase.purchaseId)
  }

  function ChainState(env: Env, id: Option<Id>): Option<Settlement> {
    if Truthy(id) then env.chain.settlement else None
  }

  /** No purchase record: only an on-chain "true" grants. */
  function DecideUnrecorded(rq: Request, env: Env): Plan {
    if env.chain.entitled == Some(true) then
      Write(NewEntry(env.config, env.writeAt, Finalized, "chain", rq.purchaseId, Some(Released), rq.contentHash),
            Grant(Finalized, "chain", rq.purchaseId), None)
    else Answer(Deny(NotEntitled, "not-found"))
  }

  /** A completed, locally unrevoked purchase: ask the chain. */
  function DecideOnChain(rq: Request, env: Env, purchase: Purchase): Plan {
    var id := EffectiveId(rq, purchase);
    var chain := ChainState(env, id);
    var settlement := if chain.Some? then chain else purchase.settlement;
    if Revoking(settlement) then
      Write(NewEntry(env.config, env.writeAt, Revoked, "chain", id, settlement, None),
            DenySettled("chain", settlement), settlement)
    else
      var state := if chain.Some? then Finalized else Provisional;
      var source := if chain.Some? then "chain" else "purchases-db";
      Write(NewEntry(env.config, env.writeAt, state, source, id, settlement, rq.contentHash),
            Grant(state, source, id), None)
  }

  function DecideRecorded(p: Policy, rq: Request, env: Env, purchase: Purchase,
                          cached: Option<CacheEntry>, useCache: bool): Plan
  {
    if !p.completed(purchase.status) then Answer(Deny(NotEntitled, "purchases-db-incomplete"))
    else if Revoking(purchase.settlement) then Answer(DenySettled("purchases-db", purchase.settlement))
    else
      var id := EffectiveId(rq, purchase);
      if useCache && CacheHit(env.config, cached, id, rq.contentHash, env.readAt) then
        Answer(Grant(cached.value.state, "cache", id))
      else DecideOnChain(rq, env, purchase)
  }

  /** `useCache` is true in the source; false is the reference that never takes the short cut. */
  function Decide(p: Policy, db: Db, rq: Request, env: Env, useCache: bool): Plan {
    if !ValidRequest(rq) then Answer(Deny(Unavailable, "invalid-params"))
    else if env.faults.connect then Answer(Deny(Unavailable, "error"))
    else if ConfirmedSuspended(p, db, rq, env) then Answer(Deny(Revoked, "buyer-suspended"))
    else
      match LookupOf(p, db, rq, env)
      case Failed => Answer(Deny(Unavailable, "purchases-db-error"))
      case Found(purchase) =>
        if env.faults.cacheRead then Answer(Deny(Unavailable, "error"))
        else
          var cached := CacheOf(db, KeyOf(p, rq));
          if cached.Some? && cached.value.state.Revoked? then
            Answer(Deny(Revoked, if cached.value.source != "" then cached.value.source else "cache"))
          else if purchase.None? then DecideUnrecorded(rq, env)
          else DecideRecorded(p, rq, env, purchase.value, cached, useCache)
  }

  /** The best-effort copy of a revoking settlement state onto the purchase record, if there is one. */
  function Mirror(db: Db, k: Key, env: Env, settlement: Option<Settlement>): Db {
    if settlement.Some? && !env.faults.mirror && k in db.purchases then
      db.(purchases := db.purchases[k := db.purchases[k].(settlement := settlement)])
    else db
  }

  function Commit(p: Policy, db: Db, rq: Request, env: Env, plan: Plan): (Db, Verdict) {
    match plan
    case Answer(v) => (db, v)
    case Write(e, v, mirror) =>
      if env.faults.cacheWrite then (db, Deny(Unavailable, "error"))
      else (Mirror(db.(cache := db.cache[KeyOf(p, rq) := e]), KeyOf(p, rq), env, mirror), v)
  }

  function Resolve(p: Policy, db: Db, rq: Request, env: Env): (Db, Verdict) {
    Commit(p, db, rq, env, Decide(p, db, rq, env, true))
  }

  /** The same call without the cache short cut. */
  function ResolveUncached(p: Policy, db: Db, rq: Request, env: Env): (Db, Verdict) {
    Commit(p, db, rq, env, Decide(p, db, rq, env, false))
  }

  // ---------------------------------------------------------------------
  // One call: grants are justified, failures deny
  // ---------------------------------------------------------------------

  /** The ids under which the buyer may hold the purchase, the material's own id first. */
  function PurchaseIds(db: Db, id: Id): seq<Id> {
    [id] + Candidates(MaterialOf(db, id))
  }

  ghost predicate HoldsPurchase(p: Policy, db: Db, rq: Request) {
    exists i :: 0 <= i < |PurchaseIds(db, rq.materialId)| && GoodPurchaseAt(p, db, rq, i)
  }

  /** The first record along the ids is at position `i`; it is completed and not revoking. */
  ghost predicate GoodPurchaseAt(p: Policy, db: Db, rq: Request, i: nat)
    requires i < |PurchaseIds(db, rq.materialId)|
  {
    var ids, buyer := PurchaseIds(db, rq.materialId), p.norm(rq.buyer);
    && (ids[i], buyer) in db.purchases
    && (forall j :: 0 <= j < i ==> (ids[j], buyer) !in db.purchases)
    && p.completed(db.purchases[(ids[i], buyer)].status)
    && !Revoking(db.purchases[(ids[i], buyer)].settlement)
  }

  ghost predicate NoPurchase(p: Policy, db: Db, rq: Request) {
    forall i :: 0 <= i < |PurchaseIds(db, rq.materialId)| ==>
      (PurchaseIds(db, rq.materialId)[i], p.norm(rq.buyer)) !in db.purchases
  }

  lemma {:induction false} FindAmongMeans(db: Db, ids: seq<Id>, buyer: Address, fault: Option<nat>, i: nat)
    ensures var r := FindAmong(db, ids, buyer, fault, i);
            && (r == Found(None) ==> forall j :: 0 <= j < |ids| ==> (ids[j], buyer) !in db.purchases)
            && (r.Found? && r.purchase.Some? ==>
                  exists j :: 0 <= j < |ids| && FirstAt(db, ids, buyer, j)
                              && db.purchases[(ids[j], buyer)] == r.purchase.value)
  {
    if ids != [] && fault != Some(i) {
      if (ids[0], buyer) in db.purchases {
        assert FirstAt(db, ids, buyer, 0);
      } else {
        FindAmongMeans(db, ids[1..], buyer, fault, i + 1);
        var r := FindAmong(db, ids[1..], buyer, fault, i + 1);
        if r.Found? && r.purchase.Some? {
          var j :| 0 <= j < |ids[1..]| && FirstAt(db, ids[1..], buyer, j)
                   && db.purchases[(ids[1..][j], buyer)] == r.purchase.value;
          assert FirstAt(db, ids, buyer, j + 1);
        }
      }
    }
  }

  ghost predicate FirstAt(db: Db, ids: seq<Id>, buyer: Address, j: nat)
    requires j < |ids|
  {
    (ids[j], buyer) in db.purchases && forall k :: 0 <= k < j ==> (ids[k], buyer) !in db.purchases
  }

  lemma LookupMeans(p: Policy, db: Db, rq: Request, env: Env)
    ensures var r, ids, buyer := LookupOf(p, db, rq, env), PurchaseIds(db, rq.materialId), p.norm(rq.buyer);
            && (r == Found(None) ==> NoPurchase(p, db, rq))
            && (r.Found? && r.purchase.Some? ==>
                  exists j :: 0 <= j < |ids| && FirstAt(db, ids, buyer, j)
                              && db.purchases[(ids[j], buyer)] == r.purchase.value)
  {
    var ids, buyer := PurchaseIds(db, rq.materialId), p.norm(rq.buyer);
    var others := Candidates(MaterialOf(db, rq.materialId));
    var r := LookupOf(p, db, rq, env);
    FindAmongMeans(db, others, buyer, env.faults.purchaseRead, 2);
    if (rq.materialId, buyer) in db.purchases {
      assert FirstAt(db, ids, buyer, 0);
    } else if r.Found? && r.purchase.Some? {
      var j :| 0 <= j < |others| && FirstAt(db, others, buyer, j)
               && db.purchases[(others[j], buyer)] == r.purchase.value;
      assert FirstAt(db, ids, buyer, j + 1);
    }
  }

  lemma RecordedPlanIsConsistent(p: Policy, rq: Request, env: Env, purchase: Purchase, cached: Option<CacheEntry>)
    ensures var v := DecideRecorded(p, rq, env, purchase, cached, true).verdict; v.hasAccess <==> Allowing(v.state)
  {
  }

  /** Access is exactly the two allowing states. */
  lemma AccessIffAllowing(p: Policy, db: Db, rq: Request, env: Env)
    ensures var v := Resolve(p, db, rq, env).1; v.hasAccess <==> Allowing(v.state)
  {
    var r := LookupOf(p, db, rq, env);
    if r.Found? && r.purchase.Some? {
      RecordedPlanIsConsistent(p, rq, env, r.purchase.value, CacheOf(db, KeyOf(p, rq)));
    }
  }

  /**
   A grant rests on a completed, unrevoked purchase under the id or an alias, or
   on the absence of any record and an on-chain "true"; and never on a buyer
   known to be suspended or a pair whose entry is revoked.
   */
  lemma GrantIsJustified(p: Policy, db: Db, rq: Request, env: Env)
    requires Resolve(p, db, rq, env).1.hasAccess
    ensures HoldsPurchase(p, db, rq) || (NoPurchase(p, db, rq) && env.chain.entitled == Some(true))
    ensures !ConfirmedSuspended(p, db, rq, env)
    ensures KeyOf(p, rq) in db.cache ==> !db.cache[KeyOf(p, rq)].state.Revoked?
  {
    LookupMeans(p, db, rq, env);
    var r := LookupOf(p, db, rq, env);
    if r.purchase.Some? {
      var ids, buyer := PurchaseIds(db, rq.materialId), p.norm(rq.buyer);
      var j :| 0 <= j < |ids| && FirstAt(db, ids, buyer, j) && db.purchases[(ids[j], buyer)] == r.purchase.value;
      assert GoodPurchaseAt(p, db, rq, j);
    }
  }

  /** A fault strikes an operation the call gets to. */
  ghost predicate FaultStrikes(p: Policy, db: Db, rq: Request, env: Env) {
    || env.faults.connect
    || (!ConfirmedSuspended(p, db, rq, env)
        && (|| LookupOf(p, db, rq, env).Failed?
            || env.faults.cacheRead
            || (env.faults.cacheWrite && NeedsWrite(p, db, rq, env))))
  }

  /** The pair is not revoked and a new verdict is due: an on-chain grant, or a completed purchase past the cache. */
  ghost predicate NeedsWrite(p: Policy, db: Db, rq: Request, env: Env)
    requires LookupOf(p, db, rq, env).Found?
  {
    var purchase, cached := LookupOf(p, db, rq, env).purchase, CacheOf(db, KeyOf(p, rq));
    && !(cached.Some? && cached.value.state.Revoked?)
    && (if purchase.None? then env.chain.entitled == Some(true)
        else
          && p.completed(purchase.value.status)
          && !Revoking(purchase.value.settlement)
          && !CacheHit(env.config, cached, EffectiveId(rq, purchase.value), rq.contentHash, env.readAt))
  }

  /** UNAVAILABLE means a malformed request or a fault, and a fault is never anything else. */
  lemma UnavailableIffFault(p: Policy, db: Db, rq: Request, env: Env)
    ensures var r := Resolve(p, db, rq, env);
            && (r.1.state.Unavailable? <==> !ValidRequest(rq) || FaultStrikes(p, db, rq, env))
            && (r.1.state.Unavailable? ==> !r.1.hasAccess && r.0 == db)
  {
  }

  /** The guards of the short cut, in the order the call meets them. */
  ghost predicate ServedFromCache(p: Policy, db: Db, rq: Request, env: Env)
    ensures ServedFromCache(p, db, rq, env) ==>
              LookupOf(p, db, rq, env).Found? && LookupOf(p, db, rq, env).purchase.Some?
  {
    && ValidRequest(rq)
    && !env.faults.connect
    && !ConfirmedSuspended(p, db, rq, env)
    && LookupOf(p, db, rq, env).Found?
    && !env.faults.cacheRead
    && !RevokedEntry(p, db, rq)
    && LookupOf(p, db, rq, env).purchase.Some?
    && var purchase := LookupOf(p, db, rq, env).purchase.value;
       && p.completed(purchase.status)
       && !Revoking(purchase.settlement)
       && CacheHit(env.config, CacheOf(db, KeyOf(p, rq)), EffectiveId(rq, purchase), rq.contentHash, env.readAt)
  }

  ghost predicate RevokedEntry(p: Policy, db: Db, rq: Request) {
    KeyOf(p, rq) in db.cache && db.cache[KeyOf(p, rq)].state.Revoked?
  }

  /** Those guards let through exactly the calls that are granted access by the cache. */
  lemma ServedFromCacheIff(p: Policy, db: Db, rq: Request, env: Env)
    ensures ServedFromCache(p, db, rq, env) <==>
              Decide(p, db, rq, env, true).Answer? && Decide(p, db, rq, env, true).verdict.hasAccess
    ensures ServedFromCache(p, db, rq, env) ==>
              Resolve(p, db, rq, env) ==
              (db, Grant(db.cache[KeyOf(p, rq)].state, "cache",
                         EffectiveId(rq, LookupOf(p, db, rq, env).purchase.value)))
  {
  }

  /** The short cut changes the answer exactly while it applies and the chain revokes or the write would fail. */
  lemma UncachedDiffersIff(p: Policy, db: Db, rq: Request, env: Env)
    ensures Resolve(p, db, rq, env).1.hasAccess != ResolveUncached(p, db, rq, env).1.hasAccess <==>
            && ServedFromCache(p, db, rq, env)
            && (env.faults.cacheWrite
                || Revoking(ChainState(env, EffectiveId(rq, LookupOf(p, db, rq, env).purchase.value))))
  {
    ServedFromCacheIff(p, db, rq, env);
  }

  /**
   What a grant says: the cached verdict as it stands, or FINALIZED when the chain
   confirmed it and PROVISIONAL when only the purchase record did; a new verdict
   is stored under the pair before it is given.
   */
  lemma GrantMeans(p: Policy, db: Db, rq: Request, env: Env)
    requires Resolve(p, db, rq, env).1.hasAccess
    ensures var r, k := Resolve(p, db, rq, env), KeyOf(p, rq);
            ServedFromCache(p, db, rq, env) ==> r.0 == db && k in db.cache && db.cache[k].state == r.1.state
    ensures var r, k, purchase := Resolve(p, db, rq, env), KeyOf(p, rq), LookupOf(p, db, rq, env).purchase;
            !ServedFromCache(p, db, rq, env) ==>
              && (r.1.state.Finalized? <==> purchase.None? || ChainState(env, EffectiveId(rq, purchase.value)).Some?)
              && k in r.0.cache && r.0.cache[k].state == r.1.state && r.0.cache[k].purchaseId == r.1.purchaseId
              && r.0.purchases == db.purchases
  {
  }

  /** Without faults: when a denial is REVOKED, and when it is NOT_ENTITLED. */
  lemma DenialMeans(p: Policy, db: Db, rq: Request, env: Env)
    requires ValidRequest(rq) && !FaultStrikes(p, db, rq, env) && !ConfirmedSuspended(p, db, rq, env)
    ensures var purchase := LookupOf(p, db, rq, env).purchase;
            var completed := purchase.Some? && p.completed(purchase.value.status);
            var state := Resolve(p, db, rq, env).1.state;
            && (state.Revoked? <==>
                  || RevokedEntry(p, db, rq)
                  || (completed && Revoking(purchase.value.settlement))
                  || (completed && !ServedFromCache(p, db, rq, env)
                      && Revoking(ChainState(env, EffectiveId(rq, purchase.value)))))
            && (state.NotEntitled? <==>
                  && !RevokedEntry(p, db, rq)
                  && !completed && (purchase.None? ==> env.chain.entitled != Some(true)))
  {
  }

  lemma FirstIsUnique(db: Db, ids: seq<Id>, buyer: Address, i: nat, j: nat)
    requires i < |ids| && j < |ids| && FirstAt(db, ids, buyer, i) && FirstAt(db, ids, buyer, j)
    ensures i == j
  {
  }

  /** The record the lookup returns is the first along the ids. */
  lemma LookupIsFirst(p: Policy, db: Db, rq: Request, env: Env, j: nat)
    requires LookupOf(p, db, rq, env).Found? && LookupOf(p, db, rq, env).purchase.Some?
    requires j < |PurchaseIds(db, rq.materialId)| && FirstAt(db, PurchaseIds(db, rq.materialId), p.norm(rq.buyer), j)
    ensures LookupOf(p, db, rq, env).purchase.value
            == db.purchases[(PurchaseIds(db, rq.materialId)[j], p.norm(rq.buyer))]
  {
    var ids, buyer, r := PurchaseIds(db, rq.materialId), p.norm(rq.buyer), LookupOf(p, db, rq, env);
    LookupMeans(p, db, rq, env);
    var i :| 0 <= i < |ids| && FirstAt(db, ids, buyer, i) && db.purchases[(ids[i], buyer)] == r.purchase.value;
    FirstIsUnique(db, ids, buyer, i, j);
  }

  /** The call gets to a chain that revokes the purchase. */
  ghost predicate ChainRevokes(p: Policy, db: Db, rq: Request, env: Env) {
    && ValidRequest(rq) && !FaultStrikes(p, db, rq, env) && !ConfirmedSuspended(p, db, rq, env)
    && NeedsWrite(p, db, rq, env) && LookupOf(p, db, rq, env).purchase.Some?
    && Revoking(ChainState(env, EffectiveId(rq, LookupOf(p, db, rq, env).purchase.value)))
  }

  /**
   A revoking answer from the chain always revokes the pair's entry. It reaches
   the purchase record it is about, the first along the ids, exactly when that
   record is under the material's own id and its update does not fail; nothing
   else changes.
   */
  lemma ObservedRevocationIsRecorded(p: Policy, db: Db, rq: Request, env: Env, j: nat)
    requires ChainRevokes(p, db, rq, env)
    requires j < |PurchaseIds(db, rq.materialId)| && FirstAt(db, PurchaseIds(db, rq.materialId), p.norm(rq.buyer), j)
    ensures var r, k := Resolve(p, db, rq, env), KeyOf(p, rq);
            var q := (PurchaseIds(db, rq.materialId)[j], p.norm(rq.buyer));
            var chain := ChainState(env, EffectiveId(rq, db.purchases[q]));
            && r.1 == DenySettled("chain", chain)
            && k in r.0.cache && r.0.cache[k].state.Revoked?
            && q in r.0.purchases
            && (Revoking(r.0.purchases[q].settlement) <==> k in db.purchases && !env.faults.mirror)
            && (forall e :: e in r.0.purchases <==> e in db.purchases)
            && (forall e :: e in db.purchases ==>
                  r.0.purchases[e] == if e == k && !env.faults.mirror then db.purchases[e].(settlement := chain)
                                      else db.purchases[e])
            && (forall e :: e != k ==> CacheOf(r.0, e) == CacheOf(db, e))
  {
    var ids, buyer := PurchaseIds(db, rq.materialId), p.norm(rq.buyer);
    LookupIsFirst(p, db, rq, env, j);
    assert ids[0] == rq.materialId;
    if (rq.materialId, buyer) in db.purchases {
      FirstIsUnique(db, ids, buyer, 0, j);
    } else {
      assert (ids[j], buyer) != (rq.materialId, buyer);
    }
  }

  // ---------------------------------------------------------------------
  // Two failing inputs
  // ---------------------------------------------------------------------

  function ExamplePolicy(): Policy {
    Policy((a: Address) => a, (s: string) => s == "completed")
  }

  /** No faults, one clock reading, a chain that answers `settlement`. */
  function ExampleEnv(settlement: Option<Settlement>): Env {
    Env(Config(None, None, 1, 30_000), Faults(false, false, None, false, false, false, false),
        Chain(None, settlement), 1_000, 1_000)
  }

  const BOUGHT := Purchase("completed", Some("p"), Some(Pending))

  const CONFIRMED := CacheEntry(Finalized, "chain", Some("p"), Some(Pending), None, None, None, Some(1), Some(0))

  /** One second after the chain confirmed a purchase it reports a refund: the cache alone serves the download. */
  lemma CacheIsTheReason()
    ensures var p, env := ExamplePolicy(), ExampleEnv(Some(Refunded));
            var db := Db(map[("m", "b") := BOUGHT], map[("m", "b") := CONFIRMED], map[], {});
            var rq := Request("m", "b", None, None);
            && Resolve(p, db, rq, env).1 == Grant(Finalized, "cache", Some("p"))
            && ResolveUncached(p, db, rq, env).1 == DenySettled("chain", Some(Refunded))
  {
  }

  /**
   The purchase is recorded under the alias "a" of "m". The refund seen through
   "m" leaves the record as it is, and "a" is still served when the chain is silent.
   */
  lemma AliasKeepsItsState()
    ensures var p, db := ExamplePolicy(), Db(map[("a", "b") := BOUGHT], map[], map["m" := Material(None, ["a"])], {});
            var seen := Resolve(p, db, Request("m", "b", None, None), ExampleEnv(Some(Refunded)));
            && seen.1 == DenySettled("chain", Some(Refunded))
            && seen.0.purchases == db.purchases
            && seen.0.cache.Keys == {("m", "b")} && seen.0.cache[("m", "b")].state.Revoked?
            && Resolve(p, seen.0, Request("a", "b", None, None), ExampleEnv(None)).1
               == Grant(Provisional, "purchases-db", Some("p"))
  {
    var p, db := ExamplePolicy(), Db(map[("a", "b") := BOUGHT], map[], map["m" := Material(None, ["a"])], {});
    var rq, env := Request("m", "b", None, None), ExampleEnv(Some(Refunded));
    AliasFound(db, "m", "a", "b");
    assert LookupOf(p, db, rq, env) == Found(Some(BOUGHT));
  }

  lemma AliasFound(db: Db, id: Id, other: Id, buyer: Address)
    requires (id, buyer) !in db.purchases && (other, buyer) in db.purchases
    requires id in db.materials && db.materials[id] == Material(None, [other])
    ensures FindPurchase(db, id, buyer, None) == Found(Some(db.purchases[(other, buyer)]))
  {
    var ids := Candidates(MaterialOf(db, id));
    assert ids == [other];
  }

  // ---------------------------------------------------------------------
  // authorizeMaterialAccess
  // ---------------------------------------------------------------------

  /** The fields of a material document the bypasses look at. */
  datatype Document = Document(id: Id, owners: seq<Option<Address>>, freePublic: bool, contentHash: Option<string>)

  datatype Decision = Decision(allowed: bool, state: State, httpStatus: int, source: string)

  predicate IsOwner(p: Policy, d: Document, buyer: Address) {
    exists i :: 0 <= i < |d.owners| && Truthy(d.owners[i]) && p.norm(d.owners[i].value) == p.norm(buyer)
  }

  function Authorize(p: Policy, db: Db, d: Option<Document>, buyer: Address, purchaseId: Option<Id>, env: Env)
    : (Db, Decision)
  {
    if d.None? then (db, Decision(false, Unavailable, 404, "orphaned"))
    else if buyer == "" then (db, Decision(false, Unavailable, 400, "missing-buyer"))
    else if IsOwner(p, d.value, buyer) then (db, Decision(true, Finalized, 200, "owner"))
    else if d.value.freePublic then (db, Decision(true, Finalized, 200, "free-public"))
    else
      var r := Resolve(p, db, Request(d.value.id, buyer, purchaseId, d.value.contentHash), env);
      var v := r.1;
      (r.0, Decision(v.hasAccess, v.state,
                     if v.hasAccess then 200 else if v.state.Unavailable? then 503 else 403, v.source))
  }

  /** 200 exactly when allowed; past the bypasses a fault is a 503 and nothing is stored. */
  lemma AuthorizeStatus(p: Policy, db: Db, d: Option<Document>, buyer: Address, purchaseId: Option<Id>, env: Env)
    ensures var r := Authorize(p, db, d, buyer, purchaseId, env);
            && (r.1.httpStatus == 200 <==> r.1.allowed)
            && (r.1.allowed <==> Allowing(r.1.state))
    ensures d.Some? && buyer != "" && !IsOwner(p, d.value, buyer) && !d.value.freePublic ==>
            var rq := Request(d.value.id, buyer, purchaseId, d.value.contentHash);
            var r := Authorize(p, db, d, buyer, purchaseId, env);
            && (r.1.httpStatus == 503 <==> d.value.id == "" || FaultStrikes(p, db, rq, env))
            && (r.1.allowed ==> HoldsPurchase(p, db, rq) || (NoPurchase(p, db, rq) && env.chain.entitled == Some(true)))
  {
    if d.Some? {
      var rq := Request(d.value.id, buyer, purchaseId, d.value.contentHash);
      AccessIffAllowing(p, db, rq, env);
      UnavailableIffFault(p, db, rq, env);
      if Resolve(p, db, rq, env).1.hasAccess { GrantIsJustified(p, db, rq, env); }
    }
  }
}
