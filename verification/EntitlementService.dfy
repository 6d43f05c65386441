/**
 The module as it runs: collections read and updated in place, step by step.
 Each call is proved to have the effect and the answer of its specification.
 */
module EntitlementService {
  import opened Wrappers
  import opened Entitlement
  import opened EntitlementRuns

  /** The fields stored next to a new entry; no decision reads them. */
  datatype Payment = Payment(transactionHash: Option<string>, amount: Option<string>, asset: Option<string>)

  datatype CallResult = Succeeded | Refused | Threw

  class Service {
    const policy: Policy
    var purchases: map<Key, Purchase>
    var cache: map<Key, CacheEntry>
    var materials: map<Id, Material>
    var suspended: set<Address>
    var payments: map<Key, Payment>

    constructor (policy: Policy, db: Db)
      ensures this.policy == policy && Stored() == db && payments == map[]
    {
      this.policy := policy;
      purchases, cache, materials, suspended := db.purchases, db.cache, db.materials, db.suspended;
      payments := map[];
    }

    function Stored(): Db
      reads this
    {
      Db(purchases, cache, materials, suspended)
    }

    /** The purchase lookup: the id itself, then the ids the material goes by, read by read. */
    method LookUp(id: Id, buyer: Address, fault: Option<nat>) returns (r: Lookup)
      ensures r == FindPurchase(Stored(), id, buyer, fault)
    {
      if fault == Some(0) { return Failed; }
      if (id, buyer) in purchases { return Found(Some(purchases[(id, buyer)])); }
      if fault == Some(1) { return Failed; }
      var ids := Candidates(MaterialOf(Stored(), id));
      for i := 0 to |ids|
        invariant FindPurchase(Stored(), id, buyer, fault) == FindAmong(Stored(), ids[i..], buyer, fault, i + 2)
      {
        assert ids[i..][1..] == ids[i + 1..];
        if fault == Some(i + 2) { return Failed; }
        if (ids[i], buyer) in purchases { return Found(Some(purchases[(ids[i], buyer)])); }
      }
      return Found(None);
    }

    /** `writeCacheEntry`; false stands for the exception of a failing write. */
    method WriteCacheEntry(k: Key, e: CacheEntry, faults: Faults) returns (ok: bool)
      modifies this`cache
      ensures ok <==> !faults.cacheWrite
      ensures cache == if ok then old(cache)[k := e] else old(cache)
    {
      if faults.cacheWrite { return false; }
      cache := cache[k := e];
      return true;
    }

    method ResolveEntitlement(rq: Request, env: Env) returns (v: Verdict)
      modifies this`cache, this`purchases
      ensures (Stored(), v) == Resolve(policy, old(Stored()), rq, env)
    {
      if rq.materialId == "" || rq.buyer == "" { return Deny(Unavailable, "invalid-params"); }
      var buyer := policy.norm(rq.buyer);
      if env.faults.connect { return Deny(Unavailable, "error"); }
      if !env.faults.users && buyer in suspended { return Deny(Revoked, "buyer-suspended"); }
      var lookup := LookUp(rq.materialId, buyer, env.faults.purchaseRead);
      if lookup.Failed? { return Deny(Unavailable, "purchases-db-error"); }
      if env.faults.cacheRead { return Deny(Unavailable, "error"); }
      var key := (rq.materialId, buyer);
      var cached := CacheOf(Stored(), key);
      if cached.Some? && cached.value.state.Revoked? {
        return Deny(Revoked, if cached.value.source != "" then cached.value.source else "cache");
      }
      if lookup.purchase.None? {
        v := ResolveUnrecorded(key, rq, env);
      } else {
        v := ResolveRecorded(key, rq, env, lookup.purchase.value, cached);
      }
    }

    method ResolveUnrecorded(key: Key, rq: Request, env: Env) returns (v: Verdict)
      requires key == KeyOf(policy, rq)
      modifies this`cache, this`purchases
      ensures (Stored(), v) == Commit(policy, old(Stored()), rq, env, DecideUnrecorded(rq, env))
    {
      if env.chain.entitled != Some(true) { return Deny(NotEntitled, "not-found"); }
      var ok := WriteCacheEntry(key,
        NewEntry(env.config, env.writeAt, Finalized, "chain", rq.purchaseId, Some(Released), rq.contentHash), env.faults);
      if !ok { return Deny(Unavailable, "error"); }
      return Grant(Finalized, "chain", rq.purchaseId);
    }

    method ResolveRecorded(key: Key, rq: Request, env: Env, purchase: Purchase, cached: Option<CacheEntry>)
      returns (v: Verdict)
      requires key == KeyOf(policy, rq)
      modifies this`cache, this`purchases
      ensures (Stored(), v) ==
              Commit(policy, old(Stored()), rq, env, DecideRecorded(policy, rq, env, purchase, cached, true))
    {
      if !policy.completed(purchase.status) { return Deny(NotEntitled, "purchases-db-incomplete"); }
      var id := Or(rq.purchaseId, purchase.purchaseId);
      if Revoking(purchase.settlement) { return DenySettled("purchases-db", purchase.settlement); }
      if CacheHit(env.config, cached, id, rq.contentHash, env.readAt) {
        return Grant(cached.value.state, "cache", id);
      }
      var settlement := purchase.settlement;
      var chainState := ChainState(env, id);
      if chainState.Some? { settlement := chainState; }
      if Revoking(settlement) {
        var ok := WriteCacheEntry(key,
          NewEntry(env.config, env.writeAt, Revoked, "chain", id, settlement, None), env.faults);
        if !ok { return Deny(Unavailable, "error"); }
        if !env.faults.mirror && key in purchases {
          purchases := purchases[key := purchases[key].(settlement := settlement)];
        }
        return DenySettled("chain", settlement);
      }
      var state := if chainState.Some? then Finalized else Provisional;
      var source := if chainState.Some? then "chain" else "purchases-db";
      var ok := WriteCacheEntry(key,
        NewEntry(env.config, env.writeAt, state, source, id, settlement, rq.contentHash), env.faults);
      if !ok { return Deny(Unavailable, "error"); }
      return Grant(state, source, id);
    }

    /** `createEntitlement`: the entry first, then the payment fields next to it. */
    method CreateEntitlement(id: Id, buyer: Address, purchaseId: Option<Id>, hash: Option<string>,
                             payment: Payment, env: Env) returns (r: CallResult)
      modifies this`cache, this`payments
      ensures Stored() == Next(policy, old(Stored()), CreateStep(id, buyer, purchaseId, hash, env))
      ensures r.Refused? <==> id == "" || buyer == ""
      ensures r.Succeeded? <==>
                !(id == "" || buyer == "" || env.faults.connect || env.faults.cacheWrite || env.faults.extras)
      ensures payments == if r.Succeeded? then old(payments)[(id, policy.norm(buyer)) := payment] else old(payments)
    {
      if id == "" || buyer == "" { return Refused; }
      if env.faults.connect { return Threw; }
      var ok := WriteCacheEntry((id, policy.norm(buyer)),
        NewEntry(env.config, env.writeAt, Provisional, "purchase-api", Or(purchaseId, None), Some(Pending),
                 Or(hash, None)),
        env.faults);
      if !ok || env.faults.extras { return Threw; }
      payments := payments[(id, policy.norm(buyer)) := payment];
      return Succeeded;
    }

    method InvalidateEntitlement(id: Id, buyer: Address, reason: string, purchaseId: Option<Id>,
                                 settlement: Option<Settlement>, env: Env) returns (r: CallResult)
      modifies this`cache
      ensures Stored() == Next(policy, old(Stored()), InvalidateStep(id, buyer, reason, purchaseId, settlement, env))
      ensures r.Refused? <==> id == "" || buyer == ""
      ensures r.Succeeded? <==> !(id == "" || buyer == "" || env.faults.connect || env.faults.cacheWrite)
    {
      if id == "" || buyer == "" { return Refused; }
      if env.faults.connect { return Threw; }
      var ok := WriteCacheEntry((id, policy.norm(buyer)),
        NewEntry(env.config, env.writeAt, Revoked, reason, purchaseId, settlement, None), env.faults);
      return if ok then Succeeded else Threw;
    }

    method RevokeEntitlement(id: Id, buyer: Address, env: Env) returns (r: CallResult)
      modifies this`cache
      ensures Stored() == Next(policy, old(Stored()), RevokeStep(id, buyer, env))
      ensures r.Refused? <==> id == "" || buyer == ""
      ensures r.Succeeded? <==> !(id == "" || buyer == "" || env.faults.connect || env.faults.cacheWrite)
    {
      r := InvalidateEntitlement(id, buyer, "refunded", None, Some(Refunded), env);
    }

    method AuthorizeMaterialAccess(d: Option<Document>, buyer: Address, purchaseId: Option<Id>, env: Env)
      returns (r: Decision)
      modifies this`cache, this`purchases
      ensures (Stored(), r) == Authorize(policy, old(Stored()), d, buyer, purchaseId, env)
    {
      if d.None? { return Decision(false, Unavailable, 404, "orphaned"); }
      if buyer == "" { return Decision(false, Unavailable, 400, "missing-buyer"); }
      if IsOwner(policy, d.value, buyer) { return Decision(true, Finalized, 200, "owner"); }
      if d.value.freePublic { return Decision(true, Finalized, 200, "free-public"); }
      var v := ResolveEntitlement(Request(d.value.id, buyer, purchaseId, d.value.contentHash), env);
      var httpStatus := if v.hasAccess then 200 else if v.state.Unavailable? then 503 else 403;
      return Decision(v.hasAccess, v.state, httpStatus, v.source);
    }
  }
}
