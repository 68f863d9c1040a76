/**
 * The two module-level lookup maps of main.ts, `cacheBases` and
 * `cacheBasesWithOgp`, with the administrative operations `cacheClear`
 * and `cacheRefresh`.
 */
module LookupCache {
  import opened Wrappers
  import opened CoursId

  /** What a gateway call resolves to: `undefined`/`null` is None. */
  type GatewayResult = Option<string>

  /** JavaScript truthiness of a gateway result: a present, non-empty string. */
  predicate IsTruthy(json: GatewayResult) {
    json.Some? && json.value != ""
  }

  /**
   * `selectBasesRdb` as written: its body is empty, so the awaited call
   * resolves to `undefined` for every id.
   */
  function SelectBasesRdb(id: int): (json: GatewayResult)
    ensures !IsTruthy(json)
  {
    None
  }

  /** `selectBasesWithOgpRdb` as written: likewise resolves to `undefined`. */
  function SelectBasesWithOgpRdb(id: int): (json: GatewayResult)
    ensures !IsTruthy(json)
  {
    None
  }

  /**
   * The entries a refresh has stored from `gateway` once its loop has
   * visited every id below `upTo`.
   */
  function Harvested(gateway: int -> GatewayResult, upTo: int): map<int, string> {
    map id | CoursIdMin <= id < upTo && IsTruthy(gateway(id)) :: gateway(id).value
  }

  /** One more loop iteration stores the id's result exactly when it is truthy. */
  lemma HarvestStep(gateway: int -> GatewayResult, i: int)
    requires CoursIdMin <= i
    ensures Harvested(gateway, i + 1)
      == if IsTruthy(gateway(i)) then Harvested(gateway, i)[i := gateway(i).value] else Harvested(gateway, i)
  {
  }

  /** The map a full refresh builds from `gateway`: the loop runs up to and including CoursIdMax. */
  function Refreshed(gateway: int -> GatewayResult): map<int, string> {
    Harvested(gateway, CoursIdMax + 1)
  }

  /** A cached map is well formed: keys are cours ids in range and no payload is the empty string. */
  predicate WellFormed(m: map<int, string>) {
    forall id :: id in m ==> InCoursIdRange(id) && m[id] != ""
  }

  /**
   * Key `id` is in a refreshed map exactly when it is a cours id in range
   * whose gateway result is truthy, and then it holds that result.
   */
  lemma RefreshedEntry(gateway: int -> GatewayResult, id: int)
    ensures id in Refreshed(gateway) <==> InCoursIdRange(id) && IsTruthy(gateway(id))
    ensures id in Refreshed(gateway) ==> Refreshed(gateway)[id] == gateway(id).value
  {
  }

  /** A refreshed map is well formed: nothing outside [1, 104], nothing empty. */
  lemma RefreshedWellFormed(gateway: int -> GatewayResult)
    ensures WellFormed(Refreshed(gateway))
  {
  }

  /** An absent, null or empty-string gateway result is never cached. */
  lemma FalsyNeverCached(gateway: int -> GatewayResult, id: int)
    requires gateway(id) == None || gateway(id) == Some("")
    ensures id !in Refreshed(gateway)
  {
  }

  /**
   * A refresh looks at the gateway only on [CoursIdMin, CoursIdMax]:
   * gateways that agree there build the same map.
   */
  lemma RefreshedDependsOnlyOnRange(g1: int -> GatewayResult, g2: int -> GatewayResult)
    requires forall id :: InCoursIdRange(id) ==> g1(id) == g2(id)
    ensures Refreshed(g1) == Refreshed(g2)
  {
  }

  /** With the gateways as written (empty bodies), a refresh caches nothing. */
  lemma RefreshWithStubGatewaysIsEmpty()
    ensures Refreshed(SelectBasesRdb) == map[]
    ensures Refreshed(SelectBasesWithOgpRdb) == map[]
  {
  }

  /** The process-wide cache: plain payloads and OGP-enriched payloads, each keyed by cours id. */
  class BasesCache {
    var bases: map<int, string>
    var basesWithOgp: map<int, string>

    /** Module load: both maps start empty. */
    constructor ()
      ensures bases == map[] && basesWithOgp == map[]
    {
      bases := map[];
      basesWithOgp := map[];
    }

    /** `cacheClear`: both maps are replaced by empty ones, whatever they held. */
    method Clear()
      modifies this
      ensures bases == map[] && basesWithOgp == map[]
    {
      bases := map[];
      basesWithOgp := map[];
    }

    /**
     * `cacheRefresh`: both maps are reset, then every id from CoursIdMin to
     * CoursIdMax is fetched from each gateway and stored only when the
     * result is truthy. Each map depends on its own gateway alone, and
     * nothing cached before the call survives.
     */
    method Refresh(selectBases: int -> GatewayResult, selectBasesWithOgp: int -> GatewayResult)
      modifies this
      ensures bases == Refreshed(selectBases)
      ensures basesWithOgp == Refreshed(selectBasesWithOgp)
    {
      bases := map[];
      basesWithOgp := map[];
      var i := CoursIdMin;
      while i <= CoursIdMax
        invariant CoursIdMin <= i <= CoursIdMax + 1
        invariant bases == Harvested(selectBases, i)
        invariant basesWithOgp == Harvested(selectBasesWithOgp, i)
      {
        HarvestStep(selectBases, i);
        HarvestStep(selectBasesWithOgp, i);
        var json := selectBases(i);
        if IsTruthy(json) {
          bases := bases[i := json.value];
        }
        json := selectBasesWithOgp(i);
        if IsTruthy(json) {
          basesWithOgp := basesWithOgp[i := json.value];
        }
        i := i + 1;
      }
    }
  }

  /**
   * With fixed gateways, refreshing twice leaves the same maps as
   * refreshing once: each refresh starts from empty maps.
   */
  method RefreshTwice(cache: BasesCache, selectBases: int -> GatewayResult, selectBasesWithOgp: int -> GatewayResult)
    returns (once: (map<int, string>, map<int, string>), twice: (map<int, string>, map<int, string>))
    modifies cache
    ensures once == twice
    ensures twice == (cache.bases, cache.basesWithOgp)
  {
    cache.Refresh(selectBases, selectBasesWithOgp);
    once := (cache.bases, cache.basesWithOgp);
    cache.Refresh(selectBases, selectBasesWithOgp);
    twice := (cache.bases, cache.basesWithOgp);
  }
}
