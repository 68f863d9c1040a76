# ShangriLa anime API core, modelled in Dafny

A model of the logic inside `main.ts` of the ShangriLa anime API (a Deno/Oak
service). Three pieces are modelled. Everything around them is HTTP,
database and environment plumbing.

- **Cours-id codec** (`cours_id.dfy`, module `CoursId`). `yearSeson2Cours`
  packs a (year, season) pair into `(year - 2014) * 4 + season`. It is
  modelled on unbounded integers and is total, with no validation, like
  the source and its caller in `animeAPIReadHandler`. The ids the cache walks
  over run from `coursidMin = 1` to `coursidMax = 104`, which is the last
  season of 2039. The lemmas prove the following for seasons 1..4: the range
  ends, density, lexicographic order in both directions, injectivity, "in
  range exactly for 2014..2039", and that every id in range is some season's
  code. No decode function is modelled, because the source has none.
- **Lookup cache** (`lookup_cache.dfy`, module `LookupCache`). The two
  module-level maps `cacheBases` and `cacheBasesWithOgp` become the fields
  of class `BasesCache`. `cacheClear` becomes `Clear` and `cacheRefresh`
  becomes `Refresh`. `Refresh` is a loop over ids 1..104 that stores a
  gateway result only when it is JavaScript-truthy. A gateway result is
  `Option<string>`: `None` stands for `undefined`/`null`, and a truthy
  result is `Some(s)` with `s != ""`. The two gateways are parameters of
  `Refresh`. The empty-bodied gateways as written are modelled as
  functions returning `None`, and a lemma shows that with them a refresh
  caches nothing.
- **Cours listing** (`cours_index.dfy`, module `CoursIndex`). The `reduce`
  in `coursHandler` becomes a loop (`BuildIndex`) that updates an
  accumulator map. Its specification is a left fold (`Index`) in which later
  rows overwrite earlier ones. `CoursHandler` models the `if (data)` branch.
  A JavaScript array is truthy even when it is empty, so an empty array
  gives an empty listing and only a missing array gives the error body.
  Each entry takes `id`, `year` and `cours` from its row (`curr.cours`).

`wrappers.dfy` holds the `Option` datatype.

## Model

| member | source | states |
|---|---|---|
| `CoursId.YearSeason2Cours` | main.ts:106-108 | (year - 2014) * 4 + season on every integer pair, with no requires and no validation; for a season in 1..4 the year and season are read back from the id by quotient and remainder by 4 |
| `CoursId.RangeEnds` | main.ts:13-15 | (2014, 1) encodes to coursidMin = 1 and (2039, 4) encodes to coursidMax = 104 |
| `CoursId.Dense` | main.ts:106-108 | successive seasons of a year get consecutive ids, and season 4 of year y is followed by season 1 of year y+1 |
| `CoursId.YearStride` | main.ts:106-108 | the same season one year later is exactly 4 ids later (monotone in year) |
| `CoursId.OrderIsLexicographic` | main.ts:106-108 | for seasons 1..4, id(y1,s1) < id(y2,s2) if and only if (y1,s1) precedes (y2,s2) lexicographically |
| `CoursId.Injective` | main.ts:106-108 | for seasons 1..4, two pairs get the same id if and only if they are the same pair |
| `CoursId.InRangeIffHorizon` | main.ts:13-15 | for seasons 1..4, the id lies in [1, 104] if and only if the year is 2014..2039 |
| `CoursId.Onto` | main.ts:13-15 | every id in [1, 104] is the code of some season 1..4 of some year 2014..2039 |
| `CoursId.UncheckedSeasonAliases` | main.ts:73-75 | with no validation, season 5 of a year yields the id of season 1 of the next year, and season 0 yields the id of season 4 of the previous year |
| `LookupCache.SelectBasesRdb` | main.ts:34-36 | the empty-bodied gateway resolves to undefined (None) for every id, a falsy result the refresh loop never stores |
| `LookupCache.SelectBasesWithOgpRdb` | main.ts:38-40 | the empty-bodied OGP gateway resolves to undefined (None) for every id, a falsy result the refresh loop never stores |
| `LookupCache.HarvestStep` | main.ts:93-102 | one loop iteration for id i adds the entry (i, result) exactly when the gateway result for i is truthy, and otherwise leaves the map unchanged |
| `LookupCache.RefreshedEntry` | main.ts:89-103 | after a refresh, key id is present iff 1 <= id <= 104 and the gateway result is truthy, and it then holds that result |
| `LookupCache.RefreshedWellFormed` | main.ts:93-102 | a refreshed map holds no key outside [1, 104] and no empty payload |
| `LookupCache.FalsyNeverCached` | main.ts:94-101 | a gateway result that is absent, null or the empty string is never stored |
| `LookupCache.RefreshedDependsOnlyOnRange` | main.ts:93 | gateways that agree on ids 1..104 produce the same refreshed map |
| `LookupCache.RefreshWithStubGatewaysIsEmpty` | main.ts:34-40 | with the gateways as written (empty bodies, resolving to undefined), a refresh leaves both maps empty |
| `LookupCache.BasesCache.constructor` | main.ts:23-24 | both maps start empty |
| `LookupCache.BasesCache.Clear` | main.ts:83-86 | afterwards both maps are empty, whatever they held before |
| `LookupCache.BasesCache.Refresh` | main.ts:89-103 | afterwards each map is exactly the refreshed map of its own gateway: old entries are gone, and neither map depends on the other gateway |
| `LookupCache.RefreshTwice` | main.ts:89-91 | with fixed gateways, a second refresh leaves the same maps as the first |
| `CoursIndex.Index` | main.ts:48-56 | every entry of the listing sits under its own id |
| `CoursIndex.IndexKeys` | main.ts:48-56 | the listing's key set is exactly the set of row ids |
| `CoursIndex.IndexLastWins` | main.ts:48-56 | the entry under an id is {id, year, cours} of the last row carrying that id |
| `CoursIndex.BuildIndex` | main.ts:48-56 | the in-place accumulator loop produces the left-fold listing |
| `CoursIndex.CoursHandler` | main.ts:42-63 | an error body iff no data; otherwise a listing keyed by exactly the row ids, and an empty array gives an empty listing |

## Left out

- The Supabase client and the `cours_infos` query (main.ts:31, 43-45) are a foreign network call. The handler takes the fetched rows, or their absence, as its argument.
- The result of `JSON.stringify` (main.ts:58) and writing the response body are serialization plumbing. JavaScript also turns the listing's integer keys into strings and orders them; that is not modelled.
- `parseInt` of route parameters, NaN, and the `"ERROR"` branch of `animeAPIReadHandler` (main.ts:71-80) are not modelled. `yearTitleHandler` (main.ts:65-69) is not modelled either. The codec is modelled on `int` directly.
- JavaScript numbers are IEEE doubles. The codec is modelled on unbounded integers. The two agree whenever every intermediate value and the result are safe integers, for example when year and season are below 2^50 in absolute value.
- `async`/`await`: `Refresh` is modelled as a sequential loop. Reads running between its awaits, and so seeing a partly rebuilt map, are not modelled.
- Oak routing, CORS, app startup, the `/time` endpoint (wall clock), dotenv loading and the admin-key middleware (main.ts:17-20, 110-162) are not modelled. The middleware is not registered in the source.
- LookupCache.BasesCache.Refresh: gateway failure is not modelled. The gateways are total functions that always resolve. In main.ts a rejected `await` (lines 94, 99) makes `cacheRefresh` throw after both maps were reset (lines 90-91). The maps then keep only the entries for the ids visited before the failure, and that partial state is not modelled.
