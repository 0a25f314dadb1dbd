# Star Wars catalogue: fetch cache, character resolver and favorites store

This project is a Dafny model of the core of a small Next.js catalogue of Star
Wars characters. The catalogue fetches people from the public SWAPI service. It
resolves each person's links (species, homeworld, vehicles, starships, films)
into a single view, and it keeps each user's favorite characters in a SQLite
table.

The model covers:

- `Cache` (`ProcessCache`): the process-wide URL-to-body cache, as a class with
  a `map` field.
- `serverFetch` (`ServerFetch`): cache-aside fetching. It is a method over the
  cache and an `Upstream` object. `Upstream` answers from a fixed response map
  and keeps a ghost log of the requests it receives. The method preserves a
  cache-transparency invariant, `Agrees`: every cached body is the body
  upstream serves for that URL.
- The character resolver (`Character`): `getCharacters`, `getCharacterById`
  and their helpers, as pure functions over the upstream response map.
  `Promise.all` is evaluated in list order (`Common.AllInOrder`).
- The favorites store (`Favorites`): a class over the favorites table.
  - The table is a sequence of (user, character) rows in insertion order.
  - Its invariant is the composite primary key: no pair appears twice.
  - A failure of the store is an explicit boolean argument.
- The two page reducers and the small pure helpers of the card and the list
  (`CharacterCard`, `CharacterList`):
  - the favorite-membership test;
  - the filter that drops a removed favorite;
  - the favorites-route test and the endpoint it selects.

JavaScript values are the `JsValue.Value` datatype. A thrown error is the `Err`
arm of `Common.Result`. An `HttpError` keeps its message and status.

## Model

| member | source | states |
|---|---|---|
| Common.StatusOf | src/pages/api/favorites/new.ts:23 | a caught error is answered with its own nonzero HTTP status, otherwise with 500; the resolver and the store state which of their errors answer 400 and which 500 through it |
| Common.AllInOrder | src/models/character.ts:132-134 | `Promise.all` over a mapped list succeeds iff every element succeeds; it then returns every result in input order, and otherwise the error of the first element that fails |
| JsValue.NatToStringRoundTrip | src/models/favorites.ts:100 | `String(id)` of a non-negative id reads back as the same number |
| JsValue.JoinSplit | src/models/character.ts:59 | the pieces `split("/")` returns join back to the original URL |
| JsValue.SplitJoin | src/models/character.ts:59 | splitting a join of separator-free pieces returns exactly those pieces |
| JsValue.SplitAround | src/models/character.ts:59 | `split` at a separator is the split of the left side followed by the split of the right side |
| JsValue.SecondToLast | src/models/character.ts:59 | `at(-2)` is a string iff there are at least two pieces, and it is then the second-to-last piece |
| JsValue.SecondToLastOfTrailingSlash | src/models/character.ts:59 | in a URL ending `/<segment>/`, `at(-2)` of its `/`-pieces is the segment |
| JsValue.ShallowCopyEqualIffObject | src/util/serverFetch.ts:9 | `{...v}` is structurally equal to `v` exactly when `v` is a plain object |
| ProcessCache.HasAsWritten | src/util/Cache.ts:16-18 | as written, `has` is true for every name inherited from `Object.prototype`, whatever is stored, and otherwise exactly for the stored keys |
| ProcessCache.FreshCacheReportsInheritedKey | src/util/Cache.ts:16-18 | as written, `has` on an empty cache is true for the inherited name "constructor" |
| ProcessCache.Cache.constructor | src/util/Cache.ts:5-14 | a new cache holds no entries, so `has` is false for every key |
| ProcessCache.Cache.Has | src/util/Cache.ts:16-18 | the corrected `has` never reports a hit that the as-written test would miss, and it agrees with that test on every name that is not inherited |
| ProcessCache.Cache.Get | src/util/Cache.ts:25-27 | `get` returns the stored value, or `undefined` when nothing is stored under the key |
| ProcessCache.Cache.Set | src/util/Cache.ts:20-23 | `set` stores the value under the key, so the key then reads back that value; every other key is unchanged and the ttl has no effect |
| ServerFetch.Fetch | src/util/serverFetch.ts:12-22 | an upstream fetch succeeds iff the URL has a response; every failure becomes the 500 "something went wrong." error |
| ServerFetch.Upstream.Request | src/util/serverFetch.ts:13-15 | `fetch` plus `response.json()`: logs exactly one request for the URL, and succeeds with the URL's body iff upstream has a response for it |
| ServerFetch.ServerFetch | src/util/serverFetch.ts:4-23 | a hit returns a shallow copy of the cached body with no request and no cache change. A miss sends exactly one request. On success the body is returned and stored under that URL only; on failure the 500 error is raised and the cache is unchanged. A cache that agrees with upstream keeps agreeing, and for object bodies the answer equals the direct fetch |
| ServerFetch.FetchTwice | src/util/serverFetch.ts:8-18 | after a successful fetch, the same URL is answered from the cache: no second request, and a structurally equal result for object bodies |
| Character.FetchUrl | src/models/character.ts:121 | `serverFetch` on a URL read out of a record: a string URL is fetched, any other value fails, and every failure is the fetch error |
| Character.FetchDataFromUrls | src/models/character.ts:132-134 | it fails iff some URL fails, and the error is then the fetch error; otherwise it returns one body per URL, in URL order |
| Character.GetSpecies | src/models/character.ts:117-123 | it is `null` when there is no species; otherwise it is the first species' name, or `null` when that name is falsy; it never yields a falsy non-null value |
| Character.SpeciesUsesFirstUrlOnly | src/models/character.ts:120-121 | only the first species URL affects the result |
| Character.GetHomeworld | src/models/character.ts:125-130 | it is `null` for a falsy URL; otherwise it is the homeworld's name, or `null` when that name is falsy |
| Character.GetVehicles | src/models/character.ts:74-88 | it is `null` exactly when the list is absent or empty, never `[]`; otherwise it is one name/manufacturer/model record per URL, in order, and it fails iff some URL fails |
| Character.GetFilms | src/models/character.ts:90-102 | it is `null` exactly when the list is absent or empty; otherwise it is one title/releaseDate/director record per URL, in order, with `release_date` renamed |
| Character.IdOf | src/models/character.ts:59 | a nullish record has an `undefined` id; a record without a string `url` raises a TypeError |
| Character.IdOfSelfUrl | src/models/character.ts:59 | a record whose URL ends in `/<segment>/` has that segment as its id |
| Character.IdOfPersonOne | src/models/character.ts:59 | the record at `https://swapi.dev/api/people/1/` has the id "1" |
| Character.FormatCharacter | src/models/character.ts:104-115 | a nullish record raises a TypeError; otherwise the summary holds the record's id, name, resolved species and resolved homeworld, and it fails iff one of those fails |
| Character.GetCharacters | src/models/character.ts:30-40 | the listing fails when the people endpoint does; otherwise there is one formatted summary per entry of `results`, in order, and it fails iff some entry fails |
| Character.GetCharacterById | src/models/character.ts:42-72 | an empty id raises the 400 "character id is absent in route param" error before any fetch; an unknown person raises the fetch error; for a known person the view is returned iff species, homeworld, vehicles, starships, films and id all resolve; every failure other than the empty id answers 500 |
| Character.CharacterFields | src/models/character.ts:52-71 | a resolved character takes its name from `name`, its birth year from `birth_year` and its gender from `gener`; its id, species, homeworld, vehicles, starships and films come from the matching link lists |
| Character.NoFilmsIsNull | src/models/character.ts:90-91 | a person with no films resolves with `films: null`, never `[]` |
| Favorites.Without | src/models/favorites.ts:67-76 | the delete keeps exactly the rows that differ from the deleted pair |
| Favorites.WithoutDistributes | src/models/favorites.ts:67-76 | the delete works row by row, so the remaining rows keep their relative order |
| Favorites.WithoutAbsent | src/models/favorites.ts:67-76 | deleting an absent pair leaves the table unchanged |
| Favorites.AddThenDeleteRestores | src/models/favorites.ts:43-76 | adding an absent pair and then deleting it restores the original table |
| Favorites.NoDuplicatesCons | src/db/schema.ts:19 | a table with a first row has no duplicate pair iff its tail has none and the first row does not recur |
| Favorites.WithoutRemovesOne | src/models/favorites.ts:67-76 | in a table with no duplicate pair, deleting a present pair removes exactly one row and keeps the table duplicate-free |
| Favorites.CharacterIdsOf | src/models/favorites.ts:89-97 | the listed ids are exactly the characters the user has a row for |
| Favorites.CharacterIdsOfDistributes | src/models/favorites.ts:89-97 | the ids of a concatenation of rows are the ids of each part in order, so the listing follows the model's insertion order |
| Favorites.CharacterIdsOfDistinct | src/db/schema.ts:19 | in a table with no duplicate pair, no character id is listed twice for a user |
| Favorites.NewestFavoriteListedLast | src/models/favorites.ts:89-97 | in the model's insertion order, a newly added favorite is listed after all earlier ones |
| Favorites.ResolveAll | src/models/favorites.ts:99-101 | it succeeds iff every favorite id resolves, and it then returns one resolved character per id, in order |
| Favorites.SummariesOf | src/models/favorites.ts:99-113 | it succeeds iff every id resolves, giving each character's id, name, species and homeworld in order; every failure becomes the 500 "not able to fetch from favorites" error |
| Favorites.FavoritesStore.constructor | src/db/schema.ts:13-20 | the table starts empty and duplicate-free |
| Favorites.FavoritesStore.IsPresent | src/models/favorites.ts:10-31 | the lookup is true iff the pair has a row; a failing lookup raises the 500 "something went wrong while checking favorite" error and never answers "no" |
| Favorites.FavoritesStore.Add | src/models/favorites.ts:34-56 | it checks the user id, then the character id, then the lookup, then that the pair is absent, each with its own message and status; on success exactly the new row is appended; the table stays duplicate-free and is unchanged on every error; a 500 answer means the store failed, and with a working store every refusal answers 400 |
| Favorites.FavoritesStore.Delete | src/models/favorites.ts:58-85 | the checks are in the same order as in Add; on success exactly the pair's one row is removed and the others keep their order; the table stays duplicate-free and is unchanged on every error; a 500 answer means the store failed, and with a working store every refusal answers 400 |
| Favorites.FavoritesStore.FavoriteCharacters | src/models/favorites.ts:87-115 | a failing read raises the 500 listing error. Otherwise it succeeds iff every favorite id resolves, giving one summary per id, in the same order. The ids are exactly the user's favorites, each listed once in a duplicate-free table, and in the model's insertion order (the ids of any prefix of the rows come first) |
| CharacterCard.CardReducer | src/components/characterCard/CharacterCard.tsx:22-39 | it raises "Not a valid action" iff the action type is unknown. start/stop set only `isLoading`; an update overwrites exactly the fields present in the payload; an error stops loading and sets the message, or "" when the payload has none |
| CharacterCard.UpdateStateIdempotent | src/components/characterCard/CharacterCard.tsx:28-29 | applying the same partial update twice gives the same state as applying it once |
| CharacterCard.FindById | src/components/characterCard/CharacterCard.tsx:114-117 | `find` returns a match iff one exists, and it then returns the first match |
| CharacterCard.IsCharacterPresentInFavorites | src/components/characterCard/CharacterCard.tsx:114-119 | the character is a favorite iff some listed favorite carries its id |
| CharacterList.ListReducer | src/components/characterList/CharacterList.tsx:21-38 | it behaves field for field like the card reducer, over the list page's state |
| CharacterList.RemoveById | src/components/characterList/CharacterList.tsx:83-85 | the filter keeps exactly the entries whose id is not the removed one |
| CharacterList.RemoveByIdDistributes | src/components/characterList/CharacterList.tsx:83-85 | the filter works piecewise, so the kept entries stay in their order |
| CharacterList.RemoveByIdAbsent | src/components/characterList/CharacterList.tsx:83-85 | a list without the id is left exactly as it was |
| CharacterList.RemoveByIdIdempotent | src/components/characterList/CharacterList.tsx:83-85 | filtering a second time removes nothing more |
| CharacterList.Includes | src/components/characterList/CharacterList.tsx:111 | `includes` is true iff the substring occurs at some position |
| CharacterList.IsFavoriteRoute | src/components/characterList/CharacterList.tsx:111 | the route is the favorites route iff "favorites" occurs somewhere in the path |
| CharacterList.ListEndpoint | src/components/characterList/CharacterList.tsx:90-92 | the favorites endpoint is fetched iff the path contains "favorites"; otherwise the characters endpoint is fetched |

## Left out

- The network, `process.env` and time are not modelled directly.
  - Upstream is a fixed map from URL to parsed body. A URL with no entry stands for every kind of failure: a transport error, a non-ok status or an unparsable body.
  - `SWAPI_BASE_URL` and the ttl are parameters.
  - The `config` argument of `serverFetch` (request options) is not modelled. It takes no part in the cache key, and no modelled caller passes it.
  - `console.log` output is not modelled.
- Concurrency is not modelled.
  - `Promise.all` runs its elements in list order. When several elements fail, the model reports the first in list order; JavaScript reports whichever rejects first.
  - Interleavings between concurrent requests are not modelled. This includes two requests racing to fill the same cache key, and the check-then-insert race in the favorites store.
- JsValue.Elem0 and JsValue.ShallowCopy: a string is a sequence of Unicode scalar values, while JavaScript indexes UTF-16 code units. The two differ for characters outside the Basic Multilingual Plane.
- Numbers are integers. Floating point, `NaN` and its truthiness are not modelled.
- Prop: reads own properties of plain objects only. Inherited properties and other properties of strings and arrays (apart from `length` and `[0]`) read as `undefined`.
- Character.FetchUrl: JavaScript uses `String(value)` as the cache key and as the request URL. The model fails every non-string value, including an array whose `String()` is a URL upstream serves.
- Character: the resolver reads upstream directly instead of through the cache. `ServerFetch.ServerFetch` proves that a cache which agrees with upstream answers exactly like upstream for object bodies, which is every SWAPI body. For non-object bodies, the index-keyed copy that a cache hit would return is not carried into the resolver.
- The ids the favorites store receives are `Favorites.IdParam`, either empty or already parsed. The behaviour of `parseInt` on other strings (`NaN`, partial parses) is not modelled.
- Favorites.FavoritesStore.Add and Favorites.FavoritesStore.Delete return `Ok(())`. They do not return the driver's `lastInsertRowid`, which every caller discards.
- Favorites.FavoritesStore.FavoriteCharacters: rows are listed in insertion order. SQL without `ORDER BY` promises no order, so the model fixes one possible order. SQLite may instead read the rows through the index of the (user, character) primary key and list a user's favorites by character id.
- Drizzle/SQLite query builders are not modelled. The table is a sequence of pairs. The foreign key to `users` is not modelled.
- The reducers model a payload field as either present with a value or absent. A key present with the value `undefined` is not modelled, and neither is an action that is itself `undefined`.
- `clientFetch`, the effects that dispatch actions, the loader callbacks and all JSX rendering are not modelled.
  - These are browser plumbing.
  - The loader callbacks include `startLoader` dispatching "stopLoading".
- The API route handlers are not modelled, except for their status defaulting (`Common.StatusOf`). That includes the handlers' default `userId = "1"`.
- ProcessCache: assigning the key `__proto__` on a plain object changes its prototype instead of storing an entry. The corrected cache treats every key as an ordinary entry.

## Findings

| source | as written | input that shows it | evidently intended | confidence | as-written member | corrected member |
|---|---|---|---|---|---|---|
| src/util/Cache.ts:16-18 | `has` tests `key in` a plain object, so names inherited from `Object.prototype` count as cached | `has("constructor")` on a new cache is true, so `serverFetch("constructor")` would return `{...Object}` without fetching | `has` is true only for keys that were stored with `set` | not executed | ProcessCache.FreshCacheReportsInheritedKey | ProcessCache.Cache.constructor |
