/** The character resolver (src/models/character.ts): turns upstream person
    records into the denormalised character views, fetching the species,
    homeworld, vehicle, starship and film records they link to. Upstream is a
    fixed `Network`; `Promise.all` is evaluated in list order (`AllInOrder`). */
module Character {
  import opened Common
  import opened JsValue
  import opened ServerFetch

  datatype Vehicle = Vehicle(name: Value, manufacturer: Value, model: Value)

  datatype Film = Film(title: Value, releaseDate: Value, director: Value)

  /** The partial view the listing produces: id, name, species and homeworld only. */
  datatype Summary = Summary(id: Value, name: Value, species: Value, homeworld: Value)

  /** The full view; a `None` list is the JavaScript `null`. */
  datatype Character = Character(
    id: Value,
    name: Value,
    birthYear: Value,
    gender: Value,
    species: Value,
    homeworld: Value,
    starships: Option<seq<Vehicle>>,
    vehicles: Option<seq<Vehicle>>,
    films: Option<seq<Film>>)

  function PeopleUrl(base: string): string {
    base + "/api/people"
  }

  function PersonUrl(base: string, characterId: string): string {
    base + "/api/people/" + characterId
  }

  /** `serverFetch(url)` for a URL read out of a record. JavaScript would use
      `String(url)` as the cache key and the request URL; the model instead
      fails every value that is not a string with the usual fetch error. */
  function FetchUrl(net: Network, url: Value): (r: Result<Value>)
    ensures url.Str? ==> r == Fetch(net, url.s)
    ensures !url.Str? ==> r == Err(FetchFailed)
    ensures r.Err? ==> r.error == FetchFailed
  {
    if url.Str? then Fetch(net, url.s) else Err(FetchFailed)
  }

  /** `fetchDataFromUrls`: every URL fetched, bodies in URL order. */
  function FetchDataFromUrls(net: Network, urls: seq<Value>): (r: Result<seq<Value>>)
    ensures r.Ok? <==> forall i | 0 <= i < |urls| :: FetchUrl(net, urls[i]).Ok?
    ensures r.Ok? ==> |r.value| == |urls|
    ensures r.Ok? ==> forall i | 0 <= i < |urls| :: r.value[i] == FetchUrl(net, urls[i]).value
    ensures r.Err? ==> r.error == FetchFailed
  {
    AllInOrder(urls, (u: Value) => FetchUrl(net, u))
  }

  /** `getSpecies`: only the first species URL is fetched; its `name`, or
      `null` when that name is falsy or there is no species at all. */
  function GetSpecies(net: Network, speciesUrls: Value): (r: Result<Value>)
    ensures !Truthy(LengthOf(speciesUrls)) ==> r == Ok(Null)
    ensures Truthy(LengthOf(speciesUrls)) ==>
              (r.Ok? <==> FetchUrl(net, Elem0(speciesUrls)).Ok?)
    ensures Truthy(LengthOf(speciesUrls)) && r.Ok? ==>
              r.value == OrNull(Prop(FetchUrl(net, Elem0(speciesUrls)).value, "name"))
    ensures r.Ok? ==> r.value == Null || Truthy(r.value)
    ensures r.Err? ==> StatusOf(r.error) == 500
  {
    if !Truthy(LengthOf(speciesUrls)) then Ok(Null)
    else
      var species :- FetchUrl(net, Elem0(speciesUrls));
      Ok(OrNull(Prop(species, "name")))
  }

  /** Only the first species counts: the rest of the list is never looked at. */
  lemma SpeciesUsesFirstUrlOnly(net: Network, urls: seq<Value>)
    requires |urls| > 0
    ensures GetSpecies(net, Arr(urls)) == GetSpecies(net, Arr(urls[..1]))
  {
  }

  /** `getHomeworld`: `null` for a falsy URL, otherwise the fetched `name` or `null`. */
  function GetHomeworld(net: Network, homeworldUrl: Value): (r: Result<Value>)
    ensures !Truthy(homeworldUrl) ==> r == Ok(Null)
    ensures Truthy(homeworldUrl) ==> (r.Ok? <==> FetchUrl(net, homeworldUrl).Ok?)
    ensures Truthy(homeworldUrl) && r.Ok? ==>
              r.value == OrNull(Prop(FetchUrl(net, homeworldUrl).value, "name"))
    ensures r.Ok? ==> r.value == Null || Truthy(r.value)
    ensures r.Err? ==> StatusOf(r.error) == 500
  {
    if !Truthy(homeworldUrl) then Ok(Null)
    else
      var homeworld :- FetchUrl(net, homeworldUrl);
      Ok(OrNull(Prop(homeworld, "name")))
  }

  function VehicleOf(body: Value): Vehicle {
    Vehicle(Prop(body, "name"), Prop(body, "manufacturer"), Prop(body, "model"))
  }

  function FilmOf(body: Value): Film {
    Film(Prop(body, "title"), Prop(body, "release_date"), Prop(body, "director"))
  }

  /** `getVehicles` (also used for starships): `null` when the list is absent or
      empty, never `[]`; otherwise one projected record per URL, in URL order. */
  function GetVehicles(net: Network, vehicleUrls: Value): (r: Result<Option<seq<Vehicle>>>)
    ensures !Truthy(LengthOf(vehicleUrls)) <==> r == Ok(None)
    ensures r.Ok? && r.value.Some? ==>
              && vehicleUrls.Arr?
              && |r.value.value| == |vehicleUrls.items| > 0
              && forall i | 0 <= i < |vehicleUrls.items| ::
                   && FetchUrl(net, vehicleUrls.items[i]).Ok?
                   && r.value.value[i] == VehicleOf(FetchUrl(net, vehicleUrls.items[i]).value)
    ensures vehicleUrls.Arr? && |vehicleUrls.items| > 0 ==>
              (r.Ok? <==> forall i | 0 <= i < |vehicleUrls.items| :: FetchUrl(net, vehicleUrls.items[i]).Ok?)
    ensures r.Err? ==> StatusOf(r.error) == 500
  {
    if !Truthy(LengthOf(vehicleUrls)) then Ok(None)
    else if !vehicleUrls.Arr? then Err(TypeError)
    else
      var vehicles :- FetchDataFromUrls(net, vehicleUrls.items);
      Ok(Some(seq(|vehicles|, i requires 0 <= i < |vehicles| => VehicleOf(vehicles[i]))))
  }

  /** `getFilms`: `null` when the list is absent or empty, never `[]`; otherwise
      one projected record per URL, in URL order, `release_date` renamed. */
  function GetFilms(net: Network, filmUrls: Value): (r: Result<Option<seq<Film>>>)
    ensures !Truthy(LengthOf(filmUrls)) <==> r == Ok(None)
    ensures r.Ok? && r.value.Some? ==>
              && filmUrls.Arr?
              && |r.value.value| == |filmUrls.items| > 0
              && forall i | 0 <= i < |filmUrls.items| ::
                   && FetchUrl(net, filmUrls.items[i]).Ok?
                   && r.value.value[i] == FilmOf(FetchUrl(net, filmUrls.items[i]).value)
    ensures filmUrls.Arr? && |filmUrls.items| > 0 ==>
              (r.Ok? <==> forall i | 0 <= i < |filmUrls.items| :: FetchUrl(net, filmUrls.items[i]).Ok?)
    ensures r.Err? ==> StatusOf(r.error) == 500
  {
    if !Truthy(LengthOf(filmUrls)) then Ok(None)
    else if !filmUrls.Arr? then Err(TypeError)
    else
      var films :- FetchDataFromUrls(net, filmUrls.items);
      Ok(Some(seq(|films|, i requires 0 <= i < |films| => FilmOf(films[i]))))
  }

  /** `character?.url.split("/").at(-2)`: the id upstream encodes in the
      record's own URL. */
  function IdOf(character: Value): (r: Result<Value>)
    ensures Nullish(character) ==> r == Ok(Undefined)
    ensures !Nullish(character) ==> (r.Ok? <==> Prop(character, "url").Str?)
    ensures r.Err? ==> StatusOf(r.error) == 500
  {
    if Nullish(character) then Ok(Undefined)
    else
      var url := Prop(character, "url");
      if url.Str? then Ok(SecondToLast(Split(url.s, '/'))) else Err(TypeError)
  }

  /** A record whose URL ends in `/<segment>/` has `<segment>` as its id. */
  lemma IdOfSelfUrl(character: Value, prefix: string, segment: string)
    requires Prop(character, "url") == Str(prefix + "/" + segment + "/")
    requires '/' !in segment
    ensures IdOf(character) == Ok(Str(segment))
  {
    SecondToLastOfTrailingSlash(prefix, segment);
  }

  /** The upstream URL of person 1 yields the id "1". */
  lemma IdOfPersonOne(character: Value)
    requires Prop(character, "url") == Str("https://swapi.dev/api/people/1/")
    ensures IdOf(character) == Ok(Str("1"))
  {
    assert "https://swapi.dev/api/people/1/" == "https://swapi.dev/api/people" + "/" + "1" + "/";
    IdOfSelfUrl(character, "https://swapi.dev/api/people", "1");
  }

  /** `formatCharacter`: the partial view of one listing record. */
  function FormatCharacter(net: Network, character: Value): (r: Result<Summary>)
    ensures Nullish(character) ==> r == Err(TypeError)
    ensures r.Ok? ==>
              && GetSpecies(net, Prop(character, "species")) == Ok(r.value.species)
              && GetHomeworld(net, Prop(character, "homeworld")) == Ok(r.value.homeworld)
              && IdOf(character) == Ok(r.value.id)
              && r.value.name == Prop(character, "name")
    ensures !Nullish(character) ==>
              (r.Ok? <==> && GetSpecies(net, Prop(character, "species")).Ok?
                          && GetHomeworld(net, Prop(character, "homeworld")).Ok?
                          && IdOf(character).Ok?)
    ensures r.Err? ==> StatusOf(r.error) == 500
  {
    if Nullish(character) then Err(TypeError)
    else
      var species :- GetSpecies(net, Prop(character, "species"));
      var homeworld :- GetHomeworld(net, Prop(character, "homeworld"));
      var id :- IdOf(character);
      Ok(Summary(id, Prop(character, "name"), species, homeworld))
  }

  /** `getCharacters`: the listing endpoint's `results`, each formatted, in order. */
  function GetCharacters(net: Network, base: string): (r: Result<seq<Summary>>)
    ensures PeopleUrl(base) !in net ==> r == Err(FetchFailed)
    ensures r.Ok? ==>
              && PeopleUrl(base) in net
              && var results := Prop(net[PeopleUrl(base)], "results");
              && results.Arr?
              && |r.value| == |results.items|
              && forall i | 0 <= i < |results.items| ::
                   FormatCharacter(net, results.items[i]) == Ok(r.value[i])
    ensures PeopleUrl(base) in net && Prop(net[PeopleUrl(base)], "results").Arr? ==>
              var results := Prop(net[PeopleUrl(base)], "results");
              (r.Ok? <==> forall i | 0 <= i < |results.items| :: FormatCharacter(net, results.items[i]).Ok?)
    ensures r.Err? ==> StatusOf(r.error) == 500
  {
    var characters :- Fetch(net, PeopleUrl(base));
    var results := Prop(characters, "results");
    if !results.Arr? then Err(TypeError)
    else AllInOrder(results.items, (c: Value) => FormatCharacter(net, c))
  }

  /** `getCharacterById`: the full view of one person. An empty id is refused
      before anything is fetched. */
  function GetCharacterById(net: Network, base: string, characterId: string): (r: Result<Character>)
    ensures characterId == "" ==> r == Err(HttpError("character id is absent in route param", 400))
    ensures characterId != "" && PersonUrl(base, characterId) !in net ==> r == Err(FetchFailed)
    ensures r.Ok? ==> characterId != "" && PersonUrl(base, characterId) in net
    ensures characterId != "" && PersonUrl(base, characterId) in net ==>
              var c := net[PersonUrl(base, characterId)];
              (r.Ok? <==> && GetSpecies(net, Prop(c, "species")).Ok?
                          && GetHomeworld(net, Prop(c, "homeworld")).Ok?
                          && GetVehicles(net, Prop(c, "vehicles")).Ok?
                          && GetVehicles(net, Prop(c, "starships")).Ok?
                          && GetFilms(net, Prop(c, "films")).Ok?
                          && IdOf(c).Ok?)
    // the route answers 400 only for the missing id; every other failure is a 500
    ensures r.Err? ==> (StatusOf(r.error) == 400 <==> characterId == "")
    ensures r.Err? && characterId != "" ==> StatusOf(r.error) == 500
  {
    if characterId == "" then Err(HttpError("character id is absent in route param", 400))
    else
      var character :- Fetch(net, PersonUrl(base, characterId));
      var species :- GetSpecies(net, Prop(character, "species"));
      var homeworld :- GetHomeworld(net, Prop(character, "homeworld"));
      var vehicles :- GetVehicles(net, Prop(character, "vehicles"));
      var starships :- GetVehicles(net, Prop(character, "starships"));
      var films :- GetFilms(net, Prop(character, "films"));
      var id :- IdOf(character);
      Ok(Character(
        id,
        Prop(character, "name"),
        Prop(character, "birth_year"),
        Prop(character, "gener"),
        species,
        homeworld,
        starships,
        vehicles,
        films))
  }

  /** What a resolved character holds, field by field: the upstream keys it is
      read from (`birth_year`, and `gener` for the gender) and the sub-resource
      each list comes from. */
  lemma CharacterFields(net: Network, base: string, characterId: string)
    requires GetCharacterById(net, base, characterId).Ok?
    ensures var c := net[PersonUrl(base, characterId)];
            var view := GetCharacterById(net, base, characterId).value;
            && view.name == Prop(c, "name")
            && view.birthYear == Prop(c, "birth_year")
            && view.gender == Prop(c, "gener")
            && Ok(view.id) == IdOf(c)
            && Ok(view.species) == GetSpecies(net, Prop(c, "species"))
            && Ok(view.homeworld) == GetHomeworld(net, Prop(c, "homeworld"))
            && Ok(view.vehicles) == GetVehicles(net, Prop(c, "vehicles"))
            && Ok(view.starships) == GetVehicles(net, Prop(c, "starships"))
            && Ok(view.films) == GetFilms(net, Prop(c, "films"))
  {
  }

  /** A person without films (no `films` key, or an empty list) resolves with
      `films: null`, never `[]`. */
  lemma NoFilmsIsNull(net: Network, base: string, characterId: string)
    requires GetCharacterById(net, base, characterId).Ok?
    requires var films := Prop(net[PersonUrl(base, characterId)], "films");
             films == Undefined || films == Arr([])
    ensures GetCharacterById(net, base, characterId).value.films == None
  {
  }
}
