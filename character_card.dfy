/** The state machine of the character detail card
    (src/components/characterCard/CharacterCard.tsx): `characterCardReducer`
    and the test that decides whether the shown character is a favorite. */
module CharacterCard {
  import opened Common
  import opened JsValue
  import opened Character

  datatype CardState = CardState(
    character: Option<Character>,
    isLoading: bool,
    errorMessage: string,
    isFavorite: bool)

  /** A partial state: a `Some` field is a key present in the payload. */
  datatype CardPayload = CardPayload(
    character: Option<Option<Character>>,
    isLoading: Option<bool>,
    errorMessage: Option<string>,
    isFavorite: Option<bool>)

  datatype CardAction = CardAction(actionType: string, payload: Option<CardPayload>)

  const NotAValidAction: Error := PlainError("Not a valid action")

  /** `{ ...state, ...payload }`: the payload's fields over the state's. */
  function MergeCard(state: CardState, payload: CardPayload): CardState {
    CardState(
      payload.character.GetOr(state.character),
      payload.isLoading.GetOr(state.isLoading),
      payload.errorMessage.GetOr(state.errorMessage),
      payload.isFavorite.GetOr(state.isFavorite))
  }

  /** `action?.payload?.errorMessage || ""`. */
  function ErrorMessageOf(payload: Option<CardPayload>): string {
    if payload.Some? then payload.value.errorMessage.GetOr("") else ""
  }

  /** `characterCardReducer`. */
  function CardReducer(state: CardState, action: CardAction): (r: Result<CardState>)
    ensures r.Err? <==> action.actionType !in {"startLoading", "stopLoading", "updateState", "error"}
    ensures r.Err? ==> r.error == NotAValidAction
    ensures action.actionType == "startLoading" ==>
              && r.Ok? && r.value.isLoading
              && r.value.character == state.character
              && r.value.errorMessage == state.errorMessage
              && r.value.isFavorite == state.isFavorite
    ensures action.actionType == "stopLoading" ==>
              && r.Ok? && !r.value.isLoading
              && r.value.character == state.character
              && r.value.errorMessage == state.errorMessage
              && r.value.isFavorite == state.isFavorite
    ensures action.actionType == "updateState" && action.payload.None? ==> r == Ok(state)
    ensures action.actionType == "updateState" && action.payload.Some? ==>
              var p := action.payload.value;
              && r.Ok?
              && (p.character.Some? ==> r.value.character == p.character.value)
              && (p.character.None? ==> r.value.character == state.character)
              && (p.isLoading.Some? ==> r.value.isLoading == p.isLoading.value)
              && (p.isLoading.None? ==> r.value.isLoading == state.isLoading)
              && (p.errorMessage.Some? ==> r.value.errorMessage == p.errorMessage.value)
              && (p.errorMessage.None? ==> r.value.errorMessage == state.errorMessage)
              && (p.isFavorite.Some? ==> r.value.isFavorite == p.isFavorite.value)
              && (p.isFavorite.None? ==> r.value.isFavorite == state.isFavorite)
    ensures action.actionType == "error" ==>
              && r.Ok? && !r.value.isLoading
              && (action.payload.Some? && action.payload.value.errorMessage.Some? ==>
                    r.value.errorMessage == action.payload.value.errorMessage.value)
              && (action.payload.None? || action.payload.value.errorMessage.None? ==>
                    r.value.errorMessage == "")
              && r.value.character == state.character
              && r.value.isFavorite == state.isFavorite
  {
    match action.actionType
    case "startLoading" => Ok(state.(isLoading := true))
    case "stopLoading" => Ok(state.(isLoading := false))
    case "updateState" =>
      if action.payload.Some? then Ok(MergeCard(state, action.payload.value)) else Ok(state)
    case "error" => Ok(state.(isLoading := false, errorMessage := ErrorMessageOf(action.payload)))
    case _ => Err(NotAValidAction)
  }

  /** Applying the same partial update twice is the same as applying it once. */
  lemma UpdateStateIdempotent(state: CardState, payload: CardPayload)
    ensures var once := CardReducer(state, CardAction("updateState", Some(payload)));
            once.Ok? && CardReducer(once.value, CardAction("updateState", Some(payload))) == once
  {
  }

  /** The first listed favorite whose id is `characterId` (`Array.prototype.find`). */
  function FindById(characters: seq<Summary>, characterId: string): (r: Option<Summary>)
    ensures r.Some? <==> exists i | 0 <= i < |characters| :: characters[i].id == Str(characterId)
    ensures r.Some? ==> exists i | 0 <= i < |characters| ::
                          && characters[i] == r.value
                          && characters[i].id == Str(characterId)
                          && forall j | 0 <= j < i :: characters[j].id != Str(characterId)
  {
    if |characters| == 0 then None
    else if characters[0].id == Str(characterId) then Some(characters[0])
    else
      var rest := FindById(characters[1..], characterId);
      if rest.Some? then
        assert forall j | 0 <= j < |characters| - 1 :: characters[1..][j] == characters[j + 1];
        rest
      else
        rest
  }

  /** The test in `isCharacterPresentInFavorites`: the card's character is a
      favorite exactly when some listed favorite carries its id (a found
      record is an object, hence truthy). */
  function IsCharacterPresentInFavorites(favorites: seq<Summary>, characterId: string): (r: bool)
    ensures r <==> exists i | 0 <= i < |favorites| :: favorites[i].id == Str(characterId)
  {
    FindById(favorites, characterId).Some?
  }
}
