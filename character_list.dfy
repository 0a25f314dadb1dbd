/** The state machine of the character list page
    (src/components/characterList/CharacterList.tsx): `characterListReducer`,
    the filter that drops a removed favorite from the shown list, and the
    choice between the favorites and the characters endpoint. */
module CharacterList {
  import opened Common
  import opened JsValue
  import opened Character

  datatype ListState = ListState(
    filteredCharacterList: seq<Summary>,
    isLoading: bool,
    errorMessage: string,
    isFavoriteRoute: bool)

  /** A partial state: a `Some` field is a key present in the payload. */
  datatype ListPayload = ListPayload(
    filteredCharacterList: Option<seq<Summary>>,
    isLoading: Option<bool>,
    errorMessage: Option<string>,
    isFavoriteRoute: Option<bool>)

  datatype ListAction = ListAction(actionType: string, payload: Option<ListPayload>)

  const NotAValidAction: Error := PlainError("Not a valid action")

  /** `{ ...state, ...payload }`: the payload's fields over the state's. */
  function MergeList(state: ListState, payload: ListPayload): ListState {
    ListState(
      payload.filteredCharacterList.GetOr(state.filteredCharacterList),
      payload.isLoading.GetOr(state.isLoading),
      payload.errorMessage.GetOr(state.errorMessage),
      payload.isFavoriteRoute.GetOr(state.isFavoriteRoute))
  }

  /** `action?.payload?.errorMessage || ""`. */
  function ErrorMessageOf(payload: Option<ListPayload>): string {
    if payload.Some? then payload.value.errorMessage.GetOr("") else ""
  }

  /** `characterListReducer`. */
  function ListReducer(state: ListState, action: ListAction): (r: Result<ListState>)
    ensures r.Err? <==> action.actionType !in {"startLoading", "stopLoading", "updateState", "error"}
    ensures r.Err? ==> r.error == NotAValidAction
    ensures action.actionType == "startLoading" ==>
              && r.Ok? && r.value.isLoading
              && r.value.filteredCharacterList == state.filteredCharacterList
              && r.value.errorMessage == state.errorMessage
              && r.value.isFavoriteRoute == state.isFavoriteRoute
    ensures action.actionType == "stopLoading" ==>
              && r.Ok? && !r.value.isLoading
              && r.value.filteredCharacterList == state.filteredCharacterList
              && r.value.errorMessage == state.errorMessage
              && r.value.isFavoriteRoute == state.isFavoriteRoute
    ensures action.actionType == "updateState" && action.payload.None? ==> r == Ok(state)
    ensures action.actionType == "updateState" && action.payload.Some? ==>
              var p := action.payload.value;
              && r.Ok?
              && (p.filteredCharacterList.Some? ==> r.value.filteredCharacterList == p.filteredCharacterList.value)
              && (p.filteredCharacterList.None? ==> r.value.filteredCharacterList == state.filteredCharacterList)
              && (p.isLoading.Some? ==> r.value.isLoading == p.isLoading.value)
              && (p.isLoading.None? ==> r.value.isLoading == state.isLoading)
              && (p.errorMessage.Some? ==> r.value.errorMessage == p.errorMessage.value)
              && (p.errorMessage.None? ==> r.value.errorMessage == state.errorMessage)
              && (p.isFavoriteRoute.Some? ==> r.value.isFavoriteRoute == p.isFavoriteRoute.value)
              && (p.isFavoriteRoute.None? ==> r.value.isFavoriteRoute == state.isFavoriteRoute)
    ensures action.actionType == "error" ==>
              && r.Ok? && !r.value.isLoading
              && (action.payload.Some? && action.payload.value.errorMessage.Some? ==>
                    r.value.errorMessage == action.payload.value.errorMessage.value)
              && (action.payload.None? || action.payload.value.errorMessage.None? ==>
                    r.value.errorMessage == "")
              && r.value.filteredCharacterList == state.filteredCharacterList
              && r.value.isFavoriteRoute == state.isFavoriteRoute
  {
    match action.actionType
    case "startLoading" => Ok(state.(isLoading := true))
    case "stopLoading" => Ok(state.(isLoading := false))
    case "updateState" =>
      if action.payload.Some? then Ok(MergeList(state, action.payload.value)) else Ok(state)
    case "error" => Ok(state.(isLoading := false, errorMessage := ErrorMessageOf(action.payload)))
    case _ => Err(NotAValidAction)
  }

  /** The filter in `removeCharFromFavoritesBtnHandler`: every entry whose id is
      `characterId` dropped, the rest kept. */
  function RemoveById(list: seq<Summary>, characterId: string): (r: seq<Summary>)
    ensures forall x :: x in r <==> x in list && x.id != Str(characterId)
    ensures |r| <= |list|
  {
    if |list| == 0 then []
    else if list[0].id == Str(characterId) then RemoveById(list[1..], characterId)
    else [list[0]] + RemoveById(list[1..], characterId)
  }

  /** The filter works piecewise, so the kept entries stay in their order. */
  lemma {:induction false} RemoveByIdDistributes(a: seq<Summary>, b: seq<Summary>, characterId: string)
    ensures RemoveById(a + b, characterId) == RemoveById(a, characterId) + RemoveById(b, characterId)
  {
    if |a| > 0 {
      assert (a + b)[1..] == a[1..] + b;
      RemoveByIdDistributes(a[1..], b, characterId);
    } else {
      assert a + b == b;
    }
  }

  /** A list without the id is left exactly as it was. */
  lemma {:induction false} RemoveByIdAbsent(list: seq<Summary>, characterId: string)
    requires forall i | 0 <= i < |list| :: list[i].id != Str(characterId)
    ensures RemoveById(list, characterId) == list
  {
    if |list| > 0 {
      RemoveByIdAbsent(list[1..], characterId);
      assert [list[0]] + list[1..] == list;
    }
  }

  /** Filtering twice drops nothing more. */
  lemma RemoveByIdIdempotent(list: seq<Summary>, characterId: string)
    ensures RemoveById(RemoveById(list, characterId), characterId) == RemoveById(list, characterId)
  {
  }

  /** `sub` occurs in `s` starting at position `i`. */
  predicate OccursAt(s: string, sub: string, i: int) {
    0 <= i && i + |sub| <= |s| && s[i..i + |sub|] == sub
  }

  lemma OccursAtShift(s: string, sub: string, i: int)
    requires 1 <= i && |s| > 0
    ensures OccursAt(s, sub, i) <==> OccursAt(s[1..], sub, i - 1)
  {
  }

  /** `s.includes(sub)`: `sub` occurs in `s` at some position. */
  function Includes(s: string, sub: string): (r: bool)
    ensures r <==> exists i :: OccursAt(s, sub, i)
    decreases |s|
  {
    if |sub| > |s| then
      assert forall i :: !OccursAt(s, sub, i);
      false
    else if s[..|sub|] == sub then
      assert OccursAt(s, sub, 0);
      true
    else
      var rest := Includes(s[1..], sub);
      assert rest ==> OccursAt(s, sub, 0) || exists i :: OccursAt(s, sub, i) by {
        if rest {
          var j :| OccursAt(s[1..], sub, j);
          OccursAtShift(s, sub, j + 1);
        }
      }
      assert forall i | OccursAt(s, sub, i) :: rest by {
        forall i | OccursAt(s, sub, i) ensures rest {
          assert i != 0;
          OccursAtShift(s, sub, i);
        }
      }
      rest
  }

  /** `router.pathname.includes("favorites")`. */
  function IsFavoriteRoute(pathname: string): (r: bool)
    ensures r <==> exists i :: OccursAt(pathname, "favorites", i)
  {
    Includes(pathname, "favorites")
  }

  /** The endpoint `fetchCharacters` asks: the favorites listing on a favorites
      route, the full listing otherwise. */
  function ListEndpoint(pathname: string): (url: string)
    ensures url == "/api/favorites" <==> IsFavoriteRoute(pathname)
    ensures url == "/api/characters" <==> !IsFavoriteRoute(pathname)
  {
    "/api/" + (if IsFavoriteRoute(pathname) then "favorites" else "characters")
  }
}
