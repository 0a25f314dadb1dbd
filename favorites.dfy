/** The favorites store (src/models/favorites.ts) over the two-column favorites
    table (src/db/schema.ts), whose composite primary key (user, character)
    allows at most one row per pair. The table is a sequence of rows in
    insertion order; a failure of the relational store is an explicit oracle
    argument (`lookupFails`, `writeFails`). */
module Favorites {
  import opened Common
  import opened JsValue
  import opened ServerFetch
  import opened Character

  /** An id argument as the store receives it: `Empty` for a missing or empty
      string (what `!userId` rejects) and `Parsed(n)` for a string that
      `parseInt` reads as `n`. */
  datatype IdParam = Empty | Parsed(n: int)

  /** A row of the favorites table: (user id, character id). */
  type Row = (int, int)

  const LookupFailed: Error := HttpError("something went wrong while checking favorite. please try again.", 500)
  const ListFailed: Error := HttpError("not able to fetch from favorites", 500)

  /** The composite primary key: no pair occurs twice. */
  ghost predicate NoDuplicates(rows: seq<Row>) {
    forall i, j | 0 <= i < j < |rows| :: rows[i] != rows[j]
  }

  /** The table after `DELETE ... WHERE user_id = u AND character_id = c`:
      every row equal to `row` removed, the others kept in order. */
  function Without(rows: seq<Row>, row: Row): (r: seq<Row>)
    ensures forall x :: x in r <==> x in rows && x != row
    ensures |r| <= |rows|
  {
    if |rows| == 0 then []
    else if rows[0] == row then Without(rows[1..], row)
    else [rows[0]] + Without(rows[1..], row)
  }

  /** Deleting from a concatenation deletes from each part: the rows that stay
      keep their relative order. */
  lemma {:induction false} WithoutDistributes(a: seq<Row>, b: seq<Row>, row: Row)
    ensures Without(a + b, row) == Without(a, row) + Without(b, row)
  {
    if |a| > 0 {
      assert (a + b)[1..] == a[1..] + b;
      WithoutDistributes(a[1..], b, row);
    } else {
      assert a + b == b;
    }
  }

  /** Deleting an absent pair changes nothing. */
  lemma {:induction false} WithoutAbsent(rows: seq<Row>, row: Row)
    requires row !in rows
    ensures Without(rows, row) == rows
  {
    if |rows| > 0 {
      assert rows[1..] + [] == rows[1..];
      assert row !in rows[1..];
      WithoutAbsent(rows[1..], row);
      assert [rows[0]] + rows[1..] == rows;
    }
  }

  /** Adding a pair that was absent and then deleting it restores the table. */
  lemma AddThenDeleteRestores(rows: seq<Row>, row: Row)
    requires row !in rows
    ensures Without(rows + [row], row) == rows
  {
    WithoutDistributes(rows, [row], row);
    WithoutAbsent(rows, row);
    assert Without([row], row) == [];
  }

  lemma NoDuplicatesCons(x: Row, rest: seq<Row>)
    ensures NoDuplicates([x] + rest) <==> x !in rest && NoDuplicates(rest)
  {
    var s := [x] + rest;
    if x !in rest && NoDuplicates(rest) {
      forall i, j | 0 <= i < j < |s| ensures s[i] != s[j] {
        if i == 0 {
          assert s[j] == rest[j - 1];
        } else {
          assert s[i] == rest[i - 1] && s[j] == rest[j - 1];
        }
      }
    }
    if NoDuplicates(s) {
      forall i, j | 0 <= i < j < |rest| ensures rest[i] != rest[j] {
        assert rest[i] == s[i + 1] && rest[j] == s[j + 1];
      }
      forall j | 0 <= j < |rest| ensures rest[j] != x {
        assert s[0] == x && rest[j] == s[j + 1];
      }
    }
  }

  /** Deleting a present pair from a duplicate-free table removes exactly one
      row and keeps the table duplicate-free. */
  lemma {:induction false} WithoutRemovesOne(rows: seq<Row>, row: Row)
    requires NoDuplicates(rows)
    requires row in rows
    ensures |Without(rows, row)| == |rows| - 1
    ensures NoDuplicates(Without(rows, row))
  {
    assert rows == [rows[0]] + rows[1..];
    NoDuplicatesCons(rows[0], rows[1..]);
    if rows[0] == row {
      WithoutAbsent(rows[1..], row);
    } else {
      WithoutRemovesOne(rows[1..], row);
      NoDuplicatesCons(rows[0], Without(rows[1..], row));
    }
  }

  /** The character ids of `userId`'s rows, in row order. */
  function CharacterIdsOf(rows: seq<Row>, userId: int): (ids: seq<int>)
    ensures forall c :: c in ids <==> (userId, c) in rows
    ensures |ids| <= |rows|
  {
    if |rows| == 0 then []
    else if rows[0].0 == userId then [rows[0].1] + CharacterIdsOf(rows[1..], userId)
    else CharacterIdsOf(rows[1..], userId)
  }

  /** A favorite added last is listed last. */
  lemma {:induction false} NewestFavoriteListedLast(rows: seq<Row>, userId: int, characterId: int)
    ensures CharacterIdsOf(rows + [(userId, characterId)], userId) == CharacterIdsOf(rows, userId) + [characterId]
  {
    if |rows| > 0 {
      assert (rows + [(userId, characterId)])[1..] == rows[1..] + [(userId, characterId)];
      NewestFavoriteListedLast(rows[1..], userId, characterId);
    } else {
      assert rows + [(userId, characterId)] == [(userId, characterId)];
    }
  }

  /** Listing works row by row: the ids of a concatenation are the ids of its
      parts, in the same order. Together with `NewestFavoriteListedLast` this
      fixes the listing as the table's own row order. */
  lemma {:induction false} CharacterIdsOfDistributes(a: seq<Row>, b: seq<Row>, userId: int)
    ensures CharacterIdsOf(a + b, userId) == CharacterIdsOf(a, userId) + CharacterIdsOf(b, userId)
  {
    if |a| > 0 {
      assert (a + b)[1..] == a[1..] + b;
      CharacterIdsOfDistributes(a[1..], b, userId);
    } else {
      assert a + b == b;
    }
  }

  /** No id occurs twice in `ids`. */
  ghost predicate Distinct(ids: seq<int>) {
    forall i, j | 0 <= i < j < |ids| :: ids[i] != ids[j]
  }

  /** In a table that keeps the composite key, every favorite of a user is
      listed once. */
  lemma {:induction false} CharacterIdsOfDistinct(rows: seq<Row>, userId: int)
    requires NoDuplicates(rows)
    ensures Distinct(CharacterIdsOf(rows, userId))
  {
    if |rows| > 0 {
      assert rows == [rows[0]] + rows[1..];
      NoDuplicatesCons(rows[0], rows[1..]);
      CharacterIdsOfDistinct(rows[1..], userId);
      var rest := CharacterIdsOf(rows[1..], userId);
      if rows[0].0 == userId {
        var ids := [rows[0].1] + rest;
        forall i, j | 0 <= i < j < |ids| ensures ids[i] != ids[j] {
          if i == 0 {
            assert ids[j] == rest[j - 1];
            assert ids[j] in rest;
          } else {
            assert ids[i] == rest[i - 1] && ids[j] == rest[j - 1];
          }
        }
      }
    }
  }

  /** `String(n)` for a row's character id. */
  function IntToString(n: int): (s: string)
    ensures s != ""
  {
    if n < 0 then "-" + NatToString(-n) else NatToString(n)
  }

  /** `Promise.all(characterIds.map((id) => getCharacterById(String(id))))`. */
  function ResolveAll(net: Network, base: string, ids: seq<int>): (r: Result<seq<Character>>)
    ensures r.Ok? <==> forall i | 0 <= i < |ids| :: GetCharacterById(net, base, IntToString(ids[i])).Ok?
    ensures r.Ok? ==> |r.value| == |ids|
    ensures r.Ok? ==> forall i | 0 <= i < |ids| ::
                        r.value[i] == GetCharacterById(net, base, IntToString(ids[i])).value
  {
    AllInOrder(ids, (c: int) => GetCharacterById(net, base, IntToString(c)))
  }

  function SummaryOf(c: Character): Summary {
    Summary(c.id, c.name, c.species, c.homeworld)
  }

  /** The favorites listing for the given character ids, once the rows are read. */
  function SummariesOf(net: Network, base: string, ids: seq<int>): (r: Result<seq<Summary>>)
    ensures r.Err? ==> r.error == ListFailed
    ensures r.Ok? <==> forall i | 0 <= i < |ids| :: GetCharacterById(net, base, IntToString(ids[i])).Ok?
    ensures r.Ok? ==>
              && |r.value| == |ids|
              && forall i | 0 <= i < |ids| ::
                   r.value[i] == SummaryOf(GetCharacterById(net, base, IntToString(ids[i])).value)
  {
    var resolved := ResolveAll(net, base, ids);
    if resolved.Err? then Err(ListFailed)
    else
      var characters := resolved.value;
      Ok(seq(|characters|, i requires 0 <= i < |characters| => SummaryOf(characters[i])))
  }

  class FavoritesStore {
    var rows: seq<Row>

    ghost predicate Valid()
      reads this
    {
      NoDuplicates(rows)
    }

    constructor()
      ensures Valid() && rows == []
    {
      rows := [];
    }

    /** `isPresentInFavorite`: whether the pair has a row; a failing lookup is
        an error, never a "no". */
    function IsPresent(userId: int, characterId: int, lookupFails: bool): (r: Result<bool>)
      reads this
      ensures lookupFails <==> r.Err?
      ensures r.Err? ==> r.error == LookupFailed
      ensures r.Ok? ==> (r.value <==> exists i | 0 <= i < |rows| :: rows[i] == (userId, characterId))
    {
      if lookupFails then Err(LookupFailed) else Ok((userId, characterId) in rows)
    }

    /** `addCharacterToFavorites`: validates the user id, then the character id,
        then that the pair is absent, and inserts it. */
    method Add(userId: IdParam, characterId: IdParam, lookupFails: bool, writeFails: bool)
        returns (r: Result<()>)
      requires Valid()
      modifies this
      ensures Valid()
      ensures r.Err? ==> rows == old(rows)
      // the route answers 500 only for a failing store, 400 for every refusal
      ensures r.Err? && StatusOf(r.error) == 500 ==> lookupFails || writeFails
      ensures r.Err? && !lookupFails && !writeFails ==> StatusOf(r.error) == 400
      ensures userId.Empty? ==> r == Err(HttpError("not a valid userId", 400))
      ensures userId.Parsed? && characterId.Empty? ==> r == Err(HttpError("not a valid characterId", 400))
      ensures userId.Parsed? && characterId.Parsed? ==>
                var row := (userId.n, characterId.n);
                && (lookupFails ==> r == Err(LookupFailed))
                && (!lookupFails && row in old(rows) ==>
                      r == Err(HttpError("character is already in favorites", 400)))
                && (!lookupFails && row !in old(rows) && writeFails ==>
                      r == Err(HttpError("not able to add to favorites", 500)))
                && (!lookupFails && row !in old(rows) && !writeFails ==>
                      r == Ok(()) && rows == old(rows) + [row])
    {
      if userId.Empty? {
        return Err(HttpError("not a valid userId", 400));
      }
      if characterId.Empty? {
        return Err(HttpError("not a valid characterId", 400));
      }
      var present := IsPresent(userId.n, characterId.n, lookupFails);
      if present.Err? {
        return Err(present.error);
      }
      if present.value {
        return Err(HttpError("character is already in favorites", 400));
      }
      if writeFails {
        return Err(HttpError("not able to add to favorites", 500));
      }
      rows := rows + [(userId.n, characterId.n)];
      r := Ok(());
    }

    /** `deleteCharacterToFavorites`: validates the user id, then the character
        id, then that the pair is present, and deletes its row. */
    method Delete(userId: IdParam, characterId: IdParam, lookupFails: bool, writeFails: bool)
        returns (r: Result<()>)
      requires Valid()
      modifies this
      ensures Valid()
      ensures r.Err? ==> rows == old(rows)
      // the route answers 500 only for a failing store, 400 for every refusal
      ensures r.Err? && StatusOf(r.error) == 500 ==> lookupFails || writeFails
      ensures r.Err? && !lookupFails && !writeFails ==> StatusOf(r.error) == 400
      ensures userId.Empty? ==> r == Err(HttpError("not a valid userId", 400))
      ensures userId.Parsed? && characterId.Empty? ==> r == Err(HttpError("not a valid characterId", 400))
      ensures userId.Parsed? && characterId.Parsed? ==>
                var row := (userId.n, characterId.n);
                && (lookupFails ==> r == Err(LookupFailed))
                && (!lookupFails && row !in old(rows) ==>
                      r == Err(HttpError("character not present in favorites", 400)))
                && (!lookupFails && row in old(rows) && writeFails ==>
                      r == Err(HttpError("not able to delete from favorites", 500)))
                && (!lookupFails && row in old(rows) && !writeFails ==>
                      && r == Ok(())
                      && rows == Without(old(rows), row)
                      && |rows| == |old(rows)| - 1)
    {
      if userId.Empty? {
        return Err(HttpError("not a valid userId", 400));
      }
      if characterId.Empty? {
        return Err(HttpError("not a valid characterId", 400));
      }
      var present := IsPresent(userId.n, characterId.n, lookupFails);
      if present.Err? {
        return Err(present.error);
      }
      if !present.value {
        return Err(HttpError("character not present in favorites", 400));
      }
      if writeFails {
        return Err(HttpError("not able to delete from favorites", 500));
      }
      WithoutRemovesOne(rows, (userId.n, characterId.n));
      rows := Without(rows, (userId.n, characterId.n));
      r := Ok(());
    }

    /** `getFavoriteCharacters`: the user's favorites in row order, each
        resolved by id and cut down to id, name, species and homeworld; every
        failure is reported as one listing error. */
    function FavoriteCharacters(userId: int, net: Network, base: string, lookupFails: bool)
        : (r: Result<seq<Summary>>)
      reads this
      ensures r.Err? ==> r.error == ListFailed && StatusOf(r.error) == 500
      ensures lookupFails ==> r.Err?
      ensures !lookupFails ==>
                var ids := CharacterIdsOf(rows, userId);
                && (r.Ok? <==> forall i | 0 <= i < |ids| :: GetCharacterById(net, base, IntToString(ids[i])).Ok?)
                && (r.Ok? ==>
                      && |r.value| == |ids|
                      && forall i | 0 <= i < |ids| ::
                           r.value[i] == SummaryOf(GetCharacterById(net, base, IntToString(ids[i])).value))
      // the ids listed are the user's favorites, each once, in row order
      ensures forall c :: c in CharacterIdsOf(rows, userId) <==> (userId, c) in rows
      ensures Valid() ==> Distinct(CharacterIdsOf(rows, userId))
      ensures forall k | 0 <= k <= |rows| ::
                CharacterIdsOf(rows, userId) == CharacterIdsOf(rows[..k], userId) + CharacterIdsOf(rows[k..], userId)
    {
      assert Valid() ==> Distinct(CharacterIdsOf(rows, userId)) by {
        if Valid() {
          CharacterIdsOfDistinct(rows, userId);
        }
      }
      assert forall k | 0 <= k <= |rows| ::
               CharacterIdsOf(rows, userId) == CharacterIdsOf(rows[..k], userId) + CharacterIdsOf(rows[k..], userId) by {
        forall k | 0 <= k <= |rows|
          ensures CharacterIdsOf(rows, userId) == CharacterIdsOf(rows[..k], userId) + CharacterIdsOf(rows[k..], userId)
        {
          assert rows == rows[..k] + rows[k..];
          CharacterIdsOfDistributes(rows[..k], rows[k..], userId);
        }
      }
      if lookupFails then Err(ListFailed) else SummariesOf(net, base, CharacterIdsOf(rows, userId))
    }
  }
}
