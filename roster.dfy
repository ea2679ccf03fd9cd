/** The roster rules shared by the versions: the participants dict keyed by
    name, and what the add, edit and delete callbacks do to it. A rejected
    request (the "name exists" error box) leaves the dict as it was. */
module Roster {
  import opened Common
  import opened Dicts

  /** What a registration dialog hands to the application when "save" is pressed. */
  datatype Submission<P> =
    | Rejected                              // "Name required." / bad score: no callback
    | AddCall(player: P)                    // `self.callback(new_player)`
    | EditCall(player: P, original: string) // `self.callback(new_player, self.original_name)`

  /** `add_player_callback` / `add_player`: refuse a name that is already a key,
      otherwise `participants[name] = player`. */
  function Add<P>(d: Dict<P>, name: string, p: P): Dict<P>
    requires d.Valid()
  {
    if name in d.entries then d else d.Put(name, p)
  }

  /** `edit_player_callback`: refuse a rename onto another existing key; otherwise
      drop the original key (if still there) and store the player under its name. */
  function Edit<P>(d: Dict<P>, name: string, p: P, original: string): Dict<P>
    requires d.Valid()
  {
    if name != original && name in d.entries then d
    else (if original in d.entries then d.Del(original) else d).Put(name, p)
  }

  /** `delete_player`: `del participants[name]` (the caller guarantees the key). */
  function Delete<P>(d: Dict<P>, name: string): Dict<P>
    requires d.Valid() && name in d.entries
  {
    d.Del(name)
  }

  /** Adding a present name changes nothing; adding a new name inserts exactly
      that key, last in the order, and keeps every other entry. */
  lemma AddSpec<P>(d: Dict<P>, name: string, p: P)
    requires d.Valid()
    ensures Add(d, name, p).Valid()
    ensures name in d.entries ==> Add(d, name, p) == d
    ensures name !in d.entries ==>
      && Add(d, name, p).entries.Keys == d.entries.Keys + {name}
      && Add(d, name, p).entries[name] == p
      && (forall k :: k in d.entries ==> Add(d, name, p).entries[k] == d.entries[k])
      && Add(d, name, p).order == d.order + [name]
  {
  }

  /** Adding a new name and deleting it again gives back the roster. */
  lemma AddThenDelete<P>(d: Dict<P>, name: string, p: P)
    requires d.Valid() && name !in d.entries
    ensures name in Add(d, name, p).entries
    ensures Delete(Add(d, name, p), name) == d
  {
    PutThenDelFresh(d, name, p);
  }

  /** Deleting removes exactly the named key and keeps every other entry and
      the order of the others. */
  lemma DeleteSpec<P>(d: Dict<P>, name: string)
    requires d.Valid() && name in d.entries
    ensures Delete(d, name).Valid()
    ensures Delete(d, name).entries.Keys == d.entries.Keys - {name}
    ensures forall k :: k in Delete(d, name).entries ==> Delete(d, name).entries[k] == d.entries[k]
    ensures Delete(d, name).order == Without(d.order, name)
  {
  }

  /** A rename onto another present key changes nothing. Otherwise the original
      key leaves, the new name maps to the new player, and every other entry
      keeps its value. */
  lemma EditSpec<P>(d: Dict<P>, name: string, p: P, original: string)
    requires d.Valid()
    ensures Edit(d, name, p, original).Valid()
    ensures name != original && name in d.entries ==> Edit(d, name, p, original) == d
    ensures !(name != original && name in d.entries) ==>
      var e := Edit(d, name, p, original);
      && e.entries.Keys == d.entries.Keys - {original} + {name}
      && e.entries[name] == p
      && (forall k :: k in d.entries && k != original && k != name ==> e.entries[k] == d.entries[k])
  {
  }

  /** An accepted edit deletes and re-inserts, so the edited player moves to
      the end of the dict order even when the name is unchanged (this shows in
      the order of the saved file). */
  lemma {:induction false} EditMovesLast<P>(d: Dict<P>, name: string, p: P, original: string)
    requires d.Valid()
    requires !(name != original && name in d.entries)
    ensures var o := Edit(d, name, p, original).order; |o| > 0 && o[|o| - 1] == name
    ensures original in d.entries ==> Edit(d, name, p, original).order == Without(d.order, original) + [name]
  {
    var base := if original in d.entries then d.Del(original) else d;
    assert name !in base.entries;
  }
}
