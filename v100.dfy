/** Version 1.0.0: players with role scores only, an explicit 0..10 check in
    the dialog, a sorted listbox, unfiltered dropdowns, a tier for any two
    non-empty values, and a warning when a name is picked twice. The `Player`
    of this version is also the `Player` of 1.0.1. */
module V100 {
  import opened Common
  import opened Text
  import opened Dicts
  import opened Board
  import opened Balance
  import opened Roster
  import opened Records

  datatype Player = Player(name: string, scores: Scores)

  /** `Player.to_dict`: the two keys. */
  function ToDict(p: Player): PlayerRecord {
    PlayerRecord(Some(p.name), Some(p.scores), None, None, None, None)
  }

  /** `Player.from_dict`: both keys are indexed, `name` first; other keys are ignored. */
  function FromDict(d: PlayerRecord): (r: Result<Player, LoadError>)
    ensures r.Err? <==> d.name.None? || d.scores.None?
    ensures r.Err? ==> r.error == MissingKey(if d.name.None? then "name" else "scores")
  {
    if d.name.None? then Err(MissingKey("name"))
    else if d.scores.None? then Err(MissingKey("scores"))
    else Ok(Player(d.name.value, d.scores.value))
  }

  /** Converting a player to its record and back loses nothing. */
  lemma RoundTrip(p: Player)
    ensures FromDict(ToDict(p)) == Ok(p)
  {
  }

  /** A spinbox reading: `IntVar.get()` yields an integer, or raises (`None`). */
  predicate ValidSpin(v: Option<int>) {
    v.Some? && 0 <= v.value <= 10
  }

  /** The `scores` dict after the first `n` spinboxes have been read. */
  function ReadSoFar(spins: seq<Option<int>>, n: nat): Scores
    requires n <= |spins| && n <= 5
  {
    if n == 0 then map[] else ReadSoFar(spins, n - 1)[Key(Roles[n - 1]) := spins[n - 1].GetOr(0)]
  }

  /** When all five readings are good, `scores` holds them under the five
      role keys, each in 0..10. */
  lemma ReadAll(spins: seq<Option<int>>)
    requires |spins| == 5
    requires ValidSpin(spins[0]) && ValidSpin(spins[1]) && ValidSpin(spins[2]) && ValidSpin(spins[3]) && ValidSpin(spins[4])
    ensures ReadSoFar(spins, 5) == map["TOP" := spins[0].value, "JUNGLE" := spins[1].value, "MID" := spins[2].value,
                                       "ADC" := spins[3].value, "SUPPORT" := spins[4].value]
    ensures forall k :: k in ReadSoFar(spins, 5) ==> 0 <= ReadSoFar(spins, 5)[k] <= 10
  {
    assert ReadSoFar(spins, 1) == map["TOP" := spins[0].value];
    assert ReadSoFar(spins, 2) == map["TOP" := spins[0].value, "JUNGLE" := spins[1].value];
    assert ReadSoFar(spins, 3) == map["TOP" := spins[0].value, "JUNGLE" := spins[1].value, "MID" := spins[2].value];
    assert ReadSoFar(spins, 4) == map["TOP" := spins[0].value, "JUNGLE" := spins[1].value, "MID" := spins[2].value,
                                      "ADC" := spins[3].value];
  }

  /** `AddPlayerDialog.save_player`: a name empty after `strip()` is refused;
      then the five spinboxes are read in role order and the first one that
      cannot be read or lies outside 0..10 aborts the dialog. */
  method SavePlayer(entry: string, spins: seq<Option<int>>) returns (r: Option<Player>)
    requires |spins| == 5
    ensures r.None? <==> Strip(entry) == "" || exists i :: 0 <= i < 5 && !ValidSpin(spins[i])
    ensures r.Some? ==> r.value == Player(Strip(entry),
      map["TOP" := spins[0].value, "JUNGLE" := spins[1].value, "MID" := spins[2].value,
          "ADC" := spins[3].value, "SUPPORT" := spins[4].value])
    ensures r.Some? ==> r.value.name != "" && forall k :: k in r.value.scores ==> 0 <= r.value.scores[k] <= 10
  {
    var name := Strip(entry);
    if name == "" {
      return None;
    }
    var scores: Scores := map[];
    var i := 0;
    while i < 5
      invariant 0 <= i <= 5
      invariant forall j :: 0 <= j < i ==> ValidSpin(spins[j])
      invariant scores == ReadSoFar(spins, i)
    {
      var v := spins[i];
      if !ValidSpin(v) {
        assert 0 <= i < 5 && !ValidSpin(spins[i]);
        return None;
      }
      scores := scores[Key(Roles[i]) := v.value];
      i := i + 1;
    }
    assert ValidSpin(spins[0]) && ValidSpin(spins[1]) && ValidSpin(spins[2]) && ValidSpin(spins[3]) && ValidSpin(spins[4]);
    ReadAll(spins);
    r := Some(Player(name, scores));
  }

  // ---------------------------------------------------------------------
  // Dropdowns and the duplicate warning.

  /** `LaneRow.refresh_options`: an empty entry, then every roster key in dict
      order, whatever the board holds. */
  function DropdownOptions(d: Dict<Player>): seq<string> {
    [""] + d.order
  }

  /** Every option but the first is a roster key, each key is offered once,
      and a key stays on offer when it already sits in another field. */
  lemma DropdownOptionsSpec(d: Dict<Player>, ls: seq<Lane>, i: int, side: Side, x: string)
    requires d.Valid() && 0 <= i < |ls|
    ensures x in DropdownOptions(d)[1..] <==> x in d.entries
    ensures NoDup(DropdownOptions(d)[1..])
    ensures x in d.entries && OnBoard(ls, x) ==> x in DropdownOptions(d)
  {
    assert DropdownOptions(d)[1..] == d.order;
  }

  /** Nothing keeps a name out of a second field: "A" picked on both sides of
      the top lane is a board with a repeat. */
  lemma UnfilteredAllowsRepeat(d: Dict<Player>)
    requires d.Valid() && "A" in d.entries
    ensures var ls := EmptyBoard[0 := Lane("A", "")];
      "A" in DropdownOptions(d) && !DistinctFilled(ls[0 := ls[0].Set(Blue, "A")])
  {
    var ls := EmptyBoard[0 := Lane("A", "")];
    var nb := ls[0 := ls[0].Set(Blue, "A")];
    assert nb[0].Get(Red) == nb[0].Get(Blue);
  }

  // ---------------------------------------------------------------------
  // The application.

  class TeamBuilderApp {
    /** `self.participants` */
    var participants: Dict<Player>
    /** The values of the ten comboboxes, lane by lane. */
    var lanes: BoardState
    /** The rows of `self.listbox`. */
    var listbox: seq<string>

    /** The dict is well formed and the listbox shows its sorted keys; the
        board may repeat a name. */
    ghost predicate Valid()
      reads this
    {
      participants.Valid() && listbox == Sort(participants.order)
    }

    constructor ()
      ensures Valid() && participants == Empty() && lanes == EmptyBoard && listbox == []
    {
      participants := Empty();
      lanes := EmptyBoard;
      listbox := [];
    }

    /** Picking a value in a readonly combobox, from its unfiltered options. */
    method Choose(i: int, side: Side, name: string)
      requires Valid() && 0 <= i < 5
      requires name in DropdownOptions(participants)
      modifies this
      ensures Valid() && participants == old(participants) && listbox == old(listbox)
      ensures lanes == old(lanes)[i := old(lanes)[i].Set(side, name)]
    {
      lanes := lanes[i := lanes[i].Set(side, name)];
    }

    /** `update_listbox`: clear the listbox, then insert the sorted keys one by one. */
    method UpdateListbox()
      requires participants.Valid()
      modifies this
      ensures Valid() && participants == old(participants) && lanes == old(lanes)
      ensures Sorted(listbox) && NoDup(listbox)
      ensures forall x :: x in listbox <==> x in participants.entries
    {
      var names := Sort(participants.order);
      listbox := [];
      var i := 0;
      while i < |names|
        invariant 0 <= i <= |names|
        invariant participants == old(participants) && lanes == old(lanes)
        invariant listbox == names[..i]
      {
        listbox := listbox + [names[i]];
        i := i + 1;
      }
      assert names[..|names|] == names;
      SortSameElements(participants.order);
      SortKeepsNoDup(participants.order);
    }

    /** `add_player`: an existing name is refused; otherwise the key is stored
        and the listbox rebuilt. */
    method AddPlayer(p: Player) returns (added: bool)
      requires Valid()
      modifies this
      ensures Valid() && lanes == old(lanes)
      ensures added <==> p.name !in old(participants).entries
      ensures participants == Add(old(participants), p.name, p)
    {
      if p.name in participants.entries {
        return false;
      }
      participants := participants.Put(p.name, p);
      UpdateListbox();
      added := true;
    }

    /** `delete_player`, confirmed: nothing happens without a listbox selection;
        otherwise the selected row's name leaves the roster and the listbox is
        rebuilt. The board keeps the name. */
    method DeletePlayer(selection: Option<nat>)
      requires Valid()
      requires selection.Some? ==> selection.value < |listbox|
      modifies this
      ensures Valid() && lanes == old(lanes)
      ensures selection.None? ==> participants == old(participants)
      ensures selection.Some? ==>
        old(listbox)[selection.value] in old(participants).entries
        && participants == Delete(old(participants), old(listbox)[selection.value])
    {
      if selection.None? {
        return;
      }
      var name := listbox[selection.value];
      SortSameElements(participants.order);
      assert name in participants.order;
      participants := participants.Del(name);
      UpdateListbox();
    }

    /** `refresh_combos`: every lane gets the same unfiltered option list. */
    method RefreshCombos() returns (opts: seq<seq<string>>)
      requires Valid()
      ensures |opts| == 5
      ensures forall i :: 0 <= i < 5 ==> opts[i] == DropdownOptions(participants)
    {
      opts := [];
      var i := 0;
      while i < 5
        invariant 0 <= i <= 5
        invariant |opts| == i
        invariant forall j :: 0 <= j < i ==> opts[j] == DropdownOptions(participants)
      {
        opts := opts + [[""] + participants.order];
        i := i + 1;
      }
    }

    /** `check_duplicates`: list every non-empty value, lane by lane, and warn
        when the list is longer than its set. The board is only read. */
    method CheckDuplicates() returns (warn: bool)
      ensures warn <==> !DistinctFilled(lanes)
      ensures warn <==> exists i, j, s, t :: 0 <= i < 5 && 0 <= j < 5 && (i != j || s != t)
                          && lanes[i].Get(s) != "" && lanes[i].Get(s) == lanes[j].Get(t)
    {
      var selected: seq<string> := [];
      var i := 0;
      while i < 5
        invariant 0 <= i <= 5
        invariant selected == Picked(lanes[..i])
      {
        var r, b := lanes[i].red, lanes[i].blue;
        if r != "" { selected := selected + [r]; }
        if b != "" { selected := selected + [b]; }
        assert lanes[..i + 1][..i] == lanes[..i];
        i := i + 1;
      }
      assert lanes[..5] == lanes;
      warn := |selected| != |set x | x in selected|;
      NoDupIffSetSize(selected);
      PickedNoDupIffDistinct(lanes);
    }
  }

  /** What `save_data` writes, read back record by record into an empty
      roster as `load_data` does, is the roster, dict order included. */
  lemma SaveThenLoad(d: Dict<Player>)
    requires d.Valid()
    ensures LoadInto(Empty(), Save(d, ToDict), FromDict) == (d, None)
  {
    forall p ensures FromDict(ToDict(p)) == Ok(p) { RoundTrip(p); }
    SaveThenBuild(d, ToDict, FromDict);
    BuildAgreesWithLoadInto(Empty(), Save(d, ToDict), FromDict);
  }
}
