/** Version 1.1.0: players with a main and a sub role, filtered dropdowns,
    resolved-only labels and tiers, team power, and player cards that show
    the chosen roles. The file's own `version` string reads "v1.2.0"; this
    model names it after the file. */
module V110 {
  import opened Common
  import opened Text
  import opened Dicts
  import opened Board
  import opened Balance
  import opened Roster
  import opened Records
  import opened Combos

  /** The "no role" entry of the role comboboxes, and the default of a missing role. */
  const Unset: string := "선택 안함"

  datatype Player = Player(name: string, scores: Scores, mainRole: string, subRole: string)

  /** `Player.to_dict`: the four keys. */
  function ToDict(p: Player): PlayerRecord {
    PlayerRecord(Some(p.name), Some(p.scores), Some(p.mainRole), Some(p.subRole), None, None)
  }

  /** `Player.from_dict`: `name` and `scores` are indexed (`name` first); a
      missing role is unset. Other keys are ignored. */
  function FromDict(d: PlayerRecord): (r: Result<Player, LoadError>)
    ensures r.Err? <==> d.name.None? || d.scores.None?
    ensures r.Err? ==> r.error == MissingKey(if d.name.None? then "name" else "scores")
  {
    if d.name.None? then Err(MissingKey("name"))
    else if d.scores.None? then Err(MissingKey("scores"))
    else Ok(Player(d.name.value, d.scores.value, d.mainRole.GetOr(Unset), d.subRole.GetOr(Unset)))
  }

  /** Converting a player to its record and back loses nothing. */
  lemma RoundTrip(p: Player)
    ensures FromDict(ToDict(p)) == Ok(p)
  {
  }

  /** A record of the earlier versions, holding only `name` and `scores`,
      loads with both roles unset. */
  lemma FromDictDefaults(name: string, scores: Scores)
    ensures FromDict(PlayerRecord(Some(name), Some(scores), None, None, None, None))
         == Ok(Player(name, scores, Unset, Unset))
  {
  }

  /** `p.scores`, the projection the lanes' table is built with. */
  function ScoresOf(p: Player): Scores {
    p.scores
  }

  /** `PlayerDialog.save_player`: a name that is empty after `strip()` is refused;
      otherwise the new player takes the stripped name, the five slider values
      and the two role choices. A truthy `original_name` makes it an edit. */
  function SavePlayer(entry: string, sliders: seq<Score>, mainRole: string, subRole: string,
                      originalName: Option<string>): (r: Submission<Player>)
    requires |sliders| == 5
    ensures r.Rejected? <==> forall i :: 0 <= i < |entry| ==> IsSpace(entry[i])
    ensures !r.Rejected? ==>
      r.player == Player(Strip(entry), SliderScores(sliders), mainRole, subRole) && r.player.name != ""
    ensures r.EditCall? <==> !r.Rejected? && originalName.Some? && originalName.value != ""
    ensures r.EditCall? ==> r.original == originalName.value
  {
    StripEmptyIffBlank(entry);
    var name := Strip(entry);
    if name == "" then Rejected
    else
      var p := Player(name, SliderScores(sliders), mainRole, subRole);
      if originalName.Some? && originalName.value != "" then EditCall(p, originalName.value) else AddCall(p)
  }

  // ---------------------------------------------------------------------
  // The player list.

  /** The roles a card lists: the main role, then the sub role, each unless unset. */
  function CardRoles(p: Player): seq<string> {
    (if p.mainRole != Unset then [p.mainRole] else []) + (if p.subRole != Unset then [p.subRole] else [])
  }

  /** The text of a `PlayerCard`: the name, then the listed roles in parentheses. */
  function CardText(p: Player): string {
    var roles := CardRoles(p);
    if roles == [] then p.name else p.name + " (" + Join(", ", roles) + ")"
  }

  /** The card text, case by case: the bare name exactly when both roles are
      unset, one role in parentheses, or both separated by a comma. */
  lemma CardTextCases(p: Player)
    ensures CardText(p) == p.name <==> p.mainRole == Unset && p.subRole == Unset
    ensures p.mainRole != Unset && p.subRole == Unset ==> CardText(p) == p.name + " (" + p.mainRole + ")"
    ensures p.mainRole == Unset && p.subRole != Unset ==> CardText(p) == p.name + " (" + p.subRole + ")"
    ensures p.mainRole != Unset && p.subRole != Unset ==>
      CardText(p) == p.name + " (" + p.mainRole + ", " + p.subRole + ")"
    ensures |CardText(p)| >= |p.name| && CardText(p)[..|p.name|] == p.name
  {
    var roles := CardRoles(p);
    if roles != [] {
      var tail := " (" + Join(", ", roles) + ")";
      assert CardText(p) == p.name + tail;
      assert |CardText(p)| > |p.name|;
      if p.mainRole != Unset && p.subRole != Unset {
        assert roles == [p.mainRole, p.subRole];
        assert Join(", ", roles) == p.mainRole + ", " + Join(", ", [p.subRole]);
      }
    }
  }

  // ---------------------------------------------------------------------
  // The application.

  class TeamBuilderApp {
    /** `self.participants` */
    var participants: Dict<Player>
    /** The values of the ten comboboxes, lane by lane. */
    var lanes: BoardState

    /** The dict is well formed, and since every field is only ever set from its
        filtered option list, no participant sits in two fields. */
    ghost predicate Valid()
      reads this
    {
      participants.Valid() && DistinctFilled(lanes)
    }

    /** `sorted(list(self.participants.keys()))` */
    function Names(): seq<string>
      reads this
    {
      Sort(participants.order)
    }

    constructor ()
      ensures Valid() && participants == Empty() && lanes == EmptyBoard
    {
      participants := Empty();
      lanes := EmptyBoard;
    }

    /** Picking a value in a readonly combobox: only its current options can be picked. */
    method Choose(i: int, side: Side, name: string)
      requires Valid() && 0 <= i < 5
      requires name in Options(Names(), Selected(lanes), lanes[i].Get(side))
      modifies this
      ensures Valid() && participants == old(participants)
      ensures lanes == old(lanes)[i := old(lanes)[i].Set(side, name)]
    {
      ChoiceKeepsDistinct(Names(), lanes, i, side, name);
      lanes := lanes[i := lanes[i].Set(side, name)];
    }

    /** `add_player_callback` */
    method AddPlayer(p: Player) returns (added: bool)
      requires Valid()
      modifies this
      ensures Valid() && lanes == old(lanes)
      ensures added <==> p.name !in old(participants).entries
      ensures participants == Add(old(participants), p.name, p)
    {
      if p.name in participants.entries {
        return false;
      }
      participants := participants.Put(p.name, p);
      added := true;
    }

    /** `edit_player_callback` */
    method EditPlayer(p: Player, original: string) returns (done: bool)
      requires Valid()
      modifies this
      ensures Valid() && lanes == old(lanes)
      ensures done <==> !(p.name != original && p.name in old(participants).entries)
      ensures participants == Edit(old(participants), p.name, p, original)
    {
      if p.name != original && p.name in participants.entries {
        return false;
      }
      if original in participants.entries {
        participants := participants.Del(original);
      }
      participants := participants.Put(p.name, p);
      done := true;
    }

    /** `delete_player`, confirmed; the board keeps the name. The card passes
        its record's `name`, which need not be the dict key the record was
        loaded under: `del` of a missing key raises `KeyError` and the roster
        stays as it was. */
    method DeletePlayer(name: string)
      requires Valid()
      modifies this
      ensures Valid() && lanes == old(lanes)
      ensures name in old(participants.entries) ==> participants == Delete(old(participants), name)
      ensures name !in old(participants.entries) ==> participants == old(participants)
    {
      if name in participants.entries {
        participants := participants.Del(name);
      }
    }

    /** `update_list_ui`: one card per participant, in name order. */
    method UpdateListUi() returns (cards: seq<string>)
      requires Valid()
      ensures |cards| == |Names()| == |participants.order|
      ensures forall i :: 0 <= i < |cards| ==>
        Names()[i] in participants.entries && cards[i] == CardText(participants.entries[Names()[i]])
    {
      var names := Sort(participants.order);
      SortSameElements(participants.order);
      cards := [];
      var i := 0;
      while i < |names|
        invariant 0 <= i <= |names|
        invariant |cards| == i
        invariant forall j :: 0 <= j < i ==>
          names[j] in participants.entries && cards[j] == CardText(participants.entries[names[j]])
      {
        assert names[i] in participants.order;
        cards := cards + [CardText(participants.entries[names[i]])];
        i := i + 1;
      }
    }

    /** `refresh_combos`: every field's option list and both powers. */
    method RefreshCombos() returns (redOpts: seq<seq<string>>, blueOpts: seq<seq<string>>,
                                    redTotal: int, blueTotal: int)
      requires Valid() && Readable(TableOf(participants, ScoresOf), lanes)
      ensures |redOpts| == 5 && |blueOpts| == 5
      ensures forall i :: 0 <= i < 5 ==>
        redOpts[i] == Options(Names(), Selected(lanes), lanes[i].red)
        && blueOpts[i] == Options(Names(), Selected(lanes), lanes[i].blue)
      ensures redTotal == Power(TableOf(participants, ScoresOf), lanes, Red)
      ensures blueTotal == Power(TableOf(participants, ScoresOf), lanes, Blue)
    {
      var selected := CollectSelected(lanes);
      var names := Sort(participants.order);
      redOpts, blueOpts := LaneOptions(names, selected, lanes);
      redTotal, blueTotal := Totals(TableOf(participants, ScoresOf), lanes);
    }

    /** `save_data`: the document written, one record per entry in dict order. */
    function SaveData(): (doc: Document)
      reads this
      requires Valid()
      ensures |doc| == |participants.order|
      ensures forall i :: 0 <= i < |doc| ==>
        doc[i].0 == participants.order[i] && FromDict(doc[i].1) == Ok(participants.entries[doc[i].0])
    {
      forall p ensures FromDict(ToDict(p)) == Ok(p) { RoundTrip(p); }
      Save(participants, ToDict)
    }

    /** `load_data` at start-up on a parsed file (`None`: no file, or one that
        could not be parsed): records are stored one by one into the current
        roster, and a failure keeps what was stored before it. */
    method LoadData(doc: Option<Document>) returns (ok: bool)
      requires Valid()
      modifies this
      ensures Valid() && lanes == old(lanes)
      ensures ok <==> doc.Some? && LoadInto(old(participants), doc.value, FromDict).1.None?
      ensures participants == if doc.Some? then LoadInto(old(participants), doc.value, FromDict).0 else old(participants)
    {
      if doc.None? {
        return false;
      }
      var data := doc.value;
      var i := 0;
      while i < |data|
        invariant 0 <= i <= |data|
        invariant participants.Valid() && lanes == old(lanes)
        invariant LoadInto(old(participants), data, FromDict) == LoadInto(participants, data[i..], FromDict)
      {
        assert data[i..][0] == data[i] && data[i..][1..] == data[i + 1..];
        var r := FromDict(data[i].1);
        if r.Err? {
          return false;
        }
        participants := participants.Put(data[i].0, r.value);
        i := i + 1;
      }
      ok := true;
    }
  }

  /** What `save_data` writes, loaded back into an empty roster, is the roster. */
  lemma SaveThenLoad(d: Dict<Player>)
    requires d.Valid()
    ensures LoadInto(Empty(), Save(d, ToDict), FromDict) == (d, None)
  {
    forall p ensures FromDict(ToDict(p)) == Ok(p) { RoundTrip(p); }
    SaveThenBuild(d, ToDict, FromDict);
    BuildAgreesWithLoadInto(Empty(), Save(d, ToDict), FromDict);
  }
}
