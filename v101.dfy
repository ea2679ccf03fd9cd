/** Version 1.0.1: the 1.0.0 player, a slider dialog, filtered dropdowns, and
    lanes that show a number (0 for a stale name) for every non-empty value. */
module V101 {
  import opened Common
  import opened Text
  import opened Dicts
  import opened Board
  import opened Balance
  import opened Roster
  import opened Combos
  import V100

  type Player = V100.Player

  /** `AddPlayerDialog.save_player`: a name empty after `strip()` is refused;
      otherwise the player takes the stripped name and one score per role. */
  function SavePlayer(entry: string, sliders: seq<Score>): (r: Option<Player>)
    requires |sliders| == 5
    ensures r.None? <==> forall i :: 0 <= i < |entry| ==> IsSpace(entry[i])
    ensures r.Some? ==> r.value.name == Strip(entry) && r.value.name != ""
    ensures r.Some? ==> r.value.scores.Keys == {"TOP", "JUNGLE", "MID", "ADC", "SUPPORT"}
    ensures r.Some? ==> forall i :: 0 <= i < 5 ==> r.value.scores[Key(Roles[i])] == sliders[i]
  {
    StripEmptyIffBlank(entry);
    var name := Strip(entry);
    if name == "" then None else Some(V100.Player(name, SliderScores(sliders)))
  }

  class TeamBuilderApp {
    /** `self.participants` */
    var participants: Dict<Player>
    /** The values of the ten comboboxes, lane by lane. */
    var lanes: BoardState

    /** The dict is well formed, and since every field is only ever set from its
        filtered option list, no participant sits in two fields. */
    ghost predicate Valid()
      reads this
    {
      participants.Valid() && DistinctFilled(lanes)
    }

    /** `sorted(list(self.participants.keys()))` */
    function Names(): seq<string>
      reads this
    {
      Sort(participants.order)
    }

    constructor ()
      ensures Valid() && participants == Empty() && lanes == EmptyBoard
    {
      participants := Empty();
      lanes := EmptyBoard;
    }

    /** Picking a value in a readonly combobox: only its current options can be picked. */
    method Choose(i: int, side: Side, name: string)
      requires Valid() && 0 <= i < 5
      requires name in Options(Names(), Selected(lanes), lanes[i].Get(side))
      modifies this
      ensures Valid() && participants == old(participants)
      ensures lanes == old(lanes)[i := old(lanes)[i].Set(side, name)]
    {
      ChoiceKeepsDistinct(Names(), lanes, i, side, name);
      lanes := lanes[i := lanes[i].Set(side, name)];
    }

    /** `add_player` */
    method AddPlayer(p: Player) returns (added: bool)
      requires Valid()
      modifies this
      ensures Valid() && lanes == old(lanes)
      ensures added <==> p.name !in old(participants).entries
      ensures participants == Add(old(participants), p.name, p)
    {
      if p.name in participants.entries {
        return false;
      }
      participants := participants.Put(p.name, p);
      added := true;
    }

    /** `delete_player`, confirmed (the card's button passes its own name);
        the board keeps the name. */
    method DeletePlayer(name: string)
      requires Valid() && name in participants.entries
      modifies this
      ensures Valid() && lanes == old(lanes)
      ensures participants == Delete(old(participants), name)
    {
      participants := participants.Del(name);
    }

    /** `refresh_combos`: the selected set, then every field's option list. */
    method RefreshCombos() returns (redOpts: seq<seq<string>>, blueOpts: seq<seq<string>>)
      requires Valid()
      ensures |redOpts| == 5 && |blueOpts| == 5
      ensures forall i :: 0 <= i < 5 ==>
        redOpts[i] == Options(Names(), Selected(lanes), lanes[i].red)
        && blueOpts[i] == Options(Names(), Selected(lanes), lanes[i].blue)
    {
      var selected := CollectSelected(lanes);
      var names := Sort(participants.order);
      redOpts, blueOpts := LaneOptions(names, selected, lanes);
    }
  }
}
