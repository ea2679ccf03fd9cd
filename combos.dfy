/** The loops of `refresh_combos`, shared by the versions that have them:
    collecting the selected names, updating every lane's option lists,
    summing each side's power, and the ten-slot gate of the record button. */
module Combos {
  import opened Common
  import opened Text
  import opened Dicts
  import opened Board
  import opened Balance

  /** `{name: p.scores for name, p in participants.items()}`: the table the
      lanes read their scores from, for any version's player type. */
  function TableOf<P>(d: Dict<P>, scoresOf: P -> Scores): (t: ScoreTable)
    ensures t.Keys == d.entries.Keys
    ensures forall k :: k in d.entries ==> t[k] == scoresOf(d.entries[k])
  {
    map k | k in d.entries :: scoresOf(d.entries[k])
  }

  /** The first loop of 1.0.1 and 1.1.0: every non-empty value goes into `selected_set`. */
  method CollectSelected(ls: seq<Lane>) returns (selected: set<string>)
    ensures selected == Selected(ls)
    ensures forall x :: x in selected <==> x != "" && OnBoard(ls, x)
  {
    selected := {};
    var i := 0;
    while i < |ls|
      invariant 0 <= i <= |ls|
      invariant selected == Selected(ls[..i])
    {
      var r, b := ls[i].red, ls[i].blue;
      if r != "" { selected := selected + {r}; }
      if b != "" { selected := selected + {b}; }
      assert ls[..i + 1][..i] == ls[..i];
      i := i + 1;
    }
    assert ls[..|ls|] == ls;
    forall x ensures x in selected <==> x != "" && OnBoard(ls, x) {
      SelectedMembers(ls, x);
    }
  }

  /** The first loop of 1.1.2, which also lists each side's non-empty values. */
  method CollectSides(ls: seq<Lane>) returns (selected: set<string>, red: seq<string>, blue: seq<string>)
    ensures selected == Selected(ls)
    ensures red == Filled(ls, Red) && blue == Filled(ls, Blue)
  {
    selected, red, blue := {}, [], [];
    var i := 0;
    while i < |ls|
      invariant 0 <= i <= |ls|
      invariant selected == Selected(ls[..i])
      invariant red == Filled(ls[..i], Red) && blue == Filled(ls[..i], Blue)
    {
      var r, b := ls[i].red, ls[i].blue;
      if r != "" {
        selected := selected + {r};
        red := red + [r];
      }
      if b != "" {
        selected := selected + {b};
        blue := blue + [b];
      }
      assert ls[..i + 1][..i] == ls[..i];
      i := i + 1;
    }
    assert ls[..|ls|] == ls;
  }

  /** The second loop: `update_dropdown_options(all_players_list, selected_set)`
      on every lane, giving the red and the blue value list of each. */
  method LaneOptions(names: seq<string>, selected: set<string>, ls: seq<Lane>)
    returns (redOpts: seq<seq<string>>, blueOpts: seq<seq<string>>)
    ensures |redOpts| == |ls| && |blueOpts| == |ls|
    ensures forall i :: 0 <= i < |ls| ==>
      redOpts[i] == Options(names, selected, ls[i].red) && blueOpts[i] == Options(names, selected, ls[i].blue)
  {
    redOpts, blueOpts := [], [];
    var i := 0;
    while i < |ls|
      invariant 0 <= i <= |ls|
      invariant |redOpts| == i && |blueOpts| == i
      invariant forall j :: 0 <= j < i ==>
        redOpts[j] == Options(names, selected, ls[j].red) && blueOpts[j] == Options(names, selected, ls[j].blue)
    {
      redOpts := redOpts + [Options(names, selected, ls[i].red)];
      blueOpts := blueOpts + [Options(names, selected, ls[i].blue)];
      i := i + 1;
    }
  }

  /** The third loop: `red_total += ...` and `blue_total += ...` lane by lane. */
  method Totals(t: ScoreTable, ls: seq<Lane>) returns (red: int, blue: int)
    requires Readable(t, ls)
    ensures red == Power(t, ls, Red) && blue == Power(t, ls, Blue)
  {
    red, blue := 0, 0;
    var i := 0;
    while i < |ls|
      invariant 0 <= i <= |ls|
      invariant Readable(t, ls[..i])
      invariant red == Power(t, ls[..i], Red) && blue == Power(t, ls[..i], Blue)
    {
      var r, b := ls[i].red, ls[i].blue;
      assert Scorable(t, ls[i].Get(Red), Roles[i]) && Scorable(t, ls[i].Get(Blue), Roles[i]);
      if r != "" && r in t {
        red := red + t[r][Key(Roles[i])];
      }
      if b != "" && b in t {
        blue := blue + t[b][Key(Roles[i])];
      }
      assert ls[..i + 1][..i] == ls[..i];
      ghost var done := ls[..i + 1];
      assert Readable(t, done) by {
        forall j, s | 0 <= j < |done| ensures Scorable(t, done[j].Get(s), Roles[j]) {
          assert done[j] == ls[j];
        }
      }
      i := i + 1;
    }
    assert ls[..|ls|] == ls;
  }

  /** `len(red_players) == 5 and len(blue_players) == 5` */
  function RecordGate(red: seq<string>, blue: seq<string>): bool {
    |red| == 5 && |blue| == 5
  }

  /** The record button is enabled exactly when all ten comboboxes hold a value,
      whether or not those values are roster names. */
  lemma GateIffAllFilled(ls: BoardState)
    ensures RecordGate(Filled(ls, Red), Filled(ls, Blue)) <==> AllFilled(ls)
  {
    FilledFull(ls, Red);
    FilledFull(ls, Blue);
  }
}
