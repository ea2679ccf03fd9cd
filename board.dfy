/** The five lanes, each with a RED and a BLUE combobox whose value is a
    participant name or "" for nothing chosen, and what is derived from the
    ten values alone: the global selected set, the ten-slot record gate,
    the duplicate-selection list and the dropdown option lists. */
module Board {
  import opened Common
  import opened Text

  datatype Role = Top | Jungle | Mid | Adc | Support

  /** `ROLES` / `ROLES_KEY`: lane i plays role Roles[i]. */
  const Roles: seq<Role> := [Top, Jungle, Mid, Adc, Support]

  /** The key a role has in a player's `scores` dict. */
  function Key(r: Role): string {
    match r
    case Top => "TOP"
    case Jungle => "JUNGLE"
    case Mid => "MID"
    case Adc => "ADC"
    case Support => "SUPPORT"
  }

  datatype Side = Red | Blue {
    function Other(): Side {
      if this == Red then Blue else Red
    }
  }

  /** One `LaneRow`: the values of its `red_var` and `blue_var`. */
  datatype Lane = Lane(red: string, blue: string) {
    function Get(side: Side): string {
      if side == Red then red else blue
    }
    function Set(side: Side, name: string): Lane {
      if side == Red then this.(red := name) else this.(blue := name)
    }
  }

  type BoardState = b: seq<Lane> | |b| == 5
    witness [Lane("", ""), Lane("", ""), Lane("", ""), Lane("", ""), Lane("", "")]

  /** All ten comboboxes empty, as the lanes are created. */
  const EmptyBoard: BoardState := [Lane("", ""), Lane("", ""), Lane("", ""), Lane("", ""), Lane("", "")]

  /** The non-empty values of one lane, red first. */
  function LaneNames(l: Lane): seq<string> {
    (if l.red != "" then [l.red] else []) + (if l.blue != "" then [l.blue] else [])
  }

  /** The list `check_duplicates` builds: every non-empty value, lane by lane,
      red before blue. */
  function Picked(ls: seq<Lane>): seq<string> {
    if ls == [] then [] else Picked(ls[..|ls| - 1]) + LaneNames(ls[|ls| - 1])
  }

  /** The `selected_set` of `refresh_combos`: every non-empty value. */
  function Selected(ls: seq<Lane>): set<string> {
    if ls == [] then {}
    else
      var l := ls[|ls| - 1];
      Selected(ls[..|ls| - 1])
        + (if l.red != "" then {l.red} else {})
        + (if l.blue != "" then {l.blue} else {})
  }

  /** The `red_players` (or `blue_players`) list: the non-empty values of one side. */
  function Filled(ls: seq<Lane>, side: Side): seq<string> {
    if ls == [] then []
    else
      var name := ls[|ls| - 1].Get(side);
      Filled(ls[..|ls| - 1], side) + (if name != "" then [name] else [])
  }

  /** All ten comboboxes hold something. */
  ghost predicate AllFilled(ls: seq<Lane>) {
    forall i, side :: 0 <= i < |ls| ==> ls[i].Get(side) != ""
  }

  /** No non-empty value occurs in two of the fields. */
  ghost predicate DistinctFilled(ls: seq<Lane>) {
    forall i, j, s, t ::
      0 <= i < |ls| && 0 <= j < |ls| && (i != j || s != t) && ls[i].Get(s) != ""
      ==> ls[i].Get(s) != ls[j].Get(t)
  }

  /** Some field holds `x`. */
  ghost predicate OnBoard(ls: seq<Lane>, x: string) {
    exists i, s :: 0 <= i < |ls| && ls[i].Get(s) == x
  }

  lemma LaneNamesMembers(l: Lane, x: string)
    ensures x in LaneNames(l) <==> x != "" && (x == l.red || x == l.blue)
  {
  }

  /** A value is on a non-empty board exactly when it is on all but the last
      lane or in one of the last lane's fields. */
  lemma OnBoardLast(ls: seq<Lane>, x: string)
    requires ls != []
    ensures OnBoard(ls, x) <==> OnBoard(ls[..|ls| - 1], x) || ls[|ls| - 1].red == x || ls[|ls| - 1].blue == x
  {
    var n := |ls| - 1;
    var init := ls[..n];
    if OnBoard(init, x) {
      var i, s :| 0 <= i < n && init[i].Get(s) == x;
      assert ls[i].Get(s) == x;
    }
    if ls[n].red == x { assert ls[n].Get(Red) == x; }
    if ls[n].blue == x { assert ls[n].Get(Blue) == x; }
    if OnBoard(ls, x) {
      var i, s :| 0 <= i < |ls| && ls[i].Get(s) == x;
      if i < n { assert init[i].Get(s) == x; }
    }
  }

  lemma {:induction false} PickedMembers(ls: seq<Lane>, x: string)
    ensures x in Picked(ls) <==> x != "" && OnBoard(ls, x)
  {
    if ls != [] {
      var init, l := ls[..|ls| - 1], ls[|ls| - 1];
      PickedMembers(init, x);
      OnBoardLast(ls, x);
      LaneNamesMembers(l, x);
      assert Picked(ls) == Picked(init) + LaneNames(l);
    }
  }

  /** The selected set holds exactly the non-empty values on the board. */
  lemma {:induction false} SelectedMembers(ls: seq<Lane>, x: string)
    ensures x in Selected(ls) <==> x != "" && OnBoard(ls, x)
  {
    if ls != [] {
      var init, l := ls[..|ls| - 1], ls[|ls| - 1];
      SelectedMembers(init, x);
      PickedMembers(init, x);
      PickedMembers(ls, x);
      assert x in Selected(ls) <==> x in Selected(init) || x in LaneNames(l);
    }
  }

  /** One side's list has five names exactly when none of its five fields is empty:
      the `len(red_players) == 5 and len(blue_players) == 5` test. */
  lemma {:induction false} FilledFull(ls: seq<Lane>, side: Side)
    ensures |Filled(ls, side)| <= |ls|
    ensures |Filled(ls, side)| == |ls| <==> forall i :: 0 <= i < |ls| ==> ls[i].Get(side) != ""
  {
    if ls != [] {
      var init := ls[..|ls| - 1];
      FilledFull(init, side);
      assert forall i :: 0 <= i < |init| ==> init[i] == ls[i];
    }
  }

  /** No non-empty field of `ls` holds a value of the lane `l`. */
  ghost predicate ApartFrom(ls: seq<Lane>, l: Lane) {
    forall j, t :: 0 <= j < |ls| && ls[j].Get(t) != "" ==> ls[j].Get(t) != l.red && ls[j].Get(t) != l.blue
  }

  /** A board without repeats, split at its last lane. */
  lemma DistinctLast(ls: seq<Lane>)
    requires ls != []
    ensures DistinctFilled(ls) <==>
      var n := |ls| - 1;
      DistinctFilled(ls[..n]) && (ls[n].red != "" ==> ls[n].red != ls[n].blue) && ApartFrom(ls[..n], ls[n])
  {
    var n := |ls| - 1;
    var init, l := ls[..n], ls[n];
    assert forall i :: 0 <= i < n ==> init[i] == ls[i];
    if DistinctFilled(ls) {
      assert l.red != "" ==> l.red != l.blue by {
        if l.red != "" { assert ls[n].Get(Red) != ls[n].Get(Blue); }
      }
      forall j, t | 0 <= j < n && init[j].Get(t) != "" ensures init[j].Get(t) != l.red && init[j].Get(t) != l.blue {
        assert ls[j].Get(t) != ls[n].Get(Red) && ls[j].Get(t) != ls[n].Get(Blue);
      }
    }
    if DistinctFilled(init) && (l.red != "" ==> l.red != l.blue) && ApartFrom(init, l) {
      forall i, j, s, t | 0 <= i < |ls| && 0 <= j < |ls| && (i != j || s != t) && ls[i].Get(s) != ""
        ensures ls[i].Get(s) != ls[j].Get(t)
      {
        if i < n && j < n {
          assert init[i].Get(s) != init[j].Get(t);
        } else if i < n {
          assert init[i].Get(s) == ls[i].Get(s);
        } else if j < n {
          if ls[j].Get(t) != "" { assert init[j].Get(t) == ls[j].Get(t); }
        }
      }
    }
  }

  /** The names listed before a lane and the lane's own names are disjoint
      exactly when no earlier field holds one of the lane's values. */
  lemma DisjointIffApart(init: seq<Lane>, l: Lane)
    ensures (forall x :: x in Picked(init) ==> x !in LaneNames(l)) <==> ApartFrom(init, l)
  {
    if forall x :: x in Picked(init) ==> x !in LaneNames(l) {
      forall j, t | 0 <= j < |init| && init[j].Get(t) != "" ensures init[j].Get(t) != l.red && init[j].Get(t) != l.blue {
        var x := init[j].Get(t);
        PickedMembers(init, x);
        LaneNamesMembers(l, x);
      }
    }
    if ApartFrom(init, l) {
      forall x | x in Picked(init) ensures x !in LaneNames(l) {
        PickedMembers(init, x);
        var j, t :| 0 <= j < |init| && init[j].Get(t) == x;
        LaneNamesMembers(l, x);
      }
    }
  }

  lemma LaneNamesNoDup(l: Lane)
    ensures NoDup(LaneNames(l)) <==> (l.red != "" ==> l.red != l.blue)
  {
    var L := LaneNames(l);
    if l.red != "" && l.blue != "" {
      assert L == [l.red, l.blue];
      if l.red == l.blue { assert L[0] == L[1]; }
    } else if l.red != "" {
      assert L == [l.red];
    } else if l.blue != "" {
      assert L == [l.blue];
    } else {
      assert L == [];
    }
  }

  /** Ten distinct names in the duplicate list exactly when no value is repeated
      across the fields. */
  lemma {:induction false} PickedNoDupIffDistinct(ls: seq<Lane>)
    ensures NoDup(Picked(ls)) <==> DistinctFilled(ls)
  {
    if ls != [] {
      var n := |ls| - 1;
      var init, l := ls[..n], ls[n];
      PickedNoDupIffDistinct(init);
      NoDupConcat(Picked(init), LaneNames(l));
      LaneNamesNoDup(l);
      DisjointIffApart(init, l);
      DistinctLast(ls);
      assert Picked(ls) == Picked(init) + LaneNames(l);
    }
  }

  // ---------------------------------------------------------------------
  // Dropdown options (`update_dropdown_options`).

  /** `[name for name in names if name not in selected or name == current]` */
  function Offer(names: seq<string>, selected: set<string>, current: string): (r: seq<string>)
    ensures forall x :: x in r <==> x in names && (x !in selected || x == current)
    ensures |r| <= |names|
  {
    if names == [] then []
    else
      var h := names[0];
      (if h !in selected || h == current then [h] else []) + Offer(names[1..], selected, current)
  }

  /** The combobox values: an empty entry, then the offered names. */
  function Options(names: seq<string>, selected: set<string>, current: string): seq<string> {
    [""] + Offer(names, selected, current)
  }

  /** Filtering keeps the order of the (sorted) name list. */
  lemma {:induction false} OfferSorted(names: seq<string>, selected: set<string>, current: string)
    requires Sorted(names)
    ensures Sorted(Offer(names, selected, current))
  {
    if names != [] {
      var h := names[0];
      var tail := names[1..];
      assert Sorted(tail) by {
        forall i, j | 0 <= i < j < |tail| ensures LexLe(tail[i], tail[j]) {
          assert tail[i] == names[i + 1] && tail[j] == names[j + 1];
        }
      }
      OfferSorted(tail, selected, current);
      var rest := Offer(tail, selected, current);
      if h !in selected || h == current {
        var r := [h] + rest;
        forall i, j | 0 <= i < j < |r| ensures LexLe(r[i], r[j]) {
          if i == 0 {
            assert r[j] in tail;
            var k :| 0 <= k < |tail| && tail[k] == r[j];
            assert names[k + 1] == r[j];
          }
        }
      }
    }
  }

  /** What a field is offered, in terms of the board itself: a name of the
      roster list that is either this field's own value or held by no field
      at all ("" is never selected). */
  lemma OptionsSpec(names: seq<string>, ls: seq<Lane>, i: int, side: Side, x: string)
    requires 0 <= i < |ls|
    ensures x in Options(names, Selected(ls), ls[i].Get(side))[1..]
        <==> x in names && (x == ls[i].Get(side) || x == "" || !OnBoard(ls, x))
  {
    SelectedMembers(ls, x);
    assert Options(names, Selected(ls), ls[i].Get(side))[1..] == Offer(names, Selected(ls), ls[i].Get(side));
  }

  /** Choosing from the filtered options never repeats a name: with the
      comboboxes limited to their option lists, the board of the filtering
      versions never holds the same participant twice. */
  lemma ChoiceKeepsDistinct(names: seq<string>, ls: seq<Lane>, i: int, side: Side, v: string)
    requires 0 <= i < |ls| && DistinctFilled(ls)
    requires v in Options(names, Selected(ls), ls[i].Get(side))
    ensures DistinctFilled(ls[i := ls[i].Set(side, v)])
  {
    var cur := ls[i].Get(side);
    var nb := ls[i := ls[i].Set(side, v)];
    if v != "" && v != cur {
      assert v in Offer(names, Selected(ls), cur);
      SelectedMembers(ls, v);
      assert !OnBoard(ls, v);
      forall j, k, s, t | 0 <= j < |nb| && 0 <= k < |nb| && (j != k || s != t) && nb[j].Get(s) != ""
        ensures nb[j].Get(s) != nb[k].Get(t)
      {
        var a := j == i && s == side;
        var b := k == i && t == side;
        if a {
          assert nb[k].Get(t) == ls[k].Get(t);
        } else if b {
          assert nb[j].Get(s) == ls[j].Get(s);
        } else {
          assert nb[j].Get(s) == ls[j].Get(s) && nb[k].Get(t) == ls[k].Get(t);
        }
      }
    } else if v == "" {
      forall j, k, s, t | 0 <= j < |nb| && 0 <= k < |nb| && (j != k || s != t) && nb[j].Get(s) != ""
        ensures nb[j].Get(s) != nb[k].Get(t)
      {
        if !(j == i && s == side) && !(k == i && t == side) {
          assert nb[j].Get(s) == ls[j].Get(s) && nb[k].Get(t) == ls[k].Get(t);
        } else if !(j == i && s == side) {
          assert nb[k].Get(t) == "";
        }
      }
    } else {
      assert ls[i].Set(side, v) == ls[i];
      assert nb == ls;
    }
  }
}
