/** What each lane shows and what each team totals: the score of a name for
    the lane's role, the score label, the colour tier of the gap between the
    two players of a lane, and the "Power" sum of a side. */
module Balance {
  import opened Common
  import opened Board

  /** A player's `scores` dict: role key to score. */
  type Scores = map<string, int>

  /** What the lanes read of the roster: each key's `scores`. */
  type ScoreTable = map<string, Scores>

  /** `name and name in players_dict`: a non-empty value that is a roster key. */
  predicate Resolves(t: ScoreTable, name: string) {
    name != "" && name in t
  }

  /** Looking up `players_dict[name].scores[role_key]` for a resolved name
      cannot raise `KeyError`. */
  predicate Scorable(t: ScoreTable, name: string, r: Role) {
    Resolves(t, name) ==> Key(r) in t[name]
  }

  /** Every lookup the lanes make on this board succeeds (lane i has role Roles[i]). */
  ghost predicate Readable(t: ScoreTable, ls: seq<Lane>) {
    |ls| <= 5 && forall i, s :: 0 <= i < |ls| ==> Scorable(t, ls[i].Get(s), Roles[i])
  }

  /** Every score the roster holds is a slider value 0..10. */
  ghost predicate InRange(t: ScoreTable) {
    forall n, k :: n in t && k in t[n] ==> 0 <= t[n][k] <= 10
  }

  /** The score a field contributes: its lane-role score if the name resolves, else 0. */
  function ScoreOf(t: ScoreTable, name: string, r: Role): int
    requires Scorable(t, name, r)
  {
    if Resolves(t, name) then t[name][Key(r)] else 0
  }

  function Abs(x: int): nat {
    if x < 0 then -x else x
  }

  /** A slider value: the dialogs' sliders run from 0 to 10 in ten steps. */
  type Score = n: int | 0 <= n <= 10

  /** `{role: score_vars[role].get() for role in ROLES}`: one score per role
      key, the sliders taken in role order. */
  function SliderScores(v: seq<Score>): (s: Scores)
    requires |v| == 5
    ensures s.Keys == {"TOP", "JUNGLE", "MID", "ADC", "SUPPORT"}
    ensures forall r :: Key(r) in s
    ensures forall i :: 0 <= i < 5 ==> s[Key(Roles[i])] == v[i]
    ensures forall k :: k in s ==> 0 <= s[k] <= 10
  {
    map["TOP" := v[0], "JUNGLE" := v[1], "MID" := v[2], "ADC" := v[3], "SUPPORT" := v[4]]
  }

  // ---------------------------------------------------------------------
  // Score labels.

  /** The text of a score label: `"-"` or the number. */
  datatype Label = Dash | Shown(value: int)

  /** 1.0.0, 1.1.0, 1.1.2: the number only for a resolved name. */
  function ResolvedLabel(t: ScoreTable, name: string, r: Role): Label
    requires Scorable(t, name, r)
  {
    if Resolves(t, name) then Shown(ScoreOf(t, name, r)) else Dash
  }

  /** 1.0.1: the number for every non-empty value, 0 when it does not resolve. */
  function FilledLabel(t: ScoreTable, name: string, r: Role): Label
    requires Scorable(t, name, r)
  {
    if name != "" then Shown(ScoreOf(t, name, r)) else Dash
  }

  // ---------------------------------------------------------------------
  // Lane tiers.

  /** The border colour of a lane: `bg_sec`/`panel`, `border_warn`/`warning_low`,
      `danger`/`warning_high`. */
  datatype Tier = Neutral | Warn | Danger

  /** The thresholds of `update_ui`: 4 and above, then 2 and above. */
  function TierOf(diff: int): Tier {
    if diff >= 4 then Danger else if diff >= 2 then Warn else Neutral
  }

  /** `abs(r_score - b_score)` for one lane. */
  function Gap(t: ScoreTable, l: Lane, r: Role): nat
    requires Scorable(t, l.red, r) && Scorable(t, l.blue, r)
  {
    Abs(ScoreOf(t, l.red, r) - ScoreOf(t, l.blue, r))
  }

  /** 1.1.0, 1.1.2: coloured only when both names resolve. */
  function StrictTier(t: ScoreTable, l: Lane, r: Role): Tier
    requires Scorable(t, l.red, r) && Scorable(t, l.blue, r)
  {
    if Resolves(t, l.red) && Resolves(t, l.blue) then TierOf(Gap(t, l, r)) else Neutral
  }

  /** 1.0.0, 1.0.1: coloured whenever both values are non-empty. */
  function LooseTier(t: ScoreTable, l: Lane, r: Role): Tier
    requires Scorable(t, l.red, r) && Scorable(t, l.blue, r)
  {
    if l.red != "" && l.blue != "" then TierOf(Gap(t, l, r)) else Neutral
  }

  /** The tier of the resolving versions, stated band by band. */
  lemma StrictTierBands(t: ScoreTable, l: Lane, r: Role)
    requires Scorable(t, l.red, r) && Scorable(t, l.blue, r)
    ensures var both := Resolves(t, l.red) && Resolves(t, l.blue);
      var d := Abs(ScoreOf(t, l.red, r) - ScoreOf(t, l.blue, r));
      && (StrictTier(t, l, r) == Danger <==> both && d >= 4)
      && (StrictTier(t, l, r) == Warn <==> both && 2 <= d <= 3)
      && (StrictTier(t, l, r) == Neutral <==> !both || d <= 1)
  {
  }

  /** The tier of the early versions: unresolved names score 0 and still count. */
  lemma LooseTierBands(t: ScoreTable, l: Lane, r: Role)
    requires Scorable(t, l.red, r) && Scorable(t, l.blue, r)
    ensures var both := l.red != "" && l.blue != "";
      var d := Abs(ScoreOf(t, l.red, r) - ScoreOf(t, l.blue, r));
      && (LooseTier(t, l, r) == Danger <==> both && d >= 4)
      && (LooseTier(t, l, r) == Warn <==> both && 2 <= d <= 3)
      && (LooseTier(t, l, r) == Neutral <==> !both || d <= 1)
  {
  }

  /** Neither tier depends on which team is red. */
  lemma TiersIgnoreSides(t: ScoreTable, l: Lane, r: Role)
    requires Scorable(t, l.red, r) && Scorable(t, l.blue, r)
    ensures StrictTier(t, Lane(l.blue, l.red), r) == StrictTier(t, l, r)
    ensures LooseTier(t, Lane(l.blue, l.red), r) == LooseTier(t, l, r)
  {
  }

  /** The two tier rules agree on resolved names; with a stale name the early
      rule still colours the lane against a score of 0. */
  lemma StrictVersusLoose(t: ScoreTable, l: Lane, r: Role)
    requires Scorable(t, l.red, r) && Scorable(t, l.blue, r)
    ensures Resolves(t, l.red) && Resolves(t, l.blue) ==> StrictTier(t, l, r) == LooseTier(t, l, r)
    ensures l.red != "" && Resolves(t, l.blue) && !Resolves(t, l.red) ==>
      StrictTier(t, l, r) == Neutral && LooseTier(t, l, r) == TierOf(Abs(t[l.blue][Key(r)]))
  {
  }

  /** What `update_ui` puts on one lane: the two score labels and the border. */
  datatype LaneDisplay = LaneDisplay(red: Label, blue: Label, tier: Tier)

  /** 1.1.0 and 1.1.2: labels and border from resolved names only. */
  function StrictDisplay(t: ScoreTable, l: Lane, r: Role): LaneDisplay
    requires Scorable(t, l.red, r) && Scorable(t, l.blue, r)
  {
    LaneDisplay(ResolvedLabel(t, l.red, r), ResolvedLabel(t, l.blue, r), StrictTier(t, l, r))
  }

  /** 1.0.1: a number for every non-empty value, the border for any two of them. */
  function FilledDisplay(t: ScoreTable, l: Lane, r: Role): LaneDisplay
    requires Scorable(t, l.red, r) && Scorable(t, l.blue, r)
  {
    LaneDisplay(FilledLabel(t, l.red, r), FilledLabel(t, l.blue, r), LooseTier(t, l, r))
  }

  /** 1.0.0: numbers for resolved names only, but the border for any two
      non-empty values. */
  function EarlyDisplay(t: ScoreTable, l: Lane, r: Role): LaneDisplay
    requires Scorable(t, l.red, r) && Scorable(t, l.blue, r)
  {
    LaneDisplay(ResolvedLabel(t, l.red, r), ResolvedLabel(t, l.blue, r), LooseTier(t, l, r))
  }

  /** 1.1.x: a coloured lane always shows both numbers, and its colour is the
      tier of their difference; a dash on either side means a neutral border. */
  lemma StrictDisplayConsistent(t: ScoreTable, l: Lane, r: Role)
    requires Scorable(t, l.red, r) && Scorable(t, l.blue, r)
    ensures var v := StrictDisplay(t, l, r);
      && (v.red.Shown? <==> Resolves(t, l.red)) && (v.blue.Shown? <==> Resolves(t, l.blue))
      && (v.red.Dash? || v.blue.Dash? ==> v.tier == Neutral)
      && (v.red.Shown? && v.blue.Shown? ==> v.tier == TierOf(Abs(v.red.value - v.blue.value)))
  {
  }

  /** 1.0.1: the same agreement between numbers and colour, with a stale name
      shown as 0. */
  lemma FilledDisplayConsistent(t: ScoreTable, l: Lane, r: Role)
    requires Scorable(t, l.red, r) && Scorable(t, l.blue, r)
    ensures var v := FilledDisplay(t, l, r);
      && (v.red.Shown? <==> l.red != "") && (v.blue.Shown? <==> l.blue != "")
      && (v.red.Shown? && !Resolves(t, l.red) ==> v.red.value == 0)
      && (v.blue.Shown? && !Resolves(t, l.blue) ==> v.blue.value == 0)
      && (v.red.Dash? || v.blue.Dash? ==> v.tier == Neutral)
      && (v.red.Shown? && v.blue.Shown? ==> v.tier == TierOf(Abs(v.red.value - v.blue.value)))
  {
  }

  /** 1.0.0: a non-empty stale name shows a dash and yet takes part in the
      colour as a score of 0. */
  lemma EarlyDisplayStale(t: ScoreTable, l: Lane, r: Role)
    requires Scorable(t, l.red, r) && Scorable(t, l.blue, r)
    ensures var v := EarlyDisplay(t, l, r);
      && (v.red.Shown? <==> Resolves(t, l.red)) && (v.blue.Shown? <==> Resolves(t, l.blue))
      && (l.red != "" && v.red.Dash? && v.blue.Shown? ==> v.tier == TierOf(Abs(v.blue.value)))
      && (l.blue != "" && v.blue.Dash? && v.red.Shown? ==> v.tier == TierOf(Abs(v.red.value)))
      && (l.red != "" && l.blue != "" && v.red.Dash? && v.blue.Dash? ==> v.tier == TierOf(0))
      && (l.red == "" || l.blue == "" ==> v.tier == Neutral)
  {
    if l.red != "" && !Resolves(t, l.red) {
      assert ScoreOf(t, l.red, r) == 0;
    }
    if l.blue != "" && !Resolves(t, l.blue) {
      assert ScoreOf(t, l.blue, r) == 0;
    }
  }

  /** A lane holding "Alice" (TOP 8) against "Bob", who has been deleted, in
      the three versions' displays. */
  lemma StaleNameOnTop()
    ensures var t: ScoreTable := map["Alice" := map["TOP" := 8]];
      var l := Lane("Alice", "Bob");
      && StrictDisplay(t, l, Top) == LaneDisplay(Shown(8), Dash, Neutral)
      && FilledDisplay(t, l, Top) == LaneDisplay(Shown(8), Shown(0), Danger)
      && EarlyDisplay(t, l, Top) == LaneDisplay(Shown(8), Dash, Danger)
  {
  }

  // ---------------------------------------------------------------------
  // Team power.

  /** `red_total` / `blue_total`: one side's lane-role scores over the lanes
      in order, empty and unresolved fields adding 0. */
  function Power(t: ScoreTable, ls: seq<Lane>, side: Side): int
    requires Readable(t, ls)
  {
    if ls == [] then 0
    else
      var n := |ls| - 1;
      assert Readable(t, ls[..n]) by {
        forall i, s | 0 <= i < n ensures Scorable(t, ls[..n][i].Get(s), Roles[i]) {
          assert ls[..n][i] == ls[i];
        }
      }
      Power(t, ls[..n], side) + ScoreOf(t, ls[n].Get(side), Roles[n])
  }

  /** With slider scores, a side's power lies between 0 and 10 per lane. */
  lemma {:induction false} PowerBounds(t: ScoreTable, ls: seq<Lane>, side: Side)
    requires Readable(t, ls) && InRange(t)
    ensures 0 <= Power(t, ls, side) <= 10 * |ls|
  {
    if ls != [] {
      var n := |ls| - 1;
      assert Readable(t, ls[..n]) by {
        forall i, s | 0 <= i < n ensures Scorable(t, ls[..n][i].Get(s), Roles[i]) {
          assert ls[..n][i] == ls[i];
        }
      }
      PowerBounds(t, ls[..n], side);
      assert Scorable(t, ls[n].Get(side), Roles[n]);
    }
  }

  /** Changing one field moves its own side's power by exactly the change in
      that field's score and leaves the other side's power alone. */
  lemma {:induction false} PowerSetSlot(t: ScoreTable, ls: seq<Lane>, i: int, side: Side, v: string)
    requires 0 <= i < |ls|
    requires Readable(t, ls) && Readable(t, ls[i := ls[i].Set(side, v)])
    ensures Scorable(t, ls[i].Get(side), Roles[i]) && Scorable(t, v, Roles[i])
    ensures Power(t, ls[i := ls[i].Set(side, v)], side)
         == Power(t, ls, side) - ScoreOf(t, ls[i].Get(side), Roles[i]) + ScoreOf(t, v, Roles[i])
    ensures Power(t, ls[i := ls[i].Set(side, v)], side.Other()) == Power(t, ls, side.Other())
  {
    var nb := ls[i := ls[i].Set(side, v)];
    var n := |ls| - 1;
    assert nb[i].Get(side) == v;
    assert Readable(t, ls[..n]) && Readable(t, nb[..n]) by {
      forall j, s | 0 <= j < n
        ensures Scorable(t, ls[..n][j].Get(s), Roles[j]) && Scorable(t, nb[..n][j].Get(s), Roles[j])
      {
        assert ls[..n][j] == ls[j] && nb[..n][j] == nb[j];
      }
    }
    assert nb[..n] == if i < n then ls[..n][i := ls[i].Set(side, v)] else ls[..n];
    if i < n {
      PowerSetSlot(t, ls[..n], i, side, v);
      assert nb[n] == ls[n];
    } else {
      assert nb[n].Get(side.Other()) == ls[n].Get(side.Other());
    }
  }
}
