/** Version 1.1.2: players with main and sub role and a win/loss record,
    filtered dropdowns, resolved-only labels and tiers, team power, the
    ten-slot record gate, match results, and two ways of loading a file. */
module V112 {
  import opened Common
  import opened Text
  import opened Dicts
  import opened Board
  import opened Balance
  import opened Roster
  import opened Records
  import opened Combos

  /** The "no role" entry of the role comboboxes, and the default of a missing role. */
  const Unset: string := "선택 안함"

  datatype Player = Player(name: string, scores: Scores, mainRole: string, subRole: string, wins: int, losses: int)

  /** `Player.to_dict`: all six keys. */
  function ToDict(p: Player): PlayerRecord {
    PlayerRecord(Some(p.name), Some(p.scores), Some(p.mainRole), Some(p.subRole), Some(p.wins), Some(p.losses))
  }

  /** `Player.from_dict`: `name` and `scores` are indexed (a missing one raises
      `KeyError`, `name` first); the rest fall back to their defaults. */
  function FromDict(d: PlayerRecord): (r: Result<Player, LoadError>)
    ensures r.Err? <==> d.name.None? || d.scores.None?
    ensures r.Err? ==> r.error == MissingKey(if d.name.None? then "name" else "scores")
  {
    if d.name.None? then Err(MissingKey("name"))
    else if d.scores.None? then Err(MissingKey("scores"))
    else Ok(Player(d.name.value, d.scores.value, d.mainRole.GetOr(Unset), d.subRole.GetOr(Unset),
                   d.wins.GetOr(0), d.losses.GetOr(0)))
  }

  /** Converting a player to its record and back loses nothing. */
  lemma RoundTrip(p: Player)
    ensures FromDict(ToDict(p)) == Ok(p)
  {
  }

  /** A record holding only `name` and `scores` loads with both roles unset
      and an empty record of 0 wins and 0 losses. */
  lemma FromDictDefaults(name: string, scores: Scores)
    ensures FromDict(PlayerRecord(Some(name), Some(scores), None, None, None, None))
         == Ok(Player(name, scores, Unset, Unset, 0, 0))
  {
  }

  /** `p.scores`, the projection the lanes' table is built with. */
  function ScoresOf(p: Player): Scores {
    p.scores
  }

  // ---------------------------------------------------------------------
  // The player dialog.

  /** `PlayerDialog.save_player`: a name that is empty after `strip()` is refused;
      otherwise the new player takes the stripped name, the five slider values,
      the two role choices and, when a player is being edited, that player's
      wins and losses. A truthy `original_name` makes it an edit. */
  function SavePlayer(entry: string, sliders: seq<Score>, mainRole: string, subRole: string,
                      toEdit: Option<Player>, originalName: Option<string>): (r: Submission<Player>)
    requires |sliders| == 5
    ensures r.Rejected? <==> forall i :: 0 <= i < |entry| ==> IsSpace(entry[i])
    ensures !r.Rejected? ==>
      && r.player.name == Strip(entry) && r.player.name != ""
      && r.player.scores == SliderScores(sliders)
      && r.player.mainRole == mainRole && r.player.subRole == subRole
      && r.player.wins == (if toEdit.Some? then toEdit.value.wins else 0)
      && r.player.losses == (if toEdit.Some? then toEdit.value.losses else 0)
    ensures r.EditCall? <==> !r.Rejected? && originalName.Some? && originalName.value != ""
    ensures r.EditCall? ==> r.original == originalName.value
  {
    StripEmptyIffBlank(entry);
    var name := Strip(entry);
    if name == "" then Rejected
    else
      var wins := if toEdit.Some? then toEdit.value.wins else 0;
      var losses := if toEdit.Some? then toEdit.value.losses else 0;
      var p := Player(name, SliderScores(sliders), mainRole, subRole, wins, losses);
      if originalName.Some? && originalName.value != "" then EditCall(p, originalName.value) else AddCall(p)
  }

  /** Editing a roster entry through the dialog (it is opened with that entry
      and its key) and saving it keeps the entry's wins and losses under the
      new name, unless the new name belongs to someone else. */
  lemma EditKeepsRecord(d: Dict<Player>, key: string, entry: string, sliders: seq<Score>, mainRole: string, subRole: string)
    requires d.Valid() && key in d.entries && key != "" && |sliders| == 5
    requires !(forall i :: 0 <= i < |entry| ==> IsSpace(entry[i]))
    ensures var s := SavePlayer(entry, sliders, mainRole, subRole, Some(d.entries[key]), Some(key));
      && s.EditCall?
      && (s.player.name == key || s.player.name !in d.entries ==>
            var e := Edit(d, s.player.name, s.player, s.original);
            e.entries[s.player.name].wins == d.entries[key].wins
            && e.entries[s.player.name].losses == d.entries[key].losses
            && (s.player.name != key ==> key !in e.entries))
  {
    var s := SavePlayer(entry, sliders, mainRole, subRole, Some(d.entries[key]), Some(key));
    EditSpec(d, s.player.name, s.player, s.original);
  }

  // ---------------------------------------------------------------------
  // The match result.

  /** The player with `w` more wins and `l` more losses. */
  function Tally(p: Player, w: int, l: int): Player {
    Player(p.name, p.scores, p.mainRole, p.subRole, p.wins + w, p.losses + l)
  }

  /** `participants[name].wins += 1` (or `.losses`): one counter of one entry
      goes up by one. Keys and dict order are untouched, so the result is
      worked on the entries alone. */
  function Credit(m: map<string, Player>, name: string, won: bool): (r: map<string, Player>)
    requires name in m
    ensures r.Keys == m.Keys
  {
    m[name := Tally(m[name], if won then 1 else 0, if won then 0 else 1)]
  }

  /** Every field of the board names a roster key. */
  ghost predicate AllKeys(m: map<string, Player>, ls: seq<Lane>) {
    forall i, s :: 0 <= i < |ls| ==> ls[i].Get(s) in m
  }

  lemma AllKeysPrefix(m: map<string, Player>, ls: seq<Lane>, i: int)
    requires AllKeys(m, ls) && 0 <= i <= |ls|
    ensures AllKeys(m, ls[..i])
  {
    forall j, s | 0 <= j < i ensures ls[..i][j].Get(s) in m { assert ls[..i][j] == ls[j]; }
  }

  /** `commit_result(winner)` on the entries: lane by lane, the red player then
      the blue player is credited with a win or a loss. */
  function CommitLanes(m: map<string, Player>, ls: seq<Lane>, winner: Side): (r: map<string, Player>)
    requires AllKeys(m, ls)
    ensures r.Keys == m.Keys
  {
    if ls == [] then m
    else
      var n := |ls| - 1;
      AllKeysPrefix(m, ls, n);
      assert ls[n].Get(Red) in m && ls[n].Get(Blue) in m;
      var done := CommitLanes(m, ls[..n], winner);
      Credit(Credit(done, ls[n].red, winner == Red), ls[n].blue, winner == Blue)
  }

  /** The loop's step: one more lane of the board is two more credits. */
  lemma CommitLanesStep(m: map<string, Player>, ls: seq<Lane>, i: int, winner: Side)
    requires AllKeys(m, ls) && 0 <= i < |ls|
    ensures AllKeys(m, ls[..i]) && AllKeys(m, ls[..i + 1])
    ensures ls[i].red in m && ls[i].blue in m
    ensures CommitLanes(m, ls[..i + 1], winner) ==
      Credit(Credit(CommitLanes(m, ls[..i], winner), ls[i].red, winner == Red), ls[i].blue, winner == Blue)
  {
    AllKeysPrefix(m, ls, i);
    AllKeysPrefix(m, ls, i + 1);
    assert ls[i].Get(Red) in m && ls[i].Get(Blue) in m;
    assert ls[..i + 1][..i] == ls[..i];
  }

  /** How many lanes hold `k` on `side`. */
  function Count(ls: seq<Lane>, side: Side, k: string): nat {
    if ls == [] then 0
    else Count(ls[..|ls| - 1], side, k) + (if ls[|ls| - 1].Get(side) == k then 1 else 0)
  }

  /** One credit changes only the credited entry, by one win or one loss. */
  lemma CreditAt(m: map<string, Player>, name: string, won: bool, k: string)
    requires name in m && k in m
    ensures Credit(m, name, won)[k] ==
      Tally(m[k], if k == name && won then 1 else 0, if k == name && !won then 1 else 0)
  {
  }

  /** The last lane of the board adds one win for a winning-side field and one
      loss for a losing-side field holding `k`. */
  lemma CommitStep(m: map<string, Player>, ls: seq<Lane>, winner: Side, k: string)
    requires AllKeys(m, ls) && ls != [] && k in m
    ensures AllKeys(m, ls[..|ls| - 1])
    ensures CommitLanes(m, ls, winner)[k] ==
      Tally(CommitLanes(m, ls[..|ls| - 1], winner)[k],
            if ls[|ls| - 1].Get(winner) == k then 1 else 0,
            if ls[|ls| - 1].Get(winner.Other()) == k then 1 else 0)
  {
    var n := |ls| - 1;
    var l := ls[n];
    AllKeysPrefix(m, ls, n);
    assert l.red in m && l.blue in m by {
      assert ls[n].Get(Red) in m && ls[n].Get(Blue) in m;
    }
    var done := CommitLanes(m, ls[..n], winner);
    var mid := Credit(done, l.red, winner == Red);
    assert CommitLanes(m, ls, winner) == Credit(mid, l.blue, winner == Blue);
    CreditAt(done, l.red, winner == Red, k);
    CreditAt(mid, l.blue, winner == Blue, k);
    var r := if l.red == k then 1 else 0;
    var b := if l.blue == k then 1 else 0;
    var q := done[k];
    var last := Credit(mid, l.blue, winner == Blue);
    if winner == Red {
      assert mid[k] == Tally(q, r, 0);
      TallyTwice(q, r, 0, 0, b);
      assert last[k] == Tally(q, r, b);
      assert l.Get(winner) == l.red && l.Get(winner.Other()) == l.blue;
    } else {
      assert mid[k] == Tally(q, 0, r);
      TallyTwice(q, 0, r, b, 0);
      assert last[k] == Tally(q, b, r);
      assert l.Get(winner) == l.blue && l.Get(winner.Other()) == l.red;
    }
  }

  lemma TallyTwice(p: Player, w1: int, l1: int, w2: int, l2: int)
    ensures Tally(Tally(p, w1, l1), w2, l2) == Tally(p, w1 + w2, l1 + l2)
  {
  }

  /** After a result, each player has gained one win per winning-side field
      and one loss per losing-side field holding their name, and nothing else
      about any player has changed. */
  lemma {:induction false} CommitCounts(m: map<string, Player>, ls: seq<Lane>, winner: Side, k: string)
    requires AllKeys(m, ls) && k in m
    ensures CommitLanes(m, ls, winner)[k] == Tally(m[k], Count(ls, winner, k), Count(ls, winner.Other(), k))
  {
    if ls != [] {
      var n := |ls| - 1;
      CommitStep(m, ls, winner, k);
      CommitCounts(m, ls[..n], winner, k);
    }
  }

  lemma {:induction false} CountAbsent(ls: seq<Lane>, side: Side, k: string)
    requires forall j :: 0 <= j < |ls| ==> ls[j].Get(side) != k
    ensures Count(ls, side, k) == 0
  {
    if ls != [] {
      var n := |ls| - 1;
      forall j | 0 <= j < n ensures ls[..n][j].Get(side) != k { assert ls[..n][j] == ls[j]; }
      CountAbsent(ls[..n], side, k);
    }
  }

  lemma {:induction false} CountOnce(ls: seq<Lane>, side: Side, k: string, i: int)
    requires 0 <= i < |ls| && ls[i].Get(side) == k
    requires forall j :: 0 <= j < |ls| && j != i ==> ls[j].Get(side) != k
    ensures Count(ls, side, k) == 1
  {
    var n := |ls| - 1;
    forall j | 0 <= j < n && j != i ensures ls[..n][j].Get(side) != k { assert ls[..n][j] == ls[j]; }
    if i == n {
      CountAbsent(ls[..n], side, k);
    } else {
      assert ls[..n][i] == ls[i];
      CountOnce(ls[..n], side, k, i);
    }
  }

  /** A name in one field of a board without repeats is in no other field. */
  lemma OnlyThere(ls: seq<Lane>, side: Side, k: string, i: int)
    requires DistinctFilled(ls) && 0 <= i < |ls| && ls[i].Get(side) == k && k != ""
    ensures forall j :: 0 <= j < |ls| && j != i ==> ls[j].Get(side) != k
    ensures forall j :: 0 <= j < |ls| ==> ls[j].Get(side.Other()) != k
  {
    forall j | 0 <= j < |ls| ensures ls[j].Get(side.Other()) != k {
      assert side != side.Other();
    }
  }

  /** With no name in two fields, a result gives the player in winning field
      `i` exactly one more win and nothing else. */
  lemma CommitWinner(m: map<string, Player>, ls: BoardState, winner: Side, i: int)
    requires AllKeys(m, ls) && DistinctFilled(ls) && 0 <= i < 5
    requires ls[i].Get(winner) != ""
    ensures var k := ls[i].Get(winner);
      CommitLanes(m, ls, winner)[k] == Tally(m[k], 1, 0)
  {
    var k := ls[i].Get(winner);
    CommitCounts(m, ls, winner, k);
    OnlyThere(ls, winner, k, i);
    CountOnce(ls, winner, k, i);
    CountAbsent(ls, winner.Other(), k);
  }

  /** ... and the player in losing field `i` exactly one more loss and nothing else. */
  lemma CommitLoser(m: map<string, Player>, ls: BoardState, winner: Side, i: int)
    requires AllKeys(m, ls) && DistinctFilled(ls) && 0 <= i < 5
    requires ls[i].Get(winner.Other()) != ""
    ensures var k := ls[i].Get(winner.Other());
      CommitLanes(m, ls, winner)[k] == Tally(m[k], 0, 1)
  {
    var k := ls[i].Get(winner.Other());
    CommitCounts(m, ls, winner, k);
    OnlyThere(ls, winner.Other(), k, i);
    assert winner.Other().Other() == winner;
    CountOnce(ls, winner.Other(), k, i);
    CountAbsent(ls, winner, k);
  }

  /** A player in no field is left as they were. */
  lemma CommitOffBoard(m: map<string, Player>, ls: BoardState, winner: Side, k: string)
    requires AllKeys(m, ls) && k in m && !OnBoard(ls, k)
    ensures CommitLanes(m, ls, winner)[k] == m[k]
  {
    CommitCounts(m, ls, winner, k);
    CountAbsent(ls, winner, k);
    CountAbsent(ls, winner.Other(), k);
  }

  /** A deleted player offers no option anywhere and scores nothing, even in a
      field that still holds the name. */
  lemma DeletedIsStale(d: Dict<Player>, name: string, ls: seq<Lane>, i: int, side: Side)
    requires d.Valid() && name in d.entries && 0 <= i < |ls|
    ensures name !in Offer(Sort(Delete(d, name).order), Selected(ls), ls[i].Get(side))
    ensures !Resolves(TableOf(Delete(d, name), ScoresOf), name)
  {
    DeleteSpec(d, name);
    SortSameElements(Delete(d, name).order);
  }

  /** Two players, one record whose `name` is missing: the external load keeps
      the old roster, the startup load keeps the player read before the failure. */
  lemma LoadPathsDiffer()
    ensures var ok := PlayerRecord(Some("A"), Some(map["TOP" := 5]), None, None, None, None);
      var bad := PlayerRecord(None, Some(map["TOP" := 5]), None, None, None, None);
      var doc: Document := [("A", ok), ("B", bad)];
      && Build(Empty(), doc, FromDict) == Err(MissingKey("name"))
      && LoadInto(Empty(), doc, FromDict).0.entries == map["A" := Player("A", map["TOP" := 5], Unset, Unset, 0, 0)]
  {
    var ok := PlayerRecord(Some("A"), Some(map["TOP" := 5]), None, None, None, None);
    var bad := PlayerRecord(None, Some(map["TOP" := 5]), None, None, None, None);
    var doc: Document := [("A", ok), ("B", bad)];
    FirstFailure(Empty(), [("A", ok)], ("B", bad), [], FromDict);
    assert [("A", ok)] + [("B", bad)] + [] == doc;
  }

  /** What `save_data` writes, loaded back into an empty roster, is the roster. */
  lemma SaveThenLoad(d: Dict<Player>)
    requires d.Valid()
    ensures Build(Empty(), Save(d, ToDict), FromDict) == Ok(d)
    ensures LoadInto(Empty(), Save(d, ToDict), FromDict) == (d, None)
  {
    forall p ensures FromDict(ToDict(p)) == Ok(p) { RoundTrip(p); }
    SaveThenBuild(d, ToDict, FromDict);
    BuildAgreesWithLoadInto(Empty(), Save(d, ToDict), FromDict);
  }

  // ---------------------------------------------------------------------
  // The application.

  class TeamBuilderApp {
    /** `self.participants` */
    var participants: Dict<Player>
    /** The values of the ten comboboxes, lane by lane. */
    var lanes: BoardState

    /** The dict is well formed, and since every field is only ever set from its
        filtered option list, no participant sits in two fields. */
    ghost predicate Valid()
      reads this
    {
      participants.Valid() && DistinctFilled(lanes)
    }

    /** `sorted(list(self.participants.keys()))` */
    function Names(): seq<string>
      reads this
    {
      Sort(participants.order)
    }

    constructor ()
      ensures Valid() && participants == Empty() && lanes == EmptyBoard
    {
      participants := Empty();
      lanes := EmptyBoard;
    }

    /** Picking a value in a readonly combobox: only its current options can be picked. */
    method Choose(i: int, side: Side, name: string)
      requires Valid() && 0 <= i < 5
      requires name in Options(Names(), Selected(lanes), lanes[i].Get(side))
      modifies this
      ensures Valid() && participants == old(participants)
      ensures lanes == old(lanes)[i := old(lanes)[i].Set(side, name)]
    {
      ChoiceKeepsDistinct(Names(), lanes, i, side, name);
      lanes := lanes[i := lanes[i].Set(side, name)];
    }

    /** `add_player_callback` */
    method AddPlayer(p: Player) returns (added: bool)
      requires Valid()
      modifies this
      ensures Valid() && lanes == old(lanes)
      ensures added <==> p.name !in old(participants).entries
      ensures participants == Add(old(participants), p.name, p)
    {
      if p.name in participants.entries {
        return false;
      }
      participants := participants.Put(p.name, p);
      added := true;
    }

    /** `edit_player_callback` */
    method EditPlayer(p: Player, original: string) returns (done: bool)
      requires Valid()
      modifies this
      ensures Valid() && lanes == old(lanes)
      ensures done <==> !(p.name != original && p.name in old(participants).entries)
      ensures participants == Edit(old(participants), p.name, p, original)
    {
      if p.name != original && p.name in participants.entries {
        return false;
      }
      if original in participants.entries {
        participants := participants.Del(original);
      }
      participants := participants.Put(p.name, p);
      done := true;
    }

    /** `delete_player`, confirmed; the board keeps the name. The card passes
        its record's `name`, which need not be the dict key the record was
        loaded under: `del` of a missing key raises `KeyError` and the roster
        stays as it was. */
    method DeletePlayer(name: string)
      requires Valid()
      modifies this
      ensures Valid() && lanes == old(lanes)
      ensures name in old(participants.entries) ==> participants == Delete(old(participants), name)
      ensures name !in old(participants.entries) ==> participants == old(participants)
    {
      if name in participants.entries {
        participants := participants.Del(name);
      }
    }

    /** `refresh_combos`: every field's option list, both powers, and whether the
        record button is enabled. */
    method RefreshCombos() returns (redOpts: seq<seq<string>>, blueOpts: seq<seq<string>>,
                                    redTotal: int, blueTotal: int, recordEnabled: bool)
      requires Valid() && Readable(TableOf(participants, ScoresOf), lanes)
      ensures |redOpts| == 5 && |blueOpts| == 5
      ensures forall i :: 0 <= i < 5 ==>
        redOpts[i] == Options(Names(), Selected(lanes), lanes[i].red)
        && blueOpts[i] == Options(Names(), Selected(lanes), lanes[i].blue)
      ensures redTotal == Power(TableOf(participants, ScoresOf), lanes, Red)
      ensures blueTotal == Power(TableOf(participants, ScoresOf), lanes, Blue)
      ensures recordEnabled <==> AllFilled(lanes)
    {
      var selected, red, blue := CollectSides(lanes);
      var names := Sort(participants.order);
      redOpts, blueOpts := LaneOptions(names, selected, lanes);
      redTotal, blueTotal := Totals(TableOf(participants, ScoresOf), lanes);
      recordEnabled := RecordGate(red, blue);
      GateIffAllFilled(lanes);
    }

    /** `record_match.commit_result(winner)`; the record is reachable only with
        all ten fields set, and every one of them must be a roster key. */
    method CommitResult(winner: Side)
      requires Valid() && AllKeys(participants.entries, lanes)
      modifies `participants
      ensures Valid()
      ensures participants == Dict(old(participants).order, CommitLanes(old(participants).entries, lanes, winner))
    {
      ghost var m0 := participants.entries;
      var i := 0;
      while i < 5
        invariant 0 <= i <= 5
        invariant participants.order == old(participants).order
        invariant participants.entries == CommitLanes(m0, lanes[..i], winner)
        invariant participants.Valid()
      {
        CommitLanesStep(m0, lanes, i, winner);
        var r, b := lanes[i].red, lanes[i].blue;
        var m := participants.entries;
        m := Credit(m, r, winner == Red);
        m := Credit(m, b, winner == Blue);
        SameKeysValid(participants, m);
        participants := Dict(participants.order, m);
        i := i + 1;
      }
      assert lanes[..5] == lanes;
    }

    /** `save_data`: the document written, one record per entry in dict order. */
    function SaveData(): (doc: Document)
      reads this
      requires Valid()
      ensures |doc| == |participants.order|
      ensures forall i :: 0 <= i < |doc| ==>
        doc[i].0 == participants.order[i] && FromDict(doc[i].1) == Ok(participants.entries[doc[i].0])
    {
      forall p ensures FromDict(ToDict(p)) == Ok(p) { RoundTrip(p); }
      Save(participants, ToDict)
    }

    /** `load_external_data` on a parsed file (`None`: the file could not be
        parsed): the roster is replaced only when every record converts. */
    method LoadExternal(doc: Option<Document>) returns (ok: bool)
      requires Valid()
      modifies this
      ensures Valid() && lanes == old(lanes)
      ensures ok <==> doc.Some? && Build(Empty(), doc.value, FromDict).Ok?
      ensures participants == if ok then Build(Empty(), doc.value, FromDict).value else old(participants)
    {
      if doc.None? {
        return false;
      }
      var data := doc.value;
      var next: Dict<Player> := Empty();
      var i := 0;
      while i < |data|
        invariant 0 <= i <= |data|
        invariant next.Valid()
        invariant Build(Empty(), data, FromDict) == Build(next, data[i..], FromDict)
      {
        assert data[i..][0] == data[i] && data[i..][1..] == data[i + 1..];
        var r := FromDict(data[i].1);
        if r.Err? {
          return false;
        }
        next := next.Put(data[i].0, r.value);
        i := i + 1;
      }
      participants := next;
      ok := true;
    }

    /** `load_data` at start-up on a parsed file: records are stored one by one
        into the current roster, and a failure keeps what was stored before it. */
    method LoadData(doc: Option<Document>) returns (ok: bool)
      requires Valid()
      modifies this
      ensures Valid() && lanes == old(lanes)
      ensures ok <==> doc.Some? && LoadInto(old(participants), doc.value, FromDict).1.None?
      ensures participants == if doc.Some? then LoadInto(old(participants), doc.value, FromDict).0 else old(participants)
    {
      if doc.None? {
        return false;
      }
      var data := doc.value;
      var i := 0;
      while i < |data|
        invariant 0 <= i <= |data|
        invariant participants.Valid() && lanes == old(lanes)
        invariant LoadInto(old(participants), data, FromDict) == LoadInto(participants, data[i..], FromDict)
      {
        assert data[i..][0] == data[i] && data[i..][1..] == data[i + 1..];
        var r := FromDict(data[i].1);
        if r.Err? {
          return false;
        }
        participants := participants.Put(data[i].0, r.value);
        i := i + 1;
      }
      ok := true;
    }
  }
}
