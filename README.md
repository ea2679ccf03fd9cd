# 5vs5 Balancer, modelled in Dafny

The 5vs5 Balancer is a desktop tool for splitting ten players into a RED and
a BLUE team over five lanes: TOP, JUNGLE, MID, ADC and SUPPORT. It keeps a
roster of participants, keyed by name, with a 0..10 score per role. Each lane
has a red and a blue combobox whose value is a name, or `""` for nothing
chosen. From the roster and those ten values the tool derives:

- each field's dropdown list;
- the score labels and the coloured border (the "tier") of each lane;
- each team's power;
- in the latest version, whether a match result may be recorded, and the
  win/loss counters that recording the result updates.

The repository holds four versions: `source/100.py`, `101.py`, `110.py` and
`112.py`. This project models the logic of each version on its own, over shared
modules. The widgets around that logic are not modelled. Versions are named
after their files: 1.0.0, 1.0.1, 1.1.0 and 1.1.2. The `version` string of
`source/110.py` reads "v1.2.0" (source/110.py:6). Its code sits between 1.0.1
and 1.1.2: it has roles but no win/loss counters. The model calls it 1.1.0.

| module | file | what it holds |
|---|---|---|
| `Common` | common.dfy | `Option`, `Result`, duplicate-free sequences, removing an element |
| `Text` | text.dfy | Python `str.strip()`, `", ".join`, Python's code-point string order, `sorted` |
| `Dicts` | dicts.dfy | a Python `dict`: a map plus the insertion order that `keys()` and `items()` follow |
| `Board` | board.dfy | roles, sides, lanes, the board of five lanes, the selected set, the duplicate list, the filtered dropdown lists |
| `Balance` | balance.dfy | score lookup, labels, tiers, the three lane displays, team power |
| `Roster` | roster.dfy | add, edit and delete on the participants dict; what a player dialog submits |
| `Records` | records.dfy | a parsed participants file; the all-or-nothing load, the in-place load, saving |
| `Combos` | combos.dfy | the loops of `refresh_combos` |
| `V112`, `V110`, `V101`, `V100` | v112.dfy … v100.dfy | each version's `Player`, `to_dict`/`from_dict`, `save_player` and `TeamBuilderApp` |
| `Compat` | compat.dfy | reading one version's file with another version's `from_dict` |

What the source changes in place is modelled as state. Each version's
`TeamBuilderApp` is a class whose `participants` field is a `Dict` and whose
`lanes` field is the board. Its methods have `modifies` clauses and state the
whole new state. The loops of the source are methods with loop invariants:

- building the selected set;
- the option lists;
- the power totals;
- the 1.0.0 score validation;
- the listbox;
- the duplicate check;
- the commit of a result;
- the two loads.

Each such method is specified by a function, and the lemmas about those
functions state what the source promises.

Widget events become parameters:

- a value a spinbox or slider holds;
- the text of the name entry;
- the listbox selection;
- an already parsed file.

A rejecting message box is "return without change". A confirmation box is its
confirmed branch. A readonly combobox can only take a value from its current
option list, so `Choose` requires the value to be in that list.

Where the code and the description of the program differ, the model follows
the code:

- Deleting or renaming a player never clears board fields that still hold the
  old name.
- The record gate counts non-empty values, not roster keys.
- Committing a result indexes the roster directly, field by field. It has no
  all-or-nothing abort.
- `load_data` keeps the records read before a failing one.

## Model

| member | source | states |
|---|---|---|
| Common.Without | source/112.py:473-474 | `del` on the dict order keeps every other key and drops the deleted one |
| Common.WithoutKeepsNoDup | source/112.py:473-474 | removing a key from a duplicate-free order leaves it duplicate-free |
| Common.WithoutAppended | source/112.py:459-463 | removing the key just appended gives back the previous order |
| Common.NoDupIffSetSize | source/100.py:284 | `len(selected) != len(set(selected))` holds exactly when the list has a repeated element |
| Common.NoDupConcat | source/100.py:277-282 | a concatenation is duplicate-free iff both parts are and they share no element |
| Text.LeadingSpaces | source/112.py:195 | counts exactly the whitespace prefix that `strip()` removes |
| Text.TrailingSpaces | source/112.py:195 | counts exactly the whitespace suffix that `strip()` removes |
| Text.Strip | source/112.py:195 | the result is the infix left after removing leading and trailing whitespace, starts and ends with non-whitespace, and everything removed is whitespace |
| Text.StripEmptyIffBlank | source/112.py:195-198 | the stripped name is empty exactly when the entry is all whitespace (the "Name required" branch) |
| Text.StripIdempotent | source/112.py:195 | stripping a stripped name changes nothing |
| Text.LexLeTotal | source/112.py:511 | Python's string order compares any two names |
| Text.LexLeAntisymmetric | source/112.py:511 | two names ordered both ways are equal |
| Text.LexLeTransitive | source/112.py:511 | the string order is transitive |
| Text.Insert | source/112.py:511 | inserting into a sorted list gives a sorted list with the same elements plus the new one |
| Text.Sort | source/112.py:511 | `sorted(...)` is ascending and a permutation of its input |
| Text.SortSameElements | source/112.py:511 | the sorted names are exactly the keys, as many of them as keys |
| Text.SortKeepsNoDup | source/100.py:269 | the sorted key list repeats no name |
| Dicts.Dict.Put | source/112.py:463 | `d[k] = v` sets the entry; an existing key keeps its place, a new key goes last |
| Dicts.Dict.Del | source/112.py:484 | `del d[k]` removes the entry and the key from the order |
| Dicts.Empty | source/112.py:440 | `{}` is a valid, empty dict |
| Dicts.SameKeysValid | source/112.py:557-561 | proof step: changing the values under existing keys, as the win and loss counters do, keeps the dict well formed |
| Dicts.PutThenDelFresh | source/112.py:459-486 | inserting a fresh key and deleting it restores the dict, order included |
| Board.PickedMembers | source/100.py:276-282 | the duplicate list holds exactly the non-empty values on the board |
| Board.SelectedMembers | source/112.py:496-505 | `selected_set` holds exactly the non-empty values on the board |
| Board.FilledFull | source/112.py:503-509 | one side's list has five names exactly when all five of its fields are non-empty |
| Board.OnBoardLast | source/112.py:500-502 | proof step: a value is on the board exactly when it is in an earlier lane or in the last lane's fields |
| Board.DistinctLast | source/100.py:277-282 | proof step: a board without repeats, split at its last lane |
| Board.DisjointIffApart | source/100.py:277-282 | the earlier lanes' names and the last lane's names are disjoint exactly when no earlier field holds one of the last lane's values |
| Board.LaneNamesNoDup | source/100.py:280-282 | one lane's names repeat exactly when red and blue hold the same non-empty value |
| Board.PickedNoDupIffDistinct | source/100.py:276-285 | the duplicate list has no repeat exactly when no non-empty value sits in two fields |
| Board.Offer | source/112.py:268-275 | a name is offered iff it is in the sorted list and is unselected or is this field's current value; the list never grows |
| Board.OfferSorted | source/112.py:511-514 | filtering the sorted name list keeps it sorted |
| Board.OptionsSpec | source/112.py:268-275 | after the leading `""`, a field is offered exactly the roster names that are its own value or sit in no field |
| Board.ChoiceKeepsDistinct | source/112.py:268-275 | picking from a field's filtered options never puts one name in two fields |
| Balance.SliderScores | source/112.py:200 | the scores dict has exactly the five role keys, in role order, each 0..10 |
| Balance.StrictTierBands | source/112.py:277-296 | 1.1.x tier: danger iff both names resolve and the gap is at least 4, warn iff both resolve and the gap is 2 or 3, otherwise neutral |
| Balance.LooseTierBands | source/101.py:162-181 | 1.0.x tier: the same bands whenever both values are non-empty, an unresolved name scoring 0 |
| Balance.TiersIgnoreSides | source/112.py:287-288 | swapping red and blue does not change the tier |
| Balance.StrictVersusLoose | source/100.py:164-179 | the two tier rules agree on resolved names; with a stale red name the 1.0.x rule colours the lane against a score of 0 while the 1.1.x rule stays neutral |
| Balance.StrictDisplayConsistent | source/112.py:277-296 | 1.1.x lane (also source/110.py:217-236): a number is shown iff the name resolves, a dash forces a neutral border, two numbers give the tier of their difference |
| Balance.FilledDisplayConsistent | source/101.py:162-181 | 1.0.1 lane: a number for every non-empty value, 0 for a stale name on either side, and the border agrees with the two numbers shown |
| Balance.EarlyDisplayStale | source/100.py:147-179 | 1.0.0 lane: numbers only for resolved names, but a stale name on either side still colours the border as a score of 0, two stale names as a gap of 0; an empty field means neutral |
| Balance.StaleNameOnTop | source/100.py:147-179 | "Alice" (TOP 8) against a deleted "Bob": 8/-/neutral in 1.1.x, 8/0/danger in 1.0.1, 8/-/danger in 1.0.0 |
| Balance.PowerBounds | source/112.py:516-527 | with slider scores, a side's power lies between 0 and 10 per lane |
| Balance.PowerSetSlot | source/112.py:516-527 | changing one field moves its side's power by exactly that field's score change and leaves the other side's power unchanged |
| Roster.AddSpec | source/112.py:459-463 | adding a present name changes nothing; a new name is inserted last with that player, and every other entry is kept |
| Roster.AddThenDelete | source/112.py:459-486 | adding a new name and then deleting it gives back the roster |
| Roster.DeleteSpec | source/112.py:481-486 | deleting removes exactly that key and keeps every other entry and the others' order |
| Roster.EditSpec | source/112.py:468-476 | a rename onto another existing key changes nothing; otherwise the original key goes, the new name maps to the new player, and every other entry is kept |
| Roster.EditMovesLast | source/112.py:473-476 | an accepted edit deletes and re-inserts, so the edited player moves to the end of the dict order |
| Records.Build | source/112.py:440-447 | the external load by itself |
| Records.LoadInto | source/112.py:581-584 | the in-place load by itself |
| Records.BuildAgreesWithLoadInto | source/112.py:440-447 | when every record converts, both loads store the same dict; otherwise both report the same error |
| Records.BuildFailsIff | source/112.py:442-444 | a load fails exactly when some record fails to convert |
| Records.FirstFailure | source/112.py:581-584 | with a failing record after good ones, the fresh load fails outright while the in-place load keeps what the good records stored |
| Records.SaveKeys | source/112.py:571 | one record per key, in the given order |
| Records.PrefixStep | source/112.py:571 | proof step: storing the next key of a dict extends the stored prefix by one key |
| Records.BuildSuffix | source/112.py:571 | proof step: loading the rest of a saved dict onto its stored prefix gives the dict |
| Records.SaveThenBuild | source/112.py:570-576 | when `from_dict` inverts `to_dict`, loading the saved file into an empty roster gives the roster back, order included |
| Combos.CollectSelected | source/110.py:380-385 | the first loop builds exactly the selected set: the non-empty values on the board |
| Combos.CollectSides | source/112.py:496-509 | the first loop also lists each side's non-empty values |
| Combos.LaneOptions | source/112.py:513-514 | every lane's red and blue option lists, computed from the sorted names and the selected set |
| Combos.Totals | source/112.py:516-527 | the totals loop computes each side's power |
| Combos.GateIffAllFilled | source/112.py:533-536 | the record button is enabled exactly when all ten fields are non-empty, roster keys or not |
| V112.FromDict | source/112.py:55-64 | fails exactly when `name` or `scores` is missing, reporting `name` first |
| V112.RoundTrip | source/112.py:45-64 | `from_dict(to_dict(p))` gives back name, scores, both roles, wins and losses |
| V112.FromDictDefaults | source/112.py:55-64 | missing roles default to "선택 안함", missing wins and losses to 0 |
| V112.SavePlayer | source/112.py:194-215 | rejects an all-whitespace name; otherwise the player has the stripped name, the slider scores, both roles and the edited player's wins and losses (0/0 for a new one); a non-empty original name makes it an edit |
| V112.EditKeepsRecord | source/112.py:203-214 | editing an entry through the dialog keeps its wins and losses under the new name, and a rename drops the old key |
| V112.Credit | source/112.py:557-561 | one counter update keeps the roster's keys |
| V112.AllKeysPrefix | source/112.py:551-553 | proof step: the first lanes of a board whose names are all keys have names that are all keys |
| V112.CommitLanes | source/112.py:550-561 | the commit keeps the roster's keys |
| V112.CommitLanesStep | source/112.py:552-561 | proof step: one more lane of the loop is one credit for the red name and then one for the blue name |
| V112.CreditAt | source/112.py:557-561 | proof step: one update adds one win or one loss to the credited player only |
| V112.CommitStep | source/112.py:551-561 | proof step: the last lane adds one win for a winning-side field and one loss for a losing-side field holding the name |
| V112.TallyTwice | source/112.py:557-561 | proof step: two updates of the same player add up |
| V112.CommitCounts | source/112.py:550-561 | after the commit each player has one more win per winning-side field and one more loss per losing-side field holding their name, and nothing else about them changes |
| V112.CountAbsent | source/112.py:551-553 | a name in no field of a side is counted 0 times there |
| V112.CountOnce | source/112.py:551-553 | a name in exactly one field of a side is counted once there |
| V112.OnlyThere | source/112.py:268-275 | proof step: on a board without repeats a name sits in one field only |
| V112.CommitWinner | source/112.py:550-561 | with ten distinct names, the player in a winning field gains exactly one win and nothing else |
| V112.CommitLoser | source/112.py:550-561 | with ten distinct names, the player in a losing field gains exactly one loss and nothing else |
| V112.CommitOffBoard | source/112.py:550-561 | a player in no field is unchanged by the commit |
| V112.DeletedIsStale | source/112.py:481-486 | a deleted player is offered to no field and scores nothing, even in a field that still holds the name |
| V112.LoadPathsDiffer | source/112.py:440-447 | a file with a good record "A" and a record missing `name`: the external load fails, while the in-place load keeps "A" |
| V112.SaveThenLoad | source/112.py:570-588 | what `save_data` writes loads back unchanged by both loads |
| V112.TeamBuilderApp.constructor | source/112.py:331-332 | an empty roster and ten empty fields, before `load_data` (modelled by `LoadData`) runs |
| V112.TeamBuilderApp.Choose | source/112.py:268-275 | a field takes a value from its options; the board stays free of repeats and the roster is unchanged |
| V112.TeamBuilderApp.AddPlayer | source/112.py:459-466 | refuses an existing name without change; otherwise the roster is `Add` of the old one and the board is unchanged |
| V112.TeamBuilderApp.EditPlayer | source/112.py:468-479 | refuses a rename onto another existing name without change; otherwise the roster is `Edit` of the old one |
| V112.TeamBuilderApp.DeletePlayer | source/112.py:481-486 | a name that is a key is deleted, giving `Delete` of the old roster; the card passes its record's `name` (source/112.py:315), and one that is no key raises `KeyError` and leaves the roster unchanged; board fields keep the name |
| V112.TeamBuilderApp.RefreshCombos | source/112.py:495-536 | every field's filtered option list, both powers, and the record gate iff all ten fields are non-empty |
| V112.TeamBuilderApp.CommitResult | source/112.py:550-561 | the roster becomes `CommitLanes` of the old one, same dict order; only the roster field is written, so the board is unchanged |
| V112.TeamBuilderApp.SaveData | source/112.py:570-576 | one record per roster key, in dict order, each converting back to its entry |
| V112.TeamBuilderApp.LoadExternal | source/112.py:433-457 | the roster is replaced by the fresh load exactly when the file parses and every record converts; otherwise it is unchanged |
| V112.TeamBuilderApp.LoadData | source/112.py:578-588 | the records are stored one by one into the current roster; a failure keeps what was stored before it |
| V110.FromDict | source/110.py:43-50 | fails exactly when `name` or `scores` is missing, reporting `name` first |
| V110.RoundTrip | source/110.py:35-50 | `from_dict(to_dict(p))` gives back name, scores and both roles |
| V110.FromDictDefaults | source/110.py:43-50 | missing roles default to "선택 안함" |
| V110.SavePlayer | source/110.py:146-163 | rejects an all-whitespace name; otherwise the player has the stripped name, the slider scores and both roles; a non-empty original name makes it an edit |
| V110.CardTextCases | source/110.py:244-252 | the card shows the bare name iff both roles are unset, otherwise the name and the set roles in parentheses, joined by ", " |
| V110.TeamBuilderApp.constructor | source/110.py:276-277 | an empty roster and ten empty fields, before `load_data` (modelled by `LoadData`) runs |
| V110.TeamBuilderApp.Choose | source/110.py:208-215 | a field takes a value from its options; the board stays free of repeats |
| V110.TeamBuilderApp.AddPlayer | source/110.py:342-349 | refuses an existing name without change; otherwise the roster is `Add` of the old one |
| V110.TeamBuilderApp.EditPlayer | source/110.py:351-362 | refuses a rename onto another existing name without change; otherwise the roster is `Edit` of the old one |
| V110.TeamBuilderApp.DeletePlayer | source/110.py:364-369 | a name that is a key is deleted, giving `Delete` of the old roster; the card passes its record's `name` (source/110.py:260), and one that is no key raises `KeyError` and leaves the roster unchanged |
| V110.TeamBuilderApp.UpdateListUi | source/110.py:371-377 | one card per participant in name order, each with that player's card text |
| V110.TeamBuilderApp.RefreshCombos | source/110.py:379-406 | every field's filtered option list and both powers |
| V110.TeamBuilderApp.SaveData | source/110.py:408-414 | one record per roster key, in dict order, each converting back to its entry |
| V110.TeamBuilderApp.LoadData | source/110.py:416-426 | records are stored one by one into the current roster; a failure keeps what was stored before it |
| V110.SaveThenLoad | source/110.py:408-426 | what `save_data` writes loads back unchanged |
| V101.SavePlayer | source/101.py:96-105 | rejects an all-whitespace name; otherwise the player has the stripped name and exactly the five role keys with the slider values |
| V101.TeamBuilderApp.constructor | source/101.py:203-204 | an empty roster and ten empty fields, before `load_data` runs |
| V101.TeamBuilderApp.Choose | source/101.py:153-160 | a field takes a value from its filtered options; the board stays free of repeats |
| V101.TeamBuilderApp.AddPlayer | source/101.py:249-256 | refuses an existing name without change; otherwise the roster is `Add` of the old one |
| V101.TeamBuilderApp.DeletePlayer | source/101.py:258-263 | the roster is `Delete` of the old one |
| V101.TeamBuilderApp.RefreshCombos | source/101.py:271-282 | every field's filtered option list |
| V100.FromDict | source/100.py:31-32 | fails exactly when `name` or `scores` is missing, reporting `name` first |
| V100.RoundTrip | source/100.py:27-32 | `from_dict(to_dict(p))` gives back name and scores (the same code is at source/101.py:31-36) |
| V100.ReadAll | source/100.py:81-87 | proof step: when all five spinboxes read a value in 0..10, the `scores` dict holds those values under the five role keys, each in 0..10 |
| V100.SavePlayer | source/100.py:75-94 | rejects an empty stripped name or any spinbox that cannot be read or is outside 0..10; on success the scores have exactly the five role keys, the spinbox values, all in 0..10 |
| V100.DropdownOptionsSpec | source/100.py:134-141 | after the leading `""`, every roster key once, in dict order, also when it already sits in another field |
| V100.UnfilteredAllowsRepeat | source/100.py:134-141 | choosing "A" on both sides of a lane is allowed and gives a board with a repeat |
| V100.SaveThenLoad | source/100.py:288-306 | what `save_data` writes, read back record by record into an empty roster, is the roster |
| V100.TeamBuilderApp.constructor | source/100.py:193-194 | an empty roster, empty fields and an empty listbox, before `load_data` runs |
| V100.TeamBuilderApp.Choose | source/100.py:134-141 | a field takes any value of the unfiltered list |
| V100.TeamBuilderApp.UpdateListbox | source/100.py:267-270 | the listbox shows exactly the roster names, ascending, each once |
| V100.TeamBuilderApp.AddPlayer | source/100.py:247-254 | refuses an existing name without change; otherwise the roster is `Add` of the old one and the listbox is rebuilt |
| V100.TeamBuilderApp.DeletePlayer | source/100.py:256-265 | without a selection nothing changes; otherwise the selected row's name, a roster key, is deleted and the listbox rebuilt |
| V100.TeamBuilderApp.RefreshCombos | source/100.py:272-274 | every lane gets the same unfiltered option list |
| V100.TeamBuilderApp.CheckDuplicates | source/100.py:276-285 | warns exactly when some non-empty name sits in two fields; the board is only read |
| Compat.OldRecordInNewest | source/112.py:55-64 | a 1.0.x record loads in 1.1.2 with both roles unset and 0 wins and losses |
| Compat.RoleRecordInNewest | source/112.py:55-64 | a 1.1.0 record loads in 1.1.2 keeping its roles, with 0 wins and losses |
| Compat.NewestRecordInOlder | source/100.py:31-32 | a 1.1.2 record loads in 1.0.0 and in 1.1.0, which ignore the keys they do not know |

## Left out

- Widget construction, layout, colours, fonts, the language toggle and the appearance mode: these are GUI library calls with no logic.
- Message boxes and file dialogs: a rejecting box is "return without change", a confirmation is its confirmed branch, and a cancelled file dialog is the same as an unparsable file.
- File and JSON I/O (`open`, `json.load`, `json.dump`, `os.path.exists`, printing a save error): the model starts from an already parsed file. Values of the wrong JSON type are not modelled, only missing keys.
- `HistoryWindow` (source/112.py:66-106): it computes float win rates and formats them as percentages.
- Aliasing between `LaneRow.players_dict` and the roster. After the external load (source/112.py:447) the lanes keep reading the old dict. The model lets every lane read the current roster.
- Event wiring (`on_select` calling `update_ui` and the app callback), and the refreshing and saving each callback does after changing the roster.
- `load_data` of 1.0.0 and 1.0.1 (source/100.py:296-306, source/101.py:292-302) runs the same in-place loop as 1.1.0's `LoadData`. It is not repeated as a method. `V100.SaveThenLoad` states its round trip through `Records.LoadInto`.
- `update_list_ui` of 1.0.1 and 1.1.2, and the 1.1.2 `PlayerCard`, which also hides the role "None": only the 1.1.0 cards are modelled.
- `Balance.Readable`: a resolved name whose `scores` lacks the lane's role raises `KeyError` in the source, and the model requires that this never happens.
- `V112.TeamBuilderApp.CommitResult`: its `requires` asks that all ten fields are roster keys. The source indexes the roster directly and would raise `KeyError` part-way through.
- `Records.Document`: a parsed JSON object holds each key once, since `json.load` keeps only the last of repeated keys. The document type does not rule out repeats. On such a document the loads treat every occurrence as a record of its own, so a bad earlier copy still fails the load. The model's lemmas are meant for documents that `json.load` can produce, and every document the application saves has distinct keys.
- Integer widths: scores, powers and counters are unbounded integers, as Python's are.
