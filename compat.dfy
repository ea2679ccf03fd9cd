/** Reading one version's participants file with another version's
    `from_dict`: the file format only ever gained keys. */
module Compat {
  import opened Common
  import V100
  import V110
  import V112

  /** A 1.0.x record loads in 1.1.2 with both roles unset and no games. */
  lemma OldRecordInNewest(p: V100.Player)
    ensures V112.FromDict(V100.ToDict(p)) == Ok(V112.Player(p.name, p.scores, V112.Unset, V112.Unset, 0, 0))
  {
  }

  /** A 1.1.0 record loads in 1.1.2 keeping its roles, with no games. */
  lemma RoleRecordInNewest(p: V110.Player)
    ensures V112.FromDict(V110.ToDict(p)) == Ok(V112.Player(p.name, p.scores, p.mainRole, p.subRole, 0, 0))
  {
  }

  /** A 1.1.2 record loads in the older versions, which ignore the keys they do not know. */
  lemma NewestRecordInOlder(p: V112.Player)
    ensures V100.FromDict(V112.ToDict(p)) == Ok(V100.Player(p.name, p.scores))
    ensures V110.FromDict(V112.ToDict(p)) == Ok(V110.Player(p.name, p.scores, p.mainRole, p.subRole))
  {
  }
}
