/** The participants file once `json.load` has parsed it: a dict from key to
    player record, each record a dict whose fields may be missing. Reading
    such a document into the roster, and writing the roster back out. */
module Records {
  import opened Common
  import opened Dicts
  import opened Balance

  /** One `p_data` dict; `None` is a key the record does not have. */
  datatype PlayerRecord = PlayerRecord(
    name: Option<string>,
    scores: Option<Scores>,
    mainRole: Option<string>,
    subRole: Option<string>,
    wins: Option<int>,
    losses: Option<int>)

  /** `from_dict` indexing a key the record lacks: `KeyError(key)`. */
  datatype LoadError = MissingKey(key: string)

  /** `data.items()` of the parsed file, in file order. */
  type Document = seq<(string, PlayerRecord)>

  /** The loop `for name, p_data in data.items(): target[name] = from_dict(p_data)`
      run against `target = acc`, where the first failing record aborts the
      whole load: the result of the external load, which fills a fresh dict. */
  function Build<P>(acc: Dict<P>, doc: Document, conv: PlayerRecord -> Result<P, LoadError>): (r: Result<Dict<P>, LoadError>)
    requires acc.Valid()
    ensures r.Ok? ==> r.value.Valid()
    ensures r.Ok? ==> forall k :: k in acc.entries ==> k in r.value.entries
    decreases |doc|
  {
    if doc == [] then Ok(acc)
    else
      match conv(doc[0].1)
      case Err(e) => Err(e)
      case Ok(p) => Build(acc.Put(doc[0].0, p), doc[1..], conv)
  }

  /** The same loop run in place on `acc`: a failing record stops it, and what
      was stored before stays stored. The second half is the error, if any. */
  function LoadInto<P>(acc: Dict<P>, doc: Document, conv: PlayerRecord -> Result<P, LoadError>): (r: (Dict<P>, Option<LoadError>))
    requires acc.Valid()
    ensures r.0.Valid()
    ensures forall k :: k in acc.entries ==> k in r.0.entries
    decreases |doc|
  {
    if doc == [] then (acc, None)
    else
      match conv(doc[0].1)
      case Err(e) => (acc, Some(e))
      case Ok(p) => LoadInto(acc.Put(doc[0].0, p), doc[1..], conv)
  }

  /** When every record converts, both loops store the same dict; when one
      fails, both report the same error. */
  lemma {:induction false} BuildAgreesWithLoadInto<P>(acc: Dict<P>, doc: Document, conv: PlayerRecord -> Result<P, LoadError>)
    requires acc.Valid()
    ensures Build(acc, doc, conv).Ok? ==> LoadInto(acc, doc, conv) == (Build(acc, doc, conv).value, None)
    ensures Build(acc, doc, conv).Err? ==> LoadInto(acc, doc, conv).1 == Some(Build(acc, doc, conv).error)
    decreases |doc|
  {
    if doc != [] {
      match conv(doc[0].1)
      case Err(e) =>
      case Ok(p) => BuildAgreesWithLoadInto(acc.Put(doc[0].0, p), doc[1..], conv);
    }
  }

  /** A load fails exactly when some record fails to convert. */
  lemma {:induction false} BuildFailsIff<P>(acc: Dict<P>, doc: Document, conv: PlayerRecord -> Result<P, LoadError>)
    requires acc.Valid()
    ensures Build(acc, doc, conv).Err? <==> exists i :: 0 <= i < |doc| && conv(doc[i].1).Err?
    decreases |doc|
  {
    if doc != [] {
      match conv(doc[0].1)
      case Err(e) =>
      case Ok(p) =>
        BuildFailsIff(acc.Put(doc[0].0, p), doc[1..], conv);
        if exists i :: 0 <= i < |doc| && conv(doc[i].1).Err? {
          var i :| 0 <= i < |doc| && conv(doc[i].1).Err?;
          assert i > 0;
          assert doc[1..][i - 1] == doc[i];
        }
        if exists i :: 0 <= i < |doc[1..]| && conv(doc[1..][i].1).Err? {
          var i :| 0 <= i < |doc[1..]| && conv(doc[1..][i].1).Err?;
          assert doc[i + 1] == doc[1..][i];
        }
    }
  }

  /** With a good prefix, a bad record and anything after it: the fresh load
      fails outright, while the in-place load keeps exactly what the good
      prefix stored. */
  lemma {:induction false} FirstFailure<P>(acc: Dict<P>, pre: Document, bad: (string, PlayerRecord), rest: Document,
                                           conv: PlayerRecord -> Result<P, LoadError>)
    requires acc.Valid()
    requires forall i :: 0 <= i < |pre| ==> conv(pre[i].1).Ok?
    requires conv(bad.1).Err?
    ensures Build(acc, pre, conv).Ok?
    ensures Build(acc, pre + [bad] + rest, conv) == Err(conv(bad.1).error)
    ensures LoadInto(acc, pre + [bad] + rest, conv) == (Build(acc, pre, conv).value, Some(conv(bad.1).error))
    decreases |pre|
  {
    if pre != [] {
      var p := conv(pre[0].1).value;
      assert forall i :: 0 <= i < |pre[1..]| ==> conv(pre[1..][i].1).Ok? by {
        forall i | 0 <= i < |pre[1..]| ensures conv(pre[1..][i].1).Ok? {
          assert pre[1..][i] == pre[i + 1];
        }
      }
      FirstFailure(acc.Put(pre[0].0, p), pre[1..], bad, rest, conv);
      SplitAfterHead(pre, bad, rest);
    } else {
      assert pre + [bad] + rest == [bad] + rest;
    }
  }

  lemma SplitAfterHead<T>(pre: seq<T>, bad: T, rest: seq<T>)
    requires pre != []
    ensures (pre + [bad] + rest)[0] == pre[0]
    ensures (pre + [bad] + rest)[1..] == pre[1..] + [bad] + rest
  {
  }

  // ---------------------------------------------------------------------
  // Saving: `{name: p.to_dict() for name, p in participants.items()}`.

  /** The records of the given keys, in that order. */
  function SaveKeys<P>(ks: seq<string>, entries: map<string, P>, enc: P -> PlayerRecord): (doc: Document)
    requires forall k :: k in ks ==> k in entries
    ensures |doc| == |ks|
    ensures forall i :: 0 <= i < |ks| ==> doc[i] == (ks[i], enc(entries[ks[i]]))
  {
    if ks == [] then [] else [(ks[0], enc(entries[ks[0]]))] + SaveKeys(ks[1..], entries, enc)
  }

  /** The document `save_data` writes: every entry's record, in dict order. */
  function Save<P>(d: Dict<P>, enc: P -> PlayerRecord): (doc: Document)
    requires d.Valid()
  {
    SaveKeys(d.order, d.entries, enc)
  }

  /** The first i keys of `d`, as `d` had them. */
  ghost function Prefix<P>(d: Dict<P>, i: nat): (r: Dict<P>)
    requires d.Valid() && i <= |d.order|
    ensures r.Valid()
  {
    var ks := d.order[..i];
    assert NoDup(ks) by {
      forall a, b | 0 <= a < b < |ks| ensures ks[a] != ks[b] { assert ks[a] == d.order[a] && ks[b] == d.order[b]; }
    }
    Dict(ks, map k | k in ks :: d.entries[k])
  }

  lemma PrefixStep<P>(d: Dict<P>, i: nat)
    requires d.Valid() && i < |d.order|
    ensures Prefix(d, i).Put(d.order[i], d.entries[d.order[i]]) == Prefix(d, i + 1)
  {
    var k := d.order[i];
    assert d.order[..i + 1] == d.order[..i] + [k];
    assert k !in d.order[..i] by {
      forall j | 0 <= j < i ensures d.order[..i][j] != k { assert d.order[..i][j] == d.order[j]; }
    }
  }

  lemma {:induction false} BuildSuffix<P>(d: Dict<P>, i: nat, enc: P -> PlayerRecord, conv: PlayerRecord -> Result<P, LoadError>)
    requires d.Valid() && i <= |d.order|
    requires forall p :: conv(enc(p)) == Ok(p)
    ensures Build(Prefix(d, i), SaveKeys(d.order[i..], d.entries, enc), conv) == Ok(d)
    decreases |d.order| - i
  {
    var doc := SaveKeys(d.order[i..], d.entries, enc);
    if i == |d.order| {
      assert d.order[..i] == d.order;
      assert Prefix(d, i) == d;
      assert doc == [];
    } else {
      var k := d.order[i];
      assert doc[0] == (k, enc(d.entries[k]));
      assert d.order[i..][1..] == d.order[i + 1..];
      assert doc[1..] == SaveKeys(d.order[i + 1..], d.entries, enc);
      assert conv(doc[0].1) == Ok(d.entries[k]);
      PrefixStep(d, i);
      BuildSuffix(d, i + 1, enc, conv);
    }
  }

  /** Saving the roster and loading the file into an empty roster gives back
      the same roster, order included, whenever `from_dict` inverts `to_dict`. */
  lemma SaveThenBuild<P>(d: Dict<P>, enc: P -> PlayerRecord, conv: PlayerRecord -> Result<P, LoadError>)
    requires d.Valid()
    requires forall p :: conv(enc(p)) == Ok(p)
    ensures Build(Empty(), Save(d, enc), conv) == Ok(d)
  {
    BuildSuffix(d, 0, enc, conv);
    assert d.order[0..] == d.order;
    assert Prefix(d, 0) == Empty();
  }
}
