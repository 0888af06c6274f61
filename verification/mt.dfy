/**
 * The working memory (`MemoriaDeTrabalho`): the retained DFe authorisations, a document
 * table kept in insertion order. A query `field == info` matches a record that has the
 * field with a value Python considers equal to `info`; a record without the field never
 * matches.
 */
module WorkingMemory {
  import opened Wrappers
  import opened Json

  type Record = map<string, JValue>
  type Store = seq<Record>

  /** The keys every record written by `Add` carries. */
  const Fields: set<string> := {"daf", "vsb", "mop", "pdv", "cnt", "aut", "fdf", "hdf"}

  predicate WellFormed(s: Store)
  {
    forall i :: 0 <= i < |s| ==> s[i].Keys == Fields
  }

  predicate Matches(r: Record, field: string, info: JValue)
  {
    field in r && PyEq(r[field], info)
  }

  /** Number of records matching the query. */
  function MatchCount(s: Store, field: string, info: JValue): (n: nat)
    ensures n <= |s|
  {
    if |s| == 0 then 0
    else (if Matches(s[0], field, info) then 1 else 0) + MatchCount(s[1..], field, info)
  }

  /** The index of a record that is the only one matching the query. */
  predicate UniqueMatchAt(s: Store, field: string, info: JValue, i: int)
  {
    0 <= i < |s| && Matches(s[i], field, info) &&
    forall j :: 0 <= j < |s| && j != i ==> !Matches(s[j], field, info)
  }

  /** `existe_autorizacao_DFE`: true iff exactly one record matches. */
  function Exists(s: Store, field: string, info: JValue): (b: bool)
    ensures b <==> exists i :: UniqueMatchAt(s, field, info, i)
  {
    UniqueMatch(s, field, info);
    MatchCount(s, field, info) == 1
  }

  /** The records that do not match the query, in order. */
  function Keep(s: Store, field: string, info: JValue): (r: Store)
    ensures |r| + MatchCount(s, field, info) == |s|
    ensures forall x :: x in r <==> x in s && !Matches(x, field, info)
  {
    if |s| == 0 then []
    else if Matches(s[0], field, info) then Keep(s[1..], field, info)
    else [s[0]] + Keep(s[1..], field, info)
  }

  /**
   * `remove_autorizacao_DFE`: deletes every record whose `aut` matches and reports success
   * iff exactly one was deleted.
   */
  function Remove(s: Store, idAut: JValue): (r: (Store, bool))
    ensures forall x :: x in r.0 <==> x in s && !Matches(x, "aut", idAut)
    ensures |r.0| == |s| - MatchCount(s, "aut", idAut)
    ensures r.1 <==> exists i :: UniqueMatchAt(s, "aut", idAut, i)
  {
    UniqueMatch(s, "aut", idAut);
    (Keep(s, "aut", idAut), MatchCount(s, "aut", idAut) == 1)
  }

  /** `get_autorizacao_DFE`: the first matching record, if any. */
  function Get(s: Store, field: string, info: JValue): (r: Option<Record>)
    ensures r.None? <==> MatchCount(s, field, info) == 0
    ensures r.Some? ==> exists i :: 0 <= i < |s| && s[i] == r.value && Matches(s[i], field, info) &&
                                    forall j :: 0 <= j < i ==> !Matches(s[j], field, info)
  {
    if |s| == 0 then None
    else if Matches(s[0], field, info) then Some(s[0])
    else
      var r := Get(s[1..], field, info);
      if r.Some? then
        ghost var i :| 0 <= i < |s[1..]| && s[1..][i] == r.value && Matches(s[1..][i], field, info) &&
                 forall j :: 0 <= j < i ==> !Matches(s[1..][j], field, info);
        assert s[i + 1] == r.value;
        assert forall j :: 0 <= j < i + 1 ==> !Matches(s[j], field, info) by {
          forall j | 0 <= j < i + 1
            ensures !Matches(s[j], field, info)
          {
            if j > 0 { assert s[j] == s[1..][j - 1]; }
          }
        }
        r
      else r
  }

  /** The record `add_autorizacao_DFE` builds. */
  function NewRecord(daf: JValue, mop: JValue, pdv: JValue, vsb: JValue, cnt: JValue,
                     aut: JValue, fdf: JValue, hdf: JValue): (r: Record)
    ensures r.Keys == Fields
  {
    map["daf" := daf, "vsb" := vsb, "mop" := mop, "pdv" := pdv, "cnt" := cnt,
        "aut" := aut, "fdf" := fdf, "hdf" := hdf]
  }

  /** The duplicate query of `add_autorizacao_DFE`, on the field names it uses. */
  predicate DuplicateQueryHits(s: Store, aut: JValue, cnt: JValue, hdf: JValue)
  {
    exists i :: 0 <= i < |s| &&
      (Matches(s[i], "idAut", aut) || Matches(s[i], "cont", cnt) || Matches(s[i], "hashDFE", hdf))
  }

  /** `add_autorizacao_DFE`: appends the record unless the duplicate query hits. */
  function Add(s: Store, daf: JValue, mop: JValue, pdv: JValue, vsb: JValue, cnt: JValue,
               aut: JValue, fdf: JValue, hdf: JValue): (r: (Store, bool))
    ensures r.1 ==> r.0 == s + [NewRecord(daf, mop, pdv, vsb, cnt, aut, fdf, hdf)]
    ensures !r.1 ==> r.0 == s
  {
    if DuplicateQueryHits(s, aut, cnt, hdf) then (s, false)
    else (s + [NewRecord(daf, mop, pdv, vsb, cnt, aut, fdf, hdf)], true)
  }

  /** `get_numero_de_autorizacoes_DFE`. */
  function Count(s: Store): nat
  {
    |s|
  }

  /** `get_autorizacoes_DFE`: every record, in insertion order. */
  function All(s: Store): Store
  {
    s
  }

  /** `reinicia_memoria`. */
  function Reset(): Store
  {
    []
  }

  // ---------------------------------------------------------------------------------------
  // Properties

  lemma {:induction false} NoMatch(s: Store, field: string, info: JValue)
    ensures MatchCount(s, field, info) == 0 <==> forall i :: 0 <= i < |s| ==> !Matches(s[i], field, info)
    decreases |s|
  {
    if |s| > 0 {
      NoMatch(s[1..], field, info);
      if MatchCount(s, field, info) == 0 {
        forall i | 0 <= i < |s| ensures !Matches(s[i], field, info) {
          if i > 0 { assert s[i] == s[1..][i - 1]; }
        }
      }
      if forall i :: 0 <= i < |s| ==> !Matches(s[i], field, info) {
        forall i | 0 <= i < |s[1..]| ensures !Matches(s[1..][i], field, info) {
          assert s[1..][i] == s[i + 1];
        }
      }
    }
  }

  /** Exactly one match means a unique matching index, and conversely. */
  lemma {:induction false} UniqueMatch(s: Store, field: string, info: JValue)
    ensures MatchCount(s, field, info) == 1 <==> exists i :: UniqueMatchAt(s, field, info, i)
    decreases |s|
  {
    if |s| > 0 {
      var t := s[1..];
      UniqueMatch(t, field, info);
      NoMatch(t, field, info);
      if Matches(s[0], field, info) {
        if MatchCount(s, field, info) == 1 {
          forall j | 0 <= j < |s| && j != 0 ensures !Matches(s[j], field, info) {
            assert s[j] == t[j - 1];
          }
          assert UniqueMatchAt(s, field, info, 0);
        }
        if i :| UniqueMatchAt(s, field, info, i) {
          assert i == 0;
          forall k | 0 <= k < |t| ensures !Matches(t[k], field, info) {
            assert t[k] == s[k + 1];
          }
        }
      } else {
        if MatchCount(s, field, info) == 1 {
          var k :| UniqueMatchAt(t, field, info, k);
          forall j | 0 <= j < |s| && j != k + 1 ensures !Matches(s[j], field, info) {
            if j > 0 { assert s[j] == t[j - 1]; }
          }
          assert UniqueMatchAt(s, field, info, k + 1);
        }
        if i :| UniqueMatchAt(s, field, info, i) {
          assert i > 0;
          forall j | 0 <= j < |t| && j != i - 1 ensures !Matches(t[j], field, info) {
            assert t[j] == s[j + 1];
          }
          assert UniqueMatchAt(t, field, info, i - 1);
        }
      }
    }
  }

  /** Two or more matching records make `Exists` false. */
  lemma TwoMatchesHideRecord(s: Store, field: string, info: JValue, i: int, j: int)
    requires 0 <= i < |s| && 0 <= j < |s| && i != j
    requires Matches(s[i], field, info) && Matches(s[j], field, info)
    ensures !Exists(s, field, info)
  {
  }

  /** A second removal of the same id reports failure and changes nothing. */
  lemma RemoveTwice(s: Store, idAut: JValue)
    ensures var once := Remove(s, idAut).0;
      Remove(once, idAut).1 == false && Remove(once, idAut).0 == once
  {
    var once := Remove(s, idAut).0;
    NoMatch(once, "aut", idAut);
    KeepNothing(once, "aut", idAut);
  }

  lemma {:induction false} KeepNothing(s: Store, field: string, info: JValue)
    requires MatchCount(s, field, info) == 0
    ensures Keep(s, field, info) == s
    decreases |s|
  {
    if |s| > 0 {
      KeepNothing(s[1..], field, info);
      assert s == [s[0]] + s[1..];
    }
  }

  /**
   * The duplicate query looks at keys the records never carry, so on a store of records
   * written by `Add` it never hits: every add inserts, and the count grows by one.
   */
  lemma AddAlwaysInserts(s: Store, daf: JValue, mop: JValue, pdv: JValue, vsb: JValue, cnt: JValue,
                         aut: JValue, fdf: JValue, hdf: JValue)
    requires WellFormed(s)
    ensures var r := Add(s, daf, mop, pdv, vsb, cnt, aut, fdf, hdf);
      && r.1
      && r.0 == s + [NewRecord(daf, mop, pdv, vsb, cnt, aut, fdf, hdf)]
      && Count(r.0) == Count(s) + 1
      && WellFormed(r.0)
  {
    assert "idAut" !in Fields && "cont" !in Fields && "hashDFE" !in Fields;
    assert !DuplicateQueryHits(s, aut, cnt, hdf);
    var r := Add(s, daf, mop, pdv, vsb, cnt, aut, fdf, hdf);
    assert forall i :: 0 <= i < |s| ==> r.0[i] == s[i];
  }

  /**
   * Adding the same authorisation twice keeps both copies, after which the authorisation
   * can no longer be found by `Exists` on its `aut` value.
   */
  lemma AddTwiceHidesAuthorisation(s: Store, daf: JValue, mop: JValue, pdv: JValue, vsb: JValue, cnt: JValue,
                                   aut: JValue, fdf: JValue, hdf: JValue)
    requires WellFormed(s)
    ensures var once := Add(s, daf, mop, pdv, vsb, cnt, aut, fdf, hdf).0;
      var twice := Add(once, daf, mop, pdv, vsb, cnt, aut, fdf, hdf).0;
      |twice| == |s| + 2 && !Exists(twice, "aut", aut)
  {
    AddAlwaysInserts(s, daf, mop, pdv, vsb, cnt, aut, fdf, hdf);
    var once := Add(s, daf, mop, pdv, vsb, cnt, aut, fdf, hdf).0;
    AddAlwaysInserts(once, daf, mop, pdv, vsb, cnt, aut, fdf, hdf);
    var twice := Add(once, daf, mop, pdv, vsb, cnt, aut, fdf, hdf).0;
    var rec := NewRecord(daf, mop, pdv, vsb, cnt, aut, fdf, hdf);
    assert twice[|s|] == rec && twice[|s| + 1] == rec;
    PyEqEquivalence(aut, aut, aut);
    TwoMatchesHideRecord(twice, "aut", aut, |s|, |s| + 1);
  }

  /** Removing keeps the store well formed; resetting empties it. */
  lemma RemoveKeepsWellFormed(s: Store, idAut: JValue)
    requires WellFormed(s)
    ensures WellFormed(Remove(s, idAut).0)
    ensures Count(Reset()) == 0
  {
    var r := Remove(s, idAut).0;
    forall i | 0 <= i < |r| ensures r[i].Keys == Fields {
      assert r[i] in r;
    }
  }

  /** A found record is removed by a removal of its `aut`, exactly once, shrinking the store by one. */
  lemma RemoveFound(s: Store, idAut: JValue)
    requires Exists(s, "aut", idAut)
    ensures Remove(s, idAut).1
    ensures Count(Remove(s, idAut).0) == Count(s) - 1
    ensures Get(Remove(s, idAut).0, "aut", idAut).None?
  {
    var r := Remove(s, idAut).0;
    NoMatch(r, "aut", idAut);
    forall i | 0 <= i < |r| ensures !Matches(r[i], "aut", idAut) {
      assert r[i] in r;
    }
  }

  /** Appending a record adds one match exactly when the record matches. */
  lemma {:induction false} MatchCountAppend(s: Store, r: Record, field: string, info: JValue)
    ensures MatchCount(s + [r], field, info) == MatchCount(s, field, info) + (if Matches(r, field, info) then 1 else 0)
    decreases |s|
  {
    if |s| == 0 {
      assert (s + [r])[1..] == [];
    } else {
      assert (s + [r])[1..] == s[1..] + [r];
      MatchCountAppend(s[1..], r, field, info);
    }
  }

  /** A matching record appended to a store without matches is the only one found. */
  lemma GetAppended(s: Store, r: Record, field: string, info: JValue)
    requires MatchCount(s, field, info) == 0 && Matches(r, field, info)
    ensures Get(s + [r], field, info) == Some(r)
    ensures Exists(s + [r], field, info)
  {
    NoMatch(s, field, info);
    MatchCountAppend(s, r, field, info);
    var t := s + [r];
    var i :| 0 <= i < |t| && t[i] == Get(t, field, info).value && Matches(t[i], field, info);
    if i < |s| {
      assert t[i] == s[i];
    }
  }

  /** With exactly one matching record, `Get` finds that record. */
  lemma GetUnique(s: Store, field: string, info: JValue, i: int)
    requires UniqueMatchAt(s, field, info, i)
    ensures Get(s, field, info) == Some(s[i])
  {
    UniqueMatch(s, field, info);
  }
}
