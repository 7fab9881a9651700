/** Covering the facets of a question with a limited number of candidates
    (`cover_facets` in `src/zhiqing_rag/query_retrieval/facets.py`). */
module Facets {
  import opened Text

  /** A candidate's chunk, and its score in the ranking it stands in. */
  datatype Candidate = Candidate(id: int, score: real)

  type Ranking = seq<Candidate>

  function Ids(r: Ranking): (ids: seq<int>)
    ensures |ids| == |r| && forall i | 0 <= i < |r| :: ids[i] == r[i].id
  {
    seq(|r|, i requires 0 <= i < |r| => r[i].id)
  }

  // ----- the order in which candidates are tried

  /** The candidates at place `k` of the rankings that are that long. */
  function RowAt(rankings: seq<Ranking>, k: nat): (row: Ranking)
    ensures |row| <= |rankings|
  {
    if rankings == [] then []
    else
      var before, last := RowAt(rankings[..|rankings| - 1], k), rankings[|rankings| - 1];
      if k < |last| then before + [last[k]] else before
  }

  function Longest(rankings: seq<Ranking>): (n: nat)
    ensures forall r | r in rankings :: |r| <= n
  {
    if rankings == [] then 0
    else
      var before, last := Longest(rankings[..|rankings| - 1]), |rankings[|rankings| - 1]|;
      if last > before then last else before
  }

  /** `zip_longest`: the first `n` rows one after the other. */
  function Rows(rankings: seq<Ranking>, n: nat): Ranking {
    if n == 0 then [] else Rows(rankings, n - 1) + RowAt(rankings, n - 1)
  }

  function Tried(ranked: Ranking, anchors: Ranking, facets: seq<Ranking>): Ranking {
    (((if ranked == [] then [] else [ranked[0]]) + anchors) + Rows(facets, Longest(facets))) + ranked
  }

  /** The first `limit` different ones; a limit of 0 is never met. */
  function Firsts(ids: seq<int>, limit: nat): seq<int> {
    var d := Distinct(ids);
    if 0 < limit < |d| then d[..limit] else d
  }

  // ----- the choice

  predicate DistinctIds(r: Ranking) {
    forall i, j | 0 <= i < j < |r| :: r[i].id != r[j].id
  }

  /** Every candidate of `r` is ranked. */
  predicate Within(r: Ranking, ranked: Ranking) {
    forall c | c in r :: c.id in Ids(ranked)
  }

  /** The ranked candidate with this id. */
  function Original(ranked: Ranking, id: int): (c: Candidate)
    requires id in Ids(ranked)
    ensures c in ranked && c.id == id
  {
    if ranked[|ranked| - 1].id == id then ranked[|ranked| - 1]
    else
      assert Ids(ranked) == Ids(ranked[..|ranked| - 1]) + [ranked[|ranked| - 1].id];
      Original(ranked[..|ranked| - 1], id)
  }

  /** What `cover_facets` demands of its arguments. */
  predicate Ranked(ranked: Ranking, anchors: Ranking, facets: seq<Ranking>) {
    DistinctIds(ranked) && Within(anchors, ranked) && forall facet | facet in facets :: Within(facet, ranked)
  }

  lemma {:induction false} RowsWithin(ranked: Ranking, facets: seq<Ranking>, n: nat)
    requires forall facet | facet in facets :: Within(facet, ranked)
    ensures Within(Rows(facets, n), ranked)
  {
    if n > 0 {
      RowsWithin(ranked, facets, n - 1);
      RowWithin(ranked, facets, n - 1);
    }
  }

  lemma {:induction false} RowWithin(ranked: Ranking, facets: seq<Ranking>, k: nat)
    requires forall facet | facet in facets :: Within(facet, ranked)
    ensures Within(RowAt(facets, k), ranked)
  {
    if facets != [] {
      RowWithin(ranked, facets[..|facets| - 1], k);
      assert facets[|facets| - 1] in facets;
    }
  }

  lemma {:induction false} RankedWithin(ranked: Ranking)
    ensures Within(ranked, ranked)
  {
    forall c | c in ranked
      ensures c.id in Ids(ranked)
    {
      var i :| 0 <= i < |ranked| && ranked[i] == c;
      assert Ids(ranked)[i] == c.id;
    }
  }

  lemma {:induction false} TriedWithin(ranked: Ranking, anchors: Ranking, facets: seq<Ranking>)
    requires Ranked(ranked, anchors, facets)
    ensures Within(Tried(ranked, anchors, facets), ranked)
  {
    RowsWithin(ranked, facets, Longest(facets));
    RankedWithin(ranked);
  }

  lemma {:induction false} OneMoreId(r: Ranking, k: nat)
    requires k < |r|
    ensures Distinct(Ids(r[..k + 1])) == if r[k].id in Distinct(Ids(r[..k])) then Distinct(Ids(r[..k]))
            else Distinct(Ids(r[..k])) + [r[k].id]
  {
    assert Ids(r[..k + 1]) == Ids(r[..k]) + [r[k].id];
    DistinctGrows(Ids(r[..k]), r[k].id);
  }

  /** Later candidates come after the earlier ones. */
  lemma {:induction false} DistinctExtends(a: seq<int>, b: seq<int>)
    ensures Distinct(a) <= Distinct(a + b)
  {
    if b == [] {
      assert a + b == a;
    } else {
      var last := |b| - 1;
      DistinctExtends(a, b[..last]);
      assert a + b == (a + b[..last]) + [b[last]];
      DistinctGrows(a + b[..last], b[last]);
    }
  }

  lemma {:induction false} IdsOneMore(r: Ranking, c: Candidate)
    ensures Ids(r + [c]) == Ids(r) + [c.id]
  {
  }

  /** `cover_facets`. */
  method CoverFacets(ranked: Ranking, facets: seq<Ranking>, limit: nat, anchors: Ranking) returns (chosen: Ranking)
    requires Ranked(ranked, anchors, facets)
    ensures facets == [] ==> chosen == ranked[..if limit < |ranked| then limit else |ranked|]
    ensures facets != [] ==> Ids(chosen) == Firsts(Ids(Tried(ranked, anchors, facets)), limit)
    ensures forall c | c in chosen :: c in ranked
  {
    if facets == [] {
      return ranked[..if limit < |ranked| then limit else |ranked|];
    }
    var tried := Tried(ranked, anchors, facets);
    TriedWithin(ranked, anchors, facets);
    var seen: set<int> := {};
    chosen := [];
    for k := 0 to |tried|
      invariant Ids(chosen) == Distinct(Ids(tried[..k]))
      invariant forall id :: id in seen <==> id in Ids(chosen)
      invariant forall c | c in chosen :: c in ranked
      invariant limit > 0 ==> |chosen| < limit
    {
      var candidate := tried[k];
      OneMoreId(tried, k);
      if candidate.id !in seen {
        seen := seen + {candidate.id};
        assert candidate in tried;
        IdsOneMore(chosen, Original(ranked, candidate.id));
        chosen := chosen + [Original(ranked, candidate.id)];
        if |chosen| == limit {
          StopsHere(tried, k + 1, Ids(chosen), limit);
          return;
        }
      }
    }
    assert tried[..|tried|] == tried;
  }

  lemma {:induction false} StopsHere(tried: Ranking, k: nat, ids: seq<int>, limit: nat)
    requires k <= |tried| && ids == Distinct(Ids(tried[..k])) && |ids| == limit > 0
    ensures ids == Firsts(Ids(tried), limit)
  {
    assert Ids(tried) == Ids(tried[..k]) + Ids(tried[k..]);
    DistinctExtends(Ids(tried[..k]), Ids(tried[k..]));
  }

  // ----- what is covered

  /** What is tried among the first `limit` is chosen. */
  lemma {:induction false} EarlyIsChosen(ids: seq<int>, p: nat, limit: nat)
    requires p < |ids| && (limit == 0 || p < limit)
    ensures ids[p] in Firsts(ids, limit)
  {
    var upto, rest := ids[..p + 1], ids[p + 1..];
    assert ids == upto + rest;
    DistinctExtends(upto, rest);
    DistinctKeeps(upto);
    assert ids[p] in upto;
    var i :| 0 <= i < |Distinct(upto)| && Distinct(upto)[i] == ids[p];
    assert Distinct(ids)[i] == ids[p];
    if 0 < limit < |Distinct(ids)| {
      assert Distinct(ids)[..limit][i] == ids[p];
    }
  }

  /** `n` times `k`, counted row by row. */
  function Times(n: nat, k: nat): nat {
    if k == 0 then 0 else Times(n, k - 1) + n
  }

  lemma {:induction false} TimesIsProduct(n: nat, k: nat)
    ensures Times(n, k) == n * k
  {
    if k > 0 {
      TimesIsProduct(n, k - 1);
      OneMore(n, k - 1);
    }
  }

  lemma {:induction false} OneMore(n: nat, k: nat)
    ensures n * (k + 1) == n * k + n
  {
  }

  lemma {:induction false} TimesGrows(n: nat, a: nat, b: nat)
    requires a <= b
    ensures Times(n, a) <= Times(n, b)
  {
    if a < b {
      TimesGrows(n, a, b - 1);
    }
  }

  lemma {:induction false} RowsLength(rankings: seq<Ranking>, n: nat)
    ensures |Rows(rankings, n)| <= Times(|rankings|, n)
  {
    if n > 0 {
      RowsLength(rankings, n - 1);
    }
  }

  lemma {:induction false} RowHas(rankings: seq<Ranking>, facet: nat, k: nat)
    requires facet < |rankings| && k < |rankings[facet]|
    ensures rankings[facet][k] in RowAt(rankings, k)
  {
    if facet < |rankings| - 1 {
      RowHas(rankings[..|rankings| - 1], facet, k);
    }
  }

  lemma {:induction false} RowsExtend(rankings: seq<Ranking>, m: nat, n: nat)
    requires m <= n
    ensures Rows(rankings, m) <= Rows(rankings, n)
  {
    if m < n {
      RowsExtend(rankings, m, n - 1);
    }
  }

  lemma {:induction false} PlaceIn(before: Ranking, row: Ranking, all: Ranking, c: Candidate) returns (p: nat)
    requires before + row <= all && c in row
    ensures p < |before| + |row| <= |all| && all[p] == c
  {
    var i :| 0 <= i < |row| && row[i] == c;
    p := |before| + i;
    assert (before + row)[p] == c;
  }

  /** Where the `k`-th of a facet is tried. */
  lemma {:induction false} PlaceInRows(rankings: seq<Ranking>, facet: nat, k: nat, n: nat) returns (p: nat)
    requires facet < |rankings| && k < |rankings[facet]| && k < n
    ensures p < |Rows(rankings, n)| && p < Times(|rankings|, k + 1) && Rows(rankings, n)[p] == rankings[facet][k]
  {
    RowHas(rankings, facet, k);
    RowsLength(rankings, k + 1);
    RowsExtend(rankings, k + 1, n);
    p := PlaceIn(Rows(rankings, k), RowAt(rankings, k), Rows(rankings, n), rankings[facet][k]);
  }

  /** With room for the best candidate, the anchors and `j` of every facet, the best `j` of every
      facet are chosen. */
  lemma {:induction false} TopOfEveryFacet(ranked: Ranking, facets: seq<Ranking>, limit: nat, anchors: Ranking,
                                           j: nat, facet: nat, k: nat)
    requires Ranked(ranked, anchors, facets) && facet < |facets| && k < j && k < |facets[facet]|
    requires limit >= 1 + |anchors| + |facets| * j
    ensures facets[facet][k].id in Firsts(Ids(Tried(ranked, anchors, facets)), limit)
  {
    var n := Longest(facets);
    assert facets[facet] in facets;
    var p := PlaceInRows(facets, facet, k, n);
    var place := TriedPlace(ranked, anchors, facets, p);
    TimesGrows(|facets|, k + 1, j);
    TimesIsProduct(|facets|, j);
    EarlyIsChosen(Ids(Tried(ranked, anchors, facets)), place, limit);
  }

  /** The rows are tried after the best candidate and the anchors. */
  lemma {:induction false} TriedPlace(ranked: Ranking, anchors: Ranking, facets: seq<Ranking>, p: nat)
      returns (place: nat)
    requires p < |Rows(facets, Longest(facets))|
    ensures place < |Tried(ranked, anchors, facets)| && place <= 1 + |anchors| + p
    ensures Tried(ranked, anchors, facets)[place] == Rows(facets, Longest(facets))[p]
  {
    place := (if ranked == [] then 0 else 1) + |anchors| + p;
  }

  lemma {:induction false} FirstIsFirst(ids: seq<int>, limit: nat)
    requires ids != []
    ensures Firsts(ids, limit) != [] && Firsts(ids, limit)[0] == ids[0]
  {
    assert ids == [ids[0]] + ids[1..];
    DistinctExtends([ids[0]], ids[1..]);
    assert [ids[0]][..0] == [];
    assert Distinct([ids[0]]) == [ids[0]];
  }

  /** The best candidate comes first. */
  lemma {:induction false} BestFirst(ranked: Ranking, facets: seq<Ranking>, limit: nat, anchors: Ranking)
    requires ranked != []
    ensures var ids := Firsts(Ids(Tried(ranked, anchors, facets)), limit); ids != [] && ids[0] == ranked[0].id
  {
    FirstIsFirst(Ids(Tried(ranked, anchors, facets)), limit);
  }

  /** With room for them after the best candidate, the anchors are chosen. */
  lemma {:induction false} AnchorsChosen(ranked: Ranking, facets: seq<Ranking>, limit: nat, anchors: Ranking, i: nat)
    requires i < |anchors| && limit >= 1 + |anchors|
    ensures anchors[i].id in Firsts(Ids(Tried(ranked, anchors, facets)), limit)
  {
    var place := (if ranked == [] then 0 else 1) + i;
    assert Tried(ranked, anchors, facets)[place] == anchors[i];
    EarlyIsChosen(Ids(Tried(ranked, anchors, facets)), place, limit);
  }

  lemma {:induction false} SameIdsTried(ranked: Ranking, facets: seq<Ranking>, anchors: Ranking, id: int)
    requires Ranked(ranked, anchors, facets)
    ensures id in Ids(Tried(ranked, anchors, facets)) <==> id in Ids(ranked)
  {
    var tried := Tried(ranked, anchors, facets);
    TriedWithin(ranked, anchors, facets);
    if id in Ids(tried) {
      var i :| 0 <= i < |tried| && Ids(tried)[i] == id;
      assert tried[i] in tried;
    }
    if id in Ids(ranked) {
      var i :| 0 <= i < |ranked| && Ids(ranked)[i] == id;
      assert Ids(tried)[|tried| - |ranked| + i] == id;
    }
  }

  /** As many are chosen as the limit and the ranking allow, and none twice. */
  lemma {:induction false} FilledUp(ranked: Ranking, facets: seq<Ranking>, limit: nat, anchors: Ranking)
    requires Ranked(ranked, anchors, facets) && limit > 0
    ensures var ids := Firsts(Ids(Tried(ranked, anchors, facets)), limit);
            && |ids| == (if limit < |ranked| then limit else |ranked|)
            && forall i, j | 0 <= i < j < |ids| :: ids[i] != ids[j]
  {
    var ids := Ids(Tried(ranked, anchors, facets));
    DistinctKeeps(ids);
    forall id
      ensures id in Distinct(ids) <==> id in Ids(ranked)
    {
      SameIdsTried(ranked, facets, anchors, id);
    }
    SameMembersSameLength(Distinct(ids), Ids(ranked));
  }

  lemma {:induction false} SameMembersSameLength(a: seq<int>, b: seq<int>)
    requires forall i, j | 0 <= i < j < |a| :: a[i] != a[j]
    requires forall i, j | 0 <= i < j < |b| :: b[i] != b[j]
    requires forall x :: x in a <==> x in b
    ensures |a| == |b|
  {
    Counted(a);
    Counted(b);
    assert (set x | x in a) == (set x | x in b);
  }

  lemma {:induction false} Counted(a: seq<int>)
    requires forall i, j | 0 <= i < j < |a| :: a[i] != a[j]
    ensures |set x | x in a| == |a|
  {
    if a != [] {
      var before, last := a[..|a| - 1], a[|a| - 1];
      Counted(before);
      assert a == before + [last];
      assert last !in before;
      assert (set x | x in a) == (set x | x in before) + {last};
    }
  }
}
