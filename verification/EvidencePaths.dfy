/** Which paths of a set of candidates are whole: `complete_paths` in
    `src/zhiqing_rag/query_retrieval/paths.py`. What makes one path whole is a parameter here. */
module EvidencePaths {
  import opened Answers
  import opened Text

  // ----- the order of ids

  predicate Less(a: string, b: string) {
    b != "" && (a == "" || a[0] < b[0] || (a[0] == b[0] && Less(a[1..], b[1..])))
  }

  lemma {:induction false} LessIsStrict(a: string, b: string)
    ensures !(Less(a, b) && Less(b, a)) && !Less(a, a)
    ensures a != b ==> Less(a, b) || Less(b, a)
  {
    if a != "" {
      LessIsStrict(a[1..], if b != "" then b[1..] else "");
    }
    if a != "" && b != "" && a[0] == b[0] && a[1..] == b[1..] {
      assert a == [a[0]] + a[1..] && b == [b[0]] + b[1..];
    }
  }

  lemma {:induction false} LessIsTransitive(a: string, b: string, c: string)
    requires Less(a, b) && Less(b, c)
    ensures Less(a, c)
  {
    if a != "" && a[0] == b[0] == c[0] {
      LessIsTransitive(a[1..], b[1..], c[1..]);
    }
  }

  /** In the order of their ids, each id once. */
  predicate Tidy(paths: seq<Path>) {
    forall i, j | 0 <= i < j < |paths| :: Less(paths[i].pathId, paths[j].pathId)
  }

  // ----- what is kept

  /** Some candidate carries the path: those whose chunk it requires do. */
  predicate Carried(evidence: seq<Evidence>, p: Path) {
    exists item | item in evidence :: item.chunkId in p.required
  }

  /** No other path that is carried has its id. */
  predicate Undisputed(evidence: seq<Evidence>, paths: seq<Path>, p: Path) {
    forall q | q in paths && Carried(evidence, q) && q.pathId == p.pathId :: q == p
  }

  predicate Keeps(ok: Path -> bool, evidence: seq<Evidence>, paths: seq<Path>, p: Path) {
    p in paths && Carried(evidence, p) && Undisputed(evidence, paths, p) && ok(p)
  }

  /** The path put in its place by its id. */
  function Insert(p: Path, sorted: seq<Path>): (r: seq<Path>)
    ensures forall q :: q in r <==> q == p || q in sorted
  {
    if sorted == [] then [p]
    else if Less(p.pathId, sorted[0].pathId) then [p] + sorted
    else [sorted[0]] + Insert(p, sorted[1..])
  }

  /** The undisputed, whole ones of the first `n` paths, in order. */
  function KeptOf(ok: Path -> bool, evidence: seq<Evidence>, paths: seq<Path>, n: nat): seq<Path>
    requires n <= |paths|
  {
    if n == 0 then []
    else
      var (kept, p) := (KeptOf(ok, evidence, paths, n - 1), paths[n - 1]);
      if Keeps(ok, evidence, paths, p) && p !in kept then Insert(p, kept) else kept
  }

  function CompletePaths(ok: Path -> bool, evidence: seq<Evidence>, paths: seq<Path>): seq<Path> {
    KeptOf(ok, evidence, paths, |paths|)
  }

  lemma {:induction false} InsertStaysTidy(p: Path, sorted: seq<Path>)
    requires Tidy(sorted) && forall q | q in sorted :: q.pathId != p.pathId
    ensures Tidy(Insert(p, sorted))
  {
    if sorted != [] {
      var (first, rest) := (sorted[0], sorted[1..]);
      LessIsStrict(p.pathId, first.pathId);
      if Less(p.pathId, first.pathId) {
        forall q | q in rest
          ensures Less(p.pathId, q.pathId)
        {
          LessIsTransitive(p.pathId, first.pathId, q.pathId);
        }
        TidyFrom(p, sorted);
      } else {
        InsertStaysTidy(p, rest);
        TidyFrom(first, Insert(p, rest));
      }
    }
  }

  lemma {:induction false} TidyFrom(first: Path, rest: seq<Path>)
    requires Tidy(rest) && forall q | q in rest :: Less(first.pathId, q.pathId)
    ensures Tidy([first] + rest)
  {
    var all := [first] + rest;
    forall i, j | 0 <= i < j < |all|
      ensures Less(all[i].pathId, all[j].pathId)
    {
      assert all[j] == rest[j - 1] && rest[j - 1] in rest;
    }
  }

  /** The paths kept are the carried, undisputed and whole ones, in the order of their ids. */
  lemma {:induction false} CompletePathsExactly(ok: Path -> bool, evidence: seq<Evidence>, paths: seq<Path>)
    ensures Tidy(CompletePaths(ok, evidence, paths))
    ensures forall p :: p in CompletePaths(ok, evidence, paths) <==> Keeps(ok, evidence, paths, p)
  {
    KeptExactly(ok, evidence, paths, |paths|);
  }

  lemma {:induction false} KeptExactly(ok: Path -> bool, evidence: seq<Evidence>, paths: seq<Path>, n: nat)
    requires n <= |paths|
    ensures var kept := KeptOf(ok, evidence, paths, n);
            Tidy(kept) && forall p :: p in kept <==> p in paths[..n] && Keeps(ok, evidence, paths, p)
  {
    if n > 0 {
      var (kept, p) := (KeptOf(ok, evidence, paths, n - 1), paths[n - 1]);
      KeptExactly(ok, evidence, paths, n - 1);
      assert paths[..n] == paths[..n - 1] + [p];
      if Keeps(ok, evidence, paths, p) && p !in kept {
        InsertStaysTidy(p, kept);
      }
    }
  }

  lemma {:induction false} TidyIsOne(a: seq<Path>, b: seq<Path>)
    requires Tidy(a) && Tidy(b) && forall p :: p in a <==> p in b
    ensures a == b
  {
    if a == [] {
      if b != [] {
        FirstIsMember(b);
      }
    } else {
      assert a[0] in b;
      FirstIsLeast(a, b);
      assert a == [a[0]] + a[1..] && b == [b[0]] + b[1..];
      TailsAgree(a, b);
      TidyIsOne(a[1..], b[1..]);
    }
  }

  lemma {:induction false} FirstIsMember(paths: seq<Path>)
    requires paths != []
    ensures exists p :: p in paths
  {
    assert paths[0] in paths;
  }

  lemma {:induction false} FirstIsLeast(a: seq<Path>, b: seq<Path>)
    requires Tidy(a) && Tidy(b) && a != [] && b != [] && a[0] in b && b[0] in a
    ensures a[0] == b[0]
  {
    LessIsStrict(a[0].pathId, b[0].pathId);
    FirstOrAfter(a, b[0]);
    FirstOrAfter(b, a[0]);
  }

  lemma {:induction false} FirstOrAfter(paths: seq<Path>, p: Path)
    requires Tidy(paths) && p in paths
    ensures p == paths[0] || Less(paths[0].pathId, p.pathId)
  {
    var i :| 0 <= i < |paths| && paths[i] == p;
  }

  lemma {:induction false} TailsAgree(a: seq<Path>, b: seq<Path>)
    requires Tidy(a) && Tidy(b) && a != [] && b != [] && a[0] == b[0] && forall p :: p in a <==> p in b
    ensures Tidy(a[1..]) && Tidy(b[1..]) && forall p :: p in a[1..] <==> p in b[1..]
  {
    OthersOf(a);
    OthersOf(b);
  }

  lemma {:induction false} OthersOf(a: seq<Path>)
    requires Tidy(a) && a != []
    ensures Tidy(a[1..]) && forall p :: p in a[1..] <==> p in a && p != a[0]
  {
    LessIsStrict(a[0].pathId, a[0].pathId);
    assert a == [a[0]] + a[1..];
    forall j | 0 <= j < |a[1..]|
      ensures a[1..][j] != a[0]
    {
      assert Less(a[0].pathId, a[j + 1].pathId);
    }
  }

  /** Paths that are in order, carried and whole are kept as they are. */
  lemma {:induction false} CompleteStay(ok: Path -> bool, evidence: seq<Evidence>, paths: seq<Path>)
    requires Tidy(paths) && forall p | p in paths :: Carried(evidence, p) && ok(p)
    ensures CompletePaths(ok, evidence, paths) == paths
  {
    CompletePathsExactly(ok, evidence, paths);
    forall p | p in paths
      ensures Undisputed(evidence, paths, p)
    {
      forall q | q in paths && q.pathId == p.pathId
        ensures q == p
      {
        SameIdSamePath(paths, p, q);
      }
    }
    TidyIsOne(CompletePaths(ok, evidence, paths), paths);
  }

  lemma {:induction false} SameIdSamePath(paths: seq<Path>, p: Path, q: Path)
    requires Tidy(paths) && p in paths && q in paths && p.pathId == q.pathId
    ensures p == q
  {
    var i :| 0 <= i < |paths| && paths[i] == p;
    var j :| 0 <= j < |paths| && paths[j] == q;
    LessIsStrict(p.pathId, q.pathId);
    assert i == j;
  }

  // ----- the loops

  /** The path stands with a candidate that has been looked at. */
  predicate Seen(evidence: seq<Evidence>, paths: seq<Path>, a: nat, b: nat, p: Path)
    requires a <= |evidence| && b <= |paths|
  {
    || (p in paths && exists i | 0 <= i < a :: evidence[i].chunkId in p.required)
    || (a < |evidence| && p in paths[..b] && evidence[a].chunkId in p.required)
  }

  /** Another path with this id has been looked at. */
  predicate Disputed(evidence: seq<Evidence>, paths: seq<Path>, a: nat, b: nat, id: string, p: Path)
    requires a <= |evidence| && b <= |paths|
  {
    exists q | q in paths :: q.pathId == id && q != p && Seen(evidence, paths, a, b, q)
  }

  /** What the dictionary and the set of conflicts hold. */
  ghost predicate Gathered(evidence: seq<Evidence>, paths: seq<Path>, a: nat, b: nat,
                           first: map<string, Path>, conflicts: set<string>)
    requires a <= |evidence| && b <= |paths|
  {
    && (forall id | id in first :: first[id].pathId == id && Seen(evidence, paths, a, b, first[id]))
    && (forall p | Seen(evidence, paths, a, b, p) ::
         p.pathId in first && (p == first[p.pathId] || p.pathId in conflicts))
    && forall id | id in conflicts :: id in first && Disputed(evidence, paths, a, b, id, first[id])
  }

  lemma {:induction false} SeenOneMore(evidence: seq<Evidence>, paths: seq<Path>, a: nat, b: nat)
    requires a < |evidence| && b < |paths|
    ensures forall p :: Seen(evidence, paths, a, b + 1, p) <==>
              Seen(evidence, paths, a, b, p) || (p == paths[b] && evidence[a].chunkId in p.required)
  {
    assert paths[..b + 1] == paths[..b] + [paths[b]];
  }

  lemma {:induction false} SeenNext(evidence: seq<Evidence>, paths: seq<Path>, a: nat)
    requires a < |evidence|
    ensures forall p :: Seen(evidence, paths, a, |paths|, p) <==> Seen(evidence, paths, a + 1, 0, p)
  {
    assert paths[..|paths|] == paths && paths[..0] == [];
  }

  lemma {:induction false} GatherOne(evidence: seq<Evidence>, paths: seq<Path>, a: nat, b: nat,
                                     first: map<string, Path>, conflicts: set<string>)
    requires a < |evidence| && b < |paths| && Gathered(evidence, paths, a, b, first, conflicts)
    ensures var p := paths[b];
            if evidence[a].chunkId !in p.required then Gathered(evidence, paths, a, b + 1, first, conflicts)
            else if p.pathId !in first then Gathered(evidence, paths, a, b + 1, first[p.pathId := p], conflicts)
            else Gathered(evidence, paths, a, b + 1, first,
                          if first[p.pathId] != p then conflicts + {p.pathId} else conflicts)
  {
    SeenOneMore(evidence, paths, a, b);
  }

  /** `complete_paths`: the paths of all candidates, merged by id, then sifted and sorted. */
  method MergePaths(ok: Path -> bool, evidence: seq<Evidence>, paths: seq<Path>) returns (kept: seq<Path>)
    ensures kept == CompletePaths(ok, evidence, paths)
  {
    var first: map<string, Path>, conflicts: set<string> := map[], {};
    for a := 0 to |evidence|
      invariant Gathered(evidence, paths, a, 0, first, conflicts)
    {
      for b := 0 to |paths|
        invariant Gathered(evidence, paths, a, b, first, conflicts)
      {
        var p := paths[b];
        GatherOne(evidence, paths, a, b, first, conflicts);
        if evidence[a].chunkId in p.required {
          if p.pathId !in first {
            first := first[p.pathId := p];
          } else if first[p.pathId] != p {
            conflicts := conflicts + {p.pathId};
          }
        }
      }
      SeenNext(evidence, paths, a);
    }
    kept := Sift(ok, first, conflicts);
    SiftedAreKept(ok, evidence, paths, first, conflicts, kept);
  }

  /** The paths without conflicts that are whole, in order. */
  method Sift(ok: Path -> bool, first: map<string, Path>, conflicts: set<string>) returns (kept: seq<Path>)
    requires forall id | id in first :: first[id].pathId == id
    ensures Tidy(kept)
    ensures forall p :: p in kept <==> p.pathId in first && first[p.pathId] == p && p.pathId !in conflicts && ok(p)
  {
    kept := [];
    var todo := first.Keys;
    while todo != {}
      invariant todo <= first.Keys && Tidy(kept)
      invariant forall p :: p in kept <==>
        p.pathId in first && p.pathId !in todo && first[p.pathId] == p && p.pathId !in conflicts && ok(p)
      decreases |todo|
    {
      var id :| id in todo;
      todo := todo - {id};
      if id !in conflicts && ok(first[id]) {
        InsertStaysTidy(first[id], kept);
        kept := Insert(first[id], kept);
      }
    }
  }

  lemma {:induction false} SeenAtEnd(evidence: seq<Evidence>, paths: seq<Path>, p: Path)
    ensures Seen(evidence, paths, |evidence|, 0, p) <==> p in paths && Carried(evidence, p)
  {
    if p in paths && Carried(evidence, p) {
      var item :| item in evidence && item.chunkId in p.required;
      var i :| 0 <= i < |evidence| && evidence[i] == item;
    }
  }

  lemma {:induction false} SiftedAreKept(ok: Path -> bool, evidence: seq<Evidence>, paths: seq<Path>,
                                         first: map<string, Path>, conflicts: set<string>, kept: seq<Path>)
    requires Gathered(evidence, paths, |evidence|, 0, first, conflicts) && Tidy(kept)
    requires forall p :: p in kept <==> p.pathId in first && first[p.pathId] == p && p.pathId !in conflicts && ok(p)
    ensures kept == CompletePaths(ok, evidence, paths)
  {
    CompletePathsExactly(ok, evidence, paths);
    forall p
      ensures p in kept <==> Keeps(ok, evidence, paths, p)
    {
      SiftedIsKept(ok, evidence, paths, first, conflicts, p);
    }
    TidyIsOne(kept, CompletePaths(ok, evidence, paths));
  }

  lemma {:induction false} SiftedIsKept(ok: Path -> bool, evidence: seq<Evidence>, paths: seq<Path>,
                                        first: map<string, Path>, conflicts: set<string>, p: Path)
    requires Gathered(evidence, paths, |evidence|, 0, first, conflicts)
    ensures (p.pathId in first && first[p.pathId] == p && p.pathId !in conflicts && ok(p))
       <==> Keeps(ok, evidence, paths, p)
  {
    SeenAtEnd(evidence, paths, p);
    if Keeps(ok, evidence, paths, p) {
      SeenAtEnd(evidence, paths, first[p.pathId]);
      if p.pathId in conflicts {
        var q :| q in paths && q.pathId == p.pathId && q != first[p.pathId] && Seen(evidence, paths, |evidence|, 0, q);
        SeenAtEnd(evidence, paths, q);
      }
    } else if p.pathId in first && first[p.pathId] == p && p.pathId !in conflicts && ok(p) {
      forall q | q in paths && Carried(evidence, q) && q.pathId == p.pathId
        ensures q == p
      {
        SeenAtEnd(evidence, paths, q);
      }
    }
  }
}
