/** Choosing two-hop paths within a budget of chunks and turning them into hits
    (`OnlineGraphService._paths` in `src/zhiqing_rag/query_retrieval/graph.py`). */
module PathSelection {
  import opened Text

  datatype Link = RequiresMaterial | HasStep | HasField | ResponsibleFor | Reviews | Confirms

  /** A relation row with the chunk that states it. */
  datatype Row = Row(assertionId: string, link: Link, subject: string, target: string, chunkId: int, evidence: string)

  /** A row as a hit shows it: seen from its seed. */
  datatype Relation = Relation(assertionId: string, seed: string, evidence: string)

  datatype Path = Path(pathId: string, first: Row, second: Row, required: seq<int>)

  /** The checks on two rows that this model does not look into (quotes, triggers, identities):
      the chunks of the bridge between them, or None if they do not join; and the key of a path. */
  datatype Checks = Checks(bridge: (Row, Row) -> Option<seq<int>>, key: (Row, Row, seq<int>) -> string)

  /** A hop from the subject to the object, or back from the object. */
  predicate Outgoing(link: Link) {
    link == RequiresMaterial || link == HasStep || link == HasField
  }

  function RelationOf(row: Row): Relation {
    Relation(row.assertionId, if Outgoing(row.link) then row.subject else row.target, row.evidence)
  }

  /** The predicates that may follow each other. */
  predicate Follows(first: Link, second: Link) {
    if first == RequiresMaterial then second == HasField
    else first == HasStep && (second == ResponsibleFor || second == Reviews || second == Confirms)
  }

  /** The path that two rows make. */
  function Candidate(c: Checks, first: Row, second: Row): Option<Path> {
    if !Follows(first.link, second.link) || first.assertionId == second.assertionId then None
    else
      match c.bridge(first, second)
      case None => None
      case Some(chunks) => Some(Path(c.key(first, second, chunks), first, second,
          Distinct([first.chunkId, second.chunkId] + chunks)))
  }

  // ----- the state of the selection

  type Relations = map<string, Relation>

  datatype Selection = Selection(paths: seq<Path>, required: set<int>, rows: map<int, Relations>)

  function IdSet(ids: seq<int>): set<int> {
    set id | id in ids
  }

  predicate HasKey(paths: seq<Path>, pathId: string) {
    exists path | path in paths :: path.pathId == pathId
  }

  function WithRow(rows: map<int, Relations>, row: Row): map<int, Relations> {
    var known := if row.chunkId in rows then rows[row.chunkId] else map[];
    rows[row.chunkId := known[row.assertionId := RelationOf(row)]]
  }

  predicate Shows(rows: map<int, Relations>, row: Row) {
    row.chunkId in rows && row.assertionId in rows[row.chunkId] && rows[row.chunkId][row.assertionId] == RelationOf(row)
  }

  predicate IsHop(paths: seq<Path>, row: Row) {
    exists path | path in paths :: path.first == row || path.second == row
  }

  /** Each selected path is whole: its chunks are within the budget and its hops are shown. */
  ghost predicate Whole(c: Checks, s: Selection, limit: nat) {
    && |s.required| <= limit
    && (forall path | path in s.paths ::
         Candidate(c, path.first, path.second) == Some(path) && IdSet(path.required) <= s.required)
    && (forall id | id in s.required :: exists path | path in s.paths :: id in path.required)
    && forall i, j | 0 <= i < j < |s.paths| :: s.paths[i].pathId != s.paths[j].pathId
  }

  /** What is shown for a chunk comes from a hop that it states. */
  ghost predicate Grounded(s: Selection) {
    forall chunkId, assertionId {:trigger s.rows[chunkId][assertionId]} |
      chunkId in s.rows && assertionId in s.rows[chunkId] ::
      exists row ::
          IsHop(s.paths, row) && row.chunkId == chunkId && row.assertionId == assertionId
          && s.rows[chunkId][assertionId] == RelationOf(row)
  }

  /** Two rows with one assertion are one row. */
  ghost predicate OneRowEach(rows: seq<Row>) {
    forall a, b | a in rows && b in rows && a.assertionId == b.assertionId :: a == b
  }

  /** The hops are among these rows, and each is shown by its chunk. */
  ghost predicate ShowsHops(s: Selection, rows: seq<Row>) {
    forall row | IsHop(s.paths, row) :: row in rows && Shows(s.rows, row)
  }

  /** The pair makes no path, or its path is selected, or it needs more chunks than are left. */
  predicate Settled(c: Checks, s: Selection, first: Row, second: Row, limit: nat) {
    var path := Candidate(c, first, second);
    path.None? || HasKey(s.paths, path.value.pathId) || |s.required + IdSet(path.value.required)| > limit
  }

  function Add(s: Selection, path: Path): Selection {
    Selection(s.paths + [path], s.required + IdSet(path.required), WithRow(WithRow(s.rows, path.first), path.second))
  }

  /** The body of the inner loop. */
  function Consider(c: Checks, s: Selection, first: Row, second: Row, limit: nat): Selection {
    if Settled(c, s, first, second, limit) then s else Add(s, Candidate(c, first, second).value)
  }

  lemma {:induction false} AddCovers(c: Checks, s: Selection, path: Path, limit: nat)
    requires Whole(c, s, limit)
    ensures var more := Add(s, path); forall id | id in more.required :: exists p | p in more.paths :: id in p.required
  {
    var more := Add(s, path);
    forall id | id in more.required
      ensures exists p | p in more.paths :: id in p.required
    {
      if id in s.required {
        var p :| p in s.paths && id in p.required;
        assert p in more.paths;
      } else {
        assert path in more.paths;
      }
    }
  }

  lemma {:induction false} AddIsWhole(c: Checks, s: Selection, first: Row, second: Row, limit: nat)
    requires Whole(c, s, limit) && !Settled(c, s, first, second, limit)
    ensures Whole(c, Add(s, Candidate(c, first, second).value), limit)
  {
    var path := Candidate(c, first, second).value;
    var more := Add(s, path);
    AddCovers(c, s, path, limit);
    forall i, j | 0 <= i < j < |more.paths|
      ensures more.paths[i].pathId != more.paths[j].pathId
    {
      assert s.paths == more.paths[..|s.paths|];
      assert j == |s.paths| ==> more.paths[i] in s.paths;
    }
  }

  lemma {:induction false} HopsOfMore(paths: seq<Path>, path: Path, row: Row)
    ensures IsHop(paths + [path], row) <==> IsHop(paths, row) || row == path.first || row == path.second
  {
    assert path in paths + [path];
    if IsHop(paths, row) {
      var p :| p in paths && (p.first == row || p.second == row);
      assert p in paths + [path];
    }
  }

  lemma {:induction false} AddIsGrounded(s: Selection, path: Path)
    requires Grounded(s)
    ensures Grounded(Add(s, path))
  {
    var more := Add(s, path);
    forall chunkId, assertionId | chunkId in more.rows && assertionId in more.rows[chunkId]
      ensures exists row ::
              IsHop(more.paths, row) && row.chunkId == chunkId && row.assertionId == assertionId
              && more.rows[chunkId][assertionId] == RelationOf(row)
    {
      if path.second.chunkId == chunkId && path.second.assertionId == assertionId {
        HopsOfMore(s.paths, path, path.second);
      } else if path.first.chunkId == chunkId && path.first.assertionId == assertionId {
        HopsOfMore(s.paths, path, path.first);
      } else {
        var row :| IsHop(s.paths, row) && row.chunkId == chunkId && row.assertionId == assertionId
            && s.rows[chunkId][assertionId] == RelationOf(row);
        HopsOfMore(s.paths, path, row);
      }
    }
  }

  lemma {:induction false} WithRowShows(rows: map<int, Relations>, added: Row, row: Row)
    requires Shows(rows, row) || row == added
    requires row.assertionId == added.assertionId ==> row == added
    ensures Shows(WithRow(rows, added), row)
  {
  }

  lemma {:induction false} AddShowsHops(s: Selection, path: Path, rows: seq<Row>)
    requires ShowsHops(s, rows) && OneRowEach(rows) && path.first in rows && path.second in rows
    ensures ShowsHops(Add(s, path), rows)
  {
    forall row | IsHop(Add(s, path).paths, row)
      ensures row in rows && Shows(Add(s, path).rows, row)
    {
      HopsOfMore(s.paths, path, row);
      if row != path.second {
        WithRowShows(s.rows, path.first, row);
      }
      WithRowShows(WithRow(s.rows, path.first), path.second, row);
    }
  }

  lemma {:induction false} StaysSettled(c: Checks, s: Selection, path: Path, first: Row, second: Row, limit: nat)
    requires Settled(c, s, first, second, limit)
    ensures Settled(c, Add(s, path), first, second, limit)
  {
    var candidate := Candidate(c, first, second);
    if candidate.Some? {
      if HasKey(s.paths, candidate.value.pathId) {
        var p :| p in s.paths && p.pathId == candidate.value.pathId;
        assert p in Add(s, path).paths;
      } else {
        SubsetIsSmaller(s.required + IdSet(candidate.value.required),
            Add(s, path).required + IdSet(candidate.value.required));
      }
    }
  }

  lemma {:induction false} SubsetIsSmaller(a: set<int>, b: set<int>)
    requires a <= b
    ensures |a| <= |b|
  {
    assert b == a + (b - a);
  }

  lemma {:induction false} NowSettled(c: Checks, s: Selection, first: Row, second: Row, limit: nat)
    ensures Settled(c, Consider(c, s, first, second, limit), first, second, limit)
  {
    if !Settled(c, s, first, second, limit) {
      var path := Candidate(c, first, second).value;
      assert path in Add(s, path).paths;
    }
  }

  /** What the loops keep. */
  ghost predicate Kept(c: Checks, s: Selection, rows: seq<Row>, limit: nat) {
    Whole(c, s, limit) && Grounded(s) && (OneRowEach(rows) ==> ShowsHops(s, rows))
  }

  lemma {:induction false} ConsiderKeeps(c: Checks, s: Selection, first: Row, second: Row, rows: seq<Row>, limit: nat)
    requires Kept(c, s, rows, limit) && first in rows && second in rows
    ensures Kept(c, Consider(c, s, first, second, limit), rows, limit)
  {
    if !Settled(c, s, first, second, limit) {
      var path := Candidate(c, first, second).value;
      AddIsWhole(c, s, first, second, limit);
      AddIsGrounded(s, path);
      if OneRowEach(rows) {
        AddShowsHops(s, path, rows);
      }
    }
  }

  /** Every pair up to the one at `i`, `j` is settled. */
  predicate SettledUpTo(c: Checks, s: Selection, first: seq<Row>, second: seq<Row>, i: nat, j: nat, limit: nat) {
    forall a, b | 0 <= a < |first| && 0 <= b < |second| && (a < i || (a == i && b < j)) ::
        Settled(c, s, first[a], second[b], limit)
  }

  lemma {:induction false} StepSettles(c: Checks, s: Selection, first: seq<Row>, second: seq<Row>,
                                       i: nat, j: nat, limit: nat)
    requires i < |first| && j < |second| && SettledUpTo(c, s, first, second, i, j, limit)
    ensures SettledUpTo(c, Consider(c, s, first[i], second[j], limit), first, second, i, j + 1, limit)
  {
    var more := Consider(c, s, first[i], second[j], limit);
    forall a, b | 0 <= a < |first| && 0 <= b < |second| && (a < i || (a == i && b < j + 1))
      ensures Settled(c, more, first[a], second[b], limit)
    {
      if a == i && b == j {
        NowSettled(c, s, first[i], second[j], limit);
      } else if more != s {
        StaysSettled(c, s, Candidate(c, first[i], second[j]).value, first[a], second[b], limit);
      }
    }
  }

  /** The two loops: first fit in order, until there are enough paths. If there are not, no path
      that could still be added is missing. */
  method SelectPaths(c: Checks, first: seq<Row>, second: seq<Row>, limit: nat, pathLimit: nat) returns (s: Selection)
    requires pathLimit > 0
    ensures Kept(c, s, first + second, limit)
    ensures |s.paths| <= pathLimit
    ensures |s.paths| == pathLimit || forall a, b | a in first && b in second :: Settled(c, s, a, b, limit)
  {
    s := Selection([], {}, map[]);
    for i := 0 to |first|
      invariant Kept(c, s, first + second, limit) && SettledUpTo(c, s, first, second, i, 0, limit)
      invariant |s.paths| < pathLimit
    {
      for j := 0 to |second|
        invariant Kept(c, s, first + second, limit) && SettledUpTo(c, s, first, second, i, j, limit)
        invariant |s.paths| < pathLimit
      {
        assert first[i] in first + second && second[j] in first + second;
        ConsiderKeeps(c, s, first[i], second[j], first + second, limit);
        StepSettles(c, s, first, second, i, j, limit);
        var more := Consider(c, s, first[i], second[j], limit);
        s := more;
        if |s.paths| >= pathLimit {
          return;
        }
      }
    }
  }

  // ----- hits

  datatype Hit = Hit(chunkId: int, relations: Relations, paths: seq<Path>)

  function RequiredIds(paths: seq<Path>): seq<int> {
    if paths == [] then [] else RequiredIds(paths[..|paths| - 1]) + paths[|paths| - 1].required
  }

  function ChunkIds(hits: seq<Hit>): (ids: seq<int>)
    ensures |ids| == |hits| && forall i | 0 <= i < |hits| :: ids[i] == hits[i].chunkId
  {
    seq(|hits|, i requires 0 <= i < |hits| => hits[i].chunkId)
  }

  function OwnPaths(paths: seq<Path>, chunkId: int): (own: seq<Path>)
    ensures forall path :: path in own <==> path in paths && chunkId in path.required
  {
    if paths == [] then []
    else
      var last := paths[|paths| - 1];
      OwnPaths(paths[..|paths| - 1], chunkId) + if chunkId in last.required then [last] else []
  }

  /** The previous hit for a chunk, if there is one. */
  function Previous(base: seq<Hit>, chunkId: int): Option<Hit> {
    if base == [] then None
    else
      var last := base[|base| - 1];
      if last.chunkId == chunkId then Some(last) else Previous(base[..|base| - 1], chunkId)
  }

  function HitFor(s: Selection, base: seq<Hit>, chunkId: int): Hit {
    var previous := Previous(base, chunkId);
    var before: Relations := if previous.Some? then previous.value.relations else map[];
    Hit(chunkId, before + (if chunkId in s.rows then s.rows[chunkId] else map[]), OwnPaths(s.paths, chunkId))
  }

  lemma {:induction false} RequiredMembers(paths: seq<Path>)
    ensures forall id :: id in RequiredIds(paths) <==> exists path | path in paths :: id in path.required
  {
    if paths != [] {
      var before, last := paths[..|paths| - 1], paths[|paths| - 1];
      RequiredMembers(before);
      assert paths == before + [last];
    }
  }

  lemma {:induction false} DistinctCount(ids: seq<int>, all: set<int>)
    requires (forall id | id in ids :: id in all) && forall i, j | 0 <= i < j < |ids| :: ids[i] != ids[j]
    ensures |ids| <= |all|
  {
    if ids != [] {
      var before, last := ids[..|ids| - 1], ids[|ids| - 1];
      forall id | id in before
        ensures id in all - {last}
      {
        var k :| 0 <= k < |before| && before[k] == id;
        assert ids[k] == id && id in ids;
      }
      assert last in ids;
      DistinctCount(before, all - {last});
    }
  }

  /** The chunks of the paths all come first, and there is room for them. */
  lemma {:induction false} RequiredFit(c: Checks, s: Selection, limit: nat)
    requires Whole(c, s, limit)
    ensures var ids := Distinct(RequiredIds(s.paths));
            && |ids| <= limit && (forall i, j | 0 <= i < j < |ids| :: ids[i] != ids[j])
            && forall path, id | path in s.paths && id in path.required :: id in ids
  {
    var ids := Distinct(RequiredIds(s.paths));
    DistinctKeeps(RequiredIds(s.paths));
    RequiredMembers(s.paths);
    forall id | id in ids
      ensures id in s.required
    {
      var path :| path in s.paths && id in path.required;
      assert id in IdSet(path.required);
    }
    DistinctCount(ids, s.required);
  }

  /** Every path has all its chunks among the hits; the hits are distinct, within the limit, and
      show exactly the paths that need them. */
  ghost predicate Complete(s: Selection, hits: seq<Hit>, limit: nat) {
    && |hits| <= limit
    && (forall i, j | 0 <= i < j < |hits| :: hits[i].chunkId != hits[j].chunkId)
    && (forall path, id | path in s.paths && id in path.required :: id in ChunkIds(hits))
    && forall hit | hit in hits :: hit.paths == OwnPaths(s.paths, hit.chunkId)
  }

  /** The chunks to show: those of the paths, then those of the one-hop result, within the limit. */
  method OrderChunks(c: Checks, s: Selection, base: seq<Hit>, limit: nat) returns (chosen: seq<int>)
    requires Whole(c, s, limit)
    ensures |chosen| <= limit && forall i, j | 0 <= i < j < |chosen| :: chosen[i] != chosen[j]
    ensures forall path, id | path in s.paths && id in path.required :: id in chosen
    ensures |chosen| == limit || forall hit | hit in base :: hit.chunkId in chosen
  {
    RequiredFit(c, s, limit);
    chosen := Distinct(RequiredIds(s.paths));
    ghost var first := chosen;
    for k := 0 to |base|
      invariant first <= chosen && forall i, j | 0 <= i < j < |chosen| :: chosen[i] != chosen[j]
      invariant forall i | 0 <= i < k :: base[i].chunkId in chosen
    {
      if base[k].chunkId !in chosen {
        chosen := chosen + [base[k].chunkId];
      }
    }
    if |chosen| > limit {
      chosen := chosen[..limit];
    }
    PrefixMembers(first, chosen);
  }

  lemma {:induction false} PrefixMembers(a: seq<int>, b: seq<int>)
    requires a <= b
    ensures forall id | id in a :: id in b
  {
    forall id | id in a
      ensures id in b
    {
      var k :| 0 <= k < |a| && a[k] == id;
      assert b[k] == id;
    }
  }

  /** From the selection to the hits. */
  method AssembleHits(c: Checks, s: Selection, base: seq<Hit>, limit: nat) returns (hits: seq<Hit>)
    requires Whole(c, s, limit)
    ensures Complete(s, hits, limit)
    ensures forall hit | hit in hits :: hit == HitFor(s, base, hit.chunkId)
    ensures |hits| == limit || forall hit | hit in base :: hit.chunkId in ChunkIds(hits)
  {
    var chosen := OrderChunks(c, s, base, limit);
    hits := [];
    for k := 0 to |chosen|
      invariant |hits| == k && forall i | 0 <= i < k :: hits[i] == HitFor(s, base, chosen[i])
    {
      hits := hits + [HitFor(s, base, chosen[k])];
    }
    assert ChunkIds(hits) == chosen;
  }

  /** The second half of `_paths`: without a path the one-hop result stands. */
  method Paths(c: Checks, first: seq<Row>, second: seq<Row>, base: seq<Hit>, limit: nat, pathLimit: nat)
      returns (hits: seq<Hit>, s: Selection)
    requires pathLimit > 0
    ensures s.paths == [] ==> hits == base
    ensures s.paths != [] ==> Complete(s, hits, limit) && Kept(c, s, first + second, limit)
    ensures s.paths != [] ==> forall hit | hit in hits :: hit == HitFor(s, base, hit.chunkId)
  {
    s := SelectPaths(c, first, second, limit, pathLimit);
    if s.paths == [] {
      return base, s;
    }
    hits := AssembleHits(c, s, base, limit);
  }

  lemma {:induction false} HopIsRequired(c: Checks, path: Path, row: Row)
    requires Candidate(c, path.first, path.second) == Some(path) && (row == path.first || row == path.second)
    ensures row.chunkId in path.required
  {
    var ids := [path.first.chunkId, path.second.chunkId] + c.bridge(path.first, path.second).value;
    DistinctKeeps(ids);
    assert ids[0] in ids && ids[1] in ids;
  }

  /** If each assertion has one row, each hop of each path is shown by its own chunk, whatever
      the one-hop result showed there before. */
  lemma {:induction false} HopsAreShown(c: Checks, s: Selection, base: seq<Hit>, hits: seq<Hit>, rows: seq<Row>,
                                        limit: nat, path: Path, row: Row)
    returns (hit: Hit)
    requires Complete(s, hits, limit) && Kept(c, s, rows, limit) && OneRowEach(rows)
    requires forall h | h in hits :: h == HitFor(s, base, h.chunkId)
    requires path in s.paths && (row == path.first || row == path.second)
    ensures hit in hits && hit.chunkId == row.chunkId && path in hit.paths
    ensures row.assertionId in hit.relations && hit.relations[row.assertionId] == RelationOf(row)
  {
    assert IsHop(s.paths, row) && Shows(s.rows, row);
    HopIsRequired(c, path, row);
    assert row.chunkId in ChunkIds(hits);
    var i :| 0 <= i < |hits| && ChunkIds(hits)[i] == row.chunkId;
    hit := hits[i];
    assert hit == HitFor(s, base, row.chunkId);
  }
}
