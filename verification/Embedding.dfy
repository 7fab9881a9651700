/** Embedding chunks in batches behind a cache that may forget anything
    (`src/zhiqing_rag/document_processing/embedding.py`, `embedding_cache.py`). */
module Embedding {
  import opened Text

  type Vector = seq<real>

  /** One vector of a reply, with the place of its input. */
  datatype Item = Item(index: int, vector: Vector)

  datatype Reply = Failed | Data(items: seq<Item>)

  /** The model service: its reply to the n-th call may depend on anything. */
  type Service = (nat, seq<string>) -> Reply

  const BATCH := 10

  /** What the service should have computed, and which vectors are acceptable. */
  datatype Spec = Spec(embed: string -> Vector, valid: Vector -> bool)

  // ----- one batch

  predicate GoodItems(spec: Spec, items: seq<Item>, n: nat) {
    && (forall item | item in items :: 0 <= item.index < n && spec.valid(item.vector))
    && forall i, j | 0 <= i < j < |items| :: items[i].index != items[j].index
  }

  function Range(n: nat): (s: set<int>)
    ensures |s| == n && forall k :: k in s <==> 0 <= k < n
  {
    if n == 0 then {} else Range(n - 1) + {n - 1}
  }

  function Indexes(items: seq<Item>, n: nat): (s: set<int>)
    requires n <= |items|
    ensures forall k :: k in s <==> exists i | 0 <= i < n :: items[i].index == k
  {
    if n == 0 then {} else Indexes(items, n - 1) + {items[n - 1].index}
  }

  lemma {:induction false} IndexesCount(items: seq<Item>, n: nat)
    requires n <= |items| && forall i, j | 0 <= i < j < |items| :: items[i].index != items[j].index
    ensures |Indexes(items, n)| == n
  {
    if n > 0 {
      IndexesCount(items, n - 1);
    }
  }

  lemma {:induction false} FullSubset(a: set<int>, b: set<int>)
    requires a <= b && |a| == |b|
    ensures a == b
  {
    assert b == a + (b - a);
  }

  /** As many items as inputs, each in range and none twice: every input has its item. */
  lemma {:induction false} EveryInputAnswered(spec: Spec, items: seq<Item>, k: nat)
    requires GoodItems(spec, items, |items|) && k < |items|
    ensures exists i | 0 <= i < |items| :: items[i].index == k
  {
    IndexesCount(items, |items|);
    IndexesInRange(spec, items);
    FullSubset(Indexes(items, |items|), Range(|items|));
    assert k in Indexes(items, |items|);
  }

  lemma {:induction false} IndexesInRange(spec: Spec, items: seq<Item>)
    requires GoodItems(spec, items, |items|)
    ensures Indexes(items, |items|) <= Range(|items|)
  {
    forall x | x in Indexes(items, |items|)
      ensures x in Range(|items|)
    {
      var i :| 0 <= i < |items| && items[i].index == x;
      assert items[i] in items;
    }
  }

  /** The vectors of a batch in the order of its inputs. */
  predicate Answers(items: seq<Item>, vectors: seq<Vector>) {
    |vectors| == |items| && forall i | 0 <= i < |items| ::
        0 <= items[i].index < |vectors| && vectors[items[i].index] == items[i].vector
  }

  /** The vectors by their index. */
  predicate Indexed(items: seq<Item>, byIndex: map<int, Vector>) {
    && (forall item | item in items :: item.index in byIndex && byIndex[item.index] == item.vector)
    && forall index | index in byIndex :: exists item | item in items :: item.index == index
  }

  lemma {:induction false} IndexOne(spec: Spec, items: seq<Item>, inputs: nat, byIndex: map<int, Vector>, item: Item)
    requires GoodItems(spec, items, inputs) && Indexed(items, byIndex)
    ensures GoodItems(spec, items + [item], inputs)
       <==> 0 <= item.index < inputs && item.index !in byIndex && spec.valid(item.vector)
    ensures item.index !in byIndex ==> Indexed(items + [item], byIndex[item.index := item.vector])
  {
    var more := items + [item];
    assert more[|items|] == item && item in more && forall i | 0 <= i < |items| :: more[i] == items[i];
    assert forall i | 0 <= i < |items| :: items[i] in items;
    if item.index in byIndex {
      var other :| other in items && other.index == item.index;
      var i :| 0 <= i < |items| && items[i] == other;
      assert more[i].index == more[|items|].index;
    }
  }

  lemma {:induction false} BadPrefix(spec: Spec, items: seq<Item>, inputs: nat, k: nat)
    requires k <= |items| && !GoodItems(spec, items[..k], inputs)
    ensures !GoodItems(spec, items, inputs)
  {
  }

  /** The first loop: the items by index, None if one is bad. */
  method IndexItems(spec: Spec, inputs: nat, items: seq<Item>) returns (r: Option<map<int, Vector>>)
    ensures r.Some? <==> GoodItems(spec, items, inputs)
    ensures r.Some? ==> Indexed(items, r.value)
  {
    var byIndex: map<int, Vector> := map[];
    for k := 0 to |items|
      invariant GoodItems(spec, items[..k], inputs) && Indexed(items[..k], byIndex)
    {
      var item := items[k];
      assert items[..k + 1] == items[..k] + [item];
      IndexOne(spec, items[..k], inputs, byIndex, item);
      if !(0 <= item.index < inputs) || item.index in byIndex || !spec.valid(item.vector) {
        BadPrefix(spec, items, inputs, k + 1);
        return None;
      }
      byIndex := byIndex[item.index := item.vector];
    }
    assert items[..|items|] == items;
    return Some(byIndex);
  }

  /** The items of one reply put in order; None for what the original raises. */
  method OrderBatch(spec: Spec, inputs: nat, items: seq<Item>) returns (r: Option<seq<Vector>>)
    ensures r.Some? <==> |items| == inputs && GoodItems(spec, items, inputs)
    ensures r.Some? ==> Answers(items, r.value)
  {
    if |items| != inputs {
      return None;
    }
    var indexed := IndexItems(spec, inputs, items);
    if indexed.None? {
      return None;
    }
    var byIndex := indexed.value;
    var vectors := [];
    for k := 0 to inputs
      invariant |vectors| == k
      invariant forall i | 0 <= i < k :: i in byIndex && vectors[i] == byIndex[i]
    {
      EveryInputAnswered(spec, items, k);
      var i :| 0 <= i < |items| && items[i].index == k;
      assert items[i] in items;
      vectors := vectors + [byIndex[k]];
    }
    forall i | 0 <= i < |items|
      ensures 0 <= items[i].index < |vectors| && vectors[items[i].index] == items[i].vector
    {
      assert items[i] in items;
    }
    return Some(vectors);
  }

  // ----- all batches

  /** Batches needed for so many inputs. */
  function Batches(n: nat): nat {
    (n + BATCH - 1) / BATCH
  }

  function Embedded(spec: Spec, texts: seq<string>): (vectors: seq<Vector>)
    ensures |vectors| == |texts| && forall i | 0 <= i < |texts| :: vectors[i] == spec.embed(texts[i])
  {
    seq(|texts|, i requires 0 <= i < |texts| => spec.embed(texts[i]))
  }

  /** A reply that is right, in whatever order its items come. */
  predicate RightReply(spec: Spec, inputs: seq<string>, reply: Reply) {
    && reply.Data? && |reply.items| == |inputs| && GoodItems(spec, reply.items, |inputs|)
    && forall item | item in reply.items :: 0 <= item.index < |inputs| && item.vector == spec.embed(inputs[item.index])
  }

  ghost predicate Honest(spec: Spec, service: Service) {
    forall n, inputs :: RightReply(spec, inputs, service(n, inputs))
  }

  lemma {:induction false} RightAnswers(spec: Spec, inputs: seq<string>, reply: Reply, vectors: seq<Vector>)
    requires RightReply(spec, inputs, reply) && Answers(reply.items, vectors)
    ensures vectors == Embedded(spec, inputs)
  {
    forall k | 0 <= k < |inputs|
      ensures vectors[k] == spec.embed(inputs[k])
    {
      EveryInputAnswered(spec, reply.items, k);
      var i :| 0 <= i < |reply.items| && reply.items[i].index == k;
      assert reply.items[i] in reply.items;
    }
  }

  lemma {:induction false} EmbeddedMore(spec: Spec, texts: seq<string>, start: nat, end: nat)
    requires start <= end <= |texts|
    ensures Embedded(spec, texts[..end]) == Embedded(spec, texts[..start]) + Embedded(spec, texts[start..end])
  {
    assert texts[..end] == texts[..start] + texts[start..end];
  }

  /** `_embed_batches`: one call for every ten inputs, in order, all or nothing. */
  method EmbedBatches(spec: Spec, service: Service, texts: seq<string>) returns (r: Option<seq<Vector>>, calls: nat)
    ensures r.Some? ==> |r.value| == |texts| && calls == Batches(|texts|)
    ensures calls <= Batches(|texts|)
    ensures Honest(spec, service) ==> r == Some(Embedded(spec, texts))
    ensures r.Some? ==> forall v | v in r.value :: spec.valid(v)
  {
    var vectors := [];
    var start := 0;
    calls := 0;
    while start < |texts|
      invariant start == (if calls * BATCH <= |texts| then calls * BATCH else |texts|) && calls <= Batches(|texts|)
      invariant start < |texts| ==> start == calls * BATCH
      invariant start == |texts| ==> calls == Batches(|texts|)
      invariant |vectors| == start && forall v | v in vectors :: spec.valid(v)
      invariant Honest(spec, service) ==> vectors == Embedded(spec, texts[..start])
      decreases |texts| - start
    {
      var end := if start + BATCH <= |texts| then start + BATCH else |texts|;
      var batch := texts[start..end];
      var reply := service(calls, batch);
      calls := calls + 1;
      if reply.Failed? {
        return None, calls;
      }
      var ordered := OrderBatch(spec, |batch|, reply.items);
      if Honest(spec, service) {
        RightAnswers(spec, batch, reply, ordered.value);
        EmbeddedMore(spec, texts, start, end);
      }
      if ordered.None? {
        return None, calls;
      }
      AnswersAreValid(spec, reply.items, ordered.value);
      vectors := vectors + ordered.value;
      start := end;
    }
    assert texts[..|texts|] == texts;
    return Some(vectors), calls;
  }

  lemma {:induction false} AnswersAreValid(spec: Spec, items: seq<Item>, vectors: seq<Vector>)
    requires GoodItems(spec, items, |items|) && Answers(items, vectors)
    ensures forall v | v in vectors :: spec.valid(v)
  {
    forall v | v in vectors
      ensures spec.valid(v)
    {
      var k :| 0 <= k < |vectors| && vectors[k] == v;
      EveryInputAnswered(spec, items, k);
      var i :| 0 <= i < |items| && items[i].index == k;
      assert items[i] in items;
    }
  }

  // ----- the cache

  /** The store gave back a valid vector for the text. */
  predicate Hit(spec: Spec, texts: seq<string>, stored: Option<seq<Option<Vector>>>, text: string) {
    && stored.Some? && |stored.value| == |texts|
    && exists i | 0 <= i < |texts| :: texts[i] == text && stored.value[i].Some? && spec.valid(stored.value[i].value)
  }

  /** `get_many`: what the store gives back, without what is missing or not a valid vector. */
  method GetMany(spec: Spec, texts: seq<string>, stored: Option<seq<Option<Vector>>>)
      returns (found: map<string, Vector>)
    requires stored.Some? ==> |stored.value| == |texts|
    ensures forall text :: text in found <==> Hit(spec, texts, stored, text)
    ensures forall text | text in found :: spec.valid(found[text])
    ensures Agrees(spec, texts, stored) ==> forall text | text in found :: found[text] == spec.embed(text)
  {
    found := map[];
    if stored.None? {
      return;
    }
    for k := 0 to |texts|
      invariant forall text | text in found :: spec.valid(found[text]) && Hit(spec, texts, stored, text)
      invariant forall i | 0 <= i < k && stored.value[i].Some? && spec.valid(stored.value[i].value) :: texts[i] in found
      invariant Agrees(spec, texts, stored) ==> forall text | text in found :: found[text] == spec.embed(text)
    {
      var value := stored.value[k];
      if value.Some? && spec.valid(value.value) {
        found := found[texts[k] := value.value];
      }
    }
  }

  /** What the store holds for a text is what the service would compute. */
  predicate Agrees(spec: Spec, texts: seq<string>, stored: Option<seq<Option<Vector>>>) {
    stored.Some? ==> |stored.value| == |texts| && forall i | 0 <= i < |texts| && stored.value[i].Some? ::
        stored.value[i].value == spec.embed(texts[i])
  }

  predicate AllDifferent(texts: seq<string>) {
    forall i, j | 0 <= i < j < |texts| :: texts[i] != texts[j]
  }

  /** The texts that have no vector yet, in order. */
  method Missing(texts: seq<string>, found: map<string, Vector>) returns (missing: seq<string>)
    requires AllDifferent(texts)
    ensures AllDifferent(missing) && forall text :: text in missing <==> text in texts && text !in found
  {
    missing := [];
    for k := 0 to |texts|
      invariant forall text :: text in missing <==> text in texts[..k] && text !in found
      invariant AllDifferent(missing)
    {
      assert texts[..k + 1] == texts[..k] + [texts[k]];
      if texts[k] !in found {
        assert texts[k] !in texts[..k];
        missing := missing + [texts[k]];
      }
    }
    assert texts[..|texts|] == texts;
  }

  /** Texts with their vectors. */
  function Zip(texts: seq<string>, vectors: seq<Vector>): (m: map<string, Vector>)
    requires |texts| == |vectors| && AllDifferent(texts)
    ensures forall text :: text in m <==> text in texts
    ensures forall i | 0 <= i < |texts| :: m[texts[i]] == vectors[i]
  {
    map i | 0 <= i < |texts| :: texts[i] := vectors[i]
  }

  /** Each content its vector. */
  method PickUp(contents: seq<string>, vectors: map<string, Vector>) returns (result: seq<Vector>)
    requires forall text | text in contents :: text in vectors
    ensures |result| == |contents| && forall i | 0 <= i < |contents| :: result[i] == vectors[contents[i]]
  {
    result := [];
    for k := 0 to |contents|
      invariant |result| == k && forall i | 0 <= i < k :: result[i] == vectors[contents[i]]
    {
      result := result + [vectors[contents[k]]];
    }
  }

  /** New vectors for the missing texts; they are also what the store is given. */
  method Generate(spec: Spec, service: Service, missing: seq<string>)
      returns (r: Option<map<string, Vector>>, calls: nat)
    requires AllDifferent(missing)
    ensures r.Some? ==> (forall text :: text in r.value <==> text in missing) && calls == Batches(|missing|)
    ensures calls <= Batches(|missing|)
    ensures Honest(spec, service) ==> r.Some? && forall text | text in missing :: r.value[text] == spec.embed(text)
  {
    var generated, made := EmbedBatches(spec, service, missing);
    calls := made;
    if generated.None? {
      return None, calls;
    }
    var saved := Zip(missing, generated.value);
    if Honest(spec, service) {
      forall text | text in missing
        ensures saved[text] == spec.embed(text)
      {
        var i :| 0 <= i < |missing| && missing[i] == text;
      }
    }
    return Some(saved), calls;
  }

  /** `_embed_with_cache`: one vector for each content, in order. Only what the store does not
      have is computed, each distinct text once, with a call for every ten; the store is given
      exactly these. If the store agrees with an honest service, each content gets its own
      vector, in whatever order the service answers and whatever the store forgot. */
  method EmbedWithCache(spec: Spec, service: Service, contents: seq<string>,
                        lookup: seq<string> -> Option<seq<Option<Vector>>>)
    returns (r: Option<seq<Vector>>, saved: map<string, Vector>, calls: nat, ghost missing: seq<string>)
    requires forall texts :: lookup(texts).Some? ==> |lookup(texts).value| == |texts|
    ensures AllDifferent(missing)
    ensures forall text :: text in missing <==>
            text in contents && !Hit(spec, Distinct(contents), lookup(Distinct(contents)), text)
    ensures r.Some? ==> |r.value| == |contents| && calls == Batches(|missing|) && forall text ::
            text in saved <==> text in missing
    ensures r.None? ==> calls <= Batches(|missing|) && saved == map[]
    ensures Honest(spec, service) && Agrees(spec, Distinct(contents), lookup(Distinct(contents))) ==>
      r == Some(Embedded(spec, contents)) && forall text | text in saved :: saved[text] == spec.embed(text)
  {
    var unique := Distinct(contents);
    DistinctKeeps(contents);
    var vectors := GetMany(spec, unique, lookup(unique));
    var absent := Missing(unique, vectors);
    missing := absent;
    saved, calls := map[], 0;
    if absent != [] {
      var generated, made := Generate(spec, service, absent);
      calls := made;
      if generated.None? {
        return None, saved, calls, missing;
      }
      saved := generated.value;
    }
    var result := PickUp(contents, vectors + saved);
    r := Some(result);
    if Honest(spec, service) && Agrees(spec, unique, lookup(unique)) {
      assert result == Embedded(spec, contents);
    }
  }
}
