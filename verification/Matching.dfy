/** Pairing things by class: any one-to-one pairing, how many of its pairs agree, and why
    none can have more than the class counts allow. */
module Pairing {
  import opened Text

  /** For each left item the right item it is paired with, if any. */
  type Assignment = seq<Option<nat>>

  /** The classes of the left and of the right items, None for an item that takes no part. */
  datatype Classes<K(==)> = Classes(left: seq<Option<K>>, right: seq<Option<K>>)

  /** No right item is used twice. */
  predicate OneToOne<K(==)>(c: Classes<K>, m: Assignment) {
    && |m| == |c.left|
    && (forall i | 0 <= i < |m| && m[i].Some? :: m[i].value < |c.right|)
    && forall i, j | 0 <= i < j < |m| && m[i].Some? && m[j].Some? :: m[i] != m[j]
  }

  /** The left item `i` is paired within its class. */
  predicate AgreesAt<K(==)>(c: Classes<K>, m: Assignment, i: nat) {
    && i < |m| && i < |c.left| && c.left[i].Some?
    && m[i].Some? && m[i].value < |c.right| && c.left[i] == c.right[m[i].value]
  }

  /** How many of the first `n` left items are paired within their class. */
  function Agreements<K(==)>(c: Classes<K>, m: Assignment, n: nat): nat {
    if n == 0 then 0 else Agreements(c, m, n - 1) + if AgreesAt(c, m, n - 1) then 1 else 0
  }

  function Single<K>(k: Option<K>): multiset<K> {
    if k.Some? then multiset{k.value} else multiset{}
  }

  /** The classes of the first `n` items, with multiplicity: a counter. */
  function Bag<K>(s: seq<Option<K>>, n: nat): multiset<K>
    requires n <= |s|
  {
    if n == 0 then multiset{} else Bag(s, n - 1) + Single(s[n - 1])
  }

  /** Over all classes, the smaller of the two counts: the size of the counters' intersection. */
  function Best<K(==)>(c: Classes<K>): nat {
    |Bag(c.left, |c.left|) * Bag(c.right, |c.right|)|
  }

  /** How many of the first `n` items are of class `k` and outside `hidden`. */
  function Held<K(==)>(s: seq<Option<K>>, hidden: set<nat>, k: K, n: nat): nat
    requires n <= |s|
  {
    if n == 0 then 0 else Held(s, hidden, k, n - 1) + if n - 1 !in hidden && s[n - 1] == Some(k) then 1 else 0
  }

  /** The right items in the agreeing pairs of the first `n` left items. */
  function UsedBy<K(==)>(c: Classes<K>, m: Assignment, n: nat): set<nat> {
    if n == 0 then {} else UsedBy(c, m, n - 1) + if AgreesAt(c, m, n - 1) then {m[n - 1].value} else {}
  }

  /** How many of the first `n` left items are of class `k` and not in an agreeing pair. */
  function Open<K(==)>(c: Classes<K>, m: Assignment, k: K, n: nat): nat
    requires n <= |c.left|
  {
    if n == 0 then 0 else Open(c, m, k, n - 1) + if c.left[n - 1] == Some(k) && !AgreesAt(c, m, n - 1) then 1 else 0
  }

  /** How many of the first `n` left items are of class `k` and in an agreeing pair. */
  function PairedCount<K(==)>(c: Classes<K>, m: Assignment, k: K, n: nat): nat
    requires n <= |c.left|
  {
    if n == 0 then 0 else PairedCount(c, m, k, n - 1) + if c.left[n - 1] == Some(k) && AgreesAt(c, m, n - 1) then 1
        else 0
  }

  /** The classes of the agreeing pairs, with multiplicity. */
  function PairedBag<K(==)>(c: Classes<K>, m: Assignment, n: nat): multiset<K>
    requires n <= |c.left|
  {
    if n == 0 then multiset{} else PairedBag(c, m, n - 1) + Single(if AgreesAt(c, m, n - 1)
        then c.left[n - 1] else None)
  }

  // ----- the books balance, class by class

  lemma {:induction false} BagCounts<K>(s: seq<Option<K>>, k: K, n: nat)
    requires n <= |s|
    ensures Bag(s, n)[k] == Held(s, {}, k, n)
  {
    if n > 0 {
      BagCounts(s, k, n - 1);
    }
  }

  lemma {:induction false} AgreementsAreBag<K>(c: Classes<K>, m: Assignment, n: nat)
    requires n <= |c.left|
    ensures Agreements(c, m, n) == |PairedBag(c, m, n)|
  {
    if n > 0 {
      AgreementsAreBag(c, m, n - 1);
    }
  }

  lemma {:induction false} HideOne<K>(s: seq<Option<K>>, hidden: set<nat>, more: set<nat>, p: nat, k: K, n: nat)
    requires p < n <= |s| && p !in hidden && p in more
    requires forall i: nat | i != p :: i in hidden <==> i in more
    ensures Held(s, hidden, k, n) == Held(s, more, k, n) + if s[p] == Some(k) then 1 else 0
  {
    if p < n - 1 {
      HideOne(s, hidden, more, p, k, n - 1);
    } else {
      HideBeyond(s, hidden, more, k, n - 1);
    }
  }

  lemma {:induction false} HideBeyond<K>(s: seq<Option<K>>, hidden: set<nat>, more: set<nat>, k: K, n: nat)
    requires n <= |s|
    requires forall i: nat | i < n :: i in hidden <==> i in more
    ensures Held(s, hidden, k, n) == Held(s, more, k, n)
  {
    if n > 0 {
      HideBeyond(s, hidden, more, k, n - 1);
    }
  }

  lemma {:induction false} UsedIsPaired<K>(c: Classes<K>, m: Assignment, n: nat, p: nat)
    requires p in UsedBy(c, m, n)
    ensures exists i | 0 <= i < n :: AgreesAt(c, m, i) && m[i] == Some(p)
  {
    if p in UsedBy(c, m, n - 1) {
      UsedIsPaired(c, m, n - 1, p);
    } else {
      assert AgreesAt(c, m, n - 1);
    }
  }

  lemma {:induction false} NotUsedYet<K>(c: Classes<K>, m: Assignment, n: nat)
    requires OneToOne(c, m) && n < |m| && AgreesAt(c, m, n)
    ensures m[n].value !in UsedBy(c, m, n)
  {
    if m[n].value in UsedBy(c, m, n) {
      UsedIsPaired(c, m, n, m[n].value);
      assert false;
    }
  }

  /** Of every class, the paired items and the others are all of them, on the right and on the left. */
  lemma {:induction false} RightBalances<K>(c: Classes<K>, m: Assignment, k: K, n: nat)
    requires OneToOne(c, m) && n <= |m|
    ensures Held(c.right, {}, k, |c.right|) == Held(c.right, UsedBy(c, m, n), k, |c.right|) + PairedCount(c, m, k, n)
  {
    if n > 0 {
      RightBalances(c, m, k, n - 1);
      if AgreesAt(c, m, n - 1) {
        NotUsedYet(c, m, n - 1);
        HideOne(c.right, UsedBy(c, m, n - 1), UsedBy(c, m, n), m[n - 1].value, k, |c.right|);
      } else {
        HideBeyond(c.right, UsedBy(c, m, n - 1), UsedBy(c, m, n), k, |c.right|);
      }
    }
  }

  lemma {:induction false} PairedCounts<K>(c: Classes<K>, m: Assignment, k: K, n: nat)
    requires n <= |c.left|
    ensures PairedBag(c, m, n)[k] == PairedCount(c, m, k, n)
  {
    if n > 0 {
      PairedCounts(c, m, k, n - 1);
    }
  }

  lemma {:induction false} LeftBalances<K>(c: Classes<K>, m: Assignment, k: K, n: nat)
    requires n <= |c.left|
    ensures Held(c.left, {}, k, n) == Open(c, m, k, n) + PairedCount(c, m, k, n)
  {
    if n > 0 {
      LeftBalances(c, m, k, n - 1);
    }
  }

  /** Of every class, the counts on both sides in terms of what is paired and what is not. */
  lemma {:induction false} Balanced<K>(c: Classes<K>, m: Assignment, k: K)
    requires OneToOne(c, m)
    ensures Bag(c.left, |m|)[k] == PairedBag(c, m, |m|)[k] + Open(c, m, k, |m|)
    ensures Bag(c.right, |c.right|)[k] == PairedBag(c, m, |m|)[k] + Held(c.right, UsedBy(c, m, |m|), k, |c.right|)
  {
    BagCounts(c.left, k, |m|);
    BagCounts(c.right, k, |c.right|);
    PairedCounts(c, m, k, |m|);
    LeftBalances(c, m, k, |m|);
    RightBalances(c, m, k, |m|);
  }

  // ----- optimality

  lemma {:induction false} SubBagIsSmaller<T>(a: multiset<T>, b: multiset<T>)
    requires a <= b
    ensures |a| <= |b|
  {
    assert b == a + (b - a);
  }

  /** No one-to-one pairing agrees more often than the class counts allow. */
  lemma {:induction false} NoneAgreesMore<K(!new)>(c: Classes<K>, m: Assignment)
    requires OneToOne(c, m)
    ensures Agreements(c, m, |m|) <= Best(c)
  {
    var paired, both := PairedBag(c, m, |m|), Bag(c.left, |c.left|) * Bag(c.right, |c.right|);
    forall k: K
      ensures paired[k] <= both[k]
    {
      Balanced(c, m, k);
    }
    AgreementsAreBag(c, m, |m|);
    SubBagIsSmaller(paired, both);
  }

  /** No left item outside the agreeing pairs shares its class with a right item outside them. */
  predicate Saturated<K(==)>(c: Classes<K>, m: Assignment) {
    forall i, p | 0 <= i < |c.left| && 0 <= p < |c.right| && c.left[i].Some? && c.left[i] == c.right[p] ::
      AgreesAt(c, m, i) || p in UsedBy(c, m, |m|)
  }

  lemma {:induction false} OpenMember<K>(c: Classes<K>, m: Assignment, k: K, n: nat) returns (i: nat)
    requires n <= |c.left| && Open(c, m, k, n) > 0
    ensures i < n && c.left[i] == Some(k) && !AgreesAt(c, m, i)
  {
    if Open(c, m, k, n - 1) > 0 {
      i := OpenMember(c, m, k, n - 1);
    } else {
      i := n - 1;
    }
  }

  lemma {:induction false} HeldMember<K>(s: seq<Option<K>>, hidden: set<nat>, k: K, n: nat) returns (p: nat)
    requires n <= |s| && Held(s, hidden, k, n) > 0
    ensures p < n && p !in hidden && s[p] == Some(k)
  {
    if Held(s, hidden, k, n - 1) > 0 {
      p := HeldMember(s, hidden, k, n - 1);
    } else {
      p := n - 1;
    }
  }

  /** A one-to-one pairing with nothing left to pair within a class is optimal. */
  lemma {:induction false} SaturatedIsBest<K(!new)>(c: Classes<K>, m: Assignment)
    requires OneToOne(c, m) && Saturated(c, m)
    ensures Agreements(c, m, |m|) == Best(c)
  {
    var paired, both := PairedBag(c, m, |m|), Bag(c.left, |c.left|) * Bag(c.right, |c.right|);
    forall k: K
      ensures paired[k] == both[k]
    {
      Balanced(c, m, k);
      if Open(c, m, k, |m|) > 0 && Held(c.right, UsedBy(c, m, |m|), k, |c.right|) > 0 {
        var i := OpenMember(c, m, k, |m|);
        var p := HeldMember(c.right, UsedBy(c, m, |m|), k, |c.right|);
        assert false;
      }
    }
    AgreementsAreBag(c, m, |m|);
    assert paired == both;
  }
}

/** How extracted relations are matched with the hand-made ones (evaluate_graph_quality.py,
    prepare_graph_holdout_review.py, replay_graph_zero_chunks.py). */
module Matching {
  import opened Text
  import opened Pairing

  /** An entity's type and normalised name. */
  datatype Entity = Entity(kind: string, name: string)

  datatype Signature = Signature(source: Entity, relation: string, target: Entity)

  datatype Gold = Gold(sourceId: string, targetId: string, signature: Signature,
      condition: Option<string>, quote: string)

  /** A predicted relation with one of its evidences; it has no signature unless it has exactly
      one typed subject and one typed object. */
  datatype Predicted = Predicted(signature: Option<Signature>, condition: Option<string>, quote: Option<string>)

  datatype Level = ConditionAndQuote | Condition | Triple

  /** The order in which the matcher tries the levels. */
  const LEVELS: seq<Level> := [ConditionAndQuote, Condition, Triple]

  /** Python's `text or None`. */
  function OrNone(text: Option<string>): Option<string> {
    if text == Some("") then None else text
  }

  /** Both endpoints are among the entities found; two entities that look alike are needed twice. */
  predicate EndpointsFound(found: multiset<Entity>, g: Gold) {
    var needed := if g.sourceId != g.targetId && g.signature.source == g.signature.target then 2 else 1;
    found[g.signature.source] >= needed && found[g.signature.target] >= needed
  }

  /** The matcher's test of one pair at one level. */
  predicate Accepts(level: Level, g: Gold, p: Predicted) {
    && p.signature == Some(g.signature)
    && (level != Triple ==> OrNone(p.condition) == OrNone(g.condition))
    && (level == ConditionAndQuote ==> p.quote == Some(g.quote))
  }

  /** What a level looks at, as one key. */
  datatype Key = Key(signature: Signature, condition: Option<string>, quote: Option<string>)

  function KeyAt(level: Level, signature: Signature, condition: Option<string>, quote: Option<string>): Key {
    Key(signature, if level == Triple then None
        else OrNone(condition), if level == ConditionAndQuote then quote else None)
  }

  function GoldKey(level: Level, found: multiset<Entity>, g: Gold): Option<Key> {
    if EndpointsFound(found, g) then Some(KeyAt(level, g.signature, g.condition, Some(g.quote))) else None
  }

  function PredictedKey(level: Level, p: Predicted): Option<Key> {
    if p.signature.Some? then Some(KeyAt(level, p.signature.value, p.condition, p.quote)) else None
  }

  /** The classes in which a level pairs. */
  function ClassesAt(level: Level, found: multiset<Entity>, gold: seq<Gold>, predicted: seq<Predicted>): Classes<Key> {
    Classes(seq(|gold|, i requires 0 <= i < |gold| => GoldKey(level, found, gold[i])),
            seq(|predicted|, p requires 0 <= p < |predicted| => PredictedKey(level, predicted[p])))
  }

  /** Every pair made so far is within its class. */
  predicate AllAgree(c: Classes<Key>, m: Assignment) {
    |m| == |c.left| && forall i: nat | i < |m| && m[i].Some? :: AgreesAt(c, m, i)
  }

  /** `used` is what the pairs made so far use. */
  predicate Tracks(used: set<nat>, m: Assignment) {
    && (forall i | 0 <= i < |m| && m[i].Some? :: m[i].value in used)
    && forall p | p in used :: HasPartner(m, p)
  }

  predicate HasPartner(m: Assignment, p: nat) {
    exists i :: 0 <= i < |m| && m[i] == Some(p)
  }

  predicate Extends(m: Assignment, more: Assignment) {
    |m| == |more| && forall i | 0 <= i < |m| && m[i].Some? :: more[i] == m[i]
  }

  /** Of the first `n` left items each is paired, or no right item of its class is left. */
  predicate DoneUpTo(c: Classes<Key>, m: Assignment, used: set<nat>, n: nat) {
    && n <= |c.left| == |m|
    && forall i, p | 0 <= i < n && 0 <= p < |c.right| && c.left[i].Some? && c.left[i] == c.right[p] ::
         m[i].Some? || p in used
  }

  /** What one level's loops take for granted and keep. */
  predicate Sound(c: Classes<Key>, m: Assignment, used: set<nat>) {
    OneToOne(c, m) && AllAgree(c, m) && Tracks(used, m)
  }

  /** The first prediction, from `from` on, that is free and accepted. */
  method FirstFree(level: Level, g: Gold, predicted: seq<Predicted>, used: set<nat>) returns (choice: Option<nat>)
    ensures choice.Some? ==>
            choice.value < |predicted| && choice.value !in used && Accepts(level, g, predicted[choice.value])
    ensures forall p | 0 <= p < (if choice.Some? then choice.value else |predicted|) ::
            p in used || !Accepts(level, g, predicted[p])
  {
    choice := None;
    for index := 0 to |predicted|
      invariant forall p | 0 <= p < index :: p in used || !Accepts(level, g, predicted[p])
    {
      if index !in used && Accepts(level, g, predicted[index]) {
        return Some(index);
      }
    }
  }

  /** One level's pass: it only adds pairs of its level and leaves none of them to be made. */
  method MatchLevel(level: Level, found: multiset<Entity>, gold: seq<Gold>, predicted: seq<Predicted>,
                    before: Assignment, taken: set<nat>)
      returns (m: Assignment, used: set<nat>)
    requires Sound(ClassesAt(level, found, gold, predicted), before, taken)
    ensures Sound(ClassesAt(level, found, gold, predicted), m, used) && Extends(before, m)
    ensures DoneUpTo(ClassesAt(level, found, gold, predicted), m, used, |gold|)
  {
    ghost var c := ClassesAt(level, found, gold, predicted);
    m, used := before, taken;
    for i := 0 to |gold|
      invariant Sound(c, m, used) && Extends(before, m) && DoneUpTo(c, m, used, i)
    {
      if EndpointsFound(found, gold[i]) && m[i].None? {
        var choice := FirstFree(level, gold[i], predicted, used);
        AcceptsIsSameKey(level, found, gold, predicted, i);
        if choice.Some? {
          PairKeeps(c, m, used, i, choice.value);
          m, used := m[i := choice], used + {choice.value};
        }
      }
    }
  }

  lemma {:induction false} AcceptsIsSameKey(level: Level, found: multiset<Entity>, gold: seq<Gold>,
                                            predicted: seq<Predicted>, i: nat)
    requires i < |gold| && EndpointsFound(found, gold[i])
    ensures forall p | 0 <= p < |predicted| ::
      Accepts(level, gold[i], predicted[p]) <==>
          ClassesAt(level, found, gold, predicted).left[i] == ClassesAt(level, found, gold, predicted).right[p]
  {
  }

  lemma {:induction false} PairKeeps(c: Classes<Key>, m: Assignment, used: set<nat>, i: nat, p: nat)
    requires Sound(c, m, used) && i < |m| && m[i].None? && p < |c.right| && p !in used
    requires c.left[i].Some? && c.left[i] == c.right[p]
    ensures Sound(c, m[i := Some(p)], used + {p})
  {
    var more := m[i := Some(p)];
    forall j: nat | j < |more| && more[j].Some?
      ensures AgreesAt(c, more, j)
    {
      assert j != i ==> AgreesAt(c, m, j);
    }
    forall q | q in used + {p}
      ensures HasPartner(more, q)
    {
      if q == p {
        assert more[i] == Some(p);
      } else {
        var j :| 0 <= j < |m| && m[j] == Some(q);
        assert more[j] == Some(q);
      }
    }
  }

  /** The whole matcher: the levels one after the other, the strictest first. */
  method MatchRelations(found: multiset<Entity>, gold: seq<Gold>, predicted: seq<Predicted>) returns (m: Assignment)
    ensures forall level: Level :: OptimalAt(level, found, gold, predicted, m)
    ensures AllAgree(ClassesAt(Triple, found, gold, predicted), m)
  {
    m := seq(|gold|, _ => None);
    var used: set<nat> := {};
    var pass := 0;
    while pass < 3
      invariant 0 <= pass <= 3
      invariant pass < 3 ==> Sound(ClassesAt(LEVELS[pass], found, gold, predicted), m, used)
      invariant pass == 3 ==> AllAgree(ClassesAt(Triple, found, gold, predicted), m)
      invariant forall k | 0 <= k < pass ::
                OneToOne(ClassesAt(LEVELS[k], found, gold, predicted), m)
                && Saturated(ClassesAt(LEVELS[k], found, gold, predicted), m)
    {
      var more, taken := MatchLevel(LEVELS[pass], found, gold, predicted, m, used);
      PassDone(found, gold, predicted, pass, m, more, taken);
      m, used, pass := more, taken, pass + 1;
    }
    AllSaturated(found, gold, predicted, m);
  }

  /** A stricter level's pairs are also the next level's. */
  lemma {:induction false} StricterAgrees(found: multiset<Entity>, gold: seq<Gold>, predicted: seq<Predicted>,
                                          pass: nat, m: Assignment, used: set<nat>)
    requires pass < 2 && Sound(ClassesAt(LEVELS[pass], found, gold, predicted), m, used)
    ensures Sound(ClassesAt(LEVELS[pass + 1], found, gold, predicted), m, used)
  {
    var c, d := ClassesAt(LEVELS[pass], found, gold, predicted), ClassesAt(LEVELS[pass + 1], found, gold, predicted);
    forall i: nat | i < |m| && m[i].Some?
      ensures AgreesAt(d, m, i)
    {
      assert AgreesAt(c, m, i);
    }
  }

  lemma {:induction false} UsedHas(c: Classes<Key>, m: Assignment, n: nat, i: nat)
    requires i < n && AgreesAt(c, m, i)
    ensures m[i].value in UsedBy(c, m, n)
  {
    if i < n - 1 {
      UsedHas(c, m, n - 1, i);
    }
  }

  /** A level that is done is saturated, and later passes keep it so. */
  lemma {:induction false} DoneSaturates(c: Classes<Key>, m: Assignment, used: set<nat>)
    requires Sound(c, m, used) && DoneUpTo(c, m, used, |m|)
    ensures Saturated(c, m)
  {
    forall i, p | 0 <= i < |c.left| && 0 <= p < |c.right| && c.left[i].Some? && c.left[i] == c.right[p]
      ensures AgreesAt(c, m, i) || p in UsedBy(c, m, |m|)
    {
      if m[i].None? {
        assert HasPartner(m, p);
        var j: nat :| j < |m| && m[j] == Some(p);
        UsedHas(c, m, |m|, j);
      }
    }
  }

  lemma {:induction false} ExtensionSaturates(c: Classes<Key>, m: Assignment, more: Assignment)
    requires OneToOne(c, m) && Saturated(c, m) && Extends(m, more)
    ensures Saturated(c, more)
  {
    forall i, p | 0 <= i < |c.left| && 0 <= p < |c.right| && c.left[i].Some? && c.left[i] == c.right[p]
      ensures AgreesAt(c, more, i) || p in UsedBy(c, more, |more|)
    {
      if !AgreesAt(c, m, i) {
        UsedIsPaired(c, m, |m|, p);
        var j: nat :| j < |m| && AgreesAt(c, m, j) && m[j] == Some(p);
        UsedHas(c, more, |more|, j);
      }
    }
  }

  lemma {:induction false} PassDone(found: multiset<Entity>, gold: seq<Gold>, predicted: seq<Predicted>, pass: nat,
                                    m: Assignment, more: Assignment, taken: set<nat>)
    requires pass < 3 && Extends(m, more)
    requires Sound(ClassesAt(LEVELS[pass], found, gold, predicted), more, taken)
    requires DoneUpTo(ClassesAt(LEVELS[pass], found, gold, predicted), more, taken, |gold|)
    requires forall k | 0 <= k < pass ::
             OneToOne(ClassesAt(LEVELS[k], found, gold, predicted), m)
             && Saturated(ClassesAt(LEVELS[k], found, gold, predicted), m)
    ensures pass < 2 ==> Sound(ClassesAt(LEVELS[pass + 1], found, gold, predicted), more, taken)
    ensures forall k | 0 <= k < pass + 1 ::
            OneToOne(ClassesAt(LEVELS[k], found, gold, predicted), more)
            && Saturated(ClassesAt(LEVELS[k], found, gold, predicted), more)
  {
    DoneSaturates(ClassesAt(LEVELS[pass], found, gold, predicted), more, taken);
    forall k | 0 <= k < pass
      ensures OneToOne(ClassesAt(LEVELS[k], found, gold, predicted), more)
              && Saturated(ClassesAt(LEVELS[k], found, gold, predicted), more)
    {
      ExtensionSaturates(ClassesAt(LEVELS[k], found, gold, predicted), m, more);
    }
    if pass < 2 {
      StricterAgrees(found, gold, predicted, pass, more, taken);
    }
  }

  /** At `level`, `m` makes as many pairs as the class counts allow, and no one-to-one pairing
      of these relations makes more. */
  ghost predicate OptimalAt(level: Level, found: multiset<Entity>, gold: seq<Gold>,
                            predicted: seq<Predicted>, m: Assignment) {
    var c := ClassesAt(level, found, gold, predicted);
    && OneToOne(c, m)
    && Agreements(c, m, |gold|) == Best(c)
    && forall other | OneToOne(c, other) :: Agreements(c, other, |gold|) <= Agreements(c, m, |gold|)
  }

  lemma {:induction false} AllSaturated(found: multiset<Entity>, gold: seq<Gold>,
                                        predicted: seq<Predicted>, m: Assignment)
    requires forall k | 0 <= k < 3 ::
             OneToOne(ClassesAt(LEVELS[k], found, gold, predicted), m)
             && Saturated(ClassesAt(LEVELS[k], found, gold, predicted), m)
    ensures forall level: Level :: OptimalAt(level, found, gold, predicted, m)
  {
    forall level: Level
      ensures OptimalAt(level, found, gold, predicted, m)
    {
      assert level == LEVELS[0] || level == LEVELS[1] || level == LEVELS[2];
      var c := ClassesAt(level, found, gold, predicted);
      SaturatedIsBest(c, m);
      forall other | OneToOne(c, other)
        ensures Agreements(c, other, |gold|) <= Agreements(c, m, |gold|)
      {
        NoneAgreesMore(c, other);
      }
    }
  }

  // ----- counting hits one by one

  /** What becomes of a gold relation. */
  datatype Outcome = Hit | BothMissing | SourceMissing | TargetMissing | RelationMissing

  /** A prediction's relations, between entities given by their place. */
  datatype Edge = Edge(source: nat, relation: string, target: nat)

  datatype Extraction = Extraction(entities: seq<Entity>, edges: seq<Edge>)

  predicate Closed(x: Extraction) {
    forall e | e in x.edges :: e.source < |x.entities| && e.target < |x.entities|
  }

  function SignatureOf(x: Extraction, e: Edge): Signature
    requires e.source < |x.entities| && e.target < |x.entities|
  {
    Signature(x.entities[e.source], e.relation, x.entities[e.target])
  }

  function SignaturesOf(x: Extraction): seq<Signature>
    requires Closed(x)
  {
    seq(|x.edges|, i requires 0 <= i < |x.edges| => SignatureOf(x, x.edges[i]))
  }

  /** How many of the first `n` outcomes are hits. */
  function HitsOf<T(==)>(outcomes: seq<T>, hit: T, n: nat): nat
    requires n <= |outcomes|
  {
    if n == 0 then 0 else HitsOf(outcomes, hit, n - 1) + if outcomes[n - 1] == hit then 1 else 0
  }

  function Tally<K>(s: seq<K>, n: nat): multiset<K>
    requires n <= |s|
  {
    if n == 0 then multiset{} else Tally(s, n - 1) + multiset{s[n - 1]}
  }

  /** A gold key is hit if it occurs among the predicted ones more often than in the gold keys
      before it. */
  predicate HitAt<K(==)>(all: multiset<K>, gold: seq<K>, i: nat)
    requires i < |gold|
  {
    all[gold[i]] > Tally(gold, i)[gold[i]]
  }

  /** What is left to take, with what was asked for before. */
  predicate Left<K(==)>(remaining: multiset<K>, all: multiset<K>, gold: seq<K>, i: nat)
    requires i <= |gold|
  {
    remaining == all - Tally(gold, i)
  }

  lemma {:induction false} LeftAfter<K>(remaining: multiset<K>, all: multiset<K>, gold: seq<K>, i: nat)
    requires i < |gold| && Left(remaining, all, gold, i)
    ensures remaining[gold[i]] > 0 <==> HitAt(all, gold, i)
    ensures Left(if HitAt(all, gold, i) then remaining - multiset{gold[i]} else remaining, all, gold, i + 1)
    ensures HitAt(all, gold, i) ==> gold[i] in all
  {
  }

  lemma {:induction false} TallyIsCounter<K>(s: seq<K>, n: nat)
    requires n <= |s|
    ensures Tally(s, n) == multiset(s[..n])
  {
    if n > 0 {
      TallyIsCounter(s, n - 1);
      assert s[..n] == s[..n - 1] + [s[n - 1]];
    }
  }

  lemma {:induction false} TakeOne<K>(seen: multiset<K>, all: multiset<K>, key: K)
    ensures |(seen + multiset{key}) * all| == |seen * all| + if all[key] > seen[key] then 1 else 0
  {
    if all[key] > seen[key] {
      assert (seen + multiset{key}) * all == seen * all + multiset{key};
    } else {
      assert (seen + multiset{key}) * all == seen * all;
    }
  }

  /** The outcomes say `hit` exactly of the keys that are. */
  predicate Marks<K(==), T(==)>(outcomes: seq<T>, hit: T, all: multiset<K>, gold: seq<K>) {
    |outcomes| == |gold| && forall i | 0 <= i < |gold| :: outcomes[i] == hit <==> HitAt(all, gold, i)
  }

  /** Hits counted one by one are the size of the intersection of two counters. */
  lemma {:induction false} HitsAreCommon<K, T>(all: multiset<K>, gold: seq<K>, outcomes: seq<T>, hit: T, n: nat)
    requires n <= |gold| && Marks(outcomes, hit, all, gold)
    ensures HitsOf(outcomes, hit, n) == |Tally(gold, n) * all|
  {
    if n > 0 {
      HitsAreCommon(all, gold, outcomes, hit, n - 1);
      TakeOne(Tally(gold, n - 1), all, gold[n - 1]);
    }
  }

  lemma {:induction false} AllHitsAreCommon<K, T>(all: multiset<K>, gold: seq<K>, outcomes: seq<T>, hit: T)
    requires Marks(outcomes, hit, all, gold)
    ensures HitsOf(outcomes, hit, |outcomes|) == |multiset(gold) * all|
  {
    HitsAreCommon(all, gold, outcomes, hit, |gold|);
    TallyIsCounter(gold, |gold|);
    assert gold[..|gold|] == gold;
  }

  // ----- entities

  datatype Finding = Found | WrongType | NotExtracted

  predicate Named(entities: seq<Entity>, name: string) {
    exists e | e in entities :: e.name == name
  }

  /** An entity is not extracted exactly if no predicted one has its name, whatever its type. */
  predicate FindingFits(finding: Finding, key: Entity, predicted: seq<Entity>) {
    finding == NotExtracted <==> !Named(predicted, key.name)
  }

  predicate FindingAt(finding: Finding, predicted: seq<Entity>, gold: seq<Entity>, i: nat)
    requires i < |gold|
  {
    (finding == Found <==> HitAt(multiset(predicted), gold, i)) && FindingFits(finding, gold[i], predicted)
  }

  /** Each finding so far is the right one. */
  predicate Noted(findings: seq<Finding>, predicted: seq<Entity>, gold: seq<Entity>) {
    |findings| <= |gold| && forall i {:trigger findings[i]} | 0 <= i < |findings| ::
        FindingAt(findings[i], predicted, gold, i)
  }

  lemma {:induction false} NoteOne(findings: seq<Finding>, finding: Finding, predicted: seq<Entity>, gold: seq<Entity>)
    requires Noted(findings, predicted, gold) && |findings| < |gold| && FindingAt(finding, predicted, gold, |findings|)
    ensures Noted(findings + [finding], predicted, gold)
  {
  }

  method Judge(predicted: seq<Entity>, hit: bool, key: Entity) returns (finding: Finding)
    requires hit ==> key in predicted
    ensures finding == Found <==> hit
    ensures FindingFits(finding, key, predicted)
  {
    finding := if hit then Found else if Named(predicted, key.name) then WrongType else NotExtracted;
  }

  /** The first loop of `analyze_recall`: gold entities in order, each taking one predicted entity
      of its key if one is left. */
  method TakeEntities(gold: seq<Entity>, predicted: seq<Entity>) returns (findings: seq<Finding>)
    ensures |findings| == |gold| && Noted(findings, predicted, gold)
  {
    var available := multiset(predicted);
    findings := [];
    for i := 0 to |gold|
      invariant |findings| == i && Left(available, multiset(predicted), gold, i) && Noted(findings, predicted, gold)
    {
      LeftAfter(available, multiset(predicted), gold, i);
      var hit := available[gold[i]] > 0;
      var finding := Judge(predicted, hit, gold[i]);
      if hit {
        available := available - multiset{gold[i]};
      }
      NoteOne(findings, finding, predicted, gold);
      findings := findings + [finding];
    }
  }

  // ----- relations

  /** What an outcome says of the endpoints: a hit has both, a miss names those that are missing. */
  predicate Explains(outcome: Outcome, key: Signature, pool: multiset<Entity>) {
    && (outcome == BothMissing || outcome == SourceMissing <==> pool[key.source] == 0)
    && (outcome == BothMissing || outcome == TargetMissing <==> pool[key.target] == 0)
  }

  /** Predicted relations are between predicted entities. */
  predicate Known(all: multiset<Signature>, pool: multiset<Entity>) {
    forall key | key in all :: pool[key.source] > 0 && pool[key.target] > 0
  }

  lemma {:induction false} PredictedAreKnown(predicted: Extraction)
    requires Closed(predicted)
    ensures Known(multiset(SignaturesOf(predicted)), multiset(predicted.entities))
  {
    forall key | key in multiset(SignaturesOf(predicted))
      ensures multiset(predicted.entities)[key.source] > 0 && multiset(predicted.entities)[key.target] > 0
    {
      assert key in SignaturesOf(predicted);
      var i :| 0 <= i < |predicted.edges| && SignaturesOf(predicted)[i] == key;
      assert predicted.edges[i] in predicted.edges;
    }
  }

  method Classify(pool: multiset<Entity>, hit: bool, key: Signature) returns (outcome: Outcome)
    requires hit ==> pool[key.source] > 0 && pool[key.target] > 0
    ensures outcome == Hit <==> hit
    ensures Explains(outcome, key, pool)
  {
    if hit {
      outcome := Hit;
    } else if pool[key.source] == 0 && pool[key.target] == 0 {
      outcome := BothMissing;
    } else if pool[key.source] == 0 {
      outcome := SourceMissing;
    } else if pool[key.target] == 0 {
      outcome := TargetMissing;
    } else {
      outcome := RelationMissing;
    }
  }

  /** The outcome of the gold relation `i`. */
  predicate OutcomeAt(outcome: Outcome, all: multiset<Signature>, pool: multiset<Entity>, gold: seq<Signature>, i: nat)
    requires i < |gold|
  {
    (outcome == Hit <==> HitAt(all, gold, i)) && Explains(outcome, gold[i], pool)
  }

  /** Each outcome so far is the right one. */
  predicate Recorded(outcomes: seq<Outcome>, all: multiset<Signature>, pool: multiset<Entity>, gold: seq<Signature>) {
    |outcomes| <= |gold| && forall i {:trigger outcomes[i]} | 0 <= i < |outcomes| ::
        OutcomeAt(outcomes[i], all, pool, gold, i)
  }

  lemma {:induction false} RecordOne(outcomes: seq<Outcome>, outcome: Outcome, all: multiset<Signature>,
                                     pool: multiset<Entity>,
                                     gold: seq<Signature>)
    requires Recorded(outcomes, all, pool, gold) && |outcomes| < |gold|
    requires OutcomeAt(outcome, all, pool, gold, |outcomes|)
    ensures Recorded(outcomes + [outcome], all, pool, gold)
  {
  }

  /** The second loop: gold relations in order, each taking one predicted relation of its key if
      one is left. */
  method TakeRelations(gold: seq<Signature>, pool: multiset<Entity>, all: multiset<Signature>)
      returns (outcomes: seq<Outcome>)
    requires Known(all, pool)
    ensures |outcomes| == |gold| && Recorded(outcomes, all, pool, gold)
  {
    var remaining := all;
    outcomes := [];
    for i := 0 to |gold|
      invariant |outcomes| == i && Left(remaining, all, gold, i) && Recorded(outcomes, all, pool, gold)
    {
      LeftAfter(remaining, all, gold, i);
      var hit := remaining[gold[i]] > 0;
      var outcome := Classify(pool, hit, gold[i]);
      if hit {
        remaining := remaining - multiset{gold[i]};
      }
      RecordOne(outcomes, outcome, all, pool, gold);
      outcomes := outcomes + [outcome];
    }
  }

  /** As many hits as the intersections of the gold and the predicted counters have elements, of
      entities and of relations; and every miss is explained. */
  method AnalyzeRecall(goldEntities: seq<Entity>, gold: seq<Signature>, predicted: Extraction)
    returns (findings: seq<Finding>, outcomes: seq<Outcome>)
    requires Closed(predicted)
    ensures |findings| == |goldEntities| && |outcomes| == |gold|
    ensures HitsOf(findings, Found, |findings|) == |multiset(goldEntities) * multiset(predicted.entities)|
    ensures HitsOf(outcomes, Hit, |outcomes|) == |multiset(gold) * multiset(SignaturesOf(predicted))|
    ensures forall i | 0 <= i < |goldEntities| :: FindingFits(findings[i], goldEntities[i], predicted.entities)
    ensures forall i | 0 <= i < |gold| :: Explains(outcomes[i], gold[i], multiset(predicted.entities))
  {
    findings := TakeEntities(goldEntities, predicted.entities);
    AllHitsAreCommon(multiset(predicted.entities), goldEntities, findings, Found);
    PredictedAreKnown(predicted);
    outcomes := TakeRelations(gold, multiset(predicted.entities), multiset(SignaturesOf(predicted)));
    AllHitsAreCommon(multiset(SignaturesOf(predicted)), gold, outcomes, Hit);
  }
}
