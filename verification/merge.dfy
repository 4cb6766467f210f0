/**
 * The merge resolver: one contact batch from the physics engine, folded pair
 * by pair over the session, with a per-batch set of ids that have already
 * merged.
 *
 * `ResolveFrom` is the fold as the game runs it. `Chosen` is an independent
 * description of which pairs merge (a greedy matching over ids), and
 * `ResolveCharacterized` ties the two together: the batch removes exactly the
 * chosen bodies, appends one successor body per chosen pair, and adds 10 per
 * chosen pair to the score.
 */
module Merge {
  import opened Wrappers
  import opened Dice
  import opened World
  import opened State

  /** Points awarded per merge. */
  const MergePoints: int := 10

  /** A contact reported by the engine between two bodies. */
  datatype Pair = Pair(a: Body, b: Body)

  /**
   * The outcome of a batch. `Threw` is the handler failing on two equal
   * labels that are not tier keys; the merges done before it persist.
   */
  datatype Resolution = Resolved(session: Session) | Threw(session: Session, text: string)

  /** Both bodies carry the same tier and that tier has a successor. */
  predicate Mergeable(p: Pair) {
    && p.a.kind == p.b.kind
    && p.a.kind.Key?
    && Next(p.a.kind.tier).Some?
  }

  /**
   * The merge condition on the label strings, as the handler tests it: the
   * labels are equal, the table has an entry for them, and that entry has a
   * successor.
   */
  lemma MergeableOnLabels(p: Pair)
    ensures var text := LabelText(p.a.kind);
      Mergeable(p) <==>
        && text == LabelText(p.b.kind)
        && TierOf(text).Some?
        && Next(TierOf(text).value).Some?
  {
    LabelTextInjective(p.a.kind, p.b.kind);
    if p.a.kind.Key? {
      TierOfName(LabelText(p.a.kind), p.a.kind.tier);
    }
  }

  /** The tier a mergeable pair turns into. */
  function Successor(p: Pair): (t: Tier)
    requires Mergeable(p)
    ensures Rank(t) == Rank(p.a.kind.tier) + 1
  {
    NextRaises(p.a.kind.tier);
    Next(p.a.kind.tier).value
  }

  /** The body a merge creates: the successor tier, at rest, at the midpoint. */
  function Merged(id: nat, p: Pair): (m: Body)
    requires Mergeable(p)
    ensures m.id == id && m.kind == Key(Successor(p))
    ensures m.pos == Midpoint(p.a.pos, p.b.pos)
    ensures !m.isStatic && !IsPreview(m) && m.vel == Zero
  {
    var mid := Midpoint(p.a.pos, p.b.pos);
    TierOfName(Name(Successor(p)), Successor(p));
    CreateDice(id, mid.x, mid.y, Name(Successor(p))).value
  }

  /**
   * One merge: both bodies leave the world, one successor body joins it at
   * the end, and the score rises by 10; nothing else changes.
   */
  function MergeInto(s: Session, p: Pair): (r: Session)
    requires Mergeable(p)
    ensures r.score == s.score + MergePoints && r.nextId == s.nextId + 1
    ensures r.(world := s.world, score := s.score, nextId := s.nextId) == s
    ensures forall b :: b in s.world && b.id != p.a.id && b.id != p.b.id ==> b in r.world
    ensures |r.world| > 0 && r.world[|r.world| - 1] == Merged(s.nextId, p)
    ensures forall b :: b in r.world && b != Merged(s.nextId, p) ==>
      b in s.world && b.id != p.a.id && b.id != p.b.id
  {
    var w := RemoveIds(s.world, {p.a.id, p.b.id}) + [Merged(s.nextId, p)];
    s.(world := w, score := s.score + MergePoints, nextId := s.nextId + 1)
  }

  /**
   * The fold over a batch, first pair first. A pair is skipped when one of
   * its bodies already merged in this batch, when its labels differ, or when
   * its tier is the last; equal labels that are not tier keys throw.
   */
  function ResolveFrom(s: Session, pairs: seq<Pair>, processed: set<nat>): (r: Resolution)
    ensures r.session.score >= s.score
    ensures r.session.(world := s.world, score := s.score, nextId := s.nextId) == s
    ensures r.Threw? ==> TierOf(r.text).None?
    decreases |pairs|
  {
    if |pairs| == 0 then Resolved(s)
    else
      var p := pairs[0];
      if p.a.id in processed || p.b.id in processed then ResolveFrom(s, pairs[1..], processed)
      else if p.a.kind != p.b.kind then ResolveFrom(s, pairs[1..], processed)
      else match p.a.kind
        case Other(text) => Threw(s, text)
        case Key(t) =>
          match Next(t)
          case None => ResolveFrom(s, pairs[1..], processed)
          case Some(_) => ResolveFrom(MergeInto(s, p), pairs[1..], processed + {p.a.id, p.b.id})
  }

  /**
   * The collision handler: a batch with a fresh, empty processed set. It
   * never lowers the score, throws only on a label that is not a tier key,
   * and, when equal labels are always tier keys, merges exactly the pairs
   * `Chosen` picks with nothing used beforehand.
   */
  function HandleCollision(s: Session, pairs: seq<Pair>): (r: Resolution)
    ensures r.session.score >= s.score
    ensures r.Threw? ==> TierOf(r.text).None?
    ensures PairIdsBelow(pairs, s.nextId) && NoStrayLabels(pairs) ==>
      AllMergeable(Chosen(pairs, {})) && r == Resolved(AfterMerges(s, Chosen(pairs, {})))
  {
    if PairIdsBelow(pairs, s.nextId) && NoStrayLabels(pairs) then
      ResolveCharacterized(s, pairs, {});
      ResolveFrom(s, pairs, {})
    else
      ResolveFrom(s, pairs, {})
  }

  // ---------------------------------------------------------------------
  // Which pairs merge: an independent description.
  // ---------------------------------------------------------------------

  /** Every id either body of any of the pairs carries. */
  function UsedIds(ps: seq<Pair>): (ids: set<nat>)
    ensures forall i :: 0 <= i < |ps| ==> ps[i].a.id in ids && ps[i].b.id in ids
  {
    if |ps| == 0 then {} else {ps[0].a.id, ps[0].b.id} + UsedIds(ps[1..])
  }

  /**
   * The pairs that merge, in delivery order: a mergeable pair is taken when
   * neither of its ids is in `used`, and its ids then join `used`.
   */
  function Chosen(pairs: seq<Pair>, used: set<nat>): (ch: seq<Pair>)
    ensures |ch| <= |pairs|
    decreases |pairs|
  {
    if |pairs| == 0 then []
    else
      var p := pairs[0];
      if p.a.id !in used && p.b.id !in used && Mergeable(p) then
        [p] + Chosen(pairs[1..], used + {p.a.id, p.b.id})
      else
        Chosen(pairs[1..], used)
  }

  /** Every pair of the list can merge. */
  predicate AllMergeable(ch: seq<Pair>) {
    forall i :: 0 <= i < |ch| ==> Mergeable(ch[i])
  }

  /** Every chosen pair is one of the delivered pairs, and it can merge. */
  lemma {:induction false} ChosenFacts(pairs: seq<Pair>, used: set<nat>)
    ensures AllMergeable(Chosen(pairs, used))
    ensures forall q :: q in Chosen(pairs, used) ==> q in pairs
    decreases |pairs|
  {
    if |pairs| > 0 {
      var p := pairs[0];
      if p.a.id !in used && p.b.id !in used && Mergeable(p) {
        var ch1 := Chosen(pairs[1..], used + {p.a.id, p.b.id});
        ChosenFacts(pairs[1..], used + {p.a.id, p.b.id});
        assert Chosen(pairs, used) == [p] + ch1;
        forall i | 0 < i < |[p] + ch1| ensures ([p] + ch1)[i] == ch1[i - 1] { }
      } else {
        ChosenFacts(pairs[1..], used);
      }
    }
  }

  /** The bodies the chosen pairs create, with ids counted up from `first`. */
  function Spawned(first: nat, ch: seq<Pair>): (w: seq<Body>)
    requires AllMergeable(ch)
    ensures |w| == |ch|
    ensures forall i :: 0 <= i < |w| ==> w[i] == Merged(first + i, ch[i])
    decreases |ch|
  {
    if |ch| == 0 then [] else [Merged(first, ch[0])] + Spawned(first + 1, ch[1..])
  }

  /** The session a batch leaves behind when the pairs `ch` merge. */
  function AfterMerges(s: Session, ch: seq<Pair>): Session
    requires AllMergeable(ch)
  {
    s.(world := RemoveIds(s.world, UsedIds(ch)) + Spawned(s.nextId, ch),
       score := s.score + MergePoints * |ch|,
       nextId := s.nextId + |ch|)
  }

  /** Equal labels in a pair are always tier keys: the handler cannot throw. */
  predicate NoStrayLabels(pairs: seq<Pair>) {
    forall i :: 0 <= i < |pairs| && pairs[i].a.kind == pairs[i].b.kind ==> pairs[i].a.kind.Key?
  }

  /** Every body of every pair has an id below `bound`. */
  predicate PairIdsBelow(pairs: seq<Pair>, bound: nat) {
    forall i :: 0 <= i < |pairs| ==> pairs[i].a.id < bound && pairs[i].b.id < bound
  }

  lemma {:induction false} UsedIdsBelow(ps: seq<Pair>, bound: nat)
    requires PairIdsBelow(ps, bound)
    ensures forall k :: k in UsedIds(ps) ==> k < bound
    decreases |ps|
  {
    if |ps| > 0 {
      UsedIdsBelow(ps[1..], bound);
    }
  }

  lemma {:induction false} ChosenIdsBelow(pairs: seq<Pair>, used: set<nat>, bound: nat)
    requires PairIdsBelow(pairs, bound)
    ensures forall k :: k in UsedIds(Chosen(pairs, used)) ==> k < bound
  {
    var ch := Chosen(pairs, used);
    ChosenFacts(pairs, used);
    forall i | 0 <= i < |ch| ensures ch[i].a.id < bound && ch[i].b.id < bound {
      assert ch[i] in pairs;
    }
    UsedIdsBelow(ch, bound);
  }

  /**
   * The fold does exactly what `Chosen` describes: it removes the chosen
   * pairs' bodies, appends their successors in order, and scores each.
   */
  lemma {:induction false} ResolveCharacterized(s: Session, pairs: seq<Pair>, used: set<nat>)
    requires PairIdsBelow(pairs, s.nextId)
    requires NoStrayLabels(pairs)
    ensures AllMergeable(Chosen(pairs, used))
    ensures ResolveFrom(s, pairs, used) == Resolved(AfterMerges(s, Chosen(pairs, used)))
    decreases |pairs|
  {
    ChosenFacts(pairs, used);
    if |pairs| == 0 {
      RemoveIdsAbsent(s.world, {});
      assert s.world + [] == s.world;
    } else {
      var p, rest := pairs[0], pairs[1..];
      assert PairIdsBelow(rest, s.nextId) && NoStrayLabels(rest) by {
        forall i | 0 <= i < |rest| ensures rest[i] == pairs[i + 1] { }
      }
      if p.a.id !in used && p.b.id !in used && Mergeable(p) {
        var s1 := MergeInto(s, p);
        var used1 := used + {p.a.id, p.b.id};
        var ch1 := Chosen(rest, used1);
        assert Chosen(pairs, used) == [p] + ch1;
        ResolveCharacterized(s1, rest, used1);
        assert ResolveFrom(s, pairs, used) == ResolveFrom(s1, rest, used1);
        ChosenIdsBelow(rest, used1, s.nextId);
        AfterMergesStep(s, p, ch1, Chosen(pairs, used));
      } else {
        assert Chosen(pairs, used) == Chosen(rest, used);
        ResolveCharacterized(s, rest, used);
      }
    }
  }

  /**
   * A batch that throws keeps the merges made before the failing pair. When
   * pair `k` is the first pair with equal labels that are not a tier key, and
   * neither of its bodies merged earlier in the batch, the handler throws on
   * its label. The session it leaves is the one after exactly the merges
   * `Chosen` picks among the pairs `0 .. k - 1`.
   */
  lemma {:induction false} ResolveThrows(s: Session, pairs: seq<Pair>, used: set<nat>, k: nat)
    requires k < |pairs|
    requires PairIdsBelow(pairs[..k], s.nextId)
    requires NoStrayLabels(pairs[..k])
    requires pairs[k].a.kind == pairs[k].b.kind && pairs[k].a.kind.Other?
    requires var u := used + UsedIds(Chosen(pairs[..k], used));
      pairs[k].a.id !in u && pairs[k].b.id !in u
    ensures AllMergeable(Chosen(pairs[..k], used))
    ensures ResolveFrom(s, pairs, used)
      == Threw(AfterMerges(s, Chosen(pairs[..k], used)), LabelText(pairs[k].a.kind))
    decreases k
  {
    ChosenFacts(pairs[..k], used);
    var text := LabelText(pairs[k].a.kind);
    if k == 0 {
      assert pairs[..k] == [];
      NoMerges(s);
    } else {
      var p, rest := pairs[0], pairs[1..];
      var pre, pre1 := pairs[..k], rest[..k - 1];
      PrefixTail(pairs, k, s.nextId);
      if p.a.id !in used && p.b.id !in used && Mergeable(p) {
        var s1 := MergeInto(s, p);
        var used1 := used + {p.a.id, p.b.id};
        var ch1 := Chosen(pre1, used1);
        assert Chosen(pre, used) == [p] + ch1;
        ConsParts(p, ch1);
        assert used + UsedIds(Chosen(pre, used)) == used1 + UsedIds(ch1);
        ResolveThrows(s1, rest, used1, k - 1);
        ResolveFirstMerges(s, pairs, used);
        MergeThenChosen(s, p, pre1, used1);
        assert ResolveFrom(s, pairs, used) == Threw(AfterMerges(s, Chosen(pre, used)), text);
      } else {
        assert Chosen(pre, used) == Chosen(pre1, used);
        ResolveThrows(s, rest, used, k - 1);
        ResolveFirstSkipped(s, pairs, used);
        assert ResolveFrom(s, pairs, used) == Threw(AfterMerges(s, Chosen(pre, used)), text);
      }
    }
  }

  /** A first pair that merges is merged, and the fold goes on with its ids used. */
  lemma ResolveFirstMerges(s: Session, pairs: seq<Pair>, used: set<nat>)
    requires |pairs| > 0 && Mergeable(pairs[0])
    requires pairs[0].a.id !in used && pairs[0].b.id !in used
    ensures var p := pairs[0];
      ResolveFrom(s, pairs, used) == ResolveFrom(MergeInto(s, p), pairs[1..], used + {p.a.id, p.b.id})
  {
  }

  /** A first pair that cannot merge, and whose labels are not a stray key, is skipped. */
  lemma ResolveFirstSkipped(s: Session, pairs: seq<Pair>, used: set<nat>)
    requires |pairs| > 0
    requires pairs[0].a.kind == pairs[0].b.kind ==> pairs[0].a.kind.Key?
    requires !(pairs[0].a.id !in used && pairs[0].b.id !in used && Mergeable(pairs[0]))
    ensures ResolveFrom(s, pairs, used) == ResolveFrom(s, pairs[1..], used)
  {
  }

  /** No merges leave the session as it was. */
  lemma NoMerges(s: Session)
    ensures AfterMerges(s, []) == s
  {
    RemoveIdsAbsent(s.world, {});
    assert s.world + [] == s.world;
  }

  /** Dropping the first pair of a batch shifts its prefixes by one. */
  lemma PrefixTail(pairs: seq<Pair>, k: nat, bound: nat)
    requires 0 < k < |pairs|
    requires PairIdsBelow(pairs[..k], bound) && NoStrayLabels(pairs[..k])
    ensures pairs[..k][0] == pairs[0] && pairs[..k][1..] == pairs[1..][..k - 1]
    ensures pairs[1..][k - 1] == pairs[k]
    ensures PairIdsBelow(pairs[1..][..k - 1], bound) && NoStrayLabels(pairs[1..][..k - 1])
  {
    var pre, pre1 := pairs[..k], pairs[1..][..k - 1];
    forall i | 0 <= i < |pre1| ensures pre1[i] == pre[i + 1] { }
  }

  /** A merge followed by the pairs `Chosen` picks from `pre1` with its ids used. */
  lemma MergeThenChosen(s: Session, p: Pair, pre1: seq<Pair>, used1: set<nat>)
    requires Mergeable(p)
    requires PairIdsBelow(pre1, s.nextId)
    ensures AllMergeable(Chosen(pre1, used1)) && AllMergeable([p] + Chosen(pre1, used1))
    ensures AfterMerges(MergeInto(s, p), Chosen(pre1, used1)) == AfterMerges(s, [p] + Chosen(pre1, used1))
  {
    var ch1 := Chosen(pre1, used1);
    ChosenFacts(pre1, used1);
    ChosenIdsBelow(pre1, used1, s.nextId);
    assert AllMergeable([p] + ch1) by {
      forall i | 0 < i < |[p] + ch1| ensures ([p] + ch1)[i] == ch1[i - 1] { }
    }
    AfterMergesStep(s, p, ch1, [p] + ch1);
  }

  /** One merge followed by the merges `ch1` is the merges `ch` = `[p] + ch1`. */
  lemma {:induction false} AfterMergesStep(s: Session, p: Pair, ch1: seq<Pair>, ch: seq<Pair>)
    requires Mergeable(p)
    requires AllMergeable(ch1)
    requires forall k :: k in UsedIds(ch1) ==> k < s.nextId
    requires ch == [p] + ch1
    requires AllMergeable(ch)
    ensures AfterMerges(MergeInto(s, p), ch1) == AfterMerges(s, ch)
  {
    AfterMergesWorld(s, p, ch1, ch);
    assert |ch| == |ch1| + 1;
  }

  lemma {:induction false} AfterMergesWorld(s: Session, p: Pair, ch1: seq<Pair>, ch: seq<Pair>)
    requires Mergeable(p)
    requires AllMergeable(ch1)
    requires forall k :: k in UsedIds(ch1) ==> k < s.nextId
    requires ch == [p] + ch1
    requires AllMergeable(ch)
    ensures AfterMerges(MergeInto(s, p), ch1).world == AfterMerges(s, ch).world
  {
    MergeThenWorld(s, p, ch1);
    WorldStep(s.world, p, ch1, s.nextId);
  }

  /** The world after one merge and then the merges `ch1`, spelled out. */
  lemma MergeThenWorld(s: Session, p: Pair, ch1: seq<Pair>)
    requires Mergeable(p)
    requires AllMergeable(ch1)
    ensures AfterMerges(MergeInto(s, p), ch1).world
         == RemoveIds(RemoveIds(s.world, {p.a.id, p.b.id}) + [Merged(s.nextId, p)], UsedIds(ch1))
            + Spawned(s.nextId + 1, ch1)
  {
  }

  /** The world-list half of `AfterMergesStep`. */
  lemma {:induction false} WorldStep(w: seq<Body>, p: Pair, ch1: seq<Pair>, first: nat)
    requires Mergeable(p)
    requires AllMergeable(ch1)
    requires forall k :: k in UsedIds(ch1) ==> k < first
    ensures RemoveIds(RemoveIds(w, {p.a.id, p.b.id}) + [Merged(first, p)], UsedIds(ch1)) + Spawned(first + 1, ch1)
         == RemoveIds(w, UsedIds([p] + ch1)) + Spawned(first, [p] + ch1)
  {
    var m := Merged(first, p);
    var later := UsedIds(ch1);
    var kept := RemoveIds(w, {p.a.id, p.b.id});
    var rest := Spawned(first + 1, ch1);
    assert RemoveIds(kept + [m], later) == RemoveIds(w, UsedIds([p] + ch1)) + [m] by {
      ConsParts(p, ch1);
      assert m.id !in later;
      RemoveIdsAppend(kept, [m], later);
      RemoveIdsTwice(w, {p.a.id, p.b.id}, later);
      assert RemoveIds([m], later) == [m];
    }
    assert Spawned(first, [p] + ch1) == [m] + rest by {
      SpawnedCons(first, p, ch1);
    }
    AppendAssoc(RemoveIds(w, UsedIds([p] + ch1)), [m], rest);
  }

  lemma AppendAssoc<T>(a: seq<T>, b: seq<T>, c: seq<T>)
    ensures (a + b) + c == a + (b + c)
  {
  }

  /** The ids of `[p] + ch1` are those of `p` and those of `ch1`. */
  lemma ConsParts(p: Pair, ch1: seq<Pair>)
    ensures ([p] + ch1)[0] == p && ([p] + ch1)[1..] == ch1
    ensures UsedIds([p] + ch1) == {p.a.id, p.b.id} + UsedIds(ch1)
  {
    assert ([p] + ch1)[1..] == ch1;
  }

  /** The first merge of a list takes the first id, the rest follow it. */
  lemma SpawnedCons(first: nat, p: Pair, ch1: seq<Pair>)
    requires Mergeable(p)
    requires AllMergeable(ch1)
    ensures Spawned(first, [p] + ch1) == [Merged(first, p)] + Spawned(first + 1, ch1)
  {
    assert ([p] + ch1)[1..] == ch1;
  }

  // ---------------------------------------------------------------------
  // Properties of the chosen pairs.
  // ---------------------------------------------------------------------

  /** No pair is a body touching itself. */
  predicate DistinctBodies(pairs: seq<Pair>) {
    forall i :: 0 <= i < |pairs| ==> pairs[i].a.id != pairs[i].b.id
  }

  /**
   * Each id takes part in at most one merge of a batch: the chosen pairs are
   * pairwise disjoint, avoid the ids already used, and so use exactly two
   * ids each.
   */
  lemma {:induction false} ChosenDisjoint(pairs: seq<Pair>, used: set<nat>)
    requires DistinctBodies(pairs)
    ensures var ch := Chosen(pairs, used);
      && UsedIds(ch) !! used
      && |UsedIds(ch)| == 2 * |ch|
      && forall i, j :: 0 <= i < j < |ch| ==> {ch[i].a.id, ch[i].b.id} !! {ch[j].a.id, ch[j].b.id}
    decreases |pairs|
  {
    if |pairs| > 0 {
      var p, rest := pairs[0], pairs[1..];
      assert DistinctBodies(rest) by {
        forall i | 0 <= i < |rest| ensures rest[i] == pairs[i + 1] { }
      }
      if p.a.id !in used && p.b.id !in used && Mergeable(p) {
        var used1 := used + {p.a.id, p.b.id};
        ChosenDisjoint(rest, used1);
        var ch1 := Chosen(rest, used1);
        var ch := [p] + ch1;
        assert ch[1..] == ch1;
        assert UsedIds(ch) == {p.a.id, p.b.id} + UsedIds(ch1);
        assert |{p.a.id, p.b.id}| == 2;
        forall i, j | 0 <= i < j < |ch| ensures {ch[i].a.id, ch[i].b.id} !! {ch[j].a.id, ch[j].b.id} {
          if i > 0 {
            assert ch[i] == ch1[i - 1] && ch[j] == ch1[j - 1];
          } else {
            assert ch[j] == ch1[j - 1];
            assert ch1[j - 1].a.id in UsedIds(ch1) && ch1[j - 1].b.id in UsedIds(ch1);
          }
        }
      } else {
        ChosenDisjoint(rest, used);
      }
    }
  }

  /**
   * The matching is maximal and first come, first served. After the batch
   * every mergeable pair has a body that merged (or was used before). Pair
   * `i` merges exactly when it is mergeable and neither of its bodies was
   * used before the batch or merged in one of the pairs `0 .. i - 1`.
   */
  lemma {:induction false} ChosenMaximal(pairs: seq<Pair>, used: set<nat>)
    ensures var u := used + UsedIds(Chosen(pairs, used));
      forall i :: 0 <= i < |pairs| && Mergeable(pairs[i]) ==> pairs[i].a.id in u || pairs[i].b.id in u
    ensures forall i :: 0 <= i < |pairs| ==> ChosenNext(pairs[..i], pairs[i], used)
    decreases |pairs|
  {
    ChosenInOrder(pairs, used);
    if |pairs| > 0 {
      var p, rest := pairs[0], pairs[1..];
      var u := used + UsedIds(Chosen(pairs, used));
      if p.a.id !in used && p.b.id !in used && Mergeable(p) {
        var used1 := used + {p.a.id, p.b.id};
        var ch1 := Chosen(rest, used1);
        ChosenMaximal(rest, used1);
        assert ([p] + ch1)[1..] == ch1;
        assert u == used1 + UsedIds(ch1);
      } else {
        ChosenMaximal(rest, used);
      }
      forall i | 0 < i < |pairs| ensures pairs[i] == rest[i - 1] { }
    }
  }

  /**
   * What one more delivered pair `q` adds to the pairs that merge from `ps`:
   * `q` itself when it is mergeable and neither of its bodies is used yet,
   * nothing otherwise.
   */
  predicate ChosenNext(ps: seq<Pair>, q: Pair, used: set<nat>) {
    var ch := Chosen(ps, used);
    var u := used + UsedIds(ch);
    Chosen(ps + [q], used) == ch + (if q.a.id !in u && q.b.id !in u && Mergeable(q) then [q] else [])
  }

  /** Extending a batch by one pair at the end. */
  lemma {:induction false} ChosenSnoc(ps: seq<Pair>, q: Pair, used: set<nat>)
    ensures ChosenNext(ps, q, used)
    decreases |ps|
  {
    if |ps| == 0 {
      assert ps + [q] == [q];
      assert [q][1..] == [];
    } else {
      var p, rest := ps[0], ps[1..];
      assert (ps + [q])[0] == p && (ps + [q])[1..] == rest + [q];
      if p.a.id !in used && p.b.id !in used && Mergeable(p) {
        var used1 := used + {p.a.id, p.b.id};
        ChosenSnoc(rest, q, used1);
        var ch1 := Chosen(rest, used1);
        ConsParts(p, ch1);
        assert used + UsedIds([p] + ch1) == used1 + UsedIds(ch1);
        var u := used1 + UsedIds(ch1);
        AppendAssoc([p], ch1, if q.a.id !in u && q.b.id !in u && Mergeable(q) then [q] else []);
      } else {
        ChosenSnoc(rest, q, used);
      }
    }
  }

  /** Every prefix of a batch grows by its next pair as `ChosenNext` says. */
  lemma ChosenInOrder(pairs: seq<Pair>, used: set<nat>)
    ensures forall i :: 0 <= i < |pairs| ==> ChosenNext(pairs[..i], pairs[i], used)
  {
    forall i | 0 <= i < |pairs| ensures ChosenNext(pairs[..i], pairs[i], used) {
      ChosenSnoc(pairs[..i], pairs[i], used);
    }
  }

  // ---------------------------------------------------------------------
  // The handler on sessions.
  // ---------------------------------------------------------------------

  /**
   * A batch the engine can deliver in a valid session: both bodies of every
   * pair are in the world, neither is the preview (its collision filter
   * excludes it from all contacts), and no body touches itself.
   */
  predicate WellFormedBatch(s: Session, pairs: seq<Pair>) {
    forall i :: 0 <= i < |pairs| ==>
      && pairs[i].a in s.world && pairs[i].b in s.world
      && !IsPreview(pairs[i].a) && !IsPreview(pairs[i].b)
      && pairs[i].a.id != pairs[i].b.id
  }

  /** The ids a batch touches are known bodies other than the preview. */
  predicate BatchAvoidsPreview(s: Session, pairs: seq<Pair>) {
    && PairIdsBelow(pairs, s.nextId)
    && forall i :: 0 <= i < |pairs| ==> s.current != Some(pairs[i].a.id) && s.current != Some(pairs[i].b.id)
  }

  lemma {:induction false} WellFormedBatchAvoidsPreview(s: Session, pairs: seq<Pair>)
    requires Valid(s) && WellFormedBatch(s, pairs)
    ensures BatchAvoidsPreview(s, pairs)
  {
    forall i | 0 <= i < |pairs|
      ensures pairs[i].a.id < s.nextId && pairs[i].b.id < s.nextId
      ensures s.current != Some(pairs[i].a.id) && s.current != Some(pairs[i].b.id)
    {
      var ia :| 0 <= ia < |s.world| && s.world[ia] == pairs[i].a;
      var ib :| 0 <= ib < |s.world| && s.world[ib] == pairs[i].b;
    }
  }

  /** A merge of two non-preview bodies keeps the session valid. */
  lemma {:induction false} MergeKeepsValid(s: Session, p: Pair)
    requires Valid(s) && Mergeable(p)
    requires s.current != Some(p.a.id) && s.current != Some(p.b.id)
    ensures Valid(MergeInto(s, p))
  {
    var r := MergeInto(s, p);
    var kept := RemoveIds(s.world, {p.a.id, p.b.id});
    var m := Merged(s.nextId, p);
    assert r.world == kept + [m];
    assert forall i :: 0 <= i < |kept| ==> kept[i] in s.world;
    assert UniqueIds(kept) by {
      RemoveIdsUnique(s.world, {p.a.id, p.b.id});
    }
    forall i | 0 <= i < |r.world| ensures r.world[i].id < r.nextId {
      if i < |kept| {
        assert kept[i] in s.world;
      }
    }
    forall i, j | 0 <= i < j < |r.world| ensures r.world[i].id != r.world[j].id {
      if j == |kept| {
        assert kept[i] in s.world;
      }
    }
    if s.current.Some? {
      var k :| 0 <= k < |s.world| && s.world[k].id == s.current.value;
      assert s.world[k] in r.world;
      forall i | 0 <= i < |r.world| && r.world[i].id == s.current.value ensures IsPreview(r.world[i]) {
        if i < |kept| {
          assert kept[i] in s.world;
        }
      }
    }
    forall i | 0 <= i < |r.world| && IsPreview(r.world[i]) ensures r.current == Some(r.world[i].id) {
      if i < |kept| {
        assert kept[i] in s.world;
      }
    }
  }

  /** Every batch step keeps the session valid, whichever way it ends. */
  lemma {:induction false} ResolveKeepsValid(s: Session, pairs: seq<Pair>, processed: set<nat>)
    requires Valid(s) && BatchAvoidsPreview(s, pairs)
    ensures Valid(ResolveFrom(s, pairs, processed).session)
    decreases |pairs|
  {
    if |pairs| > 0 {
      var p, rest := pairs[0], pairs[1..];
      assert BatchAvoidsPreview(s, rest) by {
        forall i | 0 <= i < |rest| ensures rest[i] == pairs[i + 1] { }
      }
      if p.a.id !in processed && p.b.id !in processed && Mergeable(p) {
        MergeKeepsValid(s, p);
        ResolveKeepsValid(MergeInto(s, p), rest, processed + {p.a.id, p.b.id});
      } else if p.a.id in processed || p.b.id in processed || p.a.kind != p.b.kind || p.a.kind.Key? {
        ResolveKeepsValid(s, rest, processed);
      }
    }
  }

  /** The collision handler keeps the session valid: still at most one preview. */
  lemma {:induction false} HandleCollisionKeepsValid(s: Session, pairs: seq<Pair>)
    requires Valid(s) && WellFormedBatch(s, pairs)
    ensures Valid(HandleCollision(s, pairs).session)
  {
    WellFormedBatchAvoidsPreview(s, pairs);
    ResolveKeepsValid(s, pairs, {});
  }

  lemma {:induction false} UsedIdsInWorld(ps: seq<Pair>, w: seq<Body>)
    requires forall i :: 0 <= i < |ps| ==> ps[i].a in w && ps[i].b in w
    ensures UsedIds(ps) <= IdSet(w)
    decreases |ps|
  {
    if |ps| > 0 {
      UsedIdsInWorld(ps[1..], w);
    }
  }

  /**
   * Counting a batch: the score rises by 10 per merge and the number of
   * bodies falls by one per merge, the merges being the chosen pairs.
   */
  lemma {:induction false} HandleCollisionCounts(s: Session, pairs: seq<Pair>)
    requires Valid(s) && WellFormedBatch(s, pairs) && NoStrayLabels(pairs)
    ensures var ch := Chosen(pairs, {});
      && HandleCollision(s, pairs).Resolved?
      && HandleCollision(s, pairs).session.score == s.score + MergePoints * |ch|
      && |HandleCollision(s, pairs).session.world| == |s.world| - |ch|
  {
    var ch := Chosen(pairs, {});
    WellFormedBatchAvoidsPreview(s, pairs);
    ResolveCharacterized(s, pairs, {});
    assert |HandleCollision(s, pairs).session.world| == |RemoveIds(s.world, UsedIds(ch))| + |ch|;
    ChosenUsesWorldIds(s, pairs);
    RemoveIdsCount(s.world, UsedIds(ch));
  }

  /** The chosen pairs use 2 ids each, all of them ids of bodies in the world. */
  lemma ChosenUsesWorldIds(s: Session, pairs: seq<Pair>)
    requires WellFormedBatch(s, pairs)
    ensures UsedIds(Chosen(pairs, {})) <= IdSet(s.world)
    ensures |UsedIds(Chosen(pairs, {}))| == 2 * |Chosen(pairs, {})|
  {
    var ch := Chosen(pairs, {});
    ChosenFacts(pairs, {});
    assert DistinctBodies(pairs);
    ChosenDisjoint(pairs, {});
    forall i | 0 <= i < |ch| ensures ch[i].a in s.world && ch[i].b in s.world {
      assert ch[i] in pairs;
    }
    UsedIdsInWorld(ch, s.world);
  }

  /**
   * A batch with no mergeable pair, such as two final-tier dice touching,
   * leaves the world and the score as they were.
   */
  lemma {:induction false} NoMergeableNoChange(s: Session, pairs: seq<Pair>, processed: set<nat>)
    requires NoStrayLabels(pairs)
    requires forall i :: 0 <= i < |pairs| ==> !Mergeable(pairs[i])
    ensures ResolveFrom(s, pairs, processed) == Resolved(s)
    decreases |pairs|
  {
    if |pairs| > 0 {
      var rest := pairs[1..];
      forall i | 0 <= i < |rest| ensures rest[i] == pairs[i + 1] { }
      NoMergeableNoChange(s, rest, processed);
    }
  }

  /** Two final-tier dice never merge. */
  lemma FinalTierNeverMerges(p: Pair)
    requires LabelText(p.a.kind) == Name(D1000) && LabelText(p.b.kind) == Name(D1000)
    ensures !Mergeable(p)
  {
    LabelTextInjective(p.a.kind, Key(D1000));
  }

  /**
   * Three dice of one mergeable tier touching as (A, B), (B, C): only (A, B)
   * merges, since B is then spent for the rest of the batch.
   */
  lemma {:induction false} SharedBodyMergesOnce(s: Session, x: Body, y: Body, z: Body)
    requires x.id != y.id && y.id != z.id && x.id != z.id
    requires Mergeable(Pair(x, y)) && y.kind == z.kind
    requires x.id < s.nextId && y.id < s.nextId && z.id < s.nextId
    ensures Chosen([Pair(x, y), Pair(y, z)], {}) == [Pair(x, y)]
    ensures HandleCollision(s, [Pair(x, y), Pair(y, z)]) == Resolved(MergeInto(s, Pair(x, y)))
  {
    var pairs := [Pair(x, y), Pair(y, z)];
    var spent: set<nat> := {} + {x.id, y.id};
    var s1 := MergeInto(s, Pair(x, y));
    assert pairs[1..] == [Pair(y, z)];
    assert [Pair(y, z)][1..] == [];
    assert Chosen([Pair(y, z)], spent) == Chosen([], spent) == [];
    assert ResolveFrom(s1, [Pair(y, z)], spent) == ResolveFrom(s1, [], spent);
    assert HandleCollision(s, pairs) == ResolveFrom(s1, [Pair(y, z)], spent);
  }
}
