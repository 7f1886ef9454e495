/**
 * Top-k retrieval over the knowledge base. The similarity of the query to
 * each document comes from the TF-IDF index, which is outside the model:
 * it is an input, one score per document. What is modelled is the ranking
 * `sims.argsort()[::-1][:k]` and the hits built from it.
 */
module Retrieval {
  import opened Knowledge

  /** One retrieved document: its name, its similarity to the query and its text. */
  datatype Hit = Hit(name: string, score: real, text: string)

  function Min(a: nat, b: nat): (m: nat)
  {
    if a <= b then a else b
  }

  predicate InRange(order: seq<nat>, n: nat)
  {
    forall i :: 0 <= i < |order| ==> order[i] < n
  }

  predicate Distinct(order: seq<nat>)
  {
    forall i, j :: 0 <= i < j < |order| ==> order[i] != order[j]
  }

  /** Document indices listed from the most similar to the least. */
  predicate Descending(sims: seq<real>, order: seq<nat>)
    requires InRange(order, |sims|)
  {
    forall i, j :: 0 <= i < j < |order| ==> sims[order[i]] >= sims[order[j]]
  }

  /** The position in `pool` of a document with the highest score among those in `pool`. */
  function MaxPos(sims: seq<real>, pool: seq<nat>): (p: nat)
    requires pool != [] && InRange(pool, |sims|)
    ensures p < |pool|
    ensures forall i :: 0 <= i < |pool| ==> sims[pool[i]] <= sims[pool[p]]
    decreases |pool|
  {
    if |pool| == 1 then 0
    else
      var q := MaxPos(sims, pool[1..]) + 1;
      if sims[pool[0]] >= sims[pool[q]] then 0 else q
  }

  /** `pool` with the element at position `p` taken out. */
  function RemoveAt(pool: seq<nat>, p: nat): (rest: seq<nat>)
    requires p < |pool|
  {
    pool[..p] + pool[p + 1..]
  }

  lemma RemoveAtSpec(pool: seq<nat>, p: nat)
    requires p < |pool|
    ensures |RemoveAt(pool, p)| == |pool| - 1
    ensures forall x :: x in pool <==> x == pool[p] || x in RemoveAt(pool, p)
    ensures Distinct(pool) ==> Distinct(RemoveAt(pool, p)) && pool[p] !in RemoveAt(pool, p)
  {
    var rest := RemoveAt(pool, p);
    assert pool == pool[..p] + [pool[p]] + pool[p + 1..];
    if Distinct(pool) {
      forall i, j | 0 <= i < j < |rest| ensures rest[i] != rest[j] {
        var i' := if i < p then i else i + 1;
        var j' := if j < p then j else j + 1;
        assert rest[i] == pool[i'] && rest[j] == pool[j'];
      }
      forall i | 0 <= i < |rest| ensures rest[i] != pool[p] {
        var i' := if i < p then i else i + 1;
        assert rest[i] == pool[i'];
      }
    }
  }

  /** The documents of `pool` by repeatedly taking out one of the highest-scoring. */
  function RankFrom(sims: seq<real>, pool: seq<nat>): (ranked: seq<nat>)
    requires InRange(pool, |sims|)
    decreases |pool|
  {
    if pool == [] then []
    else
      var p := MaxPos(sims, pool);
      [pool[p]] + RankFrom(sims, RemoveAt(pool, p))
  }

  /** Ranking a pool reorders it (nothing lost, nothing added) into descending score order. */
  lemma {:induction false} RankFromSpec(sims: seq<real>, pool: seq<nat>)
    requires InRange(pool, |sims|)
    ensures |RankFrom(sims, pool)| == |pool|
    ensures forall x :: x in RankFrom(sims, pool) <==> x in pool
    ensures InRange(RankFrom(sims, pool), |sims|)
    ensures Descending(sims, RankFrom(sims, pool))
    ensures Distinct(pool) ==> Distinct(RankFrom(sims, pool))
    decreases |pool|
  {
    if pool != [] {
      var p := MaxPos(sims, pool);
      var rest := RemoveAt(pool, p);
      RemoveAtSpec(pool, p);
      RankFromSpec(sims, rest);
      var r := RankFrom(sims, pool);
      var tail := RankFrom(sims, rest);
      assert r == [pool[p]] + tail;
      forall j | 0 < j < |r| ensures sims[r[0]] >= sims[r[j]] {
        assert r[j] == tail[j - 1] && r[j] in pool;
      }
    }
  }

  /** The indices of all `n` documents, in document order. */
  function Indices(n: nat): (r: seq<nat>)
  {
    seq(n, i => i)
  }

  lemma IndicesSpec(n: nat)
    ensures InRange(Indices(n), n) && Distinct(Indices(n))
    ensures forall d :: 0 <= d < n ==> d in Indices(n)
  {
    var r := Indices(n);
    forall d | 0 <= d < n ensures d in r {
      assert r[d] == d;
    }
  }

  /** Every document index once, most similar first: `sims.argsort()[::-1]`. */
  function Rank(sims: seq<real>): (ranked: seq<nat>)
  {
    IndicesSpec(|sims|);
    RankFrom(sims, Indices(|sims|))
  }

  lemma RankSpec(sims: seq<real>)
    ensures |Rank(sims)| == |sims|
    ensures InRange(Rank(sims), |sims|) && Distinct(Rank(sims))
    ensures forall d :: 0 <= d < |sims| ==> d in Rank(sims)
    ensures Descending(sims, Rank(sims))
  {
    IndicesSpec(|sims|);
    RankFromSpec(sims, Indices(|sims|));
  }

  /** The first `k` entries of the ranking (all of it when `k` exceeds the number of documents). */
  function TopIndices(sims: seq<real>, k: nat): (top: seq<nat>)
  {
    var r := Rank(sims);
    r[..Min(k, |r|)]
  }

  /**
   * The selection rule: `min(k, n)` distinct documents in descending score
   * order, none of the documents left out scoring higher than one taken,
   * and every document taken when `k >= n`.
   */
  lemma TopIndicesSpec(sims: seq<real>, k: nat)
    ensures |TopIndices(sims, k)| == Min(k, |sims|)
    ensures InRange(TopIndices(sims, k), |sims|) && Distinct(TopIndices(sims, k))
    ensures Descending(sims, TopIndices(sims, k))
    ensures forall d, j :: 0 <= d < |sims| && d !in TopIndices(sims, k) && 0 <= j < |TopIndices(sims, k)| ==>
      sims[d] <= sims[TopIndices(sims, k)[j]]
    ensures k >= |sims| ==> forall d :: 0 <= d < |sims| ==> d in TopIndices(sims, k)
  {
    var r := Rank(sims);
    RankSpec(sims);
    var idx := TopIndices(sims, k);
    forall d, j | 0 <= d < |sims| && d !in idx && 0 <= j < |idx| ensures sims[d] <= sims[idx[j]] {
      assert d in r;
      var pos :| 0 <= pos < |r| && r[pos] == d;
      assert pos >= |idx|;
    }
    if k >= |sims| {
      assert idx == r;
    }
  }

  /** `retrieve(query, k)`: one hit per selected index, its name, score and text all from that index. */
  function Retrieve(kb: KnowledgeBase, sims: seq<real>, k: nat): (hits: seq<Hit>)
    requires kb.Valid() && |sims| == |kb.docs|
  {
    TopIndicesSpec(sims, k);
    var idx := TopIndices(sims, k);
    seq(|idx|, j requires 0 <= j < |idx| => Hit(kb.names[idx[j]], sims[idx[j]], kb.docs[idx[j]]))
  }

  /**
   * What `retrieve` promises: `min(k, n)` hits for distinct documents, each
   * hit's name, score and text taken from one and the same document, scores
   * non-increasing, no document outside the hits scoring above a hit, and
   * every document returned when `k >= n`.
   */
  lemma RetrieveSpec(kb: KnowledgeBase, sims: seq<real>, k: nat)
    requires kb.Valid() && |sims| == |kb.docs|
    ensures var hits := Retrieve(kb, sims, k); var idx := TopIndices(sims, k);
      && |hits| == |idx| == Min(k, |kb.docs|)
      && InRange(idx, |kb.docs|) && Distinct(idx)
      && (forall j :: 0 <= j < |hits| ==>
            hits[j].name == kb.names[idx[j]] && hits[j].text == kb.docs[idx[j]] && hits[j].score == sims[idx[j]])
      && (forall i, j :: 0 <= i < j < |hits| ==> hits[i].score >= hits[j].score)
      && (forall d, j :: 0 <= d < |sims| && d !in idx && 0 <= j < |hits| ==> sims[d] <= hits[j].score)
      && (k >= |kb.docs| ==> forall d :: 0 <= d < |kb.docs| ==> d in idx)
  {
    TopIndicesSpec(sims, k);
  }
}
