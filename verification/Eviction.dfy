/**
 * Capacity eviction. The failure counter, the replay set and the proceed-token store all
 * bound their maps in the same way: sort the keys by a time and delete from the front until
 * the map is down to nine tenths of its cap.
 */
module Eviction {
  import opened Common

  /** Nothing that was dropped ranks above something that was kept. */
  ghost predicate EarliestFirst<K>(rank: map<K, int>, kept: set<K>) {
    && kept <= rank.Keys
    && forall d, k :: d in rank.Keys && d !in kept && k in kept ==> rank[d] <= rank[k]
  }

  /** `all` lists every key exactly once, in nondecreasing rank. */
  ghost predicate SortedListing<K>(rank: map<K, int>, all: seq<K>) {
    && (forall i :: 0 <= i < |all| ==> all[i] in rank)
    && (forall k :: k in rank ==> k in all)
    && (forall i, j :: 0 <= i < j < |all| ==> all[i] != all[j] && rank[all[i]] <= rank[all[j]])
  }

  method EarliestOf<K(==)>(rank: map<K, int>, keys: set<K>) returns (best: K)
    requires keys != {} && keys <= rank.Keys
    ensures best in keys
    ensures forall k :: k in keys ==> rank[best] <= rank[k]
  {
    best :| best in keys;
    var todo := keys - {best};
    while todo != {}
      invariant todo <= keys && best in keys
      invariant forall k :: k in keys && k !in todo ==> rank[best] <= rank[k]
      decreases todo
    {
      var k :| k in todo;
      if rank[k] < rank[best] { best := k; }
      todo := todo - {k};
    }
  }

  /** sort.Slice by rank over the keys of a map; ties come out in an arbitrary order. */
  method SortByRank<K(==)>(rank: map<K, int>) returns (all: seq<K>)
    ensures SortedListing(rank, all)
  {
    all := [];
    var rest := rank.Keys;
    while rest != {}
      invariant rest <= rank.Keys
      invariant forall i :: 0 <= i < |all| ==> all[i] in rank && all[i] !in rest
      invariant forall k :: k in rank ==> k in rest || k in all
      invariant forall i, j :: 0 <= i < j < |all| ==> all[i] != all[j] && rank[all[i]] <= rank[all[j]]
      invariant forall i, k :: 0 <= i < |all| && k in rest ==> rank[all[i]] <= rank[k]
      decreases rest
    {
      var k := EarliestOf(rank, rest);
      all := all + [k];
      rest := rest - {k};
    }
  }

  /** The deletion loop: drop from the front of the sorted list while more than `target` remain. */
  method KeepLatest<K(==)>(rank: map<K, int>, target: nat) returns (kept: set<K>)
    ensures EarliestFirst(rank, kept)
    ensures |kept| == Min(|rank|, target)
  {
    var all := SortByRank(rank);
    kept := rank.Keys;
    var i := 0;
    while i < |all| && |kept| > target
      invariant 0 <= i <= |all| && kept <= rank.Keys
      invariant forall j :: 0 <= j < |all| ==> (all[j] in kept <==> i <= j)
      invariant Min(|rank|, target) <= |kept| == |rank| - i
    {
      kept := kept - {all[i]};
      i := i + 1;
    }
    if i == |all| {
      AllDropped(rank, all, kept);
    }
    FrontDropped(rank, all, kept, i);
  }

  lemma AllDropped<K>(rank: map<K, int>, all: seq<K>, kept: set<K>)
    requires SortedListing(rank, all) && kept <= rank.Keys
    requires forall j :: 0 <= j < |all| ==> all[j] !in kept
    ensures kept == {}
  {
    forall k: K ensures k !in kept {
      if k in rank {
        assert k in all;
      }
    }
  }

  /** Cutting a sorted listing anywhere leaves the later part. */
  lemma FrontDropped<K>(rank: map<K, int>, all: seq<K>, kept: set<K>, i: nat)
    requires SortedListing(rank, all) && kept <= rank.Keys && i <= |all|
    requires forall j :: 0 <= j < |all| ==> (all[j] in kept <==> i <= j)
    ensures EarliestFirst(rank, kept)
  {
    forall d, k | d in rank.Keys && d !in kept && k in kept
      ensures rank[d] <= rank[k]
    {
      assert d in all && k in all;
      var a :| 0 <= a < |all| && all[a] == d;
      var b :| 0 <= b < |all| && all[b] == k;
      assert a < i <= b;
    }
  }
}
