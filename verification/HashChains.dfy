/**
 Doubly linked hash chains whose back links are pointers to pointers.  Memory is
 explicit: a pointer is a number, and each field of the entries is a map from
 pointers to values, so that a dangling pointer can be told from a good one.
 */
module HashChains {
  type Ptr = nat

  const NULL: Ptr := 0

  /** The address of a pointer: a bucket of nethash, or the next_hash of an entry. */
  datatype Word = Nowhere | Bucket(index: nat) | NextOf(entry: Ptr)

  /** The buckets and the two link fields of every entry. */
  datatype Links = Links(head: seq<Ptr>, next: map<Ptr, Ptr>, pprev: map<Ptr, Word>)

  /** The pointer stored at a word. */
  function Load(g: Links, w: Word): Ptr {
    match w
    case Bucket(i) => if i < |g.head| then g.head[i] else NULL
    case NextOf(p) => if p in g.next then g.next[p] else NULL
    case Nowhere => NULL
  }

  /** Entry p is reached from the word its back link names, in its own bucket. */
  ghost predicate BackLinkOk(g: Links, bucket: map<Ptr, nat>, rank: map<Ptr, nat>, p: Ptr)
    requires p in g.pprev && p in bucket && p in rank
  {
    match g.pprev[p]
    case Bucket(i) => i == bucket[p] && i < |g.head| && g.head[i] == p
    case NextOf(q) =>
      && q in g.next && g.next[q] == p
      && q in bucket && bucket[q] == bucket[p] && q in rank && rank[q] > rank[p]
    case Nowhere => false
  }

  /**
   The linked entries are the keys of `bucket`, which says where each belongs;
   `rank` falls along every chain.
   */
  ghost predicate Linked(g: Links, bucket: map<Ptr, nat>, rank: map<Ptr, nat>) {
    && g.next.Keys == g.pprev.Keys == rank.Keys == bucket.Keys
    && NULL !in bucket
    && HeadsOk(g) && NextsOk(g)
    && (forall p {:trigger BackLinkOk(g, bucket, rank, p)} :: p in bucket ==> BackLinkOk(g, bucket, rank, p))
  }

  ghost predicate HeadsOk(g: Links) {
    forall i :: 0 <= i < |g.head| && g.head[i] != NULL ==> g.head[i] in g.pprev && g.pprev[g.head[i]] == Bucket(i)
  }

  ghost predicate NextsOk(g: Links) {
    forall p {:trigger g.next[p]} :: p in g.next && g.next[p] != NULL ==>
      g.next[p] in g.pprev && g.pprev[g.next[p]] == NextOf(p)
  }

  /** *(p->pprev_hash) == p for every linked entry, and no entry is its own predecessor. */
  lemma BackLinksHold(g: Links, bucket: map<Ptr, nat>, rank: map<Ptr, nat>, p: Ptr)
    requires Linked(g, bucket, rank) && p in bucket
    ensures Load(g, g.pprev[p]) == p && g.pprev[p] != NextOf(p)
  {
    assert BackLinkOk(g, bucket, rank, p);
  }

  /** The links after __network_hash_link(p, b). */
  function AfterLink(g: Links, p: Ptr, b: nat): Links
    requires b < |g.head|
  {
    var n := g.head[b];
    Links(g.head[b := p],
          g.next[p := n],
          (if n != NULL then g.pprev[n := NextOf(p)] else g.pprev)[p := Bucket(b)])
  }

  function AfterLinkRank(g: Links, rank: map<Ptr, nat>, p: Ptr, b: nat): map<Ptr, nat>
    requires b < |g.head| && (g.head[b] != NULL ==> g.head[b] in rank)
  {
    rank[p := if g.head[b] == NULL then 0 else rank[g.head[b]] + 1]
  }

  lemma LinkBack(g: Links, bucket: map<Ptr, nat>, rank: map<Ptr, nat>, p: Ptr, b: nat, r: nat, q: Ptr)
    requires Linked(g, bucket, rank) && p !in bucket && p != NULL && b < |g.head|
    requires r == if g.head[b] == NULL then 0 else rank[g.head[b]] + 1
    requires q == p || q in bucket
    ensures q in AfterLink(g, p, b).pprev && BackLinkOk(AfterLink(g, p, b), bucket[p := b], rank[p := r], q)
  {
    if q != p {
      assert BackLinkOk(g, bucket, rank, q);
    }
  }

  lemma LinkForward(g: Links, bucket: map<Ptr, nat>, rank: map<Ptr, nat>, p: Ptr, b: nat)
    requires Linked(g, bucket, rank) && p !in bucket && p != NULL && b < |g.head|
    ensures HeadsOk(AfterLink(g, p, b)) && NextsOk(AfterLink(g, p, b))
    ensures AfterLink(g, p, b).next.Keys == AfterLink(g, p, b).pprev.Keys == bucket.Keys + {p}
  {
  }

  /** Every entry's back link is right. */
  ghost predicate BackLinksOk(g: Links, bucket: map<Ptr, nat>, rank: map<Ptr, nat>) {
    && bucket.Keys <= g.pprev.Keys && bucket.Keys <= rank.Keys
    && (forall p {:trigger BackLinkOk(g, bucket, rank, p)} :: p in bucket ==> BackLinkOk(g, bucket, rank, p))
  }

  lemma LinkBackAll(g: Links, bucket: map<Ptr, nat>, rank: map<Ptr, nat>, p: Ptr, b: nat)
    requires Linked(g, bucket, rank) && p !in bucket && p != NULL && b < |g.head|
    ensures BackLinksOk(AfterLink(g, p, b), bucket[p := b], AfterLinkRank(g, rank, p, b))
  {
    var r := if g.head[b] == NULL then 0 else rank[g.head[b]] + 1;
    forall q | q in bucket[p := b]
      ensures q in AfterLink(g, p, b).pprev && BackLinkOk(AfterLink(g, p, b), bucket[p := b], rank[p := r], q)
    {
      LinkBack(g, bucket, rank, p, b, r, q);
    }
  }

  /** Linking a new entry keeps the structure. */
  lemma LinkKeepsLinked(g: Links, bucket: map<Ptr, nat>, rank: map<Ptr, nat>, p: Ptr, b: nat)
    requires Linked(g, bucket, rank) && p !in bucket && p != NULL && b < |g.head|
    ensures Linked(AfterLink(g, p, b), bucket[p := b], AfterLinkRank(g, rank, p, b))
  {
    LinkForward(g, bucket, rank, p, b);
    LinkBackAll(g, bucket, rank, p, b);
    AreLinked(AfterLink(g, p, b), bucket[p := b], AfterLinkRank(g, rank, p, b));
  }

  lemma AreLinked(g: Links, bucket: map<Ptr, nat>, rank: map<Ptr, nat>)
    requires g.next.Keys == g.pprev.Keys == rank.Keys == bucket.Keys && NULL !in bucket && HeadsOk(g) && NextsOk(g)
    requires BackLinksOk(g, bucket, rank)
    ensures Linked(g, bucket, rank)
  {
  }

  /** The links after __network_hash_unlink(p), the entry being freed next. */
  function AfterUnlink(g: Links, p: Ptr): Links
    requires p in g.next && p in g.pprev
    requires g.pprev[p].Bucket? ==> g.pprev[p].index < |g.head|
  {
    var n := g.next[p];
    Links(if g.pprev[p].Bucket? then g.head[g.pprev[p].index := n] else g.head,
          (if g.pprev[p].NextOf? then g.next[g.pprev[p].entry := n] else g.next) - {p},
          (if n != NULL then g.pprev[n := g.pprev[p]] else g.pprev) - {p})
  }

  lemma UnlinkBack(g: Links, bucket: map<Ptr, nat>, rank: map<Ptr, nat>, p: Ptr, q: Ptr)
    requires Linked(g, bucket, rank) && p in bucket && q in bucket && q != p
    ensures BackLinkOk(g, bucket, rank, p)
    ensures q in AfterUnlink(g, p).pprev && BackLinkOk(AfterUnlink(g, p), bucket - {p}, rank - {p}, q)
  {
    assert BackLinkOk(g, bucket, rank, q);
    assert g.next[p] != q ==> g.pprev[q] != NextOf(p);
  }

  lemma UnlinkForward(g: Links, bucket: map<Ptr, nat>, rank: map<Ptr, nat>, p: Ptr)
    requires Linked(g, bucket, rank) && p in bucket
    ensures BackLinkOk(g, bucket, rank, p)
    ensures HeadsOk(AfterUnlink(g, p)) && NextsOk(AfterUnlink(g, p))
    ensures AfterUnlink(g, p).next.Keys == AfterUnlink(g, p).pprev.Keys == bucket.Keys - {p}
  {
  }

  /** Unlinking any linked entry, first, middle or last, keeps the structure. */
  lemma UnlinkKeepsLinked(g: Links, bucket: map<Ptr, nat>, rank: map<Ptr, nat>, p: Ptr)
    requires Linked(g, bucket, rank) && p in bucket
    ensures BackLinkOk(g, bucket, rank, p)
    ensures Linked(AfterUnlink(g, p), bucket - {p}, rank - {p})
  {
    UnlinkForward(g, bucket, rank, p);
    forall q | q in bucket && q != p
      ensures q in AfterUnlink(g, p).pprev && BackLinkOk(AfterUnlink(g, p), bucket - {p}, rank - {p}, q)
    {
      UnlinkBack(g, bucket, rank, p, q);
    }
  }

  /** The entries met from p on. */
  ghost function Chain(g: Links, bucket: map<Ptr, nat>, rank: map<Ptr, nat>, p: Ptr): (c: seq<Ptr>)
    requires Linked(g, bucket, rank) && (p == NULL || p in bucket)
    decreases if p == NULL then 0 else rank[p] + 1
  {
    if p == NULL then [] else
      assert g.next[p] != NULL ==> BackLinkOk(g, bucket, rank, g.next[p]);
      [p] + Chain(g, bucket, rank, g.next[p])
  }

  /** A chain stays in its bucket and falls in rank, so it never meets an entry twice. */
  lemma {:induction false} ChainFalls(g: Links, bucket: map<Ptr, nat>, rank: map<Ptr, nat>, p: Ptr)
    requires Linked(g, bucket, rank) && p in bucket
    ensures forall j :: 0 <= j < |Chain(g, bucket, rank, p)| ==>
              Chain(g, bucket, rank, p)[j] in bucket && bucket[Chain(g, bucket, rank, p)[j]] == bucket[p]
              && (j > 0 ==> rank[Chain(g, bucket, rank, p)[j]] < rank[p])
    ensures forall i, j :: 0 <= i < j < |Chain(g, bucket, rank, p)| ==>
              Chain(g, bucket, rank, p)[i] != Chain(g, bucket, rank, p)[j]
    decreases rank[p]
  {
    var n := g.next[p];
    if n != NULL {
      assert BackLinkOk(g, bucket, rank, n);
      ChainFalls(g, bucket, rank, n);
    }
  }

  /** A chain is closed under next. */
  lemma {:induction false} ChainClosed(g: Links, bucket: map<Ptr, nat>, rank: map<Ptr, nat>, p: Ptr, q: Ptr)
    requires Linked(g, bucket, rank) && (p == NULL || p in bucket)
    requires q in bucket && q in Chain(g, bucket, rank, p) && g.next[q] != NULL
    ensures g.next[q] in Chain(g, bucket, rank, p)
    decreases if p == NULL then 0 else rank[p] + 1
  {
    if q == p {
      assert Chain(g, bucket, rank, p)[1] == g.next[q];
    } else {
      assert q in Chain(g, bucket, rank, g.next[p]);
      assert g.next[p] != NULL ==> BackLinkOk(g, bucket, rank, g.next[p]);
      ChainClosed(g, bucket, rank, g.next[p], q);
    }
  }

  ghost function Top(rank: map<Ptr, nat>, s: set<Ptr>): (t: nat)
    requires s <= rank.Keys
    ensures forall p :: p in s ==> rank[p] <= t
  {
    if s == {} then 0 else
      var p :| p in s;
      var t := Top(rank, s - {p});
      assert s == (s - {p}) + {p};
      if rank[p] < t then t else rank[p]
  }

  /** Every linked entry of a bucket is on the chain that starts there. */
  lemma {:induction false} ChainComplete(g: Links, bucket: map<Ptr, nat>, rank: map<Ptr, nat>, q: Ptr)
    requires Linked(g, bucket, rank) && q in bucket
    ensures bucket[q] < |g.head| && (g.head[bucket[q]] == NULL || g.head[bucket[q]] in bucket)
    ensures q in Chain(g, bucket, rank, g.head[bucket[q]])
    decreases Top(rank, rank.Keys) - rank[q]
  {
    assert BackLinkOk(g, bucket, rank, q);
    match g.pprev[q]
    case Bucket(i) =>
    case NextOf(p) =>
      ChainComplete(g, bucket, rank, p);
      ChainClosed(g, bucket, rank, g.head[bucket[q]], p);
  }

  lemma {:induction false} ChainSuffix(g: Links, bucket: map<Ptr, nat>, rank: map<Ptr, nat>, h: Ptr, p: Ptr, q: Ptr)
    requires Linked(g, bucket, rank) && h in bucket && p in bucket && q in bucket
    requires p in Chain(g, bucket, rank, h) && q in Chain(g, bucket, rank, h) && rank[q] <= rank[p]
    ensures q in Chain(g, bucket, rank, p)
    decreases rank[h]
  {
    if h != p {
      var n := g.next[h];
      assert n != NULL ==> BackLinkOk(g, bucket, rank, n);
      ChainFalls(g, bucket, rank, h);
      assert q != h;
      ChainSuffix(g, bucket, rank, n, p, q);
    }
  }

  /** The chain of a bucket starts at its highest rank. */
  lemma HeadIsFirst(g: Links, bucket: map<Ptr, nat>, rank: map<Ptr, nat>, q: Ptr)
    requires Linked(g, bucket, rank) && q in bucket
    ensures bucket[q] < |g.head| && g.head[bucket[q]] in bucket && rank[q] <= rank[g.head[bucket[q]]]
  {
    ChainComplete(g, bucket, rank, q);
    ChainFalls(g, bucket, rank, g.head[bucket[q]]);
  }

  /** next leads to the next lower rank of the bucket. */
  lemma NextInOrder(g: Links, bucket: map<Ptr, nat>, rank: map<Ptr, nat>, p: Ptr, q: Ptr)
    requires Linked(g, bucket, rank) && p in bucket && q in bucket
    requires p != q && bucket[p] == bucket[q] && rank[q] <= rank[p]
    ensures g.next[p] in bucket && rank[q] <= rank[g.next[p]] < rank[p] && bucket[g.next[p]] == bucket[p]
  {
    ChainComplete(g, bucket, rank, p);
    ChainComplete(g, bucket, rank, q);
    ChainSuffix(g, bucket, rank, g.head[bucket[p]], p, q);
    var n := g.next[p];
    assert q in Chain(g, bucket, rank, n);
    assert BackLinkOk(g, bucket, rank, n);
    ChainFalls(g, bucket, rank, n);
  }

  /** Moving from p to the next entry leaves exactly p behind. */
  lemma NextSplits(g: Links, bucket: map<Ptr, nat>, rank: map<Ptr, nat>, p: Ptr)
    requires Linked(g, bucket, rank) && p in bucket
    ensures g.next[p] != NULL ==> g.next[p] in bucket && bucket[g.next[p]] == bucket[p]
    ensures forall q :: q in bucket && bucket[q] == bucket[p] ==>
              ((q != p && rank[q] <= rank[p]) <==> (g.next[p] != NULL && rank[q] <= rank[g.next[p]]))
  {
    if g.next[p] != NULL {
      assert BackLinkOk(g, bucket, rank, g.next[p]);
    }
    forall q | q in bucket && bucket[q] == bucket[p] && q != p && rank[q] <= rank[p]
      ensures g.next[p] != NULL && rank[q] <= rank[g.next[p]]
    {
      NextInOrder(g, bucket, rank, p, q);
    }
  }

  /** A bucket's chain starts in that bucket, at its highest rank. */
  lemma HeadSplits(g: Links, bucket: map<Ptr, nat>, rank: map<Ptr, nat>, i: nat)
    requires Linked(g, bucket, rank) && i < |g.head|
    ensures g.head[i] != NULL ==> g.head[i] in bucket && bucket[g.head[i]] == i
    ensures forall q :: q in bucket && bucket[q] == i ==> g.head[i] != NULL && rank[q] <= rank[g.head[i]]
  {
    if g.head[i] != NULL {
      assert BackLinkOk(g, bucket, rank, g.head[i]);
    }
    forall q | q in bucket && bucket[q] == i ensures g.head[i] != NULL && rank[q] <= rank[g.head[i]] {
      HeadIsFirst(g, bucket, rank, q);
    }
  }
}
