/**
 The chained hash table of the NAT2.5 bridge: entries are linked, aged, counted
 and freed in place, and every operation is proved to do to the map it
 represents what Nat25Db says.
 */
module Nat25Table {
  import opened Bytes
  import opened Distinct
  import opened HashChains
  import opened Nat25Db

  /** What the fields of a table say together: memory, and the map it represents. */
  datatype State<K, M> = State(
    links: Links,
    bucket: map<Ptr, nat>,
    rank: map<Ptr, nat>,
    addr: map<Ptr, K>,
    data: map<Ptr, Entry<M>>,
    db: map<K, Ptr>,
    view: Db<K, M>)

  ghost predicate WellFormed<K(!new), M>(hash: K -> nat, t: State<K, M>) {
    Linked(t.links, t.bucket, t.rank) && Indexed(hash, t)
  }

  /** The allocated entries are the linked ones, one for each address, in the bucket of its hash. */
  ghost predicate Indexed<K(!new), M>(hash: K -> nat, t: State<K, M>) {
    && t.bucket.Keys == t.addr.Keys == t.data.Keys
    && t.view.Keys == t.db.Keys
    && (forall k {:trigger t.db[k]} :: k in t.db ==>
          t.db[k] in t.addr && t.addr[t.db[k]] == k && t.view[k] == t.data[t.db[k]])
    && (forall p {:trigger Owner(hash, t, p)} :: p in t.addr ==> Owner(hash, t, p))
  }

  ghost predicate Owner<K(!new), M>(hash: K -> nat, t: State<K, M>, p: Ptr)
    requires p in t.addr && p in t.bucket
  {
    t.addr[p] in t.db && t.db[t.addr[p]] == p && t.bucket[p] == hash(t.addr[p])
  }

  function AfterWrite<K, M>(t: State<K, M>, p: Ptr, e: Entry<M>): State<K, M>
    requires p in t.addr
  {
    t.(data := t.data[p := e], view := t.view[t.addr[p] := e])
  }

  lemma WriteKeeps<K(!new), M>(hash: K -> nat, t: State<K, M>, p: Ptr, e: Entry<M>)
    requires WellFormed(hash, t) && p in t.addr
    ensures WellFormed(hash, AfterWrite(t, p, e))
  {
    var u := AfterWrite(t, p, e);
    assert Owner(hash, t, p);
    forall q | q in t.addr ensures Owner(hash, u, q) {
      assert Owner(hash, t, q);
    }
  }

  function AfterAdd<K, M>(hash: K -> nat, t: State<K, M>, p: Ptr, k: K, e: Entry<M>): State<K, M>
    requires hash(k) < |t.links.head| && (t.links.head[hash(k)] != NULL ==> t.links.head[hash(k)] in t.rank)
  {
    var b := hash(k);
    State(AfterLink(t.links, p, b),
          t.bucket[p := b],
          AfterLinkRank(t.links, t.rank, p, b),
          t.addr[p := k], t.data[p := e], t.db[k := p], t.view[k := e])
  }

  lemma AddKeepsIndexed<K(!new), M>(hash: K -> nat, t: State<K, M>, p: Ptr, k: K, e: Entry<M>)
    requires Indexed(hash, t) && k !in t.db && p !in t.addr
    requires hash(k) < |t.links.head| && (t.links.head[hash(k)] != NULL ==> t.links.head[hash(k)] in t.rank)
    ensures Indexed(hash, AfterAdd(hash, t, p, k, e))
  {
    var u := AfterAdd(hash, t, p, k, e);
    forall q | q in u.addr ensures q in u.bucket && Owner(hash, u, q) {
      assert q != p ==> Owner(hash, t, q);
    }
  }

  lemma AddKeeps<K(!new), M>(hash: K -> nat, t: State<K, M>, p: Ptr, k: K, e: Entry<M>)
    requires WellFormed(hash, t) && hash(k) < |t.links.head|
    requires k !in t.db && p !in t.addr && p != NULL
    ensures WellFormed(hash, AfterAdd(hash, t, p, k, e))
  {
    LinkKeepsLinked(t.links, t.bucket, t.rank, p, hash(k));
    AddKeepsIndexed(hash, t, p, k, e);
  }

  function AfterRemove<K, M>(t: State<K, M>, p: Ptr): State<K, M>
    requires p in t.addr && p in t.links.next && p in t.links.pprev
    requires t.links.pprev[p].Bucket? ==> t.links.pprev[p].index < |t.links.head|
  {
    State(AfterUnlink(t.links, p), t.bucket - {p}, t.rank - {p},
          t.addr - {p}, t.data - {p}, t.db - {t.addr[p]}, t.view - {t.addr[p]})
  }

  lemma RemoveKeeps<K(!new), M>(hash: K -> nat, t: State<K, M>, p: Ptr)
    requires WellFormed(hash, t) && p in t.addr
    ensures BackLinkOk(t.links, t.bucket, t.rank, p)
    ensures WellFormed(hash, AfterRemove(t, p))
  {
    UnlinkKeepsLinked(t.links, t.bucket, t.rank, p);
    var u := AfterRemove(t, p);
    assert Owner(hash, t, p);
    forall q | q in u.addr ensures q in u.bucket && Owner(hash, u, q) {
      assert Owner(hash, t, q);
    }
  }

  /** Whether p is already visited when a walk over all buckets stands at f in bucket i. */
  ghost predicate Visited<K, M>(t: State<K, M>, i: nat, f: Ptr, p: Ptr)
    requires p in t.bucket && p in t.rank && (f != NULL ==> f in t.rank)
  {
    t.bucket[p] < i || (t.bucket[p] == i && (f == NULL || t.rank[p] > t.rank[f]))
  }

  /** The walk stands at f in bucket i and has visited exactly the addresses in `done`. */
  ghost predicate WalkAt<K(!new), M>(t: State<K, M>, done: set<K>, i: nat, f: Ptr) {
    && t.addr.Keys <= t.bucket.Keys && t.addr.Keys <= t.rank.Keys
    && (f != NULL ==> f in t.addr && t.bucket[f] == i)
    && (forall p :: p in t.addr ==> (t.addr[p] in done <==> Visited(t, i, f, p)))
  }

  lemma WalkStep<K(!new), M>(hash: K -> nat, t: State<K, M>, u: State<K, M>, done: set<K>, i: nat, f: Ptr)
    requires WellFormed(hash, t) && f in t.addr && WalkAt(t, done, i, f)
    requires u.addr == t.addr || u.addr == t.addr - {f}
    requires u.addr.Keys <= u.bucket.Keys && u.addr.Keys <= u.rank.Keys
    requires forall p :: p in u.addr ==> u.bucket[p] == t.bucket[p] && u.rank[p] == t.rank[p]
    ensures var n := t.links.next[f];
            WalkAt(u, done + {t.addr[f]}, i, n) && (n != NULL ==> u.rank[n] < t.rank[f])
  {
    var n := t.links.next[f];
    NextSplits(t.links, t.bucket, t.rank, f);
    if n != NULL {
      assert BackLinkOk(t.links, t.bucket, t.rank, n);
    }
    forall p | p in u.addr ensures u.addr[p] in done + {t.addr[f]} <==> Visited(u, i, n, p) {
      assert Owner(hash, t, p) && Owner(hash, t, f);
    }
  }

  /** From the end of one chain to the start of the next. */
  lemma WalkNextBucket<K(!new), M>(hash: K -> nat, t: State<K, M>, done: set<K>, i: nat)
    requires WellFormed(hash, t) && WalkAt(t, done, i, NULL) && i + 1 < |t.links.head|
    ensures WalkAt(t, done, i + 1, t.links.head[i + 1])
  {
    HeadSplits(t.links, t.bucket, t.rank, i + 1);
  }

  lemma WalkStart<K(!new), M>(hash: K -> nat, t: State<K, M>)
    requires WellFormed(hash, t) && 0 < |t.links.head|
    ensures WalkAt(t, {}, 0, t.links.head[0])
  {
    HeadSplits(t.links, t.bucket, t.rank, 0);
  }

  /** A walk past the last bucket has visited every entry. */
  lemma WalkEnd<K(!new), M>(hash: K -> nat, t: State<K, M>, done: set<K>, n: nat)
    requires WellFormed(hash, t) && n == |t.links.head|
    requires n > 0 ==> WalkAt(t, done, n - 1, NULL)
    ensures forall p :: p in t.addr ==> t.addr[p] in done
    ensures t.view.Keys <= done
  {
    assert t.view.Keys == t.db.Keys;
    forall p | p in t.addr ensures t.addr[p] in done {
      HeadIsFirst(t.links, t.bucket, t.rank, p);
    }
  }

  class Table<K(==, !new), M(==)> {
    const clock: Clock
    /** The bucket of an address; the laws below hold whatever it mixes. */
    const hash: K -> nat
    const zeroMac: M
    var nethash: seq<Ptr>
    // The fields of the allocated entries, by pointer.
    var nextHash: map<Ptr, Ptr>
    var pprevHash: map<Ptr, Word>
    var networkAddr: map<Ptr, K>
    var data: map<Ptr, Entry<M>>
    // The shortcut to the entry last used.
    var scdbEntry: Ptr
    var scdbMac: M
    var scdbIp: seq<byte>
    ghost var bucket: map<Ptr, nat>
    ghost var rank: map<Ptr, nat>
    /** The linked entry of each recorded address. */
    ghost var db: map<K, Ptr>
    /** The map the table represents. */
    ghost var view: Db<K, M>

    ghost function Now(): State<K, M>
      reads this`nethash, this`nextHash, this`pprevHash, this`networkAddr, this`data
      reads this`bucket, this`rank, this`db, this`view
    {
      State(Links(nethash, nextHash, pprevHash), bucket, rank, networkAddr, data, db, view)
    }

    ghost predicate Valid()
      reads this
    {
      && clock.Ok() && DbOk(clock, view)
      && (forall k :: hash(k) < |nethash|)
      && WellFormed(hash, Now())
      && (scdbEntry != NULL ==> scdbEntry in networkAddr)
    }

    constructor (clock: Clock, size: nat, hash: K -> nat, zeroMac: M)
      requires clock.Ok() && forall k :: hash(k) < size
      ensures Valid() && view == map[] && scdbEntry == NULL
      ensures this.clock == clock && |nethash| == size && this.hash == hash && this.zeroMac == zeroMac
    {
      this.clock := clock;
      this.hash := hash;
      this.zeroMac := zeroMac;
      nethash := seq(size, _ => NULL);
      nextHash, pprevHash, networkAddr, data := map[], map[], map[], map[];
      scdbEntry, scdbMac, scdbIp := NULL, zeroMac, [0, 0, 0, 0];
      bucket, rank, db, view := map[], map[], map[], map[];
    }

    method HashLink(ent: Ptr, b: nat)
      requires b < |nethash|
      modifies this`nethash, this`nextHash, this`pprevHash
      ensures Links(nethash, nextHash, pprevHash) == AfterLink(old(Links(nethash, nextHash, pprevHash)), ent, b)
    {
      nextHash := nextHash[ent := nethash[b]];
      if nextHash[ent] != NULL {
        pprevHash := pprevHash[nextHash[ent] := NextOf(ent)];
      }
      nethash := nethash[b := ent];
      pprevHash := pprevHash[ent := Bucket(b)];
    }

    /** Unlinks an entry and frees its link fields. */
    method HashUnlink(ent: Ptr)
      requires ent in nextHash && ent in pprevHash && !pprevHash[ent].Nowhere?
      requires pprevHash[ent].Bucket? ==> pprevHash[ent].index < |nethash|
      requires pprevHash[ent].NextOf? ==> pprevHash[ent].entry in nextHash
      modifies this`nethash, this`nextHash, this`pprevHash
      ensures Links(nethash, nextHash, pprevHash) == AfterUnlink(old(Links(nethash, nextHash, pprevHash)), ent)
    {
      var n := nextHash[ent];
      match pprevHash[ent] {
        case Bucket(i) => nethash := nethash[i := n];
        case NextOf(p) => nextHash := nextHash[p := n];
      }
      if n != NULL {
        pprevHash := pprevHash[n := pprevHash[ent]];
      }
      nextHash, pprevHash := nextHash - {ent}, pprevHash - {ent};
    }

    /** The linked entry with this address, if there is one. */
    method FindEntry(key: K) returns (ent: Ptr)
      requires Valid()
      ensures if key in db then ent == db[key] else ent == NULL
      ensures ent != NULL ==> ent in networkAddr && networkAddr[ent] == key
    {
      ghost var g := Links(nethash, nextHash, pprevHash);
      ent := nethash[hash(key)];
      if ent != NULL {
        assert BackLinkOk(g, bucket, rank, ent);
      }
      if key in db {
        assert Owner(hash, Now(), db[key]);
        HeadIsFirst(g, bucket, rank, db[key]);
      }
      while ent != NULL
        invariant ent != NULL ==> ent in bucket && bucket[ent] == hash(key)
        invariant key in db ==> ent != NULL && rank[db[key]] <= rank[ent]
        decreases if ent == NULL then 0 else rank[ent] + 1
      {
        assert Owner(hash, Now(), ent);
        if networkAddr[ent] == key {
          return;
        }
        if key in db {
          NextInOrder(g, bucket, rank, ent, db[key]);
        }
        if nextHash[ent] != NULL {
          assert BackLinkOk(g, bucket, rank, nextHash[ent]);
        }
        ent := nextHash[ent];
      }
    }

    /** Fills in and links newly allocated memory. */
    method AddEntry(ent: Ptr, key: K, e: Entry<M>)
      requires hash(key) < |nethash| && (nethash[hash(key)] != NULL ==> nethash[hash(key)] in rank)
      modifies this`nethash, this`nextHash, this`pprevHash, this`networkAddr, this`data
      modifies this`bucket, this`rank, this`db, this`view
      ensures Now() == AfterAdd(hash, old(Now()), ent, key, e)
    {
      ghost var u := AfterAdd(hash, Now(), ent, key, e);
      HashLink(ent, hash(key));
      networkAddr := networkAddr[ent := key];
      data := data[ent := e];
      bucket, rank, db, view := u.bucket, u.rank, u.db, u.view;
    }

    /** Writes back the data of a linked entry. */
    method WriteEntry(ent: Ptr, e: Entry<M>)
      requires Valid() && ent in networkAddr && e.uses >= 1 && e.age < clock.modulus
      modifies this`data, this`view
      ensures Valid() && view == old(view)[networkAddr[ent] := e]
    {
      ghost var u := AfterWrite(Now(), ent, e);
      WriteKeeps(hash, Now(), ent, e);
      assert DbOk(clock, u.view);
      data := data[ent := e];
      view := u.view;
      assert Now() == u;
    }

    /** Unlinks and frees an entry. */
    method RemoveEntry(ent: Ptr)
      requires ent in nextHash && ent in pprevHash && !pprevHash[ent].Nowhere? && ent in networkAddr
      requires pprevHash[ent].Bucket? ==> pprevHash[ent].index < |nethash|
      requires pprevHash[ent].NextOf? ==> pprevHash[ent].entry in nextHash
      modifies this`nethash, this`nextHash, this`pprevHash, this`networkAddr, this`data
      modifies this`bucket, this`rank, this`db, this`view
      ensures Now() == AfterRemove(old(Now()), ent)
    {
      ghost var u := AfterRemove(Now(), ent);
      HashUnlink(ent);
      networkAddr, data := networkAddr - {ent}, data - {ent};
      bucket, rank, db, view := u.bucket, u.rank, u.db, u.view;
    }

    /** `room` is what rtw_malloc returns: unused memory, or nothing. */
    method NetworkInsert(macAddr: M, key: K, now: nat, room: Option<Ptr>)
      requires Valid() && now < clock.modulus
      requires room.Some? ==> room.value != NULL && room.value !in networkAddr
      modifies this`nethash, this`nextHash, this`pprevHash, this`networkAddr, this`data
      modifies this`bucket, this`rank, this`db, this`view
      ensures Valid() && view == InsertDb(old(view), key, macAddr, now, room.Some?)
    {
      var ent := FindEntry(key);
      if ent != NULL {
        WriteEntry(ent, data[ent].(mac := macAddr, age := now));
        return;
      }
      if room.None? {
        return;
      }
      AddKeeps(hash, Now(), room.value, key, Entry(macAddr, now, 1));
      AddEntry(room.value, key, Entry(macAddr, now, 1));
    }

    /** Whether the address is linked, and the hardware address it yields while unexpired. */
    method NetworkLookup(key: K, now: nat) returns (linked: bool, hit: Option<M>)
      requires Valid() && now < clock.modulus
      modifies this`data, this`view
      ensures Valid() && view == LookupDb(clock, old(view), key, now)
      ensures linked == (key in old(view)) && hit == LookupMac(clock, old(view), key, now)
    {
      var ent := FindEntry(key);
      linked, hit := ent != NULL, None;
      if ent != NULL && !Expired(clock, data[ent].age, now) {
        hit := Some(data[ent].mac);
        WriteEntry(ent, data[ent].(uses := data[ent].uses + 1));
      }
    }

    /** Clears the shortcut when its entry is about to be freed. */
    method DropShortcut(ent: Ptr)
      modifies this`scdbEntry, this`scdbMac, this`scdbIp
      ensures scdbEntry == if old(scdbEntry) == ent then NULL else old(scdbEntry)
      ensures old(scdbEntry) == ent ==> scdbMac == zeroMac && scdbIp == [0, 0, 0, 0]
      ensures old(scdbEntry) != ent ==> scdbMac == old(scdbMac) && scdbIp == old(scdbIp)
    {
      if scdbEntry == ent {
        scdbMac, scdbIp, scdbEntry := zeroMac, [0, 0, 0, 0], NULL;
      }
    }

    /** Frees an entry: nothing refers to it any more. */
    method FreeEntry(ent: Ptr)
      requires Valid() && ent in networkAddr
      modifies this
      ensures Valid() && ent !in networkAddr && view == old(view) - {old(networkAddr)[ent]}
      ensures networkAddr == old(networkAddr) - {ent}
      ensures rank == old(rank) - {ent} && bucket == old(bucket) - {ent} && |nethash| == |old(nethash)|
    {
      DropShortcut(ent);
      RemoveKeeps(hash, Now(), ent);
      RemoveEntry(ent);
    }

    /** nat25_db_expire's visit to one entry. */
    method ExpireEntry(ent: Ptr, now: nat)
      requires Valid() && ent in networkAddr && now < clock.modulus && networkAddr[ent] in view
      modifies this
      ensures Valid() && view == SweepOne(clock, old(view), now, old(networkAddr)[ent])
      ensures networkAddr == old(networkAddr) || networkAddr == old(networkAddr) - {ent}
      ensures forall p :: p in networkAddr ==> p in rank && p in old(rank) && rank[p] == old(rank)[p]
      ensures forall p :: p in networkAddr ==> p in bucket && p in old(bucket) && bucket[p] == old(bucket)[p]
      ensures |nethash| == |old(nethash)|
    {
      assert Owner(hash, Now(), ent);
      if Expired(clock, data[ent].age, now) {
        if data[ent].uses - 1 == 0 {
          FreeEntry(ent);
        } else {
          WriteEntry(ent, data[ent].(uses := data[ent].uses - 1));
        }
      }
    }

    /** A sweep in progress: exactly the visited addresses have been dealt with. */
    ghost predicate Sweeping(m: Db<K, M>, now: nat, done: set<K>, i: nat, f: Ptr)
      reads this
    {
      && Valid()
      && view == SweepSome(clock, m, now, done) && done <= m.Keys
      && WalkAt(Now(), done, i, f)
    }

    /** One visit, and on to the next entry of the chain. */
    method ExpireStep(f: Ptr, i: nat, now: nat, ghost m: Db<K, M>, ghost done: set<K>) returns (next: Ptr)
      requires f != NULL && Sweeping(m, now, done, i, f) && now < clock.modulus
      modifies this
      ensures |nethash| == |old(nethash)| && f in old(rank) && f in old(networkAddr)
      ensures Sweeping(m, now, done + {old(networkAddr)[f]}, i, next)
      ensures next != NULL ==> next in rank && rank[next] < old(rank)[f]
    {
      ghost var t := Now();
      assert Owner(hash, t, f);
      assert networkAddr[f] !in done && networkAddr[f] in m by {
        assert !Visited(t, i, f, f);
      }
      SweepSomeStep(clock, m, now, done, networkAddr[f]);
      next := nextHash[f];
      ExpireEntry(f, now);
      WalkStep(hash, t, Now(), done, i, f);
    }

    /** The inner loop of a sweep: along one chain. */
    method ExpireBucket(i: nat, now: nat, ghost m: Db<K, M>, ghost done0: set<K>) returns (ghost done: set<K>)
      requires i < |nethash| && now < clock.modulus && Sweeping(m, now, done0, i, nethash[i])
      modifies this
      ensures |nethash| == |old(nethash)| && Sweeping(m, now, done, i, NULL)
    {
      var f := nethash[i];
      done := done0;
      while f != NULL
        invariant |nethash| == |old(nethash)| && Sweeping(m, now, done, i, f)
        decreases if f == NULL then 0 else rank[f] + 1
      {
        ghost var key := networkAddr[f];
        f := ExpireStep(f, i, now, m, done);
        done := done + {key};
      }
    }

    /** The walk stands before bucket i. */
    ghost predicate Before(done: set<K>, i: nat)
      reads this
    {
      if i == 0 then done == {} else WalkAt(Now(), done, i - 1, NULL)
    }

    lemma EnterBucket(done: set<K>, i: nat)
      requires Valid() && Before(done, i) && i < |nethash|
      ensures WalkAt(Now(), done, i, nethash[i])
    {
      if i == 0 {
        WalkStart(hash, Now());
      } else {
        WalkNextBucket(hash, Now(), done, i - 1);
      }
    }

    /** A sweep that stands before bucket i. */
    ghost predicate SweptTo(m: Db<K, M>, now: nat, done: set<K>, i: nat)
      reads this
    {
      Valid() && view == SweepSome(clock, m, now, done) && done <= m.Keys && Before(done, i)
    }

    lemma SweepEnds(m: Db<K, M>, now: nat, done: set<K>)
      requires SweptTo(m, now, done, |nethash|)
      ensures view == SweepDb(clock, m, now)
    {
      WalkEnd(hash, Now(), done, |nethash|);
      SweepComplete(clock, m, now, done);
    }

    /** nat25_db_expire: one sweep over all buckets. */
    method DbExpire(now: nat)
      requires Valid() && now < clock.modulus
      modifies this
      ensures Valid() && view == SweepDb(clock, old(view), now)
    {
      ghost var m, done := view, {};
      var i := 0;
      while i < |nethash|
        invariant i <= |nethash| == |old(nethash)| && SweptTo(m, now, done, i)
      {
        EnterBucket(done, i);
        done := ExpireBucket(i, now, m, done);
        i := i + 1;
      }
      SweepEnds(m, now, done);
    }

    /** A cleanup in progress: no visited address is left. */
    ghost predicate Clearing(done: set<K>, i: nat, f: Ptr)
      reads this
    {
      Valid() && WalkAt(Now(), done, i, f) && forall p :: p in networkAddr ==> networkAddr[p] !in done
    }

    method CleanupStep(f: Ptr, i: nat, ghost done: set<K>) returns (next: Ptr)
      requires f != NULL && Clearing(done, i, f)
      modifies this
      ensures |nethash| == |old(nethash)| && f in old(rank) && f in old(networkAddr)
      ensures Clearing(done + {old(networkAddr)[f]}, i, next)
      ensures next != NULL ==> next in rank && rank[next] < old(rank)[f]
    {
      ghost var t := Now();
      next := nextHash[f];
      FreeEntry(f);
      WalkStep(hash, t, Now(), done, i, f);
      forall p | p in networkAddr ensures networkAddr[p] != t.addr[f] {
        assert Owner(hash, t, p) && Owner(hash, t, f);
      }
    }

    method CleanupBucket(i: nat, ghost done0: set<K>) returns (ghost done: set<K>)
      requires i < |nethash| && Clearing(done0, i, nethash[i])
      modifies this
      ensures |nethash| == |old(nethash)| && Clearing(done, i, NULL)
    {
      var f := nethash[i];
      done := done0;
      while f != NULL
        invariant |nethash| == |old(nethash)| && Clearing(done, i, f)
        decreases if f == NULL then 0 else rank[f] + 1
      {
        ghost var key := networkAddr[f];
        f := CleanupStep(f, i, done);
        done := done + {key};
      }
    }

    /** A cleanup that stands before bucket i. */
    ghost predicate ClearedTo(done: set<K>, i: nat)
      reads this
    {
      Valid() && Before(done, i) && forall p :: p in networkAddr ==> networkAddr[p] !in done
    }

    lemma CleanupEnds(done: set<K>)
      requires ClearedTo(done, |nethash|)
      ensures view == map[] && networkAddr == map[] && scdbEntry == NULL
    {
      assert forall k :: k in db ==> db[k] in networkAddr;
      WalkEnd(hash, Now(), done, |nethash|);
      assert networkAddr.Keys == {};
      assert db.Keys == {} == view.Keys;
    }

    /** nat25_db_cleanup: frees every entry. */
    method DbCleanup()
      requires Valid()
      modifies this
      ensures Valid() && view == map[] && networkAddr == map[] && scdbEntry == NULL
    {
      ghost var done: set<K> := {};
      var i := 0;
      while i < |nethash|
        invariant i <= |nethash| == |old(nethash)| && ClearedTo(done, i)
      {
        EnterBucket(done, i);
        done := CleanupBucket(i, done);
        i := i + 1;
      }
      CleanupEnds(done);
    }

    method SetShortcut(ent: Ptr, macAddr: M, ip: seq<byte>)
      requires Valid() && (ent != NULL ==> ent in networkAddr)
      modifies this`scdbEntry, this`scdbMac, this`scdbIp
      ensures Valid() && scdbEntry == ent && scdbMac == macAddr && scdbIp == ip
    {
      ghost var t := Now();
      scdbEntry, scdbMac, scdbIp := ent, macAddr, ip;
      assert Now() == t;
    }

    /** Points the shortcut at the entry of `key`, as the transmit path does, and refreshes that entry. */
    method UseShortcut(macAddr: M, ip: seq<byte>, key: K, now: nat)
      requires Valid() && now < clock.modulus
      modifies this`data, this`view, this`scdbEntry, this`scdbMac, this`scdbIp
      ensures Valid() && (scdbEntry != NULL <==> key in old(view))
      ensures view == if key in old(view) then old(view)[key := old(view)[key].(age := now)] else old(view)
      ensures scdbEntry != NULL ==> networkAddr[scdbEntry] == key && scdbMac == macAddr && scdbIp == ip
      ensures scdbEntry == NULL ==> scdbMac == old(scdbMac) && scdbIp == old(scdbIp)
    {
      var ent := FindEntry(key);
      if ent != NULL {
        WriteEntry(ent, data[ent].(age := now));
        SetShortcut(ent, macAddr, ip);
      } else {
        SetShortcut(NULL, scdbMac, scdbIp);
      }
    }

    /**
     The transmit path on an IP frame: a frame from another address than the
     shortcut's looks its own entry up; one from the same address refreshes the
     shortcut's entry, whatever its IP address, or clears the shortcut when it
     has no entry any more.  Tells whether the frame is done with.
     */
    method TransmitShortcut(src: M, ip: seq<byte>, key: K, now: nat) returns (handled: bool)
      requires Valid() && now < clock.modulus
      modifies this`data, this`view, this`scdbEntry, this`scdbMac, this`scdbIp
      ensures Valid() && handled == (scdbEntry != NULL)
      ensures old(scdbMac) != src ==>
                handled == (key in old(view))
                && view == (if handled then old(view)[key := old(view)[key].(age := now)] else old(view))
                && (if handled then networkAddr[scdbEntry] == key && scdbMac == src && scdbIp == ip
                    else scdbMac == old(scdbMac) && scdbIp == old(scdbIp))
      ensures old(scdbMac) == src ==>
                scdbEntry == old(scdbEntry)
                && (handled ==>
                      networkAddr[scdbEntry] in old(view) && scdbMac == old(scdbMac) && scdbIp == old(scdbIp)
                      && view == old(view)[networkAddr[scdbEntry] := old(view)[networkAddr[scdbEntry]].(age := now)])
                && (!handled ==> view == old(view) && scdbMac == zeroMac && scdbIp == [0, 0, 0, 0])
    {
      if scdbMac != src {
        UseShortcut(src, ip, key, now);
      } else if scdbEntry != NULL {
        RefreshEntry(scdbEntry, now);
      } else {
        SetShortcut(NULL, zeroMac, [0, 0, 0, 0]);
      }
      handled := scdbEntry != NULL;
    }

    /** A new stamp for a linked entry. */
    method RefreshEntry(ent: Ptr, now: nat)
      requires Valid() && ent in networkAddr && now < clock.modulus
      modifies this`data, this`view
      ensures Valid() && networkAddr[ent] in old(view)
      ensures view == old(view)[networkAddr[ent] := old(view)[networkAddr[ent]].(age := now)]
    {
      assert Owner(hash, Now(), ent);
      WriteEntry(ent, data[ent].(age := now));
    }

    /** rtw_malloc when there is memory: some address that is not in use. */
    method NewMemory() returns (p: Ptr)
      ensures p != NULL && p !in networkAddr
    {
      p := 1;
      while p in networkAddr
        invariant p >= 1 && forall q: nat :: q < p ==> q in networkAddr.Keys + {NULL}
        decreases |networkAddr.Keys + {NULL}| + 1 - p
      {
        SizeAbove(networkAddr.Keys + {NULL}, p + 1);
        p := p + 1;
      }
    }

    /** One operation of a run, at its time. */
    method ExecuteOne(e: Event<K, M>)
      requires Valid()
      modifies this
      ensures Valid() && view == Step(clock, old(view), e)
    {
      var now := Nat25Db.Word(clock, e.time);
      match e.op {
        case Insert(key, mac, allocOk) =>
          var p := NewMemory();
          NetworkInsert(mac, key, now, if allocOk then Some(p) else None);
        case Lookup(key) => var linked, hit := NetworkLookup(key, now);
        case Sweep => DbExpire(now);
        case Cleanup => DbCleanup();
      }
    }

    /** Any run of operations, carried out in place, is the run of the map. */
    method Execute(h: seq<Event<K, M>>)
      requires Valid()
      modifies this
      ensures Valid() && view == Run(clock, old(view), h)
    {
      ghost var m := view;
      for n := 0 to |h|
        invariant Valid() && view == Run(clock, m, h[..n])
      {
        assert h[..n + 1][..n] == h[..n];
        ExecuteOne(h[n]);
      }
      assert h[..|h|] == h;
    }
  }
}
