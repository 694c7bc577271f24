/**
 The NAT2.5 bridge table as its users see it: a finite map from network
 addresses to hardware addresses that age and expire.  The pure functions here
 are what the chained hash table of Nat25Table is proved to implement, and what
 the laws about whole runs are stated on.
 */
module Nat25Db {
  import opened Bytes
  import opened Residues

  /** The tick counter wraps at `modulus`; entries are kept for `period` ticks. */
  datatype Clock = Clock(modulus: nat, period: nat)
  {
    predicate Ok() {
      0 < modulus && modulus % 2 == 0 && period <= modulus / 2
    }
  }

  /** time_before_eq(age, now - period) on wrapping words. */
  predicate Expired(c: Clock, age: int, now: int)
    requires c.Ok()
  {
    (now - c.period - age) % c.modulus < c.modulus / 2
  }

  /** A true time as the wrapping counter shows it. */
  function Word(c: Clock, t: nat): (w: nat)
    requires c.Ok()
    ensures w < c.modulus
  {
    t % c.modulus
  }

  /** The wrapping test sees only the true age. */
  lemma ExpiredByAge(c: Clock, t: nat, now: nat)
    requires c.Ok() && t <= now
    ensures Expired(c, Word(c, t), Word(c, now)) <==> (now - t - c.period) % c.modulus < c.modulus / 2
  {
    var m := c.modulus;
    calc {
      (now % m - c.period - t % m) % m;
    == { ModShift(now % m - c.period, t, m); }
      (now % m - c.period - t) % m;
    == { assert now % m == now + m * -(now / m); ModMultiple(now - c.period - t, -(now / m), m); }
      (now - t - c.period) % m;
    }
  }

  /**
   Expiry is right exactly while the age is below period + modulus / 2; ages
   below modulus / 2 are always right.
   */
  lemma ExpiryIsTrueAge(c: Clock, t: nat, now: nat)
    requires c.Ok() && t <= now < t + c.modulus
    ensures (Expired(c, Word(c, t), Word(c, now)) <==> now - t >= c.period)
            <==> now - t < c.period + c.modulus / 2
    ensures now - t < c.modulus / 2 ==> (Expired(c, Word(c, t), Word(c, now)) <==> now - t >= c.period)
  {
    ExpiredByAge(c, t, now);
    var d := now - t - c.period;
    ModUnique(d, c.modulus, if d < 0 then -1 else 0, if d < 0 then d + c.modulus else d);
  }

  // ---------------------------------------------------------------- the map

  datatype Entry<+M> = Entry(mac: M, age: nat, uses: int)

  type Db<K(==), M> = map<K, Entry<M>>

  function InsertDb<K(==), M>(m: Db<K, M>, key: K, mac: M, now: nat, allocOk: bool): Db<K, M> {
    if key in m then m[key := m[key].(mac := mac, age := now)]
    else if allocOk then m[key := Entry(mac, now, 1)]
    else m
  }

  predicate Fresh<K(==), M>(c: Clock, m: Db<K, M>, key: K, now: nat)
    requires c.Ok()
  {
    key in m && !Expired(c, m[key].age, now)
  }

  /** What a lookup copies into the destination address, if anything. */
  function LookupMac<K(==), M>(c: Clock, m: Db<K, M>, key: K, now: nat): Option<M>
    requires c.Ok()
  {
    if Fresh(c, m, key, now) then Some(m[key].mac) else None
  }

  function LookupDb<K(==), M>(c: Clock, m: Db<K, M>, key: K, now: nat): Db<K, M>
    requires c.Ok()
  {
    if Fresh(c, m, key, now) then m[key := m[key].(uses := m[key].uses + 1)] else m
  }

  /** One use count is taken from an expired entry; it goes when that was its last. */
  predicate Swept<M>(c: Clock, e: Entry<M>, now: nat)
    requires c.Ok()
  {
    Expired(c, e.age, now) && e.uses == 1
  }

  /** A sweep that has so far visited the addresses in `done`. */
  function SweepSome<K(==), M>(c: Clock, m: Db<K, M>, now: nat, done: set<K>): Db<K, M>
    requires c.Ok()
  {
    map k | k in m && !(k in done && Swept(c, m[k], now)) ::
      if k in done && Expired(c, m[k].age, now) then m[k].(uses := m[k].uses - 1) else m[k]
  }

  function SweepDb<K(==), M>(c: Clock, m: Db<K, M>, now: nat): Db<K, M>
    requires c.Ok()
  {
    SweepSome(c, m, now, m.Keys)
  }

  /** The sweep's visit to one address. */
  function SweepOne<K(==), M>(c: Clock, m: Db<K, M>, now: nat, key: K): Db<K, M>
    requires c.Ok() && key in m
  {
    if !Expired(c, m[key].age, now) then m
    else if m[key].uses == 1 then m - {key}
    else m[key := m[key].(uses := m[key].uses - 1)]
  }

  lemma SweepSomeStep<K, M>(c: Clock, m: Db<K, M>, now: nat, done: set<K>, key: K)
    requires c.Ok() && key in m && key !in done
    ensures key in SweepSome(c, m, now, done)
    ensures SweepSome(c, m, now, done + {key}) == SweepOne(c, SweepSome(c, m, now, done), now, key)
  {
  }

  /** A sweep is complete once it has visited every address that is left. */
  lemma SweepComplete<K, M>(c: Clock, m: Db<K, M>, now: nat, done: set<K>)
    requires c.Ok() && done <= m.Keys && SweepSome(c, m, now, done).Keys <= done
    ensures SweepSome(c, m, now, done) == SweepDb(c, m, now)
  {
    assert forall k :: k in m && k !in done ==> k in SweepSome(c, m, now, done);
    assert done == m.Keys;
  }

  predicate DbOk<K(==), M>(c: Clock, m: Db<K, M>) {
    forall k :: k in m ==> m[k].uses >= 1 && m[k].age < c.modulus
  }

  // ------------------------------------------------------------------- runs

  datatype Op<+K, +M> =
    | Insert(key: K, mac: M, allocOk: bool)
    | Lookup(key: K)
    | Sweep
    | Cleanup

  /** An operation and the true time at which it runs. */
  datatype Event<+K, +M> = At(time: nat, op: Op<K, M>)

  function Step<K(==), M>(c: Clock, m: Db<K, M>, e: Event<K, M>): Db<K, M>
    requires c.Ok()
  {
    var now := Word(c, e.time);
    match e.op
    case Insert(key, mac, ok) => InsertDb(m, key, mac, now, ok)
    case Lookup(key) => LookupDb(c, m, key, now)
    case Sweep => SweepDb(c, m, now)
    case Cleanup => map[]
  }

  function Run<K(==), M>(c: Clock, m: Db<K, M>, h: seq<Event<K, M>>): Db<K, M>
    requires c.Ok()
  {
    if h == [] then m else Step(c, Run(c, m, h[..|h| - 1]), h[|h| - 1])
  }

  /** Use counts stay positive and stamps stay words over every run. */
  lemma {:induction false} RunOk<K, M>(c: Clock, m: Db<K, M>, h: seq<Event<K, M>>)
    requires c.Ok() && DbOk(c, m)
    ensures DbOk(c, Run(c, m, h))
  {
    if h != [] {
      RunOk(c, m, h[..|h| - 1]);
    }
  }

  /** No operation in `h` re-inserts `key` or empties the table. */
  predicate LeavesAlone<K(==), M>(h: seq<Event<K, M>>, key: K) {
    forall i :: 0 <= i < |h| ==> h[i].op != Cleanup && !(h[i].op.Insert? && h[i].op.key == key)
  }

  function Sweeps<K(==), M>(h: seq<Event<K, M>>): nat {
    if h == [] then 0 else Sweeps(h[..|h| - 1]) + (if h[|h| - 1].op == Sweep then 1 else 0)
  }

  /**
   Expiry ranking: an entry that is expired throughout a run and not re-inserted
   loses exactly one use count per sweep and is gone from its use_count-th sweep
   on.  Lookups, of this or of any other address, change nothing about that.
   */
  lemma {:induction false} ExpiryRanking<K, M>(c: Clock, m: Db<K, M>, h: seq<Event<K, M>>, key: K)
    requires c.Ok() && DbOk(c, m) && key in m && LeavesAlone(h, key)
    requires forall i :: 0 <= i < |h| ==> Expired(c, m[key].age, Word(c, h[i].time))
    ensures key in Run(c, m, h) <==> Sweeps(h) < m[key].uses
    ensures key in Run(c, m, h) ==> Run(c, m, h)[key] == m[key].(uses := m[key].uses - Sweeps(h))
  {
    if h != [] {
      var g := h[..|h| - 1];
      assert LeavesAlone(g, key) by {
        forall i | 0 <= i < |g| ensures g[i] == h[i] {}
      }
      forall i | 0 <= i < |g| ensures Expired(c, m[key].age, Word(c, g[i].time)) {
        assert g[i] == h[i];
      }
      ExpiryRanking(c, m, g, key);
      RunOk(c, m, g);
      var e := h[|h| - 1];
      assert Expired(c, m[key].age, Word(c, e.time));
    }
  }

  /** An entry that stays fresh keeps its address and its stamp. */
  lemma {:induction false} FreshStays<K, M>(c: Clock, m: Db<K, M>, h: seq<Event<K, M>>, key: K, t: nat, now: nat)
    requires c.Ok() && key in m && m[key].age == Word(c, t)
    requires LeavesAlone(h, key)
    requires forall i :: 0 <= i < |h| ==> t <= h[i].time <= now
    requires t <= now < t + c.period
    ensures key in Run(c, m, h)
    ensures Run(c, m, h)[key].mac == m[key].mac && Run(c, m, h)[key].age == m[key].age
  {
    if h != [] {
      var g := h[..|h| - 1];
      assert LeavesAlone(g, key) by {
        forall i | 0 <= i < |g| ensures g[i] == h[i] {}
      }
      forall i | 0 <= i < |g| ensures t <= g[i].time <= now {
        assert g[i] == h[i];
      }
      FreshStays(c, m, g, key, t, now);
      ExpiryIsTrueAge(c, t, h[|h| - 1].time);
    }
  }

  /** A run that does not insert an address never links it, and leaves the stamp of the entry as long as there is one. */
  lemma {:induction false} StampStays<K, M>(c: Clock, m: Db<K, M>, h: seq<Event<K, M>>, key: K)
    requires c.Ok() && LeavesAlone(h, key)
    ensures key in Run(c, m, h) ==> key in m && Run(c, m, h)[key].age == m[key].age && Run(c, m, h)[key].mac == m[key].mac
  {
    if h != [] {
      var g := h[..|h| - 1];
      assert LeavesAlone(g, key) by {
        forall i | 0 <= i < |g| ensures g[i] == h[i] {}
      }
      StampStays(c, m, g, key);
    }
  }

  /** No insert of `key` in `h` takes effect. */
  predicate NeverLinks<K(==), M>(h: seq<Event<K, M>>, key: K) {
    forall i :: 0 <= i < |h| && h[i].op.Insert? && h[i].op.key == key ==> !h[i].op.allocOk
  }

  /** An address is linked only by an insert for which there was memory. */
  lemma {:induction false} OnlyInsertsLink<K, M>(c: Clock, m: Db<K, M>, h: seq<Event<K, M>>, key: K)
    requires c.Ok() && key !in m && NeverLinks(h, key)
    ensures key !in Run(c, m, h)
  {
    if h != [] {
      var g := h[..|h| - 1];
      forall i | 0 <= i < |g| ensures g[i] == h[i] {}
      OnlyInsertsLink(c, m, g, key);
    }
  }

  /**
   The latest insert wins.  Take any run that inserts `key` at time t (the
   insert taking effect: the address was linked or memory was there), then
   neither re-inserts it nor empties the table.  While the insert is younger
   than the ageing period, a lookup yields its hardware address, whatever was
   inserted, looked up and swept before and after; from then on, for half a turn
   of the counter, it yields nothing, linked or not.
   */
  lemma LatestInsertWins<K, M>(c: Clock, m: Db<K, M>, pre: seq<Event<K, M>>, ins: Event<K, M>, post: seq<Event<K, M>>, now: nat)
    requires c.Ok() && ins.op.Insert?
    requires ins.op.allocOk || ins.op.key in Run(c, m, pre)
    requires LeavesAlone(post, ins.op.key)
    requires forall i :: 0 <= i < |post| ==> ins.time <= post[i].time <= now
    requires ins.time <= now < ins.time + c.modulus / 2
    ensures LookupMac(c, Run(c, Step(c, Run(c, m, pre), ins), post), ins.op.key, Word(c, now))
            == if now < ins.time + c.period then Some(ins.op.mac) else None
  {
    var m1 := Step(c, Run(c, m, pre), ins);
    ExpiryIsTrueAge(c, ins.time, now);
    if now < ins.time + c.period {
      FreshStays(c, m1, post, ins.op.key, ins.time, now);
    } else {
      StampStays(c, m1, post, ins.op.key);
    }
  }

  /** Runs compose, so LatestInsertWins speaks of every run with such an insert in it. */
  lemma {:induction false} RunAppend<K, M>(c: Clock, m: Db<K, M>, g: seq<Event<K, M>>, h: seq<Event<K, M>>)
    requires c.Ok()
    ensures Run(c, m, g + h) == Run(c, Run(c, m, g), h)
  {
    if h == [] {
      assert g + h == g;
    } else {
      RunAppend(c, m, g, h[..|h| - 1]);
      assert (g + h)[..|g + h| - 1] == g + h[..|h| - 1];
    }
  }

  // ------------------------------------------------------ the use-count ledger

  /** The time of the last insert of `key` in a run that follows an insert at time t. */
  function Stamp<K(==), M>(key: K, t: nat, h: seq<Event<K, M>>): nat {
    if h == [] then t
    else if h[|h| - 1].op.Insert? && h[|h| - 1].op.key == key then h[|h| - 1].time
    else Stamp(key, t, h[..|h| - 1])
  }

  /** Nothing empties the table, and at each event the last insert of `key` is at most half a turn of the counter old. */
  predicate InTime<K(==), M>(c: Clock, key: K, t: nat, h: seq<Event<K, M>>) {
    h != [] ==>
      var g, e := h[..|h| - 1], h[|h| - 1];
      InTime(c, key, t, g) && e.op != Cleanup && Stamp(key, t, g) <= e.time < Stamp(key, t, g) + c.modulus / 2
  }

  /**
   What a new entry has earned in the run after its insert: one sweep to begin
   with, one more by each lookup within the ageing period after the last insert,
   one spent by each sweep after it.
   */
  function Credit<K(==), M>(c: Clock, key: K, t: nat, h: seq<Event<K, M>>): int {
    if h == [] then 1 else
    var g, e := h[..|h| - 1], h[|h| - 1];
    var young := e.time - Stamp(key, t, g) < c.period;
    Credit(c, key, t, g) + (if e.op == Lookup(key) && young then 1 else if e.op == Sweep && !young then -1 else 0)
  }

  predicate Solvent<K(==), M>(c: Clock, key: K, t: nat, h: seq<Event<K, M>>) {
    Credit(c, key, t, h) >= 1 && (h != [] ==> Solvent(c, key, t, h[..|h| - 1]))
  }

  /**
   The ledger: an entry inserted when its address was absent is linked while its
   credit has lasted, with that credit as its use count, and is freed by the very
   event that spends the last of it.
   */
  lemma {:induction false} UseLedger<K, M>(c: Clock, m: Db<K, M>, key: K, mac: M, t: nat, h: seq<Event<K, M>>)
    requires c.Ok() && key !in m && InTime(c, key, t, h)
    ensures var n := Run(c, m, [At(t, Insert(key, mac, true))] + h);
            Solvent(c, key, t, h) ==>
              key in n && n[key].uses == Credit(c, key, t, h) && n[key].age == Word(c, Stamp(key, t, h))
    ensures h != [] && Solvent(c, key, t, h[..|h| - 1]) && Credit(c, key, t, h) == 0 ==>
              key !in Run(c, m, [At(t, Insert(key, mac, true))] + h)
  {
    var ins := [At(t, Insert(key, mac, true))];
    if h == [] {
      assert ins + h == ins && ins[..0] == [];
      assert Run(c, m, ins[..0]) == m;
    } else {
      var g, e := h[..|h| - 1], h[|h| - 1];
      UseLedger(c, m, key, mac, t, g);
      assert (ins + h)[..|ins + h| - 1] == ins + g;
      ExpiryIsTrueAge(c, Stamp(key, t, g), e.time);
    }
  }

  function Lookups<K(==), M>(h: seq<Event<K, M>>, key: K): nat {
    if h == [] then 0 else Lookups(h[..|h| - 1], key) + (if h[|h| - 1].op == Lookup(key) then 1 else 0)
  }

  /** Nothing empties the table, and every event is within the ageing period after the last insert of `key`. */
  predicate Young<K(==), M>(c: Clock, key: K, t: nat, h: seq<Event<K, M>>) {
    h != [] ==>
      var g, e := h[..|h| - 1], h[|h| - 1];
      Young(c, key, t, g) && e.op != Cleanup && Stamp(key, t, g) <= e.time < Stamp(key, t, g) + c.period
  }

  lemma {:induction false} YoungEarns<K, M>(c: Clock, key: K, t: nat, h: seq<Event<K, M>>)
    requires c.Ok() && Young(c, key, t, h)
    ensures InTime(c, key, t, h) && Solvent(c, key, t, h) && Credit(c, key, t, h) == 1 + Lookups(h, key)
  {
    if h != [] {
      YoungEarns(c, key, t, h[..|h| - 1]);
    }
  }

  /** Every event is past the ageing period of the stamp t, and within half a turn of the counter. */
  predicate Aged<K(==), M>(c: Clock, t: nat, h: seq<Event<K, M>>) {
    forall i :: 0 <= i < |h| ==> t + c.period <= h[i].time < t + c.modulus / 2
  }

  /**
   One sweep for each lookup.  An entry inserted when its address was absent, then
   looked up k times while young and re-inserted any number of times, is linked
   through k sweeps after it has expired and gone from sweep k + 1 on.
   */
  lemma OneSweepPerLookup<K, M>(c: Clock, m: Db<K, M>, key: K, mac: M, t: nat, used: seq<Event<K, M>>, aged: seq<Event<K, M>>)
    requires c.Ok() && DbOk(c, m) && key !in m && Young(c, key, t, used)
    requires LeavesAlone(aged, key) && Aged(c, Stamp(key, t, used), aged)
    ensures key in Run(c, m, [At(t, Insert(key, mac, true))] + used + aged) <==> Sweeps(aged) <= Lookups(used, key)
  {
    var first := [At(t, Insert(key, mac, true))] + used;
    YoungEarns(c, key, t, used);
    UseLedger(c, m, key, mac, t, used);
    RunOk(c, m, first);
    RunAppend(c, m, first, aged);
    forall i | 0 <= i < |aged| ensures Expired(c, Run(c, m, first)[key].age, Word(c, aged[i].time)) {
      ExpiryIsTrueAge(c, Stamp(key, t, used), aged[i].time);
    }
    ExpiryRanking(c, Run(c, m, first), aged, key);
  }
}
