/**
 The access control list: a fixed pool of nodes, of which the used ones are on a
 list.  Adding an address takes three steps that other callers can come between:
 a capacity test outside the lock, a search under the lock, and a claim of a free
 node under the lock again.
 */
module AclPool {
  import opened Bytes
  import opened Distinct

  const NUM_ACL := 16

  datatype Node = Node(addr: Mac, valid: bool)

  /** struct wlan_acl_pool; the list is the sequence of its nodes' places in the pool. */
  datatype Pool = Pool(nodes: seq<Node>, list: seq<nat>, num: int)

  const NO_NODE := Node([0, 0, 0, 0, 0, 0], false)

  /** What start_ap_mode leaves. */
  function Empty(): Pool {
    Pool(seq(NUM_ACL, i => NO_NODE), [], 0)
  }

  /** The linked nodes are exactly the valid ones, each once, and num counts them. */
  predicate PoolOk(p: Pool) {
    && |p.nodes| == NUM_ACL
    && (forall k :: 0 <= k < |p.list| ==> p.list[k] < NUM_ACL && p.nodes[p.list[k]].valid)
    && (forall i :: 0 <= i < NUM_ACL && p.nodes[i].valid ==> i in p.list)
    && AllDifferent(p.list)
    && p.num == |p.list|
  }

  function Addresses(p: Pool): (s: seq<Mac>)
    requires PoolOk(p)
  {
    seq(|p.list|, k requires 0 <= k < |p.list| => p.nodes[p.list[k]].addr)
  }

  function Members(p: Pool): set<Mac>
    requires PoolOk(p)
  {
    Elements(Addresses(p))
  }

  /** The first node from `i` on that is not valid, or NUM_ACL. */
  function FirstFree(nodes: seq<Node>, i: nat): (k: nat)
    requires i <= |nodes|
    ensures i <= k <= |nodes|
    ensures k < |nodes| ==> !nodes[k].valid
    ensures forall j :: i <= j < k ==> nodes[j].valid
    decreases |nodes| - i
  {
    if i < |nodes| && nodes[i].valid then FirstFree(nodes, i + 1) else i
  }

  /** The second critical section of rtw_acl_add_sta. */
  function Claim(p: Pool, addr: Mac): Pool {
    var i := FirstFree(p.nodes, 0);
    if i < |p.nodes| then Pool(p.nodes[i := Node(addr, true)], p.list + [i], p.num + 1) else p
  }

  /** Which nodes a removal takes: those of one address, or all. */
  predicate Taken(n: Node, which: Option<Mac>) {
    n.valid && (which == None || which == Some(n.addr))
  }

  predicate TakenAt(nodes: seq<Node>, i: nat, which: Option<Mac>) {
    i < |nodes| && Taken(nodes[i], which)
  }

  function Kept(list: seq<nat>, nodes: seq<Node>, which: Option<Mac>): seq<nat> {
    if list == [] then [] else
    var r := Kept(list[..|list| - 1], nodes, which);
    var i := list[|list| - 1];
    if TakenAt(nodes, i, which) then r else r + [i]
  }

  /** The critical section of rtw_acl_remove_sta, or for None that of stop_ap_mode. */
  function Remove(p: Pool, which: Option<Mac>): Pool
  {
    var list := Kept(p.list, p.nodes, which);
    Pool(Invalid(p.nodes, which), list, p.num - (|p.list| - |list|))
  }

  function Invalid(nodes: seq<Node>, which: Option<Mac>): (r: seq<Node>)
    ensures |r| == |nodes|
  {
    seq(|nodes|, i requires 0 <= i < |nodes| => if Taken(nodes[i], which) then nodes[i].(valid := false) else nodes[i])
  }

  // ------------------------------------------------- the pool's invariant

  lemma ClaimKeeps(p: Pool, addr: Mac)
    requires PoolOk(p)
    ensures PoolOk(Claim(p, addr))
    ensures Addresses(Claim(p, addr)) == Addresses(p) + (if p.num < NUM_ACL then [addr] else [])
  {
    var i := FirstFree(p.nodes, 0);
    if i < NUM_ACL {
      assert i !in p.list;
      FreeMeansRoom(p, i);
      assert Addresses(Claim(p, addr)) == Addresses(p) + [addr];
    } else {
      AllValid(p);
    }
  }

  /** A node that is not linked leaves room in the count. */
  lemma FreeMeansRoom(p: Pool, i: nat)
    requires PoolOk(p) && i < NUM_ACL && i !in p.list
    ensures p.num < NUM_ACL
  {
    Pigeonhole(p.list + [i], NUM_ACL);
  }

  lemma AllValid(p: Pool)
    requires PoolOk(p) && FirstFree(p.nodes, 0) == NUM_ACL
    ensures p.num >= NUM_ACL
  {
    SizeOfElements(p.list);
    SizeAbove(Elements(p.list), NUM_ACL);
  }

  lemma {:induction false} KeptContains(list: seq<nat>, nodes: seq<Node>, which: Option<Mac>, i: nat)
    ensures i in Kept(list, nodes, which) <==> i in list && !TakenAt(nodes, i, which)
  {
    if list != [] {
      KeptContains(list[..|list| - 1], nodes, which, i);
      assert list == list[..|list| - 1] + [list[|list| - 1]];
    }
  }

  lemma {:induction false} KeptIsDifferent(list: seq<nat>, nodes: seq<Node>, which: Option<Mac>)
    requires AllDifferent(list)
    ensures AllDifferent(Kept(list, nodes, which))
  {
    if list != [] {
      KeptIsDifferent(list[..|list| - 1], nodes, which);
      KeptContains(list[..|list| - 1], nodes, which, list[|list| - 1]);
    }
  }

  lemma RemoveKeeps(p: Pool, which: Option<Mac>)
    requires PoolOk(p)
    ensures PoolOk(Remove(p, which))
  {
    KeptIsDifferent(p.list, p.nodes, which);
    var q := Remove(p, which);
    forall k | 0 <= k < |q.list| ensures q.list[k] < NUM_ACL && q.nodes[q.list[k]].valid {
      KeptContains(p.list, p.nodes, which, q.list[k]);
    }
    forall i | 0 <= i < NUM_ACL && q.nodes[i].valid ensures i in q.list {
      KeptContains(p.list, p.nodes, which, i);
    }
  }

  lemma NeverOverfull(p: Pool)
    requires PoolOk(p)
    ensures 0 <= p.num <= NUM_ACL
  {
    Pigeonhole(p.list, NUM_ACL);
  }

  // -------------------------------------------------------- interleavings

  /** The pool with the addresses whose adders are past the capacity test, and past the search. */
  datatype State = State(pool: Pool, tested: multiset<Mac>, searched: multiset<Mac>)

  datatype Action =
    | Test(addr: Mac)            // reads num outside the lock
    | Search(addr: Mac)
    | Claiming(addr: Mac)
    | Removing(addr: Mac)
    | Stopping

  predicate Enabled(s: State, a: Action) {
    match a
    case Search(addr) => addr in s.tested
    case Claiming(addr) => addr in s.searched
    case _ => true
  }

  predicate Linked(p: Pool, addr: Mac) {
    exists k :: 0 <= k < |p.list| && p.list[k] < |p.nodes| && p.nodes[p.list[k]] == Node(addr, true)
  }

  function Apply(s: State, a: Action): State
    requires Enabled(s, a)
  {
    match a
    case Test(addr) => if NUM_ACL - 1 < s.pool.num then s else s.(tested := s.tested + multiset{addr})
    case Search(addr) =>
      if Linked(s.pool, addr) then s.(tested := s.tested - multiset{addr})
      else s.(tested := s.tested - multiset{addr}, searched := s.searched + multiset{addr})
    case Claiming(addr) => s.(pool := Claim(s.pool, addr), searched := s.searched - multiset{addr})
    case Removing(addr) => s.(pool := Remove(s.pool, Some(addr)))
    case Stopping => s.(pool := Remove(s.pool, None))
  }

  lemma ApplyKeeps(s: State, a: Action)
    requires Enabled(s, a) && PoolOk(s.pool)
    ensures PoolOk(Apply(s, a).pool)
  {
    match a
    case Claiming(addr) => ClaimKeeps(s.pool, addr);
    case Removing(addr) => RemoveKeeps(s.pool, Some(addr));
    case Stopping => RemoveKeeps(s.pool, None);
    case _ =>
  }

  /** The steps of `h`, in any interleaving, from the pool start_ap_mode leaves. */
  function Run(h: seq<Action>): Option<State> {
    if h == [] then Some(State(Empty(), multiset{}, multiset{})) else
    match Run(h[..|h| - 1])
    case None => None
    case Some(s) => if Enabled(s, h[|h| - 1]) then Some(Apply(s, h[|h| - 1])) else None
  }

  /**
   In every interleaving the linked nodes are the valid ones and num is their
   count, at most NUM_ACL, although num is tested outside the lock.
   */
  lemma {:induction false} PoolStaysSound(h: seq<Action>)
    requires Run(h).Some?
    ensures PoolOk(Run(h).value.pool) && 0 <= Run(h).value.pool.num <= NUM_ACL
  {
    if h != [] {
      PoolStaysSound(h[..|h| - 1]);
      ApplyKeeps(Run(h[..|h| - 1]).value, h[|h| - 1]);
    }
    NeverOverfull(Run(h).value.pool);
  }

  /** No two adders of one address are between search and claim together. */
  predicate NoOverlap(h: seq<Action>) {
    forall i :: 0 <= i < |h| && h[i].Search? && Run(h[..i]).Some? ==> h[i].addr !in Run(h[..i]).value.searched
  }

  predicate NoDuplicates(s: State) {
    && PoolOk(s.pool)
    && AllDifferent(Addresses(s.pool))
    && forall a :: a in s.searched ==> s.searched[a] == 1 && a !in Addresses(s.pool)
  }

  /** A claim repeats an address exactly if it is linked already and there is room. */
  lemma ClaimRepeats(p: Pool, addr: Mac)
    requires PoolOk(p) && AllDifferent(Addresses(p))
    ensures PoolOk(Claim(p, addr))
    ensures AllDifferent(Addresses(Claim(p, addr))) <==> addr !in Addresses(p) || p.num == NUM_ACL
  {
    ClaimKeeps(p, addr);
    NeverOverfull(p);
    var s := Addresses(p);
    if p.num < NUM_ACL && addr in s {
      var k :| 0 <= k < |s| && s[k] == addr;
      assert (s + [addr])[k] == (s + [addr])[|s|];
    }
  }

  lemma LinkedIsAddress(p: Pool, addr: Mac)
    requires PoolOk(p)
    ensures Linked(p, addr) <==> addr in Addresses(p)
  {
    if Linked(p, addr) {
      var k :| 0 <= k < |p.list| && p.list[k] < |p.nodes| && p.nodes[p.list[k]] == Node(addr, true);
      assert Addresses(p)[k] == addr;
    }
    if addr in Addresses(p) {
      var k :| 0 <= k < |p.list| && Addresses(p)[k] == addr;
      assert p.nodes[p.list[k]] == Node(addr, true);
    }
  }

  /** A node left by a removal was there before, with another address. */
  lemma LeftWasThere(p: Pool, which: Option<Mac>, k: nat) returns (j: nat)
    requires PoolOk(p) && PoolOk(Remove(p, which)) && k < |Remove(p, which).list|
    ensures j < |p.list| && p.list[j] == Remove(p, which).list[k]
    ensures Addresses(p)[j] == Addresses(Remove(p, which))[k] && which.Some? && Addresses(p)[j] != which.value
  {
    var i := Remove(p, which).list[k];
    KeptContains(p.list, p.nodes, which, i);
    j :| 0 <= j < |p.list| && p.list[j] == i;
  }

  /** A node of another address stays. */
  lemma OthersStay(p: Pool, which: Option<Mac>, j: nat)
    requires PoolOk(p) && PoolOk(Remove(p, which)) && j < |p.list| && which.Some? && Addresses(p)[j] != which.value
    ensures Addresses(p)[j] in Addresses(Remove(p, which))
  {
    KeptContains(p.list, p.nodes, which, p.list[j]);
    var k :| 0 <= k < |Remove(p, which).list| && Remove(p, which).list[k] == p.list[j];
    assert Addresses(Remove(p, which))[k] == Addresses(p)[j];
  }

  /** A removal takes every node of its address, and no other. */
  lemma RemoveTakesAll(p: Pool, which: Option<Mac>)
    requires PoolOk(p)
    ensures PoolOk(Remove(p, which))
    ensures Members(Remove(p, which)) == if which.Some? then Members(p) - {which.value} else {}
  {
    RemoveKeeps(p, which);
    forall x | x in Members(Remove(p, which)) ensures x in Members(p) && which.Some? && x != which.value {
      var k :| 0 <= k < |Remove(p, which).list| && Addresses(Remove(p, which))[k] == x;
      var j := LeftWasThere(p, which, k);
    }
    forall x | x in Members(p) && which.Some? && x != which.value ensures x in Members(Remove(p, which)) {
      var j :| 0 <= j < |p.list| && Addresses(p)[j] == x;
      OthersStay(p, which, j);
    }
  }

  lemma RemoveKeepsDifferent(p: Pool, which: Option<Mac>)
    requires PoolOk(p) && PoolOk(Remove(p, which)) && AllDifferent(Addresses(p))
    ensures AllDifferent(Addresses(Remove(p, which)))
  {
    var t := Addresses(Remove(p, which));
    forall a, b | 0 <= a < b < |t| ensures t[a] != t[b] {
      var i := LeftWasThere(p, which, a);
      var j := LeftWasThere(p, which, b);
      assert Remove(p, which).list[a] != Remove(p, which).list[b];
    }
  }

  lemma RemoveAddsNothing(p: Pool, which: Option<Mac>)
    requires PoolOk(p)
    ensures PoolOk(Remove(p, which))
    ensures AllDifferent(Addresses(p)) ==> AllDifferent(Addresses(Remove(p, which)))
    ensures forall a :: a in Addresses(Remove(p, which)) ==> a in Addresses(p)
  {
    RemoveTakesAll(p, which);
    if AllDifferent(Addresses(p)) {
      RemoveKeepsDifferent(p, which);
    }
    forall a | a in Addresses(Remove(p, which)) ensures a in Addresses(p) {
      assert a in Members(Remove(p, which));
    }
  }

  lemma DuplicateFreeStep(s: State, a: Action)
    requires Enabled(s, a) && NoDuplicates(s)
    requires a.Search? ==> a.addr !in s.searched
    ensures NoDuplicates(Apply(s, a))
  {
    match a
    case Claiming(addr) =>
      ClaimKeeps(s.pool, addr);
      ClaimRepeats(s.pool, addr);
    case Removing(addr) => RemoveAddsNothing(s.pool, Some(addr));
    case Stopping => RemoveAddsNothing(s.pool, None);
    case Search(addr) => LinkedIsAddress(s.pool, addr);
    case _ =>
  }

  /** Then no address is ever linked twice. */
  lemma {:induction false} NoOverlapNoDuplicates(h: seq<Action>)
    requires Run(h).Some? && NoOverlap(h)
    ensures NoDuplicates(Run(h).value)
  {
    if h != [] {
      var g := h[..|h| - 1];
      forall i | 0 <= i < |g| ensures g[i] == h[i] && g[..i] == h[..i] {}
      NoOverlapNoDuplicates(g);
      DuplicateFreeStep(Run(g).value, h[|h| - 1]);
    }
  }

  lemma RunMore(h: seq<Action>, s: State, a: Action) returns (g: seq<Action>)
    requires Run(h) == Some(s) && Enabled(s, a)
    ensures g == h + [a] && Run(g) == Some(Apply(s, a))
  {
    g := h + [a];
    assert g[..|g| - 1] == h;
  }

  /** `g` goes on from `h` without any further search. */
  predicate GoesOn(h: seq<Action>, g: seq<Action>) {
    h <= g && forall i :: |h| <= i < |g| ==> !g[i].Search?
  }

  lemma GoesOnMore(h: seq<Action>, g: seq<Action>, a: Action)
    requires GoesOn(h, g) && !a.Search?
    ensures GoesOn(h, g + [a])
  {
  }

  /** The steps of adders already past their search, with removals, can link an address twice. */
  ghost predicate CanDuplicate(h: seq<Action>) {
    exists g :: GoesOn(h, g) && Run(g).Some? && PoolOk(Run(g).value.pool) && !AllDifferent(Addresses(Run(g).value.pool))
  }

  /** An adder past its search whose address is linked meanwhile, or two of one address. */
  predicate Overlapping(s: State, a: Mac)
    requires PoolOk(s.pool)
  {
    a in s.searched && (s.searched[a] >= 2 || a in Addresses(s.pool))
  }

  /** A claim of a linked address repeats it, if there is room. */
  lemma ClaimLinked(h: seq<Action>, s: State, a: Mac) returns (g: seq<Action>)
    requires Run(h) == Some(s) && PoolOk(s.pool) && AllDifferent(Addresses(s.pool)) && s.pool.num < NUM_ACL
    requires a in s.searched && a in Addresses(s.pool)
    ensures g == h + [Claiming(a)] && Run(g).Some? && PoolOk(Run(g).value.pool)
    ensures !AllDifferent(Addresses(Run(g).value.pool))
  {
    g := RunMore(h, s, Claiming(a));
    ClaimRepeats(s.pool, a);
  }

  /** A full pool of different addresses holds another one, which can be removed to make room. */
  lemma ClaimLinkedWhenFull(h: seq<Action>, s: State, a: Mac) returns (g: seq<Action>)
    requires Run(h) == Some(s) && PoolOk(s.pool) && AllDifferent(Addresses(s.pool)) && s.pool.num == NUM_ACL
    requires a in s.searched && a in Addresses(s.pool)
    ensures GoesOn(h, g) && Run(g).Some? && PoolOk(Run(g).value.pool)
    ensures !AllDifferent(Addresses(Run(g).value.pool))
  {
    var b := if Addresses(s.pool)[0] == a then Addresses(s.pool)[1] else Addresses(s.pool)[0];
    assert b != a && b in Addresses(s.pool);
    var g1 := RunMore(h, s, Removing(b));
    var t := Apply(s, Removing(b));
    RemoveTakesAll(s.pool, Some(b));
    RemoveKeepsDifferent(s.pool, Some(b));
    SizeOfElements(Addresses(s.pool));
    SizeOfElements(Addresses(t.pool));
    assert a in Members(t.pool);
    g := ClaimLinked(g1, t, a);
  }

  lemma StoppedThenClaimed(p: Pool, a: Mac)
    requires PoolOk(p)
    ensures PoolOk(Claim(Remove(p, None), a)) && Addresses(Claim(Remove(p, None), a)) == [a]
  {
    RemoveTakesAll(p, None);
    NoElements(Addresses(Remove(p, None)));
    ClaimKeeps(Remove(p, None), a);
  }

  /** Two adders of one address: the list is emptied, then both claim. */
  lemma ClaimTwice(h: seq<Action>, s: State, a: Mac) returns (g: seq<Action>)
    requires Run(h) == Some(s) && PoolOk(s.pool) && s.searched[a] >= 2
    ensures GoesOn(h, g) && Run(g).Some? && PoolOk(Run(g).value.pool)
    ensures !AllDifferent(Addresses(Run(g).value.pool))
  {
    StoppedThenClaimed(s.pool, a);
    var s1 := Apply(s, Stopping);
    var g1 := RunMore(h, s, Stopping);
    var g2 := RunMore(g1, s1, Claiming(a));
    g := ClaimLinked(g2, Apply(s1, Claiming(a)), a);
    GoesOnMore(h, h, Stopping);
    GoesOnMore(h, g1, Claiming(a));
    GoesOnMore(h, g2, Claiming(a));
  }

  lemma {:induction false} GoesOnWithoutDuplicates(h: seq<Action>, g: seq<Action>, s: State)
    requires Run(h) == Some(s) && NoDuplicates(s) && GoesOn(h, g) && Run(g).Some?
    ensures NoDuplicates(Run(g).value)
  {
    if |g| == |h| {
      assert g == h;
    } else {
      var front := g[..|g| - 1];
      assert GoesOn(h, front) by {
        forall i | |h| <= i < |front| ensures front[i] == g[i] {}
      }
      GoesOnWithoutDuplicates(h, front, s);
      DuplicateFreeStep(Run(front).value, g[|g| - 1]);
    }
  }

  /**
   So, from any state a run leads to, an address can be linked twice by the
   adders already past their search if and only if two of them have one address,
   or one has an address that is linked meanwhile.
   */
  lemma DuplicateIffOverlap(h: seq<Action>, s: State)
    requires Run(h) == Some(s) && PoolOk(s.pool) && AllDifferent(Addresses(s.pool))
    ensures CanDuplicate(h) <==> exists a :: Overlapping(s, a)
  {
    if exists a :: Overlapping(s, a) {
      var a :| Overlapping(s, a);
      NeverOverfull(s.pool);
      var g;
      if s.searched[a] >= 2 {
        g := ClaimTwice(h, s, a);
      } else if s.pool.num < NUM_ACL {
        g := ClaimLinked(h, s, a);
      } else {
        g := ClaimLinkedWhenFull(h, s, a);
      }
      assert GoesOn(h, g);
    } else {
      forall g | GoesOn(h, g) && Run(g).Some? ensures NoDuplicates(Run(g).value) {
        forall a | a in s.searched ensures s.searched[a] == 1 && a !in Addresses(s.pool) {
          assert !Overlapping(s, a);
        }
        GoesOnWithoutDuplicates(h, g, s);
      }
    }
  }

  /** So many adders of one address. */
  function Adders(a: Mac, n: nat): (m: multiset<Mac>)
    ensures |m| == n && m[a] == n && forall b :: b in m ==> b == a
  {
    if n == 0 then multiset{} else Adders(a, n - 1) + multiset{a}
  }

  lemma OneLess(a: Mac, n: nat)
    requires n > 0
    ensures a in Adders(a, n) && Adders(a, n) - multiset{a} == Adders(a, n - 1)
  {
  }

  lemma SearchOnce(h: seq<Action>, p: Pool, a: Mac, n: nat, m: nat) returns (g: seq<Action>)
    requires Run(h) == Some(State(p, Adders(a, n), Adders(a, m))) && !Linked(p, a) && n > 0
    ensures Run(g) == Some(State(p, Adders(a, n - 1), Adders(a, m + 1)))
  {
    OneLess(a, n);
    g := RunMore(h, State(p, Adders(a, n), Adders(a, m)), Search(a));
  }

  lemma TestOnce(h: seq<Action>, p: Pool, a: Mac, n: nat) returns (g: seq<Action>)
    requires Run(h) == Some(State(p, Adders(a, n), multiset{})) && p.num == 0
    ensures Run(g) == Some(State(p, Adders(a, n + 1), multiset{}))
  {
    g := RunMore(h, State(p, Adders(a, n), multiset{}), Test(a));
  }

  /** Two adders of one address test in turn and search in turn, and find nothing. */
  lemma TwoAdders(h: seq<Action>, p: Pool, a: Mac) returns (g: seq<Action>)
    requires Run(h) == Some(State(p, multiset{}, multiset{})) && p.num == 0 && !Linked(p, a)
    ensures Run(g).Some? && Run(g).value.pool == p && Run(g).value.searched[a] == 2
  {
    g := TestOnce(h, p, a, 0);
    g := TestOnce(g, p, a, 1);
    g := SearchOnce(g, p, a, 2, 0);
    g := SearchOnce(g, p, a, 1, 1);
  }

  /** So an address can be linked twice. */
  lemma OverlapDuplicates(addr: Mac) returns (h: seq<Action>)
    ensures Run(h).Some? && PoolOk(Run(h).value.pool) && !AllDifferent(Addresses(Run(h).value.pool))
  {
    h := TwoAdders([], Empty(), addr);
    PoolStaysSound(h);
    h := ClaimTwice(h, Run(h).value, addr);
  }

  // ---------------------------------------------------- one call at a time

  /** rtw_acl_add_sta with no other caller in between. */
  function Add(p: Pool, addr: Mac): (Pool, int) {
    if NUM_ACL - 1 < p.num then (p, -1)
    else if Linked(p, addr) then (p, 0)
    else (Claim(p, addr), 0)
  }

  /**
   The pool is a set of at most NUM_ACL addresses: a call fails exactly when the
   set is full, even for a member, and otherwise adds the address.
   */
  lemma AddIsSetInsertion(p: Pool, addr: Mac)
    requires PoolOk(p) && AllDifferent(Addresses(p))
    ensures var (q, ret) := Add(p, addr);
            && PoolOk(q) && AllDifferent(Addresses(q))
            && ret == (if |Members(p)| >= NUM_ACL then -1 else 0)
            && Members(q) == (if |Members(p)| >= NUM_ACL then Members(p) else Members(p) + {addr})
  {
    SizeOfElements(Addresses(p));
    LinkedIsAddress(p, addr);
    ClaimKeeps(p, addr);
    ClaimRepeats(p, addr);
  }

  /** Adding again changes nothing. */
  lemma AddTwice(p: Pool, addr: Mac)
    requires PoolOk(p) && AllDifferent(Addresses(p))
    ensures Add(Add(p, addr).0, addr).0 == Add(p, addr).0
  {
    LinkedIsAddress(p, addr);
    ClaimKeeps(p, addr);
    var q := Add(p, addr).0;
    LinkedIsAddress(q, addr);
    NeverOverfull(p);
    if p.num < NUM_ACL && addr !in Addresses(p) {
      assert Addresses(q)[|p.list|] == addr;
    }
  }

  /** rtw_access_ctrl: mode 1 refuses the listed addresses, mode 2 all others. */
  predicate Allowed(p: Pool, mode: int, addr: Mac) {
    if mode == 1 then !Linked(p, addr) else if mode == 2 then Linked(p, addr) else true
  }

  /** So the access test after an add that found room is that for the larger set. */
  lemma AccessAfterAdd(p: Pool, mode: int, addr: Mac, other: Mac)
    requires PoolOk(p) && AllDifferent(Addresses(p)) && p.num < NUM_ACL
    ensures Allowed(Add(p, addr).0, mode, other) == (if other == addr then mode != 1 else Allowed(p, mode, other))
  {
    SizeOfElements(Addresses(p));
    AddIsSetInsertion(p, addr);
    LinkedIsAddress(p, other);
    LinkedIsAddress(Add(p, addr).0, other);
    assert other in Addresses(Add(p, addr).0) <==> other in Members(Add(p, addr).0);
  }

  /** And after a removal, that for the smaller one, whatever duplicates the pool held. */
  lemma AccessAfterRemove(p: Pool, mode: int, addr: Mac, other: Mac)
    requires PoolOk(p)
    ensures Allowed(Remove(p, Some(addr)), mode, other) == (if other == addr then mode != 2 else Allowed(p, mode, other))
  {
    RemoveTakesAll(p, Some(addr));
    LinkedIsAddress(p, other);
    LinkedIsAddress(Remove(p, Some(addr)), other);
    assert other in Addresses(Remove(p, Some(addr))) <==> other in Members(Remove(p, Some(addr)));
  }

  // ----------------------------------------------- the walk that unlinks nodes

  /** The nodes when those at the places in `done` have been walked over. */
  function Marked(nodes: seq<Node>, which: Option<Mac>, done: seq<nat>): (r: seq<Node>)
    ensures |r| == |nodes|
  {
    seq(|nodes|, i requires 0 <= i < |nodes| => if i in done && Taken(nodes[i], which) then nodes[i].(valid := false) else nodes[i])
  }

  lemma MarkedStep(nodes: seq<Node>, which: Option<Mac>, done: seq<nat>, i: nat)
    requires i < |nodes| && i !in done
    ensures Marked(nodes, which, done)[i] == nodes[i]
    ensures Marked(nodes, which, done + [i])
            == if Taken(nodes[i], which) then Marked(nodes, which, done)[i := nodes[i].(valid := false)] else Marked(nodes, which, done)
  {
  }

  /** The pool when `n` nodes of the list as it was have been walked over. */
  function Partly(p: Pool, which: Option<Mac>, n: nat): Pool
    requires n <= |p.list|
  {
    var kept := Kept(p.list[..n], p.nodes, which);
    Pool(Marked(p.nodes, which, p.list[..n]), kept + p.list[n..], p.num - (n - |kept|))
  }

  lemma KeptStep(list: seq<nat>, nodes: seq<Node>, which: Option<Mac>, n: nat)
    requires n < |list|
    ensures Kept(list[..n + 1], nodes, which)
            == if TakenAt(nodes, list[n], which) then Kept(list[..n], nodes, which) else Kept(list[..n], nodes, which) + [list[n]]
  {
    assert list[..n + 1][..n] == list[..n];
  }

  /** What the walk does to its k-th node. */
  function WalkOver(q: Pool, k: nat, which: Option<Mac>): Pool
    requires k < |q.list| && q.list[k] < |q.nodes|
  {
    var i := q.list[k];
    if Taken(q.nodes[i], which) then Pool(q.nodes[i := q.nodes[i].(valid := false)], q.list[..k] + q.list[k + 1..], q.num - 1)
    else q
  }

  lemma SpliceAt(a: seq<nat>, i: nat, b: seq<nat>)
    ensures var s := a + ([i] + b);
            s[|a|] == i && s[..|a|] + s[|a| + 1..] == a + b && s == a + [i] + b
  {
    var s := a + ([i] + b);
    assert s[..|a|] == a && s[|a| + 1..] == b;
  }

  /** Behind the nodes kept so far stands the n-th of the list as it was, not yet touched. */
  lemma PartlyHere(p: Pool, which: Option<Mac>, n: nat)
    requires PoolOk(p) && n < |p.list|
    ensures var (q, kept, rest) := (Partly(p, which, n), Kept(p.list[..n], p.nodes, which), p.list[n + 1..]);
            && |kept| < |q.list| && q.list[|kept|] == p.list[n] < |q.nodes|
            && q.list == kept + [p.list[n]] + rest && q.list[..|kept|] + q.list[|kept| + 1..] == kept + rest
  {
    assert p.list[n..] == [p.list[n]] + p.list[n + 1..];
    SpliceAt(Kept(p.list[..n], p.nodes, which), p.list[n], p.list[n + 1..]);
  }

  lemma PartlyStep(p: Pool, which: Option<Mac>, n: nat)
    requires PoolOk(p) && n < |p.list|
    ensures var (q, k) := (Partly(p, which, n), |Kept(p.list[..n], p.nodes, which)|);
            && k < |q.list| && q.list[k] < |q.nodes|
            && Partly(p, which, n + 1) == WalkOver(q, k, which)
            && |Kept(p.list[..n + 1], p.nodes, which)| == if Taken(q.nodes[q.list[k]], which) then k else k + 1
  {
    var i := p.list[n];
    PartlyHere(p, which, n);
    KeptStep(p.list, p.nodes, which, n);
    assert p.list[..n + 1] == p.list[..n] + [i];
    MarkedStep(p.nodes, which, p.list[..n], i);
  }

  /** The walk starts at the pool as it was. */
  lemma PartlyStarts(p: Pool, which: Option<Mac>)
    ensures Partly(p, which, 0) == p
  {
    assert Marked(p.nodes, which, []) == p.nodes;
  }

  /** It ends when no node is left to walk over, with the removal done. */
  lemma PartlyEnds(p: Pool, which: Option<Mac>, n: nat)
    requires PoolOk(p) && n <= |p.list| && |Kept(p.list[..n], p.nodes, which)| >= |Partly(p, which, n).list|
    ensures Partly(p, which, n) == Remove(p, which)
  {
    assert p.list[..n] == p.list && p.list[n..] == [];
    forall i | 0 <= i < NUM_ACL ensures Marked(p.nodes, which, p.list)[i] == Invalid(p.nodes, which)[i] {}
    assert Marked(p.nodes, which, p.list) == Invalid(p.nodes, which);
    assert Kept(p.list, p.nodes, which) + [] == Kept(p.list, p.nodes, which);
  }

  // ------------------------------------------------------ the shared fields

  class Acl {
    const aclnode: array<Node>
    var list: seq<nat>
    var num: int

    /** The pool's value. */
    ghost function Now(): Pool
      reads this`list, this`num, aclnode
    {
      Pool(aclnode[..], list, num)
    }

    constructor ()
      ensures Now() == Empty() && PoolOk(Now()) && fresh(aclnode)
    {
      aclnode := new Node[NUM_ACL](i => NO_NODE);
      list, num := [], 0;
    }

    /** The walk of rtw_acl_add_sta under its first lock. */
    method Search(addr: Mac) returns (added: bool)
      requires PoolOk(Now())
      ensures added <==> Linked(Now(), addr)
    {
      var k := 0;
      while k < |list|
        invariant k <= |list|
        invariant forall j :: 0 <= j < k ==> aclnode[list[j]] != Node(addr, true)
      {
        if aclnode[list[k]].addr == addr {
          if aclnode[list[k]].valid {
            assert Now().nodes[Now().list[k]] == Node(addr, true);
            return true;
          }
        }
        k := k + 1;
      }
      return false;
    }

    /** The loop under its second lock. */
    method ClaimNode(addr: Mac)
      requires PoolOk(Now())
      modifies this, aclnode
      ensures Now() == Claim(old(Now()), addr)
    {
      for i := 0 to NUM_ACL
        invariant Now() == old(Now())
        invariant FirstFree(aclnode[..], 0) == FirstFree(aclnode[..], i)
      {
        if !aclnode[i].valid {
          aclnode[i] := Node(addr, true);
          list := list + [i];
          num := num + 1;
          return;
        }
      }
    }

    method AddSta(addr: Mac) returns (ret: int)
      requires PoolOk(Now())
      modifies this, aclnode
      ensures (Now(), ret) == Add(old(Now()), addr)
    {
      if NUM_ACL - 1 < num {
        return -1;
      }
      var added := Search(addr);
      if !added {
        ClaimNode(addr);
      }
      ret := 0;
    }

    /** The body of the walks that unlink nodes. */
    method WalkNode(k: nat, which: Option<Mac>) returns (gone: bool)
      requires k < |list| && list[k] < aclnode.Length
      modifies this, aclnode
      ensures Now() == WalkOver(old(Now()), k, which)
      ensures gone <==> Taken(old(aclnode[list[k]]), which)
    {
      var i := list[k];
      gone := Taken(aclnode[i], which);
      if gone {
        aclnode[i] := aclnode[i].(valid := false);
        list := list[..k] + list[k + 1..];
        num := num - 1;
      }
    }

    /** The walk over the list as it was in `p` has passed `n` nodes and stands at place `k`. */
    ghost predicate Walking(p: Pool, which: Option<Mac>, n: nat, k: nat)
      reads this`list, this`num, aclnode
    {
      n <= |p.list| && Now() == Partly(p, which, n) && k == |Kept(p.list[..n], p.nodes, which)|
    }

    lemma WalkGoesOn(p: Pool, which: Option<Mac>, n: nat, k: nat)
      requires Walking(p, which, n, k) && k < |list|
      ensures n < |p.list|
    {
    }

    /** One turn of such a walk: the next node, at place `k` of the list as it is now. */
    method WalkOn(k0: nat, which: Option<Mac>, ghost p: Pool, ghost n: nat) returns (k: nat)
      requires PoolOk(p) && n < |p.list| && Walking(p, which, n, k0)
      modifies this, aclnode
      ensures Walking(p, which, n + 1, k)
    {
      PartlyStep(p, which, n);
      var gone := WalkNode(k0, which);
      k := if gone then k0 else k0 + 1;
    }

    /** rtw_acl_remove_sta, or for None the walk in stop_ap_mode: nodes leave the list while it is walked. */
    method Drop(which: Option<Mac>)
      requires PoolOk(Now())
      modifies this, aclnode
      ensures Now() == Remove(old(Now()), which)
    {
      ghost var p := Now();
      ghost var n: nat := 0;
      var k: nat := 0;
      PartlyStarts(p, which);
      while k < |list|
        invariant Walking(p, which, n, k)
        decreases |p.list| - n
      {
        WalkGoesOn(p, which, n, k);
        k := WalkOn(k, which, p, n);
        n := n + 1;
      }
      WalkEnds(p, which, n, k);
    }

    lemma WalkEnds(p: Pool, which: Option<Mac>, n: nat, k: nat)
      requires PoolOk(p) && Walking(p, which, n, k) && k >= |list|
      ensures Now() == Remove(p, which)
    {
      PartlyEnds(p, which, n);
    }
  }
}
