/**
 The access point's periodic check on its stations and the flush on stopping:
 which stations are aged, probed and removed, with the list, its count and the
 table of stations to probe that go with it.
 */
module StaExpiry {
  import opened Distinct

  const NUM_STA := 32
  const NR_XMITFRAME := 256
  const MAX_TRIES := 3

  /** What the check uses of a station record; records are named by their place in the buffer. */
  datatype Sta = Sta(expireTo: nat, tryCnt: nat, aliveChk: bool, linked: bool)

  const UNUSED := Sta(0, 0, false, false)

  /** pstapriv->expire_to, registrypriv.wifi_spec == 1 and mlmeext.active_keep_alive_check. */
  datatype Params = Params(expireTo: nat, wifiSpec: bool, active: bool)

  /**
   When another thread removes a station while asoc_list_lock is free, as that
   station sees it: after the walk, before the linked test of its own probe,
   between that test and the unlinking, or later.  When it happens relative to
   the probes of other stations makes no difference to it.
   */
  datatype Moment = AfterWalk | BeforeProbe | DuringProbe | AfterProbe

  /**
   What the stations do around one check: those whose receive counters moved,
   those in power save, those that polled since they were last told to, those
   that acknowledge a probe, and those that another thread removes, with the moment.
   */
  datatype Env = Env(heard: set<nat>, asleep: set<nat>, polled: set<nat>, answered: set<nat>, left: map<nat, Moment>)

  predicate LeavesAt(env: Env, i: nat, m: Moment) {
    i in env.left && env.left[i] == m
  }

  /** asoc_list, asoc_list_cnt and the records. */
  datatype State = State(list: seq<nat>, cnt: int, stas: seq<Sta>)

  predicate StateOk(s: State) {
    && |s.stas| == NUM_STA
    && AllDifferent(s.list)
    && (forall k :: 0 <= k < |s.list| ==> s.list[k] < NUM_STA)
    && s.cnt == |s.list|
  }

  function At(stas: seq<Sta>, i: nat): Sta {
    if i < |stas| then stas[i] else UNUSED
  }

  function With(stas: seq<Sta>, i: nat, st: Sta): (r: seq<Sta>)
    ensures |r| == |stas|
  {
    if i < |stas| then stas[i := st] else stas
  }

  /** rtw_list_delete */
  function Without(list: seq<nat>, i: nat): seq<nat> {
    if list == [] then [] else
    var r := Without(list[..|list| - 1], i);
    if list[|list| - 1] == i then r else r + [list[|list| - 1]]
  }

  // ----------------------------------------------------------- one station

  /** Restarts: the check moves on to the next station without the sleep-queue test. */
  datatype Fate = Stays | Restarts | IsProbed | Expires

  /** The walk's decision about one station. */
  function Aged(p: Params, env: Env, i: nat, st: Sta): (Sta, Fate) {
    var a := if i in env.heard || st.expireTo == 0 then st.(expireTo := p.expireTo, tryCnt := 0)
             else st.(expireTo := st.expireTo - 1);
    if a.expireTo > 0 then (a, Stays)
    else if p.wifiSpec then (a.(expireTo := p.expireTo), Restarts)
    else if i in env.asleep && !a.aliveChk then
      (a.(expireTo := p.expireTo, aliveChk := true), if p.active then IsProbed else Restarts)
    else (a, if p.active then IsProbed else Expires)
  }

  /** The record after one probe, and whether the station is given up. */
  function Probed(p: Params, answered: bool, st: Sta): (Sta, bool) {
    if answered then (st.(expireTo := p.expireTo, tryCnt := 0), false)
    else if st.tryCnt + 1 <= MAX_TRIES then (st.(expireTo := 1, tryCnt := st.tryCnt + 1), false)
    else (st.(tryCnt := 0), true)
  }

  // ------------------------------------------------------------- the check

  /**
   A check under way: the lists, the stations to probe, those it freed by
   ap_free_sta so far, and those that other threads freed.
   */
  datatype Progress = Progress(s: State, chk: seq<nat>, freed: seq<nat>, taken: seq<nat>)

  function Unlinked(s: State, i: nat, st: Sta): State {
    State(Without(s.list, i), s.cnt - 1, With(s.stas, i, st.(linked := false)))
  }

  /** Unlinks a station and frees it. */
  function Removed(w: Progress, i: nat, st: Sta): Progress {
    w.(s := Unlinked(w.s, i, st), freed := w.freed + [i])
  }

  function WalkOne(p: Params, env: Env, w: Progress, i: nat): Progress {
    var (st, fate) := Aged(p, env, i, At(w.s.stas, i));
    match fate
    case IsProbed => w.(s := w.s.(stas := With(w.s.stas, i, st)), chk := w.chk + [i])
    case Expires => Removed(w, i, st)
    case _ => w.(s := w.s.(stas := With(w.s.stas, i, st)))
  }

  function Walk(p: Params, env: Env, w: Progress, todo: seq<nat>): Progress {
    if todo == [] then w else WalkOne(p, env, Walk(p, env, w, todo[..|todo| - 1]), todo[|todo| - 1])
  }

  /** Another thread removes a station that is listed, if this is the moment. */
  function LeaveOne(env: Env, m: Moment, w: Progress, i: nat): Progress {
    if LeavesAt(env, i, m) && i in w.s.list
    then w.(s := Unlinked(w.s, i, At(w.s.stas, i)), taken := w.taken + [i])
    else w
  }

  function Gap(env: Env, m: Moment, w: Progress, todo: seq<nat>): Progress {
    if todo == [] then w else LeaveOne(env, m, Gap(env, m, w, todo[..|todo| - 1]), todo[|todo| - 1])
  }

  /** The end of a probe: the record is updated, and a station given up is unlinked if it is listed still. */
  function Answer(p: Params, env: Env, w: Progress, i: nat): Progress {
    var (st, gone) := Probed(p, i in env.answered, At(w.s.stas, i));
    if gone && i in w.s.list then Removed(w, i, st) else w.(s := w.s.(stas := With(w.s.stas, i, st)))
  }

  /** One probe: asoc_list_lock is free before it and while it waits for the acknowledgement. */
  function ProbeOne(p: Params, env: Env, w: Progress, i: nat): Progress {
    var w1 := LeaveOne(env, BeforeProbe, w, i);
    if At(w1.s.stas, i).linked then Answer(p, env, LeaveOne(env, DuringProbe, w1, i), i) else w1
  }

  function Probe(p: Params, env: Env, w: Progress, todo: seq<nat>): Progress {
    if todo == [] then w else ProbeOne(p, env, Probe(p, env, w, todo[..|todo| - 1]), todo[|todo| - 1])
  }

  function Poll(env: Env, stas: seq<Sta>): (r: seq<Sta>)
    ensures |r| == |stas|
  {
    seq(|stas|, i requires 0 <= i < |stas| => if i in env.polled then stas[i].(aliveChk := false) else stas[i])
  }

  /** expire_timeout_chk from the walk over asoc_list on, and what happens until the next check. */
  function Check(p: Params, env: Env, s: State): Progress {
    var w := Walk(p, env, Start(env, s), s.list);
    var g := Gap(env, AfterWalk, w, w.s.list);
    var q := Probe(p, env, g, g.chk);
    Gap(env, AfterProbe, q, q.s.list)
  }

  function Start(env: Env, s: State): Progress {
    Progress(s.(stas := Poll(env, s.stas)), [], [], [])
  }

  // --------------------------------------- what the check does to one station

  /** One station's part in a check: its record, and whether it is listed, to be probed, freed by the check, or by others. */
  datatype Part = Part(st: Sta, listed: bool, toProbe: bool, isFreed: bool, isTaken: bool)

  function PartOf(w: Progress, i: nat): Part {
    Part(At(w.s.stas, i), i in w.s.list, i in w.chk, i in w.freed, i in w.taken)
  }

  function PartWalked(p: Params, env: Env, i: nat, x: Part): Part {
    var (st, fate) := Aged(p, env, i, x.st);
    if fate == Expires then x.(st := st.(linked := false), listed := false, isFreed := true)
    else x.(st := st, toProbe := x.toProbe || fate == IsProbed)
  }

  function PartLeft(env: Env, m: Moment, i: nat, x: Part): Part {
    if LeavesAt(env, i, m) && x.listed then x.(st := x.st.(linked := false), listed := false, isTaken := true) else x
  }

  function PartAnswered(p: Params, env: Env, i: nat, x: Part): Part {
    var (st, gone) := Probed(p, i in env.answered, x.st);
    if gone && x.listed then x.(st := st.(linked := false), listed := false, isFreed := true) else x.(st := st)
  }

  function PartProbed(p: Params, env: Env, i: nat, x: Part): Part {
    var y := PartLeft(env, BeforeProbe, i, x);
    if y.st.linked then PartAnswered(p, env, i, PartLeft(env, DuringProbe, i, y)) else y
  }

  /** The effect of a whole check on a listed station, from its own record alone. */
  function CheckOne(p: Params, env: Env, i: nat, st0: Sta): Part {
    var st := if i in env.polled then st0.(aliveChk := false) else st0;
    var x := PartWalked(p, env, i, Part(st, true, false, false, false));
    var y := PartLeft(env, AfterWalk, i, x);
    var z := if y.toProbe then PartProbed(p, env, i, y) else y;
    PartLeft(env, AfterProbe, i, z)
  }

  lemma {:induction false} WithoutContains(list: seq<nat>, i: nat, x: nat)
    ensures x in Without(list, i) <==> x in list && x != i
  {
    if list != [] {
      WithoutContains(list[..|list| - 1], i, x);
      assert list == list[..|list| - 1] + [list[|list| - 1]];
    }
  }

  lemma {:induction false} WithoutLength(list: seq<nat>, i: nat)
    requires AllDifferent(list)
    ensures AllDifferent(Without(list, i))
    ensures |Without(list, i)| == |list| - (if i in list then 1 else 0)
  {
    if list != [] {
      var front, last := list[..|list| - 1], list[|list| - 1];
      WithoutLength(front, i);
      WithoutContains(front, i, last);
      assert list == front + [last];
    }
  }

  /** Unlinking keeps the list, its count and the records in step. */
  lemma UnlinkOk(s: State, i: nat, st: Sta)
    requires StateOk(s) && i in s.list
    ensures StateOk(Unlinked(s, i, st))
    ensures forall x :: x in Unlinked(s, i, st).list <==> x in s.list && x != i
  {
    WithoutLength(s.list, i);
    var list := Without(s.list, i);
    forall x ensures x in list <==> x in s.list && x != i {
      WithoutContains(s.list, i, x);
    }
    forall k | 0 <= k < |list| ensures list[k] < NUM_STA {
      assert list[k] in list;
    }
  }

  /** Also: the stations to probe are different; those freed, by whomever, are different and no longer listed. */
  predicate ProgressOk(w: Progress) {
    && StateOk(w.s)
    && AllDifferent(w.chk) && (forall k :: 0 <= k < |w.chk| ==> w.chk[k] < NUM_STA)
    && AllDifferent(w.freed) && (forall k :: 0 <= k < |w.freed| ==> w.freed[k] !in w.s.list && w.freed[k] !in w.taken)
    && AllDifferent(w.taken) && (forall k :: 0 <= k < |w.taken| ==> w.taken[k] !in w.s.list)
  }

  lemma RemovedOk(w: Progress, i: nat, st: Sta)
    requires ProgressOk(w) && i in w.s.list
    ensures ProgressOk(Removed(w, i, st)) && i !in w.freed && i !in w.taken
    ensures forall x :: x in Removed(w, i, st).s.list <==> x in w.s.list && x != i
  {
    UnlinkOk(w.s, i, st);
  }

  lemma TakenOk(w: Progress, i: nat, st: Sta)
    requires ProgressOk(w) && i in w.s.list
    ensures ProgressOk(w.(s := Unlinked(w.s, i, st), taken := w.taken + [i])) && i !in w.freed && i !in w.taken
    ensures forall x :: x in Unlinked(w.s, i, st).list <==> x in w.s.list && x != i
  {
    UnlinkOk(w.s, i, st);
  }

  lemma WalkOneOk(p: Params, env: Env, w: Progress, i: nat, x: nat)
    requires ProgressOk(w) && i in w.s.list && i !in w.chk
    ensures ProgressOk(WalkOne(p, env, w, i))
    ensures PartOf(WalkOne(p, env, w, i), x) == if x == i then PartWalked(p, env, i, PartOf(w, i)) else PartOf(w, x)
  {
    var (st, fate) := Aged(p, env, i, At(w.s.stas, i));
    if fate == Expires {
      RemovedOk(w, i, st);
    }
  }

  lemma {:induction false} WalkOk(p: Params, env: Env, w: Progress, todo: seq<nat>, x: nat)
    requires ProgressOk(w) && AllDifferent(todo)
    requires forall k :: 0 <= k < |todo| ==> todo[k] in w.s.list && todo[k] !in w.chk
    ensures ProgressOk(Walk(p, env, w, todo))
    ensures PartOf(Walk(p, env, w, todo), x) == if x in todo then PartWalked(p, env, x, PartOf(w, x)) else PartOf(w, x)
  {
    if todo != [] {
      var front, i := todo[..|todo| - 1], todo[|todo| - 1];
      assert todo == front + [i] && i !in front;
      WalkOk(p, env, w, front, x);
      WalkOk(p, env, w, front, i);
      var v := Walk(p, env, w, front);
      assert PartOf(v, i) == PartOf(w, i);
      WalkOneOk(p, env, v, i, x);
    }
  }

  lemma LeaveOneOk(env: Env, m: Moment, w: Progress, i: nat, x: nat)
    requires ProgressOk(w)
    ensures ProgressOk(LeaveOne(env, m, w, i))
    ensures PartOf(LeaveOne(env, m, w, i), x) == if x == i then PartLeft(env, m, i, PartOf(w, i)) else PartOf(w, x)
  {
    if LeavesAt(env, i, m) && i in w.s.list {
      TakenOk(w, i, At(w.s.stas, i));
    }
  }

  lemma {:induction false} GapOk(env: Env, m: Moment, w: Progress, todo: seq<nat>, x: nat)
    requires ProgressOk(w)
    ensures ProgressOk(Gap(env, m, w, todo))
    ensures PartOf(Gap(env, m, w, todo), x) == if x in todo then PartLeft(env, m, x, PartOf(w, x)) else PartOf(w, x)
  {
    if todo != [] {
      var front := todo[..|todo| - 1];
      assert todo == front + [todo[|todo| - 1]];
      GapOk(env, m, w, front, x);
      LeaveOneOk(env, m, Gap(env, m, w, front), todo[|todo| - 1], x);
    }
  }

  lemma AnswerOk(p: Params, env: Env, w: Progress, i: nat, x: nat)
    requires ProgressOk(w) && i < NUM_STA
    ensures ProgressOk(Answer(p, env, w, i))
    ensures PartOf(Answer(p, env, w, i), x) == if x == i then PartAnswered(p, env, i, PartOf(w, i)) else PartOf(w, x)
  {
    var (st, gone) := Probed(p, i in env.answered, At(w.s.stas, i));
    if gone && i in w.s.list {
      RemovedOk(w, i, st);
    }
  }

  lemma ProbeOneOk(p: Params, env: Env, w: Progress, i: nat, x: nat)
    requires ProgressOk(w) && i < NUM_STA
    ensures ProgressOk(ProbeOne(p, env, w, i))
    ensures PartOf(ProbeOne(p, env, w, i), x) == if x == i then PartProbed(p, env, i, PartOf(w, i)) else PartOf(w, x)
  {
    LeaveOneOk(env, BeforeProbe, w, i, i);
    LeaveOneOk(env, BeforeProbe, w, i, x);
    var w1 := LeaveOne(env, BeforeProbe, w, i);
    LeaveOneOk(env, DuringProbe, w1, i, i);
    LeaveOneOk(env, DuringProbe, w1, i, x);
    AnswerOk(p, env, LeaveOne(env, DuringProbe, w1, i), i, x);
  }

  lemma {:induction false} ProbeOk(p: Params, env: Env, w: Progress, todo: seq<nat>, x: nat)
    requires ProgressOk(w) && AllDifferent(todo) && forall k :: 0 <= k < |todo| ==> todo[k] < NUM_STA
    ensures ProgressOk(Probe(p, env, w, todo))
    ensures PartOf(Probe(p, env, w, todo), x) == if x in todo then PartProbed(p, env, x, PartOf(w, x)) else PartOf(w, x)
  {
    if todo != [] {
      var front, i := todo[..|todo| - 1], todo[|todo| - 1];
      assert todo == front + [i] && i !in front;
      ProbeOk(p, env, w, front, x);
      ProbeOk(p, env, w, front, i);
      ProbeOneOk(p, env, Probe(p, env, w, front), i, x);
    }
  }

  /** A check does to each listed station what its own record says, and to others nothing but clearing polls. */
  lemma CheckIsLocal(p: Params, env: Env, s: State, x: nat)
    requires StateOk(s)
    ensures ProgressOk(Check(p, env, s))
    ensures x in s.list ==> PartOf(Check(p, env, s), x) == CheckOne(p, env, x, At(s.stas, x))
    ensures x !in s.list ==>
              x !in Check(p, env, s).s.list && x !in Check(p, env, s).freed && x !in Check(p, env, s).taken
  {
    var w0 := Start(env, s);
    var w := Walk(p, env, w0, s.list);
    WalkOk(p, env, w0, s.list, x);
    var g := Gap(env, AfterWalk, w, w.s.list);
    GapOk(env, AfterWalk, w, w.s.list, x);
    var q := Probe(p, env, g, g.chk);
    ProbeOk(p, env, g, g.chk, x);
    GapOk(env, AfterProbe, q, q.s.list, x);
  }

  /**
   Over every check: the count stays the length of the list, the table of
   stations to probe never needs more than its NUM_STA places, and no station is
   freed twice, by the check or by another thread that removes it at any moment
   of the check: all those freed are different, were listed before and are not after.
   */
  lemma CheckKeeps(p: Params, env: Env, s: State)
    requires StateOk(s)
    ensures StateOk(Check(p, env, s).s)
    ensures |Check(p, env, s).chk| <= NUM_STA
    ensures AllDifferent(Check(p, env, s).freed + Check(p, env, s).taken)
    ensures forall x :: x in Check(p, env, s).freed + Check(p, env, s).taken ==> x in s.list && x !in Check(p, env, s).s.list
    ensures forall x :: x in Check(p, env, s).s.list ==> x in s.list
  {
    var w := Check(p, env, s);
    CheckIsLocal(p, env, s, 0);
    Pigeonhole(w.chk, NUM_STA);
    forall x | x in w.freed + w.taken ensures x in s.list && x !in w.s.list {
      CheckIsLocal(p, env, s, x);
    }
    forall x | x in w.s.list ensures x in s.list {
      CheckIsLocal(p, env, s, x);
    }
  }

  // ------------------------------------------------------------ keep-alive

  /** The state after the checks in `envs`, one after the other. */
  function Checks(p: Params, envs: seq<Env>, s: State): State {
    if envs == [] then s else Check(p, envs[|envs| - 1], Checks(p, envs[..|envs| - 1], s)).s
  }

  /** Station `i` sends nothing, acknowledges nothing and is not removed by anyone else. */
  predicate Silent(envs: seq<Env>, i: nat) {
    forall k :: 0 <= k < |envs| ==> i !in envs[k].heard && i !in envs[k].answered && i !in envs[k].left
  }

  /** Where a silent station stands after `n` checks. */
  predicate Ageing(st: Sta, start: nat, n: nat) {
    st.linked
    && st.expireTo == (if n < start then start - n else 1)
    && st.tryCnt == (if n < start then 0 else n - start + 1)
  }

  lemma SilentStep(p: Params, env: Env, i: nat, st: Sta, start: nat, n: nat)
    requires p.active && !p.wifiSpec && p.expireTo >= 1 && start >= 1 && Silent([env], i) && Ageing(st, start, n)
    ensures n + 1 < start + MAX_TRIES ==> CheckOne(p, env, i, st).listed && Ageing(CheckOne(p, env, i, st).st, start, n + 1)
    ensures n + 1 == start + MAX_TRIES ==> !CheckOne(p, env, i, st).listed && CheckOne(p, env, i, st).isFreed
  {
    assert [env][0] == env;
  }

  lemma {:induction false} ChecksOk(p: Params, envs: seq<Env>, s: State)
    requires StateOk(s)
    ensures StateOk(Checks(p, envs, s))
  {
    if envs != [] {
      ChecksOk(p, envs[..|envs| - 1], s);
      CheckKeeps(p, envs[|envs| - 1], Checks(p, envs[..|envs| - 1], s));
    }
  }

  lemma {:induction false} SilentAges(p: Params, envs: seq<Env>, s: State, i: nat)
    requires StateOk(s) && p.active && !p.wifiSpec && p.expireTo >= 1 && Silent(envs, i)
    requires i in s.list && s.stas[i].linked && s.stas[i].expireTo >= 1 && s.stas[i].tryCnt == 0
    requires |envs| < s.stas[i].expireTo + MAX_TRIES
    ensures StateOk(Checks(p, envs, s)) && i in Checks(p, envs, s).list
    ensures Ageing(At(Checks(p, envs, s).stas, i), s.stas[i].expireTo, |envs|)
  {
    ChecksOk(p, envs, s);
    if envs != [] {
      var front, env := envs[..|envs| - 1], envs[|envs| - 1];
      assert Silent(front, i) by {
        forall k | 0 <= k < |front| ensures front[k] == envs[k] {}
      }
      SilentAges(p, front, s, i);
      var t := Checks(p, front, s);
      CheckIsLocal(p, env, t, i);
      assert Silent([env], i);
      SilentStep(p, env, i, At(t.stas, i), s.stas[i].expireTo, |front|);
    }
  }

  /**
   Keep-alive bound: with the active check on, a linked station that starts with
   expire_to == E >= 1 and no tries, is silent and fails every probe is listed
   through check E + 2 and freed by check E + 3, in power save or not.
   */
  lemma RemovedAtExactlyEPlus3(p: Params, envs: seq<Env>, s: State, i: nat)
    requires StateOk(s) && p.active && !p.wifiSpec && p.expireTo >= 1 && Silent(envs, i)
    requires i in s.list && s.stas[i].linked && s.stas[i].expireTo >= 1 && s.stas[i].tryCnt == 0
    ensures |envs| < s.stas[i].expireTo + 3 ==> i in Checks(p, envs, s).list
    ensures |envs| == s.stas[i].expireTo + 3 ==>
              i !in Checks(p, envs, s).list
              && i in Check(p, envs[|envs| - 1], Checks(p, envs[..|envs| - 1], s)).freed
  {
    if |envs| < s.stas[i].expireTo + 3 {
      SilentAges(p, envs, s, i);
    } else if |envs| == s.stas[i].expireTo + 3 {
      var front, env := envs[..|envs| - 1], envs[|envs| - 1];
      assert Silent(front, i) by {
        forall k | 0 <= k < |front| ensures front[k] == envs[k] {}
      }
      SilentAges(p, front, s, i);
      CheckIsLocal(p, env, Checks(p, front, s), i);
      assert Silent([env], i);
      SilentStep(p, env, i, At(Checks(p, front, s).stas, i), s.stas[i].expireTo, |front|);
    }
  }

  /** A station that was due for a probe and acknowledged it starts over at pstapriv->expire_to. */
  lemma AnsweredProbeStartsOver(p: Params, env: Env, s: State, i: nat)
    requires StateOk(s) && p.active && !p.wifiSpec && p.expireTo >= 1
    requires i in s.list && s.stas[i].linked && s.stas[i].expireTo == 1
    requires i !in env.heard && i in env.answered && i !in env.left
    ensures i in Check(p, env, s).s.list
    ensures At(Check(p, env, s).s.stas, i).expireTo == p.expireTo && At(Check(p, env, s).s.stas, i).tryCnt == 0
  {
    CheckIsLocal(p, env, s, i);
  }

  /**
   A station that was heard since the last check, or whose time is not running,
   starts over whatever the parameters: it is listed after the check and not
   probed, with all its time and no tries.
   */
  lemma HeardStartsOver(p: Params, env: Env, s: State, i: nat)
    requires StateOk(s) && p.expireTo >= 1 && i in s.list && i !in env.left
    requires i in env.heard || s.stas[i].expireTo == 0
    ensures var w := Check(p, env, s);
            && i in w.s.list && i !in w.chk
            && At(w.s.stas, i) == Sta(p.expireTo, 0, s.stas[i].aliveChk && i !in env.polled, s.stas[i].linked)
  {
    CheckIsLocal(p, env, s, i);
  }

  /** One that was not heard and is not due yet has one check less, and nothing else happens to it. */
  lemma UnheardAges(p: Params, env: Env, s: State, i: nat)
    requires StateOk(s) && i in s.list && i !in env.left && i !in env.heard && s.stas[i].expireTo >= 2
    ensures var w := Check(p, env, s);
            && i in w.s.list && i !in w.chk
            && At(w.s.stas, i) == Sta(s.stas[i].expireTo - 1, s.stas[i].tryCnt, s.stas[i].aliveChk && i !in env.polled,
                                      s.stas[i].linked)
  {
    CheckIsLocal(p, env, s, i);
  }

  /** With wifi_spec no check probes or frees anyone; a station that is due starts over. */
  lemma WifiSpecFreesNobody(p: Params, env: Env, s: State)
    requires StateOk(s) && p.wifiSpec
    ensures Check(p, env, s).chk == [] && Check(p, env, s).freed == []
    ensures forall i :: i in s.list && i !in env.left ==>
              && i in Check(p, env, s).s.list
              && (s.stas[i].expireTo <= 1 ==> At(Check(p, env, s).s.stas, i).expireTo == p.expireTo)
  {
    var w := Check(p, env, s);
    forall i | i in s.list && i !in env.left
      ensures i in w.s.list && (s.stas[i].expireTo <= 1 ==> At(w.s.stas, i).expireTo == p.expireTo)
    {
      CheckIsLocal(p, env, s, i);
    }
    if w.freed != [] {
      CheckIsLocal(p, env, s, w.freed[0]);
    }
    if w.chk != [] {
      CheckedIsListed(p, env, s, w.chk[0]);
      CheckIsLocal(p, env, s, w.chk[0]);
    }
  }

  /** Only listed stations are probed. */
  lemma CheckedIsListed(p: Params, env: Env, s: State, x: nat)
    requires StateOk(s) && x in Check(p, env, s).chk
    ensures x in s.list
  {
    var w0 := Start(env, s);
    var w := Walk(p, env, w0, s.list);
    WalkOk(p, env, w0, s.list, x);
    var g := Gap(env, AfterWalk, w, w.s.list);
    GapOk(env, AfterWalk, w, w.s.list, x);
    ProbeOk(p, env, g, g.chk, x);
    var q := Probe(p, env, g, g.chk);
    GapOk(env, AfterProbe, q, q.s.list, x);
  }

  /** A station that is due in power save is told to poll, once, by its bit in the traffic indication map. */
  lemma SleeperIsTold(p: Params, env: Env, s: State, i: nat)
    requires StateOk(s) && !p.wifiSpec && p.expireTo >= 1 && i in s.list && i !in env.left && i !in env.heard
    requires s.stas[i].expireTo == 1 && i in env.asleep && (s.stas[i].aliveChk ==> i in env.polled)
    ensures At(Check(p, env, s).s.stas, i).aliveChk
    ensures !p.active ==>
              i in Check(p, env, s).s.list && At(Check(p, env, s).s.stas, i).expireTo == p.expireTo
              && At(Check(p, env, s).s.stas, i).tryCnt == s.stas[i].tryCnt
  {
    CheckIsLocal(p, env, s, i);
  }

  /** Station `i` is not heard, not removed by anyone else, and in power save or not in every check. */
  predicate Unheard(envs: seq<Env>, i: nat, asleep: bool) {
    forall k :: 0 <= k < |envs| ==>
      i !in envs[k].heard && i !in envs[k].left && (i in envs[k].asleep <==> asleep) && i !in envs[k].polled
  }

  lemma {:induction false} UnheardCounts(p: Params, envs: seq<Env>, s: State, i: nat, asleep: bool)
    requires StateOk(s) && !p.active && !p.wifiSpec && i in s.list && s.stas[i].expireTo >= 1 && Unheard(envs, i, asleep)
    requires |envs| < s.stas[i].expireTo
    ensures StateOk(Checks(p, envs, s)) && i in Checks(p, envs, s).list
    ensures At(Checks(p, envs, s).stas, i) == s.stas[i].(expireTo := s.stas[i].expireTo - |envs|)
  {
    ChecksOk(p, envs, s);
    if envs != [] {
      var front, env := envs[..|envs| - 1], envs[|envs| - 1];
      forall k | 0 <= k < |front| ensures front[k] == envs[k] {}
      UnheardCounts(p, front, s, i, asleep);
      UnheardAges(p, env, Checks(p, front, s), i);
    }
  }

  /**
   With the active check off a station that is awake and not heard any more, or
   asleep and told before, is listed through check E - 1 and freed by check E.
   */
  lemma PassiveRemovedAtExactlyE(p: Params, envs: seq<Env>, s: State, i: nat, asleep: bool)
    requires StateOk(s) && !p.active && !p.wifiSpec && i in s.list && s.stas[i].expireTo >= 1 && Unheard(envs, i, asleep)
    requires asleep ==> s.stas[i].aliveChk
    ensures |envs| < s.stas[i].expireTo ==> i in Checks(p, envs, s).list
    ensures |envs| == s.stas[i].expireTo ==>
              i !in Checks(p, envs, s).list
              && i in Check(p, envs[|envs| - 1], Checks(p, envs[..|envs| - 1], s)).freed
  {
    if |envs| < s.stas[i].expireTo {
      UnheardCounts(p, envs, s, i, asleep);
    } else if |envs| == s.stas[i].expireTo {
      var front, env := envs[..|envs| - 1], envs[|envs| - 1];
      forall k | 0 <= k < |front| ensures front[k] == envs[k] {}
      UnheardCounts(p, front, s, i, asleep);
      CheckIsLocal(p, env, Checks(p, front, s), i);
    }
  }

  lemma {:induction false} ChecksAppend(p: Params, a: seq<Env>, b: seq<Env>, s: State)
    ensures Checks(p, a + b, s) == Checks(p, b, Checks(p, a, s))
  {
    if b == [] {
      assert a + b == a;
    } else {
      var front, env := b[..|b| - 1], b[|b| - 1];
      ChecksAppend(p, a, front, s);
      assert (a + b)[..|a + b| - 1] == a + front && (a + b)[|a + b| - 1] == env;
    }
  }

  lemma UnheardPart(envs: seq<Env>, i: nat, asleep: bool, lo: nat, hi: nat)
    requires Unheard(envs, i, asleep) && lo <= hi <= |envs|
    ensures Unheard(envs[lo..hi], i, asleep)
  {
    forall k | 0 <= k < hi - lo ensures envs[lo..hi][k] == envs[lo + k] {}
  }

  lemma ToldAtE(p: Params, envs: seq<Env>, s: State, i: nat)
    requires StateOk(s) && !p.active && !p.wifiSpec && p.expireTo >= 1 && Unheard(envs, i, true)
    requires i in s.list && !s.stas[i].aliveChk && |envs| == s.stas[i].expireTo >= 1
    ensures StateOk(Checks(p, envs, s)) && i in Checks(p, envs, s).list
    ensures At(Checks(p, envs, s).stas, i).aliveChk && At(Checks(p, envs, s).stas, i).expireTo == p.expireTo
  {
    var front, env := envs[..|envs| - 1], envs[|envs| - 1];
    UnheardPart(envs, i, true, 0, |envs| - 1);
    UnheardCounts(p, front, s, i, true);
    CheckKeeps(p, env, Checks(p, front, s));
    SleeperIsTold(p, env, Checks(p, front, s), i);
  }

  lemma SecondTerm(p: Params, a: seq<Env>, b: seq<Env>, s: State, i: nat)
    requires StateOk(s) && !p.active && !p.wifiSpec && p.expireTo >= 1 && Unheard(a, i, true) && Unheard(b, i, true)
    requires i in s.list && !s.stas[i].aliveChk && |a| == s.stas[i].expireTo >= 1
    ensures |b| < p.expireTo ==> i in Checks(p, a + b, s).list
    ensures |b| == p.expireTo ==> i !in Checks(p, a + b, s).list
  {
    ToldAtE(p, a, s, i);
    ChecksAppend(p, a, b, s);
    PassiveRemovedAtExactlyE(p, b, Checks(p, a, s), i, true);
  }

  /** One that is asleep, was not told and never polls has pstapriv->expire_to checks more. */
  lemma SleeperHasOneMoreTerm(p: Params, envs: seq<Env>, s: State, i: nat)
    requires StateOk(s) && !p.active && !p.wifiSpec && p.expireTo >= 1 && Unheard(envs, i, true)
    requires i in s.list && s.stas[i].expireTo >= 1 && !s.stas[i].aliveChk
    ensures |envs| < s.stas[i].expireTo + p.expireTo ==> i in Checks(p, envs, s).list
    ensures |envs| == s.stas[i].expireTo + p.expireTo ==> i !in Checks(p, envs, s).list
  {
    var n := s.stas[i].expireTo;
    if |envs| < n {
      UnheardCounts(p, envs, s, i, true);
    } else if |envs| <= n + p.expireTo {
      UnheardPart(envs, i, true, 0, n);
      UnheardPart(envs, i, true, n, |envs|);
      SecondTerm(p, envs[..n], envs[n..], s, i);
      assert envs == envs[..n] + envs[n..];
    }
  }

  /** The linked bit matters: a listed station without it is skipped by the probes and never removed. */
  lemma {:induction false} UnlinkedIsNeverRemoved(p: Params, envs: seq<Env>, s: State, i: nat)
    requires StateOk(s) && p.active && i in s.list && !s.stas[i].linked
    requires forall k :: 0 <= k < |envs| ==> i !in envs[k].left
    ensures StateOk(Checks(p, envs, s)) && i in Checks(p, envs, s).list && !At(Checks(p, envs, s).stas, i).linked
  {
    ChecksOk(p, envs, s);
    if envs != [] {
      var front := envs[..|envs| - 1];
      forall k | 0 <= k < |front| ensures front[k] == envs[k] {}
      UnlinkedIsNeverRemoved(p, front, s, i);
      CheckIsLocal(p, envs[|envs| - 1], Checks(p, front, s), i);
    }
  }

  // ------------------------------------------------------ the shared fields

  /** At the n-th station of the walk: it is listed still, and the table has room for it. */
  lemma WalkReaches(p: Params, env: Env, s: State, n: nat)
    requires StateOk(s) && n < |s.list|
    ensures var w := Walk(p, env, Progress(s, [], [], []), s.list[..n]);
            StateOk(w.s) && s.list[n] in w.s.list && |w.chk| < NUM_STA
    ensures Walk(p, env, Progress(s, [], [], []), s.list[..n + 1])
            == WalkOne(p, env, Walk(p, env, Progress(s, [], [], []), s.list[..n]), s.list[n])
  {
    var i := s.list[n];
    var w := Walk(p, env, Progress(s, [], [], []), s.list[..n]);
    assert i !in s.list[..n];
    WalkOk(p, env, Progress(s, [], [], []), s.list[..n], i);
    assert PartOf(w, i) == PartOf(Progress(s, [], [], []), i);
    Pigeonhole(w.chk + [i], NUM_STA);
    assert s.list[..n + 1][..n] == s.list[..n];
  }

  class StaPriv {
    var asoc_list: seq<nat>
    var asoc_list_cnt: int
    const stainfo: array<Sta>

    ghost function Now(): State
      reads this`asoc_list, this`asoc_list_cnt, stainfo
    {
      State(asoc_list, asoc_list_cnt, stainfo[..])
    }

    constructor ()
      ensures StateOk(Now()) && asoc_list == [] && fresh(stainfo)
    {
      asoc_list, asoc_list_cnt := [], 0;
      stainfo := new Sta[NUM_STA](_ => UNUSED);
    }

    /** rtw_list_delete(&psta->asoc_list) */
    method Unlink(i: nat)
      modifies this`asoc_list
      ensures asoc_list == Without(old(asoc_list), i)
    {
      var r: seq<nat> := [];
      for n := 0 to |asoc_list|
        invariant asoc_list == old(asoc_list) && r == Without(asoc_list[..n], i)
      {
        assert asoc_list[..n + 1][..n] == asoc_list[..n];
        if asoc_list[n] != i {
          r := r + [asoc_list[n]];
        }
      }
      assert asoc_list[..|asoc_list|] == asoc_list;
      asoc_list := r;
    }

    /** Unlinks a station and clears its linked bit: the part of ap_free_sta that matters here, and its caller's. */
    method Remove(i: nat, st: Sta)
      requires i < stainfo.Length
      modifies this`asoc_list, this`asoc_list_cnt, stainfo
      ensures Now() == Unlinked(old(Now()), i, st)
    {
      stainfo[i] := st.(linked := false);
      Unlink(i);
      asoc_list_cnt := asoc_list_cnt - 1;
    }

    /**
     The body of the walk.  `wakeUp` is the sleep-queue test, whose division is
     by a count that is not zero.
     */
    method WalkStation(p: Params, env: Env, i: nat, sleepqLen: nat, freeFrames: nat)
      returns (fate: Fate, wakeUp: bool)
      requires StateOk(Now()) && i in asoc_list
      modifies this, stainfo
      ensures fate == Aged(p, env, i, old(stainfo[i])).1
      ensures Now() == WalkOne(p, env, Progress(old(Now()), [], [], []), i).s
      ensures wakeUp <==> fate == Stays && sleepqLen > NR_XMITFRAME / |old(asoc_list)|
                          && freeFrames < NR_XMITFRAME / |old(asoc_list)| / 2
    {
      wakeUp := false;
      assert i < stainfo.Length;
      var (st, f) := Aged(p, env, i, stainfo[i]);
      fate := f;
      if fate == Expires {
        Remove(i, st);
      } else {
        stainfo[i] := st;
        if fate == Stays {
          wakeUp := sleepqLen > NR_XMITFRAME / asoc_list_cnt && freeFrames < NR_XMITFRAME / asoc_list_cnt / 2;
        }
      }
    }

    /** The walk of expire_timeout_chk under asoc_list_lock; `queues` are the frames waiting for each station. */
    method WalkAsocList(p: Params, env: Env, queues: nat -> nat, freeFrames: nat)
      returns (chk: array<nat>, num: nat, freed: seq<nat>)
      requires StateOk(Now())
      modifies this, stainfo
      ensures fresh(chk) && num <= chk.Length == NUM_STA
      ensures Progress(Now(), chk[..num], freed, []) == Walk(p, env, Progress(old(Now()), [], [], []), old(asoc_list))
    {
      chk := new nat[NUM_STA];
      num, freed := 0, [];
      var todo := asoc_list;
      ghost var s := Now();
      for n := 0 to |todo|
        invariant num <= NUM_STA
        invariant Progress(Now(), chk[..num], freed, []) == Walk(p, env, Progress(s, [], [], []), todo[..n])
      {
        WalkReaches(p, env, s, n);
        var fate, wakeUp := WalkStation(p, env, todo[n], queues(todo[n]), freeFrames);
        if fate == IsProbed {
          chk[num] := todo[n];
          num := num + 1;
        } else if fate == Expires {
          freed := freed + [todo[n]];
        }
      }
      assert todo[..|todo|] == todo;
    }

    /** Another thread removes a station while asoc_list_lock is free, if this is its moment. */
    method OthersMayRemove(env: Env, m: Moment, i: nat, ghost w: Progress) returns (taken: bool)
      requires i < stainfo.Length && w.s == Now()
      modifies this`asoc_list, this`asoc_list_cnt, stainfo
      ensures Now() == LeaveOne(env, m, w, i).s
      ensures LeaveOne(env, m, w, i) == w.(s := Now(), taken := w.taken + if taken then [i] else [])
    {
      taken := LeavesAt(env, i, m) && i in asoc_list;
      if taken {
        Remove(i, stainfo[i]);
      }
    }

    /** One probe: the linked test, the wait for the acknowledgement, and the unlinking if the station is listed still. */
    method ProbeStation(p: Params, env: Env, i: nat, ghost w: Progress) returns (gone: bool, taken: bool)
      requires i < stainfo.Length && w.s == Now()
      modifies this`asoc_list, this`asoc_list_cnt, stainfo
      ensures ProbeOne(p, env, w, i) == w.(s := Now(), freed := w.freed + (if gone then [i] else []),
                                           taken := w.taken + if taken then [i] else [])
    {
      gone := false;
      taken := OthersMayRemove(env, BeforeProbe, i, w);
      ghost var w1 := LeaveOne(env, BeforeProbe, w, i);
      if !stainfo[i].linked {
        return;
      }
      taken := OthersMayRemove(env, DuringProbe, i, w1);
      gone := EndProbe(p, env, i, LeaveOne(env, DuringProbe, w1, i));
    }

    method EndProbe(p: Params, env: Env, i: nat, ghost w: Progress) returns (gone: bool)
      requires i < stainfo.Length && w.s == Now()
      modifies this`asoc_list, this`asoc_list_cnt, stainfo
      ensures Answer(p, env, w, i) == w.(s := Now(), freed := w.freed + if gone then [i] else [])
    {
      var (st, lost) := Probed(p, i in env.answered, stainfo[i]);
      gone := lost && i in asoc_list;
      if gone {
        Remove(i, st);
      } else {
        stainfo[i] := st;
      }
    }

    /** The probes, each station looked up by its offset. */
    method ProbeStations(p: Params, env: Env, chk: seq<nat>) returns (freed: seq<nat>, taken: seq<nat>)
      requires stainfo.Length == NUM_STA && forall k :: 0 <= k < |chk| ==> chk[k] < NUM_STA
      modifies this`asoc_list, this`asoc_list_cnt, stainfo
      ensures Progress(Now(), chk, freed, taken) == Probe(p, env, Progress(old(Now()), chk, [], []), chk)
    {
      freed, taken := [], [];
      ghost var w := Progress(Now(), chk, [], []);
      for n := 0 to |chk|
        invariant Progress(Now(), chk, freed, taken) == Probe(p, env, w, chk[..n])
      {
        assert chk[..n + 1][..n] == chk[..n];
        var gone, left := ProbeStation(p, env, chk[n], Progress(Now(), chk, freed, taken));
        freed := freed + if gone then [chk[n]] else [];
        taken := taken + if left then [chk[n]] else [];
      }
      assert chk[..|chk|] == chk;
    }

    /** rtw_sta_flush: the list is emptied into the table, then each station in it is freed, once. */
    method Flush() returns (freed: seq<nat>)
      requires StateOk(Now())
      modifies this, stainfo
      ensures StateOk(Now()) && asoc_list == [] && asoc_list_cnt == 0
      ensures freed == old(asoc_list) && AllDifferent(freed)
      ensures forall i :: 0 <= i < NUM_STA ==> stainfo[i] == if i in freed then old(stainfo[i]).(linked := false) else old(stainfo[i])
    {
      var chk := new nat[NUM_STA];
      var num := 0;
      ghost var list := asoc_list;
      Pigeonhole(list, NUM_STA);
      while asoc_list != []
        invariant num + |asoc_list| == |list| <= NUM_STA
        invariant chk[..num] == list[..num] && asoc_list == list[num..]
        invariant asoc_list_cnt == |asoc_list| && stainfo[..] == old(stainfo[..])
        decreases |asoc_list|
      {
        chk[num] := asoc_list[0];
        num := num + 1;
        asoc_list := asoc_list[1..];
        asoc_list_cnt := asoc_list_cnt - 1;
      }
      freed := [];
      for n := 0 to num
        invariant freed == list[..n] && chk[..num] == list
        invariant stainfo.Length == NUM_STA && asoc_list == [] && asoc_list_cnt == 0
        invariant forall i :: 0 <= i < NUM_STA ==> stainfo[i] == if i in freed then old(stainfo[i]).(linked := false) else old(stainfo[i])
      {
        var i := chk[n];
        assert i == list[n];
        stainfo[i] := stainfo[i].(linked := false);
        freed := freed + [i];
      }
    }
  }
}
