/**
 What an access point counts about its stations and advertises for them: six
 flags per station, six counters that mirror them, the ERP element of the beacon
 and the HT operation mode.
 */
module BssCaps {
  import opened Bytes

  /** The flags a station's record carries once it has been counted for something. */
  datatype Kind = NoShortPreamble | NonErp | NoShortSlot | NoHtGf | NoHt | Ht20

  /** Those flags of one record. */
  datatype Marks = Marks(noShortPreamble: bool, nonErp: bool, noShortSlot: bool, noHtGf: bool, noHt: bool, ht20: bool)
  {
    predicate Has(k: Kind) {
      match k
      case NoShortPreamble => noShortPreamble
      case NonErp => nonErp
      case NoShortSlot => noShortSlot
      case NoHtGf => noHtGf
      case NoHt => noHt
      case Ht20 => ht20
    }
  }

  const NONE := Marks(false, false, false, false, false, false)

  /** What a station's association request announces. */
  datatype Caps = Caps(shortPreamble: bool, nonErp: bool, shortSlot: bool, ht: bool, greenField: bool, wide: bool)

  /** The num_sta_* counters. */
  datatype Counts = Counts(noShortPreamble: int, nonErp: int, noShortSlot: int, noHtGf: int, noHt: int, ht20: int)
  {
    function Of(k: Kind): int {
      match k
      case NoShortPreamble => noShortPreamble
      case NonErp => nonErp
      case NoShortSlot => noShortSlot
      case NoHtGf => noHtGf
      case NoHt => noHt
      case Ht20 => ht20
    }
  }

  const ZERO := Counts(0, 0, 0, 0, 0, 0)

  /** ht_op_mode: bits 0 and 1, bit 2 and bit 4; no other bit is ever written. */
  datatype HtOpMode = HtOpMode(mode: nat, nonGf: bool, nonHt: bool)

  const OP_MODE_PURE := 0
  const OP_MODE_MAY_BE_LEGACY_STAS := 1
  const OP_MODE_20MHZ_HT_STA_ASSOCED := 2
  const OP_MODE_MIXED := 3

  const PURE := HtOpMode(OP_MODE_PURE, false, false)

  /** How the access point is set up; none of it changes while stations come and go. */
  datatype Config = Config(started: bool, erpEnabled: bool, htOption: bool, wide: bool, olbcHt: bool)

  /** Station records in use by their place, counters, the ERP element's byte if there is one, HT mode. */
  datatype Bss = Bss(stas: map<nat, Marks>, n: Counts, erp: Option<byte>, ht: HtOpMode)

  function B(b: bool): int {
    if b then 1 else 0
  }

  // ------------------------------------------------------ joins and leaves

  /** A joining station's flags: the two HT capability flags stay set on a re-join. */
  function Joined(m: Marks, c: Caps): Marks {
    Marks(!c.shortPreamble, c.nonErp, !c.shortSlot,
          m.noHtGf || (c.ht && !c.greenField), !c.ht, m.ht20 || (c.ht && !c.wide))
  }

  /** The counters when one station's flags change. */
  function Recount(n: Counts, was: Marks, now: Marks): Counts {
    Counts(n.noShortPreamble - B(was.noShortPreamble) + B(now.noShortPreamble),
           n.nonErp - B(was.nonErp) + B(now.nonErp),
           n.noShortSlot - B(was.noShortSlot) + B(now.noShortSlot),
           n.noHtGf - B(was.noHtGf) + B(now.noHtGf),
           n.noHt - B(was.noHt) + B(now.noHt),
           n.ht20 - B(was.ht20) + B(now.ht20))
  }

  /** update_bcn_erpinfo_ie, reached through update_beacon: bits 0 and 1 as of this moment's counter, bit 2 too. */
  function ErpUpdated(cfg: Config, n: Counts, erp: Option<byte>): Option<byte> {
    if cfg.started && cfg.erpEnabled && erp.Some? then
      Some(erp.value / 8 * 8 + (if n.noShortPreamble > 0 then 4 else 0) + (if n.nonErp == 1 then 3 else 0))
    else erp
  }

  /** A refresh happens only when the non-ERP counter has just become 1 or 0. */
  function ErpAfter(cfg: Config, n: Counts, erp: Option<byte>, was: Marks, now: Marks): Option<byte> {
    if (!was.nonErp && now.nonErp && n.nonErp == 1) || (was.nonErp && !now.nonErp && n.nonErp == 0)
    then ErpUpdated(cfg, n, erp) else erp
  }

  /** What the comment on the function calls for, from the counters alone. */
  function Target(cfg: Config, n: Counts): HtOpMode {
    var nonGf := n.noHtGf != 0;
    HtOpMode(if n.noHt != 0 || nonGf then OP_MODE_MIXED
             else if cfg.wide && n.ht20 != 0 then OP_MODE_20MHZ_HT_STA_ASSOCED
             else if cfg.olbcHt then OP_MODE_MAY_BE_LEGACY_STAS
             else OP_MODE_PURE,
             nonGf,
             n.noHt != 0 || cfg.olbcHt)
  }

  function HtAfter(cfg: Config, n: Counts, ht: HtOpMode): HtOpMode {
    if cfg.htOption then ht else Target(cfg, n)
  }

  /** One station's flags change from `was` to `now`; what follows from it. */
  function Changed(cfg: Config, s: Bss, was: Marks, now: Marks): Bss {
    var n := Recount(s.n, was, now);
    Bss(s.stas, n, ErpAfter(cfg, n, s.erp, was, now), HtAfter(cfg, n, s.ht))
  }

  datatype Op =
    | Alloc(i: nat)              // rtw_alloc_stainfo: a cleared record
    | Join(i: nat, caps: Caps)   // bss_cap_update_on_sta_join, first or again
    | Leave(i: nat)              // ap_free_sta
    | Drop(i: nat)               // rtw_free_stainfo alone: authentication expired or failed

  function Step(cfg: Config, s: Bss, op: Op): Bss {
    match op
    case Alloc(i) => if i in s.stas then s else s.(stas := s.stas[i := NONE])
    case Join(i, caps) =>
      if i !in s.stas then s
      else Changed(cfg, s, s.stas[i], Joined(s.stas[i], caps)).(stas := s.stas[i := Joined(s.stas[i], caps)])
    case Leave(i) => if i !in s.stas then s else Changed(cfg, s, s.stas[i], NONE).(stas := s.stas - {i})
    case Drop(i) => s.(stas := s.stas - {i})
  }

  /** From start_ap_mode, with the ERP element as the beacon template has it. */
  function Run(cfg: Config, erp: Option<byte>, h: seq<Op>): Bss {
    if h == [] then Bss(map[], ZERO, erp, PURE)
    else Step(cfg, Run(cfg, erp, h[..|h| - 1]), h[|h| - 1])
  }

  // ------------------------------------------------- counters mirror flags

  function Holders(stas: map<nat, Marks>, k: Kind): set<nat> {
    set i | i in stas && stas[i].Has(k)
  }

  /** How often a record was dropped with flag `k` still set. */
  function Lost(cfg: Config, erp: Option<byte>, h: seq<Op>, k: Kind): nat {
    if h == [] then 0 else
    var s, op := Run(cfg, erp, h[..|h| - 1]), h[|h| - 1];
    Lost(cfg, erp, h[..|h| - 1], k) + (if op.Drop? && op.i in s.stas && s.stas[op.i].Has(k) then 1 else 0)
  }

  lemma RecountOf(n: Counts, was: Marks, now: Marks, k: Kind)
    ensures Recount(n, was, now).Of(k) == n.Of(k) - B(was.Has(k)) + B(now.Has(k))
  {
  }

  lemma HoldersWithout(stas: map<nat, Marks>, i: nat, k: Kind)
    ensures |Holders(stas - {i}, k)| == |Holders(stas, k)| - B(i in stas && stas[i].Has(k))
  {
    assert Holders(stas, k) == Holders(stas - {i}, k) + (if i in stas && stas[i].Has(k) then {i} else {});
  }

  lemma HoldersWith(stas: map<nat, Marks>, i: nat, m: Marks, k: Kind)
    ensures |Holders(stas[i := m], k)| == |Holders(stas - {i}, k)| + B(m.Has(k))
  {
    assert Holders(stas[i := m], k) == Holders(stas - {i}, k) + (if m.Has(k) then {i} else {});
  }

  lemma CountStep(cfg: Config, s: Bss, op: Op, k: Kind)
    ensures var t := Step(cfg, s, op);
            t.n.Of(k) - |Holders(t.stas, k)|
            == s.n.Of(k) - |Holders(s.stas, k)| + B(op.Drop? && op.i in s.stas && s.stas[op.i].Has(k))
  {
    HoldersWithout(s.stas, op.i, k);
    match op
    case Alloc(i) => HoldersWith(s.stas, i, NONE, k);
    case Join(i, caps) =>
      if i in s.stas {
        HoldersWith(s.stas, i, Joined(s.stas[i], caps), k);
        RecountOf(s.n, s.stas[i], Joined(s.stas[i], caps), k);
      }
    case Leave(i) =>
      if i in s.stas {
        RecountOf(s.n, s.stas[i], NONE, k);
      }
    case Drop(i) =>
  }

  /**
   Exact accounting over every run of allocations, joins, re-joins, leaves and
   drops: each counter is the number of stations with its flag plus the flags
   that were dropped without ap_free_sta.
   */
  lemma {:induction false} CountersAreFlagsAndLosses(cfg: Config, erp: Option<byte>, h: seq<Op>, k: Kind)
    ensures Run(cfg, erp, h).n.Of(k) == |Holders(Run(cfg, erp, h).stas, k)| + Lost(cfg, erp, h, k)
  {
    if h == [] {
      assert Holders(map[], k) == {};
    } else {
      CountersAreFlagsAndLosses(cfg, erp, h[..|h| - 1], k);
      CountStep(cfg, Run(cfg, erp, h[..|h| - 1]), h[|h| - 1], k);
    }
  }

  /** So a counter equals the number of flagged stations if and only if no such flag was dropped. */
  lemma CounterExactIffNothingLost(cfg: Config, erp: Option<byte>, h: seq<Op>, k: Kind)
    ensures Run(cfg, erp, h).n.Of(k) >= 0
    ensures Run(cfg, erp, h).n.Of(k) == |Holders(Run(cfg, erp, h).stas, k)| <==> Lost(cfg, erp, h, k) == 0
  {
    CountersAreFlagsAndLosses(cfg, erp, h, k);
  }

  /** Every drop is of a record without flags: a station that never joined. */
  predicate DropsUncounted(cfg: Config, erp: Option<byte>, h: seq<Op>) {
    h == [] || (DropsUncounted(cfg, erp, h[..|h| - 1])
                && var s, op := Run(cfg, erp, h[..|h| - 1]), h[|h| - 1];
                   op.Drop? && op.i in s.stas ==> s.stas[op.i] == NONE)
  }

  /** Then the counters are exact, and all zero once every counted station has been freed. */
  lemma {:induction false} CountersMirrorFlags(cfg: Config, erp: Option<byte>, h: seq<Op>, k: Kind)
    requires DropsUncounted(cfg, erp, h)
    ensures Run(cfg, erp, h).n.Of(k) == |Holders(Run(cfg, erp, h).stas, k)|
    ensures Run(cfg, erp, h).stas == map[] ==> Run(cfg, erp, h).n.Of(k) == 0
  {
    NothingLost(cfg, erp, h, k);
    CountersAreFlagsAndLosses(cfg, erp, h, k);
    if Run(cfg, erp, h).stas == map[] {
      assert Holders(map[], k) == {};
    }
  }

  lemma {:induction false} NothingLost(cfg: Config, erp: Option<byte>, h: seq<Op>, k: Kind)
    requires DropsUncounted(cfg, erp, h)
    ensures Lost(cfg, erp, h, k) == 0
  {
    if h != [] {
      NothingLost(cfg, erp, h[..|h| - 1], k);
    }
  }

  // ------------------------------------ what the flags and counters are about

  /** The record of station i is in use: allocated, and not freed since. */
  predicate InUse(i: nat, h: seq<Op>) {
    h != [] &&
      match h[|h| - 1]
      case Alloc(j) => j == i || InUse(i, h[..|h| - 1])
      case Join(_, _) => InUse(i, h[..|h| - 1])
      case Leave(j) => j != i && InUse(i, h[..|h| - 1])
      case Drop(j) => j != i && InUse(i, h[..|h| - 1])
  }

  /** What station i announced in its joins since its record came into use. */
  function JoinsOf(i: nat, h: seq<Op>): seq<Caps> {
    if !InUse(i, h) then []
    else if h[|h| - 1].Join? && h[|h| - 1].i == i then JoinsOf(i, h[..|h| - 1]) + [h[|h| - 1].caps]
    else JoinsOf(i, h[..|h| - 1])
  }

  /** The last join tells about preamble, slot, ERP and HT; one HT join without a capability tells for good. */
  predicate Announced(k: Kind, js: seq<Caps>) {
    match k
    case NoShortPreamble => js != [] && !js[|js| - 1].shortPreamble
    case NonErp => js != [] && js[|js| - 1].nonErp
    case NoShortSlot => js != [] && !js[|js| - 1].shortSlot
    case NoHtGf => exists c :: c in js && c.ht && !c.greenField
    case NoHt => js != [] && !js[|js| - 1].ht
    case Ht20 => exists c :: c in js && c.ht && !c.wide
  }

  /** A station's six flags, field by field, are what its joins announced. */
  predicate Tells(m: Marks, js: seq<Caps>) {
    && (m.noShortPreamble <==> Announced(NoShortPreamble, js)) && (m.nonErp <==> Announced(NonErp, js))
    && (m.noShortSlot <==> Announced(NoShortSlot, js)) && (m.noHtGf <==> Announced(NoHtGf, js))
    && (m.noHt <==> Announced(NoHt, js)) && (m.ht20 <==> Announced(Ht20, js))
  }

  lemma JoinTells(m: Marks, js: seq<Caps>, c: Caps)
    requires Tells(m, js)
    ensures Tells(Joined(m, c), js + [c])
  {
    forall x ensures x in js + [c] <==> x in js || x == c {
    }
    assert c in js + [c];
  }

  /** Over every run the flags of each station in use tell what it announced, no more and no less. */
  lemma {:induction false} FlagsTellTheJoins(cfg: Config, erp: Option<byte>, h: seq<Op>, i: nat)
    ensures i in Run(cfg, erp, h).stas <==> InUse(i, h)
    ensures InUse(i, h) ==> Tells(Run(cfg, erp, h).stas[i], JoinsOf(i, h))
  {
    if h != [] {
      var g, op := h[..|h| - 1], h[|h| - 1];
      FlagsTellTheJoins(cfg, erp, g, i);
      if op.Join? && op.i == i && InUse(i, g) {
        JoinTells(Run(cfg, erp, g).stas[i], JoinsOf(i, g), op.caps);
      } else if op.Alloc? && op.i == i && !InUse(i, g) {
        assert JoinsOf(i, h) == [];
      }
    }
  }

  /** The stations in use that have announced `k`. */
  ghost function Stations(cfg: Config, erp: Option<byte>, h: seq<Op>, k: Kind): set<nat> {
    set i | i in Run(cfg, erp, h).stas && InUse(i, h) && Announced(k, JoinsOf(i, h))
  }

  lemma HoldersAnnounced(cfg: Config, erp: Option<byte>, h: seq<Op>, k: Kind)
    ensures Holders(Run(cfg, erp, h).stas, k) == Stations(cfg, erp, h, k)
  {
    forall i ensures i in Holders(Run(cfg, erp, h).stas, k) <==> i in Stations(cfg, erp, h, k) {
      FlagsTellTheJoins(cfg, erp, h, i);
    }
  }

  /** How many stations in use have announced `k`, with those that were lost. */
  ghost function Known(cfg: Config, erp: Option<byte>, h: seq<Op>, k: Kind): int {
    |Stations(cfg, erp, h, k)| + Lost(cfg, erp, h, k)
  }

  lemma CounterTells(cfg: Config, erp: Option<byte>, h: seq<Op>, k: Kind)
    ensures Run(cfg, erp, h).n.Of(k) == Known(cfg, erp, h, k)
  {
    HoldersAnnounced(cfg, erp, h, k);
    CountersAreFlagsAndLosses(cfg, erp, h, k);
  }

  /** So each of the six counters, field by field, is the number of stations that announced it. */
  lemma CountersTellTheJoins(cfg: Config, erp: Option<byte>, h: seq<Op>)
    ensures Run(cfg, erp, h).n
            == Counts(Known(cfg, erp, h, NoShortPreamble), Known(cfg, erp, h, NonErp), Known(cfg, erp, h, NoShortSlot),
                      Known(cfg, erp, h, NoHtGf), Known(cfg, erp, h, NoHt), Known(cfg, erp, h, Ht20))
  {
    var n := Run(cfg, erp, h).n;
    forall k ensures n.Of(k) == Known(cfg, erp, h, k) {
      CounterTells(cfg, erp, h, k);
    }
    ByKind(n, k => Known(cfg, erp, h, k));
  }

  lemma ByKind(n: Counts, f: Kind -> int)
    requires forall k :: n.Of(k) == f(k)
    ensures n == Counts(f(NoShortPreamble), f(NonErp), f(NoShortSlot), f(NoHtGf), f(NoHt), f(Ht20))
  {
    assert n.Of(NoShortPreamble) == f(NoShortPreamble) && n.Of(NonErp) == f(NonErp) && n.Of(NoShortSlot) == f(NoShortSlot);
    assert n.Of(NoHtGf) == f(NoHtGf) && n.Of(NoHt) == f(NoHt) && n.Of(Ht20) == f(Ht20);
  }

  // ------------------------------------------------------------ ERP element

  /** NON_ERP_PRESENT and USE_PROTECTION. */
  predicate Protects(e: byte) {
    e % 4 == 3
  }

  predicate ErpFollows(s: Bss) {
    s.erp.Some? && s.erp.value % 4 == (if s.n.nonErp > 0 then 3 else 0)
  }

  lemma ErpStep(cfg: Config, s: Bss, op: Op)
    requires cfg.started && cfg.erpEnabled && s.n.nonErp >= 0 && Step(cfg, s, op).n.nonErp >= 0 && ErpFollows(s)
    ensures ErpFollows(Step(cfg, s, op)) && Step(cfg, s, op).erp.value / 8 == s.erp.value / 8
  {
  }

  /**
   The advertised bits follow the counter over every run, although the code
   tests `== 1` and refreshes only at 0 and 1; the other five bits never change.
   */
  lemma {:induction false} ErpFollowsCounter(cfg: Config, e: byte, h: seq<Op>)
    requires cfg.started && cfg.erpEnabled && e % 4 == 0
    ensures ErpFollows(Run(cfg, Some(e), h)) && Run(cfg, Some(e), h).erp.value / 8 == e / 8
  {
    if h != [] {
      var g := h[..|h| - 1];
      ErpFollowsCounter(cfg, e, g);
      CounterExactIffNothingLost(cfg, Some(e), g, NonErp);
      CounterExactIffNothingLost(cfg, Some(e), h, NonErp);
      ErpStep(cfg, Run(cfg, Some(e), g), h[|h| - 1]);
    }
  }

  /**
   The element is refreshed when protection goes on or off, and at no other time;
   then its Barker preamble bit, bit 2, too tells whether any station is without
   short preambles.
   */
  lemma ErpRefreshed(cfg: Config, e: byte, h: seq<Op>, op: Op)
    requires cfg.started && cfg.erpEnabled && e % 4 == 0
    ensures var s, t := Run(cfg, Some(e), h), Run(cfg, Some(e), h + [op]);
            && t.erp.Some?
            && if (s.n.nonErp == 0) == (t.n.nonErp == 0) then t.erp == s.erp
               else t.erp.value / 4 % 2 == (if t.n.noShortPreamble == 0 then 0 else 1)
  {
    assert (h + [op])[..|h|] == h;
    ErpFollowsCounter(cfg, e, h);
    ErpFollowsCounter(cfg, e, h + [op]);
    CounterExactIffNothingLost(cfg, Some(e), h, NonErp);
    CounterExactIffNothingLost(cfg, Some(e), h + [op], NonErp);
    CounterExactIffNothingLost(cfg, Some(e), h + [op], NoShortPreamble);
  }

  /** Without a started BSS, an enabled ERP and an element, nothing is ever refreshed. */
  lemma {:induction false} ErpUntouched(cfg: Config, erp: Option<byte>, h: seq<Op>)
    requires !(cfg.started && cfg.erpEnabled && erp.Some?)
    ensures Run(cfg, erp, h).erp == erp
  {
    if h != [] {
      ErpUntouched(cfg, erp, h[..|h| - 1]);
    }
  }

  lemma {:induction false} LossStays(cfg: Config, erp: Option<byte>, g: seq<Op>, h: seq<Op>, k: Kind)
    ensures Lost(cfg, erp, g + h, k) >= Lost(cfg, erp, g, k)
  {
    if h == [] {
      assert g + h == g;
    } else {
      assert (g + h)[..|g + h| - 1] == g + h[..|h| - 1];
      LossStays(cfg, erp, g, h[..|h| - 1], k);
    }
  }

  /**
   Once the record of a counted non-ERP station was dropped, protection is
   advertised in every later state, whatever stations come and go.
   */
  lemma LostStationKeepsProtection(cfg: Config, e: byte, g: seq<Op>, h: seq<Op>)
    requires cfg.started && cfg.erpEnabled && e % 4 == 0 && Lost(cfg, Some(e), g, NonErp) > 0
    ensures Run(cfg, Some(e), g + h).erp.Some? && Protects(Run(cfg, Some(e), g + h).erp.value)
  {
    LossStays(cfg, Some(e), g, h, NonErp);
    CountersAreFlagsAndLosses(cfg, Some(e), g + h, NonErp);
    ErpFollowsCounter(cfg, e, g + h);
  }

  /** Such runs exist: a station associates, authenticates anew and then times out. */
  lemma DropLoses(cfg: Config, erp: Option<byte>, g: seq<Op>, i: nat, caps: Caps)
    requires caps.nonErp
    ensures Lost(cfg, erp, g + [Alloc(i)] + [Join(i, caps)] + [Drop(i)], NonErp) > 0
  {
    var g1 := g + [Alloc(i)];
    var g2 := g1 + [Join(i, caps)];
    assert g1[..|g1| - 1] == g && g2[..|g2| - 1] == g1 && (g2 + [Drop(i)])[..|g2|] == g2;
    assert i in Run(cfg, erp, g1).stas;
    assert Run(cfg, erp, g2).stas[i].nonErp;
  }

  // ------------------------------------------------------ HT operation mode

  /** Without htpriv.ht_option, every join and leave sets the mode for the counters it leaves. */
  lemma HtAfterStep(cfg: Config, s: Bss, op: Op)
    requires !cfg.htOption && (op.Join? || op.Leave?) && op.i in s.stas
    ensures Step(cfg, s, op).ht == Target(cfg, Step(cfg, s, op).n)
  {
  }

  /** So it is right in every state of every run (olbc_ht is FALSE from start_ap_mode on). */
  lemma {:induction false} HtFollowsCounters(cfg: Config, erp: Option<byte>, h: seq<Op>)
    requires !cfg.htOption && !cfg.olbcHt
    ensures Run(cfg, erp, h).ht == Target(cfg, Run(cfg, erp, h).n)
  {
    if h != [] {
      HtFollowsCounters(cfg, erp, h[..|h| - 1]);
    }
  }

  /** Some step of the run was a join or a leave of a station in use. */
  predicate Updated(cfg: Config, erp: Option<byte>, h: seq<Op>) {
    h != [] && (Updated(cfg, erp, h[..|h| - 1])
                || ((h[|h| - 1].Join? || h[|h| - 1].Leave?) && h[|h| - 1].i in Run(cfg, erp, h[..|h| - 1]).stas))
  }

  /** With olbc_ht set the start value is not yet the right one; from the first join or leave on the mode is. */
  lemma {:induction false} HtFollowsOnceUpdated(cfg: Config, erp: Option<byte>, h: seq<Op>)
    requires !cfg.htOption && Updated(cfg, erp, h)
    ensures Run(cfg, erp, h).ht == Target(cfg, Run(cfg, erp, h).n)
  {
    var g, op := h[..|h| - 1], h[|h| - 1];
    if (op.Join? || op.Leave?) && op.i in Run(cfg, erp, g).stas {
      HtAfterStep(cfg, Run(cfg, erp, g), op);
    } else {
      HtFollowsOnceUpdated(cfg, erp, g);
    }
  }

  /**
   What the mode then says of the stations, when none was lost: mixed with one
   without HT or without greenfield, else 20 MHz on a wide channel with one that
   cannot follow, else the overlapping legacy networks; the two bits likewise.
   */
  lemma HtModeTellsTheJoins(cfg: Config, erp: Option<byte>, h: seq<Op>)
    requires !cfg.htOption && Updated(cfg, erp, h) && DropsUncounted(cfg, erp, h)
    ensures var ht := Run(cfg, erp, h).ht;
            var noHt, noGf, narrow := Stations(cfg, erp, h, NoHt), Stations(cfg, erp, h, NoHtGf), Stations(cfg, erp, h, Ht20);
            && (ht.mode == 3 <==> noHt != {} || noGf != {})
            && (ht.mode == 2 <==> noHt == {} && noGf == {} && cfg.wide && narrow != {})
            && (ht.mode == 1 <==> noHt == {} && noGf == {} && !(cfg.wide && narrow != {}) && cfg.olbcHt)
            && ht.mode <= 3 && (ht.nonGf <==> noGf != {}) && (ht.nonHt <==> noHt != {} || cfg.olbcHt)
  {
    HtFollowsOnceUpdated(cfg, erp, h);
    CountersTellTheJoins(cfg, erp, h);
    NothingLost(cfg, erp, h, NoHt);
    NothingLost(cfg, erp, h, NoHtGf);
    NothingLost(cfg, erp, h, Ht20);
  }

  /** With it, which is when the access point does HT, the early return leaves the mode as it was for good. */
  lemma {:induction false} HtFrozen(cfg: Config, erp: Option<byte>, h: seq<Op>)
    requires cfg.htOption
    ensures Run(cfg, erp, h).ht == PURE
  {
    if h != [] {
      HtFrozen(cfg, erp, h[..|h| - 1]);
    }
  }

  ghost predicate HtAlwaysFollows(cfg: Config, erp: Option<byte>) {
    forall h {:trigger Run(cfg, erp, h)} :: Run(cfg, erp, h).ht == Target(cfg, Run(cfg, erp, h).n)
  }

  /** A first station without HT: the counter is 1 and the mode should be mixed. */
  lemma NoHtStationCounts(cfg: Config, erp: Option<byte>, caps: Caps) returns (h: seq<Op>)
    requires !caps.ht
    ensures Run(cfg, erp, h).n.noHt > 0
  {
    h := [Alloc(0)];
    assert h[..|h| - 1] == [] && 0 in Run(cfg, erp, h).stas;
    var g := h;
    h := g + [Join(0, caps)];
    assert h[..|h| - 1] == g;
    assert 0 in Holders(Run(cfg, erp, h).stas, NoHt);
    CountersAreFlagsAndLosses(cfg, erp, h, NoHt);
  }

  /** So the advertised mode follows the counters over all runs if and only if the access point does not do HT. */
  lemma HtFollowsIffNotHt(cfg: Config, erp: Option<byte>)
    requires !cfg.olbcHt
    ensures HtAlwaysFollows(cfg, erp) <==> !cfg.htOption
  {
    if cfg.htOption {
      var h := NoHtStationCounts(cfg, erp, Caps(true, false, true, false, false, false));
      HtFrozen(cfg, erp, h);
      assert Run(cfg, erp, h).ht != Target(cfg, Run(cfg, erp, h).n);
    } else {
      forall h ensures Run(cfg, erp, h).ht == Target(cfg, Run(cfg, erp, h).n) {
        HtFollowsCounters(cfg, erp, h);
      }
    }
  }

  // ------------------------------------------------------ the shared fields

  /** Bits 0 and 1 set or cleared. */
  function SetBits01(e: byte, low: nat): (r: byte)
    requires low < 4
    ensures r / 4 == e / 4 && r % 4 == low
  {
    e / 4 * 4 + low
  }

  /** Bit 2 set or cleared. */
  function SetBit2(e: byte, on: bool): (r: byte)
    ensures r == e / 8 * 8 + (if on then 4 else 0) + e % 4
  {
    e - e / 4 % 2 * 4 + if on then 4 else 0
  }

  /** The counters, the flags and what is advertised, updated in place. */
  class BssInfo {
    const started: bool
    const erpEnabled: bool
    const htOption: bool
    const wide: bool
    const olbcHt: bool
    var stas: map<nat, Marks>
    var num_sta_no_short_preamble: int
    var num_sta_non_erp: int
    var num_sta_no_short_slot_time: int
    var num_sta_ht_no_gf: int
    var num_sta_no_ht: int
    var num_sta_ht_20mhz: int
    var erp: Option<byte>
    var ht_op_mode: HtOpMode

    ghost function Cfg(): Config {
      Config(started, erpEnabled, htOption, wide, olbcHt)
    }

    ghost function Counters(): Counts
      reads this
    {
      Counts(num_sta_no_short_preamble, num_sta_non_erp, num_sta_no_short_slot_time,
             num_sta_ht_no_gf, num_sta_no_ht, num_sta_ht_20mhz)
    }

    ghost function Now(): Bss
      reads this
    {
      Bss(stas, Counters(), erp, ht_op_mode)
    }

    /** start_ap_mode */
    constructor (cfg: Config, e: Option<byte>)
      ensures Cfg() == cfg && Now() == Run(cfg, e, [])
    {
      started, erpEnabled, htOption, wide, olbcHt := cfg.started, cfg.erpEnabled, cfg.htOption, cfg.wide, cfg.olbcHt;
      stas := map[];
      num_sta_no_short_preamble, num_sta_non_erp, num_sta_no_short_slot_time := 0, 0, 0;
      num_sta_ht_no_gf, num_sta_no_ht, num_sta_ht_20mhz := 0, 0, 0;
      erp, ht_op_mode := e, PURE;
    }

    /** update_bcn_erpinfo_ie behind update_beacon's test: two bits set or cleared together, then the third. */
    method UpdateErpInfo()
      modifies this`erp
      ensures erp == ErpUpdated(Cfg(), Counters(), old(erp))
    {
      if !started || !erpEnabled || erp.None? {
        return;
      }
      var e := SetBits01(erp.value, if num_sta_non_erp == 1 then 3 else 0);
      erp := Some(SetBit2(e, num_sta_no_short_preamble > 0));
    }

    /** rtw_ht_operation_update: each bit is flipped when it disagrees; returns how many parts changed. */
    method HtOperationUpdate() returns (changes: nat)
      modifies this`ht_op_mode
      ensures ht_op_mode == HtAfter(Cfg(), Counters(), old(ht_op_mode))
      ensures changes == 0 <==> ht_op_mode == old(ht_op_mode)
    {
      changes := 0;
      if htOption {
        return;
      }
      if !ht_op_mode.nonGf && num_sta_ht_no_gf != 0 {
        ht_op_mode := ht_op_mode.(nonGf := true);
        changes := changes + 1;
      } else if ht_op_mode.nonGf && num_sta_ht_no_gf == 0 {
        ht_op_mode := ht_op_mode.(nonGf := false);
        changes := changes + 1;
      }
      if !ht_op_mode.nonHt && (num_sta_no_ht != 0 || olbcHt) {
        ht_op_mode := ht_op_mode.(nonHt := true);
        changes := changes + 1;
      } else if ht_op_mode.nonHt && (num_sta_no_ht == 0 && !olbcHt) {
        ht_op_mode := ht_op_mode.(nonHt := false);
        changes := changes + 1;
      }
      var mode := OP_MODE_PURE;
      if num_sta_no_ht != 0 || ht_op_mode.nonGf {
        mode := OP_MODE_MIXED;
      } else if wide && num_sta_ht_20mhz != 0 {
        mode := OP_MODE_20MHZ_HT_STA_ASSOCED;
      } else if olbcHt {
        mode := OP_MODE_MAY_BE_LEGACY_STAS;
      }
      if ht_op_mode.mode != mode {
        ht_op_mode := ht_op_mode.(mode := mode);
        changes := changes + 1;
      }
    }

    /** The shape of each flag's code: counted when first wanted, uncounted when no longer wanted. */
    static method Track(was: bool, wanted: bool, num: int) returns (flag: bool, r: int)
      ensures flag == wanted && r == num - B(was) + B(wanted)
    {
      flag, r := was, num;
      if wanted {
        if !flag {
          flag, r := true, r + 1;
        }
      } else if flag {
        flag, r := false, r - 1;
      }
    }

    /** nonerp_set and its counter; the beacon is refreshed when the counter becomes 1 or 0. */
    method TrackNonErp(was: bool, wanted: bool)
      modifies this`num_sta_non_erp, this`erp
      ensures num_sta_non_erp == old(num_sta_non_erp) - B(was) + B(wanted)
      ensures erp == ErpAfter(Cfg(), Counters(), old(erp), NONE.(nonErp := was), NONE.(nonErp := wanted))
    {
      var flag, num := Track(was, wanted, num_sta_non_erp);
      num_sta_non_erp := num;
      if flag != was && num_sta_non_erp == (if wanted then 1 else 0) {
        UpdateErpInfo();
      }
    }

    /** The three flags that do not come from the HT capabilities. */
    method TrackLegacy(was: Marks, noShortPreamble: bool, nonErp: bool, noShortSlot: bool)
      modifies this`num_sta_no_short_preamble, this`num_sta_non_erp, this`num_sta_no_short_slot_time, this`erp
      ensures var now := was.(noShortPreamble := noShortPreamble, nonErp := nonErp, noShortSlot := noShortSlot);
              Counters() == Recount(old(Counters()), was, now)
              && erp == ErpAfter(Cfg(), Counters(), old(erp), was, now)
    {
      var p, num := Track(was.noShortPreamble, noShortPreamble, num_sta_no_short_preamble);
      num_sta_no_short_preamble := num;
      TrackNonErp(was.nonErp, nonErp);
      p, num := Track(was.noShortSlot, noShortSlot, num_sta_no_short_slot_time);
      num_sta_no_short_slot_time := num;
    }

    /** The three flags that do. */
    method TrackHt(was: Marks, noHtGf: bool, noHt: bool, ht20: bool)
      modifies this`num_sta_ht_no_gf, this`num_sta_no_ht, this`num_sta_ht_20mhz
      ensures Counters() == Recount(old(Counters()), was, was.(noHtGf := noHtGf, noHt := noHt, ht20 := ht20))
    {
      var f, num := Track(was.noHt, noHt, num_sta_no_ht);
      num_sta_no_ht := num;
      f, num := Track(was.noHtGf, noHtGf, num_sta_ht_no_gf);
      num_sta_ht_no_gf := num;
      f, num := Track(was.ht20, ht20, num_sta_ht_20mhz);
      num_sta_ht_20mhz := num;
    }

    /** All six, and the HT operation mode. */
    method Change(was: Marks, now: Marks)
      modifies this`num_sta_no_short_preamble, this`num_sta_non_erp, this`num_sta_no_short_slot_time, this`erp,
               this`num_sta_ht_no_gf, this`num_sta_no_ht, this`num_sta_ht_20mhz, this`ht_op_mode
      ensures Now() == Changed(Cfg(), old(Now()), was, now)
    {
      TrackLegacy(was, now.noShortPreamble, now.nonErp, now.noShortSlot);
      TrackHt(was, now.noHtGf, now.noHt, now.ht20);
      var changes := HtOperationUpdate();
    }

    /** bss_cap_update_on_sta_join: the two HT capability flags are set, never cleared, here. */
    method StaJoin(i: nat, caps: Caps)
      requires i in stas
      modifies this
      ensures Now() == Step(Cfg(), old(Now()), Join(i, caps))
    {
      var m := stas[i];
      var noHtGf, ht20 := m.noHtGf, m.ht20;
      if caps.ht {
        noHtGf := noHtGf || !caps.greenField;
        ht20 := ht20 || !caps.wide;
      }
      var now := Marks(!caps.shortPreamble, caps.nonErp, !caps.shortSlot, noHtGf, !caps.ht, ht20);
      Change(m, now);
      stas := stas[i := now];
    }

    /** bss_cap_update_on_sta_leave, and the record goes back to the free queue (rtw_free_stainfo). */
    method StaLeave(i: nat)
      requires i in stas
      modifies this
      ensures Now() == Step(Cfg(), old(Now()), Leave(i))
    {
      Change(stas[i], NONE);
      stas := stas - {i};
    }
  }
}
