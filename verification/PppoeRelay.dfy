/**
 The Relay-Session-Id tag (Appendix A of RFC 2516) that the bridge adds to PADI
 and PADR frames and takes out of PADO and PADS frames, in place.
 */
module PppoeRelay {
  import opened Bytes
  import opened SkBuffs

  const TAG_HDR_LEN := 4
  const MAGIC_CODE := 0x8186
  const MAGIC_CODE_LEN := 2
  const RTL_RELAY_TAG_LEN := 6
  const TAG_BUF_SIZE := 40
  const PTT_RELAY_SID := 0x0110

  /** Where the PPPoE tags start: after the Ethernet and PPPoE headers. */
  const TAGS := 20

  /** ph->length */
  function PhLength(b: seq<byte>): (n: nat)
    requires |b| >= TAGS
    ensures n < 0x10000
  {
    Net16(b[18], b[19])
  }

  function SetPhLength(b: seq<byte>, n: nat): (r: seq<byte>)
    requires |b| >= TAGS
    ensures |r| == |b| && PhLength(r) == n % 0x10000
    ensures r[..18] == b[..18] && r[TAGS..] == b[TAGS..]
  {
    Overwrite(b, 18, ToNet16(n % 0x10000))
  }

  // -------------------------------------------------------------- tag lists

  datatype Tag = Tag(kind: nat, value: seq<byte>)
  {
    predicate Ok() { kind < 0x10000 && |value| < 0x10000 }
  }

  function EncodeTag(t: Tag): (e: seq<byte>)
    requires t.Ok()
    ensures |e| == TAG_HDR_LEN + |t.value|
  {
    ToNet16(t.kind) + ToNet16(|t.value|) + t.value
  }

  predicate TagsOk(ts: seq<Tag>) {
    forall i :: 0 <= i < |ts| ==> ts[i].Ok()
  }

  function Encode(ts: seq<Tag>): (e: seq<byte>)
    requires TagsOk(ts)
  {
    if ts == [] then [] else EncodeTag(ts[0]) + Encode(ts[1..])
  }

  lemma {:induction false} EncodeAppend(s: seq<Tag>, t: seq<Tag>)
    requires TagsOk(s) && TagsOk(t)
    ensures Encode(s + t) == Encode(s) + Encode(t)
  {
    if s == [] {
      assert s + t == t;
    } else {
      EncodeAppend(s[1..], t);
      assert (s + t)[1..] == s[1..] + t;
    }
  }

  /** Position of the first relay tag, or the number of tags. */
  function FirstRelay(ts: seq<Tag>): (i: nat)
    ensures i <= |ts| && (i < |ts| ==> ts[i].kind == PTT_RELAY_SID)
  {
    if ts == [] || ts[0].kind == PTT_RELAY_SID then 0 else 1 + FirstRelay(ts[1..])
  }

  // ---------------------------------------------------------- finding a tag

  /** What a walk over the tag headers meets; Outside: it would read beyond the buffer. */
  datatype Walk = Found(at: nat) | Absent | Outside

  function FindTag(b: seq<byte>, kind: nat, cur: nat, end: nat): Walk
    decreases if cur < end then end - cur else 0
  {
    if cur >= end then Absent
    else if TAGS + cur + TAG_HDR_LEN > |b| then Outside
    else if Net16(b[TAGS + cur], b[TAGS + cur + 1]) == kind then Found(cur)
    else FindTag(b, kind, cur + TAG_HDR_LEN + Net16(b[TAGS + cur + 2], b[TAGS + cur + 3]), end)
  }

  /** The bytes of `b` from tag offset `at` on start with `e`. */
  predicate Holds(b: seq<byte>, at: nat, e: seq<byte>) {
    TAGS + at + |e| <= |b| && b[TAGS + at..TAGS + at + |e|] == e
  }

  lemma HeadTag(b: seq<byte>, at: nat, t: Tag, rest: seq<byte>)
    requires t.Ok() && Holds(b, at, EncodeTag(t) + rest)
    ensures TAGS + at + TAG_HDR_LEN <= |b|
    ensures Net16(b[TAGS + at], b[TAGS + at + 1]) == t.kind
    ensures Net16(b[TAGS + at + 2], b[TAGS + at + 3]) == |t.value|
    ensures Holds(b, at + TAG_HDR_LEN + |t.value|, rest)
  {
    var e, n := EncodeTag(t) + rest, TAG_HDR_LEN + |t.value|;
    assert e[n..] == rest && e[..4] == ToNet16(t.kind) + ToNet16(|t.value|);
    assert b[TAGS + at..TAGS + at + |e|][n..] == b[TAGS + at + n..TAGS + at + |e|];
    assert b[TAGS + at..TAGS + at + |e|][..4] == b[TAGS + at..TAGS + at + 4];
    assert b[TAGS + at..TAGS + at + 4] == e[..4];
  }

  /** The walk stops at a tag of the kind and otherwise steps over the tag. */
  lemma FindTagStep(b: seq<byte>, at: nat, end: nat, t: Tag, rest: seq<byte>)
    requires t.Ok() && Holds(b, at, EncodeTag(t) + rest) && end == at + |EncodeTag(t)| + |rest|
    ensures FindTag(b, PTT_RELAY_SID, at, end) ==
            if t.kind == PTT_RELAY_SID then Found(at)
            else FindTag(b, PTT_RELAY_SID, at + TAG_HDR_LEN + |t.value|, end)
  {
    HeadTag(b, at, t, rest);
  }

  /** How many bytes the tags before the first relay tag take. */
  function BytesBeforeRelay(ts: seq<Tag>): nat
    requires TagsOk(ts)
  {
    if ts == [] || ts[0].kind == PTT_RELAY_SID then 0
    else TAG_HDR_LEN + |ts[0].value| + BytesBeforeRelay(ts[1..])
  }

  lemma {:induction false} BytesBeforeRelayIsPrefix(ts: seq<Tag>)
    requires TagsOk(ts)
    ensures BytesBeforeRelay(ts) == |Encode(ts[..FirstRelay(ts)])|
  {
    if ts != [] && ts[0].kind != PTT_RELAY_SID {
      BytesBeforeRelayIsPrefix(ts[1..]);
      var i := FirstRelay(ts[1..]);
      assert ts[..1 + i][1..] == ts[1..][..i];
    }
  }

  /** The outcome of the walk over a tag list that starts at tag offset `at`. */
  function WalkOf(ts: seq<Tag>, at: nat): Walk
    requires TagsOk(ts)
  {
    if ts == [] then Absent
    else if ts[0].kind == PTT_RELAY_SID then Found(at)
    else WalkOf(ts[1..], at + TAG_HDR_LEN + |ts[0].value|)
  }

  lemma {:induction false} WalkFindsFirst(ts: seq<Tag>, at: nat)
    requires TagsOk(ts)
    ensures WalkOf(ts, at) == if FirstRelay(ts) < |ts| then Found(at + BytesBeforeRelay(ts)) else Absent
  {
    if ts != [] && ts[0].kind != PTT_RELAY_SID {
      WalkFindsFirst(ts[1..], at + TAG_HDR_LEN + |ts[0].value|);
    }
  }

  /** What is known of a walk that stands at a tag list starting at offset `at`. */
  predicate AtTags(b: seq<byte>, at: nat, end: nat, ts: seq<Tag>) {
    TagsOk(ts) && Holds(b, at, Encode(ts)) && end == at + |Encode(ts)|
  }

  /** The walk stops at a relay tag at the head of the list. */
  lemma FindTagHere(b: seq<byte>, at: nat, end: nat, ts: seq<Tag>)
    requires AtTags(b, at, end, ts) && ts != [] && ts[0].kind == PTT_RELAY_SID
    ensures FindTag(b, PTT_RELAY_SID, at, end) == Found(at)
  {
    FindTagStep(b, at, end, ts[0], Encode(ts[1..]));
  }

  /** The walk steps over another tag at the head of the list, to the other tags. */
  lemma FindTagPast(b: seq<byte>, at: nat, end: nat, ts: seq<Tag>)
    requires AtTags(b, at, end, ts) && ts != [] && ts[0].kind != PTT_RELAY_SID
    ensures var next := at + TAG_HDR_LEN + |ts[0].value|;
            AtTags(b, next, end, ts[1..]) &&
            FindTag(b, PTT_RELAY_SID, at, end) == FindTag(b, PTT_RELAY_SID, next, end)
  {
    FindTagStep(b, at, end, ts[0], Encode(ts[1..]));
    HeadTag(b, at, ts[0], Encode(ts[1..]));
  }

  /** On an encoded tag list the walk stays inside and finds the first tag of the kind. */
  lemma {:induction false} FindTagInList(b: seq<byte>, at: nat, end: nat, ts: seq<Tag>)
    requires AtTags(b, at, end, ts)
    ensures FindTag(b, PTT_RELAY_SID, at, end) == WalkOf(ts, at)
    decreases |ts|
  {
    if ts != [] {
      if ts[0].kind == PTT_RELAY_SID {
        FindTagHere(b, at, end, ts);
      } else {
        FindTagPast(b, at, end, ts);
        FindTagInList(b, at + TAG_HDR_LEN + |ts[0].value|, end, ts[1..]);
      }
    }
  }

  // ------------------------------------------------------------- operations

  /** A return code and the frame as it is left. */
  datatype Reply = Reply(ret: int, frame: Frame)

  /** skb_pull_and_merge: cuts n bytes out at offset `at`. */
  function PullAndMerge(f: Frame, at: nat, n: nat): (r: Reply)
    requires f.Ok()
    ensures r.frame.Ok() && |r.frame.b| == |f.b|
  {
    if at + n > f.len || f.len < n then Reply(-1, f)
    else Reply(0, Frame(Overwrite(f.b, at, f.b[at + n..f.len]), f.len - n))
  }

  /** The n bytes at `at` are gone from the data and those behind them have moved up; or they reach beyond it and nothing happens. */
  predicate CutOut(f: Frame, at: nat, n: nat, ret: int, g: Frame) {
    if at + n > f.len then ret == -1 && g == f
    else
      && ret == 0 && g.len == f.len - n && |g.b| == |f.b|
      && forall i :: 0 <= i < g.len && i + n < |f.b| ==> g.b[i] == if i < at then f.b[i] else f.b[i + n]
  }

  lemma PullCutsOut(f: Frame, at: nat, n: nat)
    requires f.Ok()
    ensures CutOut(f, at, n, PullAndMerge(f, at, n).ret, PullAndMerge(f, at, n).frame)
  {
  }

  method SkbPullAndMerge(skb: SkBuff, at: nat, n: nat) returns (ret: int)
    requires skb.Valid()
    modifies skb`len, skb`frame, skb.buf
    ensures skb.Valid() && Reply(ret, skb.frame) == PullAndMerge(old(skb.frame), at, n)
    ensures CutOut(old(skb.frame), at, n, ret, skb.frame)
  {
    PullCutsOut(skb.frame, at, n);
    var len := skb.Length();
    if at + n > len || len < n {
      return -1;
    }
    skb.Move(at, at + n, len - (at + n));
    skb.Trim(len - n);
    return 0;
  }

  /** The tag bytes that the frame's length field says there are. */
  function TagBytes(f: Frame): (e: Option<seq<byte>>)
    ensures e.Some? <==> HeaderOk(f)
    ensures e.Some? ==> |e.value| == PhLength(f.b)
  {
    if HeaderOk(f) then Some(f.b[TAGS..TAGS + PhLength(f.b)]) else None
  }

  /** The frame's tag bytes are `e`, and its length field says so. */
  predicate CarriesBytes(f: Frame, e: seq<byte>) {
    TagBytes(f) == Some(e)
  }

  /** The length field covers no more than the frame. */
  predicate HeaderOk(f: Frame) {
    f.Ok() && f.len >= TAGS && TAGS + PhLength(f.b) <= f.len
  }

  /** The tag bytes moved up by `gap`, and the length field set. */
  function MovedUp(b: seq<byte>, gap: nat, n: nat): (r: seq<byte>)
    requires TAGS + gap + n <= |b|
    ensures |r| == |b| && PhLength(r) == (n + gap) % 0x10000
  {
    SetPhLength(Overwrite(b, TAGS + gap, b[TAGS..TAGS + n]), n + gap)
  }

  /**
   __nat25_add_pppoe_tag: puts a tag in front of the others.  The code takes the
   tag's length without converting it from network order, so this is what it does
   on a big-endian host, the only kind on which the PPPoE branch is reached.
   */
  function AddTag(f: Frame, tag: seq<byte>): (r: Reply)
    requires HeaderOk(f)
    ensures r.frame.Ok() && |r.frame.b| == |f.b|
  {
    var n := PhLength(f.b);
    if |f.b| - f.len < |tag| then Reply(-1, f)
    else
      Reply(|tag|, Frame(Overwrite(MovedUp(f.b, |tag|, n), TAGS, tag), f.len + |tag|))
  }

  method SkbAddTag(skb: SkBuff, tag: seq<byte>) returns (ret: int)
    requires skb.Valid() && HeaderOk(skb.frame)
    modifies skb`len, skb`frame, skb.buf
    ensures skb.Valid() && Reply(ret, skb.frame) == AddTag(old(skb.frame), tag)
  {
    var room := skb.TailRoom();
    if room < |tag| {
      return -1;
    }
    ghost var f := skb.frame;
    var n := SkbPhLength(skb);
    assert AddTag(f, tag) == Reply(|tag|, Frame(Overwrite(MovedUp(f.b, |tag|, n), TAGS, tag), f.len + |tag|));
    skb.Put(|tag|);
    skb.Move(TAGS + |tag|, TAGS, n);
    SkbSetPhLength(skb, n + |tag|);
    assert skb.frame == Frame(MovedUp(f.b, |tag|, n), f.len + |tag|);
    skb.Copy(TAGS, tag);
    return |tag|;
  }

  /** Cutting a middle piece out of what `b` holds leaves the outer pieces. */
  lemma PullHolds(f: Frame, x: seq<byte>, y: seq<byte>, z: seq<byte>)
    requires f.Ok() && Holds(f.b, 0, x + y + z) && TAGS + |x + y + z| <= f.len
    ensures var r := PullAndMerge(f, TAGS + |x|, |y|);
            r.ret == 0 && Holds(r.frame.b, 0, x + z) && r.frame.len == f.len - |y|
            && r.frame.b[..TAGS] == f.b[..TAGS]
  {
    var r, e := PullAndMerge(f, TAGS + |x|, |y|), x + y + z;
    forall k | 0 <= k < |x + z| ensures r.frame.b[TAGS + k] == (x + z)[k] {
      var j := if k < |x| then k else k + |y|;
      assert f.b[TAGS + j] == f.b[TAGS..TAGS + |e|][j] == e[j];
    }
  }

  lemma LengthOnly(b: seq<byte>, n: nat, i: nat)
    requires TAGS <= i < |b|
    ensures SetPhLength(b, n)[i] == b[i]
  {
  }

  lemma MovedByte(b: seq<byte>, e: seq<byte>, gap: nat, j: nat)
    requires Holds(b, 0, e) && TAGS + gap + |e| <= |b| && j < |e|
    ensures Overwrite(b, TAGS + gap, b[TAGS..TAGS + |e|])[TAGS + gap + j] == e[j]
  {
    assert b[TAGS..TAGS + |e|][j] == e[j];
  }

  lemma AddedByte(sized: seq<byte>, tag: seq<byte>, e: seq<byte>, k: nat)
    requires TAGS + |tag| + |e| <= |sized| && k < |tag + e|
    requires forall j :: 0 <= j < |e| ==> sized[TAGS + |tag| + j] == e[j]
    ensures Overwrite(sized, TAGS, tag)[TAGS + k] == (tag + e)[k]
  {
    if k >= |tag| {
      assert sized[TAGS + |tag| + (k - |tag|)] == e[k - |tag|];
    }
  }

  lemma HeaderKept(b: seq<byte>, at: nat, d: seq<byte>)
    requires TAGS <= at && at + |d| <= |b|
    ensures Overwrite(b, at, d)[..18] == b[..18] && PhLength(Overwrite(b, at, d)) == PhLength(b)
  {
  }

  lemma MovedUpHolds(b: seq<byte>, gap: nat, e: seq<byte>)
    requires Holds(b, 0, e) && TAGS + gap + |e| <= |b|
    ensures forall j :: 0 <= j < |e| ==> MovedUp(b, gap, |e|)[TAGS + gap + j] == e[j]
    ensures MovedUp(b, gap, |e|)[..18] == b[..18]
  {
    var moved := Overwrite(b, TAGS + gap, b[TAGS..TAGS + |e|]);
    forall j | 0 <= j < |e| ensures MovedUp(b, gap, |e|)[TAGS + gap + j] == e[j] {
      MovedByte(b, e, gap, j);
      LengthOnly(moved, |e| + gap, TAGS + gap + j);
    }
    HeaderKept(b, TAGS + gap, b[TAGS..TAGS + |e|]);
  }

  lemma AddedHolds(sized: seq<byte>, tag: seq<byte>, e: seq<byte>)
    requires TAGS + |tag| + |e| <= |sized| && forall j :: 0 <= j < |e| ==> sized[TAGS + |tag| + j] == e[j]
    ensures Holds(Overwrite(sized, TAGS, tag), 0, tag + e)
  {
    forall k | 0 <= k < |tag + e| ensures Overwrite(sized, TAGS, tag)[TAGS + k] == (tag + e)[k] {
      AddedByte(sized, tag, e, k);
    }
  }

  /** Adding a tag puts it in front of what `b` holds. */
  lemma AddHolds(f: Frame, tag: seq<byte>, e: seq<byte>)
    requires CarriesBytes(f, e)
    requires |f.b| - f.len >= |tag| && |e| + |tag| < 0x10000
    ensures var r := AddTag(f, tag);
            r.ret == |tag| && Holds(r.frame.b, 0, tag + e) && r.frame.len == f.len + |tag|
            && PhLength(r.frame.b) == |tag + e| && r.frame.b[..18] == f.b[..18]
  {
    InFront(f.b, tag, e);
  }

  lemma InFront(b: seq<byte>, tag: seq<byte>, e: seq<byte>)
    requires Holds(b, 0, e) && TAGS + |tag| + |e| <= |b| && |e| + |tag| < 0x10000
    ensures var r := Overwrite(MovedUp(b, |tag|, |e|), TAGS, tag);
            Holds(r, 0, tag + e) && PhLength(r) == |tag + e| && r[..18] == b[..18]
  {
    MovedUpHolds(b, |tag|, e);
    AddedHolds(MovedUp(b, |tag|, |e|), tag, e);
    HeaderKept(MovedUp(b, |tag|, |e|), TAGS, tag);
  }

  // -------------------------------------------------- the two frame rewrites

  const RELAY_LEN := MAGIC_CODE_LEN + RTL_RELAY_TAG_LEN

  /** The longest value of an existing relay tag that can be kept. */
  const MAX_OLD := TAG_BUF_SIZE - TAG_HDR_LEN - RELAY_LEN

  /** The tag the bridge adds: magic code, client address, and the value of a tag that was there. */
  function RelayTag(mac: Mac, prior: seq<byte>): (t: Tag)
    requires |prior| <= MAX_OLD
    ensures t.Ok()
  {
    Tag(PTT_RELAY_SID, ToNet16(MAGIC_CODE) + mac + prior)
  }

  function Relay(f: Frame): Walk
    requires HeaderOk(f)
  {
    FindTag(f.b, PTT_RELAY_SID, 0, PhLength(f.b))
  }

  /** The value length of the tag at tag offset `at`. */
  function LengthAt(b: seq<byte>, at: nat): nat
    requires TAGS + at + TAG_HDR_LEN <= |b|
  {
    Net16(b[TAGS + at + 2], b[TAGS + at + 3])
  }

  /** The walk stays in the buffer and the tag it finds ends where the tags end or before. */
  predicate RelayInside(f: Frame) {
    && HeaderOk(f)
    && match Relay(f)
       case Found(at) => at + TAG_HDR_LEN <= PhLength(f.b) && at + TAG_HDR_LEN + LengthAt(f.b, at) <= PhLength(f.b)
       case Absent => true
       case Outside => false
  }

  function SourceMac(b: seq<byte>): Mac
    requires |b| >= 12
  {
    b[6..12]
  }

  predicate TagInside(f: Frame, at: nat) {
    && HeaderOk(f) && at + TAG_HDR_LEN <= PhLength(f.b)
    && at + TAG_HDR_LEN + LengthAt(f.b, at) <= PhLength(f.b)
  }

  function ValueAt(f: Frame, at: nat): seq<byte>
    requires TagInside(f, at)
  {
    f.b[TAGS + at + TAG_HDR_LEN..TAGS + at + TAG_HDR_LEN + LengthAt(f.b, at)]
  }

  /** The frame without n of its tag bytes, those at tag offset `at`, and its length field adjusted. */
  function CutTags(f: Frame, at: nat, n: nat): (r: Reply)
    requires HeaderOk(f) && at + n <= PhLength(f.b)
    ensures r.ret == 0 && HeaderOk(r.frame) && |r.frame.b| == |f.b|
    ensures PhLength(r.frame.b) == PhLength(f.b) - n && r.frame.len == f.len - n
  {
    var (pulled, left) := (PullAndMerge(f, TAGS + at, n).frame, PhLength(f.b) - n);
    assert left % 0x10000 == left;
    Reply(0, Frame(SetPhLength(pulled.b, left), pulled.len))
  }

  lemma CutKeepsHeader(f: Frame, at: nat, n: nat)
    requires HeaderOk(f) && at + n <= PhLength(f.b)
    ensures CutTags(f, at, n).frame.b[..18] == f.b[..18]
  {
    var pulled := PullAndMerge(f, TAGS + at, n).frame;
    assert pulled.b[..18] == f.b[..18];
    assert SetPhLength(pulled.b, PhLength(f.b) - n)[..18] == pulled.b[..18];
  }

  lemma CutTagsIs(f: Frame, at: nat, n: nat)
    requires HeaderOk(f) && at + n <= PhLength(f.b)
    ensures PullAndMerge(f, TAGS + at, n).ret == 0
    ensures var p := PullAndMerge(f, TAGS + at, n).frame;
            CutTags(f, at, n) == Reply(0, Frame(SetPhLength(p.b, PhLength(f.b) - n), p.len))
  {
  }

  method SkbCutTags(skb: SkBuff, at: nat, n: nat) returns (ret: int)
    requires skb.Valid() && HeaderOk(skb.frame) && at + n <= PhLength(skb.frame.b)
    modifies skb`len, skb`frame, skb.buf
    ensures skb.Valid() && Reply(ret, skb.frame) == CutTags(old(skb.frame), at, n)
  {
    CutTagsIs(skb.frame, at, n);
    var m := SkbPhLength(skb);
    ret := SkbPullAndMerge(skb, TAGS + at, n);
    SkbSetPhLength(skb, m - n);
  }

  /** INSERT of a PADI or PADR frame, relay tags being enabled. */
  function RelayInsert(f: Frame): Reply
    requires RelayInside(f)
  {
    match Relay(f)
    case Found(at) => InsertOver(f, at)
    case _ => AddRelay(f, [])
  }

  /** INSERT when a relay tag was found. */
  function InsertOver(f: Frame, at: nat): Reply
    requires TagInside(f, at)
  {
    if LengthAt(f.b, at) + TAG_HDR_LEN + RELAY_LEN > TAG_BUF_SIZE then Reply(-1, f) else ReplaceRelay(f, at)
  }

  /** Takes out the relay tag at `at` and puts the bridge's, which carries its value, in front. */
  function ReplaceRelay(f: Frame, at: nat): Reply
    requires TagInside(f, at) && LengthAt(f.b, at) <= MAX_OLD
  {
    AddRelay(CutTags(f, at, TAG_HDR_LEN + LengthAt(f.b, at)).frame, ValueAt(f, at))
  }

  function AddRelay(f: Frame, prior: seq<byte>): Reply
    requires HeaderOk(f) && |prior| <= MAX_OLD
  {
    var r := AddTag(f, EncodeTag(RelayTag(SourceMac(f.b), prior)));
    if r.ret < 0 then r else r.(ret := 0)
  }

  /** The value length of a tag, read from the buffer. */
  method SkbLengthAt(skb: SkBuff, at: nat) returns (n: nat)
    requires skb.Valid() && TagInside(skb.frame, at)
    ensures n == LengthAt(skb.frame.b, at)
  {
    var hi := skb.Get(TAGS + at + 2);
    var lo := skb.Get(TAGS + at + 3);
    n := Net16(hi, lo);
  }

  method SkbInsertOver(skb: SkBuff, at: nat) returns (ret: int)
    requires skb.Valid() && TagInside(skb.frame, at)
    modifies skb`len, skb`frame, skb.buf
    ensures skb.Valid() && Reply(ret, skb.frame) == InsertOver(old(skb.frame), at)
  {
    var n := SkbLengthAt(skb, at);
    if n + TAG_HDR_LEN + RELAY_LEN > TAG_BUF_SIZE {
      return -1;
    }
    ret := SkbReplaceRelay(skb, at, n);
  }

  method SkbRelayInsert(skb: SkBuff) returns (ret: int)
    requires skb.Valid() && RelayInside(skb.frame)
    modifies skb`len, skb`frame, skb.buf
    ensures skb.Valid() && Reply(ret, skb.frame) == RelayInsert(old(skb.frame))
  {
    var n := SkbPhLength(skb);
    var w := SkbFindTag(skb, PTT_RELAY_SID, n);
    if w.Found? {
      ret := SkbInsertOver(skb, w.at);
    } else {
      ret := SkbAddRelay(skb, []);
    }
  }

  method SkbReplaceRelay(skb: SkBuff, at: nat, n: nat) returns (ret: int)
    requires skb.Valid() && TagInside(skb.frame, at) && n == LengthAt(skb.frame.b, at) <= MAX_OLD
    modifies skb`len, skb`frame, skb.buf
    ensures skb.Valid() && Reply(ret, skb.frame) == ReplaceRelay(old(skb.frame), at)
  {
    var prior := skb.GetAll(TAGS + at + TAG_HDR_LEN, n);
    assert prior == ValueAt(skb.frame, at);
    ret := SkbCutTags(skb, at, TAG_HDR_LEN + n);
    if ret == 0 {
      ret := SkbAddRelay(skb, prior);
    }
  }

  method SkbSetPhLength(skb: SkBuff, n: nat)
    requires skb.Valid() && |skb.frame.b| >= TAGS
    modifies skb`len, skb`frame, skb.buf
    ensures skb.Valid() && skb.frame == Frame(SetPhLength(old(skb.frame.b), n), old(skb.frame.len))
  {
    skb.Copy(18, ToNet16(n % 0x10000));
  }

  method SkbAddRelay(skb: SkBuff, prior: seq<byte>) returns (ret: int)
    requires skb.Valid() && HeaderOk(skb.frame) && |prior| <= MAX_OLD
    modifies skb`len, skb`frame, skb.buf
    ensures skb.Valid() && Reply(ret, skb.frame) == AddRelay(old(skb.frame), prior)
  {
    var mac := skb.GetAll(ETH_ALEN, ETH_ALEN);
    ret := SkbAddTag(skb, EncodeTag(RelayTag(mac, prior)));
    if ret >= 0 {
      ret := 0;
    }
  }

  method SkbPhLength(skb: SkBuff) returns (n: nat)
    requires skb.Valid() && |skb.frame.b| >= TAGS
    ensures n == PhLength(skb.frame.b)
  {
    var hi := skb.Get(18);
    var lo := skb.Get(19);
    n := Net16(hi, lo);
  }

  /** __nat25_find_pppoe_tag */
  method SkbFindTag(skb: SkBuff, kind: nat, end: nat) returns (w: Walk)
    requires skb.Valid() && !FindTag(skb.frame.b, kind, 0, end).Outside?
    ensures w == FindTag(skb.frame.b, kind, 0, end)
  {
    var cur := 0;
    while cur < end
      invariant FindTag(skb.frame.b, kind, cur, end) == FindTag(skb.frame.b, kind, 0, end)
      decreases if cur < end then end - cur else 0
    {
      var t0 := skb.Get(TAGS + cur);
      var t1 := skb.Get(TAGS + cur + 1);
      var l0 := skb.Get(TAGS + cur + 2);
      var l1 := skb.Get(TAGS + cur + 3);
      if Net16(t0, t1) == kind {
        return Found(cur);
      }
      cur := cur + TAG_HDR_LEN + Net16(l0, l1);
    }
    return Absent;
  }

  /** LOOKUP of a PADO or PADS frame, relay tags being enabled. */
  function RelayLookup(f: Frame): Reply
    requires RelayInside(f)
  {
    match Relay(f)
    case Found(at) => LookupThrough(f, at)
    case _ => Reply(-1, f)
  }

  /** LOOKUP when a relay tag was found: it must be long enough and carry the bridge's magic code. */
  function LookupThrough(f: Frame, at: nat): Reply
    requires TagInside(f, at)
  {
    if LengthAt(f.b, at) < RELAY_LEN then Reply(-1, f)
    else if Net16(f.b[TAGS + at + 4], f.b[TAGS + at + 5]) != MAGIC_CODE then Reply(-1, f)
    else RestoreRelay(f, at)
  }

  /** The frame with the address in the relay tag at `at` as its destination. */
  function ToClient(f: Frame, at: nat): (g: Frame)
    requires TagInside(f, at) && LengthAt(f.b, at) >= RELAY_LEN
    ensures g.len == f.len && |g.b| == |f.b| && g.b[6..] == f.b[6..] && g.b[..6] == f.b[TAGS + at + 6..TAGS + at + 12]
  {
    Frame(Overwrite(f.b, 0, f.b[TAGS + at + 6..TAGS + at + 12]), f.len)
  }

  function SetTagLength(f: Frame, at: nat, n: nat): (g: Frame)
    requires f.Ok() && TAGS + at + TAG_HDR_LEN <= |f.b| && n < 0x10000
    ensures g.len == f.len && |g.b| == |f.b| && LengthAt(g.b, at) == n
    ensures g.b[..TAGS + at + 2] == f.b[..TAGS + at + 2] && g.b[TAGS + at + 4..] == f.b[TAGS + at + 4..]
  {
    Frame(Overwrite(f.b, TAGS + at + 2, ToNet16(n)), f.len)
  }

  /** The frame after the bridge's eight bytes are cut out of the tag at tag offset `at`. */
  function Shortened(f: Frame, at: nat, n: nat): Frame
    requires HeaderOk(f) && at + TAG_HDR_LEN + RELAY_LEN <= PhLength(f.b) && n < 0x10000
  {
    SetTagLength(CutTags(f, at + TAG_HDR_LEN, RELAY_LEN).frame, at, n)
  }

  /** The frame after the bridge's part of an n-byte relay tag is taken out. */
  function Restored(f: Frame, at: nat, n: nat): Frame
    requires HeaderOk(f) && at + TAG_HDR_LEN + RELAY_LEN <= PhLength(f.b) && RELAY_LEN <= n < 0x10000
  {
    if n > RELAY_LEN then Shortened(f, at, n - RELAY_LEN) else CutTags(f, at, TAG_HDR_LEN + RELAY_LEN).frame
  }

  /** Sends the frame to the client and leaves what was there before the bridge's relay tag. */
  function RestoreRelay(f: Frame, at: nat): Reply
    requires TagInside(f, at) && LengthAt(f.b, at) >= RELAY_LEN
  {
    Reply(0, Restored(ToClient(f, at), at, LengthAt(f.b, at)))
  }

  method SkbLookupThrough(skb: SkBuff, at: nat) returns (ret: int)
    requires skb.Valid() && TagInside(skb.frame, at)
    modifies skb`len, skb`frame, skb.buf
    ensures skb.Valid() && Reply(ret, skb.frame) == LookupThrough(old(skb.frame), at)
  {
    var n := SkbLengthAt(skb, at);
    if n < RELAY_LEN {
      return -1;
    }
    var m0 := skb.Get(TAGS + at + 4);
    var m1 := skb.Get(TAGS + at + 5);
    if Net16(m0, m1) != MAGIC_CODE {
      return -1;
    }
    ret := SkbRestoreRelay(skb, at, n);
  }

  method SkbRelayLookup(skb: SkBuff) returns (ret: int)
    requires skb.Valid() && RelayInside(skb.frame)
    modifies skb`len, skb`frame, skb.buf
    ensures skb.Valid() && Reply(ret, skb.frame) == RelayLookup(old(skb.frame))
  {
    var n := SkbPhLength(skb);
    var w := SkbFindTag(skb, PTT_RELAY_SID, n);
    if !w.Found? {
      return -1;
    }
    ret := SkbLookupThrough(skb, w.at);
  }

  method SkbRestoreRelay(skb: SkBuff, at: nat, n: nat) returns (ret: int)
    requires skb.Valid() && TagInside(skb.frame, at) && n == LengthAt(skb.frame.b, at) >= RELAY_LEN
    modifies skb`len, skb`frame, skb.buf
    ensures skb.Valid() && Reply(ret, skb.frame) == RestoreRelay(old(skb.frame), at)
  {
    SkbToClient(skb, at);
    ret := SkbRestore(skb, at, n);
  }

  method SkbRestore(skb: SkBuff, at: nat, n: nat) returns (ret: int)
    requires skb.Valid() && HeaderOk(skb.frame) && at + TAG_HDR_LEN + RELAY_LEN <= PhLength(skb.frame.b)
    requires RELAY_LEN <= n < 0x10000
    modifies skb`len, skb`frame, skb.buf
    ensures skb.Valid() && ret == 0 && skb.frame == Restored(old(skb.frame), at, n)
  {
    ghost var f := skb.frame;
    if n > RELAY_LEN {
      ret := SkbCutTags(skb, at + TAG_HDR_LEN, RELAY_LEN);
      SkbSetTagLength(skb, at, n - RELAY_LEN);
      assert skb.frame == Shortened(f, at, n - RELAY_LEN);
    } else {
      ret := SkbCutTags(skb, at, TAG_HDR_LEN + RELAY_LEN);
    }
  }

  method SkbToClient(skb: SkBuff, at: nat)
    requires skb.Valid() && TagInside(skb.frame, at) && LengthAt(skb.frame.b, at) >= RELAY_LEN
    modifies skb`len, skb`frame, skb.buf
    ensures skb.Valid() && skb.frame == ToClient(old(skb.frame), at)
  {
    ghost var f := skb.frame;
    var mac := skb.GetAll(TAGS + at + 6, ETH_ALEN);
    assert ToClient(f, at) == Frame(Overwrite(f.b, 0, mac), f.len);
    skb.Copy(0, mac);
  }

  method SkbSetTagLength(skb: SkBuff, at: nat, n: nat)
    requires skb.Valid() && skb.frame.Ok() && TAGS + at + TAG_HDR_LEN <= |skb.frame.b| && n < 0x10000
    modifies skb`len, skb`frame, skb.buf
    ensures skb.Valid() && skb.frame == SetTagLength(old(skb.frame), at, n)
  {
    skb.Copy(TAGS + at + 2, ToNet16(n));
  }

  // ------------------------------------------------- what it does to tag lists

  /** The frame's tags are `ts`, and its length field says so. */
  predicate Carries(f: Frame, ts: seq<Tag>) {
    TagsOk(ts) && CarriesBytes(f, Encode(ts))
  }

  lemma {:induction false} EncodeSplit(ts: seq<Tag>, i: nat)
    requires TagsOk(ts) && i < |ts|
    ensures Encode(ts) == Encode(ts[..i]) + EncodeTag(ts[i]) + Encode(ts[i + 1..])
    ensures Encode(ts[..i] + ts[i + 1..]) == Encode(ts[..i]) + Encode(ts[i + 1..])
  {
    assert ts == ts[..i] + ts[i..] && ts[i..][1..] == ts[i + 1..];
    EncodeAppend(ts[..i], ts[i..]);
    EncodeAppend(ts[..i], ts[i + 1..]);
  }

  /** Where the tag bytes are X + Y + Z, cutting Y leaves a frame whose tag bytes are X + Z. */
  lemma CutHolds(f: Frame, x: seq<byte>, y: seq<byte>, z: seq<byte>)
    requires CarriesBytes(f, x + y + z)
    ensures CarriesBytes(CutTags(f, |x|, |y|).frame, x + z)
  {
    PullHolds(f, x, y, z);
    var p, e := PullAndMerge(f, TAGS + |x|, |y|).frame, x + z;
    var b := SetPhLength(p.b, |e|);
    assert b[TAGS..TAGS + |e|] == b[TAGS..][..|e|] == p.b[TAGS..TAGS + |e|];
  }

  lemma TagHeld(f: Frame, at: nat, t: Tag, rest: seq<byte>)
    requires HeaderOk(f) && t.Ok() && Holds(f.b, at, EncodeTag(t) + rest)
    requires at + |EncodeTag(t) + rest| == PhLength(f.b)
    ensures TagInside(f, at) && LengthAt(f.b, at) == |t.value| && ValueAt(f, at) == t.value
  {
    HeadTag(f.b, at, t, rest);
    HeadValue(f.b, at, t, rest);
  }

  /** What the frame's bytes say about its i-th tag. */
  lemma TagAt(f: Frame, ts: seq<Tag>, i: nat)
    requires Carries(f, ts) && i < |ts|
    ensures var at := |Encode(ts[..i])|;
            TagInside(f, at) && LengthAt(f.b, at) == |ts[i].value| && ValueAt(f, at) == ts[i].value
  {
    var x, y := Encode(ts[..i]), EncodeTag(ts[i]) + Encode(ts[i + 1..]);
    EncodeSplit(ts, i);
    assert Encode(ts) == x + y;
    HoldsAfter(f.b, x, y);
    TagHeld(f, |x|, ts[i], Encode(ts[i + 1..]));
  }

  lemma RelayFound(f: Frame, ts: seq<Tag>)
    requires Carries(f, ts)
    ensures RelayInside(f)
    ensures Relay(f) == if FirstRelay(ts) < |ts| then Found(|Encode(ts[..FirstRelay(ts)])|) else Absent
  {
    FindTagInList(f.b, 0, PhLength(f.b), ts);
    WalkFindsFirst(ts, 0);
    BytesBeforeRelayIsPrefix(ts);
    if FirstRelay(ts) < |ts| {
      TagAt(f, ts, FirstRelay(ts));
    }
  }

  lemma HoldsAfter(b: seq<byte>, x: seq<byte>, y: seq<byte>)
    requires Holds(b, 0, x + y)
    ensures Holds(b, |x|, y)
  {
    assert b[TAGS..TAGS + |x + y|][|x|..] == b[TAGS + |x|..TAGS + |x| + |y|];
  }

  lemma HeadValue(b: seq<byte>, at: nat, t: Tag, rest: seq<byte>)
    requires t.Ok() && Holds(b, at, EncodeTag(t) + rest)
    ensures b[TAGS + at + TAG_HDR_LEN..TAGS + at + TAG_HDR_LEN + |t.value|] == t.value
  {
    var e := EncodeTag(t) + rest;
    var n := TAG_HDR_LEN + |t.value|;
    assert e[TAG_HDR_LEN..n] == t.value;
    assert b[TAGS + at..TAGS + at + |e|][TAG_HDR_LEN..n] == b[TAGS + at + TAG_HDR_LEN..TAGS + at + n];
  }

  function Prior(ts: seq<Tag>): seq<byte> {
    if FirstRelay(ts) < |ts| then ts[FirstRelay(ts)].value else []
  }

  /** All tags but the first relay tag. */
  function Others(ts: seq<Tag>): seq<Tag> {
    var i := FirstRelay(ts);
    if i < |ts| then ts[..i] + ts[i + 1..] else ts
  }

  /** Tail room that INSERT needs: twelve bytes, or eight when it extends a tag. */
  function RoomNeeded(ts: seq<Tag>): nat {
    if FirstRelay(ts) < |ts| then RELAY_LEN else TAG_HDR_LEN + RELAY_LEN
  }

  /**
   INSERT succeeds exactly when the old relay value fits and there is room; it
   then puts the bridge's relay tag, which carries the client's address and the
   old value, in front of all other tags, and keeps the rest of the header.  When
   only the room is short, the client's own relay tag is gone already.
   */
  lemma InsertOnTags(f: Frame, ts: seq<Tag>)
    requires Carries(f, ts) && |Encode(ts)| + TAG_HDR_LEN + RELAY_LEN < 0x10000
    ensures RelayInside(f)
    ensures RelayInsert(f).ret == 0 <==> |Prior(ts)| <= MAX_OLD && |f.b| - f.len >= RoomNeeded(ts)
    ensures |Prior(ts)| > MAX_OLD ==> RelayInsert(f) == Reply(-1, f)
    ensures RelayInsert(f).ret == 0 ==>
              var g := RelayInsert(f).frame;
              && Carries(g, [RelayTag(SourceMac(f.b), Prior(ts))] + Others(ts))
              && g.b[..18] == f.b[..18] && g.len == f.len + RoomNeeded(ts)
    ensures RelayInsert(f).ret != 0 && |Prior(ts)| <= MAX_OLD ==>
              RelayInsert(f).ret == -1 && Carries(RelayInsert(f).frame, Others(ts)) && RelayInsert(f).frame.b[..18] == f.b[..18]
  {
    RelayFound(f, ts);
    var i := FirstRelay(ts);
    if i == |ts| {
      AddRelayHolds(f, ts, []);
    } else {
      TagAt(f, ts, i);
      if |ts[i].value| <= MAX_OLD {
        ReplaceRelayHolds(f, ts);
      }
    }
  }

  lemma SameSource(b: seq<byte>, c: seq<byte>)
    requires |b| >= 18 && |c| >= 18 && b[..18] == c[..18]
    ensures SourceMac(b) == SourceMac(c)
  {
    assert SourceMac(b) == b[..18][6..12] && SourceMac(c) == c[..18][6..12];
  }

  /** The relay tag taken out, the other tags are left. */
  lemma CutRelayHolds(f: Frame, ts: seq<Tag>)
    requires Carries(f, ts) && FirstRelay(ts) < |ts|
    ensures var i := FirstRelay(ts); var at := |Encode(ts[..i])|;
            && TagInside(f, at) && LengthAt(f.b, at) == |ts[i].value| && ValueAt(f, at) == ts[i].value
            && |Encode(Others(ts))| + |EncodeTag(ts[i])| == |Encode(ts)|
            && Carries(CutTags(f, at, |EncodeTag(ts[i])|).frame, Others(ts))
  {
    var i := FirstRelay(ts);
    TagAt(f, ts, i);
    EncodeSplit(ts, i);
    CutHolds(f, Encode(ts[..i]), EncodeTag(ts[i]), Encode(ts[i + 1..]));
  }

  lemma ReplaceRelayHolds(f: Frame, ts: seq<Tag>)
    requires Carries(f, ts) && |Encode(ts)| + TAG_HDR_LEN + RELAY_LEN < 0x10000
    requires FirstRelay(ts) < |ts| && |Prior(ts)| <= MAX_OLD
    ensures var at := |Encode(ts[..FirstRelay(ts)])|;
            && TagInside(f, at) && LengthAt(f.b, at) <= MAX_OLD
            && var r := ReplaceRelay(f, at);
               && (r.ret == 0 || r.ret == -1) && (r.ret == 0 <==> |f.b| - f.len >= RELAY_LEN)
               && (r.ret == 0 ==>
                     && Carries(r.frame, [RelayTag(SourceMac(f.b), Prior(ts))] + Others(ts))
                     && r.frame.b[..18] == f.b[..18] && r.frame.len == f.len + RELAY_LEN)
               && (r.ret == -1 ==> Carries(r.frame, Others(ts)) && r.frame.b[..18] == f.b[..18])
  {
    var g := ReplaceIsAdd(f, ts);
    AddRelayHolds(g, Others(ts), Prior(ts));
  }

  /** Replacing the relay tag is adding one to the frame without it. */
  lemma ReplaceIsAdd(f: Frame, ts: seq<Tag>) returns (g: Frame)
    requires Carries(f, ts) && FirstRelay(ts) < |ts| && |Prior(ts)| <= MAX_OLD
    ensures var at := |Encode(ts[..FirstRelay(ts)])|;
            && TagInside(f, at) && LengthAt(f.b, at) <= MAX_OLD
            && Carries(g, Others(ts)) && ReplaceRelay(f, at) == AddRelay(g, Prior(ts))
    ensures |g.b| == |f.b| && f.len == g.len + TAG_HDR_LEN + |Prior(ts)|
    ensures |Encode(Others(ts))| + TAG_HDR_LEN + |Prior(ts)| == |Encode(ts)|
    ensures g.b[..18] == f.b[..18] && SourceMac(g.b) == SourceMac(f.b)
  {
    CutRelayHolds(f, ts);
    var i := FirstRelay(ts);
    g := CutTags(f, |Encode(ts[..i])|, |EncodeTag(ts[i])|).frame;
    CutKeepsHeader(f, |Encode(ts[..i])|, |EncodeTag(ts[i])|);
    SameSource(g.b, f.b);
  }

  lemma AddRelayHolds(f: Frame, ts: seq<Tag>, prior: seq<byte>)
    requires Carries(f, ts) && |prior| <= MAX_OLD
    requires |Encode(ts)| + TAG_HDR_LEN + RELAY_LEN + |prior| < 0x10000
    ensures AddRelay(f, prior).ret == 0 <==> |f.b| - f.len >= TAG_HDR_LEN + RELAY_LEN + |prior|
    ensures AddRelay(f, prior).ret == 0 || AddRelay(f, prior).ret == -1
    ensures AddRelay(f, prior).ret == 0 ==>
              var g := AddRelay(f, prior).frame;
              && Carries(g, [RelayTag(SourceMac(f.b), prior)] + ts)
              && g.b[..18] == f.b[..18] && g.len == f.len + TAG_HDR_LEN + RELAY_LEN + |prior|
    ensures AddRelay(f, prior).ret == -1 ==> AddRelay(f, prior).frame == f
  {
    var t := RelayTag(SourceMac(f.b), prior);
    assert ([t] + ts)[1..] == ts;
    if |f.b| - f.len >= |EncodeTag(t)| {
      AddHolds(f, EncodeTag(t), Encode(ts));
    }
  }

  /** What LOOKUP leaves of the bridge's relay tag: the value that was there before, if any. */
  function Remainder(t: Tag): (ts: seq<Tag>)
    requires t.Ok() && |t.value| >= RELAY_LEN
    ensures TagsOk(ts)
  {
    if |t.value| > RELAY_LEN then [Tag(t.kind, t.value[RELAY_LEN..])] else []
  }

  /** A relay tag that LOOKUP accepts. */
  predicate Restorable(t: Tag) {
    t.kind == PTT_RELAY_SID && |t.value| >= RELAY_LEN && t.value[..2] == ToNet16(MAGIC_CODE)
  }

  lemma ToClientCarries(f: Frame, ts: seq<Tag>, at: nat)
    requires Carries(f, ts) && TagInside(f, at) && LengthAt(f.b, at) >= RELAY_LEN
    ensures Carries(ToClient(f, at), ts) && TagInside(ToClient(f, at), at)
    ensures LengthAt(ToClient(f, at).b, at) == LengthAt(f.b, at)
  {
    var g := ToClient(f, at);
    assert g.b[6..] == f.b[6..];
    forall k | 6 <= k < |f.b| ensures g.b[k] == f.b[k] {
      assert g.b[k] == g.b[6..][k - 6] && f.b[k] == f.b[6..][k - 6];
    }
    assert g.b[TAGS..TAGS + PhLength(f.b)] == f.b[TAGS..TAGS + PhLength(f.b)];
  }

  /** A relay tag without the bridge's part. */
  function ClientsTag(s: Tag): (t: Tag)
    requires s.Ok() && |s.value| > RELAY_LEN
    ensures t.Ok()
  {
    Tag(s.kind, s.value[RELAY_LEN..])
  }

  /** Cutting the bridge's part out of the tag at offset `at` leaves the tag bytes `e`. */
  predicate ShortensTo(g: Frame, at: nat, n: nat, e: seq<byte>)
    requires HeaderOk(g) && n < 0x10000
  {
    && at + TAG_HDR_LEN + RELAY_LEN <= PhLength(g.b)
    && var h := Shortened(g, at, n);
       CarriesBytes(h, e) && h.b[..18] == g.b[..18]
  }

  lemma ShortenedHolds(f: Frame, x: seq<byte>, s: Tag, z: seq<byte>, e: seq<byte>)
    requires s.Ok() && |s.value| > RELAY_LEN
    requires CarriesBytes(f, x + EncodeTag(s) + z) && e == x + EncodeTag(ClientsTag(s)) + z
    ensures ShortensTo(f, |x|, |s.value| - RELAY_LEN, e)
  {
    var t := ClientsTag(s);
    var hdr, v := ToNet16(s.kind) + ToNet16(|s.value|), s.value;
    assert x + EncodeTag(s) + z == (x + hdr) + v[..RELAY_LEN] + (t.value + z);
    CutHolds(f, x + hdr, v[..RELAY_LEN], t.value + z);
    var g := CutTags(f, |x| + TAG_HDR_LEN, RELAY_LEN).frame;
    var h := SetTagLength(g, |x|, |t.value|);
    PatchHolds(g, x, t, hdr, z);
    CutKeepsHeader(f, |x| + TAG_HDR_LEN, RELAY_LEN);
    TagLengthKeepsHeader(g, |x|, |t.value|);
  }

  lemma TagLengthKeepsHeader(g: Frame, at: nat, n: nat)
    requires HeaderOk(g) && TAGS + at + TAG_HDR_LEN <= |g.b| && n < 0x10000
    ensures var h := SetTagLength(g, at, n);
            HeaderOk(h) && PhLength(h.b) == PhLength(g.b) && h.b[..18] == g.b[..18]
  {
    var h := SetTagLength(g, at, n);
    assert h.b[..TAGS + at + 2][..TAGS] == g.b[..TAGS + at + 2][..TAGS];
    assert h.b[..TAGS] == g.b[..TAGS];
    assert h.b[..TAGS][..18] == g.b[..TAGS][..18];
    assert h.b[18] == h.b[..TAGS][18] && h.b[19] == h.b[..TAGS][19];
  }

  /** Setting a tag's length field turns a foreign header into the tag's own. */
  lemma PatchHolds(g: Frame, x: seq<byte>, t: Tag, hdr: seq<byte>, z: seq<byte>)
    requires t.Ok() && |hdr| == TAG_HDR_LEN && hdr[..2] == ToNet16(t.kind)
    requires HeaderOk(g) && Holds(g.b, 0, (x + hdr) + (t.value + z))
    ensures Holds(SetTagLength(g, |x|, |t.value|).b, 0, x + EncodeTag(t) + z)
  {
    var h, e, d := SetTagLength(g, |x|, |t.value|), (x + hdr) + (t.value + z), x + EncodeTag(t) + z;
    forall k | 0 <= k < |d| ensures h.b[TAGS + k] == d[k] {
      PatchedByte(g, x, t, hdr, z, k);
    }
  }

  lemma PatchedByte(g: Frame, x: seq<byte>, t: Tag, hdr: seq<byte>, z: seq<byte>, k: nat)
    requires t.Ok() && |hdr| == TAG_HDR_LEN && hdr[..2] == ToNet16(t.kind)
    requires HeaderOk(g) && Holds(g.b, 0, (x + hdr) + (t.value + z))
    requires k < |x + EncodeTag(t) + z|
    ensures SetTagLength(g, |x|, |t.value|).b[TAGS + k] == (x + EncodeTag(t) + z)[k]
  {
    var e := (x + hdr) + (t.value + z);
    assert g.b[TAGS + k] == g.b[TAGS..TAGS + |e|][k] == e[k];
    if k == |x| || k == |x| + 1 {
      assert hdr[..2][k - |x|] == e[k];
    }
  }

  lemma ToClientHeader(f: Frame, ts: seq<Tag>, i: nat)
    requires Carries(f, ts) && i < |ts| && |ts[i].value| >= RELAY_LEN
    ensures var at := |Encode(ts[..i])|;
            && TagInside(f, at) && LengthAt(f.b, at) == |ts[i].value|
            && ToClient(f, at).b[..18] == ts[i].value[2..8] + f.b[6..18]
  {
    var at := |Encode(ts[..i])|;
    TagAt(f, ts, i);
    var n := LengthAt(f.b, at);
    SliceOfSlice(f.b, TAGS + at + TAG_HDR_LEN, TAGS + at + TAG_HDR_LEN + n, 2, 8);
    var b := ToClient(f, at).b;
    assert b[..18] == b[..6] + b[6..][..12] && f.b[6..][..12] == f.b[6..18];
  }

  /** The frame goes to the client in the i-th tag, and of that tag keeps what is not the bridge's. */
  ghost predicate Answers(f: Frame, ts: seq<Tag>, i: nat, r: Reply)
    requires Carries(f, ts) && i < |ts| && |ts[i].value| >= RELAY_LEN
  {
    && r.ret == 0 && Carries(r.frame, ts[..i] + Remainder(ts[i]) + ts[i + 1..])
    && r.frame.b[..18] == ts[i].value[2..8] + f.b[6..18]
  }

  /** The frame LOOKUP leaves when the i-th tag is the relay tag it finds. */
  lemma RestoreOnTags(f: Frame, ts: seq<Tag>, i: nat)
    requires Carries(f, ts) && i < |ts| && |ts[i].value| >= RELAY_LEN
    ensures var at := |Encode(ts[..i])|;
            && TagInside(f, at) && LengthAt(f.b, at) == |ts[i].value|
            && Answers(f, ts, i, RestoreRelay(f, at))
  {
    var at := |Encode(ts[..i])|;
    ToClientHeader(f, ts, i);
    ToClientCarries(f, ts, at);
    var g := ToClient(f, at);
    if |ts[i].value| > RELAY_LEN {
      var us := ts[..i] + Remainder(ts[i]) + ts[i + 1..];
      KeepsRemainder(g, ts, i, us);
    } else {
      DropsTag(g, ts, i);
    }
  }

  lemma KeepsRemainder(g: Frame, ts: seq<Tag>, i: nat, us: seq<Tag>)
    requires Carries(g, ts) && i < |ts| && |ts[i].value| > RELAY_LEN && us == ts[..i] + Remainder(ts[i]) + ts[i + 1..]
    ensures TagsOk(us) && ShortensTo(g, |Encode(ts[..i])|, |ts[i].value| - RELAY_LEN, Encode(us))
  {
    var x, z := Around(g, ts, i, us);
    ShortenedHolds(g, x, ts[i], z, Encode(us));
  }

  /** The bytes before and behind the i-th tag, which stay when that tag is cut down to the client's part. */
  lemma Around(g: Frame, ts: seq<Tag>, i: nat, us: seq<Tag>) returns (x: seq<byte>, z: seq<byte>)
    requires Carries(g, ts) && i < |ts| && |ts[i].value| > RELAY_LEN && us == ts[..i] + Remainder(ts[i]) + ts[i + 1..]
    ensures |x| == |Encode(ts[..i])| && CarriesBytes(g, x + EncodeTag(ts[i]) + z)
    ensures TagsOk(us) && Encode(us) == x + EncodeTag(ClientsTag(ts[i])) + z
  {
    x, z := Encode(ts[..i]), Encode(ts[i + 1..]);
    EncodeSplit(ts, i);
    EncodeReplaced(ts, i, ClientsTag(ts[i]));
    assert Remainder(ts[i]) == [ClientsTag(ts[i])];
  }

  lemma EncodeReplaced(ts: seq<Tag>, i: nat, t: Tag)
    requires TagsOk(ts) && i < |ts| && t.Ok()
    ensures TagsOk(ts[..i] + [t] + ts[i + 1..])
    ensures Encode(ts[..i] + [t] + ts[i + 1..]) == Encode(ts[..i]) + EncodeTag(t) + Encode(ts[i + 1..])
  {
    var us := ts[..i] + [t] + ts[i + 1..];
    assert us[i] == t && us[..i] == ts[..i] && us[i + 1..] == ts[i + 1..];
    EncodeSplit(us, i);
  }

  lemma DropsTag(g: Frame, ts: seq<Tag>, i: nat)
    requires Carries(g, ts) && i < |ts| && |ts[i].value| == RELAY_LEN
    ensures var at := |Encode(ts[..i])|;
            && at + TAG_HDR_LEN + RELAY_LEN <= PhLength(g.b)
            && var h := CutTags(g, at, TAG_HDR_LEN + RELAY_LEN).frame;
               Carries(h, ts[..i] + Remainder(ts[i]) + ts[i + 1..]) && h.b[..18] == g.b[..18]
  {
    EncodeSplit(ts, i);
    CutHolds(g, Encode(ts[..i]), EncodeTag(ts[i]), Encode(ts[i + 1..]));
    CutKeepsHeader(g, |Encode(ts[..i])|, TAG_HDR_LEN + RELAY_LEN);
    assert ts[..i] + Remainder(ts[i]) + ts[i + 1..] == ts[..i] + ts[i + 1..];
  }

  /**
   LOOKUP succeeds exactly when the first relay tag is one the bridge made; it
   then sends the frame to the client named in that tag and leaves every other
   tag, in order, and of that tag the value that was there before the bridge.
   */
  lemma LookupOnTags(f: Frame, ts: seq<Tag>)
    requires Carries(f, ts)
    ensures RelayInside(f)
    ensures var i := FirstRelay(ts);
            var r := RelayLookup(f);
            if i < |ts| && Restorable(ts[i]) then Answers(f, ts, i, r) else r == Reply(-1, f)
  {
    LookupCases(f, ts);
    var i := FirstRelay(ts);
    if i < |ts| && Restorable(ts[i]) {
      RestoreOnTags(f, ts, i);
    }
  }

  lemma LookupCases(f: Frame, ts: seq<Tag>)
    requires Carries(f, ts)
    ensures RelayInside(f)
    ensures var i := FirstRelay(ts);
            if i < |ts| && Restorable(ts[i]) then
              var at := |Encode(ts[..i])|;
              TagInside(f, at) && LengthAt(f.b, at) >= RELAY_LEN && RelayLookup(f) == RestoreRelay(f, at)
            else
              RelayLookup(f) == Reply(-1, f)
  {
    RelayFound(f, ts);
    var i := FirstRelay(ts);
    if i < |ts| {
      TagAt(f, ts, i);
      if |ts[i].value| >= RELAY_LEN {
        MagicAt(f, ts, i);
      }
    }
  }

  lemma MagicAt(f: Frame, ts: seq<Tag>, i: nat)
    requires Carries(f, ts) && i < |ts| && |ts[i].value| >= RELAY_LEN
    ensures var at := |Encode(ts[..i])|;
            && TAGS + at + 6 <= |f.b|
            && (Net16(f.b[TAGS + at + 4], f.b[TAGS + at + 5]) == MAGIC_CODE <==> ts[i].value[..2] == ToNet16(MAGIC_CODE))
  {
    var at := |Encode(ts[..i])|;
    TagAt(f, ts, i);
    var v := ts[i].value;
    assert f.b[TAGS + at + 4] == ValueAt(f, at)[0] == v[0] && f.b[TAGS + at + 5] == ValueAt(f, at)[1] == v[1];
    assert v[..2] == [v[0], v[1]];
  }

  lemma {:induction false} FirstRelayAfter(pre: seq<Tag>, t: Tag, post: seq<Tag>)
    requires FirstRelay(pre) == |pre| && t.kind == PTT_RELAY_SID
    ensures FirstRelay(pre + [t] + post) == |pre|
  {
    if pre != [] {
      FirstRelayAfter(pre[1..], t, post);
      assert (pre + [t] + post)[1..] == pre[1..] + [t] + post;
    }
  }

  /**
   The relay round trip.  A client frame f with tags ts is sent on by INSERT; an
   access concentrator answers with a frame g whose tags are `pre`, the relay tag
   it was sent, and `post`, with no relay tag in `pre`.  LOOKUP then addresses g
   to the client, keeps `pre` and `post` in order, and gives back the client's own
   relay tag unchanged, or no relay tag if it had none or an empty one.
   */
  lemma RelayRoundTrip(f: Frame, ts: seq<Tag>, g: Frame, pre: seq<Tag>, post: seq<Tag>)
    requires Carries(f, ts) && |Encode(ts)| + TAG_HDR_LEN + RELAY_LEN < 0x10000
    requires |Prior(ts)| <= MAX_OLD && |f.b| - f.len >= RoomNeeded(ts)
    requires FirstRelay(pre) == |pre|
    requires Carries(g, pre + [RelayTag(SourceMac(f.b), Prior(ts))] + post)
    ensures RelayInside(f) && RelayInsert(f).ret == 0
    ensures Carries(RelayInsert(f).frame, [RelayTag(SourceMac(f.b), Prior(ts))] + Others(ts))
    ensures RelayInside(g) && RelayLookup(g).ret == 0
    ensures var h := RelayLookup(g).frame;
            var own := if Prior(ts) == [] then [] else [Tag(PTT_RELAY_SID, Prior(ts))];
            Carries(h, pre + own + post) && h.b[..18] == SourceMac(f.b) + g.b[6..18]
  {
    InsertOnTags(f, ts);
    var t := RelayTag(SourceMac(f.b), Prior(ts));
    var us := pre + [t] + post;
    FirstRelayAfter(pre, t, post);
    LookupOnTags(g, us);
    assert us[..|pre|] == pre && us[|pre|] == t && us[|pre| + 1..] == post;
    assert t.value[..2] == ToNet16(MAGIC_CODE) && t.value[2..8] == SourceMac(f.b);
    assert t.value[RELAY_LEN..] == Prior(ts);
  }
}
