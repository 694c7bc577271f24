/**
 The information elements of the beacon, kept as bytes in a fixed buffer and
 edited in place: adding and removing an element, and replacing the traffic
 indication map.  Each edit is proved to be the edit of the list of elements.
 */
module BeaconIes {
  import opened Bytes

  const MAX_IE_SZ := 768
  const FIXED_IE_LENGTH := 12

  const SSID_IE: byte := 0
  const SUPPORTEDRATES_IE: byte := 1
  const DSSET_IE: byte := 3
  const TIM_IE: byte := 5

  /** An element: identifier and up to 255 bytes, the length being a byte. */
  type Ie = e: IeBytes | |e.data| < 256 witness IeBytes(0, [])

  datatype IeBytes = IeBytes(id: byte, data: seq<byte>)

  function EncodeIe(e: Ie): (s: seq<byte>)
    ensures |s| == |e.data| + 2
  {
    [e.id, |e.data|] + e.data
  }

  function Encode(list: seq<Ie>): seq<byte> {
    if list == [] then [] else Encode(list[..|list| - 1]) + EncodeIe(list[|list| - 1])
  }

  /** Where the k-th element starts. */
  function Start(list: seq<Ie>, k: nat): nat
    requires k <= |list|
  {
    |Encode(list[..k])|
  }

  lemma {:induction false} EncodeAppend(a: seq<Ie>, b: seq<Ie>)
    ensures Encode(a + b) == Encode(a) + Encode(b)
  {
    if b == [] {
      assert a + b == a;
    } else {
      var front, last := b[..|b| - 1], b[|b| - 1];
      assert (a + b)[..|a + b| - 1] == a + front;
      EncodeAppend(a, front);
    }
  }

  lemma EncodeSingle(e: Ie)
    ensures Encode([e]) == EncodeIe(e)
  {
    assert [e][..0] == [];
  }

  /** The bytes around the k-th element. */
  lemma EncodeAround(list: seq<Ie>, k: nat)
    requires k < |list|
    ensures Encode(list) == Encode(list[..k]) + EncodeIe(list[k]) + Encode(list[k + 1..])
    ensures Start(list, k + 1) == Start(list, k) + |list[k].data| + 2
  {
    assert list[..k + 1] == list[..k] + [list[k]];
    assert list == list[..k + 1] + list[k + 1..];
    EncodeAppend(list[..k + 1], list[k + 1..]);
    EncodeAppend(list[..k], [list[k]]);
    EncodeSingle(list[k]);
  }

  /** What a walk over the bytes reads there. */
  lemma HeaderAt(list: seq<Ie>, k: nat)
    requires k < |list|
    ensures Start(list, k + 1) == Start(list, k) + |list[k].data| + 2 <= |Encode(list)|
    ensures Encode(list)[Start(list, k)] == list[k].id
    ensures Encode(list)[Start(list, k) + 1] == |list[k].data|
  {
    EncodeAround(list, k);
  }

  /** The first element with this identifier, or |list|. */
  function Find(list: seq<Ie>, id: byte): (k: nat)
    ensures k <= |list|
    ensures k < |list| ==> list[k].id == id
    ensures forall j :: 0 <= j < k ==> list[j].id != id
  {
    if list == [] then 0 else
    var k := Find(list[..|list| - 1], id);
    if k < |list| - 1 || list[|list| - 1].id == id then k else k + 1
  }

  // --------------------------------------------------- edits of the bytes

  /** `drop` bytes at `at` replaced by `d`. */
  function Splice(s: seq<byte>, at: nat, drop: nat, d: seq<byte>): seq<byte>
    requires at + drop <= |s|
  {
    s[..at] + d + s[at + drop..]
  }

  lemma SpliceMiddle(a: seq<byte>, x: seq<byte>, b: seq<byte>, d: seq<byte>)
    ensures Splice(a + x + b, |a|, |x|, d) == a + d + b
  {
    var s := a + x + b;
    assert s[..|a|] == a;
    assert s[|a| + |x|..] == b;
  }

  lemma EncodeThree(a: seq<Ie>, b: seq<Ie>, c: seq<Ie>)
    ensures Encode(a + b + c) == Encode(a) + Encode(b) + Encode(c)
  {
    EncodeAppend(a + b, c);
    EncodeAppend(a, b);
  }

  lemma Regroup(fixed: seq<byte>, a: seq<byte>, b: seq<byte>, c: seq<byte>)
    ensures fixed + (a + b + c) == (fixed + a) + b + c
  {
  }

  /** `n` elements from the k-th on replaced. */
  function Edit(list: seq<Ie>, k: nat, n: nat, ins: seq<Ie>): seq<Ie>
    requires k + n <= |list|
  {
    list[..k] + ins + list[k + n..]
  }

  lemma SpliceBytes(fixed: seq<byte>, a: seq<byte>, x: seq<byte>, b: seq<byte>, d: seq<byte>)
    ensures |fixed| + |a| + |x| <= |fixed + (a + x + b)|
    ensures Splice(fixed + (a + x + b), |fixed| + |a|, |x|, d) == fixed + (a + d + b)
  {
    Regroup(fixed, a, x, b);
    Regroup(fixed, a, d, b);
    SpliceMiddle(fixed + a, x, b, d);
  }

  lemma SpliceKnown(fixed: seq<byte>, s: seq<byte>, t: seq<byte>, a: seq<byte>, x: seq<byte>, b: seq<byte>, d: seq<byte>)
    requires s == a + x + b && t == a + d + b
    ensures |fixed| + |a| + |x| <= |fixed + s|
    ensures Splice(fixed + s, |fixed| + |a|, |x|, d) == fixed + t
  {
    SpliceBytes(fixed, a, x, b, d);
  }

  lemma EncodeEdit(list: seq<Ie>, k: nat, n: nat, ins: seq<Ie>)
    requires k + n <= |list|
    ensures Encode(Edit(list, k, n, ins)) == Encode(list[..k]) + Encode(ins) + Encode(list[k + n..])
  {
    EncodeThree(list[..k], ins, list[k + n..]);
  }

  lemma ThreeParts<T>(s: seq<T>, k: nat, n: nat)
    requires k + n <= |s|
    ensures s[..k] + s[k..k + n] + s[k + n..] == s
  {
  }

  lemma EncodeWhole(list: seq<Ie>, k: nat, n: nat)
    requires k + n <= |list|
    ensures Encode(list) == Encode(list[..k]) + Encode(list[k..k + n]) + Encode(list[k + n..])
  {
    ThreeParts(list, k, n);
    EncodeThree(list[..k], list[k..k + n], list[k + n..]);
  }

  /** A splice over whole elements is an edit of the list. */
  lemma SpliceElements(fixed: seq<byte>, list: seq<Ie>, k: nat, n: nat, ins: seq<Ie>)
    requires k + n <= |list|
    ensures |fixed| + Start(list, k) + |Encode(list[k..k + n])| <= |fixed + Encode(list)|
    ensures Splice(fixed + Encode(list), |fixed| + Start(list, k), |Encode(list[k..k + n])|, Encode(ins))
            == fixed + Encode(Edit(list, k, n, ins))
  {
    EncodeWhole(list, k, n);
    EncodeEdit(list, k, n, ins);
    SpliceKnown(fixed, Encode(list), Encode(Edit(list, k, n, ins)),
                Encode(list[..k]), Encode(list[k..k + n]), Encode(list[k + n..]), Encode(ins));
  }

  lemma EditAt(list: seq<Ie>, k: nat, n: nat, e: Ie, j: nat)
    requires k + n <= |list| && n <= 1 && j < |list| + 1 - n
    ensures Edit(list, k, n, [e])[j] == if j < k then list[j] else if j == k then e else list[j - 1 + n]
  {
  }

  /** Editing the element just written edits the list as it was. */
  lemma EditUndone(list: seq<Ie>, k: nat, n: nat, e: Ie)
    requires k + n <= |list|
    ensures forall ins :: Edit(Edit(list, k, n, [e]), k, 1, ins) == Edit(list, k, n, ins)
    ensures n == 0 ==> Edit(list, k, n, []) == list
  {
    var l := Edit(list, k, n, [e]);
    assert l[..k] == list[..k] && l[k + 1..] == list[k + n..];
  }

  // --------------------------------------------------------- add and remove

  /** The first element whose identifier is `id` or larger. */
  function FirstFrom(list: seq<Ie>, id: byte): (k: nat)
    ensures k <= |list|
    ensures k < |list| ==> list[k].id >= id
    ensures forall j :: 0 <= j < k ==> list[j].id < id
  {
    if list == [] then 0 else
    var k := FirstFrom(list[..|list| - 1], id);
    if k < |list| - 1 || list[|list| - 1].id >= id then k else k + 1
  }

  lemma FirstFromUnique(list: seq<Ie>, id: byte, k: nat)
    requires k <= |list| && (k < |list| ==> list[k].id >= id) && forall j :: 0 <= j < k ==> list[j].id < id
    ensures FirstFrom(list, id) == k
  {
  }

  predicate Matches(list: seq<Ie>, id: byte) {
    var k := FirstFrom(list, id);
    k < |list| && list[k].id == id
  }

  /** rtw_add_bcn_ie knows a place: an element to replace or one to follow, and not an empty one. */
  predicate AddDefined(list: seq<Ie>, id: byte) {
    var k := FirstFrom(list, id);
    if Matches(list, id) then list[k].data != [] else k > 0 && list[k - 1].data != []
  }

  function Added(list: seq<Ie>, e: Ie): seq<Ie> {
    Edit(list, FirstFrom(list, e.id), if Matches(list, e.id) then 1 else 0, [e])
  }

  function Removed(list: seq<Ie>, id: byte): seq<Ie> {
    var k := Find(list, id);
    if k < |list| && list[k].data != [] then Edit(list, k, 1, []) else list
  }

  predicate Ascending(list: seq<Ie>) {
    forall i, j :: 0 <= i < j < |list| ==> list[i].id < list[j].id
  }

  /** Element `id` of the list has these bytes. */
  predicate Has(list: seq<Ie>, id: byte, data: seq<byte>) {
    exists k :: 0 <= k < |list| && list[k].id == id && list[k].data == data
  }

  lemma AddStaysAscending(list: seq<Ie>, e: Ie)
    requires Ascending(list)
    ensures Ascending(Added(list, e))
  {
    var k, n, l := FirstFrom(list, e.id), if Matches(list, e.id) then 1 else 0, Added(list, e);
    forall i, j | 0 <= i < j < |l| ensures l[i].id < l[j].id {
      EditAt(list, k, n, e, i);
      EditAt(list, k, n, e, j);
    }
  }

  /** In an ascending list, adding an element maps its identifier to its bytes and leaves every other alone. */
  lemma AddIsMapUpdate(list: seq<Ie>, e: Ie, id: byte, data: seq<byte>)
    requires Ascending(list)
    ensures Ascending(Added(list, e))
    ensures Has(Added(list, e), id, data) <==> if id == e.id then data == e.data else Has(list, id, data)
  {
    var k, n, l := FirstFrom(list, e.id), if Matches(list, e.id) then 1 else 0, Added(list, e);
    AddStaysAscending(list, e);
    EditAt(list, k, n, e, k);
    if Has(l, id, data) {
      var j :| 0 <= j < |l| && l[j].id == id && l[j].data == data;
      EditAt(list, k, n, e, j);
    }
    if id != e.id && Has(list, id, data) {
      var j :| 0 <= j < |list| && list[j].id == id && list[j].data == data;
      EditAt(list, k, n, e, if j < k then j else j + 1 - n);
    }
  }

  lemma FindUnique(list: seq<Ie>, id: byte, k: nat)
    requires k < |list| && list[k].id == id && forall j :: 0 <= j < k ==> list[j].id != id
    ensures Find(list, id) == k
  {
  }

  lemma FindOnly(list: seq<Ie>, id: byte, k: nat)
    requires Ascending(list) && k < |list| && list[k].id == id
    ensures Find(list, id) == k
  {
    FindUnique(list, id, k);
  }

  lemma RemovedAt(list: seq<Ie>, k: nat, j: nat)
    requires k < |list| && j < |list| - 1
    ensures |Edit(list, k, 1, [])| == |list| - 1 && Edit(list, k, 1, [])[j] == list[if j < k then j else j + 1]
  {
  }

  /** Cutting the k-th element out of an ascending list leaves an ascending list of the others. */
  lemma CutStaysAscending(list: seq<Ie>, k: nat)
    requires Ascending(list) && k < |list|
    ensures Ascending(Edit(list, k, 1, []))
  {
    var l := Edit(list, k, 1, []);
    forall i, j | 0 <= i < j < |l| ensures l[i].id < l[j].id {
      RemovedAt(list, k, i);
      RemovedAt(list, k, j);
    }
  }

  lemma CutUnmaps(list: seq<Ie>, k: nat, id: byte, data: seq<byte>)
    requires Ascending(list) && k < |list|
    ensures Has(Edit(list, k, 1, []), id, data) <==> Has(list, id, data) && id != list[k].id
  {
    var l := Edit(list, k, 1, []);
    if Has(l, id, data) {
      var j :| 0 <= j < |l| && l[j].id == id && l[j].data == data;
      RemovedAt(list, k, j);
    }
    if Has(list, id, data) && id != list[k].id {
      var j :| 0 <= j < |list| && list[j].id == id && list[j].data == data;
      RemovedAt(list, k, if j < k then j else j - 1);
    }
  }

  lemma HasOnly(list: seq<Ie>, id: byte, data: seq<byte>)
    requires Ascending(list)
    ensures Has(list, id, data) <==> Find(list, id) < |list| && list[Find(list, id)].data == data
  {
    if Has(list, id, data) {
      var j :| 0 <= j < |list| && list[j].id == id && list[j].data == data;
      FindOnly(list, id, j);
    }
  }

  /** Removal from an ascending list unmaps the identifier, unless its bytes are none, and leaves every other element alone. */
  lemma RemoveIsMapRemoval(list: seq<Ie>, id: byte, other: byte, data: seq<byte>)
    requires Ascending(list)
    ensures Ascending(Removed(list, id))
    ensures Has(Removed(list, id), other, data) <==> Has(list, other, data) && (other == id ==> data == [])
  {
    var k := Find(list, id);
    HasOnly(list, id, data);
    if k < |list| && list[k].data != [] {
      CutStaysAscending(list, k);
      CutUnmaps(list, k, other, data);
    }
  }

  /** Adding an absent element and removing it gives back the list, exactly if the element is not empty. */
  lemma AddThenRemove(list: seq<Ie>, e: Ie)
    requires Find(list, e.id) == |list|
    ensures Removed(Added(list, e), e.id) == list <==> e.data != []
  {
    var k, l := FirstFrom(list, e.id), Added(list, e);
    EditAt(list, k, 0, e, k);
    forall j | 0 <= j < k ensures l[j].id != e.id {
      EditAt(list, k, 0, e, j);
    }
    FindUnique(l, e.id, k);
    EditUndone(list, k, 0, e);
  }

  // -------------------------------------------------------------------- TIM

  /** The element update_BCNTIM writes for a bitmap of association identifiers. */
  function Tim(bitmap: nat): Ie
    requires bitmap < 0x10000
  {
    var ctrl: byte := bitmap % 2;
    var lo: byte := bitmap % 256;
    var hi: byte := bitmap / 256;
    IeBytes(TIM_IE, [0, 1, ctrl, lo] + if hi != 0 && lo / 4 != 0 then [hi] else [])
  }

  /** The stations a receiver of a TIM without bitmap offset reads from it (section 7.3.2.6 of IEEE 802.11-2007). */
  function TimBitmap(data: seq<byte>): nat {
    if |data| < 4 then 0 else data[3] as int + if |data| == 4 then 0 else data[4] as int * 256
  }

  /** The high byte is dropped when bits 2 to 7 of the low byte are all clear. */
  lemma TimReadsBack(bitmap: nat)
    requires bitmap < 0x10000
    ensures TimBitmap(Tim(bitmap).data) == bitmap <==> bitmap / 256 == 0 || bitmap % 256 / 4 != 0
    ensures TimBitmap(Tim(bitmap).data) != bitmap ==> TimBitmap(Tim(bitmap).data) == bitmap % 256
  {
    assert bitmap == bitmap / 256 * 256 + bitmap % 256;
  }

  function SizeOf(list: seq<Ie>, id: byte): nat {
    var k := Find(list, id);
    if k < |list| then |list[k].data| + 2 else 0
  }

  /** Past the SSID, the rates and three bytes taken for the DS parameter set. */
  function TimOffset(list: seq<Ie>): nat {
    SizeOf(list, SSID_IE) + SizeOf(list, SUPPORTEDRATES_IE) + 3
  }

  predicate ReplacesTim(list: seq<Ie>) {
    var k := Find(list, TIM_IE);
    k < |list| && list[k].data != []
  }

  /** A new TIM goes before the m-th element; the code does not look whether that is a boundary. */
  predicate TimGoesAt(list: seq<Ie>, m: nat) {
    m <= |list| && (ReplacesTim(list) || Start(list, m) == TimOffset(list))
  }

  function TimUpdated(list: seq<Ie>, m: nat, bitmap: nat): seq<Ie>
    requires TimGoesAt(list, m) && bitmap < 0x10000
  {
    var k := Find(list, TIM_IE);
    if ReplacesTim(list) then Edit(list, k, 1, [Tim(bitmap)]) else Edit(list, m, 0, [Tim(bitmap)])
  }

  /** In a beacon that begins with SSID, rates and a DS parameter set it is the place behind them. */
  lemma TimGoesBehindDs(list: seq<Ie>)
    requires |list| >= 3 && list[0].id == SSID_IE && list[1].id == SUPPORTEDRATES_IE
    requires list[2].id == DSSET_IE && |list[2].data| == 1
    ensures TimGoesAt(list, 3)
  {
    FindUnique(list, SSID_IE, 0);
    FindUnique(list, SUPPORTEDRATES_IE, 1);
    EncodeAround(list, 0);
    EncodeAround(list, 1);
    EncodeAround(list, 2);
    assert list[..0] == [];
  }

  lemma StartsGrow(list: seq<Ie>, j: nat, k: nat)
    requires j <= k <= |list|
    ensures Start(list, j) + 2 * (k - j) <= Start(list, k)
    decreases k - j
  {
    if j < k {
      StartsGrow(list, j, k - 1);
      EncodeAround(list, k - 1);
    }
  }

  lemma OffsetBehindRates(list: seq<Ie>)
    requires |list| >= 2 && list[0].id == SSID_IE && list[1].id == SUPPORTEDRATES_IE
    ensures TimOffset(list) == Start(list, 2) + 3
  {
    FindUnique(list, SSID_IE, 0);
    FindUnique(list, SUPPORTEDRATES_IE, 1);
    EncodeAround(list, 0);
    EncodeAround(list, 1);
    assert list[..0] == [];
  }

  /**
   In a beacon that begins with SSID and rates, the computed place for a new TIM
   is an element boundary if and only if the third element has one byte; whether
   it is a DS parameter set does not matter.
   */
  lemma TimBoundaryIffOneByte(list: seq<Ie>)
    requires |list| >= 2 && list[0].id == SSID_IE && list[1].id == SUPPORTEDRATES_IE && !ReplacesTim(list)
    ensures (exists m :: TimGoesAt(list, m)) <==> |list| >= 3 && |list[2].data| == 1
  {
    OffsetBehindRates(list);
    if |list| >= 3 {
      EncodeAround(list, 2);
      if |list[2].data| == 1 {
        assert TimGoesAt(list, 3);
      }
    }
    forall m | TimGoesAt(list, m) ensures |list| >= 3 && |list[2].data| == 1 {
      if m <= 2 {
        StartsGrow(list, m, 2);
      } else {
        StartsGrow(list, 3, m);
      }
    }
  }

  /** With nothing behind the rates the place is three bytes past the end of the elements. */
  lemma TimPastTheEnd(list: seq<Ie>)
    requires |list| == 2 && list[0].id == SSID_IE && list[1].id == SUPPORTEDRATES_IE
    ensures TimOffset(list) == |Encode(list)| + 3
  {
    OffsetBehindRates(list);
    assert list[..2] == list;
  }

  /** Which bytes of the elements give way to the new TIM: where they start, and how many. */
  function TimRange(list: seq<Ie>): (int, int) {
    var k := Find(list, TIM_IE);
    if ReplacesTim(list) then (Start(list, k), |list[k].data| + 2) else (TimOffset(list), 0)
  }

  predicate TimInside(list: seq<Ie>) {
    TimRange(list).0 + TimRange(list).1 <= |Encode(list)|
  }

  /** The bytes update_BCNTIM leaves, wherever the computed place falls inside them. */
  function TimSpliced(fixed: seq<byte>, list: seq<Ie>, bitmap: nat): seq<byte>
    requires bitmap < 0x10000 && TimInside(list)
  {
    Splice(fixed + Encode(list), |fixed| + TimRange(list).0, TimRange(list).1, EncodeIe(Tim(bitmap)))
  }

  /**
   The element as it stands in the bytes from `at` on: identifier 5, its length,
   DTIM count 0 and period 1, the multicast bit with bitmap offset 0, and the map,
   whose high byte is there only with stations 8 to 15 and one of 2 to 7 in it.
   */
  predicate TimWritten(b: seq<byte>, at: nat, bitmap: nat)
    requires bitmap < 0x10000
  {
    var twoBytes := bitmap >= 256 && bitmap % 256 >= 4;
    && at + (if twoBytes then 7 else 6) <= |b|
    && b[at] == 5 && b[at + 1] == (if twoBytes then 5 else 4) && b[at + 2] == 0 && b[at + 3] == 1
    && b[at + 4] == (if bitmap % 2 == 1 then 1 else 0)
    && b[at + 5] == bitmap % 256 && (twoBytes ==> b[at + 6] == bitmap / 256)
  }

  lemma TimStands(fixed: seq<byte>, list: seq<Ie>, bitmap: nat)
    requires bitmap < 0x10000 && TimInside(list)
    ensures TimWritten(TimSpliced(fixed, list, bitmap), |fixed| + TimRange(list).0, bitmap)
  {
    var s, at, d := fixed + Encode(list), |fixed| + TimRange(list).0, EncodeIe(Tim(bitmap));
    var t := TimSpliced(fixed, list, bitmap);
    forall k | 0 <= k < |d| ensures t[at + k] == d[k] {
      assert t == (s[..at] + d) + s[at + TimRange(list).1..];
    }
  }

  lemma OneElement(list: seq<Ie>, k: nat)
    requires k < |list|
    ensures Encode(list[k..k + 1]) == EncodeIe(list[k])
  {
    assert list[k..k + 1] == [list[k]];
    EncodeSingle(list[k]);
  }

  lemma NoElement(list: seq<Ie>, k: nat)
    requires k <= |list|
    ensures Encode(list[k..k + 0]) == []
  {
    assert list[k..k + 0] == [];
  }

  /** A splice of one encoded element over `n` elements, at most one. */
  lemma SpliceOne(fixed: seq<byte>, list: seq<Ie>, k: nat, n: nat, drop: int, e: Ie)
    requires k + n <= |list| && n <= 1 && drop == if n == 1 then |list[k].data| + 2 else 0
    ensures Start(list, k) + drop <= |Encode(list)|
    ensures Splice(fixed + Encode(list), |fixed| + Start(list, k), drop, EncodeIe(e)) == fixed + Encode(Edit(list, k, n, [e]))
  {
    EncodeSingle(e);
    SpliceElements(fixed, list, k, n, [e]);
    if n == 1 {
      OneElement(list, k);
    } else {
      NoElement(list, k);
    }
  }

  /** At an element boundary that is the edit of the element list. */
  lemma SplicedIsUpdated(fixed: seq<byte>, list: seq<Ie>, m: nat, bitmap: nat)
    requires bitmap < 0x10000 && TimGoesAt(list, m)
    ensures TimInside(list)
    ensures TimSpliced(fixed, list, bitmap) == fixed + Encode(TimUpdated(list, m, bitmap))
  {
    var (k, n) := if ReplacesTim(list) then (Find(list, TIM_IE), 1) else (m, 0);
    assert TimUpdated(list, m, bitmap) == Edit(list, k, n, [Tim(bitmap)]);
    assert TimRange(list) == (Start(list, k), if n == 1 then |list[k].data| + 2 else 0);
    SpliceOne(fixed, list, k, n, TimRange(list).1, Tim(bitmap));
  }

  /** The updated list carries the new map, and the next update replaces that same element. */
  lemma TimIsReplaced(list: seq<Ie>, m: nat, bitmap: nat, next: nat)
    requires TimGoesAt(list, m) && bitmap < 0x10000 && next < 0x10000
    requires ReplacesTim(list) || Find(list, TIM_IE) == |list|
    ensures var l := TimUpdated(list, m, bitmap);
            var k := Find(l, TIM_IE);
            k < |l| && l[k] == Tim(bitmap) && ReplacesTim(l)
            && TimUpdated(l, k, next) == TimUpdated(list, m, next)
  {
    var l := TimUpdated(list, m, bitmap);
    var (k, n) := if ReplacesTim(list) then (Find(list, TIM_IE), 1) else (m, 0);
    EditAt(list, k, n, Tim(bitmap), k);
    forall j | 0 <= j < k ensures l[j].id != TIM_IE {
      EditAt(list, k, n, Tim(bitmap), j);
    }
    FindUnique(l, TIM_IE, k);
    EditUndone(list, k, n, Tim(bitmap));
  }

  // ------------------------------------------------------------- the buffer

  /** IEs and IELength of a WLAN_BSSID_EX. */
  class Beacon {
    const ies: array<byte>
    var ieLength: nat

    /** The buffer in use holds the fixed fields and then these elements. */
    ghost predicate Holds(fixed: seq<byte>, list: seq<Ie>)
      reads this, ies
    {
      ies.Length == MAX_IE_SZ && |fixed| == FIXED_IE_LENGTH && ieLength <= MAX_IE_SZ
      && ies[..ieLength] == fixed + Encode(list)
    }

    /** Room for what an edit leaves. */
    static ghost predicate Fits(list: seq<Ie>) {
      FIXED_IE_LENGTH + |Encode(list)| <= MAX_IE_SZ
    }

    constructor (fixed: seq<byte>)
      requires |fixed| == FIXED_IE_LENGTH
      ensures Holds(fixed, [])
    {
      ies := new byte[MAX_IE_SZ](i => if 0 <= i < |fixed| then fixed[i] else 0);
      ieLength := FIXED_IE_LENGTH;
    }

    /** The tail of each edit: the remainder is copied out, the element written, the remainder copied back. */
    method ReplaceBytes(at: nat, drop: nat, d: seq<byte>)
      requires at + drop <= ieLength <= ies.Length && ieLength - drop + |d| <= ies.Length
      modifies this, ies
      ensures ieLength == old(ieLength) - drop + |d|
      ensures ies[..ieLength] == Splice(old(ies[..ieLength]), at, drop, d)
    {
      var remainder := ies[at + drop..ieLength];
      Memcpy(ies, at, d);
      Memcpy(ies, at + |d|, remainder);
      ieLength := at + |d| + |remainder|;
    }

    /** ReplaceBytes over `n` whole elements from the k-th on. */
    method EditElements(ghost fixed: seq<byte>, ghost list: seq<Ie>, ghost k: nat, ghost n: nat,
                        at: nat, drop: nat, ghost ins: seq<Ie>, d: seq<byte>)
      requires Holds(fixed, list) && k + n <= |list| && Fits(Edit(list, k, n, ins))
      requires at == FIXED_IE_LENGTH + Start(list, k) && drop == |Encode(list[k..k + n])| && d == Encode(ins)
      modifies this, ies
      ensures Holds(fixed, Edit(list, k, n, ins))
    {
      SpliceElements(fixed, list, k, n, ins);
      assert |Splice(fixed + Encode(list), at, drop, d)| == |fixed + Encode(list)| - drop + |d|;
      ReplaceBytes(at, drop, d);
    }

    /** rtw_get_ie over the elements: where the first `index` is, and its length. */
    method GetIe(index: byte, ghost fixed: seq<byte>, ghost list: seq<Ie>) returns (p: Option<nat>, len: nat)
      requires Holds(fixed, list)
      ensures p == if Find(list, index) < |list| then Some(FIXED_IE_LENGTH + Start(list, Find(list, index))) else None
      ensures p.Some? ==> len == |list[Find(list, index)].data|
    {
      len := 0;
      if ieLength - FIXED_IE_LENGTH < 1 {
        return None, 0;
      }
      var i := FIXED_IE_LENGTH;
      ghost var k := 0;
      while true
        invariant k < |list| && i == FIXED_IE_LENGTH + Start(list, k)
        invariant forall j :: 0 <= j < k ==> list[j].id != index
        decreases |list| - k
      {
        ElementAt(fixed, list, k);
        if ies[i] == index {
          FindUnique(list, index, k);
          return Some(i), ies[i + 1] as nat;
        }
        i := i + ies[i + 1] as nat + 2;
        k := k + 1;
        EndAt(fixed, list, k);
        if i >= ieLength {
          break;
        }
      }
      p := None;
    }

    /** The header of the k-th element, read from the buffer. */
    lemma ElementAt(fixed: seq<byte>, list: seq<Ie>, k: nat)
      requires Holds(fixed, list) && k < |list|
      ensures var i := FIXED_IE_LENGTH + Start(list, k);
              && i + 1 < ieLength && ies[i] == list[k].id && ies[i + 1] as int == |list[k].data|
              && Start(list, k + 1) == Start(list, k) + |list[k].data| + 2
    {
      HeaderAt(list, k);
      var i := FIXED_IE_LENGTH + Start(list, k);
      assert ies[..ieLength][i] == Encode(list)[Start(list, k)];
      assert ies[..ieLength][i + 1] == Encode(list)[Start(list, k) + 1];
    }

    /** The walk is at the end of the bytes exactly when no element is left. */
    lemma EndAt(fixed: seq<byte>, list: seq<Ie>, k: nat)
      requires Holds(fixed, list) && k <= |list|
      ensures FIXED_IE_LENGTH + Start(list, k) >= ieLength <==> k == |list|
    {
      if k == |list| {
        assert list[..k] == list;
      } else {
        ElementAt(fixed, list, k);
      }
    }

    /** rtw_remove_bcn_ie */
    method RemoveIe(index: byte, ghost fixed: seq<byte>, ghost list: seq<Ie>)
      requires Holds(fixed, list)
      modifies this, ies
      ensures Holds(fixed, Removed(list, index))
    {
      var p, len := GetIe(index, fixed, list);
      if p.Some? && len > 0 {
        ghost var k := Find(list, index);
        RemovalFits(fixed, list, k);
        EditElements(fixed, list, k, 1, p.value, len + 2, [], []);
      }
    }

    lemma RemovalFits(fixed: seq<byte>, list: seq<Ie>, k: nat)
      requires Holds(fixed, list) && k < |list|
      ensures Fits(Edit(list, k, 1, [])) && |Encode(list[k..k + 1])| == |list[k].data| + 2
    {
      SpliceElements(fixed, list, k, 1, []);
      assert list[k..k + 1] == [list[k]];
      EncodeSingle(list[k]);
    }

    /** The loop of rtw_add_bcn_ie: the element to replace, or the one the new element goes behind. */
    method FindPlace(index: byte, ghost fixed: seq<byte>, ghost list: seq<Ie>) returns (found: bool, p: nat, len: nat)
      requires Holds(fixed, list)
      ensures found == Matches(list, index)
      ensures var k := if found then FirstFrom(list, index) else FirstFrom(list, index) - 1;
              k >= 0 ==> p == FIXED_IE_LENGTH + Start(list, k) && len == |list[k].data|
    {
      p, len := 0, 0;
      var i := FIXED_IE_LENGTH;
      ghost var k := 0;
      EndAt(fixed, list, k);
      while i < ieLength
        invariant k <= |list| && i == FIXED_IE_LENGTH + Start(list, k) && (i >= ieLength <==> k == |list|)
        invariant forall j :: 0 <= j < k ==> list[j].id < index
        invariant k > 0 ==> p == FIXED_IE_LENGTH + Start(list, k - 1) && len == |list[k - 1].data|
        decreases |list| - k
      {
        ElementAt(fixed, list, k);
        if ies[i] > index {
          break;
        } else if ies[i] == index {
          FirstFromUnique(list, index, k);
          return true, i, ies[i + 1] as nat;
        }
        p, len := i, ies[i + 1] as nat;
        i := i + ies[i + 1] as nat + 2;
        k := k + 1;
        EndAt(fixed, list, k);
      }
      FirstFromUnique(list, index, k);
      found := false;
    }

    /** rtw_add_bcn_ie */
    method AddIe(index: byte, data: seq<byte>, ghost fixed: seq<byte>, ghost list: seq<Ie>)
      requires Holds(fixed, list) && AddDefined(list, index)
      requires |data| < 256 && Fits(Added(list, IeBytes(index, data)))
      modifies this, ies
      ensures Holds(fixed, Added(list, IeBytes(index, data)))
    {
      var found, p, len := FindPlace(index, fixed, list);
      ghost var k := FirstFrom(list, index);
      ghost var e: Ie := IeBytes(index, data);
      EncodeSingle(e);
      if found {
        RemovalFits(fixed, list, k);
        EditElements(fixed, list, k, 1, p, len + 2, [e], [index, |data|] + data);
      } else {
        EncodeAround(list, k - 1);
        assert list[k..k + 0] == [];
        EditElements(fixed, list, k, 0, p + len + 2, 0, [e], [index, |data|] + data);
      }
    }

    /** Where update_BCNTIM puts a TIM when there is none to replace. */
    method TimPlace(ghost fixed: seq<byte>, ghost list: seq<Ie>) returns (offset: nat)
      requires Holds(fixed, list)
      ensures offset == FIXED_IE_LENGTH + TimOffset(list)
    {
      offset := FIXED_IE_LENGTH;
      var p, len := GetIe(SSID_IE, fixed, list);
      if p.Some? {
        offset := offset + len + 2;
      }
      p, len := GetIe(SUPPORTEDRATES_IE, fixed, list);
      if p.Some? {
        offset := offset + len + 2;
      }
      offset := offset + 3;
    }

    /** The bytes to replace: those of the non-empty TIM, or none at the computed place. */
    method FindTim(ghost fixed: seq<byte>, ghost list: seq<Ie>) returns (at: nat, drop: nat)
      requires Holds(fixed, list)
      ensures at == FIXED_IE_LENGTH + TimRange(list).0 && drop == TimRange(list).1
    {
      var p, len := GetIe(TIM_IE, fixed, list);
      if p.Some? && len > 0 {
        return p.value, len + 2;
      }
      at := TimPlace(fixed, list);
      drop := 0;
    }

    /** update_BCNTIM, wherever the computed place falls inside the elements. */
    method UpdateTim(bitmap: nat, ghost fixed: seq<byte>, ghost list: seq<Ie>)
      requires Holds(fixed, list) && bitmap < 0x10000 && TimInside(list)
      requires |TimSpliced(fixed, list, bitmap)| <= MAX_IE_SZ
      modifies this, ies
      ensures ieLength <= ies.Length && ies[..ieLength] == TimSpliced(fixed, list, bitmap)
      ensures TimWritten(ies[..ieLength], FIXED_IE_LENGTH + TimRange(list).0, bitmap)
    {
      TimStands(fixed, list, bitmap);
      var at, drop := FindTim(fixed, list);
      ReplaceBytes(at, drop, EncodeIe(Tim(bitmap)));
    }

    /** At an element boundary the buffer then holds the updated list. */
    lemma UpdatedHolds(fixed: seq<byte>, list: seq<Ie>, m: nat, bitmap: nat)
      requires bitmap < 0x10000 && TimGoesAt(list, m) && TimInside(list) && |fixed| == FIXED_IE_LENGTH
      requires ies.Length == MAX_IE_SZ && ieLength <= MAX_IE_SZ && ies[..ieLength] == TimSpliced(fixed, list, bitmap)
      ensures Holds(fixed, TimUpdated(list, m, bitmap))
    {
      SplicedIsUpdated(fixed, list, m, bitmap);
    }
  }
}
