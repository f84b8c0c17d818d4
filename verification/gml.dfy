/** The cadastral-building reader of the first exercise: each building part
    read from the GML document carries a gml:id naming its building and
    itself; parts are grouped by building in a map ordered by building id,
    each building keeping the bounding box of its parts, and the city is the
    list of buildings in id order with the box of all of them.

    The XML traversal is not modelled: a document is the sequence of its
    building parts in document order, each with its gml:id, the exterior ring
    its last posList gives, and the srsName attributes of its surfaces.
    Coordinates are reals compared only with min and max. The std::map is a
    list of entries kept in ascending key order, as std::map iterates it. */
module Gml {
  import opened Wrappers

  // ---------------------------------------------------------------------------
  // Splitting the gml:id
  // ---------------------------------------------------------------------------

  /** std::string::npos, the largest size_t. */
  const NPOS: nat := 0xFFFF_FFFF_FFFF_FFFF

  /** size_t arithmetic wraps modulo 2^64; a sum or difference of two size_t
      values wraps at most once. */
  function SizeT(x: int): (r: nat)
    requires -(NPOS + 1) <= x <= 2 * NPOS + 1
    ensures r <= NPOS
  {
    if x < 0 then x + NPOS + 1 else if x > NPOS then x - (NPOS + 1) else x
  }

  type GmlId = s: string | |s| < NPOS

  /** find_last_of(c): the last index of c, or npos. */
  function FindLast(s: string, c: char): (r: nat)
    requires |s| < NPOS
    ensures r == NPOS || (r < |s| && s[r] == c)
    ensures r == NPOS ==> c !in s
    ensures r < |s| ==> forall i :: r < i < |s| ==> s[i] != c
  {
    if |s| == 0 then NPOS
    else if s[|s| - 1] == c then |s| - 1
    else
      assert s == s[..|s| - 1] + [s[|s| - 1]];
      FindLast(s[..|s| - 1], c)
  }

  /** find(c): the first index of c, or npos. */
  function FindFirst(s: string, c: char): (r: nat)
    requires |s| < NPOS
    ensures r == NPOS || (r < |s| && s[r] == c)
    ensures r == NPOS ==> c !in s
    ensures r < |s| ==> forall i :: 0 <= i < r ==> s[i] != c
  {
    if |s| == 0 then NPOS
    else if s[0] == c then 0
    else
      assert s == [s[0]] + s[1..];
      var r := FindFirst(s[1..], c);
      if r == NPOS then NPOS else r + 1
  }

  /** substr(pos, count): at most count characters from pos on. */
  function Substr(s: string, pos: nat, count: nat): (r: string)
    requires pos <= |s|
    ensures |r| <= count
    ensures pos + count >= |s| ==> r == s[pos..]
    ensures pos + count < |s| ==> r == s[pos..pos + count]
  {
    if pos + count >= |s| then s[pos..] else s[pos..pos + count]
  }

  /** The building id: gid.substr(lastDot + 1, unders - lastDot - 1) in size_t. */
  function BuildingIdOf(gid: GmlId): (r: string)
    ensures |r| <= |gid|
    ensures '.' !in r
  {
    var lastDot := FindLast(gid, '.');
    var unders := FindFirst(gid, '_');
    Substr(gid, SizeT(lastDot + 1), SizeT(unders - lastDot - 1))
  }

  /** The part id: gid.substr(unders + 1) in size_t. */
  function PartIdOf(gid: GmlId): (r: string)
    ensures |r| <= |gid| && r == gid[|gid| - |r|..]
    ensures '_' !in gid ==> r == gid
  {
    var unders := FindFirst(gid, '_');
    Substr(gid, SizeT(unders + 1), NPOS)
  }

  /** With a '.' followed later by a '_', the building id is the text between
      the last '.' and the first '_', and the part id the text after the
      first '_'; the id is the prefix up to the dot, the building id, the
      underscore and the part id. */
  lemma SplitDotUnderscore(gid: GmlId, d: nat, u: nat)
    requires d < u < |gid| && gid[d] == '.' && gid[u] == '_'
    requires forall i :: d < i < |gid| ==> gid[i] != '.'
    requires forall i :: 0 <= i < u ==> gid[i] != '_'
    ensures BuildingIdOf(gid) == gid[d + 1..u]
    ensures PartIdOf(gid) == gid[u + 1..]
    ensures gid == gid[..d + 1] + BuildingIdOf(gid) + "_" + PartIdOf(gid)
  {
    LastDotAt(gid, d);
    FirstUnderscoreAt(gid, u);
    BuildingIdBetween(gid, d, u);
    PartIdAfter(gid, u);
    Reassemble(gid, d, u);
  }

  lemma LastDotAt(gid: GmlId, d: nat)
    requires d < |gid| && gid[d] == '.'
    requires forall i :: d < i < |gid| ==> gid[i] != '.'
    ensures FindLast(gid, '.') == d
  {
  }

  lemma FirstUnderscoreAt(gid: GmlId, u: nat)
    requires u < |gid| && gid[u] == '_'
    requires forall i :: 0 <= i < u ==> gid[i] != '_'
    ensures FindFirst(gid, '_') == u
  {
  }

  lemma BuildingIdBetween(gid: GmlId, d: nat, u: nat)
    requires d < u < |gid|
    requires FindLast(gid, '.') == d && FindFirst(gid, '_') == u
    ensures BuildingIdOf(gid) == gid[d + 1..u]
  {
    SizeTSmall(d + 1);
    SizeTSmall(u - d - 1);
  }

  lemma PartIdAfter(gid: GmlId, u: nat)
    requires u < |gid| && FindFirst(gid, '_') == u
    ensures PartIdOf(gid) == gid[u + 1..]
  {
    SizeTSmall(u + 1);
  }

  lemma SizeTSmall(x: int)
    requires 0 <= x <= NPOS
    ensures SizeT(x) == x
  {
  }

  lemma Reassemble(s: string, d: nat, u: nat)
    requires d < u < |s| && s[u] == '_'
    ensures s == s[..d + 1] + s[d + 1..u] + "_" + s[u + 1..]
  {
    assert s[u..] == [s[u]] + s[u + 1..];
    assert s == s[..d + 1] + s[d + 1..u] + s[u..];
  }

  /** With no '.', the building id is the prefix before the first '_'. */
  lemma SplitNoDot(gid: GmlId, u: nat)
    requires '.' !in gid
    requires u < |gid| && gid[u] == '_' && forall i :: 0 <= i < u ==> gid[i] != '_'
    ensures BuildingIdOf(gid) == gid[..u]
    ensures PartIdOf(gid) == gid[u + 1..]
  {
    var unders := FindFirst(gid, '_');
    assert unders == u;
    assert FindLast(gid, '.') == NPOS;
    assert SizeT(NPOS + 1) == 0;
    assert SizeT(u - NPOS - 1) == u;
  }

  /** With no '_', the part id is the whole id and the building id is the
      text after the last '.' (all of it when there is no '.'). */
  lemma SplitNoUnderscore(gid: GmlId)
    requires '_' !in gid
    ensures PartIdOf(gid) == gid
    ensures '.' !in gid ==> BuildingIdOf(gid) == gid
    ensures forall d :: 0 <= d < |gid| && gid[d] == '.' && (forall i :: d < i < |gid| ==> gid[i] != '.') ==>
      BuildingIdOf(gid) == gid[d + 1..]
  {
    assert FindFirst(gid, '_') == NPOS;
    assert SizeT(NPOS + 1) == 0;
    var lastDot := FindLast(gid, '.');
    if lastDot == NPOS {
      assert SizeT(NPOS - NPOS - 1) == NPOS;
    } else {
      assert SizeT(NPOS - lastDot - 1) == NPOS - lastDot - 1;
    }
  }

  /** When the first '_' comes before the last '.', the size_t count wraps and
      the building id runs from the last '.' to the end of the id. */
  lemma SplitUnderscoreBeforeDot(gid: GmlId, d: nat, u: nat)
    requires u < d < |gid| && gid[d] == '.' && gid[u] == '_'
    requires forall i :: d < i < |gid| ==> gid[i] != '.'
    requires forall i :: 0 <= i < u ==> gid[i] != '_'
    ensures BuildingIdOf(gid) == gid[d + 1..]
  {
    assert FindLast(gid, '.') == d;
    assert FindFirst(gid, '_') == u;
    assert SizeT(u - d - 1) == NPOS + 1 + u - d - 1;
  }

  // ---------------------------------------------------------------------------
  // Points and boxes
  // ---------------------------------------------------------------------------

  datatype Point = Point(x: real, y: real)

  /** std::numeric_limits<float>::max(), the sentinel of an empty box. */
  const FLT_MAX: real := 340282346638528859811704183484516925440.0

  function Min(a: real, b: real): real { if b < a then b else a }
  function Max(a: real, b: real): real { if a < b then b else a }

  /** glm::min and glm::max, componentwise. */
  function PMin(a: Point, b: Point): Point { Point(Min(a.x, b.x), Min(a.y, b.y)) }
  function PMax(a: Point, b: Point): Point { Point(Max(a.x, b.x), Max(a.y, b.y)) }

  datatype Box = Box(lo: Point, hi: Point)

  /** The box nothing has been added to: lo at float max, hi at float lowest. */
  const EmptyBox: Box := Box(Point(FLT_MAX, FLT_MAX), Point(-FLT_MAX, -FLT_MAX))

  /** The box folded over pts in order. */
  function BoxOf(pts: seq<Point>): Box
  {
    if |pts| == 0 then EmptyBox
    else
      var b := BoxOf(pts[..|pts| - 1]);
      Box(PMin(b.lo, pts[|pts| - 1]), PMax(b.hi, pts[|pts| - 1]))
  }

  predicate Contains(b: Box, p: Point)
  {
    b.lo.x <= p.x <= b.hi.x && b.lo.y <= p.y <= b.hi.y
  }

  predicate InFloatRange(p: Point)
  {
    -FLT_MAX <= p.x <= FLT_MAX && -FLT_MAX <= p.y <= FLT_MAX
  }

  /** The box of a part's exterior, the loop at the head of addBuildingPart. */
  method PartBox(exterior: seq<Point>) returns (b: Box)
    ensures b == BoxOf(exterior)
  {
    b := EmptyBox;
    var i := 0;
    while i < |exterior|
      invariant i <= |exterior|
      invariant b == BoxOf(exterior[..i])
    {
      assert exterior[..i + 1][..i] == exterior[..i];
      b := Box(PMin(b.lo, exterior[i]), PMax(b.hi, exterior[i]));
      i := i + 1;
    }
    assert exterior[..i] == exterior;
  }

  /** Every point lies in the box, and the box stays within the sentinels. */
  lemma {:induction false} BoxBounds(pts: seq<Point>)
    ensures forall p :: p in pts ==> Contains(BoxOf(pts), p)
    ensures BoxOf(pts).lo.x <= FLT_MAX && BoxOf(pts).lo.y <= FLT_MAX
    ensures BoxOf(pts).hi.x >= -FLT_MAX && BoxOf(pts).hi.y >= -FLT_MAX
  {
    if |pts| > 0 {
      var init := pts[..|pts| - 1];
      BoxBounds(init);
      forall p | p in pts
        ensures Contains(BoxOf(pts), p)
      {
        if p != pts[|pts| - 1] {
          assert p in init;
        }
      }
    }
  }

  /** Each bound of a non-empty box in float range is a coordinate of some
      point, so the box is the smallest containing all points. */
  lemma {:induction false} BoxAttained(pts: seq<Point>)
    requires |pts| > 0
    requires forall p :: p in pts ==> InFloatRange(p)
    ensures exists p :: p in pts && BoxOf(pts).lo.x == p.x
    ensures exists p :: p in pts && BoxOf(pts).lo.y == p.y
    ensures exists p :: p in pts && BoxOf(pts).hi.x == p.x
    ensures exists p :: p in pts && BoxOf(pts).hi.y == p.y
  {
    var last := pts[|pts| - 1];
    var init := pts[..|pts| - 1];
    var b := BoxOf(pts);
    assert last in pts;
    if |init| == 0 {
      assert init == [] && BoxOf(init) == EmptyBox;
      assert InFloatRange(last);
      assert b.lo == last && b.hi == last;
    } else {
      assert forall p :: p in init ==> p in pts;
      BoxAttained(init);
      var bi := BoxOf(init);
      var p1 :| p1 in init && bi.lo.x == p1.x;
      var p2 :| p2 in init && bi.lo.y == p2.y;
      var p3 :| p3 in init && bi.hi.x == p3.x;
      var p4 :| p4 in init && bi.hi.y == p4.y;
      assert b.lo.x == p1.x || b.lo.x == last.x;
      assert b.lo.y == p2.y || b.lo.y == last.y;
      assert b.hi.x == p3.x || b.hi.x == last.x;
      assert b.hi.y == p4.y || b.hi.y == last.y;
    }
  }

  // ---------------------------------------------------------------------------
  // The ordered building map
  // ---------------------------------------------------------------------------

  datatype BuildingPart = BuildingPart(id: string, exterior: seq<Point>)

  datatype Building = Building(id: string, min: Point, max: Point, parts: seq<BuildingPart>)

  datatype Entry = Entry(key: string, building: Building)

  /** std::string's operator<: lexicographic on character codes. */
  predicate LexLess(a: string, b: string)
  {
    if |a| == 0 then |b| > 0
    else if |b| == 0 then false
    else if a[0] < b[0] then true
    else if a[0] == b[0] then LexLess(a[1..], b[1..])
    else false
  }

  lemma {:induction false} LexLessIrreflexive(a: string)
    ensures !LexLess(a, a)
  {
    if |a| > 0 {
      LexLessIrreflexive(a[1..]);
    }
  }

  lemma {:induction false} LexLessTransitive(a: string, b: string, c: string)
    requires LexLess(a, b) && LexLess(b, c)
    ensures LexLess(a, c)
  {
    if |a| > 0 && |b| > 0 && |c| > 0 && a[0] == b[0] && b[0] == c[0] {
      LexLessTransitive(a[1..], b[1..], c[1..]);
    }
  }

  lemma {:induction false} LexLessTotal(a: string, b: string)
    requires a != b
    ensures LexLess(a, b) || LexLess(b, a)
  {
    if |a| > 0 && |b| > 0 && a[0] == b[0] {
      assert a == [a[0]] + a[1..] && b == [b[0]] + b[1..];
      LexLessTotal(a[1..], b[1..]);
    }
  }

  /** Keys strictly ascending: the map's iteration order. */
  predicate SortedKeys(c: seq<Entry>)
  {
    forall i, j :: 0 <= i < j < |c| ==> LexLess(c[i].key, c[j].key)
  }

  /** Every entry holds the building with its own key as id. */
  predicate KeysMatch(c: seq<Entry>)
  {
    forall i :: 0 <= i < |c| ==> c[i].key == c[i].building.id
  }

  function KeySet(c: seq<Entry>): set<string>
  {
    if |c| == 0 then {} else {c[0].key} + KeySet(c[1..])
  }

  lemma {:induction false} KeySetIndex(c: seq<Entry>, k: string)
    ensures k in KeySet(c) <==> exists i :: 0 <= i < |c| && c[i].key == k
  {
    if |c| > 0 {
      KeySetIndex(c[1..], k);
      if k in KeySet(c[1..]) {
        var i :| 0 <= i < |c[1..]| && c[1..][i].key == k;
        assert c[i + 1].key == k;
      }
      if exists i :: 0 <= i < |c| && c[i].key == k {
        var i :| 0 <= i < |c| && c[i].key == k;
        if i > 0 {
          assert c[1..][i - 1].key == k;
        }
      }
    }
  }

  /** find: the building stored under k. */
  function Get(c: seq<Entry>, k: string): (r: Option<Building>)
    ensures r.Some? <==> k in KeySet(c)
  {
    if |c| == 0 then None
    else if c[0].key == k then Some(c[0].building)
    else
      Get(c[1..], k)
  }

  /** c[k] = b: replaces the entry for k, or inserts one in key order. */
  function Put(c: seq<Entry>, k: string, b: Building): seq<Entry>
  {
    if |c| == 0 then [Entry(k, b)]
    else if c[0].key == k then [Entry(k, b)] + c[1..]
    else if LexLess(k, c[0].key) then [Entry(k, b)] + c
    else [c[0]] + Put(c[1..], k, b)
  }

  lemma {:induction false} PutKeys(c: seq<Entry>, k: string, b: Building)
    ensures KeySet(Put(c, k, b)) == KeySet(c) + {k}
  {
    if |c| > 0 {
      if c[0].key == k {
        assert Put(c, k, b)[1..] == c[1..];
      } else if LexLess(k, c[0].key) {
        assert Put(c, k, b)[1..] == c;
      } else {
        PutKeys(c[1..], k, b);
        assert Put(c, k, b)[1..] == Put(c[1..], k, b);
      }
    }
  }

  lemma {:induction false} PutSorted(c: seq<Entry>, k: string, b: Building)
    requires SortedKeys(c)
    ensures SortedKeys(Put(c, k, b))
  {
    var r := Put(c, k, b);
    if |c| > 0 {
      if c[0].key == k {
        assert forall i :: 0 < i < |r| ==> r[i] == c[i];
      } else if LexLess(k, c[0].key) {
        forall i, j | 0 <= i < j < |r|
          ensures LexLess(r[i].key, r[j].key)
        {
          if i == 0 && j > 1 {
            LexLessTransitive(k, c[0].key, c[j - 1].key);
          }
        }
      } else {
        LexLessTotal(k, c[0].key);
        PutSorted(c[1..], k, b);
        PutAfterHead(c, k, b);
      }
    }
  }

  /** When k sorts after the first key, every key of the rest after the
      insertion still sorts after the first key. */
  lemma PutAfterHead(c: seq<Entry>, k: string, b: Building)
    requires SortedKeys(c) && |c| > 0 && LexLess(c[0].key, k)
    ensures forall j :: 0 <= j < |Put(c[1..], k, b)| ==> LexLess(c[0].key, Put(c[1..], k, b)[j].key)
  {
    var t := Put(c[1..], k, b);
    PutKeys(c[1..], k, b);
    forall j | 0 <= j < |t|
      ensures LexLess(c[0].key, t[j].key)
    {
      KeySetIndex(t, t[j].key);
      if t[j].key != k {
        KeySetIndex(c[1..], t[j].key);
        var m :| 0 <= m < |c[1..]| && c[1..][m].key == t[j].key;
        assert c[m + 1].key == t[j].key;
      }
    }
  }

  lemma {:induction false} PutGet(c: seq<Entry>, k: string, b: Building, k': string)
    requires SortedKeys(c)
    ensures Get(Put(c, k, b), k') == if k' == k then Some(b) else Get(c, k')
  {
    if |c| > 0 && c[0].key != k && !LexLess(k, c[0].key) {
      PutGet(c[1..], k, b, k');
    } else if |c| > 0 && c[0].key != k && k' == k {
      // k goes first; it is not among the keys of c, all greater than it.
      assert Get(Put(c, k, b), k') == Some(b);
    }
  }

  lemma {:induction false} PutKeysMatch(c: seq<Entry>, k: string, b: Building)
    requires KeysMatch(c) && b.id == k
    ensures KeysMatch(Put(c, k, b))
  {
    var r := Put(c, k, b);
    if |c| > 0 && c[0].key != k && !LexLess(k, c[0].key) {
      PutKeysMatch(c[1..], k, b);
      assert forall i :: 0 < i < |r| ==> r[i] == Put(c[1..], k, b)[i - 1];
    } else if |c| > 0 && c[0].key == k {
      assert forall i :: 0 < i < |r| ==> r[i] == c[i];
    } else if |c| > 0 {
      assert forall i :: 0 < i < |r| ==> r[i] == c[i - 1];
    }
  }

  // ---------------------------------------------------------------------------
  // addBuildingPart
  // ---------------------------------------------------------------------------

  /** The building after a part with box pb is added to b: the box widens and
      the part is appended. */
  function Widened(b: Building, pb: Box, bp: BuildingPart): Building
  {
    Building(b.id, PMin(b.min, pb.lo), PMax(b.max, pb.hi), b.parts + [bp])
  }

  /** The map after addBuildingPart(c, id, bp). */
  function AddPart(c: seq<Entry>, id: string, bp: BuildingPart): seq<Entry>
  {
    var pb := BoxOf(bp.exterior);
    match Get(c, id)
    case None => Put(c, id, Building(id, pb.lo, pb.hi, [bp]))
    case Some(b) => Put(c, id, Widened(b, pb, bp))
  }

  /** addBuildingPart: the part's box, then a new building or a widened one. */
  method AddBuildingPart(c: seq<Entry>, id: string, bp: BuildingPart) returns (c': seq<Entry>)
    requires SortedKeys(c) && KeysMatch(c)
    ensures c' == AddPart(c, id, bp)
    ensures SortedKeys(c') && KeysMatch(c')
    ensures KeySet(c') == KeySet(c) + {id}
    ensures Get(c, id).None? ==>
      Get(c', id) == Some(Building(id, BoxOf(bp.exterior).lo, BoxOf(bp.exterior).hi, [bp]))
    ensures Get(c, id).Some? ==>
      Get(c', id) == Some(Widened(Get(c, id).value, BoxOf(bp.exterior), bp))
    ensures forall k :: k != id ==> Get(c', k) == Get(c, k)
  {
    var pb := PartBox(bp.exterior);
    var found := Get(c, id);
    var b: Building;
    if found.None? {
      b := Building(id, pb.lo, pb.hi, [bp]);
    } else {
      b := Widened(found.value, pb, bp);
      GetKeysMatch(c, id);
    }
    c' := Put(c, id, b);
    PutSorted(c, id, b);
    PutKeysMatch(c, id, b);
    PutKeys(c, id, b);
    forall k ensures Get(c', k) == if k == id then Some(b) else Get(c, k) {
      PutGet(c, id, b, k);
    }
  }

  lemma {:induction false} GetKeysMatch(c: seq<Entry>, k: string)
    requires KeysMatch(c) && Get(c, k).Some?
    ensures Get(c, k).value.id == k
  {
    if c[0].key != k {
      assert KeysMatch(c[1..]) by {
        assert forall i :: 0 <= i < |c| - 1 ==> c[1..][i] == c[i + 1];
      }
      GetKeysMatch(c[1..], k);
    }
  }

  // ---------------------------------------------------------------------------
  // readBuildings
  // ---------------------------------------------------------------------------

  /** A building part as the XML traversal yields it: its gml:id, the exterior
      ring of its last posList, and the srsName of each of its surfaces. */
  datatype PartRecord = PartRecord(gid: GmlId, exterior: seq<Point>, srsNames: seq<string>)

  datatype City = City(min: Point, max: Point, srs: string, buildings: seq<Building>)

  /** The City a failed load returns: the member initialisers of the header
      declaring City give no buildings, no coordinate system and a box at the
      origin. */
  const DefaultCity: City := City(Point(0.0, 0.0), Point(0.0, 0.0), "", [])

  function PartOf(r: PartRecord): BuildingPart
  {
    BuildingPart(PartIdOf(r.gid), r.exterior)
  }

  /** The building map after the parts recs were added in order. */
  function Collect(recs: seq<PartRecord>): seq<Entry>
  {
    if |recs| == 0 then []
    else
      var r := recs[|recs| - 1];
      AddPart(Collect(recs[..|recs| - 1]), BuildingIdOf(r.gid), PartOf(r))
  }

  /** The coordinate system: the first non-empty srsName met, or empty. */
  function SrsOf(names: seq<string>, current: string): string
  {
    if |names| == 0 then current
    else SrsOf(names[1..], if current == "" then names[0] else current)
  }

  function CoordinateSystem(recs: seq<PartRecord>): string
  {
    if |recs| == 0 then ""
    else SrsOf(recs[|recs| - 1].srsNames, CoordinateSystem(recs[..|recs| - 1]))
  }

  /** The box of the buildings of c, folded in key order. */
  function CityBox(c: seq<Entry>): Box
  {
    if |c| == 0 then EmptyBox
    else
      var b := CityBox(c[..|c| - 1]);
      Box(PMin(b.lo, c[|c| - 1].building.min), PMax(b.hi, c[|c| - 1].building.max))
  }

  function BuildingsOf(c: seq<Entry>): (bs: seq<Building>)
    ensures |bs| == |c| && forall i :: 0 <= i < |c| ==> bs[i] == c[i].building
  {
    if |c| == 0 then [] else BuildingsOf(c[..|c| - 1]) + [c[|c| - 1].building]
  }

  function CityOf(c: seq<Entry>, srs: string): City
  {
    var b := CityBox(c);
    City(b.lo, b.hi, srs, BuildingsOf(c))
  }

  /** The srsName loop of one part: the first non-empty name is kept. */
  method UpdateSrs(names: seq<string>, current: string) returns (srs: string)
    ensures srs == SrsOf(names, current)
  {
    srs := current;
    var j := 0;
    while j < |names|
      invariant j <= |names|
      invariant SrsOf(names[j..], srs) == SrsOf(names, current)
    {
      assert names[j..][1..] == names[j + 1..];
      if srs == "" {
        srs := names[j];
      }
      j := j + 1;
    }
  }

  /** The final loop of readBuildings: the buildings in key order and their box. */
  method CityFromMap(c: seq<Entry>, srs: string) returns (city: City)
    ensures city == CityOf(c, srs)
  {
    var box := EmptyBox;
    var k := 0;
    var buildings: seq<Building> := [];
    while k < |c|
      invariant k <= |c|
      invariant box == CityBox(c[..k])
      invariant buildings == BuildingsOf(c[..k])
    {
      assert c[..k + 1][..k] == c[..k];
      box := Box(PMin(box.lo, c[k].building.min), PMax(box.hi, c[k].building.max));
      buildings := buildings + [c[k].building];
      k := k + 1;
    }
    assert c[..k] == c;
    city := City(box.lo, box.hi, srs, buildings);
  }

  /** readBuildings over a loaded document, or None when loading failed. */
  method ReadBuildings(doc: Option<seq<PartRecord>>) returns (city: City)
    ensures doc.None? ==> city == DefaultCity
    ensures doc.Some? ==> city == CityOf(Collect(doc.value), CoordinateSystem(doc.value))
  {
    if doc.None? {
      return DefaultCity;
    }
    var recs := doc.value;
    var c: seq<Entry> := [];
    var srs := "";
    var i := 0;
    while i < |recs|
      invariant i <= |recs|
      invariant c == Collect(recs[..i]) && SortedKeys(c) && KeysMatch(c)
      invariant srs == CoordinateSystem(recs[..i])
    {
      var r := recs[i];
      assert recs[..i + 1][..i] == recs[..i];
      srs := UpdateSrs(r.srsNames, srs);
      c := AddBuildingPart(c, BuildingIdOf(r.gid), PartOf(r));
      i := i + 1;
    }
    assert recs[..i] == recs;
    city := CityFromMap(c, srs);
  }

  /** The map built by readBuildings is ordered and keyed by building id. */
  lemma {:induction false} CollectWellFormed(recs: seq<PartRecord>)
    ensures SortedKeys(Collect(recs)) && KeysMatch(Collect(recs))
  {
    if |recs| > 0 {
      var init := recs[..|recs| - 1];
      var r := recs[|recs| - 1];
      CollectWellFormed(init);
      var c := Collect(init);
      var id := BuildingIdOf(r.gid);
      var bp := PartOf(r);
      var pb := BoxOf(bp.exterior);
      var b := (if Get(c, id).None? then Building(id, pb.lo, pb.hi, [bp])
                else Widened(Get(c, id).value, pb, bp));
      if Get(c, id).Some? {
        GetKeysMatch(c, id);
      }
      assert Collect(recs) == Put(c, id, b);
      PutSorted(c, id, b);
      PutKeysMatch(c, id, b);
    }
  }

  /** The city lists its buildings in strictly ascending id order. */
  lemma CityAscending(recs: seq<PartRecord>)
    ensures var bs := CityOf(Collect(recs), CoordinateSystem(recs)).buildings;
      forall i, j :: 0 <= i < j < |bs| ==> LexLess(bs[i].id, bs[j].id)
  {
    CollectWellFormed(recs);
  }

  /** The parts of rs whose gml:id names building id, in document order. */
  function PartsFor(rs: seq<PartRecord>, id: string): seq<BuildingPart>
  {
    if |rs| == 0 then []
    else
      var last := rs[|rs| - 1];
      var mine := if BuildingIdOf(last.gid) == id then [PartOf(last)] else [];
      PartsFor(rs[..|rs| - 1], id) + mine
  }

  /** Grouping: a building is present exactly when some part names it, and
      it holds exactly the parts naming it, in document order. */
  lemma {:induction false} CollectGroups(recs: seq<PartRecord>, id: string)
    ensures Get(Collect(recs), id).Some? <==> PartsFor(recs, id) != []
    ensures Get(Collect(recs), id).Some? ==>
      Get(Collect(recs), id).value.parts == PartsFor(recs, id) &&
      Get(Collect(recs), id).value.id == id
  {
    if |recs| > 0 {
      var init := recs[..|recs| - 1];
      var r := recs[|recs| - 1];
      CollectGroups(init, id);
      CollectWellFormed(init);
      var c := Collect(init);
      var rid := BuildingIdOf(r.gid);
      var bp := PartOf(r);
      var pb := BoxOf(bp.exterior);
      var b := (if Get(c, rid).None? then Building(rid, pb.lo, pb.hi, [bp])
                else Widened(Get(c, rid).value, pb, bp));
      if Get(c, rid).Some? {
        GetKeysMatch(c, rid);
      }
      assert Collect(recs) == Put(c, rid, b);
      PutGet(c, rid, b, id);
    }
  }

  /** The city box reaches at least as low as every building's min corner and
      at least as high as every building's max corner. */
  lemma {:induction false} CityBoxBounds(c: seq<Entry>)
    ensures forall i :: 0 <= i < |c| ==>
      CityBox(c).lo.x <= c[i].building.min.x && CityBox(c).lo.y <= c[i].building.min.y &&
      CityBox(c).hi.x >= c[i].building.max.x && CityBox(c).hi.y >= c[i].building.max.y
  {
    if |c| > 0 {
      var init := c[..|c| - 1];
      CityBoxBounds(init);
      assert forall i :: 0 <= i < |init| ==> init[i] == c[i];
    }
  }
}
