/** GeoTIFF metadata: the GeoKeyDirectoryTag decoder (section 2.4 of the
    GeoTIFF 1.0 specification, OGC 19-008r4) and the key-by-key dispatch that
    fills a GeoTiffMetadata record from the directory, using the code values of
    section 6.3 of GeoTIFF 1.0. The raw TIFF tag arrays are sequences; an absent
    array (nullptr in C++) is None. */
module GeoTiff {
  import opened Wrappers

  type uint16 = x: int | 0 <= x < 0x1_0000

  // ---------------------------------------------------------------------------
  // The directory and its decoder
  // ---------------------------------------------------------------------------

  datatype Header = Header(dirVersion: uint16, keyRevision: uint16, minorRevision: uint16, numKeys: uint16)

  /** One GeoKey entry: the key, where its value lives, how many values, and
      the index of the first value (or the value itself when tagLocation is 0). */
  datatype Key = Key(keyID: uint16, tagLocation: uint16, count: uint16, index: uint16)

  datatype GeoKeyDirectory = GeoKeyDirectory(header: Header, keys: seq<Key>)

  /** The tag array is long enough for the header and the numKeys entries it announces. */
  predicate HoldsDirectory(data: seq<uint16>)
  {
    |data| >= 4 && |data| >= 4 + 4 * (data[3] as int)
  }

  /** Entry i of the key table, four words after the header. */
  function KeyAt(data: seq<uint16>, i: nat): Key
    requires 4 + 4 * i + 4 <= |data|
  {
    Key(data[4 + 4 * i], data[5 + 4 * i], data[6 + 4 * i], data[7 + 4 * i])
  }

  /** The first n entries of the key table, in order. */
  function KeysOf(data: seq<uint16>, n: nat): (ks: seq<Key>)
    requires 4 + 4 * n <= |data|
    ensures |ks| == n
    ensures forall i :: 0 <= i < n ==> ks[i] == KeyAt(data, i)
  {
    if n == 0 then [] else KeysOf(data, n - 1) + [KeyAt(data, n - 1)]
  }

  /** The directory the tag array describes. */
  function Decoded(data: seq<uint16>): GeoKeyDirectory
    requires HoldsDirectory(data)
  {
    GeoKeyDirectory(Header(data[0], data[1], data[2], data[3]), KeysOf(data, data[3]))
  }

  /** readGeoKeyDirectory: copy the header words and push one Key per announced entry. */
  method ReadGeoKeyDirectory(data: seq<uint16>) returns (gkd: GeoKeyDirectory)
    requires HoldsDirectory(data)
    ensures gkd == Decoded(data)
    ensures |gkd.keys| == gkd.header.numKeys
  {
    var header := Header(data[0], data[1], data[2], data[3]);
    var keys: seq<Key> := [];
    var i := 0;
    while i < header.numKeys
      invariant 0 <= i <= header.numKeys
      invariant keys == KeysOf(data, i)
    {
      var key := Key(data[4 + i * 4], data[5 + i * 4], data[6 + i * 4], data[7 + i * 4]);
      keys := keys + [key];
      i := i + 1;
    }
    gkd := GeoKeyDirectory(header, keys);
  }

  /** The words of a key table, four per key, in order. */
  function KeyWords(ks: seq<Key>): (ws: seq<uint16>)
    ensures |ws| == 4 * |ks|
  {
    if ks == [] then []
    else
      var k := ks[|ks| - 1];
      KeyWords(ks[..|ks| - 1]) + [k.keyID, k.tagLocation, k.count, k.index]
  }

  /** The tag array that stores a directory: the inverse of Decoded. */
  function Encode(g: GeoKeyDirectory): (ws: seq<uint16>)
  {
    [g.header.dirVersion, g.header.keyRevision, g.header.minorRevision, g.header.numKeys] + KeyWords(g.keys)
  }

  /** A directory whose header counts its keys. */
  predicate Consistent(g: GeoKeyDirectory)
  {
    g.header.numKeys == |g.keys|
  }

  lemma {:induction false} KeyWordsAt(ks: seq<Key>, i: nat)
    requires i < |ks|
    ensures KeyWords(ks)[4 * i..4 * i + 4] == [ks[i].keyID, ks[i].tagLocation, ks[i].count, ks[i].index]
    decreases |ks|
  {
    var init := ks[..|ks| - 1];
    if i < |ks| - 1 {
      KeyWordsAt(init, i);
      assert init[i] == ks[i];
      assert KeyWords(ks)[4 * i..4 * i + 4] == KeyWords(init)[4 * i..4 * i + 4];
    }
  }

  /** Decoding the encoding of a consistent directory gives the directory back. */
  lemma DecodeEncode(g: GeoKeyDirectory)
    requires Consistent(g)
    ensures HoldsDirectory(Encode(g))
    ensures Decoded(Encode(g)) == g
  {
    var ws := Encode(g);
    var ks := KeysOf(ws, |g.keys|);
    forall i | 0 <= i < |g.keys|
      ensures ks[i] == g.keys[i]
    {
      KeyWordsAt(g.keys, i);
      assert ws[4 + 4 * i..8 + 4 * i] == KeyWords(g.keys)[4 * i..4 * i + 4];
    }
  }

  /** Encoding what was decoded gives back exactly the words the decoder read. */
  lemma EncodeDecode(data: seq<uint16>)
    requires HoldsDirectory(data)
    ensures Encode(Decoded(data)) == data[..4 + 4 * (data[3] as int)]
  {
    KeyWordsOfKeys(data, data[3]);
    assert data[..4 + 4 * (data[3] as int)] == data[..4] + data[4..4 + 4 * (data[3] as int)];
  }

  lemma KeyWordsOfKeys(data: seq<uint16>, n: nat)
    requires 4 + 4 * n <= |data|
    ensures KeyWords(KeysOf(data, n)) == data[4..4 + 4 * n]
  {
    KeyWordsSlices(data, KeysOf(data, n));
  }

  /** Keys read in order from data encode to the words they were read from. */
  lemma {:induction false} KeyWordsSlices(data: seq<uint16>, ks: seq<Key>)
    requires 4 + 4 * |ks| <= |data|
    requires forall i :: 0 <= i < |ks| ==> ks[i] == KeyAt(data, i)
    ensures KeyWords(ks) == data[4..4 + 4 * |ks|]
  {
    if |ks| > 0 {
      var n := |ks|;
      var m := 4 * (n - 1);
      var init := ks[..n - 1];
      KeyWordsSlices(data, init);
      var k := ks[n - 1];
      assert KeyWords(ks) == KeyWords(init) + [k.keyID, k.tagLocation, k.count, k.index];
      KeyAtWords(data, n - 1, m);
      SliceSplit(data, 4, 4 + m, 8 + m);
    }
  }

  /** The four words of key i are the slice of data it was read from. */
  lemma KeyAtWords(data: seq<uint16>, i: nat, m: nat)
    requires m == 4 * i && 8 + m <= |data|
    ensures var k := KeyAt(data, i);
      [k.keyID, k.tagLocation, k.count, k.index] == data[4 + m..8 + m]
  {
  }

  lemma SliceSplit<T>(s: seq<T>, a: nat, b: nat, c: nat)
    requires a <= b <= c <= |s|
    ensures s[a..c] == s[a..b] + s[b..c]
  {
  }

  // ---------------------------------------------------------------------------
  // The metadata record and the key dispatch
  // ---------------------------------------------------------------------------

  datatype ProjectionType = Unknown | ModelTypeProjected | ModelTypeGeographic | ModelTypeGeocentric
  datatype GeodeticCRS = UnknownCRS | GCS_EUREF89
  datatype AngularUnits = UnknownAngular | Angular_Degree | Angular_Radian
  datatype Ellipsoid = UnknownEllipsoid | Ellipse_GRS_1980
  datatype ProjectedCSType = UnknownPCS | ETRS89_UTM_30N
  datatype LinearUnits = UnknownLinear | Linear_Meter

  /** The fields of GeoTiffMetadata that the key directory fills. The TIFF
      doubles are copied, never computed with, so they are reals here. */
  datatype Metadata = Metadata(
    modelType: ProjectionType,
    rasterPixelIsArea: bool,
    citation: string,
    geodeticCRS: GeodeticCRS,
    angularUnits: AngularUnits,
    ellipsoid: Ellipsoid,
    semiMajorAxis: real,
    semiMinorAxis: real,
    invFlattening: real,
    projectedCSType: ProjectedCSType,
    projectedCSCitation: string,
    projectedLinearUnits: LinearUnits,
    verticalUnits: LinearUnits)

  /** The member initialisers of GeoTiffMetadata. */
  function DefaultMetadata(): Metadata
  {
    Metadata(Unknown, false, "", UnknownCRS, UnknownAngular, UnknownEllipsoid, 0.0, 0.0, 0.0,
             UnknownPCS, "", UnknownLinear, UnknownLinear)
  }

  /** The metadata fields, one per kind of key that writes something. */
  datatype Field =
    | ModelTypeField | RasterTypeField | CitationField | GeodeticCRSField | AngularUnitsField
    | EllipsoidField | SemiMajorField | SemiMinorField | InvFlatteningField | ProjectedCSField
    | PCSCitationField | ProjLinearUnitsField | VerticalUnitsField

  /** The field a key id writes; None for ids the dispatch skips (listed no-ops and unlisted ids). */
  function FieldOf(keyID: uint16): Option<Field>
  {
    match keyID
    case 1024 => Some(ModelTypeField)
    case 1025 => Some(RasterTypeField)
    case 1026 => Some(CitationField)
    case 2048 => Some(GeodeticCRSField)
    case 2054 => Some(AngularUnitsField)
    case 2056 => Some(EllipsoidField)
    case 2057 => Some(SemiMajorField)
    case 2058 => Some(SemiMinorField)
    case 2059 => Some(InvFlatteningField)
    case 3072 => Some(ProjectedCSField)
    case 3073 => Some(PCSCitationField)
    case 3076 => Some(ProjLinearUnitsField)
    case 4099 => Some(VerticalUnitsField)
    case _ => None
  }

  /** a and b agree on field f. */
  predicate SameOn(a: Metadata, b: Metadata, f: Field)
  {
    match f
    case ModelTypeField => a.modelType == b.modelType
    case RasterTypeField => a.rasterPixelIsArea == b.rasterPixelIsArea
    case CitationField => a.citation == b.citation
    case GeodeticCRSField => a.geodeticCRS == b.geodeticCRS
    case AngularUnitsField => a.angularUnits == b.angularUnits
    case EllipsoidField => a.ellipsoid == b.ellipsoid
    case SemiMajorField => a.semiMajorAxis == b.semiMajorAxis
    case SemiMinorField => a.semiMinorAxis == b.semiMinorAxis
    case InvFlatteningField => a.invFlattening == b.invFlattening
    case ProjectedCSField => a.projectedCSType == b.projectedCSType
    case PCSCitationField => a.projectedCSCitation == b.projectedCSCitation
    case ProjLinearUnitsField => a.projectedLinearUnits == b.projectedLinearUnits
    case VerticalUnitsField => a.verticalUnits == b.verticalUnits
  }

  /** GTModelTypeGeoKey: codes 1, 2, 3 of section 6.3.1.1; any other code keeps the previous value. */
  function ModelTypeOf(code: uint16, previous: ProjectionType): (t: ProjectionType)
    ensures code in {1, 2, 3} ==> t == [ModelTypeProjected, ModelTypeGeographic, ModelTypeGeocentric][code - 1]
    ensures code !in {1, 2, 3} ==> t == previous
  {
    if code == 1 then ModelTypeProjected
    else if code == 2 then ModelTypeGeographic
    else if code == 3 then ModelTypeGeocentric
    else previous
  }

  /** GeographicTypeGeoKey: only EPSG 4258 is recognised. */
  function GeodeticCRSOf(code: uint16): (c: GeodeticCRS)
    ensures c == GCS_EUREF89 <==> code == 4258
  {
    if code == 4258 then GCS_EUREF89 else UnknownCRS
  }

  /** GeogAngularUnitsGeoKey: 9101 is radian, 9102 is degree. */
  function AngularUnitsOf(code: uint16): (u: AngularUnits)
    ensures u == Angular_Radian <==> code == 9101
    ensures u == Angular_Degree <==> code == 9102
  {
    if code == 9101 then Angular_Radian else if code == 9102 then Angular_Degree else UnknownAngular
  }

  /** GeogEllipsoidGeoKey: only 7019 (GRS 1980) is recognised. */
  function EllipsoidOf(code: uint16): (e: Ellipsoid)
    ensures e == Ellipse_GRS_1980 <==> code == 7019
  {
    if code == 7019 then Ellipse_GRS_1980 else UnknownEllipsoid
  }

  /** ProjectedCSTypeGeoKey: only 25830 (ETRS89 / UTM zone 30N) is recognised. */
  function ProjectedCSTypeOf(code: uint16): (p: ProjectedCSType)
    ensures p == ETRS89_UTM_30N <==> code == 25830
  {
    if code == 25830 then ETRS89_UTM_30N else UnknownPCS
  }

  /** ProjLinearUnitsGeoKey and VerticalUnitsGeoKey: only 9001 (metre) is recognised. */
  function LinearUnitsOf(code: uint16): (u: LinearUnits)
    ensures u == Linear_Meter <==> code == 9001
  {
    if code == 9001 then Linear_Meter else UnknownLinear
  }

  /** What the dispatch demands of a key: the asserted shape of the double-valued
      keys, and a citation range inside the ASCII parameters. */
  predicate KeyAdmissible(key: Key, doubles: Option<seq<real>>, ascii: Option<string>)
  {
    && (key.keyID in {2057, 2058, 2059} ==>
          key.tagLocation == 34736 && key.count == 1 && doubles.Some? && key.index < |doubles.value|)
    && (key.keyID in {1026, 3073} && ascii.Some? ==>
          1 <= key.count && key.index + key.count - 1 <= |ascii.value|)
  }

  predicate AllAdmissible(keys: seq<Key>, doubles: Option<seq<real>>, ascii: Option<string>)
  {
    forall i :: 0 <= i < |keys| ==> KeyAdmissible(keys[i], doubles, ascii)
  }

  /** The citation a key names: count - 1 characters from index, the counted terminator dropped. */
  function CitationOf(key: Key, text: string): (c: string)
    requires 1 <= key.count && key.index + key.count - 1 <= |text|
    ensures |c| == key.count - 1
    ensures forall i :: 0 <= i < |c| ==> c[i] == text[key.index + i]
  {
    text[key.index..key.index + key.count - 1]
  }

  /** One case of the switch in processGeoKeyDirectory. */
  function ApplyKey(md: Metadata, key: Key, doubles: Option<seq<real>>, ascii: Option<string>): (r: Metadata)
    requires KeyAdmissible(key, doubles, ascii)
    // a key writes at most the field its id names
    ensures forall f :: FieldOf(key.keyID) != Some(f) ==> SameOn(r, md, f)
    // the listed no-ops and every unlisted id leave the metadata unchanged
    ensures FieldOf(key.keyID).None? ==> r == md
  {
    match key.keyID
    case 1024 => md.(modelType := ModelTypeOf(key.index, md.modelType))
    case 1025 => md.(rasterPixelIsArea := key.index == 1)
    case 1026 => if ascii.Some? then md.(citation := CitationOf(key, ascii.value)) else md
    case 2048 => md.(geodeticCRS := GeodeticCRSOf(key.index))
    case 2054 => md.(angularUnits := AngularUnitsOf(key.index))
    case 2056 => md.(ellipsoid := EllipsoidOf(key.index))
    case 2057 => md.(semiMajorAxis := doubles.value[key.index])
    case 2058 => md.(semiMinorAxis := doubles.value[key.index])
    case 2059 => md.(invFlattening := doubles.value[key.index])
    case 3072 => md.(projectedCSType := ProjectedCSTypeOf(key.index))
    case 3073 => if ascii.Some? then md.(projectedCSCitation := CitationOf(key, ascii.value)) else md
    case 3076 => md.(projectedLinearUnits := LinearUnitsOf(key.index))
    case 4099 => md.(verticalUnits := LinearUnitsOf(key.index))
    case _ => md
  }

  /** The keys applied one after the other, in directory order. */
  function ProcessAll(md: Metadata, keys: seq<Key>, doubles: Option<seq<real>>, ascii: Option<string>): (r: Metadata)
    requires AllAdmissible(keys, doubles, ascii)
    // a directory of keys the dispatch skips leaves the metadata unchanged
    ensures (forall i :: 0 <= i < |keys| ==> FieldOf(keys[i].keyID).None?) ==> r == md
    decreases |keys|
  {
    if keys == [] then md
    else ApplyKey(ProcessAll(md, keys[..|keys| - 1], doubles, ascii), keys[|keys| - 1], doubles, ascii)
  }

  /** One pass of the loop body of processGeoKeyDirectory: the switch on the
      key id, updating the metadata in m. */
  method ApplyKeyInPlace(md: Metadata, key: Key, doubles: Option<seq<real>>, ascii: Option<string>)
    returns (m: Metadata)
    requires KeyAdmissible(key, doubles, ascii)
    ensures m == ApplyKey(md, key, doubles, ascii)
  {
    m := md;
    match key.keyID {
      case 1024 =>
        if key.index == 1 { m := m.(modelType := ModelTypeProjected); }
        else if key.index == 2 { m := m.(modelType := ModelTypeGeographic); }
        else if key.index == 3 { m := m.(modelType := ModelTypeGeocentric); }
      case 1025 => m := m.(rasterPixelIsArea := key.index == 1);
      case 1026 =>
        if ascii.Some? {
          m := m.(citation := ascii.value[key.index..key.index + key.count - 1]);
        }
      case 2048 => m := m.(geodeticCRS := if key.index == 4258 then GCS_EUREF89 else UnknownCRS);
      case 2054 =>
        m := m.(angularUnits :=
          if key.index == 9101 then Angular_Radian else if key.index == 9102 then Angular_Degree else UnknownAngular);
      case 2056 => m := m.(ellipsoid := if key.index == 7019 then Ellipse_GRS_1980 else UnknownEllipsoid);
      case 2057 => m := m.(semiMajorAxis := doubles.value[key.index]);
      case 2058 => m := m.(semiMinorAxis := doubles.value[key.index]);
      case 2059 => m := m.(invFlattening := doubles.value[key.index]);
      case 3072 => m := m.(projectedCSType := if key.index == 25830 then ETRS89_UTM_30N else UnknownPCS);
      case 3073 =>
        if ascii.Some? {
          m := m.(projectedCSCitation := ascii.value[key.index..key.index + key.count - 1]);
        }
      case 3076 => m := m.(projectedLinearUnits := if key.index == 9001 then Linear_Meter else UnknownLinear);
      case 4099 => m := m.(verticalUnits := if key.index == 9001 then Linear_Meter else UnknownLinear);
      case _ =>
    }
  }

  /** processGeoKeyDirectory: the metadata is passed by reference and updated
      key by key; here it goes in as md and comes out as md'. The short
      parameters are accepted and never read. */
  method ProcessGeoKeyDirectory(gkd: GeoKeyDirectory, shorts: Option<seq<uint16>>, doubles: Option<seq<real>>,
                                ascii: Option<string>, md: Metadata) returns (md': Metadata)
    requires AllAdmissible(gkd.keys, doubles, ascii)
    ensures md' == ProcessAll(md, gkd.keys, doubles, ascii)
  {
    md' := md;
    var i := 0;
    while i < |gkd.keys|
      invariant 0 <= i <= |gkd.keys|
      invariant md' == ProcessAll(md, gkd.keys[..i], doubles, ascii)
    {
      assert gkd.keys[..i + 1][..i] == gkd.keys[..i];
      md' := ApplyKeyInPlace(md', gkd.keys[i], doubles, ascii);
      i := i + 1;
    }
    assert gkd.keys[..i] == gkd.keys;
  }

  // ---------------------------------------------------------------------------
  // Properties of the dispatch
  // ---------------------------------------------------------------------------

  /** Processing a directory in two parts is processing the first part and then the second. */
  lemma {:induction false} ProcessAppend(md: Metadata, a: seq<Key>, b: seq<Key>, doubles: Option<seq<real>>, ascii: Option<string>)
    requires AllAdmissible(a + b, doubles, ascii)
    ensures AllAdmissible(a, doubles, ascii) && AllAdmissible(b, doubles, ascii)
    ensures ProcessAll(md, a + b, doubles, ascii) == ProcessAll(ProcessAll(md, a, doubles, ascii), b, doubles, ascii)
    decreases |b|
  {
    AppendIndices(a, b);
    if b != [] {
      ProcessAppend(md, a, b[..|b| - 1], doubles, ascii);
    }
  }

  lemma AppendIndices<T>(a: seq<T>, b: seq<T>)
    ensures forall i :: 0 <= i < |a| ==> a[i] == (a + b)[i]
    ensures forall i :: 0 <= i < |b| ==> b[i] == (a + b)[|a| + i]
    ensures b == [] ==> a + b == a
    ensures b != [] ==> (a + b)[..|a + b| - 1] == a + b[..|b| - 1]
  {
  }

  /** Keys that do not name field f leave that field as it was. */
  lemma {:induction false} Untouched(md: Metadata, keys: seq<Key>, doubles: Option<seq<real>>, ascii: Option<string>, f: Field)
    requires AllAdmissible(keys, doubles, ascii)
    requires forall i :: 0 <= i < |keys| ==> FieldOf(keys[i].keyID) != Some(f)
    ensures SameOn(ProcessAll(md, keys, doubles, ascii), md, f)
    decreases |keys|
  {
    if keys != [] {
      var init := keys[..|keys| - 1];
      Untouched(md, init, doubles, ascii, f);
    }
  }

  /** Keys are processed in directory order, so the last key naming a field
      decides it: whatever came before, and whatever follows that does not name
      the field, does not matter. */
  lemma LastKeyWins(md: Metadata, before: seq<Key>, key: Key, after: seq<Key>,
                    doubles: Option<seq<real>>, ascii: Option<string>, f: Field)
    requires AllAdmissible(before + [key] + after, doubles, ascii)
    requires FieldOf(key.keyID) == Some(f)
    requires forall i :: 0 <= i < |after| ==> FieldOf(after[i].keyID) != Some(f)
    ensures AllAdmissible(before, doubles, ascii) && KeyAdmissible(key, doubles, ascii)
    ensures SameOn(ProcessAll(md, before + [key] + after, doubles, ascii),
                   ApplyKey(ProcessAll(md, before, doubles, ascii), key, doubles, ascii), f)
  {
    ProcessAppend(md, before + [key], after, doubles, ascii);
    ProcessAppend(md, before, [key], doubles, ascii);
    var mid := ProcessAll(md, before + [key], doubles, ascii);
    assert ProcessAll(ProcessAll(md, before, doubles, ascii), [key], doubles, ascii)
        == ApplyKey(ProcessAll(md, before, doubles, ascii), key, doubles, ascii) by {
      assert [key][..0] == [];
    }
    Untouched(mid, after, doubles, ascii, f);
  }

  /** A citation key with ASCII parameters present sets its field to the count - 1
      characters starting at index; without them the field is untouched. */
  lemma CitationKey(md: Metadata, key: Key, doubles: Option<seq<real>>, ascii: Option<string>)
    requires KeyAdmissible(key, doubles, ascii)
    requires key.keyID == 1026
    ensures ascii.None? ==> ApplyKey(md, key, doubles, ascii) == md
    ensures ascii.Some? ==>
      var c := ApplyKey(md, key, doubles, ascii).citation;
      |c| == key.count - 1 && forall i :: 0 <= i < |c| ==> c[i] == ascii.value[key.index + i]
  {
  }
}
