/** The desktop application's option tables: the output file types with
    their labels and file extensions, and the output coordinate systems. */
module Settings {
  import opened Common

  datatype FiletypeOption = FiletypeOption(title: string, extensions: seq<string>)

  /** `filetypeOptions`, in declaration order. */
  const FILETYPE_OPTIONS: seq<(string, FiletypeOption)> := [
    ("geojson", FiletypeOption("GeoJSON", [])),
    ("gpkg", FiletypeOption("GeoPackage", ["gpkg"])),
    ("mvt", FiletypeOption("Vector Tiles", [""])),
    ("czml", FiletypeOption("CZML", ["json"])),
    ("cesiumtiles", FiletypeOption("3D Tiles", [""])),
    ("kml", FiletypeOption("KML", ["kml"])),
    ("shapefile", FiletypeOption("Shapefile", ["shp"])),
    ("ply", FiletypeOption("PLY", ["ply"])),
    ("gltf", FiletypeOption("glTF", [""])),
    ("serde", FiletypeOption("Serde", [""]))
  ]

  datatype CrsOption = CrsOption(value: string, title: string)

  /** `crsOptions`, in order. */
  const CRS_OPTIONS: seq<CrsOption> := [
    CrsOption("EPSG:6678", "JGD2011 / Japan Plane Rectangular CS X"),
    CrsOption("EPSG:4326", "WGS 84"),
    CrsOption("EPSG:3857", "Web Mercator")
  ]

  /** The keys of a record, in order. */
  function Keys<V>(entries: seq<(string, V)>): (r: seq<string>)
    ensures |r| == |entries| && forall k :: 0 <= k < |entries| ==> r[k] == entries[k].0
  {
    MapSeq(entries, (e: (string, V)) => e.0)
  }

  /** `filetypeOptions[key]`: the first entry with the key. */
  function Lookup(key: string, entries: seq<(string, FiletypeOption)>): (r: Option<FiletypeOption>)
    ensures r.None? <==> key !in Keys(entries)
    ensures r.Some? ==> exists k :: 0 <= k < |entries| && entries[k] == (key, r.value)
  {
    if entries == [] then None
    else if entries[0].0 == key then Some(entries[0].1)
    else
      var r := Lookup(key, entries[1..]);
      assert Keys(entries) == [entries[0].0] + Keys(entries[1..]);
      if r.Some? then
        assert exists k :: 0 <= k < |entries| - 1 && entries[1..][k] == (key, r.value);
        var k :| 0 <= k < |entries| - 1 && entries[1..][k] == (key, r.value);
        assert entries[k + 1] == (key, r.value);
        r
      else r
  }

  /** Exactly the ten output kinds, each once. */
  lemma {:induction false} FiletypeKeys()
    ensures Keys(FILETYPE_OPTIONS) ==
      ["geojson", "gpkg", "mvt", "czml", "cesiumtiles", "kml", "shapefile", "ply", "gltf", "serde"]
    ensures forall i, j :: 0 <= i < j < |FILETYPE_OPTIONS| ==> FILETYPE_OPTIONS[i].0 != FILETYPE_OPTIONS[j].0
  {
  }

  /** No extension of the option starts with a dot. */
  predicate NoDottedExtension(o: FiletypeOption) {
    forall e :: e in o.extensions ==> !StartsWith(e, ".")
  }

  /** Every label is non-empty and no extension starts with a dot. */
  lemma {:induction false} FiletypeLabelsAndExtensions()
    ensures forall k :: 0 <= k < |FILETYPE_OPTIONS| ==> FILETYPE_OPTIONS[k].1.title != []
    ensures forall k :: 0 <= k < |FILETYPE_OPTIONS| ==> NoDottedExtension(FILETYPE_OPTIONS[k].1)
  {
    forall k | 0 <= k < |FILETYPE_OPTIONS| ensures NoDottedExtension(FILETYPE_OPTIONS[k].1) {
      var o := FILETYPE_OPTIONS[k].1;
      assert o.extensions == [] || |o.extensions| == 1;
      forall e | e in o.extensions ensures !StartsWith(e, ".") {
        assert e == o.extensions[0];
        assert e == "" || e[0] != '.';
      }
    }
  }

  /** Over a record with distinct keys, looking a key up finds its entry. */
  lemma {:induction false} LookupAt(key: string, entries: seq<(string, FiletypeOption)>, i: nat)
    requires i < |entries| && entries[i].0 == key
    requires forall j :: 0 <= j < i ==> entries[j].0 != key
    ensures Lookup(key, entries) == Some(entries[i].1)
  {
    if i > 0 {
      var tail := entries[1..];
      assert forall j :: 0 <= j < i - 1 ==> tail[j] == entries[j + 1];
      LookupAt(key, tail, i - 1);
    }
  }

  /** With distinct keys, the entry at `i` is the one found for its key. */
  lemma {:induction false} LookupDistinct(key: string, entries: seq<(string, FiletypeOption)>, i: nat)
    requires forall a, b :: 0 <= a < b < |entries| ==> entries[a].0 != entries[b].0
    requires i < |entries| && entries[i].0 == key
    ensures Lookup(key, entries) == Some(entries[i].1)
  {
    LookupAt(key, entries, i);
  }

  /** Every entry is what looking up its key finds. */
  lemma {:induction false} FiletypeLookup(k: nat)
    requires k < |FILETYPE_OPTIONS|
    ensures Lookup(FILETYPE_OPTIONS[k].0, FILETYPE_OPTIONS) == Some(FILETYPE_OPTIONS[k].1)
  {
    FiletypeKeys();
    LookupDistinct(FILETYPE_OPTIONS[k].0, FILETYPE_OPTIONS, k);
  }

  /** GeoJSON offers no extension; vector tiles, 3D Tiles, glTF and Serde
      offer only the empty one; the remaining kinds offer one extension
      each. */
  lemma {:induction false} FiletypeExtensions()
    ensures FILETYPE_OPTIONS[0] == ("geojson", FiletypeOption("GeoJSON", []))
    ensures forall k :: k in {2, 4, 8, 9} ==> FILETYPE_OPTIONS[k].1.extensions == [""]
    ensures forall k :: k in {1, 3, 5, 6, 7} ==> (|FILETYPE_OPTIONS[k].1.extensions| == 1 &&
      FILETYPE_OPTIONS[k].1.extensions[0] != "")
    ensures Keys(FILETYPE_OPTIONS)[2] == "mvt" && Keys(FILETYPE_OPTIONS)[4] == "cesiumtiles"
    ensures Keys(FILETYPE_OPTIONS)[8] == "gltf" && Keys(FILETYPE_OPTIONS)[9] == "serde"
  {
  }

  /** A kind that is not one of the ten has no entry. */
  lemma {:induction false} UnknownFiletype(key: string)
    requires key !in ["geojson", "gpkg", "mvt", "czml", "cesiumtiles", "kml", "shapefile", "ply", "gltf", "serde"]
    ensures Lookup(key, FILETYPE_OPTIONS).None?
  {
    FiletypeKeys();
  }

  /** The coordinate systems: EPSG 6678, 4326 and 3857 in that order, each
      written as "EPSG:" and its code in decimal. */
  lemma {:induction false} CrsOptionValues()
    ensures |CRS_OPTIONS| == 3
    ensures CRS_OPTIONS[0].value == "EPSG:" + NatToString(6678)
    ensures CRS_OPTIONS[1].value == "EPSG:" + NatToString(4326)
    ensures CRS_OPTIONS[2].value == "EPSG:" + NatToString(3857)
    ensures forall i, j :: 0 <= i < j < |CRS_OPTIONS| ==> CRS_OPTIONS[i].value != CRS_OPTIONS[j].value
    ensures forall k :: 0 <= k < |CRS_OPTIONS| ==> CRS_OPTIONS[k].title != []
  {
  }

  /** The code an option value names, read back from its digits. */
  lemma {:induction false} CrsCodes()
    ensures forall k :: 0 <= k < |CRS_OPTIONS| ==> StartsWith(CRS_OPTIONS[k].value, "EPSG:")
    ensures ParseDecimal(CRS_OPTIONS[0].value[5..]) == 6678
    ensures ParseDecimal(CRS_OPTIONS[1].value[5..]) == 4326
    ensures ParseDecimal(CRS_OPTIONS[2].value[5..]) == 3857
  {
    CrsOptionValues();
    NatToStringRoundTrip(6678);
    NatToStringRoundTrip(4326);
    NatToStringRoundTrip(3857);
    assert CRS_OPTIONS[0].value[5..] == NatToString(6678);
    assert CRS_OPTIONS[1].value[5..] == NatToString(4326);
    assert CRS_OPTIONS[2].value[5..] == NatToString(3857);
  }
}
