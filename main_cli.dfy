/** The command-line front end: `KEY=value` option parsing, the choice of
    output sink by its id name, and the injection of the output path as the
    sink option `@output`. */
module MainCli {
  import opened Common

  /** `parse_key_val`: split at the first `=`. */
  function ParseKeyVal(s: string): (r: Result<(string, string), string>)
    ensures r.Err? <==> '=' !in s
    ensures r.Err? ==> r.error == "invalid KEY=value: no `=` found in `" + s + "`"
    ensures r.Ok? ==> r.value.0 + "=" + r.value.1 == s && '=' !in r.value.0
  {
    match FindChar(s, '=')
    case None => Err("invalid KEY=value: no `=` found in `" + s + "`")
    case Some(pos) =>
      assert s == s[..pos] + "=" + s[pos + 1..];
      Ok((s[..pos], s[pos + 1..]))
  }

  /** The split is the only one with a key free of `=`: the key is the text
      before the first `=` and the value is everything after it, later `=`
      signs kept. */
  lemma {:induction false} ParseKeyValUnique(s: string, key: string, value: string)
    requires key + "=" + value == s && '=' !in key
    ensures ParseKeyVal(s) == Ok((key, value))
  {
    assert s[..|key|] == key && s[|key|] == '=';
    assert s[|key| + 1..] == value;
  }

  /** `"=x"` gives an empty key, `"k="` an empty value, and the value may
      hold further `=`. */
  lemma {:induction false} ParseKeyValExamples()
    ensures ParseKeyVal("=x") == Ok(("", "x"))
    ensures ParseKeyVal("k=") == Ok(("k", ""))
    ensures ParseKeyVal("a=b=c") == Ok(("a", "b=c"))
    ensures ParseKeyVal("abc").Err?
  {
    ParseKeyValUnique("=x", "", "x");
    ParseKeyValUnique("k=", "k", "");
    ParseKeyValUnique("a=b=c", "a", "b=c");
  }

  /** What a sink provider tells the front end about itself. */
  datatype SinkInfo = SinkInfo(idName: string, name: string)

  /** `SinkChoice`: the id name given with `--sink`. */
  datatype SinkChoice = SinkChoice(idName: string)

  /** The id names of `BUILTIN_SINKS`, in order. `ply`, `gpkg` and `noop` are
      the names their providers declare; the others follow the output kinds
      of the desktop application and the provider modules. */
  const BUILTIN_SINK_IDS: seq<string> :=
    ["cesiumtiles", "gpkg", "mvt", "geojson", "geojson-transform-exp", "czml",
     "gltf", "kml", "ply", "serde", "shapefile", "noop"]

  /** `value_variants`: one choice per provider, in the providers' order. */
  function ValueVariants(sinks: seq<SinkInfo>): (r: seq<SinkChoice>)
    ensures |r| == |sinks|
    ensures forall k :: 0 <= k < |sinks| ==> r[k].idName == sinks[k].idName
  {
    MapSeq(sinks, (p: SinkInfo) => SinkChoice(p.idName))
  }

  /** The first provider with the id name, if any. */
  function FirstWithId(sinks: seq<SinkInfo>, id: string): (r: Option<nat>)
    ensures r.None? <==> forall k :: 0 <= k < |sinks| ==> sinks[k].idName != id
    ensures r.Some? ==> (r.value < |sinks| && sinks[r.value].idName == id &&
      forall k :: 0 <= k < r.value ==> sinks[k].idName != id)
  {
    if sinks == [] then None
    else if sinks[0].idName == id then Some(0)
    else match FirstWithId(sinks[1..], id)
      case None => None
      case Some(i) => Some(i + 1)
  }

  /** `create_sink`: the position in `sinks` of the provider chosen, found by
      a scan from the front; `Panics` for an unknown choice. */
  method CreateSink(choice: SinkChoice, sinks: seq<SinkInfo>) returns (r: Outcome<nat>)
    ensures r.Panics? <==> forall k :: 0 <= k < |sinks| ==> sinks[k].idName != choice.idName
    ensures r.Returns? ==> (r.value < |sinks| && sinks[r.value].idName == choice.idName &&
      forall k :: 0 <= k < r.value ==> sinks[k].idName != choice.idName)
  {
    var i := 0;
    while i < |sinks|
      invariant 0 <= i <= |sinks|
      invariant forall k :: 0 <= k < i ==> sinks[k].idName != choice.idName
    {
      if choice.idName == sinks[i].idName {
        return Returns(i);
      }
      i := i + 1;
    }
    return Panics;
  }

  /** Every choice `value_variants` offers leads `create_sink` to the first
      provider with that id, which is the offering provider when ids are
      unique. */
  lemma {:induction false} VariantsAreCreatable(sinks: seq<SinkInfo>, k: nat)
    requires k < |sinks|
    ensures var id := ValueVariants(sinks)[k].idName;
      FirstWithId(sinks, id).Some? && FirstWithId(sinks, id).value <= k
  {
  }

  /** `to_possible_value`: the chosen provider's id name with its display
      name as help, or nothing for an unknown choice. */
  function ToPossibleValue(choice: SinkChoice, sinks: seq<SinkInfo>): (r: Option<(string, string)>)
    ensures r.None? <==> forall k :: 0 <= k < |sinks| ==> sinks[k].idName != choice.idName
    ensures r.Some? ==> (r.value.0 == choice.idName &&
      exists k :: 0 <= k < |sinks| && sinks[k] == SinkInfo(r.value.0, r.value.1))
  {
    match FirstWithId(sinks, choice.idName)
    case None => None
    case Some(i) => Some((sinks[i].idName, sinks[i].name))
  }

  /** The id names of the built-in sinks are distinct, so each choice names
      one provider. */
  lemma {:induction false} BuiltinIdsDistinct()
    ensures forall i, j :: 0 <= i < j < |BUILTIN_SINK_IDS| ==> BUILTIN_SINK_IDS[i] != BUILTIN_SINK_IDS[j]
  {
  }

  /** Over the built-in providers, `--sink ply` picks the ninth and an
      unknown name panics. */
  lemma {:induction false} CreateBuiltinSink(sinks: seq<SinkInfo>)
    requires |sinks| == |BUILTIN_SINK_IDS|
    requires forall k :: 0 <= k < |sinks| ==> sinks[k].idName == BUILTIN_SINK_IDS[k]
    ensures FirstWithId(sinks, "ply") == Some(8)
    ensures FirstWithId(sinks, "shp") == None
  {
    BuiltinIdsDistinct();
    assert sinks[8].idName == "ply";
    forall k | 0 <= k < |sinks| ensures sinks[k].idName != "shp" {
      assert sinks[k].idName == BUILTIN_SINK_IDS[k];
    }
  }

  /** The parsed arguments the front end changes: the sink options. */
  class Args {
    const output: string
    var sinkopt: seq<(string, string)>

    constructor (output: string, sinkopt: seq<(string, string)>)
      ensures this.output == output && this.sinkopt == sinkopt
    {
      this.output := output;
      this.sinkopt := sinkopt;
    }

    /** `args.sinkopt.push(("@output", args.output))`: the output path
        becomes the last sink option, after every `-o` given. */
    method InjectOutput()
      modifies this
      ensures sinkopt == old(sinkopt) + [("@output", output)]
    {
      sinkopt := sinkopt + [("@output", output)];
    }
  }

  /** The options handed to the sink: those given, each parsed from its
      `KEY=value`, then `@output`; `None` when one has no `=` (the command
      line is then rejected). */
  function SinkOptions(given: seq<string>, output: string): (r: Option<seq<(string, string)>>)
    ensures r.None? <==> exists k :: 0 <= k < |given| && '=' !in given[k]
    ensures r.Some? ==> (|r.value| == |given| + 1 && r.value[|given|] == ("@output", output) &&
      forall k :: 0 <= k < |given| ==> ParseKeyVal(given[k]) == Ok(r.value[k]))
  {
    if given == [] then Some([("@output", output)])
    else
      var n := |given|;
      match ParseKeyVal(given[n - 1])
      case Err(_) => None
      case Ok(kv) =>
        match SinkOptions(given[..n - 1], output)
        case None =>
          var init := given[..n - 1];
          assert forall k :: 0 <= k < n - 1 ==> init[k] == given[k];
          None
        case Some(opts) =>
          var init := given[..n - 1];
          assert forall k :: 0 <= k < n - 1 ==> init[k] == given[k];
          Some(opts[..n - 1] + [kv, ("@output", output)])
  }
}
