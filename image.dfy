/**
 * The image-layer probe (pkg/image/image.go). The layers file is read
 * through a file-reader function; YAML decoding and encoding are oracles
 * that map text to a layer list and back, or fail.
 */
module Image {
  import opened Wrappers
  import opened Errors
  import opened Text
  import Decimal
  import Utils

  datatype Metadata = Metadata(name: string, version: string, author: string)
  datatype Layer = Layer(image: string, metadata: Metadata)
  datatype LayerList = LayerList(layers: seq<Layer>)

  type Unmarshal = string -> Result<LayerList, Error>
  type Marshal = LayerList -> Result<string, Error>

  const LayersPath := "/etc/extensions.yaml"
  const Name := "image"

  /** The four evidence entries each layer contributes, in the order they are written. */
  const LayerFields := ["name", "version", "author", "image"]

  /** parseLayers: read the file, then decode it; each failure names the path. */
  function ParseLayers(path: string, read: Utils.ReadFile, unmarshal: Unmarshal): (r: Result<LayerList, Error>)
    ensures read(path).Err? ==> r == Err(Wrapped("failed to read layers file " + path, read(path).error))
    ensures read(path).Ok? && unmarshal(read(path).value).Err? ==>
      r == Err(Wrapped("failed to unmarshal layers file " + path, unmarshal(read(path).value).error))
    ensures read(path).Ok? && unmarshal(read(path).value).Ok? ==> r == unmarshal(read(path).value)
  {
    var data := read(path);
    if data.Err? then Err(Wrapped("failed to read layers file " + path, data.error))
    else
      var layers := unmarshal(data.value);
      if layers.Err? then Err(Wrapped("failed to unmarshal layers file " + path, layers.error))
      else layers
  }

  /** GetImageLayers: the layers of the well-known file. */
  function GetImageLayers(read: Utils.ReadFile, unmarshal: Unmarshal): Result<LayerList, Error>
  {
    ParseLayers(LayersPath, read, unmarshal)
  }

  /** The measurement Measure reports: the digest of the re-encoded layer list. */
  function Measurement(read: Utils.ReadFile, unmarshal: Unmarshal, marshal: Marshal): (m: Result<string, Error>)
    ensures GetImageLayers(read, unmarshal).Err? ==>
      m == Err(Wrapped("failed to get image layers", GetImageLayers(read, unmarshal).error))
    ensures GetImageLayers(read, unmarshal).Ok? && marshal(GetImageLayers(read, unmarshal).value).Err? ==>
      m == Err(Wrapped("failed to marshal image layers", marshal(GetImageLayers(read, unmarshal).value).error))
    ensures m.Ok? ==>
      |m.value| == 128 && m.value == Utils.EncodeMeasurement(marshal(GetImageLayers(read, unmarshal).value).value)
  {
    var layers := GetImageLayers(read, unmarshal);
    if layers.Err? then Err(Wrapped("failed to get image layers", layers.error))
    else
      var data := marshal(layers.value);
      if data.Err? then Err(Wrapped("failed to marshal image layers", data.error))
      else Ok(Utils.EncodeMeasurement(data.value))
  }

  /** The evidence key of one field of layer i: "layer_<i>_<field>". */
  function LayerKey(i: nat, field: string): string
  {
    Join(["layer", Decimal.Itoa(i), field], '_')
  }

  /** The map before any layer is entered: the layer count in decimal and the timestamp. */
  function BaseEvidence(count: nat, timestamp: string): map<string, string>
  {
    map["layers_count" := Decimal.Itoa(count), "timestamp" := timestamp]
  }

  /** The entries of the layers entered into m, layer by layer in order. */
  function AddLayers(m: map<string, string>, layers: seq<Layer>): map<string, string>
  {
    if layers == [] then m
    else
      var i := |layers| - 1;
      var layer := layers[i];
      AddLayers(m, layers[..i])[LayerKey(i, "name") := layer.metadata.name]
                              [LayerKey(i, "version") := layer.metadata.version]
                              [LayerKey(i, "author") := layer.metadata.author]
                              [LayerKey(i, "image") := layer.image]
  }

  /** The evidence of a stored layer list and timestamp. */
  function EvidenceOf(layers: seq<Layer>, timestamp: string): map<string, string>
  {
    AddLayers(BaseEvidence(|layers|, timestamp), layers)
  }

  /** The keys of the four entries of layer i. */
  function KeysAt(i: nat): set<string>
  {
    {LayerKey(i, "name"), LayerKey(i, "version"), LayerKey(i, "author"), LayerKey(i, "image")}
  }

  /** The keys of the entries of layers 0 to n - 1. */
  function LayerKeys(n: nat): set<string>
  {
    if n == 0 then {} else LayerKeys(n - 1) + KeysAt(n - 1)
  }

  /** Reads a layer key back into its index and field; None for any other text. */
  function ParseLayerKey(k: string): Option<(nat, string)>
  {
    var parts := Split(k, '_');
    if |parts| == 3 && parts[0] == "layer" then
      var index := Decimal.ParseDecimal(parts[1]);
      if index.Some? && index.value >= 0 then Some((index.value, parts[2])) else None
    else None
  }

  /** A layer key reads back as its index and field. */
  lemma ParseLayerKeyRoundTrip(i: nat, field: string)
    requires '_' !in field
    ensures ParseLayerKey(LayerKey(i, field)) == Some((i, field))
  {
    var parts := ["layer", Decimal.Itoa(i), field];
    assert Decimal.AllDigits(parts[1]);
    JoinSplit(parts, '_');
    Decimal.ParseItoa(i);
  }

  /** Two layer keys are the same text exactly when they name the same index and field. */
  lemma LayerKeyInjective(i: nat, f: string, j: nat, g: string)
    requires '_' !in f && '_' !in g
    ensures LayerKey(i, f) == LayerKey(j, g) <==> i == j && f == g
  {
    ParseLayerKeyRoundTrip(i, f);
    ParseLayerKeyRoundTrip(j, g);
  }

  /** The keys of layer i all read back with index i. */
  lemma KeysAtParse(i: nat)
    ensures forall k :: k in KeysAt(i) ==> ParseLayerKey(k).Some? && ParseLayerKey(k).value.0 == i
  {
    ParseLayerKeyRoundTrip(i, "name");
    ParseLayerKeyRoundTrip(i, "version");
    ParseLayerKeyRoundTrip(i, "author");
    ParseLayerKeyRoundTrip(i, "image");
  }

  lemma FourDistinct<T>(a: T, b: T, c: T, d: T)
    requires a != b && a != c && a != d && b != c && b != d && c != d
    ensures |{a, b, c, d}| == 4
  {
    assert {a, b, c, d} == {a, b, c} + {d};
    assert {a, b, c} == {a, b} + {c};
  }

  lemma KeysAtSize(i: nat)
    ensures var a, b, c, d := LayerKey(i, "name"), LayerKey(i, "version"), LayerKey(i, "author"), LayerKey(i, "image");
      a != b && a != c && a != d && b != c && b != d && c != d
    ensures |KeysAt(i)| == 4
  {
    ParseLayerKeyRoundTrip(i, "name");
    ParseLayerKeyRoundTrip(i, "version");
    ParseLayerKeyRoundTrip(i, "author");
    ParseLayerKeyRoundTrip(i, "image");
    FourDistinct(LayerKey(i, "name"), LayerKey(i, "version"), LayerKey(i, "author"), LayerKey(i, "image"));
  }

  /** Every key of the first n layers reads back with an index below n. */
  lemma {:induction false} LayerKeysParse(n: nat)
    ensures forall k :: k in LayerKeys(n) ==> ParseLayerKey(k).Some? && ParseLayerKey(k).value.0 < n
  {
    if n > 0 {
      LayerKeysParse(n - 1);
      KeysAtParse(n - 1);
    }
  }

  lemma {:induction false} LayerKeysSize(n: nat)
    ensures |LayerKeys(n)| == 4 * n
  {
    if n > 0 {
      LayerKeysSize(n - 1);
      KeysAtSize(n - 1);
      LayerKeysParse(n - 1);
      KeysAtParse(n - 1);
      assert KeysAt(n - 1) !! LayerKeys(n - 1);
    }
  }

  /** "layers_count" has one underscore, so it does not read back as a layer key. */
  lemma CountKeyNotLayerKey()
    ensures ParseLayerKey("layers_count").None?
  {
    var parts := ["layers", "count"];
    assert Join(parts, '_') == "layers_count";
    JoinSplit(parts, '_');
  }

  /** "timestamp" has no underscore, so it does not read back as a layer key. */
  lemma TimestampKeyNotLayerKey()
    ensures ParseLayerKey("timestamp").None?
  {
    SplitAbsent("timestamp", '_');
  }

  /** The two fixed keys are not layer keys. */
  lemma BaseKeysFresh(n: nat)
    ensures "layers_count" !in LayerKeys(n) && "timestamp" !in LayerKeys(n)
  {
    CountKeyNotLayerKey();
    TimestampKeyNotLayerKey();
    LayerKeysParse(n);
  }

  /** Entering layers adds exactly their keys and leaves the other entries alone. */
  lemma {:induction false} AddLayersKeys(m: map<string, string>, layers: seq<Layer>)
    ensures AddLayers(m, layers).Keys == m.Keys + LayerKeys(|layers|)
    ensures forall k :: k in m && k !in LayerKeys(|layers|) ==> AddLayers(m, layers)[k] == m[k]
  {
    if layers != [] {
      AddLayersKeys(m, layers[..|layers| - 1]);
    }
  }

  /** The evidence has the count and timestamp entries and the four entries of every layer. */
  lemma EvidenceKeys(layers: seq<Layer>, timestamp: string)
    ensures EvidenceOf(layers, timestamp).Keys == {"layers_count", "timestamp"} + LayerKeys(|layers|)
    ensures EvidenceOf(layers, timestamp)["layers_count"] == Decimal.Itoa(|layers|)
    ensures EvidenceOf(layers, timestamp)["timestamp"] == timestamp
  {
    var base := BaseEvidence(|layers|, timestamp);
    AddLayersKeys(base, layers);
    BaseKeysFresh(|layers|);
    assert base.Keys == {"layers_count", "timestamp"};
  }

  /** All those keys are distinct: 2 + 4 * n entries for n layers. */
  lemma EvidenceKeyCount(layers: seq<Layer>, timestamp: string)
    ensures |EvidenceOf(layers, timestamp).Keys| == 2 + 4 * |layers|
  {
    var n := |layers|;
    EvidenceKeys(layers, timestamp);
    BaseKeysFresh(n);
    LayerKeysSize(n);
    var fixed: set<string> := {"layers_count", "timestamp"};
    assert |fixed| == 2;
    assert fixed * LayerKeys(n) == {};
  }

  /** Entering the last layer leaves the entries under any other key as they were. */
  lemma AddLayersLast(m: map<string, string>, layers: seq<Layer>, k: string)
    requires layers != [] && k !in KeysAt(|layers| - 1)
    ensures var before := AddLayers(m, layers[..|layers| - 1]);
      (k in AddLayers(m, layers) <==> k in before)
      && (k in before ==> AddLayers(m, layers)[k] == before[k])
  {
  }

  /** The value a layer contributes under one of its four fields. */
  function FieldValue(layer: Layer, field: string): string
    requires field in LayerFields
  {
    if field == "name" then layer.metadata.name
    else if field == "version" then layer.metadata.version
    else if field == "author" then layer.metadata.author
    else layer.image
  }

  /** Each of layer i's four entries holds that layer's name, version, author or image. */
  lemma {:induction false} EvidenceEntry(m: map<string, string>, layers: seq<Layer>, i: nat, field: string)
    requires i < |layers| && field in LayerFields
    ensures LayerKey(i, field) in AddLayers(m, layers)
    ensures AddLayers(m, layers)[LayerKey(i, field)] == FieldValue(layers[i], field)
  {
    var n := |layers| - 1;
    if i < n {
      EvidenceEntry(m, layers[..n], i, field);
      assert layers[..n][i] == layers[i];
      EntryKept(m, layers, i, field);
    } else {
      EntryOfLast(m, layers, field);
    }
  }

  /** The entries of the last layer entered hold its values. */
  lemma EntryOfLast(m: map<string, string>, layers: seq<Layer>, field: string)
    requires layers != [] && field in LayerFields
    ensures var n := |layers| - 1;
      && LayerKey(n, field) in AddLayers(m, layers)
      && AddLayers(m, layers)[LayerKey(n, field)] == FieldValue(layers[n], field)
  {
    var n := |layers| - 1;
    var layer := layers[n];
    var a, b, c, d := LayerKey(n, "name"), LayerKey(n, "version"), LayerKey(n, "author"), LayerKey(n, "image");
    var before := AddLayers(m, layers[..n]);
    assert AddLayers(m, layers) == before[a := layer.metadata.name][b := layer.metadata.version]
                                         [c := layer.metadata.author][d := layer.image];
    KeysAtSize(n);
    FourUpdates(before, a, b, c, d, layer.metadata.name, layer.metadata.version, layer.metadata.author, layer.image);
    assert field == "name" || field == "version" || field == "author" || field == "image";
  }

  /** Entering the last layer keeps an entry of an earlier layer. */
  lemma EntryKept(m: map<string, string>, layers: seq<Layer>, i: nat, field: string)
    requires i < |layers| - 1 && field in LayerFields
    requires LayerKey(i, field) in AddLayers(m, layers[..|layers| - 1])
    ensures LayerKey(i, field) in AddLayers(m, layers)
    ensures AddLayers(m, layers)[LayerKey(i, field)] == AddLayers(m, layers[..|layers| - 1])[LayerKey(i, field)]
  {
    var n := |layers| - 1;
    assert '_' !in field;
    ParseLayerKeyRoundTrip(i, field);
    KeysAtParse(n);
    assert LayerKey(i, field) !in KeysAt(n);
    AddLayersLast(m, layers, LayerKey(i, field));
  }

  /** Four updates under distinct keys each leave their own value. */
  lemma FourUpdates<K, V>(m: map<K, V>, a: K, b: K, c: K, d: K, va: V, vb: V, vc: V, vd: V)
    requires a != b && a != c && a != d && b != c && b != d && c != d
    ensures var r := m[a := va][b := vb][c := vc][d := vd];
      && a in r && r[a] == va && b in r && r[b] == vb
      && c in r && r[c] == vc && d in r && r[d] == vd
  {
  }

  class Attestable {
    var layers: seq<Layer>
    var timestamp: string

    constructor ()
      ensures layers == [] && timestamp == ""
    {
      layers := [];
      timestamp := "";
    }

    /**
     * Measure, as written: the measurement of the layers file, and nothing
     * stored — the layers and the timestamp Evidence reports stay as they were.
     */
    method Measure(read: Utils.ReadFile, unmarshal: Unmarshal, marshal: Marshal) returns (m: Result<string, Error>)
      ensures m == Measurement(read, unmarshal, marshal)
    {
      var layers := GetImageLayers(read, unmarshal);
      if layers.Err? {
        return Err(Wrapped("failed to get image layers", layers.error));
      }
      var data := marshal(layers.value);
      if data.Err? {
        return Err(Wrapped("failed to marshal image layers", data.error));
      }
      return Ok(Utils.EncodeMeasurement(data.value));
    }

    /**
     * Measure as the other probes do it: the same measurement, and on
     * success the layers read and the time of the measurement are stored
     * for Evidence.
     */
    method MeasureAndRecord(read: Utils.ReadFile, unmarshal: Unmarshal, marshal: Marshal, now: string)
      returns (m: Result<string, Error>)
      modifies this
      ensures m == Measurement(read, unmarshal, marshal)
      ensures m.Err? ==> layers == old(layers) && timestamp == old(timestamp)
      ensures m.Ok? ==> layers == GetImageLayers(read, unmarshal).value.layers && timestamp == now
    {
      m := Measure(read, unmarshal, marshal);
      if m.Ok? {
        layers := GetImageLayers(read, unmarshal).value.layers;
        timestamp := now;
      }
    }

    /** Evidence: the count, the timestamp, then four entries per stored layer. */
    method Evidence() returns (evidence: map<string, string>)
      ensures evidence == EvidenceOf(layers, timestamp)
    {
      evidence := BaseEvidence(|layers|, timestamp);
      for i := 0 to |layers|
        invariant evidence == AddLayers(BaseEvidence(|layers|, timestamp), layers[..i])
      {
        var layer := layers[i];
        evidence := evidence[LayerKey(i, "name") := layer.metadata.name];
        evidence := evidence[LayerKey(i, "version") := layer.metadata.version];
        evidence := evidence[LayerKey(i, "author") := layer.metadata.author];
        evidence := evidence[LayerKey(i, "image") := layer.image];
        assert layers[..i + 1][..i] == layers[..i];
      }
      assert layers[..|layers|] == layers;
    }
  }

  /**
   * A new probe measured and then asked for its evidence, once with Measure
   * as written and once with MeasureAndRecord. As written the evidence
   * reports no layers and no timestamp, whatever the layers file holds;
   * the recording probe reports the layers read, so the two differ as soon
   * as the file lists a layer.
   */
  method EvidenceAfterMeasure(read: Utils.ReadFile, unmarshal: Unmarshal, marshal: Marshal, now: string)
    returns (asWritten: map<string, string>, recorded: map<string, string>)
    ensures "layers_count" in asWritten && asWritten["layers_count"] == "0"
    ensures "timestamp" in asWritten && asWritten["timestamp"] == ""
    ensures Measurement(read, unmarshal, marshal).Ok? ==>
      recorded == EvidenceOf(GetImageLayers(read, unmarshal).value.layers, now)
    ensures Measurement(read, unmarshal, marshal).Ok? && |GetImageLayers(read, unmarshal).value.layers| > 0 ==>
      asWritten != recorded
  {
    var probe := new Attestable();
    var _ := probe.Measure(read, unmarshal, marshal);
    asWritten := probe.Evidence();
    EvidenceKeys([], "");
    var fixed := new Attestable();
    var m := fixed.MeasureAndRecord(read, unmarshal, marshal, now);
    recorded := fixed.Evidence();
    if m.Ok? {
      EvidenceKeys(fixed.layers, now);
    }
  }
}
