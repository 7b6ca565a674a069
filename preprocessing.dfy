/**
 * Feature-vector construction (backend/ml/preprocessing.py): a request's
 * `features` value, given as a dict, a list or JSON text, becomes an ordered
 * vector of numbers and a normalised JSON value stored with the detection.
 */
module Preprocessing {
  import opened Wrappers

  /** The six traffic features, in the order the model expects them. */
  const FeatureOrder: seq<string> := ["bytes_in", "bytes_out", "packets", "duration", "src_port", "dest_port"]

  /**
   * The Python value `to_feature_vector` receives. A `Str` carries what
   * `json.loads` makes of the text (`None` when the text is not JSON); the
   * numbers inside a dict or list are the values `float()` gives for them.
   */
  datatype PyValue =
    | Dict(entries: map<string, real>)
    | List(items: seq<real>)
    | Str(decoded: Option<PyValue>)
    | Scalar

  /** The structure `json.dumps` writes: an object with ordered keys, or an array. */
  datatype NormalizedJson = JsonObject(pairs: seq<(string, real)>) | JsonArray(values: seq<real>)

  /** The two `ValueError`s: text that is not JSON, and a value that is neither dict nor list. */
  datatype FeatureError = InvalidJson | Unsupported

  datatype Features = Features(vector: seq<real>, json: NormalizedJson)

  /** `features.get(k, 0.0)`: the value stored under `k`, or 0.0. */
  function GetOrZero(entries: map<string, real>, k: string): real {
    if k in entries then entries[k] else 0.0
  }

  /** The dict branch: one slot per name of `FeatureOrder`, and the same pairs as JSON. */
  function FromDict(entries: map<string, real>): (f: Features)
    ensures |f.vector| == |FeatureOrder|
    ensures forall i | 0 <= i < |FeatureOrder| :: f.vector[i] == GetOrZero(entries, FeatureOrder[i])
    ensures f.json.JsonObject? && |f.json.pairs| == |FeatureOrder|
    ensures forall i | 0 <= i < |FeatureOrder| :: f.json.pairs[i] == (FeatureOrder[i], f.vector[i])
  {
    var vector := seq(|FeatureOrder|, i requires 0 <= i < |FeatureOrder| => GetOrZero(entries, FeatureOrder[i]));
    Features(vector, JsonObject(seq(|FeatureOrder|, i requires 0 <= i < |FeatureOrder| => (FeatureOrder[i], vector[i]))))
  }

  /** The dispatch after decoding: dict, list, or the "Unsupported features format" error. */
  function FromDecoded(v: PyValue): Result<Features, FeatureError> {
    match v
    case Dict(entries) => Ok(FromDict(entries))
    case List(items) => Ok(Features(items, JsonArray(items)))
    case _ => Err(Unsupported)
  }

  /**
   * `to_feature_vector`: JSON text is decoded first (once) and then handled
   * like a dict or list; any other value is rejected. A list keeps its
   * length: the width is checked by the caller.
   */
  function ToFeatureVector(features: PyValue): (r: Result<Features, FeatureError>)
    ensures features.Dict? ==> r.Ok? && |r.value.vector| == |FeatureOrder|
    ensures features.List? ==> r == Ok(Features(features.items, JsonArray(features.items)))
    ensures features.Scalar? ==> r == Err(Unsupported)
    ensures features.Str? && features.decoded.None? ==> r == Err(InvalidJson)
    ensures features.Str? && features.decoded.Some? && !features.decoded.value.Dict? && !features.decoded.value.List?
      ==> r == Err(Unsupported)
  {
    match features
    case Str(decoded) =>
      if decoded.None? then Err(InvalidJson) else FromDecoded(decoded.value)
    case _ => FromDecoded(features)
  }

  /** The six feature names are pairwise distinct. */
  lemma FeatureOrderDistinct()
    ensures |FeatureOrder| == 6
    ensures forall i, j | 0 <= i < j < |FeatureOrder| :: FeatureOrder[i] != FeatureOrder[j]
  {
  }

  /** Keys outside `FeatureOrder` do not change the result of the dict branch. */
  lemma ExtraKeysIgnored(entries: map<string, real>, extra: map<string, real>)
    requires forall k | k in extra :: k !in FeatureOrder
    ensures ToFeatureVector(Dict(entries + extra)) == ToFeatureVector(Dict(entries))
  {
    var a, b := FromDict(entries + extra), FromDict(entries);
    forall i | 0 <= i < |FeatureOrder|
      ensures a.vector[i] == b.vector[i]
    {
      assert FeatureOrder[i] !in extra;
    }
    assert a.vector == b.vector;
    assert a.json.pairs == b.json.pairs;
  }

  /** The dict whose i-th feature name maps to `v[i]`. */
  function DictOf(v: seq<real>): map<string, real>
    requires |v| == |FeatureOrder|
  {
    map i | 0 <= i < |FeatureOrder| :: FeatureOrder[i] := v[i]
  }

  /** A six-number vector sent as a dict, keyed by the feature names, comes back unchanged. */
  lemma DictRoundTrip(v: seq<real>)
    requires |v| == |FeatureOrder|
    ensures ToFeatureVector(Dict(DictOf(v))).Ok?
    ensures ToFeatureVector(Dict(DictOf(v))).value.vector == v
  {
    FeatureOrderDistinct();
    var m := DictOf(v);
    var f := FromDict(m);
    forall i | 0 <= i < |FeatureOrder|
      ensures f.vector[i] == v[i]
    {
      assert FeatureOrder[i] in m;
      assert m[FeatureOrder[i]] == v[i];
    }
  }

  /** JSON text is handled exactly like the value it decodes to, when that value is a dict or a list. */
  lemma TextLikeDecoded(v: PyValue)
    requires v.Dict? || v.List?
    ensures ToFeatureVector(Str(Some(v))) == ToFeatureVector(v)
  {
  }
}
