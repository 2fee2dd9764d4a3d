/** The layered configuration loader: a recursive overlay folded over a list of sources. */
module ConfigLoader {
  import opened Prelude
  import opened JsonTree

  /** What a source delivers: a JSON tree, or TOML text with the outcome of parsing it. */
  datatype ConfigValue = Json(tree: Value) | Toml(parsed: Result<Value, string>) {
    function AsJson(): Result<Value, string> {
      match this
      case Json(tree) => Ok(tree)
      case Toml(parsed) => parsed
    }
  }

  /** The outcome of one source's `load`. */
  type Loaded = Result<ConfigValue, string>

  datatype MergeStrategy = Default | Override

  /** A source that loaded but whose text does not parse. */
  predicate Aborts(source: Loaded) {
    source.Ok? && source.value.Toml? && source.value.parsed.Err?
  }

  /** One step of the merge, as the strategy has it. */
  function Overlay(strategy: MergeStrategy, base: Value, overlay: Value): Value {
    if strategy == Default then Merge(base, overlay) else overlay
  }

  /** The tree a source contributes; a source that fails to load contributes none. */
  function Contribution(source: Loaded): Option<Value> {
    if source.Ok? && source.value.AsJson().Ok? then Some(source.value.AsJson().value) else None
  }

  /** The tree after all sources, none of which aborts. */
  ghost function Folded(strategy: MergeStrategy, default: Value, sources: seq<Loaded>): Value {
    if sources == [] then
      default
    else
      var before := Folded(strategy, default, sources[..|sources| - 1]);
      var last := Contribution(sources[|sources| - 1]);
      if last.None? then before else Overlay(strategy, before, last.value)
  }

  lemma FoldedAppend(strategy: MergeStrategy, default: Value, sources: seq<Loaded>, last: Loaded)
    ensures Folded(strategy, default, sources + [last])
         == (var before := Folded(strategy, default, sources);
             if Contribution(last).None? then before else Overlay(strategy, before, Contribution(last).value))
  {
    assert (sources + [last])[..|sources|] == sources;
  }

  /** Layer 0 is the built-in default; layer `i + 1` is the tree of source `i`, JSON or parsed TOML, and a
      source that failed or did not parse is no layer. */
  ghost function Layer(default: Value, sources: seq<Loaded>, i: nat): Option<Value>
    requires i <= |sources|
  {
    if i == 0 then Some(default)
    else
      match sources[i - 1]
      case Ok(Json(tree)) => Some(tree)
      case Ok(Toml(Ok(tree))) => Some(tree)
      case _ => None
  }

  ghost predicate LayerHasLeaf(default: Value, sources: seq<Loaded>, i: nat, path: Path, leaf: Value)
    requires i <= |sources|
  {
    var layer := Layer(default, sources, i);
    layer.Some? && HasLeaf(layer.value, path, leaf)
  }

  /** The layer is absent or silent at `path`. */
  ghost predicate LayerYields(default: Value, sources: seq<Loaded>, i: nat, path: Path)
    requires i <= |sources|
  {
    var layer := Layer(default, sources, i);
    layer.Some? ==> Silent(layer.value, path)
  }

  /** Layer `i` has `leaf` at `path` and every later layer is silent there. */
  ghost predicate Decides(default: Value, sources: seq<Loaded>, i: nat, path: Path, leaf: Value) {
    && i <= |sources|
    && LayerHasLeaf(default, sources, i, path, leaf)
    && forall j :: i < j <= |sources| ==> LayerYields(default, sources, j, path)
  }

  lemma LayersOfLonger(default: Value, sources: seq<Loaded>, last: Loaded, path: Path, leaf: Value)
    ensures forall i :: 0 <= i <= |sources| ==>
              LayerHasLeaf(default, sources + [last], i, path, leaf) == LayerHasLeaf(default, sources, i, path, leaf)
    ensures forall i :: 0 <= i <= |sources| ==>
              LayerYields(default, sources + [last], i, path) == LayerYields(default, sources, i, path)
    ensures Layer(default, sources + [last], |sources| + 1) == Contribution(last)
  {
  }

  lemma DecidedBefore(default: Value, sources: seq<Loaded>, last: Loaded, i: nat, path: Path, leaf: Value)
    requires i <= |sources|
    ensures Decides(default, sources + [last], i, path, leaf)
       <==> Decides(default, sources, i, path, leaf)
            && (Contribution(last).Some? ==> Silent(Contribution(last).value, path))
  {
    var longer := sources + [last];
    LayersOfLonger(default, sources, last, path, leaf);
    assert LayerYields(default, longer, |longer|, path)
      <==> (Contribution(last).Some? ==> Silent(Contribution(last).value, path));
    forall j | i < j <= |sources|
      ensures LayerYields(default, longer, j, path) == LayerYields(default, sources, j, path)
    {
    }
  }

  lemma DecidedLast(default: Value, sources: seq<Loaded>, last: Loaded, path: Path, leaf: Value)
    ensures Decides(default, sources + [last], |sources| + 1, path, leaf)
       <==> Contribution(last).Some? && HasLeaf(Contribution(last).value, path, leaf)
  {
  }

  lemma DecidesAppend(default: Value, sources: seq<Loaded>, last: Loaded, path: Path, leaf: Value)
    ensures (exists i :: Decides(default, sources + [last], i, path, leaf))
       <==> (Contribution(last).Some? && HasLeaf(Contribution(last).value, path, leaf))
            || ((exists i :: Decides(default, sources, i, path, leaf))
                && (Contribution(last).Some? ==> Silent(Contribution(last).value, path)))
  {
    DecidedLast(default, sources, last, path, leaf);
    if i: nat :| Decides(default, sources + [last], i, path, leaf) {
      if i <= |sources| {
        DecidedBefore(default, sources, last, i, path, leaf);
      }
    }
    if i: nat :| Decides(default, sources, i, path, leaf) {
      DecidedBefore(default, sources, last, i, path, leaf);
    }
  }

  /** Path-wise precedence: the result has a leaf exactly if some layer put it there and
      every later layer is silent about that path. */
  lemma {:induction false} PrecedenceByPath(default: Value, sources: seq<Loaded>, path: Path, leaf: Value)
    ensures HasLeaf(Folded(Default, default, sources), path, leaf)
       <==> exists i :: Decides(default, sources, i, path, leaf)
  {
    if sources == [] {
      if HasLeaf(default, path, leaf) {
        assert Decides(default, sources, 0, path, leaf);
      }
    } else {
      var front, last := sources[..|sources| - 1], sources[|sources| - 1];
      assert sources == front + [last];
      PrecedenceByPath(default, front, path, leaf);
      DecidesAppend(default, front, last, path, leaf);
      FoldedAppend(Default, default, front, last);
      if Contribution(last).Some? && !leaf.Obj? {
        MergeLookup(Folded(Default, default, front), Contribution(last).value, path, leaf);
      }
    }
  }

  /** A source that fails to load can be taken out of the list, under either strategy. */
  lemma {:induction false} FailuresChangeNothing(strategy: MergeStrategy, default: Value,
                                                 before: seq<Loaded>, failed: Loaded, after: seq<Loaded>)
    requires failed.Err?
    ensures Folded(strategy, default, before + [failed] + after) == Folded(strategy, default, before + after)
  {
    if after == [] {
      assert before + [failed] + after == before + [failed] && before + after == before;
      FoldedAppend(strategy, default, before, failed);
    } else {
      var front, last := after[..|after| - 1], after[|after| - 1];
      assert before + [failed] + after == before + [failed] + front + [last];
      assert before + after == before + front + [last];
      FailuresChangeNothing(strategy, default, before, failed, front);
      FoldedAppend(strategy, default, before + [failed] + front, last);
      FoldedAppend(strategy, default, before + front, last);
    }
  }

  /** Under the Override strategy only the last layer is seen. */
  lemma {:induction false} OverrideKeepsTheLast(default: Value, sources: seq<Loaded>, i: nat)
    requires i <= |sources| && Layer(default, sources, i).Some?
    requires forall j :: i < j <= |sources| ==> Layer(default, sources, j).None?
    ensures Folded(Override, default, sources) == Layer(default, sources, i).value
  {
    if sources != [] && i < |sources| {
      var front := sources[..|sources| - 1];
      assert Layer(default, sources, |sources|).None?;
      assert forall j :: 0 <= j <= |front| ==> Layer(default, front, j) == Layer(default, sources, j);
      OverrideKeepsTheLast(default, front, i);
    }
  }

  function Rejected(strategy: MergeStrategy): string {
    if strategy == Default then "Failed to deserialize merged config" else "Failed to deserialize override config"
  }

  /** Source `i` ends the load: its text does not parse, or the tree after it does not deserialise into
      the typed configuration. */
  ghost predicate Ends(strategy: MergeStrategy, default: Value, accepts: Value -> bool, sources: seq<Loaded>, i: nat)
    requires i < |sources|
  {
    Aborts(sources[i])
    || (Contribution(sources[i]).Some? && !accepts(Folded(strategy, default, sources[..i + 1])))
  }

  /** The answer of a load whose only source delivers `tree`. */
  ghost predicate AnswersOne(strategy: MergeStrategy, default: Value, tree: Value, accepts: Value -> bool,
                             config: Result<Value, string>)
  {
    match strategy
    case Default =>
      config == if accepts(Merge(default, tree)) then Ok(Merge(default, tree))
                else Err("Failed to deserialize merged config")
    case Override =>
      config == if accepts(tree) then Ok(tree) else Err("Failed to deserialize override config")
  }

  function ErrorOf(strategy: MergeStrategy, source: Loaded): string {
    if Aborts(source) then source.value.parsed.error else Rejected(strategy)
  }

  /** Source `i` is the first one that ends the load, with this error. */
  ghost predicate EndsAt(strategy: MergeStrategy, default: Value, accepts: Value -> bool, sources: seq<Loaded>,
                         i: nat, error: string)
  {
    && i < |sources| && Ends(strategy, default, accepts, sources, i) && error == ErrorOf(strategy, sources[i])
    && forall j :: 0 <= j < i ==> !Ends(strategy, default, accepts, sources, j)
  }

  /** The load fails exactly if some source ends it, with the first such source's error; otherwise it is the fold. */
  ghost predicate IsLoad(strategy: MergeStrategy, default: Value, accepts: Value -> bool, sources: seq<Loaded>,
                         config: Result<Value, string>)
  {
    && (config.Err? <==> exists i :: 0 <= i < |sources| && Ends(strategy, default, accepts, sources, i))
    && (config.Err? ==> exists i :: EndsAt(strategy, default, accepts, sources, i, config.error))
    && (config.Ok? ==> config.value == Folded(strategy, default, sources))
  }

  lemma OneSource(strategy: MergeStrategy, default: Value, accepts: Value -> bool, sources: seq<Loaded>,
                  config: Result<Value, string>)
    requires IsLoad(strategy, default, accepts, sources, config)
    ensures |sources| == 1 ==>
              match sources[0]
              case Ok(Json(tree)) => AnswersOne(strategy, default, tree, accepts, config)
              case Ok(Toml(Ok(tree))) => AnswersOne(strategy, default, tree, accepts, config)
              case Ok(Toml(Err(error))) => config == Err(error)
              case Err(_) => config == Ok(default)
  {
    if |sources| == 1 {
      assert sources[..0] == [] && sources[..1] == sources;
      assert Folded(strategy, default, []) == default;
      assert config.Err? <==> Ends(strategy, default, accepts, sources, 0);
    }
  }

  /** The merged object's entries. */
  ghost function MergedFields(base: map<string, Value>, overlay: map<string, Value>): (fields: map<string, Value>)
    ensures fields.Keys == base.Keys + overlay.Keys
    ensures forall k :: k in base && k !in overlay ==> fields[k] == base[k]
    ensures forall k :: k in overlay ==> fields[k] == if k in base then Merge(base[k], overlay[k]) else overlay[k]
    ensures Obj(fields) == Merge(Obj(base), Obj(overlay))
  {
    Merge(Obj(base), Obj(overlay)).fields
  }

  /** `fields` is on its way from `base` to `target`: the keys of `remaining` are still to come. */
  ghost predicate Underway(fields: map<string, Value>, base: map<string, Value>, target: map<string, Value>,
                           remaining: set<string>)
  {
    && base.Keys <= target.Keys && remaining <= target.Keys
    && fields.Keys == base.Keys + (target.Keys - remaining)
    && (forall k :: k in fields ==> fields[k] == if k in remaining then base[k] else target[k])
    && (remaining == {} ==> fields == target)
  }

  lemma OneKeyFurther(fields: map<string, Value>, base: map<string, Value>, target: map<string, Value>,
                      remaining: set<string>, key: string)
    requires Underway(fields, base, target, remaining) && key in remaining
    ensures Underway(fields[key := target[key]], base, target, remaining - {key})
  {
  }

  /** The overlay as the program runs it: the overlay's entries, in any order, are moved one
      by one into the base's map. */
  method DeepMerge(base: Value, overlay: Value) returns (merged: Value)
    ensures merged == Merge(base, overlay)
    decreases overlay
  {
    if !base.Obj? || !overlay.Obj? {
      return overlay;
    }
    var fields := base.fields;
    var remaining := overlay.fields.Keys;
    ghost var target := MergedFields(base.fields, overlay.fields);
    while remaining != {}
      invariant remaining <= overlay.fields.Keys
      invariant Underway(fields, base.fields, target, remaining)
      decreases remaining
    {
      var key :| key in remaining;
      var value := overlay.fields[key];
      OneKeyFurther(fields, base.fields, target, remaining, key);
      if key in fields {
        var baseValue := fields[key];
        fields := fields - {key};
        value := DeepMerge(baseValue, value);
      }
      fields := fields[key := value];
      remaining := remaining - {key};
    }
    merged := Obj(fields);
  }

  class Loader {
    var sources: seq<Loaded>
    var strategy: MergeStrategy

    constructor ()
      ensures sources == [] && strategy == Default
    {
      sources, strategy := [], Default;
    }

    method AddSource(source: Loaded)
      modifies this
      ensures sources == old(sources) + [source] && strategy == old(strategy)
    {
      sources := sources + [source];
    }

    method WithMergeStrategy(s: MergeStrategy)
      modifies this
      ensures strategy == s && sources == old(sources)
    {
      strategy := s;
    }

    /** Folds the sources over the default; the first source that ends the load decides the error. */
    method FoldSources(default: Value, accepts: Value -> bool) returns (config: Result<Value, string>)
      ensures IsLoad(strategy, default, accepts, sources, config)
    {
      var tree := default;
      for i := 0 to |sources|
        invariant forall j :: 0 <= j < i ==> !Ends(strategy, default, accepts, sources, j)
        invariant tree == Folded(strategy, default, sources[..i])
      {
        assert sources[..i + 1] == sources[..i] + [sources[i]];
        FoldedAppend(strategy, default, sources[..i], sources[i]);
        if sources[i].Ok? {
          var overlay := sources[i].value.AsJson();
          if overlay.Err? {
            assert EndsAt(strategy, default, accepts, sources, i, overlay.error);
            return Err(overlay.error);
          }
          if strategy == Default {
            tree := DeepMerge(tree, overlay.value);
          } else {
            tree := overlay.value;
          }
          if !accepts(tree) {
            assert EndsAt(strategy, default, accepts, sources, i, Rejected(strategy));
            return Err(Rejected(strategy));
          }
        }
      }
      assert sources[..|sources|] == sources;
      config := Ok(tree);
    }

    /** `load`; whether a tree deserialises into the typed configuration is for `accepts` to say. */
    method Load(default: Value, accepts: Value -> bool) returns (config: Result<Value, string>)
      ensures IsLoad(strategy, default, accepts, sources, config)
      ensures config.Ok? && strategy == Default ==>
                forall path, leaf :: HasLeaf(config.value, path, leaf)
                                <==> exists i :: Decides(default, sources, i, path, leaf)
      ensures |sources| == 1 ==>
                match sources[0]
                case Ok(Json(tree)) => AnswersOne(strategy, default, tree, accepts, config)
                case Ok(Toml(Ok(tree))) => AnswersOne(strategy, default, tree, accepts, config)
                case Ok(Toml(Err(error))) => config == Err(error)
                case Err(_) => config == Ok(default)
    {
      config := FoldSources(default, accepts);
      OneSource(strategy, default, accepts, sources, config);
      forall path, leaf | config.Ok? && strategy == Default
        ensures HasLeaf(config.value, path, leaf) <==> exists i :: Decides(default, sources, i, path, leaf)
      {
        PrecedenceByPath(default, sources, path, leaf);
      }
    }
  }
}
