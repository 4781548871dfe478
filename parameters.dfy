/**
  `podcast_downloader/parameters.py`: layering configuration dictionaries,
  later layers overriding earlier ones key by key.
 */
module Parameters {

  /** The layers applied in order on top of `default`: the last layer wins. */
  function Merged<K, V>(default: map<K, V>, layers: seq<map<K, V>>): map<K, V>
  {
    if layers == [] then default
    else Merged(default, layers[..|layers| - 1]) + layers[|layers| - 1]
  }

  /**
    `merge_parameters_collection(default, *args)`: a copy of `default`,
    then every key of every argument written into it, argument by argument.
   */
  method MergeParametersCollection<K, V>(default: map<K, V>, args: seq<map<K, V>>)
    returns (result: map<K, V>)
    ensures result == Merged(default, args)
    ensures args == [] ==> result == default
  {
    result := default;
    var n := 0;
    while n < |args|
      invariant 0 <= n <= |args|
      invariant result == Merged(default, args[..n])
    {
      var arg := args[n];
      ghost var before := result;
      var pending := arg.Keys;
      while pending != {}
        invariant pending <= arg.Keys
        invariant forall k :: k in result <==> k in before || (k in arg && k !in pending)
        invariant forall k :: k in result ==>
                    result[k] == if k in arg && k !in pending then arg[k] else before[k]
        decreases pending
      {
        var key :| key in pending;
        result := result[key := arg[key]];
        pending := pending - {key};
      }
      assert result == before + arg;
      assert args[..n + 1][..n] == args[..n];
      n := n + 1;
    }
    assert args[..n] == args;
  }

  /** A key is in the result exactly when the default or some layer has it. */
  lemma {:induction false} MergedKeys<K, V>(default: map<K, V>, layers: seq<map<K, V>>, k: K)
    ensures k in Merged(default, layers) <==>
              k in default || exists i :: 0 <= i < |layers| && k in layers[i]
  {
    if layers != [] {
      var front := layers[..|layers| - 1];
      MergedKeys(default, front, k);
      if exists i :: 0 <= i < |layers| && k in layers[i] {
        var i :| 0 <= i < |layers| && k in layers[i];
        if i < |front| {
          assert k in front[i];
        }
      }
    }
  }

  /** A key takes its value from the last layer that has it. */
  lemma {:induction false} MergedLastLayerWins<K, V>(default: map<K, V>, layers: seq<map<K, V>>, k: K, i: nat)
    requires i < |layers| && k in layers[i]
    requires forall j :: i < j < |layers| ==> k !in layers[j]
    ensures k in Merged(default, layers) && Merged(default, layers)[k] == layers[i][k]
  {
    var front := layers[..|layers| - 1];
    if i < |layers| - 1 {
      MergedLastLayerWins(default, front, k, i);
    }
  }

  /** A key that no layer has keeps its default value. */
  lemma {:induction false} MergedKeepsDefault<K, V>(default: map<K, V>, layers: seq<map<K, V>>, k: K)
    requires k in default
    requires forall j :: 0 <= j < |layers| ==> k !in layers[j]
    ensures k in Merged(default, layers) && Merged(default, layers)[k] == default[k]
  {
    if layers != [] {
      MergedKeepsDefault(default, layers[..|layers| - 1], k);
    }
  }
}
