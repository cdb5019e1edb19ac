/** The batch calls where the server keeps one map from path to watch point: macOS, and unregistering on Windows. */
module WatchedSet {
  import opened Prelude

  /** Erases the paths one by one; the answer is true when every erase found its path. */
  function EraseAll<K, V>(watched: map<K, V>, paths: seq<K>): (map<K, V>, bool) {
    if paths == [] then (watched, true)
    else
      var (rest, success) := EraseAll(watched - {paths[0]}, paths[1..]);
      (rest, paths[0] in watched && success)
  }

  /** All the paths are gone and nothing else is; the answer is true exactly when they were pairwise distinct and all watched. */
  lemma {:induction false} EraseAllRemoves<K, V>(watched: map<K, V>, paths: seq<K>)
    ensures var (rest, success) := EraseAll(watched, paths);
      && rest == watched - Elements(paths)
      && (success <==> Distinct(paths) && forall p :: p in paths ==> p in watched)
    decreases |paths|
  {
    if paths != [] {
      EraseAllRemoves(watched - {paths[0]}, paths[1..]);
      assert paths == [paths[0]] + paths[1..];
      DistinctCons(paths[0], paths[1..]);
      assert watched - Elements(paths) == (watched - {paths[0]}) - Elements(paths[1..]);
    }
  }

  /**
   * Where an entry means that the path is being watched, as on macOS: the answer means "the paths
   * were watched and are no longer" exactly when some path was not watched, or no path is repeated.
   */
  lemma AnswerAsDocumentedIff<K, V>(watched: map<K, V>, paths: seq<K>)
    ensures var (rest, success) := EraseAll(watched, paths);
      (success <==> forall p :: p in paths ==> p in watched && p !in rest) <==>
        ((forall p :: p in paths ==> p in watched) ==> Distinct(paths))
  {
    EraseAllRemoves(watched, paths);
    assert forall p :: p in paths ==> p in Elements(paths);
  }

  /**
   * Adds the paths one by one and stops at the first that is watched already, or whose watch point
   * cannot be made (`None`). The second component counts the paths that were added.
   */
  function AddAll<K, V>(watched: map<K, V>, paths: seq<K>, made: seq<Option<V>>): (r: (map<K, V>, nat))
    requires |paths| == |made|
    ensures r.1 <= |paths|
    decreases |paths|
  {
    if paths == [] || paths[0] in watched || made[0].None? then (watched, 0)
    else
      var (rest, added) := AddAll(watched[paths[0] := made[0].value], paths[1..], made[1..]);
      (rest, added + 1)
  }

  /** What a call that added `added` of the paths has changed. */
  ghost predicate AddedPrefix<K, V>(watched: map<K, V>, paths: seq<K>, made: seq<Option<V>>, added: nat, rest: map<K, V>)
    requires added <= |paths| == |made|
  {
    && Distinct(paths[..added])
    && Elements(paths[..added]) !! watched.Keys
    && rest.Keys == watched.Keys + Elements(paths[..added])
    && (forall p :: p in watched ==> rest[p] == watched[p])
    && (forall i :: 0 <= i < added ==> paths[i] in rest && made[i] == Some(rest[paths[i]]))
  }

  lemma AddedOneMore<K, V>(watched: map<K, V>, paths: seq<K>, made: seq<Option<V>>, added: nat, rest: map<K, V>)
    requires paths != [] && added < |paths| == |made| && paths[0] !in watched && made[0].Some?
    requires AddedPrefix(watched[paths[0] := made[0].value], paths[1..], made[1..], added, rest)
    ensures AddedPrefix(watched, paths, made, added + 1, rest)
  {
    hide Distinct;
    var one := watched[paths[0] := made[0].value];
    assert paths[..added + 1] == [paths[0]] + paths[1..][..added];
    DistinctCons(paths[0], paths[1..][..added]);
    assert Elements(paths[..added + 1]) == {paths[0]} + Elements(paths[1..][..added]);
    assert paths[0] in one.Keys && rest[paths[0]] == one[paths[0]];
    forall p | p in watched ensures rest[p] == watched[p] {
      assert p in one && one[p] == watched[p];
    }
    forall i | 0 <= i < added + 1 ensures paths[i] in rest && made[i] == Some(rest[paths[i]]) {
      if i > 0 {
        assert paths[i] == paths[1..][i - 1] && made[i] == made[1..][i - 1];
      }
    }
  }

  /** Exactly the prefix before the first failing path has been added, and nothing has been replaced. */
  lemma {:induction false} AddAllAddsAPrefix<K, V>(watched: map<K, V>, paths: seq<K>, made: seq<Option<V>>)
    requires |paths| == |made|
    ensures var (rest, added) := AddAll(watched, paths, made);
      && AddedPrefix(watched, paths, made, added, rest)
      && (added < |paths| ==> paths[added] in rest || made[added].None?)
    decreases |paths|
  {
    if paths != [] && paths[0] !in watched && made[0].Some? {
      hide AddedPrefix;
      var watched1 := watched[paths[0] := made[0].value];
      AddAllAddsAPrefix(watched1, paths[1..], made[1..]);
      var (rest, added) := AddAll(watched1, paths[1..], made[1..]);
      AddedOneMore(watched, paths, made, added, rest);
    }
  }
}
