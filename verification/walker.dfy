/**
 * The "create-tokens" handler: every local collection gets a tree seeded with
 * its name, each of its variables that the host can find is inserted under the
 * collection's default mode, and the finished trees are appended, in order, to
 * the module-level array `updatedTokenCollections` that is then posted.
 */
module Walker {
  import opened Wrappers
  import opened Json
  import Names
  import Resolver
  import TokenTree

  /** The path segments of a variable the host knows. */
  function KeysOf(host: Resolver.Host, id: string): (keys: seq<string>)
    requires id in host.variables
    ensures |keys| >= 1
  {
    Names.Split(host.variables[id].name)
  }

  /** The value a variable the host knows gets under `mode`. */
  function ValueOf(host: Resolver.Host, id: string, mode: string): JsValue
    requires id in host.variables
  {
    TokenTree.StoredValue(host.variables[id], mode, host)
  }

  /** One variable id: inserted when the host finds it, skipped otherwise. */
  function InsertId(t: Props, id: string, mode: string, host: Resolver.Host): (r: Props)
    ensures t.Keys <= r.Keys
    ensures id in host.variables ==> KeysOf(host, id)[0] in r
    ensures id !in host.variables ==> r == t
  {
    if id in host.variables then TokenTree.Put(t, KeysOf(host, id), ValueOf(host, id, mode)) else t
  }

  /** The variable ids of a collection, taken in order. */
  function InsertIds(t: Props, ids: seq<string>, mode: string, host: Resolver.Host): (r: Props)
    ensures t.Keys <= r.Keys
    ensures forall i :: 0 <= i < |ids| && ids[i] in host.variables ==> KeysOf(host, ids[i])[0] in r
    decreases |ids|
  {
    if ids == [] then t else InsertId(InsertIds(t, ids[..|ids| - 1], mode, host), ids[|ids| - 1], mode, host)
  }

  /** `{ name: collection.name }`. */
  function Seed(c: Resolver.VariableCollection): Props
  {
    map["name" := Str(c.name)]
  }

  /** The finished tree of one collection. */
  function BuildTree(c: Resolver.VariableCollection, host: Resolver.Host): (r: Props)
    ensures "name" in r
    ensures forall i :: 0 <= i < |c.variableIds| && c.variableIds[i] in host.variables ==>
      KeysOf(host, c.variableIds[i])[0] in r
  {
    InsertIds(Seed(c), c.variableIds, c.defaultModeId, host)
  }

  /** The trees of all collections: one per collection, in the collections' order. */
  function BuildAll(cs: seq<Resolver.VariableCollection>, host: Resolver.Host): (r: seq<Props>)
    ensures |r| == |cs|
    ensures forall j :: 0 <= j < |cs| ==> r[j] == BuildTree(cs[j], host)
    decreases |cs|
  {
    if cs == [] then [] else BuildAll(cs[..|cs| - 1], host) + [BuildTree(cs[|cs| - 1], host)]
  }

  /** The ids the host can find, in their order. */
  function Found(ids: seq<string>, host: Resolver.Host): (r: seq<string>)
    ensures forall i :: 0 <= i < |r| ==> r[i] in host.variables
    ensures forall x :: x in r <==> x in ids && x in host.variables
    decreases |ids|
  {
    if ids == [] then []
    else
      assert ids == ids[..|ids| - 1] + [ids[|ids| - 1]];
      if ids[|ids| - 1] in host.variables then Found(ids[..|ids| - 1], host) + [ids[|ids| - 1]]
      else Found(ids[..|ids| - 1], host)
  }

  /** Each found id is kept as often as it occurs; the others not at all. */
  lemma {:induction false} FoundCounts(ids: seq<string>, host: Resolver.Host)
    ensures forall x :: x in host.variables ==> multiset(Found(ids, host))[x] == multiset(ids)[x]
    ensures forall x :: x !in host.variables ==> multiset(Found(ids, host))[x] == 0
    decreases |ids|
  {
    if ids != [] {
      var init, last := ids[..|ids| - 1], ids[|ids| - 1];
      FoundCounts(init, host);
      assert ids == init + [last];
      assert multiset(ids) == multiset(init) + multiset{last};
    }
  }

  /** Ids the host cannot find leave no trace: only the found ones matter. */
  lemma {:induction false} SkipsMissing(t: Props, ids: seq<string>, mode: string, host: Resolver.Host)
    ensures InsertIds(t, ids, mode, host) == InsertIds(t, Found(ids, host), mode, host)
    decreases |ids|
  {
    if ids != [] {
      var init, last := ids[..|ids| - 1], ids[|ids| - 1];
      SkipsMissing(t, init, mode, host);
      var before := InsertIds(t, init, mode, host);
      if last in host.variables {
        var f := Found(init, host) + [last];
        assert Found(ids, host) == f;
        assert f[..|f| - 1] == Found(init, host);
        assert InsertIds(t, f, mode, host) == InsertId(before, last, mode, host);
      } else {
        assert Found(ids, host) == Found(init, host);
      }
    }
  }

  /**
   * The seeded `name` survives every insertion whose first segment is not
   * `name`.
   */
  lemma {:induction false} KeepsName(t: Props, ids: seq<string>, mode: string, host: Resolver.Host, name: JsValue)
    requires "name" in t && t["name"] == name
    requires forall i :: 0 <= i < |ids| && ids[i] in host.variables ==> KeysOf(host, ids[i])[0] != "name"
    ensures var r := InsertIds(t, ids, mode, host); "name" in r && r["name"] == name
    decreases |ids|
  {
    if ids != [] {
      var init, last := ids[..|ids| - 1], ids[|ids| - 1];
      assert forall i :: 0 <= i < |init| ==> init[i] == ids[i];
      KeepsName(t, init, mode, host, name);
    }
  }

  /** The ids at positions i < j, both found, name parting paths. */
  predicate PathsPart(ids: seq<string>, host: Resolver.Host)
  {
    forall i, j :: 0 <= i < j < |ids| && ids[i] in host.variables && ids[j] in host.variables ==>
      TokenTree.Diverge(KeysOf(host, ids[i]), KeysOf(host, ids[j]))
  }

  /**
   * When no path of the collection is a prefix of another and none is blocked
   * at the start, every variable the host finds can be read back at its path.
   */
  lemma {:induction false} InsertIdsReach(t: Props, ids: seq<string>, mode: string, host: Resolver.Host)
    requires PathsPart(ids, host)
    requires forall i :: 0 <= i < |ids| && ids[i] in host.variables ==> !TokenTree.Blocked(t, KeysOf(host, ids[i]))
    ensures forall i :: 0 <= i < |ids| && ids[i] in host.variables ==>
      TokenTree.Lookup(InsertIds(t, ids, mode, host), KeysOf(host, ids[i])) == Some(ValueOf(host, ids[i], mode))
    decreases |ids|
  {
    if ids != [] {
      var n := |ids| - 1;
      var init, last := ids[..n], ids[n];
      var before := InsertIds(t, init, mode, host);
      assert forall i :: 0 <= i < n ==> init[i] == ids[i];
      InsertIdsReach(t, init, mode, host);
      if last in host.variables {
        var keys := KeysOf(host, last);
        var v := ValueOf(host, last, mode);
        UnblockedAfter(t, ids, mode, host, n);
        TokenTree.PutReaches(before, keys, v);
        forall i | 0 <= i < n && ids[i] in host.variables
          ensures TokenTree.Lookup(TokenTree.Put(before, keys, v), KeysOf(host, ids[i])) == Some(ValueOf(host, ids[i], mode))
        {
          TokenTree.PutFrame(before, keys, v, KeysOf(host, ids[i]));
        }
      }
    }
  }

  /** A later path stays unblocked while the earlier, parting ones are inserted. */
  lemma {:induction false} UnblockedAfter(t: Props, ids: seq<string>, mode: string, host: Resolver.Host, n: nat)
    requires n < |ids|
    requires PathsPart(ids, host)
    requires ids[n] in host.variables && !TokenTree.Blocked(t, KeysOf(host, ids[n]))
    ensures !TokenTree.Blocked(InsertIds(t, ids[..n], mode, host), KeysOf(host, ids[n]))
    decreases n
  {
    if n > 0 {
      var init := ids[..n];
      var k := n - 1;
      assert init[..k] == ids[..k] && init[k] == ids[k];
      var prev := ids[..k] + [ids[n]];
      assert PathsPart(prev, host) by {
        forall i, j | 0 <= i < j < |prev| && prev[i] in host.variables && prev[j] in host.variables
          ensures TokenTree.Diverge(KeysOf(host, prev[i]), KeysOf(host, prev[j]))
        {
          if j == k { assert prev[j] == ids[n]; }
          else { assert prev[j] == ids[j]; }
          assert prev[i] == ids[i];
        }
      }
      assert prev[..k] == ids[..k] && prev[k] == ids[n];
      UnblockedAfter(t, prev, mode, host, k);
      if ids[k] in host.variables {
        TokenTree.PutKeepsUnblocked(InsertIds(t, ids[..k], mode, host), KeysOf(host, ids[k]),
          ValueOf(host, ids[k], mode), KeysOf(host, ids[n]));
      }
    }
  }

  /**
   * In a collection whose variable paths part from one another and do not
   * start with `name`, the finished tree keeps the collection's name and holds
   * every variable the host finds at its path.
   */
  lemma BuildTreeComplete(c: Resolver.VariableCollection, host: Resolver.Host)
    requires PathsPart(c.variableIds, host)
    requires forall i :: 0 <= i < |c.variableIds| && c.variableIds[i] in host.variables ==>
      KeysOf(host, c.variableIds[i])[0] != "name"
    ensures var t := BuildTree(c, host); "name" in t && t["name"] == Str(c.name)
    ensures forall i :: 0 <= i < |c.variableIds| && c.variableIds[i] in host.variables ==>
      TokenTree.Lookup(BuildTree(c, host), KeysOf(host, c.variableIds[i]))
        == Some(ValueOf(host, c.variableIds[i], c.defaultModeId))
  {
    KeepsName(Seed(c), c.variableIds, c.defaultModeId, host, Str(c.name));
    InsertIdsReach(Seed(c), c.variableIds, c.defaultModeId, host);
  }

  /** The plugin's module-level state. */
  class TokenExporter {
    var updatedTokenCollections: seq<Props>

    constructor ()
      ensures updatedTokenCollections == []
    {
      updatedTokenCollections := [];
    }

    /**
     * The "create-tokens" message. `collections` is what
     * `getLocalVariableCollectionsAsync` yields, None when it fails; the
     * result is the data posted to the UI, None when nothing is posted.
     */
    method CreateTokens(collections: Option<seq<Resolver.VariableCollection>>, host: Resolver.Host)
      returns (posted: Option<seq<Props>>)
      modifies this
      ensures collections.None? ==> posted.None? && updatedTokenCollections == old(updatedTokenCollections)
      ensures collections.Some? ==>
        && updatedTokenCollections == old(updatedTokenCollections) + BuildAll(collections.value, host)
        && posted == Some(updatedTokenCollections)
    {
      if collections.None? {
        return None;
      }
      var cs := collections.value;
      var j := 0;
      while j < |cs|
        invariant 0 <= j <= |cs|
        invariant updatedTokenCollections == old(updatedTokenCollections) + BuildAll(cs[..j], host)
      {
        var collection := cs[j];
        var updatedTokenCollection := new TokenTree.TokenCollection(collection.name);
        var ids := collection.variableIds;
        var k := 0;
        while k < |ids|
          invariant 0 <= k <= |ids|
          invariant updatedTokenCollections == old(updatedTokenCollections) + BuildAll(cs[..j], host)
          invariant updatedTokenCollection.fields == InsertIds(Seed(collection), ids[..k], collection.defaultModeId, host)
        {
          var variableId := ids[k];
          if variableId in host.variables {
            var variable := host.variables[variableId];
            var _ := updatedTokenCollection.CreateCollectionModeJson(variable, collection.defaultModeId, host);
          }
          assert ids[..k + 1][..k] == ids[..k];
          k := k + 1;
        }
        assert ids[..k] == ids;
        updatedTokenCollections := updatedTokenCollections + [updatedTokenCollection.fields];
        assert cs[..j + 1][..j] == cs[..j];
        j := j + 1;
      }
      assert cs[..j] == cs;
      posted := Some(updatedTokenCollections);
    }
  }
}
