/**
 * `createCollectionModeJson`: a variable's value is stored in a token tree
 * under the segments of its slash-separated name. Every segment but the last
 * names an object that is walked into, and created as `{}` when the key is
 * missing or holds a falsy value; the last segment receives the value.
 */
module TokenTree {
  import opened Wrappers
  import opened Json
  import Names
  import Resolver

  /** The object reached from `m` by following `path` through nested objects. */
  function Descend(m: Props, path: seq<string>): Option<Props>
    decreases |path|
  {
    if path == [] then Some(m)
    else if path[0] in m && m[path[0]].Obj? then Descend(m[path[0]].props, path[1..])
    else None
  }

  /** The value a reader finds at `path`, e.g. `tree.a.b.c`. */
  function Lookup(m: Props, path: seq<string>): Option<JsValue>
    requires |path| >= 1
    decreases |path|
  {
    if path[0] !in m then None
    else if |path| == 1 then Some(m[path[0]])
    else if m[path[0]].Obj? then Lookup(m[path[0]].props, path[1..])
    else None
  }

  /** `obj[k] = x` on the object `obj` found at `path`, seen from the root. */
  function SetAt(m: Props, path: seq<string>, k: string, x: JsValue): Props
    requires Descend(m, path).Some?
    decreases |path|
  {
    if path == [] then m[k := x]
    else m[path[0] := Obj(SetAt(m[path[0]].props, path[1..], k, x))]
  }

  /**
   * The walk meets a truthy primitive before the last segment, as `a/b/c` does
   * after `a/b` was given a string. One segment past it, the last write targets
   * the primitive (a TypeError in strict mode, ignored otherwise). Two or more
   * segments past it, the walk reaches `undefined` and the next write throws in
   * either mode. Either way no object of the tree changes.
   */
  predicate Blocked(m: Props, keys: seq<string>)
    requires |keys| >= 1
    ensures Blocked(m, keys) ==> Lookup(m, keys) == None && Descend(m, keys[..|keys| - 1]) == None
    decreases |keys|
  {
    && |keys| > 1
    && keys[0] in m
    && Truthy(m[keys[0]])
    && (match m[keys[0]]
        case Obj(c) =>
          assert keys[..|keys| - 1][1..] == keys[1..][..|keys| - 2];
          Blocked(c, keys[1..])
        case _ => true)
  }

  /**
   * The tree after storing `v` under `keys`: the reference definition of the
   * insertion, one segment at a time.
   */
  function Put(m: Props, keys: seq<string>, v: JsValue): (r: Props)
    requires |keys| >= 1
    ensures Blocked(m, keys) ==> r == m
    decreases |keys|
  {
    var k := keys[0];
    if |keys| == 1 then m[k := v]
    else if k !in m || !Truthy(m[k]) then m[k := Obj(Put(map[], keys[1..], v))]
    else match m[k]
      case Obj(c) => m[k := Obj(Put(c, keys[1..], v))]
      case _ => m
  }

  /**
   * At the root, the insertion adds or changes at most the key of the first
   * segment; every other key keeps its value.
   */
  lemma PutTopFrame(m: Props, keys: seq<string>, v: JsValue)
    requires |keys| >= 1
    ensures var r := Put(m, keys, v);
      && m.Keys <= r.Keys <= m.Keys + {keys[0]}
      && forall k :: k in m && k != keys[0] ==> r[k] == m[k]
  {
  }

  /** Neither path is a prefix of the other: they part at some segment. */
  predicate Diverge(p: seq<string>, q: seq<string>)
  {
    !(p <= q) && !(q <= p)
  }

  /**
   * After the insertion the value is found at its path, unless the walk was
   * blocked by a primitive, in which case nothing changed. A single-segment
   * name is a key of the root.
   */
  lemma {:induction false} PutReaches(m: Props, keys: seq<string>, v: JsValue)
    requires |keys| >= 1
    ensures !Blocked(m, keys) ==> Lookup(Put(m, keys, v), keys) == Some(v)
    ensures |keys| == 1 ==> Put(m, keys, v)[keys[0]] == v
    decreases |keys|
  {
    if |keys| > 1 && !Blocked(m, keys) {
      var k := keys[0];
      if k !in m || !Truthy(m[k]) {
        PutReaches(map[], keys[1..], v);
      } else if m[k].Obj? {
        PutReaches(m[k].props, keys[1..], v);
      }
    }
  }

  /**
   * Entries at paths that part from the inserted one are untouched, so `a/b`
   * survives the insertion of `a/c`, and so does every other key at every level.
   */
  lemma {:induction false} PutFrame(m: Props, keys: seq<string>, v: JsValue, q: seq<string>)
    requires |keys| >= 1 && |q| >= 1
    requires Diverge(q, keys)
    ensures Lookup(Put(m, keys, v), q) == Lookup(m, q)
    decreases |keys|
  {
    var r := Put(m, keys, v);
    var k := keys[0];
    if q[0] == k {
      DivergeTail(q, keys);
      if k !in m || !Truthy(m[k]) {
        PutFrame(map[], keys[1..], v, q[1..]);
      } else if m[k].Obj? {
        PutFrame(m[k].props, keys[1..], v, q[1..]);
      }
    }
  }

  /**
   * Inserting below an object that already lies on the path acts on that
   * object alone: it is kept, not replaced, and receives the rest of the path.
   */
  lemma {:induction false} PutDescend(m: Props, keys: seq<string>, v: JsValue, j: nat)
    requires j < |keys|
    requires Descend(m, keys[..j]).Some?
    ensures Descend(Put(m, keys, v), keys[..j]) == Some(Put(Descend(m, keys[..j]).value, keys[j..], v))
    decreases j
  {
    if j == 0 {
      assert keys[..0] == [] && keys[0..] == keys;
    } else {
      var k := keys[0];
      assert keys[..j][0] == k && keys[..j][1..] == keys[1..][..j - 1];
      assert keys[j..] == keys[1..][j - 1..];
      PutDescend(m[k].props, keys[1..], v, j - 1);
    }
  }

  /**
   * An object already on the path keeps every key other than the next
   * segment, with its value: existing objects are reused.
   */
  lemma PutReusesObjects(m: Props, keys: seq<string>, v: JsValue, j: nat)
    requires j < |keys|
    requires Descend(m, keys[..j]).Some?
    ensures Descend(Put(m, keys, v), keys[..j]).Some?
    ensures var d, d' := Descend(m, keys[..j]).value, Descend(Put(m, keys, v), keys[..j]).value;
      forall k :: k in d && k != keys[j] ==> k in d' && d'[k] == d[k]
  {
    PutDescend(m, keys, v, j);
  }

  /**
   * A key on the path that is missing or holds a falsy value becomes a new
   * object holding nothing but the rest of the path.
   */
  lemma PutCreatesObject(m: Props, keys: seq<string>, v: JsValue, j: nat)
    requires j < |keys| - 1
    requires Descend(m, keys[..j]).Some?
    requires var d := Descend(m, keys[..j]).value; keys[j] !in d || !Truthy(d[keys[j]])
    ensures Descend(Put(m, keys, v), keys[..j + 1]) == Some(Put(map[], keys[j + 1..], v))
  {
    var r := Put(m, keys, v);
    var d := Descend(m, keys[..j]).value;
    PutDescend(m, keys, v, j);
    assert keys[j..][0] == keys[j] && keys[j..][1..] == keys[j + 1..];
    DescendExtend(r, keys[..j], keys[j]);
    assert keys[..j] + [keys[j]] == keys[..j + 1];
  }

  /** A path that is not blocked stays so when a parting path is inserted. */
  lemma {:induction false} PutKeepsUnblocked(m: Props, keys: seq<string>, v: JsValue, q: seq<string>)
    requires |keys| >= 1 && |q| >= 1
    requires Diverge(q, keys)
    requires !Blocked(m, q)
    ensures !Blocked(Put(m, keys, v), q)
    decreases |keys|
  {
    var k := keys[0];
    if q[0] == k {
      DivergeTail(q, keys);
      if k !in m || !Truthy(m[k]) {
        PutKeepsUnblocked(map[], keys[1..], v, q[1..]);
      } else if m[k].Obj? {
        PutKeepsUnblocked(m[k].props, keys[1..], v, q[1..]);
      }
    }
  }

  /** Two parting paths with the same first segment part further down. */
  lemma DivergeTail(p: seq<string>, q: seq<string>)
    requires Diverge(p, q)
    requires |p| >= 1 && |q| >= 1 && p[0] == q[0]
    ensures |p| > 1 && |q| > 1 && Diverge(p[1..], q[1..])
  {
  }

  // Facts about single steps of the walk in CreateCollectionModeJson.

  lemma {:induction false} DescendExtend(m: Props, p: seq<string>, k: string)
    requires Descend(m, p).Some?
    requires k in Descend(m, p).value && Descend(m, p).value[k].Obj?
    ensures Descend(m, p + [k]) == Some(Descend(m, p).value[k].props)
    decreases |p|
  {
    if p != [] {
      assert (p + [k])[1..] == p[1..] + [k];
      DescendExtend(m[p[0]].props, p[1..], k);
    }
  }

  lemma {:induction false} DescendSetAt(m: Props, p: seq<string>, k: string, x: JsValue)
    requires Descend(m, p).Some?
    ensures Descend(SetAt(m, p, k, x), p) == Some(Descend(m, p).value[k := x])
    decreases |p|
  {
    if p != [] {
      DescendSetAt(m[p[0]].props, p[1..], k, x);
    }
  }

  /** Creating the missing object at step i leaves the final tree as it was going to be. */
  lemma {:induction false} CreateStep(m: Props, keys: seq<string>, v: JsValue, i: nat)
    requires i < |keys| - 1
    requires Descend(m, keys[..i]).Some?
    requires var c := Descend(m, keys[..i]).value; keys[i] !in c || !Truthy(c[keys[i]])
    ensures Put(SetAt(m, keys[..i], keys[i], Obj(map[])), keys, v) == Put(m, keys, v)
    decreases i
  {
    if i > 0 {
      var k := keys[0];
      assert keys[..i][0] == k && keys[..i][1..] == keys[1..][..i - 1];
      CreateStep(m[k].props, keys[1..], v, i - 1);
    }
  }

  /** Where step i has to create an object, neither tree is blocked on the path. */
  lemma {:induction false} CreateStepUnblocked(m: Props, keys: seq<string>, i: nat)
    requires i < |keys| - 1
    requires Descend(m, keys[..i]).Some?
    requires var c := Descend(m, keys[..i]).value; keys[i] !in c || !Truthy(c[keys[i]])
    ensures !Blocked(m, keys) && !Blocked(SetAt(m, keys[..i], keys[i], Obj(map[])), keys)
    decreases i
  {
    if i > 0 {
      var k := keys[0];
      assert keys[..i][0] == k && keys[..i][1..] == keys[1..][..i - 1];
      CreateStepUnblocked(m[k].props, keys[1..], i - 1);
    }
  }

  /** Everything the walk needs to know after creating the object at step i. */
  lemma CreateAdvance(m: Props, keys: seq<string>, v: JsValue, i: nat)
    requires i < |keys| - 1
    requires Descend(m, keys[..i]).Some?
    requires var c := Descend(m, keys[..i]).value; keys[i] !in c || !Truthy(c[keys[i]])
    ensures var m' := SetAt(m, keys[..i], keys[i], Obj(map[]));
      && Put(m', keys, v) == Put(m, keys, v)
      && Blocked(m', keys) == Blocked(m, keys)
      && Descend(m', keys[..i + 1]) == Some(map[])
  {
    var m' := SetAt(m, keys[..i], keys[i], Obj(map[]));
    CreateStep(m, keys, v, i);
    CreateStepUnblocked(m, keys, i);
    DescendSetAt(m, keys[..i], keys[i], Obj(map[]));
    DescendExtend(m', keys[..i], keys[i]);
    assert keys[..i] + [keys[i]] == keys[..i + 1];
  }

  /** Walking into an existing object at step i. */
  lemma DescendAdvance(m: Props, keys: seq<string>, i: nat)
    requires i < |keys|
    requires Descend(m, keys[..i]).Some?
    requires var c := Descend(m, keys[..i]).value; keys[i] in c && c[keys[i]].Obj?
    ensures Descend(m, keys[..i + 1]) == Some(Descend(m, keys[..i]).value[keys[i]].props)
  {
    DescendExtend(m, keys[..i], keys[i]);
    assert keys[..i] + [keys[i]] == keys[..i + 1];
  }

  /** Once the last parent is reached, the insertion is a single assignment there. */
  lemma {:induction false} FinalStep(m: Props, keys: seq<string>, v: JsValue)
    requires |keys| >= 1
    requires Descend(m, keys[..|keys| - 1]).Some?
    ensures Put(m, keys, v) == SetAt(m, keys[..|keys| - 1], keys[|keys| - 1], v)
    ensures !Blocked(m, keys)
    decreases |keys|
  {
    if |keys| > 1 {
      var k := keys[0];
      assert keys[..|keys| - 1][0] == k;
      assert keys[..|keys| - 1][1..] == keys[1..][..|keys[1..]| - 1];
      FinalStep(m[k].props, keys[1..], v);
    }
  }

  /** Meeting a truthy primitive at step i means the insertion is blocked. */
  lemma {:induction false} BlockStep(m: Props, keys: seq<string>, i: nat)
    requires i < |keys| - 1
    requires Descend(m, keys[..i]).Some?
    requires var c := Descend(m, keys[..i]).value;
      keys[i] in c && Truthy(c[keys[i]]) && !c[keys[i]].Obj?
    ensures Blocked(m, keys)
    decreases i
  {
    if i > 0 {
      var k := keys[0];
      assert keys[..i][0] == k && keys[..i][1..] == keys[1..][..i - 1];
      BlockStep(m[k].props, keys[1..], i - 1);
    }
  }

  /**
   * What a variable's value becomes for one mode: nothing stored for the mode
   * gives `undefined`, a primitive is kept, and an object (colour or alias)
   * is replaced by the string `valueParser` returns.
   */
  function StoredValue(variable: Resolver.Variable, mode: string, host: Resolver.Host): (r: JsValue)
    ensures mode !in variable.valuesByMode <==> r.Undefined?
    ensures mode in variable.valuesByMode && !Resolver.IsObject(variable.valuesByMode[mode]) ==>
      r == Resolver.Primitive(variable.valuesByMode[mode])
    ensures mode in variable.valuesByMode && Resolver.IsObject(variable.valuesByMode[mode]) ==>
      r == Str(Resolver.ValueParser(variable.valuesByMode[mode], host))
  {
    if mode !in variable.valuesByMode then Undefined
    else
      var raw := variable.valuesByMode[mode];
      if Resolver.IsObject(raw) then Str(Resolver.ValueParser(raw, host)) else Resolver.Primitive(raw)
  }

  /** The object a token tree is built in, updated in place by each insertion. */
  class TokenCollection {
    var fields: Props

    /** `{ name: collection.name }`. */
    constructor (name: string)
      ensures fields == map["name" := Str(name)]
    {
      fields := map["name" := Str(name)];
    }

    /**
     * Stores the variable's value for `collectionMode` under the segments of
     * its name and returns the innermost parent object, as it is after the
     * assignment; None when the walk is blocked by a primitive.
     */
    method CreateCollectionModeJson(variable: Resolver.Variable, collectionMode: string, host: Resolver.Host)
      returns (parent: Option<Props>)
      modifies this
      ensures var keys := Names.Split(variable.name);
        fields == Put(old(fields), keys, StoredValue(variable, collectionMode, host))
      ensures var keys := Names.Split(variable.name);
        parent.None? <==> Blocked(old(fields), keys)
      ensures var keys := Names.Split(variable.name);
        parent.Some? ==>
          && Descend(fields, keys[..|keys| - 1]) == parent
          && keys[|keys| - 1] in parent.value
          && parent.value[keys[|keys| - 1]] == StoredValue(variable, collectionMode, host)
    {
      var keys := Names.Split(variable.name);
      var value: JsValue := Undefined;
      if collectionMode in variable.valuesByMode {
        var raw := variable.valuesByMode[collectionMode];
        if Resolver.IsObject(raw) {
          value := Str(Resolver.ValueParser(raw, host));
        } else {
          value := Resolver.Primitive(raw);
        }
      }

      var n := |keys|;
      var cur := fields;
      var blocked := false;
      var i := 0;
      while i < n - 1 && !blocked
        invariant 0 <= i <= n - 1
        invariant Put(fields, keys, value) == Put(old(fields), keys, value)
        invariant Blocked(fields, keys) == Blocked(old(fields), keys)
        invariant !blocked ==> Descend(fields, keys[..i]) == Some(cur)
        invariant blocked ==> Blocked(fields, keys)
        decreases n - 1 - i, if blocked then 0 else 1
      {
        var key := keys[i];
        if key !in cur || !Truthy(cur[key]) {
          CreateAdvance(fields, keys, value, i);
          fields := SetAt(fields, keys[..i], key, Obj(map[]));
          cur := map[];
          i := i + 1;
        } else if cur[key].Obj? {
          DescendAdvance(fields, keys, i);
          cur := cur[key].props;
          i := i + 1;
        } else {
          // The walk has reached a primitive: no further write reaches the tree.
          BlockStep(fields, keys, i);
          blocked := true;
        }
      }

      if blocked {
        parent := None;
      } else {
        FinalStep(fields, keys, value);
        DescendSetAt(fields, keys[..n - 1], keys[n - 1], value);
        fields := SetAt(fields, keys[..n - 1], keys[n - 1], value);
        cur := cur[keys[n - 1] := value];
        parent := Some(cur);
      }
    }
  }
}
