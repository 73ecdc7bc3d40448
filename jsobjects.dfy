/** Plain JavaScript objects as the extension uses them: string keys in
    enumeration order (`Object.keys`), each with one value. Reading a
    missing key gives `None` (`undefined`); assigning to an existing key
    keeps its place and assigning to a new key appends it. */
module JsObjects {
  import opened Wrappers
  import opened Strings

  datatype Prop<V> = Prop(key: string, value: V)

  type Obj<V> = seq<Prop<V>>

  /** `o[k]`. */
  function Get<V>(o: Obj<V>, k: string): (r: Option<V>)
    decreases |o|
  {
    if o == [] then None
    else if o[0].key == k then Some(o[0].value)
    else Get(o[1..], k)
  }

  /** A lookup finds nothing exactly when no property has the key, and
      otherwise finds the value of a property with that key. */
  lemma {:induction false} GetSpec<V>(o: Obj<V>, k: string)
    ensures Get(o, k).None? <==> forall i :: 0 <= i < |o| ==> o[i].key != k
    ensures Get(o, k).Some? ==> exists i :: 0 <= i < |o| && o[i] == Prop(k, Get(o, k).value)
    decreases |o|
  {
    if o != [] && o[0].key != k {
      GetSpec(o[1..], k);
      assert forall i :: 0 < i < |o| ==> o[i] == o[1..][i - 1];
    }
  }

  /** `o[k] = v`. */
  function Put<V>(o: Obj<V>, k: string, v: V): (r: Obj<V>)
    ensures Get(r, k) == Some(v)
    ensures forall k' :: k' != k ==> Get(r, k') == Get(o, k')
    ensures Get(o, k).Some? ==> |r| == |o|
    ensures Get(o, k).None? ==> r == o + [Prop(k, v)]
    decreases |o|
  {
    if o == [] then ConsGet(Prop(k, v), []); [Prop(k, v)]
    else
      assert o == [o[0]] + o[1..];
      ConsGet(o[0], o[1..]);
      if o[0].key == k then ConsGet(Prop(k, v), o[1..]); [Prop(k, v)] + o[1..]
      else
        var rest := Put(o[1..], k, v);
        ConsGet(o[0], rest);
        assert Get(o, k).None? ==> [o[0]] + rest == [o[0]] + (o[1..] + [Prop(k, v)]) == o + [Prop(k, v)];
        [o[0]] + rest
  }

  /** A property put in front answers its own key and passes every other
      key on. */
  lemma ConsGet<V>(p: Prop<V>, rest: Obj<V>)
    ensures forall k' :: Get([p] + rest, k') == if p.key == k' then Some(p.value) else Get(rest, k')
  {
    assert ([p] + rest)[0] == p && ([p] + rest)[1..] == rest;
  }

  /** Looking a key up in two objects laid end to end. */
  lemma {:induction false} GetAppend<V>(a: Obj<V>, b: Obj<V>, k: string)
    ensures Get(a + b, k) == if Get(a, k).Some? then Get(a, k) else Get(b, k)
    decreases |a|
  {
    if a != [] {
      assert (a + b)[0] == a[0];
      assert (a + b)[1..] == a[1..] + b;
      GetAppend(a[1..], b, k);
    } else {
      assert a + b == b;
    }
  }

  /** The properties whose key starts with `prefix`, in order. */
  function WithKeyPrefix<V>(o: Obj<V>, prefix: string): (r: Obj<V>)
    ensures |r| <= |o|
    decreases |o|
  {
    if o == [] then []
    else WithKeyPrefix(o[..|o| - 1], prefix) + (if StartsWith(o[|o| - 1].key, prefix) then [o[|o| - 1]] else [])
  }

  /** The filtered copy holds exactly the properties of `o` whose key
      starts with `prefix`. */
  lemma {:induction false} WithKeyPrefixMembers<V>(o: Obj<V>, prefix: string)
    ensures forall i :: 0 <= i < |WithKeyPrefix(o, prefix)| ==>
              WithKeyPrefix(o, prefix)[i] in o && StartsWith(WithKeyPrefix(o, prefix)[i].key, prefix)
    ensures forall i :: 0 <= i < |o| && StartsWith(o[i].key, prefix) ==> o[i] in WithKeyPrefix(o, prefix)
    decreases |o|
  {
    if o != [] {
      var front := o[..|o| - 1];
      var last := o[|o| - 1];
      assert o == front + [last];
      WithKeyPrefixMembers(front, prefix);
      var r := WithKeyPrefix(o, prefix);
      var p := WithKeyPrefix(front, prefix);
      assert r == p + (if StartsWith(last.key, prefix) then [last] else []);
      forall i | 0 <= i < |r| ensures r[i] in o && StartsWith(r[i].key, prefix) {
        if i < |p| {
          assert r[i] == p[i];
        }
      }
      forall i | 0 <= i < |o| && StartsWith(o[i].key, prefix) ensures o[i] in r {
        if i < |front| {
          assert o[i] == front[i];
        }
      }
    }
  }

  /** Filtering one more property adds it exactly when its key matches. */
  lemma WithKeyPrefixStep<V>(o: Obj<V>, prefix: string, i: nat)
    requires i < |o|
    ensures WithKeyPrefix(o[..i + 1], prefix) ==
            WithKeyPrefix(o[..i], prefix) + (if StartsWith(o[i].key, prefix) then [o[i]] else [])
  {
    assert o[..i + 1][..i] == o[..i];
  }

  /** A filtered copy answers lookups of the kept keys exactly as the
      original does, and knows nothing of the others. */
  lemma {:induction false} GetWithKeyPrefix<V>(o: Obj<V>, prefix: string, k: string)
    ensures Get(WithKeyPrefix(o, prefix), k) == if StartsWith(k, prefix) then Get(o, k) else None
    decreases |o|
  {
    if o != [] {
      var front := o[..|o| - 1];
      var last := o[|o| - 1];
      assert o == front + [last];
      GetWithKeyPrefix(front, prefix, k);
      var tail: Obj<V> := if StartsWith(last.key, prefix) then [last] else [];
      GetAppend(WithKeyPrefix(front, prefix), tail, k);
      GetAppend(front, [last], k);
    }
  }

  /** The keys of an object are distinct. */
  ghost predicate UniqueKeys<V>(o: Obj<V>) {
    forall i, j :: 0 <= i < j < |o| ==> o[i].key != o[j].key
  }

  /** Copying the properties of an object with distinct keys one by one
      into a filtered bucket, `bucket[key] = o[key]`, appends each. */
  lemma PutNewFiltered<V>(o: Obj<V>, prefix: string, i: nat)
    requires UniqueKeys(o) && i < |o| && StartsWith(o[i].key, prefix)
    ensures Put(WithKeyPrefix(o[..i], prefix), o[i].key, o[i].value) == WithKeyPrefix(o[..i + 1], prefix)
  {
    var front := o[..i];
    GetWithKeyPrefix(front, prefix, o[i].key);
    forall j | 0 <= j < |front| ensures front[j].key != o[i].key {
      assert front[j] == o[j];
    }
    GetSpec(front, o[i].key);
    assert o[..i + 1] == front + [o[i]];
    assert o[..i + 1][..i] == front;
  }
}
