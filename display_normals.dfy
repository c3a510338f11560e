/** `flatten_dict` and `display_stats` of src/DisplayNormalsJson.py: a
    nested JSON object is flattened into one level whose keys join the path
    of keys with a separator, and each flattened entry becomes one
    [metric, value] row of the displayed table.

    A Python dict is modelled as the sequence of its items in insertion
    order; `dict(items)` keeps the position of a key's first occurrence and
    the value of its last. */
module DisplayNormals {
  import opened Wrappers
  import opened Dicts

  datatype Json =
    | JNull
    | JBool(b: bool)
    | JNumber(n: real)
    | JString(s: string)
    | JArray(elems: seq<Json>)
    | JObject(members: seq<(string, Json)>)

  type Items = seq<(string, Json)>

  // ---------------------------------------------------------------------
  // dict(items)
  // ---------------------------------------------------------------------

  function KeysOf(items: Items): set<string>
  {
    set p | p in items :: p.0
  }

  /** The value of the last item with key `k`, if any. */
  function Get(items: Items, k: string): Option<Json>
  {
    if items == [] then None
    else if items[|items| - 1].0 == k then Some(items[|items| - 1].1)
    else Get(items[..|items| - 1], k)
  }

  lemma {:induction false} GetKeys(items: Items, k: string)
    ensures Get(items, k).Some? <==> k in KeysOf(items)
    decreases |items|
  {
    if items != [] {
      var init := items[..|items| - 1];
      GetKeys(init, k);
      assert forall p :: p in items <==> p in init || p == items[|items| - 1];
    }
  }

  /** The distinct keys in order of first occurrence. */
  function KeyOrder(items: Items): seq<string>
  {
    if items == [] then []
    else
      var init := items[..|items| - 1];
      var k := items[|items| - 1].0;
      if k in KeysOf(init) then KeyOrder(init) else KeyOrder(init) + [k]
  }

  /** The index of the first occurrence of `k`. */
  function Position(d: Items, k: string): (i: nat)
    requires k in KeysOf(d)
    ensures i < |d| && d[i].0 == k
  {
    if d[0].0 == k then 0
    else
      assert k in KeysOf(d[1..]) by {
        var p :| p in d && p.0 == k;
        assert d == [d[0]] + d[1..];
      }
      1 + Position(d[1..], k)
  }

  /** `d[k] = v` on a dict: an existing key keeps its position and takes
      the new value, a new key goes to the end. */
  function Put(d: Items, k: string, v: Json): (r: Items)
    requires DistinctKeys(d)
    ensures DistinctKeys(r)
    ensures KeysOf(r) == KeysOf(d) + {k}
    ensures k in KeysOf(d) ==> Keys(r) == Keys(d)
    ensures k !in KeysOf(d) ==> r == d + [(k, v)]
    ensures forall p :: p in r ==> p == (k, v) || p in d
  {
    if k in KeysOf(d) then
      var i := Position(d, k);
      var r := d[i := (k, v)];
      assert KeysOf(r) == KeysOf(d) by {
        forall p | p in r ensures p.0 in KeysOf(d) {
          var j :| 0 <= j < |r| && r[j] == p;
        }
        forall p | p in d ensures p.0 in KeysOf(r) {
          var j :| 0 <= j < |d| && d[j] == p;
          assert r[j].0 == p.0;
        }
      }
      r
    else
      var r := d + [(k, v)];
      assert forall j :: 0 <= j < |d| ==> d[j] in d;
      assert forall j :: 0 <= j < |d| ==> r[j] == d[j];
      r
  }

  /** `dict(items)`: the items inserted one after the other. The result has
      distinct keys, in order of first occurrence, and each of its entries
      is one of the items. */
  function ToDict(items: Items): (r: Items)
    ensures DistinctKeys(r)
  {
    if items == [] then []
    else
      var init := items[..|items| - 1];
      var last := items[|items| - 1];
      Put(ToDict(init), last.0, last.1)
  }

  /** The keys of `dict(items)` are those of the items, in order of first
      occurrence, and each of its entries is one of the items. */
  lemma {:induction false} ToDictKeys(items: Items)
    ensures KeysOf(ToDict(items)) == KeysOf(items)
    ensures Keys(ToDict(items)) == KeyOrder(items)
    ensures forall p :: p in ToDict(items) ==> p in items
    decreases |items|
  {
    if items != [] {
      var init := items[..|items| - 1];
      var last := items[|items| - 1];
      assert items == init + [last];
      ToDictKeys(init);
      assert ToDict(items) == Put(ToDict(init), last.0, last.1);
      assert KeysOf(items) == KeysOf(init) + {last.0};
      assert forall p :: p in init ==> p in items;
    }
  }

  /** In a dict the value of a key is the one at its only position. */
  lemma {:induction false} GetDistinct(items: Items, i: nat)
    requires DistinctKeys(items) && i < |items|
    ensures Get(items, items[i].0) == Some(items[i].1)
    decreases |items|
  {
    if i < |items| - 1 {
      var init := items[..|items| - 1];
      assert init[i] == items[i];
      GetDistinct(init, i);
    }
  }

  lemma PutGet(d: Items, k: string, v: Json, k': string)
    requires DistinctKeys(d)
    ensures Get(Put(d, k, v), k') == if k' == k then Some(v) else Get(d, k')
  {
    var r := Put(d, k, v);
    GetKeys(d, k');
    GetKeys(r, k');
    if k' == k {
      var i := if k in KeysOf(d) then Position(d, k) else |d|;
      assert r[i] == (k, v);
      GetDistinct(r, i);
    } else if k' in KeysOf(d) {
      var p :| p in d && p.0 == k';
      var j :| 0 <= j < |d| && d[j] == p;
      assert r[j] == d[j];
      GetDistinct(d, j);
      GetDistinct(r, j);
    }
  }

  /** `dict(items)` keeps, for every key, the value of its last occurrence:
      on a repeated key the later item wins. */
  lemma {:induction false} ToDictGet(items: Items, k: string)
    ensures Get(ToDict(items), k) == Get(items, k)
    decreases |items|
  {
    if items != [] {
      var init := items[..|items| - 1];
      var last := items[|items| - 1];
      ToDictGet(init, k);
      PutGet(ToDict(init), last.0, last.1, k);
    }
  }

  lemma DistinctInit(items: Items)
    requires DistinctKeys(items) && items != []
    ensures DistinctKeys(items[..|items| - 1])
    ensures items[|items| - 1].0 !in KeysOf(items[..|items| - 1])
  {
  }

  /** A list of items with distinct keys is already a dict. */
  lemma {:induction false} ToDictOfDistinct(items: Items)
    requires DistinctKeys(items)
    ensures ToDict(items) == items
    decreases |items|
  {
    if items != [] {
      var init := items[..|items| - 1];
      var last := items[|items| - 1];
      DistinctInit(items);
      ToDictOfDistinct(init);
      assert ToDict(items) == Put(init, last.0, last.1);
      assert items == init + [(last.0, last.1)];
    }
  }

  /** Same values for every key and the same order of first occurrence. */
  ghost predicate Equivalent(a: Items, b: Items)
  {
    KeyOrder(a) == KeyOrder(b) && forall k :: Get(a, k) == Get(b, k)
  }

  /** A dict is determined by its key order and its values. */
  lemma ToDictDetermined(x: Items, y: Items)
    requires Equivalent(x, y)
    ensures ToDict(x) == ToDict(y)
  {
    var rx, ry := ToDict(x), ToDict(y);
    ToDictKeys(x);
    ToDictKeys(y);
    assert |rx| == |ry| by {
      assert |Keys(rx)| == |Keys(ry)|;
    }
    forall i | 0 <= i < |rx|
      ensures rx[i] == ry[i]
    {
      assert Keys(rx)[i] == Keys(ry)[i];
      var k := rx[i].0;
      GetDistinct(rx, i);
      GetDistinct(ry, i);
      ToDictGet(x, k);
      ToDictGet(y, k);
    }
  }

  // ---------------------------------------------------------------------
  // Concatenation of item lists
  // ---------------------------------------------------------------------

  lemma KeysOfAppend(a: Items, b: Items)
    ensures KeysOf(a + b) == KeysOf(a) + KeysOf(b)
  {
    assert forall p :: p in a + b <==> p in a || p in b;
  }

  lemma {:induction false} GetAppend(a: Items, b: Items, k: string)
    ensures Get(a + b, k) == if Get(b, k).Some? then Get(b, k) else Get(a, k)
    decreases |b|
  {
    if b == [] {
      assert a + b == a;
    } else {
      assert (a + b)[..|a + b| - 1] == a + b[..|b| - 1];
      GetAppend(a, b[..|b| - 1], k);
    }
  }

  /** The keys of `ks` not in `seen`, in order. */
  function Fresh(ks: seq<string>, seen: set<string>): seq<string>
  {
    if ks == [] then []
    else Fresh(ks[..|ks| - 1], seen) + (if ks[|ks| - 1] in seen then [] else [ks[|ks| - 1]])
  }

  lemma {:induction false} KeyOrderAppend(a: Items, b: Items)
    ensures KeyOrder(a + b) == KeyOrder(a) + Fresh(KeyOrder(b), KeysOf(a))
    decreases |b|
  {
    if b == [] {
      assert a + b == a;
    } else {
      var init := b[..|b| - 1];
      assert (a + b)[..|a + b| - 1] == a + init;
      KeyOrderAppend(a, init);
      KeysOfAppend(a, init);
      KeyOrderKeys(init);
    }
  }

  /** The keys of the key order are the keys. */
  lemma {:induction false} KeyOrderKeys(items: Items)
    ensures forall k :: k in KeyOrder(items) <==> k in KeysOf(items)
    decreases |items|
  {
    if items != [] {
      var init := items[..|items| - 1];
      KeyOrderKeys(init);
      assert forall p :: p in items <==> p in init || p == items[|items| - 1];
    }
  }

  lemma EquivalentAppend(a: Items, a': Items, b: Items, b': Items)
    requires Equivalent(a, a') && Equivalent(b, b')
    ensures Equivalent(a + b, a' + b')
  {
    KeyOrderAppend(a, b);
    KeyOrderAppend(a', b');
    KeyOrderKeys(a);
    KeyOrderKeys(a');
    assert KeysOf(a) == KeysOf(a');
    forall k
      ensures Get(a + b, k) == Get(a' + b', k)
    {
      GetAppend(a, b, k);
      GetAppend(a', b', k);
    }
  }

  lemma ToDictEquivalent(items: Items)
    ensures Equivalent(ToDict(items), items)
  {
    ToDictKeys(items);
    KeyOrderOfDistinct(ToDict(items));
    forall k
      ensures Get(ToDict(items), k) == Get(items, k)
    {
      ToDictGet(items, k);
    }
  }

  lemma {:induction false} KeyOrderOfDistinct(items: Items)
    requires DistinctKeys(items)
    ensures KeyOrder(items) == Keys(items)
    decreases |items|
  {
    if items != [] {
      var init := items[..|items| - 1];
      DistinctInit(items);
      KeyOrderOfDistinct(init);
    }
  }

  // ---------------------------------------------------------------------
  // flatten_dict
  // ---------------------------------------------------------------------

  /** The key of a member under its parent: `parent + sep + k`, or `k`
      alone when the parent key is empty (an empty string is falsy). */
  function Join(parent: string, k: string, sep: string): string
  {
    if parent != "" then parent + sep + k else k
  }

  /** The `items` list of `flatten_dict(JObject(ms), parent, sep)` once the
      loop has visited the first `n` members: a dict value contributes the
      items of its own flattening, any other value one item. */
  function FlattenItems(ms: Items, n: nat, parent: string, sep: string): Items
    requires n <= |ms|
    decreases JObject(ms), n
  {
    if n == 0 then []
    else
      var k := ms[n - 1].0;
      var v := ms[n - 1].1;
      FlattenItems(ms, n - 1, parent, sep)
      + (if v.JObject? then Flatten(v.members, Join(parent, k, sep), sep) else [(Join(parent, k, sep), v)])
  }

  /** `flatten_dict(JObject(ms), parent, sep)`: `dict(items)`. */
  function Flatten(ms: Items, parent: string, sep: string): (r: Items)
    ensures DistinctKeys(r)
    decreases JObject(ms), |ms| + 1
  {
    ToDict(FlattenItems(ms, |ms|, parent, sep))
  }

  // The leaves of a nested object, as a reference for what flattening keeps.

  type Leaf = (seq<string>, Json)

  /** The non-dict values of the first `n` members, depth first, each with
      the path of keys leading to it. An empty dict has no leaves. */
  function Leaves(ms: Items, n: nat): (ls: seq<Leaf>)
    requires n <= |ms|
    ensures forall i :: 0 <= i < |ls| ==> |ls[i].0| > 0 && !ls[i].1.JObject?
    decreases JObject(ms), n
  {
    if n == 0 then []
    else
      var k := ms[n - 1].0;
      var v := ms[n - 1].1;
      Leaves(ms, n - 1) + (if v.JObject? then Under(k, Leaves(v.members, |v.members|)) else [([k], v)])
  }

  /** Leaves of a member dict seen from its parent: `k` prefixed to each path. */
  function Under(k: string, ls: seq<Leaf>): (r: seq<Leaf>)
    ensures |r| == |ls| && forall i :: 0 <= i < |ls| ==> r[i] == ([k] + ls[i].0, ls[i].1)
  {
    seq(|ls|, i requires 0 <= i < |ls| => ([k] + ls[i].0, ls[i].1))
  }

  /** The flattened key of a path below `parent`. */
  function JoinPath(parent: string, path: seq<string>, sep: string): string
    decreases |path|
  {
    if path == [] then parent else JoinPath(Join(parent, path[0], sep), path[1..], sep)
  }

  /** Leaves as items keyed by their flattened keys. */
  function Named(ls: seq<Leaf>, parent: string, sep: string): (r: Items)
    ensures |r| == |ls| && forall i :: 0 <= i < |ls| ==> r[i] == (JoinPath(parent, ls[i].0, sep), ls[i].1)
  {
    seq(|ls|, i requires 0 <= i < |ls| => (JoinPath(parent, ls[i].0, sep), ls[i].1))
  }

  lemma NamedUnder(k: string, ls: seq<Leaf>, parent: string, sep: string)
    ensures Named(Under(k, ls), parent, sep) == Named(ls, Join(parent, k, sep), sep)
  {
    forall i | 0 <= i < |ls|
      ensures JoinPath(parent, ([k] + ls[i].0), sep) == JoinPath(Join(parent, k, sep), ls[i].0, sep)
    {
      assert ([k] + ls[i].0)[1..] == ls[i].0;
    }
  }

  lemma NamedAppend(a: seq<Leaf>, b: seq<Leaf>, parent: string, sep: string)
    ensures Named(a + b, parent, sep) == Named(a, parent, sep) + Named(b, parent, sep)
  {
  }

  lemma EquivalentRefl(a: Items)
    ensures Equivalent(a, a)
  {
  }

  lemma EquivalentTrans(a: Items, b: Items, c: Items)
    requires Equivalent(a, b) && Equivalent(b, c)
    ensures Equivalent(a, c)
  {
  }

  /** The loop's items are, key for key and in order of first occurrence,
      the leaves under their joined paths. */
  lemma {:induction false} FlattenItemsLeaves(ms: Items, n: nat, parent: string, sep: string)
    requires n <= |ms|
    ensures Equivalent(FlattenItems(ms, n, parent, sep), Named(Leaves(ms, n), parent, sep))
    decreases JObject(ms), n, 1
  {
    if n > 0 {
      FlattenItemsLeaves(ms, n - 1, parent, sep);
      if ms[n - 1].1.JObject? {
        DictMemberStep(ms, n, parent, sep);
      } else {
        LeafMemberStep(ms, n, parent, sep);
      }
    }
  }

  /** A dict member adds its own flattening on one side and its leaves,
      named below the joined key, on the other. */
  lemma {:induction false} DictMemberStep(ms: Items, n: nat, parent: string, sep: string)
    requires 0 < n <= |ms| && ms[n - 1].1.JObject?
    requires Equivalent(FlattenItems(ms, n - 1, parent, sep), Named(Leaves(ms, n - 1), parent, sep))
    ensures Equivalent(FlattenItems(ms, n, parent, sep), Named(Leaves(ms, n), parent, sep))
    decreases JObject(ms), n, 0
  {
    var k, v := ms[n - 1].0, ms[n - 1].1;
    var sub := Leaves(v.members, |v.members|);
    FlattenLeaves(v.members, Join(parent, k, sep), sep);
    ItemsOfDictMember(ms, n, parent, sep);
    LeavesOfDictMember(ms, n);
    NamedUnder(k, sub, parent, sep);
    NamedAppend(Leaves(ms, n - 1), Under(k, sub), parent, sep);
    EquivalentStep(FlattenItems(ms, n, parent, sep), Named(Leaves(ms, n), parent, sep),
                   FlattenItems(ms, n - 1, parent, sep), Named(Leaves(ms, n - 1), parent, sep),
                   Flatten(v.members, Join(parent, k, sep), sep), Named(sub, Join(parent, k, sep), sep));
  }

  /** A leaf member adds the same single item on both sides. */
  lemma LeafMemberStep(ms: Items, n: nat, parent: string, sep: string)
    requires 0 < n <= |ms| && !ms[n - 1].1.JObject?
    requires Equivalent(FlattenItems(ms, n - 1, parent, sep), Named(Leaves(ms, n - 1), parent, sep))
    ensures Equivalent(FlattenItems(ms, n, parent, sep), Named(Leaves(ms, n), parent, sep))
  {
    var k, v := ms[n - 1].0, ms[n - 1].1;
    var b := [(Join(parent, k, sep), v)];
    ItemsOfLeafMember(ms, n, parent, sep);
    LeavesOfLeafMember(ms, n);
    NamedAppend(Leaves(ms, n - 1), [([k], v)], parent, sep);
    assert [k][1..] == [];
    assert JoinPath(parent, [k], sep) == JoinPath(Join(parent, k, sep), [], sep);
    assert Named([([k], v)], parent, sep) == b;
    EquivalentRefl(b);
    EquivalentStep(FlattenItems(ms, n, parent, sep), Named(Leaves(ms, n), parent, sep),
                   FlattenItems(ms, n - 1, parent, sep), Named(Leaves(ms, n - 1), parent, sep), b, b);
  }

  lemma LeavesOfDictMember(ms: Items, n: nat)
    requires 0 < n <= |ms| && ms[n - 1].1.JObject?
    ensures Leaves(ms, n) == Leaves(ms, n - 1) + Under(ms[n - 1].0, Leaves(ms[n - 1].1.members, |ms[n - 1].1.members|))
  {
  }

  lemma LeavesOfLeafMember(ms: Items, n: nat)
    requires 0 < n <= |ms| && !ms[n - 1].1.JObject?
    ensures Leaves(ms, n) == Leaves(ms, n - 1) + [([ms[n - 1].0], ms[n - 1].1)]
  {
  }

  lemma EquivalentStep(x: Items, y: Items, a: Items, a': Items, b: Items, b': Items)
    requires x == a + b && y == a' + b'
    requires Equivalent(a, a') && Equivalent(b, b')
    ensures Equivalent(x, y)
  {
    EquivalentAppend(a, a', b, b');
  }

  lemma {:induction false} FlattenLeaves(ms: Items, parent: string, sep: string)
    ensures Equivalent(Flatten(ms, parent, sep), Named(Leaves(ms, |ms|), parent, sep))
    decreases JObject(ms), |ms| + 1, 0
  {
    var items := FlattenItems(ms, |ms|, parent, sep);
    FlattenItemsLeaves(ms, |ms|, parent, sep);
    ToDictEquivalent(items);
    EquivalentTrans(ToDict(items), items, Named(Leaves(ms, |ms|), parent, sep));
  }

  /** Flattening is `dict()` of the depth-first list of leaves keyed by
      their joined paths: keys come in order of first occurrence in that
      list, and on a joined-key collision the later leaf wins. */
  lemma FlattenIsDictOfLeaves(ms: Items, parent: string, sep: string)
    ensures Flatten(ms, parent, sep) == ToDict(Named(Leaves(ms, |ms|), parent, sep))
  {
    var named := Named(Leaves(ms, |ms|), parent, sep);
    FlattenLeaves(ms, parent, sep);
    ToDictEquivalent(named);
    EquivalentTrans(Flatten(ms, parent, sep), named, ToDict(named));
    ToDictDetermined(Flatten(ms, parent, sep), named);
    ToDictOfDistinct(Flatten(ms, parent, sep));
  }

  // ---------------------------------------------------------------------
  // Properties of flattening
  // ---------------------------------------------------------------------

  /** `sep + k` for every key of `ks`, concatenated. */
  function Tail(ks: seq<string>, sep: string): string
  {
    if ks == [] then "" else sep + ks[0] + Tail(ks[1..], sep)
  }

  /** The keys of a path joined by the separator, `sep.join(path)`. */
  function SepJoin(path: seq<string>, sep: string): string
    requires |path| > 0
  {
    path[0] + Tail(path[1..], sep)
  }

  lemma {:induction false} JoinPathBelow(q: string, path: seq<string>, sep: string)
    requires q != ""
    ensures JoinPath(q, path, sep) == q + Tail(path, sep)
    decreases |path|
  {
    if path != [] {
      var q' := q + sep + path[0];
      assert Join(q, path[0], sep) == q';
      JoinPathBelow(q', path[1..], sep);
      assert q' + Tail(path[1..], sep) == q + (sep + path[0] + Tail(path[1..], sep));
    }
  }

  /** From an empty parent key, a path's flattened key is its keys joined by
      the separator, with no leading separator. This needs the first key to
      be non-empty when there is more than one: an empty key is falsy as a
      parent, so the keys below it are not prefixed. */
  lemma JoinPathFromTop(path: seq<string>, sep: string)
    requires |path| > 0 && (|path| == 1 || path[0] != "")
    ensures JoinPath("", path, sep) == SepJoin(path, sep)
  {
    assert Join("", path[0], sep) == path[0];
    if |path| == 1 {
      assert path[1..] == [];
    } else {
      JoinPathBelow(path[0], path[1..], sep);
    }
  }

  /** The keys of the flattened dict are exactly the joined paths of the
      leaves, and each key holds the value of the last leaf (depth first)
      whose path joins to it. */
  lemma FlattenKeysAndValues(ms: Items, parent: string, sep: string)
    ensures KeysOf(Flatten(ms, parent, sep)) == KeysOf(Named(Leaves(ms, |ms|), parent, sep))
    ensures forall k :: Get(Flatten(ms, parent, sep), k) == Get(Named(Leaves(ms, |ms|), parent, sep), k)
  {
    var named := Named(Leaves(ms, |ms|), parent, sep);
    FlattenIsDictOfLeaves(ms, parent, sep);
    ToDictKeys(named);
    forall k
      ensures Get(Flatten(ms, parent, sep), k) == Get(named, k)
    {
      ToDictGet(named, k);
    }
  }

  /** Every leaf of a top-level object appears under its keys joined by the
      separator. */
  lemma LeafAppears(ms: Items, sep: string, i: nat)
    requires i < |Leaves(ms, |ms|)|
    requires var path := Leaves(ms, |ms|)[i].0; |path| == 1 || path[0] != ""
    ensures SepJoin(Leaves(ms, |ms|)[i].0, sep) in KeysOf(Flatten(ms, "", sep))
  {
    var named := Named(Leaves(ms, |ms|), "", sep);
    FlattenKeysAndValues(ms, "", sep);
    JoinPathFromTop(Leaves(ms, |ms|)[i].0, sep);
    assert named[i] in named;
  }

  /** No value of the flattened dict is a dict. */
  lemma FlattenHasNoDicts(ms: Items, parent: string, sep: string)
    ensures forall p :: p in Flatten(ms, parent, sep) ==> !p.1.JObject?
  {
    var named := Named(Leaves(ms, |ms|), parent, sep);
    FlattenIsDictOfLeaves(ms, parent, sep);
    ToDictKeys(named);
    forall p | p in Flatten(ms, parent, sep)
      ensures !p.1.JObject?
    {
      assert p in named;
      var i :| 0 <= i < |named| && named[i] == p;
    }
  }

  /** The loop's items for the first `m` members do not depend on the
      members after them. */
  lemma {:induction false} FlattenItemsPrefix(a: Items, b: Items, m: nat, parent: string, sep: string)
    requires m <= |a|
    ensures FlattenItems(a + b, m, parent, sep) == FlattenItems(a, m, parent, sep)
    decreases m
  {
    if m > 0 {
      assert (a + b)[m - 1] == a[m - 1];
      FlattenItemsPrefix(a, b, m - 1, parent, sep);
    }
  }

  /** The items of a concatenation of members are the items of each part. */
  lemma {:induction false} FlattenItemsConcat(a: Items, b: Items, j: nat, parent: string, sep: string)
    requires j <= |b|
    ensures FlattenItems(a + b, |a| + j, parent, sep)
         == FlattenItems(a, |a|, parent, sep) + FlattenItems(b, j, parent, sep)
    decreases j
  {
    if j == 0 {
      FlattenItemsPrefix(a, b, |a|, parent, sep);
    } else {
      FlattenItemsConcat(a, b, j - 1, parent, sep);
      FlattenItemsConcatStep(a, b, j, parent, sep);
    }
  }

  lemma {:induction false} FlattenItemsConcatStep(a: Items, b: Items, j: nat, parent: string, sep: string)
    requires 0 < j <= |b|
    requires FlattenItems(a + b, |a| + j - 1, parent, sep)
          == FlattenItems(a, |a|, parent, sep) + FlattenItems(b, j - 1, parent, sep)
    ensures FlattenItems(a + b, |a| + j, parent, sep)
         == FlattenItems(a, |a|, parent, sep) + FlattenItems(b, j, parent, sep)
  {
    var p := MemberItems(a + b, |a| + j, parent, sep);
    var q := MemberItems(b, j, parent, sep);
    assert (a + b)[|a| + j - 1] == b[j - 1];
    AppendStep(FlattenItems(a + b, |a| + j, parent, sep), FlattenItems(a + b, |a| + j - 1, parent, sep),
               FlattenItems(a, |a|, parent, sep),
               FlattenItems(b, j, parent, sep), FlattenItems(b, j - 1, parent, sep), p);
  }

  lemma MemberItems(ms: Items, n: nat, parent: string, sep: string) returns (piece: Items)
    requires 0 < n <= |ms|
    ensures FlattenItems(ms, n, parent, sep) == FlattenItems(ms, n - 1, parent, sep) + piece
    ensures piece == if ms[n - 1].1.JObject? then Flatten(ms[n - 1].1.members, Join(parent, ms[n - 1].0, sep), sep)
                     else [(Join(parent, ms[n - 1].0, sep), ms[n - 1].1)]
  {
    piece := if ms[n - 1].1.JObject? then Flatten(ms[n - 1].1.members, Join(parent, ms[n - 1].0, sep), sep)
             else [(Join(parent, ms[n - 1].0, sep), ms[n - 1].1)];
  }

  lemma AppendStep(x: Items, x0: Items, a0: Items, y: Items, y0: Items, piece: Items)
    requires x == x0 + piece && y == y0 + piece && x0 == a0 + y0
    ensures x == a0 + y
  {
  }

  lemma EmptyDictItems(k: string, parent: string, sep: string)
    ensures FlattenItems([(k, JObject([]))], 1, parent, sep) == []
  {
    assert Flatten([], Join(parent, k, sep), sep) == [];
  }

  /** An empty nested dict contributes no entries, wherever it stands. */
  lemma EmptyDictContributesNothing(front: Items, back: Items, k: string, parent: string, sep: string)
    ensures Flatten(front + [(k, JObject([]))] + back, parent, sep) == Flatten(front + back, parent, sep)
  {
    var e: Items := [(k, JObject([]))];
    var f := FlattenItems(front, |front|, parent, sep);
    var b := FlattenItems(back, |back|, parent, sep);
    EmptyDictItems(k, parent, sep);
    FlattenItemsConcat(front, e, 1, parent, sep);
    assert FlattenItems(front + e, |front + e|, parent, sep) == f by {
      assert f + [] == f;
    }
    FlattenItemsConcat(front + e, back, |back|, parent, sep);
    FlattenItemsConcat(front, back, |back|, parent, sep);
    var withEmpty := front + e + back;
    assert FlattenItems(withEmpty, |withEmpty|, parent, sep) == f + b;
    assert FlattenItems(front + back, |front + back|, parent, sep) == f + b;
  }

  /** From an empty parent key, an object without nested dicts keeps its
      keys and values in place. */
  lemma {:induction false} FlatItemsOfFlatObject(ms: Items, n: nat, sep: string)
    requires n <= |ms|
    requires forall i :: 0 <= i < |ms| ==> !ms[i].1.JObject?
    ensures FlattenItems(ms, n, "", sep) == ms[..n]
    decreases n
  {
    if n > 0 {
      FlatItemsOfFlatObject(ms, n - 1, sep);
      assert ms[..n] == ms[..n - 1] + [ms[n - 1]];
    }
  }

  /** A mapping with no nested dicts flattens to itself. */
  lemma FlatObjectUnchanged(ms: Items, sep: string)
    requires forall i :: 0 <= i < |ms| ==> !ms[i].1.JObject?
    requires DistinctKeys(ms)
    ensures Flatten(ms, "", sep) == ms
  {
    FlatItemsOfFlatObject(ms, |ms|, sep);
    assert ms[..|ms|] == ms;
    ToDictOfDistinct(ms);
  }

  /** A top-level key whose value is not a dict is kept unchanged. */
  lemma TopLevelKeyKept(ms: Items, sep: string, i: nat)
    requires i < |ms| && !ms[i].1.JObject?
    ensures ms[i].0 in KeysOf(Flatten(ms, "", sep))
  {
    FlattenItemsConcat(ms[..i + 1], ms[i + 1..], |ms[i + 1..]|, "", sep);
    assert ms[..i + 1] + ms[i + 1..] == ms;
    assert ms[..i + 1][i] == ms[i];
    var items := FlattenItems(ms[..i + 1], i + 1, "", sep);
    assert (ms[i].0, ms[i].1) in items;
    KeysOfAppend(items, FlattenItems(ms[i + 1..], |ms[i + 1..]|, "", sep));
    ToDictKeys(FlattenItems(ms, |ms|, "", sep));
  }

  lemma ToDictSingle(x: (string, Json))
    ensures ToDict([x]) == [x]
  {
    var empty: Items := [];
    assert [x][..0] == empty;
  }

  lemma ToDictOverwrite(items: Items)
    requires |items| == 2 && items[0].0 == items[1].0
    ensures ToDict(items) == [items[1]]
  {
    ToDictSingle(items[0]);
    assert items[..1] == [items[0]];
    assert items[0] in [items[0]];
  }

  lemma FlattenSingleLeaf(ms: Items, parent: string, sep: string)
    requires |ms| == 1 && !ms[0].1.JObject?
    ensures Flatten(ms, parent, sep) == [(Join(parent, ms[0].0, sep), ms[0].1)]
  {
    ItemsOfLeafMember(ms, 1, parent, sep);
    ToDictSingle((Join(parent, ms[0].0, sep), ms[0].1));
  }

  lemma ItemsOfLeafMember(ms: Items, n: nat, parent: string, sep: string)
    requires 0 < n <= |ms| && !ms[n - 1].1.JObject?
    ensures FlattenItems(ms, n, parent, sep)
         == FlattenItems(ms, n - 1, parent, sep) + [(Join(parent, ms[n - 1].0, sep), ms[n - 1].1)]
  {
  }

  lemma ItemsOfDictMember(ms: Items, n: nat, parent: string, sep: string)
    requires 0 < n <= |ms| && ms[n - 1].1.JObject?
    ensures FlattenItems(ms, n, parent, sep)
         == FlattenItems(ms, n - 1, parent, sep) + Flatten(ms[n - 1].1.members, Join(parent, ms[n - 1].0, sep), sep)
  {
  }

  /** A top-level key spelled like a nested path, `{k1 + sep + k2: v1,
      k1: {k2: v2}}`: both join to the same key, which keeps its first
      position and takes the later value. */
  lemma CollisionLaterWins(ms: Items, sep: string)
    requires |ms| == 2 && !ms[0].1.JObject? && ms[1].1.JObject?
    requires |ms[1].1.members| == 1 && ms[1].0 != "" && !ms[1].1.members[0].1.JObject?
    requires ms[0].0 == ms[1].0 + sep + ms[1].1.members[0].0
    ensures Flatten(ms, "", sep) == [(ms[0].0, ms[1].1.members[0].1)]
  {
    var inner := ms[1].1.members;
    var key := ms[0].0;
    assert Join("", key, sep) == key;
    assert Join(ms[1].0, inner[0].0, sep) == key;
    FlattenSingleLeaf(inner, ms[1].0, sep);
    ItemsOfLeafMember(ms, 1, "", sep);
    assert FlattenItems(ms, 1, "", sep) == [(key, ms[0].1)];
    ItemsOfDictMember(ms, 2, "", sep);
    var items := FlattenItems(ms, 2, "", sep);
    assert items == [(key, ms[0].1)] + [(key, inner[0].1)];
    ToDictOverwrite(items);
  }

  // ---------------------------------------------------------------------
  // The operations
  // ---------------------------------------------------------------------

  /** `flatten_dict(d, parent_key, sep)`: the loop grows `items`, appending
      one item per non-dict value and extending with the flattening of each
      dict value, and returns `dict(items)`. */
  method FlattenDict(d: Items, parentKey: string, sep: string) returns (flat: Items)
    ensures flat == Flatten(d, parentKey, sep)
    ensures DistinctKeys(flat)
    decreases JObject(d)
  {
    var items: Items := [];
    for i := 0 to |d|
      invariant items == FlattenItems(d, i, parentKey, sep)
    {
      var k := d[i].0;
      var v := d[i].1;
      var newKey := if parentKey != "" then parentKey + sep + k else k;
      if v.JObject? {
        var sub := FlattenDict(v.members, newKey, sep);
        items := items + sub;
      } else {
        items := items + [(newKey, v)];
      }
    }
    flat := ToDict(items);
  }

  /** The separator `display_stats` flattens with (the default of `sep`). */
  const DefaultSep := "_"

  /** One [Metric, Value] row of the displayed table. */
  datatype Row = Row(metric: string, value: Json)

  /** The rows `display_stats` hands to the table printer: one row per
      entry of the flattened statistics, in order, with distinct metrics and
      no dict as a value. The printing itself is not modelled. */
  method DisplayStats(stats: Items) returns (data: seq<Row>)
    ensures var flat := Flatten(stats, "", DefaultSep);
      |data| == |flat| && forall i :: 0 <= i < |data| ==> data[i] == Row(flat[i].0, flat[i].1)
    ensures forall i, j :: 0 <= i < j < |data| ==> data[i].metric != data[j].metric
    ensures forall i :: 0 <= i < |data| ==> !data[i].value.JObject?
  {
    var flatStats := FlattenDict(stats, "", DefaultSep);
    FlattenHasNoDicts(stats, "", DefaultSep);
    data := [];
    for i := 0 to |flatStats|
      invariant |data| == i
      invariant forall j :: 0 <= j < i ==> data[j] == Row(flatStats[j].0, flatStats[j].1)
    {
      data := data + [Row(flatStats[i].0, flatStats[i].1)];
    }
    assert forall i :: 0 <= i < |data| ==> flatStats[i] in flatStats;
  }
}
