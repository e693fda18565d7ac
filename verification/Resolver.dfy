/** ManifestResolver: composing an extended service, root extends, and stripping the resolver's own keys. */
module Resolver {
  import opened Sequences
  import opened Merge

  // ---- mergeComposeService ----------------------------------------------------------------

  /** What a key holding `base` becomes when the override also gives it a value. */
  function Composed(base: Value, override: Value): Value
    decreases override, 1
  {
    if base.Arr? && override.Arr? then Arr(base.items + override.items)
    else if base.Obj? && override.Obj? then Obj(ComposedFields(base.fields, override))
    else override
  }

  function ComposedFields(base: map<string, Value>, override: Value): (r: map<string, Value>)
    requires override.Obj?
    ensures r.Keys == base.Keys + override.fields.Keys
    ensures forall k :: k in r ==>
              r[k] == (if k !in override.fields then base[k]
                       else if k in base then Composed(base[k], override.fields[k])
                       else override.fields[k])
    decreases override, 0
  {
    map k | k in base.Keys + override.fields.Keys ::
      if k !in override.fields then base[k]
      else if k in base then Composed(base[k], override.fields[k])
      else override.fields[k]
  }

  function WithKey(out: map<string, Value>, key: string, value: Value): map<string, Value> {
    out[key := if key in out then Composed(out[key], value) else value]
  }

  /** The loop over some override keys, in the order given. */
  function ComposedInOrder(out: map<string, Value>, keys: seq<string>, override: Value): map<string, Value>
    requires override.Obj? && forall k :: k in keys ==> k in override.fields
    decreases |keys|
  {
    if keys == [] then out
    else ComposedInOrder(WithKey(out, keys[0], override.fields[keys[0]]), keys[1..], override)
  }

  lemma {:induction false} ComposedInOrderAt(out: map<string, Value>, keys: seq<string>, override: Value, k: string)
    requires override.Obj? && Distinct(keys) && forall n :: n in keys ==> n in override.fields
    ensures Get(ComposedInOrder(out, keys, override), k) ==
            if k !in keys then Get(out, k)
            else if k in out then Some(Composed(out[k], override.fields[k]))
            else Some(override.fields[k])
    decreases |keys|
  {
    if keys != [] {
      assert keys[0] !in keys[1..];
      ComposedInOrderAt(WithKey(out, keys[0], override.fields[keys[0]]), keys[1..], override, k);
    }
  }

  lemma AnyKeyOrder(base: map<string, Value>, keys: seq<string>, override: Value)
    requires override.Obj? && Distinct(keys) && forall k :: k in keys <==> k in override.fields
    ensures ComposedInOrder(base, keys, override) == ComposedFields(base, override)
  {
    forall k ensures Get(ComposedInOrder(base, keys, override), k) == Get(ComposedFields(base, override), k) {
      ComposedInOrderAt(base, keys, override, k);
    }
    SameFields(ComposedInOrder(base, keys, override), ComposedFields(base, override));
  }

  method MergeComposeService(base: map<string, Value>, override: Value) returns (out: map<string, Value>)
    requires override.Obj?
    ensures out == ComposedFields(base, override)
    decreases override
  {
    var keys := KeysOf(override.fields);
    out := base;
    for i := 0 to |keys|
      invariant ComposedInOrder(out, keys[i..], override) == ComposedInOrder(base, keys, override)
    {
      var key, overrideValue := keys[i], override.fields[keys[i]];
      if key in out && out[key].Arr? && overrideValue.Arr? {
        out := out[key := Arr(out[key].items + overrideValue.items)];
        continue;
      }
      if key in out && out[key].Obj? && overrideValue.Obj? {
        var nested := MergeComposeService(out[key].fields, overrideValue);
        out := out[key := Obj(nested)];
        continue;
      }
      out := out[key := overrideValue];
    }
    AnyKeyOrder(base, keys, override);
  }

  // ---- composed values by path --------------------------------------------------------------

  lemma {:induction false} ComposedLeaf(base: Value, override: Value, path: seq<string>, leaf: Value)
    requires ValueAt(override, path) == Some(leaf) && !leaf.Obj?
    ensures ValueAt(Composed(base, override), path) ==
            Some(if leaf.Arr? && ValueAt(base, path).Some? && ValueAt(base, path).value.Arr?
                 then Arr(ValueAt(base, path).value.items + leaf.items) else leaf)
    decreases |path|
  {
    if path != [] && base.Obj? {
      var composed := ComposedFields(base.fields, override);
      assert ValueAt(Composed(base, override), path) == ValueAt(composed[path[0]], path[1..]);
      if path[0] in base.fields {
        ComposedLeaf(base.fields[path[0]], override.fields[path[0]], path[1..], leaf);
      }
    }
  }

  /**
   * Lists are joined, base first. Where base and override both have a list at a path, the composed service has there
   * all entries of the base and behind them all entries of the override, each in its order.
   */
  lemma ListsJoinBaseFirst(base: Value, override: Value, path: seq<string>, a: seq<Value>, b: seq<Value>)
    requires ValueAt(base, path) == Some(Arr(a)) && ValueAt(override, path) == Some(Arr(b))
    ensures var joined := ValueAt(Composed(base, override), path);
            && joined.Some? && joined.value.Arr? && |joined.value.items| == |a| + |b|
            && (forall i :: 0 <= i < |a| ==> joined.value.items[i] == a[i])
            && (forall i :: 0 <= i < |b| ==> joined.value.items[|a| + i] == b[i])
  {
    ComposedLeaf(base, override, path, Arr(b));
  }

  /** Any other value the override gives, except a mapping, is in force whatever the base has on the way. */
  lemma OverrideWins(base: Value, override: Value, path: seq<string>, leaf: Value)
    requires ValueAt(override, path) == Some(leaf) && !leaf.Obj?
    requires !(leaf.Arr? && ValueAt(base, path).Some? && ValueAt(base, path).value.Arr?)
    ensures ValueAt(Composed(base, override), path) == Some(leaf)
  {
    ComposedLeaf(base, override, path, leaf);
  }

  /** Where the override says nothing the composed service has what the base has. */
  lemma {:induction false} UncomposedStays(base: Value, override: Value, path: seq<string>)
    requires !Touches(override, path)
    ensures ValueAt(Composed(base, override), path) == ValueAt(base, path)
    decreases |path|
  {
    UntouchedIsAbsent(override, path);
    if base.Obj? {
      var composed := ComposedFields(base.fields, override);
      assert path[0] in composed ==>
               ValueAt(Composed(base, override), path) == ValueAt(composed[path[0]], path[1..]);
      if path[0] in base.fields && path[0] in override.fields {
        UncomposedStays(base.fields[path[0]], override.fields[path[0]], path[1..]);
      } else if path[0] in override.fields {
        UntouchedIsAbsent(override.fields[path[0]], path[1..]);
      }
    }
  }

  // ---- laws of composing ------------------------------------------------------------------

  predicate SameContainer(a: Value, b: Value) {
    (a.Arr? && b.Arr?) || (a.Obj? && b.Obj?)
  }

  /** Nothing of `base` survives under `override` that `override` does not already say. */
  predicate Absorbed(base: Value, override: Value)
    decreases override
  {
    if base.Arr? && override.Arr? then base.items == []
    else if base.Obj? && override.Obj? then
      forall k :: k in base.fields ==> k in override.fields && Absorbed(base.fields[k], override.fields[k])
    else true
  }

  lemma {:induction false} ComposesToItself(x: Value, z: Value)
    ensures Composed(x, z) == z <==> Absorbed(x, z)
    decreases z
  {
    if x.Arr? && z.Arr? {
      assert |x.items + z.items| == |x.items| + |z.items|;
      assert [] + z.items == z.items;
    } else if x.Obj? && z.Obj? {
      var m := ComposedFields(x.fields, z);
      forall k | k in x.fields && k in z.fields
        ensures m[k] == z.fields[k] <==> Absorbed(x.fields[k], z.fields[k])
      {
        ComposesToItself(x.fields[k], z.fields[k]);
      }
      assert Composed(x, z) == z <==> m == z.fields;
      if m == z.fields {
        assert forall k :: k in x.fields ==> k in m;
      }
    }
  }

  /**
   * At every path all three documents share: where the outer two are both lists or both mappings and the
   * middle one is neither of that kind, the outer right one must already say all the left one says.
   */
  predicate Compatible(x: Value, y: Value, z: Value)
    decreases z
  {
    if x.Obj? && y.Obj? && z.Obj? then
      forall k :: k in x.fields && k in y.fields && k in z.fields ==> Compatible(x.fields[k], y.fields[k], z.fields[k])
    else SameContainer(x, z) && !SameContainer(x, y) ==> Absorbed(x, z)
  }

  lemma FieldsAssociate(x: Value, y: Value, z: Value)
    requires x.Obj? && y.Obj? && z.Obj?
    ensures var left := ComposedFields(ComposedFields(x.fields, y), z);
            var right := ComposedFields(x.fields, Obj(ComposedFields(y.fields, z)));
            && left.Keys == right.Keys == x.fields.Keys + y.fields.Keys + z.fields.Keys
            && forall k :: k in left && !(k in x.fields && k in y.fields && k in z.fields) ==> left[k] == right[k]
    ensures var left := ComposedFields(ComposedFields(x.fields, y), z);
            var right := ComposedFields(x.fields, Obj(ComposedFields(y.fields, z)));
            forall k :: k in x.fields && k in y.fields && k in z.fields ==>
              && left[k] == Composed(Composed(x.fields[k], y.fields[k]), z.fields[k])
              && right[k] == Composed(x.fields[k], Composed(y.fields[k], z.fields[k]))
  {
  }

  /** Composing three values groups either way exactly when they are compatible. */
  lemma {:induction false} ComposedAssociates(x: Value, y: Value, z: Value)
    ensures Composed(Composed(x, y), z) == Composed(x, Composed(y, z)) <==> Compatible(x, y, z)
    decreases z
  {
    if x.Obj? && y.Obj? && z.Obj? {
      FieldsAssociate(x, y, z);
      var left := ComposedFields(ComposedFields(x.fields, y), z);
      var right := ComposedFields(x.fields, Obj(ComposedFields(y.fields, z)));
      forall k | k in x.fields && k in y.fields && k in z.fields
        ensures left[k] == right[k] <==> Compatible(x.fields[k], y.fields[k], z.fields[k])
      {
        ComposedAssociates(x.fields[k], y.fields[k], z.fields[k]);
      }
      assert Composed(Composed(x, y), z) == Obj(left) && Composed(x, Composed(y, z)) == Obj(right);
      assert Compatible(x, y, z) ==> left == right;
    } else if x.Arr? && y.Arr? && z.Arr? {
      assert (x.items + y.items) + z.items == x.items + (y.items + z.items);
    } else {
      ComposesToItself(x, z);
    }
  }

  /** The empty mapping is a neutral element on both sides, and every merged level has the keys of both sides. */
  lemma EmptyIsNeutral(fields: map<string, Value>, override: Value)
    requires override.Obj?
    ensures ComposedFields(map[], override) == override.fields
    ensures ComposedFields(fields, Obj(map[])) == fields
    ensures ComposedFields(fields, override).Keys == fields.Keys + override.fields.Keys
  {
  }

  // ---- root extends -----------------------------------------------------------------------

  function TasksOf(doc: Value): seq<Value> {
    if doc.Obj? && "tasks" in doc.fields && doc.fields["tasks"].Arr? then doc.fields["tasks"].items else []
  }

  function ConcatTasks(merged: map<string, Value>, overlay: Value): map<string, Value> {
    if TasksOf(overlay) == [] then merged
    else merged["tasks" := Arr(TasksOf(Obj(merged)) + TasksOf(overlay))]
  }

  function ExtendedBy(merged: map<string, Value>, doc: Value): map<string, Value>
    requires doc.Obj?
  {
    ConcatTasks(MergedFields(merged, doc), doc)
  }

  /** `applyRootExtends` over the base documents followed by the local one. */
  function RootExtended(docs: seq<Value>): map<string, Value>
    requires forall d :: d in docs ==> d.Obj?
  {
    if docs == [] then map[] else ExtendedBy(RootExtended(docs[..|docs| - 1]), docs[|docs| - 1])
  }

  method ApplyRootExtends(docs: seq<Value>) returns (mergedRoot: map<string, Value>)
    requires forall d :: d in docs ==> d.Obj?
    ensures mergedRoot == RootExtended(docs)
  {
    mergedRoot := map[];
    for i := 0 to |docs|
      invariant mergedRoot == RootExtended(docs[..i])
    {
      var merged := DeepMerge(Obj(mergedRoot), docs[i]);
      assert docs[..i + 1][..i] == docs[..i];
      mergedRoot := ConcatTasks(merged.fields, docs[i]);
    }
    assert docs[..|docs|] == docs;
  }

  function Twice(doc: Value): seq<Value> {
    TasksOf(doc) + TasksOf(doc)
  }

  function TwiceEach(docs: seq<Value>): seq<Value> {
    if docs == [] then [] else TwiceEach(docs[..|docs| - 1]) + Twice(docs[|docs| - 1])
  }

  lemma ExtendedTasks(merged: map<string, Value>, doc: Value)
    requires doc.Obj?
    ensures TasksOf(Obj(ExtendedBy(merged, doc))) == TasksOf(Obj(merged)) + Twice(doc)
  {
    var m := MergedFields(merged, doc);
    if "tasks" in doc.fields {
      assert m["tasks"] == MergedKey("tasks", Get(merged, "tasks"), doc.fields["tasks"]);
      MergedTasks(Get(merged, "tasks"), doc.fields["tasks"]);
    }
    assert TasksOf(Obj(m)) == TasksOf(Obj(merged)) + TasksOf(doc);
    assert (TasksOf(Obj(merged)) + TasksOf(doc)) + TasksOf(doc) == TasksOf(Obj(merged)) + Twice(doc);
  }

  function ItemsOf(value: Value): seq<Value> {
    if value.Arr? then value.items else []
  }

  lemma MergedTasks(base: Option<Value>, overlay: Value)
    ensures ItemsOf(MergedKey("tasks", base, overlay)) ==
            (if base.Some? then ItemsOf(base.value) else []) + ItemsOf(overlay)
  {
  }

  /** Root extends runs the task list of every document, the local one included, twice in a row. */
  lemma {:induction false} TasksAreDoubled(docs: seq<Value>)
    requires forall d :: d in docs ==> d.Obj?
    ensures TasksOf(Obj(RootExtended(docs))) == TwiceEach(docs)
  {
    if docs != [] {
      TasksAreDoubled(docs[..|docs| - 1]);
      ExtendedTasks(RootExtended(docs[..|docs| - 1]), docs[|docs| - 1]);
    }
  }

  /** Away from the task list, the last document is merged over all before it. */
  lemma LastDocumentIsMerged(docs: seq<Value>, doc: Value, path: seq<string>)
    requires (forall d :: d in docs ==> d.Obj?) && doc.Obj?
    requires path != [] && path[0] != "tasks"
    ensures ValueAt(Obj(RootExtended(docs + [doc])), path) == ValueAt(Merged(Obj(RootExtended(docs)), doc), path)
  {
    assert (docs + [doc])[..|docs|] == docs;
    var merged := MergedFields(RootExtended(docs), doc);
    assert Merged(Obj(RootExtended(docs)), doc) == Obj(merged);
    var extended := RootExtended(docs + [doc]);
    assert extended == ConcatTasks(merged, doc);
    assert path[0] in extended <==> path[0] in merged;
    assert path[0] in merged ==> extended[path[0]] == merged[path[0]];
  }

  // ---- stripMetaKeys ----------------------------------------------------------------------

  const META_KEYS: set<string> := {"extends", "vars", "apps"}

  /** Drops the resolver's keys at every depth. */
  function Stripped(doc: Value): Value {
    match doc
    case Arr(items) => Arr(StrippedItems(items))
    case Obj(fields) => Obj(map k | k in fields && k !in META_KEYS :: Stripped(fields[k]))
    case _ => doc
  }

  function StrippedItems(items: seq<Value>): (r: seq<Value>)
    ensures |r| == |items|
  {
    if items == [] then [] else [Stripped(items[0])] + StrippedItems(items[1..])
  }

  /** A resolver key occurs somewhere in the value. */
  predicate HasMetaKey(doc: Value)
    decreases doc
  {
    match doc
    case Arr(items) => exists i :: 0 <= i < |items| && HasMetaKey(items[i])
    case Obj(fields) => exists k :: k in fields && (k in META_KEYS || HasMetaKey(fields[k]))
    case _ => false
  }

  lemma {:induction false} StrippedItemsAt(items: seq<Value>, i: nat)
    requires i < |items|
    ensures StrippedItems(items)[i] == Stripped(items[i])
  {
    if i > 0 {
      StrippedItemsAt(items[1..], i - 1);
    }
  }

  lemma {:induction false} StrippedConcat(a: seq<Value>, b: seq<Value>)
    ensures StrippedItems(a + b) == StrippedItems(a) + StrippedItems(b)
  {
    if a == [] {
      assert a + b == b;
    } else {
      assert (a + b)[1..] == a[1..] + b;
      StrippedConcat(a[1..], b);
    }
  }

  /** Stripping leaves no resolver key, and changes exactly the documents that have one. */
  lemma {:induction false} StrippedIsClean(doc: Value)
    ensures !HasMetaKey(Stripped(doc))
    ensures Stripped(doc) == doc <==> !HasMetaKey(doc)
    decreases doc
  {
    match doc
    case Arr(items) =>
      forall i | 0 <= i < |items|
        ensures StrippedItems(items)[i] == Stripped(items[i])
        ensures !HasMetaKey(StrippedItems(items)[i])
        ensures Stripped(items[i]) == items[i] <==> !HasMetaKey(items[i])
      {
        StrippedItemsAt(items, i);
        StrippedIsClean(items[i]);
      }
      if !HasMetaKey(doc) {
        assert StrippedItems(items) == items;
      }
    case Obj(fields) =>
      var stripped := Stripped(doc).fields;
      forall k | k in fields
        ensures !HasMetaKey(Stripped(fields[k]))
        ensures Stripped(fields[k]) == fields[k] <==> !HasMetaKey(fields[k])
      {
        StrippedIsClean(fields[k]);
      }
      if Stripped(doc) == doc {
        assert forall k :: k in fields ==> k in stripped && stripped[k] == fields[k];
      }
      if !HasMetaKey(doc) {
        assert stripped == fields;
      }
    case Null =>
    case Scalar(_) =>
  }

  /** It does not matter whether the resolver's keys are dropped before or after services are composed. */
  lemma {:induction false} StrippingCommutes(x: Value, y: Value)
    ensures Stripped(Composed(x, y)) == Composed(Stripped(x), Stripped(y))
    decreases y
  {
    if x.Arr? && y.Arr? {
      StrippedConcat(x.items, y.items);
    } else if x.Obj? && y.Obj? {
      var whole := Stripped(Composed(x, y)).fields;
      var parts := ComposedFields(Stripped(x).fields, Stripped(y));
      forall k | k in whole
        ensures k in parts && whole[k] == parts[k]
      {
        if k in x.fields && k in y.fields {
          StrippingCommutes(x.fields[k], y.fields[k]);
        }
      }
      assert parts.Keys == whole.Keys;
    }
  }

  /** Stripping does not spare service names: a service called after a resolver key disappears. */
  lemma StrippingDropsServices(doc: Value, name: string)
    requires Present(doc, name)
    ensures Present(Stripped(doc), name) <==> name != "extends" && name != "vars" && name != "apps"
  {
    var services := doc.fields["services"];
    assert Stripped(doc).fields["services"] == Stripped(services);
  }
}
