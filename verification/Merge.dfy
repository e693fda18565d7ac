/** ManifestMerge and the document transformations of ManifestResolver, over parsed YAML values. */
module Merge {
  import opened Sequences

  /** A parsed YAML value; key order inside a mapping is not kept. */
  datatype Value = Null | Scalar(text: string) | Arr(items: seq<Value>) | Obj(fields: map<string, Value>)

  // ---- deepMerge --------------------------------------------------------------------------

  /** What one overlay key becomes, given the base value under that key. */
  function MergedKey(key: string, base: Option<Value>, overlay: Value): Value
    decreases overlay, 2
  {
    if key == "services" && overlay.Obj? then
      Obj(MergedServices(if base.Some? && base.value.Obj? then base.value.fields else map[], overlay))
    else if key == "tasks" && overlay.Arr? then
      Arr((if base.Some? && base.value.Arr? then base.value.items else []) + overlay.items)
    else if base.Some? then Merged(base.value, overlay)
    else overlay
  }

  function Merged(base: Value, overlay: Value): Value
    decreases overlay, 1
  {
    if overlay.Null? then base
    else if base.Null? then overlay
    else if base.Arr? || overlay.Arr? then (if overlay.Arr? then overlay else base)
    else if !base.Obj? || !overlay.Obj? then overlay
    else Obj(MergedFields(base.fields, overlay))
  }

  function MergedFields(base: map<string, Value>, overlay: Value): (r: map<string, Value>)
    requires overlay.Obj?
    ensures r.Keys == base.Keys + overlay.fields.Keys
    ensures forall k :: k in r ==>
              r[k] == if k in overlay.fields then MergedKey(k, Get(base, k), overlay.fields[k]) else base[k]
    decreases overlay, 0
  {
    map k | k in base.Keys + overlay.fields.Keys ::
      if k in overlay.fields then MergedKey(k, Get(base, k), overlay.fields[k]) else base[k]
  }

  function Get(fields: map<string, Value>, key: string): Option<Value> {
    if key in fields then Some(fields[key]) else None
  }

  /** What one non-null overlay service becomes. */
  function MergedService(base: Option<Value>, overlay: Value): Value
    decreases overlay, 2
  {
    if base.Some? && base.value.Obj? && overlay.Obj? then Merged(base.value, overlay) else overlay
  }

  function MergedServices(base: map<string, Value>, overlay: Value): (r: map<string, Value>)
    requires overlay.Obj?
    ensures forall n :: n in r <==>
              if n in overlay.fields then !overlay.fields[n].Null? else n in base
    ensures forall n :: n in r ==>
              r[n] == if n in overlay.fields then MergedService(Get(base, n), overlay.fields[n]) else base[n]
    decreases overlay, 0
  {
    map n | n in base.Keys + overlay.fields.Keys && !(n in overlay.fields && overlay.fields[n].Null?) ::
      if n in overlay.fields then MergedService(Get(base, n), overlay.fields[n]) else base[n]
  }

  /** The merging loop over some overlay keys, in the order given. */
  function MergedInOrder(result: map<string, Value>, keys: seq<string>, overlay: Value): map<string, Value>
    requires overlay.Obj? && forall k :: k in keys ==> k in overlay.fields
    decreases |keys|
  {
    if keys == [] then result
    else MergedInOrder(result[keys[0] := MergedKey(keys[0], Get(result, keys[0]), overlay.fields[keys[0]])],
                       keys[1..], overlay)
  }

  function WithService(result: map<string, Value>, name: string, overlay: Value): map<string, Value> {
    if overlay.Null? then result - {name} else result[name := MergedService(Get(result, name), overlay)]
  }

  /** The services loop over some overlay keys, in the order given. */
  function ServicesInOrder(result: map<string, Value>, names: seq<string>, overlay: Value): map<string, Value>
    requires overlay.Obj? && forall n :: n in names ==> n in overlay.fields
    decreases |names|
  {
    if names == [] then result
    else ServicesInOrder(WithService(result, names[0], overlay.fields[names[0]]), names[1..], overlay)
  }

  lemma {:induction false} MergedInOrderAt(result: map<string, Value>, keys: seq<string>, overlay: Value, k: string)
    requires overlay.Obj? && Distinct(keys) && forall n :: n in keys ==> n in overlay.fields
    ensures Get(MergedInOrder(result, keys, overlay), k) ==
            if k in keys then Some(MergedKey(k, Get(result, k), overlay.fields[k])) else Get(result, k)
    decreases |keys|
  {
    if keys != [] {
      var key := keys[0];
      assert key !in keys[1..];
      MergedInOrderAt(result[key := MergedKey(key, Get(result, key), overlay.fields[key])], keys[1..], overlay, k);
    }
  }

  lemma {:induction false} ServicesInOrderAt(result: map<string, Value>, names: seq<string>, overlay: Value, n: string)
    requires overlay.Obj? && Distinct(names) && forall m :: m in names ==> m in overlay.fields
    ensures Get(ServicesInOrder(result, names, overlay), n) ==
            if n !in names then Get(result, n)
            else if overlay.fields[n].Null? then None
            else Some(MergedService(Get(result, n), overlay.fields[n]))
    decreases |names|
  {
    if names != [] {
      assert names[0] !in names[1..];
      ServicesInOrderAt(WithService(result, names[0], overlay.fields[names[0]]), names[1..], overlay, n);
    }
  }

  lemma SameFields(a: map<string, Value>, b: map<string, Value>)
    requires forall k :: Get(a, k) == Get(b, k)
    ensures a == b
  {
    assert forall k :: k in a <==> Get(a, k).Some?;
    assert forall k :: k in b <==> Get(b, k).Some?;
    assert forall k :: k in a ==> Get(a, k) == Some(a[k]);
  }

  /** The loops compute the same mappings in whatever order the overlay lists its keys. */
  lemma AnyOrder(base: map<string, Value>, keys: seq<string>, overlay: Value)
    requires overlay.Obj? && Distinct(keys) && forall k :: k in keys <==> k in overlay.fields
    ensures MergedInOrder(base, keys, overlay) == MergedFields(base, overlay)
    ensures ServicesInOrder(base, keys, overlay) == MergedServices(base, overlay)
  {
    forall k ensures Get(MergedInOrder(base, keys, overlay), k) == Get(MergedFields(base, overlay), k) {
      MergedInOrderAt(base, keys, overlay, k);
    }
    SameFields(MergedInOrder(base, keys, overlay), MergedFields(base, overlay));
    forall n ensures Get(ServicesInOrder(base, keys, overlay), n) == Get(MergedServices(base, overlay), n) {
      ServicesInOrderAt(base, keys, overlay, n);
    }
    SameFields(ServicesInOrder(base, keys, overlay), MergedServices(base, overlay));
  }

  /** The keys of a mapping, in some order. */
  method KeysOf(fields: map<string, Value>) returns (keys: seq<string>)
    ensures Distinct(keys) && forall k :: k in keys <==> k in fields
  {
    keys := [];
    var rest := fields.Keys;
    while rest != {}
      invariant rest <= fields.Keys
      invariant Distinct(keys) && forall k :: k in keys <==> k in fields.Keys - rest
      decreases |rest|
    {
      var k :| k in rest;
      assert k !in keys;
      keys, rest := keys + [k], rest - {k};
    }
  }

  method DeepMerge(base: Value, overlay: Value) returns (merged: Value)
    ensures merged == Merged(base, overlay)
    decreases overlay, 2
  {
    if overlay.Null? {
      return base;
    }
    if base.Null? {
      return overlay;
    }
    if base.Arr? || overlay.Arr? {
      return if overlay.Arr? then overlay else base;
    }
    if !base.Obj? || !overlay.Obj? {
      return overlay;
    }
    var keys := KeysOf(overlay.fields);
    var result := base.fields;
    for i := 0 to |keys|
      invariant MergedInOrder(result, keys[i..], overlay) == MergedInOrder(base.fields, keys, overlay)
    {
      var key := keys[i];
      var overlayValue := overlay.fields[key];
      if key == "services" && overlayValue.Obj? {
        var services :=
          MergeServices(if key in result && result[key].Obj? then result[key].fields else map[], overlayValue);
        result := result[key := Obj(services)];
      } else if key == "tasks" && overlayValue.Arr? {
        var baseTasks := if key in result && result[key].Arr? then result[key].items else [];
        result := result[key := Arr(baseTasks + overlayValue.items)];
      } else if key in result {
        var value := DeepMerge(result[key], overlayValue);
        result := result[key := value];
      } else {
        result := result[key := overlayValue];
      }
    }
    AnyOrder(base.fields, keys, overlay);
    merged := Obj(result);
  }

  method MergeServices(base: map<string, Value>, overlay: Value) returns (result: map<string, Value>)
    requires overlay.Obj?
    ensures result == MergedServices(base, overlay)
    decreases overlay, 1
  {
    var names := KeysOf(overlay.fields);
    result := base;
    for i := 0 to |names|
      invariant ServicesInOrder(result, names[i..], overlay) == ServicesInOrder(base, names, overlay)
    {
      var serviceName, overlayService := names[i], overlay.fields[names[i]];
      if overlayService.Null? {
        result := result - {serviceName};
        continue;
      }
      if serviceName in result && result[serviceName].Obj? && overlayService.Obj? {
        var service := DeepMerge(result[serviceName], overlayService);
        result := result[serviceName := service];
      } else {
        result := result[serviceName := overlayService];
      }
    }
    AnyOrder(base, names, overlay);
  }

  // ---- merging twice ----------------------------------------------------------------------

  /** Neither a `tasks` list with entries nor a null under `services` anywhere in the value. */
  predicate Repeatable(overlay: Value)
    decreases overlay, 0
  {
    overlay.Obj? ==> forall k :: k in overlay.fields ==> RepeatableKey(k, overlay.fields[k], false)
  }

  /** The same for one key; at the root of a document, services may be null. */
  predicate RepeatableKey(key: string, value: Value, atRoot: bool)
    decreases value, 1
  {
    if key == "services" && value.Obj? then
      forall n :: n in value.fields ==> (if value.fields[n].Null? then atRoot else Repeatable(value.fields[n]))
    else if key == "tasks" && value.Arr? then value.items == []
    else Repeatable(value)
  }

  predicate RootRepeatable(overlay: Value)
    requires overlay.Obj?
  {
    forall k :: k in overlay.fields ==> RepeatableKey(k, overlay.fields[k], true)
  }

  /** A value merged onto itself is unchanged exactly when it is repeatable. */
  lemma {:induction false} SelfMerge(o: Value)
    ensures Merged(o, o) == o <==> Repeatable(o)
    decreases o, 0
  {
    if o.Obj? {
      forall k | k in o.fields
        ensures MergedKey(k, Some(o.fields[k]), o.fields[k]) == o.fields[k] <==> RepeatableKey(k, o.fields[k], false)
      {
        SelfMergeKey(k, o.fields[k]);
      }
      var m := Merged(o, o).fields;
      assert m.Keys == o.fields.Keys;
      assert forall k :: k in o.fields ==> m[k] == MergedKey(k, Some(o.fields[k]), o.fields[k]);
      assert Merged(o, o) == o <==> m == o.fields;
    }
  }

  lemma {:induction false} SelfMergeKey(key: string, o: Value)
    ensures MergedKey(key, Some(o), o) == o <==> RepeatableKey(key, o, false)
    decreases o, 1
  {
    if key == "services" && o.Obj? {
      var m := MergedServices(o.fields, o);
      forall n | n in o.fields && !o.fields[n].Null?
        ensures m[n] == o.fields[n] <==> Repeatable(o.fields[n])
      {
        SelfMerge(o.fields[n]);
      }
      assert m.Keys <= o.fields.Keys;
      assert forall n :: n in o.fields ==> (n in m <==> !o.fields[n].Null?);
      if RepeatableKey(key, o, false) {
        assert m == o.fields;
      }
    } else if key == "tasks" && o.Arr? {
      assert |o.items + o.items| == 2 * |o.items|;
    } else {
      SelfMerge(o);
    }
  }

  lemma {:induction false} MergeTwice(b: Value, o: Value)
    requires Repeatable(o)
    ensures Merged(Merged(b, o), o) == Merged(b, o)
    decreases o, 0
  {
    if b.Null? {
      SelfMerge(o);
    } else if b.Obj? && o.Obj? {
      MergeTwiceFields(b, o, false);
    } else if o.Obj? && !b.Arr? {
      SelfMerge(o);
    }
  }

  lemma {:induction false} MergeTwiceFields(b: Value, o: Value, atRoot: bool)
    requires b.Obj? && o.Obj?
    requires forall k :: k in o.fields ==> RepeatableKey(k, o.fields[k], atRoot)
    ensures Merged(Merged(b, o), o) == Merged(b, o)
    decreases o, 0, 0
  {
    var once := Merged(b, o).fields;
    var twice := Merged(Merged(b, o), o).fields;
    forall k | k in once
      ensures twice[k] == once[k]
    {
      if k in o.fields {
        MergeTwiceKey(k, Get(b.fields, k), o.fields[k], atRoot);
      }
    }
    assert twice.Keys == once.Keys;
  }

  lemma {:induction false} MergeTwiceKey(key: string, base: Option<Value>, o: Value, atRoot: bool)
    requires RepeatableKey(key, o, atRoot)
    ensures MergedKey(key, Some(MergedKey(key, base, o)), o) == MergedKey(key, base, o)
    decreases o, 1
  {
    if key == "services" && o.Obj? {
      var bs := if base.Some? && base.value.Obj? then base.value.fields else map[];
      var once := MergedServices(bs, o);
      var twice := MergedServices(once, o);
      forall n | n in once
        ensures n in twice && twice[n] == once[n]
      {
        if n in o.fields {
          SelfMerge(o.fields[n]);
          if n in bs {
            MergeTwice(bs[n], o.fields[n]);
          }
        }
      }
      assert twice.Keys == once.Keys;
    } else if key == "tasks" && o.Arr? {
    } else if base.Some? {
      MergeTwice(base.value, o);
    } else {
      SelfMerge(o);
    }
  }

  /**
   * Merging one overlay document twice equals merging it once, whatever the base document, exactly when the
   * overlay has no `tasks` list with entries and no null service below its root.
   */
  lemma TwiceIsOnce(o: Value)
    requires o.Obj?
    ensures (forall b: Value :: b.Obj? ==> Merged(Merged(b, o), o) == Merged(b, o)) <==> RootRepeatable(o)
  {
    if RootRepeatable(o) {
      forall b: Value | b.Obj?
        ensures Merged(Merged(b, o), o) == Merged(b, o)
      {
        MergeTwiceFields(b, o, true);
      }
    }
    if forall b: Value :: b.Obj? ==> Merged(Merged(b, o), o) == Merged(b, o) {
      var empty := Obj(map[]);
      assert Merged(Merged(empty, o), o) == Merged(empty, o);
      forall k | k in o.fields
        ensures RepeatableKey(k, o.fields[k], true)
      {
        assert Merged(Merged(empty, o), o).fields[k] == Merged(empty, o).fields[k];
        OnceOnEmptyKey(k, o.fields[k]);
      }
    }
  }

  /** One repetition on an absent base already shows whether a key is repeatable. */
  lemma OnceOnEmptyKey(key: string, o: Value)
    requires MergedKey(key, Some(MergedKey(key, None, o)), o) == MergedKey(key, None, o)
    ensures RepeatableKey(key, o, true)
  {
    if key == "services" && o.Obj? {
      var once := MergedServices(map[], o);
      forall n | n in o.fields && !o.fields[n].Null?
        ensures Repeatable(o.fields[n])
      {
        assert once[n] == MergedService(None, o.fields[n]);
        assert MergedServices(once, o)[n] == MergedService(Some(once[n]), o.fields[n]);
        SelfMerge(o.fields[n]);
      }
    } else if key == "tasks" && o.Arr? {
      assert [] + o.items == o.items;
      assert MergedKey(key, Some(Arr(o.items)), o) == Arr(o.items + o.items);
      assert |o.items + o.items| == 2 * |o.items|;
    } else {
      SelfMerge(o);
    }
  }

  // ---- folding overlays -------------------------------------------------------------------

  /** A document names a service and gives it a value. */
  predicate Present(doc: Value, name: string) {
    && doc.Obj? && "services" in doc.fields && doc.fields["services"].Obj?
    && name in doc.fields["services"].fields && !doc.fields["services"].fields[name].Null?
  }

  datatype Effect = Set | Delete | Silent | Wipe

  /** What a document whose `services` value is `o` does to a service. */
  function ServicesEffect(o: Value, name: string): Effect {
    if o.Null? then Silent
    else if !o.Obj? then Wipe
    else if name !in o.fields then Silent
    else if o.fields[name].Null? then Delete
    else Set
  }

  /** What an overlay does to a service: a `services` value that is not a mapping wipes them all. */
  function EffectOn(overlay: Value, name: string): Effect {
    if overlay.Null? then Silent
    else if !overlay.Obj? then Wipe
    else if "services" !in overlay.fields then Silent
    else ServicesEffect(overlay.fields["services"], name)
  }

  function Folded(base: Value, overlays: seq<Value>): Value {
    if overlays == [] then base else Merged(Folded(base, overlays[..|overlays| - 1]), overlays[|overlays| - 1])
  }

  /** What the last overlay that is not silent about a service does to it. */
  function LastEffect(overlays: seq<Value>, name: string): (e: Effect)
    ensures e == Silent <==> forall o :: o in overlays ==> EffectOn(o, name) == Silent
  {
    if overlays == [] then Silent
    else
      var last := overlays[|overlays| - 1];
      assert overlays == overlays[..|overlays| - 1] + [last];
      if EffectOn(last, name) != Silent then EffectOn(last, name) else LastEffect(overlays[..|overlays| - 1], name)
  }

  /** The merged `services` value names a service with a value. */
  predicate Holds(services: Option<Value>, name: string) {
    services.Some? && services.value.Obj? && name in services.value.fields && !services.value.fields[name].Null?
  }

  lemma MergedServicesHold(base: map<string, Value>, o: Value, name: string)
    requires o.Obj?
    ensures Holds(Some(Obj(MergedServices(base, o))), name) <==>
            ServicesEffect(o, name) == Set || (ServicesEffect(o, name) == Silent && Holds(Some(Obj(base)), name))
  {
    var m := MergedServices(base, o);
    if name in o.fields && !o.fields[name].Null? {
      assert m[name] == MergedService(Get(base, name), o.fields[name]);
      NeverNull(Get(base, name), o.fields[name]);
    }
  }

  lemma NeverNull(base: Option<Value>, overlay: Value)
    requires !overlay.Null?
    ensures !MergedService(base, overlay).Null?
  {
  }

  lemma MergedKeyHolds(base: Option<Value>, o: Value, name: string)
    ensures Holds(Some(MergedKey("services", base, o)), name) <==>
            ServicesEffect(o, name) == Set || (ServicesEffect(o, name) == Silent && Holds(base, name))
  {
    if o.Obj? {
      MergedServicesHold(if base.Some? && base.value.Obj? then base.value.fields else map[], o, name);
    }
  }

  lemma MergedPresence(b: Value, o: Value, name: string)
    requires !b.Arr? && !o.Arr?
    ensures !Merged(b, o).Arr?
    ensures Present(Merged(b, o), name) <==>
            EffectOn(o, name) == Set || (EffectOn(o, name) == Silent && Present(b, name))
  {
    if b.Obj? && o.Obj? {
      var m := MergedFields(b.fields, o);
      assert Merged(b, o) == Obj(m);
      if "services" in o.fields {
        MergedKeyHolds(Get(b.fields, "services"), o.fields["services"], name);
        assert m["services"] == MergedKey("services", Get(b.fields, "services"), o.fields["services"]);
      }
    }
  }

  /**
   * After folding any list of overlays a service is present exactly when the last overlay that speaks of it
   * sets it, or none speaks of it and the base has it. An overlay speaks of it by giving it a value, by
   * setting it to null, or by replacing the whole `services` mapping with something else.
   */
  lemma {:induction false} FoldPresence(base: Value, overlays: seq<Value>, name: string)
    requires !base.Arr? && forall o :: o in overlays ==> !o.Arr?
    ensures !Folded(base, overlays).Arr?
    ensures Present(Folded(base, overlays), name) <==>
            LastEffect(overlays, name) == Set || (LastEffect(overlays, name) == Silent && Present(base, name))
  {
    if overlays != [] {
      var rest, last := overlays[..|overlays| - 1], overlays[|overlays| - 1];
      FoldPresence(base, rest, name);
      MergedPresence(Folded(base, rest), last, name);
    }
  }

  // ---- values by path -----------------------------------------------------------------------

  /** A document that says one value under a path of keys. */
  function Nested(path: seq<string>, leaf: Value): Value {
    if path == [] then leaf else Obj(map[path[0] := Nested(path[1..], leaf)])
  }

  function ValueAt(v: Value, path: seq<string>): Option<Value>
    decreases |path|
  {
    if path == [] then Some(v)
    else if v.Obj? && path[0] in v.fields then ValueAt(v.fields[path[0]], path[1..])
    else None
  }

  lemma {:induction false} NestedAt(path: seq<string>, leaf: Value)
    ensures ValueAt(Nested(path, leaf), path) == Some(leaf)
    decreases |path|
  {
    if path != [] {
      NestedAt(path[1..], leaf);
    }
  }

  /**
   * The path leads through a list. Below `services` only the inside of a service counts: a list in place of the
   * services or of a service does not.
   */
  predicate ThroughList(v: Value, path: seq<string>)
    decreases |path|
  {
    path != []
    && (|| v.Arr?
        || (v.Obj? && path[0] in v.fields
            && var next := v.fields[path[0]];
               if path[0] == "services" && |path| > 1 then
                 next.Obj? && path[1] in next.fields && !next.fields[path[1]].Arr?
                 && ThroughList(next.fields[path[1]], path[2..])
               else ThroughList(next, path[1..])))
  }

  /** The path ends at a service: behind a `services` key that is itself no service. */
  predicate AtService(path: seq<string>) {
    |path| > 1 && if path[0] == "services" then |path| == 2 || AtService(path[2..]) else AtService(path[1..])
  }

  /** The path ends at a `tasks` key that is no service. */
  predicate AtTasks(path: seq<string>) {
    path != [] && path[|path| - 1] == "tasks" && !AtService(path)
  }

  /** The base tasks that an overlay's tasks are put behind. */
  function TasksKept(base: Value, path: seq<string>): seq<Value> {
    var value := ValueAt(base, path);
    if AtTasks(path) && value.Some? && value.value.Arr? then value.value.items else []
  }

  /** A list stands at the end of the path, and not in place of a service. */
  predicate ToList(v: Value, path: seq<string>) {
    ValueAt(v, path).Some? && ValueAt(v, path).value.Arr? && !AtService(path)
  }

  /** A base list stays under every overlay that is no list. */
  lemma ListStays(base: Value, overlay: Value)
    requires base.Arr? && !overlay.Arr?
    ensures Merged(base, overlay) == base
  {
  }

  /** What an overlay's leaf comes to, when nothing of the base is in its way. */
  function Laid(base: Value, path: seq<string>, leaf: Value): Value {
    if leaf.Arr? then Arr(TasksKept(base, path) + leaf.items) else leaf
  }

  predicate InTheWay(base: Value, path: seq<string>, leaf: Value) {
    ThroughList(base, path) || (!leaf.Arr? && ToList(base, path))
  }

  lemma {:induction false} LeafIff(base: Value, overlay: Value, path: seq<string>, leaf: Value)
    requires ValueAt(overlay, path) == Some(leaf) && (leaf.Arr? || leaf.Scalar?)
    ensures ValueAt(Merged(base, overlay), path) == Some(Laid(base, path, leaf)) <==> !InTheWay(base, path, leaf)
    decreases |path|
  {
    assert leaf.Arr? ==> [] + leaf.items == leaf.items;
    if path != [] && base.Obj? {
      var key, rest := path[0], path[1..];
      if key == "services" && rest != [] {
        ServiceLeafIff(base.fields, overlay, path, leaf);
      } else {
        KeyLeafIff(base.fields, overlay, path, leaf);
      }
    }
  }

  lemma {:induction false} KeyLeafIff(fields: map<string, Value>, overlay: Value, path: seq<string>, leaf: Value)
    requires path != [] && !(path[0] == "services" && |path| > 1)
    requires ValueAt(overlay, path) == Some(leaf) && (leaf.Arr? || leaf.Scalar?)
    ensures ValueAt(Merged(Obj(fields), overlay), path) == Some(Laid(Obj(fields), path, leaf)) <==>
            !InTheWay(Obj(fields), path, leaf)
    decreases |path|, 0
  {
    var key, rest := path[0], path[1..];
    var merged := Merged(Obj(fields), overlay).fields[key];
    assert merged == MergedKey(key, Get(fields, key), overlay.fields[key]);
    assert leaf.Arr? ==> [] + leaf.items == leaf.items;
    assert ValueAt(Merged(Obj(fields), overlay), path) == ValueAt(merged, rest);
    assert ValueAt(overlay.fields[key], rest) == Some(leaf);
    if key in fields {
      assert ValueAt(Obj(fields), path) == ValueAt(fields[key], rest);
      LeafIff(fields[key], overlay.fields[key], rest, leaf);
      if rest != [] {
        assert rest[|rest| - 1] == path[|path| - 1];
        assert AtService(path) == AtService(rest);
        assert TasksKept(Obj(fields), path) == TasksKept(fields[key], rest);
      }
    }
  }

  /** The services a mapping holds. */
  function ServicesIn(fields: map<string, Value>): map<string, Value> {
    if "services" in fields && fields["services"].Obj? then fields["services"].fields else map[]
  }

  lemma ServicePath(fields: map<string, Value>, path: seq<string>)
    requires |path| > 1 && path[0] == "services"
    ensures ValueAt(Obj(fields), path) ==
            if path[1] in ServicesIn(fields) then ValueAt(ServicesIn(fields)[path[1]], path[2..]) else None
    ensures ThroughList(Obj(fields), path) <==>
            && path[1] in ServicesIn(fields) && !ServicesIn(fields)[path[1]].Arr?
            && ThroughList(ServicesIn(fields)[path[1]], path[2..])
    ensures AtService(path) <==> |path| == 2 || AtService(path[2..])
    ensures |path| > 2 ==> path[|path| - 1] == path[2..][|path| - 3]
  {
    assert path[1..][1..] == path[2..] && path[1..][0] == path[1];
    if "services" in fields {
      assert ValueAt(Obj(fields), path) == ValueAt(fields["services"], path[1..]);
    }
  }

  lemma MergedAtService(fields: map<string, Value>, overlay: Value, path: seq<string>)
    requires |path| > 1 && path[0] == "services" && overlay.Obj?
    requires "services" in overlay.fields && overlay.fields["services"].Obj?
    requires path[1] in overlay.fields["services"].fields
    requires !overlay.fields["services"].fields[path[1]].Null?
    ensures ValueAt(Merged(Obj(fields), overlay), path) ==
            ValueAt(MergedService(Get(ServicesIn(fields), path[1]), overlay.fields["services"].fields[path[1]]),
                    path[2..])
  {
    var inner := overlay.fields["services"];
    var merged := MergedServices(ServicesIn(fields), inner);
    var all := Merged(Obj(fields), overlay).fields;
    assert all["services"] == Obj(merged);
    ServicePath(all, path);
    assert ServicesIn(all) == merged;
  }

  lemma {:induction false} ServiceLeafIff(fields: map<string, Value>, overlay: Value, path: seq<string>, leaf: Value)
    requires |path| > 1 && path[0] == "services"
    requires ValueAt(overlay, path) == Some(leaf) && (leaf.Arr? || leaf.Scalar?)
    ensures ValueAt(Merged(Obj(fields), overlay), path) == Some(Laid(Obj(fields), path, leaf)) <==>
            !InTheWay(Obj(fields), path, leaf)
    decreases |path|, 0
  {
    var name, rest, services := path[1], path[2..], ServicesIn(fields);
    ServicePath(overlay.fields, path);
    ServicePath(fields, path);
    var said := ServicesIn(overlay.fields)[name];
    assert ValueAt(said, rest) == Some(leaf);
    MergedAtService(fields, overlay, path);
    assert leaf.Arr? ==> [] + leaf.items == leaf.items;
    if name in services && services[name].Obj? && said.Obj? {
      LeafIff(services[name], said, rest, leaf);
      assert rest != [];
      assert TasksKept(Obj(fields), path) == TasksKept(services[name], rest);
    } else {
      assert rest == [] ==> AtService(path);
      assert TasksKept(Obj(fields), path) == [];
    }
  }

  /** An overlay scalar is in force after the merge exactly when the base has no list on its path or at its end. */
  lemma ScalarReplacesIff(base: Value, overlay: Value, path: seq<string>, text: string)
    requires ValueAt(overlay, path) == Some(Scalar(text))
    ensures ValueAt(Merged(base, overlay), path) == Some(Scalar(text)) <==>
            !ThroughList(base, path) && !ToList(base, path)
  {
    LeafIff(base, overlay, path, Scalar(text));
  }

  /**
   * An overlay list is in force after the merge exactly when the path leads through no base list, whatever the base
   * has at its end. At a `tasks` key it comes behind the base tasks, everywhere else it replaces what the base has.
   */
  lemma ListReplacesIff(base: Value, overlay: Value, path: seq<string>, items: seq<Value>)
    requires ValueAt(overlay, path) == Some(Arr(items))
    ensures !AtTasks(path) ==>
              (ValueAt(Merged(base, overlay), path) == Some(Arr(items)) <==> !ThroughList(base, path))
    ensures AtTasks(path) ==>
              var before := if ValueAt(base, path).Some? && ValueAt(base, path).value.Arr?
                            then ValueAt(base, path).value.items else [];
              (ValueAt(Merged(base, overlay), path) == Some(Arr(before + items)) <==> !ThroughList(base, path))
  {
    LeafIff(base, overlay, path, Arr(items));
    assert [] + items == items;
  }

  /** The overlay says something at the path, above it or below it. */
  predicate Touches(overlay: Value, path: seq<string>)
    decreases |path|
  {
    path == [] || !overlay.Obj? || (path[0] in overlay.fields && Touches(overlay.fields[path[0]], path[1..]))
  }

  lemma {:induction false} UntouchedIsAbsent(overlay: Value, path: seq<string>)
    requires !Touches(overlay, path)
    ensures ValueAt(overlay, path) == None
    decreases |path|
  {
    if path[0] in overlay.fields {
      UntouchedIsAbsent(overlay.fields[path[0]], path[1..]);
    }
  }

  /** Where the overlay says nothing the merged document has what the base has. */
  lemma {:induction false} UntouchedStays(base: Value, overlay: Value, path: seq<string>)
    requires !Touches(overlay, path)
    ensures ValueAt(Merged(base, overlay), path) == ValueAt(base, path)
    decreases |path|
  {
    UntouchedIsAbsent(overlay, path);
    if base.Obj? && path[0] in overlay.fields {
      var key, rest := path[0], path[1..];
      var inner := overlay.fields[key];
      assert Merged(base, overlay).fields[key] == MergedKey(key, Get(base.fields, key), inner);
      if key == "services" {
        UntouchedService(base.fields, overlay, path);
      } else if key in base.fields {
        UntouchedStays(base.fields[key], inner, rest);
      }
    }
  }

  lemma {:induction false} UntouchedService(fields: map<string, Value>, overlay: Value, path: seq<string>)
    requires !Touches(overlay, path) && path[0] == "services" && path[0] in overlay.fields
    ensures ValueAt(Merged(Obj(fields), overlay), path) == ValueAt(Obj(fields), path)
    decreases |path|, 0
  {
    var name, deep, services := path[1], path[2..], ServicesIn(fields);
    assert path[1..][1..] == deep && path[1..][0] == name;
    ServicePath(fields, path);
    var said := overlay.fields["services"].fields;
    if name in said {
      UntouchedIsAbsent(said[name], deep);
      MergedAtService(fields, overlay, path);
      if name in services && services[name].Obj? {
        UntouchedStays(services[name], said[name], deep);
      }
    } else {
      var all := Merged(Obj(fields), overlay).fields;
      assert all["services"] == Obj(MergedServices(services, overlay.fields["services"]));
      ServicePath(all, path);
    }
  }

  /** An overlay null keeps what the base has, except in place of a service, which it removes. */
  lemma {:induction false} NullKeeps(base: Value, overlay: Value, path: seq<string>)
    requires ValueAt(overlay, path) == Some(Null) && ValueAt(base, path).Some?
    ensures !AtService(path) ==> ValueAt(Merged(base, overlay), path) == ValueAt(base, path)
    ensures AtService(path) ==> ValueAt(Merged(base, overlay), path) == None
    decreases |path|
  {
    if path != [] {
      var key, rest := path[0], path[1..];
      if key == "services" && rest != [] {
        ServiceNull(base.fields, overlay, path);
      } else {
        assert Merged(base, overlay).fields[key] == MergedKey(key, Get(base.fields, key), overlay.fields[key]);
        NullKeeps(base.fields[key], overlay.fields[key], rest);
        assert AtService(path) == AtService(rest);
      }
    }
  }

  lemma {:induction false} ServiceNull(fields: map<string, Value>, overlay: Value, path: seq<string>)
    requires |path| > 1 && path[0] == "services"
    requires ValueAt(overlay, path) == Some(Null) && ValueAt(Obj(fields), path).Some?
    ensures !AtService(path) ==> ValueAt(Merged(Obj(fields), overlay), path) == ValueAt(Obj(fields), path)
    ensures AtService(path) ==> ValueAt(Merged(Obj(fields), overlay), path) == None
    decreases |path|, 0
  {
    var name, rest, services := path[1], path[2..], ServicesIn(fields);
    ServicePath(overlay.fields, path);
    ServicePath(fields, path);
    var said := ServicesIn(overlay.fields)[name];
    if rest == [] {
      var all := Merged(Obj(fields), overlay).fields;
      assert all["services"] == Obj(MergedServices(services, overlay.fields["services"]));
      ServicePath(all, path);
    } else {
      MergedAtService(fields, overlay, path);
      NullKeeps(services[name], said, rest);
    }
  }
}
