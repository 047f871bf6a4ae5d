/** The layered CODEX_CONFIG: a recursive JSON overlay and the environment value built from it. */
module CodexConfig {
  import opened Wrappers

  type Object = map<string, Json>

  datatype Json = Null | Bool(b: bool) | Number(n: int) | Text(s: string) | Array(items: seq<Json>) | Obj(fields: Object)

  /** `deep_merge` as a function: overlay wins, except that two objects merge key by key. */
  function Merge(base: Object, overlay: Object): Object
    decreases Obj(overlay)
  {
    map k | k in base.Keys + overlay.Keys ::
      if k !in overlay then base[k]
      else if k in base && base[k].Obj? && overlay[k].Obj? then Obj(Merge(base[k].fields, overlay[k].fields))
      else overlay[k]
  }

  /**
   `deep_merge` as the source runs it: entry by entry into the base, in any order, recursing
   where both sides hold an object. Every order gives `Merge`.
   */
  method DeepMerge(base: Object, overlay: Object) returns (merged: Object)
    ensures merged == Merge(base, overlay)
    decreases Obj(overlay)
  {
    merged := base;
    var todo := overlay.Keys;
    while todo != {}
      invariant todo <= overlay.Keys
      invariant merged.Keys == base.Keys + (overlay.Keys - todo)
      invariant forall k :: k in todo && k in base ==> merged[k] == base[k]
      invariant forall k :: k in merged && k !in todo ==> merged[k] == Merge(base, overlay)[k]
      decreases todo
    {
      var k :| k in todo;
      if k in merged && merged[k].Obj? && overlay[k].Obj? {
        var inner := DeepMerge(merged[k].fields, overlay[k].fields);
        merged := merged[k := Obj(inner)];
      } else {
        merged := merged[k := overlay[k]];
      }
      todo := todo - {k};
    }
  }

  // ---- Paths -----------------------------------------------------------------------

  /** What a path meets in an object: a missing key, a non-object in the way, or a value. */
  datatype Sight = Missing | Blocked | At(value: Json)

  function Walk(o: Object, path: seq<string>): Sight
    requires path != []
    decreases |path|
  {
    if path[0] !in o then Missing
    else if |path| == 1 then At(o[path[0]])
    else if o[path[0]].Obj? then Walk(o[path[0]].fields, path[1..])
    else Blocked
  }

  function Get(o: Object, path: seq<string>): Option<Json>
    requires path != []
  {
    if Walk(o, path).At? then Some(Walk(o, path).value) else None
  }

  /** What a merge holds at any path of any depth, from what the two sides hold there. */
  lemma {:induction false} MergeAtPath(base: Object, overlay: Object, path: seq<string>)
    requires path != []
    ensures Get(Merge(base, overlay), path) ==
      match Walk(overlay, path)
      case Missing => Get(base, path)
      case Blocked => None
      case At(v) =>
        if v.Obj? && Get(base, path).Some? && Get(base, path).value.Obj?
        then Some(Obj(Merge(Get(base, path).value.fields, v.fields))) else Some(v)
    decreases |path|
  {
    var k := path[0];
    if |path| > 1 && k in base && k in overlay && base[k].Obj? && overlay[k].Obj? {
      MergeAtPath(base[k].fields, overlay[k].fields, path[1..]);
    }
  }

  // ---- Layers ----------------------------------------------------------------------

  /** The left fold of the overlay over all layers, the first being the base. */
  function Fold(layers: seq<Object>): Object
    requires layers != []
  {
    if |layers| == 1 then layers[0] else Merge(Fold(layers[..|layers| - 1]), layers[|layers| - 1])
  }

  /** A path no later layer mentions keeps what the earlier layers gave it, at every depth. */
  lemma {:induction false} UntouchedPathsSurvive(layers: seq<Object>, i: nat, path: seq<string>)
    requires i < |layers| && path != []
    requires forall j :: i < j < |layers| ==> Walk(layers[j], path) == Missing
    ensures Get(Fold(layers), path) == Get(Fold(layers[..i + 1]), path)
    decreases |layers|
  {
    if i == |layers| - 1 {
      assert layers[..i + 1] == layers;
    } else {
      var front := layers[..|layers| - 1];
      UntouchedPathsSurvive(front, i, path);
      assert front[..i + 1] == layers[..i + 1];
      MergeAtPath(Fold(front), layers[|layers| - 1], path);
    }
  }

  /** The last layer to mention a path decides it, unless it holds an object to merge into. */
  lemma LastMentionWins(layers: seq<Object>, i: nat, path: seq<string>)
    requires i < |layers| && path != []
    requires forall j :: i < j < |layers| ==> Walk(layers[j], path) == Missing
    requires Walk(layers[i], path) != Missing
    ensures match Walk(layers[i], path)
      case Blocked => Get(Fold(layers), path) == None
      case At(v) => !v.Obj? ==> Get(Fold(layers), path) == Some(v)
  {
    UntouchedPathsSurvive(layers, i, path);
    var upto := layers[..i + 1];
    if i > 0 { MergeAtPath(Fold(upto[..i]), layers[i], path); }
  }

  // ---- The forced sandbox setting --------------------------------------------------

  const SANDBOX := "sandbox_workspace_write"
  const NETWORK := "network_access"

  predicate Forceable(o: Object) { SANDBOX in o ==> o[SANDBOX].Obj? }

  function Force(o: Object): Object
    requires Forceable(o)
  {
    var inner := if SANDBOX in o then o[SANDBOX].fields else map[];
    o[SANDBOX := Obj(inner[NETWORK := Bool(true)])]
  }

  /** Forcing sets one setting and leaves every path outside it as it was. */
  lemma ForceAtPath(o: Object, path: seq<string>)
    requires Forceable(o) && path != []
    ensures path == ["sandbox_workspace_write", "network_access"] ==> Get(Force(o), path) == Some(Bool(true))
    ensures path[0] != SANDBOX || (|path| > 1 && path[1] != NETWORK) ==> Get(Force(o), path) == Get(o, path)
  {
    if path[0] == SANDBOX && |path| > 1 {
      var f := Force(o)[SANDBOX].fields;
      var rest := path[1..];
      assert Walk(Force(o), path) == Walk(f, rest) && rest[0] == path[1];
      if SANDBOX in o {
        var s := o[SANDBOX].fields;
        assert Walk(o, path) == Walk(s, rest);
        if rest[0] != NETWORK { assert rest[0] in s <==> rest[0] in f; }
      }
    }
  }

  // ---- Building the environment value ----------------------------------------------

  datatype Failure = LayerNotJson(index: nat) | LayerNotObject(index: nat)
                   | ParentNotJson | ParentNotObject | SandboxNotObject

  const KEY := "CODEX_CONFIG"

  function Entries(env: seq<(string, string)>): seq<string> {
    if env == [] then [] else (if env[0].0 == KEY then [env[0].1] else []) + Entries(env[1..])
  }

  /** Every value under CODEX_CONFIG, in order, and no other. */
  lemma {:induction false} EntriesInOrder(before: seq<(string, string)>, key: string, value: string, after: seq<(string, string)>)
    ensures Entries(before + [(key, value)] + after) ==
      Entries(before) + (if key == "CODEX_CONFIG" then [value] else []) + Entries(after)
    decreases |before|
  {
    var all := before + [(key, value)] + after;
    if before == [] {
      assert all[1..] == after && all[0] == (key, value);
    } else {
      assert all[1..] == before[1..] + [(key, value)] + after && all[0] == before[0];
      EntriesInOrder(before[1..], key, value, after);
    }
  }

  predicate IsObject(parse: string -> Option<Json>, raw: string) {
    parse(raw).Some? && parse(raw).value.Obj?
  }

  predicate AllObjects(parse: string -> Option<Json>, raws: seq<string>) {
    forall i :: 0 <= i < |raws| ==> IsObject(parse, raws[i])
  }

  function Objects(parse: string -> Option<Json>, raws: seq<string>): seq<Object>
    requires AllObjects(parse, raws)
  {
    seq(|raws|, i requires 0 <= i < |raws| => parse(raws[i]).value.fields)
  }

  /** All layers in precedence order: the entries, then the parent environment's value. */
  function AllLayers(env: seq<(string, string)>, parent: Option<string>): seq<string> {
    Entries(env) + (if parent.Some? then [parent.value] else [])
  }

  /** The first entry that is not an object, and what is wrong with it. */
  predicate FaultAt(parse: string -> Option<Json>, entries: seq<string>, f: Failure) {
    && (f.LayerNotJson? || f.LayerNotObject?)
    && f.index < |entries| && AllObjects(parse, entries[..f.index])
    && (if f.LayerNotJson? then parse(entries[f.index]).None?
        else parse(entries[f.index]).Some? && !parse(entries[f.index]).value.Obj?)
  }

  /** The failure that is reported: the first layer that is at fault, and the sandbox setting only if none is. */
  predicate Blames(parse: string -> Option<Json>, env: seq<(string, string)>, parent: Option<string>, f: Failure)
    requires Entries(env) != []
  {
    var entries := Entries(env);
    match f
    case LayerNotJson(_) => FaultAt(parse, entries, f)
    case LayerNotObject(_) => FaultAt(parse, entries, f)
    case ParentNotJson => AllObjects(parse, entries) && parent.Some? && parse(parent.value).None?
    case ParentNotObject =>
      AllObjects(parse, entries) && parent.Some? && parse(parent.value).Some? && !parse(parent.value).value.Obj?
    case SandboxNotObject =>
      AllObjects(parse, AllLayers(env, parent)) && !Forceable(Fold(Objects(parse, AllLayers(env, parent))))
  }

  /** At most one failure can be blamed, so which one is reported is settled by the input. */
  lemma BlamesOne(parse: string -> Option<Json>, env: seq<(string, string)>, parent: Option<string>, f: Failure, g: Failure)
    requires Entries(env) != [] && Blames(parse, env, parent, f) && Blames(parse, env, parent, g)
    ensures f == g
  {
    hide Fold, Forceable, Entries;
    var entries, all := Entries(env), AllLayers(env, parent);
    assert forall i :: 0 <= i < |entries| ==> all[i] == entries[i];
    if parent.Some? { assert all[|entries|] == parent.value; }
    assert forall i, j :: 0 <= j < i <= |entries| ==> entries[..i][j] == entries[j];
  }

  /** The object the layers come to: their left fold with network access forced on. */
  function Combined(env: seq<(string, string)>, parent: Option<string>, parse: string -> Option<Json>): Json
    requires Buildable(env, parent, parse)
  {
    Obj(Force(Fold(Objects(parse, AllLayers(env, parent)))))
  }

  predicate Buildable(env: seq<(string, string)>, parent: Option<string>, parse: string -> Option<Json>) {
    && Entries(env) != [] && AllObjects(parse, AllLayers(env, parent))
    && Forceable(Fold(Objects(parse, AllLayers(env, parent))))
  }

  /** `out` is the environment value built from these entries under this parent. */
  predicate Built(env: seq<(string, string)>, parent: Option<string>,
                  parse: string -> Option<Json>, print_: Json -> string, out: string)
  {
    Buildable(env, parent, parse) && out == print_(Combined(env, parent, parse))
  }

  /**
   `build_codex_config_env`. It merges only when a generated entry is present; it fails
   exactly on a layer that is not a JSON object or on a sandbox setting that is not one; and
   otherwise it prints the left fold of the layers with network access forced on.
   */
  method BuildCodexConfigEnv(env: seq<(string, string)>, parent: Option<string>, generated: bool,
                             parse: string -> Option<Json>, print_: Json -> string)
    returns (r: Result<Option<string>, Failure>)
    ensures !generated || Entries(env) == [] ==> r == Ok(None)
    ensures generated && Entries(env) != [] ==>
      (r.Ok? <==> AllObjects(parse, AllLayers(env, parent)) && Forceable(Fold(Objects(parse, AllLayers(env, parent)))))
    ensures generated && Entries(env) != [] && r.Ok? ==>
      r.value == Some(print_(Obj(Force(Fold(Objects(parse, AllLayers(env, parent)))))))
    ensures r.Err? ==> generated && Entries(env) != [] && Blames(parse, env, parent, r.error)
    ensures forall out :: r == Ok(Some(out)) <==> generated && Built(env, parent, parse, print_, out)
  {
    hide Fold, Entries, Force, Forceable, AllObjects, AllLayers, Objects;
    if !generated { return Ok(None); }
    var entries := Entries(env);
    if entries == [] { return Ok(None); }
    var parsed := ParseEntries(entries, parse);
    if parsed.Err? {
      FaultyEntry(env, parent, parse, parsed.error);
      return Err(parsed.error);
    }
    var base := MergeAll(parsed.value);
    if parent.Some? {
      var value := parse(parent.value);
      if value.None? || !value.value.Obj? {
        FaultyParent(env, parent, parse);
        return Err(if value.None? then ParentNotJson else ParentNotObject);
      }
      base := DeepMerge(base, value.value.fields);
      FoldMore(parsed.value, value.value.fields);
    }
    ObjectsOfLayers(env, parent, parse);
    NoMore(parsed.value);
    SandboxMustBeObject(base);
    if SANDBOX in base && !base[SANDBOX].Obj? { return Err(SandboxNotObject); }
    return Ok(Some(print_(Obj(Force(base)))));
  }

  /** Parse every entry, stopping at the first that is not an object. */
  method ParseEntries(entries: seq<string>, parse: string -> Option<Json>) returns (r: Result<seq<Object>, Failure>)
    requires entries != []
    ensures r.Ok? <==> AllObjects(parse, entries)
    ensures r.Ok? ==> r.value == Objects(parse, entries) && r.value != []
    ensures r.Err? ==> FaultAt(parse, entries, r.error)
  {
    var parsed: seq<Object> := [];
    for i := 0 to |entries|
      invariant |parsed| == i
      invariant forall j :: 0 <= j < i ==> IsObject(parse, entries[j]) && parsed[j] == parse(entries[j]).value.fields
    {
      var value := parse(entries[i]);
      if value.None? { return Err(LayerNotJson(i)); }
      if !value.value.Obj? { return Err(LayerNotObject(i)); }
      parsed := parsed + [value.value.fields];
    }
    return Ok(parsed);
  }

  /** Merge the later layers into the first, one by one. */
  method MergeAll(layers: seq<Object>) returns (base: Object)
    requires layers != []
    ensures base == Fold(layers)
  {
    hide Merge;
    base := layers[0];
    for i := 1 to |layers|
      invariant base == Fold(layers[..i])
    {
      assert layers[..i + 1][..i] == layers[..i];
      base := DeepMerge(base, layers[i]);
    }
    assert layers[..|layers|] == layers;
  }

  lemma FoldMore(layers: seq<Object>, last: Object)
    requires layers != []
    ensures Fold(layers + [last]) == Merge(Fold(layers), last)
  {
    hide Merge;
    assert (layers + [last])[..|layers|] == layers;
  }

  lemma NoMore(layers: seq<Object>)
    ensures layers + [] == layers
  {
  }

  lemma FaultyEntry(env: seq<(string, string)>, parent: Option<string>, parse: string -> Option<Json>, f: Failure)
    requires Entries(env) != [] && FaultAt(parse, Entries(env), f)
    ensures Blames(parse, env, parent, f) && !AllObjects(parse, AllLayers(env, parent))
  {
    hide Entries, Fold, Forceable;
    var entries, all := Entries(env), AllLayers(env, parent);
    assert all[f.index] == entries[f.index];
  }

  lemma FaultyParent(env: seq<(string, string)>, parent: Option<string>, parse: string -> Option<Json>)
    requires Entries(env) != [] && AllObjects(parse, Entries(env)) && parent.Some? && !IsObject(parse, parent.value)
    ensures Blames(parse, env, parent, if parse(parent.value).None? then ParentNotJson else ParentNotObject)
    ensures !AllObjects(parse, AllLayers(env, parent))
  {
    hide Entries, Fold, Forceable;
    assert AllLayers(env, parent)[|Entries(env)|] == parent.value;
  }

  lemma SandboxMustBeObject(o: Object)
    ensures Forceable(o) <==> !(SANDBOX in o && !o[SANDBOX].Obj?)
  {
  }

  // ---- Running it again ------------------------------------------------------------

  lemma {:induction false} MergeSelf(o: Object)
    ensures Merge(o, o) == o
    decreases Obj(o)
  {
    forall k | k in o && o[k].Obj? ensures Merge(o[k].fields, o[k].fields) == o[k].fields {
      MergeSelf(o[k].fields);
    }
  }

  lemma {:induction false} MergeAbsorbs(base: Object, overlay: Object)
    ensures Merge(Merge(base, overlay), overlay) == Merge(base, overlay)
    decreases Obj(overlay)
  {
    var m := Merge(base, overlay);
    forall k | k in overlay && overlay[k].Obj? ensures m[k].Obj? && Merge(m[k].fields, overlay[k].fields) == m[k].fields {
      if k in base && base[k].Obj? {
        MergeAbsorbs(base[k].fields, overlay[k].fields);
      } else {
        MergeSelf(overlay[k].fields);
      }
    }
  }

  lemma ForceTwice(o: Object)
    requires Forceable(o)
    ensures Force(Force(o)) == Force(o)
  {
    var f := Force(o);
    assert f[SANDBOX].fields[NETWORK := Bool(true)] == f[SANDBOX].fields;
  }

  lemma ForceAbsorbs(o: Object, parent: Object)
    requires Forceable(o) && Merge(o, parent) == o
    ensures Forceable(Merge(Force(o), parent)) && Force(Merge(Force(o), parent)) == Force(o)
  {
    var f, m := Force(o), Merge(Force(o), parent);
    forall k | k in parent ensures k in o && m[k].Obj? == f[k].Obj? && (k != SANDBOX ==> m[k] == f[k]) {
      assert Merge(o, parent)[k] == o[k];
    }
    assert m.Keys == f.Keys;
    if SANDBOX in parent {
      assert Merge(o, parent)[SANDBOX] == o[SANDBOX];
      var s, p := o[SANDBOX].fields, parent[SANDBOX].fields;
      assert Merge(s, p) == s;
      var fs, ms := f[SANDBOX].fields, m[SANDBOX].fields;
      assert ms == Merge(fs, p) && fs == s[NETWORK := Bool(true)];
      forall k | k in ms && k != NETWORK ensures k in fs && ms[k] == fs[k] {
        assert Merge(s, p).Keys == s.Keys;
        assert k in s && Merge(s, p)[k] == s[k];
      }
      assert ms[NETWORK := Bool(true)] == fs;
    }
    assert forall k :: k in m && k != SANDBOX ==> m[k] == f[k];
    assert m[SANDBOX].fields[NETWORK := Bool(true)] == f[SANDBOX].fields;
    assert Force(m) == f;
  }

  /**
   Feeding the result back in as the only entry, under the same parent environment, gives the
   same result.
   */
  lemma RerunIsStable(layers: seq<Object>, parent: Option<Object>)
    requires layers != []
    requires var all := if parent.Some? then layers + [parent.value] else layers; Forceable(Fold(all))
    ensures var all := if parent.Some? then layers + [parent.value] else layers;
      var again := if parent.Some? then [Force(Fold(all)), parent.value] else [Force(Fold(all))];
      Forceable(Fold(again)) && Force(Fold(again)) == Force(Fold(all))
  {
    if parent.Some? {
      var all := layers + [parent.value];
      assert all[..|all| - 1] == layers;
      MergeAbsorbs(Fold(layers), parent.value);
      ForceAbsorbs(Fold(all), parent.value);
      var again := [Force(Fold(all)), parent.value];
      assert again[..1] == [Force(Fold(all))];
      assert Fold(again) == Merge(Force(Fold(all)), parent.value);
    } else {
      ForceTwice(Fold(layers));
    }
  }

  lemma OneEntry(out: string)
    ensures Entries([(KEY, out)]) == [out]
  {
    assert [(KEY, out)][1..] == [];
  }

  /** The parsed layers: the entries', then the parent's if there is one. */
  lemma ObjectsOfLayers(env: seq<(string, string)>, parent: Option<string>, parse: string -> Option<Json>)
    requires AllObjects(parse, Entries(env)) && (parent.Some? ==> IsObject(parse, parent.value))
    ensures AllObjects(parse, AllLayers(env, parent))
    ensures Objects(parse, AllLayers(env, parent)) ==
      Objects(parse, Entries(env)) + (if parent.Some? then [parse(parent.value).value.fields] else [])
  {
    hide Entries;
  }

  lemma EntriesAreObjects(env: seq<(string, string)>, parent: Option<string>, parse: string -> Option<Json>)
    requires AllObjects(parse, AllLayers(env, parent))
    ensures AllObjects(parse, Entries(env)) && (parent.Some? ==> IsObject(parse, parent.value))
  {
    hide Entries;
    var all, entries := AllLayers(env, parent), Entries(env);
    assert forall i :: 0 <= i < |entries| ==> all[i] == entries[i];
    if parent.Some? { assert all[|entries|] == parent.value; }
  }

  lemma RerunLayers(env: seq<(string, string)>, parent: Option<string>, parse: string -> Option<Json>, out: string)
    requires Entries(env) != [] && AllObjects(parse, AllLayers(env, parent))
    requires Forceable(Fold(Objects(parse, AllLayers(env, parent))))
    requires parse(out) == Some(Obj(Force(Fold(Objects(parse, AllLayers(env, parent))))))
    ensures Entries([(KEY, out)]) == [out] && AllObjects(parse, AllLayers([(KEY, out)], parent))
    ensures var again := Fold(Objects(parse, AllLayers([(KEY, out)], parent)));
      Forceable(again) && Force(again) == Force(Fold(Objects(parse, AllLayers(env, parent))))
  {
    hide Force, Forceable, Fold, Entries, AllLayers;
    OneEntry(out);
    EntriesAreObjects(env, parent, parse);
    ObjectsOfLayers(env, parent, parse);
    ObjectsOfLayers([(KEY, out)], parent, parse);
    var layers, root := Objects(parse, Entries(env)), if parent.Some? then Some(parse(parent.value).value.fields) else None;
    assert Objects(parse, [out]) == [parse(out).value.fields];
    hide Objects, AllObjects;
    if root.Some? {
      RerunIsStable(layers, root);
      assert [parse(out).value.fields] + [root.value] == [parse(out).value.fields, root.value];
    } else {
      assert layers + [] == layers && [parse(out).value.fields] + [] == [parse(out).value.fields];
      RerunIsStable(layers, root);
    }
  }

  /**
   The same on the environment strings: given that reading undoes printing for this one value,
   what was built is built again from itself as the only entry.
   */
  lemma BuildTwice(env: seq<(string, string)>, parent: Option<string>,
                   parse: string -> Option<Json>, print_: Json -> string, out: string)
    requires Built(env, parent, parse, print_, out) && parse(out) == Some(Combined(env, parent, parse))
    ensures Built([(KEY, out)], parent, parse, print_, out)
  {
    hide Force, Forceable, Fold, Entries, AllObjects, AllLayers, Objects;
    RerunLayers(env, parent, parse, out);
  }
}
