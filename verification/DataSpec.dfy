/**
 The assistant's own OpenAPI document (app/api/resonance_data.py): which operations
 and schemas it keeps, and how the operation ids of the app are found.
 */
module DataSpec {
  import opened Collections
  import opened JsonValues
  import opened Wrappers

  const PREFIX := "#/components/schemas/"

  /** ref.rsplit("/", 1)[-1] */
  function LastPart(s: string): (r: string)
    ensures '/' !in r
  {
    if s == [] then "" else if s[|s| - 1] == '/' then "" else LastPart(s[..|s| - 1]) + [s[|s| - 1]]
  }

  /** What follows the prefix is what is looked up, exactly when it is a plain name. */
  lemma {:induction false} PlainNames(tail: string)
    ensures LastPart(PREFIX + tail) == tail <==> '/' !in tail
  {
    if tail == [] {
      assert PREFIX + tail == PREFIX && PREFIX[|PREFIX| - 1] == '/';
    } else {
      var last := |tail| - 1;
      assert (PREFIX + tail)[..|PREFIX + tail| - 1] == PREFIX + tail[..last];
      assert tail == tail[..last] + [tail[last]];
      PlainNames(tail[..last]);
    }
  }

  /** The schema a dict refers to by its own $ref. */
  function OwnRef(node: Json): Option<string> {
    if node.Dict? && Get(node.fields, "$ref").Some? && Get(node.fields, "$ref").value.Str?
        && PREFIX <= Get(node.fields, "$ref").value.s
    then Some(LastPart(Get(node.fields, "$ref").value.s)) else None
  }

  /** The nodes one level below. */
  function Children(node: Json): (r: seq<Json>)
    ensures forall child | child in r :: child < node
  {
    match node
    case List(items) => items
    case Dict(fields) => seq(|fields|, i requires 0 <= i < |fields| => fields[i].value)
    case _ => []
  }

  /** Every schema some node of the tree refers to. */
  function Refs(node: Json): set<string> {
    (if OwnRef(node).Some? then {OwnRef(node).value} else {})
        + (set child, name | child in Children(node) && name in Refs(child) :: name)
  }

  /** The node at the end of a path of positions. */
  function At(node: Json, path: seq<nat>): Option<Json>
    decreases path
  {
    if path == [] then Some(node)
    else if path[0] < |Children(node)| then At(Children(node)[path[0]], path[1..])
    else None
  }

  ghost predicate RefersTo(node: Json, name: string) {
    exists path :: RefersAt(node, path, name)
  }

  predicate RefersAt(node: Json, path: seq<nat>, name: string) {
    At(node, path).Some? && OwnRef(At(node, path).value) == Some(name)
  }

  /** A name is collected exactly when a node at any depth refers to it. */
  lemma {:induction false} CollectsExactlyTheRefs(node: Json, name: string)
    ensures name in Refs(node) <==> RefersTo(node, name)
    decreases node
  {
    if name in Refs(node) {
      if OwnRef(node) == Some(name) {
        assert RefersAt(node, [], name);
      } else {
        var child :| child in Children(node) && name in Refs(child);
        var i :| 0 <= i < |Children(node)| && Children(node)[i] == child;
        CollectsExactlyTheRefs(child, name);
        var path :| RefersAt(child, path, name);
        assert ([i] + path)[1..] == path;
        assert RefersAt(node, [i] + path, name);
      }
    }
    if path :| RefersAt(node, path, name) {
      if path != [] {
        var child := Children(node)[path[0]];
        assert RefersAt(child, path[1..], name);
        CollectsExactlyTheRefs(child, name);
      }
    }
  }

  /** `inner` is `outer` or anywhere inside it. */
  ghost predicate Inside(inner: Json, outer: Json)
    decreases outer
  {
    || inner == outer
    || (outer.List? && exists i | 0 <= i < |outer.items| :: Inside(inner, outer.items[i]))
    || (outer.Dict? && exists i | 0 <= i < |outer.fields| :: Inside(inner, outer.fields[i].value))
  }

  /** A dict whose "$ref" is a text that points into the components, and the last part of that text. */
  ghost predicate PointsTo(node: Json, name: string) {
    && node.Dict?
    && exists s :: Get(node.fields, "$ref") == Some(Str(s)) && "#/components/schemas/" <= s && LastPart(s) == name
  }

  /** Nothing is overlooked: wherever in lists and dicts a reference stands, its name is collected, and no other. */
  lemma {:induction false} CollectsFromEverywhere(node: Json, name: string)
    ensures name in Refs(node) <==> exists inner :: Inside(inner, node) && PointsTo(inner, name)
    decreases node
  {
    match node
    case List(items) =>
      forall i | 0 <= i < |items| ensures name in Refs(items[i]) <==> exists inner ::
          Inside(inner, items[i]) && PointsTo(inner, name) {
        CollectsFromEverywhere(items[i], name);
      }
      ListRefs(items, name);
      InsideList(items, name);
    case Dict(fields) =>
      forall i | 0 <= i < |fields|
        ensures name in Refs(fields[i].value) <==>
                  exists inner :: Inside(inner, fields[i].value) && PointsTo(inner, name)
      {
        CollectsFromEverywhere(fields[i].value, name);
      }
      DictRefs(fields, name);
      InsideDict(fields, name);
    case _ =>
  }

  lemma ListRefs(items: seq<Json>, name: string)
    ensures name in Refs(List(items)) <==> exists i | 0 <= i < |items| :: name in Refs(items[i])
  {}

  lemma DictRefs(fields: seq<Field>, name: string)
    ensures name in Refs(Dict(fields)) <==>
              PointsTo(Dict(fields), name) || exists i | 0 <= i < |fields| :: name in Refs(fields[i].value)
  {
    var children := Children(Dict(fields));
    assert forall i | 0 <= i < |fields| :: children[i] == fields[i].value && children[i] in children;
  }

  lemma InsideList(items: seq<Json>, name: string)
    ensures (exists inner :: Inside(inner, List(items)) && PointsTo(inner, name))
            <==> exists i, inner | 0 <= i < |items| :: Inside(inner, items[i]) && PointsTo(inner, name)
  {
    forall inner, i | 0 <= i < |items| && Inside(inner, items[i])
      ensures Inside(inner, List(items))
    {}
  }

  lemma InsideDict(fields: seq<Field>, name: string)
    ensures (exists inner :: Inside(inner, Dict(fields)) && PointsTo(inner, name))
            <==> PointsTo(Dict(fields), name)
                 || exists i, inner | 0 <= i < |fields| :: Inside(inner, fields[i].value) && PointsTo(inner, name)
  {
    assert Inside(Dict(fields), Dict(fields));
    forall inner, i | 0 <= i < |fields| && Inside(inner, fields[i].value)
      ensures Inside(inner, Dict(fields))
    {}
  }

  function RefsOf(nodes: seq<Json>): set<string> {
    set node, name | node in nodes && name in Refs(node) :: name
  }

  lemma RefsOfMore(nodes: seq<Json>, node: Json)
    ensures RefsOf(nodes + [node]) == RefsOf(nodes) + Refs(node)
  {}

  lemma RefsAreOwnAndChildren(node: Json)
    ensures Refs(node) == (if OwnRef(node).Some? then {OwnRef(node).value} else {}) + RefsOf(Children(node))
  {}

  /** _referenced_schemas: adds to `names` what the tree refers to. */
  method ReferencedSchemas(node: Json, names: set<string>) returns (names': set<string>)
    ensures names' == names + Refs(node)
    decreases node
  {
    RefsAreOwnAndChildren(node);
    var children := Children(node);
    assert RefsOf(children[..0]) == {};
    hide Refs, RefsOf, OwnRef, Children;
    names' := names;
    if OwnRef(node).Some? {
      names' := names' + {OwnRef(node).value};
    }
    ghost var own := names';
    for i := 0 to |children|
      invariant names' == own + RefsOf(children[..i])
    {
      assert children[..i + 1] == children[..i] + [children[i]];
      RefsOfMore(children[..i], children[i]);
      assert children[i] in children;
      names' := ReferencedSchemas(children[i], names');
    }
    assert children[..|children|] == children;
  }

  // ---- The schemas a document needs -------------------------------------------------

  /** A chain of known schemas, each referring to the next. */
  ghost predicate Chain(schemas: map<string, Json>, chain: seq<string>) {
    && (forall i | 0 <= i < |chain| :: chain[i] in schemas)
    && (forall i | 0 < i < |chain| :: chain[i] in Refs(schemas[chain[i - 1]]))
  }

  ghost predicate Needed(schemas: map<string, Json>, wanted: set<string>, name: string) {
    exists chain: seq<string> ::
        chain != [] && Chain(schemas, chain) && chain[0] in wanted && chain[|chain| - 1] == name
  }

  lemma NeededAtOnce(schemas: map<string, Json>, wanted: set<string>, name: string)
    requires name in wanted && name in schemas
    ensures Needed(schemas, wanted, name)
  {
    assert Chain(schemas, [name]) && [name][0] in wanted;
  }

  lemma NeededNext(schemas: map<string, Json>, wanted: set<string>, name: string, next: string)
    requires Needed(schemas, wanted, name) && name in schemas && next in schemas && next in Refs(schemas[name])
    ensures Needed(schemas, wanted, next)
  {
    hide Refs;
    var chain: seq<string> :| chain != [] && Chain(schemas, chain) && chain[0] in wanted && chain[|chain| - 1] == name;
    var longer := chain + [next];
    assert Chain(schemas, longer) && longer[0] in wanted && longer[|longer| - 1] == next;
  }

  /** Whatever the start or a member of `done` refers to is in `done`, or still wanted. */
  ghost predicate Closed(schemas: map<string, Json>, start: set<string>, done: set<string>, wanted: set<string>) {
    && (forall n | n in start && n in schemas :: n in done || n in wanted)
    && (forall m, n | m in done && m in schemas && n in Refs(schemas[m]) && n in schemas :: n in done || n in wanted)
  }

  lemma ClosedSkip(schemas: map<string, Json>, start: set<string>, done: set<string>, wanted: set<string>, name: string)
    requires Closed(schemas, start, done, wanted) && (name in done || name !in schemas)
    ensures Closed(schemas, start, done, wanted - {name})
  {}

  lemma ClosedTake(schemas: map<string, Json>, start: set<string>, done: set<string>, wanted: set<string>, name: string)
    requires Closed(schemas, start, done, wanted) && name in schemas
    ensures Closed(schemas, start, done + {name}, (wanted - {name}) + (Refs(schemas[name]) - (done + {name})))
  {}

  lemma {:induction false} ClosedHasTheNeeded(schemas: map<string, Json>, start: set<string>, done: set<string>,
                                              chain: seq<string>)
    requires Closed(schemas, start, done, {}) && Chain(schemas, chain) && chain != [] && chain[0] in start
    ensures chain[|chain| - 1] in done
  {
    if |chain| > 1 {
      var shorter := chain[..|chain| - 1];
      assert Chain(schemas, shorter);
      ClosedHasTheNeeded(schemas, start, done, shorter);
    }
  }

  /**
   The worklist. Whatever pop() takes, on cyclic references too, the loop ends
   with exactly the known schemas that are needed.
   */
  method Resolve(start: set<string>, schemas: map<string, Json>) returns (resolved: map<string, Json>)
    ensures forall n :: n in resolved <==> Needed(schemas, start, n)
    ensures forall n | n in resolved :: n in schemas && resolved[n] == schemas[n]
  {
    hide Refs, Needed, Closed;
    var wanted := start;
    resolved := map[];
    StartIsClosed(schemas, start);
    assert resolved.Keys == {};
    while wanted != {}
      invariant forall n | n in resolved :: n in schemas && resolved[n] == schemas[n] && Needed(schemas, start, n)
      invariant forall n | n in wanted && n in schemas :: Needed(schemas, start, n)
      invariant Closed(schemas, start, resolved.Keys, wanted)
      decreases schemas.Keys - resolved.Keys, wanted
    {
      var name := OneOf(wanted);
      if name in resolved || name !in schemas {
        ClosedSkip(schemas, start, resolved.Keys, wanted, name);
        wanted := wanted - {name};
        continue;
      }
      ClosedTake(schemas, start, resolved.Keys, wanted, name);
      AllNeededNext(schemas, start, name);
      assert resolved[name := schemas[name]].Keys == resolved.Keys + {name};
      wanted := wanted - {name};
      resolved := resolved[name := schemas[name]];
      var nested := ReferencedSchemas(schemas[name], {});
      assert nested == Refs(schemas[name]);
      wanted := wanted + (nested - resolved.Keys);
    }
    ClosedHasAllNeeded(schemas, start, resolved.Keys);
  }

  lemma StartIsClosed(schemas: map<string, Json>, start: set<string>)
    ensures Closed(schemas, start, {}, start)
    ensures forall n | n in start && n in schemas :: Needed(schemas, start, n)
  {
    forall n | n in start && n in schemas
      ensures Needed(schemas, start, n)
    {
      NeededAtOnce(schemas, start, n);
    }
  }

  lemma AllNeededNext(schemas: map<string, Json>, start: set<string>, name: string)
    requires Needed(schemas, start, name) && name in schemas
    ensures forall n | n in Refs(schemas[name]) && n in schemas :: Needed(schemas, start, n)
  {
    hide Needed, Refs;
    forall n | n in Refs(schemas[name]) && n in schemas
      ensures Needed(schemas, start, n)
    {
      NeededNext(schemas, start, name, n);
    }
  }

  lemma ClosedHasAllNeeded(schemas: map<string, Json>, start: set<string>, done: set<string>)
    requires Closed(schemas, start, done, {})
    ensures forall n | Needed(schemas, start, n) :: n in done
  {
    forall n | Needed(schemas, start, n)
      ensures n in done
    {
      var chain: seq<string> :| chain != [] && Chain(schemas, chain) && chain[0] in start && chain[|chain| - 1] == n;
      ClosedHasTheNeeded(schemas, start, done, chain);
    }
  }

  // ---- The narrowed document ---------------------------------------------------------

  datatype Grant = Grant(op: string, writes: bool)

  datatype PathItem = PathItem(path: string, methods: seq<Field>)

  datatype Spec = Spec(paths: seq<PathItem>, schemas: map<string, Json>)

  predicate IsGranted(operation: Json, granted: set<string>) {
    operation.Dict? && match Get(operation.fields, "operationId") {
      case Some(Str(id)) => id in granted
      case _ => false
    }
  }

  /** What the document publishes of an operation. */
  function Published(operation: Json): Json
    requires operation.Dict?
  {
    Dict(Without(operation.fields, "security"))
  }

  predicate Has(paths: seq<PathItem>, path: string, verb: string, operation: Json) {
    exists item | item in paths :: item.path == path && Field(verb, operation) in item.methods
  }

  function Granted(methods: seq<Field>, granted: set<string>): (r: seq<Field>)
    ensures forall f :: f in r <==> f in methods && IsGranted(f.value, granted)
  {
    if methods == [] then []
    else
      var last := |methods| - 1;
      Granted(methods[..last], granted) + if IsGranted(methods[last].value, granted) then [methods[last]] else []
  }

  function Stripped(methods: seq<Field>): (r: seq<Field>)
    requires forall f | f in methods :: f.value.Dict?
    ensures |r| == |methods|
    ensures forall i | 0 <= i < |r| :: r[i] == Field(methods[i].key, Published(methods[i].value))
  {
    if methods == [] then []
    else
      var last := |methods| - 1;
      Stripped(methods[..last]) + [Field(methods[last].key, Published(methods[last].value))]
  }

  function Narrowed(paths: seq<PathItem>, granted: set<string>): seq<PathItem> {
    if paths == [] then []
    else
      var last := |paths| - 1;
      var kept := Stripped(Granted(paths[last].methods, granted));
      Narrowed(paths[..last], granted) + if kept != [] then [PathItem(paths[last].path, kept)] else []
  }

  /** The operations published under one path item. */
  predicate PublishedFrom(item: PathItem, granted: set<string>, verb: string, published: Json) {
    exists f | f in item.methods :: f.key == verb && IsGranted(f.value, granted) && published == Published(f.value)
  }

  lemma StrippedHas(item: PathItem, granted: set<string>, verb: string, published: Json)
    ensures Field(verb, published) in Stripped(Granted(item.methods, granted)) <==>
              PublishedFrom(item, granted, verb, published)
  {}

  /** An operation is published under its path and verb exactly when it is granted; no path is published empty. */
  lemma {:induction false} ExactlyTheGrantedArePublished(paths: seq<PathItem>, granted: set<string>, path: string,
                                                         verb: string, published: Json)
    ensures Has(Narrowed(paths, granted), path, verb, published)
            <==> exists item | item in paths :: item.path == path && PublishedFrom(item, granted, verb, published)
    ensures forall item | item in Narrowed(paths, granted) :: item.methods != []
  {
    hide IsGranted, Published, Granted, Stripped, PublishedFrom;
    if paths != [] {
      var last := |paths| - 1;
      ExactlyTheGrantedArePublished(paths[..last], granted, path, verb, published);
      StrippedHas(paths[last], granted, verb, published);
      assert paths == paths[..last] + [paths[last]];
    }
  }

  method KeptMethods(methods: seq<Field>, granted: set<string>) returns (kept: seq<Field>)
    ensures kept == Stripped(Granted(methods, granted))
  {
    var chosen: seq<Field> := [];
    for i := 0 to |methods|
      invariant chosen == Granted(methods[..i], granted)
    {
      assert methods[..i + 1][..i] == methods[..i];
      if IsGranted(methods[i].value, granted) {
        chosen := chosen + [methods[i]];
      }
    }
    assert methods[..|methods|] == methods;
    kept := [];
    for i := 0 to |chosen|
      invariant kept == Stripped(chosen[..i])
    {
      assert chosen[..i + 1][..i] == chosen[..i];
      kept := kept + [Field(chosen[i].key, Published(chosen[i].value))];
    }
    assert chosen[..|chosen|] == chosen;
  }

  method KeptPaths(paths: seq<PathItem>, granted: set<string>) returns (kept: seq<PathItem>)
    ensures kept == Narrowed(paths, granted)
  {
    hide Granted, Stripped, IsGranted, Published;
    kept := [];
    for i := 0 to |paths|
      invariant kept == Narrowed(paths[..i], granted)
    {
      assert paths[..i + 1][..i] == paths[..i];
      var methods := KeptMethods(paths[i].methods, granted);
      if methods != [] {
        kept := kept + [PathItem(paths[i].path, methods)];
      }
    }
    assert paths[..|paths|] == paths;
  }

  /** The dict the paths make up in the document. */
  function Document(paths: seq<PathItem>): Json {
    Dict(seq(|paths|, i requires 0 <= i < |paths| => Field(paths[i].path, Dict(paths[i].methods))))
  }

  /** A part of the published document refers to the schema. */
  ghost predicate SpecRefersTo(spec: Spec, name: string) {
    RefersTo(Document(spec.paths), name) || exists n | n in spec.schemas :: RefersTo(spec.schemas[n], name)
  }

  function GrantedOps(grants: seq<Grant>, allowWrites: bool): set<string> {
    set g | g in grants && (allowWrites || !g.writes) :: g.op
  }

  /** A grant that counts: any if writing is allowed, otherwise one that does not write. */
  ghost predicate MayCall(grants: seq<Grant>, allowWrites: bool, id: string) {
    exists g | g in grants :: g.op == id && (allowWrites || !g.writes)
  }

  /**
   What is published under a path and a verb, from the app's document and the grants
   alone: an operation whose id a grant that counts names, without its security.
   */
  lemma PublishedIsGranted(paths: seq<PathItem>, grants: seq<Grant>, allowWrites: bool, path: string, verb: string,
                           published: Json)
    ensures Has(Narrowed(paths, GrantedOps(grants, allowWrites)), path, verb, published)
            <==> exists item, f, id | item in paths && f in item.methods ::
                   && item.path == path && f.key == verb && f.value.Dict?
                   && Get(f.value.fields, "operationId") == Some(Str(id)) && MayCall(grants, allowWrites, id)
                   && published == Dict(Without(f.value.fields, "security"))
  {
    ExactlyTheGrantedArePublished(paths, GrantedOps(grants, allowWrites), path, verb, published);
    hide Narrowed, Has, Without, Get;
  }

  /** Whatever is published under an id may be called under it. */
  lemma PublishedMayBeCalled(paths: seq<PathItem>, grants: seq<Grant>, allowWrites: bool, id: string, path: string,
                             verb: string, operation: Json)
    requires operation.Dict? && Get(operation.fields, "operationId") == Some(Str(id))
    ensures Has(Narrowed(paths, GrantedOps(grants, allowWrites)), path, verb, operation) ==>
              MayCall(grants, allowWrites, id)
  {
    hide Narrowed, Has, Without, Get, GrantedOps, MayCall;
    PublishedIsGranted(paths, grants, allowWrites, path, verb, operation);
    if Has(Narrowed(paths, GrantedOps(grants, allowWrites)), path, verb, operation) {
      var item, f, other :| item in paths && f in item.methods && f.key == verb && f.value.Dict?
        && Get(f.value.fields, "operationId") == Some(Str(other)) && MayCall(grants, allowWrites, other)
        && operation == Dict(Without(f.value.fields, "security"));
      WithoutForgetsOneKey(f.value.fields, "security", "operationId");
      assert |"security"| == 8 && |"operationId"| == 11;
    }
  }

  /** Without leave to write, an operation that only writing grants name is published nowhere. */
  lemma WritesAreWithheld(paths: seq<PathItem>, grants: seq<Grant>, id: string, path: string, verb: string,
                          operation: Json)
    requires forall g | g in grants && g.op == id :: g.writes
    requires operation.Dict? && Get(operation.fields, "operationId") == Some(Str(id))
    ensures !Has(Narrowed(paths, GrantedOps(grants, false)), path, verb, operation)
  {
    hide Narrowed, Has, Get, GrantedOps;
    PublishedMayBeCalled(paths, grants, false, id, path, verb, operation);
  }

  /** Every reference inside an operation is one of the document. */
  lemma OperationsAreInTheDocument(paths: seq<PathItem>, item: PathItem, f: Field, name: string)
    requires item in paths && f in item.methods && name in Refs(f.value)
    ensures name in Refs(Document(paths))
  {
    var i :| 0 <= i < |paths| && paths[i] == item;
    var k :| 0 <= k < |item.methods| && item.methods[k] == f;
    hide Refs;
    DictRefs(item.methods, name);
    DictRefs(Document(paths).fields, name);
    assert Document(paths).fields[i].value == Dict(item.methods);
  }

  /**
   build_spec. Every reference in the document to a schema the app has resolves
   within the document, and no schema is there that nothing needs.
   */
  method BuildSpec(paths: seq<PathItem>, schemas: map<string, Json>, grants: seq<Grant>, allowWrites: bool)
    returns (spec: Spec)
    ensures spec.paths == Narrowed(paths, GrantedOps(grants, allowWrites))
    ensures forall n | n in spec.schemas :: n in schemas && spec.schemas[n] == schemas[n]
    ensures forall n | n in schemas && SpecRefersTo(spec, n) :: n in spec.schemas
    ensures forall n | n in spec.schemas :: Needed(schemas, Refs(Document(spec.paths)), n)
    ensures forall n | n in spec.schemas :: SpecRefersTo(spec, n)
    ensures forall item, f, n | item in spec.paths && f in item.methods && n in schemas && n in Refs(f.value) ::
              n in spec.schemas
  {
    var kept := KeptPaths(paths, GrantedOps(grants, allowWrites));
    var wanted := ReferencedSchemas(Document(kept), {});
    var resolved := Resolve(wanted, schemas);
    spec := Spec(kept, resolved);
    SelfContained(schemas, wanted, spec);
    hide Needed, Refs, RefersTo, Document, Narrowed;
    forall item, f, n | item in spec.paths && f in item.methods && n in schemas && n in Refs(f.value)
      ensures n in spec.schemas
    {
      OperationsAreInTheDocument(spec.paths, item, f, n);
      NeededAtOnce(schemas, wanted, n);
    }
  }

  lemma SelfContained(schemas: map<string, Json>, wanted: set<string>, spec: Spec)
    requires wanted == Refs(Document(spec.paths))
    requires forall n :: n in spec.schemas <==> Needed(schemas, wanted, n)
    requires forall n | n in spec.schemas :: n in schemas && spec.schemas[n] == schemas[n]
    ensures forall n | n in schemas :: SpecRefersTo(spec, n) <==> n in spec.schemas
  {
    hide Needed, Refs, RefersTo, Document;
    forall n | n in schemas && SpecRefersTo(spec, n)
      ensures n in spec.schemas
    {
      if RefersTo(Document(spec.paths), n) {
        CollectsExactlyTheRefs(Document(spec.paths), n);
        NeededAtOnce(schemas, wanted, n);
      } else {
        var m :| m in spec.schemas && RefersTo(spec.schemas[m], n);
        CollectsExactlyTheRefs(spec.schemas[m], n);
        NeededNext(schemas, wanted, m, n);
      }
    }
    forall n | n in spec.schemas
      ensures SpecRefersTo(spec, n)
    {
      ReferredToBySome(schemas, wanted, spec, n);
    }
  }

  lemma ReferredToBySome(schemas: map<string, Json>, wanted: set<string>, spec: Spec, n: string)
    requires wanted == Refs(Document(spec.paths))
    requires forall k :: k in spec.schemas <==> Needed(schemas, wanted, k)
    requires forall k | k in spec.schemas :: k in schemas && spec.schemas[k] == schemas[k]
    requires n in spec.schemas
    ensures SpecRefersTo(spec, n)
  {
    hide Refs, RefersTo, Document;
    var chain: seq<string> :| chain != [] && Chain(schemas, chain) && chain[0] in wanted && chain[|chain| - 1] == n;
    if |chain| == 1 {
      CollectsExactlyTheRefs(Document(spec.paths), n);
    } else {
      var before := chain[..|chain| - 1];
      var m := before[|before| - 1];
      assert Chain(schemas, before) && before[0] in wanted;
      assert Needed(schemas, wanted, m);
      CollectsExactlyTheRefs(spec.schemas[m], n);
    }
  }
}
