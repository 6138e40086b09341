/** The scene side of the CRDT application (src/aframe-automerge.ts): the
    document tree kept in an Automerge document, the element tree built
    from it with `createElement`, and the translation of Automerge change
    patches into edits of the rendered scene.

    The elements under `rootEl` are kept in document order (a pre-order
    walk), each with its depth below `rootEl`: appending a child to
    `rootEl` appends its walk at depth 1, and `document.getElementById`
    is the first element in that order carrying the id. Attribute and
    document values are their string forms. */
module Scene {
  import opened Wrappers

  /** Keys starting with `@` hold metadata and are not copied. The first
      character of an empty key is `undefined`, which is not `@`. */
  predicate IsMeta(k: string) {
    |k| > 0 && k[0] == '@'
  }

  /** A document node: `@type`, `@id`, the other keys with their values,
      and the `@children` object as (key, node) entries in the order
      `Object.values` lists them. */
  datatype Desc = Desc(typ: string, id: string, fields: map<string, string>, children: seq<Child>)
  datatype Child = Child(key: string, node: Desc)

  /** An attribute: set whole (`setAttribute(name, value)`) or as a set of
      properties (`setAttribute(name, property, value)`). */
  datatype Attr = Whole(value: string) | Props(props: map<string, string>)

  datatype Element = Element(tag: string, attrs: map<string, Attr>, children: seq<Element>)

  // ---------------------------------------------------------------------
  // createElement

  /** The attributes `createElement` sets: `id` first, then every key that
      is not metadata, so an `id` key of the document overrides `@id`. */
  function CopiedAttrs(d: Desc): (m: map<string, Attr>)
    ensures forall k :: k in m <==> k == "id" || (k in d.fields && !IsMeta(k))
    ensures m["id"] == Whole(if "id" in d.fields then d.fields["id"] else d.id)
    ensures forall k :: k in m && k != "id" ==> m[k] == Whole(d.fields[k])
  {
    map["id" := Whole(d.id)] + map k | k in d.fields && !IsMeta(k) :: Whole(d.fields[k])
  }

  /** `createElement(desc)`: an element of type `@type` with the copied
      attributes and one child per `@children` entry. */
  function CreateElement(d: Desc): Element
    decreases d
  {
    Element(d.typ, CopiedAttrs(d), CreateChildren(d.children))
  }

  function CreateChildren(cs: seq<Child>): (r: seq<Element>)
    ensures |r| == |cs|
    decreases cs
  {
    if cs == [] then [] else [CreateElement(cs[0].node)] + CreateChildren(cs[1..])
  }

  /** Child i of the element is built, recursively, from entry i. */
  lemma {:induction false} CreateChildrenAt(cs: seq<Child>, i: nat)
    requires i < |cs|
    ensures CreateChildren(cs)[i] == CreateElement(cs[i].node)
    decreases i
  {
    if i > 0 {
      CreateChildrenAt(cs[1..], i - 1);
      assert CreateChildren(cs)[i] == CreateChildren(cs[1..])[i - 1];
    }
  }

  lemma CreateChildrenAppend(cs: seq<Child>, c: Child)
    ensures CreateChildren(cs + [c]) == CreateChildren(cs) + [CreateElement(c.node)]
  {
    var r := CreateChildren(cs + [c]);
    forall i | 0 <= i < |r| ensures r[i] == (CreateChildren(cs) + [CreateElement(c.node)])[i] {
      CreateChildrenAt(cs + [c], i);
      if i < |cs| {
        CreateChildrenAt(cs, i);
      }
    }
  }

  // ---------------------------------------------------------------------
  // The rendered scene

  /** One element under `rootEl`, without its children: its depth (1 for
      a child of `rootEl`), type and attributes. */
  datatype Node = Node(depth: nat, tag: string, attrs: map<string, Attr>)

  /** The document-order walk of an element placed at the given depth. */
  function Walk(e: Element, depth: nat): seq<Node>
    decreases e
  {
    [Node(depth, e.tag, e.attrs)] + WalkAll(e.children, depth + 1)
  }

  function WalkAll(es: seq<Element>, depth: nat): seq<Node>
    decreases es
  {
    if es == [] then [] else Walk(es[0], depth) + WalkAll(es[1..], depth)
  }

  lemma WalkAllAppend(es: seq<Element>, e: Element, depth: nat)
    ensures WalkAll(es + [e], depth) == WalkAll(es, depth) + Walk(e, depth)
    decreases |es|
  {
    if es == [] {
      assert [e][1..] == [];
      assert Walk(e, depth) + [] == Walk(e, depth);
      assert [] + Walk(e, depth) == Walk(e, depth);
    } else {
      assert (es + [e])[1..] == es[1..] + [e];
      WalkAllAppend(es[1..], e, depth);
    }
  }

  /** An element's walk starts with the element itself, and everything
      after it lies deeper. */
  lemma {:induction false} WalkDepths(e: Element, depth: nat)
    ensures Walk(e, depth)[0] == Node(depth, e.tag, e.attrs)
    ensures forall j :: 0 < j < |Walk(e, depth)| ==> Walk(e, depth)[j].depth > depth
    decreases e, 1
  {
    var rest := WalkAll(e.children, depth + 1);
    WalkAllDepths(e.children, depth + 1);
    assert Walk(e, depth) == [Node(depth, e.tag, e.attrs)] + rest;
    forall j | 0 < j < |Walk(e, depth)| ensures Walk(e, depth)[j].depth > depth {
      assert Walk(e, depth)[j] == rest[j - 1];
    }
  }

  lemma {:induction false} WalkAllDepths(es: seq<Element>, depth: nat)
    ensures forall j :: 0 <= j < |WalkAll(es, depth)| ==> WalkAll(es, depth)[j].depth >= depth
    decreases es, 0
  {
    if es != [] {
      var head: seq<Node> := Walk(es[0], depth);
      var rest: seq<Node> := WalkAll(es[1..], depth);
      WalkDepths(es[0], depth);
      WalkAllDepths(es[1..], depth);
      forall j | 0 <= j < |head + rest| ensures (head + rest)[j].depth >= depth {
        if j >= |head| {
          assert (head + rest)[j] == rest[j - |head|];
        }
      }
    }
  }

  /** The elements at the given depth, in order. */
  function AtDepth(ns: seq<Node>, depth: nat): seq<Node> {
    if ns == [] then []
    else (if ns[0].depth == depth then [ns[0]] else []) + AtDepth(ns[1..], depth)
  }

  lemma {:induction false} AtDepthAppend(a: seq<Node>, b: seq<Node>, depth: nat)
    ensures AtDepth(a + b, depth) == AtDepth(a, depth) + AtDepth(b, depth)
    decreases |a|
  {
    if a == [] {
      assert [] + b == b;
      assert [] + AtDepth(b, depth) == AtDepth(b, depth);
    } else {
      assert (a + b)[1..] == a[1..] + b;
      AtDepthAppend(a[1..], b, depth);
      var h := if a[0].depth == depth then [a[0]] else [];
      assert h + (AtDepth(a[1..], depth) + AtDepth(b, depth)) == (h + AtDepth(a[1..], depth)) + AtDepth(b, depth);
    }
  }

  lemma {:induction false} AtDepthNone(ns: seq<Node>, depth: nat)
    requires forall j :: 0 <= j < |ns| ==> ns[j].depth > depth
    ensures AtDepth(ns, depth) == []
    decreases |ns|
  {
    if ns != [] {
      AtDepthNone(ns[1..], depth);
    }
  }

  /** At the depth a list of elements is placed at, its walk holds exactly
      those elements, in order: none of their descendants. */
  lemma {:induction false} WalkAllTops(es: seq<Element>, depth: nat)
    ensures AtDepth(WalkAll(es, depth), depth) == seq(|es|, i requires 0 <= i < |es| => Node(depth, es[i].tag, es[i].attrs))
    decreases |es|
  {
    var tops := seq(|es|, i requires 0 <= i < |es| => Node(depth, es[i].tag, es[i].attrs));
    if es == [] {
    } else {
      var e := es[0];
      var rest := WalkAll(e.children, depth + 1);
      WalkAllDepths(e.children, depth + 1);
      AtDepthNone(rest, depth);
      assert Walk(e, depth) == [Node(depth, e.tag, e.attrs)] + rest;
      AtDepthAppend([Node(depth, e.tag, e.attrs)], rest, depth);
      assert AtDepth([Node(depth, e.tag, e.attrs)], depth) == [Node(depth, e.tag, e.attrs)];
      AtDepthAppend(Walk(e, depth), WalkAll(es[1..], depth), depth);
      WalkAllTops(es[1..], depth);
      assert tops == [Node(depth, e.tag, e.attrs)] + tops[1..];
      assert [Node(depth, e.tag, e.attrs)] + [] == [Node(depth, e.tag, e.attrs)];
    }
  }

  /** `renderRootDoc` on a document's children: the walks of their
      elements, placed directly under `rootEl`. */
  function Render(cs: seq<Child>): seq<Node> {
    WalkAll(CreateChildren(cs), 1)
  }

  /** Rendering one more child appends its element's walk. */
  lemma RenderAppend(cs: seq<Child>, c: Child)
    ensures Render(cs + [c]) == Render(cs) + Walk(CreateElement(c.node), 1)
  {
    CreateChildrenAppend(cs, c);
    WalkAllAppend(CreateChildren(cs), CreateElement(c.node), 1);
  }

  /** The rendering holds nothing at the root's own level (depth 0), and
      directly under `rootEl` exactly one element per child of the
      document, in order, with that child's type and attributes. */
  lemma RenderTops(cs: seq<Child>)
    ensures forall j :: 0 <= j < |Render(cs)| ==> Render(cs)[j].depth >= 1
    ensures |AtDepth(Render(cs), 1)| == |cs|
    ensures forall i :: 0 <= i < |cs| ==>
      AtDepth(Render(cs), 1)[i] == Node(1, cs[i].node.typ, CopiedAttrs(cs[i].node))
  {
    var es := CreateChildren(cs);
    WalkAllDepths(es, 1);
    WalkAllTops(es, 1);
    forall i | 0 <= i < |cs| ensures AtDepth(Render(cs), 1)[i] == Node(1, cs[i].node.typ, CopiedAttrs(cs[i].node)) {
      CreateChildrenAt(cs, i);
    }
  }

  // ---------------------------------------------------------------------
  // Looking elements up and changing their attributes

  predicate HasId(n: Node, id: string) {
    "id" in n.attrs && n.attrs["id"] == Whole(id)
  }

  /** `document.getElementById(id)`: the first element in document order
      with that id. */
  function FindById(ns: seq<Node>, id: string): (r: Option<nat>)
    ensures r.Some? ==> r.value < |ns| && HasId(ns[r.value], id)
    ensures r.Some? ==> forall j :: 0 <= j < r.value ==> !HasId(ns[j], id)
    ensures r.None? ==> forall j :: 0 <= j < |ns| ==> !HasId(ns[j], id)
  {
    if ns == [] then None
    else if HasId(ns[0], id) then Some(0)
    else match FindById(ns[1..], id)
      case None => None
      case Some(k) => Some(k + 1)
  }

  /** An attribute change: a property of an attribute, or a whole
      attribute. */
  datatype Change = SetProperty(name: string, property: string, value: string) | SetWhole(name: string, value: string)

  /** `el.setAttribute(...)`: a property update keeps the other properties
      of an attribute already held as properties, and starts afresh
      otherwise; nothing but the named attribute changes. */
  function ChangeAttrs(attrs: map<string, Attr>, c: Change): (r: map<string, Attr>)
    ensures r.Keys == attrs.Keys + {c.name}
    ensures forall k :: k in attrs && k != c.name ==> r[k] == attrs[k]
    ensures c.SetWhole? ==> r[c.name] == Whole(c.value)
    ensures c.SetProperty? ==> r[c.name].Props? && c.property in r[c.name].props && r[c.name].props[c.property] == c.value
    ensures c.SetProperty? && c.name in attrs && attrs[c.name].Props? ==>
      forall q :: q in attrs[c.name].props && q != c.property ==> q in r[c.name].props && r[c.name].props[q] == attrs[c.name].props[q]
  {
    match c
    case SetWhole(name, v) => attrs[name := Whole(v)]
    case SetProperty(name, q, v) =>
      var old_props := if name in attrs && attrs[name].Props? then attrs[name].props else map[];
      attrs[name := Props(old_props[q := v])]
  }

  /** Why a patch stops the batch: `del` and `insert` throw "Method not
      implemented."; a setter on an id no element carries throws because
      `getElementById` returned null. */
  datatype Failure = NotImplemented | NoElement(id: string)

  /** Look the element up and apply the change to it. */
  function ChangeElement(ns: seq<Node>, id: string, c: Change): (r: Result<seq<Node>, Failure>)
    ensures r.Err? <==> FindById(ns, id).None?
    ensures r.Err? ==> r.error == NoElement(id)
    ensures r.Ok? ==> |r.value| == |ns|
    ensures r.Ok? ==> forall j :: 0 <= j < |ns| && j != FindById(ns, id).value ==> r.value[j] == ns[j]
    ensures r.Ok? ==> var k := FindById(ns, id).value;
      r.value[k].depth == ns[k].depth && r.value[k].tag == ns[k].tag && r.value[k].attrs == ChangeAttrs(ns[k].attrs, c)
  {
    match FindById(ns, id)
    case None => Err(NoElement(id))
    case Some(k) => Ok(ns[k := ns[k].(attrs := ChangeAttrs(ns[k].attrs, c))])
  }

  // ---------------------------------------------------------------------
  // Patches

  /** An Automerge patch: its action, path, and the value where the
      action carries one. Actions other than these four (`inc`, `mark`,
      ...) are `Other`. */
  datatype Patch =
    | Put(path: seq<string>, value: string)
    | Del(path: seq<string>)
    | Splice(path: seq<string>, value: string)
    | Insert(path: seq<string>)
    | Other(action: string, path: seq<string>)

  /** What `onDocChange` does with one patch. */
  function ApplyPatch(ns: seq<Node>, p: Patch): (r: Result<seq<Node>, Failure>)
    ensures (p.Del? || p.Insert?) <==> r == Err(NotImplemented)
    ensures p.Other? ==> r == Ok(ns)
    ensures r.Err? && r.error.NoElement? ==> |p.path| > 1 && r.error.id == p.path[1]
    ensures r.Ok? ==> |r.value| == |ns| + (if p.Put? && |p.path| == 2 then 1 else 0)
  {
    match p
    case Put(path, value) =>
      if |path| == 2 then
        var el := CreateElement(Desc("a-entity", path[1], map[], []));
        assert Walk(el, 1) == [Node(1, el.tag, el.attrs)];
        Ok(ns + Walk(el, 1))
      else if |path| == 4 && path[2] == "position" then
        ChangeElement(ns, path[1], SetProperty("position", path[3], value))
      else Ok(ns)
    case Del(_) => Err(NotImplemented)
    case Splice(path, value) =>
      if |path| >= 3 then
        if IsMeta(path[2]) then Ok(ns)
        else if |path| == 4 then ChangeElement(ns, path[1], SetWhole(path[2], value))
        else if |path| == 5 then ChangeElement(ns, path[1], SetProperty(path[2], path[3], value))
        else Ok(ns)
      else Ok(ns)
    case Insert(_) => Err(NotImplemented)
    case Other(_, _) => Ok(ns)
  }

  /** A put on `[@children, id]` appends one `a-entity` with that id and
      nothing else directly under `rootEl`. */
  lemma PutAppendsEntity(ns: seq<Node>, path: seq<string>, value: string)
    requires |path| == 2
    ensures ApplyPatch(ns, Put(path, value)) == Ok(ns + [Node(1, "a-entity", map["id" := Whole(path[1])])])
  {
    var d := Desc("a-entity", path[1], map[], []);
    var el := CreateElement(d);
    assert el.attrs == map["id" := Whole(path[1])] by {
      assert el.attrs.Keys == {"id"};
    }
    assert el.children == [];
    var n := Node(1, el.tag, el.attrs);
    assert Walk(el, 1) == [n] + [];
    assert [n] + [] == [n];
    assert n == Node(1, "a-entity", map["id" := Whole(path[1])]);
    assert ApplyPatch(ns, Put(path, value)) == Ok(ns + Walk(el, 1));
  }

  /** A put on `[@children, id, position, axis]` sets that axis of the
      position of element `id`, and fails where there is no such element;
      every other put changes nothing. */
  lemma PutSetsPosition(ns: seq<Node>, path: seq<string>, value: string)
    ensures |path| == 4 && path[2] == "position" ==>
      ApplyPatch(ns, Put(path, value)) == ChangeElement(ns, path[1], SetProperty("position", path[3], value))
    ensures |path| != 2 && !(|path| == 4 && path[2] == "position") ==> ApplyPatch(ns, Put(path, value)) == Ok(ns)
  {
  }

  /** A splice on a metadata key (`@...`) changes nothing; one on
      `[@children, id, name, i]` sets attribute `name` whole, one on
      `[@children, id, name, property, i]` sets that property; a splice of
      any other length changes nothing. */
  lemma SpliceCases(ns: seq<Node>, path: seq<string>, value: string)
    ensures |path| >= 3 && IsMeta(path[2]) ==> ApplyPatch(ns, Splice(path, value)) == Ok(ns)
    ensures |path| == 4 && !IsMeta(path[2]) ==>
      ApplyPatch(ns, Splice(path, value)) == ChangeElement(ns, path[1], SetWhole(path[2], value))
    ensures |path| == 5 && !IsMeta(path[2]) ==>
      ApplyPatch(ns, Splice(path, value)) == ChangeElement(ns, path[1], SetProperty(path[2], path[3], value))
    ensures |path| != 4 && |path| != 5 ==> ApplyPatch(ns, Splice(path, value)) == Ok(ns)
  {
  }

  /** The outcome of a batch: the scene after the patches that ran, and
      the failure that stopped the batch, if any. */
  datatype Run = Run(nodes: seq<Node>, failure: Option<Failure>)

  /** Patches apply in list order; the first failure stops the rest. */
  function ApplyPatches(ns: seq<Node>, ps: seq<Patch>): Run
    decreases |ps|
  {
    if ps == [] then Run(ns, None)
    else match ApplyPatch(ns, ps[0])
      case Err(f) => Run(ns, Some(f))
      case Ok(ns') => ApplyPatches(ns', ps[1..])
  }

  /** A batch is its two halves in turn: the second half runs on the
      scene the first leaves, and not at all when the first fails. */
  lemma {:induction false} ApplyPatchesAppend(ns: seq<Node>, ps: seq<Patch>, qs: seq<Patch>)
    ensures ApplyPatches(ns, ps + qs) ==
      var r := ApplyPatches(ns, ps);
      if r.failure.Some? then r else ApplyPatches(r.nodes, qs)
    decreases |ps|
  {
    if ps == [] {
      assert [] + qs == qs;
    } else {
      assert (ps + qs)[0] == ps[0];
      assert (ps + qs)[1..] == ps[1..] + qs;
      match ApplyPatch(ns, ps[0])
      case Err(_) =>
      case Ok(ns') => ApplyPatchesAppend(ns', ps[1..], qs);
    }
  }

  /** A batch that includes a `del` or `insert` patch fails: no patch after
      it runs, and the scene is the one the patches before it leave. */
  lemma NotImplementedStops(ns: seq<Node>, ps: seq<Patch>, p: Patch, qs: seq<Patch>)
    requires p.Del? || p.Insert?
    requires ApplyPatches(ns, ps).failure.None?
    ensures ApplyPatches(ns, ps + [p] + qs) == Run(ApplyPatches(ns, ps).nodes, Some(NotImplemented))
  {
    ApplyPatchesAppend(ns, ps + [p], qs);
    ApplyPatchesAppend(ns, ps, [p]);
    assert [p][1..] == [];
  }

  /** Once the first pending patch has been applied, the rest of the
      batch give the same outcome. */
  ghost predicate Pending(whole: Run, ns: seq<Node>, ps: seq<Patch>, i: nat)
    requires i <= |ps|
  {
    whole == ApplyPatches(ns, ps[i..])
  }

  lemma PendingStep(whole: Run, ns: seq<Node>, ps: seq<Patch>, i: nat)
    requires i < |ps| && Pending(whole, ns, ps, i)
    ensures ApplyPatch(ns, ps[i]).Ok? ==> Pending(whole, ApplyPatch(ns, ps[i]).value, ps, i + 1)
    ensures ApplyPatch(ns, ps[i]).Err? ==> whole == Run(ns, Some(ApplyPatch(ns, ps[i]).error))
  {
    assert ps[i..][0] == ps[i];
    assert ps[i..][1..] == ps[i + 1..];
  }

  // ---------------------------------------------------------------------
  // The initial document

  /** An empty Automerge document, before `createNewRootDoc` fills it. */
  const EmptyDoc: Desc := Desc("", "", map[], [])

  function Leaf(typ: string, id: string, fields: map<string, string>): Desc {
    Desc(typ, id, fields, [])
  }

  const FloorSrc: string := "/static/floor.jpg"
  const SkySrc: string := "/static/sky.jpg"
  const VoxelGeometry: string := "primitive: box; height: 0.5; width: 0.5; depth: 0.5"
  const VoxelMaterial: string := "shader: standard"
  const CursorSpawn: string := "event: click; offset: 0.25 0.25 0.25; snap: 0.5 0.5 0.5; mixin: voxel"

  /** The `@children` of the root document `createNewRootDoc` writes;
      numbers are given by their decimal text. */
  function InitialChildren(): seq<Child> {
    [ Child("assets", Desc("a-assets", "assets", map[], [
        Child("groundTexture", Leaf("img", "groundTexture", map["src" := FloorSrc, "alt" := ""])),
        Child("skyTexture", Leaf("img", "skyTexture", map["src" := SkySrc, "alt" := ""])),
        Child("voxel", Leaf("a-mixin", "voxel", map["geometry" := VoxelGeometry, "material" := VoxelMaterial]))])),
      Child("ground", Leaf("a-cylinder", "ground", map["src" := "#groundTexture", "radius" := "32", "height" := "0.1"])),
      Child("background", Leaf("a-background", "background", map["src" := "#skyTexture", "radius" := "30", "theta-length" := "90"])),
      Child("camera", Desc("a-camera", "camera", map[], [
        Child("cursor", Leaf("a-cursor", "cursor", map["intersection-spawn" := CursorSpawn]))]))
    ]
  }

  /** Every node's `@id` is its key in its parent's `@children`, all the
      way down. */
  predicate IdsMatchKeys(cs: seq<Child>)
    decreases cs
  {
    forall i :: 0 <= i < |cs| ==> cs[i].node.id == cs[i].key && IdsMatchKeys(cs[i].node.children)
  }

  lemma InitialIdsMatchKeys()
    ensures IdsMatchKeys(InitialChildren())
  {
    var cs := InitialChildren();
    assert IdsMatchKeys(cs[0].node.children);
    assert IdsMatchKeys(cs[3].node.children);
  }

  // ---------------------------------------------------------------------
  // The scene object

  /** `CrdtScene`, once its document is ready: the document, and the
      elements under `rootEl` in document order. */
  class CrdtScene {
    var doc: Desc
    var nodes: seq<Node>

    /** A document found under a given id, or else a fresh one filled by
        `createNewRootDoc`; nothing rendered yet. */
    constructor (found: Option<Desc>)
      ensures nodes == []
      ensures found.Some? ==> doc == found.value
      ensures found.None? ==> doc.typ == "a-scene" && doc.id == "root" && doc.children == InitialChildren()
    {
      nodes := [];
      doc := EmptyDoc;
      new;
      if found.Some? {
        doc := found.value;
      } else {
        CreateNewRootDoc();
      }
    }

    /** `createNewRootDoc(doc)`: the root is an `a-scene` with id `root`
        and the initial children (whose ids all match their keys, as
        `InitialIdsMatchKeys` shows). */
    method CreateNewRootDoc()
      modifies this`doc
      ensures doc == old(doc).(typ := "a-scene", id := "root", children := InitialChildren())
    {
      doc := doc.(typ := "a-scene", id := "root");
      doc := doc.(children := InitialChildren());
    }

    /** `renderRootDoc()`: append an element for each child of the root
        document, in order; the root itself is not rendered. */
    method RenderRootDoc()
      modifies this`nodes
      ensures nodes == old(nodes) + Render(doc.children)
    {
      var cs := doc.children;
      var out := nodes;
      var i := 0;
      while i < |cs|
        invariant i <= |cs|
        invariant out == old(nodes) + Render(cs[..i])
      {
        assert cs[..i + 1] == cs[..i] + [cs[i]];
        RenderAppend(cs[..i], cs[i]);
        var el := CreateElement(cs[i].node);
        assert (old(nodes) + Render(cs[..i])) + Walk(el, 1) == old(nodes) + (Render(cs[..i]) + Walk(el, 1));
        out := out + Walk(el, 1);
        i := i + 1;
      }
      nodes := out;
      assert cs[..i] == cs;
    }

    /** `onDocChange(payload)`: apply the patches in order; a failing
        patch throws out of the handler, leaving the edits made so far. */
    method OnDocChange(patches: seq<Patch>) returns (failure: Option<Failure>)
      modifies this`nodes
      ensures Run(nodes, failure) == ApplyPatches(old(nodes), patches)
    {
      ghost var whole := ApplyPatches(nodes, patches);
      var i := 0;
      while i < |patches|
        invariant i <= |patches|
        invariant Pending(whole, nodes, patches, i)
      {
        PendingStep(whole, nodes, patches, i);
        var r := ApplyPatch(nodes, patches[i]);
        if r.Err? {
          return Some(r.error);
        }
        nodes := r.value;
        i := i + 1;
      }
      return None;
    }
  }
}
