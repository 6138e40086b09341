/** The page script (public/static/aincraft.js): the `intersection-spawn`
    component, which places a box where the user clicks and publishes it
    as a pair of JSON patches through the unsigned NDN layer that the
    bundle exposes to the page as `ndnts` (src/index.js), and
    `applyPatch`, the callback that adds the boxes peers publish to the
    scene. JSON text is produced and read by foreign code
    (`JSON.stringify`, `JSON.parse`), given here as parameters; the
    clicked point, already snapped to the grid, is given as its text. */
module Aincraft {
  import opened Wrappers
  import opened Bytes
  import opened Ndn
  import opened Utf8
  import opened Utils
  import UnsignedSyncApp

  // ---------------------------------------------------------------------
  // Patch records

  /** The box object of a `new` patch (`@children` is always empty). */
  datatype BoxJson = BoxJson(typ: string, id: string, version: nat, name: string,
                             position: string, mixin: string, material: string)

  /** The `value` member of a patch: an object, a number, or absent. */
  datatype PatchValue = BoxValue(box: BoxJson) | NumberValue(number: int) | NoValue

  /** A patch as `JSON.parse` gives it and `JSON.stringify` takes it. */
  datatype JsonPatch = JsonPatch(op: string, value: PatchValue, path: Option<string>, name: string, version: nat)

  /** An element appended to the `a-scene`: its type and attributes. */
  datatype Entity = Entity(tag: string, attrs: map<string, string>)

  // ---------------------------------------------------------------------
  // applyPatch

  /** A member read from a value that is not an object is `undefined`. */
  const Undefined: string := "undefined"

  /** The element `applyPatch` builds for a `new` patch's value: its
      `@type`, with the `@id`, `position`, `material` and `mixin` members
      as attributes. */
  function NewEntity(v: PatchValue): (e: Entity)
    requires !v.NoValue?
    ensures e.attrs.Keys == {"id", "position", "material", "mixin"}
    ensures v.BoxValue? ==>
      && e.tag == v.box.typ && e.attrs["id"] == v.box.id && e.attrs["position"] == v.box.position
      && e.attrs["material"] == v.box.material && e.attrs["mixin"] == v.box.mixin
  {
    match v
    case BoxValue(b) =>
      Entity(b.typ, map["id" := b.id, "position" := b.position, "material" := b.material, "mixin" := b.mixin])
    case NumberValue(_) =>
      Entity(Undefined, map["id" := Undefined, "position" := Undefined, "material" := Undefined, "mixin" := Undefined])
  }

  /** How `applyPatch` ends: the scene, and the error it logs to the
      console, if any. */
  datatype Applied = Applied(scene: seq<Entity>, logged: Option<string>)

  /** Why `applyPatch` throws: the text is not JSON, or a `new` patch has
      no value to read members from. */
  datatype ApplyError = ParseError | ValueUndefined

  /** `applyPatch(patch)`: a `new` patch appends one element; `add` and
      `nop` are ignored (the box came with its `new` patch); any other op
      is logged and ignored. */
  function ApplyPatch(scene: seq<Entity>, patch: string, parse: string -> Option<JsonPatch>): (r: Result<Applied, ApplyError>)
    ensures r == Err(ParseError) <==> parse(patch).None?
    ensures r == Err(ValueUndefined) <==> parse(patch).Some? && parse(patch).value.op == "new" && parse(patch).value.value.NoValue?
    ensures r.Ok? && parse(patch).value.op == "new" ==>
      r.value == Applied(scene + [NewEntity(parse(patch).value.value)], None)
    ensures r.Ok? && parse(patch).value.op in {"add", "nop"} ==> r.value == Applied(scene, None)
    ensures r.Ok? && parse(patch).value.op !in {"new", "add", "nop"} ==>
      r.value.scene == scene && r.value.logged.Some?
  {
    match parse(patch)
    case None => Err(ParseError)
    case Some(p) =>
      if p.op != "new" then
        if p.op == "add" || p.op == "nop" then Ok(Applied(scene, None))
        else Ok(Applied(scene, Some("Unsupported patch operation: " + p.op)))
      else if p.value.NoValue? then Err(ValueUndefined)
      else Ok(Applied(scene + [NewEntity(p.value)], None))
  }

  /** Whether `applyPatch` returns normally does not depend on the scene:
      this is the verdict on which the handler of src/index.ts would cache a
      packet, as `SyncApp`'s `accepts` predicate; the unsigned handler the
      page uses ignores it. */
  predicate ReturnsNormally(patch: string, parse: string -> Option<JsonPatch>) {
    parse(patch).Some? && !(parse(patch).value.op == "new" && parse(patch).value.value.NoValue?)
  }

  lemma ApplyPatchReturns(scene: seq<Entity>, patch: string, parse: string -> Option<JsonPatch>)
    ensures ApplyPatch(scene, patch, parse).Ok? <==> ReturnsNormally(patch, parse)
  {
  }

  // ---------------------------------------------------------------------
  // The spawn handler

  function Digit(d: nat): (c: char)
    requires d < 10
    ensures '0' <= c <= '9' && c as int - '0' as int == d
  {
    ('0' as int + d) as char
  }

  /** `${n}` for a natural number: its decimal digits, no leading zero. */
  function Decimal(n: nat): (s: string)
    ensures |s| >= 1
    ensures forall k :: 0 <= k < |s| ==> '0' <= s[k] <= '9'
  {
    if n < 10 then [Digit(n)] else Decimal(n / 10) + [Digit(n % 10)]
  }

  /** The number a string of decimal digits denotes. */
  function DecimalValue(s: string): nat {
    if s == [] then 0
    else
      var d := s[|s| - 1] as int - '0' as int;
      10 * DecimalValue(s[..|s| - 1]) + (if 0 <= d < 10 then d else 0)
  }

  /** The decimal text of a number reads back as that number. */
  lemma {:induction false} DecimalRoundTrip(n: nat)
    ensures DecimalValue(Decimal(n)) == n
    decreases n
  {
    var s := Decimal(n);
    if n < 10 {
      assert s[..0] == [];
    } else {
      var q, r := n / 10, n % 10;
      assert n == 10 * q + r;
      DecimalRoundTrip(q);
      assert s == Decimal(q) + [Digit(r)];
      assert s[..|s| - 1] == Decimal(q);
      assert DecimalValue(s) == 10 * DecimalValue(Decimal(q)) + r;
    }
  }

  /** `box-${ver}`: the id of the box spawned at clock reading `ver`. */
  function BoxId(ver: nat): string {
    "box-" + Decimal(ver)
  }

  /** Boxes spawned at different clock readings have different ids. */
  lemma BoxIdInjective(a: nat, b: nat)
    requires BoxId(a) == BoxId(b)
    ensures a == b
  {
    assert Decimal(a) == BoxId(a)[4..];
    assert Decimal(b) == BoxId(b)[4..];
    DecimalRoundTrip(a);
    DecimalRoundTrip(b);
  }

  /** The keys of the component's data that are not copied onto the box. */
  const NotCopied: set<string> := {"event", "snap", "offset"}

  /** The spawned element's attributes: `position`, `material` with the
      colour, then every data key but `event`, `snap` and `offset`, then
      the id. */
  function SpawnAttrs(data: map<string, string>, pos: string, color: string, boxId: string): (m: map<string, string>)
    ensures m.Keys == data.Keys - NotCopied + {"position", "material", "id"}
    ensures m["id"] == boxId
    ensures forall k :: k in data && k !in NotCopied && k != "id" ==> m[k] == data[k]
    ensures "position" !in data ==> m["position"] == pos
    ensures "material" !in data ==> m["material"] == "color: " + color
  {
    var copied := map k | k in data && k !in NotCopied :: data[k];
    (map["position" := pos, "material" := "color: " + color] + copied)["id" := boxId]
  }

  /** The spawner the initial document gives the cursor has the data
      `event`, `offset`, `snap` and `mixin: voxel`: its boxes carry exactly
      their position, colour, the voxel mixin and their id, and no dotted
      `component.property` key arises. */
  lemma CursorSpawnAttrs(pos: string, color: string, boxId: string)
    ensures SpawnAttrs(map["event" := "click", "offset" := "0.25 0.25 0.25", "snap" := "0.5 0.5 0.5", "mixin" := "voxel"],
                       pos, color, boxId)
      == map["position" := pos, "material" := "color: " + color, "mixin" := "voxel", "id" := boxId]
  {
  }

  /** The `new` patch of a spawn: the box object, named `/root/<id>`, at
      version `ver`. */
  function NewPatch(ver: nat, pos: string, color: string): JsonPatch {
    var id := BoxId(ver);
    JsonPatch("new", BoxValue(BoxJson("a-entity", id, ver, "/root/" + id, pos, "voxel", "color: " + color)),
              None, "/root/" + id, ver)
  }

  /** The `add` patch of a spawn: the box joins `/root`'s children. */
  function AddPatch(ver: nat): JsonPatch {
    JsonPatch("add", NumberValue(-1), Some("/@children/" + BoxId(ver)), "/root", ver)
  }

  /** The two patches of a spawn carry the same version and the same box
      id, `box-<version>`; the `new` one is named by the box, the `add`
      one by the root it is added to. */
  lemma SpawnPatchPair(ver: nat, pos: string, color: string)
    ensures var n := NewPatch(ver, pos, color);
      var a := AddPatch(ver);
      && n.op == "new" && a.op == "add"
      && n.version == a.version == ver && n.value.box.version == ver
      && n.value.box.id == BoxId(ver) && n.name == n.value.box.name == "/root/" + BoxId(ver)
      && a.path == Some("/@children/" + n.value.box.id) && a.name == "/root"
      && n.value.box.id[..4] == "box-" && DecimalValue(n.value.box.id[4..]) == ver
  {
    DecimalRoundTrip(ver);
    assert BoxId(ver)[4..] == Decimal(ver);
  }

  /** A peer that receives a spawn's two patches, with a JSON codec that
      round-trips them, adds exactly one element: an `a-entity` with the
      box's id, position, colour and mixin; the `add` patch adds nothing. */
  lemma SpawnReplayed(scene: seq<Entity>, ver: nat, pos: string, color: string,
                      stringify: JsonPatch -> string, parse: string -> Option<JsonPatch>)
    requires parse(stringify(NewPatch(ver, pos, color))) == Some(NewPatch(ver, pos, color))
    requires parse(stringify(AddPatch(ver))) == Some(AddPatch(ver))
    ensures var r := ApplyPatch(scene, stringify(NewPatch(ver, pos, color)), parse);
      && r.Ok? && r.value.logged.None? && |r.value.scene| == |scene| + 1 && r.value.scene[..|scene|] == scene
      && r.value.scene[|scene|] == Entity("a-entity", map["id" := BoxId(ver), "position" := pos,
                                                          "material" := "color: " + color, "mixin" := "voxel"])
      && ApplyPatch(r.value.scene, stringify(AddPatch(ver)), parse) == Ok(Applied(r.value.scene, None))
  {
    var r := ApplyPatch(scene, stringify(NewPatch(ver, pos, color)), parse);
    assert r.value.scene == scene + [NewEntity(NewPatch(ver, pos, color).value)];
    assert r.value.scene[..|scene|] == scene;
  }

  /** The page: the elements of its `a-scene`, and the unsigned NDN layer
      it publishes through (`ndnts`). */
  class Page {
    var scene: seq<Entity>
    const app: UnsignedSyncApp.App

    constructor (app: UnsignedSyncApp.App)
      ensures this.app == app && scene == []
    {
      this.app := app;
      scene := [];
    }

    /** A click: colour the box with six random draws, append it to the
        scene, then produce, unsigned, its `new` patch and after it its
        `add` patch, which take the next two sequence numbers. Before
        `createSync` the first produce throws (`thrown`): the box stays in
        the scene and neither patch is stored. */
    method Spawn(data: map<string, string>, pos: string, draws: seq<nat>, ver: nat, stringify: JsonPatch -> string)
      returns (thrown: bool)
      requires |draws| == 6 && forall k :: 0 <= k < 6 ==> draws[k] < 16
      requires app.Valid()
      modifies this`scene, app`seqNum, app`pktStorage
      ensures app.Valid()
      ensures scene == old(scene) + [Entity("a-entity", SpawnAttrs(data, pos, ColorOf(draws), BoxId(ver)))]
      ensures thrown <==> !app.syncStarted
      ensures thrown ==> app.seqNum == old(app.seqNum) && app.pktStorage == old(app.pktStorage)
      ensures !thrown ==>
        ProducerState(app.seqNum, app.pktStorage) ==
        ProduceAll(app.BaseName(), ProducerState(old(app.seqNum), old(app.pktStorage)),
                   [ToUtf8(stringify(NewPatch(ver, pos, ColorOf(draws)))), ToUtf8(stringify(AddPatch(ver)))],
                   Unsigned)
    {
      var color := GetRandomColor(draws);
      var boxId := BoxId(ver);
      scene := scene + [Entity("a-entity", SpawnAttrs(data, pos, color, boxId))];
      var first := stringify(NewPatch(ver, pos, color));
      var second := stringify(AddPatch(ver));
      ghost var start := ProducerState(app.seqNum, app.pktStorage);
      thrown := app.Produce(first, false);
      if thrown {
        return;
      }
      var again := app.Produce(second, false);
      ProduceTwice(app.BaseName(), start, ToUtf8(first), ToUtf8(second), Unsigned);
    }
  }

  /** Two productions in a row are a run of two. */
  lemma ProduceTwice(base: Name, st: ProducerState, c0: seq<byte>, c1: seq<byte>, signing: Signing)
    ensures ProduceAll(base, st, [c0, c1], signing) == Ndn.Produce(base, Ndn.Produce(base, st, c0, signing), c1, signing)
  {
    var contents := [c0, c1];
    var s1 := Ndn.Produce(base, st, c0, signing);
    assert contents[1..] == [c1];
    assert [c1][1..] == [];
    assert ProduceAll(base, s1, [c1], signing) == ProduceAll(base, Ndn.Produce(base, s1, c1, signing), [], signing);
  }

  /** After a spawn from counter s, sequence s+1 holds the `new` patch and
      s+2 the `add` patch: the box arrives before its insertion. */
  lemma SpawnOrder(base: Name, st: ProducerState, newText: string, addText: string, signing: Signing)
    ensures var r := ProduceAll(base, st, [ToUtf8(newText), ToUtf8(addText)], signing);
      && r.seqNum == st.seqNum + 2
      && SeqName(base, st.seqNum + 1) in r.store && SeqName(base, st.seqNum + 2) in r.store
      && r.store[SeqName(base, st.seqNum + 1)].content == ToUtf8(newText)
      && r.store[SeqName(base, st.seqNum + 2)].content == ToUtf8(addText)
  {
    var contents := [ToUtf8(newText), ToUtf8(addText)];
    ProduceAllStores(base, st, contents, signing);
    assert contents[st.seqNum + 1 - st.seqNum - 1] == ToUtf8(newText);
    assert contents[st.seqNum + 2 - st.seqNum - 1] == ToUtf8(addText);
  }
}
