/**
 * The catalog lifecycle contract that CatalogYamlRebindTest pins down: catalog
 * items keyed by (symbolic name, version) with deprecated/disabled flags, their
 * persisted mementos, rebind (reload of the catalog, reconstruction of an existing
 * entity, optional auto-fix of its catalog reference) and deployment of new apps.
 * The engine that implements this is not part of this model; the behaviour here is
 * what the test asserts.
 */
module CatalogRebind {
  import opened Outcomes
  import opened XmlTree
  import opened XmlEdit
  import Text

  /** The identity of a catalog item. */
  datatype ItemId = ItemId(symbolicName: string, version: string)

  /** CatalogUtils.getVersionedId: "name:version", the form of an entity's catalogItemId. */
  function VersionedId(id: ItemId): (s: string)
    ensures |s| > |id.symbolicName| && s[..|id.symbolicName|] == id.symbolicName
  {
    id.symbolicName + ":" + id.version
  }

  /** The lifecycle flags of a catalog item. */
  datatype Flags = Flags(deprecated: bool, disabled: bool)

  /** The catalog: each registered item with its flags. */
  type Registry = map<ItemId, Flags>

  datatype CatalogError = Conflict(id: ItemId) | NotFound(id: ItemId)

  /** The catalog changes the test makes. */
  datatype CatalogOp =
    | Add(id: ItemId)
    | Delete(id: ItemId)
    | SetDeprecated(id: ItemId, deprecated: bool)
    | SetDisabled(id: ItemId, disabled: bool)

  /**
   * One catalog change: a new item is neither deprecated nor disabled and its
   * identity must be new; the other changes need the item to exist.
   */
  function ApplyOp(reg: Registry, op: CatalogOp): (r: Result<Registry, CatalogError>)
    ensures r.Ok? <==> (if op.Add? then op.id !in reg else op.id in reg)
    ensures r.Ok? ==> r.value.Keys == (if op.Add? then reg.Keys + {op.id} else if op.Delete? then reg.Keys - {op.id} else reg.Keys)
    ensures r.Ok? ==> forall id :: id in reg && id != op.id ==> reg[id] == r.value[id]
    ensures r.Ok? && op.Add? ==> r.value[op.id] == Flags(false, false)
    ensures r.Ok? && op.SetDeprecated? ==> r.value[op.id] == reg[op.id].(deprecated := op.deprecated)
    ensures r.Ok? && op.SetDisabled? ==> r.value[op.id] == reg[op.id].(disabled := op.disabled)
  {
    match op
    case Add(id) => if id in reg then Err(Conflict(id)) else Ok(reg[id := Flags(false, false)])
    case Delete(id) => if id !in reg then Err(NotFound(id)) else Ok(reg - {id})
    case SetDeprecated(id, b) => if id !in reg then Err(NotFound(id)) else Ok(reg[id := reg[id].(deprecated := b)])
    case SetDisabled(id, b) => if id !in reg then Err(NotFound(id)) else Ok(reg[id := reg[id].(disabled := b)])
  }

  /** Deleting an item just added gives back the catalog as it was. */
  lemma DeleteUndoesAdd(reg: Registry, id: ItemId)
    requires id !in reg
    ensures ApplyOp(reg, Add(id)).Ok?
    ensures ApplyOp(ApplyOp(reg, Add(id)).value, Delete(id)) == Ok(reg)
  {
    assert reg[id := Flags(false, false)] - {id} == reg;
  }

  /** Changes applied in order; the first failure stops the sequence. */
  function ApplyOps(reg: Registry, ops: seq<CatalogOp>): Result<Registry, CatalogError>
    decreases |ops|
  {
    if ops == [] then Ok(reg)
    else
      match ApplyOp(reg, ops[0])
      case Err(e) => Err(e)
      case Ok(next) => ApplyOps(next, ops[1..])
  }

  /** The mutable catalog of the management context. */
  class Catalog {
    var items: Registry

    constructor ()
      ensures items == map[]
    {
      items := map[];
    }

    /** Applies one change, or reports why it cannot be made and leaves the catalog as it was. */
    method Apply(op: CatalogOp) returns (error: Option<CatalogError>)
      modifies this
      ensures error.None? <==> ApplyOp(old(items), op).Ok?
      ensures error.Some? ==> Err(error.value) == ApplyOp(old(items), op) && items == old(items)
      ensures error.None? ==> items == ApplyOp(old(items), op).value
    {
      var r := ApplyOp(items, op);
      if r.Ok? {
        items := r.value;
        error := None;
      } else {
        error := Some(r.error);
      }
    }
  }

  /** The test modes. */
  datatype Mode =
    | NoOp
    | StripDeprecationAndEnablementFromCatalogItem
    | DeprecateCatalog
    | DisableCatalog
    | DeleteCatalog
    | ReplaceCatalogWithNewerVersion

  /** The changes each mode makes to the catalog before rebind. */
  function ModeOps(mode: Mode, app: ItemId, loc: ItemId, newApp: ItemId, newLoc: ItemId): seq<CatalogOp> {
    match mode
    case DeprecateCatalog => [SetDeprecated(app, true), SetDeprecated(loc, true)]
    case DisableCatalog => [SetDisabled(app, true), SetDisabled(loc, true)]
    case DeleteCatalog => [Delete(app), Delete(loc)]
    case ReplaceCatalogWithNewerVersion => [Delete(app), Delete(loc), Add(newApp), Add(newLoc)]
    case StripDeprecationAndEnablementFromCatalogItem =>
      [SetDeprecated(app, false), SetDeprecated(loc, false), SetDisabled(app, false), SetDisabled(loc, false)]
    case NoOp => []
  }

  /**
   * The mode switch of testRebindWithCatalogAndApp, run against the catalog: each
   * change in turn, stopping at the first that fails (the test would throw there).
   * Returns the app and location item the rest of the test refers to.
   */
  method ApplyMode(cat: Catalog, mode: Mode, app: ItemId, loc: ItemId, newApp: ItemId, newLoc: ItemId)
    returns (error: Option<CatalogError>, appNow: ItemId, locNow: ItemId)
    modifies cat
    ensures var expected := ApplyOps(old(cat.items), ModeOps(mode, app, loc, newApp, newLoc));
      && (error.None? <==> expected.Ok?)
      && (expected.Ok? ==> cat.items == expected.value)
    ensures (appNow, locNow) == if mode == ReplaceCatalogWithNewerVersion then (newApp, newLoc) else (app, loc)
  {
    appNow, locNow := app, loc;
    error := None;
    ghost var ops := ModeOps(mode, app, loc, newApp, newLoc);
    ghost var before := cat.items;
    match mode {
      case DeprecateCatalog =>
        error := cat.Apply(SetDeprecated(app, true));
        if error.None? { error := cat.Apply(SetDeprecated(loc, true)); }
        TailsOfTwo(before, ops);
      case DisableCatalog =>
        error := cat.Apply(SetDisabled(app, true));
        if error.None? { error := cat.Apply(SetDisabled(loc, true)); }
        TailsOfTwo(before, ops);
      case DeleteCatalog =>
        error := cat.Apply(Delete(app));
        if error.None? { error := cat.Apply(Delete(loc)); }
        TailsOfTwo(before, ops);
      case ReplaceCatalogWithNewerVersion =>
        error := cat.Apply(Delete(app));
        if error.None? { error := cat.Apply(Delete(loc)); }
        appNow, locNow := newApp, newLoc;
        if error.None? { error := cat.Apply(Add(appNow)); }
        if error.None? { error := cat.Apply(Add(locNow)); }
        assert ops == [Delete(app), Delete(loc), Add(newApp), Add(newLoc)];
        TailsOfFour(before, ops);
      case StripDeprecationAndEnablementFromCatalogItem =>
        error := cat.Apply(SetDeprecated(app, false));
        if error.None? { error := cat.Apply(SetDeprecated(loc, false)); }
        if error.None? { error := cat.Apply(SetDisabled(app, false)); }
        if error.None? { error := cat.Apply(SetDisabled(loc, false)); }
        assert ops == [SetDeprecated(app, false), SetDeprecated(loc, false), SetDisabled(app, false), SetDisabled(loc, false)];
        TailsOfFour(before, ops);
      case NoOp =>
    }

  }

  /** ApplyOps on two changes, unfolded. */
  lemma TailsOfTwo(reg: Registry, ops: seq<CatalogOp>)
    requires |ops| == 2
    ensures ApplyOps(reg, ops) ==
      match ApplyOp(reg, ops[0])
      case Err(e) => Err(e)
      case Ok(r1) => ApplyOp(r1, ops[1])
  {
    assert ops[1..][0] == ops[1] && ops[1..][1..] == [];
    if ApplyOp(reg, ops[0]).Ok? {
      var r1 := ApplyOp(reg, ops[0]).value;
      if ApplyOp(r1, ops[1]).Ok? {
        assert ApplyOps(ApplyOp(r1, ops[1]).value, []) == Ok(ApplyOp(r1, ops[1]).value);
      }
    }
  }

  /** ApplyOps on four changes, unfolded. */
  lemma TailsOfFour(reg: Registry, ops: seq<CatalogOp>)
    requires |ops| == 4
    ensures ApplyOps(reg, ops) ==
      match ApplyOp(reg, ops[0])
      case Err(e) => Err(e)
      case Ok(r1) =>
        match ApplyOp(r1, ops[1])
        case Err(e) => Err(e)
        case Ok(r2) =>
          match ApplyOp(r2, ops[2])
          case Err(e) => Err(e)
          case Ok(r3) => ApplyOp(r3, ops[3])
  {
    assert ops[1..][0] == ops[1] && ops[1..][1..] == ops[2..];
    assert ops[2..][0] == ops[2] && ops[2..][1..] == ops[3..];
    assert ops[3..][0] == ops[3] && ops[3..][1..] == [];
    if ApplyOp(reg, ops[0]).Ok? {
      var r1 := ApplyOp(reg, ops[0]).value;
      if ApplyOp(r1, ops[1]).Ok? {
        var r2 := ApplyOp(r1, ops[1]).value;
        if ApplyOp(r2, ops[2]).Ok? {
          var r3 := ApplyOp(r2, ops[2]).value;
          assert ApplyOps(r3, ops[3..]) == ApplyOp(r3, ops[3]) by {
            if ApplyOp(r3, ops[3]).Ok? {
              assert ApplyOps(ApplyOp(r3, ops[3]).value, []) == Ok(ApplyOp(r3, ops[3]).value);
            }
          }
          assert ApplyOps(r2, ops[2..]) == ApplyOps(r3, ops[3..]);
        }
        assert ApplyOps(r1, ops[1..]) == match ApplyOp(r1, ops[1]) case Err(e) => Err(e) case Ok(n) => ApplyOps(n, ops[2..]);
      }
    }
  }

  // ---------------------------------------------------------------------------
  // Catalog-item mementos

  /** A leaf element holding one value as text, the shape of each field of a memento. */
  function Field(tag: string, value: string): Node {
    Element(tag, [CharData(value)])
  }

  predicate IsField(n: Node) {
    n.Element? && |n.children| == 1 && n.children[0].CharData?
  }

  function BoolText(b: bool): string {
    if b then "true" else "false"
  }

  /** The fields of a catalog-item memento, in document order. */
  function MementoFields(id: ItemId, flags: Flags): seq<Node> {
    [ Field("id", VersionedId(id)),
      Field("symbolicName", id.symbolicName),
      Field("version", id.version),
      Field("deprecated", BoolText(flags.deprecated)),
      Field("disabled", BoolText(flags.disabled)) ]
  }

  /** The persisted form of a catalog item: a catalogItem root whose fields include deprecated and disabled. */
  function Memento(id: ItemId, flags: Flags): Document {
    Document([Element("catalogItem", MementoFields(id, flags))])
  }

  /** The text of the catalogItem field with the given tag, if the memento has one. */
  function FieldText(doc: Document, tag: string): Option<string> {
    match ResolveIn(doc.nodes, ["catalogItem", tag])
    case None => None
    case Some(a) =>
      var n := NodeAt(doc.nodes, a);
      if IsField(n) then Some(n.children[0].text) else None
  }

  /** Reading a memento's flags: a flag is set only when its field says "true"; a missing field reads as false. */
  function LoadFlags(doc: Document): Flags {
    Flags(FieldText(doc, "deprecated") == Some("true"), FieldText(doc, "disabled") == Some("true"))
  }

  /** Among fields, the first element a tag selects is the first field the tag selects. */
  lemma {:induction false} FirstAmongFields(fs: seq<Node>, tag: string, k: nat)
    requires forall i :: 0 <= i < |fs| ==> IsField(fs[i])
    requires k <= |fs|
    requires forall i :: 0 <= i < k ==> !Matches(fs[i], tag)
    requires k < |fs| ==> Matches(fs[k], tag)
    ensures First(fs, tag) == if k < |fs| then Some([k]) else None
    decreases |fs|
  {
    if fs != [] && k > 0 {
      var f0 := fs[0];
      assert !Matches(f0, tag);
      assert IsField(f0);
      assert First(f0.children, tag) == None by {
        assert f0.children[1..] == [];
        assert !Matches(f0.children[0], tag);
      }
      FirstAmongFields(fs[1..], tag, k - 1);
      if k < |fs| {
        var a: Address := [k - 1];
        assert First(fs[1..], tag) == Some(a);
        assert [a[0] + 1] + a[1..] == [k];
      }
    }
  }

  /** A document whose root is a catalogItem element with the given fields. */
  function ItemDocument(fs: seq<Node>): Document {
    Document([Element("catalogItem", fs)])
  }

  /** In such a document, a path catalogItem/<tag> leads to the first field with that tag. */
  lemma FieldPath(fs: seq<Node>, tag: string, k: nat)
    requires forall i :: 0 <= i < |fs| ==> IsField(fs[i])
    requires k <= |fs|
    requires forall i :: 0 <= i < k ==> !Matches(fs[i], tag)
    requires k < |fs| ==> Matches(fs[k], tag)
    ensures Resolve(ItemDocument(fs), ["catalogItem", tag]) == if k < |fs| then Some([0, k]) else None
    ensures k < |fs| ==> NodeAt(ItemDocument(fs).nodes, [0, k]) == fs[k]
    ensures k < |fs| ==> RemovePath(ItemDocument(fs), ["catalogItem", tag]) == ItemDocument(fs[..k] + fs[k + 1..])
  {
    var doc := ItemDocument(fs);
    assert First(doc.nodes, "catalogItem") == Some([0]);
    assert ["catalogItem", tag][1..] == [tag];
    FirstAmongFields(fs, tag, k);
    assert NodeAt(doc.nodes, [0]).children == fs;
    assert ResolveIn(fs, [tag]) == First(fs, tag);
    if k < |fs| {
      assert [0] + [k] == [0, k];
      assert [0, k][1..] == [k];
      assert ResolveIn(doc.nodes, ["catalogItem", tag]) == Some([0, k]);
      assert NodeAt(doc.nodes, [0, k]) == NodeAt(fs, [k]);
      assert RemoveAt(doc.nodes, [0, k]) == [Element("catalogItem", RemoveAt(fs, [k]))];
    }
  }

  /** The flags read back from a memento are the flags it was written with. */
  lemma MementoRoundTrip(id: ItemId, flags: Flags)
    ensures LoadFlags(Memento(id, flags)) == flags
  {
    var fs := MementoFields(id, flags);
    FieldPath(fs, "deprecated", 3);
    FieldPath(fs, "disabled", 4);
  }

  /** The element paths the test strips from the catalog-item mementos before rebind. */
  const STRIP_PATHS: seq<string> := ["catalogItem/deprecated", "catalogItem/disabled"]

  /** The stripping paths, split on "/". */
  lemma StripPathTags(i: nat)
    requires i < 2
    ensures Text.JavaSplit(STRIP_PATHS[i], '/') == ["catalogItem", ["deprecated", "disabled"][i]]
  {
    var field := ["deprecated", "disabled"][i];
    assert STRIP_PATHS[i] == "catalogItem" + ['/'] + field;
    Text.JavaSplitPair("catalogItem", field, '/');
  }

  /** Fields that carry neither a deprecated nor a disabled element. */
  predicate PlainFields(fs: seq<Node>) {
    forall i :: 0 <= i < |fs| ==> IsField(fs[i]) && !Matches(fs[i], "deprecated") && !Matches(fs[i], "disabled")
  }

  /** Removing catalogItem/<tag> from plain fields followed by one field selected by the tag leaves the plain fields. */
  lemma RemoveTrailingField(keep: seq<Node>, f: Node, tag: string)
    requires PlainFields(keep) && (tag == "deprecated" || tag == "disabled")
    requires IsField(f) && Matches(f, tag)
    ensures RemovePath(ItemDocument(keep + [f]), ["catalogItem", tag]) == ItemDocument(keep)
  {
    var fs := keep + [f];
    FieldPath(fs, tag, |keep|);
    assert fs[..|keep|] + fs[|keep| + 1..] == keep;
  }

  /** Plain fields load as neither deprecated nor disabled. */
  lemma PlainFieldsLoadDefaults(keep: seq<Node>)
    requires PlainFields(keep)
    ensures LoadFlags(ItemDocument(keep)) == Flags(false, false)
  {
    FieldPath(keep, "deprecated", |keep|);
    FieldPath(keep, "disabled", |keep|);
  }

  /** Removing catalogItem/deprecated and then catalogItem/disabled from an item's fields leaves the plain ones. */
  lemma StripItemFields(keep: seq<Node>, dep: Node, dis: Node)
    requires PlainFields(keep)
    requires IsField(dep) && Matches(dep, "deprecated")
    requires IsField(dis) && Matches(dis, "disabled") && !Matches(dis, "deprecated")
    ensures RemovePath(RemovePath(ItemDocument(keep + [dep, dis]), ["catalogItem", "deprecated"]), ["catalogItem", "disabled"])
         == ItemDocument(keep)
  {
    var fs := keep + [dep, dis];
    FieldPath(fs, "deprecated", |keep|);
    assert fs[..|keep|] + fs[|keep| + 1..] == keep + [dis];
    RemoveTrailingField(keep, dis, "disabled");
  }

  /**
   * A memento with its deprecated and disabled fields stripped by removeFromXml
   * reads back as neither deprecated nor disabled, whatever it held before.
   */
  lemma StrippedMementoLoadsDefaults(id: ItemId, flags: Flags)
    ensures LoadFlags(RemoveAll(Memento(id, flags), STRIP_PATHS)) == Flags(false, false)
  {
    var fs := MementoFields(id, flags);
    var keep := fs[..3];
    assert PlainFields(keep);
    assert fs == keep + [fs[3], fs[4]];
    assert Memento(id, flags) == ItemDocument(keep + [fs[3], fs[4]]);
    StripPathTags(0);
    StripPathTags(1);
    RemoveTwoPaths(Memento(id, flags), STRIP_PATHS);
    StripItemFields(keep, fs[3], fs[4]);
    PlainFieldsLoadDefaults(keep);
  }

  /** removeFromXml with two paths. */
  lemma RemoveTwoPaths(doc: Document, ps: seq<string>)
    requires |ps| == 2
    ensures RemoveAll(doc, ps) == RemovePath(RemovePath(doc, Text.JavaSplit(ps[0], '/')), Text.JavaSplit(ps[1], '/'))
  {
    var d1 := RemovePath(doc, Text.JavaSplit(ps[0], '/'));
    assert RemoveAll(doc, ps) == RemoveAll(d1, ps[1..]);
    assert ps[1..][0] == ps[1] && ps[1..][1..] == [];
    var d2 := RemovePath(d1, Text.JavaSplit(ps[1], '/'));
    assert RemoveAll(d1, ps[1..]) == RemoveAll(d2, []);
  }

  // ---------------------------------------------------------------------------
  // Persistence: the catalog written out as mementos and read back on rebind

  /** The persisted catalog: one memento per item. */
  type Store = map<ItemId, Document>

  function Persist(reg: Registry): (store: Store)
    ensures store.Keys == reg.Keys
  {
    map id | id in reg :: Memento(id, reg[id])
  }

  /** Rebind reads every memento back into the catalog. */
  function LoadAll(store: Store): (reg: Registry)
    ensures reg.Keys == store.Keys
  {
    map id | id in store :: LoadFlags(store[id])
  }

  /** The state transformer of the strip mode: removeFromXml on the mementos of the given items. */
  function StripTransform(store: Store, ids: set<ItemId>): (r: Store)
    ensures r.Keys == store.Keys
  {
    map id | id in store :: if id in ids then RemoveAll(store[id], STRIP_PATHS) else store[id]
  }

  /** Persisting and reloading the catalog gives it back unchanged. */
  lemma PersistRoundTrip(reg: Registry)
    ensures LoadAll(Persist(reg)) == reg
  {
    forall id | id in reg
      ensures LoadAll(Persist(reg))[id] == reg[id]
    {
      MementoRoundTrip(id, reg[id]);
    }
  }

  /** Stripped items reload as neither deprecated nor disabled; the others reload unchanged. */
  lemma StrippedReload(reg: Registry, ids: set<ItemId>)
    ensures LoadAll(StripTransform(Persist(reg), ids))
         == map id | id in reg :: if id in ids then Flags(false, false) else reg[id]
  {
    forall id | id in reg
      ensures LoadAll(StripTransform(Persist(reg), ids))[id] == if id in ids then Flags(false, false) else reg[id]
    {
      if id in ids {
        StrippedMementoLoadsDefaults(id, reg[id]);
      } else {
        MementoRoundTrip(id, reg[id]);
      }
    }
  }

  // ---------------------------------------------------------------------------
  // Versions and the auto-fix of catalog references on rebind

  /** Version order: lexicographic on the version text. */
  predicate VersionLt(a: string, b: string)
    decreases |a|
  {
    |b| > 0 && (|a| == 0 || a[0] < b[0] || (a[0] == b[0] && VersionLt(a[1..], b[1..])))
  }

  lemma {:induction false} VersionLtIrreflexive(a: string)
    ensures !VersionLt(a, a)
    decreases |a|
  {
    if |a| > 0 {
      VersionLtIrreflexive(a[1..]);
    }
  }

  lemma {:induction false} VersionLtTransitive(a: string, b: string, c: string)
    requires VersionLt(a, b) && VersionLt(b, c)
    ensures VersionLt(a, c)
    decreases |a|
  {
    if |a| > 0 && a[0] == b[0] && b[0] == c[0] {
      VersionLtTransitive(a[1..], b[1..], c[1..]);
    }
  }

  lemma {:induction false} VersionLtTotal(a: string, b: string)
    ensures a == b || VersionLt(a, b) || VersionLt(b, a)
    decreases |a|
  {
    if |a| > 0 && |b| > 0 && a[0] == b[0] {
      VersionLtTotal(a[1..], b[1..]);
      if a[1..] == b[1..] {
        assert a == [a[0]] + a[1..] && b == [b[0]] + b[1..];
      }
    }
  }

  /** v is the highest version of vs. */
  ghost predicate IsLatest(v: string, vs: set<string>) {
    v in vs && forall w :: w in vs ==> w == v || VersionLt(w, v)
  }

  /** Every non-empty set of versions has a highest one. */
  lemma {:induction false} LatestExists(vs: set<string>)
    requires vs != {}
    ensures exists v :: IsLatest(v, vs)
    decreases |vs|
  {
    var x :| x in vs;
    var rest := vs - {x};
    if rest == {} {
      assert vs == {x};
      assert IsLatest(x, vs);
    } else {
      LatestExists(rest);
      var m :| IsLatest(m, rest);
      VersionLtTotal(x, m);
      if VersionLt(x, m) {
        assert IsLatest(m, vs);
      } else {
        forall w | w in vs
          ensures w == x || VersionLt(w, x)
        {
          if w != x && w != m {
            VersionLtTransitive(w, m, x);
          }
        }
        assert IsLatest(x, vs);
      }
    }
  }

  /** A set of versions has at most one highest version. */
  lemma LatestUnique(v: string, w: string, vs: set<string>)
    requires IsLatest(v, vs) && IsLatest(w, vs)
    ensures v == w
  {
    if v != w {
      assert VersionLt(v, w) && VersionLt(w, v);
      VersionLtTransitive(v, w, v);
      VersionLtIrreflexive(v);
    }
  }

  /** The versions of an item the catalog still offers for deployment: registered and not disabled. */
  ghost function OfferedVersions(reg: Registry, symbolicName: string): set<string> {
    set id | id in reg && id.symbolicName == symbolicName && !reg[id].disabled :: id.version
  }

  ghost function Latest(vs: set<string>): (v: string)
    requires vs != {}
    ensures IsLatest(v, vs)
  {
    LatestExists(vs);
    var v :| IsLatest(v, vs); v
  }

  /**
   * The catalogItemId of a rebound entity. When the item it names is no longer in
   * the catalog and auto-fix is enabled, it is rewritten to the latest offered
   * version with the same symbolic name, if there is one; otherwise it is kept.
   */
  ghost function FixProvenance(reg: Registry, ref: ItemId, autoFix: bool): (r: ItemId)
    ensures r != ref ==> autoFix && ref !in reg
    ensures r != ref ==> r in reg && !reg[r].disabled && r.symbolicName == ref.symbolicName
    ensures r != ref ==> IsLatest(r.version, OfferedVersions(reg, ref.symbolicName))
    ensures autoFix && ref !in reg && OfferedVersions(reg, ref.symbolicName) != {} ==> r != ref
  {
    var vs := OfferedVersions(reg, ref.symbolicName);
    if autoFix && ref !in reg && vs != {} then
      var v := Latest(vs);
      var id :| id in reg && id.symbolicName == ref.symbolicName && !reg[id].disabled && id.version == v;
      assert id == ItemId(ref.symbolicName, v);
      id
    else ref
  }

  /** Fixing a reference a second time changes nothing. */
  lemma FixProvenanceIdempotent(reg: Registry, ref: ItemId, autoFix: bool)
    ensures FixProvenance(reg, FixProvenance(reg, ref, autoFix), autoFix) == FixProvenance(reg, ref, autoFix)
  {
  }

  /**
   * Whether the implementation type of an entity built from the given item can be
   * loaded. Outside OSGi the types are on the default classpath; under OSGi they
   * come from the bundle that the catalog item with that symbolic name brings.
   */
  ghost predicate ImplementationLoadable(reg: Registry, ref: ItemId, useOsgi: bool) {
    !useOsgi || exists id :: id in reg && id.symbolicName == ref.symbolicName
  }

  datatype RebindError = TypeNotLoadable(ref: ItemId)

  /** Rebinding an entity built from ref: its type must load; its catalog reference may be fixed. */
  ghost function Rebind(reg: Registry, ref: ItemId, autoFix: bool, useOsgi: bool): (r: Result<ItemId, RebindError>)
    ensures r.Ok? <==> ImplementationLoadable(reg, ref, useOsgi)
    ensures r.Ok? ==> r.value == FixProvenance(reg, ref, autoFix)
  {
    if ImplementationLoadable(reg, ref, useOsgi) then Ok(FixProvenance(reg, ref, autoFix))
    else Err(TypeNotLoadable(ref))
  }

  // ---------------------------------------------------------------------------
  // Deployment of a new app that names an item and a location from the catalog

  datatype DeployError = UnableToMatch(reference: string)

  /** An item can be deployed when it is registered and not disabled; deprecation does not matter. */
  predicate Deployable(reg: Registry, id: ItemId) {
    id in reg && !reg[id].disabled
  }

  /**
   * Deploying an app of item app in location loc: fails with "unable to match" the
   * first reference that cannot be deployed (the app first); on success the new
   * entity's catalogItemId is the app's versioned id.
   */
  function DeployApp(reg: Registry, app: ItemId, loc: ItemId): (r: Result<string, DeployError>)
    ensures r.Ok? <==> Deployable(reg, app) && Deployable(reg, loc)
    ensures r.Ok? ==> r.value == VersionedId(app)
    ensures r.Err? && !Deployable(reg, app) ==> r.error == UnableToMatch(VersionedId(app))
    ensures r.Err? && Deployable(reg, app) ==> r.error == UnableToMatch(VersionedId(loc))
  {
    if !Deployable(reg, app) then Err(UnableToMatch(VersionedId(app)))
    else if !Deployable(reg, loc) then Err(UnableToMatch(VersionedId(loc)))
    else Ok(VersionedId(app))
  }

  /** Deprecating an item leaves what can be deployed unchanged. */
  lemma DeprecationKeepsDeployable(reg: Registry, id: ItemId, target: ItemId, b: bool)
    requires id in reg
    ensures Deployable(ApplyOp(reg, SetDeprecated(id, b)).value, target) == Deployable(reg, target)
  {
  }

  // ---------------------------------------------------------------------------
  // The scenario of testRebindWithCatalogAndApp

  const APP_NAME: string := "my.catalog.app.id.load"
  const LOC_NAME: string := "my.catalog.loc.id.load"
  const APP_V1: ItemId := ItemId(APP_NAME, "0.1.0")
  const LOC_V1: ItemId := ItemId(LOC_NAME, "1.0.0")
  const APP_V2: ItemId := ItemId(APP_NAME, "0.2.0")
  const LOC_V2: ItemId := ItemId(LOC_NAME, "1.1.0")

  /** The (mode, useOsgi) rows the test runs; delete is not run under OSGi. */
  const DATA_PROVIDER: seq<(Mode, bool)> := [
    (NoOp, false), (NoOp, true),
    (StripDeprecationAndEnablementFromCatalogItem, false), (StripDeprecationAndEnablementFromCatalogItem, true),
    (DeprecateCatalog, false), (DeprecateCatalog, true),
    (DisableCatalog, false), (DisableCatalog, true),
    (DeleteCatalog, false),
    (ReplaceCatalogWithNewerVersion, false), (ReplaceCatalogWithNewerVersion, true)
  ]

  /** The data provider runs every mode without OSGi, and every mode but delete with OSGi. */
  lemma DataProviderRows(mode: Mode)
    ensures (mode, false) in DATA_PROVIDER
    ensures (mode, true) in DATA_PROVIDER <==> mode != DeleteCatalog
  {
    match mode {
      case NoOp => assert DATA_PROVIDER[0] == (mode, false) && DATA_PROVIDER[1] == (mode, true);
      case StripDeprecationAndEnablementFromCatalogItem => assert DATA_PROVIDER[2] == (mode, false) && DATA_PROVIDER[3] == (mode, true);
      case DeprecateCatalog => assert DATA_PROVIDER[4] == (mode, false) && DATA_PROVIDER[5] == (mode, true);
      case DisableCatalog => assert DATA_PROVIDER[6] == (mode, false) && DATA_PROVIDER[7] == (mode, true);
      case DeleteCatalog => assert DATA_PROVIDER[8] == (mode, false);
      case ReplaceCatalogWithNewerVersion => assert DATA_PROVIDER[9] == (mode, false) && DATA_PROVIDER[10] == (mode, true);
    }
  }

  /** What the scenario observes. */
  datatype Observed = Observed(
    original: Result<string, DeployError>,      // catalogItemId of the first app's entity
    rebound: Result<ItemId, RebindError>,        // catalog reference of the rebound entity
    appItem: Option<Flags>,                      // type-registry lookup of the app item
    locItem: Option<Flags>,                      // type-registry lookup of the location item
    redeploy: Result<string, DeployError>)       // deploying a second app after rebind

  function Lookup(reg: Registry, id: ItemId): (r: Option<Flags>)
    ensures r.Some? <==> id in reg
    ensures r.Some? ==> r.value == reg[id]
  {
    if id in reg then Some(reg[id]) else None
  }

  /** The versions the test refers to after the mode switch. */
  function CurrentItems(mode: Mode): (ItemId, ItemId) {
    if mode == ReplaceCatalogWithNewerVersion then (APP_V2, LOC_V2) else (APP_V1, LOC_V1)
  }

  /**
   * The whole scenario: add both items, deploy, change the catalog for the mode,
   * persist (stripping the flag fields in the strip mode), rebind, look the items
   * up, deploy again. The replace mode turns auto-fix on; otherwise it keeps its default.
   */
  ghost function RunScenario(mode: Mode, useOsgi: bool, defaultAutoFix: bool): (r: Observed)
    ensures r.original == Ok(VersionedId(APP_V1))
    ensures r.rebound.Ok? ==> r.rebound.value.symbolicName == APP_NAME
    ensures r.redeploy.Ok? ==> r.appItem.Some? && !r.appItem.value.disabled && r.locItem.Some? && !r.locItem.value.disabled
  {
    AddBoth();
    match ApplyOps(map[], [Add(APP_V1), Add(LOC_V1)])
    case Err(_) => Observed(Err(UnableToMatch(VersionedId(APP_V1))), Err(TypeNotLoadable(APP_V1)), None, None, Err(UnableToMatch(VersionedId(APP_V1))))
    case Ok(reg1) =>
      var original := DeployApp(reg1, APP_V1, LOC_V1);
      match ApplyOps(reg1, ModeOps(mode, APP_V1, LOC_V1, APP_V2, LOC_V2))
      case Err(_) => Observed(original, Err(TypeNotLoadable(APP_V1)), None, None, Err(UnableToMatch(VersionedId(APP_V1))))
      case Ok(reg2) =>
        var store := Persist(reg2);
        var store' := if mode == StripDeprecationAndEnablementFromCatalogItem then StripTransform(store, {APP_V1, LOC_V1}) else store;
        var reg3 := LoadAll(store');
        var autoFix := mode == ReplaceCatalogWithNewerVersion || defaultAutoFix;
        var (app, loc) := CurrentItems(mode);
        Observed(original, Rebind(reg3, APP_V1, autoFix, useOsgi), Lookup(reg3, app), Lookup(reg3, loc), DeployApp(reg3, app, loc))
  }

  /** The catalog right after both items are added. */
  const INITIAL: Registry := map[APP_V1 := Flags(false, false), LOC_V1 := Flags(false, false)]

  /** The catalog after each mode's changes, and so after rebind. */
  function AfterMode(mode: Mode): Registry {
    match mode
    case NoOp => INITIAL
    case StripDeprecationAndEnablementFromCatalogItem => INITIAL
    case DeprecateCatalog => map[APP_V1 := Flags(true, false), LOC_V1 := Flags(true, false)]
    case DisableCatalog => map[APP_V1 := Flags(false, true), LOC_V1 := Flags(false, true)]
    case DeleteCatalog => map[]
    case ReplaceCatalogWithNewerVersion => map[APP_V2 := Flags(false, false), LOC_V2 := Flags(false, false)]
  }

  /**
   * Whether the test expects a second app on the current items to deploy. The
   * deployable modes all expect the items to be registered; the others expect
   * them to be gone or disabled.
   */
  predicate ItemDeployable(mode: Mode): (r: bool)
    ensures r ==> forall item :: ItemAsExpected(mode, item) ==> item.Some?
    ensures !r ==> forall item :: ItemAsExpected(mode, item) ==> item.None? || item.value.disabled
  {
    !(mode == DisableCatalog || mode == DeleteCatalog)
  }

  /**
   * The test's expectation on a type-registry lookup of an item after rebind. Only
   * the delete mode expects the item to be gone.
   */
  predicate ItemAsExpected(mode: Mode, item: Option<Flags>): (r: bool)
    ensures r ==> (item.None? <==> mode == DeleteCatalog)
  {
    match mode
    case DisableCatalog => item.Some? && item.value.disabled
    case DeleteCatalog => item.None?
    case DeprecateCatalog => item.Some? && item.value.deprecated
    case _ => item.Some? && !item.value.deprecated && !item.value.disabled
  }

  lemma DistinctItems()
    ensures APP_V1 != LOC_V1 && APP_V2 != LOC_V2 && APP_V1 != APP_V2
  {
    assert APP_NAME[11] != LOC_NAME[11];
    assert APP_V1.version[2] != APP_V2.version[2];
  }

  lemma AddBoth()
    ensures ApplyOps(map[], [Add(APP_V1), Add(LOC_V1)]) == Ok(INITIAL)
  {
    DistinctItems();
    TailsOfTwo(map[], [Add(APP_V1), Add(LOC_V1)]);
  }

  lemma ModeChanges(mode: Mode)
    ensures ApplyOps(INITIAL, ModeOps(mode, APP_V1, LOC_V1, APP_V2, LOC_V2)) == Ok(AfterMode(mode))
  {
    DistinctItems();
    var ops := ModeOps(mode, APP_V1, LOC_V1, APP_V2, LOC_V2);
    match mode {
      case NoOp =>
      case DeprecateCatalog =>
        TailsOfTwo(INITIAL, ops);
        assert INITIAL[APP_V1 := Flags(true, false)][LOC_V1 := Flags(true, false)] == AfterMode(mode);
      case DisableCatalog =>
        TailsOfTwo(INITIAL, ops);
        assert INITIAL[APP_V1 := Flags(false, true)][LOC_V1 := Flags(false, true)] == AfterMode(mode);
      case DeleteCatalog => TailsOfTwo(INITIAL, ops);
      case ReplaceCatalogWithNewerVersion => TailsOfFour(INITIAL, ops);
      case StripDeprecationAndEnablementFromCatalogItem =>
        TailsOfFour(INITIAL, ops);
        assert INITIAL[APP_V1 := Flags(false, false)] == INITIAL;
        assert INITIAL[LOC_V1 := Flags(false, false)] == INITIAL;
    }
  }

  /** Stripping items whose flags are already cleared reloads the catalog unchanged. */
  lemma StripCleared(reg: Registry, ids: set<ItemId>)
    requires forall id :: id in reg && id in ids ==> reg[id] == Flags(false, false)
    ensures LoadAll(StripTransform(Persist(reg), ids)) == reg
  {
    StrippedReload(reg, ids);
  }

  /** The catalog the rebind reads back is the one the mode left, in every mode. */
  lemma Reloaded(mode: Mode)
    ensures var store := Persist(AfterMode(mode));
      LoadAll(if mode == StripDeprecationAndEnablementFromCatalogItem then StripTransform(store, {APP_V1, LOC_V1}) else store)
        == AfterMode(mode)
  {
    if mode == StripDeprecationAndEnablementFromCatalogItem {
      StripCleared(INITIAL, {APP_V1, LOC_V1});
    } else {
      PersistRoundTrip(AfterMode(mode));
    }
  }

  /** The scenario, with the catalog steps worked out. */
  lemma ScenarioUnfolded(mode: Mode, useOsgi: bool, defaultAutoFix: bool)
    ensures var reg := AfterMode(mode);
      var (app, loc) := CurrentItems(mode);
      RunScenario(mode, useOsgi, defaultAutoFix)
        == Observed(Ok(VersionedId(APP_V1)),
                    Rebind(reg, APP_V1, mode == ReplaceCatalogWithNewerVersion || defaultAutoFix, useOsgi),
                    Lookup(reg, app), Lookup(reg, loc), DeployApp(reg, app, loc))
  {
    DistinctItems();
    AddBoth();
    ModeChanges(mode);
    Reloaded(mode);
  }

  /** After the replacement, 0.2.0 is the only offered version of the app. */
  lemma ReplacedOffers()
    ensures OfferedVersions(AfterMode(ReplaceCatalogWithNewerVersion), APP_NAME) == {"0.2.0"}
  {
    var reg := AfterMode(ReplaceCatalogWithNewerVersion);
    assert LOC_V2.symbolicName != APP_NAME by { assert APP_NAME[11] != LOC_NAME[11]; }
    assert APP_V2 in reg;
  }

  /** The rebound entity's catalog reference in each mode. */
  lemma ReboundReference(mode: Mode, autoFix: bool)
    requires mode == ReplaceCatalogWithNewerVersion ==> autoFix
    ensures FixProvenance(AfterMode(mode), APP_V1, autoFix) == CurrentItems(mode).0
  {
    DistinctItems();
    var reg := AfterMode(mode);
    if mode == ReplaceCatalogWithNewerVersion {
      ReplacedOffers();
      var r := FixProvenance(reg, APP_V1, autoFix);
      assert r.version == "0.2.0";
    } else if mode == DeleteCatalog {
      assert OfferedVersions(reg, APP_NAME) == {};
    }
  }

  /**
   * testRebindWithCatalogAndApp for every row of its data provider and either
   * default of the auto-fix feature: the first app's entity refers to
   * name:0.1.0; the entity rebinds and refers to name:version for the version
   * current after the mode; the items look up as the mode expects; and a new app
   * deploys exactly in the deployable modes, otherwise failing to match the app.
   */
  lemma TestRebindWithCatalogAndApp(mode: Mode, useOsgi: bool, defaultAutoFix: bool)
    requires (mode, useOsgi) in DATA_PROVIDER
    ensures var o := RunScenario(mode, useOsgi, defaultAutoFix);
      var (app, loc) := CurrentItems(mode);
      && o.original == Ok(APP_NAME + ":" + "0.1.0")
      && o.rebound.Ok? && VersionedId(o.rebound.value) == APP_NAME + ":" + app.version
      && ItemAsExpected(mode, o.appItem) && ItemAsExpected(mode, o.locItem)
      && (o.redeploy.Ok? <==> ItemDeployable(mode))
      && (o.redeploy.Ok? ==> o.redeploy.value == APP_NAME + ":" + app.version)
      && (o.redeploy.Err? ==> o.redeploy.error.reference[..|APP_NAME|] == APP_NAME)
  {
    DataProviderRows(mode);
    ScenarioUnfolded(mode, useOsgi, defaultAutoFix);
    RebindAsExpected(mode, useOsgi, mode == ReplaceCatalogWithNewerVersion || defaultAutoFix);
    LookupsAsExpected(mode);
    RedeployAsExpected(mode);
  }

  /** The entity rebinds in every mode the data provider runs, referring to the current app item. */
  lemma RebindAsExpected(mode: Mode, useOsgi: bool, autoFix: bool)
    requires useOsgi ==> mode != DeleteCatalog
    requires mode == ReplaceCatalogWithNewerVersion ==> autoFix
    ensures Rebind(AfterMode(mode), APP_V1, autoFix, useOsgi) == Ok(CurrentItems(mode).0)
  {
    ReboundReference(mode, autoFix);
    assert ImplementationLoadable(AfterMode(mode), APP_V1, useOsgi) by {
      if useOsgi {
        assert CurrentItems(mode).0 in AfterMode(mode);
      }
    }
  }

  /** The lookups after rebind meet the test's per-mode expectations. */
  lemma LookupsAsExpected(mode: Mode)
    ensures ItemAsExpected(mode, Lookup(AfterMode(mode), CurrentItems(mode).0))
    ensures ItemAsExpected(mode, Lookup(AfterMode(mode), CurrentItems(mode).1))
  {
    DistinctItems();
  }

  /** A second app deploys exactly in the deployable modes; otherwise it fails to match the app. */
  lemma RedeployAsExpected(mode: Mode)
    ensures var (app, loc) := CurrentItems(mode);
      var d := DeployApp(AfterMode(mode), app, loc);
      && (d.Ok? <==> ItemDeployable(mode))
      && (d.Ok? ==> d.value == VersionedId(app))
      && (d.Err? ==> d.error == UnableToMatch(VersionedId(app)))
  {
    DistinctItems();
  }

  /**
   * Why delete is not run under OSGi. Under the OSGi loadability assumption of
   * ImplementationLoadable (the bundle comes with the item), deleting the items
   * leaves the entity's type unloadable, so it cannot rebind. This shows that the
   * assumption accounts for the missing data-provider row; it proves nothing about
   * the engine itself.
   */
  lemma DeleteUnderOsgiCannotRebind(defaultAutoFix: bool)
    ensures RunScenario(DeleteCatalog, true, defaultAutoFix).rebound.Err?
  {
    ScenarioUnfolded(DeleteCatalog, true, defaultAutoFix);
  }
}
