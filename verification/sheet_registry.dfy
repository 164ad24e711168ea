/** The registry of sprite sheets loaded during one prefab load
    (`SpriteSheetLoadedSet`), and the references that name its entries
    (`SpriteSheetReference`). */
module SheetRegistry {
  import opened Results

  /** An opaque shared handle to a loaded sprite sheet (`SpriteSheetHandle`). */
  type SheetHandle = nat

  /** One registry entry: the sheet's optional name and its handle. */
  datatype SheetEntry = SheetEntry(name: Option<string>, handle: SheetHandle)

  /** The append-only registry; entries are numbered in insertion order. */
  type Registry = seq<SheetEntry>

  /** A reference to a registry entry, by position or by name. */
  datatype SheetReference = Index(index: nat) | Name(name: string)

  /** `k` is the first position of `reg` whose entry carries the name `name`. */
  predicate IsFirstNamed(reg: Registry, name: string, k: int) {
    && 0 <= k < |reg|
    && reg[k].name == Some(name)
    && forall j :: 0 <= j < k ==> reg[j].name != Some(name)
  }

  /** The first position at or after `from` whose entry is named `name`
      (the linear scan of `Iterator::find`). */
  function FindName(reg: Registry, name: string, from: nat): (r: Option<nat>)
    requires from <= |reg|
    ensures r.Some? ==> from <= r.value < |reg| && reg[r.value].name == Some(name)
    ensures r.Some? ==> forall j :: from <= j < r.value ==> reg[j].name != Some(name)
    ensures r.None? ==> forall j :: from <= j < |reg| ==> reg[j].name != Some(name)
    decreases |reg| - from
  {
    if from == |reg| then None
    else if reg[from].name == Some(name) then Some(from)
    else FindName(reg, name, from + 1)
  }

  /** `SpriteSheetLoadedSet::get`: the handle a reference names, if any. */
  function Get(reg: Registry, ref: SheetReference): (r: Option<SheetHandle>)
    ensures ref.Index? ==> (r.Some? <==> ref.index < |reg|)
    ensures ref.Index? && ref.index < |reg| ==> r == Some(reg[ref.index].handle)
    ensures ref.Name? ==> (r.Some? <==> exists k :: 0 <= k < |reg| && reg[k].name == Some(ref.name))
    ensures ref.Name? && r.Some? ==>
              exists k :: IsFirstNamed(reg, ref.name, k) && r.value == reg[k].handle
  {
    match ref
    case Index(i) => if i < |reg| then Some(reg[i].handle) else None
    case Name(n) =>
      match FindName(reg, n, 0)
      case None => None
      case Some(k) => Some(reg[k].handle)
  }

  /** There is at most one first position with a given name. */
  lemma FirstNamedUnique(reg: Registry, name: string, k1: int, k2: int)
    requires IsFirstNamed(reg, name, k1) && IsFirstNamed(reg, name, k2)
    ensures k1 == k2
  {
  }

  /** Appending to the registry never changes what an already resolvable
      reference resolves to: the set only grows, and a name keeps its first
      match. */
  lemma GetStableUnderAppend(reg: Registry, e: SheetEntry, ref: SheetReference)
    requires Get(reg, ref).Some?
    ensures Get(reg + [e], ref) == Get(reg, ref)
  {
    var grown := reg + [e];
    if ref.Name? {
      var k :| IsFirstNamed(reg, ref.name, k) && Get(reg, ref).value == reg[k].handle;
      assert IsFirstNamed(grown, ref.name, k) by {
        assert forall j :: 0 <= j <= k ==> grown[j] == reg[j];
      }
      assert grown[k].name == Some(ref.name);
      var k' :| IsFirstNamed(grown, ref.name, k') && Get(grown, ref).value == grown[k'].handle;
      FirstNamedUnique(grown, ref.name, k, k');
    }
  }

  /** The entry just appended is reachable by its position. */
  lemma GetAppendedByIndex(reg: Registry, e: SheetEntry)
    ensures Get(reg + [e], Index(|reg|)) == Some(e.handle)
  {
  }

  /** The entry just appended is reachable by its name exactly when no
      earlier entry carries that name. */
  lemma GetAppendedByName(reg: Registry, e: SheetEntry, name: string)
    requires e.name == Some(name)
    ensures (forall j :: 0 <= j < |reg| ==> reg[j].name != Some(name))
              <==> Get(reg + [e], Name(name)) == Some(e.handle) && Get(reg, Name(name)).None?
  {
    var grown := reg + [e];
    if forall j :: 0 <= j < |reg| ==> reg[j].name != Some(name) {
      assert IsFirstNamed(grown, name, |reg|);
      assert grown[|reg|].name == Some(name);
      var k :| IsFirstNamed(grown, name, k) && Get(grown, Name(name)).value == grown[k].handle;
      FirstNamedUnique(grown, name, k, |reg|);
    }
  }
}
