/**
  One named, typed value slot of an entity: the current value, the value as of
  the last clean, the type's unset and empty values, per-property options, and
  the optional parent entity that is told about every change through save().
*/
module EntityProperty {
  import opened PhpValue

  /** The identity of the entity that owns a property. */
  type EntityId = nat

  /** The array export() returns and import() accepts, keyed by field name. */
  type Snapshot = map<string, Value>

  /**
    The parts of a type descriptor a property uses. `exportValue` normalises a raw
    value for storage and `exportElement` does the same for one element of a
    container type (the inner type's export); `None` is a coercion failure.
    `unset` and `empty` are the type's two sentinels.
  */
  datatype Codec = Codec(
    exportValue: Value -> Option<Value>,
    exportElement: Value -> Option<Value>,
    unset: Value,
    empty: Value)

  /** The type manager resolves a type alias, configured by the property's options. */
  type TypeManager = (Value, seq<Entry>) -> Codec

  /**
    One `saveProperty($this)` call received by a parent, with the property's
    state at that moment (what the parent reads back through export()).
  */
  datatype SaveCall = SaveCall(parent: EntityId, state: PropertyData)

  datatype PropertyError =
    | CoercionFailed   // the type rejected the raw value
    | IndexInvalid     // indexed access where the index is not set
    | OptionsNotArray  // setOptions() was given something other than an array
    | MissingType      // import() without a non-empty type
    | MissingName      // import() without a non-empty name

  /** Everything export() serialises. `alias` is the type alias (`type`). */
  datatype PropertyData = PropertyData(
    name: Value,
    options: seq<Entry>,
    current: Value,
    persisted: Value,
    empty: Value,
    unset: Value,
    alias: Value)

  const SnapshotKeys: set<string> :=
    {"name", "options", "currentValue", "persistedValue", "emptyValue", "unsetValue", "type"}

  /** export(): seven fields; the parent link is never part of it. */
  function SnapshotOf(d: PropertyData): (s: Snapshot)
    ensures s.Keys == SnapshotKeys && "parent" !in s
  {
    map["name" := d.name, "options" := Arr(d.options), "currentValue" := d.current,
        "persistedValue" := d.persisted, "emptyValue" := d.empty,
        "unsetValue" := d.unset, "type" := d.alias]
  }

  /** `$arr[$key]`, null when the key is missing. */
  function Field(arr: Snapshot, key: string): Value {
    if key in arr then arr[key] else Null
  }

  /** The options import() installs: none for an empty entry, else the array copied pair by pair. */
  function ImportedOptions(opts: Value): seq<Entry> {
    if Falsy(opts) then [] else AssignAll([], EntriesOf(opts))
  }

  /**
    The fields import() leaves behind when it succeeds, or the error it raises:
    options must be empty or an array, type and name must be non-empty.
  */
  function Restore(manager: TypeManager, arr: Snapshot): (r: Result<PropertyData, PropertyError>)
    ensures r.Ok? <==>
      && (Falsy(Field(arr, "options")) || Field(arr, "options").Arr?)
      && !Falsy(Field(arr, "type"))
      && !Falsy(Field(arr, "name"))
    ensures r.Err? ==> r.error in {OptionsNotArray, MissingType, MissingName}
  {
    var opts := Field(arr, "options");
    if !Falsy(opts) && !opts.Arr? then Err(OptionsNotArray)
    else if Falsy(Field(arr, "type")) then Err(MissingType)
    else if Falsy(Field(arr, "name")) then Err(MissingName)
    else
      var options := ImportedOptions(opts);
      var codec := manager(arr["type"], options);
      var unset := if "unsetValue" in arr then arr["unsetValue"] else codec.unset;
      var empty := if "emptyValue" in arr then arr["emptyValue"] else codec.empty;
      var current := if "currentValue" in arr then arr["currentValue"] else unset;
      var persisted := if "persistedValue" in arr then arr["persistedValue"] else current;
      Ok(PropertyData(arr["name"], options, current, persisted, empty, unset, arr["type"]))
  }

  /**
    A successful import() takes every field the snapshot has; a missing sentinel
    comes from the type, a missing current value is the unset value and a
    missing persisted value is the current value.
  */
  lemma RestoreFields(manager: TypeManager, arr: Snapshot)
    requires Restore(manager, arr).Ok?
    ensures var d := Restore(manager, arr).value;
      && d.name == arr["name"] && d.alias == arr["type"]
      && d.options == ImportedOptions(Field(arr, "options"))
      && d.unset == (if "unsetValue" in arr then arr["unsetValue"] else manager(d.alias, d.options).unset)
      && d.empty == (if "emptyValue" in arr then arr["emptyValue"] else manager(d.alias, d.options).empty)
      && d.current == (if "currentValue" in arr then arr["currentValue"] else d.unset)
      && d.persisted == (if "persistedValue" in arr then arr["persistedValue"] else d.current)
  {
  }

  /** An options entry that is an array comes back pair for pair. */
  lemma ImportedOptionsRebuild(options: seq<Entry>)
    requires UniqueKeys(options)
    ensures ImportedOptions(Arr(options)) == options
  {
    if options != [] {
      AssignAllRebuilds(options);
    }
  }

  /** import(export()) reconstructs every exported field, for a named, typed property. */
  lemma ExportThenImport(manager: TypeManager, d: PropertyData)
    requires !Falsy(d.alias) && !Falsy(d.name) && UniqueKeys(d.options)
    ensures Restore(manager, SnapshotOf(d)) == Ok(d)
  {
    var s := SnapshotOf(d);
    assert Field(s, "options") == Arr(d.options) && Field(s, "type") == d.alias && Field(s, "name") == d.name;
    ImportedOptionsRebuild(d.options);
    RestoreFields(manager, s);
  }

  /** export() after a successful import() of a complete snapshot gives back that snapshot. */
  lemma ImportThenExport(manager: TypeManager, arr: Snapshot)
    requires arr.Keys == SnapshotKeys
    requires !Falsy(arr["type"]) && !Falsy(arr["name"])
    requires arr["options"].Arr? && UniqueKeys(arr["options"].entries)
    ensures Restore(manager, arr).Ok? && SnapshotOf(Restore(manager, arr).value) == arr
  {
    ImportedOptionsRebuild(arr["options"].entries);
    RestoreFields(manager, arr);
    var s := SnapshotOf(Restore(manager, arr).value);
    forall k | k in SnapshotKeys ensures s[k] == arr[k] {
    }
  }

  /** A snapshot without a persisted value imports as a clean property. */
  lemma ImportWithoutPersistedIsClean(manager: TypeManager, arr: Snapshot)
    requires "persistedValue" !in arr && Restore(manager, arr).Ok?
    ensures Restore(manager, arr).value.current == Restore(manager, arr).value.persisted
  {
    RestoreFields(manager, arr);
  }

  /** setDirtyAtIndex()'s persisted value: an array whose slot `index` holds the dirty marker. */
  function DirtyAt(persisted: Value, index: Key): (p: Value)
    ensures p.Arr? && Lookup(p.entries, index) == Some(Dirty)
    ensures forall k :: k != index ==> Lookup(p.entries, k) == Lookup(EntriesOf(persisted), k)
  {
    Arr(Assign(EntriesOf(persisted), index, Dirty))
  }

  /**
    cleanAtIndex()'s persisted value: slot `index` copied from the current value,
    or dropped when the current value no longer has it; other slots untouched.
  */
  function CleanedAt(current: Value, persisted: Value, index: Key): (p: Value)
    ensures p.Arr?
    ensures IsSet(current, index) ==> Lookup(p.entries, index) == Lookup(current.entries, index)
    ensures !IsSet(current, index) ==> !HasKey(p.entries, index)
    ensures forall k :: k != index ==> Lookup(p.entries, k) == Lookup(EntriesOf(persisted), k)
  {
    if IsSet(current, index) then Arr(Assign(EntriesOf(persisted), index, Lookup(current.entries, index).value))
    else Arr(Remove(EntriesOf(persisted), index))
  }

  /** setValueAtIndex()'s current value: slot `index` replaced in place, the rest untouched. */
  function ReplacedAt(current: Value, index: Key, x: Value): (v: Value)
    requires IsSet(current, index)
    ensures v.Arr? && |v.entries| == |current.entries|
    ensures forall i :: 0 <= i < |v.entries| ==> v.entries[i].key == current.entries[i].key
    ensures Lookup(v.entries, index) == Some(x)
    ensures forall k :: k != index ==> Lookup(v.entries, k) == Lookup(current.entries, k)
  {
    Arr(Assign(current.entries, index, x))
  }

  /** What one save() sends: the state to the parent, if there is one. */
  function NoticeOf(p: Option<EntityId>, d: PropertyData): seq<SaveCall> {
    if p.Some? then [SaveCall(p.value, d)] else []
  }

  /** The saves setOptions() makes while it assigns `updates` one by one to the options of `d`. */
  function OptionTrail(p: Option<EntityId>, d: PropertyData, updates: seq<Entry>): seq<SaveCall>
  {
    if updates == [] then []
    else
      OptionTrail(p, d, updates[..|updates| - 1])
        + NoticeOf(p, d.(options := AssignAll(d.options, updates)))
  }

  /** Without a parent, setOptions() reaches nobody. */
  lemma {:induction false} OptionTrailSilent(d: PropertyData, updates: seq<Entry>)
    ensures OptionTrail(None, d, updates) == []
  {
    if updates != [] {
      OptionTrailSilent(d, updates[..|updates| - 1]);
    }
  }

  /** One more assignment extends both the options and the trail of saves by one step. */
  lemma OptionStep(p: Option<EntityId>, d: PropertyData, updates: seq<Entry>, i: nat)
    requires i < |updates|
    ensures AssignAll(d.options, updates[..i + 1])
         == Assign(AssignAll(d.options, updates[..i]), updates[i].key, updates[i].val)
    ensures OptionTrail(p, d, updates[..i + 1])
         == OptionTrail(p, d, updates[..i]) + NoticeOf(p, d.(options := AssignAll(d.options, updates[..i + 1])))
  {
    assert updates[..i + 1][..i] == updates[..i];
  }

  lemma SavesAssoc(a: seq<SaveCall>, b: seq<SaveCall>, c: seq<SaveCall>)
    ensures a + b + c == a + (b + c)
  {
  }

  class Property {
    const manager: TypeManager
    var alias: Value
    var currentValue: Value
    var persistedValue: Value
    var unsetValue: Value
    var emptyValue: Value
    var options: seq<Entry>
    var parent: Option<EntityId>
    var name: Value
    /** The `saveProperty` calls this property has made on its parents, in order. */
    var saves: seq<SaveCall>

    /** A fresh property: every field null, no options, no parent. */
    constructor (manager: TypeManager)
      ensures this.manager == manager
      ensures alias == Null && name == Null
      ensures currentValue == Null && persistedValue == Null && unsetValue == Null && emptyValue == Null
      ensures options == [] && parent == None && saves == []
    {
      this.manager := manager;
      alias, name := Null, Null;
      currentValue, persistedValue, unsetValue, emptyValue := Null, Null, Null, Null;
      options, parent, saves := [], None, [];
    }

    function Data(): PropertyData
      reads this
    {
      PropertyData(name, options, currentValue, persistedValue, emptyValue, unsetValue, alias)
    }

    function Export(): Snapshot
      reads this
    {
      SnapshotOf(Data())
    }

    /** getType(): the descriptor for the alias, configured by the options. */
    function GetType(): Codec
      reads this
    {
      manager(alias, options)
    }

    /** isUnset(): read off the snapshot, the current value is the unset value. */
    predicate IsUnset()
      reads this
      ensures IsUnset() <==> Export()["currentValue"] == Export()["unsetValue"]
    {
      currentValue == unsetValue
    }

    /** isEmpty(): read off the snapshot, the current value is the empty value. */
    predicate IsEmpty()
      reads this
      ensures IsEmpty() <==> Export()["currentValue"] == Export()["emptyValue"]
    {
      currentValue == emptyValue
    }

    /** isDirty(): read off the snapshot, the current value is not the persisted one. */
    predicate IsDirty()
      reads this
      ensures IsDirty() <==> Export()["currentValue"] != Export()["persistedValue"]
    {
      currentValue != persistedValue
    }

    /** getExport(): the stored current value, exactly as export() lists it. */
    function GetExport(): (v: Value)
      reads this
      ensures v == Export()["currentValue"]
    {
      currentValue
    }

    /** getOption(): the stored option, or null when there is none. */
    function GetOption(key: Key): (v: Value)
      reads this
      ensures HasKey(options, key) ==> Lookup(options, key) == Some(v)
      ensures !HasKey(options, key) ==> v == Null
    {
      ValueOrNull(options, key)
    }

    /** getValueAtIndex(): the slot of the current value, if it is set. */
    function GetValueAtIndex(index: Key): (r: Result<Value, PropertyError>)
      reads this
      ensures r.Ok? <==> IsSet(currentValue, index)
      ensures r.Ok? ==> Entry(index, r.value) in currentValue.entries && r.value != Null
      ensures r.Err? ==> r.error == IndexInvalid
    {
      if IsSet(currentValue, index) then Ok(Lookup(currentValue.entries, index).value)
      else Err(IndexInvalid)
    }

    /** What save() sends: the current export to the parent, if there is one. */
    function Notice(): seq<SaveCall>
      reads this
    {
      NoticeOf(parent, Data())
    }

    method SetParent(p: Option<EntityId>)
      modifies this`parent
      ensures parent == p
    {
      parent := p;
    }

    /** save(): the parent, and only the parent, hears about the current state. */
    method Save()
      modifies this`saves
      ensures saves == old(saves) + Notice()
      ensures parent.None? <==> saves == old(saves)
    {
      if parent.Some? {
        saves := saves + [SaveCall(parent.value, Data())];
      }
    }

    /** setValue(): the exported form of `value` becomes the current value. */
    method SetValue(value: Value) returns (r: Outcome<PropertyError>)
      modifies this`currentValue, this`saves
      ensures GetType().exportValue(value).None? ==>
        r == Fail(CoercionFailed) && currentValue == old(currentValue) && saves == old(saves)
      ensures GetType().exportValue(value).Some? ==>
        && r == Pass
        && currentValue == GetType().exportValue(value).value
        && saves == old(saves) + Notice()
    {
      var exported := GetType().exportValue(value);
      if exported.None? {
        return Fail(CoercionFailed);
      }
      currentValue := exported.value;
      Save();
      r := Pass;
    }

    /** setValueAtIndex(): one set slot of the current value is replaced, nothing else. */
    method SetValueAtIndex(index: Key, value: Value) returns (r: Outcome<PropertyError>)
      modifies this`currentValue, this`saves
      ensures !IsSet(old(currentValue), index) ==>
        r == Fail(IndexInvalid) && currentValue == old(currentValue) && saves == old(saves)
      ensures IsSet(old(currentValue), index) && GetType().exportElement(value).None? ==>
        r == Fail(CoercionFailed) && currentValue == old(currentValue) && saves == old(saves)
      ensures IsSet(old(currentValue), index) && GetType().exportElement(value).Some? ==>
        && r == Pass
        && currentValue == ReplacedAt(old(currentValue), index, GetType().exportElement(value).value)
        && saves == old(saves) + Notice()
    {
      if !IsSet(currentValue, index) {
        return Fail(IndexInvalid);
      }
      var exported := GetType().exportElement(value);
      if exported.None? {
        return Fail(CoercionFailed);
      }
      currentValue := ReplacedAt(currentValue, index, exported.value);
      Save();
      r := Pass;
    }

    /** clear(): back to the unset value. */
    method Clear()
      modifies this`currentValue, this`saves
      ensures currentValue == unsetValue && IsUnset()
      ensures IsDirty() <==> unsetValue != persistedValue
      ensures saves == old(saves) + Notice()
    {
      currentValue := unsetValue;
      Save();
    }

    /** setEmpty(): the empty value becomes the current value. */
    method SetEmpty()
      modifies this`currentValue, this`saves
      ensures currentValue == emptyValue && IsEmpty()
      ensures IsDirty() <==> emptyValue != persistedValue
      ensures saves == old(saves) + Notice()
    {
      currentValue := emptyValue;
      Save();
    }

    /** setDirtyAtIndex(): slot `index` of the persisted value becomes the dirty marker. */
    method SetDirtyAtIndex(index: Key)
      modifies this`persistedValue, this`saves
      ensures persistedValue == DirtyAt(old(persistedValue), index)
      ensures Lookup(EntriesOf(currentValue), index) != Some(Dirty) ==> IsDirty()
      ensures saves == old(saves) + Notice()
    {
      persistedValue := DirtyAt(persistedValue, index);
      Save();
    }

    /** setDirty(): the persisted value becomes the dirty marker. */
    method SetDirty()
      modifies this`persistedValue, this`saves
      ensures persistedValue == Dirty
      ensures IsDirty() <==> currentValue != Dirty
      ensures saves == old(saves) + Notice()
    {
      persistedValue := Dirty;
      Save();
    }

    /** cleanAtIndex(): only a slot still present in the current value is saved. */
    method CleanAtIndex(index: Key)
      modifies this`persistedValue, this`saves
      ensures persistedValue == CleanedAt(currentValue, old(persistedValue), index)
      ensures saves == old(saves) + (if IsSet(currentValue, index) then Notice() else [])
    {
      var cleaned := CleanedAt(currentValue, persistedValue, index);
      persistedValue := cleaned;
      if !IsSet(currentValue, index) {
        return;
      }
      Save();
    }

    /** clean(): the current value is now the persisted one. */
    method Clean()
      modifies this`persistedValue, this`saves
      ensures persistedValue == currentValue && !IsDirty()
      ensures saves == old(saves) + Notice()
    {
      persistedValue := currentValue;
      Save();
    }

    /** setOption(): one option assigned, then saved. */
    method SetOption(key: Key, value: Value)
      modifies this`options, this`saves
      ensures options == Assign(old(options), key, value)
      ensures saves == old(saves) + Notice()
    {
      options := Assign(options, key, value);
      Save();
    }

    /** setOptions(): every pair assigned in order, each assignment saved, then one more save. */
    method SetOptions(opts: Value) returns (r: Outcome<PropertyError>)
      modifies this`options, this`saves
      ensures !opts.Arr? ==> r == Fail(OptionsNotArray) && options == old(options) && saves == old(saves)
      ensures opts.Arr? ==> r == Pass && options == AssignAll(old(options), opts.entries)
      ensures opts.Arr? ==> saves == old(saves) + OptionTrail(parent, old(Data()), opts.entries) + Notice()
    {
      if !opts.Arr? {
        return Fail(OptionsNotArray);
      }
      var updates := opts.entries;
      ghost var start := Data();
      var i := 0;
      while i < |updates|
        invariant 0 <= i <= |updates|
        invariant options == AssignAll(start.options, updates[..i])
        invariant Data() == start.(options := options)
        invariant saves == old(saves) + OptionTrail(parent, start, updates[..i])
      {
        ghost var before := saves;
        OptionStep(parent, start, updates, i);
        SetOption(updates[i].key, updates[i].val);
        ghost var notice := NoticeOf(parent, start.(options := options));
        assert saves == before + notice;
        SavesAssoc(old(saves), OptionTrail(parent, start, updates[..i]), notice);
        i := i + 1;
      }
      assert updates[..i] == updates;
      Save();
      r := Pass;
    }

    /**
      The first step of import() on a detached property: the options are
      emptied, then a non-empty `opts` is installed through setOptions().
    */
    method ResetOptions(opts: Value) returns (installed: bool)
      requires parent == None
      modifies this`options, this`saves
      ensures saves == old(saves)
      ensures installed <==> Falsy(opts) || opts.Arr?
      ensures options == (if installed then ImportedOptions(opts) else [])
    {
      options := [];
      installed := true;
      if !Falsy(opts) {
        ghost var start := Data();
        var r := SetOptions(opts);
        OptionTrailSilent(start, EntriesOf(opts));
        installed := r.Pass?;
      }
    }

    /**
      The last step of import(): the sentinels come from the snapshot or the
      type, the current value defaults to unset and the persisted value to current.
    */
    method RestoreValues(arr: Snapshot)
      modifies this`unsetValue, this`emptyValue, this`currentValue, this`persistedValue
      ensures unsetValue == if "unsetValue" in arr then arr["unsetValue"] else GetType().unset
      ensures emptyValue == if "emptyValue" in arr then arr["emptyValue"] else GetType().empty
      ensures currentValue == if "currentValue" in arr then arr["currentValue"] else unsetValue
      ensures persistedValue == if "persistedValue" in arr then arr["persistedValue"] else currentValue
    {
      unsetValue := if "unsetValue" in arr then arr["unsetValue"] else GetType().unset;
      emptyValue := if "emptyValue" in arr then arr["emptyValue"] else GetType().empty;
      currentValue := if "currentValue" in arr then arr["currentValue"] else unsetValue;
      persistedValue := if "persistedValue" in arr then arr["persistedValue"] else currentValue;
    }

    /**
      import(): rebuilds the fields from a snapshot with the parent detached, so
      no save reaches it; the parent is re-attached only when the import succeeds.
    */
    method Import(arr: Snapshot) returns (r: Outcome<PropertyError>)
      modifies this
      ensures saves == old(saves)
      ensures r.Pass? <==> Restore(manager, arr).Ok?
      ensures r.Pass? ==> Data() == Restore(manager, arr).value && parent == old(parent)
      ensures r.Fail? ==>
        && r.error == Restore(manager, arr).error
        && parent == None
        && name == old(name)
        && currentValue == old(currentValue) && persistedValue == old(persistedValue)
        && unsetValue == old(unsetValue) && emptyValue == old(emptyValue)
        && options == (if r.error == OptionsNotArray then [] else ImportedOptions(Field(arr, "options")))
        && alias == (if r.error == MissingName then Field(arr, "type") else old(alias))
    {
      var attached := parent;
      parent := None;

      var opts := Field(arr, "options");
      var installed := ResetOptions(opts);
      if !installed {
        return Fail(OptionsNotArray);
      }

      var t := Field(arr, "type");
      if Falsy(t) {
        return Fail(MissingType);
      }
      alias := t;

      var n := Field(arr, "name");
      if Falsy(n) {
        return Fail(MissingName);
      }
      name := n;

      RestoreValues(arr);
      parent := attached;
      RestoreFields(manager, arr);
      r := Pass;
    }
  }

  /**
    A client of the contracts above: once a different value has been set after a
    clean, the property is dirty (`dirtyBetween`); one more clean makes it
    clean again.
  */
  method DirtyCleanDuality(p: Property, a: Value, b: Value) returns (dirtyBetween: bool)
    requires p.GetType().exportValue(a).Some? && p.GetType().exportValue(b).Some?
    requires p.GetType().exportValue(a).value != p.GetType().exportValue(b).value
    modifies p
    ensures dirtyBetween
    ensures !p.IsDirty()
  {
    var r := p.SetValue(a);
    p.Clean();
    r := p.SetValue(b);
    dirtyBetween := p.IsDirty();
    p.Clean();
  }
}
