/**
  The generated `Setting` entity: two declared properties, `name` (a string
  type) and `value` (a mixed type), a dirty flag per property, a bag of
  extended properties anyone may set, and an iterator over the properties that
  are set. The pure functions below say what each operation does to the
  entity's state; the class performs the operations in place.
*/
module SettingEntity {
  import opened PhpValue

  /**
    The parts of a property type the entity uses: `parse` coerces a raw value
    (`None` when the type throws), `unset` is the type's unset value,
    `defaultValue` its `defaultValue` option and `exportFn` its export().
  */
  datatype FieldType = FieldType(
    parse: Value -> Option<Value>,
    unset: Value,
    defaultValue: Value,
    exportFn: Value -> Value)

  /** The types the constructor registers: a string type and a mixed type. */
  datatype Types = Types(nameType: FieldType, valueType: FieldType)

  /** The declared properties, in declaration order. */
  datatype Field = NameField | ValueField

  datatype SettingError =
    | NotAnArray                       // fromArray() was given something that is not an array
    | UnknownKey(key: Key)             // fromArray() met an undeclared key in strict mode
    | UnknownProperty(property: Value) // clear() was given something that is not a property name
    | CoercionFailed(field: Field)     // the property's type rejected the value
    | BadIncludeList                   // export() was given an unusable property filter

  /** The entity's fields apart from the iterator cursor; `dirty` in insertion order. */
  datatype SettingState = SettingState(
    name: Value,
    value: Value,
    dirty: seq<string>,
    extended: seq<Entry>)

  /** The state a bulk operation reached, and the exception that stopped it, if any. */
  datatype Effect = Effect(state: SettingState, error: Option<SettingError>)

  function Label(f: Field): string {
    match f
    case NameField => "name"
    case ValueField => "value"
  }

  function KeyOf(f: Field): Key {
    StrKey(Label(f))
  }

  const Declared: seq<string> := ["name", "value"]

  /** propertyExists(): the name is one of the declared properties. */
  predicate PropertyExists(property: string)
    ensures PropertyExists(property) <==> property in Declared
  {
    property == "name" || property == "value"
  }

  /** The declared property with this name. */
  function FieldOf(property: string): (f: Field)
    requires PropertyExists(property)
    ensures Label(f) == property
  {
    if property == "name" then NameField else ValueField
  }

  /** The declared property an array key names, if any. */
  function DeclaredKey(k: Key): (r: Option<Field>)
    ensures r.Some? <==> k.StrKey? && PropertyExists(k.s)
    ensures r.Some? ==> KeyOf(r.value) == k
  {
    if k.StrKey? && PropertyExists(k.s) then Some(FieldOf(k.s)) else None
  }

  /** type(): the registered type of a property, or none for an unknown name. */
  function TypeNamed(types: Types, property: string): (r: Option<FieldType>)
    ensures r.Some? <==> PropertyExists(property)
    ensures r.Some? ==> r.value == TypeOf(types, FieldOf(property))
  {
    if PropertyExists(property) then Some(TypeOf(types, FieldOf(property))) else None
  }

  function TypeOf(types: Types, f: Field): FieldType {
    match f
    case NameField => types.nameType
    case ValueField => types.valueType
  }

  function Get(s: SettingState, f: Field): Value {
    match f
    case NameField => s.name
    case ValueField => s.value
  }

  function Put(s: SettingState, f: Field, v: Value): SettingState {
    match f
    case NameField => s.(name := v)
    case ValueField => s.(value := v)
  }

  /** hasName() / hasValue(): the property is not at its type's unset value. */
  predicate Has(types: Types, s: SettingState, f: Field) {
    Get(s, f) != TypeOf(types, f).unset
  }

  predicate NoDuplicates(names: seq<string>) {
    forall i, j :: 0 <= i < j < |names| ==> names[i] != names[j]
  }

  /**
    What every reachable state satisfies: the dirty list names declared
    properties, each once, and the extended properties form a PHP array.
  */
  predicate WellFormed(s: SettingState) {
    && NoDuplicates(s.dirty)
    && (forall n :: n in s.dirty ==> PropertyExists(n))
    && UniqueKeys(s.extended)
  }

  /**
    setName() / setValue(): the parsed value is stored, and the property becomes
    dirty when it was not dirty yet and the parsed value differs from the stored
    one. A value the type rejects changes nothing.
  */
  function SetField(types: Types, s: SettingState, f: Field, raw: Value): (r: Result<SettingState, SettingError>)
    ensures r.Err? <==> TypeOf(types, f).parse(raw).None?
    ensures r.Err? ==> r.error == CoercionFailed(f)
    ensures r.Ok? ==> Get(r.value, f) == TypeOf(types, f).parse(raw).value
    ensures r.Ok? ==> forall g :: g != f ==> Get(r.value, g) == Get(s, g)
    ensures r.Ok? ==> r.value.extended == s.extended
    ensures r.Ok? ==>
      forall n :: n in r.value.dirty <==> n in s.dirty || (n == Label(f) && Get(r.value, f) != Get(s, f))
    ensures r.Ok? ==> |r.value.dirty| >= |s.dirty| && forall i :: 0 <= i < |s.dirty| ==> r.value.dirty[i] == s.dirty[i]
  {
    var parsed := TypeOf(types, f).parse(raw);
    if parsed.None? then Err(CoercionFailed(f))
    else
      var v := parsed.value;
      var dirty := if Label(f) !in s.dirty && v != Get(s, f) then s.dirty + [Label(f)] else s.dirty;
      Ok(Put(s, f, v).(dirty := dirty))
  }

  /** setName() / setValue() keep the state well formed. */
  lemma SetFieldWellFormed(types: Types, s: SettingState, f: Field, raw: Value)
    requires WellFormed(s) && SetField(types, s, f, raw).Ok?
    ensures WellFormed(SetField(types, s, f, raw).value)
  {
    var d := SetField(types, s, f, raw).value.dirty;
    if d != s.dirty {
      forall i, j | 0 <= i < j < |d| ensures d[i] != d[j] {
        if j == |s.dirty| {
          assert d[i] in s.dirty;
        }
      }
    }
  }

  /** Once a property is dirty, setting it back to its earlier value leaves it dirty. */
  lemma DirtyUntilCleaned(types: Types, s: SettingState, f: Field, x: Value, back: Value)
    requires SetField(types, s, f, x).Ok?
    requires Get(SetField(types, s, f, x).value, f) != Get(s, f)
    requires SetField(types, SetField(types, s, f, x).value, f, back).Ok?
    ensures var t := SetField(types, SetField(types, s, f, x).value, f, back).value;
      Label(f) in t.dirty
  {
  }

  /** markDirty(): only a declared property is added, at the end, once. */
  function Marked(dirty: seq<string>, property: string): (r: seq<string>)
    ensures !PropertyExists(property) ==> r == dirty
    ensures forall n :: n in r <==> n in dirty || (n == property && PropertyExists(property))
    ensures |r| >= |dirty| && forall i :: 0 <= i < |dirty| ==> r[i] == dirty[i]
  {
    if PropertyExists(property) && property !in dirty then dirty + [property] else dirty
  }

  /** markDirty() never lists a property twice. */
  lemma MarkedOnce(dirty: seq<string>, property: string)
    requires NoDuplicates(dirty)
    ensures NoDuplicates(Marked(dirty, property))
  {
    var r := Marked(dirty, property);
    if r != dirty {
      forall i, j | 0 <= i < j < |r| ensures r[i] != r[j] {
        if j == |dirty| {
          assert r[i] in dirty;
        }
      }
    }
  }

  /** A dirty list of declared names, none twice, has room for the two declared properties only. */
  lemma DirtyBounded(dirty: seq<string>)
    ensures NoDuplicates(dirty) && (forall n :: n in dirty ==> PropertyExists(n)) ==> |dirty| <= 2
  {
    if |dirty| > 2 {
      assert dirty[0] in dirty && dirty[1] in dirty && dirty[2] in dirty;
    }
  }

  /** A list of declared names is non-empty exactly when it flags some declared property. */
  lemma FlagsSomeField(dirty: seq<string>)
    ensures (forall n :: n in dirty ==> PropertyExists(n)) ==> (dirty != [] <==> exists f :: Label(f) in dirty)
  {
    if dirty != [] && PropertyExists(dirty[0]) {
      assert Label(FieldOf(dirty[0])) in dirty;
    }
  }

  /** `unset($this->_dirty[$property])`: the name leaves the list, the rest keep their order. */
  function Unmarked(dirty: seq<string>, property: string): (r: seq<string>)
    ensures forall n :: n in r <==> n in dirty && n != property
    ensures |r| <= |dirty|
  {
    if dirty == [] then []
    else
      var rest := Unmarked(dirty[1..], property);
      assert forall n :: n in dirty <==> n == dirty[0] || n in dirty[1..];
      if dirty[0] == property then rest else [dirty[0]] + rest
  }

  /** Unmarking keeps every name listed at most once. */
  lemma {:induction false} UnmarkedOnce(dirty: seq<string>, property: string)
    requires NoDuplicates(dirty)
    ensures NoDuplicates(Unmarked(dirty, property))
    decreases dirty
  {
    if dirty != [] {
      var tail := dirty[1..];
      forall i, j | 0 <= i < j < |tail| ensures tail[i] != tail[j] {
        assert tail[i] == dirty[i + 1] && tail[j] == dirty[j + 1];
      }
      UnmarkedOnce(tail, property);
      var rest := Unmarked(tail, property);
      if dirty[0] != property {
        assert dirty[0] !in rest by {
          forall i | 0 <= i < |tail| ensures tail[i] != dirty[0] {
            assert tail[i] == dirty[i + 1];
          }
        }
        var r := [dirty[0]] + rest;
        forall i, j | 0 <= i < j < |r| ensures r[i] != r[j] {
          assert r[j] == rest[j - 1];
          if i > 0 {
            assert r[i] == rest[i - 1];
          }
        }
      }
    }
  }

  /**
    clean(): an empty argument empties the dirty list, an array cleans each of
    its elements in turn, a name is unmarked, and anything else is ignored.
  */
  function Cleaned(dirty: seq<string>, p: Value): (r: seq<string>)
    ensures Falsy(p) ==> r == []
    ensures p.Str? && !Falsy(p) ==> forall n :: n in r <==> n in dirty && n != p.s
    ensures forall n :: n in r ==> n in dirty
    decreases p, 1
  {
    if Falsy(p) then []
    else if p.Arr? then CleanedFrom(dirty, p, 0)
    else if p.Str? then Unmarked(dirty, p.s)
    else dirty
  }

  /** The elements of the array `p` from index `i` on, cleaned in order. */
  function CleanedFrom(dirty: seq<string>, p: Value, i: nat): (r: seq<string>)
    requires p.Arr?
    ensures forall n :: n in r ==> n in dirty
    decreases p, 0, |p.entries| - i
  {
    if i >= |p.entries| then dirty
    else CleanedFrom(Cleaned(dirty, p.entries[i].val), p, i + 1)
  }

  /** clean() keeps every name listed at most once. */
  lemma {:induction false} CleanedOnce(dirty: seq<string>, p: Value)
    requires NoDuplicates(dirty)
    ensures NoDuplicates(Cleaned(dirty, p))
    decreases p, 1
  {
    if !Falsy(p) {
      if p.Arr? {
        CleanedFromOnce(dirty, p, 0);
      } else if p.Str? {
        UnmarkedOnce(dirty, p.s);
      }
    }
  }

  lemma {:induction false} CleanedFromOnce(dirty: seq<string>, p: Value, i: nat)
    requires p.Arr? && NoDuplicates(dirty)
    ensures NoDuplicates(CleanedFrom(dirty, p, i))
    decreases p, 0, |p.entries| - i
  {
    if i < |p.entries| {
      CleanedOnce(dirty, p.entries[i].val);
      CleanedFromOnce(Cleaned(dirty, p.entries[i].val), p, i + 1);
    }
  }

  /** clean() of a list of non-empty names unmarks exactly those names. */
  lemma {:induction false} CleanListedNames(dirty: seq<string>, p: Value, i: nat)
    requires p.Arr? && i <= |p.entries|
    requires forall j :: i <= j < |p.entries| ==> p.entries[j].val.Str? && !Falsy(p.entries[j].val)
    ensures forall n ::
      n in CleanedFrom(dirty, p, i) <==>
        n in dirty && forall j :: i <= j < |p.entries| ==> p.entries[j].val != Str(n)
    decreases |p.entries| - i
  {
    if i < |p.entries| {
      CleanListedNames(Cleaned(dirty, p.entries[i].val), p, i + 1);
    }
  }

  /**
    properties(): the declared property names, in declaration order; without
    `includeUnset` only those that are set.
  */
  function PropertyNames(types: Types, s: SettingState, includeUnset: bool): (r: seq<string>)
    ensures includeUnset ==> r == Declared
    ensures forall f :: Label(f) in r <==> includeUnset || Has(types, s, f)
    ensures forall n :: n in r ==> PropertyExists(n)
    ensures |r| <= 2
    ensures |r| == 2 ==> r == Declared
  {
    (if includeUnset || Has(types, s, NameField) then ["name"] else [])
      + (if includeUnset || Has(types, s, ValueField) then ["value"] else [])
  }

  /** The position of a property key in declaration order. */
  function Rank(k: Key): int {
    if k == KeyOf(NameField) then 0 else if k == KeyOf(ValueField) then 1 else 2
  }

  /**
    The array toArray() and export() build: for each listed property in turn,
    `$result[$property] = ...` when `row` yields a value for it.
  */
  function Collected(names: seq<string>, row: Field -> Option<Value>): seq<Entry>
    requires forall n :: n in names ==> PropertyExists(n)
  {
    if names == [] then []
    else
      var f := FieldOf(names[|names| - 1]);
      var rows := Collected(names[..|names| - 1], row);
      if row(f).Some? then Assign(rows, KeyOf(f), row(f).value) else rows
  }

  /** One more listed property adds its row, if it has one. */
  lemma CollectedNext(names: seq<string>, row: Field -> Option<Value>, i: nat)
    requires forall n :: n in names ==> PropertyExists(n)
    requires i < |names|
    ensures var f := FieldOf(names[i]);
      var before := Collected(names[..i], row);
      Collected(names[..i + 1], row) == if row(f).Some? then Assign(before, KeyOf(f), row(f).value) else before
  {
    assert names[..i + 1][..i] == names[..i];
  }

  /** At most a `name` row followed by at most a `value` row. */
  function Rows(nameRow: Option<Value>, valueRow: Option<Value>): seq<Entry> {
    (if nameRow.Some? then [Entry(KeyOf(NameField), nameRow.value)] else [])
      + (if valueRow.Some? then [Entry(KeyOf(ValueField), valueRow.value)] else [])
  }

  function RowOf(f: Field, nameRow: Option<Value>, valueRow: Option<Value>): Option<Value> {
    if f == NameField then nameRow else valueRow
  }

  /** Such an array holds exactly the rows given, keyed by property, in declaration order. */
  lemma RowsContents(nameRow: Option<Value>, valueRow: Option<Value>)
    ensures var r := Rows(nameRow, valueRow);
      && (forall f :: Lookup(r, KeyOf(f)) == RowOf(f, nameRow, valueRow))
      && (forall i, j :: 0 <= i < j < |r| ==> Rank(r[i].key) < Rank(r[j].key))
      && (forall i :: 0 <= i < |r| ==> Rank(r[i].key) < 2)
  {
    var r := Rows(nameRow, valueRow);
    if nameRow.Some? && valueRow.Some? {
      assert r[1..] == [Entry(KeyOf(ValueField), valueRow.value)];
    }
  }

  /** Collecting over any list properties() can return gives those rows. */
  lemma CollectedRows(names: seq<string>, row: Field -> Option<Value>)
    requires names == [] || names == ["name"] || names == ["value"] || names == Declared
    ensures Collected(names, row)
      == Rows(if "name" in names then row(NameField) else None, if "value" in names then row(ValueField) else None)
  {
    if names == Declared {
      assert names[..1] == ["name"] && ["name"][..0] == [];
      var first := Collected(["name"], row);
      assert first == Rows(row(NameField), None);
      assert !HasKey(first, KeyOf(ValueField));
    } else if names != [] {
      assert names[..0] == [];
    }
  }

  /** What toArray() lists for a property: its value, unless it is unset and unset ones are left out. */
  function Listed(types: Types, s: SettingState, includeUnset: bool): Field -> Option<Value> {
    f => if includeUnset || TypeOf(types, f).unset != Get(s, f) then Some(Get(s, f)) else None
  }

  /** The row toArray() gives a property: its value, when it is set or unset ones are kept. */
  function ListedRow(types: Types, s: SettingState, includeUnset: bool, f: Field): Option<Value> {
    if includeUnset || Has(types, s, f) then Some(Get(s, f)) else None
  }

  /**
    toArray() is the `name` row, if any, followed by the `value` row, if any: the
    set properties (all of them with `includeUnset`) with their stored values.
  */
  lemma ListingRows(types: Types, s: SettingState, includeUnset: bool)
    ensures Collected(PropertyNames(types, s, includeUnset), Listed(types, s, includeUnset))
      == Rows(ListedRow(types, s, includeUnset, NameField), ListedRow(types, s, includeUnset, ValueField))
  {
    var names := PropertyNames(types, s, includeUnset);
    CollectedRows(names, Listed(types, s, includeUnset));
    assert "name" in names <==> includeUnset || Has(types, s, NameField) by {
      assert Label(NameField) == "name";
    }
    assert "value" in names <==> includeUnset || Has(types, s, ValueField) by {
      assert Label(ValueField) == "value";
    }
  }

  /**
    The names export() keeps: all of them for an empty filter, the one name for a
    string, the elements for an array; anything else is rejected.
  */
  function IncludeFilter(selection: Value): (r: Result<Option<seq<Value>>, SettingError>)
    ensures Falsy(selection) ==> r == Ok(None)
    ensures r.Err? <==> !Falsy(selection) && !selection.Str? && !selection.Arr?
    ensures r.Ok? && r.value.Some? ==> r.value.value != []
    ensures !Falsy(selection) && selection.Str? ==> r == Ok(Some([selection]))
    ensures !Falsy(selection) && selection.Arr? ==>
      && r.Ok? && r.value.Some? && |r.value.value| == |selection.entries|
      && forall i :: 0 <= i < |selection.entries| ==> r.value.value[i] == selection.entries[i].val
  {
    if Falsy(selection) then Ok(None)
    else if selection.Str? then Ok(Some([selection]))
    else if selection.Arr? then Ok(Some(seq(|selection.entries|, i requires 0 <= i < |selection.entries| => selection.entries[i].val)))
    else Err(BadIncludeList)
  }

  /**
    `in_array($property, $filter)` with PHP 8's loose comparison: an element
    matches a property name when it is that string or `true`.
  */
  predicate Selected(filter: Option<seq<Value>>, property: string) {
    filter.None? || Str(property) in filter.value || Bool(true) in filter.value
  }

  /** export()'s value for a property: its own if set, else the default, else unset. */
  function Shown(types: Types, s: SettingState, f: Field): (v: Value)
    ensures Has(types, s, f) ==> v == Get(s, f)
    ensures !Has(types, s, f) && !Falsy(TypeOf(types, f).defaultValue) ==> v == TypeOf(types, f).defaultValue
    ensures !Has(types, s, f) && Falsy(TypeOf(types, f).defaultValue) ==> v == TypeOf(types, f).unset
  {
    var t := TypeOf(types, f);
    var fallback := if Falsy(t.defaultValue) then t.unset else t.defaultValue;
    if Has(types, s, f) then Get(s, f) else fallback
  }

  /** What export() lists for a property: the exported shown value, if selected and kept. */
  function ExportRow(types: Types, s: SettingState, filter: Option<seq<Value>>, includeUnset: bool)
    : Field -> Option<Value>
  {
    f =>
      var v := Shown(types, s, f);
      if Selected(filter, Label(f)) && (includeUnset || TypeOf(types, f).unset != v)
      then Some(TypeOf(types, f).exportFn(v))
      else None
  }

  /** The row export() gives a property: its exported shown value, when it is kept and selected. */
  function ExportedRow(types: Types, s: SettingState, filter: Option<seq<Value>>, includeUnset: bool, f: Field): Option<Value> {
    if (includeUnset || Has(types, s, f)) && Selected(filter, Label(f))
    then Some(TypeOf(types, f).exportFn(Shown(types, s, f)))
    else None
  }

  /**
    export() is the `name` row, if any, followed by the `value` row, if any: the
    selected properties among the set ones (among all with `includeUnset`), each
    exported from its value or its default.
  */
  lemma ExportedRows(types: Types, s: SettingState, filter: Option<seq<Value>>, includeUnset: bool)
    ensures Collected(PropertyNames(types, s, includeUnset), ExportRow(types, s, filter, includeUnset))
      == Rows(ExportedRow(types, s, filter, includeUnset, NameField), ExportedRow(types, s, filter, includeUnset, ValueField))
  {
    var names := PropertyNames(types, s, includeUnset);
    CollectedRows(names, ExportRow(types, s, filter, includeUnset));
    ExportedRowAt(types, s, filter, includeUnset, NameField);
    ExportedRowAt(types, s, filter, includeUnset, ValueField);
  }

  lemma ExportedRowAt(types: Types, s: SettingState, filter: Option<seq<Value>>, includeUnset: bool, f: Field)
    ensures (if Label(f) in PropertyNames(types, s, includeUnset) then ExportRow(types, s, filter, includeUnset)(f) else None)
      == ExportedRow(types, s, filter, includeUnset, f)
  {
    var v := Shown(types, s, f);
    assert ExportRow(types, s, filter, includeUnset)(f)
      == if Selected(filter, Label(f)) && (includeUnset || TypeOf(types, f).unset != v)
         then Some(TypeOf(types, f).exportFn(v)) else None;
  }

  /**
    One key/value pair of fromArray(): an undeclared key becomes an extended
    property in auto-extended mode and is rejected in strict mode; a declared
    one goes through its setter, whose failure is swallowed when errors are
    ignored.
  */
  function Step(types: Types, s: SettingState, e: Entry, ignoreErrors: bool, autoExtended: bool): (r: Effect)
    ensures DeclaredKey(e.key).None? && autoExtended ==>
      r == Effect(s.(extended := Assign(s.extended, e.key, e.val)), None)
    ensures DeclaredKey(e.key).None? && !autoExtended ==>
      r.state == s && (r.error.Some? <==> !ignoreErrors)
    ensures r.error.Some? ==> r.state == s && !ignoreErrors
    ensures DeclaredKey(e.key).Some? && SetField(types, s, DeclaredKey(e.key).value, e.val).Ok? ==>
      r == Effect(SetField(types, s, DeclaredKey(e.key).value, e.val).value, None)
    ensures DeclaredKey(e.key).Some? && SetField(types, s, DeclaredKey(e.key).value, e.val).Err? ==>
      r.state == s
    ensures DeclaredKey(e.key).Some? ==> r.state.extended == s.extended
    ensures forall n :: n in s.dirty ==> n in r.state.dirty
  {
    var f := DeclaredKey(e.key);
    if f.None? then
      if autoExtended then Effect(s.(extended := Assign(s.extended, e.key, e.val)), None)
      else if ignoreErrors then Effect(s, None)
      else Effect(s, Some(UnknownKey(e.key)))
    else
      match SetField(types, s, f.value, e.val)
      case Ok(t) => Effect(t, None)
      case Err(err) => if ignoreErrors then Effect(s, None) else Effect(s, Some(err))
  }

  /** The pairs of `es` applied in order, stopping at the first exception. */
  function Hydrate(types: Types, s: SettingState, es: seq<Entry>, ignoreErrors: bool, autoExtended: bool): (r: Effect)
    ensures ignoreErrors ==> r.error.None?
    ensures forall n :: n in s.dirty ==> n in r.state.dirty
    decreases es
  {
    if es == [] then Effect(s, None)
    else
      var e := Step(types, s, es[0], ignoreErrors, autoExtended);
      if e.error.Some? then e else Hydrate(types, e.state, es[1..], ignoreErrors, autoExtended)
  }

  /** fromArray(): only an array is accepted. */
  function Hydrated(types: Types, s: SettingState, input: Value, ignoreErrors: bool, autoExtended: bool): (r: Effect)
    ensures !input.Arr? ==> r == Effect(s, Some(NotAnArray))
    ensures input.Arr? && ignoreErrors ==> r.error.None?
  {
    if input.Arr? then Hydrate(types, s, input.entries, ignoreErrors, autoExtended)
    else Effect(s, Some(NotAnArray))
  }

  /** One fromArray() pair keeps the state well formed. */
  lemma StepWellFormed(types: Types, s: SettingState, e: Entry, ignoreErrors: bool, autoExtended: bool)
    requires WellFormed(s)
    ensures WellFormed(Step(types, s, e, ignoreErrors, autoExtended).state)
  {
    var f := DeclaredKey(e.key);
    if f.None? {
      if autoExtended {
        AssignUnique(s.extended, e.key, e.val);
      }
    } else if SetField(types, s, f.value, e.val).Ok? {
      SetFieldWellFormed(types, s, f.value, e.val);
    }
  }

  /** fromArray() keeps the state well formed, whether or not it stops early. */
  lemma {:induction false} HydrateWellFormed(types: Types, s: SettingState, es: seq<Entry>, ignoreErrors: bool, autoExtended: bool)
    requires WellFormed(s)
    ensures WellFormed(Hydrate(types, s, es, ignoreErrors, autoExtended).state)
    decreases es
  {
    if es != [] {
      StepWellFormed(types, s, es[0], ignoreErrors, autoExtended);
      var e := Step(types, s, es[0], ignoreErrors, autoExtended);
      if e.error.None? {
        HydrateWellFormed(types, e.state, es[1..], ignoreErrors, autoExtended);
      }
    }
  }

  /**
    In lenient auto-extended mode every undeclared key of the input ends up as
    an extended property with the input's value; other extended properties
    keep theirs.
  */
  lemma {:induction false} HydrateRoutesExtended(types: Types, s: SettingState, es: seq<Entry>)
    requires UniqueKeys(es)
    decreases es
    ensures forall k :: DeclaredKey(k).None? ==>
      Lookup(Hydrate(types, s, es, true, true).state.extended, k)
        == (if HasKey(es, k) then Lookup(es, k) else Lookup(s.extended, k))
  {
    if es != [] {
      var e := es[0];
      var t := Step(types, s, e, true, true).state;
      assert UniqueKeys(es[1..]);
      HydrateRoutesExtended(types, t, es[1..]);
      forall k | DeclaredKey(k).None?
        ensures Lookup(Hydrate(types, s, es, true, true).state.extended, k)
          == (if HasKey(es, k) then Lookup(es, k) else Lookup(s.extended, k))
      {
        assert HasKey(es, k) <==> e.key == k || HasKey(es[1..], k) by {
          if HasKey(es, k) && e.key != k {
            var i :| 0 <= i < |es| && es[i].key == k;
            assert es[1..][i - 1].key == k;
          }
        }
        if e.key == k {
          assert !HasKey(es[1..], k) by {
            forall i | 0 <= i < |es[1..]| ensures es[1..][i].key != k {
              assert es[1..][i] == es[i + 1];
            }
          }
        }
      }
    }
  }

  /** In strict mode an undeclared key anywhere in the input makes fromArray() fail. */
  lemma {:induction false} StrictRejectsUnknown(types: Types, s: SettingState, es: seq<Entry>, i: nat)
    requires i < |es| && DeclaredKey(es[i].key).None?
    ensures Hydrate(types, s, es, false, false).error.Some?
    decreases i
  {
    var e := Step(types, s, es[0], false, false);
    if i > 0 && e.error.None? {
      assert es[1..][i - 1] == es[i];
      StrictRejectsUnknown(types, e.state, es[1..], i - 1);
    }
  }

  /**
    clear() of one name: the property is set to its type's unset value through
    its setter; anything but a declared name is an error.
  */
  function ClearOne(types: Types, s: SettingState, property: Value): (r: Effect)
    ensures !(property.Str? && PropertyExists(property.s)) ==> r == Effect(s, Some(UnknownProperty(property)))
    ensures r.error.Some? ==> r.state == s
    ensures property.Str? && PropertyExists(property.s) && r.error.None? ==>
      var t := TypeOf(types, FieldOf(property.s));
      t.parse(t.unset).Some? && Get(r.state, FieldOf(property.s)) == t.parse(t.unset).value
  {
    if property.Str? && PropertyExists(property.s) then
      var f := FieldOf(property.s);
      match SetField(types, s, f, TypeOf(types, f).unset)
      case Ok(t) => Effect(t, None)
      case Err(err) => Effect(s, Some(err))
    else Effect(s, Some(UnknownProperty(property)))
  }

  /** clear() of each of `names` in turn, stopping at the first exception. */
  function ClearNames(types: Types, s: SettingState, names: seq<string>): Effect
    decreases names
  {
    if names == [] then Effect(s, None)
    else
      var e := ClearOne(types, s, Str(names[0]));
      if e.error.Some? then e else ClearNames(types, e.state, names[1..])
  }

  /**
    clear(): an empty argument clears every set property, an array clears each
    of its elements in turn, a name clears that property.
  */
  function Cleared(types: Types, s: SettingState, p: Value): Effect
    decreases p, 1
  {
    if Falsy(p) then ClearNames(types, s, PropertyNames(types, s, false))
    else if p.Arr? then ClearedFrom(types, s, p, 0)
    else ClearOne(types, s, p)
  }

  /** The elements of the array `p` from index `i` on, cleared in order. */
  function ClearedFrom(types: Types, s: SettingState, p: Value, i: nat): Effect
    requires p.Arr?
    decreases p, 0, |p.entries| - i
  {
    if i >= |p.entries| then Effect(s, None)
    else
      var e := Cleared(types, s, p.entries[i].val);
      if e.error.Some? then e else ClearedFrom(types, e.state, p, i + 1)
  }

  /** clear() keeps the state well formed, whatever its argument. */
  lemma {:induction false} ClearedWellFormed(types: Types, s: SettingState, p: Value)
    requires WellFormed(s)
    ensures WellFormed(Cleared(types, s, p).state)
    decreases p, 1
  {
    if Falsy(p) {
      ClearNamesWellFormed(types, s, PropertyNames(types, s, false));
    } else if p.Arr? {
      ClearedFromWellFormed(types, s, p, 0);
    } else {
      ClearOneWellFormed(types, s, p);
    }
  }

  lemma {:induction false} ClearedFromWellFormed(types: Types, s: SettingState, p: Value, i: nat)
    requires p.Arr? && WellFormed(s)
    ensures WellFormed(ClearedFrom(types, s, p, i).state)
    decreases p, 0, |p.entries| - i
  {
    if i < |p.entries| {
      ClearedWellFormed(types, s, p.entries[i].val);
      var e := Cleared(types, s, p.entries[i].val);
      if e.error.None? {
        ClearedFromWellFormed(types, e.state, p, i + 1);
      }
    }
  }

  lemma {:induction false} ClearNamesWellFormed(types: Types, s: SettingState, names: seq<string>)
    requires WellFormed(s)
    ensures WellFormed(ClearNames(types, s, names).state)
    decreases names
  {
    if names != [] {
      ClearOneWellFormed(types, s, Str(names[0]));
      var e := ClearOne(types, s, Str(names[0]));
      if e.error.None? {
        ClearNamesWellFormed(types, e.state, names[1..]);
      }
    }
  }

  lemma ClearOneWellFormed(types: Types, s: SettingState, property: Value)
    requires WellFormed(s)
    ensures WellFormed(ClearOne(types, s, property).state)
  {
    if property.Str? && PropertyExists(property.s) {
      var f := FieldOf(property.s);
      if SetField(types, s, f, TypeOf(types, f).unset).Ok? {
        SetFieldWellFormed(types, s, f, TypeOf(types, f).unset);
      }
    }
  }

  /**
    When each type accepts its own unset value, clear() with no argument
    succeeds, leaves no property set and marks dirty every property that was set.
  */
  lemma ClearUnsetsAll(types: Types, s: SettingState)
    requires forall f :: TypeOf(types, f).parse(TypeOf(types, f).unset) == Some(TypeOf(types, f).unset)
    ensures Cleared(types, s, Null).error.None?
    ensures PropertyNames(types, Cleared(types, s, Null).state, false) == []
    ensures forall f :: Has(types, s, f) ==> Label(f) in Cleared(types, s, Null).state.dirty
    ensures forall n :: n in s.dirty ==> n in Cleared(types, s, Null).state.dirty
    ensures Cleared(types, s, Null).state.extended == s.extended
  {
    var names := PropertyNames(types, s, false);
    if |names| == 2 {
      var t := ClearOne(types, s, Str("name")).state;
      assert ClearNames(types, s, names) == ClearNames(types, t, ["value"]);
    } else if names == ["name"] {
      assert ClearNames(types, s, names) == ClearNames(types, ClearOne(types, s, Str("name")).state, []);
    } else if names == ["value"] {
      assert ClearNames(types, s, names) == ClearNames(types, ClearOne(types, s, Str("value")).state, []);
    }
  }

  class Setting {
    const types: Types
    var name: Value
    var value: Value
    /** The keys of `_dirty`, in the order they were added. */
    var dirtyNames: seq<string>
    var extended: seq<Entry>
    var cursor: nat

    /** A fresh entity: both fields null, nothing dirty, no extended properties. */
    constructor (types: Types)
      ensures this.types == types
      ensures State() == SettingState(Null, Null, [], []) && cursor == 0
      ensures Consistent()
    {
      this.types := types;
      name, value := Null, Null;
      dirtyNames, extended := [], [];
      cursor := 0;
    }

    function State(): SettingState
      reads this
    {
      SettingState(name, value, dirtyNames, extended)
    }

    predicate Consistent()
      reads this
    {
      WellFormed(State())
    }

    /** getExtendedProperty(): the stored value, or null when there is none. */
    function GetExtendedProperty(k: Key): (v: Value)
      reads this
      ensures HasKey(extended, k) ==> Lookup(extended, k) == Some(v)
      ensures !HasKey(extended, k) ==> v == Null
    {
      ValueOrNull(extended, k)
    }

    /** getExtendedProperties(): a copy of every extended property, in order. */
    method GetExtendedProperties() returns (r: seq<Entry>)
      requires Consistent()
      ensures r == extended
    {
      r := [];
      var i := 0;
      while i < |extended|
        invariant 0 <= i <= |extended|
        invariant r == extended[..i]
      {
        var k := extended[i].key;
        LookupAt(extended, i);
        r := Assign(r, k, GetExtendedProperty(k));
        assert extended[..i + 1] == extended[..i] + [extended[i]];
        i := i + 1;
      }
      assert extended[..i] == extended;
    }

    /** setExtendedProperty(): the property is written, replacing any earlier value. */
    method SetExtendedProperty(k: Key, v: Value)
      requires Consistent()
      modifies this`extended
      ensures Consistent()
      ensures extended == Assign(old(extended), k, v)
      ensures GetExtendedProperty(k) == v
    {
      extended := Assign(extended, k, v);
    }

    function GetName(): Value
      reads this
    {
      name
    }

    function GetValue(): Value
      reads this
    {
      value
    }

    /** hasName(): `name` is set, which is when properties() lists it. */
    predicate HasName()
      reads this
      ensures HasName() <==> "name" in PropertyNames(types, State(), false)
    {
      Has(types, State(), NameField)
    }

    /** hasValue(): `value` is set, which is when properties() lists it. */
    predicate HasValue()
      reads this
      ensures HasValue() <==> "value" in PropertyNames(types, State(), false)
    {
      Has(types, State(), ValueField)
    }

    /** setName(). */
    method SetName(raw: Value) returns (r: Outcome<SettingError>)
      requires Consistent()
      modifies this`name, this`dirtyNames
      ensures Consistent()
      ensures r.Pass? <==> SetField(types, old(State()), NameField, raw).Ok?
      ensures r.Pass? ==> State() == SetField(types, old(State()), NameField, raw).value
      ensures r.Fail? ==> r.error == CoercionFailed(NameField) && State() == old(State())
    {
      var parsed := types.nameType.parse(raw);
      if parsed.None? {
        return Fail(CoercionFailed(NameField));
      }
      if "name" !in dirtyNames && parsed.value != name {
        dirtyNames := dirtyNames + ["name"];
      }
      name := parsed.value;
      r := Pass;
    }

    /** setValue(). */
    method SetValue(raw: Value) returns (r: Outcome<SettingError>)
      requires Consistent()
      modifies this`value, this`dirtyNames
      ensures Consistent()
      ensures r.Pass? <==> SetField(types, old(State()), ValueField, raw).Ok?
      ensures r.Pass? ==> State() == SetField(types, old(State()), ValueField, raw).value
      ensures r.Fail? ==> r.error == CoercionFailed(ValueField) && State() == old(State())
    {
      var parsed := types.valueType.parse(raw);
      if parsed.None? {
        return Fail(CoercionFailed(ValueField));
      }
      if "value" !in dirtyNames && parsed.value != value {
        dirtyNames := dirtyNames + ["value"];
      }
      value := parsed.value;
      r := Pass;
    }

    /** dirty(): the dirty properties, in the order they became dirty. */
    function Dirty(): (r: seq<string>)
      reads this
      ensures Consistent() ==> |r| <= 2 && NoDuplicates(r) && forall n :: n in r ==> PropertyExists(n)
    {
      DirtyBounded(dirtyNames);
      dirtyNames
    }

    /** isDirty(): some property is dirty. */
    predicate IsDirty()
      reads this
      ensures Consistent() ==> (IsDirty() <==> exists f :: Label(f) in dirtyNames)
    {
      FlagsSomeField(dirtyNames);
      Dirty() != []
    }

    /** markDirty(). */
    method MarkDirty(property: string)
      requires Consistent()
      modifies this`dirtyNames
      ensures Consistent()
      ensures dirtyNames == Marked(old(dirtyNames), property)
      ensures PropertyExists(property) ==> IsDirty()
    {
      if PropertyExists(property) && property !in dirtyNames {
        dirtyNames := dirtyNames + [property];
      }
    }

    /** clean(): a recursive walk over the argument, as the source does it. */
    method Clean(p: Value)
      requires Consistent()
      modifies this`dirtyNames
      ensures Consistent()
      ensures dirtyNames == Cleaned(old(dirtyNames), p)
      decreases p, 1
    {
      if Falsy(p) {
        dirtyNames := [];
      } else if p.Arr? {
        var i := 0;
        while i < |p.entries|
          invariant 0 <= i <= |p.entries|
          invariant Consistent()
          invariant CleanedFrom(old(dirtyNames), p, 0) == CleanedFrom(dirtyNames, p, i)
        {
          Clean(p.entries[i].val);
          i := i + 1;
        }
      } else if p.Str? {
        UnmarkedOnce(dirtyNames, p.s);
        dirtyNames := Unmarked(dirtyNames, p.s);
      }
    }

    /** properties(). */
    function Properties(includeUnset: bool): (r: seq<string>)
      reads this
      ensures r == PropertyNames(types, State(), includeUnset)
    {
      (if includeUnset || HasName() then ["name"] else [])
        + (if includeUnset || HasValue() then ["value"] else [])
    }

    /** clear() of a single name, through the property's setter. */
    method ClearProperty(property: Value) returns (r: Outcome<SettingError>)
      requires Consistent()
      modifies this`name, this`value, this`dirtyNames
      ensures Consistent() && extended == old(extended)
      ensures State() == ClearOne(types, old(State()), property).state
      ensures r.Fail? <==> ClearOne(types, old(State()), property).error.Some?
      ensures r.Fail? ==> r.error == ClearOne(types, old(State()), property).error.value
    {
      if property == Str("name") {
        r := SetName(types.nameType.unset);
      } else if property == Str("value") {
        r := SetValue(types.valueType.unset);
      } else {
        r := Fail(UnknownProperty(property));
      }
    }

    /** clear(). */
    method Clear(p: Value) returns (r: Outcome<SettingError>)
      requires Consistent()
      modifies this`name, this`value, this`dirtyNames
      ensures Consistent() && extended == old(extended)
      ensures State() == Cleared(types, old(State()), p).state
      ensures r.Fail? <==> Cleared(types, old(State()), p).error.Some?
      ensures r.Fail? ==> r.error == Cleared(types, old(State()), p).error.value
      decreases p, 1
    {
      if Falsy(p) {
        var names := Properties(false);
        var i := 0;
        while i < |names|
          invariant 0 <= i <= |names|
          invariant Consistent() && extended == old(extended)
          invariant ClearNames(types, old(State()), names) == ClearNames(types, State(), names[i..])
        {
          assert names[i..][1..] == names[i + 1..];
          r := ClearProperty(Str(names[i]));
          if r.Fail? {
            return;
          }
          i := i + 1;
        }
      } else if p.Arr? {
        var i := 0;
        while i < |p.entries|
          invariant 0 <= i <= |p.entries|
          invariant Consistent() && extended == old(extended)
          invariant ClearedFrom(types, old(State()), p, 0) == ClearedFrom(types, State(), p, i)
        {
          r := Clear(p.entries[i].val);
          if r.Fail? {
            return;
          }
          i := i + 1;
        }
      } else {
        r := ClearProperty(p);
        return;
      }
      r := Pass;
    }

    /** toArray(). */
    method ToArray(includeUnset: bool) returns (r: seq<Entry>)
      ensures r == Collected(PropertyNames(types, State(), includeUnset), Listed(types, State(), includeUnset))
    {
      var names := Properties(includeUnset);
      r := [];
      var i := 0;
      while i < |names|
        invariant 0 <= i <= |names|
        invariant r == Collected(names[..i], Listed(types, State(), includeUnset))
      {
        var f := FieldOf(names[i]);
        var v := if f == NameField then GetName() else GetValue();
        CollectedNext(names, Listed(types, State(), includeUnset), i);
        if includeUnset || TypeOf(types, f).unset != v {
          r := Assign(r, KeyOf(f), v);
        }
        i := i + 1;
      }
      assert names[..i] == names;
    }

    /** fromArray(). */
    method FromArray(input: Value, ignoreErrors: bool, autoExtended: bool) returns (r: Outcome<SettingError>)
      requires Consistent()
      modifies this`name, this`value, this`dirtyNames, this`extended
      ensures Consistent()
      ensures State() == Hydrated(types, old(State()), input, ignoreErrors, autoExtended).state
      ensures r.Fail? <==> Hydrated(types, old(State()), input, ignoreErrors, autoExtended).error.Some?
      ensures r.Fail? ==> r.error == Hydrated(types, old(State()), input, ignoreErrors, autoExtended).error.value
    {
      if !input.Arr? {
        return Fail(NotAnArray);
      }
      var es := input.entries;
      var i := 0;
      while i < |es|
        invariant 0 <= i <= |es|
        invariant Consistent()
        invariant Hydrate(types, old(State()), es, ignoreErrors, autoExtended)
          == Hydrate(types, State(), es[i..], ignoreErrors, autoExtended)
      {
        assert es[i..][1..] == es[i + 1..];
        r := HydratePair(es[i], ignoreErrors, autoExtended);
        if r.Fail? {
          return;
        }
        i := i + 1;
      }
      r := Pass;
    }

    /**
      The body of fromArray()'s loop for one pair: an undeclared key goes to the
      extended properties or is rejected, a declared one goes through its setter.
    */
    method HydratePair(e: Entry, ignoreErrors: bool, autoExtended: bool) returns (r: Outcome<SettingError>)
      requires Consistent()
      modifies this`name, this`value, this`dirtyNames, this`extended
      ensures Consistent()
      ensures State() == Step(types, old(State()), e, ignoreErrors, autoExtended).state
      ensures r.Fail? <==> Step(types, old(State()), e, ignoreErrors, autoExtended).error.Some?
      ensures r.Fail? ==> r.error == Step(types, old(State()), e, ignoreErrors, autoExtended).error.value
    {
      r := Pass;
      var f := DeclaredKey(e.key);
      if f.None? {
        if autoExtended {
          SetExtendedProperty(e.key, e.val);
        } else if !ignoreErrors {
          r := Fail(UnknownKey(e.key));
        }
      } else {
        var outcome: Outcome<SettingError>;
        if f.value == NameField {
          outcome := SetName(e.val);
        } else {
          outcome := SetValue(e.val);
        }
        if outcome.Fail? && !ignoreErrors {
          r := outcome;
        }
      }
    }

    /** export(): the property filter is checked first, then every listed property is exported. */
    method Export(selection: Value, includeUnset: bool) returns (r: Result<seq<Entry>, SettingError>)
      ensures r.Err? <==> IncludeFilter(selection).Err?
      ensures r.Err? ==> r.error == BadIncludeList
      ensures r.Ok? ==>
        r.value == Collected(PropertyNames(types, State(), includeUnset), ExportRow(types, State(), IncludeFilter(selection).value, includeUnset))
    {
      var filtered := IncludeFilter(selection);
      if filtered.Err? {
        return Err(BadIncludeList);
      }
      var out := ExportFiltered(filtered.value, includeUnset);
      r := Ok(out);
    }

    /** The loop of export(): each listed property that passes the filter is exported into the result. */
    method ExportFiltered(filter: Option<seq<Value>>, includeUnset: bool) returns (out: seq<Entry>)
      ensures out == Collected(PropertyNames(types, State(), includeUnset), ExportRow(types, State(), filter, includeUnset))
    {
      var names := Properties(includeUnset);
      out := [];
      var i := 0;
      while i < |names|
        invariant 0 <= i <= |names|
        invariant out == Collected(names[..i], ExportRow(types, State(), filter, includeUnset))
      {
        var f := FieldOf(names[i]);
        ghost var row := ExportRow(types, State(), filter, includeUnset);
        CollectedNext(names, row, i);
        var v := Shown(types, State(), f);
        var keep := Selected(filter, names[i]) && (includeUnset || TypeOf(types, f).unset != v);
        assert row(f) == if keep then Some(TypeOf(types, f).exportFn(v)) else None;
        if keep {
          out := Assign(out, KeyOf(f), TypeOf(types, f).exportFn(v));
        }
        i := i + 1;
      }
      assert names[..i] == names;
    }

    /** rewind(). */
    method Rewind()
      modifies this`cursor
      ensures cursor == 0
    {
      cursor := 0;
    }

    /** next(). */
    method Next()
      modifies this`cursor
      ensures cursor == old(cursor) + 1
    {
      cursor := cursor + 1;
    }

    /** valid(): the cursor is on one of the set properties, and there are at most two. */
    predicate ValidPosition()
      reads this
      ensures ValidPosition() ==> cursor < |Properties(false)| <= 2 && Has(types, State(), FieldOf(Properties(false)[cursor]))
    {
      cursor < |Properties(false)|
    }

    /** key(): the name of the set property under the cursor, null past the end. */
    function CurrentKey(): (k: Value)
      reads this
      ensures ValidPosition() ==> k == Str(Properties(false)[cursor])
      ensures !ValidPosition() ==> k == Null
    {
      var names := Properties(false);
      if cursor < |names| then Str(names[cursor]) else Null
    }

    /** current(): the value of the set property under the cursor; none past the end. */
    function Current(): (v: Option<Value>)
      reads this
      ensures v.Some? <==> ValidPosition()
      ensures v.Some? ==> v.value == Get(State(), FieldOf(Properties(false)[cursor]))
      ensures v.Some? ==> Has(types, State(), FieldOf(Properties(false)[cursor]))
    {
      var names := Properties(false);
      if cursor < |names| then Some(if names[cursor] == "name" then name else value) else None
    }
  }
}
