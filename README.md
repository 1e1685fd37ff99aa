# Contain entities in Dafny

A model of the state-tracking core of the Contain PHP entity library, in three parts.

- **`Property`** (`property.dfy`, module `EntityProperty`) is one named, typed value slot of an entity. It holds:
  - the current value and the persisted value as of the last clean;
  - the type's unset and empty values;
  - the per-property options and the optional parent entity.

  The value and option mutators end in `save()`, which tells the parent, if there is one, about the new state. `setParent()`, `import()` and the early return of `cleanAtIndex()` send no notice. `export()` and `import()` turn the slot into a seven-field snapshot and back. `import()` detaches the parent while it runs.
- **`Setting`** (`setting.dfy`, module `SettingEntity`) is a generated entity with two declared properties, `name` (string type) and `value` (mixed type). It also keeps:
  - a per-property dirty list in the order properties became dirty;
  - a bag of extended properties;
  - an iterator over the properties that are set.

  The bulk operations `clear`, `clean`, `toArray`, `fromArray` and `export` are pure functions on a `SettingState` value. The class performs them in place and is proved to reach exactly the state the function describes.
- **`AbstractDefinition`** (`definition.dfy`, module `EntityDefinition`) is the registry an entity is compiled from. It holds:
  - an ordered list of property declarations whose names are unique up to ASCII case (`strcasecmp`);
  - fixed-key target and option maps;
  - an implementor list, the imported definitions and an iterator cursor.

  `import()` of another definition re-registers that definition's declarations one by one.

`php_value.dfy` (module `PhpValue`) supplies what all three share:
- PHP values, with arrays as ordered key/value sequences, so `===` on arrays is datatype equality;
- the array operations `$a[$k]`, `isset`, `$a[$k] = $v` and `unset`;
- PHP's falsiness (`empty()` / `!$v`).

Several things are parameters of the model:
- The type system behind a property (`TypeManager`, the type's `export`, `parse`, unset and empty values) is a parameter.
- A coercion failure, which the source throws, is `None` from the type's function.
- The dirty marker is the reserved `Value.Dirty`. The model does not stop the type's functions or an imported snapshot from yielding it, so the contracts that depend on it (`SetDirty`, `SetDirtyAtIndex`) state their condition on the current value explicitly.

Exceptions become `Fail`/`Err` results. Where the source throws half-way through a loop, the model keeps the state reached so far, as PHP does.

## Model

| member | source | states |
|---|---|---|
| PhpValue.Lookup | src/Contain/Entity/Setting.php:97 | a key is found exactly when the array has it, and the value found is paired with it in the array |
| PhpValue.LookupAt | src/Contain/Entity/Setting.php:109-111 | in an array with distinct keys, each entry's key finds that entry's value, and no earlier entry has the key |
| PhpValue.Assign | src/Contain/Entity/Property/Property.php:568 | `$a[$k] = $v` makes `$k` map to `$v` and leaves every other key's value alone; an existing key is overwritten in place (same keys, same order), a new key is appended at the end |
| PhpValue.Remove | src/Contain/Entity/Property/Property.php:462 | `unset($a[$k])` removes `$k`, keeps every other key's value, and changes nothing when `$k` is absent; with distinct keys, the entries before and after the removed one keep their order |
| PhpValue.DroppedAt | src/Contain/Entity/Property/Property.php:462 | in an array with distinct keys, unsetting the key at position i leaves exactly the entries before i followed by those after it |
| PhpValue.ValueOrNull | src/Contain/Entity/Property/Property.php:590 | `isset($a[$k]) ? $a[$k] : null`: the stored value of a key that is present, and null for a key that is absent |
| PhpValue.AssignUnique | src/Contain/Entity/Setting.php:125 | assignment never puts a key into an array twice |
| PhpValue.RemoveUnique | src/Contain/Entity/Property/Property.php:462 | unset keeps the keys of an array distinct |
| PhpValue.AssignKeepsKeys | src/Contain/Entity/Definition/AbstractDefinition.php:526 | overwriting a key that is present leaves the set of keys unchanged |
| PhpValue.AssignAllRebuilds | src/Contain/Entity/Property/Property.php:552-554 | copying an array pair by pair into an empty array rebuilds it exactly, order included |
| PhpValue.AssignAllKeepsUnique | src/Contain/Entity/Property/Property.php:552-554 | a run of assignments keeps keys distinct |
| EntityProperty.SnapshotOf | src/Contain/Entity/Property/Property.php:169-180 | export() has exactly the seven fields name, options, currentValue, persistedValue, emptyValue, unsetValue and type; the parent is never part of it |
| EntityProperty.Restore | src/Contain/Entity/Property/Property.php:119-156 | import() succeeds iff the options are empty or an array and type and name are non-empty; otherwise it fails with one of the three import errors |
| EntityProperty.RestoreFields | src/Contain/Entity/Property/Property.php:140-156 | a successful import takes name, type and every value the snapshot has; a missing sentinel comes from the type, a missing current value is the unset value, and a missing persisted value is the current value |
| EntityProperty.ImportedOptionsRebuild | src/Contain/Entity/Property/Property.php:125-128 | an options array with distinct keys is installed unchanged |
| EntityProperty.ExportThenImport | src/Contain/Entity/Property/Property.php:119-180 | import(export()) reconstructs every field of a named, typed property |
| EntityProperty.ImportThenExport | src/Contain/Entity/Property/Property.php:119-180 | for a snapshot with all seven keys, a non-empty name and type and an options array, import succeeds and export() afterwards returns exactly that snapshot, compared as a key/value map (export()'s own key order is not modelled) |
| EntityProperty.ImportWithoutPersistedIsClean | src/Contain/Entity/Property/Property.php:148-156 | a snapshot without a persisted value imports as a clean property (current equals persisted) |
| EntityProperty.DirtyAt | src/Contain/Entity/Property/Property.php:426-432 | setDirtyAtIndex() turns the persisted value into an array (starting empty if it was not one) whose slot holds the dirty marker, with every other slot unchanged |
| EntityProperty.CleanedAt | src/Contain/Entity/Property/Property.php:455-466 | cleanAtIndex() copies the slot from the current value when it is set there, otherwise removes it from the persisted value; other slots are unchanged |
| EntityProperty.ReplacedAt | src/Contain/Entity/Property/Property.php:207-211 | writing a set slot keeps the array's keys and order, stores the new element and leaves every other slot alone |
| EntityProperty.OptionTrailSilent | src/Contain/Entity/Property/Property.php:618-622 | without a parent, the saves made during setOptions() reach nobody |
| EntityProperty.Property.constructor | src/Contain/Entity/Property/Property.php:40-75 | a fresh property has null fields, no options, no parent and has sent no saves |
| EntityProperty.Property.GetExport | src/Contain/Entity/Property/Property.php:488-491 | getExport() is the currentValue field of export() |
| EntityProperty.Property.GetOption | src/Contain/Entity/Property/Property.php:588-591 | the stored option, or null for a key that is absent (a null option also reads as null) |
| EntityProperty.Property.GetValueAtIndex | src/Contain/Entity/Property/Property.php:226-233 | succeeds iff the current value is an array with that slot set to a non-null value, and then returns that slot; otherwise it fails with the invalid-index error |
| EntityProperty.Property.SetParent | src/Contain/Entity/Property/Property.php:88-92 | the parent link becomes the given one (or none) |
| EntityProperty.Property.Save | src/Contain/Entity/Property/Property.php:618-625 | exactly one notice with the current state goes to the parent when there is one; nothing is sent iff there is no parent |
| EntityProperty.Property.SetValue | src/Contain/Entity/Property/Property.php:188-192 | the type's export of the value becomes the current value and is saved; only currentValue and the saves change; a coercion failure changes nothing |
| EntityProperty.Property.SetValueAtIndex | src/Contain/Entity/Property/Property.php:205-214 | an index that is not set fails and changes nothing; otherwise only that slot of the current value changes, to the element type's export, and the change is saved |
| EntityProperty.Property.Clear | src/Contain/Entity/Property/Property.php:403-407 | the current value becomes the unset value, so isUnset() holds, and the property is dirty iff the unset value differs from the persisted one |
| EntityProperty.Property.SetEmpty | src/Contain/Entity/Property/Property.php:414-418 | the current value becomes the empty value, so isEmpty() holds, and the property is dirty iff the empty value differs from the persisted one |
| EntityProperty.Property.SetDirtyAtIndex | src/Contain/Entity/Property/Property.php:426-435 | the persisted slot becomes the dirty marker; the property is then dirty unless the current slot is itself the marker; the change is saved |
| EntityProperty.Property.SetDirty | src/Contain/Entity/Property/Property.php:444-448 | the persisted value becomes the dirty marker, so the property is dirty whenever the current value is a real value; the change is saved |
| EntityProperty.Property.CleanAtIndex | src/Contain/Entity/Property/Property.php:455-469 | the persisted value is cleaned at one slot; it saves only when the current value has that slot set, and otherwise returns without a save |
| EntityProperty.Property.Clean | src/Contain/Entity/Property/Property.php:477-481 | the persisted value becomes the current value, so isDirty() is false; the change is saved |
| EntityProperty.Property.SetOption | src/Contain/Entity/Property/Property.php:566-570 | one option is assigned as `$options[$k] = $v` does, and the change is saved |
| EntityProperty.Property.SetOptions | src/Contain/Entity/Property/Property.php:544-557 | a non-array fails and changes nothing; an array is assigned pair by pair in order, with one save per pair followed by one more save |
| EntityProperty.Property.ResetOptions | src/Contain/Entity/Property/Property.php:125-128 | with the parent detached, the options are emptied and then a non-empty entry is installed, without any save reaching anyone |
| EntityProperty.Property.RestoreValues | src/Contain/Entity/Property/Property.php:140-156 | the sentinels come from the snapshot or the type, the current value defaults to unset and the persisted value defaults to current |
| EntityProperty.Property.Import | src/Contain/Entity/Property/Property.php:119-162 | no save is ever sent; success is exactly Restore's success, and then the fields are Restore's and the parent is re-attached; a failure leaves the parent detached and only the options (and, after the type check, the type) overwritten |
| EntityProperty.Property.IsUnset | src/Contain/Entity/Property/Property.php:383-386 | isUnset() holds iff the snapshot's current value equals its unset value |
| EntityProperty.Property.IsEmpty | src/Contain/Entity/Property/Property.php:393-396 | isEmpty() holds iff the snapshot's current value equals its empty value |
| EntityProperty.Property.IsDirty | src/Contain/Entity/Property/Property.php:499-502 | isDirty() holds iff the snapshot's current value differs from its persisted value |
| EntityProperty.DirtyCleanDuality | src/Contain/Entity/Property/Property.php:477-502 | setting a different value after a clean makes the property dirty, and the next clean makes it clean again |
| SettingEntity.PropertyExists | src/Contain/Entity/Setting.php:275-278 | propertyExists() holds exactly for the declared property names, `name` and `value` |
| SettingEntity.FieldOf | src/Contain/Entity/Setting.php:275-278 | a declared property name maps to the field carrying that name |
| SettingEntity.DeclaredKey | src/Contain/Entity/Setting.php:317-322 | an array key names a declared property exactly when it is the string `name` or `value` |
| SettingEntity.TypeNamed | src/Contain/Entity/Setting.php:242-247 | type() returns the registered type of a declared property and nothing for any other name |
| SettingEntity.SetField | src/Contain/Entity/Setting.php:427-435 | a rejected value is an error; otherwise the parsed value is stored, the other field and the extended properties are untouched, and afterwards the dirty list holds the property iff it held it before or the parsed value differs from the old one (a new entry goes at the end, earlier entries are kept) |
| SettingEntity.SetFieldWellFormed | src/Contain/Entity/Setting.php:464-472 | the setters keep the dirty list free of duplicates and of undeclared names |
| SettingEntity.DirtyUntilCleaned | src/Contain/Entity/Setting.php:430-432 | once a change made a property dirty, setting any value afterwards, including the old one, leaves it dirty |
| SettingEntity.DirtyBounded | src/Contain/Entity/Setting.php:204-209 | a duplicate-free dirty list of declared names has at most two entries |
| SettingEntity.Marked | src/Contain/Entity/Setting.php:217-224 | markDirty() adds only a declared property, at the end; an undeclared name leaves the list unchanged |
| SettingEntity.MarkedOnce | src/Contain/Entity/Setting.php:217-224 | markDirty() never lists a property twice |
| SettingEntity.Unmarked | src/Contain/Entity/Setting.php:192-194 | unsetting one dirty flag removes exactly that name and keeps all the others |
| SettingEntity.UnmarkedOnce | src/Contain/Entity/Setting.php:192-194 | unsetting a flag keeps the list duplicate-free |
| SettingEntity.Cleaned | src/Contain/Entity/Setting.php:177-197 | clean() with an empty argument empties the dirty list, clean(name) removes only that name, and no argument ever adds a name |
| SettingEntity.CleanedFrom | src/Contain/Entity/Setting.php:185-190 | cleaning the elements of an array in turn only ever removes names |
| SettingEntity.CleanedOnce | src/Contain/Entity/Setting.php:177-197 | clean() keeps the dirty list duplicate-free |
| SettingEntity.CleanedFromOnce | src/Contain/Entity/Setting.php:185-190 | cleaning array elements in turn keeps the list duplicate-free |
| SettingEntity.CleanListedNames | src/Contain/Entity/Setting.php:185-194 | clean() of an array of non-empty names unmarks exactly the names listed and keeps every other dirty name |
| SettingEntity.PropertyNames | src/Contain/Entity/Setting.php:255-266 | properties(true) is `[name, value]`; properties(false) holds exactly the properties not at their unset value, in declaration order |
| SettingEntity.RowsContents | src/Contain/Entity/Setting.php:286-300 | the result array holds exactly the rows given, keyed by property, with `name` before `value` |
| SettingEntity.ListingRows | src/Contain/Entity/Setting.php:286-300 | toArray() lists each property with its stored value when it is set (every property with includeUnset) and omits it otherwise |
| SettingEntity.IncludeFilter | src/Contain/Entity/Setting.php:373-390 | an empty filter selects everything; a truthy string selects exactly that string; a non-empty array selects exactly its values, in order; any other value is rejected |
| SettingEntity.Shown | src/Contain/Entity/Setting.php:399-401 | export() shows a set property's own stored value; for an unset one it shows the type's default value when that is truthy, and the unset value when the default is falsy |
| SettingEntity.ExportedRows | src/Contain/Entity/Setting.php:368-408 | export() lists each selected property that is set (every one with includeUnset) with the type's export of its shown value, `name` before `value` |
| SettingEntity.Step | src/Contain/Entity/Setting.php:316-354 | one fromArray() pair: an undeclared key becomes an extended property in auto-extended mode and otherwise is an error unless errors are ignored; a declared key goes through its setter, and a rejected value leaves the state unchanged; an error never changes the state |
| SettingEntity.Hydrate | src/Contain/Entity/Setting.php:316-355 | with errors ignored, the pairs never stop the run, and no dirty name is ever lost |
| SettingEntity.Hydrated | src/Contain/Entity/Setting.php:310-314 | a non-array input is rejected and changes nothing |
| SettingEntity.StepWellFormed | src/Contain/Entity/Setting.php:316-354 | one pair keeps the state well formed |
| SettingEntity.HydrateWellFormed | src/Contain/Entity/Setting.php:310-358 | fromArray() keeps the state well formed, whether or not it stops early |
| SettingEntity.HydrateRoutesExtended | src/Contain/Entity/Setting.php:316-320 | in lenient auto-extended mode every undeclared key of the input ends up as an extended property with the input's value, and other extended properties keep theirs |
| SettingEntity.StrictRejectsUnknown | src/Contain/Entity/Setting.php:347-352 | in strict mode (errors not ignored, no auto-extension), an undeclared key anywhere in the input makes fromArray() fail |
| SettingEntity.ClearOne | src/Contain/Entity/Setting.php:163-165 | clear(name) sets that property to its type's unset value through its setter; anything but a declared name is an error that changes nothing |
| SettingEntity.ClearedWellFormed | src/Contain/Entity/Setting.php:149-168 | clear() keeps the state well formed, whatever its argument |
| SettingEntity.ClearedFromWellFormed | src/Contain/Entity/Setting.php:155-160 | clearing the elements of an array in turn keeps the state well formed |
| SettingEntity.ClearNamesWellFormed | src/Contain/Entity/Setting.php:151-158 | clearing a list of names keeps the state well formed |
| SettingEntity.ClearOneWellFormed | src/Contain/Entity/Setting.php:163-165 | clearing one property keeps the state well formed |
| SettingEntity.ClearUnsetsAll | src/Contain/Entity/Setting.php:149-168 | when each type accepts its own unset value, clear() succeeds, leaves no property set, marks dirty every property that was set, loses no dirty name and keeps the extended properties |
| SettingEntity.Setting.constructor | src/Contain/Entity/Setting.php:61-65 | a fresh entity has both fields null, nothing dirty, no extended properties and the cursor at 0 |
| SettingEntity.Setting.GetExtendedProperty | src/Contain/Entity/Setting.php:95-98 | the stored extended property, or null when there is none |
| SettingEntity.Setting.GetExtendedProperties | src/Contain/Entity/Setting.php:105-114 | the loop copies every extended property with its value, in order |
| SettingEntity.Setting.SetExtendedProperty | src/Contain/Entity/Setting.php:123-128 | the extended property is written, overwriting any earlier value, and reads back as written |
| SettingEntity.Setting.SetName | src/Contain/Entity/Setting.php:427-435 | the new state is SetField's for `name`, and a rejected value changes nothing |
| SettingEntity.Setting.SetValue | src/Contain/Entity/Setting.php:464-472 | the new state is SetField's for `value`, and a rejected value changes nothing |
| SettingEntity.Setting.Dirty | src/Contain/Entity/Setting.php:204-209 | dirty() lists declared properties only, each at most once, so at most two |
| SettingEntity.FlagsSomeField | src/Contain/Entity/Setting.php:231-234 | a dirty list of declared names is non-empty exactly when some property is listed |
| SettingEntity.Setting.IsDirty | src/Contain/Entity/Setting.php:231-234 | isDirty() holds exactly when some declared property is in the dirty list |
| SettingEntity.Setting.MarkDirty | src/Contain/Entity/Setting.php:217-224 | the dirty list is updated as Marked says, and marking a declared property makes the entity dirty |
| SettingEntity.Setting.Clean | src/Contain/Entity/Setting.php:177-197 | the recursive walk over the argument leaves the dirty list that Cleaned describes |
| SettingEntity.Setting.HasName | src/Contain/Entity/Setting.php:442-445 | hasName() holds exactly when properties() lists `name` |
| SettingEntity.Setting.HasValue | src/Contain/Entity/Setting.php:479-482 | hasValue() holds exactly when properties() lists `value` |
| SettingEntity.Setting.Properties | src/Contain/Entity/Setting.php:255-266 | properties() is PropertyNames of the current state |
| SettingEntity.Setting.ClearProperty | src/Contain/Entity/Setting.php:163-167 | clearing one name reaches ClearOne's state and error, and leaves the extended properties alone |
| SettingEntity.Setting.Clear | src/Contain/Entity/Setting.php:149-168 | clear() reaches Cleared's state and error, stopping at the first error, and leaves the extended properties alone |
| SettingEntity.Setting.ToArray | src/Contain/Entity/Setting.php:286-300 | the loop builds the rows that ListingRows characterises |
| SettingEntity.Setting.FromArray | src/Contain/Entity/Setting.php:310-358 | the loop reaches Hydrated's state and error, keeping the entity well formed |
| SettingEntity.Setting.HydratePair | src/Contain/Entity/Setting.php:316-354 | one pair of the loop reaches Step's state and error |
| SettingEntity.Setting.Export | src/Contain/Entity/Setting.php:368-408 | an unusable filter is rejected; otherwise the result is the rows that ExportedRows characterises |
| SettingEntity.Setting.ExportFiltered | src/Contain/Entity/Setting.php:392-405 | the loop exports each listed property that passes the filter and, without includeUnset, whose shown value is not the unset value |
| SettingEntity.Setting.Rewind | src/Contain/Entity/Setting.php:489-492 | the cursor returns to 0 |
| SettingEntity.Setting.Next | src/Contain/Entity/Setting.php:522-525 | the cursor advances by one |
| SettingEntity.Setting.CurrentKey | src/Contain/Entity/Setting.php:511-515 | key() is the name of the set property under the cursor, and null past the end |
| SettingEntity.Setting.ValidPosition | src/Contain/Entity/Setting.php:532-536 | valid() holds only when the cursor is inside properties(false), which has at most two entries, and the property under it is not at its type's unset value |
| SettingEntity.Setting.Current | src/Contain/Entity/Setting.php:499-504 | current() yields a value exactly when valid() holds, and that value is the stored value of the set property under the cursor |
| EntityDefinition.Lower | src/Contain/Entity/Definition/AbstractDefinition.php:165 | the folded name has the same length, folds each character on its own, and contains no upper-case ASCII letter |
| EntityDefinition.LowerIdempotent | src/Contain/Entity/Definition/AbstractDefinition.php:165 | folding a folded name changes nothing |
| EntityDefinition.SameNameCharwise | src/Contain/Entity/Definition/AbstractDefinition.php:165 | `strcasecmp` reports equality exactly when both names have the same length and agree at every position up to ASCII case |
| EntityDefinition.SameNameEquivalence | src/Contain/Entity/Definition/AbstractDefinition.php:165 | matching up to case is reflexive, symmetric and transitive |
| EntityDefinition.FirstMatch | src/Contain/Entity/Definition/AbstractDefinition.php:162-171 | the first position whose name matches up to case, or none exactly when no name matches |
| EntityDefinition.OnlyMatch | src/Contain/Entity/Definition/AbstractDefinition.php:162-171 | in a list with unique names, the first match is the only match |
| EntityDefinition.Removed | src/Contain/Entity/Definition/AbstractDefinition.php:196-207 | removeProperty() drops the first matching declaration and closes the gap, keeping the others in order; with no match it changes nothing |
| EntityDefinition.RemovedUnique | src/Contain/Entity/Definition/AbstractDefinition.php:196-207 | removal keeps names unique, and then no declaration of that name is left |
| EntityDefinition.RemovedMembers | src/Contain/Entity/Definition/AbstractDefinition.php:196-207 | removal brings in nothing new, and with unique names it keeps every declaration of another name |
| EntityDefinition.Registered | src/Contain/Entity/Definition/AbstractDefinition.php:143-150 | setProperty() ends the list with the new declaration, replacing a same-named one (same length) or appending (one longer) |
| EntityDefinition.RegisteredUnique | src/Contain/Entity/Definition/AbstractDefinition.php:131-154 | setProperty() keeps names unique up to case |
| EntityDefinition.RegisteredMembers | src/Contain/Entity/Definition/AbstractDefinition.php:131-154 | setProperty() brings in only the new declaration, and with unique names it keeps every declaration of another name |
| EntityDefinition.RegisteredNames | src/Contain/Entity/Definition/AbstractDefinition.php:131-154 | after setProperty() the list has a name iff it had it before or the new declaration has it |
| EntityDefinition.ImportFromLast | src/Contain/Entity/Definition/AbstractDefinition.php:344-346 | importing never shortens the list, and after importing a non-empty definition its last declaration is the last one |
| EntityDefinition.ImportFromMembers | src/Contain/Entity/Definition/AbstractDefinition.php:344-346 | importing brings in nothing but the other definition's declarations |
| EntityDefinition.SelfImport | src/Contain/Entity/Definition/AbstractDefinition.php:344-346 | a definition importing itself keeps the number of its declarations |
| EntityDefinition.ImportFromUnique | src/Contain/Entity/Definition/AbstractDefinition.php:344-346 | importing another definition keeps names unique |
| EntityDefinition.SelfImportUnique | src/Contain/Entity/Definition/AbstractDefinition.php:344-346 | importing a definition into itself keeps names unique |
| EntityDefinition.ImportFromResult | src/Contain/Entity/Definition/AbstractDefinition.php:344-346 | importing a definition with unique names yields the own declarations it does not override, in order, followed by all of its declarations in its own order |
| EntityDefinition.SelfImportPermutes | src/Contain/Entity/Definition/AbstractDefinition.php:344-346 | a definition importing itself ends with the same declarations, possibly reordered |
| EntityDefinition.OptionsRun | src/Contain/Entity/Definition/AbstractDefinition.php:495-508 | setOptions() never adds or removes an option key; an error names one of the given keys, and a run without error met only keys that were present |
| EntityDefinition.OptionsRunStops | src/Contain/Entity/Definition/AbstractDefinition.php:503-505 | when setOptions() fails, the pairs before the failing one all went through (the run over just those pairs ends without error in the options reached), and the failing key is not set in those options |
| EntityDefinition.OptionsRunKeeps | src/Contain/Entity/Definition/AbstractDefinition.php:517-529 | setting other options leaves an option's value as it was |
| EntityDefinition.OptionsRunWrites | src/Contain/Entity/Definition/AbstractDefinition.php:503-505 | a run over distinct keys that meets no error stores every given pair |
| EntityDefinition.Definition.constructor | src/Contain/Entity/Definition/AbstractDefinition.php:50-97 | a new definition has no declarations, the options extended=false, iteration=true and events=false, and empty entity and filter targets |
| EntityDefinition.Definition.HasProperty | src/Contain/Entity/Definition/AbstractDefinition.php:179-188 | hasProperty() holds iff some declaration's name matches up to case |
| EntityDefinition.Definition.GetProperty | src/Contain/Entity/Definition/AbstractDefinition.php:162-171 | getProperty() returns the first declaration matching up to case, and fails iff there is none |
| EntityDefinition.Definition.RemoveProperty | src/Contain/Entity/Definition/AbstractDefinition.php:196-207 | the loop leaves the list that Removed describes |
| EntityDefinition.Definition.SetProperty | src/Contain/Entity/Definition/AbstractDefinition.php:131-154 | a bare name without a type fails and leaves the list alone; otherwise the declaration is registered as Registered describes and returned |
| EntityDefinition.Definition.RegisterTarget | src/Contain/Entity/Definition/AbstractDefinition.php:221-233 | only the entity and filter keys are accepted; another key fails and leaves the targets unchanged; the key set is preserved |
| EntityDefinition.Definition.GetTarget | src/Contain/Entity/Definition/AbstractDefinition.php:253-263 | returns the stored path of a set target key (entity or filter) and fails for any other |
| EntityDefinition.Definition.SetOption | src/Contain/Entity/Definition/AbstractDefinition.php:517-529 | only an option key that is set (extended, iteration, events) is accepted; another key fails and changes nothing; every other option keeps its value |
| EntityDefinition.Definition.SetOptions | src/Contain/Entity/Definition/AbstractDefinition.php:495-508 | a non-array fails and changes nothing; an array is applied pair by pair as OptionsRun says, stopping at the first unknown key |
| EntityDefinition.Definition.GetOption | src/Contain/Entity/Definition/AbstractDefinition.php:547-550 | the stored option, or null for a key that is absent |
| EntityDefinition.Definition.RegisterImplementor | src/Contain/Entity/Definition/AbstractDefinition.php:455-459 | the interface is appended to the list |
| EntityDefinition.Definition.SetImplementors | src/Contain/Entity/Definition/AbstractDefinition.php:467-471 | the list is replaced |
| EntityDefinition.Definition.GetImplementors | src/Contain/Entity/Definition/AbstractDefinition.php:478-487 | the registered list, followed by `\Iterator` iff the iteration option is truthy and `Iterator` is not registered |
| EntityDefinition.Definition.Rewind | src/Contain/Entity/Definition/AbstractDefinition.php:270-273 | the cursor returns to 0 |
| EntityDefinition.Definition.Next | src/Contain/Entity/Definition/AbstractDefinition.php:300-303 | the cursor advances by one |
| EntityDefinition.CursorMatches | src/Contain/Entity/Definition/AbstractDefinition.php:310-313 | in a list with unique names, the declaration at a valid position is the first match of its own name |
| EntityDefinition.Definition.ValidPosition | src/Contain/Entity/Definition/AbstractDefinition.php:310-313 | valid() holds iff the cursor is on a declaration, and in a consistent definition that declaration is the one getProperty() of its name returns |
| EntityDefinition.Definition.CurrentKey | src/Contain/Entity/Definition/AbstractDefinition.php:290-293 | key() is the index of the declaration current() yields when valid() holds, and lies past the end otherwise |
| EntityDefinition.Definition.Current | src/Contain/Entity/Definition/AbstractDefinition.php:280-283 | current() yields a declaration exactly when valid() holds, and it is the one under the cursor |
| EntityDefinition.Definition.Import | src/Contain/Entity/Definition/AbstractDefinition.php:321-351 | walking the other definition with its own iterator registers its declarations as ImportFrom describes; walking itself gives SelfImport; names stay unique, the other definition's list is untouched, its cursor ends past the end, and it is appended to the imports |

## Left out

- `Property::watch`, `getEntityValue`, `getListEntityValue` and `getListValue` are left out. They register closures on an event manager and materialise entities through a database cursor. The model keeps the Property methods those listeners call.
- `getValue()` and `getPersistedValue()` pass a value through the type's `parse`, which is part of the type system. The model exposes the stored values instead.
- The type manager and the type classes are left out: `StringType`, `MixedType`, `typeManager()`, and the types' `export`, `parse`, unset, empty and default values. They are parameters of the model and are not interpreted.
- EntityProperty.Property.SetDirty: the source writes the property type's dirty value (`getType()->getDirtyValue()`). The model writes the reserved dirty marker `Value.Dirty` instead, because the types are parameters without a dirty value.
- EntityProperty.Property.SetDirtyAtIndex: the source fetches the slot's dirty value from the current value's entity type. The model writes the reserved dirty marker instead, because that lookup goes through a foreign entity object.
- `Traversable` arguments are left out. `setOptions`, `fromArray`, `clear`, `clean` and `export` are modelled for arrays only, because iteration over arbitrary objects is outside the model.
- Object identity is not modelled. `===` on values is datatype equality, and on arrays it is order-sensitive as in PHP.
- EntityProperty.ImportThenExport: Property snapshots are key/value maps, so the key order in which export() builds its array is not modelled, and the round trip holds up to that order.
- Non-string property names are not modelled. `markDirty` and the property names of `clear` are strings in the model, so `markDirty(true)` under PHP's loose `in_array` is not covered.
- Integer-like string keys are assumed to be normalised to integer keys before they reach the model.
- Loose comparison is not modelled apart from `in_array` in `export()`. That call follows PHP 8's rules: a property name matches an equal string or `true`. `switch` on fromArray's keys uses PHP 8's rules, so an integer key never matches a property name.
- Floats and string offsets are not modelled. `isset($s[$i])` on a string is taken as false.
- `AbstractDefinition::import()` with a class name is left out. It works by reflection (`is_subclass_of` and `new $definition`). Only the instance branch is modelled.
- `registerMethod` and `getRegisteredMethods` are left out: they rely on `method_exists` and build callables.
- The name, parent class and the plain getters are left out: `setName`, `getName`, `setParentClass`, `getParentClass`, `getImports`, `getTargets`, `getOptions`, `getTypeAlias` and `getParent` on Property, `typeManager`, and `type` on Setting beyond TypeNamed. They only store or return a field.
- EntityDefinition.Definition.constructor: it models the field initialisers with an empty `setUp()`. The source's constructor runs `setUp()` (AbstractDefinition.php:104-106), where a concrete definition registers its properties; such a `setUp()` is a sequence of `SetProperty` calls on the new definition. `init()` (AbstractDefinition.php:115-118) only forwards to the imported definitions' `init()`, and `Setting::init()` is empty, so neither is modelled.
- `Setting::primary()` is left out: it returns an empty array.
- EntityDefinition.Definition.SetProperty: the bare-name branch calls `new Property($name)` and `setType()`, but Property.php declares neither a constructor taking a name nor a `setType` method. As written, that branch stops on an undefined method after `removeProperty()` has already dropped the old declaration. The model registers a `(name, type)` declaration there, which is the evidently intended behaviour, not the text as written.
- `Setting::__construct`'s `$properties` argument is left out. It simply calls `fromArray`, which is modelled.
- SettingEntity.Setting.Current: past the end, the source calls an undefined getter, which is a fatal error. The model returns none there.
- EntityDefinition.Definition.Current: past the end, the source reads an undefined offset and returns null. The model returns none there.
- SettingEntity.Setting.Dirty: it states that the list is bounded and free of duplicates. It does not state the order in which properties became dirty beyond what SetField and Marked already say.
