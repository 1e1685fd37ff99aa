/**
  PHP values as the entity classes handle them: scalars, ordered arrays and the
  one-of-a-kind "dirty" marker, together with the array operations the classes
  perform (`$a[$k]`, `isset($a[$k])`, `$a[$k] = $v`, `unset($a[$k])`) and PHP's
  notion of an empty (falsy) value.
*/
module PhpValue {

  datatype Option<+T> = None | Some(value: T)

  datatype Result<+T, +E> = Ok(value: T) | Err(error: E)

  datatype Outcome<+E> = Pass | Fail(error: E)

  /** A PHP array key after PHP's own normalisation ("5" is stored as 5). */
  datatype Key = IntKey(n: int) | StrKey(s: string)

  /**
    A PHP value. Arrays keep their insertion order, so equality on `Arr` is PHP's
    identity `===` on arrays (same pairs, same order). `Dirty` is the marker a
    type hands out as its dirty value: an object no parsed or exported value is.
  */
  datatype Value =
    | Null
    | Bool(b: bool)
    | Int(n: int)
    | Str(s: string)
    | Arr(entries: seq<Entry>)
    | Dirty

  datatype Entry = Entry(key: Key, val: Value)

  /** PHP's `empty($v)`, equivalently `!$v` (floats are not modelled). */
  predicate Falsy(v: Value) {
    match v
    case Null => true
    case Bool(b) => !b
    case Int(n) => n == 0
    case Str(s) => s == "" || s == "0"
    case Arr(es) => es == []
    case Dirty => false
  }

  predicate HasKey(es: seq<Entry>, k: Key) {
    exists i :: 0 <= i < |es| && es[i].key == k
  }

  /** What every real PHP array satisfies: no key twice. */
  predicate UniqueKeys(es: seq<Entry>) {
    forall i, j :: 0 <= i < j < |es| ==> es[i].key != es[j].key
  }

  /** The entries of `v` when it is an array; `[]` otherwise (what `is_array` guards). */
  function EntriesOf(v: Value): seq<Entry> {
    if v.Arr? then v.entries else []
  }

  /** `$a[$k]` for a key that may be absent. */
  function Lookup(es: seq<Entry>, k: Key): (r: Option<Value>)
    ensures r.Some? <==> HasKey(es, k)
    ensures r.Some? ==> Entry(k, r.value) in es
  {
    if es == [] then None
    else if es[0].key == k then Some(es[0].val)
    else
      assert forall i :: 0 < i < |es| ==> es[i] == es[1..][i - 1];
      Lookup(es[1..], k)
  }

  /** `isset($v[$k])`: `$v` is an array holding `$k` with a non-null value. */
  predicate IsSet(v: Value, k: Key) {
    v.Arr? && Lookup(v.entries, k).Some? && Lookup(v.entries, k).value != Null
  }

  /** The keys of a non-empty array: its first key and the keys of the rest. */
  lemma HasKeyTail(es: seq<Entry>)
    requires es != []
    ensures forall k :: HasKey(es, k) <==> es[0].key == k || HasKey(es[1..], k)
  {
    forall k | HasKey(es, k) && es[0].key != k ensures HasKey(es[1..], k) {
      var i :| 0 <= i < |es| && es[i].key == k;
      assert es[1..][i - 1].key == k;
    }
    forall k | HasKey(es[1..], k) ensures HasKey(es, k) {
      var i :| 0 <= i < |es[1..]| && es[1..][i].key == k;
      assert es[i + 1].key == k;
    }
  }

  /** An array with `e` in front has unique keys iff the rest has and lacks `e`'s key. */
  lemma UniqueCons(e: Entry, rest: seq<Entry>)
    ensures UniqueKeys([e] + rest) <==> UniqueKeys(rest) && !HasKey(rest, e.key)
  {
    var es := [e] + rest;
    assert es[0] == e && es[1..] == rest;
    if UniqueKeys(es) {
      forall i | 0 <= i < |rest| ensures rest[i].key != e.key {
        assert rest[i] == es[i + 1];
      }
      forall i, j | 0 <= i < j < |rest| ensures rest[i].key != rest[j].key {
        assert rest[i] == es[i + 1] && rest[j] == es[j + 1];
      }
    }
    if UniqueKeys(rest) && !HasKey(rest, e.key) {
      forall i, j | 0 <= i < j < |es| ensures es[i].key != es[j].key {
        assert es[j] == rest[j - 1];
        assert rest[j - 1].key != e.key;
        if i > 0 {
          assert es[i] == rest[i - 1];
        }
      }
    }
  }

  /** In an array with unique keys, each key finds its own entry, and no earlier entry has it. */
  lemma LookupAt(es: seq<Entry>, i: nat)
    requires UniqueKeys(es) && i < |es|
    ensures Lookup(es, es[i].key) == Some(es[i].val)
    ensures !HasKey(es[..i], es[i].key)
  {
    var j :| 0 <= j < |es| && es[j] == Entry(es[i].key, Lookup(es, es[i].key).value);
    assert !(j < i) && !(i < j);
    forall j | 0 <= j < i ensures es[..i][j].key != es[i].key {
      assert es[..i][j] == es[j];
    }
  }

  /** Looking up a key in an array with `e` in front. */
  lemma LookupCons(e: Entry, rest: seq<Entry>)
    ensures forall k :: Lookup([e] + rest, k) == if e.key == k then Some(e.val) else Lookup(rest, k)
  {
    assert ([e] + rest)[1..] == rest;
  }

  /** The pairs of `$a[$k] = $v`, entry by entry: the first entry with key `$k` takes the value. */
  function Stored(es: seq<Entry>, k: Key, v: Value): seq<Entry> {
    if es == [] then [Entry(k, v)]
    else if es[0].key == k then [Entry(k, v)] + es[1..]
    else [es[0]] + Stored(es[1..], k, v)
  }

  lemma {:induction false} StoredLookup(es: seq<Entry>, k: Key, v: Value)
    ensures forall k' :: Lookup(Stored(es, k, v), k') == if k' == k then Some(v) else Lookup(es, k')
  {
    if es != [] {
      LookupCons(es[0], es[1..]);
      assert es == [es[0]] + es[1..];
      if es[0].key == k {
        LookupCons(Entry(k, v), es[1..]);
      } else {
        StoredLookup(es[1..], k, v);
        LookupCons(es[0], Stored(es[1..], k, v));
      }
    }
  }

  lemma {:induction false} StoredInPlace(es: seq<Entry>, k: Key, v: Value)
    requires HasKey(es, k)
    ensures |Stored(es, k, v)| == |es|
    ensures forall i :: 0 <= i < |es| ==> Stored(es, k, v)[i].key == es[i].key
  {
    HasKeyTail(es);
    if es[0].key != k {
      StoredInPlace(es[1..], k, v);
      var r := Stored(es, k, v);
      assert forall i :: 0 < i < |es| ==> r[i] == Stored(es[1..], k, v)[i - 1] && es[i] == es[1..][i - 1];
    }
  }

  lemma {:induction false} StoredAppends(es: seq<Entry>, k: Key, v: Value)
    requires !HasKey(es, k)
    ensures Stored(es, k, v) == es + [Entry(k, v)]
  {
    if es != [] {
      HasKeyTail(es);
      StoredAppends(es[1..], k, v);
      assert es == [es[0]] + es[1..];
    }
  }

  lemma {:induction false} StoredUnique(es: seq<Entry>, k: Key, v: Value)
    ensures UniqueKeys(es) ==> UniqueKeys(Stored(es, k, v))
  {
    if es != [] && UniqueKeys(es) {
      assert es == [es[0]] + es[1..];
      UniqueCons(es[0], es[1..]);
      if es[0].key == k {
        UniqueCons(Entry(k, v), es[1..]);
      } else {
        var rest := Stored(es[1..], k, v);
        StoredUnique(es[1..], k, v);
        StoredLookup(es[1..], k, v);
        RestKeys(es[1..], rest, k, es[0].key);
        UniqueCons(es[0], rest);
      }
    }
  }

  /** `$a[$k] = $v`: replaces the value in place when `$k` is present, appends otherwise. */
  function Assign(es: seq<Entry>, k: Key, v: Value): (r: seq<Entry>)
    ensures Lookup(r, k) == Some(v)
    ensures forall k' :: k' != k ==> Lookup(r, k') == Lookup(es, k')
    ensures HasKey(es, k) ==> |r| == |es| && forall i :: 0 <= i < |es| ==> r[i].key == es[i].key
    ensures !HasKey(es, k) ==> r == es + [Entry(k, v)]
  {
    StoredLookup(es, k, v);
    if HasKey(es, k) then
      StoredInPlace(es, k, v);
      Stored(es, k, v)
    else
      StoredAppends(es, k, v);
      Stored(es, k, v)
  }

  /** Keys other than the assigned one are in the result exactly when they were before. */
  lemma RestKeys(es: seq<Entry>, r: seq<Entry>, k: Key, other: Key)
    requires other != k
    requires Lookup(r, other) == Lookup(es, other)
    ensures HasKey(r, other) <==> HasKey(es, other)
  {
  }

  /** The pairs of `unset($a[$k])`, entry by entry. */
  function Dropped(es: seq<Entry>, k: Key): seq<Entry> {
    if es == [] then []
    else if es[0].key == k then Dropped(es[1..], k)
    else [es[0]] + Dropped(es[1..], k)
  }

  lemma {:induction false} DroppedLookup(es: seq<Entry>, k: Key)
    ensures forall k' :: Lookup(Dropped(es, k), k') == if k' == k then None else Lookup(es, k')
  {
    if es != [] {
      LookupCons(es[0], es[1..]);
      assert es == [es[0]] + es[1..];
      DroppedLookup(es[1..], k);
      if es[0].key != k {
        LookupCons(es[0], Dropped(es[1..], k));
      }
    }
  }

  lemma {:induction false} DroppedNothing(es: seq<Entry>, k: Key)
    requires !HasKey(es, k)
    ensures Dropped(es, k) == es
  {
    if es != [] {
      HasKeyTail(es);
      DroppedNothing(es[1..], k);
      assert es == [es[0]] + es[1..];
    }
  }

  lemma {:induction false} DroppedUnique(es: seq<Entry>, k: Key)
    ensures UniqueKeys(es) ==> UniqueKeys(Dropped(es, k))
  {
    if es != [] && UniqueKeys(es) {
      assert es == [es[0]] + es[1..];
      UniqueCons(es[0], es[1..]);
      DroppedUnique(es[1..], k);
      if es[0].key != k {
        var rest := Dropped(es[1..], k);
        DroppedLookup(es[1..], k);
        RestKeys(es[1..], rest, k, es[0].key);
        UniqueCons(es[0], rest);
      }
    }
  }

  /** In an array with unique keys, dropping a key is cutting out the one entry that has it. */
  lemma {:induction false} DroppedAt(es: seq<Entry>, k: Key, i: nat)
    requires UniqueKeys(es) && i < |es| && es[i].key == k
    ensures Dropped(es, k) == es[..i] + es[i + 1..]
  {
    assert es == [es[0]] + es[1..];
    UniqueCons(es[0], es[1..]);
    if i == 0 {
      DroppedNothing(es[1..], k);
    } else {
      assert es[1..][i - 1] == es[i];
      DroppedAt(es[1..], k, i - 1);
      assert es[1..][..i - 1] == es[1..i] && es[1..][i..] == es[i + 1..];
      assert [es[0]] + es[1..i] == es[..i];
    }
  }

  /** `unset($a[$k])`: drops `$k`, keeping the remaining entries in order. */
  function Remove(es: seq<Entry>, k: Key): (r: seq<Entry>)
    ensures !HasKey(r, k)
    ensures forall k' :: k' != k ==> Lookup(r, k') == Lookup(es, k')
    ensures !HasKey(es, k) ==> r == es
    ensures UniqueKeys(es) ==> forall i :: 0 <= i < |es| && es[i].key == k ==> r == es[..i] + es[i + 1..]
  {
    DroppedLookup(es, k);
    assert Lookup(Dropped(es, k), k) == None;
    forall i | 0 <= i < |es| && es[i].key == k && UniqueKeys(es) ensures Dropped(es, k) == es[..i] + es[i + 1..] {
      DroppedAt(es, k, i);
    }
    if HasKey(es, k) then
      Dropped(es, k)
    else
      DroppedNothing(es, k);
      Dropped(es, k)
  }

  /** `isset($a[$k]) ? $a[$k] : null`: the stored value, or null when the key is absent. */
  function ValueOrNull(es: seq<Entry>, k: Key): (v: Value)
    ensures HasKey(es, k) ==> Lookup(es, k) == Some(v)
    ensures !HasKey(es, k) ==> v == Null
  {
    if IsSet(Arr(es), k) then Lookup(es, k).value else Null
  }

  /** `$a[$k] = $v` never puts a key into an array twice. */
  lemma AssignUnique(es: seq<Entry>, k: Key, v: Value)
    requires UniqueKeys(es)
    ensures UniqueKeys(Assign(es, k, v))
  {
    StoredUnique(es, k, v);
  }

  /** `unset($a[$k])` keeps the keys of a real array distinct. */
  lemma RemoveUnique(es: seq<Entry>, k: Key)
    requires UniqueKeys(es)
    ensures UniqueKeys(Remove(es, k))
  {
    DroppedUnique(es, k);
  }

  /** Overwriting a key that is present leaves the set of keys as it was. */
  lemma AssignKeepsKeys(es: seq<Entry>, k: Key, v: Value)
    requires HasKey(es, k)
    ensures forall k' :: HasKey(Assign(es, k, v), k') <==> HasKey(es, k')
  {
    forall k' | k' != k ensures HasKey(Assign(es, k, v), k') <==> HasKey(es, k') {
      assert Lookup(Assign(es, k, v), k') == Lookup(es, k');
    }
  }

  /** The assignments `$a[$k] = $v` for every pair of `updates`, first to last. */
  function AssignAll(es: seq<Entry>, updates: seq<Entry>): seq<Entry>
  {
    if updates == [] then es
    else
      var last := updates[|updates| - 1];
      Assign(AssignAll(es, updates[..|updates| - 1]), last.key, last.val)
  }

  /** Copying a real PHP array pair by pair into an empty one rebuilds it exactly. */
  lemma {:induction false} AssignAllRebuilds(updates: seq<Entry>)
    requires UniqueKeys(updates)
    ensures AssignAll([], updates) == updates
  {
    if updates != [] {
      var n := |updates| - 1;
      var init := updates[..n];
      assert UniqueKeys(init);
      AssignAllRebuilds(init);
      assert !HasKey(init, updates[n].key) by {
        forall i | 0 <= i < |init| ensures init[i].key != updates[n].key {
          assert init[i] == updates[i];
        }
      }
      assert AssignAll([], updates) == Assign(init, updates[n].key, updates[n].val);
      assert init + [updates[n]] == updates;
    }
  }

  /** Assigning pairs one by one never puts a key into an array twice. */
  lemma {:induction false} AssignAllKeepsUnique(es: seq<Entry>, updates: seq<Entry>)
    requires UniqueKeys(es)
    ensures UniqueKeys(AssignAll(es, updates))
  {
    if updates != [] {
      var last := updates[|updates| - 1];
      AssignAllKeepsUnique(es, updates[..|updates| - 1]);
      AssignUnique(AssignAll(es, updates[..|updates| - 1]), last.key, last.val);
    }
  }
}
