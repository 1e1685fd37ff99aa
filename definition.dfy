/**
  An entity definition: the ordered list of property declarations an entity is
  compiled from, whose names are unique up to ASCII case, together with the
  compiler targets, the entity options, the imported definitions, the extra
  interfaces to implement and an iterator over the declarations.
*/
module EntityDefinition {
  import opened PhpValue

  /** A registered property, reduced to what the registry reads: its name and its type. */
  datatype Decl = Decl(name: string, kind: Value)

  /** setProperty()'s first argument: a property object, or a bare name. */
  datatype PropertyArg = Instance(decl: Decl) | Named(name: string)

  datatype DefinitionError =
    | MissingType                  // setProperty() with a bare name and an empty type
    | NoSuchProperty(name: string) // getProperty() of a name that is not registered
    | InvalidTarget(target: Key)   // registerTarget() / getTarget() with an unknown key
    | InvalidOption(option: Key)   // setOption() with an unknown key
    | OptionsNotArray              // setOptions() with something that cannot be iterated

  const EntityTarget: Key := StrKey("entity")
  const FilterTarget: Key := StrKey("filter")
  const IteratorName: string := "\\Iterator"

  function LowerChar(c: char): char {
    if 'A' <= c <= 'Z' then (c as int + 32) as char else c
  }

  /** ASCII lower case, the folding `strcasecmp` compares under. */
  function Lower(s: string): (r: string)
    ensures |r| == |s| && forall i :: 0 <= i < |s| ==> r[i] == LowerChar(s[i])
    ensures forall i :: 0 <= i < |r| ==> !('A' <= r[i] <= 'Z')
  {
    seq(|s|, i requires 0 <= i < |s| => LowerChar(s[i]))
  }

  /** Folding an already folded name changes nothing. */
  lemma LowerIdempotent(s: string)
    ensures Lower(Lower(s)) == Lower(s)
  {
    assert forall i :: 0 <= i < |s| ==> Lower(Lower(s))[i] == Lower(s)[i];
  }

  /** `!strcasecmp($a, $b)`. */
  predicate SameName(a: string, b: string) {
    Lower(a) == Lower(b)
  }

  /**
    Two names are the same for `strcasecmp` exactly when they have the same
    length and agree at every position up to ASCII case.
  */
  lemma SameNameCharwise(a: string, b: string)
    ensures SameName(a, b) <==> |a| == |b| && forall i :: 0 <= i < |a| ==> LowerChar(a[i]) == LowerChar(b[i])
  {
    if |a| == |b| && forall i :: 0 <= i < |a| ==> LowerChar(a[i]) == LowerChar(b[i]) {
      assert forall i :: 0 <= i < |a| ==> Lower(a)[i] == Lower(b)[i];
    }
  }

  /** Matching up to case is an equivalence, so "unique up to case" is well defined. */
  lemma SameNameEquivalence(a: string, b: string, c: string)
    ensures SameName(a, a)
    ensures SameName(a, b) ==> SameName(b, a)
    ensures SameName(a, b) && SameName(b, c) ==> SameName(a, c)
  {
  }

  predicate HasName(props: seq<Decl>, name: string) {
    exists i :: 0 <= i < |props| && SameName(props[i].name, name)
  }

  /** No two declarations whose names differ only in case. */
  predicate UniqueNames(props: seq<Decl>) {
    forall i, j :: 0 <= i < j < |props| ==> !SameName(props[i].name, props[j].name)
  }

  /** The position of the first declaration named `name`, up to case. */
  function FirstMatch(props: seq<Decl>, name: string): (r: Option<nat>)
    ensures r.None? <==> !HasName(props, name)
    ensures r.Some? ==>
      && r.value < |props|
      && SameName(props[r.value].name, name)
      && forall j :: 0 <= j < r.value ==> !SameName(props[j].name, name)
  {
    if props == [] then None
    else if SameName(props[0].name, name) then Some(0)
    else
      var rest := FirstMatch(props[1..], name);
      assert forall j :: 0 < j < |props| ==> props[j] == props[1..][j - 1];
      if rest.None? then None else Some(rest.value + 1)
  }

  /** In a list with unique names, the first match is the only match. */
  lemma OnlyMatch(props: seq<Decl>, name: string, i: nat)
    requires UniqueNames(props) && i < |props| && SameName(props[i].name, name)
    ensures FirstMatch(props, name) == Some(i)
  {
    var k := FirstMatch(props, name).value;
    if k < i {
      assert SameName(props[k].name, props[i].name);
    }
  }

  /**
    removeProperty(): the first declaration matching `name` is dropped and the
    list is re-indexed, the others keeping their order; no match, no change.
  */
  function Removed(props: seq<Decl>, name: string): (r: seq<Decl>)
    ensures !HasName(props, name) ==> r == props
    ensures HasName(props, name) ==>
      var i := FirstMatch(props, name).value;
      |r| == |props| - 1 && r == props[..i] + props[i + 1..]
  {
    var m := FirstMatch(props, name);
    if m.None? then props else props[..m.value] + props[m.value + 1..]
  }

  /** removeProperty() keeps names unique, and then no declaration of that name is left. */
  lemma RemovedUnique(props: seq<Decl>, name: string)
    requires UniqueNames(props)
    ensures UniqueNames(Removed(props, name)) && !HasName(Removed(props, name), name)
  {
    var r := Removed(props, name);
    if HasName(props, name) {
      var i := FirstMatch(props, name).value;
      assert forall j :: 0 <= j < |r| ==> r[j] == if j < i then props[j] else props[j + 1];
      forall j, k | 0 <= j < k < |r| ensures !SameName(r[j].name, r[k].name) {
        var j' := if j < i then j else j + 1;
        var k' := if k < i then k else k + 1;
        assert r[j] == props[j'] && r[k] == props[k'] && j' < k';
      }
      forall j | 0 <= j < |r| ensures !SameName(r[j].name, name) {
        var j' := if j < i then j else j + 1;
        assert r[j] == props[j'] && j' != i;
        assert !SameName(props[j'].name, props[i].name);
      }
    }
  }

  /**
    removeProperty() drops nothing but the declaration named `name`: what is
    left was there before, and in a list with unique names every declaration
    of another name stays.
  */
  lemma RemovedMembers(props: seq<Decl>, name: string)
    ensures forall d :: d in Removed(props, name) ==> d in props
    ensures UniqueNames(props) ==> forall d :: d in props && !SameName(d.name, name) ==> d in Removed(props, name)
  {
    var r := Removed(props, name);
    if HasName(props, name) {
      var i := FirstMatch(props, name).value;
      assert forall j :: 0 <= j < |r| ==> r[j] == if j < i then props[j] else props[j + 1];
      forall d | d in r ensures d in props {
        var j :| 0 <= j < |r| && r[j] == d;
      }
      if UniqueNames(props) {
        forall d | d in props && !SameName(d.name, name) ensures d in r {
          var j :| 0 <= j < |props| && props[j] == d;
          assert j != i;
          if j < i {
            assert r[j] == d;
          } else {
            assert r[j - 1] == d;
          }
        }
      }
    }
  }

  /**
    setProperty() of a declaration: any declaration with the same name, up to
    case, is removed, and the new one goes at the end.
  */
  function Registered(props: seq<Decl>, d: Decl): (r: seq<Decl>)
    ensures |r| > 0 && r[|r| - 1] == d
    ensures HasName(props, d.name) ==> |r| == |props|
    ensures !HasName(props, d.name) ==> r == props + [d]
  {
    Removed(props, d.name) + [d]
  }

  /** setProperty() keeps names unique. */
  lemma RegisteredUnique(props: seq<Decl>, d: Decl)
    requires UniqueNames(props)
    ensures UniqueNames(Registered(props, d))
  {
    var kept := Removed(props, d.name);
    var r := Registered(props, d);
    RemovedUnique(props, d.name);
    forall j, k | 0 <= j < k < |r| ensures !SameName(r[j].name, r[k].name) {
      if k == |r| - 1 {
        assert r[j] == kept[j];
        assert !SameName(kept[j].name, d.name);
      } else {
        assert r[j] == kept[j] && r[k] == kept[k];
      }
    }
  }

  /**
    setProperty() brings in no declaration but `d`, and in a list with unique
    names replaces only the declaration sharing `d`'s name.
  */
  lemma RegisteredMembers(props: seq<Decl>, d: Decl)
    ensures forall e :: e in Registered(props, d) ==> e in props || e == d
    ensures UniqueNames(props) ==> forall e :: e in props && !SameName(e.name, d.name) ==> e in Registered(props, d)
  {
    RemovedMembers(props, d.name);
  }

  /** Every name a list holds after registering `d`: its old names and `d`'s. */
  lemma RegisteredNames(props: seq<Decl>, d: Decl, name: string)
    ensures HasName(Registered(props, d), name) <==> HasName(props, name) || SameName(d.name, name)
  {
    var r := Registered(props, d);
    if HasName(props, name) && !SameName(d.name, name) {
      var i :| 0 <= i < |props| && SameName(props[i].name, name);
      if HasName(props, d.name) {
        var m := FirstMatch(props, d.name).value;
        var kept := Removed(props, d.name);
        assert i != m;
        var i' := if i < m then i else i - 1;
        assert kept[i'] == props[i];
        assert r[i'] == kept[i'];
      } else {
        assert r[i] == props[i];
      }
    }
    if HasName(r, name) {
      var i :| 0 <= i < |r| && SameName(r[i].name, name);
      if i < |r| - 1 {
        RegisteredMembers(props, d);
        assert r[i] in props;
        var j :| 0 <= j < |props| && props[j] == r[i];
      }
    }
  }

  /**
    import() of another definition: its declarations registered one by one
    from position `pos` on, in the order its iterator hands them out.
  */
  function ImportFrom(props: seq<Decl>, source: seq<Decl>, pos: nat): seq<Decl>
    decreases |source| - pos
  {
    if pos >= |source| then props
    else ImportFrom(Registered(props, source[pos]), source, pos + 1)
  }

  /** Importing never shortens the list, and the other definition's last declaration ends it. */
  lemma {:induction false} ImportFromLast(props: seq<Decl>, source: seq<Decl>, pos: nat)
    ensures |ImportFrom(props, source, pos)| >= |props|
    ensures pos < |source| ==> LastIs(ImportFrom(props, source, pos), source[|source| - 1])
    decreases |source| - pos
  {
    if pos < |source| {
      var next := Registered(props, source[pos]);
      assert ImportFrom(props, source, pos) == ImportFrom(next, source, pos + 1);
      ImportFromLast(next, source, pos + 1);
      if pos + 1 == |source| {
        assert ImportFrom(next, source, pos + 1) == next;
        assert LastIs(next, source[pos]);
      }
    }
  }

  predicate LastIs(s: seq<Decl>, d: Decl) {
    |s| > 0 && s[|s| - 1] == d
  }

  /** Importing brings in nothing but the other definition's declarations from `pos` on. */
  lemma {:induction false} ImportFromMembers(props: seq<Decl>, source: seq<Decl>, pos: nat, d: Decl)
    ensures d in ImportFrom(props, source, pos) ==> d in props || exists j :: pos <= j < |source| && source[j] == d
    decreases |source| - pos
  {
    if pos < |source| {
      var next := Registered(props, source[pos]);
      ImportFromMembers(next, source, pos + 1, d);
      RegisteredMembers(props, source[pos]);
      if d in ImportFrom(props, source, pos) && d !in props && d == source[pos] {
        assert source[pos] == d;
      }
    }
  }

  /**
    import() of a definition into itself: the iterator walks the very list
    being rewritten, so each step re-registers whatever now sits at `pos`.
  */
  function SelfImport(props: seq<Decl>, pos: nat): (r: seq<Decl>)
    ensures |r| == |props|
    decreases |props| - pos
  {
    if pos >= |props| then props
    else
      assert SameName(props[pos].name, props[pos].name);
      SelfImport(Registered(props, props[pos]), pos + 1)
  }

  /** Importing keeps names unique. */
  lemma {:induction false} ImportFromUnique(props: seq<Decl>, source: seq<Decl>, pos: nat)
    requires UniqueNames(props)
    ensures UniqueNames(ImportFrom(props, source, pos))
    decreases |source| - pos
  {
    if pos < |source| {
      RegisteredUnique(props, source[pos]);
      ImportFromUnique(Registered(props, source[pos]), source, pos + 1);
    }
  }

  /** Importing a definition into itself keeps names unique. */
  lemma {:induction false} SelfImportUnique(props: seq<Decl>, pos: nat)
    requires UniqueNames(props)
    ensures UniqueNames(SelfImport(props, pos))
    decreases |props| - pos
  {
    if pos < |props| {
      RegisteredUnique(props, props[pos]);
      SelfImportUnique(Registered(props, props[pos]), pos + 1);
    }
  }

  /** The declarations of `props` whose names no declaration of `names` carries, in order. */
  function Without(props: seq<Decl>, names: seq<Decl>): (r: seq<Decl>)
    ensures |r| <= |props|
  {
    if props == [] then []
    else (if HasName(names, props[0].name) then [] else [props[0]]) + Without(props[1..], names)
  }

  lemma {:induction false} WithoutAppend(a: seq<Decl>, b: seq<Decl>, names: seq<Decl>)
    ensures Without(a + b, names) == Without(a, names) + Without(b, names)
  {
    if a != [] {
      assert (a + b)[1..] == a[1..] + b;
      WithoutAppend(a[1..], b, names);
    } else {
      assert a + b == b;
    }
  }

  /** Filtering by two lists that agree on every name of `props` gives the same result. */
  lemma {:induction false} WithoutAgrees(props: seq<Decl>, x: seq<Decl>, y: seq<Decl>)
    requires forall k :: 0 <= k < |props| ==> (HasName(x, props[k].name) <==> HasName(y, props[k].name))
    ensures Without(props, x) == Without(props, y)
  {
    if props != [] {
      assert forall k :: 0 <= k < |props[1..]| ==> props[1..][k] == props[k + 1];
      WithoutAgrees(props[1..], x, y);
    }
  }

  lemma {:induction false} WithoutNothing(props: seq<Decl>)
    ensures Without(props, []) == props
  {
    if props != [] {
      WithoutNothing(props[1..]);
    }
  }

  lemma WithoutDropped(d: Decl, names: seq<Decl>)
    requires HasName(names, d.name)
    ensures Without([d], names) == []
  {
    assert [d][1..] == [];
  }

  /** Names a list `[d] + rest` carries: `d`'s and those of `rest`. */
  lemma ConsNames(d: Decl, rest: seq<Decl>, name: string)
    ensures HasName([d] + rest, name) <==> SameName(d.name, name) || HasName(rest, name)
  {
    var l := [d] + rest;
    if SameName(d.name, name) {
      assert SameName(l[0].name, name);
    }
    if HasName(l, name) && !SameName(d.name, name) {
      var i :| 0 <= i < |l| && SameName(l[i].name, name);
      assert rest[i - 1] == l[i];
    }
    if HasName(rest, name) {
      var i :| 0 <= i < |rest| && SameName(rest[i].name, name);
      assert l[i + 1] == rest[i];
    }
  }

  /** Filtering by `[d] + rest` or by `rest` is the same for declarations not named like `d`. */
  lemma WithoutSkips(xs: seq<Decl>, d: Decl, rest: seq<Decl>)
    requires forall k :: 0 <= k < |xs| ==> !SameName(d.name, xs[k].name)
    ensures Without(xs, rest) == Without(xs, [d] + rest)
  {
    forall k | 0 <= k < |xs| ensures HasName(rest, xs[k].name) <==> HasName([d] + rest, xs[k].name) {
      ConsNames(d, rest, xs[k].name);
    }
    WithoutAgrees(xs, rest, [d] + rest);
  }

  /** In a list with unique names, removing `d`'s name is filtering `d` out as well. */
  lemma WithoutRemoved(props: seq<Decl>, d: Decl, rest: seq<Decl>)
    requires UniqueNames(props)
    ensures Without(Removed(props, d.name), rest) == Without(props, [d] + rest)
  {
    if HasName(props, d.name) {
      var i := FirstMatch(props, d.name).value;
      var front, back := props[..i], props[i + 1..];
      forall k | 0 <= k < |back| ensures !SameName(d.name, back[k].name) {
        assert back[k] == props[i + 1 + k];
        assert !SameName(props[i].name, props[i + 1 + k].name);
      }
      WithoutDroppedAt(front, props[i], back, d, rest);
      assert props == front + [props[i]] + back;
    } else {
      WithoutSkips(props, d, rest);
    }
  }

  /** Dropping `x`, named like `d`, from between declarations not so named is filtering by `[d] + rest`. */
  lemma WithoutDroppedAt(front: seq<Decl>, x: Decl, back: seq<Decl>, d: Decl, rest: seq<Decl>)
    requires forall k :: 0 <= k < |front| ==> !SameName(d.name, front[k].name)
    requires forall k :: 0 <= k < |back| ==> !SameName(d.name, back[k].name)
    requires SameName(x.name, d.name)
    ensures Without(front + back, rest) == Without(front + [x] + back, [d] + rest)
  {
    var names := [d] + rest;
    assert Without(front, rest) == Without(front, names) by {
      WithoutSkips(front, d, rest);
    }
    assert Without(back, rest) == Without(back, names) by {
      WithoutSkips(back, d, rest);
    }
    assert Without([x], names) == [] by {
      ConsNames(d, rest, x.name);
      WithoutDropped(x, names);
    }
    calc {
      Without(front + back, rest);
      { WithoutAppend(front, back, rest); }
      Without(front, rest) + Without(back, rest);
      Without(front, names) + Without(back, names);
      { assert Without(front, names) + [] == Without(front, names); }
      Without(front, names) + Without([x], names) + Without(back, names);
      { WithoutAppend(front, [x], names); }
      Without(front + [x], names) + Without(back, names);
      { WithoutAppend(front + [x], back, names); }
      Without(front + [x] + back, names);
    }
  }

  /**
    Importing another definition with unique names keeps, in order, the own
    declarations it does not override, followed by all of its declarations in
    its own order.
  */
  lemma {:induction false} ImportFromResult(props: seq<Decl>, source: seq<Decl>, pos: nat)
    requires UniqueNames(props) && UniqueNames(source) && pos <= |source|
    ensures ImportFrom(props, source, pos) == Without(props, source[pos..]) + source[pos..]
    decreases |source| - pos
  {
    if pos == |source| {
      assert source[pos..] == [];
      WithoutNothing(props);
    } else {
      RegisteredUnique(props, source[pos]);
      ImportFromResult(Registered(props, source[pos]), source, pos + 1);
      ImportStep(props, source, pos);
    }
  }

  /** One import step in terms of the filtered list: register `source[pos]`, and the shape is kept. */
  lemma ImportStep(props: seq<Decl>, source: seq<Decl>, pos: nat)
    requires UniqueNames(props) && UniqueNames(source) && pos < |source|
    ensures Without(Registered(props, source[pos]), source[pos + 1..]) + source[pos + 1..]
      == Without(props, source[pos..]) + source[pos..]
  {
    var d, rest := source[pos], source[pos + 1..];
    var kept := Removed(props, d.name);
    var front := Without(kept, rest);
    SplitAt(source, pos);
    UniqueTail(source, pos);
    WithoutAppend(kept, [d], rest);
    WithoutSingle(d, rest);
    WithoutRemoved(props, d, rest);
    calc {
      Without(Registered(props, d), rest) + rest;
      Without(kept + [d], rest) + rest;
      (front + [d]) + rest;
      { assert (front + [d]) + rest == front + ([d] + rest); }
      front + ([d] + rest);
      Without(props, source[pos..]) + source[pos..];
    }
  }

  lemma SplitAt(source: seq<Decl>, pos: nat)
    requires pos < |source|
    ensures source[pos..] == [source[pos]] + source[pos + 1..]
  {
  }

  /** In a list with unique names, no later declaration shares the name at `pos`. */
  lemma UniqueTail(source: seq<Decl>, pos: nat)
    requires UniqueNames(source) && pos < |source|
    ensures !HasName(source[pos + 1..], source[pos].name)
  {
    var rest := source[pos + 1..];
    forall k | 0 <= k < |rest| ensures !SameName(rest[k].name, source[pos].name) {
      assert rest[k] == source[pos + 1 + k];
    }
  }

  lemma WithoutSingle(d: Decl, names: seq<Decl>)
    requires !HasName(names, d.name)
    ensures Without([d], names) == [d]
  {
    assert [d][1..] == [];
  }

  /** Registering a declaration that already sits at `pos` moves it to the end. */
  lemma RegisteredAgain(props: seq<Decl>, pos: nat)
    requires UniqueNames(props) && pos < |props|
    ensures Registered(props, props[pos]) == props[..pos] + props[pos + 1..] + [props[pos]]
  {
    assert SameName(props[pos].name, props[pos].name);
    OnlyMatch(props, props[pos].name, pos);
  }

  /** A definition importing itself ends with the same declarations, reordered. */
  lemma {:induction false} SelfImportPermutes(props: seq<Decl>, pos: nat)
    requires UniqueNames(props)
    ensures multiset(SelfImport(props, pos)) == multiset(props)
    decreases |props| - pos
  {
    if pos < |props| {
      var d := props[pos];
      RegisteredAgainPermutes(props, pos);
      RegisteredUnique(props, d);
      SelfImportPermutes(Registered(props, d), pos + 1);
    }
  }

  /** Re-registering the declaration at `pos` only reorders the list. */
  lemma RegisteredAgainPermutes(props: seq<Decl>, pos: nat)
    requires UniqueNames(props) && pos < |props|
    ensures multiset(Registered(props, props[pos])) == multiset(props)
  {
    var d := props[pos];
    RegisteredAgain(props, pos);
    assert props == props[..pos] + [d] + props[pos + 1..];
    calc {
      multiset(Registered(props, d));
      multiset(props[..pos]) + multiset(props[pos + 1..]) + multiset([d]);
      multiset(props[..pos]) + multiset([d]) + multiset(props[pos + 1..]);
      multiset(props);
    }
  }

  /** The options a definition starts with. */
  const DefaultOptions: seq<Entry> := [
    Entry(StrKey("extended"), Bool(false)),
    Entry(StrKey("iteration"), Bool(true)),
    Entry(StrKey("events"), Bool(false))
  ]

  /** The compiler targets a definition starts with, both empty paths. */
  const DefaultTargets: seq<Entry> := [Entry(EntityTarget, Str("")), Entry(FilterTarget, Str(""))]

  /**
    setOptions() over the pairs `es` from index `i` on: each pair goes through
    setOption(), and the first unknown key stops the run.
  */
  function OptionsRun(options: seq<Entry>, es: seq<Entry>, i: nat): (r: (seq<Entry>, Option<DefinitionError>))
    ensures forall k :: HasKey(r.0, k) <==> HasKey(options, k)
    ensures r.1.Some? ==> exists j :: i <= j < |es| && r.1 == Some(InvalidOption(es[j].key))
    ensures r.1.None? ==> forall j :: i <= j < |es| ==> HasKey(options, es[j].key)
    decreases |es| - i
  {
    if i >= |es| then (options, None)
    else if !IsSet(Arr(options), es[i].key) then (options, Some(InvalidOption(es[i].key)))
    else
      AssignKeepsKeys(options, es[i].key, es[i].val);
      OptionsRun(Assign(options, es[i].key, es[i].val), es, i + 1)
  }

  /**
    The run from `i` stopped at pair `j`: the pairs before it, from `i` on,
    all went through and led to the options `reached`, in which the key of
    pair `j` is not set.
  */
  predicate StoppedAt(options: seq<Entry>, es: seq<Entry>, i: nat, reached: seq<Entry>, j: nat) {
    && i <= j < |es|
    && OptionsRun(options, es[..j], i) == (reached, None)
    && !IsSet(Arr(reached), es[j].key)
    && forall a :: i <= a < j ==> HasKey(options, es[a].key)
  }

  /** setOptions() fails at the first key that is not set, having accepted every key before it. */
  lemma {:induction false} OptionsRunStops(options: seq<Entry>, es: seq<Entry>, i: nat)
    ensures OptionsRun(options, es, i).1.Some? ==>
      exists j: nat :: StoppedAt(options, es, i, OptionsRun(options, es, i).0, j)
                  && OptionsRun(options, es, i).1 == Some(InvalidOption(es[j].key))
    decreases |es| - i
  {
    if i < |es| {
      if !IsSet(Arr(options), es[i].key) {
        assert OptionsRun(options, es[..i], i) == (options, None);
        assert StoppedAt(options, es, i, OptionsRun(options, es, i).0, i);
      } else {
        var next := Assign(options, es[i].key, es[i].val);
        AssignKeepsKeys(options, es[i].key, es[i].val);
        OptionsRunStops(next, es, i + 1);
        var r := OptionsRun(next, es, i + 1);
        assert OptionsRun(options, es, i) == r;
        if r.1.Some? {
          var j: nat :| StoppedAt(next, es, i + 1, r.0, j) && r.1 == Some(InvalidOption(es[j].key));
          PrefixStep(options, es, i, j);
          assert StoppedAt(options, es, i, r.0, j);
        }
      }
    }
  }

  /** A run over the first `j` pairs takes its step at `i < j` as the full run does. */
  lemma PrefixStep(options: seq<Entry>, es: seq<Entry>, i: nat, j: nat)
    requires i < j <= |es| && IsSet(Arr(options), es[i].key)
    ensures OptionsRun(options, es[..j], i) == OptionsRun(Assign(options, es[i].key, es[i].val), es[..j], i + 1)
  {
    assert es[..j][i] == es[i];
  }

  /** setOptions() over pairs that never name `k` leaves `k` as it was. */
  lemma {:induction false} OptionsRunKeeps(options: seq<Entry>, es: seq<Entry>, i: nat, k: Key)
    requires forall a :: i <= a < |es| ==> es[a].key != k
    ensures Lookup(OptionsRun(options, es, i).0, k) == Lookup(options, k)
    decreases |es| - i
  {
    if i < |es| && IsSet(Arr(options), es[i].key) {
      OptionsRunKeeps(Assign(options, es[i].key, es[i].val), es, i + 1, k);
    }
  }

  /** A setOptions() run over distinct keys that meets no unknown key stores every pair. */
  lemma {:induction false} OptionsRunWrites(options: seq<Entry>, es: seq<Entry>, i: nat)
    requires forall a, b :: i <= a < b < |es| ==> es[a].key != es[b].key
    requires OptionsRun(options, es, i).1.None?
    ensures forall j :: i <= j < |es| ==> Lookup(OptionsRun(options, es, i).0, es[j].key) == Some(es[j].val)
    decreases |es| - i
  {
    if i < |es| {
      var next := Assign(options, es[i].key, es[i].val);
      assert OptionsRun(options, es, i) == OptionsRun(next, es, i + 1);
      var reached := OptionsRun(next, es, i + 1).0;
      OptionsRunWrites(next, es, i + 1);
      OptionsRunKeeps(next, es, i + 1, es[i].key);
      forall j | i <= j < |es| ensures Lookup(reached, es[j].key) == Some(es[j].val) {
        if j == i {
          assert Lookup(next, es[i].key) == Some(es[i].val);
        }
      }
    }
  }

  /** In a list with unique names, the declaration at `pos` is the first match of its own name. */
  lemma CursorMatches(props: seq<Decl>, pos: nat)
    ensures UniqueNames(props) && pos < |props| ==> FirstMatch(props, props[pos].name) == Some(pos)
  {
    if UniqueNames(props) && pos < |props| {
      assert SameName(props[pos].name, props[pos].name);
      OnlyMatch(props, props[pos].name, pos);
    }
  }

  class Definition {
    var properties: seq<Decl>
    var position: nat
    var options: seq<Entry>
    var imports: seq<Definition>
    var targets: seq<Entry>
    var implementors: seq<string>

    /** What every definition keeps: unique names, the fixed option and target keys. */
    ghost predicate Consistent()
      reads this`properties, this`options, this`targets
    {
      && UniqueNames(properties)
      && UniqueKeys(options) && (forall k :: HasKey(options, k) <==> HasKey(DefaultOptions, k))
      && UniqueKeys(targets) && (forall k :: HasKey(targets, k) <==> k == EntityTarget || k == FilterTarget)
    }

    /** A new definition: no properties, default options, empty targets. */
    constructor ()
      ensures properties == [] && position == 0 && imports == [] && implementors == []
      ensures options == DefaultOptions && targets == DefaultTargets
      ensures Consistent()
    {
      properties, position, imports, implementors := [], 0, [], [];
      options, targets := DefaultOptions, DefaultTargets;
      assert forall k :: HasKey(DefaultTargets, k) ==> k == DefaultTargets[0].key || k == DefaultTargets[1].key;
      assert HasKey(DefaultTargets, DefaultTargets[1].key);
    }

    /** hasProperty(): some declaration has this name, up to case. */
    method HasProperty(name: string) returns (found: bool)
      ensures found <==> HasName(properties, name)
    {
      var i := 0;
      while i < |properties|
        invariant 0 <= i <= |properties|
        invariant forall j :: 0 <= j < i ==> !SameName(properties[j].name, name)
      {
        if SameName(properties[i].name, name) {
          return true;
        }
        i := i + 1;
      }
      return false;
    }

    /** getProperty(): the first declaration with this name, up to case, or an error. */
    method GetProperty(name: string) returns (r: Result<Decl, DefinitionError>)
      ensures r.Ok? <==> HasName(properties, name)
      ensures r.Ok? ==> r.value == properties[FirstMatch(properties, name).value]
      ensures r.Err? ==> r.error == NoSuchProperty(name)
    {
      var i := 0;
      while i < |properties|
        invariant 0 <= i <= |properties|
        invariant forall j :: 0 <= j < i ==> !SameName(properties[j].name, name)
      {
        if SameName(properties[i].name, name) {
          var m := FirstMatch(properties, name).value;
          assert !(m < i) && !(i < m);
          return Ok(properties[i]);
        }
        i := i + 1;
      }
      return Err(NoSuchProperty(name));
    }

    /** removeProperty(): drop the first match, then close the gap. */
    method RemoveProperty(name: string)
      requires Consistent()
      modifies this`properties
      ensures Consistent()
      ensures properties == Removed(old(properties), name)
    {
      RemovedUnique(properties, name);
      var i := 0;
      while i < |properties|
        invariant 0 <= i <= |properties|
        invariant properties == old(properties)
        invariant forall j :: 0 <= j < i ==> !SameName(properties[j].name, name)
      {
        if SameName(properties[i].name, name) {
          var m := FirstMatch(properties, name).value;
          assert !(m < i) && !(i < m);
          properties := properties[..i] + properties[i + 1..];
          return;
        }
        i := i + 1;
      }
    }

    /** setProperty(). */
    method SetProperty(arg: PropertyArg, kind: Value) returns (r: Result<Decl, DefinitionError>)
      requires Consistent()
      modifies this`properties
      ensures Consistent()
      ensures arg.Named? && Falsy(kind) ==> r == Err(MissingType) && properties == old(properties)
      ensures arg.Instance? ==> r == Ok(arg.decl)
      ensures arg.Named? && !Falsy(kind) ==> r == Ok(Decl(arg.name, kind))
      ensures r.Ok? ==> properties == Registered(old(properties), r.value)
    {
      var name := if arg.Instance? then arg.decl.name else arg.name;
      if arg.Named? && Falsy(kind) {
        return Err(MissingType);
      }
      var d := if arg.Instance? then arg.decl else Decl(arg.name, kind);
      RegisteredUnique(properties, d);
      RemoveProperty(name);
      properties := properties + [d];
      r := Ok(d);
    }

    /** registerTarget(): only a key that is set may be written. */
    method RegisterTarget(target: Key, path: Value) returns (r: Outcome<DefinitionError>)
      requires Consistent()
      modifies this`targets
      ensures Consistent()
      ensures !IsSet(Arr(old(targets)), target) ==> r == Fail(InvalidTarget(target)) && targets == old(targets)
      ensures IsSet(Arr(old(targets)), target) ==> r == Pass && targets == Assign(old(targets), target, path)
      ensures r.Pass? ==> target == EntityTarget || target == FilterTarget
    {
      if !IsSet(Arr(targets), target) {
        return Fail(InvalidTarget(target));
      }
      AssignKeepsKeys(targets, target, path);
      targets := Assign(targets, target, path);
      r := Pass;
    }

    /** getTarget(): the path stored under a key that is set, or an error. */
    function GetTarget(target: Key): (r: Result<Value, DefinitionError>)
      reads this
      requires Consistent()
      ensures r.Ok? <==> IsSet(Arr(targets), target)
      ensures r.Ok? ==> (target == EntityTarget || target == FilterTarget) && Entry(target, r.value) in targets
      ensures r.Err? ==> r.error == InvalidTarget(target)
    {
      if IsSet(Arr(targets), target) then Ok(Lookup(targets, target).value) else Err(InvalidTarget(target))
    }

    /** setOption(): only a key that is set may be written; nothing else changes. */
    method SetOption(option: Key, value: Value) returns (r: Outcome<DefinitionError>)
      requires Consistent()
      modifies this`options
      ensures Consistent()
      ensures !IsSet(Arr(old(options)), option) ==> r == Fail(InvalidOption(option)) && options == old(options)
      ensures IsSet(Arr(old(options)), option) ==> r == Pass && options == Assign(old(options), option, value)
      ensures r.Pass? ==> HasKey(DefaultOptions, option)
      ensures forall k :: k != option ==> Lookup(options, k) == Lookup(old(options), k)
    {
      if !IsSet(Arr(options), option) {
        return Fail(InvalidOption(option));
      }
      AssignKeepsKeys(options, option, value);
      options := Assign(options, option, value);
      r := Pass;
    }

    /** setOptions(): every pair through setOption(), stopping at the first unknown key. */
    method SetOptions(opts: Value) returns (r: Outcome<DefinitionError>)
      requires Consistent()
      modifies this`options
      ensures Consistent()
      ensures !opts.Arr? ==> r == Fail(OptionsNotArray) && options == old(options)
      ensures opts.Arr? ==> options == OptionsRun(old(options), opts.entries, 0).0
      ensures opts.Arr? ==> (r.Fail? <==> OptionsRun(old(options), opts.entries, 0).1.Some?)
      ensures opts.Arr? && r.Fail? ==> r.error == OptionsRun(old(options), opts.entries, 0).1.value
    {
      if !opts.Arr? {
        return Fail(OptionsNotArray);
      }
      var es := opts.entries;
      var i := 0;
      while i < |es|
        invariant 0 <= i <= |es|
        invariant Consistent()
        invariant OptionsRun(old(options), es, 0) == OptionsRun(options, es, i)
      {
        r := SetOption(es[i].key, es[i].val);
        if r.Fail? {
          return;
        }
        i := i + 1;
      }
      r := Pass;
    }

    /** getOption(): the stored value of a key that is set, or null. */
    function GetOption(option: Key): (v: Value)
      reads this
      ensures HasKey(options, option) ==> Lookup(options, option) == Some(v)
      ensures !HasKey(options, option) ==> v == Null
    {
      ValueOrNull(options, option)
    }

    method RegisterImplementor(implementor: string)
      requires Consistent()
      modifies this`implementors
      ensures Consistent()
      ensures implementors == old(implementors) + [implementor]
    {
      implementors := implementors + [implementor];
    }

    method SetImplementors(list: seq<string>)
      requires Consistent()
      modifies this`implementors
      ensures Consistent()
      ensures implementors == list
    {
      implementors := list;
    }

    /**
      getImplementors(): the registered interfaces, plus `\Iterator` when
      iteration is on and `Iterator` is not registered.
    */
    function GetImplementors(): (r: seq<string>)
      reads this
      ensures |r| >= |implementors| && r[..|implementors|] == implementors
      ensures |r| == |implementors| + 1 <==> !Falsy(GetOption(StrKey("iteration"))) && "Iterator" !in implementors
      ensures |r| == |implementors| + 1 ==> r[|implementors|] == IteratorName
      ensures |r| <= |implementors| + 1
    {
      if !Falsy(GetOption(StrKey("iteration"))) && "Iterator" !in implementors
      then implementors + [IteratorName]
      else implementors
    }

    method Rewind()
      requires Consistent()
      modifies this`position
      ensures Consistent()
      ensures position == 0
    {
      position := 0;
    }

    method Next()
      requires Consistent()
      modifies this`position
      ensures Consistent()
      ensures position == old(position) + 1
    {
      position := position + 1;
    }

    /**
      valid(): the cursor is on a declaration, and in a consistent definition
      that declaration is the one getProperty() of its own name finds.
    */
    predicate ValidPosition()
      reads this
      ensures ValidPosition() <==> position < |properties|
      ensures Consistent() && ValidPosition() ==>
        position < |properties| && FirstMatch(properties, properties[position].name) == Some(position)
    {
      CursorMatches(properties, position);
      position < |properties|
    }

    /** current(): the declaration under the cursor; none past the end. */
    function Current(): (d: Option<Decl>)
      reads this
      ensures d.Some? <==> ValidPosition()
      ensures d.Some? ==> d.value == properties[position]
    {
      if position < |properties| then Some(properties[position]) else None
    }

    /** key(): the index of the declaration current() yields. */
    function CurrentKey(): (k: nat)
      reads this
      ensures ValidPosition() ==> k < |properties| && Current() == Some(properties[k])
      ensures !ValidPosition() ==> k >= |properties| && Current().None?
    {
      position
    }

    /**
      import() of a definition object: walk it with its own iterator, register
      each declaration, then remember it among the imports.
    */
    method Import(other: Definition)
      requires Consistent() && other.Consistent()
      modifies this`properties, this`imports, other`position
      ensures Consistent()
      ensures other != this ==> properties == ImportFrom(old(properties), old(other.properties), 0)
      ensures other == this ==> properties == SelfImport(old(properties), 0)
      ensures other != this ==> other.properties == old(other.properties)
      ensures other.position == |other.properties|
      ensures imports == old(imports) + [other]
    {
      other.Rewind();
      ghost var start := properties;
      ghost var source := other.properties;
      ghost var aliased := other == this;
      while other.ValidPosition()
        invariant Consistent() && other.Consistent()
        invariant !aliased ==> other.properties == source
        invariant aliased ==> |properties| == |start|
        invariant other.position <= |other.properties|
        invariant !aliased ==> ImportFrom(start, source, 0) == ImportFrom(properties, source, other.position)
        invariant aliased ==> SelfImport(start, 0) == SelfImport(properties, other.position)
        invariant imports == old(imports)
        decreases |other.properties| - other.position
      {
        var d := other.Current().value;
        ghost var before, pos := properties, other.position;
        assert !aliased ==> d == source[pos];
        assert aliased ==> d == before[pos];
        var added := SetProperty(Instance(d), Null);
        RegisteredUnique(before, d);
        other.Next();
        assert properties == Registered(before, d);
        assert aliased ==> SelfImport(before, pos) == SelfImport(properties, pos + 1);
        assert !aliased ==> ImportFrom(before, source, pos) == ImportFrom(properties, source, pos + 1);
      }
      imports := imports + [other];
    }
  }
}
