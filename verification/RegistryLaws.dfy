/** Batch and one-by-one registration agree; names stay distinct; a frozen registry can execute. */
module RegistryLaws {
  import opened Wrappers
  import opened Registry

  // ─── What a sequence of entries brings along ──────────────────

  function Actions(entries: seq<Entry>): seq<string>
    requires forall e :: e in entries ==> HasAction(e.0)
    decreases |entries|
  {
    if entries == [] then []
    else assert HasAction(entries[0].0); [entries[0].0.action.value] + Actions(entries[1..])
  }

  function AllNames(entries: seq<Entry>): seq<string>
    decreases |entries|
  {
    if entries == [] then [] else Names(entries[0].0) + AllNames(entries[1..])
  }

  /** Every action is set and new, and no name is used twice or already taken. */
  ghost predicate Admissible(table: Table, entries: seq<Entry>) {
    && (forall e :: e in entries ==> HasAction(e.0))
    && Distinct(Actions(entries), table.Keys)
    && Distinct(AllNames(entries), Occupied(table))
  }

  /** No entry's action has a record yet. */
  ghost predicate NewActions(table: Table, entries: seq<Entry>) {
    forall e :: e in entries && HasAction(e.0) ==> e.0.action.value !in table
  }

  lemma Uncons(entries: seq<Entry>)
    requires entries != []
    ensures forall e :: e in entries <==> e == entries[0] || e in entries[1..]
  {
  }

  lemma OccupiedInsert(table: Table, entry: Entry)
    requires HasAction(entry.0) && RecordAt(table, entry.0.action.value).manifest.None?
    ensures Occupied(Insert(table, entry)) == Occupied(table) + Elements(Names(entry.0))
  {
    var key := entry.0.action.value;
    var table' := Insert(table, entry);
    forall n | n in Occupied(table) + Elements(Names(entry.0)) ensures n in Occupied(table') {
      if n in Occupied(table) {
        var k :| k in table && table[k].manifest.Some? && n in Names(table[k].manifest.value);
        assert table'[k] == table[k];
      } else {
        assert key in table' && n in Names(table'[key].manifest.value);
      }
    }
  }

  /** Registering one by one succeeds exactly on admissible sequences. */
  lemma {:induction false} EachMeansAdmissible(s: State, entries: seq<Entry>)
    requires !s.frozen && NewActions(s.table, entries)
    ensures RegisterEach(s, entries).1 <==> Admissible(s.table, entries)
    decreases |entries|
  {
    if entries != [] {
      var e := entries[0];
      Uncons(entries);
      if HasAction(e.0) {
        ValidateNamesMeaning(s.table, e.0);
        DistinctSplit(Names(e.0), AllNames(entries[1..]), Occupied(s.table));
        if ValidateNames(s.table, e.0).None? {
          OccupiedInsert(s.table, e);
          EachStep(s, entries);
        }
      }
    }
  }

  lemma EachStep(s: State, entries: seq<Entry>)
    requires !s.frozen && NewActions(s.table, entries) && entries != [] && HasAction(entries[0].0)
    requires RegisterEntry(s, entries[0]).1.None?
    requires Occupied(Insert(s.table, entries[0])) == Occupied(s.table) + Elements(Names(entries[0].0))
    ensures RegisterEach(s, entries).1 <==>
            (forall e :: e in entries ==> HasAction(e.0))
            && Distinct(Actions(entries), s.table.Keys)
            && Distinct(AllNames(entries[1..]), Occupied(s.table) + Elements(Names(entries[0].0)))
    decreases |entries|, 0
  {
    var e := entries[0];
    var s' := s.(table := Insert(s.table, e));
    Uncons(entries);
    assert s'.table.Keys == s.table.Keys + {e.0.action.value};
    if NewActions(s'.table, entries[1..]) {
      EachMeansAdmissible(s', entries[1..]);
    } else {
      var d :| d in entries[1..] && HasAction(d.0) && d.0.action.value in s'.table;
      assert d.0.action.value == e.0.action.value;
      EachFailsOnTaken(s', entries[1..], d);
      if forall x :: x in entries ==> HasAction(x.0) {
        ActionsMember(entries[1..], d);
        DistinctMeaning(Actions(entries[1..]), s.table.Keys + {e.0.action.value});
      }
    }
  }

  lemma {:induction false} EachFailsOnTaken(s: State, entries: seq<Entry>, d: Entry)
    requires !s.frozen && d in entries && HasAction(d.0)
    requires d.0.action.value in s.table && Conflict(s.table, d.0.action.value).Some?
    ensures !RegisterEach(s, entries).1
    decreases |entries|
  {
    if entries[0] != d {
      var (s', error) := RegisterEntry(s, entries[0]);
      Uncons(entries);
      if error.None? {
        EachFailsOnTaken(s', entries[1..], d);
      }
    }
  }

  lemma {:induction false} ActionsMember(entries: seq<Entry>, d: Entry)
    requires forall e :: e in entries ==> HasAction(e.0)
    requires d in entries
    ensures HasAction(d.0) && d.0.action.value in Actions(entries)
    decreases |entries|
  {
    if entries[0] != d {
      ActionsMember(entries[1..], d);
    }
  }

  /** Batch validation passes exactly when actions and names are distinct and no name is taken. */
  lemma {:induction false} ValidateBatchMeaning(table: Table, entries: seq<Entry>,
                                                actions: set<string>, names: set<string>)
    ensures ValidateBatch(table, entries, actions, names).None? <==>
            (forall e :: e in entries ==> HasAction(e.0))
            && Distinct(Actions(entries), actions)
            && Distinct(AllNames(entries), names)
            && Elements(AllNames(entries)) !! Occupied(table)
    decreases |entries|
  {
    if entries != [] {
      var e := entries[0].0;
      Uncons(entries);
      if HasAction(e) {
        NamesDistinct(e, {});
        NamesDistinct(e, names);
        NamesDistinct(e, Occupied(table));
        assert {} + {e.publicName} == {e.publicName};
        ValidateNamesMeaning(table, e);
        DistinctSplit(Names(e), AllNames(entries[1..]), names);
        assert Elements(AllNames(entries)) == Elements(Names(e)) + Elements(AllNames(entries[1..]));
        ValidateBatchMeaning(table, entries[1..], actions + {e.action.value}, names + Elements(Names(e)));
      }
    }
  }

  lemma BatchMeansAdmissible(table: Table, entries: seq<Entry>)
    requires NewActions(table, entries)
    ensures ValidateBatch(table, entries, {}, {}).None? <==> Admissible(table, entries)
  {
    ValidateBatchMeaning(table, entries, {}, {});
    DistinctMeaning(AllNames(entries), {});
    DistinctMeaning(AllNames(entries), Occupied(table));
    if forall e :: e in entries ==> HasAction(e.0) {
      DistinctMeaning(Actions(entries), {});
      DistinctMeaning(Actions(entries), table.Keys);
      ActionsAreNew(table, entries);
    }
  }

  lemma {:induction false} ActionsAreNew(table: Table, entries: seq<Entry>)
    requires forall e :: e in entries ==> HasAction(e.0)
    requires NewActions(table, entries)
    ensures Elements(Actions(entries)) !! table.Keys
    decreases |entries|
  {
    if entries != [] {
      ActionsAreNew(table, entries[1..]);
    }
  }

  // ─── Order does not matter ────────────────────────────────────

  lemma {:induction false} ActionsSplit(a: seq<Entry>, b: seq<Entry>)
    requires forall e :: e in a + b ==> HasAction(e.0)
    ensures (forall e :: e in a ==> HasAction(e.0)) && (forall e :: e in b ==> HasAction(e.0))
    ensures Actions(a + b) == Actions(a) + Actions(b)
    decreases |a|
  {
    assert forall e :: e in a || e in b ==> e in a + b;
    if a == [] {
      assert a + b == b;
    } else {
      assert (a + b)[1..] == a[1..] + b;
      ActionsSplit(a[1..], b);
    }
  }

  lemma {:induction false} NamesSplit(a: seq<Entry>, b: seq<Entry>)
    ensures AllNames(a + b) == AllNames(a) + AllNames(b)
    decreases |a|
  {
    if a == [] {
      assert a + b == b;
    } else {
      assert (a + b)[1..] == a[1..] + b;
      NamesSplit(a[1..], b);
    }
  }

  lemma RemoveSame(a: seq<Entry>, b: seq<Entry>) returns (i: nat)
    requires multiset(a) == multiset(b) && a != []
    ensures i < |b| && b[i] == a[0] && b == b[..i] + ([a[0]] + b[i + 1..])
    ensures multiset(a[1..]) == multiset(b[..i] + b[i + 1..])
  {
    var e := a[0];
    assert e in multiset(b);
    i :| 0 <= i < |b| && b[i] == e;
    assert b == b[..i] + ([e] + b[i + 1..]);
    assert a == [e] + a[1..];
    assert multiset(a[1..]) == multiset(a) - multiset{e};
    assert multiset(b[..i] + b[i + 1..]) == multiset(b) - multiset{e};
  }

  lemma {:induction false} PermutedNames(a: seq<Entry>, b: seq<Entry>)
    requires multiset(a) == multiset(b)
    ensures multiset(AllNames(a)) == multiset(AllNames(b))
    decreases |a|
  {
    if a == [] {
      assert |b| == |multiset(b)| == 0;
    } else {
      var i := RemoveSame(a, b);
      var before, after := b[..i], b[i + 1..];
      PermutedNames(a[1..], before + after);
      NamesSplit(before, [a[0]] + after);
      NamesSplit(before, after);
      assert ([a[0]] + after)[1..] == after;
    }
  }

  lemma {:induction false} PermutedActions(a: seq<Entry>, b: seq<Entry>)
    requires multiset(a) == multiset(b) && forall e :: e in a ==> HasAction(e.0)
    ensures forall e :: e in b ==> HasAction(e.0)
    ensures multiset(Actions(a)) == multiset(Actions(b))
    decreases |a|
  {
    forall x | x in b ensures HasAction(x.0) {
      assert x in multiset(a);
    }
    if a == [] {
      assert |b| == |multiset(b)| == 0;
    } else {
      var i := RemoveSame(a, b);
      var before, after := b[..i], b[i + 1..];
      PermutedActions(a[1..], before + after);
      ActionsSplit(before, [a[0]] + after);
      ActionsSplit(before, after);
      assert ([a[0]] + after)[1..] == after;
    }
  }

  lemma AdmissiblePermuted(table: Table, a: seq<Entry>, b: seq<Entry>)
    requires multiset(a) == multiset(b) && Admissible(table, a)
    ensures Admissible(table, b)
  {
    PermutedNames(a, b);
    PermutedActions(a, b);
    DistinctMeaning(AllNames(a), Occupied(table));
    DistinctMeaning(AllNames(b), Occupied(table));
    DistinctMeaning(Actions(a), table.Keys);
    DistinctMeaning(Actions(b), table.Keys);
    assert forall x :: x in AllNames(b) <==> x in multiset(AllNames(b));
    assert forall x :: x in Actions(b) <==> x in multiset(Actions(b));
    assert forall x :: x in AllNames(a) <==> x in multiset(AllNames(a));
    assert forall x :: x in Actions(a) <==> x in multiset(Actions(a));
  }

  // ─── What registration leaves behind ──────────────────────────

  /** `table'` is `table` with one record for each entry. */
  ghost predicate Extends(table: Table, entries: seq<Entry>, table': Table) {
    && (forall e :: e in entries ==> HasAction(e.0))
    && (forall e :: e in entries ==>
          e.0.action.value in table' && table'[e.0.action.value] == Record(Some(e.0), Some(e.1)))
    && (forall k :: k in table ==> k in table')
    && (forall k :: k in table' ==>
          (k in table && table'[k] == table[k]) || (exists e :: e in entries && e.0.action.value == k))
  }

  lemma {:induction false} EachExtends(s: State, entries: seq<Entry>)
    requires !s.frozen && Admissible(s.table, entries)
    ensures var (s', ok) := RegisterEach(s, entries);
            ok && !s'.frozen && Extends(s.table, entries, s'.table)
    ensures Commit(s.table, entries) == (RegisterEach(s, entries).0.table, None)
    decreases |entries|
  {
    if entries != [] {
      var e := entries[0];
      Uncons(entries);
      ValidateNamesMeaning(s.table, e.0);
      DistinctSplit(Names(e.0), AllNames(entries[1..]), Occupied(s.table));
      OccupiedInsert(s.table, e);
      var s1 := s.(table := Insert(s.table, e));
      assert s1.table.Keys == s.table.Keys + {e.0.action.value};
      EachExtends(s1, entries[1..]);
      DistinctMeaning(Actions(entries[1..]), s1.table.Keys);
      var s' := RegisterEach(s1, entries[1..]).0;
      forall d | d in entries[1..] ensures d.0.action.value != e.0.action.value {
        ActionsMember(entries[1..], d);
      }
    }
  }

  lemma ExtendsUnique(table: Table, a: seq<Entry>, b: seq<Entry>, ta: Table, tb: Table)
    requires multiset(a) == multiset(b) && Extends(table, a, ta) && Extends(table, b, tb)
    requires forall e :: e in a ==> e.0.action.value !in table
    ensures ta == tb
  {
    assert forall e :: e in a <==> e in multiset(a);
    assert forall e :: e in b <==> e in multiset(b);
    forall k | k in ta ensures k in tb && ta[k] == tb[k] {
      if e :| e in a && e.0.action.value == k {
      } else {
        assert k in table;
      }
    }
    forall k | k in tb ensures k in ta {
      if e :| e in b && e.0.action.value == k {
      } else {
        assert k in table;
      }
    }
  }

  /**
   For actions without a record, the batch succeeds exactly when registering the same entries
   one by one, in any order, succeeds throughout; both then leave the same registry, and a
   refused batch leaves it unchanged.
   */
  lemma BatchEqualsSequence(s: State, entries: seq<Entry>, order: seq<Entry>)
    requires !s.frozen && NewActions(s.table, entries) && multiset(order) == multiset(entries)
    ensures RegisterBatch(s, entries).1.None? <==> RegisterEach(s, order).1
    ensures RegisterBatch(s, entries).1.None? ==> RegisterBatch(s, entries).0 == RegisterEach(s, order).0
    ensures RegisterBatch(s, entries).1.Some? ==> RegisterBatch(s, entries).0 == s
  {
    assert forall e :: e in order <==> e in multiset(order);
    assert forall e :: e in entries <==> e in multiset(entries);
    BatchMeansAdmissible(s.table, entries);
    EachMeansAdmissible(s, order);
    if Admissible(s.table, entries) {
      AdmissiblePermuted(s.table, entries, order);
      EachExtends(s, entries);
      EachExtends(s, order);
      ExtendsUnique(s.table, entries, order, RegisterEach(s, entries).0.table, RegisterEach(s, order).0.table);
    } else if Admissible(s.table, order) {
      AdmissiblePermuted(s.table, order, entries);
    }
  }

  // ─── Batches that meet existing records ───────────────────────

  predicate Taken(table: Table, entry: Entry) {
    HasAction(entry.0) && Conflict(table, entry.0.action.value).Some?
  }

  /** How many entries precede the first whose action is taken. */
  function FreePrefix(table: Table, entries: seq<Entry>): (k: nat)
    ensures k <= |entries|
    decreases |entries|
  {
    if entries == [] || Taken(table, entries[0]) then 0 else 1 + FreePrefix(table, entries[1..])
  }

  lemma {:induction false} FreePrefixInsert(table: Table, e: Entry, entries: seq<Entry>)
    requires HasAction(e.0) && forall d :: d in entries ==> HasAction(d.0) && d.0.action.value != e.0.action.value
    ensures FreePrefix(Insert(table, e), entries) == FreePrefix(table, entries)
    decreases |entries|
  {
    if entries != [] {
      FreePrefixInsert(table, e, entries[1..]);
    }
  }

  function InsertAll(table: Table, entries: seq<Entry>): Table
    requires forall e :: e in entries ==> HasAction(e.0)
    decreases |entries|
  {
    if entries == [] then table else assert entries[0] in entries; InsertAll(Insert(table, entries[0]), entries[1..])
  }

  lemma {:induction false} CommitPrefix(table: Table, entries: seq<Entry>)
    requires forall e :: e in entries ==> HasAction(e.0)
    requires Distinct(Actions(entries), {})
    ensures var k := FreePrefix(table, entries);
            && (forall e :: e in entries[..k] ==> HasAction(e.0))
            && Commit(table, entries).0 == InsertAll(table, entries[..k])
            && (Commit(table, entries).1.None? <==> k == |entries|)
    decreases |entries|
  {
    if entries != [] && !Taken(table, entries[0]) {
      var e := entries[0];
      var k := FreePrefix(table, entries[1..]);
      DistinctMeaning(Actions(entries[1..]), {} + {e.0.action.value});
      DistinctMeaning(Actions(entries[1..]), {});
      forall d | d in entries[1..] ensures d.0.action.value != e.0.action.value {
        ActionsMember(entries[1..], d);
      }
      FreePrefixInsert(table, e, entries[1..]);
      CommitPrefix(Insert(table, e), entries[1..]);
      assert entries[..k + 1][1..] == entries[1..][..k];
    }
  }

  lemma {:induction false} InsertAllRecords(table: Table, entries: seq<Entry>)
    requires forall e :: e in entries ==> HasAction(e.0)
    ensures forall e :: e in entries ==>
              HasAction(e.0) && RecordAt(InsertAll(table, entries), e.0.action.value).manifest.Some?
    ensures forall k :: RecordAt(table, k).manifest.Some? ==> RecordAt(InsertAll(table, entries), k).manifest.Some?
    decreases |entries|
  {
    if entries != [] {
      Uncons(entries);
      var e := entries[0];
      assert forall k :: RecordAt(table, k).manifest.Some? ==> RecordAt(Insert(table, e), k).manifest.Some?;
      assert RecordAt(Insert(table, e), e.0.action.value).manifest.Some?;
      InsertAllRecords(Insert(table, e), entries[1..]);
    }
  }

  /**
   In general, a batch that passes validation commits exactly the entries before the first
   whose action already has a manifest or handler.  So it is atomic if and only if it fails
   validation, meets no taken action, or meets one at its very first entry.
   */
  lemma BatchIsAtomicExactlyWhen(s: State, entries: seq<Entry>)
    requires !s.frozen
    ensures var (s', error) := RegisterBatch(s, entries);
            var k := FreePrefix(s.table, entries);
            var valid := ValidateBatch(s.table, entries, {}, {}).None?;
            && (error.None? <==> valid && k == |entries|)
            && (error.Some? ==> (s' == s <==> !valid || k == 0))
            && (valid ==>
                  (forall e :: e in entries[..k] ==> HasAction(e.0)) && s'.table == InsertAll(s.table, entries[..k]))
  {
    ValidateBatchMeaning(s.table, entries, {}, {});
    if ValidateBatch(s.table, entries, {}, {}).None? {
      CommitPrefix(s.table, entries);
      var k := FreePrefix(s.table, entries);
      if k > 0 {
        InsertAllRecords(s.table, entries[..k]);
        assert entries[..k][0] == entries[0];
        assert !Taken(s.table, entries[0]);
        assert RecordAt(s.table, entries[0].0.action.value).manifest.None?;
      }
    }
  }

  const NEW_ENTRY := (Manifest("web", "x", Some("p"), "web.x", Async, None, []), Rust(1))
  const TAKEN_ENTRY := (Manifest("web", "y", Some("q"), "web.y", Async, None, []), Rust(2))

  /** A batch whose second action already has a handler: refused, but its first entry stays. */
  lemma BatchStopsHalfway()
    ensures var s := State(map["q" := Record(None, Some(Rust(0)))], false);
            var (s', error) := RegisterBatch(s, [NEW_ENTRY, TAKEN_ENTRY]);
            error == Some(DuplicateHandler("q")) && s'.table == s.table["p" := Record(Some(NEW_ENTRY.0), Some(Rust(1)))]
  {
    var s := State(map["q" := Record(None, Some(Rust(0)))], false);
    var entries := [NEW_ENTRY, TAKEN_ENTRY];
    assert "web.x"[4] != "web.y"[4];
    assert Names(NEW_ENTRY.0) == ["web.x"] && Names(TAKEN_ENTRY.0) == ["web.y"];
    assert entries[1..] == [TAKEN_ENTRY] && [TAKEN_ENTRY][1..] == [];
    assert Occupied(s.table) == {};
    var names := {} + Elements(Names(NEW_ENTRY.0));
    assert names == {"web.x"} && "web.y" !in names;
    assert ValidateNames(s.table, NEW_ENTRY.0).None? && ValidateNames(s.table, TAKEN_ENTRY.0).None?;
    assert ValidateBatch(s.table, [TAKEN_ENTRY], {} + {"p"}, names).None?;
    assert ValidateBatch(s.table, entries, {}, {}).None?;
    var table := Insert(s.table, NEW_ENTRY);
    assert Commit(s.table, entries) == Commit(table, [TAKEN_ENTRY]) == (table, Some(DuplicateHandler("q")));
  }

  // ─── Names stay distinct ──────────────────────────────────────

  /** Each record is stored under its entry's action; no name belongs to two entries or twice to one. */
  ghost predicate NamesUnique(table: Table) {
    && (forall k :: k in table && table[k].manifest.Some? ==>
          table[k].manifest.value.action == Some(k) && k != "" && Distinct(Names(table[k].manifest.value), {}))
    && (forall j, k :: j in table && k in table && j != k && table[j].manifest.Some? && table[k].manifest.Some? ==>
          Elements(Names(table[j].manifest.value)) !! Elements(Names(table[k].manifest.value)))
  }

  lemma InsertKeepsNames(table: Table, entry: Entry)
    requires NamesUnique(table) && HasAction(entry.0) && RecordAt(table, entry.0.action.value).manifest.None?
    requires Distinct(Names(entry.0), Occupied(table))
    ensures NamesUnique(Insert(table, entry))
  {
    NamesDistinct(entry.0, Occupied(table));
    forall k | k in table && table[k].manifest.Some?
      ensures Elements(Names(table[k].manifest.value)) <= Occupied(table)
    {
      forall n | n in Elements(Names(table[k].manifest.value)) ensures n in Occupied(table) {
      }
    }
  }

  lemma {:induction false} CommitKeepsNames(table: Table, entries: seq<Entry>)
    requires NamesUnique(table) && (forall e :: e in entries ==> HasAction(e.0))
    requires Distinct(AllNames(entries), Occupied(table))
    ensures NamesUnique(Commit(table, entries).0)
    decreases |entries|
  {
    if entries != [] && Conflict(table, entries[0].0.action.value).None? {
      var e := entries[0];
      DistinctSplit(Names(e.0), AllNames(entries[1..]), Occupied(table));
      InsertKeepsNames(table, e);
      OccupiedInsert(table, e);
      CommitKeepsNames(Insert(table, e), entries[1..]);
    }
  }

  predicate Executable(op: Op) {
    !op.OpRegisterDoc? && !op.OpRegisterManifest?
  }

  lemma StepKeepsNames(s: State, op: Op)
    requires NamesUnique(s.table) && Executable(op)
    ensures NamesUnique(Apply(s, op).table)
  {
    match op {
      case OpRegisterEntry(entry) =>
        ValidateNamesMeaning(s.table, entry.0);
        if RegisterEntry(s, entry).1.None? {
          InsertKeepsNames(s.table, entry);
        }
      case OpRegisterBatch(entries) =>
        ValidateBatchMeaning(s.table, entries, {}, {});
        DistinctMeaning(AllNames(entries), {});
        DistinctMeaning(AllNames(entries), Occupied(s.table));
        if ValidateBatch(s.table, entries, {}, {}).None? {
          CommitKeepsNames(s.table, entries);
        }
      case _ =>
    }
  }

  lemma {:induction false} OpsKeepNames(s: State, ops: seq<Op>)
    requires NamesUnique(s.table) && forall op :: op in ops ==> Executable(op)
    ensures NamesUnique(ApplyAll(s, ops).table)
    decreases |ops|
  {
    if ops != [] {
      StepKeepsNames(s, ops[0]);
      OpsKeepNames(Apply(s, ops[0]), ops[1..]);
    }
  }

  /** Over any sequence of executable registrations, removals, clears and freezes. */
  lemma NamesStayUnique(ops: seq<Op>)
    requires forall op :: op in ops ==> Executable(op)
    ensures NamesUnique(ApplyAll(State(map[], false), ops).table)
  {
    OpsKeepNames(State(map[], false), ops);
  }

  lemma OccupiedMeaning(table: Table, n: string)
    ensures n in Occupied(table)
       <==> exists k :: k in table && table[k].manifest.Some? && n in Elements(Names(table[k].manifest.value))
  {
    if n in Occupied(table) {
      var k :| k in table && table[k].manifest.Some? && n in Names(table[k].manifest.value);
      assert n in Elements(Names(table[k].manifest.value));
    }
  }

  lemma FreeMeaning(table: Table, names: set<string>)
    ensures names !! Occupied(table)
       <==> forall k :: k in table && table[k].manifest.Some? ==> names !! Elements(Names(table[k].manifest.value))
  {
    hide Occupied, Names, Elements;
    forall n | n in names
      ensures n in Occupied(table)
         <==> exists k :: k in table && table[k].manifest.Some? && n in Elements(Names(table[k].manifest.value))
    {
      OccupiedMeaning(table, n);
    }
  }

  lemma OccupiedWithout(table: Table, key: string)
    requires RecordAt(table, key).manifest.None?
    ensures Occupied(table - {key}) == Occupied(table)
  {
    hide Occupied, Names, Elements;
    forall n ensures n in Occupied(table - {key}) <==> n in Occupied(table) {
      OccupiedMeaning(table, n);
      OccupiedMeaning(table - {key}, n);
      var others := table - {key};
      if n in Occupied(table) {
        var k :| k in table && table[k].manifest.Some? && n in Elements(Names(table[k].manifest.value));
        assert k in others && others[k] == table[k];
      }
      if n in Occupied(others) {
        var k :| k in others && others[k].manifest.Some? && n in Elements(Names(others[k].manifest.value));
        assert k in table && others[k] == table[k];
      }
    }
  }

  /** Replacing a record keeps names unique exactly when its entry fits among the other records. */
  lemma PutNamesExactly(table: Table, key: string, record: Record)
    requires NamesUnique(table) && record.manifest.Some?
    ensures NamesUnique(table[key := record])
       <==> && record.manifest.value.action == Some(key) && key != ""
            && Distinct(Names(record.manifest.value), Occupied(table - {key}))
  {
    var entry, others, table' := record.manifest.value, table - {key}, table[key := record];
    NamesDistinct(entry, Occupied(others));
    FreeMeaning(others, Elements(Names(entry)));
    hide Occupied, Names, Elements, Distinct;
    assert forall k :: k in table' && k != key ==> k in others && table'[k] == others[k] == table[k];
    assert forall k :: k in others ==> k in table' && k != key;
    assert key in table' && table'[key] == record;
  }

  /** What a caller of a metadata-only registration would have to check; the others check it themselves. */
  predicate KeepsNames(s: State, op: Op) {
    match op
    case OpRegisterManifest(entry) =>
      s.frozen || !HasAction(entry)
      || RecordAt(s.table, entry.action.value).manifest.Some? || PublicNameTaken(s.table, entry.publicName)
      || Distinct(Names(entry), Occupied(s.table))
    case OpRegisterDoc(doc) =>
      s.frozen || Known(s.table, doc)
      || (HasAction(doc) && Distinct(Names(doc), Occupied(s.table - {doc.action.value})))
    case _ => true
  }

  /** One operation, of any kind, keeps names unique exactly under that condition. */
  lemma StepKeepsNamesExactly(s: State, op: Op)
    requires NamesUnique(s.table)
    ensures NamesUnique(Apply(s, op).table) <==> KeepsNames(s, op)
  {
    match op {
      case OpRegisterManifest(entry) =>
        if RegisterManifest(s, entry).1.None? && HasAction(entry) {
          var action := entry.action.value;
          PutNamesExactly(s.table, action, RecordAt(s.table, action).(manifest := Some(entry)));
          OccupiedWithout(s.table, action);
        }
      case OpRegisterDoc(doc) =>
        if !s.frozen && !Known(s.table, doc) {
          PutNamesExactly(s.table, DocKey(doc), RecordAt(s.table, DocKey(doc)).(manifest := Some(doc)));
        }
      case _ => StepKeepsNames(s, op);
    }
  }

  predicate AllKeepNames(s: State, ops: seq<Op>)
    decreases |ops|
  {
    ops == [] || (KeepsNames(s, ops[0]) && AllKeepNames(Apply(s, ops[0]), ops[1..]))
  }

  ghost predicate NamesUniqueThroughout(s: State, ops: seq<Op>) {
    forall k :: 0 <= k <= |ops| ==> NamesUnique(ApplyAll(s, ops[..k]).table)
  }

  lemma ThroughoutStep(s: State, ops: seq<Op>)
    requires ops != [] && NamesUnique(s.table)
    ensures NamesUniqueThroughout(s, ops) <==> NamesUniqueThroughout(Apply(s, ops[0]), ops[1..])
  {
    hide NamesUnique, Apply;
    var s' := Apply(s, ops[0]);
    forall k | 0 < k <= |ops| ensures ApplyAll(s, ops[..k]) == ApplyAll(s', ops[1..][..k - 1]) {
      assert ops[..k][1..] == ops[1..][..k - 1];
    }
    if NamesUniqueThroughout(s, ops) {
      forall k | 0 <= k <= |ops[1..]| ensures NamesUnique(ApplyAll(s', ops[1..][..k]).table) {
        assert NamesUnique(ApplyAll(s, ops[..k + 1]).table);
      }
    }
  }

  /**
   Over any sequence of operations at all, names are unique at every point exactly when each
   metadata-only registration met the condition at its turn.
   */
  lemma {:induction false} NamesUniqueExactlyWhen(s: State, ops: seq<Op>)
    requires NamesUnique(s.table)
    ensures NamesUniqueThroughout(s, ops) <==> AllKeepNames(s, ops)
    decreases |ops|
  {
    hide NamesUnique, Apply, KeepsNames;
    if ops == [] {
      assert ops[..0] == [];
    } else {
      var s' := Apply(s, ops[0]);
      StepKeepsNamesExactly(s, ops[0]);
      ThroughoutStep(s, ops);
      if NamesUnique(s'.table) {
        NamesUniqueExactlyWhen(s', ops[1..]);
      } else {
        assert ops[1..][..0] == [];
        assert !NamesUnique(ApplyAll(s', ops[1..][..0]).table);
      }
    }
  }

  const PLAIN := Manifest("web", "x", Some("p"), "web.x", Async, None, [])
  const CLASHING := Manifest("web", "y", Some("q"), "web.y", Async, None, [Alias("web", "x", None)])

  /** The metadata-only path compares public names but no aliases, and lets this clash in. */
  lemma ManifestPathMissesAliases()
    ensures var s := ApplyAll(State(map[], false), [OpRegisterManifest(PLAIN), OpRegisterManifest(CLASHING)]);
            s.table.Keys == {"p", "q"} && !NamesUnique(s.table)
  {
    var ops := [OpRegisterManifest(PLAIN), OpRegisterManifest(CLASHING)];
    var s1 := Apply(State(map[], false), ops[0]);
    assert s1.table == map["p" := Record(Some(PLAIN), None)];
    assert PLAIN.publicName != CLASHING.publicName by {
      assert "web.x"[4] != "web.y"[4];
    }
    var s2 := Apply(s1, ops[1]);
    assert s2.table == map["p" := Record(Some(PLAIN), None), "q" := Record(Some(CLASHING), None)];
    assert ops[1..][1..] == [];
    assert ApplyAll(State(map[], false), ops) == ApplyAll(s1, ops[1..]) == ApplyAll(s2, ops[1..][1..]) == s2;
    assert "web" + "." + "x" == "web.x";
    assert Names(PLAIN)[0] == "web.x" && Names(CLASHING)[1] == "web.x";
    assert "web.x" in Elements(Names(s2.table["p"].manifest.value)) * Elements(Names(s2.table["q"].manifest.value));
  }

  // ─── Freeze safety ────────────────────────────────────────────

  /** Entries with an action are stored under it, and a frozen registry has no orphan. */
  ghost predicate Sound(s: State) {
    && (forall k :: k in s.table && s.table[k].manifest.Some? && HasAction(s.table[k].manifest.value) ==>
          s.table[k].manifest.value.action.value == k)
    && (s.frozen ==> forall k :: k in s.table ==> !Orphan(s.table[k]))
  }

  lemma {:induction false} CommitKeepsKeys(table: Table, entries: seq<Entry>)
    requires Sound(State(table, false))
    ensures Sound(State(Commit(table, entries).0, false))
    decreases |entries|
  {
    if entries != [] && HasAction(entries[0].0) && Conflict(table, entries[0].0.action.value).None? {
      CommitKeepsKeys(Insert(table, entries[0]), entries[1..]);
    }
  }

  lemma StepKeepsSound(s: State, op: Op)
    requires Sound(s)
    ensures Sound(Apply(s, op))
  {
    if op.OpRegisterBatch? && !s.frozen {
      CommitKeepsKeys(s.table, op.entries);
    }
  }

  lemma {:induction false} OpsKeepSound(s: State, ops: seq<Op>)
    requires Sound(s)
    ensures Sound(ApplyAll(s, ops))
    decreases |ops|
  {
    if ops != [] {
      StepKeepsSound(s, ops[0]);
      OpsKeepSound(Apply(s, ops[0]), ops[1..]);
    }
  }

  /**
   Over any sequence of operations at all: while the registry is frozen, every entry that is
   not Sync and has an action is found by a dispatch on that action.
   */
  lemma FrozenMeansExecutable(ops: seq<Op>, key: string)
    ensures var s := ApplyAll(State(map[], false), ops);
            s.frozen && key in s.table && s.table[key].manifest.Some? ==>
              var entry := s.table[key].manifest.value;
              entry.transport != Sync ==>
                s.table[key].handler.Some?
                && (HasAction(entry) ==> Dispatch(s, entry.action.value) == s.table[key].handler)
  {
    OpsKeepSound(State(map[], false), ops);
  }
}
