/** When each registry operation succeeds and what it leaves, in terms of the records a caller can look up. */
module RegistryOutcomes {
  import opened Wrappers
  import opened Registry
  import opened RegistryLaws

  // ─── Names, spelled out ───────────────────────────────────────

  /** The entry can be called by this name: its public name, or the dotted name of an alias. */
  ghost predicate Called(entry: Manifest, name: string) {
    name == entry.publicName || exists a :: a in entry.aliases && name == a.namespace + "." + a.name
  }

  ghost predicate Strangers(a: Manifest, b: Manifest) {
    forall name :: !(Called(a, name) && Called(b, name))
  }

  /** No name occurs twice among the entry's own. */
  ghost predicate OwnNamesDistinct(entry: Manifest) {
    && (forall i :: 0 <= i < |entry.aliases| ==>
          entry.aliases[i].namespace + "." + entry.aliases[i].name != entry.publicName)
    && (forall i, j :: 0 <= i < j < |entry.aliases| ==>
          entry.aliases[i].namespace + "." + entry.aliases[i].name
          != entry.aliases[j].namespace + "." + entry.aliases[j].name)
  }

  ghost predicate NameTaken(table: Table, name: string) {
    exists k :: k in table && table[k].manifest.Some? && Called(table[k].manifest.value, name)
  }

  lemma NamesAreCalled(entry: Manifest, name: string)
    ensures name in Elements(Names(entry)) <==> Called(entry, name)
  {
    if a :| a in entry.aliases && name == a.namespace + "." + a.name {
      var i :| 0 <= i < |entry.aliases| && entry.aliases[i] == a;
      assert Names(entry)[i + 1] == AliasName(a);
    }
    if name in Names(entry) && name != entry.publicName {
      var i :| 0 <= i < |Names(entry)| && Names(entry)[i] == name;
      assert entry.aliases[i - 1] in entry.aliases && Names(entry)[i] == AliasName(entry.aliases[i - 1]);
    }
  }

  lemma OccupiedIsTaken(table: Table, name: string)
    ensures name in Occupied(table) <==> NameTaken(table, name)
  {
    hide Occupied, Names, Elements, Called;
    OccupiedMeaning(table, name);
    forall k | k in table && table[k].manifest.Some?
      ensures name in Elements(Names(table[k].manifest.value)) <==> Called(table[k].manifest.value, name)
    {
      NamesAreCalled(table[k].manifest.value, name);
    }
  }

  lemma {:induction false} DistinctByIndex(s: seq<string>, seen: set<string>)
    ensures Distinct(s, seen) <==>
            (forall i, j :: 0 <= i < j < |s| ==> s[i] != s[j]) && (forall i :: 0 <= i < |s| ==> s[i] !in seen)
    decreases |s|
  {
    if s != [] {
      DistinctByIndex(s[1..], seen + {s[0]});
      assert forall i :: 0 < i < |s| ==> s[i] == s[1..][i - 1];
      if Distinct(s, seen) {
        forall i, j | 0 <= i < j < |s| ensures s[i] != s[j] {
          assert s[j] == s[1..][j - 1];
          assert i > 0 ==> s[i] == s[1..][i - 1];
        }
      }
    }
  }

  lemma OwnNames(entry: Manifest)
    ensures Distinct(Names(entry), {}) <==> OwnNamesDistinct(entry)
  {
    var names, dotted := Names(entry), AliasNames(entry.aliases);
    DistinctSplit([entry.publicName], dotted, {});
    assert names == [entry.publicName] + dotted && [entry.publicName][1..] == [];
    assert {} + Elements([entry.publicName]) == {entry.publicName} && Distinct([entry.publicName], {});
    DistinctByIndex(dotted, {entry.publicName});
    hide Distinct, Names;
    assert forall i :: 0 <= i < |entry.aliases| ==>
      dotted[i] == entry.aliases[i].namespace + "." + entry.aliases[i].name;
  }

  lemma NamesFreeMeaning(table: Table, entry: Manifest)
    ensures ValidateNames(table, entry).None? <==>
            OwnNamesDistinct(entry) && (forall name :: Called(entry, name) ==> !NameTaken(table, name))
  {
    ValidateNamesMeaning(table, entry);
    NamesDistinct(entry, Occupied(table));
    OwnNames(entry);
    hide Occupied, Names, Elements, Called, NameTaken, OwnNamesDistinct, Distinct;
    forall name
      ensures name in Elements(Names(entry)) <==> Called(entry, name)
      ensures name in Occupied(table) <==> NameTaken(table, name)
    {
      NamesAreCalled(entry, name);
      OccupiedIsTaken(table, name);
    }
  }

  // ─── One entry ────────────────────────────────────────────────

  /** The record under an action refuses an entry for it. */
  predicate Occupies(table: Table, action: string) {
    action in table && (table[action].manifest.Some? || table[action].handler.Some?)
  }

  /** Everything but the names of the entry is in order. */
  predicate Admitted(s: State, entry: Manifest) {
    !s.frozen && entry.action.Some? && entry.action.value != "" && !Occupies(s.table, entry.action.value)
  }

  /**
   Registering one executable entry: which error, exactly when, and what is left.  The names are
   looked at last: first the entry's own, then its public name, then its aliases.
   */
  lemma RegisterEntryOutcome(s: State, entry: Manifest, handler: Handler)
    ensures var (s', error) := RegisterEntry(s, (entry, handler));
            var named := entry.action.Some? && entry.action.value != "";
            && (error == Some(Frozen) <==> s.frozen)
            && (error == Some(MissingAction) <==> !s.frozen && !named)
            && (named ==> var action := entry.action.value;
                  && (error == Some(DuplicateAction(action)) <==>
                        !s.frozen && action in s.table && s.table[action].manifest.Some?)
                  && (error == Some(DuplicateHandler(action)) <==>
                        !s.frozen && action in s.table && s.table[action] == Record(None, s.table[action].handler)
                        && s.table[action].handler.Some?))
            && (error == Some(DuplicatePublicName(entry.publicName)) <==>
                  Admitted(s, entry) && OwnNamesDistinct(entry) && NameTaken(s.table, entry.publicName))
            && (error.None? <==>
                  Admitted(s, entry) && OwnNamesDistinct(entry)
                  && (forall name :: Called(entry, name) ==> !NameTaken(s.table, name)))
            && (error.Some? ==> s' == s)
            && (error.None? ==> s' == s.(table := s.table[entry.action.value := Record(Some(entry), Some(handler))]))
  {
    NamesFreeMeaning(s.table, entry);
    OwnNames(entry);
    NamesDistinct(entry, {});
    assert {} + {entry.publicName} == {entry.publicName};
    OccupiedIsTaken(s.table, entry.publicName);
    NoPublicNameErrors(entry.aliases, {entry.publicName}, Occupied(s.table));
    hide Occupied, Names, Elements, Called, NameTaken, OwnNamesDistinct, Distinct, CheckAliases, FirstOccupied;
  }

  lemma {:induction false} NoPublicNameErrors(aliases: seq<Alias>, seen: set<string>, occupied: set<string>)
    ensures CheckAliases(aliases, seen).Some? ==> CheckAliases(aliases, seen).value.DuplicateAlias?
    ensures FirstOccupied(aliases, occupied).Some? ==> FirstOccupied(aliases, occupied).value.DuplicateAlias?
    decreases |aliases|
  {
    if aliases != [] {
      NoPublicNameErrors(aliases[1..], seen + {AliasName(aliases[0])}, occupied);
    }
  }

  // ─── A batch ──────────────────────────────────────────────────

  /** What a caller would have to check for a batch to go through. */
  ghost predicate BatchInOrder(s: State, entries: seq<Entry>) {
    && !s.frozen
    && (forall i :: 0 <= i < |entries| ==> Admitted(s, entries[i].0))
    && (forall i, j :: 0 <= i < j < |entries| ==> entries[i].0.action != entries[j].0.action)
    && (forall i :: 0 <= i < |entries| ==> OwnNamesDistinct(entries[i].0))
    && PairwiseStrangers(entries)
    && (forall i, name :: 0 <= i < |entries| && Called(entries[i].0, name) ==> !NameTaken(s.table, name))
  }

  lemma {:induction false} ActionsByIndex(entries: seq<Entry>)
    requires forall e :: e in entries ==> HasAction(e.0)
    ensures |Actions(entries)| == |entries|
    ensures forall i :: 0 <= i < |entries| ==> Some(Actions(entries)[i]) == entries[i].0.action
    decreases |entries|
  {
    if entries != [] {
      ActionsByIndex(entries[1..]);
    }
  }

  lemma {:induction false} AllNamesAreCalled(entries: seq<Entry>, name: string)
    ensures name in Elements(AllNames(entries)) <==> exists i :: 0 <= i < |entries| && Called(entries[i].0, name)
    decreases |entries|
  {
    hide Called, Names;
    if entries != [] {
      var rest := entries[1..];
      NamesAreCalled(entries[0].0, name);
      AllNamesAreCalled(rest, name);
      assert forall i :: 0 < i < |entries| ==> entries[i] == rest[i - 1];
      if i :| 0 <= i < |rest| && Called(rest[i].0, name) {
        assert entries[i + 1] == rest[i];
      }
    }
  }

  ghost predicate PairwiseStrangers(entries: seq<Entry>) {
    forall i, j :: 0 <= i < j < |entries| ==> Strangers(entries[i].0, entries[j].0)
  }

  lemma StrangersUncons(entries: seq<Entry>)
    requires entries != []
    ensures PairwiseStrangers(entries) <==>
            PairwiseStrangers(entries[1..])
            && forall i :: 0 <= i < |entries[1..]| ==> Strangers(entries[0].0, entries[1..][i].0)
  {
    hide Strangers;
    var rest := entries[1..];
    assert forall i :: 0 < i < |entries| ==> entries[i] == rest[i - 1];
    if PairwiseStrangers(entries) {
      forall i, j | 0 <= i < j < |rest| ensures Strangers(rest[i].0, rest[j].0) {
        assert Strangers(entries[i + 1].0, entries[j + 1].0);
      }
      forall i | 0 <= i < |rest| ensures Strangers(entries[0].0, rest[i].0) {
        assert Strangers(entries[0].0, entries[i + 1].0);
      }
    }
  }

  lemma AppendDistinct(a: seq<string>, b: seq<string>)
    ensures Distinct(a + b, {}) <==> Distinct(a, {}) && Distinct(b, {}) && Elements(b) !! Elements(a)
  {
    DistinctSplit(a, b, {});
    assert {} + Elements(a) == Elements(a);
    DistinctMeaning(b, {});
    DistinctMeaning(b, Elements(a));
  }

  lemma {:induction false} AllNamesDistinct(entries: seq<Entry>)
    ensures Distinct(AllNames(entries), {}) <==>
            (forall i :: 0 <= i < |entries| ==> OwnNamesDistinct(entries[i].0)) && PairwiseStrangers(entries)
    decreases |entries|
  {
    hide OwnNamesDistinct, Strangers, Names, Elements;
    if entries != [] {
      var first, rest := entries[0].0, entries[1..];
      AppendDistinct(Names(first), AllNames(rest));
      OwnNames(first);
      AllNamesDistinct(rest);
      FirstIsStranger(first, rest);
      StrangersUncons(entries);
      hide Distinct, PairwiseStrangers;
      assert forall i :: 0 < i < |entries| ==> entries[i] == rest[i - 1];
      assert forall i :: 0 <= i < |rest| ==> rest[i] == entries[i + 1];
    }
  }

  lemma FirstIsStranger(first: Manifest, rest: seq<Entry>)
    ensures Elements(AllNames(rest)) !! Elements(Names(first))
       <==> forall i :: 0 <= i < |rest| ==> Strangers(first, rest[i].0)
  {
    hide Called, AllNames, Names, Elements;
    forall name
      ensures name in Elements(Names(first)) <==> Called(first, name)
      ensures name in Elements(AllNames(rest)) <==> exists i :: 0 <= i < |rest| && Called(rest[i].0, name)
    {
      NamesAreCalled(first, name);
      AllNamesAreCalled(rest, name);
    }
  }

  lemma {:induction false} FreePrefixMeaning(table: Table, entries: seq<Entry>)
    ensures FreePrefix(table, entries) == |entries| <==> forall i :: 0 <= i < |entries| ==> !Taken(table, entries[i])
    decreases |entries|
  {
    if entries != [] {
      FreePrefixMeaning(table, entries[1..]);
      assert forall i :: 0 < i < |entries| ==> entries[i] == entries[1..][i - 1];
      assert forall i :: 0 <= i < |entries| - 1 ==> entries[1..][i] == entries[i + 1];
    }
  }

  lemma NamesTaken(table: Table, entries: seq<Entry>)
    ensures Elements(AllNames(entries)) !! Occupied(table)
       <==> forall i, name :: 0 <= i < |entries| && Called(entries[i].0, name) ==> !NameTaken(table, name)
  {
    hide Called, AllNames, Occupied, Elements, NameTaken;
    forall name
      ensures name in Occupied(table) <==> NameTaken(table, name)
      ensures name in Elements(AllNames(entries)) <==> exists i :: 0 <= i < |entries| && Called(entries[i].0, name)
    {
      OccupiedIsTaken(table, name);
      AllNamesAreCalled(entries, name);
    }
  }

  lemma BatchActions(s: State, entries: seq<Entry>)
    requires !s.frozen
    ensures (forall e :: e in entries ==> HasAction(e.0)) && Distinct(Actions(entries), {})
            && FreePrefix(s.table, entries) == |entries|
       <==> && (forall i :: 0 <= i < |entries| ==> Admitted(s, entries[i].0))
            && (forall i, j :: 0 <= i < j < |entries| ==> entries[i].0.action != entries[j].0.action)
  {
    FreePrefixMeaning(s.table, entries);
    hide FreePrefix;
    if forall i :: 0 <= i < |entries| ==> Admitted(s, entries[i].0) {
      assert forall e :: e in entries ==> HasAction(e.0);
    }
    if forall e :: e in entries ==> HasAction(e.0) {
      ActionsByIndex(entries);
      DistinctByIndex(Actions(entries), {});
    }
  }

  lemma BatchAccepted(s: State, entries: seq<Entry>)
    requires !s.frozen
    ensures RegisterBatch(s, entries).1.None? <==> BatchInOrder(s, entries)
  {
    BatchIsAtomicExactlyWhen(s, entries);
    ValidateBatchMeaning(s.table, entries, {}, {});
    BatchActions(s, entries);
    AllNamesDistinct(entries);
    NamesTaken(s.table, entries);
    hide RegisterBatch, ValidateBatch, FreePrefix, InsertAll, Distinct, Actions, AllNames, Occupied, Elements;
    hide Called, NameTaken, Admitted, OwnNamesDistinct, PairwiseStrangers, HasAction;
  }

  lemma {:induction false} InsertAllExtends(table: Table, entries: seq<Entry>)
    requires forall e :: e in entries ==> HasAction(e.0)
    requires Distinct(Actions(entries), {})
    ensures Extends(table, entries, InsertAll(table, entries))
    decreases |entries|
  {
    if entries != [] {
      var e := entries[0];
      Uncons(entries);
      DistinctMeaning(Actions(entries[1..]), {} + {e.0.action.value});
      DistinctMeaning(Actions(entries[1..]), {});
      InsertAllExtends(Insert(table, e), entries[1..]);
      forall d | d in entries[1..] ensures d.0.action.value != e.0.action.value {
        ActionsMember(entries[1..], d);
      }
      ExtendsOneMore(table, entries, InsertAll(Insert(table, e), entries[1..]));
    }
  }

  lemma ExtendsOneMore(table: Table, entries: seq<Entry>, table': Table)
    requires entries != [] && forall e :: e in entries ==> HasAction(e.0)
    requires HasAction(entries[0].0) && Extends(Insert(table, entries[0]), entries[1..], table')
    requires forall d :: d in entries[1..] ==> d.0.action.value != entries[0].0.action.value
    ensures Extends(table, entries, table')
  {
    var e, rest := entries[0], entries[1..];
    Uncons(entries);
    var key := e.0.action.value;
    assert table'[key] == Record(Some(e.0), Some(e.1));
    forall k | k in table'
      ensures (k in table && table'[k] == table[k]) || exists d :: d in entries && d.0.action.value == k
    {
      if d :| d in rest && d.0.action.value == k {
        assert d in entries;
      } else if k == key {
        assert e in entries;
      }
    }
  }

  /**
   A batch goes through exactly when all of it is in order against the registry as it was: each entry
   on its own, the entries among each other, and the names against those registered.  It then
   leaves one new record for each entry and all others as they were.
   */
  lemma BatchOutcome(s: State, entries: seq<Entry>)
    ensures var (s', error) := RegisterBatch(s, entries);
            && (s.frozen ==> error == Some(Frozen) && s' == s)
            && (error.None? <==> BatchInOrder(s, entries))
            && (error.None? ==> !s'.frozen && Extends(s.table, entries, s'.table))
  {
    if !s.frozen {
      BatchAccepted(s, entries);
      if RegisterBatch(s, entries).1.None? {
        BatchIsAtomicExactlyWhen(s, entries);
        ValidateBatchMeaning(s.table, entries, {}, {});
        assert entries[..|entries|] == entries;
        InsertAllExtends(s.table, entries);
      }
      hide BatchInOrder, Extends, InsertAll, ValidateBatch, Commit;
    }
  }

  // ─── Freezing ─────────────────────────────────────────────────

  predicate Registers(op: Op) {
    op.OpRegisterEntry? || op.OpRegisterBatch? || op.OpRegisterHandler? || op.OpRegisterDoc? || op.OpRegisterManifest?
  }

  /**
   The freeze succeeds exactly when every entry that is not Sync has a handler, an entry without one
   that is Sync being no obstacle.  It then sets the flag and no registration of any kind changes
   the registry any more; a refused freeze changes nothing at all.
   */
  lemma FreezeOutcome(s: State, op: Op)
    ensures var (s', error) := Freeze(s);
            && (error.None? <==>
                  forall k | k in s.table && s.table[k].manifest.Some? && s.table[k].manifest.value.transport != Sync ::
                    s.table[k].handler.Some?)
            && s'.table == s.table
            && (error.None? ==> s'.frozen && (Registers(op) ==> Apply(s', op) == s'))
            && (error.Some? ==> s' == s)
  {
    var (s', error) := Freeze(s);
    if error.Some? {
      var k :| k in s.table && Orphan(s.table[k]);
      assert s.table[k].manifest.value.transport != Sync && s.table[k].handler.None?;
    } else {
      assert forall k :: k in s.table ==> !Orphan(s.table[k]);
    }
  }
}
