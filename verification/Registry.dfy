/**
 The API registry: one record per action, a freeze flag, and two ways to register
 executable entries.  The functions give the meaning of each operation; the class
 performs it with the loops and local sets of the source.
 */
module Registry {
  import opened Wrappers

  datatype Transport = Async | Sync | EventDriven

  datatype Alias = Alias(namespace: string, name: string, fields: Option<seq<string>>)

  datatype Manifest = Manifest(
    namespace: string, name: string, action: Option<string>, publicName: string,
    transport: Transport, fields: Option<seq<string>>, aliases: seq<Alias>)

  datatype Handler = Rust(id: nat) | JsCallback(id: nat)

  datatype Record = Record(manifest: Option<Manifest>, handler: Option<Handler>)

  type Table = map<string, Record>

  type Entry = (Manifest, Handler)

  datatype RegistryError =
    | DuplicateAction(action: string)
    | DuplicatePublicName(name: string)
    | DuplicateAlias(name: string)
    | DuplicateHandler(action: string)
    | MissingAction
    | Frozen
    | InvalidManifest

  datatype State = State(table: Table, frozen: bool)

  // ─── Names ────────────────────────────────────────────────────

  function AliasName(alias: Alias): string {
    alias.namespace + "." + alias.name
  }

  function AliasNames(aliases: seq<Alias>): (names: seq<string>)
    ensures |names| == |aliases|
    ensures forall i :: 0 <= i < |aliases| ==> names[i] == AliasName(aliases[i])
  {
    seq(|aliases|, i requires 0 <= i < |aliases| => AliasName(aliases[i]))
  }

  function Names(entry: Manifest): seq<string> {
    [entry.publicName] + AliasNames(entry.aliases)
  }

  function Elements(s: seq<string>): set<string> {
    set x | x in s
  }

  function Occupied(table: Table): set<string> {
    set key, name | key in table && table[key].manifest.Some? && name in Names(table[key].manifest.value) :: name
  }

  predicate HasAction(entry: Manifest) {
    entry.action.Some? && entry.action.value != ""
  }

  /** No string occurs twice in `s`, and none is in `seen`. */
  predicate Distinct(s: seq<string>, seen: set<string>)
    decreases |s|
  {
    s == [] || (s[0] !in seen && Distinct(s[1..], seen + {s[0]}))
  }

  // ─── Validation and registration ──────────────────────────────

  /** The first alias already in `seen`, where each alias passed is added to it. */
  function CheckAliases(aliases: seq<Alias>, seen: set<string>): Option<RegistryError>
    decreases |aliases|
  {
    if aliases == [] then None
    else if AliasName(aliases[0]) in seen then Some(DuplicateAlias(AliasName(aliases[0])))
    else CheckAliases(aliases[1..], seen + {AliasName(aliases[0])})
  }

  function FirstOccupied(aliases: seq<Alias>, occupied: set<string>): Option<RegistryError>
    decreases |aliases|
  {
    if aliases == [] then None
    else if AliasName(aliases[0]) in occupied then Some(DuplicateAlias(AliasName(aliases[0])))
    else FirstOccupied(aliases[1..], occupied)
  }

  function ValidateNames(table: Table, entry: Manifest): Option<RegistryError> {
    var internal := CheckAliases(entry.aliases, {entry.publicName});
    if internal.Some? then internal
    else if entry.publicName in Occupied(table) then Some(DuplicatePublicName(entry.publicName))
    else FirstOccupied(entry.aliases, Occupied(table))
  }

  function ValidateBatch(table: Table, entries: seq<Entry>, actions: set<string>, names: set<string>)
    : Option<RegistryError>
    decreases |entries|
  {
    if entries == [] then None
    else
      var entry := entries[0].0;
      if !HasAction(entry) then Some(MissingAction)
      else if entry.action.value in actions then Some(DuplicateAction(entry.action.value))
      else if CheckAliases(entry.aliases, {entry.publicName}).Some? then
        CheckAliases(entry.aliases, {entry.publicName})
      else if entry.publicName in names then Some(DuplicatePublicName(entry.publicName))
      else if CheckAliases(entry.aliases, names + {entry.publicName}).Some? then
        CheckAliases(entry.aliases, names + {entry.publicName})
      else if ValidateNames(table, entry).Some? then ValidateNames(table, entry)
      else ValidateBatch(table, entries[1..], actions + {entry.action.value}, names + Elements(Names(entry)))
  }

  /** Why a record already under this action refuses a new executable entry. */
  function Conflict(table: Table, action: string): Option<RegistryError> {
    if action in table && table[action].manifest.Some? then Some(DuplicateAction(action))
    else if action in table && table[action].handler.Some? then Some(DuplicateHandler(action))
    else None
  }

  function Insert(table: Table, entry: Entry): Table
    requires HasAction(entry.0)
  {
    table[entry.0.action.value := Record(Some(entry.0), Some(entry.1))]
  }

  /** The commit loop: stops at the first conflict, keeping what it has inserted. */
  function Commit(table: Table, entries: seq<Entry>): (Table, Option<RegistryError>)
    decreases |entries|
  {
    if entries == [] then (table, None)
    else if !HasAction(entries[0].0) then (table, Some(MissingAction))
    else if Conflict(table, entries[0].0.action.value).Some? then
      (table, Conflict(table, entries[0].0.action.value))
    else Commit(Insert(table, entries[0]), entries[1..])
  }

  function RegisterBatch(s: State, entries: seq<Entry>): (State, Option<RegistryError>) {
    if s.frozen then (s, Some(Frozen))
    else
      var invalid := ValidateBatch(s.table, entries, {}, {});
      if invalid.Some? then (s, invalid)
      else
        var (table, error) := Commit(s.table, entries);
        (s.(table := table), error)
  }

  function RegisterEntry(s: State, entry: Entry): (State, Option<RegistryError>) {
    if s.frozen then (s, Some(Frozen))
    else if !HasAction(entry.0) then (s, Some(MissingAction))
    else if Conflict(s.table, entry.0.action.value).Some? then (s, Conflict(s.table, entry.0.action.value))
    else
      var invalid := ValidateNames(s.table, entry.0);
      if invalid.Some? then (s, invalid) else (s.(table := Insert(s.table, entry)), None)
  }

  /** Register one by one; the flag says whether every registration succeeded. */
  function RegisterEach(s: State, entries: seq<Entry>): (State, bool)
    decreases |entries|
  {
    if entries == [] then (s, true)
    else
      var (s', error) := RegisterEntry(s, entries[0]);
      if error.Some? then (s', false) else RegisterEach(s', entries[1..])
  }

  // ─── The other operations ─────────────────────────────────────

  function RecordAt(table: Table, key: string): Record {
    if key in table then table[key] else Record(None, None)
  }

  function RegisterHandler(s: State, action: string, handler: Handler): (State, bool) {
    if s.frozen || RecordAt(s.table, action).handler.Some? then (s, false)
    else (s.(table := s.table[action := RecordAt(s.table, action).(handler := Some(handler))]), true)
  }

  /** An entry of this namespace and name is known. */
  predicate Known(table: Table, doc: Manifest) {
    exists key :: key in table && table[key].manifest.Some?
                  && table[key].manifest.value.namespace == doc.namespace
                  && table[key].manifest.value.name == doc.name
  }

  function DocKey(doc: Manifest): string {
    if doc.action.Some? then doc.action.value else doc.namespace + "." + doc.name
  }

  /** `register`: metadata only, keyed by the action or by namespace and name. */
  function RegisterDoc(s: State, doc: Manifest): State {
    if s.frozen || Known(s.table, doc) then s
    else s.(table := s.table[DocKey(doc) := RecordAt(s.table, DocKey(doc)).(manifest := Some(doc))])
  }

  predicate PublicNameTaken(table: Table, name: string) {
    exists key :: key in table && table[key].manifest.Some? && table[key].manifest.value.publicName == name
  }

  function RegisterManifest(s: State, entry: Manifest): (State, Option<RegistryError>) {
    if s.frozen then (s, Some(Frozen))
    else if !HasAction(entry) then (s, None)
    else
      var action := entry.action.value;
      if RecordAt(s.table, action).manifest.Some? then (s, Some(DuplicateAction(action)))
      else if PublicNameTaken(s.table, entry.publicName) then (s, Some(DuplicatePublicName(entry.publicName)))
      else (s.(table := s.table[action := RecordAt(s.table, action).(manifest := Some(entry))]), None)
  }

  function WithoutHandlers(table: Table): Table {
    map key | key in table && table[key].handler.None? :: table[key]
  }

  /** A manifest entry that the freeze refuses: not Sync, and nothing to execute it. */
  predicate Orphan(record: Record) {
    record.manifest.Some? && record.manifest.value.transport != Sync && record.handler.None?
  }

  function Freeze(s: State): (State, Option<RegistryError>) {
    if exists key :: key in s.table && Orphan(s.table[key]) then (s, Some(InvalidManifest))
    else (s.(frozen := true), None)
  }

  /** The two tables agree everywhere but at one key. */
  ghost predicate SameBut(table: Table, table': Table, key: string) {
    forall k :: k != key ==> (k in table <==> k in table') && (k in table ==> table'[k] == table[k])
  }

  datatype Op =
    | OpRegisterEntry(entry: Entry)
    | OpRegisterBatch(entries: seq<Entry>)
    | OpRegisterHandler(action: string, handler: Handler)
    | OpRegisterDoc(doc: Manifest)
    | OpRegisterManifest(manifest: Manifest)
    | OpRemove(action: string)
    | OpClearHandlers
    | OpClearAll
    | OpFreeze
    | OpUnfreeze

  function Apply(s: State, op: Op): State {
    match op
    case OpRegisterEntry(entry) => RegisterEntry(s, entry).0
    case OpRegisterBatch(entries) => RegisterBatch(s, entries).0
    case OpRegisterHandler(action, handler) => RegisterHandler(s, action, handler).0
    case OpRegisterDoc(doc) => RegisterDoc(s, doc)
    case OpRegisterManifest(manifest) => RegisterManifest(s, manifest).0
    case OpRemove(action) => s.(table := s.table - {action})
    case OpClearHandlers => s.(table := WithoutHandlers(s.table))
    case OpClearAll => State(map[], false)
    case OpFreeze => Freeze(s).0
    case OpUnfreeze => s.(frozen := false)
  }

  function ApplyAll(s: State, ops: seq<Op>): State
    decreases |ops|
  {
    if ops == [] then s else ApplyAll(Apply(s, ops[0]), ops[1..])
  }

  /** `dispatch_handler`: the handler found for an action, if any. */
  function Dispatch(s: State, action: string): Option<Handler> {
    RecordAt(s.table, action).handler
  }

  // ─── Distinctness ─────────────────────────────────────────────

  lemma {:induction false} DistinctSplit(a: seq<string>, b: seq<string>, seen: set<string>)
    ensures Distinct(a + b, seen) <==> Distinct(a, seen) && Distinct(b, seen + Elements(a))
    decreases |a|
  {
    if a == [] {
      assert a + b == b && seen + Elements(a) == seen;
    } else {
      assert (a + b)[1..] == a[1..] + b;
      DistinctSplit(a[1..], b, seen + {a[0]});
      assert seen + {a[0]} + Elements(a[1..]) == seen + Elements(a);
    }
  }

  /** Distinctness counts occurrences, so it does not depend on the order. */
  lemma {:induction false} DistinctMeaning(s: seq<string>, seen: set<string>)
    ensures Distinct(s, seen) <==> (forall x :: multiset(s)[x] <= 1) && Elements(s) !! seen
    decreases |s|
  {
    if s != [] {
      DistinctMeaning(s[1..], seen + {s[0]});
      assert s == [s[0]] + s[1..];
      assert multiset(s) == multiset{s[0]} + multiset(s[1..]);
      if Distinct(s, seen) {
        forall x ensures multiset(s)[x] <= 1 {
          assert multiset(s[1..])[x] <= 1;
          if x == s[0] {
            assert x !in Elements(s[1..]);
          }
        }
      }
      if (forall x :: multiset(s)[x] <= 1) && Elements(s) !! seen {
        assert multiset(s)[s[0]] <= 1;
        assert s[0] !in s[1..];
        forall x ensures multiset(s[1..])[x] <= 1 {
          assert multiset(s)[x] <= 1;
        }
      }
    }
  }

  lemma {:induction false} CheckAliasesMeaning(aliases: seq<Alias>, seen: set<string>)
    ensures CheckAliases(aliases, seen).None? <==> Distinct(AliasNames(aliases), seen)
    decreases |aliases|
  {
    if aliases != [] {
      CheckAliasesMeaning(aliases[1..], seen + {AliasName(aliases[0])});
      assert AliasNames(aliases)[1..] == AliasNames(aliases[1..]);
    }
  }

  lemma {:induction false} FirstOccupiedMeaning(aliases: seq<Alias>, occupied: set<string>)
    ensures FirstOccupied(aliases, occupied).None? <==> Elements(AliasNames(aliases)) !! occupied
    decreases |aliases|
  {
    if aliases != [] {
      FirstOccupiedMeaning(aliases[1..], occupied);
      assert AliasNames(aliases) == [AliasName(aliases[0])] + AliasNames(aliases[1..]);
    }
  }

  lemma NamesDistinct(entry: Manifest, seen: set<string>)
    ensures Distinct(Names(entry), seen) <==>
            entry.publicName !in seen && CheckAliases(entry.aliases, seen + {entry.publicName}).None?
    ensures Distinct(Names(entry), seen) <==> Distinct(Names(entry), {}) && Elements(Names(entry)) !! seen
  {
    assert Names(entry)[1..] == AliasNames(entry.aliases);
    CheckAliasesMeaning(entry.aliases, seen + {entry.publicName});
    DistinctMeaning(Names(entry), seen);
    DistinctMeaning(Names(entry), {});
  }

  lemma ValidateNamesMeaning(table: Table, entry: Manifest)
    ensures ValidateNames(table, entry).None? <==> Distinct(Names(entry), Occupied(table))
  {
    NamesDistinct(entry, {});
    NamesDistinct(entry, Occupied(table));
    assert {} + {entry.publicName} == {entry.publicName};
    FirstOccupiedMeaning(entry.aliases, Occupied(table));
    assert Elements(Names(entry)) == {entry.publicName} + Elements(AliasNames(entry.aliases));
  }

  // ─── The registry object ──────────────────────────────────────

  class ApiRegistry {
    var table: Table
    var frozen: bool

    function Snapshot(): State
      reads this
    {
      State(table, frozen)
    }

    constructor ()
      ensures Snapshot() == State(map[], false)
    {
      table, frozen := map[], false;
    }

    method CheckInternalAliases(entry: Manifest) returns (error: Option<RegistryError>)
      ensures error == CheckAliases(entry.aliases, {entry.publicName})
    {
      var seen := {entry.publicName};
      var i := 0;
      while i < |entry.aliases|
        invariant 0 <= i <= |entry.aliases|
        invariant entry.publicName in seen
        invariant CheckAliases(entry.aliases, {entry.publicName}) == CheckAliases(entry.aliases[i..], seen)
      {
        assert entry.aliases[i..][1..] == entry.aliases[i + 1..];
        var aliasName := AliasName(entry.aliases[i]);
        if aliasName == entry.publicName {
          return Some(DuplicateAlias(aliasName));
        }
        if aliasName in seen {
          return Some(DuplicateAlias(aliasName));
        }
        seen := seen + {aliasName};
        i := i + 1;
      }
      error := None;
    }

    method CheckManifestNames(entry: Manifest) returns (error: Option<RegistryError>)
      ensures error == ValidateNames(table, entry)
    {
      error := CheckInternalAliases(entry);
      if error.Some? {
        return;
      }
      var occupied := Occupied(table);
      if entry.publicName in occupied {
        return Some(DuplicatePublicName(entry.publicName));
      }
      var i := 0;
      while i < |entry.aliases|
        invariant 0 <= i <= |entry.aliases|
        invariant FirstOccupied(entry.aliases, occupied) == FirstOccupied(entry.aliases[i..], occupied)
      {
        assert entry.aliases[i..][1..] == entry.aliases[i + 1..];
        if AliasName(entry.aliases[i]) in occupied {
          return Some(DuplicateAlias(AliasName(entry.aliases[i])));
        }
        i := i + 1;
      }
      error := None;
    }

    /** Claim the entry's names for the batch, in order. */
    method ClaimNames(entry: Manifest, names: set<string>) returns (names': set<string>, error: Option<RegistryError>)
      ensures error == if entry.publicName in names then Some(DuplicatePublicName(entry.publicName))
                       else CheckAliases(entry.aliases, names + {entry.publicName})
      ensures error.None? ==> names' == names + Elements(Names(entry))
    {
      names' := names + {entry.publicName};
      if entry.publicName in names {
        return names', Some(DuplicatePublicName(entry.publicName));
      }
      var i := 0;
      while i < |entry.aliases|
        invariant 0 <= i <= |entry.aliases|
        invariant names' == names + {entry.publicName} + Elements(AliasNames(entry.aliases[..i]))
        invariant CheckAliases(entry.aliases, names + {entry.publicName}) == CheckAliases(entry.aliases[i..], names')
      {
        assert entry.aliases[i..][1..] == entry.aliases[i + 1..];
        var aliasName := AliasName(entry.aliases[i]);
        if aliasName in names' {
          return names', Some(DuplicateAlias(aliasName));
        }
        names' := names' + {aliasName};
        assert AliasNames(entry.aliases[..i + 1]) == AliasNames(entry.aliases[..i]) + [aliasName];
        i := i + 1;
      }
      assert entry.aliases[..i] == entry.aliases;
      assert Elements(Names(entry)) == {entry.publicName} + Elements(AliasNames(entry.aliases));
      error := None;
    }

    method CheckBatch(entries: seq<Entry>) returns (error: Option<RegistryError>)
      ensures error == ValidateBatch(table, entries, {}, {})
    {
      var actions: set<string>, names: set<string> := {}, {};
      var i := 0;
      while i < |entries|
        invariant 0 <= i <= |entries|
        invariant ValidateBatch(table, entries, {}, {}) == ValidateBatch(table, entries[i..], actions, names)
      {
        assert entries[i..][1..] == entries[i + 1..];
        var entry := entries[i].0;
        if !HasAction(entry) {
          return Some(MissingAction);
        }
        if entry.action.value in actions {
          return Some(DuplicateAction(entry.action.value));
        }
        actions := actions + {entry.action.value};
        error := CheckInternalAliases(entry);
        if error.Some? {
          return;
        }
        names, error := ClaimNames(entry, names);
        if error.Some? {
          return;
        }
        error := CheckManifestNames(entry);
        if error.Some? {
          return;
        }
        i := i + 1;
      }
      error := None;
    }

    method RegisterExecutableEntriesBatch(entries: seq<Entry>) returns (error: Option<RegistryError>)
      modifies this
      ensures (Snapshot(), error) == RegisterBatch(old(Snapshot()), entries)
    {
      if frozen {
        return Some(Frozen);
      }
      error := CheckBatch(entries);
      if error.Some? {
        return;
      }
      var i := 0;
      while i < |entries|
        invariant 0 <= i <= |entries| && frozen == old(frozen)
        invariant Commit(old(table), entries) == Commit(table, entries[i..])
      {
        assert entries[i..][1..] == entries[i + 1..];
        var (entry, handler) := entries[i];
        if !HasAction(entry) {
          return Some(MissingAction);
        }
        var action := entry.action.value;
        if action in table {
          if table[action].manifest.Some? {
            return Some(DuplicateAction(action));
          }
          if table[action].handler.Some? {
            return Some(DuplicateHandler(action));
          }
        }
        table := table[action := Record(Some(entry), Some(handler))];
        i := i + 1;
      }
      error := None;
    }

    method RegisterExecutableEntry(entry: Manifest, handler: Handler) returns (error: Option<RegistryError>)
      modifies this
      ensures (Snapshot(), error) == RegisterEntry(old(Snapshot()), (entry, handler))
      ensures frozen == old(frozen)
      ensures error.Some? ==> table == old(table)
      ensures error.None? ==>
                HasAction(entry) && table == old(table)[entry.action.value := Record(Some(entry), Some(handler))]
    {
      if frozen {
        return Some(Frozen);
      }
      if !HasAction(entry) {
        return Some(MissingAction);
      }
      var action := entry.action.value;
      if action in table {
        if table[action].manifest.Some? {
          return Some(DuplicateAction(action));
        }
        if table[action].handler.Some? {
          return Some(DuplicateHandler(action));
        }
      }
      error := CheckManifestNames(entry);
      if error.None? {
        table := table[action := Record(Some(entry), Some(handler))];
      }
    }

    method FreezeManifest() returns (error: Option<RegistryError>)
      modifies this
      ensures (Snapshot(), error) == Freeze(old(Snapshot()))
      ensures error.None?
         <==> forall key | key in table && table[key].manifest.Some? && table[key].manifest.value.transport != Sync ::
                table[key].handler.Some?
      ensures table == old(table) && frozen == (error.None? || old(frozen))
    {
      var orphans := set key | key in table && Orphan(table[key]);
      if orphans != {} {
        ghost var key :| key in orphans;
        return Some(InvalidManifest);
      }
      assert forall key :: key in table && Orphan(table[key]) ==> key in orphans;
      frozen := true;
      error := None;
    }

    method RegisterHandlerFor(action: string, handler: Handler) returns (added: bool)
      modifies this
      ensures (Snapshot(), added) == RegisterHandler(old(Snapshot()), action, handler)
      ensures added <==> !old(frozen) && (action in old(table) ==> old(table)[action].handler.None?)
      ensures frozen == old(frozen) && SameBut(old(table), table, action)
      ensures added ==>
                var manifest := if action in old(table) then old(table)[action].manifest else None;
                action in table && table[action] == Record(manifest, Some(handler))
      ensures !added ==> table == old(table)
    {
      if frozen {
        return false;
      }
      var record := RecordAt(table, action);
      if record.handler.Some? {
        return false;
      }
      table := table[action := record.(handler := Some(handler))];
      added := true;
    }

    method Register(doc: Manifest)
      modifies this
      ensures Snapshot() == RegisterDoc(old(Snapshot()), doc)
      ensures frozen == old(frozen)
      ensures old(frozen) || Known(old(table), doc) ==> table == old(table)
      ensures !old(frozen) && !Known(old(table), doc) ==>
                var key := if doc.action.Some? then doc.action.value else doc.namespace + "." + doc.name;
                var handler := if key in old(table) then old(table)[key].handler else None;
                SameBut(old(table), table, key) && key in table && table[key] == Record(Some(doc), handler)
    {
      if frozen {
        return;
      }
      var same := set key | key in table && table[key].manifest.Some?
                            && table[key].manifest.value.namespace == doc.namespace
                            && table[key].manifest.value.name == doc.name;
      if same != {} {
        ghost var key :| key in same;
        return;
      }
      assert forall key :: key in table && key !in same ==>
        !(table[key].manifest.Some?
          && table[key].manifest.value.namespace == doc.namespace
          && table[key].manifest.value.name == doc.name);
      var key := if doc.action.Some? then doc.action.value else doc.namespace + "." + doc.name;
      table := table[key := RecordAt(table, key).(manifest := Some(doc))];
    }

    method RegisterManifestEntry(entry: Manifest) returns (error: Option<RegistryError>)
      modifies this
      ensures (Snapshot(), error) == RegisterManifest(old(Snapshot()), entry)
      ensures error == Some(Frozen) <==> old(frozen)
      ensures !old(frozen) && HasAction(entry) ==>
                var taken := entry.action.value in old(table) && old(table)[entry.action.value].manifest.Some?;
                && (error == Some(DuplicateAction(entry.action.value)) <==> taken)
                && (error == Some(DuplicatePublicName(entry.publicName)) <==>
                      !taken && PublicNameTaken(old(table), entry.publicName))
                && (error.None? <==> !taken && !PublicNameTaken(old(table), entry.publicName))
      ensures !old(frozen) && !HasAction(entry) ==> error.None?
      ensures frozen == old(frozen) && (error.Some? || !HasAction(entry) ==> table == old(table))
      ensures error.None? && HasAction(entry) ==>
                var action := entry.action.value;
                var handler := if action in old(table) then old(table)[action].handler else None;
                && SameBut(old(table), table, action)
                && action in table && table[action] == Record(Some(entry), handler)
                && forall k :: k in old(table) && old(table)[k].manifest.Some? ==>
                     k != action && old(table)[k].manifest.value.publicName != entry.publicName
    {
      if frozen {
        return Some(Frozen);
      }
      if !HasAction(entry) {
        return None;
      }
      var action := entry.action.value;
      if RecordAt(table, action).manifest.Some? {
        return Some(DuplicateAction(action));
      }
      var keys := table.Keys;
      while keys != {}
        invariant keys <= table.Keys && Snapshot() == old(Snapshot())
        invariant forall key :: key in table.Keys - keys && table[key].manifest.Some? ==>
                    table[key].manifest.value.publicName != entry.publicName
        decreases |keys|
      {
        var key :| key in keys;
        if table[key].manifest.Some? && table[key].manifest.value.publicName == entry.publicName {
          return Some(DuplicatePublicName(entry.publicName));
        }
        keys := keys - {key};
      }
      assert forall key :: key in table && table[key].manifest.Some? ==>
               key in table.Keys - keys && table[key].manifest.value.publicName != entry.publicName;
      table := table[action := RecordAt(table, action).(manifest := Some(entry))];
      error := None;
    }

    method RemoveManifestEntry(action: string) returns (removed: bool)
      modifies this
      ensures Snapshot() == Apply(old(Snapshot()), OpRemove(action))
      ensures removed <==> action in old(table) && old(table)[action].manifest.Some?
      ensures frozen == old(frozen) && SameBut(old(table), table, action) && action !in table
    {
      removed := RecordAt(table, action).manifest.Some?;
      table := table - {action};
    }

    method ClearHandlers()
      modifies this
      ensures Snapshot() == Apply(old(Snapshot()), OpClearHandlers)
      ensures frozen == old(frozen)
      ensures forall k :: k in table <==> k in old(table) && old(table)[k].handler.None?
      ensures forall k :: k in table ==> table[k] == old(table)[k]
    {
      table := WithoutHandlers(table);
    }

    method ClearManifestEntries()
      modifies this
      ensures Snapshot() == Apply(old(Snapshot()), OpClearAll)
      ensures table == map[] && !frozen
    {
      table, frozen := map[], false;
    }

    method UnfreezeManifest()
      modifies this
      ensures Snapshot() == Apply(old(Snapshot()), OpUnfreeze)
      ensures table == old(table) && !frozen
    {
      frozen := false;
    }
  }
}
