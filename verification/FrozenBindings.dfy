/** What the generated bindings of a frozen registry contain. */
module FrozenBindings {
  import opened Wrappers
  import opened Registry
  import opened RegistryLaws
  import opened Bindings
  import opened BindingsReader

  /** `list_manifest_entries`: the manifests of the table, in some order (by key in the source). */
  ghost predicate Lists(entries: seq<Manifest>, table: Table) {
    && (forall k :: k in table && table[k].manifest.Some? ==> table[k].manifest.value in entries)
    && (forall e :: e in entries ==> exists k :: k in table && table[k].manifest == Some(e))
  }

  /** The bindings of every async entry with an action, each followed by its aliases. */
  function AsyncSpecs(entries: seq<Manifest>): seq<Spec>
    decreases |entries|
  {
    if entries == [] then []
    else (if entries[0].transport == Async && HasAction(entries[0]) then EntrySpecs(entries[0]) else [])
         + AsyncSpecs(entries[1..])
  }

  lemma {:induction false} AllBound(s: State, entries: seq<Manifest>)
    requires forall e :: e in entries && e.transport == Async && HasAction(e) ==> Dispatch(s, e.action.value).Some?
    ensures SpecsOf(s, entries) == AsyncSpecs(entries)
    decreases |entries|
  {
    if entries != [] {
      AllBound(s, entries[1..]);
    }
  }

  lemma {:induction false} SpecsCover(entries: seq<Manifest>, e: Manifest)
    requires e in entries && e.transport == Async && HasAction(e)
    ensures forall spec :: spec in EntrySpecs(e) ==> spec in AsyncSpecs(entries)
    decreases |entries|
  {
    if entries[0] != e {
      SpecsCover(entries[1..], e);
    }
  }

  /**
   Over any sequence of registry operations that leaves the registry frozen, the generated
   script reads back as exactly the async entries with an action, each followed by its
   aliases: none is left out for want of a handler.
   */
  lemma FrozenScriptBindsEverything(ops: seq<Op>, entries: seq<Manifest>)
    requires ApplyAll(State(map[], false), ops).frozen
    requires Lists(entries, ApplyAll(State(map[], false), ops).table)
    ensures var s := ApplyAll(State(map[], false), ops);
            ReadScript(PrintScript(SpecsOf(s, entries))) == Some(AsyncSpecs(entries))
    ensures var s := ApplyAll(State(map[], false), ops);
            forall k, spec |
              && k in s.table && s.table[k].manifest.Some?
              && s.table[k].manifest.value.transport == Async && HasAction(s.table[k].manifest.value)
              && spec in EntrySpecs(s.table[k].manifest.value) :: spec in AsyncSpecs(entries)
  {
    var s := ApplyAll(State(map[], false), ops);
    forall e | e in entries && e.transport == Async && HasAction(e) ensures Dispatch(s, e.action.value).Some? {
      var k :| k in s.table && s.table[k].manifest == Some(e);
      FrozenMeansExecutable(ops, k);
    }
    AllBound(s, entries);
    ScriptRoundTrip(SpecsOf(s, entries));
    forall k, spec | k in s.table && s.table[k].manifest.Some?
      && s.table[k].manifest.value.transport == Async && HasAction(s.table[k].manifest.value)
      && spec in EntrySpecs(s.table[k].manifest.value)
      ensures spec in AsyncSpecs(entries)
    {
      SpecsCover(entries, s.table[k].manifest.value);
    }
  }

  // ─── Any registry ─────────────────────────────────────────────

  /** The binding is the entry's own or one of its aliases', each with its own fields unless the action is native. */
  ghost predicate Binds(spec: Spec, entry: Manifest) {
    var native := IsNativeParity(spec.action);
    && entry.action == Some(spec.action) && spec.parity == native
    && ((spec.namespace == entry.namespace && spec.name == entry.name
         && spec.fields == if entry.fields.None? || native then [] else entry.fields.value)
        || exists alias :: alias in entry.aliases
             && spec.namespace == alias.namespace && spec.name == alias.name
             && spec.fields == if alias.fields.None? || native then [] else alias.fields.value)
  }

  /** The entry gets bindings: it is async and its action, not empty, has a handler. */
  ghost predicate Callable(s: State, entry: Manifest) {
    && entry.transport == Async && entry.action.Some? && entry.action.value != ""
    && entry.action.value in s.table && s.table[entry.action.value].handler.Some?
  }

  lemma EntrySpecsBind(entry: Manifest, spec: Spec)
    requires HasAction(entry)
    ensures spec in EntrySpecs(entry) <==> Binds(spec, entry)
  {
    var action := entry.action.value;
    var specs := EntrySpecs(entry);
    if spec in specs && spec != specs[0] {
      var i :| 0 < i < |specs| && specs[i] == spec;
      assert entry.aliases[i - 1] in entry.aliases && spec == AliasSpec(entry.aliases[i - 1], action);
    }
    if spec.action == action && spec.parity == IsNativeParity(action) {
      if alias :| alias in entry.aliases
                  && spec.namespace == alias.namespace && spec.name == alias.name
                  && spec.fields == if alias.fields.None? || spec.parity then [] else alias.fields.value
      {
        var i :| 0 <= i < |entry.aliases| && entry.aliases[i] == alias;
        assert specs[i + 1] == AliasSpec(alias, action) == spec;
      }
    }
  }

  lemma {:induction false} SpecsOfMembers(s: State, entries: seq<Manifest>, spec: Spec)
    ensures spec in SpecsOf(s, entries) <==> exists e :: e in entries && Callable(s, e) && Binds(spec, e)
    decreases |entries|
  {
    hide Binds, EntrySpecs;
    if entries != [] {
      SpecsOfMembers(s, entries[1..], spec);
      assert forall e :: e in entries <==> e == entries[0] || e in entries[1..];
      if Callable(s, entries[0]) {
        EntrySpecsBind(entries[0], spec);
      }
    }
  }

  /**
   For any registry, frozen or not: what the script reads back to holds a binding exactly when some
   listed entry is callable and the binding is its own or an alias's.  Entries listed earlier
   are bound earlier, and an entry that cannot be called leaves no trace.
   */
  lemma ScriptBindsExactly(s: State, entries: seq<Manifest>, more: seq<Manifest>, spec: Spec)
    ensures var read := ReadScript(PrintScript(SpecsOf(s, entries)));
            && read.Some?
            && (spec in read.value <==> exists e :: e in entries && Callable(s, e) && Binds(spec, e))
            && ReadScript(PrintScript(SpecsOf(s, entries + more))) == Some(read.value + SpecsOf(s, more))
            && ((forall e :: e in more ==> !Callable(s, e)) ==> SpecsOf(s, more) == [])
  {
    hide PrintScript, ReadScript, Binds, Callable;
    ScriptRoundTrip(SpecsOf(s, entries));
    ScriptRoundTrip(SpecsOf(s, entries + more));
    SpecsOfMembers(s, entries, spec);
    SpecsOfConcat(s, entries, more);
    if forall e :: e in more ==> !Callable(s, e) {
      if SpecsOf(s, more) != [] {
        SpecsOfMembers(s, more, SpecsOf(s, more)[0]);
        assert SpecsOf(s, more)[0] in SpecsOf(s, more);
      }
    }
  }

  lemma {:induction false} SpecsOfConcat(s: State, a: seq<Manifest>, b: seq<Manifest>)
    ensures SpecsOf(s, a + b) == SpecsOf(s, a) + SpecsOf(s, b)
    decreases |a|
  {
    if a == [] {
      assert a + b == b;
    } else {
      SpecsOfConcat(s, a[1..], b);
      assert (a + b)[1..] == a[1..] + b;
    }
  }
}
