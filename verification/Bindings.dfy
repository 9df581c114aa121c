/** The JavaScript that `generate_js_bindings_code` prints, and a reader for it. */
module Bindings {
  import opened Wrappers
  import opened Registry
  import opened Sequences
  import opened Strings

  // ─── Escaping ─────────────────────────────────────────────────

  /** `str::replace`: every occurrence of `pattern`, left to right without overlap. */
  function ReplaceAll(s: string, pattern: string, instead: string): string
    requires pattern != ""
    decreases |s|
  {
    if s == "" then ""
    else if pattern <= s then instead + ReplaceAll(s[|pattern|..], pattern, instead)
    else [s[0]] + ReplaceAll(s[1..], pattern, instead)
  }

  const SCRIPT_END := "</script>"
  const SAFE_SCRIPT_END := "<\\/script>"

  /** `escape_js_string`: six replace passes, one after the other. */
  function EscapeJsString(s: string): string {
    var s1 := ReplaceAll(s, "\\", "\\\\");
    var s2 := ReplaceAll(s1, "\"", "\\\"");
    var s3 := ReplaceAll(s2, "\n", "\\n");
    var s4 := ReplaceAll(s3, "\r", "\\r");
    var s5 := ReplaceAll(s4, "\t", "\\t");
    ReplaceAll(s5, SCRIPT_END, SAFE_SCRIPT_END)
  }

  function EscapeChar(c: char): string {
    match c
    case '\\' => "\\\\"
    case '\"' => "\\\""
    case '\n' => "\\n"
    case '\r' => "\\r"
    case '\t' => "\\t"
    case _ => [c]
  }

  /** The same in one pass from left to right. */
  function EscapeOnePass(s: string): string
    decreases |s|
  {
    if s == "" then ""
    else if SCRIPT_END <= s then SAFE_SCRIPT_END + EscapeOnePass(s[|SCRIPT_END|..])
    else EscapeChar(s[0]) + EscapeOnePass(s[1..])
  }

  /** The first five passes together. */
  function EscapeChars(s: string): string {
    if s == "" then "" else EscapeChar(s[0]) + EscapeChars(s[1..])
  }

  lemma {:induction false} ReplaceCharSplit(a: string, b: string, c: char, instead: string)
    ensures ReplaceAll(a + b, [c], instead) == ReplaceAll(a, [c], instead) + ReplaceAll(b, [c], instead)
    decreases |a|
  {
    if a == "" {
      assert a + b == b;
    } else {
      assert (a + b)[1..] == a[1..] + b;
      assert [c] <= a <==> a[0] == c;
      assert [c] <= a + b <==> (a + b)[0] == c;
      ReplaceCharSplit(a[1..], b, c, instead);
    }
  }

  lemma {:induction false} Untouched(s: string, c: char, instead: string)
    requires c !in s
    ensures ReplaceAll(s, [c], instead) == s
    decreases |s|
  {
    if s != "" {
      assert [c] <= s <==> s[0] == c;
      Untouched(s[1..], c, instead);
    }
  }

  lemma Replaced(c: char, instead: string)
    ensures ReplaceAll([c], [c], instead) == instead
  {
    assert [c][1..] == "";
  }

  function FivePasses(s: string): string {
    var s1 := ReplaceAll(s, "\\", "\\\\");
    var s2 := ReplaceAll(s1, "\"", "\\\"");
    var s3 := ReplaceAll(s2, "\n", "\\n");
    var s4 := ReplaceAll(s3, "\r", "\\r");
    ReplaceAll(s4, "\t", "\\t")
  }

  lemma FivePassesOnChar(c: char)
    ensures FivePasses([c]) == EscapeChar(c)
  {
    if c == '\\' {
      Replaced(c, "\\\\");
    } else {
      Untouched([c], '\\', "\\\\");
    }
    var s1 := if c == '\\' then "\\\\" else [c];
    if c == '\"' {
      Replaced(c, "\\\"");
    } else {
      Untouched(s1, '\"', "\\\"");
    }
    var s2 := if c == '\"' then "\\\"" else s1;
    if c == '\n' {
      Replaced(c, "\\n");
    } else {
      Untouched(s2, '\n', "\\n");
    }
    var s3 := if c == '\n' then "\\n" else s2;
    if c == '\r' {
      Replaced(c, "\\r");
    } else {
      Untouched(s3, '\r', "\\r");
    }
    var s4 := if c == '\r' then "\\r" else s3;
    if c == '\t' {
      Replaced(c, "\\t");
    } else {
      Untouched(s4, '\t', "\\t");
    }
  }

  lemma FivePassesSplit(a: string, b: string)
    ensures FivePasses(a + b) == FivePasses(a) + FivePasses(b)
  {
    hide ReplaceAll;
    ReplaceCharSplit(a, b, '\\', "\\\\");
    var a1, b1 := ReplaceAll(a, "\\", "\\\\"), ReplaceAll(b, "\\", "\\\\");
    ReplaceCharSplit(a1, b1, '\"', "\\\"");
    var a2, b2 := ReplaceAll(a1, "\"", "\\\""), ReplaceAll(b1, "\"", "\\\"");
    ReplaceCharSplit(a2, b2, '\n', "\\n");
    var a3, b3 := ReplaceAll(a2, "\n", "\\n"), ReplaceAll(b2, "\n", "\\n");
    ReplaceCharSplit(a3, b3, '\r', "\\r");
    var a4, b4 := ReplaceAll(a3, "\r", "\\r"), ReplaceAll(b3, "\r", "\\r");
    ReplaceCharSplit(a4, b4, '\t', "\\t");
  }

  lemma {:induction false} FivePassesTogether(s: string)
    ensures FivePasses(s) == EscapeChars(s)
    decreases |s|
  {
    if s != "" {
      FivePassesTogether(s[1..]);
      FivePassesOnChar(s[0]);
      FivePassesSplit([s[0]], s[1..]);
      hide FivePasses;
      assert s == [s[0]] + s[1..];
    }
  }

  predicate IsPlain(c: char) {
    c != '\\' && c != '\"' && c != '\n' && c != '\r' && c != '\t'
  }

  /** A prefix of plain characters survives the escaping, and escaping invents none. */
  lemma {:induction false} PlainPrefix(p: string, s: string)
    requires forall c :: c in p ==> IsPlain(c)
    ensures p <= EscapeChars(s) <==> p <= s
    ensures p <= s ==> EscapeChars(s)[|p|..] == EscapeChars(s[|p|..])
    decreases |p|
  {
    if p != "" && s != "" {
      PlainPrefix(p[1..], s[1..]);
      var e := EscapeChars(s);
      assert IsPlain(p[0]);
      assert p == [p[0]] + p[1..] && s == [s[0]] + s[1..];
      if p[0] == s[0] {
        assert e == [s[0]] + EscapeChars(s[1..]);
        assert e[1..] == EscapeChars(s[1..]);
        assert p <= e <==> p[1..] <= e[1..];
        if p <= s {
          assert s[|p|..] == s[1..][|p| - 1..];
        }
      } else {
        assert e[0] == EscapeChar(s[0])[0] != p[0];
      }
    }
  }

  lemma SkipOne(c: char, rest: string)
    requires !(SCRIPT_END <= [c] + rest)
    ensures ReplaceAll([c] + rest, SCRIPT_END, SAFE_SCRIPT_END) == [c] + ReplaceAll(rest, SCRIPT_END, SAFE_SCRIPT_END)
  {
    assert ([c] + rest)[1..] == rest;
  }

  lemma SkipEscape(c: char, rest: string)
    requires !IsPlain(c)
    ensures ReplaceAll(EscapeChar(c) + rest, SCRIPT_END, SAFE_SCRIPT_END)
         == EscapeChar(c) + ReplaceAll(rest, SCRIPT_END, SAFE_SCRIPT_END)
  {
    hide ReplaceAll;
    var e := EscapeChar(c)[1];
    assert EscapeChar(c) == "\\" + [e] && e != '<';
    hide EscapeChar;
    assert ([e] + rest)[0] != SCRIPT_END[0] && ("\\" + ([e] + rest))[0] != SCRIPT_END[0];
    SkipOne(e, rest);
    SkipOne('\\', [e] + rest);
    assert EscapeChar(c) + rest == "\\" + ([e] + rest);
  }

  lemma {:induction false} SixthPass(s: string)
    ensures ReplaceAll(EscapeChars(s), SCRIPT_END, SAFE_SCRIPT_END) == EscapeOnePass(s)
    decreases |s|
  {
    if s != "" {
      PlainPrefix(SCRIPT_END, s);
      if SCRIPT_END <= s {
        SixthPass(s[|SCRIPT_END|..]);
      } else {
        SixthPass(s[1..]);
        var rest := EscapeChars(s[1..]);
        if IsPlain(s[0]) {
          SkipOne(s[0], rest);
        } else {
          SkipEscape(s[0], rest);
        }
      }
    }
  }

  /** The six successive replace passes equal one pass from left to right. */
  lemma SixPassesAreOne(s: string)
    ensures EscapeJsString(s) == EscapeOnePass(s)
  {
    FivePassesTogether(s);
    SixthPass(s);
  }

  // ─── Reading a string literal ─────────────────────────────────

  /** What a single-character escape stands for (ECMA-262, section 12.9.4); the numeric,
      hexadecimal and Unicode forms and line continuations are not read. */
  function Unescape(c: char): Option<char> {
    match c
    case 'n' => Some('\n')
    case 'r' => Some('\r')
    case 't' => Some('\t')
    case 'b' => Some(8 as char)
    case 'v' => Some(11 as char)
    case 'f' => Some(12 as char)
    case _ =>
      if '0' <= c <= '9' || c in {'u', 'x', '\n', '\r', '\U{2028}', '\U{2029}'} then None else Some(c)
  }

  /** Read up to the closing double quote: the value and the text after the quote. */
  function ReadString(s: string): (r: Option<(string, string)>)
    ensures r.Some? ==> |r.value.1| < |s|
    decreases |s|
  {
    if s == "" || s[0] == '\n' || s[0] == '\r' then None
    else if s[0] == '\"' then Some(("", s[1..]))
    else if s[0] != '\\' then
      var rest := ReadString(s[1..]);
      if rest.None? then None else Some(([s[0]] + rest.value.0, rest.value.1))
    else if |s| < 2 || Unescape(s[1]).None? then None
    else
      var rest := ReadString(s[2..]);
      if rest.None? then None else Some(([Unescape(s[1]).value] + rest.value.0, rest.value.1))
  }

  /** Plain characters other than the quote are read as themselves. */
  lemma {:induction false} ReadPlain(p: string, s: string)
    requires forall c :: c in p ==> IsPlain(c)
    requires ReadString(s).Some?
    ensures ReadString(p + s) == Some((p + ReadString(s).value.0, ReadString(s).value.1))
    decreases |p|
  {
    if p == "" {
      assert p + s == s && p + ReadString(s).value.0 == ReadString(s).value.0;
    } else {
      assert IsPlain(p[0]) && (p + s)[0] == p[0] && (p + s)[1..] == p[1..] + s;
      ReadPlain(p[1..], s);
      assert p + ReadString(s).value.0 == [p[0]] + (p[1..] + ReadString(s).value.0);
    }
  }

  lemma ReadEscape(c: char, s: string)
    requires ReadString(s).Some? && Unescape(c).Some?
    ensures ReadString(['\\', c] + s) == Some(([Unescape(c).value] + ReadString(s).value.0, ReadString(s).value.1))
  {
    var t := ['\\', c] + s;
    assert t[0] == '\\' && t[1] == c && t[2..] == s;
  }

  lemma ReadEscapedChar(c: char, s: string)
    requires ReadString(s).Some?
    ensures ReadString(EscapeChar(c) + s) == Some(([c] + ReadString(s).value.0, ReadString(s).value.1))
  {
    if IsPlain(c) {
      ReadPlain([c], s);
    } else {
      var e := EscapeChar(c)[1];
      assert EscapeChar(c) == ['\\', e] && Unescape(e) == Some(c);
      ReadEscape(e, s);
    }
  }

  lemma ReadAround(a: string, c: char, b: string, s: string)
    requires (forall x :: x in a ==> IsPlain(x)) && (forall x :: x in b ==> IsPlain(x))
    requires Unescape(c) == Some(c) && ReadString(s).Some?
    ensures ReadString((a + (['\\', c] + b)) + s)
         == Some(((a + ([c] + b)) + ReadString(s).value.0, ReadString(s).value.1))
  {
    ReadPlain(b, s);
    ReadEscape(c, b + s);
    ReadPlain(a, ['\\', c] + (b + s));
    hide ReadString, Unescape;
    Regroup(['\\', c], b, s);
    Regroup(a, ['\\', c] + b, s);
    Regroup([c], b, ReadString(s).value.0);
    Regroup(a, [c] + b, ReadString(s).value.0);
  }

  lemma ReadSafeScriptEnd(s: string)
    requires ReadString(s).Some?
    ensures ReadString(SAFE_SCRIPT_END + s) == Some((SCRIPT_END + ReadString(s).value.0, ReadString(s).value.1))
  {
    assert Unescape('/') == Some('/');
    hide ReadString, Unescape;
    assert SAFE_SCRIPT_END == "<" + (['\\', '/'] + "script>") && SCRIPT_END == "<" + (['/'] + "script>");
    ReadAround("<", '/', "script>", s);
  }

  lemma PrefixSplit(p: string, s: string)
    requires p <= s
    ensures s == p + s[|p|..]
  {
  }

  /** Reading an escaped string as a double-quoted literal gives the string back. */
  lemma {:induction false} EscapeRoundTrip(s: string, rest: string)
    ensures ReadString(EscapeOnePass(s) + ("\"" + rest)) == Some((s, rest))
    decreases |s|
  {
    var tail := "\"" + rest;
    assert ReadString(tail) == Some(("", rest)) by {
      assert tail[1..] == rest;
    }
    hide ReadString, EscapeChar;
    if s == "" {
      assert EscapeOnePass(s) + tail == tail;
    } else if SCRIPT_END <= s {
      var s' := s[|SCRIPT_END|..];
      EscapeRoundTrip(s', rest);
      ReadSafeScriptEnd(EscapeOnePass(s') + tail);
      Regroup(SAFE_SCRIPT_END, EscapeOnePass(s'), tail);
      PrefixSplit(SCRIPT_END, s);
    } else {
      EscapeRoundTrip(s[1..], rest);
      ReadEscapedChar(s[0], EscapeOnePass(s[1..]) + tail);
      Regroup(EscapeChar(s[0]), EscapeOnePass(s[1..]), tail);
      PrefixSplit([s[0]], s);
    }
  }

  // ─── One line ─────────────────────────────────────────────────

  /** The escaped text stays on one line and has no tab. */
  lemma {:induction false} EscapedIsOneLine(s: string)
    ensures '\n' !in EscapeOnePass(s) && '\r' !in EscapeOnePass(s) && '\t' !in EscapeOnePass(s)
    decreases |s|
  {
    if s != "" {
      EscapedIsOneLine(if SCRIPT_END <= s then s[|SCRIPT_END|..] else s[1..]);
    }
  }

  // ─── No script end tag survives ───────────────────────────────

  lemma {:induction false} TagTailOnlyFromInput(p: string, s: string)
    requires forall c :: c in p ==> IsPlain(c) && c != '<'
    ensures p <= EscapeOnePass(s) ==> p <= s
    decreases |p|
  {
    var o := EscapeOnePass(s);
    assert SCRIPT_END <= s ==> o[0] == '<';
    if p != "" && s != "" && p <= o {
      assert IsPlain(p[0]) && p[0] != '<' && o[0] == p[0];
      if !(SCRIPT_END <= s) {
        assert o == EscapeChar(s[0]) + EscapeOnePass(s[1..]);
        assert IsPlain(s[0]) && o[1..] == EscapeOnePass(s[1..]) && p[1..] <= o[1..];
        TagTailOnlyFromInput(p[1..], s[1..]);
        assert p == [p[0]] + p[1..] && s == [s[0]] + s[1..];
      }
    }
  }

  /** The escaped text does not start with the end tag. */
  lemma NoTagAtStart(s: string)
    ensures !(SCRIPT_END <= EscapeOnePass(s))
  {
    var o := EscapeOnePass(s);
    if s != "" && SCRIPT_END <= s {
      assert o[1] == '\\' && SCRIPT_END[1] == '/';
    } else if s != "" {
      assert SCRIPT_END == "<" + "/script>";
      TagTailOnlyFromInput("/script>", s[1..]);
      PrefixSplit([s[0]], s);
      assert SCRIPT_END <= o ==> o[0] == '<' && "/script>" <= o[1..];
      assert IsPlain(s[0]) ==> o[0] == s[0] && o[1..] == EscapeOnePass(s[1..]);
      assert !IsPlain(s[0]) ==> o[0] == '\\';
      hide EscapeOnePass;
      assert s[0] == '<' && "/script>" <= s[1..] ==> SCRIPT_END <= s;
    }
  }

  lemma DropPrefix(a: string, b: string, i: nat)
    requires |a| <= i <= |a + b|
    ensures (a + b)[i..] == b[i - |a|..]
  {
  }

  /** The escaped text can be put inside a script element: it never contains the end tag. */
  lemma {:induction false} NoScriptEnd(s: string, i: nat)
    requires i <= |EscapeOnePass(s)|
    ensures !(SCRIPT_END <= EscapeOnePass(s)[i..])
    decreases |s|
  {
    if i == 0 {
      NoTagAtStart(s);
      assert EscapeOnePass(s)[0..] == EscapeOnePass(s);
    } else if s != "" {
      var chunk := if SCRIPT_END <= s then SAFE_SCRIPT_END else EscapeChar(s[0]);
      var rest := if SCRIPT_END <= s then s[|SCRIPT_END|..] else s[1..];
      assert EscapeOnePass(s) == chunk + EscapeOnePass(rest);
      assert forall j :: 0 < j < |chunk| ==> chunk[j] != '<';
      hide EscapeOnePass;
      if i >= |chunk| {
        NoScriptEnd(rest, i - |chunk|);
        DropPrefix(chunk, EscapeOnePass(rest), i);
      } else {
        assert EscapeOnePass(s)[i] == chunk[i] != SCRIPT_END[0];
      }
    }
  }

  // ─── Printing the bindings ────────────────────────────────────

  /** One binding as the prelude receives it; no fields and `fields:[]` are the same here. */
  datatype Spec = Spec(namespace: string, name: string, action: string, fields: seq<string>, parity: bool)

  predicate IsNativeParity(action: string) {
    "chrome_" <= action ||
    action in {
      "bookmarks_search", "bookmarks_create", "bookmarks_delete", "history_search", "history_delete",
      "cookies_get", "cookies_set", "cookies_delete", "cookies_list",
      "notifications_create", "notifications_clear"
    }
  }

  function FieldsOf(fields: Option<seq<string>>, action: string): seq<string> {
    if fields.Some? && !IsNativeParity(action) then fields.value else []
  }

  function AliasSpec(alias: Alias, action: string): Spec {
    Spec(alias.namespace, alias.name, action, FieldsOf(alias.fields, action), IsNativeParity(action))
  }

  function AliasSpecs(aliases: seq<Alias>, action: string): (specs: seq<Spec>)
    ensures |specs| == |aliases|
  {
    seq(|aliases|, i requires 0 <= i < |aliases| => AliasSpec(aliases[i], action))
  }

  /** The entry's own binding, then one for each alias. */
  function EntrySpecs(entry: Manifest): seq<Spec>
    requires HasAction(entry)
  {
    var action := entry.action.value;
    [Spec(entry.namespace, entry.name, action, FieldsOf(entry.fields, action), IsNativeParity(action))]
    + AliasSpecs(entry.aliases, action)
  }

  predicate Bound(s: State, entry: Manifest) {
    entry.transport == Async && HasAction(entry) && Dispatch(s, entry.action.value).Some?
  }

  function SpecsOf(s: State, entries: seq<Manifest>): seq<Spec>
    decreases |entries|
  {
    if entries == [] then []
    else (if Bound(s, entries[0]) then EntrySpecs(entries[0]) else []) + SpecsOf(s, entries[1..])
  }

  function Quote(s: string): string {
    "\"" + EscapeJsString(s) + "\""
  }

  function Quotes(fields: seq<string>): (quoted: seq<string>)
    ensures |quoted| == |fields|
  {
    seq(|fields|, i requires 0 <= i < |fields| => Quote(fields[i]))
  }

  function PrintSpec(spec: Spec): string {
    "{namespace:" + Quote(spec.namespace) + ",name:" + Quote(spec.name) + ",action:" + Quote(spec.action)
    + (if spec.fields == [] then "" else ",fields:[" + Join(Quotes(spec.fields), ",") + "]")
    + (if spec.parity then ",parity:true" else "") + "}"
  }

  function PrintSpecs(specs: seq<Spec>): (printed: seq<string>)
    ensures |printed| == |specs|
  {
    seq(|specs|, i requires 0 <= i < |specs| => PrintSpec(specs[i]))
  }

  function PrintScript(specs: seq<Spec>): string {
    if specs == [] then ""
    else "__webJsSetupAsyncBindings([\n  " + Join(PrintSpecs(specs), ",\n  ") + "\n]);"
  }

  /** Print an entry's own binding and one for each alias. */
  method PushEntry(entry: Manifest, specs: seq<string>, ghost built: seq<Spec>) returns (specs': seq<string>)
    requires HasAction(entry) && specs == PrintSpecs(built)
    ensures specs' == PrintSpecs(built + EntrySpecs(entry))
  {
    hide PrintSpec;
    var action := entry.action.value;
    var parity := IsNativeParity(action);
    var own := Spec(entry.namespace, entry.name, action, FieldsOf(entry.fields, action), parity);
    specs' := specs + [PrintSpec(own)];
    var j := 0;
    while j < |entry.aliases|
      invariant 0 <= j <= |entry.aliases|
      invariant specs' == PrintSpecs(built + EntrySpecs(entry)[..1 + j])
    {
      var alias := AliasSpec(entry.aliases[j], action);
      assert EntrySpecs(entry)[..2 + j] == EntrySpecs(entry)[..1 + j] + [alias];
      assert built + EntrySpecs(entry)[..2 + j] == (built + EntrySpecs(entry)[..1 + j]) + [alias];
      specs' := specs' + [PrintSpec(alias)];
      j := j + 1;
    }
    assert EntrySpecs(entry)[..1 + j] == EntrySpecs(entry);
  }

  lemma NextSpecs(s: State, entries: seq<Manifest>, i: nat, built: seq<Spec>)
    requires i < |entries|
    ensures built + SpecsOf(s, entries[i..])
         == (if Bound(s, entries[i]) then built + EntrySpecs(entries[i]) else built) + SpecsOf(s, entries[i + 1..])
  {
    hide Bound, EntrySpecs;
    assert entries[i..][1..] == entries[i + 1..];
  }

  /** `generate_js_bindings_code` over the listed manifest entries. */
  method GenerateJsBindingsCode(registry: ApiRegistry, entries: seq<Manifest>) returns (code: string)
    ensures code == PrintScript(SpecsOf(registry.Snapshot(), entries))
  {
    var specs: seq<string> := [];
    ghost var built: seq<Spec> := [];
    var i := 0;
    assert built + SpecsOf(registry.Snapshot(), entries[0..]) == SpecsOf(registry.Snapshot(), entries);
    while i < |entries|
      invariant 0 <= i <= |entries| && specs == PrintSpecs(built)
      invariant SpecsOf(registry.Snapshot(), entries) == built + SpecsOf(registry.Snapshot(), entries[i..])
    {
      hide PrintSpecs, EntrySpecs, SpecsOf;
      NextSpecs(registry.Snapshot(), entries, i, built);
      if Bound(registry.Snapshot(), entries[i]) {
        specs := PushEntry(entries[i], specs, built);
        built := built + EntrySpecs(entries[i]);
      }
      i := i + 1;
    }
    assert built + [] == built;
    code := if specs == [] then "" else "__webJsSetupAsyncBindings([\n  " + Join(specs, ",\n  ") + "\n]);";
  }
}
