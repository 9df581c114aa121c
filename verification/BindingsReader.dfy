/** Reading the printed script back: a lexer and a parser for the literals it is made of. */
module BindingsReader {
  import opened Wrappers
  import opened Bindings
  import opened Strings

  datatype Token = Punct(c: char) | Word(name: string) | Text(value: string)

  predicate IsWordChar(c: char) {
    'a' <= c <= 'z' || 'A' <= c <= 'Z' || c == '_'
  }

  predicate IsPunct(c: char) {
    c in {'{', '}', '[', ']', '(', ')', ':', ',', ';'}
  }

  /** The longest run of word characters at the front. */
  function WordLength(s: string): (n: nat)
    ensures n <= |s|
    decreases |s|
  {
    if s == "" || !IsWordChar(s[0]) then 0 else 1 + WordLength(s[1..])
  }

  function Prepend(token: Token, tokens: Option<seq<Token>>): Option<seq<Token>> {
    if tokens.None? then None else Some([token] + tokens.value)
  }

  function Lex(s: string): Option<seq<Token>>
    decreases |s|
  {
    if s == "" then Some([])
    else if s[0] == ' ' || s[0] == '\n' then Lex(s[1..])
    else if IsPunct(s[0]) then Prepend(Punct(s[0]), Lex(s[1..]))
    else if s[0] == '\"' then
      var read := ReadString(s[1..]);
      if read.None? then None else Prepend(Text(read.value.0), Lex(read.value.1))
    else if IsWordChar(s[0]) then Prepend(Word(s[..WordLength(s)]), Lex(s[WordLength(s)..]))
    else None
  }

  // ─── Parsing ──────────────────────────────────────────────────

  /** `text, text, ... ]` : the texts and what follows the bracket. */
  function ParseTexts(tokens: seq<Token>): (r: Option<(seq<string>, seq<Token>)>)
    ensures r.Some? ==> |r.value.1| < |tokens|
    decreases |tokens|
  {
    if |tokens| < 2 || !tokens[0].Text? then None
    else if tokens[1] == Punct(']') then Some(([tokens[0].value], tokens[2..]))
    else if tokens[1] == Punct(',') then
      var rest := ParseTexts(tokens[2..]);
      if rest.None? then None else Some(([tokens[0].value] + rest.value.0, rest.value.1))
    else None
  }

  /** `name : "text" ,?` with the given name. */
  function ParseMember(tokens: seq<Token>, name: string): (r: Option<(string, seq<Token>)>)
    ensures r.Some? ==> |r.value.1| < |tokens|
  {
    if |tokens| >= 3 && tokens[0] == Word(name) && tokens[1] == Punct(':') && tokens[2].Text? then
      Some((tokens[2].value, tokens[3..]))
    else None
  }

  function ParseFields(tokens: seq<Token>): (r: Option<(seq<string>, seq<Token>)>)
    ensures r.Some? ==> |r.value.1| <= |tokens|
  {
    if |tokens| >= 4 && tokens[..4] == [Punct(','), Word("fields"), Punct(':'), Punct('[')] then ParseTexts(tokens[4..])
    else Some(([], tokens))
  }

  function ParseParity(tokens: seq<Token>): (r: (bool, seq<Token>))
    ensures |r.1| <= |tokens|
  {
    if |tokens| >= 4 && tokens[..4] == [Punct(','), Word("parity"), Punct(':'), Word("true")] then (true, tokens[4..])
    else (false, tokens)
  }

  function Skip(tokens: Option<(string, seq<Token>)>, c: char): (r: Option<(string, seq<Token>)>)
    ensures r.Some? ==> tokens.Some? && |r.value.1| < |tokens.value.1|
  {
    if tokens.Some? && tokens.value.1 != [] && tokens.value.1[0] == Punct(c) then
      Some((tokens.value.0, tokens.value.1[1..]))
    else None
  }

  /** One object literal. */
  function ParseSpec(tokens: seq<Token>): (r: Option<(Spec, seq<Token>)>)
    ensures r.Some? ==> |r.value.1| < |tokens|
  {
    if tokens == [] || tokens[0] != Punct('{') then None
    else
      var namespace := Skip(ParseMember(tokens[1..], "namespace"), ',');
      if namespace.None? then None
      else
        var name := Skip(ParseMember(namespace.value.1, "name"), ',');
        if name.None? then None
        else
          var action := ParseMember(name.value.1, "action");
          if action.None? then None
          else
            var fields := ParseFields(action.value.1);
            if fields.None? then None
            else
              var parity := ParseParity(fields.value.1);
              if parity.1 == [] || parity.1[0] != Punct('}') then None
              else
                Some((Spec(namespace.value.0, name.value.0, action.value.0, fields.value.0, parity.0), parity.1[1..]))
  }

  /** `spec, spec, ... ] ) ;` and nothing after it. */
  function ParseSpecs(tokens: seq<Token>): Option<seq<Spec>>
    decreases |tokens|
  {
    var first := ParseSpec(tokens);
    if first.None? then None
    else if first.value.1 == [Punct(']'), Punct(')'), Punct(';')] then Some([first.value.0])
    else if first.value.1 != [] && first.value.1[0] == Punct(',') then
      var rest := ParseSpecs(first.value.1[1..]);
      if rest.None? then None else Some([first.value.0] + rest.value)
    else None
  }

  /** The spec array a script passes to `__webJsSetupAsyncBindings`; no text means no call. */
  function ReadScript(code: string): Option<seq<Spec>> {
    var tokens := Lex(code);
    if tokens.None? then None
    else if tokens.value == [] then Some([])
    else if |tokens.value| >= 3
            && tokens.value[..3] == [Word("__webJsSetupAsyncBindings"), Punct('('), Punct('[')]
    then ParseSpecs(tokens.value[3..])
    else None
  }

  // ─── Lexing what is printed ───────────────────────────────────

  lemma {:induction false} WordRun(w: string, s: string)
    requires forall c :: c in w ==> IsWordChar(c)
    requires s == "" || !IsWordChar(s[0])
    ensures WordLength(w + s) == |w|
    decreases |w|
  {
    if w == "" {
      assert w + s == s;
    } else {
      assert IsWordChar(w[0]) && (w + s)[0] == w[0] && (w + s)[1..] == w[1..] + s;
      WordRun(w[1..], s);
    }
  }

  lemma LexWord(w: string, s: string)
    requires w != "" && forall c :: c in w ==> IsWordChar(c)
    requires s == "" || !IsWordChar(s[0])
    ensures Lex(w + s) == Prepend(Word(w), Lex(s))
  {
    WordRun(w, s);
    assert IsWordChar(w[0]) && (w + s)[0] == w[0];
    assert (w + s)[..|w|] == w && (w + s)[|w|..] == s;
  }

  lemma LexPunct(c: char, s: string)
    requires IsPunct(c)
    ensures Lex([c] + s) == Prepend(Punct(c), Lex(s))
  {
    assert ([c] + s)[1..] == s;
  }

  lemma LexQuote(value: string, s: string)
    ensures Lex(Quote(value) + s) == Prepend(Text(value), Lex(s))
  {
    SixPassesAreOne(value);
    EscapeRoundTrip(value, s);
    assert (Quote(value) + s)[1..] == EscapeOnePass(value) + ("\"" + s);
  }

  function Append(tokens: seq<Token>, rest: Option<seq<Token>>): Option<seq<Token>> {
    if rest.None? then None else Some(tokens + rest.value)
  }

  lemma AppendTwice(a: seq<Token>, b: seq<Token>, rest: Option<seq<Token>>)
    ensures Append(a, Append(b, rest)) == Append(a + b, rest)
  {
    if rest.Some? {
      assert a + (b + rest.value) == (a + b) + rest.value;
    }
  }

  function MemberTokens(open: char, name: string, value: string): seq<Token> {
    [Punct(open), Word(name), Punct(':'), Text(value)]
  }

  lemma LexMember(open: char, name: string, value: string, s: string)
    requires IsPunct(open) && name != "" && forall c :: c in name ==> IsWordChar(c)
    ensures Lex([open] + name + ":" + Quote(value) + s) == Append(MemberTokens(open, name, value), Lex(s))
  {
    hide Lex, Quote;
    LexQuote(value, s);
    var afterColon := Quote(value) + s;
    LexPunct(':', afterColon);
    LexWord(name, ":" + afterColon);
    LexPunct(open, name + (":" + afterColon));
    assert [open] + name + ":" + Quote(value) + s == [open] + (name + (":" + afterColon));
    if Lex(s).Some? {
      assert [Punct(open)] + ([Word(name)] + ([Punct(':')] + ([Text(value)] + Lex(s).value)))
          == MemberTokens(open, name, value) + Lex(s).value;
    }
  }

  function TextsTokens(fields: seq<string>): seq<Token>
    decreases |fields|
  {
    if fields == [] then []
    else if |fields| == 1 then [Text(fields[0])]
    else [Text(fields[0]), Punct(',')] + TextsTokens(fields[1..])
  }

  lemma {:induction false} LexTexts(fields: seq<string>, s: string)
    ensures Lex(Join(Quotes(fields), ",") + s) == Append(TextsTokens(fields), Lex(s))
    decreases |fields|
  {
    hide Lex, Quote;
    if fields == [] {
      assert Join(Quotes(fields), ",") + s == s;
      AppendNothing(Lex(s));
    } else {
      assert Quotes(fields)[1..] == Quotes(fields[1..]);
      LexQuote(fields[0], s);
      if |fields| > 1 {
        var rest := Join(Quotes(fields[1..]), ",") + s;
        LexTexts(fields[1..], s);
        LexPunct(',', rest);
        LexQuote(fields[0], "," + rest);
        assert Join(Quotes(fields), ",") + s == Quote(fields[0]) + ("," + rest);
        AppendTwice([Text(fields[0]), Punct(',')], TextsTokens(fields[1..]), Lex(s));
        if Lex(rest).Some? {
          assert [Text(fields[0])] + ([Punct(',')] + Lex(rest).value)
              == [Text(fields[0]), Punct(',')] + Lex(rest).value;
        }
      }
    }
  }

  lemma AppendNothing(rest: Option<seq<Token>>)
    ensures Append([], rest) == rest
  {
    if rest.Some? {
      assert [] + rest.value == rest.value;
    }
  }

  function FieldsTokens(fields: seq<string>): seq<Token> {
    if fields == [] then []
    else [Punct(','), Word("fields"), Punct(':'), Punct('[')] + TextsTokens(fields) + [Punct(']')]
  }

  function PrintFields(fields: seq<string>): string {
    if fields == [] then "" else ",fields:[" + Join(Quotes(fields), ",") + "]"
  }

  lemma LexFieldsOpen(s: string)
    ensures Lex(",fields:[" + s) == Append([Punct(','), Word("fields"), Punct(':'), Punct('[')], Lex(s))
  {
    hide Lex;
    LexPunct('[', s);
    LexPunct(':', "[" + s);
    LexWord("fields", ":" + ("[" + s));
    LexPunct(',', "fields" + (":" + ("[" + s)));
    assert ",fields:[" + s == "," + ("fields" + (":" + ("[" + s)));
    if Lex(s).Some? {
      assert [Punct(',')] + ([Word("fields")] + ([Punct(':')] + ([Punct('[')] + Lex(s).value)))
          == [Punct(','), Word("fields"), Punct(':'), Punct('[')] + Lex(s).value;
    }
  }

  lemma LexFields(fields: seq<string>, s: string)
    ensures Lex(PrintFields(fields) + s) == Append(FieldsTokens(fields), Lex(s))
  {
    hide Lex, Quotes, TextsTokens, Join;
    if fields == [] {
      assert PrintFields(fields) + s == s;
      AppendNothing(Lex(s));
    } else {
      hide Append, Prepend;
      var texts := Join(Quotes(fields), ",");
      var open := [Punct(','), Word("fields"), Punct(':'), Punct('[')];
      LexPunct(']', s);
      PrependIsAppend(Punct(']'), Lex(s));
      LexTexts(fields, "]" + s);
      LexFieldsOpen(texts + ("]" + s));
      AppendTwice(TextsTokens(fields), [Punct(']')], Lex(s));
      AppendTwice(open, TextsTokens(fields) + [Punct(']')], Lex(s));
      assert PrintFields(fields) + s == ",fields:[" + (texts + ("]" + s));
      assert FieldsTokens(fields) == open + (TextsTokens(fields) + [Punct(']')]);
    }
  }

  function ParityTokens(parity: bool): seq<Token> {
    if parity then [Punct(','), Word("parity"), Punct(':'), Word("true")] else []
  }

  function PrintParity(parity: bool): string {
    if parity then ",parity:true" else ""
  }

  lemma ParityParts(s: string)
    ensures PrintParity(true) + s == "," + ("parity" + (":" + ("true" + s)))
  {
  }

  lemma LexParity(parity: bool, s: string)
    requires s == "" || !IsWordChar(s[0])
    ensures Lex(PrintParity(parity) + s) == Append(ParityTokens(parity), Lex(s))
  {
    hide Lex, Prepend, Append;
    if parity {
      LexWord("true", s);
      LexPunct(':', "true" + s);
      LexWord("parity", ":" + ("true" + s));
      LexPunct(',', "parity" + (":" + ("true" + s)));
      ParityParts(s);
      PrependFour(Punct(','), Word("parity"), Punct(':'), Word("true"), Lex(s));
    } else {
      assert PrintParity(parity) + s == s;
      AppendNothing(Lex(s));
    }
  }

  lemma PrependFour(a: Token, b: Token, c: Token, d: Token, rest: Option<seq<Token>>)
    ensures Prepend(a, Prepend(b, Prepend(c, Prepend(d, rest)))) == Append([a, b, c, d], rest)
  {
    if rest.Some? {
      assert [a] + ([b] + ([c] + ([d] + rest.value))) == [a, b, c, d] + rest.value;
    }
  }

  function SpecTokens(spec: Spec): seq<Token> {
    MemberTokens('{', "namespace", spec.namespace)
    + (MemberTokens(',', "name", spec.name)
       + (MemberTokens(',', "action", spec.action) + EndTokens(spec)))
  }

  function PrintEnd(spec: Spec, s: string): string {
    PrintFields(spec.fields) + (PrintParity(spec.parity) + ("}" + s))
  }

  function EndTokens(spec: Spec): seq<Token> {
    FieldsTokens(spec.fields) + (ParityTokens(spec.parity) + [Punct('}')])
  }

  lemma LexEnd(spec: Spec, s: string)
    ensures Lex(PrintEnd(spec, s)) == Append(EndTokens(spec), Lex(s))
  {
    hide Lex, FieldsTokens, ParityTokens, PrintFields, PrintParity, Append;
    LexPunct('}', s);
    PrependIsAppend(Punct('}'), Lex(s));
    LexParity(spec.parity, "}" + s);
    LexFields(spec.fields, PrintParity(spec.parity) + ("}" + s));
    AppendTwice(ParityTokens(spec.parity), [Punct('}')], Lex(s));
    AppendTwice(FieldsTokens(spec.fields), ParityTokens(spec.parity) + [Punct('}')], Lex(s));
  }

  lemma PrintSpecParts(spec: Spec, s: string)
    ensures PrintSpec(spec) + s ==
            "{" + "namespace" + ":" + Quote(spec.namespace)
            + ("," + "name" + ":" + Quote(spec.name) + ("," + "action" + ":" + Quote(spec.action) + PrintEnd(spec, s)))
  {
    hide Quote, Join, Quotes;
    var a, b, c := Quote(spec.namespace), Quote(spec.name), Quote(spec.action);
    var f, p := PrintFields(spec.fields), PrintParity(spec.parity);
    assert PrintSpec(spec) == "{namespace:" + a + ",name:" + b + ",action:" + c + f + p + "}";
    assert "{namespace:" == "{" + "namespace" + ":";
    assert ",name:" == "," + "name" + ":" && ",action:" == "," + "action" + ":";
    NestSpec("{namespace:", a, ",name:", b, ",action:", c, f, p, s);
  }

  lemma NestSpec(k1: string, a: string, k2: string, b: string, k3: string, c: string, f: string, p: string, s: string)
    ensures k1 + a + k2 + b + k3 + c + f + p + "}" + s == k1 + a + (k2 + b + (k3 + c + (f + (p + ("}" + s)))))
  {
  }

  lemma LexSpec(spec: Spec, s: string)
    ensures Lex(PrintSpec(spec) + s) == Append(SpecTokens(spec), Lex(s))
  {
    hide Lex, Quote, FieldsTokens, ParityTokens, MemberTokens, PrintSpec, PrintEnd, Append;
    PrintSpecParts(spec, s);
    var end := PrintEnd(spec, s);
    var fromAction := "," + "action" + ":" + Quote(spec.action) + end;
    var fromName := "," + "name" + ":" + Quote(spec.name) + fromAction;
    LexEnd(spec, s);
    LexMember(',', "action", spec.action, end);
    LexMember(',', "name", spec.name, fromAction);
    LexMember('{', "namespace", spec.namespace, fromName);
    AppendTwice(MemberTokens(',', "action", spec.action), EndTokens(spec), Lex(s));
    var tail := MemberTokens(',', "action", spec.action) + EndTokens(spec);
    AppendTwice(MemberTokens(',', "name", spec.name), tail, Lex(s));
    AppendTwice(MemberTokens('{', "namespace", spec.namespace), MemberTokens(',', "name", spec.name) + tail, Lex(s));
  }

  lemma PrependIsAppend(token: Token, rest: Option<seq<Token>>)
    ensures Prepend(token, rest) == Append([token], rest)
  {
  }

  function SpecsTokens(specs: seq<Spec>): seq<Token>
    decreases |specs|
  {
    if specs == [] then []
    else if |specs| == 1 then SpecTokens(specs[0])
    else SpecTokens(specs[0]) + ([Punct(',')] + SpecsTokens(specs[1..]))
  }

  lemma LexSpace(c: char, s: string)
    requires c == ' ' || c == '\n'
    ensures Lex([c] + s) == Lex(s)
  {
    assert ([c] + s)[1..] == s;
  }

  lemma LexIndent(s: string)
    ensures Lex("\n  " + s) == Lex(s)
  {
    hide Lex;
    LexSpace(' ', s);
    LexSpace(' ', " " + s);
    LexSpace('\n', " " + (" " + s));
    assert "\n  " + s == "\n" + (" " + (" " + s));
  }

  lemma {:induction false} LexSpecs(specs: seq<Spec>, s: string)
    ensures Lex(Join(PrintSpecs(specs), ",\n  ") + s) == Append(SpecsTokens(specs), Lex(s))
    decreases |specs|
  {
    hide Lex, PrintSpec, SpecTokens;
    if specs == [] {
      assert Join(PrintSpecs(specs), ",\n  ") + s == s;
      AppendNothing(Lex(s));
    } else if |specs| == 1 {
      LexSpec(specs[0], s);
    } else {
      assert PrintSpecs(specs)[1..] == PrintSpecs(specs[1..]);
      var rest := Join(PrintSpecs(specs[1..]), ",\n  ") + s;
      LexSpecs(specs[1..], s);
      LexIndent(rest);
      LexPunct(',', "\n  " + rest);
      LexSpec(specs[0], "," + ("\n  " + rest));
      assert Join(PrintSpecs(specs), ",\n  ") + s == PrintSpec(specs[0]) + ("," + ("\n  " + rest));
      PrependIsAppend(Punct(','), Lex(rest));
      AppendTwice([Punct(',')], SpecsTokens(specs[1..]), Lex(s));
      AppendTwice(SpecTokens(specs[0]), [Punct(',')] + SpecsTokens(specs[1..]), Lex(s));
    }
  }

  // ─── Parsing what is printed ──────────────────────────────────

  lemma ParseLastText(text: string, rest: seq<Token>)
    ensures ParseTexts([Text(text), Punct(']')] + rest) == Some(([text], rest))
  {
    assert ([Text(text), Punct(']')] + rest)[2..] == rest;
  }

  lemma ParseNextText(text: string, later: seq<Token>)
    requires ParseTexts(later).Some?
    ensures ParseTexts([Text(text), Punct(',')] + later)
         == Some(([text] + ParseTexts(later).value.0, ParseTexts(later).value.1))
  {
    assert ([Text(text), Punct(',')] + later)[2..] == later;
  }

  lemma {:induction false} ParsePrintedTexts(fields: seq<string>, rest: seq<Token>)
    requires fields != []
    ensures ParseTexts(TextsTokens(fields) + ([Punct(']')] + rest)) == Some((fields, rest))
    decreases |fields|
  {
    hide ParseTexts;
    var tokens := TextsTokens(fields) + ([Punct(']')] + rest);
    if |fields| == 1 {
      ParseLastText(fields[0], rest);
      assert tokens == [Text(fields[0]), Punct(']')] + rest;
      assert fields == [fields[0]];
    } else {
      var later := TextsTokens(fields[1..]) + ([Punct(']')] + rest);
      ParsePrintedTexts(fields[1..], rest);
      ParseNextText(fields[0], later);
      assert tokens == [Text(fields[0]), Punct(',')] + later;
      assert fields == [fields[0]] + fields[1..];
    }
  }

  lemma ParseNoFields(rest: seq<Token>)
    requires rest != [] && (|rest| >= 2 ==> rest[1] != Word("fields") || rest[0] != Punct(','))
    ensures ParseFields(rest) == Some(([], rest))
  {
    hide ParseTexts;
    if |rest| >= 4 {
      assert rest[..4][0] == rest[0] && rest[..4][1] == rest[1];
    }
  }

  lemma ParseOpenFields(inside: seq<Token>)
    ensures ParseFields([Punct(','), Word("fields"), Punct(':'), Punct('[')] + inside) == ParseTexts(inside)
  {
    hide ParseTexts;
    var tokens := [Punct(','), Word("fields"), Punct(':'), Punct('[')] + inside;
    assert tokens[..4] == [Punct(','), Word("fields"), Punct(':'), Punct('[')] && tokens[4..] == inside;
  }

  lemma ParsePrintedFields(fields: seq<string>, rest: seq<Token>)
    requires rest != [] && (|rest| >= 2 ==> rest[1] != Word("fields") || rest[0] != Punct(','))
    ensures ParseFields(FieldsTokens(fields) + rest) == Some((fields, rest))
  {
    if fields == [] {
      ParseNoFields(rest);
      assert FieldsTokens(fields) + rest == rest;
    } else {
      ParsePrintedTexts(fields, rest);
      hide ParseTexts, TextsTokens, ParseFields;
      var inside := TextsTokens(fields) + ([Punct(']')] + rest);
      ParseOpenFields(inside);
      assert FieldsTokens(fields) + rest == [Punct(','), Word("fields"), Punct(':'), Punct('[')] + inside;
    }
  }

  lemma ParsePrintedParity(parity: bool, rest: seq<Token>)
    requires rest != [] && rest[0] == Punct('}')
    ensures ParseParity(ParityTokens(parity) + rest) == (parity, rest)
  {
    var tokens := ParityTokens(parity) + rest;
    if parity {
      assert tokens[..4] == ParityTokens(true) && tokens[4..] == rest;
    } else {
      assert tokens == rest;
      if |rest| >= 4 {
        assert rest[..4][0] == Punct('}');
      }
    }
  }

  lemma ParseMemberAt(name: string, value: string, rest: seq<Token>)
    ensures ParseMember([Word(name), Punct(':'), Text(value)] + rest, name) == Some((value, rest))
  {
    var tokens := [Word(name), Punct(':'), Text(value)] + rest;
    assert tokens[3..] == rest;
  }

  function AfterName(spec: Spec, end: seq<Token>): seq<Token> {
    [Word("action"), Punct(':'), Text(spec.action)] + (FieldsTokens(spec.fields) + (ParityTokens(spec.parity) + end))
  }

  function AfterNamespace(spec: Spec, end: seq<Token>): seq<Token> {
    [Word("name"), Punct(':'), Text(spec.name)] + ([Punct(',')] + AfterName(spec, end))
  }

  lemma SpecTokensParts(spec: Spec, rest: seq<Token>)
    ensures SpecTokens(spec) + rest ==
            [Punct('{')] + ([Word("namespace"), Punct(':'), Text(spec.namespace)]
                            + ([Punct(',')] + AfterNamespace(spec, [Punct('}')] + rest)))
  {
    hide FieldsTokens, ParityTokens;
  }

  lemma ParseOne(head: Token, rest: seq<Token>)
    ensures ([head] + rest)[1..] == rest
  {
  }

  lemma ParsePrintedEnd(spec: Spec, rest: seq<Token>)
    ensures ParseMember(AfterName(spec, [Punct('}')] + rest), "action")
         == Some((spec.action, FieldsTokens(spec.fields) + (ParityTokens(spec.parity) + ([Punct('}')] + rest))))
    ensures ParseFields(FieldsTokens(spec.fields) + (ParityTokens(spec.parity) + ([Punct('}')] + rest)))
         == Some((spec.fields, ParityTokens(spec.parity) + ([Punct('}')] + rest)))
    ensures ParseParity(ParityTokens(spec.parity) + ([Punct('}')] + rest)) == (spec.parity, [Punct('}')] + rest)
  {
    hide FieldsTokens, ParseFields, ParseMember;
    var end := [Punct('}')] + rest;
    NotFields(spec.parity, rest);
    ParsePrintedFields(spec.fields, ParityTokens(spec.parity) + end);
    ParsePrintedParity(spec.parity, end);
    ParseMemberAt("action", spec.action, FieldsTokens(spec.fields) + (ParityTokens(spec.parity) + end));
  }

  lemma ParsePrintedSpec(spec: Spec, rest: seq<Token>)
    ensures ParseSpec(SpecTokens(spec) + rest) == Some((spec, rest))
  {
    hide SpecTokens, FieldsTokens, ParityTokens, ParseMember, ParseFields, ParseParity;
    var end := [Punct('}')] + rest;
    SpecTokensParts(spec, rest);
    ParsePrintedEnd(spec, rest);
    ParseMemberAt("namespace", spec.namespace, [Punct(',')] + AfterNamespace(spec, end));
    ParseMemberAt("name", spec.name, [Punct(',')] + AfterName(spec, end));
    assert ParseMember(AfterNamespace(spec, end), "name") == Some((spec.name, [Punct(',')] + AfterName(spec, end)));
    hide AfterName, AfterNamespace;
    ParseOne(Punct('{'),
             [Word("namespace"), Punct(':'), Text(spec.namespace)] + ([Punct(',')] + AfterNamespace(spec, end)));
    ParseOne(Punct(','), AfterNamespace(spec, end));
    ParseOne(Punct(','), AfterName(spec, end));
    ParseOne(Punct('}'), rest);
  }

  lemma NotFields(parity: bool, rest: seq<Token>)
    ensures var tokens := ParityTokens(parity) + ([Punct('}')] + rest);
            tokens != [] && (|tokens| >= 2 ==> tokens[1] != Word("fields") || tokens[0] != Punct(','))
  {
    assert |"parity"| == |"fields"| && "parity"[0] != "fields"[0];
  }

  lemma SpecsTokensSplit(specs: seq<Spec>, end: seq<Token>)
    requires |specs| > 1
    ensures SpecsTokens(specs) + end == SpecTokens(specs[0]) + ([Punct(',')] + (SpecsTokens(specs[1..]) + end))
  {
    hide SpecTokens;
  }

  lemma {:induction false} ParsePrintedSpecs(specs: seq<Spec>)
    requires specs != []
    ensures ParseSpecs(SpecsTokens(specs) + [Punct(']'), Punct(')'), Punct(';')]) == Some(specs)
    decreases |specs|
  {
    var end := [Punct(']'), Punct(')'), Punct(';')];
    hide ParseSpec, SpecTokens;
    if |specs| == 1 {
      ParsePrintedSpec(specs[0], end);
      assert specs == [specs[0]];
    } else {
      var rest := SpecsTokens(specs[1..]) + end;
      ParsePrintedSpec(specs[0], [Punct(',')] + rest);
      assert ([Punct(',')] + rest)[1..] == rest;
      SpecsTokensSplit(specs, end);
      ParsePrintedSpecs(specs[1..]);
      assert specs == [specs[0]] + specs[1..];
    }
  }

  // ─── The round trip ───────────────────────────────────────────

  const SETUP := "__webJsSetupAsyncBindings"

  lemma SetupIsWord()
    ensures forall c :: c in SETUP ==> IsWordChar(c)
  {
  }

  lemma LexClose()
    ensures Lex("\n]);") == Some([Punct(']'), Punct(')'), Punct(';')])
  {
    assert Lex("") == Some([]);
    hide Lex;
    LexPunct(';', "");
    LexPunct(')', ";");
    LexPunct(']', ");");
    LexSpace('\n', "]);");
    var none: seq<Token> := [];
    assert [Punct(']')] + ([Punct(')')] + ([Punct(';')] + none)) == [Punct(']'), Punct(')'), Punct(';')];
    assert ";" + "" == ";" && ")" + ";" == ");" && "]" + ");" == "]);" && "\n" + "]);" == "\n]);";
  }

  lemma LexOpen(s: string)
    ensures Lex(SETUP + "([\n  " + s) == Append([Word(SETUP), Punct('('), Punct('[')], Lex(s))
  {
    SetupIsWord();
    hide Lex;
    LexIndent(s);
    var s1 := "\n  " + s;
    LexPunct('[', s1);
    LexPunct('(', "[" + s1);
    LexWord(SETUP, "(" + ("[" + s1));
    assert SETUP + "([\n  " + s == SETUP + ("(" + ("[" + s1));
    if Lex(s).Some? {
      assert [Word(SETUP)] + ([Punct('(')] + ([Punct('[')] + Lex(s).value))
          == [Word(SETUP), Punct('('), Punct('[')] + Lex(s).value;
    }
  }

  lemma LexScript(specs: seq<Spec>)
    requires specs != []
    ensures Lex(PrintScript(specs))
         == Some([Word(SETUP), Punct('('), Punct('[')] + (SpecsTokens(specs) + [Punct(']'), Punct(')'), Punct(';')]))
  {
    hide Lex, PrintSpecs, Join, SpecsTokens;
    var body := Join(PrintSpecs(specs), ",\n  ");
    LexClose();
    LexSpecs(specs, "\n]);");
    LexOpen(body + "\n]);");
    assert PrintScript(specs) == SETUP + "([\n  " + (body + "\n]);") by {
      assert "__webJsSetupAsyncBindings([\n  " == SETUP + "([\n  ";
    }
  }

  /** Reading the printed script gives back every binding, in order. */
  lemma ScriptRoundTrip(specs: seq<Spec>)
    ensures ReadScript(PrintScript(specs)) == Some(specs)
  {
    if specs != [] {
      LexScript(specs);
      ParsePrintedSpecs(specs);
      var tail := SpecsTokens(specs) + [Punct(']'), Punct(')'), Punct(';')];
      var tokens := [Word(SETUP), Punct('('), Punct('[')] + tail;
      assert tokens[..3] == [Word(SETUP), Punct('('), Punct('[')] && tokens[3..] == tail;
    }
  }
}
