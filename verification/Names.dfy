/** Accessible names: collapsing white space, cutting at a byte length, and choosing the source. */
module Names {
  import opened Wrappers
  import opened Sequences
  import opened Strings
  import opened Units
  import opened TextCodec

  // ─── White space ──────────────────────────────────────────────

  /** The White_Space property of the Unicode character database. */
  predicate Space(c: char) {
    var n := c as int;
    9 <= n <= 13 || n == 0x20 || n == 0x85 || n == 0xa0 || n == 0x1680 || 0x2000 <= n <= 0x200a
    || n == 0x2028 || n == 0x2029 || n == 0x202f || n == 0x205f || n == 0x3000
  }

  /** The maximal runs of characters that are not white space. */
  function Words(s: string): (words: seq<string>)
    ensures s != "" && !Space(s[0]) ==> words != []
    decreases |s|
  {
    if s == "" then []
    else if Space(s[0]) then Words(s[1..])
    else if s[1..] == "" || Space(s[1]) then [[s[0]]] + Words(s[1..])
    else
      var words := Words(s[1..]);
      [[s[0]] + words[0]] + words[1..]
  }

  predicate Word(s: string) {
    s != "" && forall i :: 0 <= i < |s| ==> !Space(s[i])
  }

  ghost predicate AllWords(words: seq<string>) {
    forall i :: 0 <= i < |words| ==> Word(words[i])
  }

  lemma {:induction false} WordsAreWords(s: string)
    ensures AllWords(Words(s))
    decreases |s|
  {
    if s != "" {
      hide Space;
      WordsAreWords(s[1..]);
    }
  }

  function Collapsed(s: string): string {
    Join(Words(s), " ")
  }

  /** What the loop still writes, given whether the last thing seen was white space. */
  function Rest(s: string, afterSpace: bool): string
    decreases |s|
  {
    if s == "" then ""
    else if Space(s[0]) then (if afterSpace then "" else " ") + Rest(s[1..], true)
    else [s[0]] + Rest(s[1..], false)
  }

  function Trimmed(s: string): string {
    if s != "" && s[|s| - 1] == ' ' then s[..|s| - 1] else s
  }

  lemma RestAt(s: string, i: nat, afterSpace: bool)
    requires i < |s|
    ensures Rest(s[i..], afterSpace)
         == if !Space(s[i]) then [s[i]] + Rest(s[i + 1..], false)
            else if afterSpace then Rest(s[i + 1..], true) else " " + Rest(s[i + 1..], true)
  {
    hide Space;
    assert s[i..][1..] == s[i + 1..];
    assert "" + Rest(s[i + 1..], true) == Rest(s[i + 1..], true);
  }

  lemma RestAtEnd(s: string, afterSpace: bool)
    ensures Rest(s[|s|..], afterSpace) == "" && forall t: string :: t + "" == t
  {
  }

  method Normalize(text: string) returns (result: string)
    ensures result == Collapsed(text)
  {
    hide Space, Rest;
    result := "";
    var afterSpace := true;
    assert text[0..] == text && "" + Rest(text, true) == Rest(text, true);
    for i := 0 to |text|
      invariant result + Rest(text[i..], afterSpace) == Rest(text, true)
    {
      RestAt(text, i, afterSpace);
      ghost var later := Rest(text[i + 1..], Space(text[i]));
      if Space(text[i]) {
        if !afterSpace {
          Regroup(result, " ", later);
          result := result + " ";
          afterSpace := true;
        }
      } else {
        Regroup(result, [text[i]], later);
        result := result + [text[i]];
        afterSpace := false;
      }
    }
    RestAtEnd(text, afterSpace);
    RestIsCollapsed(text);
    if result != "" && result[|result| - 1] == ' ' {
      result := result[..|result| - 1];
    }
  }

  lemma TrimmedAfter(first: char, rest: string)
    ensures rest != "" ==> Trimmed([first] + rest) == [first] + Trimmed(rest)
  {
  }

  lemma JoinAhead(first: string, words: seq<string>)
    requires words != []
    ensures Join([first] + words, " ") == first + " " + Join(words, " ")
  {
    assert ([first] + words)[1..] == words;
  }

  lemma Shift(c: char, a: string, b: string)
    ensures ([c] + a) + " " + b == [c] + (a + " " + b) && [c] + " " + b == [c] + (" " + b)
  {
  }

  lemma JoinGrows(c: char, words: seq<string>)
    requires words != []
    ensures Join([[c] + words[0]] + words[1..], " ") == [c] + Join(words, " ")
  {
    if |words| > 1 {
      assert words == [words[0]] + words[1..];
      hide Join;
      JoinAhead(words[0], words[1..]);
      JoinAhead([c] + words[0], words[1..]);
      Shift(c, words[0], Join(words[1..], " "));
    }
  }

  /** One more character in front: what the loop writes, and the words. */
  lemma InFront(s: string)
    requires s != "" && !Space(s[0])
    ensures var t := s[1..];
            && Rest(s, true)
               == [s[0]] + (if t == "" then "" else if Space(t[0]) then " " + Rest(t, true) else Rest(t, true))
            && (t == "" || Space(t[0]) ==> Words(s) == [[s[0]]] + Words(t))
            && (t != "" && !Space(t[0]) ==> Words(s) == [[s[0]] + Words(t)[0]] + Words(t)[1..])
  {
    hide Space;
  }

  /** Apart from a last space, the loop writes the words with single spaces between them. */
  lemma {:induction false} RestIsCollapsed(s: string)
    ensures Trimmed(Rest(s, true)) == Collapsed(s)
    ensures Rest(s, true) == "" <==> Words(s) == []
    ensures Rest(s, true) != "" ==> !Space(Rest(s, true)[0])
    decreases |s|
  {
    if s != "" {
      RestIsCollapsed(s[1..]);
      if Space(s[0]) {
        assert "" + Rest(s[1..], true) == Rest(s[1..], true);
      } else {
        CollapsedInFront(s);
      }
    }
  }

  lemma CollapsedInFront(s: string)
    requires s != "" && !Space(s[0])
    requires var t := s[1..];
             && Trimmed(Rest(t, true)) == Collapsed(t)
             && (Rest(t, true) == "" <==> Words(t) == [])
             && (Rest(t, true) != "" ==> !Space(Rest(t, true)[0]))
    ensures Trimmed(Rest(s, true)) == Collapsed(s)
    ensures Rest(s, true) != "" && Words(s) != [] && !Space(Rest(s, true)[0])
  {
    var c, t := s[0], s[1..];
    var x, words := Rest(t, true), Words(t);
    assert Space(' ');
    InFront(s);
    JoinOne(c);
    hide Space, Trimmed, Join, Rest, Words;
    if words == [] {
      assert [[c]] + words == [[c]];
      assert " " + x == " " && [c] + "" == [c];
    } else if Space(t[0]) {
      JoinAhead([c], words);
      TrimmedAfter(' ', x);
      TrimmedAfter(c, " " + x);
      Shift(c, "", Join(words, " "));
    } else {
      JoinGrows(c, words);
      TrimmedAfter(c, x);
    }
  }

  lemma JoinOne(c: char)
    ensures Join([[c]], " ") == [c] && (c != ' ' ==> Trimmed([c]) == [c]) && Trimmed([c] + " ") == [c]
  {
  }

  lemma {:induction false} WordThenMore(word: string, more: string)
    requires Word(word)
    ensures Words(word) == [word]
    ensures Words(word + " " + more) == [word] + Words(more)
    decreases |word|
  {
    assert Space(' ');
    hide Space;
    var s := word + " " + more;
    if |word| == 1 {
      assert s[1..] == " " + more && s[1..][1..] == more;
      assert word == [word[0]];
      assert word[1..] == "";
    } else {
      WordThenMore(word[1..], more);
      assert s[1..] == word[1..] + " " + more;
      assert word == [word[0]] + word[1..];
      assert ([word[1..]] + Words(more))[1..] == Words(more);
    }
  }

  lemma {:induction false} WordsOfJoin(words: seq<string>)
    requires AllWords(words)
    ensures Words(Join(words, " ")) == words
    decreases |words|
  {
    hide Word, Words;
    if |words| == 1 {
      WordThenMore(words[0], "");
    } else if |words| > 1 {
      WordsOfJoin(words[1..]);
      WordThenMore(words[0], Join(words[1..], " "));
    } else {
      NoWords();
    }
  }

  lemma NoWords()
    ensures Words("") == []
  {
  }

  /** White space separates words and leaves no other trace. */
  lemma {:induction false} WordsAtSpace(a: string, c: char, b: string)
    requires Space(c)
    ensures Words(a + [c] + b) == Words(a) + Words(b)
    decreases |a|
  {
    var s := a + [c] + b;
    if a == "" {
      assert s == [c] + b && s[1..] == b;
    } else {
      WordsAtSpace(a[1..], c, b);
      assert s[1..] == a[1..] + [c] + b;
      WordsSnocStep(a, s, Words(b));
    }
  }

  lemma WordsSnocStep(a: string, s: string, more: seq<string>)
    requires a != "" && |s| > |a| && s[0] == a[0] && Words(s[1..]) == Words(a[1..]) + more
    requires if |a| > 1 then s[1] == a[1] else Space(s[1])
    ensures Words(s) == Words(a) + more
  {
    if !Space(a[0]) {
      InFront(a);
      InFront(s);
      hide Space, Words;
      if |a| > 1 && !Space(a[1]) {
        ExtendFirst(a[0], Words(a[1..]), more);
      } else {
        Regroup([[a[0]]], Words(a[1..]), more);
      }
    }
  }

  lemma ExtendFirst(c: char, words: seq<string>, more: seq<string>)
    requires words != []
    ensures [[c] + (words + more)[0]] + (words + more)[1..] == ([[c] + words[0]] + words[1..]) + more
  {
  }

  /** Collapsing keeps the words, and collapsing again changes nothing. */
  lemma NormalizeKeepsWords(s: string)
    ensures Words(Collapsed(s)) == Words(s)
    ensures Collapsed(Collapsed(s)) == Collapsed(s)
    ensures Collapsed(s) == "" <==> Words(s) == []
  {
    WordsAreWords(s);
    WordsOfJoin(Words(s));
    NoWords();
  }

  // ─── Length ───────────────────────────────────────────────────

  /** The length of a character in UTF-8. */
  function Width(c: char): (n: nat)
    ensures 1 <= n <= 4
  {
    var n := c as int;
    if n < 0x80 then 1 else if n < 0x800 then 2 else if n < 0x10000 then 3 else 4
  }

  /** A character of one 16-bit unit is as long as the text encoder of the prelude makes it. */
  lemma WidthIsEncoded(c: char, code: Unit)
    requires c as int == code as int
    ensures Width(c) == |EncodeUnit(code)|
  {
  }

  function ByteLength(s: string): nat
    decreases |s|
  {
    if s == "" then 0 else Width(s[0]) + ByteLength(s[1..])
  }

  /** Byte offset `cut` falls between two characters. */
  predicate Boundary(s: string, cut: nat)
    decreases |s|
  {
    cut == 0 || (s != "" && Width(s[0]) <= cut && Boundary(s[1..], cut - Width(s[0])))
  }

  /** The characters in the first `cut` bytes. */
  function Slice(s: string, cut: nat): string
    requires Boundary(s, cut)
    decreases |s|
  {
    if cut == 0 then "" else [s[0]] + Slice(s[1..], cut - Width(s[0]))
  }

  /** The longest prefix of at most `max` bytes. */
  function Fit(s: string, max: nat): string
    decreases |s|
  {
    if s == "" || Width(s[0]) > max then "" else [s[0]] + Fit(s[1..], max - Width(s[0]))
  }

  const ELLIPSIS := "\U{2026}"

  function Limited(s: string, max: nat): string {
    if ByteLength(s) <= max then s else Fit(s, max) + ELLIPSIS
  }

  lemma {:induction false} FitAtBoundary(s: string, cut: nat)
    ensures if Boundary(s, cut) then Slice(s, cut) == Fit(s, cut) else cut > 0 && Fit(s, cut) == Fit(s, cut - 1)
    decreases |s|
  {
    if s != "" && cut > 0 && Width(s[0]) <= cut {
      FitAtBoundary(s[1..], cut - Width(s[0]));
    }
  }

  method LimitLength(s: string, max: nat) returns (result: string)
    ensures result == Limited(s, max)
  {
    if ByteLength(s) <= max {
      return s;
    }
    var cut: nat := max;
    while cut > 0 && !Boundary(s, cut)
      invariant cut <= max && Fit(s, cut) == Fit(s, max)
    {
      FitAtBoundary(s, cut);
      cut := cut - 1;
    }
    FitAtBoundary(s, cut);
    result := Slice(s, cut) + ELLIPSIS;
  }

  lemma {:induction false} FitBounds(s: string, max: nat)
    requires ByteLength(s) > max
    ensures var kept := Fit(s, max);
            |kept| < |s| && kept == s[..|kept|] && ByteLength(kept) <= max < ByteLength(kept) + Width(s[|kept|])
    decreases |s|
  {
    if Width(s[0]) <= max {
      FitBounds(s[1..], max - Width(s[0]));
      assert s == [s[0]] + s[1..];
    }
  }

  lemma {:induction false} LengthConcat(a: string, b: string)
    ensures ByteLength(a + b) == ByteLength(a) + ByteLength(b)
    decreases |a|
  {
    if a == "" {
      assert a + b == b;
    } else {
      LengthConcat(a[1..], b);
      assert (a + b)[1..] == a[1..] + b;
    }
  }

  /**
   A name of at most the limit stays as it is.  A longer one keeps a prefix that cannot be longer,
   and comes out exactly the three bytes of the ellipsis longer than that.
   */
  lemma LimitBounds(s: string, max: nat)
    ensures ByteLength(s) <= max ==> Limited(s, max) == s
    ensures ByteLength(s) > max ==>
              var kept := Fit(s, max);
              && |kept| < |s| && kept == s[..|kept|]
              && ByteLength(kept) <= max < ByteLength(kept) + Width(s[|kept|])
              && Limited(s, max) == kept + "\U{2026}" && ByteLength(Limited(s, max)) == ByteLength(kept) + 3
  {
    if ByteLength(s) > max {
      FitBounds(s, max);
      LengthConcat(Fit(s, max), ELLIPSIS);
    }
  }

  lemma {:induction false} FitPrefix(kept: string, more: string, max: nat)
    requires more != "" && ByteLength(kept) <= max < ByteLength(kept) + Width(more[0])
    ensures Fit(kept + more, max) == kept
    decreases |kept|
  {
    if kept == "" {
      assert kept + more == more;
    } else {
      FitPrefix(kept[1..], more, max - Width(kept[0]));
      assert (kept + more)[1..] == kept[1..] + more;
    }
  }

  /** Limiting twice is limiting once, although the first result may exceed the limit. */
  lemma LimitIdempotent(s: string, max: nat)
    ensures Limited(Limited(s, max), max) == Limited(s, max)
  {
    if ByteLength(s) > max {
      LimitBounds(s, max);
      var kept := Fit(s, max);
      if ByteLength(Limited(s, max)) > max {
        FitPrefix(kept, ELLIPSIS, max);
      }
    }
  }

  // ─── Choosing a name ──────────────────────────────────────────

  datatype NameContext = NameContext(
    tag: string,
    inputType: Option<string>,
    ariaLabelledby: Option<string>,
    ariaLabel: Option<string>,
    alt: Option<string>,
    title: Option<string>,
    placeholder: Option<string>,
    value: Option<string>,
    texts: map<string, string>,  // the text of each element that has an id
    ancestorLabel: Option<string>,
    textContent: string,
    labelFor: Option<string>)

  /** The text an id contributes, if it has any. */
  function TextOf(id: string, texts: map<string, string>): seq<string> {
    if id in texts && Collapsed(texts[id]) != "" then [Collapsed(texts[id])] else []
  }

  /** The texts of the ids, each id at most once. */
  function LabelTexts(ids: seq<string>, visited: set<string>, texts: map<string, string>): seq<string>
    decreases |ids|
  {
    if ids == [] then []
    else if ids[0] in visited then LabelTexts(ids[1..], visited, texts)
    else TextOf(ids[0], texts) + LabelTexts(ids[1..], visited + {ids[0]}, texts)
  }

  function JoinedOrNone(parts: seq<string>): Option<string> {
    if parts == [] then None else Some(Join(parts, " "))
  }

  function LabelledBy(ctx: NameContext): Option<string> {
    if ctx.ariaLabelledby.None? then None
    else JoinedOrNone(LabelTexts(Words(ctx.ariaLabelledby.value), {}, ctx.texts))
  }

  method TryAriaLabelledby(ctx: NameContext) returns (name: Option<string>)
    ensures name == LabelledBy(ctx)
  {
    if ctx.ariaLabelledby.None? {
      return None;
    }
    var ids := Words(ctx.ariaLabelledby.value);
    var visited: set<string> := {};
    var parts: seq<string> := [];
    assert ids[0..] == ids && [] + LabelTexts(ids, {}, ctx.texts) == LabelTexts(ids, {}, ctx.texts);
    for i := 0 to |ids|
      invariant parts + LabelTexts(ids[i..], visited, ctx.texts) == LabelTexts(ids, {}, ctx.texts)
    {
      var id := ids[i];
      assert ids[i..][1..] == ids[i + 1..];
      if id in visited {
        continue;
      }
      visited := visited + {id};
      ghost var later := LabelTexts(ids[i + 1..], visited, ctx.texts);
      Regroup(parts, TextOf(id, ctx.texts), later);
      if id in ctx.texts {
        var normalized := Normalize(ctx.texts[id]);
        if normalized != "" {
          parts := parts + [normalized];
        } else {
          assert parts + [] == parts;
        }
      } else {
        assert parts + [] == parts;
      }
    }
    assert parts + [] == parts;
    name := JoinedOrNone(parts);
  }

  /** Where a name may come from, the first first. */
  function Sources(ctx: NameContext): (sources: seq<Option<string>>)
    ensures |sources| == 9
  {
    [LabelledBy(ctx),
     ctx.ariaLabel,
     ctx.labelFor,
     ctx.ancestorLabel,
     if ctx.tag == "img" || ctx.inputType == Some("image") then ctx.alt else None,
     ctx.title,
     ctx.placeholder,
     if ctx.inputType in [Some("button"), Some("submit"), Some("reset")] then ctx.value else None,
     if Collapsed(ctx.textContent) == "" then None else Some(Collapsed(ctx.textContent))]
  }

  function FirstOf(sources: seq<Option<string>>): Option<string>
    decreases |sources|
  {
    if sources == [] then None else if sources[0].Some? then sources[0] else FirstOf(sources[1..])
  }

  function NameOf(ctx: NameContext, max: nat): Option<string> {
    var source := FirstOf(Sources(ctx));
    if source.None? then None else Some(Limited(Collapsed(source.value), max))
  }

  method ComputeName(ctx: NameContext, max: nat) returns (name: Option<string>)
    ensures name == NameOf(ctx, max)
  {
    var source := TryAriaLabelledby(ctx);
    if source.None? {
      source := FirstOf(Sources(ctx)[1..]);
    }
    if source.None? {
      return None;
    }
    var normalized := Normalize(source.value);
    var limited := LimitLength(normalized, max);
    name := Some(limited);
  }

  ghost predicate FirstPresent(sources: seq<Option<string>>, k: nat) {
    k < |sources| && sources[k].Some? && forall j :: 0 <= j < k ==> sources[j].None?
  }

  lemma {:induction false} FirstOfIsFirst(sources: seq<Option<string>>, k: nat)
    requires FirstPresent(sources, k)
    ensures FirstOf(sources) == sources[k]
    decreases |sources|
  {
    if k > 0 {
      FirstOfIsFirst(sources[1..], k - 1);
    }
  }

  /**
   The first source that is present gives the name, blank or not: the name is empty exactly when
   that source has no words, and whatever comes after it is then never asked.
   */
  lemma BlankSourceMasks(ctx: NameContext, max: nat, k: nat)
    requires FirstPresent(Sources(ctx), k)
    ensures NameOf(ctx, max) == Some(Limited(Collapsed(Sources(ctx)[k].value), max))
    ensures NameOf(ctx, max) == Some("") <==> Words(Sources(ctx)[k].value) == []
  {
    hide Sources, Words;
    FirstOfIsFirst(Sources(ctx), k);
    NormalizeKeepsWords(Sources(ctx)[k].value);
  }

  /** The order in which a name is looked for, and what makes each source count. */
  lemma NamePrecedence(ctx: NameContext, max: nat)
    ensures var kind := ctx.inputType;
            var source :=
              if LabelledBy(ctx).Some? then LabelledBy(ctx)
              else if ctx.ariaLabel.Some? then ctx.ariaLabel
              else if ctx.labelFor.Some? then ctx.labelFor
              else if ctx.ancestorLabel.Some? then ctx.ancestorLabel
              else if (ctx.tag == "img" || kind == Some("image")) && ctx.alt.Some? then ctx.alt
              else if ctx.title.Some? then ctx.title
              else if ctx.placeholder.Some? then ctx.placeholder
              else if (kind == Some("button") || kind == Some("submit") || kind == Some("reset")) && ctx.value.Some?
              then ctx.value
              else if Words(ctx.textContent) != [] then Some(Collapsed(ctx.textContent))
              else None;
            NameOf(ctx, max) == (if source.None? then None else Some(Limited(Collapsed(source.value), max)))
  {
    hide LabelledBy, Collapsed, Limited, Words;
    NormalizeKeepsWords(ctx.textContent);
    var k := NumberOf(ctx);
    if k < 9 {
      FirstOfIsFirst(Sources(ctx), k);
    } else {
      FirstOfConcat(Sources(ctx), []);
      assert Sources(ctx) + [] == Sources(ctx);
    }
  }

  /** The number of the first source that counts; 9 for none. */
  function NumberOf(ctx: NameContext): (k: nat)
    ensures if k < 9 then FirstPresent(Sources(ctx), k) else NonePresent(Sources(ctx))
  {
    var sources := Sources(ctx);
    if sources[0].Some? then 0
    else if sources[1].Some? then 1
    else if sources[2].Some? then 2
    else if sources[3].Some? then 3
    else if sources[4].Some? then 4
    else if sources[5].Some? then 5
    else if sources[6].Some? then 6
    else if sources[7].Some? then 7
    else if sources[8].Some? then 8
    else 9
  }

  // ─── The documented order ─────────────────────────────────────

  /** The order that the comment on the function gives: a button's value comes after the text. */
  function DocumentedSources(ctx: NameContext): seq<Option<string>> {
    Sources(ctx)[..7] + [Sources(ctx)[8], Sources(ctx)[7]]
  }

  function DocumentedNameOf(ctx: NameContext, max: nat): Option<string> {
    var source := FirstOf(DocumentedSources(ctx));
    if source.None? then None else Some(Limited(Collapsed(source.value), max))
  }

  ghost predicate NonePresent(sources: seq<Option<string>>) {
    forall j :: 0 <= j < |sources| ==> sources[j].None?
  }

  lemma {:induction false} FirstOfConcat(a: seq<Option<string>>, b: seq<Option<string>>)
    ensures FirstOf(a + b) == if NonePresent(a) then FirstOf(b) else FirstOf(a)
    ensures NonePresent(a) <==> FirstOf(a).None?
    decreases |a|
  {
    if a == [] {
      assert a + b == b;
    } else {
      FirstOfConcat(a[1..], b);
      assert (a + b)[1..] == a[1..] + b;
      assert NonePresent(a) <==> a[0].None? && NonePresent(a[1..]) by {
        assert forall j :: 0 <= j < |a[1..]| ==> a[1..][j] == a[j + 1];
        assert forall j :: 0 < j < |a| ==> a[j] == a[1..][j - 1];
      }
    }
  }

  /**
   The documented order gives another name exactly when nothing before the value is present, the
   value applies and is present, the text is not blank, and the two come out different.
   */
  lemma DocumentedOrderDiffers(ctx: NameContext, max: nat)
    ensures DocumentedNameOf(ctx, max) != NameOf(ctx, max)
       <==> && NonePresent(Sources(ctx)[..7]) && Sources(ctx)[7].Some? && Sources(ctx)[8].Some?
            && Limited(Collapsed(Sources(ctx)[7].value), max) != Limited(Collapsed(Sources(ctx)[8].value), max)
  {
    hide Sources, Limited, Collapsed;
    var early, value, text := Sources(ctx)[..7], Sources(ctx)[7], Sources(ctx)[8];
    assert Sources(ctx) == early + [value, text];
    FirstOfConcat(early, [value, text]);
    FirstOfConcat(early, [text, value]);
    assert [value, text][1..] == [text] && [text, value][1..] == [value];
    assert [text][1..] == [] && [value][1..] == [];
  }

  lemma OneLetter(c: char)
    requires !Space(c) && c as int < 0x80
    ensures Collapsed([c]) == [c] && Limited([c], 120) == [c]
  {
    assert [c][1..] == "";
    assert Words([c]) == [[c]];
    assert ByteLength([c]) == 1 + ByteLength("");
  }

  const BUTTON :=
    NameContext("input", Some("button"), None, None, None, None, None, Some("a"), map[], None, "b", None)

  /** A button that shows one text and carries another value, at one input. */
  lemma ValueBeforeText()
    ensures NameOf(BUTTON, 120) == Some("a") && DocumentedNameOf(BUTTON, 120) == Some("b")
  {
    hide Collapsed, Limited;
    var ctx := BUTTON;
    OneLetter('a');
    OneLetter('b');
    var early := Sources(ctx)[..7];
    FirstOfConcat(early, [Some("a"), Some("b")]);
    FirstOfConcat(early, [Some("b"), Some("a")]);
    assert Sources(ctx) == early + [Some("a"), Some("b")];
  }

  /** An id that was listed before contributes nothing more. */
  lemma {:induction false} RepeatedIdIgnored(ids: seq<string>, id: string, visited: set<string>,
                                             texts: map<string, string>)
    requires id in ids || id in visited
    ensures LabelTexts(ids + [id], visited, texts) == LabelTexts(ids, visited, texts)
    decreases |ids|
  {
    hide TextOf;
    if ids == [] {
      assert ([] + [id])[1..] == [];
    } else {
      assert (ids + [id])[1..] == ids[1..] + [id];
      assert ids == [ids[0]] + ids[1..];
      RepeatedIdIgnored(ids[1..], id, if ids[0] in visited then visited else visited + {ids[0]}, texts);
    }
  }

  /** An id that was not listed before contributes the words of its text, if there are any. */
  lemma {:induction false} NewIdAdds(ids: seq<string>, id: string, visited: set<string>, texts: map<string, string>)
    requires id !in ids && id !in visited
    ensures LabelTexts(ids + [id], visited, texts)
         == LabelTexts(ids, visited, texts)
            + (if id in texts && Words(texts[id]) != [] then [Join(Words(texts[id]), " ")] else [])
    decreases |ids|
  {
    hide Words;
    if id in texts {
      NormalizeKeepsWords(texts[id]);
    }
    if ids == [] {
      assert ([] + [id])[1..] == [];
      assert TextOf(id, texts) + [] == TextOf(id, texts);
    } else {
      hide TextOf;
      assert (ids + [id])[1..] == ids[1..] + [id];
      assert ids == [ids[0]] + ids[1..];
      NewIdAdds(ids[1..], id, if ids[0] in visited then visited else visited + {ids[0]}, texts);
    }
  }
}
