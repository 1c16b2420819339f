/**
 What every successful parse guarantees: the shape that the formatter, the
 placeholder collectors and the translation checks rely on.
 */
module IcuWellFormed {
  import opened Wrappers
  import opened IcuParser

  /** A key the plural grammar admits: "=N" or a category. */
  predicate IsPluralKey(key: string) {
    PluralWordOf(key).CategoryWord? || (|key| > 1 && key[0] == '=' && forall i :: 1 <= i < |key| ==> IsDigit(key[i]))
  }

  /** An identifier: a letter or '_' first, and nothing that could end it. */
  predicate IsIdentifier(name: string) {
    name != "" && IsNameStart(name[0]) && forall i :: 0 <= i < |name| ==> IsDashedNameChar(name[i])
  }

  /** An argument name: an identifier without dashes. */
  predicate IsArgumentName(name: string) {
    name != "" && IsNameStart(name[0]) && forall i :: 0 <= i < |name| ==> IsNameChar(name[i])
  }

  predicate IsFormat(format: string) { KeywordOf(format).FormatKeyword? }

  /** A style after its second comma: trimmed, and ended by the first closing brace. */
  predicate IsStyle(style: string) {
    BlankAt(style, 0) == 0 && BlankBefore(style, 0, |style|) == 0 && forall i :: 0 <= i < |style| ==> style[i] != '}'
  }

  predicate ArgumentOk(name: string, format: string, style: string) {
    IsArgumentName(name) && if format == "" then style == "" else IsFormat(format) && IsStyle(style)
  }

  predicate DistinctKeys(options: seq<Branch>) {
    forall i, j :: 0 <= i < j < |options| ==> options[i].key != options[j].key
  }

  predicate BranchesOk(options: seq<Branch>, plural: bool)
    decreases options, 0
  {
    forall i :: 0 <= i < |options| ==> WellFormed(options[i].value, plural)
  }

  predicate NodeOk(n: Node, plural: bool)
    decreases n, 0
  {
    match n
    case Literal(text) => text != ""
    case Argument(name, format, style) => ArgumentOk(name, format, style)
    case Plural(name, options) => ChoiceOk(true, name, options, true)
    case Select(name, options) => ChoiceOk(false, name, options, plural)
    case Pound => plural
    case Tag(name, children) => IsIdentifier(name) && IsLetter(name[0]) && WellFormed(children, plural)
  }

  /** `plural` says whether the options stand inside a plural. */
  predicate ChoiceOk(isPlural: bool, name: string, options: seq<Branch>, plural: bool)
    decreases options, 1
  {
    && IsArgumentName(name) && DistinctKeys(options) && "other" in Keys(options) && BranchesOk(options, plural)
    && forall i :: 0 <= i < |options| ==> if isPlural then IsPluralKey(options[i].key) else IsIdentifier(options[i].key)
  }

  /** Literals are never adjacent: the parser accumulates text until something else appears. */
  predicate MergedLiterals(m: Message) {
    forall i :: 0 < i < |m| ==> !(m[i - 1].Literal? && m[i].Literal?)
  }

  /** `plural` says whether the message stands inside a plural, where `#` has a value. */
  predicate WellFormed(m: Message, plural: bool)
    decreases m, 0
  {
    MergedLiterals(m) && forall i :: 0 <= i < |m| ==> NodeOk(m[i], plural)
  }

  predicate ReadyForText(out: Message, plural: bool) {
    WellFormed(out, plural) && (out == [] || !out[|out| - 1].Literal?)
  }

  lemma {:induction false} FlushKeeps(out: Message, lit: string, plural: bool)
    requires ReadyForText(out, plural)
    ensures WellFormed(Flush(out, lit), plural)
  {
  }

  lemma {:induction false} AppendKeeps(out: Message, lit: string, n: Node, plural: bool)
    requires ReadyForText(out, plural) && NodeOk(n, plural) && !n.Literal?
    ensures ReadyForText(Flush(out, lit) + [n], plural)
  {
    FlushKeeps(out, lit, plural);
  }

  lemma {:induction false} NameIsIdentifier(s: string, pos: nat, dashes: bool)
    requires pos <= |s|
    requires NameEnd(s, pos, dashes) > pos
    ensures var name := s[pos..NameEnd(s, pos, dashes)];
            if dashes then IsIdentifier(name) else IsArgumentName(name)
  {
    var end := NameEnd(s, pos, dashes);
    SpanIsMaximal(s, pos + 1, NameChar(dashes));
    forall i | 0 <= i < end - pos
      ensures NameChar(dashes)(s[pos..end][i])
    {
      assert i > 0 ==> NameChar(dashes)(s[pos + i]);
    }
  }

  lemma {:induction false} TrimStartEnds(s: string, i: nat)
    requires i <= |s|
    ensures BlankAt(s, TrimStart(s, i)) == 0
    decreases |s| - i
  {
    if BlankAt(s, i) != 0 {
      TrimStartEnds(s, i + BlankAt(s, i));
    }
  }

  lemma {:induction false} TrimEndEnds(s: string, i: nat, j: nat)
    requires i <= j <= |s|
    ensures BlankBefore(s, i, TrimEnd(s, i, j)) == 0
    decreases j
  {
    if BlankBefore(s, i, j) != 0 {
      TrimEndEnds(s, i, j - BlankBefore(s, i, j));
    }
  }

  lemma {:induction false} BlanksOfSlice(s: string, i: nat, j: nat)
    requires i <= j <= |s|
    ensures BlankAt(s, i) == 0 ==> BlankAt(s[i..j], 0) == 0
    ensures BlankBefore(s[i..j], 0, j - i) == BlankBefore(s, i, j)
  {
    var t := s[i..j];
    assert forall k :: 0 <= k < |t| ==> t[k] == s[i + k];
  }

  /** Trimming leaves a style: what is left starts and ends with ink, and comes from before the brace. */
  lemma {:induction false} TrimmedIsStyle(s: string)
    requires forall i :: 0 <= i < |s| ==> s[i] != '}'
    ensures IsStyle(TrimSpace(s))
  {
    var i := TrimStart(s, 0);
    var j := TrimEnd(s, i, |s|);
    TrimStartEnds(s, 0);
    TrimEndEnds(s, i, |s|);
    BlanksOfSlice(s, i, j);
  }

  lemma {:induction false} StyleIsTrimmed(s: string, pos: nat)
    requires pos <= |s|
    ensures IsStyle(TrimSpace(s[pos..Span(s, pos, IsNotBrace)]))
  {
    var end := Span(s, pos, IsNotBrace);
    SpanIsMaximal(s, pos, IsNotBrace);
    forall i | 0 <= i < end - pos
      ensures s[pos..end][i] != '}'
    {
      assert s[pos..end][i] == s[pos + i];
    }
    TrimmedIsStyle(s[pos..end]);
  }

  lemma {:induction false} StyleWellFormed(s: string, pos: nat, open: nat, name: string, format: string)
    requires pos < |s| && IsArgumentName(name) && IsFormat(format)
    ensures var r := ParseStyle(s, pos, open, name, format);
            r.Ok? ==> NodeOk(r.value, false) && NodeOk(r.value, true) && !r.value.Literal?
  {
    if s[pos] == ',' {
      StyleIsTrimmed(s, pos + 1);
    }
  }

  lemma {:induction false} KeyOk(s: string, pos: nat, isPlural: bool)
    requires pos < |s|
    ensures var r := ParseKey(s, pos, isPlural);
            r.Ok? ==> if isPlural then IsPluralKey(r.value) else IsIdentifier(r.value)
  {
    if !isPlural && NameEnd(s, pos, true) > pos {
      NameIsIdentifier(s, pos, true);
    } else if isPlural && s[pos] == '=' {
      SpanIsMaximal(s, pos + 1, IsDigit);
    }
  }

  lemma {:induction false} SeqWellFormed(s: string, pos: nat, c: Ctx, out: Message, lit: string)
    requires pos <= |s|
    requires ReadyForText(out, c.plural)
    ensures var r := ParseSeq(s, pos, c, out, lit); r.Ok? ==> WellFormed(r.value, c.plural)
    decreases |s| - pos, 2
  {
    FlushKeeps(out, lit, c.plural);
    if pos == |s| {
    } else if s[pos] == '\'' {
      var q := Apostrophe(s, pos, c.plural);
      SeqWellFormed(s, q.1, c, out, lit + q.0);
    } else if s[pos] == '{' {
      var a := ParseArgument(s, pos, c.plural);
      ArgumentWellFormed(s, pos, c.plural);
      if a.Ok? {
        AppendKeeps(out, lit, a.value, c.plural);
        SeqWellFormed(s, a.pos, c, Flush(out, lit) + [a.value], "");
      }
    } else if s[pos] == '}' {
    } else if s[pos] == '#' {
      if c.plural {
        AppendKeeps(out, lit, Pound, c.plural);
        SeqWellFormed(s, pos + 1, c, Flush(out, lit) + [Pound], "");
      } else {
        SeqWellFormed(s, pos + 1, c, out, lit + "#");
      }
    } else if s[pos] == '<' && pos + 1 < |s| && s[pos + 1] == '/' {
    } else if s[pos] == '<' && pos + 1 < |s| && IsLetter(s[pos + 1]) {
      var t := ParseTag(s, pos, c.plural);
      TagWellFormed(s, pos, c.plural);
      if t.Ok? {
        AppendKeeps(out, lit, t.value, c.plural);
        SeqWellFormed(s, t.pos, c, Flush(out, lit) + [t.value], "");
      }
    } else {
      SeqWellFormed(s, pos + 1, c, out, lit + [s[pos]]);
    }
  }

  lemma {:induction false} ArgumentWellFormed(s: string, open: nat, plural: bool)
    requires open < |s|
    ensures var r := ParseArgument(s, open, plural);
            r.Ok? ==> NodeOk(r.value, plural) && !r.value.Literal?
    decreases |s| - open, 1
  {
    var start := SkipSpace(s, open + 1);
    var end := NameEnd(s, start, false);
    if end > start {
      NameIsIdentifier(s, start, false);
      NamedWellFormed(s, end, open, plural, s[start..end], ParseArgument(s, open, plural));
    }
  }

  lemma {:induction false} NamedWellFormed(s: string, pos: nat, open: nat, plural: bool, name: string, r: Parsed<Node>)
    requires open < pos <= |s| && IsArgumentName(name)
    requires r == ParseNamed(s, pos, open, plural, name)
    ensures r.Ok? ==> NodeOk(r.value, plural) && !r.value.Literal?
    decreases |s| - pos, 1
  {
    var after := SkipSpace(s, pos);
    if after < |s| && s[after] == ',' {
      TypedWellFormed(s, after + 1, open, plural, name, r);
    }
  }

  lemma {:induction false} TypedWellFormed(s: string, pos: nat, open: nat, plural: bool, name: string, r: Parsed<Node>)
    requires open < pos <= |s| && IsArgumentName(name)
    requires r == ParseTyped(s, pos, open, plural, name)
    ensures r.Ok? ==> NodeOk(r.value, plural) && !r.value.Literal?
    decreases |s| - pos, 3
  {
    var typOff := SkipSpace(s, pos);
    var typEnd := Span(s, typOff, IsLetter);
    var p := SkipSpace(s, typEnd);
    if p < |s| {
      KeywordWellFormed(s, p, open, plural, name, typOff, s[typOff..typEnd]);
    }
  }

  lemma {:induction false} KeywordWellFormed(s: string, pos: nat, open: nat, plural: bool, name: string, typOff: nat, typ: string)
    requires open < pos < |s| && IsArgumentName(name)
    ensures var r := ParseKeyword(s, pos, open, plural, name, typOff, typ);
            r.Ok? ==> NodeOk(r.value, plural) && !r.value.Literal?
    decreases |s| - pos, 2
  {
    if IsFormat(typ) {
      StyleWellFormed(s, pos, open, name, typ);
    } else if KeywordOf(typ).ChoiceKeyword? {
      ChoiceWellFormed(s, pos, open, plural, name, KeywordOf(typ).isPlural);
    }
  }

  lemma {:induction false} ChoiceWellFormed(s: string, pos: nat, open: nat, plural: bool, name: string, isPlural: bool)
    requires open < pos < |s| && IsArgumentName(name)
    ensures var r := ParseChoice(s, pos, open, plural, name, isPlural);
            r.Ok? ==> NodeOk(r.value, plural) && !r.value.Literal?
    decreases |s| - pos, 1
  {
    if s[pos] == ',' {
      OptionsWellFormed(s, pos + 1, open, plural, isPlural, []);
    }
  }

  predicate KeysOk(options: seq<Branch>, isPlural: bool) {
    && DistinctKeys(options)
    && forall i :: 0 <= i < |options| ==>
         if isPlural then IsPluralKey(options[i].key) else IsIdentifier(options[i].key)
  }

  lemma {:induction false} OptionsWellFormed(s: string, pos: nat, open: nat, plural: bool, isPlural: bool, done: seq<Branch>)
    requires pos <= |s|
    requires KeysOk(done, isPlural) && BranchesOk(done, plural || isPlural)
    ensures var r := ParseOptions(s, pos, open, plural, isPlural, done);
            r.Ok? ==> KeysOk(r.value, isPlural) && BranchesOk(r.value, plural || isPlural)
    decreases |s| - pos, 4
  {
    var keyOff := SkipSpace(s, pos);
    if keyOff < |s| && s[keyOff] != '}' {
      var option := ParseOption(s, keyOff, open, plural, isPlural, Keys(done));
      OptionWellFormed(s, keyOff, open, plural, isPlural, Keys(done), option);
      if option.Ok? {
        OptionsWellFormed(s, option.pos, open, plural, isPlural, done + [option.value]);
      }
    }
  }

  lemma {:induction false} OptionWellFormed(s: string, keyOff: nat, open: nat, plural: bool, isPlural: bool,
                                            seen: set<string>, r: Parsed<Branch>)
    requires keyOff < |s|
    requires r == ParseOption(s, keyOff, open, plural, isPlural, seen)
    ensures r.Ok? ==> WellFormed(r.value.value, plural || isPlural)
    ensures r.Ok? ==> if isPlural then IsPluralKey(r.value.key) else IsIdentifier(r.value.key)
    decreases |s| - keyOff, 3
  {
    if r.Ok? {
      KeyOk(s, keyOff, isPlural);
      var brace := SkipSpace(s, ParseKey(s, keyOff, isPlural).pos);
      SeqWellFormed(s, brace + 1, Ctx(plural || isPlural, true, ""), [], "");
    }
  }

  lemma {:induction false} TagWellFormed(s: string, open: nat, plural: bool)
    requires open < |s|
    ensures var r := ParseTag(s, open, plural);
            r.Ok? ==> NodeOk(r.value, plural) && !r.value.Literal?
    decreases |s| - open, 1
  {
    var end := NameEnd(s, open + 1, true);
    var name := s[open + 1..end];
    if name != "" && IsLetter(name[0]) && end < |s| {
      var parsed := ParseSeq(s, end + 1, Ctx(plural, false, name), [], "");
      NameIsIdentifier(s, open + 1, true);
      SeqWellFormed(s, end + 1, Ctx(plural, false, name), [], "");
      CloseTagWellFormed(s, open, name, parsed, plural);
    }
  }

  lemma {:induction false} CloseTagWellFormed(s: string, open: nat, name: string, parsed: Parsed<Message>, plural: bool)
    requires parsed.Ok? ==> parsed.pos <= |s| && WellFormed(parsed.value, plural)
    requires IsIdentifier(name) && IsLetter(name[0])
    ensures var r := CloseTag(s, open, name, parsed);
            r.Ok? ==> NodeOk(r.value, plural) && !r.value.Literal?
  {
  }

  /** A sequence stops only where its context says: at the end, at its `}`, or at its `</`. */
  predicate StopsAt(s: string, pos: nat, c: Ctx) {
    || pos == |s|
    || (pos < |s| && c.option && s[pos] == '}')
    || (pos + 1 < |s| && c.tag != "" && s[pos] == '<' && s[pos + 1] == '/')
  }

  lemma {:induction false} SeqStops(s: string, pos: nat, c: Ctx, out: Message, lit: string, r: Parsed<Message>)
    requires pos <= |s|
    requires r == ParseSeq(s, pos, c, out, lit)
    ensures r.Ok? ==> StopsAt(s, r.pos, c)
    decreases |s| - pos
  {
    if pos == |s| || s[pos] == '}' || (s[pos] == '<' && pos + 1 < |s| && s[pos + 1] == '/') {
    } else if s[pos] == '\'' {
      var q := Apostrophe(s, pos, c.plural);
      SeqStops(s, q.1, c, out, lit + q.0, r);
    } else if s[pos] == '{' {
      var a := ParseArgument(s, pos, c.plural);
      if a.Ok? { SeqStops(s, a.pos, c, Flush(out, lit) + [a.value], "", r); }
    } else if s[pos] == '<' && pos + 1 < |s| && IsLetter(s[pos + 1]) {
      var t := ParseTag(s, pos, c.plural);
      if t.Ok? { SeqStops(s, t.pos, c, Flush(out, lit) + [t.value], "", r); }
    } else if s[pos] == '#' && c.plural {
      SeqStops(s, pos + 1, c, Flush(out, lit) + [Pound], "", r);
    } else {
      SeqStops(s, pos + 1, c, out, lit + [s[pos]], r);
    }
  }

  /**
   Every parse either fails inside the sequence or consumes the whole input: the
   "unmatched" check after it never fires. What comes out is well formed with no
   plural around it, so every pound node lies under a plural.
   */
  lemma {:induction false} ParseIsWellFormed(s: string)
    ensures var r := Parse(s);
            match ParseSeq(s, 0, TOP, [], "")
            case Ok(m, p) => p == |s| && r == Success(m) && WellFormed(m, false)
            case Err(e) => r == Failure(e)
  {
    SeqStops(s, 0, TOP, [], "", ParseSeq(s, 0, TOP, [], ""));
    SeqWellFormed(s, 0, TOP, [], "");
  }
}
