/**
 The syntax errors of the ICU parser: what each fault says about the text at the
 offset it is reported at.
 */
module IcuFaults {
  import opened Wrappers
  import opened IcuParser
  import opened IcuWellFormed

  // ---------------------------------------------------------------- what stands where

  predicate StandsAt(s: string, off: nat, word: string) { off + |word| <= |s| && s[off..off + |word|] == word }

  predicate StandsBefore(s: string, off: nat, word: string) { exists i: nat :: i < off && StandsAt(s, i, word) }

  /** Only white space lies between a `c` and `off`. */
  predicate ComesAfter(s: string, off: nat, c: char) { exists i: nat :: i < off && OnlySpaceFrom(s, i, off, c) }

  predicate OnlySpaceFrom(s: string, i: nat, off: nat, c: char) {
    i < off <= |s| && s[i] == c && forall k :: i < k < off ==> IsSpace(s[k])
  }

  /** The letters at `off`, as many as there are, are `word`. */
  predicate WordAt(s: string, off: nat, word: string) {
    && StandsAt(s, off, word) && (forall k :: 0 <= k < |word| ==> IsLetter(word[k]))
    && (off + |word| < |s| ==> !IsLetter(s[off + |word|]))
  }

  /** At `off` the text has a character, not white space and not `c`. */
  predicate OtherThan(s: string, off: nat, c: char) { off < |s| && s[off] != c && !IsSpace(s[off]) }

  /** An opening tag's name runs from after `<` to `off`. */
  predicate TagNameEnds(s: string, off: nat) {
    && off <= |s| && (off < |s| ==> !IsDashedNameChar(s[off]))
    && exists i: nat :: i < off && TagNameFrom(s, i, off)
  }

  predicate TagNameFrom(s: string, i: nat, off: nat) {
    i + 1 < off <= |s| && s[i] == '<' && IsLetter(s[i + 1]) && forall k :: i + 1 < k < off ==> IsDashedNameChar(s[k])
  }

  /** A closing tag, with a name or none, runs from `off` to the `>` at `end`. */
  predicate ClosingTagAt(s: string, off: nat, end: nat) {
    && StandsAt(s, off, "</") && off + 2 <= end < |s| && s[end] == '>'
    && (off + 2 < end ==> IsNameStart(s[off + 2])) && forall k :: off + 2 < k < end ==> IsDashedNameChar(s[k])
  }

  /** What the text must look like at the offset of an error for the fault to be the one reported. */
  ghost predicate Blames(s: string, off: nat, fault: Fault) {
    match fault
    case UnmatchedBrace => StandsAt(s, off, "}")
    case StrayClosingTag => StandsAt(s, off, "</")
    case ExpectedArgumentName => ComesAfter(s, off, '{') && (off < |s| ==> !IsNameStart(s[off]) && !IsSpace(s[off]))
    case Unterminated => StandsAt(s, off, "{")
    case ExpectedCommaOrBrace => OtherThan(s, off, ',') && s[off] != '}'
    case ExpectedComma => OtherThan(s, off, ',')
    case ExpectedType => ComesAfter(s, off, ',') && off < |s| && !IsLetter(s[off]) && !IsSpace(s[off])
    case UnknownType(word) =>
      ComesAfter(s, off, ',') && WordAt(s, off, word) && word !in {"", "number", "date", "time", "plural", "select"}
    case DuplicateKey(key) => key != "" && StandsAt(s, off, key) && StandsBefore(s, off, key)
    case ExpectedBrace => OtherThan(s, off, '{')
    case MissingOther => StandsAt(s, off, "{")
    case ExpectedSelectKey => OtherThan(s, off, '}') && !IsNameStart(s[off])
    case ExpectedDigits => StandsAt(s, off, "=") && (off + 1 < |s| ==> !IsDigit(s[off + 1]))
    case OffsetUnsupported => WordAt(s, off, "offset")
    case ExpectedPluralKey => OtherThan(s, off, '}') && s[off] != '=' && !IsLetter(s[off])
    case UnknownPluralKey(word) =>
      WordAt(s, off, word) && word !in {"", "zero", "one", "two", "few", "many", "other", "offset"}
    case InvalidTagName => false
    case TagAttributes => TagNameEnds(s, off) && (off < |s| ==> s[off] != '>')
    case MissingClosingTag => StandsAt(s, off, "<") && off + 1 < |s| && IsLetter(s[off + 1])
    case InvalidClosingTag => StandsAt(s, off, "</") && forall end: nat :: !ClosingTagAt(s, off, end)
    case MismatchedClosingTag => exists end: nat :: ClosingTagAt(s, off, end)
  }

  /** If it is an error, the text bears it out. */
  ghost predicate Justified<T>(s: string, r: Parsed<T>) { r.Err? ==> Blames(s, r.error.offset, r.error.fault) }

  // ---------------------------------------------------------------- names, words and keys

  lemma {:induction false} SkippedAfter(s: string, pos: nat, c: char)
    requires 0 < pos <= |s| && s[pos - 1] == c
    ensures var end := SkipSpace(s, pos); ComesAfter(s, end, c) && (end < |s| ==> !IsSpace(s[end]))
  {
    SpanIsMaximal(s, pos, IsSpace);
    assert OnlySpaceFrom(s, pos - 1, SkipSpace(s, pos), c);
  }

  lemma {:induction false} WordStands(s: string, pos: nat)
    requires pos <= |s|
    ensures WordAt(s, pos, s[pos..Span(s, pos, IsLetter)])
  {
    SpanIsMaximal(s, pos, IsLetter);
  }

  lemma {:induction false} KeyJustified(s: string, pos: nat, isPlural: bool, r: Parsed<string>)
    requires pos < |s| && !IsSpace(s[pos]) && s[pos] != '}' && r == ParseKey(s, pos, isPlural)
    ensures Justified(s, r) && (r.Ok? ==> r.value != "" && StandsAt(s, pos, r.value) && r.pos == pos + |r.value|)
  {
    if isPlural && s[pos] == '=' {
      SpanIsMaximal(s, pos + 1, IsDigit);
    } else if isPlural {
      WordStands(s, pos);
    }
  }

  // ---------------------------------------------------------------- one lemma for each routine

  lemma {:induction false} SeqJustified(s: string, pos: nat, c: Ctx, out: Message, lit: string, r: Parsed<Message>)
    requires pos <= |s| && r == ParseSeq(s, pos, c, out, lit)
    ensures Justified(s, r)
    decreases |s| - pos, 2
  {
    if pos == |s| || s[pos] == '}' || (s[pos] == '<' && pos + 1 < |s| && s[pos + 1] == '/') {
    } else if s[pos] == '\'' {
      var q := Apostrophe(s, pos, c.plural);
      SeqJustified(s, q.1, c, out, lit + q.0, r);
    } else if s[pos] == '{' {
      var a := ParseArgument(s, pos, c.plural);
      ArgumentJustified(s, pos, c.plural, a);
      if a.Ok? { SeqJustified(s, a.pos, c, Flush(out, lit) + [a.value], "", r); }
    } else if s[pos] == '<' && pos + 1 < |s| && IsLetter(s[pos + 1]) {
      var t := ParseTag(s, pos, c.plural);
      TagJustified(s, pos, c.plural, t);
      if t.Ok? { SeqJustified(s, t.pos, c, Flush(out, lit) + [t.value], "", r); }
    } else if s[pos] == '#' && c.plural {
      SeqJustified(s, pos + 1, c, Flush(out, lit) + [Pound], "", r);
    } else {
      SeqJustified(s, pos + 1, c, out, lit + [s[pos]], r);
    }
  }

  lemma {:induction false} ArgumentJustified(s: string, open: nat, plural: bool, r: Parsed<Node>)
    requires open < |s| && s[open] == '{' && r == ParseArgument(s, open, plural)
    ensures Justified(s, r)
    decreases |s| - open, 1
  {
    SkippedAfter(s, open + 1, '{');
    var start := SkipSpace(s, open + 1);
    var end := NameEnd(s, start, false);
    if end > start {
      NamedJustified(s, end, open, plural, s[start..end], r);
    }
  }

  lemma {:induction false} NamedJustified(s: string, pos: nat, open: nat, plural: bool, name: string, r: Parsed<Node>)
    requires open < pos <= |s| && s[open] == '{' && r == ParseNamed(s, pos, open, plural, name)
    ensures Justified(s, r)
    decreases |s| - pos, 1
  {
    SpanIsMaximal(s, pos, IsSpace);
    var after := SkipSpace(s, pos);
    if after < |s| && s[after] == ',' {
      TypedJustified(s, after + 1, open, plural, name, r);
    }
  }

  lemma {:induction false} TypedJustified(s: string, pos: nat, open: nat, plural: bool, name: string, r: Parsed<Node>)
    requires open < pos <= |s| && s[open] == '{' && s[pos - 1] == ',' && r == ParseTyped(s, pos, open, plural, name)
    ensures Justified(s, r)
    decreases |s| - pos, 3
  {
    SkippedAfter(s, pos, ',');
    var typOff := SkipSpace(s, pos);
    var typEnd := Span(s, typOff, IsLetter);
    WordStands(s, typOff);
    SpanIsMaximal(s, typEnd, IsSpace);
    var p := SkipSpace(s, typEnd);
    if p < |s| {
      KeywordJustified(s, p, open, plural, name, typOff, s[typOff..typEnd], r);
    }
  }

  lemma {:induction false} KeywordJustified(s: string, pos: nat, open: nat, plural: bool, name: string,
                                            typOff: nat, typ: string, r: Parsed<Node>)
    requires open < pos < |s| && s[open] == '{' && !IsSpace(s[pos]) && r == ParseKeyword(s, pos, open, plural, name, typOff, typ)
    requires ComesAfter(s, typOff, ',') && WordAt(s, typOff, typ) && typOff < |s| && (typ == "" ==> !IsSpace(s[typOff]))
    ensures Justified(s, r)
    decreases |s| - pos, 2
  {
    match KeywordOf(typ) {
      case ChoiceKeyword(isPlural) => ChoiceJustified(s, pos, open, plural, name, isPlural, r);
      case FormatKeyword =>
      case NoKeyword =>
      case OtherKeyword =>
    }
  }

  lemma {:induction false} ChoiceJustified(s: string, pos: nat, open: nat, plural: bool, name: string, isPlural: bool, r: Parsed<Node>)
    requires open < pos < |s| && s[open] == '{' && !IsSpace(s[pos]) && r == ParseChoice(s, pos, open, plural, name, isPlural)
    ensures Justified(s, r)
    decreases |s| - pos, 1
  {
    if s[pos] == ',' {
      var options := ParseOptions(s, pos + 1, open, plural, isPlural, []);
      OptionsJustified(s, pos + 1, open, plural, isPlural, [], options);
    }
  }

  /** The keys read so far stand before the cursor. */
  ghost predicate KeysStand(s: string, pos: nat, done: seq<Branch>) {
    forall i :: 0 <= i < |done| ==> StandsBefore(s, pos, done[i].key)
  }

  lemma {:induction false} OptionsJustified(s: string, pos: nat, open: nat, plural: bool, isPlural: bool, done: seq<Branch>,
                                            r: Parsed<seq<Branch>>)
    requires open < pos <= |s| && s[open] == '{' && KeysStand(s, pos, done)
    requires r == ParseOptions(s, pos, open, plural, isPlural, done)
    ensures Justified(s, r)
    decreases |s| - pos, 4
  {
    SpanIsMaximal(s, pos, IsSpace);
    var keyOff := SkipSpace(s, pos);
    if keyOff < |s| && s[keyOff] != '}' {
      var o := ParseOption(s, keyOff, open, plural, isPlural, Keys(done));
      OptionJustified(s, keyOff, open, plural, isPlural, done, o);
      if o.Ok? {
        assert StandsBefore(s, o.pos, o.value.key);
        OptionsJustified(s, o.pos, open, plural, isPlural, done + [o.value], r);
      }
    }
  }

  lemma {:induction false} OptionJustified(s: string, keyOff: nat, open: nat, plural: bool, isPlural: bool, done: seq<Branch>,
                                           r: Parsed<Branch>)
    requires open < keyOff < |s| && s[open] == '{' && !IsSpace(s[keyOff]) && s[keyOff] != '}' && KeysStand(s, keyOff, done)
    requires r == ParseOption(s, keyOff, open, plural, isPlural, Keys(done))
    ensures Justified(s, r) && (r.Ok? ==> StandsAt(s, keyOff, r.value.key))
    decreases |s| - keyOff, 3
  {
    var k := ParseKey(s, keyOff, isPlural);
    KeyJustified(s, keyOff, isPlural, k);
    if k.Ok? && k.value !in Keys(done) {
      SpanIsMaximal(s, k.pos, IsSpace);
      var brace := SkipSpace(s, k.pos);
      if brace < |s| && s[brace] == '{' {
        var c := Ctx(plural || isPlural, true, "");
        SeqJustified(s, brace + 1, c, [], "", ParseSeq(s, brace + 1, c, [], ""));
      }
    }
  }

  lemma {:induction false} TagNameStands(s: string, open: nat)
    requires open + 1 < |s| && s[open] == '<' && IsLetter(s[open + 1])
    ensures TagNameEnds(s, NameEnd(s, open + 1, true)) && open + 1 < NameEnd(s, open + 1, true)
  {
    SpanIsMaximal(s, open + 2, IsDashedNameChar);
    assert TagNameFrom(s, open, NameEnd(s, open + 1, true));
  }

  lemma {:induction false} TagJustified(s: string, open: nat, plural: bool, r: Parsed<Node>)
    requires open + 1 < |s| && s[open] == '<' && IsLetter(s[open + 1]) && r == ParseTag(s, open, plural)
    ensures Justified(s, r)
    decreases |s| - open, 1
  {
    TagNameStands(s, open);
    var end := NameEnd(s, open + 1, true);
    if end < |s| && s[end] == '>' {
      var c := Ctx(plural, false, s[open + 1..end]);
      BodyJustified(s, end + 1, open, c, ParseSeq(s, end + 1, c, [], ""), r);
    }
  }

  lemma {:induction false} BodyJustified(s: string, pos: nat, open: nat, c: Ctx, body: Parsed<Message>, r: Parsed<Node>)
    requires open + 1 < pos <= |s| && s[open] == '<' && IsLetter(s[open + 1]) && !c.option
    requires body == ParseSeq(s, pos, c, [], "") && r == CloseTag(s, open, c.tag, body)
    ensures Justified(s, r)
    decreases |s| - pos, 3
  {
    SeqJustified(s, pos, c, [], "", body);
    SeqStops(s, pos, c, [], "", body);
    if body.Ok? && body.pos < |s| {
      CloseJustified(s, open, c.tag, body, r);
    }
  }

  /** Only the name at `off` can be the closing tag's. */
  lemma {:induction false} OneClosing(s: string, off: nat, end: nat)
    requires StandsAt(s, off, "</") && end == NameEnd(s, off + 2, true)
    ensures forall stop: nat :: ClosingTagAt(s, off, stop) <==> stop == end && end < |s| && s[end] == '>'
  {
    if off + 2 < |s| {
      SpanIsMaximal(s, off + 3, IsDashedNameChar);
    }
  }

  lemma {:induction false} CloseJustified(s: string, open: nat, name: string, body: Parsed<Message>, r: Parsed<Node>)
    requires body.Ok? && StandsAt(s, body.pos, "</") && r == CloseTag(s, open, name, body)
    ensures Justified(s, r)
  {
    var end := NameEnd(s, body.pos + 2, true);
    OneClosing(s, body.pos, end);
    assert end < |s| && s[end] == '>' ==> ClosingTagAt(s, body.pos, end);
  }

  /** Every syntax error is borne out by the text at its offset. */
  lemma {:induction false} FaultIsThere(s: string)
    ensures Parse(s).Failure? ==> Blames(s, Parse(s).error.offset, Parse(s).error.fault)
  {
    ParseIsWellFormed(s);
    SeqJustified(s, 0, TOP, [], "", ParseSeq(s, 0, TOP, [], ""));
  }
}
