/**
 The parser of i18n/icu reads exactly the grammar: a text parses to a message if and
 only if the message is well formed and the text spells it.
 */
module IcuReader {
  import opened Wrappers
  import opened IcuParser
  import opened IcuWellFormed
  import opened IcuGrammar

  // ---------------------------------------------------------------- scanning words and gaps

  /** A word followed by a character outside its class is scanned exactly. */
  lemma {:induction false} WordScans(t: string, pos: nat, p: char -> bool, word: string, end: nat)
    requires end == pos + |word| && Reads(t, pos, word)
    requires forall i :: 0 <= i < |word| ==> p(word[i])
    requires end < |t| ==> !p(t[end])
    ensures Span(t, pos, p) == end
  {
    WordScansFrom(t, pos, p, word, 0, end);
  }

  lemma {:induction false} WordScansFrom(t: string, pos: nat, p: char -> bool, word: string, i: nat, end: nat)
    requires i <= |word| && end == pos + |word| && Reads(t, pos, word)
    requires forall x :: 0 <= x < |word| ==> p(word[x])
    requires end < |t| ==> !p(t[end])
    ensures Span(t, pos + i, p) == end
    decreases |word| - i
  {
    if i < |word| {
      ReadsAt(t, pos, word, i);
      WordScansFrom(t, pos, p, word, i + 1, end);
    }
  }

  lemma {:induction false} NameScans(t: string, pos: nat, dashes: bool, name: string, end: nat)
    requires end == pos + |name| && Reads(t, pos, name)
    requires if dashes then IsIdentifier(name) else IsArgumentName(name)
    requires end < |t| ==> !IsDashedNameChar(t[end])
    ensures NameEnd(t, pos, dashes) == end
    ensures t[pos..end] == name
    ensures pos < |t| && IsNameStart(t[pos]) && t[pos] == name[0]
  {
    WordScans(t, pos, NameChar(dashes), name, end);
    ReadsIsSlice(t, pos, name);
    ReadsAt(t, pos, name, 0);
  }

  lemma {:induction false} GapSkips(t: string, a: nat, b: nat)
    requires Gap(t, a, b) && (b < |t| ==> !White(t[b]))
    ensures SkipSpace(t, a) == b
    decreases b - a
  {
    if a < b {
      GapSkips(t, a + 1, b);
    }
  }

  /** A mark that ends a word. */
  predicate IsMark(c: char) { c == ',' || c == '}' || c == '{' }

  /** A word, a gap and a mark: the word ends where it should. */
  lemma {:induction false} WordEnds(t: string, e: nat, c: nat)
    requires Gap(t, e, c) && c < |t| && IsMark(t[c])
    ensures e < |t| && !IsDashedNameChar(t[e]) && !IsLetter(t[e]) && !IsDigit(t[e]) && SkipSpace(t, e) == c
  {
    GapSkips(t, e, c);
    assert e < c ==> White(t[e]);
  }

  // ---------------------------------------------------------------- the parser reads placeholders

  lemma {:induction false} NameReads(t: string, open: nat, plural: bool, name: string, a: nat, e: nat, c: nat, r: Parsed<Node>, next: Parsed<Node>)
    requires IsArgumentName(name) && Spaced(t, open, a, name, c) && e == a + |name| && c < |t| && IsMark(t[c])
    requires open < |t| && r == ParseArgument(t, open, plural) && next == ParseNamed(t, e, open, plural, name)
    ensures r == next
  {
    WordEnds(t, e, c);
    NameScans(t, a, false, name, e);
    GapSkips(t, open + 1, a);
  }

  lemma {:induction false} PlainReads(t: string, e: nat, c: nat, open: nat, plural: bool, name: string, r: Parsed<Node>)
    requires open < e && Gap(t, e, c) && CharAt(t, c, '}') && r == ParseNamed(t, e, open, plural, name)
    ensures r == Ok(Argument(name, "", ""), c + 1)
  {
    WordEnds(t, e, c);
  }

  lemma {:induction false} CommaReads(t: string, e: nat, c: nat, open: nat, plural: bool, name: string, r: Parsed<Node>, next: Parsed<Node>)
    requires open < e && Gap(t, e, c) && CharAt(t, c, ',')
    requires r == ParseNamed(t, e, open, plural, name) && next == ParseTyped(t, c + 1, open, plural, name)
    ensures r == next
  {
    WordEnds(t, e, c);
  }

  predicate IsTypeWord(word: string) { word != "" && forall i :: 0 <= i < |word| ==> IsLetter(word[i]) }

  lemma {:induction false} TypeScans(t: string, comma: nat, word: string, a: nat, e: nat, c: nat)
    requires IsTypeWord(word) && Spaced(t, comma, a, word, c) && e == a + |word| && c < |t| && IsMark(t[c])
    ensures SkipSpace(t, comma + 1) == a && Span(t, a, IsLetter) == e && t[a..e] == word && SkipSpace(t, e) == c
  {
    WordEnds(t, e, c);
    ReadsAt(t, a, word, 0);
    GapSkips(t, comma + 1, a);
    WordScans(t, a, IsLetter, word, e);
    ReadsIsSlice(t, a, word);
  }

  lemma {:induction false} TypeReads(t: string, comma: nat, open: nat, plural: bool, name: string, word: string, a: nat, c: nat,
                                     r: Parsed<Node>, next: Parsed<Node>)
    requires open < comma && IsTypeWord(word) && Spaced(t, comma, a, word, c) && c < |t| && IsMark(t[c])
    requires r == ParseTyped(t, comma + 1, open, plural, name) && next == ParseKeyword(t, c, open, plural, name, a, word)
    ensures r == next
  {
    TypeScans(t, comma, word, a, a + |word|, c);
  }

  lemma {:induction false} StyleReads(t: string, pos: nat, end: nat, open: nat, name: string, format: string, style: string, r: Parsed<Node>)
    requires pos < end <= |t| && r == ParseStyle(t, pos, open, name, format)
    requires (t[pos] == '}' && end == pos + 1 && style == "") || (t[pos] == ',' && StyleAs(t, pos + 1, end, style))
    ensures r == Ok(Argument(name, format, style), end)
  {
    if t[pos] == ',' {
      UpToBrace(t, pos + 1, end - 1);
    }
  }

  lemma {:induction false} UpToBrace(t: string, a: nat, b: nat)
    requires a <= b < |t| && t[b] == '}' && forall i :: a <= i < b ==> t[i] != '}'
    ensures Span(t, a, IsNotBrace) == b
    decreases b - a
  {
    if a < b {
      UpToBrace(t, a + 1, b);
    }
  }

  lemma {:induction false} FormatIsWord(format: string)
    requires IsFormat(format)
    ensures IsTypeWord(format)
  {
  }

  lemma {:induction false} FormatReads(t: string, comma: nat, open: nat, plural: bool, n: Node, a: nat, c: nat, end: nat, r: Parsed<Node>)
    requires n.Argument? && IsFormat(n.format) && open < comma && Spaced(t, comma, a, n.format, c) && c < end <= |t|
    requires TypedAs(t, c, end, n, plural) && r == ParseTyped(t, comma + 1, open, plural, n.name)
    ensures r == Ok(n, end)
  {
    FormatIsWord(n.format);
    var keyed := ParseKeyword(t, c, open, plural, n.name, a, n.format);
    TypeReads(t, comma, open, plural, n.name, n.format, a, c, r, keyed);
    FormatKeywordReads(t, c, open, plural, n, a, end, keyed);
  }

  lemma {:induction false} FormatKeywordReads(t: string, c: nat, open: nat, plural: bool, n: Node, a: nat, end: nat, r: Parsed<Node>)
    requires n.Argument? && IsFormat(n.format) && open < c < end <= |t| && TypedAs(t, c, end, n, plural)
    requires r == ParseKeyword(t, c, open, plural, n.name, a, n.format)
    ensures r == Ok(n, end)
  {
    StyleReads(t, c, end, open, n.name, n.format, n.style, ParseStyle(t, c, open, n.name, n.format));
  }

  lemma {:induction false} ArgumentReads(t: string, open: nat, end: nat, plural: bool, n: Node, r: Parsed<Node>)
    requires n.Argument? && ArgumentOk(n.name, n.format, n.style) && open < end <= |t| && BraceAs(t, open, end, n, plural)
    requires r == ParseArgument(t, open, plural)
    ensures r == Ok(n, end)
  {
    var a: nat, c: nat :| Spaced(t, open, a, n.name, c) && c < end && NamedAs(t, c, end, n, plural);
    var e := a + |n.name|;
    var named := ParseNamed(t, e, open, plural, n.name);
    NameReads(t, open, plural, n.name, a, e, c, r, named);
    if n.format == "" {
      PlainReads(t, e, c, open, plural, n.name, named);
    } else {
      var typed := ParseTyped(t, c + 1, open, plural, n.name);
      CommaReads(t, e, c, open, plural, n.name, named, typed);
      var a', c': nat :| Spaced(t, c, a', n.format, c') && c' < end && TypedAs(t, c', end, n, plural);
      FormatReads(t, c, open, plural, n, a', c', end, typed);
    }
  }

  // ---------------------------------------------------------------- the parser reads choices

  predicate KeyOfKind(key: string, isPlural: bool) {
    if isPlural then IsPluralKey(key) else IsIdentifier(key)
  }

  lemma {:induction false} CategoryIsWord(key: string)
    requires PluralWordOf(key).CategoryWord?
    ensures key != "" && forall i :: 0 <= i < |key| ==> IsLetter(key[i])
  {
  }

  lemma {:induction false} KeyReads(t: string, pos: nat, isPlural: bool, key: string, end: nat)
    requires end == pos + |key| && Reads(t, pos, key) && KeyOfKind(key, isPlural)
    requires end < |t| && !IsDashedNameChar(t[end]) && !IsLetter(t[end]) && !IsDigit(t[end])
    ensures pos < |t| && !White(t[pos]) && t[pos] != '}' && ParseKey(t, pos, isPlural) == Ok(key, end)
  {
    ReadsIsSlice(t, pos, key);
    ReadsAt(t, pos, key, 0);
    if !isPlural {
      NameScans(t, pos, true, key, end);
    } else if key[0] == '=' {
      assert key == key[..1] + key[1..];
      SplitReads(t, pos, key[..1], key[1..]);
      WordScans(t, pos + 1, IsDigit, key[1..], end);
    } else {
      CategoryIsWord(key);
      WordScans(t, pos, IsLetter, key, end);
    }
  }

  /** An option whose body parses. */
  lemma {:induction false} OptionAssembles(t: string, pos: nat, open: nat, plural: bool, isPlural: bool, inner: bool,
                                           option: Branch, seen: set<string>, e: nat, brace: nat, end: nat, r: Parsed<Branch>)
    requires inner == (plural || isPlural)
    requires pos < |t| && ParseKey(t, pos, isPlural) == Ok(option.key, e) && option.key !in seen
    requires SkipSpace(t, e) == brace && CharAt(t, brace, '{') && CharAt(t, end, '}')
    requires ParseSeq(t, brace + 1, Ctx(inner, true, ""), [], "") == Ok(option.value, end)
    requires r == ParseOption(t, pos, open, plural, isPlural, seen)
    ensures r == Ok(option, end + 1)
  {
  }

  lemma {:induction false} OptionReads(t: string, pos: nat, end: nat, open: nat, plural: bool, isPlural: bool, inner: bool,
                                       option: Branch, seen: set<string>, r: Parsed<Branch>)
    requires inner == (plural || isPlural) && pos < end <= |t| && r == ParseOption(t, pos, open, plural, isPlural, seen)
    requires OptionAs(t, pos, end, option, inner) && KeyOfKind(option.key, isPlural)
    requires option.key !in seen && WellFormed(option.value, inner)
    ensures !White(t[pos]) && t[pos] != '}' && r == Ok(option, end)
    decreases option, 1
  {
    var e := pos + |option.key|;
    var brace: nat :| Gap(t, e, brace) && brace + 1 < end && t[brace] == '{'
                      && MessageAs(t, brace + 1, end - 1, option.value, 0, inner);
    WordEnds(t, e, brace);
    KeyReads(t, pos, isPlural, option.key, e);
    MessageReads(t, brace + 1, Ctx(inner, true, ""), option.value, end - 1, ParseSeq(t, brace + 1, Ctx(inner, true, ""), [], ""));
    OptionAssembles(t, pos, open, plural, isPlural, inner, option, seen, e, brace, end - 1, r);
  }

  function Choice(isPlural: bool, name: string, options: seq<Branch>): Node {
    if isPlural then Plural(name, options) else Select(name, options)
  }

  /** What option `i` of a choice needs: a key of its kind that none before it has, and a well-formed value. */
  predicate OptionOk(options: seq<Branch>, i: nat, plural: bool, isPlural: bool)
    requires i < |options|
  {
    options[i].key !in Keys(options[..i]) && KeyOfKind(options[i].key, isPlural) && WellFormed(options[i].value, plural)
  }

  predicate OptionsOk(options: seq<Branch>, n: nat, plural: bool, isPlural: bool)
    requires n <= |options|
    decreases n
  {
    n == 0 || (OptionOk(options, n - 1, plural, isPlural) && OptionsOk(options, n - 1, plural, isPlural))
  }

  lemma {:induction false} OptionOfOk(options: seq<Branch>, n: nat, i: nat, plural: bool, isPlural: bool)
    requires i < n <= |options| && OptionsOk(options, n, plural, isPlural)
    ensures OptionOk(options, i, plural, isPlural)
    decreases n
  {
    if i < n - 1 {
      OptionOfOk(options, n - 1, i, plural, isPlural);
    }
  }

  lemma {:induction false} TakeOne(options: seq<Branch>, i: nat)
    requires i < |options|
    ensures options[..i] + [options[i]] == options[..i + 1]
  {
  }

  lemma {:induction false} OptionsRead(t: string, pos: nat, end: nat, open: nat, plural: bool, isPlural: bool, inner: bool,
                                       options: seq<Branch>, i: nat, r: Parsed<seq<Branch>>)
    requires inner == (plural || isPlural) && i <= |options| && pos <= end <= |t|
    requires OptionsAs(t, pos, end, options, i, inner) && OptionsOk(options, |options|, inner, isPlural)
    requires r == ParseOptions(t, pos, open, plural, isPlural, options[..i])
    ensures r == Ok(options, end)
    decreases options, |options| - i
  {
    var a: nat :| Gap(t, pos, a) && a < end && OptionsFrom(t, a, end, options, i, inner);
    if i == |options| {
      NoMoreOptions(t, pos, a, open, plural, isPlural, options[..i], r);
      assert options[..i] == options;
    } else {
      var mid := OptionFollows(t, a, end, options, i, inner);
      OptionOfOk(options, |options|, i, inner, isPlural);
      TakeOne(options, i);
      var rest := ParseOptions(t, mid, open, plural, isPlural, options[..i + 1]);
      OptionsRead(t, mid, end, open, plural, isPlural, inner, options, i + 1, rest);
      NextOption(t, pos, a, mid, open, plural, isPlural, inner, options[..i], options[i], r, rest);
    }
  }

  lemma {:induction false} OptionFollows(t: string, a: nat, end: nat, options: seq<Branch>, i: nat, plural: bool) returns (mid: nat)
    requires a < end <= |t| && i < |options| && OptionsFrom(t, a, end, options, i, plural)
    ensures a < mid < end && OptionAs(t, a, mid, options[i], plural) && OptionsAs(t, mid, end, options, i + 1, plural)
  {
    mid :| a < mid < end && OptionAs(t, a, mid, options[i], plural) && OptionsAs(t, mid, end, options, i + 1, plural);
  }

  lemma {:induction false} NoMoreOptions(t: string, pos: nat, a: nat, open: nat, plural: bool, isPlural: bool, done: seq<Branch>,
                                         r: Parsed<seq<Branch>>)
    requires Gap(t, pos, a) && CharAt(t, a, '}') && r == ParseOptions(t, pos, open, plural, isPlural, done)
    ensures r == Ok(done, a + 1)
  {
    GapSkips(t, pos, a);
  }

  /** Reading an option adds it to those read before. */
  lemma {:induction false} NextOption(t: string, pos: nat, a: nat, mid: nat, open: nat, plural: bool, isPlural: bool, inner: bool,
                                      done: seq<Branch>, option: Branch, r: Parsed<seq<Branch>>, rest: Parsed<seq<Branch>>)
    requires inner == (plural || isPlural) && Gap(t, pos, a) && a < mid <= |t|
    requires option.key !in Keys(done) && KeyOfKind(option.key, isPlural) && WellFormed(option.value, inner)
    requires OptionAs(t, a, mid, option, inner)
    requires r == ParseOptions(t, pos, open, plural, isPlural, done)
    requires rest == ParseOptions(t, mid, open, plural, isPlural, done + [option])
    ensures r == rest
    decreases option, 2
  {
    OptionReads(t, a, mid, open, plural, isPlural, inner, option, Keys(done), ParseOption(t, a, open, plural, isPlural, Keys(done)));
    OptionStep(t, pos, a, open, plural, isPlural, done, option, mid, r, rest);
  }

  lemma {:induction false} OptionStep(t: string, pos: nat, a: nat, open: nat, plural: bool, isPlural: bool, done: seq<Branch>,
                                      option: Branch, next: nat, r: Parsed<seq<Branch>>, rest: Parsed<seq<Branch>>)
    requires Gap(t, pos, a) && a < |t| && !White(t[a]) && t[a] != '}'
    requires ParseOption(t, a, open, plural, isPlural, Keys(done)) == Ok(option, next)
    requires r == ParseOptions(t, pos, open, plural, isPlural, done)
    requires rest == ParseOptions(t, next, open, plural, isPlural, done + [option])
    ensures r == rest
  {
    GapSkips(t, pos, a);
  }

  predicate IsChoiceWord(word: string, isPlural: bool) { KeywordOf(word) == ChoiceKeyword(isPlural) && IsTypeWord(word) }

  lemma {:induction false} ChoiceWord(isPlural: bool)
    ensures IsChoiceWord(if isPlural then "plural" else "select", isPlural)
  {
  }

  /** Options that parse make a choice. */
  lemma {:induction false} ListAssembles(t: string, pos: nat, list: nat, open: nat, plural: bool, isPlural: bool, name: string,
                                         options: seq<Branch>, end: nat, r: Parsed<Node>)
    requires open < pos && CharAt(t, pos, ',') && "other" in Keys(options) && list == pos + 1
    requires ParseOptions(t, list, open, plural, isPlural, []) == Ok(options, end)
    requires r == ParseChoice(t, pos, open, plural, name, isPlural)
    ensures r == Ok(Choice(isPlural, name, options), end)
  {
  }

  /** The option list of a choice, from the comma after its keyword. */
  lemma {:induction false} ListReads(t: string, pos: nat, list: nat, end: nat, open: nat, plural: bool, isPlural: bool, inner: bool,
                                     name: string, options: seq<Branch>, r: Parsed<Node>)
    requires inner == (plural || isPlural) && OptionsOk(options, |options|, inner, isPlural) && "other" in Keys(options)
    requires open < pos && list == pos + 1 <= end <= |t| && CharAt(t, pos, ',') && OptionsAs(t, list, end, options, 0, inner)
    requires r == ParseChoice(t, pos, open, plural, name, isPlural)
    ensures r == Ok(Choice(isPlural, name, options), end)
    decreases options, |options| + 1
  {
    assert options[..0] == [];
    OptionsRead(t, list, end, open, plural, isPlural, inner, options, 0, ParseOptions(t, list, open, plural, isPlural, []));
    ListAssembles(t, pos, list, open, plural, isPlural, name, options, end, r);
  }

  /** A choice from the comma after its name. */
  lemma {:induction false} ChoiceTyped(t: string, comma: nat, open: nat, plural: bool, isPlural: bool, inner: bool, name: string, word: string,
                                       a: nat, c: nat, end: nat, options: seq<Branch>, r: Parsed<Node>)
    requires inner == (plural || isPlural) && IsChoiceWord(word, isPlural) && open < comma && Spaced(t, comma, a, word, c) && c < end <= |t|
    requires OptionsOk(options, |options|, inner, isPlural) && "other" in Keys(options)
    requires t[c] == ',' && OptionsAs(t, c + 1, end, options, 0, inner) && r == ParseTyped(t, comma + 1, open, plural, name)
    ensures r == Ok(Choice(isPlural, name, options), end)
    decreases options, |options| + 2
  {
    var keyed, listed := ParseKeyword(t, c, open, plural, name, a, word), ParseChoice(t, c, open, plural, name, isPlural);
    TypeReads(t, comma, open, plural, name, word, a, c, r, keyed);
    ListReads(t, c, c + 1, end, open, plural, isPlural, inner, name, options, listed);
    ChoiceKeywordReads(t, c, open, plural, isPlural, name, a, word, keyed, listed);
  }

  lemma {:induction false} ChoiceKeywordReads(t: string, c: nat, open: nat, plural: bool, isPlural: bool, name: string, a: nat, word: string,
                                              r: Parsed<Node>, next: Parsed<Node>)
    requires open < c < |t| && KeywordOf(word) == ChoiceKeyword(isPlural)
    requires r == ParseKeyword(t, c, open, plural, name, a, word) && next == ParseChoice(t, c, open, plural, name, isPlural)
    ensures r == next
  {
  }

  lemma {:induction false} ChoiceIsOk(isPlural: bool, name: string, options: seq<Branch>, plural: bool)
    requires ChoiceOk(isPlural, name, options, plural)
    ensures IsArgumentName(name) && "other" in Keys(options) && OptionsOk(options, |options|, plural, isPlural)
  {
    ChoiceOptionsOk(isPlural, name, options, plural, |options|);
  }

  lemma {:induction false} ChoiceOptionsOk(isPlural: bool, name: string, options: seq<Branch>, plural: bool, n: nat)
    requires ChoiceOk(isPlural, name, options, plural) && n <= |options|
    ensures OptionsOk(options, n, plural, isPlural)
    decreases n
  {
    if n > 0 {
      ChoiceOptionOk(isPlural, name, options, plural, n - 1);
      ChoiceOptionsOk(isPlural, name, options, plural, n - 1);
    }
  }

  lemma {:induction false} ChoiceOptionOk(isPlural: bool, name: string, options: seq<Branch>, plural: bool, i: nat)
    requires ChoiceOk(isPlural, name, options, plural) && i < |options|
    ensures OptionOk(options, i, plural, isPlural)
  {
  }

  /** A choice from its opening brace. */
  lemma {:induction false} ChoiceReads(t: string, open: nat, end: nat, plural: bool, isPlural: bool, inner: bool, name: string,
                                       options: seq<Branch>, n: Node, r: Parsed<Node>)
    requires inner == (plural || isPlural) && n == Choice(isPlural, name, options) && ChoiceOk(isPlural, name, options, inner)
    requires open < end <= |t| && BraceAs(t, open, end, n, plural) && r == ParseArgument(t, open, plural)
    ensures r == Ok(n, end)
    decreases options, |options| + 3
  {
    ChoiceIsOk(isPlural, name, options, inner);
    ChoiceWord(isPlural);
    var a: nat, c: nat :| Spaced(t, open, a, n.name, c) && c < end && NamedAs(t, c, end, n, plural);
    var e := a + |name|;
    var named, typed := ParseNamed(t, e, open, plural, name), ParseTyped(t, c + 1, open, plural, name);
    NameReads(t, open, plural, name, a, e, c, r, named);
    CommaReads(t, e, c, open, plural, name, named, typed);
    var a', c': nat :| Spaced(t, c, a', TypeOf(n), c') && c' < end && TypedAs(t, c', end, n, plural);
    ChoiceTyped(t, c, open, plural, isPlural, inner, name, TypeOf(n), a', c', end, options, typed);
  }

  // ---------------------------------------------------------------- the parser reads tags and sequences

  lemma {:induction false} OpeningReads(t: string, open: nat, plural: bool, name: string, body: nat, parsed: Parsed<Message>,
                                        r: Parsed<Node>)
    requires IsIdentifier(name) && IsLetter(name[0]) && OpeningAt(t, open, name) && r == ParseTag(t, open, plural)
    requires body == open + 2 + |name| && parsed == ParseSeq(t, body, Ctx(plural, false, name), [], "")
    ensures IsLetter(t[open + 1]) && r == CloseTag(t, open, name, parsed)
  {
    var end := body - 1;
    NameScans(t, open + 1, true, name, end);
    assert end + 1 == body;
  }

  lemma {:induction false} ClosingReads(t: string, open: nat, name: string, children: Message, close: nat)
    requires IsIdentifier(name) && ClosingAt(t, close, name)
    ensures CloseTag(t, open, name, Ok(children, close)) == Ok(Tag(name, children), close + 3 + |name|)
  {
    NameScans(t, close + 2, true, name, close + 2 + |name|);
  }

  lemma {:induction false} TagReads(t: string, open: nat, end: nat, plural: bool, name: string, children: Message, r: Parsed<Node>)
    requires IsIdentifier(name) && IsLetter(name[0]) && WellFormed(children, plural) && open < end <= |t|
    requires TagAs(t, open, end, name, children, plural) && r == ParseTag(t, open, plural)
    ensures open + 1 < |t| && IsLetter(t[open + 1]) && r == Ok(Tag(name, children), end)
    decreases children, |children| + 2
  {
    var body := open + 2 + |name|;
    var close: nat :| body <= close && end == close + 3 + |name| && ClosingAt(t, close, name)
                      && MessageAs(t, body, close, children, 0, plural);
    var parsed := ParseSeq(t, body, Ctx(plural, false, name), [], "");
    MessageReads(t, body, Ctx(plural, false, name), children, close, parsed);
    OpeningReads(t, open, plural, name, body, parsed, r);
    ClosingReads(t, open, name, children, close);
  }

  lemma {:induction false} PutBack(out: Message, m: Message, i: nat)
    requires i < |m|
    ensures (out + [m[i]]) + m[i + 1..] == out + m[i..]
  {
  }

  lemma {:induction false} FlushLiteral(out: Message, m: Message, i: nat)
    requires i < |m| && m[i].Literal? && m[i].text != ""
    ensures Flush(out, m[i].text) + m[i + 1..] == Flush(out, "") + m[i..]
  {
    PutBack(out, m, i);
  }

  /** A spelled message, followed by something its context stops at, parses to itself. */
  lemma {:induction false} MessageReads(t: string, pos: nat, c: Ctx, m: Message, end: nat, r: Parsed<Message>)
    requires pos <= end <= |t| && MessageAs(t, pos, end, m, 0, c.plural) && WellFormed(m, c.plural)
    requires StopsAt(t, end, c) && r == ParseSeq(t, pos, c, [], "")
    ensures r == Ok(m, end)
    decreases m, |m| + 1
  {
    SeqReads(t, pos, c, [], "", m, 0, end, r);
    assert Flush([], "") + m[0..] == m;
  }

  /** The same from node `i` on, whatever was collected before it. */
  lemma {:induction false} SeqReads(t: string, pos: nat, c: Ctx, out: Message, lit: string, m: Message, i: nat, end: nat,
                                    r: Parsed<Message>)
    requires i <= |m| && pos <= end <= |t| && MessageAs(t, pos, end, m, i, c.plural) && WellFormed(m, c.plural)
    requires StopsAt(t, end, c) && r == ParseSeq(t, pos, c, out, lit)
    requires lit != "" && i < |m| ==> !m[i].Literal?
    ensures r == Ok(Flush(out, lit) + m[i..], end)
    decreases m, |m| - i
  {
    if i == |m| {
      StopStep(t, end, c, out, lit, r);
      assert Flush(out, lit) + m[i..] == Flush(out, lit);
    } else {
      var mid: nat :| pos < mid <= end && NodeAs(t, pos, mid, m[i], c.plural) && MessageAs(t, mid, end, m, i + 1, c.plural);
      if m[i].Literal? {
        var rest := ParseSeq(t, mid, c, out, m[i].text);
        SeqReads(t, mid, c, out, m[i].text, m, i + 1, end, rest);
        LiteralReads(t, pos, mid, c, out, "", m[i].text, 0, r, rest);
        FlushLiteral(out, m, i);
      } else {
        var rest := ParseSeq(t, mid, c, Flush(out, lit) + [m[i]], "");
        SeqReads(t, mid, c, Flush(out, lit) + [m[i]], "", m, i + 1, end, rest);
        NodeReads(t, pos, c, out, lit, m[i], mid, r, rest);
        PutBack(Flush(out, lit), m, i);
      }
    }
  }

  /** Literal text moves the parser past it and joins the pending text. */
  lemma {:induction false} LiteralReads(t: string, pos: nat, end: nat, c: Ctx, out: Message, lit: string, text: string, i: nat,
                                        r: Parsed<Message>, rest: Parsed<Message>)
    requires pos <= end <= |t| && i <= |text| && LiteralAs(t, pos, end, text, i, c.plural) && lit == text[..i]
    requires r == ParseSeq(t, pos, c, out, lit) && rest == ParseSeq(t, end, c, out, text)
    ensures r == rest
    decreases end - pos
  {
    if pos == end {
      assert text[..i] == text;
    } else if t[pos] == '\'' && !CharAt(t, pos + 1, '\'') && pos + 1 < |t| && Special(t[pos + 1], c.plural) {
      var mid: nat, k: nat :| QuotationAs(t, pos, mid, end, text, i, k) && LiteralAs(t, mid, end, text, k, c.plural);
      QuotationStep(t, pos, mid, end, c, out, lit, text, i, k, r, ParseSeq(t, mid, c, out, text[..k]));
      LiteralReads(t, mid, end, c, out, text[..k], text, k, ParseSeq(t, mid, c, out, text[..k]), rest);
    } else {
      var next := if CharAt(t, pos, '\'') && CharAt(t, pos + 1, '\'') then pos + 2 else pos + 1;
      CharStep(t, pos, next, c, out, lit, text, i, r, ParseSeq(t, next, c, out, text[..i + 1]));
      LiteralReads(t, next, end, c, out, text[..i + 1], text, i + 1, ParseSeq(t, next, c, out, text[..i + 1]), rest);
    }
  }

  /** One character, or a doubled or lone apostrophe. */
  lemma {:induction false} CharStep(t: string, pos: nat, next: nat, c: Ctx, out: Message, lit: string, text: string, i: nat,
                                    r: Parsed<Message>, rest: Parsed<Message>)
    requires pos < next <= |t| && i < |text| && lit == text[..i] && text[i] == t[pos]
    requires if t[pos] != '\'' then StandsForItself(t, pos, c.plural) && next == pos + 1
             else if CharAt(t, pos + 1, '\'') then next == pos + 2
             else next == pos + 1 && (pos + 1 < |t| ==> !Special(t[pos + 1], c.plural))
    requires r == ParseSeq(t, pos, c, out, lit) && rest == ParseSeq(t, next, c, out, text[..i + 1])
    ensures r == rest
  {
    assert text[..i + 1] == lit + [t[pos]];
    assert t[pos] == '\'' ==> [t[pos]] == "'";
    assert t[pos] == '#' ==> [t[pos]] == "#";
  }

  lemma {:induction false} QuotationStep(t: string, pos: nat, mid: nat, end: nat, c: Ctx, out: Message, lit: string, text: string, i: nat,
                                         k: nat, r: Parsed<Message>, rest: Parsed<Message>)
    requires CharAt(t, pos, '\'') && !CharAt(t, pos + 1, '\'') && pos + 1 < |t| && Special(t[pos + 1], c.plural)
    requires QuotationAs(t, pos, mid, end, text, i, k) && lit == text[..i] && end <= |t|
    requires r == ParseSeq(t, pos, c, out, lit) && rest == ParseSeq(t, mid, c, out, text[..k])
    ensures r == rest
  {
    QuotedIs(t, pos + 1, mid, text, i, k);
    assert text[..k] == lit + text[i..k];
  }

  /** What stands in quotes is what the parser unquotes, in both directions. */
  lemma {:induction false} QuotedIs(t: string, pos: nat, end: nat, text: string, i: nat, k: nat)
    requires pos <= |t| && QuotedAs(t, pos, end, text, i, k)
    ensures Quoted(t, pos) == (text[i..k], end)
    decreases |t| - pos
  {
    if pos < |t| && i < k {
      assert text[i..k] == [text[i]] + text[i + 1..k];
      if t[pos] != '\'' {
        QuotedIs(t, pos + 1, end, text, i + 1, k);
      } else {
        QuotedIs(t, pos + 2, end, text, i + 1, k);
        assert [text[i]] == "'";
      }
    } else {
      assert text[i..k] == "";
    }
  }

  /** One node moves the parser past it. */
  lemma {:induction false} NodeReads(t: string, pos: nat, c: Ctx, out: Message, lit: string, n: Node, end: nat,
                                     r: Parsed<Message>, rest: Parsed<Message>)
    requires pos < end <= |t| && NodeAs(t, pos, end, n, c.plural) && NodeOk(n, c.plural) && !n.Literal?
    requires r == ParseSeq(t, pos, c, out, lit) && rest == ParseSeq(t, end, c, Flush(out, lit) + [n], "")
    ensures r == rest
    decreases n, 2
  {
    if n.Pound? {
      PoundStep(t, pos, c, out, lit, r, rest);
    } else if n.Tag? {
      TagNodeReads(t, pos, c.plural, n, end, ParseTag(t, pos, c.plural));
      TagStep(t, pos, c, out, lit, n, end, r, rest);
    } else {
      BraceNodeReads(t, pos, c.plural, n, end, ParseArgument(t, pos, c.plural));
      BraceStep(t, pos, c, out, lit, n, end, r, rest);
    }
  }

  lemma {:induction false} TagNodeReads(t: string, pos: nat, plural: bool, n: Node, end: nat, r: Parsed<Node>)
    requires n.Tag? && pos < end <= |t| && NodeAs(t, pos, end, n, plural) && NodeOk(n, plural) && r == ParseTag(t, pos, plural)
    ensures CharAt(t, pos, '<') && pos + 1 < |t| && IsLetter(t[pos + 1]) && r == Ok(n, end)
    decreases n, 0
  {
    TagReads(t, pos, end, plural, n.name, n.children, r);
  }

  lemma {:induction false} BraceNodeReads(t: string, pos: nat, plural: bool, n: Node, end: nat, r: Parsed<Node>)
    requires pos < end <= |t| && NodeAs(t, pos, end, n, plural) && NodeOk(n, plural) && (n.Argument? || n.Plural? || n.Select?)
    requires r == ParseArgument(t, pos, plural)
    ensures CharAt(t, pos, '{') && r == Ok(n, end)
    decreases n, 1
  {
    if n.Argument? {
      ArgumentReads(t, pos, end, plural, n, r);
    } else if n.Plural? {
      ChoiceReads(t, pos, end, plural, true, true, n.name, n.options, n, r);
    } else {
      ChoiceReads(t, pos, end, plural, false, plural, n.name, n.options, n, r);
    }
  }

  lemma {:induction false} StopStep(t: string, pos: nat, c: Ctx, out: Message, lit: string, r: Parsed<Message>)
    requires StopsAt(t, pos, c) && r == ParseSeq(t, pos, c, out, lit)
    ensures r == Ok(Flush(out, lit), pos)
  {
  }

  lemma {:induction false} BraceStep(t: string, pos: nat, c: Ctx, out: Message, lit: string, n: Node, end: nat,
                                     r: Parsed<Message>, rest: Parsed<Message>)
    requires CharAt(t, pos, '{') && ParseArgument(t, pos, c.plural) == Ok(n, end)
    requires r == ParseSeq(t, pos, c, out, lit) && rest == ParseSeq(t, end, c, Flush(out, lit) + [n], "")
    ensures r == rest
  {
  }

  lemma {:induction false} TagStep(t: string, pos: nat, c: Ctx, out: Message, lit: string, n: Node, end: nat,
                                   r: Parsed<Message>, rest: Parsed<Message>)
    requires CharAt(t, pos, '<') && pos + 1 < |t| && IsLetter(t[pos + 1]) && ParseTag(t, pos, c.plural) == Ok(n, end)
    requires r == ParseSeq(t, pos, c, out, lit) && rest == ParseSeq(t, end, c, Flush(out, lit) + [n], "")
    ensures r == rest
  {
  }

  lemma {:induction false} PoundStep(t: string, pos: nat, c: Ctx, out: Message, lit: string, r: Parsed<Message>, rest: Parsed<Message>)
    requires CharAt(t, pos, '#') && c.plural
    requires r == ParseSeq(t, pos, c, out, lit) && rest == ParseSeq(t, pos + 1, c, Flush(out, lit) + [Pound], "")
    ensures r == rest
  {
  }

  /** Every text that spells a well-formed message parses to it. */
  lemma {:induction false} SpelledParses(t: string, m: Message)
    requires WellFormed(m, false) && Spells(t, m)
    ensures Parse(t) == Success(m)
  {
    MessageReads(t, 0, TOP, m, |t|, ParseSeq(t, 0, TOP, [], ""));
  }

  // ---------------------------------------------------------------- what parses is spelled: words

  lemma {:induction false} SkipIsGap(t: string, a: nat)
    requires a <= |t|
    ensures Gap(t, a, SkipSpace(t, a))
  {
    SpanIsMaximal(t, a, IsSpace);
  }

  lemma {:induction false} SliceIsWord(t: string, a: nat, e: nat, word: string)
    requires a <= e <= |t| && word == t[a..e]
    ensures Reads(t, a, word) && e == a + |word|
  {
    SliceReads(t, a, e);
  }

  lemma {:induction false} KeySpells(t: string, pos: nat, isPlural: bool, key: string, e: nat)
    requires pos < |t| && ParseKey(t, pos, isPlural) == Ok(key, e)
    ensures pos < e <= |t| && Reads(t, pos, key) && e == pos + |key|
  {
    SliceIsWord(t, pos, e, key);
  }

  // ---------------------------------------------------------------- what parses is spelled: literal text

  lemma {:induction false} QuotedExtends(t: string, pos: nat, end: nat, text: string, all: string, i: nat, k: nat)
    requires pos <= |t| && QuotedAs(t, pos, end, text, i, k) && k <= |all| && forall x :: i <= x < k ==> all[x] == text[x]
    ensures QuotedAs(t, pos, end, all, i, k)
    decreases |t| - pos
  {
    if pos < |t| && i < k {
      QuotedExtends(t, if t[pos] != '\'' then pos + 1 else pos + 2, end, text, all, i + 1, k);
    }
  }

  /** Literal text followed by more of it. */
  lemma {:induction false} LiteralJoins(t: string, pos: nat, mid: nat, end: nat, text: string, all: string, i: nat, plural: bool)
    requires pos <= mid <= end <= |t| && i <= |text| <= |all| && (forall x :: 0 <= x < |text| ==> all[x] == text[x])
    requires LiteralAs(t, pos, mid, text, i, plural) && LiteralAs(t, mid, end, all, |text|, plural)
    ensures LiteralAs(t, pos, end, all, i, plural)
    decreases mid - pos
  {
    if pos < mid {
      if t[pos] == '\'' && !CharAt(t, pos + 1, '\'') && pos + 1 < |t| && Special(t[pos + 1], plural) {
        var next: nat, k: nat :| QuotationAs(t, pos, next, mid, text, i, k) && LiteralAs(t, next, mid, text, k, plural);
        QuotedExtends(t, pos + 1, next, text, all, i, k);
        LiteralJoins(t, next, mid, end, text, all, k, plural);
        assert QuotationAs(t, pos, next, end, all, i, k);
      } else if t[pos] == '\'' && CharAt(t, pos + 1, '\'') {
        LiteralJoins(t, pos + 2, mid, end, text, all, i + 1, plural);
      } else {
        LiteralJoins(t, pos + 1, mid, end, text, all, i + 1, plural);
      }
    }
  }

  lemma {:induction false} QuotedSpells(t: string, pos: nat, all: string, i: nat, k: nat)
    requires pos <= |t| && i <= k == i + |Quoted(t, pos).0| <= |all| && all[i..k] == Quoted(t, pos).0
    ensures QuotedAs(t, pos, Quoted(t, pos).1, all, i, k)
    decreases |t| - pos
  {
    if pos < |t| && (t[pos] != '\'' || CharAt(t, pos + 1, '\'')) {
      var next := if t[pos] != '\'' then pos + 1 else pos + 2;
      assert all[i..k][0] == all[i] && all[i..k][1..] == all[i + 1..k];
      var rest := Quoted(t, next);
      assert Quoted(t, pos).0[1..] == rest.0;
      QuotedSpells(t, next, all, i + 1, k);
    }
  }

  /** An apostrophe spells what the parser makes of it. */
  lemma {:induction false} ApostropheSpells(t: string, pos: nat, plural: bool, lit: string, all: string, next: nat)
    requires CharAt(t, pos, '\'') && all == lit + Apostrophe(t, pos, plural).0 && next == Apostrophe(t, pos, plural).1
    ensures pos < next <= |t| && LiteralAs(t, pos, next, all, |lit|, plural)
  {
    if !CharAt(t, pos + 1, '\'') && pos + 1 < |t| && Special(t[pos + 1], plural) {
      var q := Quoted(t, pos + 1);
      assert all[|lit|..|all|] == q.0;
      QuotedSpells(t, pos + 1, all, |lit|, |all|);
      assert q.0 != "";
      assert QuotationAs(t, pos, next, next, all, |lit|, |all|);
    } else {
      assert all[|lit|] == '\'' && |all| == |lit| + 1;
    }
  }

  lemma {:induction false} PlainSpells(t: string, pos: nat, plural: bool, lit: string, all: string)
    requires pos < |t| && StandsForItself(t, pos, plural) && all == lit + [t[pos]]
    ensures LiteralAs(t, pos, pos + 1, all, |lit|, plural)
  {
    assert all[|lit|] == t[pos] && LiteralAs(t, pos + 1, pos + 1, all, |lit| + 1, plural);
  }

  /** Pending text grows by what stands next. */
  lemma {:induction false} PendingGrows(t: string, ls: nat, pos: nat, next: nat, lit: string, all: string, plural: bool)
    requires ls <= pos < next <= |t| && |lit| <= |all| && lit == all[..|lit|]
    requires LiteralAs(t, ls, pos, lit, 0, plural) && LiteralAs(t, pos, next, all, |lit|, plural)
    ensures LiteralAs(t, ls, next, all, 0, plural)
  {
    LiteralJoins(t, ls, pos, next, lit, all, 0, plural);
  }

  lemma {:induction false} NothingIsEmpty(t: string, pos: nat, end: nat, text: string, i: nat, plural: bool)
    requires pos <= end <= |t| && i <= |text| && LiteralAs(t, pos, end, text, i, plural)
    ensures pos == end <==> i == |text|
  {
  }

  // ---------------------------------------------------------------- what parses is spelled: messages

  /** One more node after a spelled message. */
  lemma {:induction false} MessageGrows(t: string, pos: nat, mid: nat, end: nat, out: Message, n: Node, i: nat, plural: bool)
    requires pos <= mid < end <= |t| && i <= |out| && MessageAs(t, pos, mid, out, i, plural) && NodeAs(t, mid, end, n, plural)
    ensures MessageAs(t, pos, end, out + [n], i, plural)
    decreases |out| - i
  {
    var all := out + [n];
    if i == |out| {
      assert all[i] == n;
      assert MessageAs(t, end, end, all, i + 1, plural);
    } else {
      var next: nat :| pos < next <= mid && NodeAs(t, pos, next, out[i], plural) && MessageAs(t, next, mid, out, i + 1, plural);
      MessageGrows(t, next, mid, end, out, n, i + 1, plural);
      assert all[i] == out[i];
    }
  }

  lemma {:induction false} FlushSpells(t: string, start: nat, ls: nat, pos: nat, out: Message, lit: string, plural: bool)
    requires start <= ls <= pos <= |t| && MessageAs(t, start, ls, out, 0, plural) && LiteralAs(t, ls, pos, lit, 0, plural)
    ensures MessageAs(t, start, pos, Flush(out, lit), 0, plural)
  {
    NothingIsEmpty(t, ls, pos, lit, 0, plural);
    if lit != "" {
      MessageGrows(t, start, ls, pos, out, Literal(lit), 0, plural);
    }
  }

  lemma {:induction false} NodeFollows(t: string, start: nat, ls: nat, pos: nat, end: nat, out: Message, lit: string, n: Node, plural: bool)
    requires start <= ls <= pos < end <= |t| && MessageAs(t, start, ls, out, 0, plural) && LiteralAs(t, ls, pos, lit, 0, plural)
    requires NodeAs(t, pos, end, n, plural)
    ensures MessageAs(t, start, end, Flush(out, lit) + [n], 0, plural)
  {
    FlushSpells(t, start, ls, pos, out, lit, plural);
    MessageGrows(t, start, pos, end, Flush(out, lit), n, 0, plural);
  }

  /** What was collected, the pending text and what is parsed next spell the result. */
  lemma {:induction false} SeqSpells(t: string, start: nat, ls: nat, pos: nat, c: Ctx, out: Message, lit: string, r: Parsed<Message>)
    requires start <= ls <= pos <= |t| && MessageAs(t, start, ls, out, 0, c.plural) && LiteralAs(t, ls, pos, lit, 0, c.plural)
    requires r == ParseSeq(t, pos, c, out, lit) && r.Ok?
    ensures start <= r.pos <= |t| && MessageAs(t, start, r.pos, r.value, 0, c.plural)
    decreases |t| - pos, 9
  {
    if pos == |t| || t[pos] == '}' || (t[pos] == '<' && CharAt(t, pos + 1, '/')) {
      FlushSpells(t, start, ls, pos, out, lit, c.plural);
    } else if t[pos] == '\'' {
      var q := Apostrophe(t, pos, c.plural);
      ApostropheSpells(t, pos, c.plural, lit, lit + q.0, q.1);
      PendingGrows(t, ls, pos, q.1, lit, lit + q.0, c.plural);
      SeqSpells(t, start, ls, q.1, c, out, lit + q.0, r);
    } else if t[pos] == '{' {
      var a := ParseArgument(t, pos, c.plural);
      ArgumentSpells(t, pos, c.plural, a);
      AfterNode(t, start, ls, pos, c, out, lit, a.value, a.pos, r);
    } else if t[pos] == '#' && c.plural {
      AfterNode(t, start, ls, pos, c, out, lit, Pound, pos + 1, r);
    } else if t[pos] == '<' && pos + 1 < |t| && IsLetter(t[pos + 1]) {
      var n := ParseTag(t, pos, c.plural);
      TagSpells(t, pos, c.plural, n);
      AfterNode(t, start, ls, pos, c, out, lit, n.value, n.pos, r);
    } else {
      var all := lit + [t[pos]];
      PlainSpells(t, pos, c.plural, lit, all);
      PendingGrows(t, ls, pos, pos + 1, lit, all, c.plural);
      assert t[pos] == '#' ==> all == lit + "#";
      SeqSpells(t, start, ls, pos + 1, c, out, all, r);
    }
  }

  lemma {:induction false} AfterNode(t: string, start: nat, ls: nat, pos: nat, c: Ctx, out: Message, lit: string, n: Node, end: nat,
                                     r: Parsed<Message>)
    requires start <= ls <= pos < end <= |t| && MessageAs(t, start, ls, out, 0, c.plural) && LiteralAs(t, ls, pos, lit, 0, c.plural)
    requires NodeAs(t, pos, end, n, c.plural) && r == ParseSeq(t, end, c, Flush(out, lit) + [n], "") && r.Ok?
    ensures start <= r.pos <= |t| && MessageAs(t, start, r.pos, r.value, 0, c.plural)
    decreases |t| - pos, 8
  {
    NodeFollows(t, start, ls, pos, end, out, lit, n, c.plural);
    SeqSpells(t, start, end, end, c, Flush(out, lit) + [n], "", r);
  }

  /** A message parsed from nothing. */
  lemma {:induction false} MessageSpells(t: string, pos: nat, c: Ctx, r: Parsed<Message>)
    requires pos <= |t| && r == ParseSeq(t, pos, c, [], "") && r.Ok?
    ensures pos <= r.pos <= |t| && MessageAs(t, pos, r.pos, r.value, 0, c.plural) && StopsAt(t, r.pos, c)
    decreases |t| - pos, 10
  {
    SeqStops(t, pos, c, [], "", r);
    SeqSpells(t, pos, pos, pos, c, [], "", r);
  }

  lemma {:induction false} TagSpells(t: string, open: nat, plural: bool, r: Parsed<Node>)
    requires CharAt(t, open, '<') && r == ParseTag(t, open, plural) && r.Ok?
    ensures open < r.pos <= |t| && r.value.Tag? && NodeAs(t, open, r.pos, r.value, plural)
    decreases |t| - open, 7
  {
    var name, body := TagIs(t, open, plural, r);
    var parsed := ParseSeq(t, body, Ctx(plural, false, name), [], "");
    MessageSpells(t, body, Ctx(plural, false, name), parsed);
    ClosedIs(t, open, plural, name, parsed, r);
    TagSpelled(t, open, r.pos, name, parsed.value, plural, parsed.pos, r.value);
  }

  lemma {:induction false} TagIs(t: string, open: nat, plural: bool, r: Parsed<Node>) returns (name: string, body: nat)
    requires CharAt(t, open, '<') && r == ParseTag(t, open, plural) && r.Ok?
    ensures name != "" && OpeningAt(t, open, name) && body == open + 2 + |name| <= |t|
    ensures r == CloseTag(t, open, name, ParseSeq(t, body, Ctx(plural, false, name), [], "")) && ParseSeq(t, body, Ctx(plural, false, name), [], "").Ok?
  {
    var e := NameEnd(t, open + 1, true);
    name, body := t[open + 1..e], e + 1;
    SliceIsWord(t, open + 1, e, name);
  }

  lemma {:induction false} ClosedIs(t: string, open: nat, plural: bool, name: string, parsed: Parsed<Message>, r: Parsed<Node>)
    requires parsed.Ok? && parsed.pos <= |t| && name != "" && StopsAt(t, parsed.pos, Ctx(plural, false, name))
    requires r == CloseTag(t, open, name, parsed) && r.Ok?
    ensures ClosingAt(t, parsed.pos, name) && r.pos == parsed.pos + 3 + |name| <= |t| && r.value == Tag(name, parsed.value)
  {
    SliceIsWord(t, parsed.pos + 2, NameEnd(t, parsed.pos + 2, true), name);
  }

  lemma {:induction false} TagSpelled(t: string, open: nat, end: nat, name: string, children: Message, plural: bool, close: nat, n: Node)
    requires OpeningAt(t, open, name) && open + 2 + |name| <= close && end == close + 3 + |name| <= |t| && ClosingAt(t, close, name)
    requires MessageAs(t, open + 2 + |name|, close, children, 0, plural) && n == Tag(name, children)
    ensures NodeAs(t, open, end, n, plural)
  {
    assert TagAs(t, open, end, name, children, plural);
  }

  // ---------------------------------------------------------------- what parses is spelled: placeholders

  predicate IsBrace(n: Node) { n.Argument? || n.Plural? || n.Select? }

  lemma {:induction false} ArgumentSpells(t: string, open: nat, plural: bool, r: Parsed<Node>)
    requires CharAt(t, open, '{') && r == ParseArgument(t, open, plural) && r.Ok?
    ensures open < r.pos <= |t| && IsBrace(r.value) && NodeAs(t, open, r.pos, r.value, plural)
    decreases |t| - open, 7
  {
    var a := SkipSpace(t, open + 1);
    var e := NameEnd(t, a, false);
    var name := t[a..e];
    SkipIsGap(t, open + 1);
    SliceIsWord(t, a, e, name);
    var c := NamedSpells(t, e, open, plural, name, r);
    BraceSpelled(t, open, r.pos, r.value, plural, a, c);
  }

  lemma {:induction false} BraceSpelled(t: string, open: nat, end: nat, n: Node, plural: bool, a: nat, c: nat)
    requires open < end <= |t| && IsBrace(n) && t[open] == '{' && Spaced(t, open, a, n.name, c) && c < end && NamedAs(t, c, end, n, plural)
    ensures NodeAs(t, open, end, n, plural)
  {
    assert BraceAs(t, open, end, n, plural);
  }

  lemma {:induction false} NamedSpells(t: string, e: nat, open: nat, plural: bool, name: string, r: Parsed<Node>) returns (c: nat)
    requires open < e <= |t| && r == ParseNamed(t, e, open, plural, name) && r.Ok?
    ensures Gap(t, e, c) && c < r.pos <= |t| && IsBrace(r.value) && r.value.name == name && NamedAs(t, c, r.pos, r.value, plural)
    decreases |t| - e, 7
  {
    c := SkipSpace(t, e);
    SkipIsGap(t, e);
    if t[c] == ',' {
      TypedSpells(t, c, open, plural, name, r);
    }
  }

  lemma {:induction false} TypedSpells(t: string, comma: nat, open: nat, plural: bool, name: string, r: Parsed<Node>)
    requires open < comma && CharAt(t, comma, ',') && r == ParseTyped(t, comma + 1, open, plural, name) && r.Ok?
    ensures comma < r.pos <= |t| && IsBrace(r.value) && r.value.name == name && NamedAs(t, comma, r.pos, r.value, plural)
    decreases |t| - comma, 6
  {
    var a, word, c := TypedIs(t, comma, open, plural, name, r);
    KeywordSpells(t, c, open, plural, name, a, word, r);
    NamedSpelled(t, comma, r.pos, r.value, plural, a, c);
  }

  lemma {:induction false} TypedIs(t: string, comma: nat, open: nat, plural: bool, name: string, r: Parsed<Node>)
    returns (a: nat, word: string, c: nat)
    requires open < comma && CharAt(t, comma, ',') && r == ParseTyped(t, comma + 1, open, plural, name) && r.Ok?
    ensures Spaced(t, comma, a, word, c) && comma < c < |t| && r == ParseKeyword(t, c, open, plural, name, a, word)
  {
    a := SkipSpace(t, comma + 1);
    var e := Span(t, a, IsLetter);
    word := t[a..e];
    c := SkipSpace(t, e);
    SkipIsGap(t, comma + 1);
    SkipIsGap(t, e);
    SliceIsWord(t, a, e, word);
  }

  lemma {:induction false} NamedSpelled(t: string, comma: nat, end: nat, n: Node, plural: bool, a: nat, c: nat)
    requires comma < end <= |t| && IsBrace(n) && t[comma] == ',' && Spaced(t, comma, a, TypeOf(n), c) && c < end
    requires (n.Argument? ==> n.format != "") && TypedAs(t, c, end, n, plural)
    ensures NamedAs(t, comma, end, n, plural)
  {
  }

  lemma {:induction false} KeywordSpells(t: string, c: nat, open: nat, plural: bool, name: string, a: nat, word: string, r: Parsed<Node>)
    requires open < c < |t| && r == ParseKeyword(t, c, open, plural, name, a, word) && r.Ok?
    ensures c < r.pos <= |t| && IsBrace(r.value) && r.value.name == name && TypeOf(r.value) == word
    ensures (r.value.Argument? ==> r.value.format != "") && TypedAs(t, c, r.pos, r.value, plural)
    decreases |t| - c, 5
  {
    if KeywordOf(word).FormatKeyword? {
      FormatIsWord(word);
      StyleSpells(t, c, open, name, word, plural, r);
    } else {
      ChoiceWordIs(word);
      ChoiceSpells(t, c, open, plural, name, KeywordOf(word).isPlural, r);
    }
  }

  lemma {:induction false} ChoiceWordIs(word: string)
    requires KeywordOf(word).ChoiceKeyword?
    ensures word == if KeywordOf(word).isPlural then "plural" else "select"
  {
  }

  lemma {:induction false} StyleSpells(t: string, c: nat, open: nat, name: string, format: string, plural: bool, r: Parsed<Node>)
    requires c < |t| && r == ParseStyle(t, c, open, name, format) && r.Ok?
    ensures c < r.pos <= |t| && r.value.Argument? && r.value.name == name && r.value.format == format
    ensures TypedAs(t, c, r.pos, r.value, plural)
  {
    if t[c] == ',' {
      SpanIsMaximal(t, c + 1, IsNotBrace);
    }
  }

  lemma {:induction false} ChoiceSpells(t: string, c: nat, open: nat, plural: bool, name: string, isPlural: bool, r: Parsed<Node>)
    requires open < c < |t| && r == ParseChoice(t, c, open, plural, name, isPlural) && r.Ok?
    ensures c < r.pos <= |t| && (r.value.Plural? || r.value.Select?) && (r.value.Plural? <==> isPlural) && r.value.name == name
    ensures TypedAs(t, c, r.pos, r.value, plural)
    decreases |t| - c, 4
  {
    var inner := plural || isPlural;
    OptionsSpell(t, c + 1, open, plural, isPlural, inner, [], ParseOptions(t, c + 1, open, plural, isPlural, []));
  }

  predicate IsPrefixOf(done: seq<Branch>, options: seq<Branch>) { |done| <= |options| && options[..|done|] == done }

  lemma {:induction false} OptionsSpell(t: string, pos: nat, open: nat, plural: bool, isPlural: bool, inner: bool, done: seq<Branch>,
                                        r: Parsed<seq<Branch>>)
    requires pos <= |t| && inner == (plural || isPlural) && r == ParseOptions(t, pos, open, plural, isPlural, done) && r.Ok?
    ensures pos < r.pos <= |t| && IsPrefixOf(done, r.value) && OptionsAs(t, pos, r.pos, r.value, |done|, inner)
    decreases |t| - pos, 3
  {
    var a := SkipSpace(t, pos);
    SkipIsGap(t, pos);
    if t[a] == '}' {
      assert OptionsFrom(t, a, r.pos, r.value, |done|, inner);
    } else {
      var option := ParseOption(t, a, open, plural, isPlural, Keys(done));
      OptionSpells(t, a, open, plural, isPlural, inner, Keys(done), option);
      var more := done + [option.value];
      OptionsSpell(t, option.pos, open, plural, isPlural, inner, more, r);
      assert r.value[|done|] == more[|done|] == option.value && r.value[..|done|] == more[..|done|] == done;
      assert OptionsFrom(t, a, r.pos, r.value, |done|, inner);
    }
  }

  lemma {:induction false} OptionSpells(t: string, pos: nat, open: nat, plural: bool, isPlural: bool, inner: bool, seen: set<string>,
                                        r: Parsed<Branch>)
    requires pos < |t| && inner == (plural || isPlural) && r == ParseOption(t, pos, open, plural, isPlural, seen) && r.Ok?
    ensures pos < r.pos <= |t| && OptionAs(t, pos, r.pos, r.value, inner)
    decreases |t| - pos, 2
  {
    var key := ParseKey(t, pos, isPlural);
    KeySpells(t, pos, isPlural, key.value, key.pos);
    var brace := SkipSpace(t, key.pos);
    SkipIsGap(t, key.pos);
    var c := Ctx(inner, true, "");
    var value := ParseSeq(t, brace + 1, c, [], "");
    MessageSpells(t, brace + 1, c, value);
    assert t[value.pos] == '}' && r.pos - 1 == value.pos;
  }

  // ---------------------------------------------------------------- the main result

  /** A text parses to a message exactly when the message is well formed and the text spells it. */
  lemma {:induction false} ParsesExactly(t: string, m: Message)
    ensures Parse(t) == Success(m) <==> WellFormed(m, false) && Spells(t, m)
  {
    if Parse(t) == Success(m) {
      ParseIsWellFormed(t);
      MessageSpells(t, 0, TOP, ParseSeq(t, 0, TOP, [], ""));
    }
    if WellFormed(m, false) && Spells(t, m) {
      SpelledParses(t, m);
    }
  }
}
