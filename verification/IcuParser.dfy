/**
 The ICU MessageFormat parser of i18n/icu. A Go string is a `string` with one
 char per byte; except for the white space around a style, the parser only compares
 bytes with ASCII characters.

 The functions give the meaning of each parsing routine as a value: the parsed
 thing and the cursor after it, or the syntax error.
 */
module IcuParser {
  import opened Wrappers

  datatype Node =
    | Literal(text: string)
    | Argument(name: string, format: string, style: string)
    | Plural(name: string, options: seq<Branch>)
    | Select(name: string, options: seq<Branch>)
    | Pound
    | Tag(name: string, children: seq<Node>)

  datatype Branch = Branch(key: string, value: seq<Node>)

  type Message = seq<Node>

  datatype Fault =
    | UnmatchedBrace
    | StrayClosingTag
    | ExpectedArgumentName
    | Unterminated
    | ExpectedCommaOrBrace
    | ExpectedComma
    | ExpectedType
    | UnknownType(word: string)
    | DuplicateKey(key: string)
    | ExpectedBrace
    | MissingOther
    | ExpectedSelectKey
    | ExpectedDigits
    | OffsetUnsupported
    | ExpectedPluralKey
    | UnknownPluralKey(word: string)
    | InvalidTagName
    | TagAttributes
    | MissingClosingTag
    | InvalidClosingTag
    | MismatchedClosingTag

  datatype SyntaxError = SyntaxError(offset: nat, fault: Fault)

  /** What a routine leaves behind: a value and the cursor after it, or an error. */
  datatype Parsed<T> = Ok(value: T, pos: nat) | Err(error: SyntaxError)

  /** The lexical context: `#` is a pound sign, `}` ends an option, `</` ends the tag (empty: no tag). */
  datatype Ctx = Ctx(plural: bool, option: bool, tag: string)

  const TOP := Ctx(false, false, "")

  // ---------------------------------------------------------------- characters

  predicate IsLetter(c: char) { 'a' <= c <= 'z' || 'A' <= c <= 'Z' }

  predicate IsDigit(c: char) { '0' <= c <= '9' }

  predicate IsSpace(c: char) { c == ' ' || c == '\t' || c == '\n' || c == '\r' }

  predicate IsNameChar(c: char) { IsLetter(c) || IsDigit(c) || c == '_' }

  predicate IsDashedNameChar(c: char) { IsNameChar(c) || c == '-' }

  predicate IsNotBrace(c: char) { c != '}' }

  /** The end of the longest run, from `pos`, of characters satisfying `p`. */
  function Span(s: string, pos: nat, p: char -> bool): (end: nat)
    requires pos <= |s|
    ensures pos <= end <= |s|
    decreases |s| - pos
  {
    if pos < |s| && p(s[pos]) then Span(s, pos + 1, p) else pos
  }

  lemma {:induction false} SpanIsMaximal(s: string, pos: nat, p: char -> bool)
    requires pos <= |s|
    ensures var end := Span(s, pos, p);
            (forall i :: pos <= i < end ==> p(s[i])) && (end < |s| ==> !p(s[end]))
    decreases |s| - pos
  {
    if pos < |s| && p(s[pos]) {
      SpanIsMaximal(s, pos + 1, p);
    }
  }

  function SkipSpace(s: string, pos: nat): (end: nat)
    requires pos <= |s|
    ensures pos <= end <= |s|
  {
    Span(s, pos, IsSpace)
  }

  predicate IsNameStart(c: char) { IsLetter(c) || c == '_' }

  function NameChar(dashes: bool): char -> bool {
    if dashes then IsDashedNameChar else IsNameChar
  }

  /** The cursor after an identifier at `pos`, or `pos` itself when there is none. */
  function NameEnd(s: string, pos: nat, dashes: bool): (end: nat)
    requires pos <= |s|
    ensures pos <= end <= |s|
    ensures end > pos <==> pos < |s| && IsNameStart(s[pos])
  {
    if pos < |s| && IsNameStart(s[pos]) then Span(s, pos + 1, NameChar(dashes)) else pos
  }

  // ---------------------------------------------------------------- white space in UTF-8

  predicate IsBlank(c: char) { IsSpace(c) || c as int == 0x0B || c as int == 0x0C }

  /** U+0085 and U+00A0. */
  predicate IsBlank2(a: char, b: char) { a as int == 0xC2 && (b as int == 0x85 || b as int == 0xA0) }

  /** U+1680, U+2000 to U+200A, U+2028, U+2029, U+202F, U+205F and U+3000. */
  predicate IsBlank3(a: char, b: char, c: char) {
    || (a as int == 0xE1 && b as int == 0x9A && c as int == 0x80)
    || (a as int == 0xE2 && b as int == 0x80
        && (0x80 <= c as int <= 0x8A || c as int == 0xA8 || c as int == 0xA9 || c as int == 0xAF))
    || (a as int == 0xE2 && b as int == 0x81 && c as int == 0x9F)
    || (a as int == 0xE3 && b as int == 0x80 && c as int == 0x80)
  }

  /** How many bytes the white space character at `i` takes; 0 when there is none. */
  function BlankAt(s: string, i: nat): (n: nat)
    requires i <= |s|
    ensures i + n <= |s|
  {
    if i + 1 <= |s| && IsBlank(s[i]) then 1
    else if i + 2 <= |s| && IsBlank2(s[i], s[i + 1]) then 2
    else if i + 3 <= |s| && IsBlank3(s[i], s[i + 1], s[i + 2]) then 3
    else 0
  }

  /** The same for the one that ends at `j`, looking back no further than `i`. */
  function BlankBefore(s: string, i: nat, j: nat): (n: nat)
    requires i <= j <= |s|
    ensures i + n <= j
  {
    if i + 1 <= j && IsBlank(s[j - 1]) then 1
    else if i + 2 <= j && IsBlank2(s[j - 2], s[j - 1]) then 2
    else if i + 3 <= j && IsBlank3(s[j - 3], s[j - 2], s[j - 1]) then 3
    else 0
  }

  function TrimStart(s: string, i: nat): (start: nat)
    requires i <= |s|
    ensures i <= start <= |s|
    decreases |s| - i
  {
    var n := BlankAt(s, i);
    if n == 0 then i else TrimStart(s, i + n)
  }

  function TrimEnd(s: string, i: nat, j: nat): (end: nat)
    requires i <= j <= |s|
    ensures i <= end <= j
    decreases j
  {
    var n := BlankBefore(s, i, j);
    if n == 0 then j else TrimEnd(s, i, j - n)
  }

  /** strings.TrimSpace. */
  function TrimSpace(s: string): string {
    var start := TrimStart(s, 0);
    s[start..TrimEnd(s, start, |s|)]
  }

  // ---------------------------------------------------------------- apostrophes

  /** Quoted text from `pos` (after the opening quote): its unescaped text and the cursor after it. */
  function Quoted(s: string, pos: nat): (r: (string, nat))
    requires pos <= |s|
    ensures pos <= r.1 <= |s|
    decreases |s| - pos
  {
    if pos == |s| then ("", pos)
    else if s[pos] == '\'' then
      if pos + 1 < |s| && s[pos + 1] == '\'' then
        var rest := Quoted(s, pos + 2);
        ("'" + rest.0, rest.1)
      else ("", pos + 1)
    else
      var rest := Quoted(s, pos + 1);
      ([s[pos]] + rest.0, rest.1)
  }

  predicate OpensQuote(next: char, plural: bool) {
    next == '{' || next == '}' || next == '<' || next == '|' || (next == '#' && plural)
  }

  /** An apostrophe at `pos`: the literal text it stands for and the cursor after it. */
  function Apostrophe(s: string, pos: nat, plural: bool): (r: (string, nat))
    requires pos < |s| && s[pos] == '\''
    ensures pos < r.1 <= |s|
  {
    if pos + 1 < |s| && s[pos + 1] == '\'' then ("'", pos + 2)
    else if pos + 1 < |s| && OpensQuote(s[pos + 1], plural) then Quoted(s, pos + 1)
    else ("'", pos + 1)
  }

  // ---------------------------------------------------------------- messages

  function Flush(out: Message, lit: string): Message {
    if lit != "" then out + [Literal(lit)] else out
  }

  function ParseSeq(s: string, pos: nat, c: Ctx, out: Message, lit: string): (r: Parsed<Message>)
    requires pos <= |s|
    ensures r.Ok? ==> pos <= r.pos <= |s|
    decreases |s| - pos, 2
  {
    if pos == |s| then Ok(Flush(out, lit), pos)
    else if s[pos] == '\'' then
      var q := Apostrophe(s, pos, c.plural);
      ParseSeq(s, q.1, c, out, lit + q.0)
    else if s[pos] == '{' then
      match ParseArgument(s, pos, c.plural)
      case Err(e) => Err(e)
      case Ok(n, p) => ParseSeq(s, p, c, Flush(out, lit) + [n], "")
    else if s[pos] == '}' then
      if c.option then Ok(Flush(out, lit), pos) else Err(SyntaxError(pos, UnmatchedBrace))
    else if s[pos] == '#' then
      if c.plural then ParseSeq(s, pos + 1, c, Flush(out, lit) + [Pound], "")
      else ParseSeq(s, pos + 1, c, out, lit + "#")
    else if s[pos] == '<' && pos + 1 < |s| && s[pos + 1] == '/' then
      if c.tag != "" then Ok(Flush(out, lit), pos) else Err(SyntaxError(pos, StrayClosingTag))
    else if s[pos] == '<' && pos + 1 < |s| && IsLetter(s[pos + 1]) then
      match ParseTag(s, pos, c.plural)
      case Err(e) => Err(e)
      case Ok(n, p) => ParseSeq(s, p, c, Flush(out, lit) + [n], "")
    else ParseSeq(s, pos + 1, c, out, lit + [s[pos]])
  }

  function ParseArgument(s: string, open: nat, plural: bool): (r: Parsed<Node>)
    requires open < |s|
    ensures r.Ok? ==> open < r.pos <= |s|
    decreases |s| - open, 1
  {
    var start := SkipSpace(s, open + 1);
    var end := NameEnd(s, start, false);
    if end == start then Err(SyntaxError(start, ExpectedArgumentName))
    else ParseNamed(s, end, open, plural, s[start..end])
  }

  /** What follows the name of an argument, at `pos`. */
  function ParseNamed(s: string, pos: nat, open: nat, plural: bool, name: string): (r: Parsed<Node>)
    requires open < pos <= |s|
    ensures r.Ok? ==> pos < r.pos <= |s|
    decreases |s| - pos, 1
  {
    var after := SkipSpace(s, pos);
    if after == |s| then Err(SyntaxError(open, Unterminated))
    else if s[after] == '}' then Ok(Argument(name, "", ""), after + 1)
    else if s[after] != ',' then Err(SyntaxError(after, ExpectedCommaOrBrace))
    else ParseTyped(s, after + 1, open, plural, name)
  }

  /** The type keyword of an argument, at `pos` after its comma, and what follows it. */
  function ParseTyped(s: string, pos: nat, open: nat, plural: bool, name: string): (r: Parsed<Node>)
    requires open < pos <= |s|
    ensures r.Ok? ==> pos < r.pos <= |s|
    decreases |s| - pos, 3
  {
    var typOff := SkipSpace(s, pos);
    var typEnd := Span(s, typOff, IsLetter);
    var typ := s[typOff..typEnd];
    var p := SkipSpace(s, typEnd);
    if p == |s| then Err(SyntaxError(open, Unterminated)) else ParseKeyword(s, p, open, plural, name, typOff, typ)
  }

  /** What follows the keyword `typ`, which stood at `typOff`. */
  function ParseKeyword(s: string, pos: nat, open: nat, plural: bool, name: string, typOff: nat, typ: string): (r: Parsed<Node>)
    requires open < pos < |s|
    ensures r.Ok? ==> pos < r.pos <= |s|
    decreases |s| - pos, 2
  {
    match KeywordOf(typ)
    case FormatKeyword => ParseStyle(s, pos, open, name, typ)
    case ChoiceKeyword(isPlural) => ParseChoice(s, pos, open, plural, name, isPlural)
    case NoKeyword => Err(SyntaxError(typOff, ExpectedType))
    case OtherKeyword => Err(SyntaxError(typOff, UnknownType(typ)))
  }

  datatype Keyword = FormatKeyword | ChoiceKeyword(isPlural: bool) | NoKeyword | OtherKeyword

  const KEYWORDS: map<string, Keyword> := map[
    "number" := FormatKeyword, "date" := FormatKeyword, "time" := FormatKeyword,
    "plural" := ChoiceKeyword(true), "select" := ChoiceKeyword(false), "" := NoKeyword]

  function KeywordOf(word: string): Keyword { if word in KEYWORDS then KEYWORDS[word] else OtherKeyword }

  function ParseStyle(s: string, pos: nat, open: nat, name: string, format: string): (r: Parsed<Node>)
    requires pos < |s|
    ensures r.Ok? ==> pos < r.pos <= |s|
  {
    if s[pos] == '}' then Ok(Argument(name, format, ""), pos + 1)
    else if s[pos] != ',' then Err(SyntaxError(pos, ExpectedCommaOrBrace)) else
    var end := Span(s, pos + 1, IsNotBrace);
    if end == |s| then Err(SyntaxError(open, Unterminated))
    else Ok(Argument(name, format, TrimSpace(s[pos + 1..end])), end + 1)
  }

  function ParseChoice(s: string, pos: nat, open: nat, plural: bool, name: string, isPlural: bool)
    : (r: Parsed<Node>)
    requires open < pos < |s|
    ensures r.Ok? ==> pos < r.pos <= |s|
    decreases |s| - pos, 1
  {
    if s[pos] != ',' then Err(SyntaxError(pos, ExpectedComma)) else
    match ParseOptions(s, pos + 1, open, plural, isPlural, [])
    case Err(e) => Err(e)
    case Ok(options, p) =>
      if "other" in Keys(options) then Ok(if isPlural then Plural(name, options) else Select(name, options), p)
      else Err(SyntaxError(open, MissingOther))
  }

  function Keys(options: seq<Branch>): (keys: set<string>)
    ensures forall i :: 0 <= i < |options| ==> options[i].key in keys
    ensures forall k :: k in keys ==> exists i :: 0 <= i < |options| && options[i].key == k
  {
    set i | 0 <= i < |options| :: options[i].key
  }

  lemma {:induction false} KeysGrow(done: seq<Branch>, option: Branch)
    ensures Keys(done + [option]) == Keys(done) + {option.key}
  {
    var all := done + [option];
    assert all[|done|] == option;
    forall k | k in Keys(done)
      ensures k in Keys(all)
    {
      var i :| 0 <= i < |done| && done[i].key == k;
      assert all[i] == done[i];
    }
  }

  /** The option list from `pos` up to and including its closing brace, after the options in `done`. */
  function ParseOptions(s: string, pos: nat, open: nat, plural: bool, isPlural: bool, done: seq<Branch>)
    : (r: Parsed<seq<Branch>>)
    requires pos <= |s|
    ensures r.Ok? ==> pos < r.pos <= |s|
    decreases |s| - pos, 4
  {
    var keyOff := SkipSpace(s, pos);
    if keyOff == |s| then Err(SyntaxError(open, Unterminated))
    else if s[keyOff] == '}' then Ok(done, keyOff + 1) else
    match ParseOption(s, keyOff, open, plural, isPlural, Keys(done))
    case Err(e) => Err(e)
    case Ok(option, p) => ParseOptions(s, p, open, plural, isPlural, done + [option])
  }

  /** One option, whose key starts at `keyOff` and must not be in `seen`. */
  function ParseOption(s: string, keyOff: nat, open: nat, plural: bool, isPlural: bool, seen: set<string>)
    : (r: Parsed<Branch>)
    requires keyOff < |s|
    ensures r.Ok? ==> keyOff < r.pos <= |s| && r.value.key !in seen
    decreases |s| - keyOff, 3
  {
    match ParseKey(s, keyOff, isPlural)
    case Err(e) => Err(e)
    case Ok(key, keyEnd) =>
      if key in seen then Err(SyntaxError(keyOff, DuplicateKey(key))) else
      var brace := SkipSpace(s, keyEnd);
      if brace == |s| then Err(SyntaxError(open, Unterminated))
      else if s[brace] != '{' then Err(SyntaxError(brace, ExpectedBrace)) else
      match ParseSeq(s, brace + 1, Ctx(plural || isPlural, true, ""), [], "")
      case Err(e) => Err(e)
      case Ok(value, p) =>
        if p == |s| then Err(SyntaxError(open, Unterminated))
        else Ok(Branch(key, value), p + 1)
  }

  datatype PluralWord = CategoryWord | OffsetWord | NoWord | OtherWord

  function PluralWordOf(word: string): PluralWord {
    if word == "offset" then OffsetWord
    else if word == "zero" || word == "one" || word == "two" || word == "few" || word == "many" || word == "other"
      then CategoryWord
    else if word == "" then NoWord
    else OtherWord
  }

  function ParseKey(s: string, pos: nat, isPlural: bool): (r: Parsed<string>)
    requires pos < |s|
    ensures r.Ok? ==> pos < r.pos <= |s|
  {
    if !isPlural then
      var end := NameEnd(s, pos, true);
      if end == pos then Err(SyntaxError(pos, ExpectedSelectKey)) else Ok(s[pos..end], end)
    else if s[pos] == '=' then
      var end := Span(s, pos + 1, IsDigit);
      if end == pos + 1 then Err(SyntaxError(pos, ExpectedDigits)) else Ok(s[pos..end], end)
    else
      var end := Span(s, pos, IsLetter);
      var word := s[pos..end];
      match PluralWordOf(word)
      case CategoryWord => Ok(word, end)
      case OffsetWord => Err(SyntaxError(pos, OffsetUnsupported))
      case NoWord => Err(SyntaxError(pos, ExpectedPluralKey))
      case OtherWord => Err(SyntaxError(pos, UnknownPluralKey(word)))
  }

  function ParseTag(s: string, open: nat, plural: bool): (r: Parsed<Node>)
    requires open < |s|
    ensures r.Ok? ==> open < r.pos <= |s|
    decreases |s| - open, 1
  {
    var end := NameEnd(s, open + 1, true);
    var name := s[open + 1..end];
    if name == "" || !IsLetter(name[0]) then Err(SyntaxError(open, InvalidTagName))
    else if end == |s| || s[end] != '>' then Err(SyntaxError(end, TagAttributes)) else
    CloseTag(s, open, name, ParseSeq(s, end + 1, Ctx(plural, false, name), [], ""))
  }

  /** The closing tag after a body; a cursor past the end reads as the end. */
  function CloseTag(s: string, open: nat, name: string, parsed: Parsed<Message>): (r: Parsed<Node>)
    requires parsed.Ok? ==> parsed.pos <= |s|
    ensures r.Ok? ==> parsed.Ok? && parsed.pos < r.pos <= |s|
  {
    match parsed
    case Err(e) => Err(e)
    case Ok(body, close) =>
      if close == |s| then Err(SyntaxError(open, MissingClosingTag))
      else if close + 1 == |s| then Err(SyntaxError(close, InvalidClosingTag)) else
      var closeEnd := NameEnd(s, close + 2, true);
      if closeEnd == |s| || s[closeEnd] != '>' then Err(SyntaxError(close, InvalidClosingTag))
      else if s[close + 2..closeEnd] != name then Err(SyntaxError(close, MismatchedClosingTag))
      else Ok(Tag(name, body), closeEnd + 1)
  }

  /** The whole of i18n/icu Parse: the message, or the first syntax error. */
  function Parse(s: string): (r: Result<Message, SyntaxError>) {
    match ParseSeq(s, 0, TOP, [], "")
    case Err(e) => Failure(e)
    case Ok(m, p) => if p < |s| then Failure(SyntaxError(p, UnmatchedBrace)) else Success(m)
  }
}
