/**
 The grammar of ICU messages as i18n/icu reads them: when a stretch of text spells a
 message. White space (space, tab, line feed, carriage return) may stand after `{`,
 around names and keywords, after commas, around option keys and before `}`; literal
 text may be written plainly, with doubled apostrophes or in quotes.
 */
module IcuGrammar {
  import opened IcuParser

  // ---------------------------------------------------------------- reading a word

  /** The text of `t` at `pos` starts with `x`. */
  predicate Reads(t: string, pos: nat, x: string) {
    pos + |x| <= |t| && ReadsFirst(t, pos, x, |x|)
  }

  // That the first `n` characters agree is spread over three predicates, so that
  // the verifier compares characters only where a lemma below unfolds them.

  predicate ReadsFirst(t: string, pos: nat, x: string, n: nat)
    requires n <= |x| && pos + |x| <= |t|
    decreases n, 0
  {
    n == 0 || ReadsUpTo(t, pos, x, n - 1)
  }

  predicate ReadsUpTo(t: string, pos: nat, x: string, i: nat)
    requires i < |x| && pos + |x| <= |t|
    decreases i, 2
  {
    ReadsNext(t, pos, x, i)
  }

  predicate ReadsNext(t: string, pos: nat, x: string, i: nat)
    requires i < |x| && pos + |x| <= |t|
    decreases i, 1
  {
    ReadsFirst(t, pos, x, i) && t[pos + i] == x[i]
  }

  lemma {:induction false} ReadsStep(t: string, pos: nat, x: string, i: nat)
    requires i < |x| && pos + |x| <= |t|
    ensures ReadsFirst(t, pos, x, i + 1) <==> ReadsFirst(t, pos, x, i) && t[pos + i] == x[i]
  {
    assert ReadsUpTo(t, pos, x, i) <==> ReadsNext(t, pos, x, i);
  }

  lemma {:induction false} ReadsFirstAt(t: string, pos: nat, x: string, n: nat, i: nat)
    requires i < n <= |x| && pos + |x| <= |t| && ReadsFirst(t, pos, x, n)
    ensures t[pos + i] == x[i]
    decreases n
  {
    ReadsStep(t, pos, x, n - 1);
    if i < n - 1 {
      ReadsFirstAt(t, pos, x, n - 1, i);
    }
  }

  lemma {:induction false} ReadsAt(t: string, pos: nat, x: string, i: nat)
    requires i < |x| && Reads(t, pos, x)
    ensures pos + i < |t| && t[pos + i] == x[i]
  {
    ReadsFirstAt(t, pos, x, |x|, i);
  }

  lemma {:induction false} AgreesReads(t: string, pos: nat, x: string, n: nat)
    requires n <= |x| && pos + |x| <= |t| && forall i :: 0 <= i < n ==> t[pos + i] == x[i]
    ensures ReadsFirst(t, pos, x, n)
    decreases n
  {
    if n > 0 {
      AgreesReads(t, pos, x, n - 1);
      ReadsStep(t, pos, x, n - 1);
    }
  }

  lemma {:induction false} ReadsIsSlice(t: string, pos: nat, x: string)
    requires Reads(t, pos, x)
    ensures t[pos..pos + |x|] == x
  {
    forall i | 0 <= i < |x|
      ensures t[pos + i] == x[i]
    {
      ReadsAt(t, pos, x, i);
    }
  }

  lemma {:induction false} SliceReads(t: string, pos: nat, end: nat)
    requires pos <= end <= |t|
    ensures Reads(t, pos, t[pos..end])
  {
    AgreesReads(t, pos, t[pos..end], end - pos);
  }

  lemma {:induction false} ReadsItself(t: string)
    ensures Reads(t, 0, t)
  {
    AgreesReads(t, 0, t, |t|);
  }

  lemma {:induction false} SplitReads(t: string, pos: nat, a: string, b: string)
    requires Reads(t, pos, a + b)
    ensures Reads(t, pos, a) && Reads(t, pos + |a|, b)
  {
    forall i | 0 <= i < |a|
      ensures t[pos + i] == a[i]
    {
      ReadsAt(t, pos, a + b, i);
    }
    AgreesReads(t, pos, a, |a|);
    forall i | 0 <= i < |b|
      ensures t[pos + |a| + i] == b[i]
    {
      ReadsAt(t, pos, a + b, |a| + i);
    }
    AgreesReads(t, pos + |a|, b, |b|);
  }

  // ---------------------------------------------------------------- characters and gaps

  predicate CharAt(t: string, pos: nat, c: char) { pos < |t| && t[pos] == c }

  predicate White(c: char) { c == ' ' || c == '\t' || c == '\n' || c == '\r' }

  /** Any number of white space characters. */
  predicate Gap(t: string, a: nat, b: nat) { a <= b <= |t| && forall i :: a <= i < b ==> White(t[i]) }

  /** A character that opens a quotation after an apostrophe. */
  predicate Special(c: char, plural: bool) {
    c == '{' || c == '}' || c == '<' || c == '|' || (plural && c == '#')
  }

  // ---------------------------------------------------------------- literal text

  /** A character that stands for itself: no apostrophe, brace or tag, and no `#` inside a plural. */
  predicate StandsForItself(t: string, pos: nat, plural: bool)
    requires pos < |t|
  {
    && t[pos] != '\'' && t[pos] != '{' && t[pos] != '}' && !(plural && t[pos] == '#')
    && !(t[pos] == '<' && pos + 1 < |t| && (t[pos + 1] == '/' || IsLetter(t[pos + 1])))
  }

  /** Inside quotes, from `pos` to after the closing quote or to the end of the text, stands `text[i..k]`. */
  predicate QuotedAs(t: string, pos: nat, end: nat, text: string, i: nat, k: nat)
    requires pos <= |t|
    decreases |t| - pos
  {
    && i <= k <= |text| && pos <= end <= |t|
    && if pos == |t| then i == k
       else if t[pos] != '\'' then i < k && text[i] == t[pos] && QuotedAs(t, pos + 1, end, text, i + 1, k)
       else if CharAt(t, pos + 1, '\'') then i < k && text[i] == '\'' && QuotedAs(t, pos + 2, end, text, i + 1, k)
       else end == pos + 1 && i == k
  }

  /** From `pos` to `end` stands the literal text from `i` on. */
  ghost predicate LiteralAs(t: string, pos: nat, end: nat, text: string, i: nat, plural: bool)
    requires pos <= end <= |t| && i <= |text|
    decreases end - pos
  {
    if pos == end then i == |text|
    else if t[pos] != '\'' then
      StandsForItself(t, pos, plural) && i < |text| && text[i] == t[pos] && LiteralAs(t, pos + 1, end, text, i + 1, plural)
    else if CharAt(t, pos + 1, '\'') then
      pos + 2 <= end && i < |text| && text[i] == '\'' && LiteralAs(t, pos + 2, end, text, i + 1, plural)
    else if pos + 1 < |t| && Special(t[pos + 1], plural) then
      exists mid: nat, k: nat :: QuotationAs(t, pos, mid, end, text, i, k) && LiteralAs(t, mid, end, text, k, plural)
    else i < |text| && text[i] == '\'' && LiteralAs(t, pos + 1, end, text, i + 1, plural)
  }

  /** A quotation that opens at `pos` and ends at `mid` holds some of the text. */
  predicate QuotationAs(t: string, pos: nat, mid: nat, end: nat, text: string, i: nat, k: nat)
    requires pos < |t|
  {
    pos < mid <= end && i < k <= |text| && QuotedAs(t, pos + 1, mid, text, i, k)
  }

  // ---------------------------------------------------------------- messages

  /** From `pos` to `end` stand the nodes from `i` on, one after another. */
  ghost predicate MessageAs(t: string, pos: nat, end: nat, m: Message, i: nat, plural: bool)
    requires pos <= end <= |t| && i <= |m|
    decreases end - pos, 6
  {
    if i == |m| then pos == end
    else exists mid: nat :: pos < mid <= end && NodeAs(t, pos, mid, m[i], plural) && MessageAs(t, mid, end, m, i + 1, plural)
  }

  ghost predicate NodeAs(t: string, pos: nat, end: nat, n: Node, plural: bool)
    requires pos < end <= |t|
    decreases end - pos, 5
  {
    match n
    case Literal(text) => LiteralAs(t, pos, end, text, 0, plural)
    case Pound => t[pos] == '#' && end == pos + 1
    case Tag(name, children) => TagAs(t, pos, end, name, children, plural)
    case Argument(_, _, _) => BraceAs(t, pos, end, n, plural)
    case Plural(_, _) => BraceAs(t, pos, end, n, plural)
    case Select(_, _) => BraceAs(t, pos, end, n, plural)
  }

  predicate OpeningAt(t: string, pos: nat, name: string) {
    CharAt(t, pos, '<') && Reads(t, pos + 1, name) && CharAt(t, pos + 1 + |name|, '>')
  }

  predicate ClosingAt(t: string, pos: nat, name: string) {
    CharAt(t, pos, '<') && CharAt(t, pos + 1, '/') && Reads(t, pos + 2, name) && CharAt(t, pos + 2 + |name|, '>')
  }

  /** An element: its opening tag, its body and its closing tag, without white space inside the tags. */
  ghost predicate TagAs(t: string, pos: nat, end: nat, name: string, children: Message, plural: bool)
    requires pos < end <= |t|
    decreases end - pos, 4
  {
    && OpeningAt(t, pos, name)
    && exists close: nat :: pos + 2 + |name| <= close && end == close + 3 + |name| && ClosingAt(t, close, name)
         && MessageAs(t, pos + 2 + |name|, close, children, 0, plural)
  }

  /** A placeholder: a brace, the name with gaps around it, and what follows the name. */
  ghost predicate BraceAs(t: string, pos: nat, end: nat, n: Node, plural: bool)
    requires pos < end <= |t| && (n.Argument? || n.Plural? || n.Select?)
    decreases end - pos, 4
  {
    && t[pos] == '{'
    && exists a: nat, c: nat :: Spaced(t, pos, a, n.name, c) && c < end && NamedAs(t, c, end, n, plural)
  }

  /** After the character at `pos`, a gap up to `a`, the word, and a gap from after it to `c`. */
  predicate Spaced(t: string, pos: nat, a: nat, word: string, c: nat) {
    Gap(t, pos + 1, a) && Reads(t, a, word) && Gap(t, a + |word|, c)
  }

  function TypeOf(n: Node): string
    requires n.Argument? || n.Plural? || n.Select?
  {
    if n.Argument? then n.format else if n.Plural? then "plural" else "select"
  }

  /** The end of a plain argument, or a comma, the type with gaps around it, and what follows the type. */
  ghost predicate NamedAs(t: string, pos: nat, end: nat, n: Node, plural: bool)
    requires pos < end <= |t| && (n.Argument? || n.Plural? || n.Select?)
    decreases end - pos, 3
  {
    if n.Argument? && n.format == "" then n.style == "" && t[pos] == '}' && end == pos + 1
    else
      && t[pos] == ','
      && exists a: nat, c: nat :: Spaced(t, pos, a, TypeOf(n), c) && c < end && TypedAs(t, c, end, n, plural)
  }

  /** The end of a formatted argument, its style, or the options of a choice. */
  ghost predicate TypedAs(t: string, pos: nat, end: nat, n: Node, plural: bool)
    requires pos < end <= |t| && (n.Argument? || n.Plural? || n.Select?)
    decreases end - pos, 2
  {
    match n
    case Argument(_, _, style) =>
      (t[pos] == '}' && end == pos + 1 && style == "") || (t[pos] == ',' && StyleAs(t, pos + 1, end, style))
    case Plural(_, options) => t[pos] == ',' && OptionsAs(t, pos + 1, end, options, 0, true)
    case Select(_, options) => t[pos] == ',' && OptionsAs(t, pos + 1, end, options, 0, plural)
  }

  /** Anything up to the first closing brace, trimmed. */
  predicate StyleAs(t: string, pos: nat, end: nat, style: string) {
    && pos < end <= |t| && t[end - 1] == '}' && (forall i :: pos <= i < end - 1 ==> t[i] != '}')
    && TrimSpace(t[pos..end - 1]) == style
  }

  /** A gap, and then the closing brace or the next option and the rest. */
  ghost predicate OptionsAs(t: string, pos: nat, end: nat, options: seq<Branch>, i: nat, plural: bool)
    requires pos <= end <= |t| && i <= |options|
    decreases end - pos, 1
  {
    exists a: nat :: Gap(t, pos, a) && a < end && OptionsFrom(t, a, end, options, i, plural)
  }

  ghost predicate OptionsFrom(t: string, pos: nat, end: nat, options: seq<Branch>, i: nat, plural: bool)
    requires pos < end <= |t| && i <= |options|
    decreases end - pos, 0
  {
    if i == |options| then t[pos] == '}' && end == pos + 1
    else exists mid: nat :: pos < mid < end && OptionAs(t, pos, mid, options[i], plural) && OptionsAs(t, mid, end, options, i + 1, plural)
  }

  /** A key, a gap, and the value in braces. */
  ghost predicate OptionAs(t: string, pos: nat, end: nat, option: Branch, plural: bool)
    requires pos < end <= |t|
    decreases end - pos, 0
  {
    && Reads(t, pos, option.key) && t[end - 1] == '}'
    && exists c: nat :: Gap(t, pos + |option.key|, c) && c + 1 < end && t[c] == '{'
         && MessageAs(t, c + 1, end - 1, option.value, 0, plural)
  }

  /** The whole text spells the message. */
  ghost predicate Spells(t: string, m: Message) { MessageAs(t, 0, |t|, m, 0, false) }
}
