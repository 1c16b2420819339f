/**
 A printer for messages. What it prints spells the message, so every well-formed message
 is the parse of some text: with ParsesExactly the messages the parser can return are
 exactly the well-formed ones.
 */
module IcuPrinter {
  import opened Wrappers
  import opened IcuParser
  import opened IcuWellFormed
  import opened IcuGrammar
  import opened IcuReader
  import opened IcuEscape

  // ---------------------------------------------------------------- the printer

  /** The text of a message from node `i` on. */
  function Print(m: Message, i: nat, plural: bool): (t: string)
    requires i <= |m|
    decreases m, |m| - i
  {
    if i == |m| then "" else PrintNode(m[i], plural) + Print(m, i + 1, plural)
  }

  function PrintNode(n: Node, plural: bool): (t: string)
    decreases n, 0
  {
    match n
    case Literal(text) => EscapeFrom(text, 0, plural)
    case Argument(name, format, style) => "{" + (name + PrintFormat(format, style))
    case Plural(name, options) => PrintChoice(name, "plural", PrintBranches(options, 0, true))
    case Select(name, options) => PrintChoice(name, "select", PrintBranches(options, 0, plural))
    case Pound => "#"
    case Tag(name, children) => PrintTag(name, Print(children, 0, plural))
  }

  function PrintFormat(format: string, style: string): string {
    if format == "" then "}" else "," + (format + PrintStyle(style))
  }

  function PrintStyle(style: string): string {
    if style == "" then "}" else "," + (style + "}")
  }

  function PrintChoice(name: string, word: string, branches: string): string {
    "{" + (name + ("," + (word + ("," + (branches + "}")))))
  }

  function PrintTag(name: string, body: string): string {
    "<" + (name + (">" + (body + ("</" + (name + ">")))))
  }

  function PrintBranches(options: seq<Branch>, i: nat, plural: bool): (t: string)
    requires i <= |options|
    decreases options, |options| - i
  {
    if i == |options| then "" else PrintBranch(options[i], plural) + PrintBranches(options, i + 1, plural)
  }

  function PrintBranch(option: Branch, plural: bool): (t: string)
    decreases option, 0
  {
    option.key + ("{" + (Print(option.value, 0, plural) + "}"))
  }

  // ---------------------------------------------------------------- what is printed is spelled: placeholders

  lemma {:induction false} SplitChar(t: string, pos: nat, c: char, x: string)
    requires Reads(t, pos, [c] + x)
    ensures CharAt(t, pos, c) && Reads(t, pos + 1, x)
  {
    SplitReads(t, pos, [c], x);
    ReadsChar(t, pos, c);
  }

  lemma {:induction false} ReadsChar(t: string, pos: nat, c: char)
    requires Reads(t, pos, [c])
    ensures CharAt(t, pos, c)
  {
    ReadsAt(t, pos, [c], 0);
  }

  /** A word with no gaps around it. */
  lemma {:induction false} NoGaps(t: string, pos: nat, word: string, c: nat)
    requires Reads(t, pos + 1, word) && c == pos + 1 + |word|
    ensures Spaced(t, pos, pos + 1, word, c)
  {
  }

  lemma {:induction false} StyleSpelled(t: string, pos: nat, end: nat, n: Node, plural: bool)
    requires n.Argument? && IsStyle(n.style) && Reads(t, pos, PrintStyle(n.style)) && end == pos + |PrintStyle(n.style)|
    ensures pos < end <= |t| && TypedAs(t, pos, end, n, plural)
  {
    if n.style == "" {
      ReadsChar(t, pos, '}');
    } else {
      SplitChar(t, pos, ',', n.style + "}");
      SplitReads(t, pos + 1, n.style, "}");
      ReadsChar(t, pos + 1 + |n.style|, '}');
      StyleStands(t, pos + 1, n.style, end);
    }
  }

  lemma {:induction false} StyleStands(t: string, pos: nat, style: string, end: nat)
    requires IsStyle(style) && Reads(t, pos, style) && end == pos + |style| + 1 && CharAt(t, end - 1, '}')
    ensures StyleAs(t, pos, end, style)
  {
    ReadsIsSlice(t, pos, style);
    StyleStays(style);
    forall i | pos <= i < end - 1
      ensures t[i] != '}'
    {
      ReadsAt(t, pos, style, i - pos);
    }
  }

  /** Trimming leaves a style as it is. */
  lemma {:induction false} StyleStays(style: string)
    requires IsStyle(style)
    ensures TrimSpace(style) == style
  {
    assert TrimStart(style, 0) == 0 && TrimEnd(style, 0, |style|) == |style|;
  }

  lemma {:induction false} FormatSpelled(t: string, pos: nat, end: nat, n: Node, plural: bool)
    requires n.Argument? && ArgumentOk(n.name, n.format, n.style)
    requires Reads(t, pos, PrintFormat(n.format, n.style)) && end == pos + |PrintFormat(n.format, n.style)|
    ensures pos < end <= |t| && NamedAs(t, pos, end, n, plural)
  {
    if n.format == "" {
      ReadsChar(t, pos, '}');
    } else {
      var c := pos + 1 + |n.format|;
      SplitChar(t, pos, ',', n.format + PrintStyle(n.style));
      SplitReads(t, pos + 1, n.format, PrintStyle(n.style));
      StyleSpelled(t, c, end, n, plural);
      NoGaps(t, pos, n.format, c);
      NamedSpelled(t, pos, end, n, plural, pos + 1, c);
    }
  }

  lemma {:induction false} ArgumentSpelled(t: string, pos: nat, end: nat, n: Node, plural: bool)
    requires n.Argument? && ArgumentOk(n.name, n.format, n.style)
    requires Reads(t, pos, PrintNode(n, plural)) && end == pos + |PrintNode(n, plural)|
    ensures pos < end <= |t| && NodeAs(t, pos, end, n, plural)
  {
    var c := pos + 1 + |n.name|;
    ArgumentStands(t, pos, end, n.name, PrintFormat(n.format, n.style), c);
    FormatSpelled(t, c, end, n, plural);
    BraceSpelled(t, pos, end, n, plural, pos + 1, c);
  }

  lemma {:induction false} ArgumentStands(t: string, pos: nat, end: nat, name: string, rest: string, c: nat)
    requires Reads(t, pos, "{" + (name + rest)) && end == pos + |"{" + (name + rest)| && c == pos + 1 + |name|
    ensures CharAt(t, pos, '{') && Spaced(t, pos, pos + 1, name, c) && Reads(t, c, rest) && end == c + |rest|
  {
    SplitChar(t, pos, '{', name + rest);
    SplitReads(t, pos + 1, name, rest);
    NoGaps(t, pos, name, c);
  }

  /** The head of a choice, and where its options and its closing brace stand. */
  lemma {:induction false} ChoiceStands(t: string, pos: nat, end: nat, name: string, word: string, branches: string, c: nat, d: nat)
    requires Reads(t, pos, PrintChoice(name, word, branches)) && end == pos + |PrintChoice(name, word, branches)|
    requires c == pos + 1 + |name| && d == c + 1 + |word|
    ensures CharAt(t, pos, '{') && Spaced(t, pos, pos + 1, name, c) && CharAt(t, c, ',') && Spaced(t, c, c + 1, word, d) && CharAt(t, d, ',')
    ensures Reads(t, d + 1, branches) && end == d + 2 + |branches| && CharAt(t, end - 1, '}')
  {
    SplitChar(t, pos, '{', name + ("," + (word + ("," + (branches + "}")))));
    SplitReads(t, pos + 1, name, "," + (word + ("," + (branches + "}"))));
    SplitChar(t, c, ',', word + ("," + (branches + "}")));
    SplitReads(t, c + 1, word, "," + (branches + "}"));
    SplitChar(t, d, ',', branches + "}");
    SplitReads(t, d + 1, branches, "}");
    ReadsChar(t, d + 1 + |branches|, '}');
    NoGaps(t, pos, name, c);
    NoGaps(t, c, word, d);
  }

  lemma {:induction false} ChoiceSpelled(t: string, pos: nat, end: nat, n: Node, plural: bool, inner: bool)
    requires (n.Plural? && inner) || (n.Select? && inner == plural)
    requires BranchesOk(n.options, inner)
    requires Reads(t, pos, PrintNode(n, plural)) && end == pos + |PrintNode(n, plural)|
    ensures pos < end <= |t| && NodeAs(t, pos, end, n, plural)
    decreases n.options, |n.options| + 1
  {
    var c := pos + 1 + |n.name|;
    var d := c + 1 + |TypeOf(n)|;
    var branches := PrintBranches(n.options, 0, inner);
    ChoiceStands(t, pos, end, n.name, TypeOf(n), branches, c, d);
    OptionsSpelled(t, d + 1, end, n.options, 0, inner);
    NamedSpelled(t, c, end, n, plural, c + 1, d);
    BraceSpelled(t, pos, end, n, plural, pos + 1, c);
  }

  lemma {:induction false} OptionsSpelled(t: string, pos: nat, end: nat, options: seq<Branch>, i: nat, plural: bool)
    requires i <= |options| && Reads(t, pos, PrintBranches(options, i, plural)) && BranchesOk(options, plural)
    requires end == pos + |PrintBranches(options, i, plural)| + 1 && CharAt(t, end - 1, '}')
    ensures OptionsAs(t, pos, end, options, i, plural)
    decreases options, |options| - i
  {
    if i == |options| {
      assert OptionsFrom(t, pos, end, options, i, plural);
    } else {
      var mid := pos + |PrintBranch(options[i], plural)|;
      SplitReads(t, pos, PrintBranch(options[i], plural), PrintBranches(options, i + 1, plural));
      OptionSpelled(t, pos, mid, options[i], plural);
      OptionsSpelled(t, mid, end, options, i + 1, plural);
      NextSpelled(t, pos, mid, end, options, i, plural);
    }
  }

  lemma {:induction false} NextSpelled(t: string, pos: nat, mid: nat, end: nat, options: seq<Branch>, i: nat, plural: bool)
    requires pos < mid < end <= |t| && i < |options| && OptionAs(t, pos, mid, options[i], plural) && OptionsAs(t, mid, end, options, i + 1, plural)
    ensures OptionsAs(t, pos, end, options, i, plural)
  {
    assert OptionsFrom(t, pos, end, options, i, plural);
    assert Gap(t, pos, pos);
  }

  lemma {:induction false} OptionSpelled(t: string, pos: nat, end: nat, option: Branch, plural: bool)
    requires Reads(t, pos, PrintBranch(option, plural)) && end == pos + |PrintBranch(option, plural)| && WellFormed(option.value, plural)
    ensures pos < end <= |t| && OptionAs(t, pos, end, option, plural)
    decreases option, 0
  {
    var c := pos + |option.key|;
    var body := Print(option.value, 0, plural);
    SplitReads(t, pos, option.key, "{" + (body + "}"));
    SplitChar(t, c, '{', body + "}");
    SplitReads(t, c + 1, body, "}");
    ReadsChar(t, end - 1, '}');
    PrintSpells(t, c + 1, end - 1, option.value, 0, plural);
    assert Gap(t, c, c);
  }

  // ---------------------------------------------------------------- what is printed is spelled: elements and messages

  lemma {:induction false} TagStands(t: string, pos: nat, end: nat, name: string, body: string, start: nat, close: nat)
    requires Reads(t, pos, PrintTag(name, body)) && end == pos + |PrintTag(name, body)| && start == pos + 2 + |name| && close == start + |body|
    ensures OpeningAt(t, pos, name) && Reads(t, start, body) && ClosingAt(t, close, name) && end == close + 3 + |name| <= |t|
  {
    SplitChar(t, pos, '<', name + (">" + (body + ("</" + (name + ">")))));
    SplitReads(t, pos + 1, name, ">" + (body + ("</" + (name + ">"))));
    SplitChar(t, pos + 1 + |name|, '>', body + ("</" + (name + ">")));
    SplitReads(t, start, body, "</" + (name + ">"));
    SplitReads(t, close, "</", name + ">");
    ReadsAt(t, close, "</", 0);
    ReadsAt(t, close, "</", 1);
    SplitReads(t, close + 2, name, ">");
    ReadsChar(t, close + 2 + |name|, '>');
  }

  lemma {:induction false} TagPrinted(t: string, pos: nat, end: nat, n: Node, plural: bool)
    requires n.Tag? && WellFormed(n.children, plural) && Reads(t, pos, PrintNode(n, plural)) && end == pos + |PrintNode(n, plural)|
    ensures pos < end <= |t| && NodeAs(t, pos, end, n, plural)
    decreases n.children, |n.children| + 1
  {
    var body := Print(n.children, 0, plural);
    var start := pos + 2 + |n.name|;
    var close := start + |body|;
    TagStands(t, pos, end, n.name, body, start, close);
    PrintSpells(t, start, close, n.children, 0, plural);
    TagSpelled(t, pos, end, n.name, n.children, plural, close, n);
  }

  lemma {:induction false} NodeSpells(t: string, pos: nat, end: nat, n: Node, plural: bool)
    requires NodeOk(n, plural) && Reads(t, pos, PrintNode(n, plural)) && end == pos + |PrintNode(n, plural)|
    requires n.Literal? ==> !CharAt(t, end, '\'')
    ensures pos < end <= |t| && NodeAs(t, pos, end, n, plural)
    decreases n, 0
  {
    match n
    case Literal(text) =>
      EscapedSpells(text, 0, plural, t, pos, end);
      NothingIsEmpty(t, pos, end, text, 0, plural);
    case Argument(_, _, _) => ArgumentSpelled(t, pos, end, n, plural);
    case Plural(_, _) => ChoiceSpelled(t, pos, end, n, plural, true);
    case Select(_, _) => ChoiceSpelled(t, pos, end, n, plural, plural);
    case Pound => ReadsChar(t, pos, '#');
    case Tag(_, _) => TagPrinted(t, pos, end, n, plural);
  }

  /** What is printed next after a literal is not an apostrophe. */
  lemma {:induction false} StructureFollows(t: string, pos: nat, n: Node, plural: bool)
    requires !n.Literal? && Reads(t, pos, PrintNode(n, plural))
    ensures !CharAt(t, pos, '\'')
  {
    var x := PrintNode(n, plural);
    assert |x| > 0 && x[0] != '\'';
    ReadsAt(t, pos, x, 0);
  }

  lemma {:induction false} NextIsStructure(t: string, pos: nat, end: nat, m: Message, i: nat, plural: bool)
    requires i <= |m| && Reads(t, pos, Print(m, i, plural)) && end == pos + |Print(m, i, plural)| && !CharAt(t, end, '\'')
    requires i < |m| ==> !m[i].Literal?
    ensures !CharAt(t, pos, '\'')
  {
    if i < |m| {
      SplitReads(t, pos, PrintNode(m[i], plural), Print(m, i + 1, plural));
      StructureFollows(t, pos, m[i], plural);
    }
  }

  lemma {:induction false} PrintSpells(t: string, pos: nat, end: nat, m: Message, i: nat, plural: bool)
    requires i <= |m| && WellFormed(m, plural) && Reads(t, pos, Print(m, i, plural)) && end == pos + |Print(m, i, plural)|
    requires !CharAt(t, end, '\'')
    ensures pos <= end <= |t| && MessageAs(t, pos, end, m, i, plural)
    decreases m, |m| - i
  {
    if i < |m| {
      var mid := pos + |PrintNode(m[i], plural)|;
      SplitReads(t, pos, PrintNode(m[i], plural), Print(m, i + 1, plural));
      PrintSpells(t, mid, end, m, i + 1, plural);
      if m[i].Literal? {
        NextIsStructure(t, mid, end, m, i + 1, plural);
      }
      NodeSpells(t, pos, mid, m[i], plural);
    }
  }

  // ---------------------------------------------------------------- the main results

  /** Parsing what the printer wrote gives back the message. */
  lemma {:induction false} PrintParses(m: Message)
    requires WellFormed(m, false)
    ensures Parse(Print(m, 0, false)) == Success(m)
  {
    var t := Print(m, 0, false);
    ReadsItself(t);
    PrintSpells(t, 0, |t|, m, 0, false);
    ParsesExactly(t, m);
  }

  /** The messages the parser can return are exactly the well-formed ones. */
  lemma {:induction false} ParseRange(m: Message)
    ensures WellFormed(m, false) <==> exists s: string :: Parse(s) == Success(m)
  {
    if WellFormed(m, false) {
      PrintParses(m);
    }
    forall s: string | Parse(s) == Success(m)
      ensures WellFormed(m, false)
    {
      ParsesExactly(s, m);
    }
  }
}
