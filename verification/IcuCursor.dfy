/**
 The parser of i18n/icu as it runs: a cursor over the input that loops and
 mutually recursive methods advance. Every method agrees with the function of
 the same routine in IcuParser, result and cursor alike.
 */
module IcuCursor {
  import opened Wrappers
  import opened IcuParser

  /** A method outcome says what the function says: the value and the cursor, or the error. */
  predicate Agrees<T(==)>(r: Result<T, SyntaxError>, pos: nat, p: Parsed<T>) {
    match p
    case Ok(v, q) => r == Success(v) && pos == q
    case Err(e) => r == Failure(e)
  }

  class Parser {
    const s: string
    var pos: nat

    constructor (s: string)
      ensures this.s == s && pos == 0
    {
      this.s := s;
      pos := 0;
    }

    method SkipSpaces()
      requires pos <= |s|
      modifies this
      ensures pos == SkipSpace(s, old(pos))
    {
      while pos < |s| && IsSpace(s[pos])
        invariant old(pos) <= pos <= |s|
        invariant Span(s, old(pos), IsSpace) == Span(s, pos, IsSpace)
      {
        pos := pos + 1;
      }
    }

    /** Reads an identifier; `ok` is false, and nothing is read, when there is none. */
    method Name(dashes: bool) returns (name: string, ok: bool)
      requires pos <= |s|
      modifies this
      ensures pos == NameEnd(s, old(pos), dashes)
      ensures name == s[old(pos)..pos] && ok == (pos > old(pos))
    {
      var start := pos;
      if pos >= |s| || !IsNameStart(s[pos]) {
        return "", false;
      }
      pos := pos + 1;
      while pos < |s| && (IsNameChar(s[pos]) || (dashes && s[pos] == '-'))
        invariant start < pos <= |s|
        invariant Span(s, start + 1, NameChar(dashes)) == Span(s, pos, NameChar(dashes))
      {
        pos := pos + 1;
      }
      return s[start..pos], true;
    }

    method Word() returns (word: string)
      requires pos <= |s|
      modifies this
      ensures pos == Span(s, old(pos), IsLetter) && word == s[old(pos)..pos]
    {
      var start := pos;
      while pos < |s| && IsLetter(s[pos])
        invariant start <= pos <= |s|
        invariant Span(s, start, IsLetter) == Span(s, pos, IsLetter)
      {
        pos := pos + 1;
      }
      word := s[start..pos];
    }

    /** The quoted text after an opening quote, up to the next lone apostrophe. */
    method QuotedText() returns (text: string)
      requires pos <= |s|
      modifies this
      ensures Quoted(s, old(pos)) == (text, pos)
    {
      text := "";
      assert "" + Quoted(s, pos).0 == Quoted(s, pos).0;
      while pos < |s|
        invariant old(pos) <= pos <= |s|
        invariant Quoted(s, old(pos)) == (text + Quoted(s, pos).0, Quoted(s, pos).1)
      {
        if s[pos] == '\'' {
          if pos + 1 < |s| && s[pos + 1] == '\'' {
            QuotedMore(text, "'", Quoted(s, pos + 2).0);
            text := text + "'";
            pos := pos + 2;
            continue;
          }
          assert text + "" == text;
          pos := pos + 1;
          return;
        }
        QuotedMore(text, [s[pos]], Quoted(s, pos + 1).0);
        text := text + [s[pos]];
        pos := pos + 1;
      }
      assert text + "" == text;
    }

    /** An apostrophe: the literal text it stands for. */
    method Quote(plural: bool) returns (text: string)
      requires pos < |s| && s[pos] == '\''
      modifies this
      ensures Apostrophe(s, old(pos), plural) == (text, pos)
    {
      if pos + 1 < |s| && s[pos + 1] == '\'' {
        text := "'";
        pos := pos + 2;
      } else if pos + 1 < |s| && OpensQuote(s[pos + 1], plural) {
        pos := pos + 1;
        text := QuotedText();
      } else {
        text := "'";
        pos := pos + 1;
      }
    }

    method Sequence(c: Ctx) returns (r: Result<Message, SyntaxError>)
      requires pos <= |s|
      modifies this
      ensures old(pos) <= pos <= |s| && Agrees(r, pos, ParseSeq(s, old(pos), c, [], ""))
      decreases |s| - pos, 2
    {
      var out: Message, lit := [], "";
      ghost var all := ParseSeq(s, pos, c, [], "");
      while pos < |s|
        invariant old(pos) <= pos <= |s|
        invariant all == ParseSeq(s, pos, c, out, lit)
        decreases |s| - pos
      {
        if s[pos] == '\'' {
          var text := Quote(c.plural);
          lit := lit + text;
        } else if s[pos] == '{' {
          var n := Argument(c.plural);
          if n.Failure? { return Failure(n.error); }
          out, lit := Flush(out, lit) + [n.value], "";
        } else if s[pos] == '}' {
          return if c.option then Success(Flush(out, lit)) else Failure(SyntaxError(pos, UnmatchedBrace));
        } else if s[pos] == '#' && c.plural {
          out, lit := Flush(out, lit) + [Pound], "";
          pos := pos + 1;
        } else if s[pos] == '<' && pos + 1 < |s| && s[pos + 1] == '/' {
          return if c.tag != "" then Success(Flush(out, lit)) else Failure(SyntaxError(pos, StrayClosingTag));
        } else if s[pos] == '<' && pos + 1 < |s| && IsLetter(s[pos + 1]) {
          var n := TagNode(c.plural);
          if n.Failure? { return Failure(n.error); }
          out, lit := Flush(out, lit) + [n.value], "";
        } else {
          lit := lit + [s[pos]];
          pos := pos + 1;
        }
      }
      return Success(Flush(out, lit));
    }

    /** A brace expression, from its opening brace. */
    method Argument(plural: bool) returns (r: Result<Node, SyntaxError>)
      requires pos < |s|
      modifies this
      ensures old(pos) < pos <= |s| && Agrees(r, pos, ParseArgument(s, old(pos), plural))
      decreases |s| - pos, 1
    {
      var open := pos;
      pos := pos + 1;
      SkipSpaces();
      var name, ok := Name(false);
      if !ok { return Failure(SyntaxError(pos, ExpectedArgumentName)); }
      r := AfterName(open, plural, name);
    }

    method AfterName(open: nat, plural: bool, name: string) returns (r: Result<Node, SyntaxError>)
      requires open < pos <= |s|
      modifies this
      ensures old(pos) <= pos <= |s| && Agrees(r, pos, ParseNamed(s, old(pos), open, plural, name))
      decreases |s| - pos, 1
    {
      SkipSpaces();
      if pos >= |s| { return Failure(SyntaxError(open, Unterminated)); }
      if s[pos] == '}' {
        pos := pos + 1;
        return Success(Node.Argument(name, "", ""));
      }
      if s[pos] != ',' { return Failure(SyntaxError(pos, ExpectedCommaOrBrace)); }
      pos := pos + 1;
      r := Typed(open, plural, name);
    }

    method Typed(open: nat, plural: bool, name: string) returns (r: Result<Node, SyntaxError>)
      requires open < pos <= |s|
      modifies this
      ensures old(pos) <= pos <= |s| && Agrees(r, pos, ParseTyped(s, old(pos), open, plural, name))
      decreases |s| - pos, 1
    {
      SkipSpaces();
      var typOff := pos;
      var typ := Word();
      SkipSpaces();
      if pos >= |s| { return Failure(SyntaxError(open, Unterminated)); }
      assert ParseTyped(s, old(pos), open, plural, name) == ParseKeyword(s, pos, open, plural, name, typOff, typ);
      match KeywordOf(typ)
      case FormatKeyword => r := StyleOf(open, name, typ);
      case ChoiceKeyword(isPlural) => r := Choice(open, plural, name, isPlural);
      case NoKeyword => return Failure(SyntaxError(typOff, ExpectedType));
      case OtherKeyword => return Failure(SyntaxError(typOff, UnknownType(typ)));
    }

    method StyleOf(open: nat, name: string, format: string) returns (r: Result<Node, SyntaxError>)
      requires pos < |s|
      modifies this
      ensures old(pos) <= pos <= |s| && Agrees(r, pos, ParseStyle(s, old(pos), open, name, format))
    {
      if s[pos] == '}' {
        pos := pos + 1;
        return Success(Node.Argument(name, format, ""));
      }
      if s[pos] != ',' { return Failure(SyntaxError(pos, ExpectedCommaOrBrace)); }
      pos := pos + 1;
      var end := Span(s, pos, IsNotBrace);
      if end == |s| { return Failure(SyntaxError(open, Unterminated)); }
      var style := TrimSpace(s[pos..end]);
      pos := end + 1;
      return Success(Node.Argument(name, format, style));
    }

    /** The option list of a plural or select, from the comma after the keyword. */
    method Choice(open: nat, plural: bool, name: string, isPlural: bool) returns (r: Result<Node, SyntaxError>)
      requires open < pos < |s|
      modifies this
      ensures old(pos) <= pos <= |s| && Agrees(r, pos, ParseChoice(s, old(pos), open, plural, name, isPlural))
      decreases |s| - pos, 1
    {
      if s[pos] != ',' { return Failure(SyntaxError(pos, ExpectedComma)); }
      pos := pos + 1;
      var options := Options(open, plural, isPlural);
      if options.Failure? { return Failure(options.error); }
      if "other" !in Keys(options.value) { return Failure(SyntaxError(open, MissingOther)); }
      return Success(if isPlural then Plural(name, options.value) else Select(name, options.value));
    }

    method Options(open: nat, plural: bool, isPlural: bool) returns (r: Result<seq<Branch>, SyntaxError>)
      requires pos <= |s|
      modifies this
      ensures old(pos) <= pos <= |s| && Agrees(r, pos, ParseOptions(s, old(pos), open, plural, isPlural, []))
      decreases |s| - pos, 4
    {
      var done: seq<Branch> := [];
      var seen: set<string> := {};
      ghost var all := ParseOptions(s, pos, open, plural, isPlural, []);
      while true
        invariant old(pos) <= pos <= |s|
        invariant seen == Keys(done)
        invariant all == ParseOptions(s, pos, open, plural, isPlural, done)
        decreases |s| - pos
      {
        ghost var from := pos;
        SkipSpaces();
        if pos >= |s| { return Failure(SyntaxError(open, Unterminated)); }
        if s[pos] == '}' {
          pos := pos + 1;
          return Success(done);
        }
        var option := OneOption(open, plural, isPlural, seen);
        if option.Failure? { return Failure(option.error); }
        KeysGrow(done, option.value);
        seen := seen + {option.value.key};
        done := done + [option.value];
      }
    }

    method OneOption(open: nat, plural: bool, isPlural: bool, seen: set<string>) returns (r: Result<Branch, SyntaxError>)
      requires pos < |s|
      modifies this
      ensures old(pos) <= pos <= |s| && Agrees(r, pos, ParseOption(s, old(pos), open, plural, isPlural, seen))
      decreases |s| - pos, 3
    {
      var keyOff := pos;
      var key := OptionKey(isPlural);
      if key.Failure? { return Failure(key.error); }
      if key.value in seen { return Failure(SyntaxError(keyOff, DuplicateKey(key.value))); }
      SkipSpaces();
      if pos >= |s| { return Failure(SyntaxError(open, Unterminated)); }
      if s[pos] != '{' { return Failure(SyntaxError(pos, ExpectedBrace)); }
      pos := pos + 1;
      var value := Sequence(Ctx(plural || isPlural, true, ""));
      if value.Failure? { return Failure(value.error); }
      if pos >= |s| { return Failure(SyntaxError(open, Unterminated)); }
      pos := pos + 1;
      return Success(Branch(key.value, value.value));
    }

    method OptionKey(isPlural: bool) returns (r: Result<string, SyntaxError>)
      requires pos < |s|
      modifies this
      ensures old(pos) <= pos <= |s| && Agrees(r, pos, ParseKey(s, old(pos), isPlural))
    {
      var start := pos;
      if !isPlural {
        var key, ok := Name(true);
        return if ok then Success(key) else Failure(SyntaxError(start, ExpectedSelectKey));
      }
      if s[pos] == '=' {
        pos := pos + 1;
        while pos < |s| && IsDigit(s[pos])
          invariant start < pos <= |s|
          invariant Span(s, start + 1, IsDigit) == Span(s, pos, IsDigit)
        {
          pos := pos + 1;
        }
        return if pos == start + 1 then Failure(SyntaxError(start, ExpectedDigits)) else Success(s[start..pos]);
      }
      var word := Word();
      match PluralWordOf(word)
      case CategoryWord => return Success(word);
      case OffsetWord => return Failure(SyntaxError(start, OffsetUnsupported));
      case NoWord => return Failure(SyntaxError(start, ExpectedPluralKey));
      case OtherWord => return Failure(SyntaxError(start, UnknownPluralKey(word)));
    }

    /** A tag with its body, from its opening angle bracket. */
    method TagNode(plural: bool) returns (r: Result<Node, SyntaxError>)
      requires pos < |s|
      modifies this
      ensures old(pos) < pos <= |s| && Agrees(r, pos, ParseTag(s, old(pos), plural))
      decreases |s| - pos, 1
    {
      var open := pos;
      pos := pos + 1;
      var name, _ := Name(true);
      if name == "" || !IsLetter(name[0]) { return Failure(SyntaxError(open, InvalidTagName)); }
      if pos >= |s| || s[pos] != '>' { return Failure(SyntaxError(pos, TagAttributes)); }
      pos := pos + 1;
      var body := Sequence(Ctx(plural, false, name));
      if body.Failure? { return Failure(body.error); }
      r := ClosingTag(open, name, body.value);
    }

    method ClosingTag(open: nat, name: string, body: Message) returns (r: Result<Node, SyntaxError>)
      requires pos <= |s|
      modifies this
      ensures old(pos) <= pos <= |s| && Agrees(r, pos, CloseTag(s, open, name, Ok(body, old(pos))))
    {
      if pos >= |s| { return Failure(SyntaxError(open, MissingClosingTag)); }
      var closeOff := pos;
      if pos + 1 == |s| { return Failure(SyntaxError(closeOff, InvalidClosingTag)); }
      pos := pos + 2;
      var closeName, _ := Name(true);
      if pos >= |s| || s[pos] != '>' { return Failure(SyntaxError(closeOff, InvalidClosingTag)); }
      pos := pos + 1;
      if closeName != name { return Failure(SyntaxError(closeOff, MismatchedClosingTag)); }
      return Success(Tag(name, body));
    }
  }

  lemma {:induction false} QuotedMore(text: string, piece: string, rest: string)
    ensures text + (piece + rest) == (text + piece) + rest
  {
  }

  /** i18n/icu Parse: a fresh parser over the whole input. */
  method ParseMessage(s: string) returns (r: Result<Message, SyntaxError>)
    ensures r == Parse(s)
  {
    var p := new Parser(s);
    r := p.Sequence(TOP);
    if r.Success? && p.pos < |s| {
      r := Failure(SyntaxError(p.pos, UnmatchedBrace));
    }
  }
}
