/**
 ICUEscape of i18n/modlocale. The escaped form is defined for both places text
 can stand: outside a plural, where the source uses it, and inside one, where
 `#` is special too and the message printer needs it.
 */
module IcuEscape {
  import opened Wrappers
  import opened IcuParser
  import opened IcuGrammar
  import opened IcuWellFormed
  import opened IcuReader

  lemma {:induction false} Regroup(a: string, b: string, c: string)
    ensures (a + b) + c == a + (b + c)
  {
  }

  // ---------------------------------------------------------------- the escaped form

  /** The end of the apostrophes at `i`. */
  function ApostrophesEnd(s: string, i: nat): (end: nat)
    requires i <= |s|
    ensures i <= end <= |s|
    decreases |s| - i
  {
    if i < |s| && s[i] == '\'' then ApostrophesEnd(s, i + 1) else i
  }

  /** The end of the special characters and apostrophes at `i`. */
  function RunEnd(s: string, i: nat, plural: bool): (end: nat)
    requires i <= |s|
    ensures i <= end <= |s|
    ensures end < |s| ==> s[end] != '\'' && !OpensQuote(s[end], plural)
    decreases |s| - i
  {
    if i < |s| && (s[i] == '\'' || OpensQuote(s[i], plural)) then RunEnd(s, i + 1, plural) else i
  }

  function DoubledChar(c: char): (t: string)
    ensures t != "" && t[0] == c
  {
    if c == '\'' then "''" else [c]
  }

  /** The text from `i` on with every apostrophe doubled. */
  function Doubled(s: string, i: nat): (t: string)
    requires i <= |s|
    decreases |s| - i
  {
    if i == |s| then "" else DoubledChar(s[i]) + Doubled(s, i + 1)
  }

  /** A quoted section holding the run from `i` on. */
  function Section(run: string, i: nat): string
    requires i <= |run|
  {
    "'" + (Doubled(run, i) + "'")
  }

  /** A run starts at `i`: a special character, or apostrophes that lead into one. */
  predicate StartsRun(s: string, i: nat, plural: bool)
    requires i < |s|
  {
    var j := ApostrophesEnd(s, i);
    j < |s| && OpensQuote(s[j], plural)
  }

  /** The escaped form of `s[i..]`. */
  function EscapeFrom(s: string, i: nat, plural: bool): (t: string)
    requires i <= |s|
    decreases |s| - i
  {
    if i == |s| then ""
    else
      var j := PieceEnd(s, i, plural);
      Piece(s, i, plural) + EscapeFrom(s, j, plural)
  }

  /** Where the run or the single character at `i` ends. */
  function PieceEnd(s: string, i: nat, plural: bool): (j: nat)
    requires i < |s|
    ensures i < j <= |s|
  {
    if StartsRun(s, i, plural) then
      RunReachesSpecial(s, i, plural);
      RunEnd(s, i, plural)
    else i + 1
  }

  /** The escaped form of the run or the single character at `i`. */
  function Piece(s: string, i: nat, plural: bool): (t: string)
    requires i < |s|
    ensures t != ""
    ensures t[0] == '\'' || (t[0] == s[i] && !OpensQuote(s[i], plural))
  {
    if StartsRun(s, i, plural) then Section(s[i..PieceEnd(s, i, plural)], 0)
    else
      assert ApostrophesEnd(s, i) == i || s[i] == '\'';
      DoubledChar(s[i])
  }

  /** A run reaches past its leading apostrophes to the special character. */
  lemma {:induction false} RunReachesSpecial(s: string, i: nat, plural: bool)
    requires i < |s| && StartsRun(s, i, plural)
    ensures var j := ApostrophesEnd(s, i);
            && i <= j < RunEnd(s, i, plural) && OpensQuote(s[j], plural)
            && forall k :: i <= k < j ==> s[k] == '\''
    decreases |s| - i
  {
    if s[i] == '\'' {
      RunReachesSpecial(s, i + 1, plural);
    }
  }

  // ---------------------------------------------------------------- reading it back

  /** A doubled apostrophe or another character, where the text has it. */
  lemma {:induction false} CharReads(t: string, pos: nat, c: char)
    requires Reads(t, pos, DoubledChar(c))
    ensures pos < |t| && t[pos] == c && |DoubledChar(c)| == if c == '\'' then 2 else 1
    ensures c == '\'' ==> CharAt(t, pos + 1, '\'')
  {
    ReadsAt(t, pos, DoubledChar(c), 0);
    if c == '\'' {
      ReadsAt(t, pos, DoubledChar(c), 1);
    }
  }

  lemma {:induction false} DoubledAt(t: string, pos: nat, run: string, i: nat, next: nat)
    requires i < |run| && Reads(t, pos, Doubled(run, i)) && next == pos + if run[i] == '\'' then 2 else 1
    ensures CharAt(t, pos, run[i]) && (run[i] == '\'' ==> CharAt(t, pos + 1, '\''))
    ensures Reads(t, next, Doubled(run, i + 1)) && next + |Doubled(run, i + 1)| == pos + |Doubled(run, i)|
  {
    SplitReads(t, pos, DoubledChar(run[i]), Doubled(run, i + 1));
    CharReads(t, pos, run[i]);
  }

  /** `run` is the part of `s` at `a`. */
  predicate PartAt(s: string, a: nat, run: string) { a + |run| <= |s| && forall x :: 0 <= x < |run| ==> s[a + x] == run[x] }

  /** Inside quotes a text with doubled apostrophes stands for the text, up to the closing quote. */
  lemma {:induction false} QuotedUndoesDoubled(t: string, pos: nat, run: string, i: nat, close: nat, s: string, a: nat)
    requires i <= |run| && Reads(t, pos, Doubled(run, i)) && close == pos + |Doubled(run, i)| && PartAt(s, a, run)
    requires CharAt(t, close, '\'') && !CharAt(t, close + 1, '\'')
    ensures QuotedAs(t, pos, close + 1, s, a + i, a + |run|)
    decreases |run| - i
  {
    if i < |run| {
      var next := pos + if run[i] == '\'' then 2 else 1;
      DoubledAt(t, pos, run, i, next);
      QuotedUndoesDoubled(t, next, run, i + 1, close, s, a);
      assert s[a + i] == run[i];
    }
  }

  /** Where the parts of a section stand. */
  lemma {:induction false} SectionAt(t: string, pos: nat, run: string, i: nat, close: nat)
    requires i <= |run| && Reads(t, pos, Section(run, i)) && close == pos + 1 + |Doubled(run, i)|
    ensures |Section(run, i)| == |Doubled(run, i)| + 2
    ensures pos < close < |t| && t[pos] == '\'' && Reads(t, pos + 1, Doubled(run, i)) && t[close] == '\''
  {
    SplitReads(t, pos, "'", Doubled(run, i) + "'");
    ReadsAt(t, pos, "'", 0);
    SplitReads(t, pos + 1, Doubled(run, i), "'");
    ReadsAt(t, close, "'", 0);
  }

  /** A quoted run stands for its own text: leading apostrophes outside the quotes, the rest inside. */
  lemma {:induction false} RunSpells(t: string, pos: nat, run: string, i: nat, k: nat, plural: bool, close: nat, s: string, a: nat, end: nat)
    requires i <= k < |run| && Special(run[k], plural) && forall x :: i <= x < k ==> run[x] == '\''
    requires CharAt(t, pos, '\'') && Reads(t, pos + 1, Doubled(run, i))
    requires close == pos + 1 + |Doubled(run, i)| && CharAt(t, close, '\'') && !CharAt(t, close + 1, '\'')
    requires PartAt(s, a, run) && close + 1 <= end <= |t| && LiteralAs(t, close + 1, end, s, a + |run|, plural)
    ensures LiteralAs(t, pos, end, s, a + i, plural)
    decreases k - i
  {
    if i < k {
      DoubledAt(t, pos + 1, run, i, pos + 3);
      RunSpells(t, pos + 2, run, i + 1, k, plural, close, s, a, end);
      assert s[a + i] == run[i];
    } else {
      DoubledAt(t, pos + 1, run, i, pos + 2);
      QuotedUndoesDoubled(t, pos + 1, run, i, close, s, a);
      assert QuotationAs(t, pos, close + 1, end, s, a + i, a + |run|);
    }
  }

  /** One escaped piece, with no apostrophe after it if it is a run, stands for that piece of the text. */
  lemma {:induction false} PieceSpells(s: string, i: nat, j: nat, plural: bool, t: string, pos: nat, next: nat, end: nat)
    requires i < |s| && j == PieceEnd(s, i, plural) && next == pos + |Piece(s, i, plural)| && Reads(t, pos, Piece(s, i, plural))
    requires StartsRun(s, i, plural) ==> !CharAt(t, next, '\'')
    requires next <= end <= |t| && LiteralAs(t, next, end, s, j, plural)
    ensures LiteralAs(t, pos, end, s, i, plural)
  {
    if StartsRun(s, i, plural) {
      RunPieceSpells(s, i, s[i..j], plural, t, pos, next, end);
    } else {
      CharReads(t, pos, s[i]);
      assert s[i] == '\'' || StandsForItself(t, pos, plural);
    }
  }

  lemma {:induction false} RunPieceSpells(s: string, i: nat, run: string, plural: bool, t: string, pos: nat, next: nat, end: nat)
    requires i < |s| && StartsRun(s, i, plural) && run == s[i..PieceEnd(s, i, plural)]
    requires next == pos + |Section(run, 0)| && Reads(t, pos, Section(run, 0)) && !CharAt(t, next, '\'')
    requires next <= end <= |t| && LiteralAs(t, next, end, s, i + |run|, plural)
    ensures LiteralAs(t, pos, end, s, i, plural)
  {
    RunReachesSpecial(s, i, plural);
    var k := ApostrophesEnd(s, i) - i;
    assert forall x :: 0 <= x <= k ==> run[x] == s[i + x];
    SectionAt(t, pos, run, 0, next - 1);
    RunSpells(t, pos, run, 0, k, plural, next - 1, s, i, end);
  }

  /** What follows an escaped run is never an apostrophe. */
  lemma {:induction false} AfterRun(s: string, i: nat, plural: bool, t: string, next: nat, end: nat)
    requires i < |s| && StartsRun(s, i, plural)
    requires end == next + |EscapeFrom(s, PieceEnd(s, i, plural), plural)|
    requires Reads(t, next, EscapeFrom(s, PieceEnd(s, i, plural), plural)) && !CharAt(t, end, '\'')
    ensures !CharAt(t, next, '\'')
  {
    var j := PieceEnd(s, i, plural);
    if j < |s| {
      assert !StartsRun(s, j, plural);
      SplitReads(t, next, Piece(s, j, plural), EscapeFrom(s, PieceEnd(s, j, plural), plural));
      ReadsAt(t, next, Piece(s, j, plural), 0);
    }
  }

  /** Escaped text, not followed by an apostrophe, stands for the text. */
  lemma {:induction false} EscapedSpells(s: string, i: nat, plural: bool, t: string, pos: nat, end: nat)
    requires i <= |s| && end == pos + |EscapeFrom(s, i, plural)| && Reads(t, pos, EscapeFrom(s, i, plural)) && !CharAt(t, end, '\'')
    ensures pos <= end <= |t| && LiteralAs(t, pos, end, s, i, plural)
    decreases |s| - i
  {
    if i < |s| {
      var j := PieceEnd(s, i, plural);
      var next := pos + |Piece(s, i, plural)|;
      SplitPiece(s, i, j, plural, t, pos, next, end);
      EscapedSpells(s, j, plural, t, next, end);
      if StartsRun(s, i, plural) {
        AfterRun(s, i, plural, t, next, end);
      }
      PieceSpells(s, i, j, plural, t, pos, next, end);
    }
  }

  lemma {:induction false} SplitPiece(s: string, i: nat, j: nat, plural: bool, t: string, pos: nat, next: nat, end: nat)
    requires i < |s| && end == pos + |EscapeFrom(s, i, plural)| && Reads(t, pos, EscapeFrom(s, i, plural))
    requires j == PieceEnd(s, i, plural) && next == pos + |Piece(s, i, plural)|
    ensures Reads(t, pos, Piece(s, i, plural)) && Reads(t, next, EscapeFrom(s, j, plural))
    ensures end == next + |EscapeFrom(s, j, plural)|
  {
    SplitReads(t, pos, Piece(s, i, plural), EscapeFrom(s, j, plural));
  }

  /** Escaped text parses, for every input, to one literal holding the input (nothing for no input). */
  lemma {:induction false} EscapeParses(s: string)
    ensures Parse(EscapeFrom(s, 0, false)) == Success(if s == "" then [] else [Literal(s)])
  {
    var t := EscapeFrom(s, 0, false);
    ReadsItself(t);
    EscapedSpells(s, 0, false, t, 0, |t|);
    var m := if s == "" then [] else [Literal(s)];
    NothingIsEmpty(t, 0, |t|, s, 0, false);
    if s != "" {
      assert MessageAs(t, |t|, |t|, m, 1, false) && NodeAs(t, 0, |t|, m[0], false);
    }
    SpelledParses(t, m);
  }

  // ---------------------------------------------------------------- the escaper itself

  predicate IsSpecial(c: char) { c == '{' || c == '}' || c == '<' || c == '|' }

  /** Index loops writing a buffer. */
  method Escape(s: string) returns (t: string)
    ensures t == EscapeFrom(s, 0, false)
  {
    t := "";
    var i := 0;
    while i < |s|
      invariant 0 <= i <= |s|
      invariant t + EscapeFrom(s, i, false) == EscapeFrom(s, 0, false)
    {
      var quoted := IsSpecial(s[i]);
      if s[i] == '\'' {
        quoted := LeadsIntoSpecial(s, i);
      }
      ghost var before := i;
      var piece;
      if quoted {
        piece, i := QuotedRun(s, i);
      } else {
        piece, i := if s[i] == '\'' then "''" else [s[i]], i + 1;
      }
      assert piece == Piece(s, before, false) && i == PieceEnd(s, before, false);
      Regroup(t, piece, EscapeFrom(s, i, false));
      t := t + piece;
    }
  }

  /** Whether the apostrophes at `i` lead into a special character. */
  method LeadsIntoSpecial(s: string, i: nat) returns (yes: bool)
    requires i < |s|
    ensures yes <==> StartsRun(s, i, false)
  {
    var j := i;
    while j < |s| && s[j] == '\''
      invariant i <= j <= |s|
      invariant ApostrophesEnd(s, i) == ApostrophesEnd(s, j)
    {
      j := j + 1;
    }
    yes := j < |s| && IsSpecial(s[j]);
  }

  /** Writes the maximal run at `i` as one quoted section and returns the index after it. */
  method QuotedRun(s: string, i: nat) returns (section: string, end: nat)
    requires i < |s| && StartsRun(s, i, false)
    ensures end == PieceEnd(s, i, false)
    ensures section == Piece(s, i, false)
  {
    end := i;
    while end < |s| && (s[end] == '\'' || IsSpecial(s[end]))
      invariant i <= end <= |s|
      invariant RunEnd(s, i, false) == RunEnd(s, end, false)
    {
      end := end + 1;
    }
    var body := DoubleAll(s[i..end]);
    section := "'" + (body + "'");
  }

  method DoubleAll(run: string) returns (body: string)
    ensures body == Doubled(run, 0)
  {
    body := "";
    for k := 0 to |run|
      invariant body + Doubled(run, k) == Doubled(run, 0)
    {
      var c := if run[k] == '\'' then "''" else [run[k]];
      Regroup(body, c, Doubled(run, k + 1));
      body := body + c;
    }
  }
}
