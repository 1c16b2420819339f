/**
 The formatter and the placeholder collectors of i18n/icu. Number formatting,
 CLDR categories and value printing are parameters (`Printers`), fixed by the
 language tag. The rendering function also records the fallbacks it took, so
 that "never happens" can be said of it.
 */
module IcuFormat {
  import opened Wrappers
  import opened IcuParser
  import opened IcuWellFormed
  import opened IcuEscape

  /** What a language tag fixes about values of type `V`. */
  datatype Printers<!V> = Printers(
    argument: (V, string) -> string,  // a value under a format
    sprint: V -> string,              // fmt.Sprint
    number: V -> Option<string>,      // the pound text of a numeric value
    category: V -> string,            // the plural category of a numeric value
    equals: (V, string) -> bool)      // whether a numeric value equals the digits of an "=N" key

  /** The fallbacks of the formatter: `#` with no plural value, no branch to take, a missing argument. */
  datatype Fallback = BarePound | NoBranch | Missing(name: string)

  datatype Rendered = Rendered(text: string, fallbacks: set<Fallback>)

  const NOTHING := Rendered("", {})

  function Then(a: Rendered, b: Rendered): Rendered {
    Rendered(a.text + b.text, a.fallbacks + b.fallbacks)
  }

  function Note(f: Fallback, r: Rendered): Rendered {
    r.(fallbacks := r.fallbacks + {f})
  }

  function FindOption(options: seq<Branch>, key: string): (r: Option<Branch>)
    ensures r.Some? ==> r.value in options && r.value.key == key
    ensures r.Some? <==> key in Keys(options)
  {
    if options == [] then None
    else if options[0].key == key then Some(options[0])
    else
      KeysOfTail(options);
      FindOption(options[1..], key)
  }

  lemma {:induction false} KeysOfTail(options: seq<Branch>)
    requires options != []
    ensures Keys(options) == {options[0].key} + Keys(options[1..])
  {
    assert options == [options[0]] + options[1..];
    forall k | k in Keys(options[1..])
      ensures k in Keys(options)
    {
      var i :| 0 <= i < |options[1..]| && options[1..][i].key == k;
      assert options[i + 1].key == k;
    }
    forall k | k in Keys(options)
      ensures k in {options[0].key} + Keys(options[1..])
    {
      var i :| 0 <= i < |options| && options[i].key == k;
      assert i > 0 ==> options[1..][i - 1].key == k;
    }
  }

  function ExactOption<V>(options: seq<Branch>, v: V, p: Printers<V>): (r: Option<Branch>)
    ensures r.Some? ==> r.value in options
  {
    if options == [] then None
    else if options[0].key != "" && options[0].key[0] == '=' && p.equals(v, options[0].key[1..]) then Some(options[0])
    else ExactOption(options[1..], v, p)
  }

  function OrElse(a: Option<Branch>, b: Option<Branch>): Option<Branch> {
    if a.Some? then a else b
  }

  /** The branch a plural takes for `v`: an exact match, else its category, else other. */
  function PluralBranch<V>(options: seq<Branch>, v: V, p: Printers<V>): (r: Option<Branch>)
    ensures r.Some? ==> r.value in options
    ensures "other" in Keys(options) ==> r.Some?
  {
    if p.number(v).None? then FindOption(options, "other")
    else OrElse(ExactOption(options, v, p), OrElse(FindOption(options, p.category(v)), FindOption(options, "other")))
  }

  function SelectBranch<V>(options: seq<Branch>, v: Option<V>, p: Printers<V>): (r: Option<Branch>)
    ensures r.Some? ==> r.value in options
    ensures "other" in Keys(options) ==> r.Some?
  {
    if v.None? then FindOption(options, "other")
    else OrElse(FindOption(options, p.sprint(v.value)), FindOption(options, "other"))
  }

  function Get<V>(args: map<string, V>, name: string): Option<V> {
    if name in args then Some(args[name]) else None
  }

  /** The text of a message; `pound` is the value of the nearest enclosing plural. */
  function Render<V>(m: Message, p: Printers<V>, args: map<string, V>, pound: Option<string>): (r: Rendered)
    decreases m, 0
  {
    if m == [] then NOTHING
    else Then(RenderNode(m[0], p, args, pound), Render(m[1..], p, args, pound))
  }

  function RenderNode<V>(n: Node, p: Printers<V>, args: map<string, V>, pound: Option<string>): (r: Rendered)
    decreases n, 1
  {
    match n
    case Literal(text) => Rendered(text, {})
    case Pound => if pound.Some? then Rendered(pound.value, {}) else Rendered("#", {BarePound})
    case Tag(name, children) =>
      Then(Rendered("<" + name + ">", {}), Then(Render(children, p, args, pound), Rendered("</" + name + ">", {})))
    case Argument(name, format, style) =>
      if name in args then Rendered(p.argument(args[name], format), {})
      else Rendered("{" + name + "}", {Missing(name)})
    case Plural(name, options) =>
      if name in args then
        var text := p.number(args[name]);
        RenderBranch(n, PluralBranch(options, args[name], p), p, args,
                     if text.Some? then text else Some(p.sprint(args[name])))
      else Rendered("{" + name + "}", {Missing(name)})
    case Select(name, options) =>
      var r := RenderBranch(n, SelectBranch(options, Get(args, name), p), p, args, pound);
      if name in args then r else Note(Missing(name), r)
  }

  /** The chosen branch of `n`, or nothing when there is none. */
  function RenderBranch<V>(n: Node, choice: Option<Branch>, p: Printers<V>, args: map<string, V>, pound: Option<string>)
    : (r: Rendered)
    requires n.Plural? || n.Select?
    requires choice.Some? ==> choice.value in n.options
    decreases n, 0
  {
    if choice.Some? then Render(choice.value.value, p, args, pound) else Rendered("", {NoBranch})
  }

  /** i18n/icu Format. */
  function Format<V>(m: Message, p: Printers<V>, args: map<string, V>): string {
    Render(m, p, args, None).text
  }

  // ---------------------------------------------------------------- what a message formats to

  /** A message is its nodes one after another. */
  lemma {:induction false} RenderAppends<V>(a: Message, b: Message, p: Printers<V>, args: map<string, V>, pound: Option<string>)
    ensures Render(a + b, p, args, pound) == Then(Render(a, p, args, pound), Render(b, p, args, pound))
    decreases |a|
  {
    var rb := Render(b, p, args, pound);
    if a == [] {
      assert a + b == b;
      assert "" + rb.text == rb.text && {} + rb.fallbacks == rb.fallbacks;
    } else {
      assert (a + b)[0] == a[0] && (a + b)[1..] == a[1..] + b;
      RenderAppends(a[1..], b, p, args, pound);
      ThenRegroups(RenderNode(a[0], p, args, pound), Render(a[1..], p, args, pound), rb);
    }
  }

  lemma {:induction false} ThenRegroups(a: Rendered, b: Rendered, c: Rendered)
    ensures Then(Then(a, b), c) == Then(a, Then(b, c))
  {
    assert (a.text + b.text) + c.text == a.text + (b.text + c.text);
  }

  /** What the nodes that make no choice format to, alone in a message. */
  lemma {:induction false} PlainNodesFormat<V>(n: Node, p: Printers<V>, args: map<string, V>, pound: Option<string>)
    ensures var text := Render([n], p, args, pound).text;
            match n
            case Literal(t) => text == t
            case Pound => text == (if pound.Some? then pound.value else "#")
            case Tag(name, children) => text == "<" + name + ">" + Render(children, p, args, pound).text + "</" + name + ">"
            case Argument(name, format, style) => text == (if name in args then p.argument(args[name], format) else "{" + name + "}")
            case Plural(name, options) => name !in args ==> text == "{" + name + "}"
            case Select(_, _) => true
  {
    OneNode(n, p, args, pound);
    if n.Tag? {
      var body := Render(n.children, p, args, pound).text;
      assert "<" + n.name + ">" + (body + ("</" + n.name + ">")) == "<" + n.name + ">" + body + "</" + n.name + ">";
    }
  }

  lemma {:induction false} OneNode<V>(n: Node, p: Printers<V>, args: map<string, V>, pound: Option<string>)
    ensures Render([n], p, args, pound).text == RenderNode(n, p, args, pound).text
  {
    assert [n][1..] == [];
    var text := RenderNode(n, p, args, pound).text;
    assert text + "" == text;
  }

  /** An option whose key is "=N" with N equal to the value. */
  predicate IsExact<V>(key: string, v: V, p: Printers<V>) { |key| > 0 && key[0] == '=' && p.equals(v, key[1..]) }

  /** The first option with that key. */
  predicate FirstNamed(options: seq<Branch>, i: nat, key: string) {
    i < |options| && options[i].key == key && forall j :: 0 <= j < i ==> options[j].key != key
  }

  /** Option `i` is the one a plural takes for `v`: the first exact one, else that of the category, else other; a non-number takes other. */
  predicate PluralTakes<V>(options: seq<Branch>, v: V, p: Printers<V>, i: nat) {
    && i < |options|
    && if p.number(v).None? then FirstNamed(options, i, "other")
       else if exists j :: 0 <= j < |options| && IsExact(options[j].key, v, p) then
         IsExact(options[i].key, v, p) && forall j :: 0 <= j < i ==> !IsExact(options[j].key, v, p)
       else if exists j :: 0 <= j < |options| && options[j].key == p.category(v) then FirstNamed(options, i, p.category(v))
       else FirstNamed(options, i, "other")
  }

  /** Option `i` is the one a select takes: that of the printed value, else other; an argument that is missing takes other. */
  predicate SelectTakes<V>(options: seq<Branch>, v: Option<V>, p: Printers<V>, i: nat) {
    && i < |options|
    && if v.Some? && exists j :: 0 <= j < |options| && options[j].key == p.sprint(v.value) then FirstNamed(options, i, p.sprint(v.value))
       else FirstNamed(options, i, "other")
  }

  lemma {:induction false} FindsFirst(options: seq<Branch>, i: nat, key: string)
    requires FirstNamed(options, i, key)
    ensures FindOption(options, key) == Some(options[i])
  {
    if i > 0 {
      assert options[0].key != key;
      FindsFirst(options[1..], i - 1, key);
    }
  }

  lemma {:induction false} FindsNone(options: seq<Branch>, key: string)
    requires forall j :: 0 <= j < |options| ==> options[j].key != key
    ensures FindOption(options, key).None?
  {
  }

  lemma {:induction false} ExactFirst<V>(options: seq<Branch>, i: nat, v: V, p: Printers<V>)
    requires i < |options| && IsExact(options[i].key, v, p) && forall j :: 0 <= j < i ==> !IsExact(options[j].key, v, p)
    ensures ExactOption(options, v, p) == Some(options[i])
  {
    if i > 0 {
      assert !IsExact(options[0].key, v, p);
      ExactFirst(options[1..], i - 1, v, p);
    }
  }

  lemma {:induction false} ExactNone<V>(options: seq<Branch>, v: V, p: Printers<V>)
    requires forall j :: 0 <= j < |options| ==> !IsExact(options[j].key, v, p)
    ensures ExactOption(options, v, p).None?
  {
    if options != [] {
      assert !IsExact(options[0].key, v, p);
      ExactNone(options[1..], v, p);
    }
  }

  lemma {:induction false} TakenIsBranch<V>(options: seq<Branch>, v: V, p: Printers<V>, i: nat)
    requires PluralTakes(options, v, p, i)
    ensures PluralBranch(options, v, p) == Some(options[i])
  {
    if p.number(v).None? {
      FindsFirst(options, i, "other");
    } else if exists j :: 0 <= j < |options| && IsExact(options[j].key, v, p) {
      ExactFirst(options, i, v, p);
    } else {
      ExactNone(options, v, p);
      if exists j :: 0 <= j < |options| && options[j].key == p.category(v) {
        FindsFirst(options, i, p.category(v));
      } else {
        FindsNone(options, p.category(v));
        FindsFirst(options, i, "other");
      }
    }
  }

  /** A bound plural formats as the option it takes, with the number, or the printed value, for its pound signs. */
  lemma {:induction false} PluralFormats<V>(name: string, options: seq<Branch>, p: Printers<V>, args: map<string, V>, pound: Option<string>, i: nat)
    requires name in args && PluralTakes(options, args[name], p, i)
    ensures var v := args[name];
            Render([Plural(name, options)], p, args, pound).text
            == Render(options[i].value, p, args, Some(if p.number(v).Some? then p.number(v).value else p.sprint(v))).text
  {
    OneNode(Plural(name, options), p, args, pound);
    TakenIsBranch(options, args[name], p, i);
  }

  /** A select formats as the option it takes, and leaves the pound signs to the plural around it. */
  lemma {:induction false} SelectFormats<V>(name: string, options: seq<Branch>, p: Printers<V>, args: map<string, V>, pound: Option<string>, i: nat)
    requires SelectTakes(options, Get(args, name), p, i)
    ensures Render([Select(name, options)], p, args, pound).text == Render(options[i].value, p, args, pound).text
  {
    OneNode(Select(name, options), p, args, pound);
    if name in args && exists j :: 0 <= j < |options| && options[j].key == p.sprint(args[name]) {
      FindsFirst(options, i, p.sprint(args[name]));
    } else {
      if name in args {
        FindsNone(options, p.sprint(args[name]));
      }
      FindsFirst(options, i, "other");
    }
  }

  /** Choices that have `other`, as all parsed ones do, always take an option. */
  lemma {:induction false} ChoicesTake<V>(options: seq<Branch>, v: V, p: Printers<V>)
    requires "other" in Keys(options)
    ensures exists i: nat :: PluralTakes(options, v, p, i)
    ensures exists i: nat :: SelectTakes(options, Some(v), p, i)
  {
    var other := FirstPlace(options, "other");
    if p.number(v).Some? && exists j :: 0 <= j < |options| && IsExact(options[j].key, v, p) {
      var i := ExactPlace(options, v, p);
      assert PluralTakes(options, v, p, i);
    } else if p.number(v).Some? && exists j :: 0 <= j < |options| && options[j].key == p.category(v) {
      var i := FirstPlace(options, p.category(v));
      assert PluralTakes(options, v, p, i);
    } else {
      assert PluralTakes(options, v, p, other);
    }
    if exists j :: 0 <= j < |options| && options[j].key == p.sprint(v) {
      var i := FirstPlace(options, p.sprint(v));
      assert SelectTakes(options, Some(v), p, i);
    } else {
      assert SelectTakes(options, Some(v), p, other);
    }
  }

  lemma {:induction false} FirstPlace(options: seq<Branch>, key: string) returns (i: nat)
    requires exists j :: 0 <= j < |options| && options[j].key == key
    ensures FirstNamed(options, i, key)
  {
    i := 0;
    while options[i].key != key
      invariant i < |options| && forall j :: 0 <= j < i ==> options[j].key != key
      invariant exists j :: i <= j < |options| && options[j].key == key
      decreases |options| - i
    {
      i := i + 1;
    }
  }

  lemma {:induction false} ExactPlace<V>(options: seq<Branch>, v: V, p: Printers<V>) returns (i: nat)
    requires exists j :: 0 <= j < |options| && IsExact(options[j].key, v, p)
    ensures i < |options| && IsExact(options[i].key, v, p) && forall j :: 0 <= j < i ==> !IsExact(options[j].key, v, p)
  {
    i := 0;
    while !IsExact(options[i].key, v, p)
      invariant i < |options| && forall j :: 0 <= j < i ==> !IsExact(options[j].key, v, p)
      invariant exists j :: i <= j < |options| && IsExact(options[j].key, v, p)
      decreases |options| - i
    {
      i := i + 1;
    }
  }

  // ---------------------------------------------------------------- placeholders

  function ArgumentNames(m: Message): (names: set<string>)
    decreases m, 0
  {
    if m == [] then {} else NodeArguments(m[0]) + ArgumentNames(m[1..])
  }

  function NodeArguments(n: Node): (names: set<string>)
    decreases n, 0
  {
    match n
    case Argument(name, _, _) => {name}
    case Plural(name, options) => {name} + BranchArguments(options)
    case Select(name, options) => {name} + BranchArguments(options)
    case Tag(_, children) => ArgumentNames(children)
    case _ => {}
  }

  function BranchArguments(options: seq<Branch>): (names: set<string>)
    decreases options, 0
  {
    if options == [] then {} else ArgumentNames(options[0].value) + BranchArguments(options[1..])
  }

  function TagNames(m: Message): (names: set<string>)
    decreases m, 0
  {
    if m == [] then {} else NodeTags(m[0]) + TagNames(m[1..])
  }

  function NodeTags(n: Node): (names: set<string>)
    decreases n, 0
  {
    match n
    case Plural(_, options) => BranchTags(options)
    case Select(_, options) => BranchTags(options)
    case Tag(name, children) => {name} + TagNames(children)
    case _ => {}
  }

  function BranchTags(options: seq<Branch>): (names: set<string>)
    decreases options, 0
  {
    if options == [] then {} else TagNames(options[0].value) + BranchTags(options[1..])
  }

  /** Somewhere in the message, at any depth, a placeholder (or with `tags` an element) has the name `x`. */
  ghost predicate Occurs(m: Message, x: string, tags: bool)
    decreases m, 0
  {
    exists i :: 0 <= i < |m| && OccursIn(m[i], x, tags)
  }

  ghost predicate OccursIn(n: Node, x: string, tags: bool)
    decreases n, 0
  {
    match n
    case Argument(name, _, _) => !tags && name == x
    case Plural(name, options) => (!tags && name == x) || exists i :: 0 <= i < |options| && Occurs(options[i].value, x, tags)
    case Select(name, options) => (!tags && name == x) || exists i :: 0 <= i < |options| && Occurs(options[i].value, x, tags)
    case Tag(name, children) => (tags && name == x) || Occurs(children, x, tags)
    case _ => false
  }

  function NamesIn(m: Message, tags: bool): set<string> { if tags then TagNames(m) else ArgumentNames(m) }

  function NodeNames(n: Node, tags: bool): set<string> { if tags then NodeTags(n) else NodeArguments(n) }

  function BranchNames(options: seq<Branch>, tags: bool): set<string> { if tags then BranchTags(options) else BranchArguments(options) }

  /** The collected names are exactly those that occur. */
  lemma {:induction false} NamesOccur(m: Message, x: string, tags: bool)
    ensures x in NamesIn(m, tags) <==> Occurs(m, x, tags)
    decreases m, 0
  {
    if m != [] {
      NodeNamesOccur(m[0], x, tags);
      NamesOccur(m[1..], x, tags);
      OccursSplits(m, x, tags);
    }
  }

  lemma {:induction false} OccursSplits(m: Message, x: string, tags: bool)
    requires m != []
    ensures Occurs(m, x, tags) <==> OccursIn(m[0], x, tags) || Occurs(m[1..], x, tags)
  {
    if Occurs(m[1..], x, tags) {
      var i :| 0 <= i < |m[1..]| && OccursIn(m[1..][i], x, tags);
      assert OccursIn(m[i + 1], x, tags);
    }
    if Occurs(m, x, tags) {
      var i :| 0 <= i < |m| && OccursIn(m[i], x, tags);
      assert i > 0 ==> m[i] == m[1..][i - 1];
    }
  }

  lemma {:induction false} NodeNamesOccur(n: Node, x: string, tags: bool)
    ensures x in NodeNames(n, tags) <==> OccursIn(n, x, tags)
    decreases n, 0
  {
    match n
    case Plural(_, options) => BranchNamesOccur(options, x, tags);
    case Select(_, options) => BranchNamesOccur(options, x, tags);
    case Tag(_, children) => NamesOccur(children, x, tags);
    case _ =>
  }

  lemma {:induction false} BranchNamesOccur(options: seq<Branch>, x: string, tags: bool)
    ensures x in BranchNames(options, tags) <==> exists i :: 0 <= i < |options| && Occurs(options[i].value, x, tags)
    decreases options, 0
  {
    if options != [] {
      NamesOccur(options[0].value, x, tags);
      BranchNamesOccur(options[1..], x, tags);
      if exists i :: 0 <= i < |options[1..]| && Occurs(options[1..][i].value, x, tags) {
        var i :| 0 <= i < |options[1..]| && Occurs(options[1..][i].value, x, tags);
        assert Occurs(options[i + 1].value, x, tags);
      }
      if exists i :: 0 <= i < |options| && Occurs(options[i].value, x, tags) {
        var i :| 0 <= i < |options| && Occurs(options[i].value, x, tags);
        assert i > 0 ==> options[i] == options[1..][i - 1];
      }
    }
  }

  lemma {:induction false} ArgumentsOfBranch(options: seq<Branch>, option: Branch)
    requires option in options
    ensures ArgumentNames(option.value) <= BranchArguments(options)
    decreases options
  {
    if option != options[0] {
      ArgumentsOfBranch(options[1..], option);
    }
  }

  // ---------------------------------------------------------------- no branch is missing, no # is bare

  /** A message as the parser makes them always finds its branches and its pound values. */
  lemma {:induction false} WellFormedRenders<V>(m: Message, p: Printers<V>, args: map<string, V>, pound: Option<string>)
    requires WellFormed(m, pound.Some?)
    ensures BarePound !in Render(m, p, args, pound).fallbacks
    ensures NoBranch !in Render(m, p, args, pound).fallbacks
    decreases m, 0
  {
    if m != [] {
      NodeRenders(m[0], p, args, pound);
      WellFormedRenders(m[1..], p, args, pound);
    }
  }

  lemma {:induction false} NodeRenders<V>(n: Node, p: Printers<V>, args: map<string, V>, pound: Option<string>)
    requires NodeOk(n, pound.Some?)
    ensures BarePound !in RenderNode(n, p, args, pound).fallbacks
    ensures NoBranch !in RenderNode(n, p, args, pound).fallbacks
    decreases n, 1
  {
    match n
    case Tag(name, children) =>
      WellFormedRenders(children, p, args, pound);
    case Plural(name, options) =>
      if name in args {
        var text := p.number(args[name]);
        BranchRenders(n, PluralBranch(options, args[name], p), p, args,
                      if text.Some? then text else Some(p.sprint(args[name])));
      }
    case Select(name, options) =>
      BranchRenders(n, SelectBranch(options, Get(args, name), p), p, args, pound);
    case _ =>
  }

  lemma {:induction false} BranchRenders<V>(n: Node, choice: Option<Branch>, p: Printers<V>, args: map<string, V>, pound: Option<string>)
    requires n.Plural? || n.Select?
    requires choice.Some? && choice.value in n.options && BranchesOk(n.options, pound.Some?)
    ensures BarePound !in RenderBranch(n, choice, p, args, pound).fallbacks
    ensures NoBranch !in RenderBranch(n, choice, p, args, pound).fallbacks
    decreases n, 0
  {
    WellFormedRenders(choice.value.value, p, args, pound);
  }

  // ---------------------------------------------------------------- only named arguments matter

  /** Two argument maps that agree on a set of names: the same names bound, to the same values. */
  predicate AgreeOn<V(==)>(a: map<string, V>, b: map<string, V>, names: set<string>) {
    forall n :: n in names ==> Get(a, n) == Get(b, n)
  }

  /** Formatting looks at the arguments that Arguments names, and at no others. */
  lemma {:induction false} OnlyNamedArguments<V>(m: Message, p: Printers<V>, a: map<string, V>, b: map<string, V>, pound: Option<string>)
    requires AgreeOn(a, b, ArgumentNames(m))
    ensures Render(m, p, a, pound) == Render(m, p, b, pound)
    decreases m, 0
  {
    if m != [] {
      OnlyNamedInNode(m[0], p, a, b, pound);
      OnlyNamedArguments(m[1..], p, a, b, pound);
    }
  }

  lemma {:induction false} OnlyNamedInNode<V>(n: Node, p: Printers<V>, a: map<string, V>, b: map<string, V>, pound: Option<string>)
    requires AgreeOn(a, b, NodeArguments(n))
    ensures RenderNode(n, p, a, pound) == RenderNode(n, p, b, pound)
    decreases n, 1
  {
    match n
    case Argument(name, _, _) =>
      assert Get(a, name) == Get(b, name);
    case Tag(name, children) =>
      OnlyNamedArguments(children, p, a, b, pound);
    case Plural(name, options) =>
      assert Get(a, name) == Get(b, name);
      if name in a {
        var text := p.number(a[name]);
        OnlyNamedInBranch(n, PluralBranch(options, a[name], p), p, a, b,
                          if text.Some? then text else Some(p.sprint(a[name])));
      }
    case Select(name, options) =>
      assert Get(a, name) == Get(b, name);
      OnlyNamedInBranch(n, SelectBranch(options, Get(a, name), p), p, a, b, pound);
    case _ =>
  }

  lemma {:induction false} OnlyNamedInBranch<V>(n: Node, choice: Option<Branch>, p: Printers<V>,
                                                a: map<string, V>, b: map<string, V>, pound: Option<string>)
    requires n.Plural? || n.Select?
    requires choice.Some? ==> choice.value in n.options
    requires AgreeOn(a, b, BranchArguments(n.options))
    ensures RenderBranch(n, choice, p, a, pound) == RenderBranch(n, choice, p, b, pound)
    decreases n, 0
  {
    if choice.Some? {
      ArgumentsOfBranch(n.options, choice.value);
      OnlyNamedArguments(choice.value.value, p, a, b, pound);
    }
  }

  /** A missing-argument fallback is always for a named argument that is not bound. */
  lemma {:induction false} MissingIsNamed<V>(m: Message, p: Printers<V>, args: map<string, V>, pound: Option<string>, x: string)
    requires Missing(x) in Render(m, p, args, pound).fallbacks
    ensures x in ArgumentNames(m) && x !in args
    decreases m, 0
  {
    if Missing(x) in RenderNode(m[0], p, args, pound).fallbacks {
      MissingInNode(m[0], p, args, pound, x);
    } else {
      MissingIsNamed(m[1..], p, args, pound, x);
    }
  }

  lemma {:induction false} MissingInNode<V>(n: Node, p: Printers<V>, args: map<string, V>, pound: Option<string>, x: string)
    requires Missing(x) in RenderNode(n, p, args, pound).fallbacks
    ensures x in NodeArguments(n) && x !in args
    decreases n, 1
  {
    match n
    case Tag(name, children) =>
      MissingIsNamed(children, p, args, pound, x);
    case Plural(name, options) =>
      if name in args {
        var text := p.number(args[name]);
        MissingInBranch(n, PluralBranch(options, args[name], p), p, args,
                        if text.Some? then text else Some(p.sprint(args[name])), x);
      }
    case Select(name, options) =>
      var choice := SelectBranch(options, Get(args, name), p);
      if Missing(x) in RenderBranch(n, choice, p, args, pound).fallbacks {
        MissingInBranch(n, choice, p, args, pound, x);
      }
    case _ =>
  }

  lemma {:induction false} MissingInBranch<V>(n: Node, choice: Option<Branch>, p: Printers<V>, args: map<string, V>,
                                              pound: Option<string>, x: string)
    requires n.Plural? || n.Select?
    requires choice.Some? ==> choice.value in n.options
    requires Missing(x) in RenderBranch(n, choice, p, args, pound).fallbacks
    ensures x in BranchArguments(n.options) && x !in args
    decreases n, 0
  {
    ArgumentsOfBranch(n.options, choice.value);
    MissingIsNamed(choice.value.value, p, args, pound, x);
  }

  /** Whatever parses, formatted with every argument it names, formats without any fallback. */
  lemma {:induction false} CoveredParseRenders<V>(s: string, m: Message, p: Printers<V>, args: map<string, V>)
    requires Parse(s) == Success(m) && ArgumentNames(m) <= args.Keys
    ensures Render(m, p, args, None).fallbacks == {}
  {
    ParseIsWellFormed(s);
    WellFormedRenders(m, p, args, None);
    var r := Render(m, p, args, None);
    forall f | f in r.fallbacks
      ensures false
    {
      if f.Missing? {
        MissingIsNamed(m, p, args, None, f.name);
      }
    }
  }

  /** Escaped text is a message without placeholders that formats back to the text, for every input. */
  lemma {:induction false} EscapedTextFormats<V>(s: string, p: Printers<V>, args: map<string, V>)
    ensures var r := Parse(EscapeFrom(s, 0, false));
            r.Success? && ArgumentNames(r.value) == {} && TagNames(r.value) == {} && Format(r.value, p, args) == s
  {
    EscapeParses(s);
    var m := Parse(EscapeFrom(s, 0, false)).value;
    if s != "" {
      assert m == [Literal(s)] && m[1..] == [];
      assert Render(m, p, args, None) == Then(Rendered(s, {}), Render(m[1..], p, args, None));
      assert s + "" == s;
      assert TagNames(m) == NodeTags(m[0]) + TagNames(m[1..]);
    }
  }

  // ---------------------------------------------------------------- the code

  /** strings.Builder. */
  class Builder {
    var text: string

    constructor ()
      ensures text == ""
    {
      text := "";
    }

    method Write(s: string)
      modifies this
      ensures text == old(text) + s
    {
      text := text + s;
    }
  }

  lemma {:induction false} AppendAll(a: string, b: string, c: string)
    ensures a + (b + c) == (a + b) + c && a + "" == a
  {
  }

  /** Renders nodes one after another into a shared builder. */
  method WriteNodes<V>(b: Builder, nodes: Message, p: Printers<V>, args: map<string, V>, pound: Option<string>)
    modifies b
    ensures b.text == old(b.text) + Render(nodes, p, args, pound).text
    decreases nodes, 0
  {
    var i := 0;
    AppendAll(b.text, "", "");
    ghost var all := old(b.text) + Render(nodes, p, args, pound).text;
    assert nodes[0..] == nodes;
    while i < |nodes|
      invariant 0 <= i <= |nodes|
      invariant b.text + Render(nodes[i..], p, args, pound).text == all
    {
      assert nodes[i..][1..] == nodes[i + 1..];
      AppendAll(b.text, RenderNode(nodes[i], p, args, pound).text, Render(nodes[i + 1..], p, args, pound).text);
      WriteNode(b, nodes[i], p, args, pound);
      i := i + 1;
    }
    AppendAll(b.text, "", "");
  }

  method WriteNode<V>(b: Builder, n: Node, p: Printers<V>, args: map<string, V>, pound: Option<string>)
    modifies b
    ensures b.text == old(b.text) + RenderNode(n, p, args, pound).text
    decreases n, 1
  {
    match n
    case Literal(text) => b.Write(text);
    case Pound =>
      if pound.Some? { b.Write(pound.value); } else { b.Write("#"); }
    case Tag(name, children) =>
      b.Write("<" + name + ">");
      WriteNodes(b, children, p, args, pound);
      b.Write("</" + name + ">");
      AppendAll(old(b.text), "<" + name + ">", Render(children, p, args, pound).text);
      AppendAll(old(b.text), "<" + name + ">" + Render(children, p, args, pound).text, "</" + name + ">");
      AppendAll("<" + name + ">", Render(children, p, args, pound).text, "</" + name + ">");
    case Argument(name, format, style) =>
      if name in args { b.Write(p.argument(args[name], format)); } else { b.Write("{" + name + "}"); }
    case Plural(name, options) =>
      if name in args { WritePlural(b, n, args[name], p, args); } else { b.Write("{" + name + "}"); }
    case Select(name, options) =>
      var opt := if name in args then FindOption(options, p.sprint(args[name])) else None;
      if opt.None? { opt := FindOption(options, "other"); }
      WriteOption(b, n, opt, p, args, pound);
  }

  /** The branch selected by an exact match, else by category, else other. */
  method WritePlural<V>(b: Builder, n: Node, v: V, p: Printers<V>, args: map<string, V>)
    requires n.Plural?
    modifies b
    ensures var text := p.number(v);
            b.text == old(b.text)
                      + RenderBranch(n, PluralBranch(n.options, v, p), p, args,
                                     if text.Some? then text else Some(p.sprint(v))).text
    decreases n, 0, 1
  {
    if p.number(v).None? {
      WriteOption(b, n, FindOption(n.options, "other"), p, args, Some(p.sprint(v)));
      return;
    }
    var opt := ExactOption(n.options, v, p);
    if opt.None? { opt := FindOption(n.options, p.category(v)); }
    if opt.None? { opt := FindOption(n.options, "other"); }
    WriteOption(b, n, opt, p, args, p.number(v));
  }

  method WriteOption<V>(b: Builder, n: Node, opt: Option<Branch>, p: Printers<V>, args: map<string, V>, pound: Option<string>)
    requires n.Plural? || n.Select?
    requires opt.Some? ==> opt.value in n.options
    modifies b
    ensures b.text == old(b.text) + RenderBranch(n, opt, p, args, pound).text
    decreases n, 0, 0
  {
    if opt.Some? {
      WriteNodes(b, opt.value.value, p, args, pound);
    } else {
      AppendAll(b.text, "", "");
    }
  }

  method FormatMessage<V>(m: Message, p: Printers<V>, args: map<string, V>) returns (text: string)
    ensures text == Format(m, p, args)
  {
    var b := new Builder();
    WriteNodes(b, m, p, args, None);
    text := b.text;
  }

  /** A set filled in place. */
  class NameSet {
    var names: set<string>

    constructor ()
      ensures names == {}
    {
      names := {};
    }
  }

  /** Adds every argument name of `nodes` to `set`, options and tag bodies included. */
  method CollectArguments(nodes: Message, names: NameSet)
    modifies names
    ensures names.names == old(names.names) + ArgumentNames(nodes)
    decreases nodes, 0
  {
    var i := 0;
    assert nodes[0..] == nodes;
    while i < |nodes|
      invariant 0 <= i <= |nodes|
      invariant names.names + ArgumentNames(nodes[i..]) == old(names.names) + ArgumentNames(nodes)
    {
      assert nodes[i..][1..] == nodes[i + 1..];
      var n := nodes[i];
      match n {
        case Argument(name, _, _) =>
          names.names := names.names + {name};
        case Plural(name, options) =>
          names.names := names.names + {name};
          CollectFromOptions(options, names);
        case Select(name, options) =>
          names.names := names.names + {name};
          CollectFromOptions(options, names);
        case Tag(_, children) =>
          CollectArguments(children, names);
        case _ =>
      }
      i := i + 1;
    }
  }

  method CollectFromOptions(options: seq<Branch>, names: NameSet)
    modifies names
    ensures names.names == old(names.names) + BranchArguments(options)
    decreases options, 0
  {
    var i := 0;
    assert options[0..] == options;
    while i < |options|
      invariant 0 <= i <= |options|
      invariant names.names + BranchArguments(options[i..]) == old(names.names) + BranchArguments(options)
    {
      assert options[i..][1..] == options[i + 1..];
      CollectArguments(options[i].value, names);
      i := i + 1;
    }
  }
}
