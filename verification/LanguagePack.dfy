/** Translation checks (i18n/pack) and message lookup with its parse cache (i18n/catalog). */
module LanguagePack {
  import opened Wrappers
  import opened IcuParser
  import opened IcuFormat
  import opened IcuCursor

  datatype Entry = Entry(message: string, sourceHash: string)

  datatype Status = Translated | NeedsReview | Invalid | Absent

  /** The textual checks that look at the raw message, and the hash of a source text. */
  datatype Checks = Checks(clean: string -> bool, hash: string -> string)

  /** Set equality as the code computes it: equal sizes and inclusion one way. */
  predicate SameSet(a: set<string>, b: set<string>) {
    |a| == |b| && forall k :: k in a ==> k in b
  }

  lemma {:induction false} SameSetIsEquality(a: set<string>, b: set<string>)
    ensures SameSet(a, b) <==> a == b
  {
    if SameSet(a, b) {
      assert a + (b - a) == b;
      assert |b| == |a| + |b - a|;
      assert b - a == {};
    }
  }

  predicate MarkupOk(raw: string, m: Message, checks: Checks) {
    TagNames(m) <= {"b", "link"} && checks.clean(raw)
  }

  /** Classifies a translation of `reference`; None means the pack has no entry for the id. */
  function EntryStatus(reference: Entry, tr: Option<Entry>, checks: Checks): (s: Status) {
    if tr.None? || tr.value.message == "" then Absent
    else
      var parsed := Parse(tr.value.message);
      if parsed.Failure? then Invalid
      else
        var refParsed := Parse(reference.message);
        if refParsed.Success? && !SameSet(ArgumentNames(refParsed.value), ArgumentNames(parsed.value)) then Invalid
        else if !MarkupOk(tr.value.message, parsed.value, checks) then Invalid
        else if tr.value.sourceHash != "" && tr.value.sourceHash != checks.hash(reference.message) then NeedsReview
        else Translated
  }

  predicate Usable(s: Status) { s == Translated || s == NeedsReview }

  predicate Keeps(references: map<string, Entry>, tr: map<string, Entry>, checks: Checks, id: string) {
    id in tr && id in references && Usable(EntryStatus(references[id], Some(tr[id]), checks))
  }

  /** The entries of a translation that may be shown to users. */
  function Kept(references: map<string, Entry>, tr: map<string, Entry>, checks: Checks): map<string, Entry> {
    KeptAmong(references, tr, checks, tr.Keys)
  }

  function KeptAmong(references: map<string, Entry>, tr: map<string, Entry>, checks: Checks, ids: set<string>): map<string, Entry> {
    map id | id in ids && Keeps(references, tr, checks, id) :: tr[id]
  }

  lemma {:induction false} KeptGrows(references: map<string, Entry>, tr: map<string, Entry>, checks: Checks, ids: set<string>, id: string)
    ensures KeptAmong(references, tr, checks, ids + {id}) ==
            var kept := KeptAmong(references, tr, checks, ids);
            if Keeps(references, tr, checks, id) then kept[id := tr[id]] else kept
  {
  }

  /** The parsed forms have the same argument names, unless the reference does not parse. */
  predicate SamePlaceholders(reference: string, m: Message) {
    Parse(reference).Success? ==> ArgumentNames(Parse(reference).value) == ArgumentNames(m)
  }

  lemma {:induction false} OnlyTheseTags(tags: set<string>, allowed: set<string>)
    requires allowed == {"b", "link"}
    ensures tags <= allowed <==> forall t :: t in tags ==> t == "b" || t == "link"
  {
    assert forall t: string :: t in allowed <==> t == "b" || t == "link";
  }

  lemma {:induction false} SameTest(reference: string, m: Message)
    ensures SamePlaceholders(reference, m) <==>
            (Parse(reference).Success? ==> SameSet(ArgumentNames(Parse(reference).value), ArgumentNames(m)))
  {
    if Parse(reference).Success? {
      SameSetIsEquality(ArgumentNames(Parse(reference).value), ArgumentNames(m));
    }
  }

  /** Only allowed elements, and raw text that passes the textual checks. */
  predicate GoodMarkup(raw: string, m: Message, checks: Checks) {
    (forall t :: t in TagNames(m) ==> t == "b" || t == "link") && checks.clean(raw)
  }

  lemma {:induction false} UsableExactly(reference: Entry, tr: Entry, checks: Checks)
    ensures Usable(EntryStatus(reference, Some(tr), checks)) <==>
            && tr.message != "" && Parse(tr.message).Success? && SamePlaceholders(reference.message, Parse(tr.message).value)
            && GoodMarkup(tr.message, Parse(tr.message).value, checks)
  {
    if Parse(tr.message).Success? {
      var m := Parse(tr.message).value;
      SameTest(reference.message, m);
      OnlyTheseTags(TagNames(m), {"b", "link"});
      assert MarkupOk(tr.message, m, checks) <==> GoodMarkup(tr.message, m, checks);
    }
  }

  /** A translation is kept exactly when it is there, parses, names the same arguments, and has only allowed and clean markup. */
  lemma {:induction false} KeptExactly(references: map<string, Entry>, tr: map<string, Entry>, checks: Checks, id: string)
    ensures id in Kept(references, tr, checks) <==>
            && id in tr && id in references && tr[id].message != "" && Parse(tr[id].message).Success?
            && SamePlaceholders(references[id].message, Parse(tr[id].message).value)
            && GoodMarkup(tr[id].message, Parse(tr[id].message).value, checks)
    ensures id in Kept(references, tr, checks) ==> Kept(references, tr, checks)[id] == tr[id]
  {
    if id in tr && id in references {
      UsableExactly(references[id], tr[id], checks);
    }
  }

  /** What kind of entry a translation is: absent without text, for review when its source text has changed since. */
  lemma {:induction false} StatusExactly(reference: Entry, tr: Option<Entry>, checks: Checks)
    ensures var s := EntryStatus(reference, tr, checks);
            && (s == Absent <==> tr.None? || tr.value.message == "")
            && (Usable(s) ==> (s == NeedsReview <==> tr.value.sourceHash != "" && tr.value.sourceHash != checks.hash(reference.message)))
  {
  }

  /** The loop that computes them. */
  method ValidEntries(references: map<string, Entry>, tr: map<string, Entry>, checks: Checks)
    returns (out: map<string, Entry>)
    ensures out == Kept(references, tr, checks)
  {
    out := map[];
    var todo := tr.Keys;
    ghost var done := {};
    while todo != {}
      invariant done + todo == tr.Keys
      invariant out == KeptAmong(references, tr, checks, done)
      decreases |todo|
    {
      var id :| id in todo;
      KeptGrows(references, tr, checks, done, id);
      todo, done := todo - {id}, done + {id};
      if id in references && Usable(EntryStatus(references[id], Some(tr[id]), checks)) {
        out := out[id := tr[id]];
      }
    }
  }

  /**
   A kept translation parses, uses only the allowed tags, and formats without any
   fallback on every argument map that covers the reference message.
   */
  lemma {:induction false} KeptTranslationRenders<V>(
    references: map<string, Entry>, tr: map<string, Entry>, checks: Checks, id: string,
    reference: Message, p: Printers<V>, args: map<string, V>)
    requires id in Kept(references, tr, checks)
    requires Parse(references[id].message) == Success(reference)
    requires ArgumentNames(reference) <= args.Keys
    ensures var r := Parse(Kept(references, tr, checks)[id].message);
            && r.Success? && TagNames(r.value) <= {"b", "link"}
            && Render(r.value, p, args, None).fallbacks == {}
  {
    var m := Parse(tr[id].message).value;
    SameSetIsEquality(ArgumentNames(reference), ArgumentNames(m));
    CoveredParseRenders(tr[id].message, m, p, args);
  }

  // ---------------------------------------------------------------- lookup

  type Packs = map<string, map<string, Entry>>

  /** The entry `key` holds for `id`, when it has one that parses. */
  function Candidate(packs: Packs, key: string, id: string): (r: Option<Message>) {
    if key in packs && id in packs[key] then
      var parsed := Parse(packs[key][id].message);
      if parsed.Success? then Some(parsed.value) else None
    else None
  }

  /** Lookup with no cache and no skipping of repeated keys: the first key with a candidate wins. */
  function FreshLookup<V>(packs: Packs, keys: seq<string>, id: string, printers: string -> Printers<V>, args: map<string, V>)
    : (r: Option<string>)
  {
    if keys == [] then None
    else
      var m := Candidate(packs, keys[0], id);
      if m.Some? then Some(Format(m.value, printers(keys[0]), args))
      else FreshLookup(packs, keys[1..], id, printers, args)
  }

  lemma {:induction false} FreshLookupSkips<V>(packs: Packs, keys: seq<string>, i: nat, id: string,
                                               printers: string -> Printers<V>, args: map<string, V>)
    requires i < |keys| && Candidate(packs, keys[i], id).None?
    ensures FreshLookup(packs, keys[i..], id, printers, args) == FreshLookup(packs, keys[i + 1..], id, printers, args)
  {
    assert keys[i..][1..] == keys[i + 1..];
  }

  lemma {:induction false} FreshLookupFails<V>(packs: Packs, keys: seq<string>, id: string,
                                               printers: string -> Printers<V>, args: map<string, V>)
    ensures FreshLookup(packs, keys, id, printers, args).None? <==>
            forall i :: 0 <= i < |keys| ==> Candidate(packs, keys[i], id).None?
  {
    if keys != [] {
      FreshLookupFails(packs, keys[1..], id, printers, args);
      assert forall i :: 1 <= i < |keys| ==> keys[i] == keys[1..][i - 1];
    }
  }

  /** A pack has an entry for the id, and it parses to this message. */
  predicate Shows(packs: Packs, key: string, id: string, m: Message) {
    key in packs && id in packs[key] && Parse(packs[key][id].message) == Success(m)
  }

  ghost predicate CanShow(packs: Packs, key: string, id: string) { exists m: Message :: Shows(packs, key, id, m) }

  /** The exact tag wins over the base language, and both over the reference; each formats under its own language. */
  lemma {:induction false} LookupPrefers<V>(packs: Packs, tag: string, base: string, reference: string, id: string,
                                            printers: string -> Printers<V>, args: map<string, V>, m: Message)
    ensures var r := FreshLookup(packs, [tag, base, reference], id, printers, args);
            && (Shows(packs, tag, id, m) ==> r == Some(Format(m, printers(tag), args)))
            && (!CanShow(packs, tag, id) && Shows(packs, base, id, m) ==> r == Some(Format(m, printers(base), args)))
            && (!CanShow(packs, tag, id) && !CanShow(packs, base, id) && Shows(packs, reference, id, m) ==>
                  r == Some(Format(m, printers(reference), args)))
            && (!CanShow(packs, tag, id) && !CanShow(packs, base, id) && !CanShow(packs, reference, id) ==> r.None?)
  {
    FirstOf(packs, tag, [base, reference], [tag, base, reference], id, printers, args);
    FirstOf(packs, base, [reference], [base, reference], id, printers, args);
    FirstOf(packs, reference, [], [reference], id, printers, args);
    CandidateShows(packs, tag, id);
    CandidateShows(packs, base, id);
    CandidateShows(packs, reference, id);
  }

  lemma {:induction false} FirstOf<V>(packs: Packs, key: string, rest: seq<string>, keys: seq<string>, id: string,
                                      printers: string -> Printers<V>, args: map<string, V>)
    requires keys == [key] + rest
    ensures FreshLookup(packs, keys, id, printers, args)
            == var m := Candidate(packs, key, id);
               if m.Some? then Some(Format(m.value, printers(key), args)) else FreshLookup(packs, rest, id, printers, args)
  {
    assert keys[0] == key && keys[1..] == rest;
  }

  lemma {:induction false} CandidateShows(packs: Packs, key: string, id: string)
    ensures Candidate(packs, key, id).Some? <==> CanShow(packs, key, id)
  {
    if Candidate(packs, key, id).Some? {
      assert Shows(packs, key, id, Candidate(packs, key, id).value);
    }
  }

  /** The packs never change; the cache remembers successful parses. */
  class Catalog {
    const reference: string
    const packs: Packs
    var cache: map<(string, string), Message>

    /** Every cached message is what a fresh parse of its entry gives. */
    ghost predicate Valid()
      reads this
    {
      forall k :: k in cache ==> Candidate(packs, k.0, k.1) == Some(cache[k])
    }

    constructor (reference: string, packs: Packs)
      ensures Valid() && this.reference == reference && this.packs == packs && cache == map[]
    {
      this.reference := reference;
      this.packs := packs;
      cache := map[];
    }

    method ParseCached(key: string, id: string) returns (r: Option<Message>)
      requires Valid() && key in packs && id in packs[key]
      modifies this
      ensures Valid() && r == Candidate(packs, key, id)
      ensures forall k :: k in old(cache) ==> k in cache && cache[k] == old(cache)[k]
    {
      if (key, id) in cache {
        return Some(cache[(key, id)]);
      }
      var parsed := ParseMessage(packs[key][id].message);
      if parsed.Failure? {
        return None;
      }
      cache := cache[(key, id) := parsed.value];
      return Some(parsed.value);
    }

    /** Tries the exact tag, then its base language, then the reference, skipping repeats. */
    method Lookup<V>(tag: string, base: string, id: string, printers: string -> Printers<V>, args: map<string, V>)
      returns (r: Option<string>)
      requires Valid()
      modifies this
      ensures Valid()
      ensures r == FreshLookup(packs, [tag, base, reference], id, printers, args)
    {
      var keys := [tag, base, reference];
      assert keys[0..] == keys;
      var i := 0;
      while i < |keys|
        invariant 0 <= i <= |keys| && Valid()
        invariant forall j :: 0 <= j < i ==> Candidate(packs, keys[j], id).None?
        invariant FreshLookup(packs, keys[i..], id, printers, args) == FreshLookup(packs, keys, id, printers, args)
      {
        var key := keys[i];
        if key !in keys[..i] && key in packs && id in packs[key] {
          var m := ParseCached(key, id);
          if m.Some? {
            var text := FormatMessage(m.value, printers(key), args);
            return Some(text);
          }
        }
        FreshLookupSkips(packs, keys, i, id, printers, args);
        i := i + 1;
      }
      return None;
    }
  }

  /** The packs Load builds: the reference as it is, every other language reduced to what is kept. */
  function LoadedPacks(reference: string, references: map<string, Entry>, others: Packs, checks: Checks): Packs {
    (map tag | tag in others :: Kept(references, others[tag], checks))[reference := references]
  }

  /**
   In a loaded catalog a lookup fails exactly when the reference has no parsing
   message for the id and no pack in the chain kept a translation of it.
   */
  lemma {:induction false} LookupFailsExactly<V>(
    reference: string, references: map<string, Entry>, others: Packs, checks: Checks,
    tag: string, base: string, id: string, printers: string -> Printers<V>, args: map<string, V>)
    ensures var packs := LoadedPacks(reference, references, others, checks);
            FreshLookup(packs, [tag, base, reference], id, printers, args).None? <==>
            && (id !in references || Parse(references[id].message).Failure?)
            && (forall t :: t in {tag, base} && t != reference && t in others ==>
                              id !in Kept(references, others[t], checks))
  {
    var packs := LoadedPacks(reference, references, others, checks);
    var keys := [tag, base, reference];
    FreshLookupFails(packs, keys, id, printers, args);
    assert keys[0] == tag && keys[1] == base && keys[2] == reference;
    forall t | t in {tag, base} && t != reference
      ensures Candidate(packs, t, id).None? <==> (t in others ==> id !in Kept(references, others[t], checks))
    {
      KeptParses(references, if t in others then others[t] else map[], checks, id);
    }
  }

  lemma {:induction false} KeptParses(references: map<string, Entry>, tr: map<string, Entry>, checks: Checks, id: string)
    ensures id in Kept(references, tr, checks) ==> Parse(Kept(references, tr, checks)[id].message).Success?
  {
  }

  /** So the promise "false only when the reference does not have the id" needs the reference to parse. */
  lemma {:induction false} UnparsableReferenceFails<V>(checks: Checks, printers: string -> Printers<V>, args: map<string, V>)
    ensures var references := map["greeting" := Entry("}", "")];
            "greeting" in references
            && FreshLookup(LoadedPacks("en", references, map[], checks), ["en", "en", "en"], "greeting", printers, args).None?
  {
    var references := map["greeting" := Entry("}", "")];
    LookupFailsExactly("en", references, map[], checks, "en", "en", "greeting", printers, args);
  }
}
