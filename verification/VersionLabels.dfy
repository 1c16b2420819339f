/**
 The bounded version labels of telemetry-receiver/ingest.go: the first 128 valid
 versions keep their own label for the life of the process, the rest share one.
 */
module VersionLabels {
  import opened Basics

  type Name = string

  const MAX_LABELS: nat := 128

  predicate AlphaNumeric(c: char) { '0' <= c <= '9' || 'A' <= c <= 'Z' || 'a' <= c <= 'z' }

  predicate VersionChar(c: char) { AlphaNumeric(c) || c == '.' || c == '_' || c == '+' || c == '-' }

  predicate ValidVersion(v: Name) {
    1 <= |v| <= 32 && AlphaNumeric(v[0]) && forall i :: 1 <= i < |v| ==> VersionChar(v[i])
  }

  const INVALID: Name := "invalid"
  const OTHER: Name := "other"

  predicate Fixed(v: Name) { !ValidVersion(v) || v == INVALID || v == OTHER }

  function Learn(known: set<Name>, v: Name): set<Name> {
    if Fixed(v) || v in known || |known| >= MAX_LABELS then known else known + {v}
  }

  function Label(known: set<Name>, v: Name): Name {
    if !ValidVersion(v) || v == INVALID then INVALID
    else if v == OTHER then OTHER
    else if v in known || |known| < MAX_LABELS then v
    else OTHER
  }

  function Known(seen: seq<Name>): set<Name> {
    if seen == [] then {} else Learn(Known(seen[..|seen| - 1]), seen[|seen| - 1])
  }

  function LabelAt(seen: seq<Name>, i: nat): Name
    requires i < |seen|
  {
    Label(Known(seen[..i]), seen[i])
  }

  lemma {:induction false} KnownStep(seen: seq<Name>, n: nat)
    requires n < |seen|
    ensures Known(seen[..n + 1]) == Learn(Known(seen[..n]), seen[n])
  {
    assert seen[..n + 1][..n] == seen[..n];
  }

  lemma {:induction false} KnownBounded(seen: seq<Name>)
    ensures |Known(seen)| <= MAX_LABELS && forall v :: v in Known(seen) ==> !Fixed(v)
  {
    if seen != [] {
      KnownBounded(seen[..|seen| - 1]);
    }
  }

  /** Nothing learnt is forgotten, and once full nothing is learnt. */
  lemma {:induction false} KnownGrows(seen: seq<Name>, i: nat, j: nat)
    requires i <= j <= |seen|
    ensures Known(seen[..i]) <= Known(seen[..j])
    ensures |Known(seen[..i])| >= MAX_LABELS ==> Known(seen[..j]) == Known(seen[..i])
  {
    if i < j {
      KnownGrows(seen, i, j - 1);
      KnownStep(seen, j - 1);
    }
  }

  /** A version gets the same label every time it is reported. */
  lemma {:induction false} LabelIsStable(seen: seq<Name>, i: nat, j: nat)
    requires i <= j < |seen| && seen[i] == seen[j]
    ensures LabelAt(seen, i) == LabelAt(seen, j)
  {
    if i < j {
      KnownStep(seen, i);
      KnownGrows(seen, i, j);
      KnownGrows(seen, i + 1, j);
    }
  }

  /** The valid versions reported so far, the two reserved names left out. */
  function ValidOnes(seen: seq<Name>): set<Name> { set i | 0 <= i < |seen| && !Fixed(seen[i]) :: seen[i] }

  lemma {:induction false} KnownIsAll(seen: seq<Name>)
    ensures Known(seen) <= ValidOnes(seen) && (|Known(seen)| < 128 ==> Known(seen) == ValidOnes(seen))
  {
    if seen != [] {
      var n := |seen| - 1;
      KnownIsAll(seen[..n]);
      VersionsSplit(seen);
    }
  }

  lemma {:induction false} VersionsSplit(seen: seq<Name>)
    requires seen != []
    ensures ValidOnes(seen) == ValidOnes(seen[..|seen| - 1]) + if Fixed(seen[|seen| - 1]) then {} else {seen[|seen| - 1]}
  {
    var init := seen[..|seen| - 1];
    forall v | v in ValidOnes(seen)
      ensures v in ValidOnes(init) + if Fixed(seen[|seen| - 1]) then {} else {seen[|seen| - 1]}
    {
      var i :| 0 <= i < |seen| && !Fixed(seen[i]) && seen[i] == v;
      assert i < |init| ==> init[i] == v;
    }
    forall v | v in ValidOnes(init)
      ensures v in ValidOnes(seen)
    {
      var i :| 0 <= i < |init| && !Fixed(init[i]) && init[i] == v;
      assert seen[i] == v;
    }
  }

  /** A valid version keeps its own name while fewer than 128 others came before it; an invalid one is told apart. */
  lemma {:induction false} OwnLabel(seen: seq<Name>, i: nat)
    requires i < |seen|
    ensures !ValidVersion(seen[i]) ==> LabelAt(seen, i) == "invalid"
    ensures !Fixed(seen[i]) && |ValidOnes(seen[..i])| < 128 ==> LabelAt(seen, i) == seen[i]
    ensures !Fixed(seen[i]) ==> LabelAt(seen, i) == seen[i] || LabelAt(seen, i) == "other"
  {
    KnownIsAll(seen[..i]);
    SubsetSize(Known(seen[..i]), ValidOnes(seen[..i]));
  }

  /** Every label in use is one of the two shared ones or one of at most 128 versions. */
  lemma {:induction false} LabelsAreBounded(seen: seq<Name>)
    ensures |Known(seen) + {INVALID, OTHER}| <= MAX_LABELS + 2
    ensures forall i :: 0 <= i < |seen| ==> LabelAt(seen, i) in Known(seen) + {INVALID, OTHER}
  {
    KnownBounded(seen);
    assert seen[..|seen|] == seen;
    var two := {INVALID, OTHER};
    assert two == {INVALID} + {OTHER} && |two| <= 2;
    assert |Known(seen) + two| <= |Known(seen)| + |two|;
    forall i | 0 <= i < |seen|
      ensures LabelAt(seen, i) in Known(seen) + two
    {
      KnownStep(seen, i);
      KnownGrows(seen, i + 1, |seen|);
    }
  }

  class Versions {
    var known: set<Name>

    constructor ()
      ensures known == {}
    {
      known := {};
    }

    method VersionLabel(version: Name) returns (name: Name)
      modifies this
      ensures name == Label(old(known), version) && known == Learn(old(known), version)
    {
      if !ValidVersion(version) || version == INVALID {
        return INVALID;
      }
      if version == OTHER {
        return OTHER;
      }
      if version in known {
        return version;
      }
      if |known| >= MAX_LABELS {
        return OTHER;
      }
      known := known + {version};
      return version;
    }
  }
}
