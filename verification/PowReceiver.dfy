/**
 The receiver side of proof-of-work: issuing challenges and checking solutions
 against a set of used challenges that forgets expired ones
 (telemetry-receiver/pow.go). Times are nanoseconds since the epoch.
 */
module PowReceiver {
  import opened Wrappers
  import opened PowToken
  import opened PowDifficulty

  const PRUNE_EVERY := 60 * SECOND

  datatype Verdict = Accepted | Absent | Refused | Busy

  /** The used challenges, by random bytes, with the second each expires; and when they were last pruned. */
  datatype UsedSet = UsedSet(used: map<seq<byte>, nat>, lastPrune: int)

  /** What the stateless checks make of a header: absent, refused, or a solved payload that has not expired. */
  datatype Screened = NoHeader | BadHeader | Solved(payload: seq<byte>)

  function Screen(p: Primitives, header: string, now: int): (r: Screened)
    ensures r.Solved? ==> |r.payload| == PAYLOAD_SIZE && 0 <= Unix(now) <= ExpiresOf(r.payload)
  {
    if header == "" then NoHeader
    else
      var parsed := ParseHeader(header);
      if parsed.None? then BadHeader
      else
        var (token, nonce) := parsed.value;
        var payload := ParseToken(p, token);
        if payload.None? then BadHeader
        else if Unix(now) < 0 || Unix(now) > ExpiresOf(payload.value) then BadHeader
        else if !Solves(p, token, nonce, BitsOf(payload.value)) then BadHeader
        else Solved(payload.value)
  }

  /** Drops expired entries, at most once a minute. */
  function Prune(u: UsedSet, now: int): UsedSet {
    if now - u.lastPrune < PRUNE_EVERY then u
    else if Unix(now) < 0 then u.(lastPrune := now)
    else UsedSet(map id | id in u.used && Unix(now) <= u.used[id] :: u.used[id], now)
  }

  /** One check: the verdict and the used set after it. */
  function Check(p: Primitives, cap: nat, u: UsedSet, header: string, now: int): (UsedSet, Verdict) {
    match Screen(p, header, now)
    case NoHeader => (u, Absent)
    case BadHeader => (u, Refused)
    case Solved(payload) =>
      var pruned := Prune(u, now);
      var id := IdOf(payload);
      if id in pruned.used then (pruned, Refused)
      else if |pruned.used| >= cap then (pruned, Busy)
      else (pruned.(used := pruned.used[id := ExpiresOf(payload)]), Accepted)
  }

  // ---------------------------------------------------------------- exactly which headers pass

  /** Twenty-six bytes that open with version 1; the issue time, the difficulty and the random bytes follow. */
  predicate IsPayload(payload: seq<byte>) { |payload| == 26 && payload[0] == 1 }

  /** The last second of the fifteen minutes after the issue time. */
  function LastSecond(payload: seq<byte>): nat
    requires IsPayload(payload)
  {
    (FromBigEndian(payload[1..9]) + 900) % UINT64
  }

  /**
   The header is `a.b:nonce` where `a` decodes to the payload, `b` to its MAC, the payload has not
   expired, and the digest of the header starts with as many zero bits as the payload demands.
   */
  predicate IsSolution(p: Primitives, header: string, now: int, payload: seq<byte>, a: string, b: string, nonce: nat) {
    && header == (a + ['.'] + b) + [':'] + Decimal.Show(nonce) && nonce < UINT64 && |a| + 1 + |b| <= 256 && '.' !in a
    && p.decode(a) == Some(payload) && IsPayload(payload) && p.decode(b) == Some(p.mac(payload))
    && 0 <= Unix(now) <= LastSecond(payload)
    && (payload[9] == 0 || LeadingZeros(p.digest(header)) >= payload[9] as int)
  }

  /** The stateless checks pass exactly the solutions. */
  lemma {:induction false} ScreenExactly(p: Primitives, header: string, now: int, payload: seq<byte>)
    ensures Screen(p, header, now) == Solved(payload) <==>
            exists a: string, b: string, nonce: nat :: IsSolution(p, header, now, payload, a, b, nonce)
  {
    if Screen(p, header, now) == Solved(payload) {
      SolvedIsSolution(p, header, now, payload);
    }
    forall a: string, b: string, nonce: nat | IsSolution(p, header, now, payload, a, b, nonce)
      ensures Screen(p, header, now) == Solved(payload)
    {
      SolutionIsSolved(p, header, now, payload, a, b, nonce);
    }
  }

  lemma {:induction false} HeaderSplits(header: string, token: string, nonce: nat)
    requires ParseHeader(header) == Some((token, nonce))
    ensures header == token + [':'] + Decimal.Show(nonce) && nonce < UINT64 && 0 < |token| <= 256
  {
    var i := LastIndex(header, ':').value;
    assert header == header[..i] + [':'] + header[i + 1..];
  }

  lemma {:induction false} TokenSplits(p: Primitives, token: string, payload: seq<byte>) returns (a: string, b: string)
    requires ParseToken(p, token) == Some(payload)
    ensures token == a + ['.'] + b && '.' !in a && p.decode(a) == Some(payload) && IsPayload(payload) && p.decode(b) == Some(p.mac(payload))
  {
    var i := FirstIndex(token, '.').value;
    a, b := token[..i], token[i + 1..];
    assert token == a + ['.'] + b;
    NoneBeforeFirst(token, '.');
  }

  lemma {:induction false} NoneBeforeFirst(s: string, c: char)
    requires FirstIndex(s, c).Some?
    ensures c !in s[..FirstIndex(s, c).value]
  {
    if s[0] != c {
      NoneBeforeFirst(s[1..], c);
      var i := FirstIndex(s, c).value;
      assert s[..i] == [s[0]] + s[1..][..i - 1];
    }
  }

  lemma {:induction false} SolvedIsSolution(p: Primitives, header: string, now: int, payload: seq<byte>)
    requires Screen(p, header, now) == Solved(payload)
    ensures exists a: string, b: string, nonce: nat :: IsSolution(p, header, now, payload, a, b, nonce)
  {
    var (token, nonce) := ParseHeader(header).value;
    HeaderSplits(header, token, nonce);
    var a, b := TokenSplits(p, token, payload);
    assert Preimage(token, nonce) == header by {
      assert ":" == [':'];
    }
    assert IsSolution(p, header, now, payload, a, b, nonce);
  }

  lemma {:induction false} SolutionIsSolved(p: Primitives, header: string, now: int, payload: seq<byte>, a: string, b: string, nonce: nat)
    requires IsSolution(p, header, now, payload, a, b, nonce)
    ensures Screen(p, header, now) == Solved(payload)
  {
    SolutionParses(header, a + ['.'] + b, nonce);
    TokenParses(p, a + ['.'] + b, payload, a, b);
  }

  lemma {:induction false} SolutionParses(header: string, token: string, nonce: nat)
    requires header == token + [':'] + Decimal.Show(nonce) && nonce < UINT64 && 0 < |token| <= 256
    ensures header != "" && header == Preimage(token, nonce) && ParseHeader(header) == Some((token, nonce))
  {
    assert ":" == [':'];
    HeaderRoundTrip(token, nonce);
  }

  lemma {:induction false} TokenParses(p: Primitives, token: string, payload: seq<byte>, a: string, b: string)
    requires token == a + ['.'] + b && '.' !in a && p.decode(a) == Some(payload) && IsPayload(payload) && p.decode(b) == Some(p.mac(payload))
    ensures ParseToken(p, token) == Some(payload)
  {
    FirstIndexAfter(a, '.', b);
    assert token[..|a|] == a && token[|a| + 1..] == b;
  }

  /** Some solution stands in the header, and its challenge is or is not among the used ones. */
  ghost predicate Solution(p: Primitives, header: string, now: int, u: UsedSet, used: bool) {
    exists payload: seq<byte>, a: string, b: string, nonce: nat ::
      IsSolution(p, header, now, payload, a, b, nonce) && (payload[10..] in u.used <==> used)
  }

  lemma {:induction false} SolutionIsScreened(p: Primitives, header: string, now: int, u: UsedSet, used: bool)
    ensures Solution(p, header, now, u, used) <==>
            Screen(p, header, now).Solved? && (IdOf(Screen(p, header, now).payload) in u.used <==> used)
  {
    var screened := Screen(p, header, now);
    if screened.Solved? {
      SolvedIsSolution(p, header, now, screened.payload);
    }
    forall payload: seq<byte>, a: string, b: string, nonce: nat | IsSolution(p, header, now, payload, a, b, nonce)
      ensures screened == Solved(payload)
    {
      SolutionIsSolved(p, header, now, payload, a, b, nonce);
    }
  }

  /**
   The verdict: absent without a header; accepted when the header solves a challenge not used yet and
   the set has room; busy when it is full; refused otherwise. Only an acceptance adds to the set.
   */
  lemma {:induction false} CheckExactly(p: Primitives, cap: nat, u: UsedSet, header: string, now: int)
    ensures var (after, verdict) := Check(p, cap, u, header, now);
            var pruned := Prune(u, now);
            && (verdict == Absent <==> header == "")
            && (verdict == Accepted <==> Solution(p, header, now, pruned, false) && |pruned.used| < cap)
            && (verdict == Busy <==> Solution(p, header, now, pruned, false) && |pruned.used| >= cap)
            && (verdict != Accepted ==> after == u || after == pruned)
  {
    SolutionIsScreened(p, header, now, Prune(u, now), false);
  }

  /** An accepted challenge is remembered under its random bytes until its last second, and nothing else changes. */
  lemma {:induction false} AcceptedIsRemembered(p: Primitives, cap: nat, u: UsedSet, header: string, now: int,
                                                payload: seq<byte>, a: string, b: string, nonce: nat)
    requires Check(p, cap, u, header, now).1 == Accepted
    requires IsSolution(p, header, now, payload, a, b, nonce)
    ensures Check(p, cap, u, header, now).0
            == UsedSet(Prune(u, now).used[payload[10..] := LastSecond(payload)], Prune(u, now).lastPrune)
  {
    SolutionIsSolved(p, header, now, payload, a, b, nonce);
  }

  // ---------------------------------------------------------------- whole runs of checks

  datatype Attempt = Attempt(header: string, now: int)

  /** The used set after a run; the last check is a function of its own, so that proofs open it only when they need it. */
  function UsedAfter(p: Primitives, cap: nat, start: UsedSet, run: seq<Attempt>): UsedSet
    decreases |run|, 1
  {
    if run == [] then start else UsedAfterLast(p, cap, start, run)
  }

  function UsedAfterLast(p: Primitives, cap: nat, start: UsedSet, run: seq<Attempt>): UsedSet
    requires run != []
    decreases |run|, 0
  {
    Check(p, cap, UsedAfter(p, cap, start, run[..|run| - 1]), run[|run| - 1].header, run[|run| - 1].now).0
  }

  function VerdictAt(p: Primitives, cap: nat, start: UsedSet, run: seq<Attempt>, i: nat): Verdict
    requires i < |run|
  {
    Check(p, cap, UsedAfter(p, cap, start, run[..i]), run[i].header, run[i].now).1
  }

  /** The times of the checks, in the order in which they take the lock, do not fall. */
  predicate ClockRuns(run: seq<Attempt>) {
    forall i, j :: 0 <= i < j < |run| ==> run[i].now <= run[j].now
  }

  lemma {:induction false} UsedAfterStep(p: Primitives, cap: nat, start: UsedSet, run: seq<Attempt>, i: nat)
    requires i < |run|
    ensures UsedAfter(p, cap, start, run[..i + 1])
            == Check(p, cap, UsedAfter(p, cap, start, run[..i]), run[i].header, run[i].now).0
  {
    assert run[..i + 1][..i] == run[..i];
  }

  /** A payload is on record with its own expiry. */
  predicate OnRecord(u: UsedSet, payload: seq<byte>)
    requires |payload| == PAYLOAD_SIZE
  {
    IdOf(payload) in u.used && u.used[IdOf(payload)] == ExpiresOf(payload)
  }

  /** One check forgets a payload only when its own clock is past the payload's expiry. */
  lemma {:induction false} CheckRemembers(p: Primitives, cap: nat, u: UsedSet, header: string, now: int, payload: seq<byte>)
    requires |payload| == PAYLOAD_SIZE && OnRecord(u, payload)
    requires Unix(now) <= ExpiresOf(payload)
    ensures OnRecord(Check(p, cap, u, header, now).0, payload)
  {
  }

  lemma {:induction false} AcceptRecords(p: Primitives, cap: nat, u: UsedSet, header: string, now: int)
    requires Check(p, cap, u, header, now).1 == Accepted
    ensures Screen(p, header, now).Solved?
    ensures !OnRecord(Prune(u, now), Screen(p, header, now).payload)
    ensures OnRecord(Check(p, cap, u, header, now).0, Screen(p, header, now).payload)
  {
  }

  lemma {:induction false} RunRemembers(p: Primitives, cap: nat, start: UsedSet, run: seq<Attempt>, m: nat, k: nat, payload: seq<byte>)
    requires m <= k <= |run| && |payload| == PAYLOAD_SIZE && OnRecord(UsedAfter(p, cap, start, run[..m]), payload)
    requires forall x :: m <= x < k ==> Unix(run[x].now) <= ExpiresOf(payload)
    ensures OnRecord(UsedAfter(p, cap, start, run[..k]), payload)
    decreases k
  {
    if m < k {
      RunRemembers(p, cap, start, run, m, k - 1, payload);
      CheckRemembers(p, cap, UsedAfter(p, cap, start, run[..k - 1]), run[k - 1].header, run[k - 1].now, payload);
      UsedAfterStep(p, cap, start, run, k - 1);
    }
  }

  /**
   Whatever the times: a payload accepted twice means that some check in between
   carried a time past its expiry, and a later one an older time.
   */
  lemma {:induction false} ReuseNeedsOlderTime(p: Primitives, cap: nat, start: UsedSet, run: seq<Attempt>, i: nat, j: nat, payload: seq<byte>)
    requires i < j < |run| && |payload| == PAYLOAD_SIZE
    requires VerdictAt(p, cap, start, run, i) == Accepted && Screen(p, run[i].header, run[i].now) == Solved(payload)
    requires VerdictAt(p, cap, start, run, j) == Accepted && Screen(p, run[j].header, run[j].now) == Solved(payload)
    ensures exists k :: i < k < j && Unix(run[k].now) > ExpiresOf(payload) >= Unix(run[j].now)
  {
    if forall k :: i < k < j ==> Unix(run[k].now) <= ExpiresOf(payload) {
      AcceptRecords(p, cap, UsedAfter(p, cap, start, run[..i]), run[i].header, run[i].now);
      UsedAfterStep(p, cap, start, run, i);
      RunRemembers(p, cap, start, run, i + 1, j, payload);
      AcceptRecords(p, cap, UsedAfter(p, cap, start, run[..j]), run[j].header, run[j].now);
      assert false;
    }
  }

  /** A solved check at `now` prunes, and `now` is past the payload's expiry. */
  predicate PrunesPast(p: Primitives, u: UsedSet, a: Attempt, payload: seq<byte>)
    requires |payload| == PAYLOAD_SIZE
  {
    && Screen(p, a.header, a.now).Solved?
    && a.now - u.lastPrune >= 60 * SECOND && Unix(a.now) > ExpiresOf(payload)
  }

  /** One check accepts an attempt whose challenge has this id. */
  predicate AcceptsId(p: Primitives, cap: nat, u: UsedSet, a: Attempt, id: seq<byte>) {
    && Check(p, cap, u, a.header, a.now).1 == Accepted && Screen(p, a.header, a.now).Solved?
    && IdOf(Screen(p, a.header, a.now).payload) == id
  }

  /** One check, seen from a payload that it does not accept. */
  lemma {:induction false} CheckForgets(p: Primitives, cap: nat, u: UsedSet, a: Attempt, payload: seq<byte>)
    requires |payload| == PAYLOAD_SIZE && !AcceptsId(p, cap, u, a, IdOf(payload))
    ensures var u' := Check(p, cap, u, a.header, a.now).0;
            && (OnRecord(u, payload) && !PrunesPast(p, u, a, payload) ==> OnRecord(u', payload))
            && (OnRecord(u, payload) && PrunesPast(p, u, a, payload) ==> IdOf(payload) !in u'.used)
            && (IdOf(payload) !in u.used ==> IdOf(payload) !in u'.used)
  {
  }

  predicate PrunedIn(p: Primitives, cap: nat, start: UsedSet, run: seq<Attempt>, m: nat, n: nat, payload: seq<byte>)
    requires m <= n <= |run| && |payload| == PAYLOAD_SIZE
  {
    exists k :: m <= k < n && PrunesPast(p, UsedAfter(p, cap, start, run[..k]), run[k], payload)
  }

  predicate AcceptedIn(p: Primitives, cap: nat, start: UsedSet, run: seq<Attempt>, m: nat, n: nat, id: seq<byte>)
    requires m <= n <= |run|
  {
    exists k :: m <= k < n && AcceptsId(p, cap, UsedAfter(p, cap, start, run[..k]), run[k], id)
  }

  predicate Held(u: UsedSet, payload: seq<byte>, forgotten: bool)
    requires |payload| == PAYLOAD_SIZE
  {
    if forgotten then IdOf(payload) !in u.used else OnRecord(u, payload)
  }

  /** A recorded payload stays on record exactly until a check prunes past its expiry. */
  lemma {:induction false} RunForgets(p: Primitives, cap: nat, start: UsedSet, run: seq<Attempt>, m: nat, n: nat, payload: seq<byte>, u: UsedSet)
    requires m <= n <= |run| && |payload| == PAYLOAD_SIZE && OnRecord(UsedAfter(p, cap, start, run[..m]), payload)
    requires u == UsedAfter(p, cap, start, run[..n]) && !AcceptedIn(p, cap, start, run, m, n, IdOf(payload))
    ensures Held(u, payload, PrunedIn(p, cap, start, run, m, n, payload))
    decreases n
  {
    if m < n {
      var k := n - 1;
      var before := UsedAfter(p, cap, start, run[..k]);
      NotAcceptedIn(p, cap, start, run, m, k, IdOf(payload), before);
      RunForgets(p, cap, start, run, m, k, payload, before);
      HeldNext(p, cap, start, run, m, k, payload, before, u);
    }
  }

  lemma {:induction false} NotAcceptedIn(p: Primitives, cap: nat, start: UsedSet, run: seq<Attempt>, m: nat, k: nat, id: seq<byte>, u: UsedSet)
    requires m <= k < |run| && !AcceptedIn(p, cap, start, run, m, k + 1, id) && u == UsedAfter(p, cap, start, run[..k])
    ensures !AcceptedIn(p, cap, start, run, m, k, id) && !AcceptsId(p, cap, u, run[k], id)
  {
  }

  lemma {:induction false} HeldNext(p: Primitives, cap: nat, start: UsedSet, run: seq<Attempt>, m: nat, k: nat, payload: seq<byte>, u: UsedSet,
                                    next: UsedSet)
    requires m <= k < |run| && |payload| == PAYLOAD_SIZE && !AcceptsId(p, cap, u, run[k], IdOf(payload))
    requires u == UsedAfter(p, cap, start, run[..k]) && next == UsedAfter(p, cap, start, run[..k + 1])
    requires Held(u, payload, PrunedIn(p, cap, start, run, m, k, payload))
    ensures Held(next, payload, PrunedIn(p, cap, start, run, m, k + 1, payload))
  {
    UsedAfterStep(p, cap, start, run, k);
    CheckForgets(p, cap, u, run[k], payload);
    PrunedNext(p, cap, start, run, m, k, payload);
  }

  lemma {:induction false} PrunedNext(p: Primitives, cap: nat, start: UsedSet, run: seq<Attempt>, m: nat, k: nat, payload: seq<byte>)
    requires m <= k < |run| && |payload| == PAYLOAD_SIZE
    ensures PrunedIn(p, cap, start, run, m, k + 1, payload)
            <==> PrunedIn(p, cap, start, run, m, k, payload) || PrunesPast(p, UsedAfter(p, cap, start, run[..k]), run[k], payload)
  {
  }

  /** A solved check of a payload on record is refused; of one not on record it is not. */
  lemma {:induction false} CheckOfRecorded(p: Primitives, cap: nat, u: UsedSet, header: string, now: int, payload: seq<byte>)
    requires Screen(p, header, now) == Solved(payload) && (OnRecord(u, payload) || IdOf(payload) !in u.used)
    ensures Check(p, cap, u, header, now).1 == Refused <==> OnRecord(u, payload)
  {
  }

  /**
   Whatever the times: a payload accepted at `i`, and not again before `j`, is refused at
   `j` exactly when no solved check in between pruned at a time past its expiry. Otherwise
   it is accepted again, unless the set is full.
   */
  lemma {:induction false} RefusedUntilPruned(p: Primitives, cap: nat, start: UsedSet, run: seq<Attempt>, i: nat, j: nat, payload: seq<byte>)
    requires i < j < |run| && |payload| == PAYLOAD_SIZE
    requires VerdictAt(p, cap, start, run, i) == Accepted && Screen(p, run[i].header, run[i].now) == Solved(payload)
    requires Screen(p, run[j].header, run[j].now) == Solved(payload)
    requires !AcceptedIn(p, cap, start, run, i + 1, j, IdOf(payload))
    ensures VerdictAt(p, cap, start, run, j) == Refused <==> !PrunedIn(p, cap, start, run, i + 1, j, payload)
  {
    AcceptRecords(p, cap, UsedAfter(p, cap, start, run[..i]), run[i].header, run[i].now);
    UsedAfterStep(p, cap, start, run, i);
    var u := UsedAfter(p, cap, start, run[..j]);
    RunForgets(p, cap, start, run, i + 1, j, payload, u);
    CheckOfRecorded(p, cap, u, run[j].header, run[j].now, payload);
  }

  /** Over every run whose times do not fall, a payload is accepted at most once, despite pruning. */
  lemma {:induction false} SingleUse(p: Primitives, cap: nat, start: UsedSet, run: seq<Attempt>, i: nat, j: nat, payload: seq<byte>)
    requires ClockRuns(run) && i < j < |run| && |payload| == PAYLOAD_SIZE
    requires VerdictAt(p, cap, start, run, i) == Accepted && Screen(p, run[i].header, run[i].now) == Solved(payload)
    requires Screen(p, run[j].header, run[j].now) == Solved(payload)
    ensures VerdictAt(p, cap, start, run, j) != Accepted
  {
    if VerdictAt(p, cap, start, run, j) == Accepted {
      ReuseNeedsOlderTime(p, cap, start, run, i, j, payload);
    }
  }

  /**
   And it happens: a solved header is accepted, another one prunes after its expiry, and
   the first one, checked again with its older time, is accepted a second time.
   */
  lemma {:induction false} OlderTimeReuses(p: Primitives, cap: nat, a: Attempt, b: Attempt, payload: seq<byte>, next: seq<byte>)
    requires Screen(p, a.header, a.now) == Solved(payload) && Screen(p, b.header, b.now) == Solved(next) && cap >= 2
    requires IdOf(next) != IdOf(payload) && b.now >= a.now + PRUNE_EVERY && Unix(b.now) > ExpiresOf(payload)
    ensures var (u, first) := Check(p, cap, UsedSet(map[], a.now), a.header, a.now);
            var (u', second) := Check(p, cap, u, b.header, b.now);
            first == Accepted && Check(p, cap, u', a.header, a.now).1 == Accepted
  {
    var u, u' := Only(payload, a.now), Only(next, b.now);
    FirstUse(p, cap, a, UsedSet(map[], a.now), payload, u);
    PrunedUse(p, cap, b, u, payload, next, u');
    SecondUse(p, cap, a, u', payload, next);
  }

  /** The used set that holds one payload and was last pruned at `now`. */
  function Only(payload: seq<byte>, now: int): UsedSet
    requires |payload| == PAYLOAD_SIZE
  {
    UsedSet(map[IdOf(payload) := ExpiresOf(payload)], now)
  }

  lemma {:induction false} FirstUse(p: Primitives, cap: nat, a: Attempt, u: UsedSet, payload: seq<byte>, u': UsedSet)
    requires Screen(p, a.header, a.now) == Solved(payload) && cap >= 1 && u == UsedSet(map[], a.now) && u' == Only(payload, a.now)
    ensures Check(p, cap, u, a.header, a.now) == (u', Accepted)
  {
  }

  lemma {:induction false} PrunedUse(p: Primitives, cap: nat, a: Attempt, u: UsedSet, payload: seq<byte>, next: seq<byte>, u': UsedSet)
    requires |payload| == PAYLOAD_SIZE && Screen(p, a.header, a.now) == Solved(next) && cap >= 1
    requires u.used == map[IdOf(payload) := ExpiresOf(payload)] && a.now >= u.lastPrune + PRUNE_EVERY && Unix(a.now) > ExpiresOf(payload)
    requires u' == Only(next, a.now)
    ensures Check(p, cap, u, a.header, a.now).0 == u'
  {
    assert Prune(u, a.now).used == map[];
  }

  lemma {:induction false} SecondUse(p: Primitives, cap: nat, a: Attempt, u: UsedSet, payload: seq<byte>, next: seq<byte>)
    requires Screen(p, a.header, a.now) == Solved(payload) && |next| == PAYLOAD_SIZE && IdOf(next) != IdOf(payload)
    requires u.used == map[IdOf(next) := ExpiresOf(next)] && a.now <= u.lastPrune && cap >= 2
    ensures Check(p, cap, u, a.header, a.now).1 == Accepted
  {
    assert u.used.Keys == {IdOf(next)} && |u.used| == |u.used.Keys|;
  }

  lemma {:induction false} PruneShrinks(u: UsedSet, now: int)
    ensures |Prune(u, now).used| <= |u.used|
  {
    var a, b := Prune(u, now).used.Keys, u.used.Keys;
    assert a <= b && a + (b - a) == b;
  }

  /** The used set never exceeds its cap. */
  lemma {:induction false} UsedSetIsBounded(p: Primitives, cap: nat, start: UsedSet, run: seq<Attempt>)
    requires |start.used| <= cap
    ensures |UsedAfter(p, cap, start, run).used| <= cap
  {
    if run != [] {
      var last := |run| - 1;
      UsedSetIsBounded(p, cap, start, run[..last]);
      var u := UsedAfter(p, cap, start, run[..last]);
      PruneShrinks(u, run[last].now);
    }
  }

  // ---------------------------------------------------------------- completeness

  function IssuedSecond(now: int): nat { if Unix(now) >= 0 then Unix(now) else 0 }

  /** The payload of a challenge issued at `now` with the given difficulty and random bytes. */
  function IssuedPayload(now: int, bits: nat, id: seq<byte>): seq<byte>
    requires |id| == ID_SIZE
  {
    Payload(IssuedSecond(now), bits, id)
  }

  lemma {:induction false} SolvedHeaderScreens(p: Primitives, token: string, payload: seq<byte>, nonce: nat, now: int)
    requires |payload| == PAYLOAD_SIZE && ParseToken(p, token) == Some(payload)
    requires ParseHeader(FormatHeader(token, nonce)) == Some((token, nonce))
    requires Solves(p, token, nonce, BitsOf(payload)) && 0 <= Unix(now) <= ExpiresOf(payload)
    ensures Screen(p, FormatHeader(token, nonce), now) == Solved(payload)
  {
  }

  lemma {:induction false} IssuedTokenScreens(p: Primitives, issued: nat, bits: nat, id: seq<byte>, nonce: nat, now: int)
    requires Lawful(p) && |id| == ID_SIZE && bits <= MAX_BITS && nonce < UINT64
    requires issued + TTL_SECONDS < UINT64 && 0 <= Unix(now) <= issued + TTL_SECONDS
    requires Solves(p, Token(p, Payload(issued, bits, id)), nonce, bits)
    ensures Screen(p, FormatHeader(Token(p, Payload(issued, bits, id)), nonce), now) == Solved(Payload(issued, bits, id))
    ensures IdOf(Payload(issued, bits, id)) == id
  {
    var payload := Payload(issued, bits, id);
    PayloadFields(issued, bits, id);
    TokenRoundTrip(p, payload);
    HeaderRoundTrip(Token(p, payload), nonce);
    SolvedHeaderScreens(p, Token(p, payload), payload, nonce, now);
  }

  /**
   A challenge issued at `issueTime` with the difficulty the meter gives, solved and
   sent in a header, is accepted for fifteen minutes unless the set is full or the
   id was used.
   */
  lemma {:induction false} SolvedChallengeIsAccepted(
    p: Primitives, cap: nat, u: UsedSet, c: Config, m: Meter, issueTime: int, bits: nat, id: seq<byte>, nonce: nat, now: int)
    requires Lawful(p) && ConfigOk(c) && 0 <= m.peak <= c.maxBits <= MAX_BITS && |id| == ID_SIZE
    requires bits == IssueBits(c, m, issueTime)
    requires nonce < UINT64 && Solves(p, Token(p, IssuedPayload(issueTime, bits, id)), nonce, bits)
    requires IssuedSecond(issueTime) + TTL_SECONDS < UINT64
    requires 0 <= Unix(now) <= IssuedSecond(issueTime) + TTL_SECONDS
    ensures var header := FormatHeader(Token(p, IssuedPayload(issueTime, bits, id)), nonce);
            var pruned := Prune(u, now);
            Check(p, cap, u, header, now).1
            == if id in pruned.used then Refused else if |pruned.used| >= cap then Busy else Accepted
  {
    assert bits <= MAX_BITS;
    IssuedTokenScreens(p, IssuedSecond(issueTime), bits, id, nonce, now);
  }

  /** Every id on record was on record at the start or was accepted since. */
  lemma {:induction false} UsedWasAccepted(p: Primitives, cap: nat, start: UsedSet, run: seq<Attempt>, n: nat, id: seq<byte>, u: UsedSet)
    requires n <= |run| && u == UsedAfter(p, cap, start, run[..n]) && id in u.used
    ensures id in start.used || AcceptedIn(p, cap, start, run, 0, n, id)
    decreases n
  {
    if n > 0 {
      var k := n - 1;
      var before := UsedAfter(p, cap, start, run[..k]);
      UsedAfterStep(p, cap, start, run, k);
      if id in before.used {
        UsedWasAccepted(p, cap, start, run, k, id, before);
      } else {
        assert AcceptsId(p, cap, before, run[k], id);
      }
    } else {
      assert run[..0] == [];
    }
  }

  /**
   On every run from an empty set, a solved challenge within its fifteen minutes, whose id
   was not accepted before, is accepted, or told to wait when the set is full; never refused.
   */
  lemma {:induction false} FirstUseIsAccepted(p: Primitives, cap: nat, start: UsedSet, run: seq<Attempt>, j: nat, issued: nat, bits: nat,
                                              id: seq<byte>, nonce: nat)
    requires start.used == map[] && j < |run| && Lawful(p) && |id| == ID_SIZE && bits <= MAX_BITS && nonce < UINT64
    requires issued + TTL_SECONDS < UINT64 && 0 <= Unix(run[j].now) <= issued + TTL_SECONDS
    requires run[j].header == FormatHeader(Token(p, Payload(issued, bits, id)), nonce)
    requires Solves(p, Token(p, Payload(issued, bits, id)), nonce, bits)
    requires !AcceptedIn(p, cap, start, run, 0, j, id)
    ensures VerdictAt(p, cap, start, run, j)
            == if |Prune(UsedAfter(p, cap, start, run[..j]), run[j].now).used| >= cap then Busy else Accepted
  {
    var u := UsedAfter(p, cap, start, run[..j]);
    if id in u.used {
      UsedWasAccepted(p, cap, start, run, j, id, u);
      assert false;
    }
    IssuedTokenScreens(p, issued, bits, id, nonce, run[j].now);
  }

  // ---------------------------------------------------------------- the code

  class PowState {
    const config: Config
    const prim: Primitives
    const cap: nat
    const slots: array<Slot>
    var peak: int
    var peakAt: int
    var used: map<seq<byte>, nat>
    var lastPrune: int

    ghost predicate Valid()
      reads this, slots
    {
      && slots.Length == WINDOW && ConfigOk(config) && 0 <= peak <= config.maxBits
      && RingConsistent(slots[..])
    }

    ghost function Meters(): Meter
      requires slots.Length == WINDOW
      reads this, slots
    {
      Meter(slots[..], peak, peakAt)
    }

    ghost function Used(): UsedSet
      reads this
    {
      UsedSet(used, lastPrune)
    }

    constructor (prim: Primitives, target: int, minBits: int, maxBits: int, cap: nat, zeroTime: int)
      ensures Valid() && Meters() == Meter(EMPTY_RING, 0, zeroTime) && Used() == UsedSet(map[], zeroTime)
      ensures config == Clamped(target, minBits, maxBits) && this.prim == prim && this.cap == cap
    {
      this.prim, this.cap := prim, cap;
      config := Clamped(target, minBits, maxBits);
      slots := new Slot[WINDOW](_ => Slot(0, 0));
      peak, peakAt := 0, zeroTime;
      used, lastPrune := map[], zeroTime;
      new;
      assert slots[..] == EMPTY_RING;
    }

    method CountLocked(now: int) returns (total: nat)
      requires Valid()
      ensures total == SlotCount(slots[..], Unix(now))
    {
      var sec := Unix(now);
      total := 0;
      for i := 0 to slots.Length
        invariant total == PartialCount(slots[..], sec, i)
      {
        if slots[i].sec > sec - WINDOW && slots[i].sec <= sec {
          total := total + slots[i].n;
        }
      }
    }

    /** Counts one issue and returns how many lie in the trailing window, this one included. */
    method RecordLocked(now: int) returns (total: nat)
      requires Valid()
      modifies slots
      ensures Valid() && slots[..] == Record(old(slots[..]), Unix(now))
      ensures total == old(SlotCount(slots[..], Unix(now))) + 1 == SlotCount(slots[..], Unix(now))
    {
      ghost var before := slots[..];
      var sec := Unix(now);
      var i := sec % WINDOW;
      if slots[i].sec != sec {
        slots[i] := Slot(sec, 0);
      }
      slots[i] := Slot(slots[i].sec, slots[i].n + 1);
      assert slots[..] == Record(before, sec);
      RecordKeepsConsistent(before, sec);
      RecordCountsOne(before, sec);
      total := CountLocked(now);
    }

    method DifficultyLocked(now: int, r: nat, commit: bool) returns (bits: int)
      requires Valid()
      modifies this
      ensures Valid() && used == old(used) && lastPrune == old(lastPrune)
      ensures bits == old(Difficulty(config, Meters(), now, r))
      ensures (peak, peakAt) ==
              if commit && BitsForRate(config, r) > Decayed(old(peak), old(peakAt), now)
              then (BitsForRate(config, r), now) else old((peak, peakAt))
    {
      var target := BitsForRate(config, r);
      var decayed := 0;
      if peak > 0 {
        var steps := Max((now - peakAt) / DECAY_STEP, 0);
        decayed := Max(peak - steps, 0);
      }
      if target > decayed {
        if commit {
          peak, peakAt := target, now;
        }
        decayed := target;
      }
      bits := Max(config.minBits, decayed);
    }

    /** The difficulty a challenge issued now would carry, without issuing one. */
    method CurrentBits(now: int) returns (bits: int)
      requires Valid()
      modifies this
      ensures Valid() && Meters() == old(Meters()) && Used() == old(Used())
      ensures bits == Preview(config, Meters(), now) == IssueBits(config, Meters(), now)
    {
      var r := CountLocked(now);
      bits := DifficultyLocked(now, r + 1, false);
      PreviewIsNextIssue(config, Meters(), now);
    }

    /** Issues a challenge with the given random bytes: its token, difficulty and expiry second. */
    method Issue(now: int, id: seq<byte>) returns (token: string, bits: int, expires: nat)
      requires Valid() && |id| == ID_SIZE
      modifies this, slots
      ensures Valid() && Used() == old(Used())
      ensures Meters() == old(IssueMeter(config, Meters(), now))
      ensures bits == old(IssueBits(config, Meters(), now)) == old(Preview(config, Meters(), now))
      ensures config.minBits <= bits <= config.maxBits
      ensures token == Token(prim, IssuedPayload(now, bits, id)) && expires == IssuedSecond(now) + TTL_SECONDS
    {
      PreviewIsNextIssue(config, Meters(), now);
      var r := RecordLocked(now);
      bits := DifficultyLocked(now, r, true);
      var issued := IssuedSecond(now);
      token := Token(prim, Payload(issued, bits, id));
      expires := issued + TTL_SECONDS;
    }

    method PruneLocked(now: int)
      requires Valid()
      modifies this
      ensures Valid() && Meters() == old(Meters()) && Used() == Prune(old(Used()), now)
    {
      if now - lastPrune < PRUNE_EVERY {
        return;
      }
      lastPrune := now;
      if Unix(now) < 0 {
        return;
      }
      var todo := used.Keys;
      ghost var before := used;
      while todo != {}
        invariant todo <= before.Keys && Valid()
        invariant Meters() == old(Meters()) && lastPrune == now
        invariant used == map id | id in before && (id in todo || Unix(now) <= before[id]) :: before[id]
        decreases |todo|
      {
        var id :| id in todo;
        todo := todo - {id};
        if Unix(now) > used[id] {
          used := used - {id};
        }
      }
    }

    /** The verification order of a header: present, well formed, MAC valid, not expired, solved, not used. */
    method CheckHeader(header: string, now: int) returns (v: Verdict)
      requires Valid()
      modifies this
      ensures Valid() && Meters() == old(Meters())
      ensures (Used(), v) == Check(prim, cap, old(Used()), header, now)
    {
      if header == "" { return Absent; }
      var parsed := ParseHeader(header);
      if parsed.None? { return Refused; }
      var (token, nonce) := parsed.value;
      var payload := ParseToken(prim, token);
      if payload.None? { return Refused; }
      if Unix(now) < 0 { return Refused; }
      var expires := ExpiresOf(payload.value);
      if Unix(now) > expires { return Refused; }
      if !Solves(prim, token, nonce, BitsOf(payload.value)) { return Refused; }
      var id := IdOf(payload.value);
      PruneLocked(now);
      if id in used { return Refused; }
      if |used| >= cap { return Busy; }
      used := used[id := expires];
      return Accepted;
    }
  }
}
