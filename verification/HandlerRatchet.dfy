/** The exception baseline: comparison, pairing of moved handlers, and the decision to
    rewrite the baseline (scripts/check_exception_policy.py). */
module HandlerRatchet {
  import opened Wrappers

  /** A handler's identity; `shape` holds every field after path and scope. */
  datatype Identity = Identity(path: string, scope: string, shape: seq<string>)
  type Counter = multiset<Identity>

  datatype Move = Move(previous: Identity, current: Identity, count: nat)

  /** The same handler somewhere else. */
  predicate Moves(previous: Identity, current: Identity) {
    previous.shape == current.shape && (previous.path, previous.scope) != (current.path, current.scope)
  }

  /** Some duplicate-free listing of a counter's keys; the source lists them sorted. */
  method Keys(m: Counter) returns (keys: seq<Identity>)
    ensures forall x :: x in keys <==> x in m
    ensures forall i, j :: 0 <= i < j < |keys| ==> keys[i] != keys[j]
  {
    keys := [];
    var rest := m;
    while rest != multiset{}
      invariant rest <= m
      invariant forall x :: x in keys <==> x in m && x !in rest
      invariant forall i, j :: 0 <= i < j < |keys| ==> keys[i] != keys[j]
      decreases |rest|
    {
      var x :| x in rest;
      rest := rest[x := 0];
      keys := keys + [x];
    }
  }

  /** What the moves take from the stale side and from the new side. */
  ghost function Left(moves: seq<Move>): Counter {
    if moves == [] then multiset{}
    else Left(moves[..|moves| - 1]) + multiset{}[moves[|moves| - 1].previous := moves[|moves| - 1].count]
  }

  ghost function Arrived(moves: seq<Move>): Counter {
    if moves == [] then multiset{}
    else Arrived(moves[..|moves| - 1]) + multiset{}[moves[|moves| - 1].current := moves[|moves| - 1].count]
  }

  ghost predicate AreMoves(moves: seq<Move>) {
    forall m :: m in moves ==> m.count > 0 && Moves(m.previous, m.current)
  }

  /** The pairing so far accounts for every count. */
  ghost predicate Accounted(regressions: Counter, stale: Counter, moves: seq<Move>, newLeft: Counter,
                            staleLeft: Counter) {
    AreMoves(moves) && newLeft + Arrived(moves) == regressions && staleLeft + Left(moves) == stale
  }

  /** A finished pairing: nothing pairable is left over. */
  ghost predicate IsPairing(regressions: Counter, stale: Counter, moves: seq<Move>, newLeft: Counter,
                            staleLeft: Counter) {
    && Accounted(regressions, stale, moves, newLeft, staleLeft)
    && forall r, s :: r in newLeft && s in staleLeft ==> !Moves(s, r)
  }

  ghost predicate Spent(r: Identity, previous: seq<Identity>, newLeft: Counter, staleLeft: Counter) {
    forall s :: s in previous ==> !(r in newLeft && s in staleLeft && Moves(s, r))
  }

  method PairMovedIdentities(regressions: Counter, stale: Counter)
    returns (moves: seq<Move>, newLeft: Counter, staleLeft: Counter)
    ensures IsPairing(regressions, stale, moves, newLeft, staleLeft)
  {
    newLeft, staleLeft, moves := regressions, stale, [];
    var currents := Keys(regressions);
    var previouses := Keys(stale);
    for i := 0 to |currents|
      invariant Accounted(regressions, stale, moves, newLeft, staleLeft)
      invariant forall k :: 0 <= k < i ==> Spent(currents[k], previouses, newLeft, staleLeft)
    {
      ghost var newBefore, staleBefore := newLeft, staleLeft;
      moves, newLeft, staleLeft := PairOne(currents[i], previouses, regressions, stale, moves, newLeft, staleLeft);
      forall k | 0 <= k < i ensures Spent(currents[k], previouses, newLeft, staleLeft) {
        StaysSpent(currents[k], previouses, newBefore, staleBefore, newLeft, staleLeft);
      }
    }
    forall r, s | r in newLeft && s in staleLeft ensures !Moves(s, r) {
      assert r in regressions && s in stale;
      var i :| 0 <= i < |currents| && currents[i] == r;
      assert Spent(currents[i], previouses, newLeft, staleLeft);
    }
  }

  lemma StaysSpent(r: Identity, previous: seq<Identity>, newLeft: Counter, staleLeft: Counter, newLess: Counter,
                   staleLess: Counter)
    requires Spent(r, previous, newLeft, staleLeft) && newLess <= newLeft && staleLess <= staleLeft
    ensures Spent(r, previous, newLess, staleLess)
  {
  }

  /** The inner loop: one new identity against every stale one. */
  method PairOne(r: Identity, previouses: seq<Identity>, ghost regressions: Counter, ghost stale: Counter,
                 movesIn: seq<Move>, newIn: Counter, staleIn: Counter)
    returns (moves: seq<Move>, newLeft: Counter, staleLeft: Counter)
    requires Accounted(regressions, stale, movesIn, newIn, staleIn)
    ensures Accounted(regressions, stale, moves, newLeft, staleLeft)
    ensures newLeft <= newIn && staleLeft <= staleIn && Spent(r, previouses, newLeft, staleLeft)
  {
    hide Accounted;
    moves, newLeft, staleLeft := movesIn, newIn, staleIn;
    for j := 0 to |previouses|
      invariant Accounted(regressions, stale, moves, newLeft, staleLeft)
      invariant newLeft <= newIn && staleLeft <= staleIn && Spent(r, previouses[..j], newLeft, staleLeft)
    {
      var s := previouses[j];
      assert previouses[..j + 1] == previouses[..j] + [s];
      if newLeft[r] == 0 { break; }
      if staleLeft[s] == 0 || s.shape != r.shape || (s.path, s.scope) == (r.path, r.scope) { continue; }
      var paired := if newLeft[r] < staleLeft[s] then newLeft[r] else staleLeft[s];
      var move := Move(s, r, paired);
      TakeMove(regressions, stale, moves, move, newLeft, staleLeft);
      var newNext, staleNext := newLeft[r := newLeft[r] - paired], staleLeft[s := staleLeft[s] - paired];
      StaysSpent(r, previouses[..j], newLeft, staleLeft, newNext, staleNext);
      moves, newLeft, staleLeft := moves + [move], newNext, staleNext;
    }
    assert previouses[..|previouses|] == previouses;
  }

  lemma TakeMove(regressions: Counter, stale: Counter, moves: seq<Move>, m: Move, newLeft: Counter, staleLeft: Counter)
    requires Accounted(regressions, stale, moves, newLeft, staleLeft)
    requires 0 < m.count <= newLeft[m.current] && m.count <= staleLeft[m.previous] && Moves(m.previous, m.current)
    ensures Accounted(regressions, stale, moves + [m], newLeft[m.current := newLeft[m.current] - m.count],
                      staleLeft[m.previous := staleLeft[m.previous] - m.count])
  {
    assert (moves + [m])[..|moves|] == moves;
  }

  // ----- Totals per shape -----

  function Weight(x: Identity, shape: seq<string>): nat {
    if x.shape == shape then 1 else 0
  }

  /** How many handlers of a shape a counter holds, wherever they are. */
  ghost function Total(m: Counter, shape: seq<string>): nat
    decreases |m|
  {
    if m == multiset{} then 0 else
      var x :| x in m;
      Weight(x, shape) + Total(m - multiset{x}, shape)
  }

  lemma RemoveCommutes(m: Counter, x: Identity, y: Identity)
    ensures m - multiset{x} - multiset{y} == m - multiset{y} - multiset{x}
  {
  }

  lemma {:induction false} TotalRemove(m: Counter, shape: seq<string>, x: Identity)
    requires x in m
    ensures Total(m, shape) == Weight(x, shape) + Total(m - multiset{x}, shape)
    decreases |m|
  {
    var y :| y in m && Total(m, shape) == Weight(y, shape) + Total(m - multiset{y}, shape);
    hide Total;
    if x != y {
      TotalRemove(m - multiset{y}, shape, x);
      TotalRemove(m - multiset{x}, shape, y);
      RemoveCommutes(m, x, y);
    }
  }

  lemma {:induction false} TotalSum(a: Counter, b: Counter, shape: seq<string>)
    ensures Total(a + b, shape) == Total(a, shape) + Total(b, shape)
    decreases |b|
  {
    if b == multiset{} {
      assert a + b == a;
    } else {
      var x :| x in b;
      TotalSum(a, b - multiset{x}, shape);
      TotalRemove(b, shape, x);
      TotalRemove(a + b, shape, x);
      assert a + b - multiset{x} == a + (b - multiset{x});
    }
  }

  lemma {:induction false} TotalPositive(m: Counter, shape: seq<string>)
    ensures Total(m, shape) > 0 <==> exists x :: x in m && x.shape == shape
    decreases |m|
  {
    if m != multiset{} {
      var x :| x in m;
      TotalRemove(m, shape, x);
      TotalPositive(m - multiset{x}, shape);
      assert forall y :: y in m ==> y == x || y in m - multiset{x};
    }
  }

  lemma {:induction false} TotalOne(x: Identity, n: nat, shape: seq<string>)
    ensures Total(multiset{}[x := n], shape) == if x.shape == shape then n else 0
  {
    if n > 0 {
      TotalOne(x, n - 1, shape);
      TotalRemove(multiset{}[x := n], shape, x);
      assert multiset{}[x := n] - multiset{x} == multiset{}[x := n - 1];
    }
  }

  /** A move changes no shape's total. */
  lemma {:induction false} MovesKeepTotals(moves: seq<Move>, shape: seq<string>)
    requires AreMoves(moves)
    ensures Total(Left(moves), shape) == Total(Arrived(moves), shape)
  {
    if moves != [] {
      var rest, m := moves[..|moves| - 1], moves[|moves| - 1];
      assert forall n :: n in rest ==> n in moves;
      assert m in moves;
      MovesKeepTotals(rest, shape);
      TotalOne(m.previous, m.count, shape);
      TotalOne(m.current, m.count, shape);
      TotalSum(Left(rest), multiset{}[m.previous := m.count], shape);
      TotalSum(Arrived(rest), multiset{}[m.current := m.count], shape);
    }
  }

  /** Of no shape is there both something new and something stale left. */
  lemma OneSideIsLeft(regressions: Counter, stale: Counter, moves: seq<Move>, newLeft: Counter, staleLeft: Counter,
                      shape: seq<string>)
    requires IsPairing(regressions, stale, moves, newLeft, staleLeft) && regressions !! stale
    ensures Total(newLeft, shape) == 0 || Total(staleLeft, shape) == 0
  {
    hide Total, Left, Arrived;
    TotalPositive(newLeft, shape);
    TotalPositive(staleLeft, shape);
    assert newLeft <= regressions && staleLeft <= stale;
    forall r, s | r in newLeft && s in staleLeft ensures r != s && !Moves(s, r) {
      assert r in regressions && s in stale;
    }
  }

  /** The greedy pairing is exact: what is left of a shape is the excess of its total. */
  lemma PairingIsExact(regressions: Counter, stale: Counter, moves: seq<Move>, newLeft: Counter, staleLeft: Counter,
                       shape: seq<string>)
    requires IsPairing(regressions, stale, moves, newLeft, staleLeft) && regressions !! stale
    ensures var r, s := Total(regressions, shape), Total(stale, shape);
            && Total(newLeft, shape) == (if r > s then r - s else 0)
            && Total(staleLeft, shape) == (if s > r then s - r else 0)
  {
    hide Accounted, Total;
    PairingConserves(regressions, stale, moves, newLeft, staleLeft, shape);
    OneSideIsLeft(regressions, stale, moves, newLeft, staleLeft, shape);
  }

  /** Pairing takes as much of a shape from either side. */
  lemma PairingConserves(regressions: Counter, stale: Counter, moves: seq<Move>, newLeft: Counter, staleLeft: Counter,
                         shape: seq<string>)
    requires Accounted(regressions, stale, moves, newLeft, staleLeft)
    ensures Total(regressions, shape) + Total(staleLeft, shape) == Total(stale, shape) + Total(newLeft, shape)
  {
    hide Total, Left, Arrived;
    MovesKeepTotals(moves, shape);
    TotalSum(newLeft, Arrived(moves), shape);
    TotalSum(staleLeft, Left(moves), shape);
  }

  // ----- The gate -----

  function CompareBaseline(findings: Counter, baseline: Counter): (Counter, Counter) {
    (findings - baseline, baseline - findings)
  }

  lemma ComparisonKeepsTotals(findings: Counter, baseline: Counter, shape: seq<string>)
    ensures Total(findings - baseline, shape) + Total(baseline, shape) ==
              Total(baseline - findings, shape) + Total(findings, shape)
  {
    TotalSum(findings - baseline, baseline, shape);
    TotalSum(baseline - findings, findings, shape);
    assert findings - baseline + baseline == baseline - findings + findings;
  }

  /** No shape has more handlers than before. */
  ghost predicate NoMoreThan(findings: Counter, baseline: Counter) {
    forall shape :: Total(findings, shape) <= Total(baseline, shape)
  }

  datatype Verdict = Accepted | Refused

  /** --write-baseline: refuses malformed comments, and new debt unless there was no
      baseline; otherwise records what was found. */
  method WriteBaseline(findings: Counter, baseline: Option<Counter>, malformed: bool)
    returns (verdict: Verdict, written: Option<Counter>)
    ensures verdict == Accepted <==> !malformed && (baseline.None? || NoMoreThan(findings, baseline.value))
    ensures written == if verdict == Accepted then Some(findings) else baseline
  {
    if malformed { return Refused, baseline; }
    var recorded := if baseline.Some? then baseline.value else multiset{};
    var (regressions, stale) := CompareBaseline(findings, recorded);
    var moves, newLeft, staleLeft := PairMovedIdentities(regressions, stale);
    NothingLeftIff(findings, recorded, moves, newLeft, staleLeft);
    if newLeft != multiset{} && baseline.Some? { return Refused, baseline; }
    return Accepted, Some(findings);
  }

  /** No regression is left exactly when no shape has grown. */
  lemma NothingLeftIff(findings: Counter, baseline: Counter, moves: seq<Move>, newLeft: Counter, staleLeft: Counter)
    requires IsPairing(findings - baseline, baseline - findings, moves, newLeft, staleLeft)
    ensures newLeft == multiset{} <==> NoMoreThan(findings, baseline)
  {
    assert findings - baseline !! baseline - findings;
    forall shape ensures Total(newLeft, shape) == 0 <==> Total(findings, shape) <= Total(baseline, shape) {
      PairingIsExact(findings - baseline, baseline - findings, moves, newLeft, staleLeft, shape);
      ComparisonKeepsTotals(findings, baseline, shape);
    }
    if newLeft != multiset{} {
      var x :| x in newLeft;
      TotalPositive(newLeft, x.shape);
    }
  }

  /** The check without --write-baseline: moves, new debt and stale debt all fail it. */
  method CheckBaseline(findings: Counter, baseline: Counter) returns (clean: bool)
    ensures clean <==> findings == baseline
  {
    var (regressions, stale) := CompareBaseline(findings, baseline);
    var moves, newLeft, staleLeft := PairMovedIdentities(regressions, stale);
    clean := moves == [] && newLeft == multiset{} && staleLeft == multiset{};
    if clean {
      assert findings == findings - baseline + findings * baseline
             && baseline == baseline - findings + findings * baseline;
    }
  }

  // ----- Whole runs -----

  datatype Attempt = Attempt(findings: Counter, malformed: bool)

  /** An existing baseline after one --write-baseline, as WriteBaseline leaves it. */
  ghost function Rewritten(baseline: Counter, a: Attempt): Counter {
    if !a.malformed && NoMoreThan(a.findings, baseline) then a.findings else baseline
  }

  ghost predicate IsHistory(baselines: seq<Counter>, attempts: seq<Attempt>) {
    |baselines| == |attempts| + 1 &&
    forall i :: 0 <= i < |attempts| ==> baselines[i + 1] == Rewritten(baselines[i], attempts[i])
  }

  /** Whatever the code does between the rewrites, no shape's recorded debt ever grows. */
  lemma {:induction false} DebtNeverGrows(baselines: seq<Counter>, attempts: seq<Attempt>, i: nat, j: nat)
    requires IsHistory(baselines, attempts) && i <= j < |baselines|
    ensures NoMoreThan(baselines[j], baselines[i])
    decreases j
  {
    hide Total;
    if i < j {
      DebtNeverGrows(baselines, attempts, i, j - 1);
      assert baselines[j - 1 + 1] == Rewritten(baselines[j - 1], attempts[j - 1]);
    }
  }
}
