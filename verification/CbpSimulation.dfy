/** The simulation loop of the branch prediction harness: it reads the trace through the
    windowed reader, predicts and trains on conditional branches, and keeps the marking
    table and the statistics. */
module CbpSimulation {
  import opened FoldedHistories
  import opened TagePredictor
  import opened Bt9Reader

  /** What the class fields of a branch decode to: FakeFirst is the dummy first node, Fatal
      any undecodable branch, on which the harness exits. */
  datatype Kind = Conditional | Unconditional | FakeFirst | Fatal
  datatype Branch = Branch(pc: nat, taken: bool, kind: Kind)
  datatype Resolved = Resolved(pc: nat, taken: bool, predicted: bool)
  datatype Ending = AtEnd | OutOfRange | Exit

  /** The classes of the marking table: no history, always not-taken so far, always taken so
      far, seen both ways. */
  datatype Mark = Miss | Ansf | Atsf | Dyn

  // ---------- the specification: marks and counters from the trace alone ----------

  ghost predicate Saw(trace: seq<Resolved>, pc: nat, dir: bool) {
    exists i :: 0 <= i < |trace| && trace[i].pc == pc && trace[i].taken == dir
  }

  ghost function MarkOf(trace: seq<Resolved>, pc: nat): Mark {
    if Saw(trace, pc, true) then (if Saw(trace, pc, false) then Dyn else Atsf)
    else if Saw(trace, pc, false) then Ansf else Miss
  }

  predicate Counted(r: Resolved, onlyWrong: bool) {
    onlyWrong ==> r.predicted != r.taken
  }

  /** The branches that had mark m when they came, all of them or only the mispredicted. */
  ghost function CountOf(trace: seq<Resolved>, m: Mark, onlyWrong: bool): nat {
    if trace == [] then 0
    else
      var past, r := trace[..|trace| - 1], trace[|trace| - 1];
      CountOf(past, m, onlyWrong) + if MarkOf(past, r.pc) == m && Counted(r, onlyWrong) then 1 else 0
  }

  function Total(trace: seq<Resolved>, onlyWrong: bool): nat {
    if trace == [] then 0
    else Total(trace[..|trace| - 1], onlyWrong) + if Counted(trace[|trace| - 1], onlyWrong) then 1 else 0
  }

  lemma CountNext(t: seq<Resolved>, r: Resolved, m: Mark, onlyWrong: bool)
    ensures CountOf(t + [r], m, onlyWrong) ==
            CountOf(t, m, onlyWrong) + if MarkOf(t, r.pc) == m && Counted(r, onlyWrong) then 1 else 0
    ensures Total(t + [r], onlyWrong) == Total(t, onlyWrong) + if Counted(r, onlyWrong) then 1 else 0
  {
    hide MarkOf;
    assert (t + [r])[..|t|] == t;
  }

  /** One more branch, in each of the classes. */
  lemma CountsNext(t: seq<Resolved>, r: Resolved, onlyWrong: bool)
    ensures forall m: Mark ::
              CountOf(t + [r], m, onlyWrong) ==
              CountOf(t, m, onlyWrong) + if MarkOf(t, r.pc) == m && Counted(r, onlyWrong) then 1 else 0
    ensures Total(t + [r], onlyWrong) == Total(t, onlyWrong) + if Counted(r, onlyWrong) then 1 else 0
  {
    hide MarkOf, CountOf;
    CountNext(t, r, Miss, onlyWrong);
    forall m: Mark ensures
      CountOf(t + [r], m, onlyWrong) ==
      CountOf(t, m, onlyWrong) + if MarkOf(t, r.pc) == m && Counted(r, onlyWrong) then 1 else 0
    {
      CountNext(t, r, m, onlyWrong);
    }
  }

  function PcsOf(trace: seq<Resolved>): set<nat> {
    set i | 0 <= i < |trace| :: trace[i].pc
  }

  /** The four classes partition the conditional branches, and the mispredicted ones. */
  lemma {:induction false} ClassesSumToTotal(trace: seq<Resolved>, onlyWrong: bool)
    ensures CountOf(trace, Miss, onlyWrong) + CountOf(trace, Ansf, onlyWrong)
          + CountOf(trace, Atsf, onlyWrong) + CountOf(trace, Dyn, onlyWrong) == Total(trace, onlyWrong)
    ensures Total(trace, false) == |trace|
  {
    if trace != [] { ClassesSumToTotal(trace[..|trace| - 1], onlyWrong); }
  }

  /** A branch misses the table once: the misses count the distinct branch addresses. */
  lemma {:induction false} MissesAreDistinctPcs(trace: seq<Resolved>)
    ensures CountOf(trace, Miss, false) == |PcsOf(trace)|
  {
    if trace != [] {
      var past, r := trace[..|trace| - 1], trace[|trace| - 1];
      MissesAreDistinctPcs(past);
      assert trace == past + [r];
      assert PcsOf(trace) == PcsOf(past) + {r.pc};
      MissIsUnseen(past, r.pc);
      if r.pc in PcsOf(past) { assert PcsOf(trace) == PcsOf(past); }
    } else {
      assert PcsOf(trace) == {};
    }
  }

  lemma MissIsUnseen(trace: seq<Resolved>, pc: nat)
    ensures (MarkOf(trace, pc) == Miss) == (pc !in PcsOf(trace))
  {
    if pc in PcsOf(trace) {
      var i :| 0 <= i < |trace| && trace[i].pc == pc;
      assert Saw(trace, pc, trace[i].taken);
    }
  }

  lemma SawNext(trace: seq<Resolved>, r: Resolved, pc: nat, dir: bool)
    ensures Saw(trace + [r], pc, dir) <==> Saw(trace, pc, dir) || (r.pc == pc && r.taken == dir)
  {
    var next := trace + [r];
    if Saw(trace, pc, dir) {
      var i :| 0 <= i < |trace| && trace[i].pc == pc && trace[i].taken == dir;
      assert next[i].pc == pc && next[i].taken == dir;
    }
    if r.pc == pc && r.taken == dir { assert next[|trace|] == r; }
  }

  function NextMark(m: Mark, taken: bool): Mark {
    match m
    case Miss => if taken then Atsf else Ansf
    case Ansf => if taken then Dyn else Ansf
    case Atsf => if taken then Atsf else Dyn
    case Dyn => Dyn
  }

  lemma MarkAfter(trace: seq<Resolved>, r: Resolved, pc: nat)
    ensures MarkOf(trace + [r], pc) == if pc == r.pc then NextMark(MarkOf(trace, pc), r.taken) else MarkOf(trace, pc)
  {
    SawNext(trace, r, pc, true);
    SawNext(trace, r, pc, false);
  }

  function ConditionalsOf(branches: seq<Branch>): seq<(nat, bool)> {
    if branches == [] then []
    else
      var b := branches[|branches| - 1];
      ConditionalsOf(branches[..|branches| - 1]) + if b.kind.Conditional? then [(b.pc, b.taken)] else []
  }

  /** The conditional branches are all there, in order: one that comes behind n others is the
      n-th. */
  lemma {:induction false} ConditionalsAre(branches: seq<Branch>, i: nat)
    requires i < |branches|
    ensures var n := |ConditionalsOf(branches[..i])|;
            && |ConditionalsOf(branches[..i + 1])| == n + (if branches[i].kind.Conditional? then 1 else 0)
            && (branches[i].kind.Conditional? ==>
                  n < |ConditionalsOf(branches)| && ConditionalsOf(branches)[n] == (branches[i].pc, branches[i].taken))
    ensures ConditionalsOf(branches[..0]) == []
    decreases |branches|
  {
    assert branches[..i + 1][..i] == branches[..i];
    if i == |branches| - 1 {
      assert branches[..i + 1] == branches;
    } else {
      var front := branches[..|branches| - 1];
      assert front[..i] == branches[..i] && front[..i + 1] == branches[..i + 1];
      ConditionalsAre(front, i);
    }
  }

  // ---------- the counters as numbers of branches ----------

  /** The branch at i came before with this outcome. */
  ghost predicate Earlier(trace: seq<Resolved>, i: nat, dir: bool)
    requires i < |trace|
  {
    exists j :: 0 <= j < i && trace[j].pc == trace[i].pc && trace[j].taken == dir
  }

  /** The branch at i is in this class as it comes. */
  ghost predicate InClass(trace: seq<Resolved>, i: nat, taken: bool, notTaken: bool)
    requires i < |trace|
  {
    Earlier(trace, i, true) == taken && Earlier(trace, i, false) == notTaken
  }

  ghost predicate TookPart(trace: seq<Resolved>, i: nat, onlyWrong: bool)
    requires i < |trace|
  {
    onlyWrong ==> trace[i].predicted != trace[i].taken
  }

  /** A count is the number of branches that were taken before or not, and not taken before or not,
      as the class says; of all branches, or of those whose prediction was wrong. */
  lemma {:induction false} CountIs(trace: seq<Resolved>, m: Mark, onlyWrong: bool)
    ensures CountOf(trace, m, onlyWrong) ==
            |set i | 0 <= i < |trace| && TookPart(trace, i, onlyWrong) &&
                     InClass(trace, i, m == Atsf || m == Dyn, m == Ansf || m == Dyn)|
  {
    hide InClass, TookPart, MarkOf, Counted;
    var taken, notTaken := m == Atsf || m == Dyn, m == Ansf || m == Dyn;
    var all := set i | 0 <= i < |trace| && TookPart(trace, i, onlyWrong) && InClass(trace, i, taken, notTaken);
    if trace == [] {
      assert all == {};
    } else {
      var n := |trace| - 1;
      CountIs(trace[..n], m, onlyWrong);
      ClassOfLast(trace, m, onlyWrong);
      forall i | 0 <= i < n ensures i in all <==>
        TookPart(trace[..n], i, onlyWrong) && InClass(trace[..n], i, taken, notTaken)
      {
        ClassStays(trace, n, i, taken, notTaken, onlyWrong);
      }
      assert all - {n} == set i | 0 <= i < n && TookPart(trace[..n], i, onlyWrong) &&
                                  InClass(trace[..n], i, taken, notTaken);
    }
  }

  lemma ClassStays(trace: seq<Resolved>, n: nat, i: nat, taken: bool, notTaken: bool, onlyWrong: bool)
    requires i < n <= |trace|
    ensures TookPart(trace[..n], i, onlyWrong) == TookPart(trace, i, onlyWrong)
    ensures InClass(trace[..n], i, taken, notTaken) == InClass(trace, i, taken, notTaken)
  {
    hide Earlier;
    EarlierStays(trace, n, i, true);
    EarlierStays(trace, n, i, false);
  }

  lemma EarlierStays(trace: seq<Resolved>, n: nat, i: nat, dir: bool)
    requires i < n <= |trace|
    ensures Earlier(trace[..n], i, dir) == Earlier(trace, i, dir)
  {
    var front := trace[..n];
    if Earlier(trace, i, dir) {
      var j :| 0 <= j < i && trace[j].pc == trace[i].pc && trace[j].taken == dir;
      assert front[j] == trace[j];
    }
  }

  lemma ClassOfLast(trace: seq<Resolved>, m: Mark, onlyWrong: bool)
    requires trace != []
    ensures var n := |trace| - 1;
            && (MarkOf(trace[..n], trace[n].pc) == m <==>
                InClass(trace, n, m == Atsf || m == Dyn, m == Ansf || m == Dyn))
            && (Counted(trace[n], onlyWrong) <==> TookPart(trace, n, onlyWrong))
  {
    hide Saw, Earlier;
    SawIsEarlier(trace, true);
    SawIsEarlier(trace, false);
  }

  lemma SawIsEarlier(trace: seq<Resolved>, dir: bool)
    requires trace != []
    ensures var n := |trace| - 1; Saw(trace[..n], trace[n].pc, dir) == Earlier(trace, n, dir)
  {
    var n := |trace| - 1;
    if Earlier(trace, n, dir) {
      var j :| 0 <= j < n && trace[j].pc == trace[n].pc && trace[j].taken == dir;
      assert trace[..n][j] == trace[j];
    }
  }

  lemma {:induction false} TotalIs(trace: seq<Resolved>, onlyWrong: bool)
    ensures Total(trace, onlyWrong) == |set i | 0 <= i < |trace| && TookPart(trace, i, onlyWrong)|
  {
    var all := set i | 0 <= i < |trace| && TookPart(trace, i, onlyWrong);
    if trace == [] {
      assert all == {};
    } else {
      var n := |trace| - 1;
      TotalIs(trace[..n], onlyWrong);
      assert all - {n} == set i | 0 <= i < n && TookPart(trace[..n], i, onlyWrong);
    }
  }

  // ---------- the marking table and the counters ----------

  class Statistics {
    var myBtb: map<nat, nat>
    var numMispred: nat
    var numMispredMiss: nat
    var numMispredAnsf: nat
    var numMispredAtsf: nat
    var numMispredDyn: nat
    var condBranches: nat
    var condMiss: nat
    var condAnsf: nat
    var condAtsf: nat
    var condDyn: nat
    ghost var trace: seq<Resolved>

    static function Code(m: Mark): nat {
      match m case Miss => 3 case Ansf => 0 case Atsf => 1 case Dyn => 2
    }

    /** The table holds the mark of every branch address seen, and no other address. */
    ghost predicate TableMatches(t: seq<Resolved>)
      reads this`myBtb
    {
      && (forall pc: nat :: pc in myBtb <==> MarkOf(t, pc) != Miss)
      && (forall pc: nat | pc in myBtb :: myBtb[pc] == Code(MarkOf(t, pc)))
    }

    ghost predicate BranchesMatch(t: seq<Resolved>)
      reads this`condBranches, this`condMiss, this`condAnsf, this`condAtsf, this`condDyn
    {
      && condBranches == Total(t, false)
      && condMiss == CountOf(t, Miss, false) && condAnsf == CountOf(t, Ansf, false)
      && condAtsf == CountOf(t, Atsf, false) && condDyn == CountOf(t, Dyn, false)
    }

    ghost predicate MispredictionsMatch(t: seq<Resolved>)
      reads this`numMispred, this`numMispredMiss, this`numMispredAnsf, this`numMispredAtsf, this`numMispredDyn
    {
      && numMispred == Total(t, true)
      && numMispredMiss == CountOf(t, Miss, true) && numMispredAnsf == CountOf(t, Ansf, true)
      && numMispredAtsf == CountOf(t, Atsf, true) && numMispredDyn == CountOf(t, Dyn, true)
    }

    ghost predicate Valid()
      reads this
    {
      TableMatches(trace) && BranchesMatch(trace) && MispredictionsMatch(trace)
    }

    constructor ()
      ensures Valid() && trace == []
    {
      myBtb := map[];
      numMispred, numMispredMiss, numMispredAnsf, numMispredAtsf, numMispredDyn := 0, 0, 0, 0, 0;
      condBranches, condMiss, condAnsf, condAtsf, condDyn := 0, 0, 0, 0, 0;
      trace := [];
    }

    /** The ten counters, as numbers of branches: all, and in the classes by what the branch did
        before; and the same of those whose prediction was wrong. */
    lemma CountersAre()
      requires Valid()
      ensures condBranches == |trace|
      ensures numMispred == |set i | 0 <= i < |trace| && trace[i].predicted != trace[i].taken|
      ensures condMiss == |set i | 0 <= i < |trace| && InClass(trace, i, false, false)|
      ensures condAnsf == |set i | 0 <= i < |trace| && InClass(trace, i, false, true)|
      ensures condAtsf == |set i | 0 <= i < |trace| && InClass(trace, i, true, false)|
      ensures condDyn == |set i | 0 <= i < |trace| && InClass(trace, i, true, true)|
      ensures numMispredMiss ==
              |set i | 0 <= i < |trace| && trace[i].predicted != trace[i].taken && InClass(trace, i, false, false)|
      ensures numMispredAnsf ==
              |set i | 0 <= i < |trace| && trace[i].predicted != trace[i].taken && InClass(trace, i, false, true)|
      ensures numMispredAtsf ==
              |set i | 0 <= i < |trace| && trace[i].predicted != trace[i].taken && InClass(trace, i, true, false)|
      ensures numMispredDyn ==
              |set i | 0 <= i < |trace| && trace[i].predicted != trace[i].taken && InClass(trace, i, true, true)|
    {
      hide InClass, CountOf, Total, TableMatches;
      ClassesSumToTotal(trace, false);
      WrongAre(trace);
      ClassIs(trace, Miss, false, false);
      ClassIs(trace, Ansf, false, true);
      ClassIs(trace, Atsf, true, false);
      ClassIs(trace, Dyn, true, true);
    }

    static lemma WrongAre(t: seq<Resolved>)
      ensures Total(t, true) == |set i | 0 <= i < |t| && t[i].predicted != t[i].taken|
    {
      TotalIs(t, true);
      assert (set i | 0 <= i < |t| && t[i].predicted != t[i].taken) ==
             set i | 0 <= i < |t| && TookPart(t, i, true);
    }

    static lemma ClassIs(t: seq<Resolved>, m: Mark, taken: bool, notTaken: bool)
      requires taken == (m == Atsf || m == Dyn) && notTaken == (m == Ansf || m == Dyn)
      ensures CountOf(t, m, false) == |set i | 0 <= i < |t| && InClass(t, i, taken, notTaken)|
      ensures CountOf(t, m, true) ==
              |set i | 0 <= i < |t| && t[i].predicted != t[i].taken && InClass(t, i, taken, notTaken)|
    {
      hide InClass, CountOf;
      CountIs(t, m, false);
      CountIs(t, m, true);
      assert (set i | 0 <= i < |t| && InClass(t, i, taken, notTaken)) ==
             set i | 0 <= i < |t| && TookPart(t, i, false) && InClass(t, i, taken, notTaken);
      assert (set i | 0 <= i < |t| && t[i].predicted != t[i].taken && InClass(t, i, taken, notTaken)) ==
             set i | 0 <= i < |t| && TookPart(t, i, true) && InClass(t, i, taken, notTaken);
    }

    /** The conditional branch of the simulation loop, once the predictor has answered. */
    method Record(pc: nat, branchTaken: bool, predDir: bool)
      requires Valid()
      modifies this
      ensures Valid() && trace == old(trace) + [Resolved(pc, branchTaken, predDir)]
    {
      hide TableMatches, BranchesMatch, MispredictionsMatch;
      ghost var r := Resolved(pc, branchTaken, predDir);
      var btbAnsf, btbAtsf, btbDyn := LookUpAndMark(pc, branchTaken, r);
      if predDir != branchTaken {
        CountMisprediction(btbAnsf, btbAtsf, btbDyn, r);
      } else {
        NothingMispredicted(trace, r);
      }
      CountBranch(btbAnsf, btbAtsf, btbDyn, r);
      trace := trace + [r];
    }

    /** The look-up in the marking table and its update. */
    method LookUpAndMark(pc: nat, branchTaken: bool, ghost r: Resolved)
      returns (btbAnsf: bool, btbAtsf: bool, btbDyn: bool)
      requires TableMatches(trace) && r.pc == pc && r.taken == branchTaken
      modifies this`myBtb
      ensures TableMatches(trace + [r])
      ensures btbAnsf == MarkOf(trace, pc).Ansf? && btbAtsf == MarkOf(trace, pc).Atsf?
      ensures btbDyn == MarkOf(trace, pc).Dyn?
    {
      hide MarkOf;
      forall q: nat ensures
        MarkOf(trace + [r], q) == if q == r.pc then NextMark(MarkOf(trace, q), r.taken) else MarkOf(trace, q)
      {
        MarkAfter(trace, r, q);
      }
      btbAnsf, btbAtsf, btbDyn := false, false, false;
      if pc !in myBtb {
        myBtb := myBtb[pc := if branchTaken then 1 else 0];
      } else {
        btbAnsf := myBtb[pc] == 0;
        btbAtsf := myBtb[pc] == 1;
        btbDyn := myBtb[pc] == 2;
        if (btbAnsf && branchTaken) || (btbAtsf && !branchTaken) {
          myBtb := myBtb[pc := 2];
        }
      }
    }

    lemma NothingMispredicted(t: seq<Resolved>, r: Resolved)
      requires MispredictionsMatch(t) && !Counted(r, true)
      ensures MispredictionsMatch(t + [r])
    {
      hide CountOf, Total;
      CountsNext(t, r, true);
    }

    method CountMisprediction(btbAnsf: bool, btbAtsf: bool, btbDyn: bool, ghost r: Resolved)
      requires MispredictionsMatch(trace) && r.predicted != r.taken
      requires btbAnsf == MarkOf(trace, r.pc).Ansf? && btbAtsf == MarkOf(trace, r.pc).Atsf?
      requires btbDyn == MarkOf(trace, r.pc).Dyn?
      modifies this`numMispred, this`numMispredMiss, this`numMispredAnsf, this`numMispredAtsf, this`numMispredDyn
      ensures MispredictionsMatch(trace + [r])
    {
      hide MarkOf, CountOf, Total;
      CountsNext(trace, r, true);
      numMispred := numMispred + 1;
      if btbAtsf {
        numMispredAtsf := numMispredAtsf + 1;
      } else if btbAnsf {
        numMispredAnsf := numMispredAnsf + 1;
      } else if btbDyn {
        numMispredDyn := numMispredDyn + 1;
      } else {
        numMispredMiss := numMispredMiss + 1;
      }
    }

    method CountBranch(btbAnsf: bool, btbAtsf: bool, btbDyn: bool, ghost r: Resolved)
      requires BranchesMatch(trace)
      requires btbAnsf == MarkOf(trace, r.pc).Ansf? && btbAtsf == MarkOf(trace, r.pc).Atsf?
      requires btbDyn == MarkOf(trace, r.pc).Dyn?
      modifies this`condBranches, this`condMiss, this`condAnsf, this`condAtsf, this`condDyn
      ensures BranchesMatch(trace + [r])
    {
      hide MarkOf, CountOf, Total;
      CountsNext(trace, r, false);
      condBranches := condBranches + 1;
      if btbDyn {
        condDyn := condDyn + 1;
      } else if btbAtsf {
        condAtsf := condAtsf + 1;
      } else if btbAnsf {
        condAnsf := condAnsf + 1;
      } else {
        condMiss := condMiss + 1;
      }
    }
  }

  /** The statistics and the predictor have seen exactly the conditional branches, and the
      statistics have what the predictor answered. */
  ghost predicate Agree(conds: seq<(nat, bool)>, trace: seq<Resolved>, outcomes: seq<bool>, predictions: seq<bool>) {
    && |conds| == |trace| == |outcomes| == |predictions|
    && forall i | 0 <= i < |conds| ::
         && trace[i].pc == conds[i].0 && trace[i].taken == conds[i].1 == outcomes[i]
         && trace[i].predicted == predictions[i]
  }

  lemma NothingSeenYet()
    ensures Agree(ConditionalsOf([]), [], [], [])
  {
  }

  lemma SkippedBranch(visited: seq<Branch>, b: Branch, trace: seq<Resolved>, outcomes: seq<bool>,
                      predictions: seq<bool>)
    requires Agree(ConditionalsOf(visited), trace, outcomes, predictions) && !b.kind.Conditional?
    ensures Agree(ConditionalsOf(visited + [b]), trace, outcomes, predictions)
  {
    assert (visited + [b])[..|visited|] == visited;
  }

  lemma ResolvedBranch(visited: seq<Branch>, b: Branch, trace: seq<Resolved>, outcomes: seq<bool>,
                       predictions: seq<bool>, predDir: bool)
    requires Agree(ConditionalsOf(visited), trace, outcomes, predictions) && b.kind.Conditional?
    ensures Agree(ConditionalsOf(visited + [b]), trace + [Resolved(b.pc, b.taken, predDir)], outcomes + [b.taken],
                  predictions + [predDir])
  {
    assert (visited + [b])[..|visited|] == visited;
  }

  /** The loop's work on one conditional branch. */
  method PredictAndTrain(b: Branch, brpred: Predictor, stats: Statistics, stray: bool, ghost visited: seq<Branch>)
    requires b.kind.Conditional? && brpred.Valid() && stats.Valid()
    requires Agree(ConditionalsOf(visited), stats.trace, brpred.outcomes, brpred.predictions)
    modifies stats, brpred, brpred.baseTable, brpred.taggedTable, brpred.histI, brpred.histT0, brpred.histT1
    ensures brpred.Valid() && stats.Valid()
    ensures Agree(ConditionalsOf(visited + [b]), stats.trace, brpred.outcomes, brpred.predictions)
  {
    hide Predictor.Valid, Predictor.Located, Statistics.Valid, Agree, ConditionalsOf;
    hide Predictor.Row, Predictor.Tags, Predictor.Provider, UpdatedRow, FoundAgain, NextPath, BaseIndex;
    ghost var before := brpred.predictions;
    var predDir := brpred.GetPrediction(b.pc, stray);
    ResolvedBranch(visited, b, stats.trace, brpred.outcomes, before, predDir);
    brpred.UpdatePredictor(b.pc, b.taken, predDir);
    stats.Record(b.pc, b.taken, predDir);
  }

  /** The whole loop, from begin() to end(). `edges` maps an edge id to its branch. The
      windowed reader yields every entry of the sequence once and in order, unless a branch
      cannot be decoded, where the harness exits. */
  method Simulate(reader: Reader, edges: seq<Branch>, brpred: Predictor, stats: Statistics, strays: seq<bool>)
    returns (visited: seq<Branch>, ending: Ending)
    requires reader.Valid() && reader.bufferBegin == 0 && reader.buffer.Length >= 2
    requires forall i | 0 <= i < |reader.entries| :: reader.entries[i] < |edges|
    requires |strays| == |reader.entries|
    requires brpred.Valid() && brpred.outcomes == brpred.predictions == []
    requires stats.Valid() && stats.trace == []
    requires reader.buffer as object != brpred.baseTable
    modifies reader, reader.buffer, stats
    modifies brpred, brpred.baseTable, brpred.taggedTable, brpred.histI, brpred.histT0, brpred.histT1
    ensures brpred.Valid() && stats.Valid()
    ensures Agree(ConditionalsOf(visited), stats.trace, brpred.outcomes, brpred.predictions)
    ensures |visited| <= |reader.entries|
    ensures forall i | 0 <= i < |visited| :: visited[i] == edges[reader.entries[i]] && !visited[i].kind.Fatal?
    ensures ending.Exit? ==> |visited| < |reader.entries| && edges[reader.entries[|visited|]].kind.Fatal?
    ensures !ending.Exit? ==> |visited| == |reader.entries|
    ensures !ending.Exit? ==> (ending.OutOfRange? <==> EndsByException(|reader.entries|, reader.buffer.Length))
  {
    NothingSeenYet();
    hide Predictor.Valid, Statistics.Valid, Reader.Holds, Agree, ConditionalsOf;
    var n, size := |reader.entries|, reader.buffer.Length;
    var half := size / 2;
    var reachEnd, index := false, 0;
    visited := [];
    ghost var shifts: nat := 0;
    while !reachEnd
      invariant reader.Valid() && index <= n && |visited| == index
      invariant reader.bufferBegin == shifts * half && reader.bufferBegin <= index
      invariant reachEnd ==> index == n && !EndsByException(n, size)
      invariant !reachEnd && !reader.reachEof ==> index < reader.bufferEnd
      invariant !reachEnd && reader.reachEof && index == n ==> EndsByException(n, size)
      invariant reader.reachEof && index < n ==> !EndsByException(n, size)
      invariant forall i | 0 <= i < index :: visited[i] == edges[reader.entries[i]] && !visited[i].kind.Fatal?
      invariant brpred.Valid() && stats.Valid()
      invariant Agree(ConditionalsOf(visited), stats.trace, brpred.outcomes, brpred.predictions)
      decreases !reachEnd, n - index
    {
      var thrown, edgeId := reader.Load(index);
      if thrown {
        return visited, OutOfRange;
      }
      var b := edges[edgeId];
      if b.kind.Fatal? {
        return visited, Exit;
      }
      if b.kind.Conditional? {
        PredictAndTrain(b, brpred, stats, strays[index], visited);
      } else {
        SkippedBranch(visited, b, stats.trace, brpred.outcomes, brpred.predictions);
      }
      visited := visited + [b];
      var more, next := reader.MoveToNext(index);
      if reader.bufferBegin > shifts * half {
        if reader.reachEof { LastShift(n, size, shifts); }
        shifts := shifts + 1;
      }
      reachEnd, index := !more, next;
    }
    ending := AtEnd;
  }
}
