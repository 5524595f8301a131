/** The three pure judgements of src/stages.py: who goes on trial
    (`count_accusations`), the trial verdict (`decide_verdict`) and whether a
    faction has won (`check_for_winner`). Each is computed the way the source
    computes it, in one pass over the roster, and specified against an
    independent definition by sets of players. */
module Tally {
  import opened Wrappers
  import opened Players

  // ---------------------------------------------------------------------
  // Accusations
  // ---------------------------------------------------------------------

  /** The players among the first `k` whose accusation names player `j`. */
  function AccusersBelow(ps: seq<Player>, j: nat, k: nat): set<nat>
    requires k <= |ps|
  {
    set i | 0 <= i < k && ps[i].actions.accuse == Some(j)
  }

  function Accusers(ps: seq<Player>, j: nat): set<nat> {
    AccusersBelow(ps, j, |ps|)
  }

  /** Player `j` is accused strictly more often than every other player. */
  predicate IsTrialCandidate(ps: seq<Player>, j: nat) {
    j < |ps| && forall k :: 0 <= k < |ps| && k != j ==> |Accusers(ps, k)| < |Accusers(ps, j)|
  }

  lemma AccusersStep(ps: seq<Player>, k: nat)
    requires 0 < k <= |ps|
    ensures forall j: nat :: |AccusersBelow(ps, j, k)|
              == |AccusersBelow(ps, j, k - 1)| + (if ps[k - 1].actions.accuse == Some(j) then 1 else 0)
  {
    forall j: nat
      ensures |AccusersBelow(ps, j, k)|
              == |AccusersBelow(ps, j, k - 1)| + (if ps[k - 1].actions.accuse == Some(j) then 1 else 0)
    {
      if ps[k - 1].actions.accuse == Some(j) {
        assert AccusersBelow(ps, j, k) == AccusersBelow(ps, j, k - 1) + {k - 1};
      } else {
        assert AccusersBelow(ps, j, k) == AccusersBelow(ps, j, k - 1);
      }
    }
  }

  /** The accusation list after the first `k` players have been counted:
      entry `n` is the number of accusations naming the player numbered `n`. */
  function TallyAccusations(ps: seq<Player>, k: nat): (c: seq<nat>)
    requires WellFormed(ps) && k <= |ps|
    ensures |c| == |ps|
    ensures forall j :: 0 <= j < |ps| ==> c[j] == |AccusersBelow(ps, j, k)|
    decreases k
  {
    if k == 0 then seq(|ps|, _ => 0)
    else
      var c := TallyAccusations(ps, k - 1);
      AccusersStep(ps, k);
      match ps[k - 1].actions.accuse
      case None => c
      case Some(t) =>
        var n := ps[t].number as nat;
        c[n := c[n] + 1]
  }

  /** The index Python's `max` picks: the first of the largest entries. */
  function FirstMax(c: seq<nat>): (m: nat)
    requires |c| > 0
    ensures m < |c|
    ensures forall j :: 0 <= j < |c| ==> c[j] <= c[m]
    ensures forall j :: 0 <= j < m ==> c[j] < c[m]
    decreases |c|
  {
    if |c| == 1 then 0
    else
      var m := FirstMax(c[..|c| - 1]);
      if c[|c| - 1] > c[m] then |c| - 1 else m
  }

  /** How many entries of `c` equal `v` (what `Counter(c)[v]` reports). */
  function Occurrences(c: seq<nat>, v: nat): nat {
    |set m | 0 <= m < |c| && c[m] == v|
  }

  lemma SharedValue(c: seq<nat>, b: nat)
    requires b < |c|
    ensures Occurrences(c, c[b]) > 1 <==> exists m :: 0 <= m < |c| && m != b && c[m] == c[b]
  {
    var s := set m | 0 <= m < |c| && c[m] == c[b];
    assert Occurrences(c, c[b]) == |s|;
    assert b in s;
    if exists m :: 0 <= m < |c| && m != b && c[m] == c[b] {
      var m :| 0 <= m < |c| && m != b && c[m] == c[b];
      assert m in s - {b};
      assert |s - {b}| == |s| - 1;
    }
    if |s| > 1 {
      assert |s - {b}| == |s| - 1;
      assert s - {b} != {};
      var m :| m in s - {b};
      assert 0 <= m < |c| && m != b && c[m] == c[b];
    }
  }

  /** `count_accusations`: the player to put on trial, or none when the
      largest accusation count is shared. Null accusations are skipped and
      suspicions play no part. */
  function CountAccusations(ps: seq<Player>): (r: Option<nat>)
    requires |ps| > 0 && WellFormed(ps)
    ensures forall j: nat :: r == Some(j) <==> IsTrialCandidate(ps, j)
    ensures r.None? <==> forall j: nat :: !IsTrialCandidate(ps, j)
  {
    var c := TallyAccusations(ps, |ps|);
    var m := FirstMax(c);
    SharedValue(c, m);
    MaximumDecides(ps, c, m);
    if Occurrences(c, c[m]) > 1 then None else Some(m)
  }

  /** Given the tally `c` and one of its largest entries `m`: `m` is the
      candidate when no other entry equals it, and otherwise there is none. */
  lemma MaximumDecides(ps: seq<Player>, c: seq<nat>, m: nat)
    requires |c| == |ps| && m < |c|
    requires forall j :: 0 <= j < |ps| ==> c[j] == |Accusers(ps, j)|
    requires forall j :: 0 <= j < |c| ==> c[j] <= c[m]
    ensures (forall k :: 0 <= k < |c| && k != m ==> c[k] != c[m]) ==>
              forall j: nat :: IsTrialCandidate(ps, j) <==> j == m
    ensures (exists k :: 0 <= k < |c| && k != m && c[k] == c[m]) ==>
              forall j: nat :: !IsTrialCandidate(ps, j)
  {
    if exists k :: 0 <= k < |c| && k != m && c[k] == c[m] {
      var k :| 0 <= k < |c| && k != m && c[k] == c[m];
      forall j: nat
        ensures !IsTrialCandidate(ps, j)
      {
        if j == m {
          assert !(|Accusers(ps, k)| < |Accusers(ps, j)|);
        } else if j < |ps| {
          assert !(|Accusers(ps, m)| < |Accusers(ps, j)|);
        }
      }
    } else {
      forall j: nat
        ensures IsTrialCandidate(ps, j) <==> j == m
      {
        if j != m && j < |ps| {
          assert !(|Accusers(ps, m)| < |Accusers(ps, j)|);
        }
      }
    }
  }

  /** Suspicions never change who goes on trial. */
  lemma SuspicionsIgnored(ps: seq<Player>, qs: seq<Player>)
    requires |ps| == |qs| > 0 && WellFormed(ps) && WellFormed(qs)
    requires forall i :: 0 <= i < |ps| ==> ps[i].actions.accuse == qs[i].actions.accuse
    ensures CountAccusations(ps) == CountAccusations(qs)
  {
    forall j: nat
      ensures |Accusers(ps, j)| == |Accusers(qs, j)|
    {
      assert Accusers(ps, j) == Accusers(qs, j);
    }
    forall j: nat
      ensures IsTrialCandidate(ps, j) == IsTrialCandidate(qs, j)
    {
    }
    var a := CountAccusations(ps);
    if a.Some? {
      assert IsTrialCandidate(qs, a.value);
    } else {
      assert forall j: nat :: !IsTrialCandidate(qs, j);
    }
  }

  /** With two or more players and no accusations at all, nobody is tried. */
  lemma NoAccusationsNoTrial(ps: seq<Player>)
    requires |ps| >= 2 && WellFormed(ps)
    requires forall i :: 0 <= i < |ps| ==> ps[i].actions.accuse.None?
    ensures CountAccusations(ps).None?
  {
    forall j: nat
      ensures Accusers(ps, j) == {}
    {
    }
    forall j: nat
      ensures !IsTrialCandidate(ps, j)
    {
      var other := if j == 0 then 1 else 0;
      assert |Accusers(ps, other)| == |Accusers(ps, j)|;
    }
  }

  /** A lone player is always the most accused, even with no accusations. */
  lemma LonePlayerIsTried(ps: seq<Player>)
    requires |ps| == 1 && WellFormed(ps)
    ensures CountAccusations(ps) == Some(0)
  {
    assert IsTrialCandidate(ps, 0);
  }

  // ---------------------------------------------------------------------
  // Verdict
  // ---------------------------------------------------------------------

  /** The outcome of a trial: "guilty", "innocent" or "tie". */
  datatype Verdict = Convict | Acquit | Tie

  /** The players among the first `k` whose vote slot holds `d`; dead players
      included. */
  function VotersBelow(ps: seq<Player>, d: Decision, k: nat): set<nat>
    requires k <= |ps|
  {
    set i | 0 <= i < k && ps[i].actions.vote == d
  }

  function Voters(ps: seq<Player>, d: Decision): set<nat> {
    VotersBelow(ps, d, |ps|)
  }

  lemma VotersStep(ps: seq<Player>, d: Decision, k: nat)
    requires 0 < k <= |ps|
    ensures |VotersBelow(ps, d, k)| == |VotersBelow(ps, d, k - 1)| + (if ps[k - 1].actions.vote == d then 1 else 0)
  {
    var before := VotersBelow(ps, d, k - 1);
    var after := VotersBelow(ps, d, k);
    assert k - 1 !in before;
    if ps[k - 1].actions.vote == d {
      assert forall i :: i in after <==> i in before || i == k - 1;
      assert after == before + {k - 1};
    } else {
      assert forall i :: i in after <==> i in before;
      assert after == before;
    }
  }

  /** The guilty and innocent counts after the first `k` players; null and
      "abstain" votes are skipped. */
  function TallyVotes(ps: seq<Player>, k: nat): (t: (nat, nat))
    requires k <= |ps|
    ensures t.0 == |VotersBelow(ps, Guilty, k)| && t.1 == |VotersBelow(ps, Innocent, k)|
    decreases k
  {
    if k == 0 then (0, 0)
    else
      var (g, n) := TallyVotes(ps, k - 1);
      VotersStep(ps, Guilty, k);
      VotersStep(ps, Innocent, k);
      match ps[k - 1].actions.vote
      case Undecided => (g, n)
      case Abstain => (g, n)
      case Guilty => (g + 1, n)
      case Innocent => (g, n + 1)
  }

  /** `decide_verdict`: a tie when the guilty and innocent votes are equal in
      number, otherwise the side with more votes. */
  function DecideVerdict(ps: seq<Player>): (v: Verdict)
    ensures v == Tie <==> |Voters(ps, Guilty)| == |Voters(ps, Innocent)|
    ensures v == Convict <==> |Voters(ps, Guilty)| > |Voters(ps, Innocent)|
    ensures v == Acquit <==> |Voters(ps, Guilty)| < |Voters(ps, Innocent)|
  {
    var (g, n) := TallyVotes(ps, |ps|);
    if g == n then Tie else if g > n then Convict else Acquit
  }

  // ---------------------------------------------------------------------
  // Winner
  // ---------------------------------------------------------------------

  /** The result of a win check: "Nobody", "Town" or "Mafia". */
  datatype Winner = Nobody | Town | Mafia

  predicate LivingMafiaBelow(ps: seq<Player>, k: nat)
    requires k <= |ps|
  {
    exists i :: 0 <= i < k && ps[i].alive && ps[i].mafia
  }

  predicate LivingTownBelow(ps: seq<Player>, k: nat)
    requires k <= |ps|
  {
    exists i :: 0 <= i < k && ps[i].alive && !ps[i].mafia
  }

  predicate LivingMafia(ps: seq<Player>) {
    LivingMafiaBelow(ps, |ps|)
  }

  predicate LivingTown(ps: seq<Player>) {
    LivingTownBelow(ps, |ps|)
  }

  /** The living mafia and living town counts after the first `k` players. */
  function CountLiving(ps: seq<Player>, k: nat): (t: (nat, nat))
    requires k <= |ps|
    ensures t.0 > 0 <==> LivingMafiaBelow(ps, k)
    ensures t.1 > 0 <==> LivingTownBelow(ps, k)
    decreases k
  {
    if k == 0 then (0, 0)
    else
      var (m, t) := CountLiving(ps, k - 1);
      var p := ps[k - 1];
      assert LivingMafiaBelow(ps, k) <==> LivingMafiaBelow(ps, k - 1) || (p.alive && p.mafia);
      assert LivingTownBelow(ps, k) <==> LivingTownBelow(ps, k - 1) || (p.alive && !p.mafia);
      if !p.alive then (m, t)
      else if p.mafia then (m + 1, t)
      else (m, t + 1)
  }

  /** `check_for_winner`. The town check is made first and the mafia check
      second, so the mafia win whenever no town player is alive, even when
      no mafia player is alive either. */
  function CheckForWinner(ps: seq<Player>): (w: Winner)
    ensures w == Mafia <==> !LivingTown(ps)
    ensures w == Town <==> LivingTown(ps) && !LivingMafia(ps)
    ensures w == Nobody <==> LivingTown(ps) && LivingMafia(ps)
  {
    var (mafiaCount, townCount) := CountLiving(ps, |ps|);
    var winner := if mafiaCount == 0 then Town else Nobody;
    if townCount == 0 then Mafia else winner
  }
}
