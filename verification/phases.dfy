/** The phase machine of src/stages.py: Discussion, Trial and Night screens
    whose `submit` resolves the round, and the Loading screens between them
    that consult the reasoner and pass on to a fixed next screen. The
    screen manager's `current` becomes the `screen` of a `Game`. */
module Phases {
  import opened Wrappers
  import opened Players
  import opened Roles
  import opened Tally
  import opened Reasoner

  /** The screens of a match; `GameOver` carries the winner it announces. */
  datatype Screen =
    | Discussion
    | LoadingDT
    | Trial
    | LoadingTN
    | Night
    | LoadingND
    | GameOver(winner: Winner)

  datatype Game = Game(players: seq<Player>, screen: Screen)

  function OnTrial(ps: seq<Player>): set<nat> {
    set i | 0 <= i < |ps| && ps[i].onTrial
  }

  // ---------------------------------------------------------------------
  // Discussion
  // ---------------------------------------------------------------------

  /** `Discussion.submit`: the strictly most accused player is put on trial
      and the game goes to trial through a Loading screen; without one it
      goes to night the same way. */
  function DiscussionSubmit(ps: seq<Player>): (g: Game)
    requires |ps| > 0 && WellFormed(ps)
    ensures g.screen == LoadingDT <==> exists j: nat :: IsTrialCandidate(ps, j)
    ensures g.screen != LoadingDT ==> g == Game(ps, LoadingTN)
    ensures forall j: nat :: IsTrialCandidate(ps, j) ==> g.players == ps[j := ps[j].(onTrial := true)]
  {
    match CountAccusations(ps)
    case None => Game(ps, LoadingTN)
    case Some(j) =>
      var n := ps[j].number as nat;
      Game(ps[n := ps[n].(onTrial := true)], LoadingDT)
  }

  // ---------------------------------------------------------------------
  // Trial
  // ---------------------------------------------------------------------

  predicate SomeoneOnTrial(ps: seq<Player>) {
    exists i :: 0 <= i < |ps| && ps[i].onTrial
  }

  /** The player `Trial.on_enter` takes as the accused: the first one
      flagged as on trial from index `k` on. */
  function FirstOnTrial(ps: seq<Player>, k: nat): (r: nat)
    requires k <= |ps| && exists i :: k <= i < |ps| && ps[i].onTrial
    ensures k <= r < |ps| && ps[r].onTrial
    ensures forall i :: k <= i < r ==> !ps[i].onTrial
    decreases |ps| - k
  {
    if ps[k].onTrial then k else FirstOnTrial(ps, k + 1)
  }

  /** `Trial.submit`: the accused leaves trial and dies only on a guilty
      verdict, that is when more players voted guilty than innocent. The
      game goes on to night unless a faction has won. */
  function TrialSubmit(ps: seq<Player>): (g: Game)
    requires SomeoneOnTrial(ps)
    ensures |g.players| == |ps|
    ensures var a := FirstOnTrial(ps, 0);
            && !g.players[a].onTrial
            && (g.players[a].alive <==> ps[a].alive && |Voters(ps, Guilty)| <= |Voters(ps, Innocent)|)
            && SameRole(g.players[a], ps[a]) && g.players[a].actions == ps[a].actions
            && g.players[a].currentAction == ps[a].currentAction
            && forall j :: 0 <= j < |ps| && j != a ==> g.players[j] == ps[j]
    ensures g.screen == LoadingTN <==> LivingTown(g.players) && LivingMafia(g.players)
    ensures g.screen != LoadingTN ==> g.screen == GameOver(CheckForWinner(g.players))
  {
    var a := FirstOnTrial(ps, 0);
    var verdict := DecideVerdict(ps);
    var accused := ps[a].(onTrial := false);
    var accused := if verdict == Convict then accused.(alive := false) else accused;
    var qs := ps[a := accused];
    var winner := CheckForWinner(qs);
    Game(qs, if winner == Nobody then LoadingTN else GameOver(winner))
  }

  // ---------------------------------------------------------------------
  // Night
  // ---------------------------------------------------------------------

  /** `Night.on_pre_leave`: every player's declarations go back to the
      defaults, whatever they were. */
  function ResetActions(ps: seq<Player>): (r: seq<Player>)
    ensures |r| == |ps|
    ensures forall i :: 0 <= i < |ps| ==> r[i].actions == NoActions
    ensures forall i :: 0 <= i < |ps| ==>
              SameIdentity(r[i], ps[i]) && r[i].alive == ps[i].alive
              && r[i].currentAction == ps[i].currentAction
  {
    seq(|ps|, i requires 0 <= i < |ps| => ps[i].(actions := NoActions))
  }

  /** `Night.submit` followed by leaving the night screen: the selected
      player, if any, dies; the game goes on to discussion unless a faction
      has won; and all declarations are reset on the way out. */
  function NightSubmit(ps: seq<Player>, selected: Option<nat>): (g: Game)
    requires WellFormed(ps)
    requires selected.Some? ==> selected.value < |ps|
    ensures |g.players| == |ps|
    ensures forall i :: 0 <= i < |ps| ==>
              g.players[i].actions == NoActions && SameIdentity(g.players[i], ps[i])
              && (g.players[i].alive <==> ps[i].alive && selected != Some(i))
              && g.players[i].currentAction == ps[i].currentAction
    ensures var killed := if selected.Some? then Die(ps, selected.value) else ps;
            && (g.screen == LoadingND <==> LivingTown(killed) && LivingMafia(killed))
            && (g.screen != LoadingND ==> g.screen == GameOver(CheckForWinner(killed)))
  {
    var qs := match selected
      case None => ps
      case Some(s) => Die(ps, ps[s].number as nat);
    var winner := CheckForWinner(qs);
    Game(ResetActions(qs), if winner == Nobody then LoadingND else GameOver(winner))
  }

  // ---------------------------------------------------------------------
  // Loading screens
  // ---------------------------------------------------------------------

  predicate IsLoading(s: Screen) {
    s == LoadingDT || s == LoadingTN || s == LoadingND
  }

  /** Where each Loading screen's `exit` goes. */
  function ExitLoading(s: Screen): (r: Screen)
    requires IsLoading(s)
    ensures s == LoadingDT ==> r == Trial
    ensures s == LoadingTN ==> r == Night
    ensures s == LoadingND ==> r == Discussion
  {
    match s
    case LoadingDT => Trial
    case LoadingTN => Night
    case LoadingND => Discussion
  }

  // ---------------------------------------------------------------------
  // The machine
  // ---------------------------------------------------------------------

  /** A user submitting the current screen (with the night's selected
      player), or the reasoner finishing on a Loading screen. */
  datatype Event = Submit(selected: Option<nat>) | Loaded(pick: nat, coin: bool)

  /** What holds between steps: a dense, linked, non-empty roster, and one
      player on trial exactly while the game is headed for or in a trial. */
  predicate Inv(g: Game) {
    && |g.players| > 0 && WellFormed(g.players)
    && (if g.screen == LoadingDT || g.screen == Trial
        then |OnTrial(g.players)| == 1
        else OnTrial(g.players) == {})
  }

  predicate Fits(g: Game, e: Event) {
    e.Submit? && e.selected.Some? ==> e.selected.value < |g.players|
  }

  lemma SingleOnTrial(ps: seq<Player>)
    requires |OnTrial(ps)| == 1
    ensures SomeoneOnTrial(ps)
    ensures OnTrial(ps) == {FirstOnTrial(ps, 0)}
  {
    var s := OnTrial(ps);
    var i :| i in s;
    assert SomeoneOnTrial(ps);
    var a := FirstOnTrial(ps, 0);
    assert a in s;
    assert |s - {a}| == |s| - 1;
    assert s - {a} == {};
    assert s == {a};
  }

  /** One step of the machine. Events that do not belong to the current
      screen change nothing, and nothing moves once the game is over. */
  function Step(g: Game, e: Event): (r: Game)
    requires Inv(g) && Fits(g, e)
    ensures g.screen.GameOver? ==> r == g
    ensures IsLoading(g.screen) && e.Loaded? ==> r.screen == ExitLoading(g.screen)
    ensures |r.players| == |g.players|
  {
    match e
    case Submit(selected) =>
      (match g.screen
       case Discussion => DiscussionSubmit(g.players)
       case Trial =>
         SingleOnTrial(g.players);
         TrialSubmit(g.players)
       case Night => NightSubmit(g.players, selected)
       case _ => g)
    case Loaded(pick, coin) =>
      if IsLoading(g.screen) then
        Game(Reason(g.players, pick, coin), ExitLoading(g.screen))
      else g
  }

  /** Flagging one player of a roster nobody is on trial in puts exactly
      that player on trial, and keeps the roster well formed. */
  lemma FlagOnTrial(ps: seq<Player>, j: nat)
    requires WellFormed(ps) && OnTrial(ps) == {} && j < |ps|
    ensures var qs := ps[j := ps[j].(onTrial := true)];
            WellFormed(qs) && OnTrial(qs) == {j}
  {
    var qs := ps[j := ps[j].(onTrial := true)];
    forall i | 0 <= i < |qs|
      ensures qs[i].onTrial <==> i == j
    {
      if i != j {
        assert i !in OnTrial(ps);
      }
    }
  }

  lemma DiscussionKeepsInv(ps: seq<Player>)
    requires |ps| > 0 && WellFormed(ps) && OnTrial(ps) == {}
    ensures Inv(DiscussionSubmit(ps))
  {
    var c := CountAccusations(ps);
    if c.Some? {
      assert IsTrialCandidate(ps, c.value);
      FlagOnTrial(ps, c.value);
    }
  }

  lemma TrialKeepsInv(ps: seq<Player>)
    requires |ps| > 0 && WellFormed(ps) && |OnTrial(ps)| == 1
    ensures SomeoneOnTrial(ps) && Inv(TrialSubmit(ps))
  {
    SingleOnTrial(ps);
    var g := TrialSubmit(ps);
    var a := FirstOnTrial(ps, 0);
    forall i | 0 <= i < |g.players|
      ensures !g.players[i].onTrial
    {
      if i != a {
        assert i !in OnTrial(ps);
      }
    }
    assert OnTrial(g.players) == {};
  }

  lemma NightKeepsInv(ps: seq<Player>, selected: Option<nat>)
    requires |ps| > 0 && WellFormed(ps) && OnTrial(ps) == {}
    requires selected.Some? ==> selected.value < |ps|
    ensures Inv(NightSubmit(ps, selected))
  {
    var g := NightSubmit(ps, selected);
    assert OnTrial(g.players) == OnTrial(ps);
  }

  lemma LoadingKeepsInv(g: Game, pick: nat, coin: bool)
    requires Inv(g) && IsLoading(g.screen)
    ensures Inv(Step(g, Loaded(pick, coin)))
  {
    var r := Step(g, Loaded(pick, coin));
    assert OnTrial(r.players) == OnTrial(g.players);
  }

  /** A Loaded event runs the Loading screen with the missing-agent fix:
      the roster it leaves is the one `EnterLoading` yields. */
  lemma LoadingIsCorrectedScreen(g: Game, pick: nat, coin: bool)
    requires Inv(g) && IsLoading(g.screen)
    ensures EnterLoading(g.players, pick, coin) == Success(Step(g, Loaded(pick, coin)).players)
  {
  }

  /** Every step keeps the invariant: numbering stays dense, references stay
      inside the roster, and exactly one player is on trial from the
      discussion that accuses them until their trial is submitted. */
  lemma StepPreservesInv(g: Game, e: Event)
    requires Inv(g) && Fits(g, e)
    ensures Inv(Step(g, e))
  {
    match e
    case Submit(selected) =>
      if g.screen == Discussion {
        DiscussionKeepsInv(g.players);
      } else if g.screen == Trial {
        TrialKeepsInv(g.players);
      } else if g.screen == Night {
        NightKeepsInv(g.players, selected);
      }
    case Loaded(pick, coin) =>
      if IsLoading(g.screen) {
        LoadingKeepsInv(g, pick, coin);
      }
  }

  /** No step brings a player back to life or changes anyone's name, number,
      faction or agent flag. */
  lemma StepNeverRevives(g: Game, e: Event)
    requires Inv(g) && Fits(g, e)
    ensures var r := Step(g, e);
            forall i :: 0 <= i < |g.players| ==>
              SameRole(r.players[i], g.players[i])
              && (r.players[i].alive ==> g.players[i].alive)
  {
    var ps := g.players;
    match e
    case Submit(selected) =>
      if g.screen == Discussion {
        var c := CountAccusations(ps);
        if c.Some? {
          assert IsTrialCandidate(ps, c.value);
        }
      } else if g.screen == Trial {
        SingleOnTrial(ps);
        assert Step(g, e) == TrialSubmit(ps);
      } else if g.screen == Night {
        assert Step(g, e) == NightSubmit(ps, selected);
      } else {
        assert Step(g, e) == g;
      }
    case Loaded(pick, coin) =>
      if IsLoading(g.screen) {
        assert Step(g, e).players == Reason(ps, pick, coin);
      } else {
        assert Step(g, e) == g;
      }
  }

  /** A new match of at least one player starts in discussion with the
      invariant in place. */
  lemma NewMatchSatisfiesInv(count: int, agentNumber: int, mafia: set<nat>)
    requires count > 0 && IsMafiaSample(count, mafia)
    ensures Inv(Game(CreatePlayers(count, agentNumber, mafia).value, Discussion))
  {
    var ps := CreatePlayers(count, agentNumber, mafia).value;
    assert OnTrial(ps) == {};
  }

  /** A match created with an out-of-range agent number has no agent, and
      the reasoner hand-off of its first Loading screen then raises. */
  lemma FullyHumanMatchCrashesLoading(count: int, agentNumber: int, mafia: set<nat>, pick: nat, coin: bool)
    requires count >= 0 && IsMafiaSample(count, mafia)
    requires !(0 <= agentNumber < count)
    ensures var ps := CreatePlayers(count, agentNumber, mafia).value;
            EnterLoadingAsWritten(ps, pick, coin) == Failure(NoAgent)
  {
    var ps := CreatePlayers(count, agentNumber, mafia).value;
    EnterLoadingAsWrittenOutcome(ps, pick, coin);
  }
}
