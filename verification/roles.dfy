/** Roster construction (`create_players` in src/stages.py): numbered
    players, at most one agent, and a mafia of floor(sqrt(n)) members. The
    random sample of mafia members is an input. */
module Roles {
  import opened Wrappers
  import opened Text
  import opened Players

  /** floor(sqrt(n)), computed exactly (the source goes through a float). */
  function Isqrt(n: nat): (r: nat)
    ensures r * r <= n < (r + 1) * (r + 1)
  {
    if n == 0 then 0
    else
      var s := Isqrt(n - 1);
      if (s + 1) * (s + 1) <= n then
        assert (s + 2) * (s + 2) == (s + 1) * (s + 1) + 2 * s + 3;
        s + 1
      else s
  }

  /** What `random.sample(players, floor(sqrt(count)))` can return, as a set
      of player numbers. */
  predicate IsMafiaSample(count: nat, mafia: set<nat>) {
    |mafia| == Isqrt(count) && forall m :: m in mafia ==> m < count
  }

  /** `math.sqrt` of a negative player count raises. */
  datatype ConfigError = NegativePlayerCount

  predicate AtMostOneAgent(ps: seq<Player>) {
    forall i, j :: 0 <= i < |ps| && 0 <= j < |ps| && ps[i].agent && ps[j].agent ==> i == j
  }

  function MafiaNumbers(ps: seq<Player>): set<nat> {
    set i | 0 <= i < |ps| && ps[i].mafia
  }

  /** Player `number` as `create_players` leaves it. */
  function NewPlayer(number: nat, agentNumber: int, mafia: set<nat>): Player {
    var isAgent := number == agentNumber;
    Player(
      name := if isAgent then "agent" else PlayerName(number),
      number := number,
      alive := true,
      mafia := number in mafia,
      agent := isAgent,
      onTrial := false,
      strategicValue := 0,
      currentAction := "",
      actions := NoActions)
  }

  /** `create_players(count, agentNumber)` with the mafia sample `mafia`. */
  function CreatePlayers(count: int, agentNumber: int, mafia: set<nat>): (r: Result<seq<Player>, ConfigError>)
    requires count >= 0 ==> IsMafiaSample(count, mafia)
    ensures r.Success? <==> count >= 0
    ensures r.Success? ==> |r.value| == count && WellFormed(r.value) && AllSlotsApart(r.value)
    ensures r.Success? ==> forall i :: 0 <= i < |r.value| ==>
              r.value[i].alive && !r.value[i].onTrial && r.value[i].actions == NoActions
    ensures r.Success? ==> forall i :: 0 <= i < |r.value| ==>
              (r.value[i].agent <==> i == agentNumber)
              && (r.value[i].name == "agent" <==> r.value[i].agent)
    ensures r.Success? ==> AtMostOneAgent(r.value)
    ensures r.Success? ==> ((exists i :: 0 <= i < |r.value| && r.value[i].agent) <==> 0 <= agentNumber < count)
    ensures r.Success? ==> MafiaNumbers(r.value) == mafia && |MafiaNumbers(r.value)| == Isqrt(count)
  {
    if count < 0 then Failure(NegativePlayerCount)
    else
      PlayerNameInjective();
      var ps := seq(count, i requires 0 <= i < count => NewPlayer(i, agentNumber, mafia));
      assert 0 <= agentNumber < count ==> ps[agentNumber].agent;
      Success(ps)
  }

  /** All players of a new roster have different names. */
  lemma CreatedNamesDistinct(count: int, agentNumber: int, mafia: set<nat>)
    requires count >= 0 && IsMafiaSample(count, mafia)
    ensures var ps := CreatePlayers(count, agentNumber, mafia).value;
            forall i, j :: 0 <= i < j < |ps| ==> ps[i].name != ps[j].name
  {
    PlayerNameInjective();
  }
}
