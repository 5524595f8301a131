/** The player record of src/player.py and the two calls the user interface
    makes on it: readying an action and acting on another player.

    The roster is a sequence indexed by player number. A reference from one
    player to another (the accuse and suspect slots) is the index of the
    referenced roster entry; `Dense` says that index and number agree. */
module Players {
  import opened Wrappers
  import opened Text

  /** The value of a vote slot; `Undecided` is the null value the tally skips. */
  datatype Decision = Undecided | Abstain | Guilty | Innocent

  /** A player's declarations for the current round. */
  datatype Actions = Actions(accuse: Option<nat>, suspect: Option<nat>, vote: Decision)

  /** The declarations every player starts a round with. */
  const NoActions: Actions := Actions(None, None, Abstain)

  /** One player. The icon is presentation and is not modelled;
      `strategicValue` is stored and copied but has no effect. */
  datatype Player = Player(
    name: string,
    number: int,
    alive: bool,
    mafia: bool,
    agent: bool,
    onTrial: bool,
    strategicValue: int,
    currentAction: string,
    actions: Actions)

  /** Player numbers form the dense range 0..|ps|-1, in roster order. */
  predicate Dense(ps: seq<Player>) {
    forall i :: 0 <= i < |ps| ==> ps[i].number == i
  }

  predicate SlotIn(o: Option<nat>, n: nat) {
    o.None? || o.value < n
  }

  /** Every accuse and suspect slot refers to an entry of the roster. */
  predicate Linked(ps: seq<Player>) {
    forall i :: 0 <= i < |ps| ==>
      SlotIn(ps[i].actions.accuse, |ps|) && SlotIn(ps[i].actions.suspect, |ps|)
  }

  predicate WellFormed(ps: seq<Player>) {
    Dense(ps) && Linked(ps)
  }

  /** A player's accuse and suspect slots never name the same player. */
  predicate SlotsApart(a: Actions) {
    a.accuse.None? || a.accuse != a.suspect
  }

  predicate AllSlotsApart(ps: seq<Player>) {
    forall i :: 0 <= i < |ps| ==> SlotsApart(ps[i].actions)
  }

  /** `p` and `q` are the same participant: name, number, faction, agent
      status and strategic value never change during a match. */
  predicate SameRole(p: Player, q: Player) {
    && p.name == q.name && p.number == q.number && p.mafia == q.mafia
    && p.agent == q.agent && p.strategicValue == q.strategicValue
  }

  /** `SameRole`, and the trial flag is kept too: everything about a player
      except the round's declarations, the readied action and the alive flag
      is the same in `p` and `q`. */
  predicate SameIdentity(p: Player, q: Player) {
    SameRole(p, q) && p.onTrial == q.onTrial
  }

  /** Eliminates the player with number `i` (`die`). */
  function Die(ps: seq<Player>, i: nat): (r: seq<Player>)
    requires i < |ps|
    ensures |r| == |ps| && !r[i].alive
    ensures SameIdentity(r[i], ps[i]) && r[i].actions == ps[i].actions
    ensures r[i].currentAction == ps[i].currentAction
    ensures forall j :: 0 <= j < |ps| && j != i ==> r[j] == ps[j]
  {
    ps[i := ps[i].(alive := false)]
  }

  /** The roster after `ready_action`, and the stage's selected player: the
      player now waiting to pick a target, or none. */
  datatype Armed = Armed(players: seq<Player>, selected: Option<nat>)

  /** Player `i` readies `action`. The lower-cased name becomes the current
      action; "die" eliminates the player, "guilty" and "innocent" are cast
      as the player's vote, and "abstain" clears both target slots and
      deselects the player. */
  function ReadyAction(ps: seq<Player>, i: nat, action: string): (r: Armed)
    requires i < |ps|
    ensures |r.players| == |ps|
    ensures forall j :: 0 <= j < |ps| && j != i ==> r.players[j] == ps[j]
    ensures SameIdentity(r.players[i], ps[i])
    ensures r.players[i].currentAction == Lower(action)
    ensures r.players[i].alive <==> ps[i].alive && Lower(action) != "die"
    ensures Lower(action) == "guilty" ==> r.players[i].actions.vote == Guilty
    ensures Lower(action) == "innocent" ==> r.players[i].actions.vote == Innocent
    ensures Lower(action) !in {"guilty", "innocent"} ==>
              r.players[i].actions.vote == ps[i].actions.vote
    ensures Lower(action) == "abstain" ==>
              r.players[i].actions.accuse.None? && r.players[i].actions.suspect.None?
    ensures Lower(action) != "abstain" ==>
              r.players[i].actions.accuse == ps[i].actions.accuse
              && r.players[i].actions.suspect == ps[i].actions.suspect
    ensures r.selected.None? <==> Lower(action) == "abstain"
    ensures r.selected.Some? ==> r.selected.value == i
    ensures Linked(ps) ==> Linked(r.players)
    ensures AllSlotsApart(ps) ==> AllSlotsApart(r.players)
  {
    var act := Lower(action);
    var p := ps[i].(currentAction := act);
    var p := if act == "die" then p.(alive := false) else p;
    var p :=
      if act == "guilty" then p.(actions := p.actions.(vote := Guilty))
      else if act == "innocent" then p.(actions := p.actions.(vote := Innocent))
      else p;
    var p :=
      if act == "abstain" then p.(actions := p.actions.(accuse := None, suspect := None))
      else p;
    Armed(ps[i := p], if act == "abstain" then None else Some(i))
  }

  /** Player `i` acts on player `t` (`act_on`). The current action is first
      lower-cased. Acting on oneself does nothing more. Otherwise the slot
      named by the current action ("accuse" or "suspect") is set to `t`,
      unless the other slot already names `t`; any other current action
      writes nothing. */
  function ActOn(ps: seq<Player>, i: nat, t: nat): (r: seq<Player>)
    requires i < |ps| && t < |ps|
    ensures |r| == |ps|
    ensures forall j :: 0 <= j < |ps| && j != i ==> r[j] == ps[j]
    ensures SameIdentity(r[i], ps[i]) && r[i].alive == ps[i].alive
    ensures r[i].currentAction == Lower(ps[i].currentAction)
    ensures r[i].actions.vote == ps[i].actions.vote
    // A slot changes only to the target, only when that slot is the current
    // action, and only when the other slot does not already hold the target.
    ensures r[i].actions.accuse != ps[i].actions.accuse ==>
              t != i && r[i].actions.accuse == Some(t)
              && Lower(ps[i].currentAction) == "accuse" && ps[i].actions.suspect != Some(t)
    ensures r[i].actions.suspect != ps[i].actions.suspect ==>
              t != i && r[i].actions.suspect == Some(t)
              && Lower(ps[i].currentAction) == "suspect" && ps[i].actions.accuse != Some(t)
    ensures (t != i && Lower(ps[i].currentAction) == "accuse" && ps[i].actions.suspect != Some(t))
              ==> r[i].actions.accuse == Some(t)
    ensures (t != i && Lower(ps[i].currentAction) == "suspect" && ps[i].actions.accuse != Some(t))
              ==> r[i].actions.suspect == Some(t)
    ensures Linked(ps) ==> Linked(r)
    ensures SlotsApart(ps[i].actions) ==> SlotsApart(r[i].actions)
  {
    var me := ps[i].(currentAction := Lower(ps[i].currentAction));
    var a := me.actions;
    if i == t then ps[i := me]
    else if me.currentAction == "suspect" && a.accuse != Some(t) then
      ps[i := me.(actions := a.(suspect := Some(t)))]
    else if me.currentAction == "accuse" && a.suspect != Some(t) then
      ps[i := me.(actions := a.(accuse := Some(t)))]
    else ps[i := me]
  }

  /** Acting on oneself changes nothing once the current action is lower
      case, which `ReadyAction` always leaves it. */
  lemma SelfTargetIsNoOp(ps: seq<Player>, i: nat, action: string)
    requires i < |ps|
    ensures var qs := ReadyAction(ps, i, action).players; ActOn(qs, i, i) == qs
  {
    var qs := ReadyAction(ps, i, action).players;
    LowerOfLower(qs[i].currentAction);
  }

  /** Readying "accuse" and then picking a target other than oneself that is
      not already suspected leaves exactly that accusation in place, and
      the accuse and suspect slots apart. */
  lemma ReadyAccuseThenActOn(ps: seq<Player>, i: nat, t: nat)
    requires i < |ps| && t < |ps| && t != i
    requires ps[i].actions.suspect != Some(t)
    ensures var qs := ActOn(ReadyAction(ps, i, "Accuse").players, i, t);
            qs[i].actions.accuse == Some(t) && qs[i].actions.suspect == ps[i].actions.suspect
            && SlotsApart(qs[i].actions)
  {
    assert Lower("Accuse") == "accuse";
    LowerOfLower("accuse");
  }
}
