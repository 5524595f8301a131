/** The player record of the older mafiademonstration/ package
    (mafiademonstration/player.py). Players live in a dictionary keyed by
    name, a player's declarations are a dictionary of dictionaries indexed
    first by action name and then by slot name, and a reference to another
    player is that player's name. Unlike the later version, `act_on` writes
    whatever slot the current action names, with no guard between the
    accuse and suspect slots. */
module LegacyPlayers {
  import opened Wrappers
  import opened Text

  /** A value held in a declaration slot: null, a string (a vote decision),
      or a reference to the player stored under `key`. */
  datatype Value = Null | Str(s: string) | Ref(key: string)

  /** action name -> slot name ("player" or "decision") -> value. */
  type Actions = map<string, map<string, Value>>

  /** The declarations a player starts with. */
  const DefaultActions: Actions :=
    map["accuse" := map["player" := Null],
        "suspect" := map["player" := Null],
        "vote" := map["decision" := Str("abstain")]]

  /** One player; the icon is presentation and is not modelled. */
  datatype Player = Player(
    name: string,
    number: int,
    alive: bool,
    mafia: bool,
    strategicValue: int,
    currentAction: string,
    actions: Actions)

  type Roster = map<string, Player>

  /** The exceptions the legacy code can raise. */
  datatype LegacyError = KeyError | AttributeError | AssertionError | ValueError

  /** Every player is stored under its own name. */
  predicate KeyedByName(r: Roster) {
    forall k :: k in r ==> r[k].name == k
  }

  /** `p` and `q` agree on everything but the round's state. */
  predicate SameRole(p: Player, q: Player) {
    p.name == q.name && p.number == q.number && p.mafia == q.mafia
    && p.strategicValue == q.strategicValue
  }

  /** `die`: the player stored under `name` is eliminated. */
  function Die(r: Roster, name: string): (res: Result<Roster, LegacyError>)
    ensures res.Failure? <==> name !in r
    ensures res.Success? ==>
              res.value.Keys == r.Keys && !res.value[name].alive
              && SameRole(res.value[name], r[name])
              && res.value[name].actions == r[name].actions
              && res.value[name].currentAction == r[name].currentAction
              && forall k :: k in r && k != name ==> res.value[k] == r[k]
  {
    if name !in r then Failure(KeyError)
    else Success(r[name := r[name].(alive := false)])
  }

  /** The roster after `ready_action`, and the stage's selected player. */
  datatype Armed = Armed(players: Roster, selected: string)

  predicate IsVote(act: string) {
    act == "guilty" || act == "innocent"
  }

  /** `ready_action`: the lower-cased action becomes the current action;
      "die" eliminates the player; "guilty" and "innocent" are written to
      the vote's decision slot, which raises when there is no vote entry.
      The player always becomes the selected player. Every player widget is
      built from a roster entry, so the player is stored under its name. */
  function ReadyAction(r: Roster, name: string, action: string): (res: Result<Armed, LegacyError>)
    requires name in r
    ensures res.Failure? <==> IsVote(Lower(action)) && "vote" !in r[name].actions
    ensures res.Success? ==>
              && res.value.selected == name
              && res.value.players.Keys == r.Keys
              && (forall k :: k in r && k != name ==> res.value.players[k] == r[k])
              && var p, q := r[name], res.value.players[name];
              && SameRole(q, p)
              && q.currentAction == Lower(action)
              && (q.alive <==> p.alive && Lower(action) != "die")
              && (IsVote(Lower(action)) ==>
                    q.actions.Keys == p.actions.Keys
                    && q.actions["vote"] == p.actions["vote"]["decision" := Str(Lower(action))]
                    && forall a :: a in p.actions && a != "vote" ==> q.actions[a] == p.actions[a])
              && (!IsVote(Lower(action)) ==> q.actions == p.actions)
  {
    var act := Lower(action);
    var p := r[name].(currentAction := act);
    var p := if act == "die" then p.(alive := false) else p;
    if IsVote(act) then
      if "vote" !in p.actions then Failure(KeyError)
      else
        var vote := p.actions["vote"]["decision" := Str(act)];
        Success(Armed(r[name := p.(actions := p.actions["vote" := vote])], name))
    else Success(Armed(r[name := p], name))
  }

  /** `act_on`: the player stored under `name` acts on the player named
      `target`. An empty declaration dictionary fails the entry assertion;
      acting on oneself, or with the current action "abstain" in any case,
      does nothing; otherwise the "player" slot of the entry the current
      action names (as stored, not lower-cased) is set to the target, and a
      current action with no entry raises. */
  function ActOn(r: Roster, name: string, target: string): (res: Result<Roster, LegacyError>)
    requires name in r
    ensures res.Failure? <==>
              r[name].actions == map[]
              || (name != target && Lower(r[name].currentAction) != "abstain"
                  && r[name].currentAction !in r[name].actions)
    ensures res.Success? ==>
              res.value.Keys == r.Keys
              && forall k :: k in r && k != name ==> res.value[k] == r[k]
    ensures res.Success? && (name == target || Lower(r[name].currentAction) == "abstain") ==>
              res.value == r
    ensures res.Success? && name != target && Lower(r[name].currentAction) != "abstain" ==>
              var p, q, ca := r[name], res.value[name], r[name].currentAction;
              && q == p.(actions := q.actions)
              && q.actions.Keys == p.actions.Keys
              && q.actions[ca] == p.actions[ca]["player" := Ref(target)]
              && forall a :: a in p.actions && a != ca ==> q.actions[a] == p.actions[a]
  {
    var p := r[name];
    if p.actions == map[] then Failure(AssertionError)
    else if name == target || Lower(p.currentAction) == "abstain" then Success(r)
    else if p.currentAction !in p.actions then Failure(KeyError)
    else
      var slot := p.actions[p.currentAction]["player" := Ref(target)];
      Success(r[name := p.(actions := p.actions[p.currentAction := slot])])
  }

  /** The "player" slot of entry `slot` exists and holds `v`. */
  predicate PlayerSlotIs(a: Actions, slot: string, v: Value) {
    slot in a && "player" in a[slot] && a[slot]["player"] == v
  }

  /** What the screen does when a player picks an action and then taps a
      player: `ready_action` followed by `act_on`. */
  function ReadyThenActOn(r: Roster, name: string, action: string, target: string): (res: Result<Roster, LegacyError>)
    requires name in r
    ensures res.Success? ==> res.value.Keys == r.Keys
  {
    match ReadyAction(r, name, action)
    case Failure(e) => Failure(e)
    case Success(a) => ActOn(a.players, name, target)
  }

  /** Picking the slot action `slot` and then another player points that
      slot at the target and leaves every other slot alone. */
  lemma ReadySlotThenActOn(r: Roster, name: string, target: string, slot: string)
    requires name in r && name != target
    requires slot == "accuse" || slot == "suspect"
    requires slot in r[name].actions
    ensures var b := ReadyThenActOn(r, name, slot, target);
            b.Success?
            && b.value[name].actions == r[name].actions[slot := r[name].actions[slot]["player" := Ref(target)]]
  {
    LowerOfLower(slot);
    assert slot[1] != "abstain"[1] && slot[1] != "die"[1];
    assert slot[0] != "guilty"[0] && slot[0] != "innocent"[0];
    var a := ReadyAction(r, name, slot);
    assert a.Success? && a.value.players[name].currentAction == slot;
    assert a.value.players[name].actions == r[name].actions;
  }

  /** Without a guard, a player who accuses someone and then suspects the
      same player ends with both slots naming that player. */
  lemma AccuseAndSuspectMayCoincide(r: Roster, name: string, target: string) returns (d: Roster)
    requires name in r && name != target && r[name].actions == DefaultActions
    ensures ReadyThenActOn(r, name, "accuse", target).Success?
    ensures var b := ReadyThenActOn(r, name, "accuse", target).value;
            name in b && ReadyThenActOn(b, name, "suspect", target) == Success(d)
    ensures name in d
    ensures PlayerSlotIs(d[name].actions, "accuse", Ref(target))
    ensures PlayerSlotIs(d[name].actions, "suspect", Ref(target))
  {
    var acts := DefaultActions;
    assert "accuse" in acts && "suspect" in acts;
    ReadySlotThenActOn(r, name, target, "accuse");
    var b := ReadyThenActOn(r, name, "accuse", target).value;
    var bActs := acts["accuse" := acts["accuse"]["player" := Ref(target)]];
    assert b[name].actions == bActs;
    assert "suspect" in bActs;
    ReadySlotThenActOn(b, name, target, "suspect");
    d := ReadyThenActOn(b, name, "suspect", target).value;
    var dActs := bActs["suspect" := bActs["suspect"]["player" := Ref(target)]];
    assert d[name].actions == dActs;
    assert "accuse"[0] != "suspect"[0];
    assert dActs["accuse"] == bActs["accuse"];
  }

  // ---------------------------------------------------------------------
  // Flattening for the reasoner
  // ---------------------------------------------------------------------

  /** A reference becomes the referenced player's name; a string or null is
      kept. */
  function FlattenValue(v: Value): (w: Value)
    ensures !w.Ref?
    ensures v.Ref? ==> w == Str(v.key)
    ensures !v.Ref? ==> w == v
  {
    match v
    case Ref(k) => Str(k)
    case _ => v
  }

  predicate NoRefs(a: Actions) {
    forall x, y :: x in a && y in a[x] ==> !a[x][y].Ref?
  }

  /** `__iter__`: the player with every reference in its declarations
      replaced by a name. */
  function Flatten(p: Player): (q: Player)
    ensures q == p.(actions := q.actions)
    ensures q.actions.Keys == p.actions.Keys
    ensures forall x :: x in p.actions ==> q.actions[x].Keys == p.actions[x].Keys
    ensures forall x, y :: x in p.actions && y in p.actions[x] ==>
              q.actions[x][y] == (if p.actions[x][y].Ref? then Str(p.actions[x][y].key) else p.actions[x][y])
    ensures NoRefs(q.actions)
  {
    p.(actions := map x | x in p.actions :: map y | y in p.actions[x] :: FlattenValue(p.actions[x][y]))
  }

  /** Flattening a player whose declarations hold no reference leaves it
      as it is, so flattening twice is flattening once. */
  lemma FlattenIdempotent(p: Player)
    ensures NoRefs(p.actions) ==> Flatten(p) == p
    ensures Flatten(Flatten(p)) == Flatten(p)
  {
    if NoRefs(p.actions) {
      var q := Flatten(p);
      forall x | x in p.actions
        ensures q.actions[x] == p.actions[x]
      {
        assert q.actions[x].Keys == p.actions[x].Keys;
      }
      assert q.actions == p.actions;
    }
    var q := Flatten(p);
    var q2 := Flatten(q);
    forall x | x in q.actions
      ensures q2.actions[x] == q.actions[x]
    {
      assert q2.actions[x].Keys == q.actions[x].Keys;
    }
    assert q2.actions == q.actions;
  }

  /** After a successful `act_on` the reasoner sees the target's name in the
      slot the current action names. */
  lemma ActOnThenFlatten(r: Roster, name: string, target: string)
    requires name in r && name != target && Lower(r[name].currentAction) != "abstain"
    requires ActOn(r, name, target).Success?
    ensures var ca := r[name].currentAction;
            Flatten(ActOn(r, name, target).value[name]).actions[ca]["player"] == Str(target)
  {
  }
}
