/** The phase logic of the older mafiademonstration/stages.py: players are
    created once into a dictionary that outlives matches, the discussion
    tally is `count_votes`, a trial never kills, and the night ends the
    game only when nobody is left alive. The Loading screens pass straight
    through. */
module LegacyStages {
  import opened Wrappers
  import opened Text
  import opened LegacyPlayers

  // ---------------------------------------------------------------------
  // Roster
  // ---------------------------------------------------------------------

  /** The player `initialize_players` creates for number `k`. */
  function NewPlayer(k: nat): Player {
    Player(PlayerName(k), k, true, false, 0, "", DefaultActions)
  }

  /** `key` is the name of one of the players 1..count. */
  predicate IsCreatedName(key: string, count: int) {
    exists k: nat :: 1 <= k <= count && key == PlayerName(k)
  }

  /** `initialize_players`: players 1..count are (re)created under their
      names; any other entry the dictionary already held stays. */
  function InitializePlayers(r: Roster, count: int): (r': Roster)
    ensures forall k: nat :: 1 <= k <= count ==> PlayerName(k) in r' && r'[PlayerName(k)] == NewPlayer(k)
    ensures forall key :: key in r' <==> key in r || IsCreatedName(key, count)
    ensures forall key :: key in r && !IsCreatedName(key, count) ==> r'[key] == r[key]
    ensures KeyedByName(r) ==> KeyedByName(r')
    decreases count
  {
    if count <= 0 then r
    else
      PlayerNameInjective();
      InitializePlayers(r, count - 1)[PlayerName(count) := NewPlayer(count)]
  }

  /** From an empty dictionary, `initialize_players` creates exactly `count`
      players, each under its own name and numbered from 1. */
  lemma {:induction false} FreshRosterSize(count: nat)
    ensures |InitializePlayers(map[], count).Keys| == count
  {
    if count > 0 {
      FreshRosterSize(count - 1);
      var before := InitializePlayers(map[], count - 1);
      PlayerNameInjective();
      assert !IsCreatedName(PlayerName(count), count - 1);
      assert InitializePlayers(map[], count) == before[PlayerName(count) := NewPlayer(count)];
    }
  }

  // ---------------------------------------------------------------------
  // Discussion tally
  // ---------------------------------------------------------------------

  /** The "player" slot of entry `slot` can be read by `count_votes`: it
      exists and holds null or a reference to a player in the dictionary. */
  predicate SlotReadable(r: Roster, p: Player, slot: string) {
    slot in p.actions && "player" in p.actions[slot]
    && match p.actions[slot]["player"]
       case Null => true
       case Str(_) => false
       case Ref(k) => k in r
  }

  /** The exception reading slot `slot` raises, if any: a missing entry or
      a reference outside the dictionary is a KeyError, a string has no
      name. */
  function SlotFault(r: Roster, p: Player, slot: string): (e: Option<LegacyError>)
    ensures e.None? <==> SlotReadable(r, p, slot)
  {
    if slot !in p.actions || "player" !in p.actions[slot] then Some(KeyError)
    else match p.actions[slot]["player"]
      case Null => None
      case Str(_) => Some(AttributeError)
      case Ref(k) => if k in r then None else Some(KeyError)
  }

  /** Reads player `p`'s accusation and then suspicion slot, returning the
      exception that raises, if any. */
  method ReadPlayer(r: Roster, p: Player) returns (e: Option<LegacyError>)
    ensures e.None? <==> SlotReadable(r, p, "accuse") && SlotReadable(r, p, "suspect")
  {
    e := SlotFault(r, p, "accuse");
    if e.None? {
      e := SlotFault(r, p, "suspect");
    }
  }

  predicate Readable(r: Roster) {
    forall q :: q in r ==> SlotReadable(r, r[q], "accuse") && SlotReadable(r, r[q], "suspect")
  }

  predicate Accuses(p: Player, k: string) {
    PlayerSlotIs(p.actions, "accuse", Ref(k))
  }

  /** The players among `among` who accuse `k`. */
  function AccusersAmong(r: Roster, among: set<string>, k: string): set<string> {
    set q | q in among && q in r && Accuses(r[q], k)
  }

  function Accusers(r: Roster, k: string): set<string> {
    AccusersAmong(r, r.Keys, k)
  }

  /** `k` is accused strictly more often than every other player. */
  predicate IsTrialCandidate(r: Roster, k: string) {
    k in r && forall o :: o in r && o != k ==> |Accusers(r, o)| < |Accusers(r, k)|
  }

  lemma AccusersStep(r: Roster, among: set<string>, q: string)
    requires q in r && q !in among
    ensures forall k :: |AccusersAmong(r, among + {q}, k)|
              == |AccusersAmong(r, among, k)| + (if Accuses(r[q], k) then 1 else 0)
  {
    forall k
      ensures |AccusersAmong(r, among + {q}, k)|
                == |AccusersAmong(r, among, k)| + (if Accuses(r[q], k) then 1 else 0)
    {
      var before := AccusersAmong(r, among, k);
      var after := AccusersAmong(r, among + {q}, k);
      if Accuses(r[q], k) {
        assert after == before + {q};
      } else {
        assert after == before;
      }
    }
  }

  /** A set with one known member and more than one element has another. */
  lemma AnotherMember(s: set<string>, m: string)
    requires m in s && |s| > 1
    ensures exists o :: o in s && o != m
  {
    assert |s - {m}| == |s| - 1;
    assert s - {m} != {};
    var o :| o in s - {m};
  }

  /** Moving one key from the keys still to visit to the visited ones. */
  lemma MoveOne(todo: set<string>, done: set<string>, all: set<string>, q: string)
    requires todo + done == all && todo !! done && q in todo
    ensures (todo - {q}) + (done + {q}) == all && (todo - {q}) !! (done + {q})
    ensures |todo - {q}| < |todo|
  {
    assert |todo - {q}| == |todo| - 1;
  }

  /** One player's accusation added to the counts. */
  function CountAccusation(acc: map<string, nat>, r: Roster, p: Player): (b: map<string, nat>)
    requires acc.Keys == r.Keys && SlotReadable(r, p, "accuse")
    ensures b.Keys == acc.Keys
    ensures forall k :: k in acc ==> b[k] == acc[k] + (if Accuses(p, k) then 1 else 0)
  {
    match p.actions["accuse"]["player"]
    case Ref(t) => acc[t := acc[t] + 1]
    case _ => acc
  }

  /** `acc` holds, for every player, how many players of `done` accuse them. */
  predicate Counts(acc: map<string, nat>, r: Roster, done: set<string>) {
    acc.Keys == r.Keys && forall k :: k in acc ==> acc[k] == |AccusersAmong(r, done, k)|
  }

  lemma CountsStep(acc: map<string, nat>, r: Roster, done: set<string>, q: string)
    requires Counts(acc, r, done) && q in r && q !in done
    requires SlotReadable(r, r[q], "accuse")
    ensures Counts(CountAccusation(acc, r, r[q]), r, done + {q})
  {
    AccusersStep(r, done, q);
  }

  lemma UnreadablePlayer(r: Roster, q: string)
    requires q in r && !(SlotReadable(r, r[q], "accuse") && SlotReadable(r, r[q], "suspect"))
    ensures !Readable(r)
  {
  }

  /** The tally loop's state: `done` and `todo` split the dictionary, every
      visited player's slots were readable, and `acc` counts the visited
      players' accusations. */
  predicate Visited(acc: map<string, nat>, r: Roster, todo: set<string>, done: set<string>) {
    && todo + done == r.Keys && todo !! done
    && Counts(acc, r, done)
    && forall q :: q in done ==> q in r && SlotReadable(r, r[q], "accuse") && SlotReadable(r, r[q], "suspect")
  }

  /** One turn of the tally loop: reads player `q`'s two slots and counts
      their accusation. */
  method VisitPlayer(acc: map<string, nat>, r: Roster, todo: set<string>, done: set<string>, q: string)
    returns (res: Result<map<string, nat>, LegacyError>)
    requires Visited(acc, r, todo, done) && q in todo
    ensures res.Failure? ==> q in r && !(SlotReadable(r, r[q], "accuse") && SlotReadable(r, r[q], "suspect"))
    ensures res.Success? ==> Visited(res.value, r, todo - {q}, done + {q})
    ensures |todo - {q}| < |todo|
  {
    MoveOne(todo, done, r.Keys, q);
    var fault := ReadPlayer(r, r[q]);
    if fault.Some? {
      return Failure(fault.value);
    }
    CountsStep(acc, r, done, q);
    return Success(CountAccusation(acc, r, r[q]));
  }

  /** The first half of `count_votes`: every player's accusation counted
      against the accused, reading both slots of every player. */
  method TallyAccusations(r: Roster) returns (res: Result<map<string, nat>, LegacyError>)
    ensures res.Failure? <==> !Readable(r)
    ensures res.Success? ==> res.value.Keys == r.Keys
    ensures res.Success? ==> forall k :: k in r ==> res.value[k] == |Accusers(r, k)|
  {
    var acc: map<string, nat> := map k | k in r :: 0;
    var todo := r.Keys;
    var done: set<string> := {};
    assert Counts(acc, r, done) by {
      assert forall k :: AccusersAmong(r, done, k) == {};
    }
    while todo != {}
      invariant Visited(acc, r, todo, done)
      decreases |todo|
    {
      var q :| q in todo;
      var step := VisitPlayer(acc, r, todo, done, q);
      if step.Failure? {
        UnreadablePlayer(r, q);
        return Failure(step.error);
      }
      acc := step.value;
      done := done + {q};
      todo := todo - {q};
    }
    assert done == r.Keys;
    assert Readable(r);
    return Success(acc);
  }

  /** A key with the largest count; `max` takes the first in dictionary
      order, which only matters when the largest count is shared. */
  method MaxKey(acc: map<string, nat>) returns (m: string)
    requires acc != map[]
    ensures m in acc && forall k :: k in acc ==> acc[k] <= acc[m]
  {
    assert acc.Keys != {};
    m :| m in acc;
    var rest := acc.Keys - {m};
    while rest != {}
      invariant rest <= acc.Keys && m in acc
      invariant forall k :: k in acc && k !in rest ==> acc[k] <= acc[m]
      decreases |rest|
    {
      var k :| k in rest;
      if acc[k] > acc[m] {
        m := k;
      }
      rest := rest - {k};
    }
  }

  /** The second half of `count_votes`: the top-counted key when no other
      key shares its count, none otherwise. */
  function TopIfUnique(acc: map<string, nat>, m: string): (r: Option<string>)
    requires m in acc && forall k :: k in acc ==> acc[k] <= acc[m]
    ensures forall k :: r == Some(k) <==>
              k in acc && forall o :: o in acc && o != k ==> acc[o] < acc[k]
  {
    var ties := set k | k in acc && acc[k] == acc[m];
    assert m in ties;
    if |ties| > 1 then
      AnotherMember(ties, m);
      assert forall k :: k in acc && k != m ==> acc[m] >= acc[k] && m != k;
      None
    else
      assert |ties - {m}| == |ties| - 1;
      assert forall o :: o in acc && o != m ==> o !in ties;
      Some(m)
  }

  /** `Discussion.count_votes`: the strictly most accused player, or none
      when the top count is shared. The suspicion slots are read, and can
      raise, but never counted. Reading a malformed slot raises, and so
      does taking the maximum over an empty dictionary. */
  method CountVotes(r: Roster) returns (res: Result<Option<string>, LegacyError>)
    ensures res.Failure? <==> !Readable(r) || |r| == 0
    ensures res.Success? ==> forall k :: res.value == Some(k) <==> IsTrialCandidate(r, k)
  {
    var tally := TallyAccusations(r);
    if tally.Failure? {
      return Failure(tally.error);
    }
    var acc := tally.value;
    if |r| == 0 {
      return Failure(ValueError);
    }
    assert r.Keys != {};
    assert acc != map[];
    var m := MaxKey(acc);
    return Success(TopIfUnique(acc, m));
  }

  // ---------------------------------------------------------------------
  // Phases
  // ---------------------------------------------------------------------

  datatype Screen =
    | Discussion
    | LoadingDT
    | Trial
    | LoadingTN
    | Night
    | LoadingND
    | GameOverMenu

  /** The shared dictionary, the current screen, and the class-level
      `player_to_be_tried`, which keeps its value across rounds. */
  datatype Game = Game(players: Roster, screen: Screen, toBeTried: Option<string>)

  /** `Discussion.submit`. */
  method DiscussionSubmit(g: Game) returns (res: Result<Game, LegacyError>)
    requires g.screen == Discussion
    ensures res.Failure? <==> !Readable(g.players) || |g.players| == 0
    ensures res.Success? ==> res.value.players == g.players
    ensures res.Success? ==>
              (res.value.screen == LoadingDT <==> exists k :: IsTrialCandidate(g.players, k))
    ensures res.Success? && res.value.screen == LoadingDT ==>
              res.value.toBeTried.Some? && IsTrialCandidate(g.players, res.value.toBeTried.value)
    ensures res.Success? && res.value.screen != LoadingDT ==>
              res.value == g.(screen := LoadingTN)
  {
    var tried := CountVotes(g.players);
    match tried
    case Failure(e) => return Failure(e);
    case Success(None) => return Success(g.(screen := LoadingTN));
    case Success(Some(k)) => return Success(g.(screen := LoadingDT, toBeTried := Some(k)));
  }

  predicate NobodyAlive(r: Roster) {
    forall k :: k in r ==> !r[k].alive
  }

  /** `Trial.submit` and `Night.submit`: a trial always moves on to night,
      changing nobody; a night ends the game exactly when nobody is alive. */
  function Submit(g: Game): (r: Game)
    requires g.screen == Trial || g.screen == Night
    ensures r.players == g.players && r.toBeTried == g.toBeTried
    ensures g.screen == Trial ==> r.screen == LoadingTN
    ensures g.screen == Night ==> (r.screen == GameOverMenu <==> NobodyAlive(g.players))
    ensures g.screen == Night && !NobodyAlive(g.players) ==> r.screen == LoadingND
  {
    if g.screen == Trial then g.(screen := LoadingTN)
    else if exists k :: k in g.players && g.players[k].alive then g.(screen := LoadingND)
    else g.(screen := GameOverMenu)
  }

  predicate IsLoading(s: Screen) {
    s == LoadingDT || s == LoadingTN || s == LoadingND
  }

  /** The Loading screens' `exit`. */
  function ExitLoading(s: Screen): (r: Screen)
    requires IsLoading(s)
    ensures s == LoadingDT ==> r == Trial
    ensures s == LoadingTN ==> r == Night
    ensures s == LoadingND ==> r == Discussion
  {
    match s
    case LoadingDT => Trial
    case LoadingTN => Night
    case LoadingND => Discussion
  }

  /** Between steps: every player stored under its own name, and a player
      to be tried in the dictionary while the game is headed for or in a
      trial. */
  predicate Inv(g: Game) {
    && KeyedByName(g.players)
    && (g.screen == LoadingDT || g.screen == Trial ==>
          g.toBeTried.Some? && g.toBeTried.value in g.players)
  }

  datatype Event = SubmitPressed | Loaded

  /** One step of the legacy machine; events that do not belong to the
      current screen, and every event after the game is over, change
      nothing. Only the discussion can fail. */
  method Step(g: Game, e: Event) returns (res: Result<Game, LegacyError>)
    ensures g.screen != Discussion ==> res.Success?
    ensures res.Success? ==> res.value.players == g.players
    ensures g.screen == GameOverMenu ==> res == Success(g)
    ensures Inv(g) && res.Success? ==> Inv(res.value)
    ensures e == SubmitPressed && g.screen == Discussion ==>
              && (res.Failure? <==> !Readable(g.players) || |g.players| == 0)
              && (res.Success? ==>
                    (res.value.screen == LoadingDT <==> exists k :: IsTrialCandidate(g.players, k)))
              && (res.Success? && res.value.screen == LoadingDT ==>
                    res.value.toBeTried.Some? && IsTrialCandidate(g.players, res.value.toBeTried.value))
              && (res.Success? && res.value.screen != LoadingDT ==> res.value == g.(screen := LoadingTN))
    ensures e == SubmitPressed && (g.screen == Trial || g.screen == Night) ==> res == Success(Submit(g))
    ensures e == Loaded && IsLoading(g.screen) ==> res == Success(g.(screen := ExitLoading(g.screen)))
    ensures e == SubmitPressed && (IsLoading(g.screen) || g.screen == GameOverMenu) ==> res == Success(g)
    ensures e == Loaded && !IsLoading(g.screen) ==> res == Success(g)
  {
    match e
    case SubmitPressed =>
      if g.screen == Discussion {
        res := DiscussionSubmit(g);
      } else if g.screen == Trial || g.screen == Night {
        res := Success(Submit(g));
      } else {
        res := Success(g);
      }
    case Loaded =>
      if IsLoading(g.screen) {
        res := Success(g.(screen := ExitLoading(g.screen)));
      } else {
        res := Success(g);
      }
  }

  /** A new dictionary holds a well-formed game at the first discussion. */
  lemma NewMatchSatisfiesInv(count: int)
    ensures Inv(Game(InitializePlayers(map[], count), Discussion, None))
  {
  }
}
