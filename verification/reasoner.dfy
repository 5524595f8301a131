/** The hand-off to the external reasoner that every Loading screen makes
    (`LoadingScreen` in src/stages.py; mafiademonstration/stages_new/loading.py
    is a copy of the same code). The roster is flattened into records whose
    references are player numbers (`__iter__`), the reference reasoner lets
    the agent accuse a random living player and vote at random
    (`call_reasoner`), and `from_json` turns numbers back into references.
    JSON text is not modelled: a record stands for one parsed JSON object.
    The random choices are inputs: `pick` selects among the candidates and
    `coin` is the outcome of `random.random() > 0.5`. */
module Reasoner {
  import opened Wrappers
  import opened Players

  /** A player's actions with every reference replaced by a player number. */
  datatype RecordActions = RecordActions(accuse: Option<int>, suspect: Option<int>, vote: Decision)

  /** A flattened player, as handed to and received from the reasoner. */
  datatype Record = Record(
    name: string,
    agent: bool,
    number: int,
    onTrial: bool,
    mafia: bool,
    alive: bool,
    strategicValue: int,
    currentAction: string,
    actions: RecordActions)

  /** The exceptions reading records back can raise: a number or reference
      outside the list (IndexError), an index no record claimed (the
      placeholder `0` has no `actions`), and no agent for the reasoner. */
  datatype LoadError = IndexOutOfRange | EmptySlot | NoAgent

  // ---------------------------------------------------------------------
  // Flattening (`Player.__iter__`)
  // ---------------------------------------------------------------------

  function FlattenSlot(ps: seq<Player>, o: Option<nat>): Option<int>
    requires SlotIn(o, |ps|)
  {
    match o
    case None => None
    case Some(i) => Some(ps[i].number)
  }

  function FlattenPlayer(ps: seq<Player>, p: Player): Record
    requires SlotIn(p.actions.accuse, |ps|) && SlotIn(p.actions.suspect, |ps|)
  {
    Record(p.name, p.agent, p.number, p.onTrial, p.mafia, p.alive, p.strategicValue,
           p.currentAction,
           RecordActions(FlattenSlot(ps, p.actions.accuse), FlattenSlot(ps, p.actions.suspect),
                         p.actions.vote))
  }

  /** `list(map(dict, players))`: every player as a record, each reference
      replaced by the referenced player's number, everything else copied. */
  function Flatten(ps: seq<Player>): (rs: seq<Record>)
    requires Linked(ps)
    ensures |rs| == |ps|
    ensures forall k :: 0 <= k < |ps| ==>
              rs[k].number == ps[k].number && rs[k].name == ps[k].name
              && rs[k].agent == ps[k].agent && rs[k].mafia == ps[k].mafia
              && rs[k].alive == ps[k].alive && rs[k].onTrial == ps[k].onTrial
              && rs[k].actions.vote == ps[k].actions.vote
    ensures forall k :: 0 <= k < |ps| ==>
              rs[k].strategicValue == ps[k].strategicValue
              && rs[k].currentAction == ps[k].currentAction
    ensures forall k :: 0 <= k < |ps| ==>
              (rs[k].actions.accuse.None? <==> ps[k].actions.accuse.None?)
              && (rs[k].actions.suspect.None? <==> ps[k].actions.suspect.None?)
    ensures forall k, i :: 0 <= k < |ps| && 0 <= i < |ps| && ps[k].actions.accuse == Some(i) ==>
              rs[k].actions.accuse == Some(ps[i].number)
    ensures forall k, i :: 0 <= k < |ps| && 0 <= i < |ps| && ps[k].actions.suspect == Some(i) ==>
              rs[k].actions.suspect == Some(ps[i].number)
  {
    seq(|ps|, k requires 0 <= k < |ps| => FlattenPlayer(ps, ps[k]))
  }

  // ---------------------------------------------------------------------
  // Reading back (`from_json`)
  // ---------------------------------------------------------------------

  /** Python list indexing: an index from -n up to -1 counts from the end. */
  function PyIndex(v: int, n: nat): (r: Option<nat>)
    ensures r.Some? <==> -(n as int) <= v < n
    ensures r.Some? ==> r.value < n
    ensures 0 <= v < n ==> r == Some(v)
    ensures -(n as int) <= v < 0 ==> r == Some(v + n)
  {
    if 0 <= v < n then Some(v) else if -(n as int) <= v < 0 then Some(v + n) else None
  }

  /** One declaration slot read back: a null stays null, a number becomes
      the entry Python indexing designates, and a number indexing nothing
      raises. */
  function RelinkSlot(o: Option<int>, n: nat): (r: Result<Option<nat>, LoadError>)
    ensures r.Failure? <==> o.Some? && PyIndex(o.value, n).None?
    ensures r.Failure? ==> r.error == IndexOutOfRange
    ensures r.Success? && o.None? ==> r.value.None?
    ensures r.Success? && o.Some? ==> r.value == PyIndex(o.value, n)
  {
    match o
    case None => Success(None)
    case Some(v) =>
      match PyIndex(v, n)
      case None => Failure(IndexOutOfRange)
      case Some(i) => Success(Some(i))
  }

  /** One record as a player of a roster of `n`, its numbers turned into
      references to the entries they index. */
  function Relink(rec: Record, n: nat): (r: Result<Player, LoadError>)
    ensures r.Success? ==>
              var p := r.value;
              p.number == rec.number && p.name == rec.name && p.agent == rec.agent
              && p.mafia == rec.mafia && p.alive == rec.alive && p.onTrial == rec.onTrial
              && p.strategicValue == rec.strategicValue && p.currentAction == rec.currentAction
              && p.actions.vote == rec.actions.vote
              && SlotIn(p.actions.accuse, n) && SlotIn(p.actions.suspect, n)
              && (p.actions.accuse.None? <==> rec.actions.accuse.None?)
              && (p.actions.suspect.None? <==> rec.actions.suspect.None?)
    ensures r.Failure? <==>
              (rec.actions.accuse.Some? && PyIndex(rec.actions.accuse.value, n).None?)
              || (rec.actions.suspect.Some? && PyIndex(rec.actions.suspect.value, n).None?)
    ensures r.Failure? ==> r.error == IndexOutOfRange
    ensures r.Success? && rec.actions.accuse.Some? ==>
              r.value.actions.accuse == PyIndex(rec.actions.accuse.value, n)
    ensures r.Success? && rec.actions.suspect.Some? ==>
              r.value.actions.suspect == PyIndex(rec.actions.suspect.value, n)
  {
    match RelinkSlot(rec.actions.accuse, n)
    case Failure(e) => Failure(e)
    case Success(accuse) =>
      match RelinkSlot(rec.actions.suspect, n)
      case Failure(e) => Failure(e)
      case Success(suspect) =>
        Success(Player(rec.name, rec.number, rec.alive, rec.mafia, rec.agent, rec.onTrial,
                       rec.strategicValue, rec.currentAction,
                       Actions(accuse, suspect, rec.actions.vote)))
  }

  /** No record from `j` on designates slot `k` of a list of `n`. */
  predicate Unclaimed(recs: seq<Record>, n: nat, j: nat, k: nat) {
    forall i :: j <= i < |recs| ==> PyIndex(recs[i].number, n) != Some(k)
  }

  /** Record `i` designates slot `k` of a list of `n`, and no later record
      designates the same slot. */
  predicate LastClaim(recs: seq<Record>, n: nat, i: int, k: nat) {
    && 0 <= i < |recs| && PyIndex(recs[i].number, n) == Some(k)
    && forall i' :: i < i' < |recs| ==> PyIndex(recs[i'].number, n) != Some(k)
  }

  /** The placement loop of `from_json` from record `j` on: each record is
      stored at the index its number designates, later records overwriting
      earlier ones. */
  function Place(recs: seq<Record>, j: nat, slots: seq<Option<Record>>): (r: Result<seq<Option<Record>>, LoadError>)
    requires j <= |recs|
    ensures r.Success? <==> forall i :: j <= i < |recs| ==> PyIndex(recs[i].number, |slots|).Some?
    ensures r.Success? ==> |r.value| == |slots|
    ensures r.Success? ==> forall k :: 0 <= k < |slots| ==>
              r.value[k] == slots[k]
              || exists i :: j <= i < |recs| && r.value[k] == Some(recs[i])
                               && PyIndex(recs[i].number, |slots|) == Some(k)
    ensures r.Success? ==> forall k :: 0 <= k < |slots| && Unclaimed(recs, |slots|, j, k) ==>
              r.value[k] == slots[k]
    ensures r.Success? ==> forall i: nat, k: nat :: j <= i && LastClaim(recs, |slots|, i, k) ==>
              k < |r.value| && r.value[k] == Some(recs[i])
    decreases |recs| - j
  {
    if j == |recs| then Success(slots)
    else
      match PyIndex(recs[j].number, |slots|)
      case None => Failure(IndexOutOfRange)
      case Some(k) => Place(recs, j + 1, slots[k := Some(recs[j])])
  }

  /** The relinking loop of `from_json` from index `k` on. */
  function RelinkFrom(slots: seq<Option<Record>>, k: nat): (r: Result<seq<Player>, LoadError>)
    requires k <= |slots|
    ensures r.Success? ==> |r.value| == |slots| - k
    ensures r.Success? ==> forall i :: k <= i < |slots| ==>
              slots[i].Some? && Relink(slots[i].value, |slots|) == Success(r.value[i - k])
    ensures r.Success? ==> forall i :: 0 <= i < |r.value| ==>
              SlotIn(r.value[i].actions.accuse, |slots|) && SlotIn(r.value[i].actions.suspect, |slots|)
    ensures r.Failure? <==>
              exists i :: k <= i < |slots| && (slots[i].None? || Relink(slots[i].value, |slots|).Failure?)
    decreases |slots| - k
  {
    if k == |slots| then Success([])
    else
      match slots[k]
      case None => Failure(EmptySlot)
      case Some(rec) =>
        match Relink(rec, |slots|)
        case Failure(e) => Failure(e)
        case Success(p) =>
          match RelinkFrom(slots, k + 1)
          case Failure(e) => Failure(e)
          case Success(rest) => Success([p] + rest)
  }

  /** Every record's number indexes the list `from_json` builds. */
  predicate NumbersIndex(recs: seq<Record>) {
    forall i :: 0 <= i < |recs| ==> PyIndex(recs[i].number, |recs|).Some?
  }

  /** Slot `k` of the list `from_json` builds ends up empty, or holds a
      record with a reference that indexes nothing. */
  predicate SlotFaults(recs: seq<Record>, k: nat) {
    || Unclaimed(recs, |recs|, 0, k)
    || exists i :: 0 <= i < |recs| && LastClaim(recs, |recs|, i, k) && Relink(recs[i], |recs|).Failure?
  }

  /** A slot some record designates has a last claimant. */
  lemma {:induction false} LastClaimExists(recs: seq<Record>, n: nat, i: nat, k: nat)
    requires i < |recs| && PyIndex(recs[i].number, n) == Some(k)
    ensures exists i' :: LastClaim(recs, n, i', k)
    decreases |recs| - i
  {
    if forall i' :: i < i' < |recs| ==> PyIndex(recs[i'].number, n) != Some(k) {
      assert LastClaim(recs, n, i, k);
    } else {
      var i' :| i < i' < |recs| && PyIndex(recs[i'].number, n) == Some(k);
      LastClaimExists(recs, n, i', k);
    }
  }

  /** On the list the placement loop leaves, the relinking loop meets an
      empty or unrelinkable slot exactly when some slot faults. */
  lemma PlacedSlotsFault(recs: seq<Record>, slots: seq<Option<Record>>)
    requires |slots| == |recs|
    requires forall k :: 0 <= k < |slots| && Unclaimed(recs, |slots|, 0, k) ==> slots[k].None?
    requires forall i: nat, k: nat :: LastClaim(recs, |slots|, i, k) ==> k < |slots| && slots[k] == Some(recs[i])
    ensures (exists k :: 0 <= k < |slots| && (slots[k].None? || Relink(slots[k].value, |slots|).Failure?))
            <==> exists k :: 0 <= k < |recs| && SlotFaults(recs, k)
  {
    if k :| 0 <= k < |slots| && (slots[k].None? || Relink(slots[k].value, |slots|).Failure?) {
      if !Unclaimed(recs, |recs|, 0, k) {
        var i :| 0 <= i < |recs| && PyIndex(recs[i].number, |recs|) == Some(k);
        LastClaimExists(recs, |recs|, i, k);
        var i' :| LastClaim(recs, |recs|, i', k);
        assert slots[k] == Some(recs[i']);
      }
      assert SlotFaults(recs, k);
    }
    if k :| 0 <= k < |recs| && SlotFaults(recs, k) {
      if !Unclaimed(recs, |recs|, 0, k) {
        var i :| 0 <= i < |recs| && LastClaim(recs, |recs|, i, k) && Relink(recs[i], |recs|).Failure?;
        assert slots[k] == Some(recs[i]);
      }
      assert slots[k].None? || Relink(slots[k].value, |slots|).Failure?;
    }
  }

  /** `from_json`: the roster the records describe. Each player sits at the
      index its number designates, is one of the records with its
      references relinked, and refers only to entries of the roster. It
      fails exactly when some number indexes nothing, or some slot is left
      empty or holds a record whose references index nothing. */
  function FromJson(recs: seq<Record>): (r: Result<seq<Player>, LoadError>)
    ensures r.Success? ==> |r.value| == |recs| && Linked(r.value)
    ensures r.Failure? <==> !NumbersIndex(recs) || exists k :: 0 <= k < |recs| && SlotFaults(recs, k)
  {
    var empty: seq<Option<Record>> := seq(|recs|, _ => None);
    match Place(recs, 0, empty)
    case Failure(e) => Failure(e)
    case Success(slots) =>
      PlacedSlotsFault(recs, slots);
      RelinkFrom(slots, 0)
  }

  /** What `from_json` promises: each player sits at the index its number
      designates and is one of the records with its references relinked;
      a record whose number indexes nothing makes it fail. */
  lemma FromJsonPlacesByNumber(recs: seq<Record>)
    ensures var r := FromJson(recs);
            r.Success? ==> forall k :: 0 <= k < |recs| ==>
              PyIndex(r.value[k].number, |recs|) == Some(k)
              && exists i :: 0 <= i < |recs| && Relink(recs[i], |recs|) == Success(r.value[k])
    ensures (exists i :: 0 <= i < |recs| && PyIndex(recs[i].number, |recs|).None?) ==> FromJson(recs).Failure?
  {
    var empty: seq<Option<Record>> := seq(|recs|, _ => None);
    var placed := Place(recs, 0, empty);
    if placed.Success? && FromJson(recs).Success? {
      var slots := placed.value;
      var ps := FromJson(recs).value;
      forall k | 0 <= k < |recs|
        ensures PyIndex(ps[k].number, |recs|) == Some(k)
        ensures exists i :: 0 <= i < |recs| && Relink(recs[i], |recs|) == Success(ps[k])
      {
        assert slots[k].Some? && Relink(slots[k].value, |recs|) == Success(ps[k]);
        assert slots[k] != empty[k];
        var i :| 0 <= i < |recs| && slots[k] == Some(recs[i]) && PyIndex(recs[i].number, |recs|) == Some(k);
      }
    }
  }

  /** A roster read back from records whose numbers are all non-negative
      has dense numbering. */
  lemma FromJsonIsDense(recs: seq<Record>)
    requires forall i :: 0 <= i < |recs| ==> recs[i].number >= 0
    requires FromJson(recs).Success?
    ensures WellFormed(FromJson(recs).value)
  {
    var ps := FromJson(recs).value;
    FromJsonPlacesByNumber(recs);
    forall k | 0 <= k < |ps|
      ensures ps[k].number == k
    {
      PlacedNumber(recs, ps[k], k);
    }
  }

  lemma PlacedNumber(recs: seq<Record>, p: Player, k: nat)
    requires forall i :: 0 <= i < |recs| ==> recs[i].number >= 0
    requires PyIndex(p.number, |recs|) == Some(k)
    requires exists i :: 0 <= i < |recs| && Relink(recs[i], |recs|) == Success(p)
    ensures p.number == k
  {
    var i :| 0 <= i < |recs| && Relink(recs[i], |recs|) == Success(p);
    assert p.number == recs[i].number;
  }

  // ---------------------------------------------------------------------
  // Round trip
  // ---------------------------------------------------------------------

  lemma RelinkFlattened(ps: seq<Player>, k: nat)
    requires WellFormed(ps) && k < |ps|
    ensures Relink(FlattenPlayer(ps, ps[k]), |ps|) == Success(ps[k])
  {
  }

  lemma {:induction false} PlaceDense(recs: seq<Record>, j: nat, slots: seq<Option<Record>>)
    requires j <= |recs| == |slots|
    requires forall i :: 0 <= i < |recs| ==> recs[i].number == i
    requires forall i :: 0 <= i < j ==> slots[i] == Some(recs[i])
    ensures Place(recs, j, slots) == Success(seq(|recs|, i requires 0 <= i < |recs| => Some(recs[i])))
    decreases |recs| - j
  {
    if j == |recs| {
      assert slots == seq(|recs|, i requires 0 <= i < |recs| => Some(recs[i]));
    } else {
      assert PyIndex(recs[j].number, |slots|) == Some(j);
      PlaceDense(recs, j + 1, slots[j := Some(recs[j])]);
    }
  }

  lemma {:induction false} RelinkFromFlattened(ps: seq<Player>, slots: seq<Option<Record>>, k: nat)
    requires WellFormed(ps) && |slots| == |ps| && k <= |ps|
    requires forall i :: 0 <= i < |ps| ==> slots[i] == Some(FlattenPlayer(ps, ps[i]))
    ensures RelinkFrom(slots, k) == Success(ps[k..])
    decreases |ps| - k
  {
    if k < |ps| {
      RelinkFlattened(ps, k);
      RelinkFromFlattened(ps, slots, k + 1);
      assert ps[k..] == [ps[k]] + ps[k + 1..];
    } else {
      assert ps[k..] == [];
    }
  }

  /** Flattening a well-formed roster and reading it back gives the same
      roster: every reference comes back to the player it named. */
  lemma FlattenRelinkRoundTrip(ps: seq<Player>)
    requires WellFormed(ps)
    ensures FromJson(Flatten(ps)) == Success(ps)
  {
    var recs := Flatten(ps);
    PlaceDense(recs, 0, seq(|recs|, _ => None));
    var slots := seq(|recs|, i requires 0 <= i < |recs| => Some(recs[i]));
    RelinkFromFlattened(ps, slots, 0);
    assert ps[0..] == ps;
  }

  // ---------------------------------------------------------------------
  // The reference reasoner (`call_reasoner`)
  // ---------------------------------------------------------------------

  /** The first agent from index `k` on (the search loop with `break`). */
  function FindAgent(ps: seq<Player>, k: nat): (r: Option<nat>)
    requires k <= |ps|
    ensures r.Some? ==> k <= r.value < |ps| && ps[r.value].agent
    ensures r.Some? ==> forall i :: k <= i < r.value ==> !ps[i].agent
    ensures r.None? <==> forall i :: k <= i < |ps| ==> !ps[i].agent
    decreases |ps| - k
  {
    if k == |ps| then None
    else if ps[k].agent then Some(k)
    else FindAgent(ps, k + 1)
  }

  predicate HasAgent(ps: seq<Player>) {
    exists i :: 0 <= i < |ps| && ps[i].agent
  }

  /** The living non-agent players from index `k` on, in roster order. */
  function Choices(ps: seq<Player>, k: nat): (cs: seq<nat>)
    requires k <= |ps|
    ensures forall x :: x in cs <==> k <= x < |ps| && ps[x].alive && !ps[x].agent
    decreases |ps| - k
  {
    if k == |ps| then []
    else if !ps[k].agent && ps[k].alive then [k] + Choices(ps, k + 1)
    else Choices(ps, k + 1)
  }

  /** The agent `a` may act: it is alive and some living non-agent exists. */
  predicate CanAct(ps: seq<Player>, a: nat)
    requires a < |ps|
  {
    ps[a].alive && exists x :: 0 <= x < |ps| && ps[x].alive && !ps[x].agent
  }

  /** The agent `a`'s turn: when it can act, it accuses the candidate `pick`
      selects and votes "guilty" (`coin`) or "innocent"; otherwise nothing
      changes. No other player is touched. */
  function AgentTurn(ps: seq<Player>, a: nat, pick: nat, coin: bool): (r: seq<Player>)
    requires a < |ps| && ps[a].agent
    ensures |r| == |ps|
    ensures forall j :: 0 <= j < |ps| && j != a ==> r[j] == ps[j]
    ensures !CanAct(ps, a) ==> r == ps
    ensures CanAct(ps, a) ==>
              && SameIdentity(r[a], ps[a]) && r[a].alive && r[a].currentAction == ps[a].currentAction
              && r[a].actions.suspect == ps[a].actions.suspect
              && r[a].actions.vote in {Guilty, Innocent}
              && r[a].actions.accuse.Some?
              && var t := r[a].actions.accuse.value;
                 t < |ps| && t != a && ps[t].alive && !ps[t].agent
    ensures Linked(ps) ==> Linked(r)
    ensures Dense(ps) ==> Dense(r)
  {
    var choices := if ps[a].alive then Choices(ps, 0) else [];
    if |choices| == 0 then ps
    else
      var target := choices[pick % |choices|];
      assert target in choices;
      var vote := if coin then Guilty else Innocent;
      ps[a := ps[a].(actions := ps[a].actions.(accuse := Some(target), vote := vote))]
  }

  /** `call_reasoner` as written: the first agent takes its turn, and a
      roster without an agent raises, since the agent is dereferenced
      without a check. */
  function ReasonAsWritten(ps: seq<Player>, pick: nat, coin: bool): (r: Result<seq<Player>, LoadError>)
    ensures r.Failure? <==> !HasAgent(ps)
    ensures r.Success? ==> r.value == AgentTurn(ps, FindAgent(ps, 0).value, pick, coin)
    ensures r.Failure? ==> r.error == NoAgent
    ensures r.Success? && Linked(ps) ==> Linked(r.value)
  {
    match FindAgent(ps, 0)
    case None => Failure(NoAgent)
    case Some(a) => Success(AgentTurn(ps, a, pick, coin))
  }

  /** `call_reasoner` with the missing-agent case handled: a roster without
      an agent is returned unchanged. */
  function Reason(ps: seq<Player>, pick: nat, coin: bool): (r: seq<Player>)
    ensures |r| == |ps|
    ensures !HasAgent(ps) ==> r == ps
    ensures HasAgent(ps) ==> ReasonAsWritten(ps, pick, coin) == Success(r)
    ensures forall j :: 0 <= j < |ps| && !ps[j].agent ==> r[j] == ps[j]
    ensures forall j :: 0 <= j < |ps| ==> SameIdentity(r[j], ps[j]) && r[j].alive == ps[j].alive
    ensures forall j :: 0 <= j < |ps| ==> r[j].actions.suspect == ps[j].actions.suspect
    ensures Linked(ps) ==> Linked(r)
    ensures Dense(ps) ==> Dense(r)
  {
    match FindAgent(ps, 0)
    case None => ps
    case Some(a) => AgentTurn(ps, a, pick, coin)
  }

  // ---------------------------------------------------------------------
  // A Loading screen's `on_enter`
  // ---------------------------------------------------------------------

  /** On a well-formed roster, both record round trips of a Loading screen
      give back the roster they started from. */
  lemma LoadingRoundTrips(ps: seq<Player>, pick: nat, coin: bool)
    ensures WellFormed(ps) ==> FromJson(Flatten(ps)) == Success(ps)
    ensures WellFormed(ps) ==>
              FromJson(Flatten(Reason(ps, pick, coin))) == Success(Reason(ps, pick, coin))
  {
    if WellFormed(ps) {
      FlattenRelinkRoundTrip(ps);
      FlattenRelinkRoundTrip(Reason(ps, pick, coin));
    }
  }

  /** The roster after a Loading screen's `on_enter`, as written: flatten,
      `call_reasoner` (which reads the records back, lets the agent act and
      flattens again) and a final `from_json`. */
  function EnterLoadingAsWritten(ps: seq<Player>, pick: nat, coin: bool): (r: Result<seq<Player>, LoadError>)
    requires Linked(ps)
    ensures WellFormed(ps) ==> (r.Failure? <==> !HasAgent(ps))
    ensures WellFormed(ps) && r.Failure? ==> r.error == NoAgent
    ensures WellFormed(ps) && r.Success? ==> r.value == Reason(ps, pick, coin)
  {
    LoadingRoundTrips(ps, pick, coin);
    match FromJson(Flatten(ps))
    case Failure(e) => Failure(e)
    case Success(qs) =>
      match ReasonAsWritten(qs, pick, coin)
      case Failure(e) => Failure(e)
      case Success(rs) => FromJson(Flatten(rs))
  }

  /** On a well-formed roster the record round trips are invisible: the
      Loading screen amounts to the agent's turn, and it raises exactly when
      the roster has no agent. */
  lemma EnterLoadingAsWrittenOutcome(ps: seq<Player>, pick: nat, coin: bool)
    requires WellFormed(ps)
    ensures HasAgent(ps) ==> EnterLoadingAsWritten(ps, pick, coin) == Success(Reason(ps, pick, coin))
    ensures !HasAgent(ps) ==> EnterLoadingAsWritten(ps, pick, coin) == Failure(NoAgent)
  {
  }

  /** The Loading screen with the missing-agent case handled. */
  function EnterLoading(ps: seq<Player>, pick: nat, coin: bool): (r: Result<seq<Player>, LoadError>)
    requires Linked(ps)
    ensures WellFormed(ps) ==> r == Success(Reason(ps, pick, coin))
  {
    LoadingRoundTrips(ps, pick, coin);
    match FromJson(Flatten(ps))
    case Failure(e) => Failure(e)
    case Success(qs) => FromJson(Flatten(Reason(qs, pick, coin)))
  }

  /** With the missing-agent case handled, a Loading screen on a well-formed
      roster never fails: it is the agent's turn when there is an agent and
      changes nothing otherwise. */
  lemma EnterLoadingIsAgentTurn(ps: seq<Player>, pick: nat, coin: bool)
    requires WellFormed(ps)
    ensures EnterLoading(ps, pick, coin) == Success(Reason(ps, pick, coin))
    ensures !HasAgent(ps) ==> EnterLoading(ps, pick, coin) == Success(ps)
  {
  }
}
