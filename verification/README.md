# Mafia engine — a Dafny model of the game core

This project models the rules engine of a "Mafia" party game. A roster of
players is split into a hidden mafia and the town. Play cycles through
Discussion (accusations), Trial (votes on the most accused player) and Night
(the mafia eliminates someone) until one faction is gone. Between the phases
a Loading screen hands the roster to an external reasoner, which plays for
the one computer-controlled player, the *agent*.

Two versions of the engine are modelled.

- **`src/`** (the current game). The roster is a list indexed by player
  number, and the accuse and suspect slots hold references to other
  players. In the model the roster is a `seq<Player>` and a reference is the
  index of the referenced entry (`Players.Dense`, `Players.Linked`). The
  covered code is:
  - roster creation (`Roles.CreatePlayers`);
  - the player's `die`, `ready_action` and `act_on` (`Players`);
  - the accusation tally, the verdict and the winner check (`Tally`);
  - the submit handlers, the Night reset and the Loading exits (`Phases`);
  - the Loading screen's record round trip and the reference reasoner
    (`Reasoner`).
- **`mafiademonstration/`** (the older version). The roster is a dictionary
  keyed by player name. A player's declarations are a dictionary of
  dictionaries, and `act_on` writes whichever entry the current action names
  without any guard. These parts are in `LegacyPlayers` and `LegacyStages`.

Randomness is an input to the model:

- The random mafia sample is a set of player numbers of size floor(sqrt(n)).
- `random.choice` is an index `pick`, taken modulo the number of candidates.
- `random.random() > 0.5` is a boolean `coin`.

Exceptions the Python code can raise are `Failure` values of a `Result`.

Some behaviours of the code are easy to mistake, and the model keeps them as
written:

- `create_players` does not reject a player count of zero: it returns an
  empty roster. A negative count raises only because `math.sqrt` does.
- Leaving Night resets the declarations of every player, living or dead.
- `act_on`'s guard against the accuse and suspect slots naming the same
  player exists only in `src/player.py`. The legacy `act_on` has no such
  guard (`LegacyPlayers.AccuseAndSuspectMayCoincide`).
- The legacy Trial and Night screens neither convict nor kill. They only
  change screens.

## Model

| member | source | states |
|---|---|---|
| Players.Die | src/player.py:71-74 | Only the given player changes, and that player ends up dead. Identity, declarations and the readied action are kept. |
| Players.ReadyAction | src/player.py:88-108 | The lower-cased action becomes the current action. "die" kills the player. "guilty"/"innocent" set the vote. "abstain" clears both target slots and deselects the player; otherwise the player becomes selected. Nobody else changes, and references stay in range and apart. |
| Players.ActOn | src/player.py:110-127 | A slot changes only when it is the slot the lower-cased current action names. It changes only to a target other than the actor, and only if the other slot does not already name that target. In that case it does change. Nothing else changes. |
| Players.SelfTargetIsNoOp | src/player.py:116-120 | After `ready_action`, acting on oneself changes nothing. |
| Players.ReadyAccuseThenActOn | src/player.py:94-125 | Readying "Accuse" and then tapping another player who is not already suspected records exactly that accusation and keeps the two slots apart. |
| Roles.Isqrt | src/stages.py:108 | The mafia size floor(sqrt(n)) is the unique r with r*r <= n < (r+1)*(r+1). |
| Roles.CreatePlayers | src/stages.py:80-114 | Fails exactly for a negative count (math.sqrt raises). Otherwise the result has `count` living players numbered 0..count-1, with empty declarations; an agent exactly at `agent_number` when that is in range, the only player named "agent", and at most one agent; as mafia exactly the sampled numbers, floor(sqrt(count)) of them. |
| Roles.CreatedNamesDistinct | src/stages.py:83-104 | All created players have different names. |
| Tally.TallyAccusations | src/stages.py:232-239 | Each player's count is the number of players whose accuse slot names them. |
| Tally.FirstMax | src/stages.py:241 | `max(enumerate(...))` returns the first index holding the maximum count. |
| Tally.CountAccusations | src/stages.py:227-254 | Returns player j exactly when j's accusation count is strictly greater than every other player's. Returns nothing exactly when no player has such a count. |
| Tally.SuspicionsIgnored | src/stages.py:233-248 | Suspicions are counted but never affect who goes on trial. |
| Tally.NoAccusationsNoTrial | src/stages.py:241-248 | With two or more players and no accusations, the all-zero tie puts nobody on trial. |
| Tally.LonePlayerIsTried | src/stages.py:241-254 | A roster of one player always puts that player on trial. |
| Tally.TallyVotes | src/stages.py:324-338 | The guilty and innocent totals are the numbers of players voting each way. Abstentions and null votes are skipped. |
| Tally.DecideVerdict | src/stages.py:319-347 | Tie iff the guilty and innocent counts are equal; Convict iff guilty outnumber innocent; Acquit iff innocent outnumber guilty. |
| Tally.CountLiving | src/stages.py:136-144 | The living-mafia and living-town counters are positive exactly when such a player exists. |
| Tally.CheckForWinner | src/stages.py:133-152 | Mafia iff no town player is alive, which also covers the case where nobody is alive. Town iff town is alive and the mafia is not. Nobody iff both factions are alive. |
| Reasoner.Flatten | src/player.py:43-60 | Each player becomes a record carrying the same fields, strategic value and current action included. Every reference becomes the referenced player's number, and no reference is left. |
| Reasoner.PyIndex | src/stages.py:465-476 | Python list indexing succeeds exactly for -n <= v < n and lands inside the list. An index in 0..n-1 designates itself, and a negative index v designates v + n. |
| Reasoner.RelinkSlot | src/stages.py:474-476 | A null slot stays null. A number becomes the entry Python indexing designates, and a number that indexes nothing raises IndexError. |
| Reasoner.Relink | src/stages.py:472-476 | A record read back keeps every field. Each non-null reference becomes the entry its number designates under Python indexing, and null stays null. Reading fails with IndexError exactly when some reference indexes nothing. |
| Reasoner.Place | mafiademonstration/stages_new/loading.py:58-63 | Placing records by number succeeds iff every number is a valid Python index. A slot that some record's number designates then holds the last such record. A slot that no record designates keeps its previous value. |
| Reasoner.RelinkFrom | mafiademonstration/stages_new/loading.py:65-70 | Relinking fails iff some slot is empty or holds a record with a reference that indexes nothing. On success the players returned are the slots' records, read back with in-range references. |
| Reasoner.FromJson | mafiademonstration/stages_new/loading.py:53-72 | A successful read returns one player per record, with every reference inside the roster. The read fails iff some record number is not a valid Python index, or some slot is left empty, or the last record placed in a slot has a reference that indexes nothing. |
| Reasoner.LastClaimExists | mafiademonstration/stages_new/loading.py:58-63 | A slot that some record's number designates has a last claimant, the record that stays in it. |
| Reasoner.PlacedSlotsFault | mafiademonstration/stages_new/loading.py:58-70 | On the list the placement loop leaves, relinking meets an empty or unrelinkable slot exactly when some slot is unclaimed or its last claimant's references index nothing. |
| Reasoner.FromJsonPlacesByNumber | mafiademonstration/stages_new/loading.py:58-70 | After a successful read, the player at index k has a number that Python indexing maps to k, and it is the read-back form of some record. Any record number outside the list makes the read fail. |
| Reasoner.FromJsonIsDense | mafiademonstration/stages_new/loading.py:58-70 | With non-negative numbers, a successful read yields a roster whose numbers equal their positions. |
| Reasoner.FlattenRelinkRoundTrip | src/stages.py:408-413 | Flattening a well-formed roster and reading it back returns the same roster. |
| Reasoner.FindAgent | mafiademonstration/stages_new/loading.py:20-26 | Finds the first agent, or reports that there is none. |
| Reasoner.Choices | mafiademonstration/stages_new/loading.py:28-34 | The candidates are exactly the living players who are not the agent. |
| Reasoner.AgentTurn | mafiademonstration/stages_new/loading.py:28-39 | If the agent is dead or nobody else is alive, nothing changes. Otherwise the agent accuses a living non-agent player and votes guilty or innocent. Nobody else changes, and the suspect slot is kept. |
| Reasoner.ReasonAsWritten | mafiademonstration/stages_new/loading.py:14-42 | The reasoner as written fails exactly when the roster has no agent. Otherwise the result is the turn of the first agent, and references stay in range. |
| Reasoner.Reason | mafiademonstration/stages_new/loading.py:14-42 | The corrected reasoner leaves an agentless roster unchanged and otherwise agrees with the code as written. Nobody's identity, alive flag or suspicion changes, and only the agent's entry may change. |
| Reasoner.EnterLoadingAsWritten | src/stages.py:408-414 | `on_enter` as written, on a well-formed roster: it fails exactly when there is no agent, and then with the missing-agent error. Otherwise it yields the reasoner's roster; `Reasoner.EnterLoadingAsWrittenOutcome` states both cases. |
| Reasoner.EnterLoading | src/stages.py:408-414 | `on_enter` with the missing-agent fix: on a well-formed roster it never fails and yields the corrected reasoner's roster; `Reasoner.EnterLoadingIsAgentTurn` adds that an agentless roster comes back unchanged. |
| Reasoner.EnterLoadingAsWrittenOutcome | mafiademonstration/stages_new/loading.py:2-8 | On a well-formed roster, a Loading screen as written is the agent's turn when there is an agent and raises otherwise. |
| Reasoner.EnterLoadingIsAgentTurn | mafiademonstration/stages_new/loading.py:2-8 | With the fix, a Loading screen on a well-formed roster never fails. It is the agent's turn, and an agentless roster comes back unchanged. |
| Phases.DiscussionSubmit | src/stages.py:179-187 | The game moves to the Discussion-to-Trial loading screen iff some player is the unique most accused. That player alone is flagged for trial. Otherwise the game moves to the Trial-to-Night loading screen unchanged. |
| Phases.FirstOnTrial | src/stages.py:303-306 | Returns the first player flagged for trial. |
| Phases.TrialSubmit | src/stages.py:273-295 | The accused is unflagged, and dies iff guilty votes outnumber innocent ones. Nobody else changes. The game continues to the Trial-to-Night loading screen iff both factions are still alive; otherwise it ends with the winner. |
| Phases.ResetActions | src/stages.py:387-396 | Every player's declarations become the defaults. Everything else is kept. |
| Phases.NightSubmit | src/stages.py:363-396 | Only the selected player dies, and every player's declarations are reset. Identities and current actions are kept. The game continues to the Night-to-Discussion loading screen iff both factions survive the kill; otherwise it ends with the winner. |
| Phases.ExitLoading | src/stages.py:481-493 | The three loading screens lead to Trial, Night and Discussion respectively. |
| Phases.Step | src/stages.py:407-414 | A finished game stays finished, a loading screen exits to its successor, and the roster size never changes. |
| Phases.LoadingIsCorrectedScreen | src/stages.py:408-414 | A Loaded event leaves exactly the roster the Loading screen with the missing-agent fix yields. |
| Phases.SingleOnTrial | src/stages.py:300-306 | When exactly one player is flagged, Trial's search finds that player. |
| Phases.DiscussionKeepsInv | src/stages.py:179-187 | The Discussion submit keeps the roster well formed, and leaves one player flagged exactly when it heads for Trial. |
| Phases.TrialKeepsInv | src/stages.py:273-295 | The Trial submit clears the only trial flag and keeps the roster well formed. |
| Phases.NightKeepsInv | src/stages.py:363-396 | The Night submit keeps the roster well formed with nobody on trial. |
| Phases.LoadingKeepsInv | src/stages.py:407-414 | Leaving a loading screen through the reasoner keeps the roster well formed and the trial flags as they were. |
| Phases.StepPreservesInv | src/stages.py:297-311 | Every step keeps the invariant: a well-formed, non-empty roster, with exactly one player flagged while the game is on its way to or in Trial and nobody flagged otherwise. In particular, Trial is never entered with nobody on trial. |
| Phases.StepNeverRevives | src/stages.py:273-373 | No step brings a dead player back or changes anyone's name, number, faction or agent status. |
| Phases.NewMatchSatisfiesInv | src/stages.py:401-404 | A new match of at least one player starts in Discussion satisfying the invariant. |
| Phases.FullyHumanMatchCrashesLoading | src/stages.py:427-434 | With `agent_number` outside the roster, every loading screen raises as the code is written. |
| LegacyPlayers.Die | mafiademonstration/player.py:63-66 | Fails iff the name is not a roster key. Otherwise only that player changes, and it ends up dead. |
| LegacyPlayers.ReadyAction | mafiademonstration/player.py:80-99 | The lower-cased action becomes the current action, and the player is always selected. "die" kills the player. A vote writes only the decision entry, and fails iff the player has no vote entry. Nobody else changes. |
| LegacyPlayers.ActOn | mafiademonstration/player.py:101-121 | Fails iff the declarations are empty, or iff the current action is neither "abstain" nor a declaration entry while the target is someone else. Acting on oneself, or with "abstain", changes nothing. Otherwise exactly the "player" slot of the current action's entry is set to the target, whatever the other slots hold. |
| LegacyPlayers.ReadySlotThenActOn | mafiademonstration/player.py:88-117 | Readying "accuse" or "suspect" and tapping another player points exactly that slot at the target. |
| LegacyPlayers.AccuseAndSuspectMayCoincide | mafiademonstration/player.py:116-117 | A player can accuse and then suspect the same player, and both slots end up naming that player. |
| LegacyPlayers.Flatten | mafiademonstration/player.py:38-52 | Every reference becomes the referenced player's name. All other values and fields are kept, and no reference remains. |
| LegacyPlayers.FlattenIdempotent | mafiademonstration/player.py:38-52 | A player without references flattens to itself, so flattening twice is the same as flattening once. |
| LegacyPlayers.ActOnThenFlatten | mafiademonstration/player.py:40-44 | After `act_on`, the flattened record carries the target's name in the acted-on slot. |
| LegacyStages.InitializePlayers | mafiademonstration/stages.py:65-78 | Players 1..count are stored under "player k" with number k. Earlier roster entries under other keys are kept, and no other key appears. |
| LegacyStages.FreshRosterSize | mafiademonstration/stages.py:66-78 | Starting from an empty roster, there are exactly `count` players. |
| LegacyStages.SlotFault | mafiademonstration/stages.py:103-107 | Reading a slot raises exactly when it is missing, holds a non-player value, or names a player who is not a roster key. |
| LegacyStages.TallyAccusations | mafiademonstration/stages.py:100-107 | Fails iff some player's accuse or suspect slot is unreadable. Otherwise every roster key gets the number of players accusing it. |
| LegacyStages.MaxKey | mafiademonstration/stages.py:109-110 | Returns a key with the largest count. |
| LegacyStages.TopIfUnique | mafiademonstration/stages.py:109-117 | Returns a key exactly when its count is strictly greater than every other key's. |
| LegacyStages.CountVotes | mafiademonstration/stages.py:95-123 | Fails iff a slot is unreadable or the roster is empty. Otherwise it returns a player exactly when that player is the unique most accused. |
| LegacyStages.DiscussionSubmit | mafiademonstration/stages.py:133-141 | Fails exactly when `count_votes` does. On success the roster is unchanged. The game moves to the Discussion-to-Trial loading screen iff there is a unique most accused player, who is then recorded as the player to be tried. Otherwise it moves to the Trial-to-Night loading screen. |
| LegacyStages.Submit | mafiademonstration/stages.py:153-170 | Trial always moves to the Trial-to-Night loading screen. Night ends the game iff nobody is alive and otherwise moves to the Night-to-Discussion loading screen. Neither changes the roster. |
| LegacyStages.ExitLoading | mafiademonstration/stages.py:187-199 | The three loading screens lead to Trial, Night and Discussion respectively. |
| LegacyStages.Step | mafiademonstration/stages.py:133-199 | Only Discussion can fail, and it fails iff a declaration cannot be read or there are no players. From Discussion the machine goes to the Discussion-to-Trial loading screen iff some player is a trial candidate, with that candidate to be tried, and otherwise to the Trial-to-Night loading screen. Submitting on Trial or Night gives that screen's submit. A Loaded event on a loading screen moves on to the screen it leads to. Any other event leaves the game as it is. No step changes the roster, the game-over menu is final, and the invariant (players keyed by name, and the player to be tried is in the roster on the way to and during Trial) is kept. |
| LegacyStages.NewMatchSatisfiesInv | mafiademonstration/stages.py:87-91 | A freshly initialised roster starts in Discussion satisfying the invariant. |

## Left out

- Presentation is not modelled:
  - Kivy widgets, icons (including the random easter-egg icon), borders and `set_strategic_value`;
  - bubbles, `get_player_class`, `add_players`;
  - the action and mafia log text, and all logging;
  - the `suspect`/`accuse`/`kill` stubs, which do nothing.
- Configuration reading (`initialize_settings`) is outside the model. Player count and agent number are parameters.
- JSON text (`to_json`, `json.loads`) is not modelled. A `Record` stands for one parsed JSON object. `int(player.number)` is not modelled because numbers are already integers.
- Randomness is supplied as inputs (the mafia sample, `pick`, `coin`). The distribution is not modelled.
- `math.floor(math.sqrt(n))` is computed exactly by `Roles.Isqrt`. The float route agrees for every roster size the game can have.
- `Text.Lower` lower-cases ASCII letters only. Python's Unicode `str.lower` is not modelled.
- The initial declarations of a player widget come from the Kivy layout files, which are not part of this model. A new player starts with the defaults the Night reset writes.
- Players.ReadyAction: the current action is kept on the roster entry. In the source it lives on the widget copy that `add_players` makes (src/stages.py:49-70), and that copy shares only the declaration dictionary with the roster entry. A widget starts each screen with an empty current action, while the model's value persists from one screen to the next.
- LegacyPlayers.ReadyAction: the same holds in the older version. `add_players` (mafiademonstration/stages.py:42-52) builds widgets that share only the `actions` dictionary with the roster entry, so `LegacyPlayers.ReadyAction` stores, and `LegacyPlayers.ActOn` reads, the current action on the roster entry. The source keeps that value on the widget, where it starts empty on each new screen.
- LegacyPlayers.ReadyAction: requires the player's name to be a roster key, since every widget is built from a roster entry. A widget whose name is not a key would raise only for "die" and the votes.
- LegacyPlayers.ActOn: requires the acting player to be in the roster. The source `act_on` never reads the roster, and every widget comes from a roster entry.
- Phases.TrialSubmit: requires a player flagged for trial. When none is flagged, the source logs an error and then dereferences whichever player the screen last tried, or None. `Phases.StepPreservesInv` shows that this state is unreachable.
- Phases.Step: a Loaded event runs the corrected Loading screen (`Reasoner.EnterLoading`). On a roster without an agent the code as written raises at `src/stages.py:434`, and the model instead passes the roster through unchanged (`Phases.LoadingIsCorrectedScreen`); `Reasoner.EnterLoadingAsWritten` keeps the as-written behaviour (see Findings).
- Phases.Inv: does not include `Players.AllSlotsApart`. The reasoner writes the agent's accuse slot without `act_on`'s guard, so the agent can end up accusing the player it suspects. `Players.ReadyAction` and `Players.ActOn` do keep the slots apart.
- Phases.NewMatchSatisfiesInv: requires at least one player. `create_players(0, a)` succeeds with an empty roster, but the first Discussion submit of such a match raises ValueError, because `max` is taken over an empty list.
- Tally.CountAccusations: requires a non-empty, well-formed roster, because `max` of an empty list raises. `Phases.Inv` keeps the roster non-empty. The legacy `count_votes` models the empty case as a failure.
- Phases.NightSubmit: takes the selected player as an index into the roster. The source reads it from the screen's `selected_player`, which `ready_action` sets.
- LegacyStages.MaxKey: the source's `max` over a dictionary returns the first maximal key in insertion order, while the model returns some maximal key. This makes no difference to `count_votes`, which discards the key when the maximum is shared.
- The legacy Loading screens only print a message before they exit, so no reasoner call is modelled for them. The reasoner in `mafiademonstration/stages_new/loading.py` is the same code as `src/stages.py:420-478`, and `Reasoner` models it on the `src/` roster.
- `MainMenu.ready_game` and `GameOverMenu.ready_game` are modelled only through `Roles.CreatePlayers` and `Phases.NewMatchSatisfiesInv`. Screen-manager bookkeeping such as the game-over text is not modelled.

## Findings

| source | as written | input that shows it | evidently intended | confidence | as-written member | corrected member |
|---|---|---|---|---|---|---|
| src/stages.py:427-434 (same code in mafiademonstration/stages_new/loading.py:21-28) | `agent` stays `None` when no player is the agent, and `agent.alive` is then read | `create_players(3, -1)` (an `agent_number` outside the roster, which `create_players` explicitly allows): the first Loading screen raises AttributeError | with no agent the reasoner does nothing and the roster passes through unchanged | not executed | Reasoner.ReasonAsWritten, Reasoner.EnterLoadingAsWritten, Phases.FullyHumanMatchCrashesLoading | Reasoner.Reason, Reasoner.EnterLoading, Phases.Step |
