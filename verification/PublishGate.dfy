/**
 * The draft, simulate, publish gate. A role's live definition only changes by a publish, and a publish
 * only copies down a draft whose canonical form a completed simulation recorded with no violations.
 */
module PublishGate {
  import opened Common
  import opened Evaluator
  import opened SodChecker
  import opened Simulation
  import opened DraftHash

  /** The role columns the gate reads and writes, and the published child rows. */
  datatype Entry = Entry(live: Definition, draft: Option<Json>, hash: Option<string>, violations: Option<nat>)

  datatype GateRefusal =
    | NoSuchRole
    | InvalidDefinition
    | NoDraft
    | NotSimulated
    | SimulatedBeforeSod
    | HasViolations(count: nat)
    | SelfEditable(keys: set<string>)

  type Table = map<RoleId, Entry>

  /** The custom-attribute keys a definition's conditions name. */
  function AttributeKeys(d: Definition): set<string> {
    set c | c in d.conditions && StartsWith(c.field, ATTRIBUTE_PREFIX) && |c.field| > |ATTRIBUTE_PREFIX| ::
      c.field[|ATTRIBUTE_PREFIX|..]
  }

  function Saved(t: Table, id: RoleId, input: Json): Result<Table, GateRefusal> {
    var parsed := ParseDefinition(input);
    if parsed.None? then Err(InvalidDefinition)
    else if id !in t then Err(NoSuchRole)
    else Ok(t[id := t[id].(draft := Some(Stored(parsed.value)), hash := None, violations := None)])
  }

  function Recorded(t: Table, id: RoleId, hash: string, violations: nat): Result<Table, GateRefusal> {
    if id !in t then Err(NoSuchRole) else Ok(t[id := t[id].(hash := Some(hash), violations := Some(violations))])
  }

  /** The gate over one row, in the order its checks are made. */
  function Gate(e: Encoding, row: Entry, selfEditable: set<string>): Result<Definition, GateRefusal> {
    if row.draft.None? then Err(NoDraft)
    else
      var parsed := ParseDefinition(row.draft.value);
      if parsed.None? then Err(InvalidDefinition)
      else if row.hash != Some(HashDefinition(e, parsed.value)) then Err(NotSimulated)
      else if row.violations.None? then Err(SimulatedBeforeSod)
      else if row.violations.value > 0 then Err(HasViolations(row.violations.value))
      else if AttributeKeys(parsed.value) * selfEditable != {} then
        Err(SelfEditable(AttributeKeys(parsed.value) * selfEditable))
      else Ok(parsed.value)
  }

  function Published(e: Encoding, t: Table, id: RoleId, selfEditable: set<string>): Result<Table, GateRefusal> {
    if id !in t then Err(NoSuchRole)
    else
      match Gate(e, t[id], selfEditable)
      case Err(refusal) => Err(refusal)
      case Ok(definition) => Ok(t[id := Entry(definition, None, None, None)])
  }

  /** The store the repository writes: a refusal leaves every row as it was. */
  class RoleStore {
    const e: Encoding
    var rows: Table

    constructor (encoding: Encoding, roles: Table)
      ensures e == encoding && rows == roles
    {
      e, rows := encoding, roles;
    }

    method SaveDraft(id: RoleId, input: Json) returns (refusal: Option<GateRefusal>)
      modifies this
      ensures match Saved(old(rows), id, input)
        case Ok(after) => refusal.None? && rows == after
        case Err(why) => refusal == Some(why) && rows == old(rows)
    {
      var parsed := ParseDefinition(input);
      if parsed.None? {
        return Some(InvalidDefinition);
      }
      if id !in rows {
        return Some(NoSuchRole);
      }
      rows := rows[id := rows[id].(draft := Some(Stored(parsed.value)), hash := None, violations := None)];
      refusal := None;
    }

    method RecordSimulation(id: RoleId, hash: string, violations: nat) returns (refusal: Option<GateRefusal>)
      modifies this
      ensures match Recorded(old(rows), id, hash, violations)
        case Ok(after) => refusal.None? && rows == after
        case Err(why) => refusal == Some(why) && rows == old(rows)
    {
      if id !in rows {
        return Some(NoSuchRole);
      }
      rows := rows[id := rows[id].(hash := Some(hash), violations := Some(violations))];
      refusal := None;
    }

    method CheckGate(role: Entry, selfEditable: set<string>) returns (r: Result<Definition, GateRefusal>)
      ensures r == Gate(e, role, selfEditable)
    {
      if role.draft.None? {
        return Err(NoDraft);
      }
      var definition := ParseDefinition(role.draft.value);
      if definition.None? {
        return Err(InvalidDefinition);
      }
      if role.hash.None? || role.hash.value != HashDefinition(e, definition.value) {
        return Err(NotSimulated);
      }
      if role.violations.None? {
        return Err(SimulatedBeforeSod);
      }
      if role.violations.value > 0 {
        return Err(HasViolations(role.violations.value));
      }
      var offenders := AttributeKeys(definition.value) * selfEditable;
      if offenders != {} {
        return Err(SelfEditable(offenders));
      }
      r := Ok(definition.value);
    }

    /** Every refusal comes before the first write, so a refused publish leaves the live rows alone. */
    method PublishWithin(id: RoleId, selfEditable: set<string>) returns (refusal: Option<GateRefusal>)
      modifies this
      ensures match Published(e, old(rows), id, selfEditable)
        case Ok(after) => refusal.None? && rows == after
        case Err(why) => refusal == Some(why) && rows == old(rows)
    {
      if id !in rows {
        return Some(NoSuchRole);
      }
      var definition := CheckGate(rows[id], selfEditable);
      if definition.Err? {
        return Some(definition.error);
      }
      var row := rows[id];
      row := row.(live := Definition([], []));
      row := row.(live := row.live.(conditions := definition.value.conditions));
      row := row.(live := row.live.(grants := definition.value.grants));
      row := row.(draft := None, hash := None, violations := None);
      rows := rows[id := row];
      refusal := None;
    }
  }

  // ---------------------------------------------------------------- runs

  type SimId = nat

  /** A simulation reads the draft in one step and records its result in a later one; anything may happen
      in between. */
  datatype Step =
    | Save(id: RoleId, input: Json)
    | Read(id: RoleId, sim: SimId)
    | Record(sim: SimId, violations: nat)
    | Publish(id: RoleId, selfEditable: set<string>)

  datatype Event =
    | DraftSaved(id: RoleId, definition: Definition)
    | SimulationDone(id: RoleId, definition: Definition, count: nat)
    | WentLive(id: RoleId, definition: Definition)

  datatype Simulating = Simulating(id: RoleId, definition: Definition)

  /** The table, the simulations under way, and the history of what took effect. */
  datatype Run = Run(table: Table, pending: map<SimId, Simulating>, history: seq<Event>)

  function Take(e: Encoding, r: Run, s: Step): Run {
    match s
    case Save(id, input) =>
      (match Saved(r.table, id, input)
       case Err(_) => r
       case Ok(after) => Run(after, r.pending, r.history + [DraftSaved(id, ParseDefinition(input).value)]))
    case Read(id, sim) =>
      if id in r.table && r.table[id].draft.Some? && ParseDefinition(r.table[id].draft.value).Some? && sim !in r.pending
      then r.(pending := r.pending[sim := Simulating(id, ParseDefinition(r.table[id].draft.value).value)])
      else r
    case Record(sim, violations) =>
      if sim !in r.pending then r
      else
        var d := r.pending[sim];
        (match Recorded(r.table, d.id, HashDefinition(e, d.definition), violations)
         case Err(_) => r
         case Ok(after) => Run(after, r.pending - {sim}, r.history + [SimulationDone(d.id, d.definition, violations)]))
    case Publish(id, selfEditable) =>
      match Published(e, r.table, id, selfEditable)
      case Err(_) => r
      case Ok(after) => Run(after, r.pending, r.history + [WentLive(id, after[id].live)])
  }

  function TakeAll(e: Encoding, r: Run, steps: seq<Step>): Run
    decreases |steps|
  {
    if steps == [] then r else TakeAll(e, Take(e, r, steps[0]), steps[1..])
  }

  /** Nothing drafted, nothing simulated, nothing under way. */
  ghost predicate Fresh(r: Run) {
    r.pending == map[] && r.history == [] &&
    forall id | id in r.table :: r.table[id] == Entry(r.table[id].live, None, None, None)
  }

  // ---------------------------------------------------------------- what the history says of a row

  /** The draft on the row: the last one saved, unless it has gone live since. */
  function Drafted(h: seq<Event>, id: RoleId): Option<Definition> {
    if h == [] then None
    else
      var last := h[|h| - 1];
      if last.id == id && last.DraftSaved? then Some(last.definition)
      else if last.id == id && last.WentLive? then None
      else Drafted(h[..|h| - 1], id)
  }

  datatype Simulated = Simulated(definition: Definition, count: nat)

  /** The simulation on the row: the last one done, unless a draft was saved or published since. */
  function LastSimulation(h: seq<Event>, id: RoleId): Option<Simulated> {
    if h == [] then None
    else
      var last := h[|h| - 1];
      if last.id != id then LastSimulation(h[..|h| - 1], id)
      else if last.SimulationDone? then Some(Simulated(last.definition, last.count))
      else None
  }

  /** The live definition: the last one published, or the one there was. */
  function LiveAfter(h: seq<Event>, id: RoleId, initial: Definition): Definition {
    if h == [] then initial
    else
      var last := h[|h| - 1];
      if last.id == id && last.WentLive? then last.definition else LiveAfter(h[..|h| - 1], id, initial)
  }

  ghost function RowAfter(e: Encoding, h: seq<Event>, id: RoleId, initial: Definition): Entry {
    var drafted, simulated := Drafted(h, id), LastSimulation(h, id);
    Entry(LiveAfter(h, id, initial),
      if drafted.Some? then Some(Stored(drafted.value)) else None,
      if simulated.Some? then Some(HashDefinition(e, simulated.value.definition)) else None,
      if simulated.Some? then Some(simulated.value.count) else None)
  }

  /** The rows are what the history makes of the initial ones, and drafts and readings are valid. */
  ghost predicate Explained(e: Encoding, first: Table, r: Run) {
    && r.table.Keys == first.Keys
    && (forall id | id in first :: r.table[id] == RowAfter(e, r.history, id, first[id].live))
    && (forall id | id in first :: Drafted(r.history, id).Some? ==> ValidDefinition(Drafted(r.history, id).value))
    && (forall s | s in r.pending :: r.pending[s].id in first)
  }

  lemma HistoryOneMore(h: seq<Event>, last: Event, id: RoleId, initial: Definition)
    ensures Drafted(h + [last], id)
      == if last.id == id && last.DraftSaved? then Some(last.definition)
         else if last.id == id && last.WentLive? then None else Drafted(h, id)
    ensures LastSimulation(h + [last], id)
      == if last.id != id then LastSimulation(h, id)
         else if last.SimulationDone? then Some(Simulated(last.definition, last.count)) else None
    ensures LiveAfter(h + [last], id, initial)
      == if last.id == id && last.WentLive? then last.definition else LiveAfter(h, id, initial)
  {
    assert (h + [last])[..|h|] == h;
  }

  lemma GateOnEntry(
    e: Encoding, row: Entry, drafted: Option<Definition>, simulated: Option<Simulated>, selfEditable: set<string>)
    requires Injective(e) && (drafted.Some? ==> ValidDefinition(drafted.value))
    requires row.draft == (if drafted.Some? then Some(Stored(drafted.value)) else None)
    requires row.hash == (if simulated.Some? then Some(HashDefinition(e, simulated.value.definition)) else None)
    requires row.violations == (if simulated.Some? then Some(simulated.value.count) else None)
    ensures Gate(e, row, selfEditable).Ok? <==>
      && drafted.Some? && simulated.Some?
      && Permuted(simulated.value.definition, drafted.value) && simulated.value.count == 0
      && AttributeKeys(drafted.value) * selfEditable == {}
    ensures Gate(e, row, selfEditable).Ok? ==> drafted == Some(Gate(e, row, selfEditable).value)
  {
    if drafted.Some? {
      StoredReadsBack(drafted.value);
      if simulated.Some? {
        HashAlikeIffPermuted(e, simulated.value.definition, drafted.value);
      }
    }
  }

  /** The gate lets a draft through exactly when the last simulation since it was saved was of the same
      canonical form and found nothing, and no condition names a self-editable attribute. */
  lemma GateExactly(e: Encoding, first: Table, r: Run, id: RoleId, selfEditable: set<string>)
    requires Injective(e) && Explained(e, first, r) && id in first
    ensures var drafted, simulated := Drafted(r.history, id), LastSimulation(r.history, id);
      Gate(e, r.table[id], selfEditable).Ok? <==>
        && drafted.Some? && simulated.Some?
        && Permuted(simulated.value.definition, drafted.value) && simulated.value.count == 0
        && AttributeKeys(drafted.value) * selfEditable == {}
    ensures Gate(e, r.table[id], selfEditable).Ok? ==>
      Drafted(r.history, id) == Some(Gate(e, r.table[id], selfEditable).value)
  {
    GateOnEntry(e, r.table[id], Drafted(r.history, id), LastSimulation(r.history, id), selfEditable);
  }

  lemma SaveKeeps(e: Encoding, first: Table, r: Run, id: RoleId, input: Json)
    requires Explained(e, first, r)
    ensures Explained(e, first, Take(e, r, Save(id, input)))
  {
    if Saved(r.table, id, input).Ok? {
      AcceptedDraftReparses(input);
      forall k | k in first {
        HistoryOneMore(r.history, DraftSaved(id, ParseDefinition(input).value), k, first[k].live);
      }
    }
  }

  lemma RecordKeeps(e: Encoding, first: Table, r: Run, sim: SimId, violations: nat)
    requires Explained(e, first, r)
    ensures Explained(e, first, Take(e, r, Record(sim, violations)))
  {
    if sim in r.pending {
      var d := r.pending[sim];
      forall k | k in first {
        HistoryOneMore(r.history, SimulationDone(d.id, d.definition, violations), k, first[k].live);
      }
    }
  }

  lemma RowAfterPublish(e: Encoding, h: seq<Event>, id: RoleId, definition: Definition, k: RoleId, initial: Definition)
    ensures RowAfter(e, h + [WentLive(id, definition)], k, initial)
      == if k == id then Entry(definition, None, None, None) else RowAfter(e, h, k, initial)
    ensures Drafted(h + [WentLive(id, definition)], k) == if k == id then None else Drafted(h, k)
  {
    HistoryOneMore(h, WentLive(id, definition), k, initial);
  }

  lemma PublishKeeps(e: Encoding, first: Table, r: Run, id: RoleId, selfEditable: set<string>)
    requires Injective(e) && Explained(e, first, r)
    ensures Explained(e, first, Take(e, r, Publish(id, selfEditable)))
  {
    if id in r.table && Gate(e, r.table[id], selfEditable).Ok? {
      var definition := Gate(e, r.table[id], selfEditable).value;
      var after := Take(e, r, Publish(id, selfEditable));
      assert after.history == r.history + [WentLive(id, definition)];
      assert after.table == r.table[id := Entry(definition, None, None, None)];
      forall k | k in first
        ensures after.table[k] == RowAfter(e, after.history, k, first[k].live)
        ensures Drafted(after.history, k).Some? ==> ValidDefinition(Drafted(after.history, k).value)
      {
        RowAfterPublish(e, r.history, id, definition, k, first[k].live);
      }
    }
  }

  lemma TakeKeeps(e: Encoding, first: Table, r: Run, s: Step)
    requires Injective(e) && Explained(e, first, r)
    ensures Explained(e, first, Take(e, r, s))
  {
    match s {
      case Save(id, input) => SaveKeeps(e, first, r, id, input);
      case Read(_, _) =>
      case Record(sim, violations) => RecordKeeps(e, first, r, sim, violations);
      case Publish(id, selfEditable) => PublishKeeps(e, first, r, id, selfEditable);
    }
  }

  // ---------------------------------------------------------------- safety over runs

  /** The definition that went live at `k` was saved at `i`, a simulation of its canonical form as `d`
      was completed later, at `j`, with no violations, and nothing was saved or published for the role
      after `i` or simulated for it after `j`. */
  ghost predicate ClearedBy(h: seq<Event>, k: nat, i: nat, j: nat, d: Definition)
    requires k < |h|
  {
    && i < j < k
    && h[i] == DraftSaved(h[k].id, h[k].definition)
    && h[j] == SimulationDone(h[k].id, d, 0) && Permuted(d, h[k].definition)
    && (forall m | i < m < k :: h[m].id == h[k].id ==> h[m].SimulationDone?)
    && (forall m | j < m < k :: h[m].id != h[k].id)
  }

  ghost predicate WentLiveProperly(h: seq<Event>, k: nat)
    requires k < |h|
  {
    h[k].WentLive? ==> exists i: nat, j: nat, d :: ClearedBy(h, k, i, j, d)
  }

  lemma {:induction false} DraftedAt(h: seq<Event>, id: RoleId) returns (i: nat)
    requires Drafted(h, id).Some?
    ensures i < |h| && h[i] == DraftSaved(id, Drafted(h, id).value)
    ensures forall m | i < m < |h| :: h[m].id == id ==> h[m].SimulationDone?
  {
    var n := |h| - 1;
    if h[n].id == id && h[n].DraftSaved? {
      i := n;
    } else {
      i := DraftedAt(h[..n], id);
      forall m | i < m < |h| && h[m].id == id ensures h[m].SimulationDone? {
        assert m < n ==> h[m] == h[..n][m];
      }
    }
  }

  lemma {:induction false} SimulatedAt(h: seq<Event>, id: RoleId) returns (j: nat)
    requires LastSimulation(h, id).Some?
    ensures j < |h| && h[j] == SimulationDone(id, LastSimulation(h, id).value.definition, LastSimulation(h, id).value.count)
    ensures forall m | j < m < |h| :: h[m].id != id
  {
    var n := |h| - 1;
    if h[n].id == id {
      j := n;
    } else {
      j := SimulatedAt(h[..n], id);
      forall m | j < m < |h| ensures h[m].id != id {
        assert m < n ==> h[m] == h[..n][m];
      }
    }
  }

  lemma PropernessStays(h: seq<Event>, last: Event, k: nat)
    requires k < |h| && WentLiveProperly(h, k)
    ensures WentLiveProperly(h + [last], k)
  {
    var more := h + [last];
    if h[k].WentLive? {
      var i: nat, j: nat, d :| ClearedBy(h, k, i, j, d);
      assert more[i] == h[i] && more[j] == h[j] && more[k] == h[k];
      assert forall m | i < m < k :: more[m] == h[m];
      assert ClearedBy(more, k, i, j, d);
    }
  }

  lemma NewestIsProper(h: seq<Event>, last: Event)
    requires last.WentLive? && Drafted(h, last.id) == Some(last.definition)
    requires LastSimulation(h, last.id).Some? && LastSimulation(h, last.id).value.count == 0
    requires Permuted(LastSimulation(h, last.id).value.definition, last.definition)
    ensures WentLiveProperly(h + [last], |h|)
  {
    var i := DraftedAt(h, last.id);
    var j := SimulatedAt(h, last.id);
    var more, k := h + [last], |h|;
    assert i < j;
    assert more[k] == last && more[i] == h[i] && more[j] == h[j];
    forall m | i < m < k && more[m].id == last.id ensures more[m].SimulationDone? {
      assert more[m] == h[m];
    }
    forall m | j < m < k ensures more[m].id != last.id {
      assert more[m] == h[m];
    }
    assert ClearedBy(more, k, i, j, LastSimulation(h, last.id).value.definition);
  }

  lemma PublishIsProper(e: Encoding, first: Table, r: Run, id: RoleId, selfEditable: set<string>)
    requires Injective(e) && Explained(e, first, r)
    ensures var after := Take(e, r, Publish(id, selfEditable));
      after == r || (|after.history| == |r.history| + 1 && WentLiveProperly(after.history, |r.history|))
  {
    if id in r.table && Gate(e, r.table[id], selfEditable).Ok? {
      GateExactly(e, first, r, id, selfEditable);
      NewestIsProper(r.history, WentLive(id, Gate(e, r.table[id], selfEditable).value));
    }
  }

  /** A step adds at most one event, and only a publish adds one that went live. */
  lemma HistoryGrows(e: Encoding, r: Run, s: Step)
    ensures var before, after := r.history, Take(e, r, s).history;
      after == before || (|after| == |before| + 1 && after[..|before|] == before
                          && (after[|before|].WentLive? ==> s.Publish?))
  {
  }

  ghost predicate AllProper(h: seq<Event>) {
    forall k {:trigger WentLiveProperly(h, k)} | 0 <= k < |h| :: WentLiveProperly(h, k)
  }

  lemma ProperOneMore(h: seq<Event>, more: seq<Event>)
    requires AllProper(h) && |more| == |h| + 1 && more[..|h|] == h && WentLiveProperly(more, |h|)
    ensures AllProper(more)
  {
    assert more == h + [more[|h|]];
    forall k | 0 <= k < |h| ensures WentLiveProperly(more, k) {
      PropernessStays(h, more[|h|], k);
    }
  }

  lemma TakeIsProper(e: Encoding, first: Table, r: Run, s: Step)
    requires Injective(e) && Explained(e, first, r) && AllProper(r.history)
    ensures AllProper(Take(e, r, s).history)
  {
    HistoryGrows(e, r, s);
    if s.Publish? {
      PublishIsProper(e, first, r, s.id, s.selfEditable);
    }
    if Take(e, r, s).history != r.history {
      ProperOneMore(r.history, Take(e, r, s).history);
    }
  }

  lemma {:induction false} RunKeeps(e: Encoding, first: Table, r: Run, steps: seq<Step>)
    requires Injective(e) && Explained(e, first, r) && AllProper(r.history)
    ensures Explained(e, first, TakeAll(e, r, steps)) && AllProper(TakeAll(e, r, steps).history)
    decreases |steps|
  {
    if steps != [] {
      TakeKeeps(e, first, r, steps[0]);
      TakeIsProper(e, first, r, steps[0]);
      RunKeeps(e, first, Take(e, r, steps[0]), steps[1..]);
    }
  }

  /** Over every run of draft saves, simulations and publishes: each definition that went live was
      simulated clean after it was last edited, and each role's live definition is the last one that went
      live, or the one it started with. */
  lemma LiveDefinitionsWereSimulatedClean(e: Encoding, start: Run, steps: seq<Step>)
    requires Injective(e) && Fresh(start)
    ensures var end := TakeAll(e, start, steps);
      && AllProper(end.history)
      && end.table.Keys == start.table.Keys
      && (forall id | id in start.table ::
            end.table[id].live == LiveAfter(end.history, id, start.table[id].live))
  {
    RunKeeps(e, start.table, start, steps);
  }

  /** A simulation of the old draft that finishes after an edit does not clear the new draft, unless the
      edit only reordered it. */
  lemma StaleRecordDoesNotPublish(
    e: Encoding, row: Entry, old': Definition, edited: Definition, count: nat, selfEditable: set<string>)
    requires Injective(e) && ValidDefinition(edited) && !Permuted(old', edited)
    requires row.draft == Some(Stored(edited)) && row.hash == Some(HashDefinition(e, old')) && row.violations == Some(count)
    ensures Gate(e, row, selfEditable) == Err(NotSimulated)
  {
    StoredReadsBack(edited);
    HashAlikeIffPermuted(e, old', edited);
  }

  // ---------------------------------------------------------------- what the recorded count does not see

  /** A publish leaves no standing violation on the role's conflicts exactly when simulating the same
      definition just before it, against the conflicts of that moment, finds none. The gate compares the
      count recorded by an earlier simulation instead. */
  lemma CleanAfterPublishIffResimulationIsClean(
    conflicts: seq<Conflict>, people: map<string, seq<User>>, rows: map<RoleId, RoleRow>, id: RoleId,
    definition: Definition, now: int)
    requires WellFormed(conflicts, rows) && id in rows
    requires forall r | r in rows :: rows[r].role.id == r
    ensures (forall v | v in StandingViolations(conflicts, people, RowsAfterPublish(rows, id, definition), now) ::
              v.roleA != id && v.roleB != id)
      <==> SimulatedSod(conflicts, UsersIn(people, rows[id].organization), rows, id, definition, now) == []
  {
    SimulationAgreesWithStandingReport(conflicts, people, rows, id, definition, now);
    EntriesEmptyIffNoneInvolved(StandingViolations(conflicts, people, RowsAfterPublish(rows, id, definition), now), id);
  }

  lemma {:induction false} EntriesEmptyIffNoneInvolved(violations: seq<Violation>, id: RoleId)
    ensures EntriesFor(violations, id) == [] <==> forall v | v in violations :: v.roleA != id && v.roleB != id
  {
    if violations != [] {
      var n := |violations| - 1;
      EntriesEmptyIffNoneInvolved(violations[..n], id);
      assert forall v :: v in violations <==> v in violations[..n] || v == violations[n];
    }
  }

  /** A conflict created after the simulation is not seen: the draft was simulated with no conflict and
      no violation, the conflict is created, the gate still opens, and the person who holds both roles is
      a standing violation the moment the role is live. */
  lemma LaterConflictSlipsThrough(e: Encoding, user: User, now: int)
    ensures var d, everyone := Definition([], []), [Exception(user.id, Include, None)];
      var rows := map["a" := RoleRow(Role("a", "A", [], [], everyone), "org"),
                      "b" := RoleRow(Role("b", "B", [], [], everyone), "org")];
      var people, conflict := map["org" := [user]], Conflict("c", "org", "a", "b");
      var count := |SimulatedSod([], [user], rows, "a", d, now)|;
      && Gate(e, Entry(d, Some(Stored(d)), Some(HashDefinition(e, d)), Some(count)), {}) == Ok(d)
      && WellFormed([conflict], rows)
      && |StandingViolations([conflict], people, RowsAfterPublish(rows, "a", d), now)| > 0
  {
    var d, everyone := Definition([], []), [Exception(user.id, Include, None)];
    var a, b := Role("a", "A", [], [], everyone), Role("b", "B", [], [], everyone);
    var rows := map["a" := RoleRow(a, "org"), "b" := RoleRow(b, "org")];
    var people, conflict := map["org" := [user]], Conflict("c", "org", "a", "b");
    assert "a"[0] == 'a' && "b"[0] == 'b';
    NoSodEntries(a, WithDraft(a, d), [user], now);
    StoredReadsBack(d);
    assert AttributeKeys(d) == {};
    assert everyone[0].userId == user.id;
    var after := RowsAfterPublish(rows, "a", d);
    var v := Violation("c", user.id, "a", ByIncludeException, "b", ByIncludeException);
    assert WithDraft(a, d) == a;
    assert v in PairViolation(conflict, user, after, now);
    assert conflict in [conflict] && user in UsersIn(people, "org");
    StandingMeaning([conflict], people, after, now, v);
  }
}
