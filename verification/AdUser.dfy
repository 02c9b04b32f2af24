/**
 * One user in Active Directory: the dry-run plan, the create, and the update whose writes may stop part
 * way and are finished by the next run.
 */
module AdUser {
  import opened Common
  import opened AccountControl
  import opened Dn
  import Ordering

  type Name = string
  type Guid = string

  const UAC: Name := "userAccountControl"
  const CN: Name := "cn"
  const SAM: Name := "sAMAccountName"
  const CLASS: Name := "objectClass"

  datatype Entry = Entry(guid: Guid, dn: string, attributes: map<Name, seq<string>>)

  datatype DesiredUser = DesiredUser(
    username: string, email: string, firstName: string, lastName: string, enabled: bool, path: Path,
    attributes: map<Name, seq<string>>, managed: seq<Name>, existingId: Option<Guid>)

  /** The domain and the text conversions around it: letter-case folding, trimming, and numbers as text. */
  datatype Site = Site(
    base: string, fold: char -> char, trim: string -> string, uacOf: string -> bv32, uacText: bv32 -> string)

  ghost predicate WellBehaved(site: Site) {
    forall b :: site.uacOf(site.uacText(b)) == b
  }

  // ---------------------------------------------------------------- what is desired

  function CoreAttributes(site: Site, desired: DesiredUser): map<Name, seq<string>> {
    map[SAM := [desired.username], "userPrincipalName" := [desired.email], "givenName" := [desired.firstName],
        "sn" := [desired.lastName], "mail" := [desired.email],
        "displayName" := [site.trim(desired.firstName + " " + desired.lastName)]]
  }

  /** Mapped attributes, with the core ones winning on a collision. */
  function Payload(site: Site, desired: DesiredUser): map<Name, seq<string>> {
    desired.attributes + CoreAttributes(site, desired)
  }

  /** What an entry is brought to: the attributes to hold, the managed ones that have dropped out, the
      place and the name in it, and the enabled bit. */
  datatype Goal = Goal(payload: map<Name, seq<string>>, stale: set<Name>, dn: string, cn: string, enabled: bool)

  function GoalOf(site: Site, desired: DesiredUser): Goal {
    var payload := Payload(site, desired);
    var stale := set n | n in desired.managed && n !in payload;
    Goal(payload, stale, UserDn(site.base, desired.path, desired.username), desired.username, desired.enabled)
  }

  function ValuesOf(e: Entry, name: Name): seq<string> {
    if name in e.attributes then e.attributes[name] else []
  }

  /** Equality of attribute values, whatever their order. */
  predicate SameValues(a: seq<string>, b: seq<string>) {
    multiset(a) == multiset(b)
  }

  /** The code compares the sorted lists, which is the same thing. */
  lemma SortedComparison(a: seq<string>, b: seq<string>)
    ensures SameValues(a, b) <==> Ordering.Sort(a) == Ordering.Sort(b)
  {
    Ordering.SortedAlikeIffPermuted(a, b);
  }

  function CurrentUac(site: Site, e: Entry): bv32 {
    site.uacOf(if ValuesOf(e, UAC) != [] then ValuesOf(e, UAC)[0] else "0")
  }

  // ---------------------------------------------------------------- the writes of an update

  datatype Write =
    | Modify(changes: map<Name, seq<string>>)
    | Rename(dn: string, cn: string)
    | SetUac(value: bv32)

  /** The attribute is in the payload with other values, or managed, absent from the payload and set. */
  predicate Differs(e: Entry, goal: Goal, name: Name) {
    if name in goal.payload then !SameValues(ValuesOf(e, name), goal.payload[name])
    else name in goal.stale && ValuesOf(e, name) != []
  }

  /** A replace per attribute that differs, and an empty replace per stale managed one. */
  function Changes(e: Entry, goal: Goal): map<Name, seq<string>> {
    map n | n in goal.payload.Keys + goal.stale && Differs(e, goal, n) ::
      if n in goal.payload then goal.payload[n] else []
  }

  function Replaced(attributes: map<Name, seq<string>>, changes: map<Name, seq<string>>): map<Name, seq<string>> {
    map n | n in attributes.Keys + changes.Keys && (n in changes ==> changes[n] != []) ::
      if n in changes then changes[n] else attributes[n]
  }

  /** What the directory does with a write. A rename also rewrites the naming attribute. */
  function Execute(site: Site, e: Entry, w: Write): Entry {
    match w
    case Modify(changes) => e.(attributes := Replaced(e.attributes, changes))
    case Rename(dn, cn) => e.(dn := dn, attributes := e.attributes[CN := [cn]])
    case SetUac(value) => e.(attributes := e.attributes[UAC := [site.uacText(value)]])
  }

  function ExecuteAll(site: Site, e: Entry, ws: seq<Write>): Entry {
    if ws == [] then e else Execute(site, ExecuteAll(site, e, ws[..|ws| - 1]), ws[|ws| - 1])
  }

  function ModifyWrites(e: Entry, goal: Goal): seq<Write> {
    if Changes(e, goal) == map[] then [] else [Modify(Changes(e, goal))]
  }

  function RenameWrites(site: Site, e: Entry, goal: Goal): seq<Write> {
    if DnEquals(site.fold, e.dn, goal.dn) then [] else [Rename(goal.dn, goal.cn)]
  }

  function UacWrites(site: Site, e: Entry, goal: Goal): seq<Write> {
    var next := WithEnabled(CurrentUac(site, e), goal.enabled);
    if next == CurrentUac(site, e) then [] else [SetUac(next)]
  }

  /** Attributes, then placement, then the enabled bit: each read off the entry as the ones before left it. */
  function UpdateWrites(site: Site, e: Entry, goal: Goal): seq<Write> {
    var e1 := ExecuteAll(site, e, ModifyWrites(e, goal));
    var e2 := ExecuteAll(site, e1, RenameWrites(site, e1, goal));
    ModifyWrites(e, goal) + RenameWrites(site, e1, goal) + UacWrites(site, e2, goal)
  }

  function AfterModify(e: Entry, goal: Goal): Entry {
    e.(attributes := Replaced(e.attributes, Changes(e, goal)))
  }

  function AfterRename(site: Site, e: Entry, goal: Goal): Entry {
    if DnEquals(site.fold, e.dn, goal.dn) then e else Execute(site, e, Rename(goal.dn, goal.cn))
  }

  function AfterUac(site: Site, e: Entry, goal: Goal): Entry {
    var next := WithEnabled(CurrentUac(site, e), goal.enabled);
    if next == CurrentUac(site, e) then e else Execute(site, e, SetUac(next))
  }

  /** The entry an undisturbed update leaves. */
  function Updated(site: Site, e: Entry, goal: Goal): Entry {
    AfterUac(site, AfterRename(site, AfterModify(e, goal), goal), goal)
  }

  predicate Managed(goal: Goal, name: Name) {
    name in goal.payload || name in goal.stale
  }

  // ---------------------------------------------------------------- the plan

  datatype Operation = Create | Move | UpdateProfile | SetEnabled(enabled: bool)

  /** The dry run over an existing entry. */
  function PlanFor(site: Site, e: Entry, goal: Goal): seq<Operation> {
    (if DnEquals(site.fold, e.dn, goal.dn) then [] else [Move])
    + (if Changes(e, goal) == map[] then [] else [UpdateProfile])
    + (if IsEnabled(CurrentUac(site, e)) == goal.enabled then [] else [SetEnabled(goal.enabled)])
  }

  // ---------------------------------------------------------------- stages

  lemma ReplacedByNothing(attributes: map<Name, seq<string>>)
    ensures Replaced(attributes, map[]) == attributes
  {
  }

  lemma ExecuteOne(site: Site, e: Entry, w: Write)
    ensures ExecuteAll(site, e, [w]) == Execute(site, e, w)
  {
    assert [w][..0] == [];
  }

  lemma {:induction false} ExecuteConcat(site: Site, e: Entry, a: seq<Write>, b: seq<Write>)
    ensures ExecuteAll(site, e, a + b) == ExecuteAll(site, ExecuteAll(site, e, a), b)
    decreases |b|
  {
    if b == [] {
      assert a + b == a;
    } else {
      assert (a + b)[..|a + b| - 1] == a + b[..|b| - 1];
      ExecuteConcat(site, e, a, b[..|b| - 1]);
    }
  }

  lemma StageModify(site: Site, e: Entry, goal: Goal)
    ensures ExecuteAll(site, e, ModifyWrites(e, goal)) == AfterModify(e, goal)
  {
    ReplacedByNothing(e.attributes);
    ExecuteOne(site, e, Modify(Changes(e, goal)));
  }

  lemma StageRename(site: Site, e: Entry, goal: Goal)
    ensures ExecuteAll(site, e, RenameWrites(site, e, goal)) == AfterRename(site, e, goal)
  {
    ExecuteOne(site, e, Rename(goal.dn, goal.cn));
  }

  lemma StageUac(site: Site, e: Entry, goal: Goal)
    ensures ExecuteAll(site, e, UacWrites(site, e, goal)) == AfterUac(site, e, goal)
  {
    ExecuteOne(site, e, SetUac(WithEnabled(CurrentUac(site, e), goal.enabled)));
  }

  lemma WritesByStage(site: Site, e: Entry, goal: Goal)
    ensures var e1 := AfterModify(e, goal);
      UpdateWrites(site, e, goal)
      == ModifyWrites(e, goal) + RenameWrites(site, e1, goal) + UacWrites(site, AfterRename(site, e1, goal), goal)
  {
    StageModify(site, e, goal);
    StageRename(site, AfterModify(e, goal), goal);
  }

  lemma UpdateWritesReachUpdated(site: Site, e: Entry, goal: Goal)
    ensures ExecuteAll(site, e, UpdateWrites(site, e, goal)) == Updated(site, e, goal)
  {
    var e1 := AfterModify(e, goal);
    var e2 := AfterRename(site, e1, goal);
    WritesByStage(site, e, goal);
    StageModify(site, e, goal);
    StageRename(site, e1, goal);
    StageUac(site, e2, goal);
    ExecuteConcat(site, e, ModifyWrites(e, goal) + RenameWrites(site, e1, goal), UacWrites(site, e2, goal));
    ExecuteConcat(site, e, ModifyWrites(e, goal), RenameWrites(site, e1, goal));
  }

  // ---------------------------------------------------------------- what a finished update leaves

  /** The profile attributes of an entry are as desired: nothing to replace and nothing stale. */
  ghost predicate ProfileSettled(e: Entry, goal: Goal) {
    && (forall n | n in goal.payload :: SameValues(ValuesOf(e, n), goal.payload[n]))
    && (forall n | n in goal.stale :: ValuesOf(e, n) == [])
  }

  lemma SettledIffNoChanges(e: Entry, goal: Goal)
    requires forall n | n in goal.stale :: n !in goal.payload
    ensures ProfileSettled(e, goal) <==> Changes(e, goal) == map[]
  {
    assert forall n | n in goal.payload || n in goal.stale :: Differs(e, goal, n) <==> n in Changes(e, goal);
    assert ProfileSettled(e, goal) <==> forall n | n in goal.payload || n in goal.stale :: !Differs(e, goal, n);
  }

  lemma ModifiedValues(e: Entry, goal: Goal, n: Name)
    ensures ValuesOf(AfterModify(e, goal), n)
      == if !Managed(goal, n) || !Differs(e, goal, n) then ValuesOf(e, n)
         else if n in goal.payload then goal.payload[n] else []
  {
    assert n in Changes(e, goal) <==> Managed(goal, n) && Differs(e, goal, n);
  }

  lemma ModifySettles(e: Entry, goal: Goal)
    requires forall n | n in goal.stale :: n !in goal.payload
    ensures ProfileSettled(AfterModify(e, goal), goal)
    ensures forall n | !Managed(goal, n) :: ValuesOf(AfterModify(e, goal), n) == ValuesOf(e, n)
  {
    forall n ensures Managed(goal, n) || ValuesOf(AfterModify(e, goal), n) == ValuesOf(e, n) {
      ModifiedValues(e, goal, n);
    }
    forall n | n in goal.payload ensures SameValues(ValuesOf(AfterModify(e, goal), n), goal.payload[n]) {
      ModifiedValues(e, goal, n);
    }
    forall n | n in goal.stale ensures ValuesOf(AfterModify(e, goal), n) == [] {
      ModifiedValues(e, goal, n);
    }
  }

  lemma SettledStays(e: Entry, goal: Goal)
    requires ProfileSettled(e, goal) && forall n | n in goal.stale :: n !in goal.payload
    ensures AfterModify(e, goal) == e
  {
    SettledIffNoChanges(e, goal);
    ReplacedByNothing(e.attributes);
  }

  lemma SettledElsewhere(e: Entry, after: Entry, goal: Goal, name: Name)
    requires ProfileSettled(e, goal) && !Managed(goal, name)
    requires forall n | n != name :: ValuesOf(after, n) == ValuesOf(e, n)
    ensures ProfileSettled(after, goal)
  {
  }

  lemma RenameSettles(site: Site, e: Entry, goal: Goal)
    requires ProfileSettled(e, goal) && !Managed(goal, CN)
    ensures var after := AfterRename(site, e, goal);
      && ProfileSettled(after, goal) && DnEquals(site.fold, after.dn, goal.dn) && AfterRename(site, after, goal) == after
      && after.guid == e.guid && (forall n | n != CN :: ValuesOf(after, n) == ValuesOf(e, n))
  {
    SettledElsewhere(e, AfterRename(site, e, goal), goal, CN);
  }

  lemma UacSettles(site: Site, e: Entry, goal: Goal)
    requires WellBehaved(site)
    ensures var after := AfterUac(site, e, goal);
      && CurrentUac(site, after) == WithEnabled(CurrentUac(site, e), goal.enabled)
      && IsEnabled(CurrentUac(site, after)) == goal.enabled
      && OtherBits(CurrentUac(site, after)) == OtherBits(CurrentUac(site, e))
      && AfterUac(site, after, goal) == after
      && after.dn == e.dn && after.guid == e.guid && (forall n | n != UAC :: ValuesOf(after, n) == ValuesOf(e, n))
  {
    SetsOnlyTheBit(CurrentUac(site, e), goal.enabled);
    SetsOnlyTheBit(WithEnabled(CurrentUac(site, e), goal.enabled), goal.enabled);
  }

  /** No mapped or managed name is the attribute of the enabled bit or the naming attribute. */
  predicate AvoidsReserved(goal: Goal) {
    !Managed(goal, UAC) && !Managed(goal, CN) && forall n | n in goal.stale :: n !in goal.payload
  }

  lemma ReservedDiffer()
    ensures UAC != CN
  {
    assert UAC[0] == 'u' && CN[0] == 'c';
  }

  /** The entry at the end: the profile is settled, it is in its place, the bit is right, and another update
      changes nothing. */
  lemma UpdatedIsSettled(site: Site, e: Entry, goal: Goal)
    requires WellBehaved(site) && AvoidsReserved(goal)
    ensures var end := Updated(site, e, goal);
      && ProfileSettled(end, goal) && DnEquals(site.fold, end.dn, goal.dn)
      && IsEnabled(CurrentUac(site, end)) == goal.enabled
      && Updated(site, end, goal) == end
  {
    var e1 := AfterModify(e, goal);
    var e2 := AfterRename(site, e1, goal);
    var end := AfterUac(site, e2, goal);
    ModifySettles(e, goal);
    RenameSettles(site, e1, goal);
    UacSettles(site, e2, goal);
    SettledElsewhere(e2, end, goal, UAC);
    SettledStays(end, goal);
  }

  /** After a successful update the plan is empty, */
  lemma PlanEmptyAfterApply(site: Site, e: Entry, goal: Goal)
    requires WellBehaved(site) && AvoidsReserved(goal)
    ensures PlanFor(site, Updated(site, e, goal), goal) == []
  {
    UpdatedIsSettled(site, e, goal);
    SettledIffNoChanges(Updated(site, e, goal), goal);
  }

  lemma UacReadsThrough(site: Site, e: Entry, goal: Goal)
    requires AvoidsReserved(goal)
    ensures CurrentUac(site, AfterRename(site, AfterModify(e, goal), goal)) == CurrentUac(site, e)
  {
    ReservedDiffer();
    ModifySettles(e, goal);
    RenameSettles(site, AfterModify(e, goal), goal);
  }

  lemma ThreeParts(p: seq<Write>, r: seq<Write>, u: seq<Write>)
    requires (forall w | w in p :: w.Modify?) && (forall w | w in r :: w.Rename?) && (forall w | w in u :: w.SetUac?)
    ensures (exists w :: w in p + r + u && w.Modify?) <==> p != []
    ensures (exists w :: w in p + r + u && w.Rename?) <==> r != []
    ensures (exists w :: w in p + r + u && w.SetUac?) <==> u != []
    ensures p + r + u == [] <==> p == [] && r == [] && u == []
  {
    assert forall w :: w in p + r + u <==> w in p || w in r || w in u;
    assert p != [] ==> p[0] in p + r + u;
    assert r != [] ==> r[0] in p + r + u;
    assert u != [] ==> u[0] in p + r + u;
  }

  lemma PlanParts(site: Site, e: Entry, goal: Goal)
    ensures Move in PlanFor(site, e, goal) <==> !DnEquals(site.fold, e.dn, goal.dn)
    ensures UpdateProfile in PlanFor(site, e, goal) <==> Changes(e, goal) != map[]
    ensures SetEnabled(goal.enabled) in PlanFor(site, e, goal) <==> IsEnabled(CurrentUac(site, e)) != goal.enabled
    ensures PlanFor(site, e, goal) == [] <==>
      DnEquals(site.fold, e.dn, goal.dn) && Changes(e, goal) == map[] && IsEnabled(CurrentUac(site, e)) == goal.enabled
  {
  }

  /** The kinds of the writes of an update, read off the entry before it. */
  lemma WriteKinds(site: Site, e: Entry, goal: Goal)
    requires AvoidsReserved(goal)
    ensures ModifyWrites(e, goal) == [] <==> Changes(e, goal) == map[]
    ensures RenameWrites(site, AfterModify(e, goal), goal) == [] <==> DnEquals(site.fold, e.dn, goal.dn)
    ensures UacWrites(site, AfterRename(site, AfterModify(e, goal), goal), goal) == []
      <==> IsEnabled(CurrentUac(site, e)) == goal.enabled
  {
    UacReadsThrough(site, e, goal);
    SetsOnlyTheBit(CurrentUac(site, e), goal.enabled);
  }

  /** and the plan announces exactly the writes the update makes, kind by kind. */
  lemma PlanMatchesApply(site: Site, e: Entry, goal: Goal)
    requires AvoidsReserved(goal)
    ensures Move in PlanFor(site, e, goal) <==> exists w :: w in UpdateWrites(site, e, goal) && w.Rename?
    ensures UpdateProfile in PlanFor(site, e, goal) <==> exists w :: w in UpdateWrites(site, e, goal) && w.Modify?
    ensures SetEnabled(goal.enabled) in PlanFor(site, e, goal) <==> exists w :: w in UpdateWrites(site, e, goal) && w.SetUac?
    ensures PlanFor(site, e, goal) == [] <==> UpdateWrites(site, e, goal) == []
  {
    var e1 := AfterModify(e, goal);
    var p, r, u := ModifyWrites(e, goal), RenameWrites(site, e1, goal), UacWrites(site, AfterRename(site, e1, goal), goal);
    WritesByStage(site, e, goal);
    ThreeParts(p, r, u);
    WriteKinds(site, e, goal);
    PlanParts(site, e, goal);
  }

  /** Every attribute the target does not manage is untouched, and of the account-control bits only the
      disabling one changes. */
  lemma UnmanagedUntouched(site: Site, e: Entry, goal: Goal)
    requires WellBehaved(site) && AvoidsReserved(goal)
    ensures forall n | !Managed(goal, n) && n != UAC && n != CN :: ValuesOf(Updated(site, e, goal), n) == ValuesOf(e, n)
    ensures OtherBits(CurrentUac(site, Updated(site, e, goal))) == OtherBits(CurrentUac(site, e))
    ensures Updated(site, e, goal).guid == e.guid
  {
    ModifySettles(e, goal);
    RenameSettles(site, AfterModify(e, goal), goal);
    UacReadsThrough(site, e, goal);
    UacSettles(site, AfterRename(site, AfterModify(e, goal), goal), goal);
  }

  // ---------------------------------------------------------------- stopping part way

  /** Stopping after any number of writes leaves the entry at the end of one of the stages. */
  lemma StopsBetweenStages(site: Site, e: Entry, goal: Goal, k: nat)
    requires k <= |UpdateWrites(site, e, goal)|
    ensures var stopped := ExecuteAll(site, e, UpdateWrites(site, e, goal)[..k]);
      || stopped == e || stopped == AfterModify(e, goal)
      || stopped == AfterRename(site, AfterModify(e, goal), goal) || stopped == Updated(site, e, goal)
  {
    var ws, e1 := UpdateWrites(site, e, goal), AfterModify(e, goal);
    WritesByStage(site, e, goal);
    StageModify(site, e, goal);
    StageRename(site, e1, goal);
    UpdateWritesReachUpdated(site, e, goal);
    var p, r := ModifyWrites(e, goal), RenameWrites(site, e1, goal);
    ExecuteConcat(site, e, p, r);
    if k == 0 {
      assert ws[..k] == [];
    } else if k == |ws| {
      assert ws[..k] == ws;
    } else if k == |p| {
      assert ws[..k] == p;
    } else {
      assert ws[..k] == p + r;
    }
  }

  /** If an update stops after any prefix of its writes and is run again, it ends in the same entry as an
      uninterrupted run. */
  lemma InterruptedUpdateConverges(site: Site, e: Entry, goal: Goal, k: nat)
    requires WellBehaved(site) && AvoidsReserved(goal) && k <= |UpdateWrites(site, e, goal)|
    ensures var stopped := ExecuteAll(site, e, UpdateWrites(site, e, goal)[..k]);
      Updated(site, stopped, goal) == Updated(site, e, goal)
  {
    var e1 := AfterModify(e, goal);
    StopsBetweenStages(site, e, goal, k);
    ModifySettles(e, goal);
    SettledStays(e1, goal);
    RenameSettles(site, e1, goal);
    SettledStays(AfterRename(site, e1, goal), goal);
    UpdatedIsSettled(site, e, goal);
  }

  // ---------------------------------------------------------------- the side condition matters

  lemma SingleValue(values: seq<string>, text: string)
    requires SameValues(values, [text])
    ensures values == [text]
  {
    assert |multiset(values)| == |values| && |multiset([text])| == 1;
    assert values[0] in multiset(values);
  }

  /** A mapping onto the account-control attribute itself: after a successful update the plan is empty
      exactly when the mapped value already carries the right bit. */
  lemma MappedUacSettlesIff(site: Site, e: Entry, goal: Goal, text: string)
    requires WellBehaved(site) && !Managed(goal, CN) && (forall n | n in goal.stale :: n !in goal.payload)
    requires UAC in goal.payload && goal.payload[UAC] == [text]
    ensures PlanFor(site, Updated(site, e, goal), goal) == [] <==> IsEnabled(site.uacOf(text)) == goal.enabled
  {
    var e1 := AfterModify(e, goal);
    var e2, end := AfterRename(site, e1, goal), Updated(site, e, goal);
    ModifySettles(e, goal);
    RenameSettles(site, e1, goal);
    SingleValue(ValuesOf(e2, UAC), text);
    SetsOnlyTheBit(CurrentUac(site, e2), goal.enabled);
    UacSettles(site, e2, goal);
    SettledIffNoChanges(end, goal);
    if end != e2 && SameValues(ValuesOf(end, UAC), [text]) {
      SingleValue(ValuesOf(end, UAC), text);
    }
  }

  /** A mapping that carries the word of a disabled account, for somebody who is to be enabled: the attribute
      write and the bit write undo each other, and the plan is never empty. */
  lemma MappedUacNeverSettles(site: Site, e: Entry)
    requires WellBehaved(site) && site.uacOf("514") == 514
    ensures var goal := Goal(map[UAC := ["514"]], {}, e.dn, "", true);
      PlanFor(site, Updated(site, e, goal), goal) != []
  {
    var goal := Goal(map[UAC := ["514"]], {}, e.dn, "", true);
    ReservedDiffer();
    assert !IsEnabled(514);
    MappedUacSettlesIff(site, e, goal, "514");
  }

  // ---------------------------------------------------------------- the connector

  predicate HasName(site: Site, e: Entry, username: string) {
    ValuesOf(e, SAM) != [] && DnEquals(site.fold, ValuesOf(e, SAM)[0], username)
  }

  function FindByGuid(entries: seq<Entry>, guid: Guid): (i: nat)
    ensures i <= |entries| && (i < |entries| ==> entries[i].guid == guid)
    ensures forall k | 0 <= k < i :: entries[k].guid != guid
  {
    if entries == [] || entries[0].guid == guid then 0 else
      assert forall k | 1 <= k < |entries| :: entries[k] == entries[1..][k - 1];
      1 + FindByGuid(entries[1..], guid)
  }

  function FindByName(site: Site, entries: seq<Entry>, username: string): (i: nat)
    ensures i <= |entries| && (i < |entries| ==> HasName(site, entries[i], username))
    ensures forall k | 0 <= k < i :: !HasName(site, entries[k], username)
  {
    if entries == [] || HasName(site, entries[0], username) then 0 else
      assert forall k | 1 <= k < |entries| :: entries[k] == entries[1..][k - 1];
      1 + FindByName(site, entries[1..], username)
  }

  /** The entry by the stored id first, then by account name; past the end if there is none. */
  function FindExisting(site: Site, entries: seq<Entry>, desired: DesiredUser): (i: nat)
    ensures i <= |entries|
  {
    if desired.existingId.Some? && FindByGuid(entries, desired.existingId.value) < |entries|
    then FindByGuid(entries, desired.existingId.value)
    else FindByName(site, entries, desired.username)
  }

  /** The one entry of a create: complete, or not there at all. */
  function NewEntry(site: Site, goal: Goal, guid: Guid): Entry {
    Entry(guid, goal.dn,
      map[CLASS := ["top", "person", "organizationalPerson", "user"], CN := [goal.cn]]
      + goal.payload + map[UAC := [site.uacText(Initial(goal.enabled))]])
  }

  function Created(site: Site, desired: DesiredUser, guid: Guid): Entry {
    NewEntry(site, GoalOf(site, desired), guid)
  }

  /** The directory after the first `k` writes of an apply, or all of them if there are fewer. */
  function AppliedUpTo(site: Site, entries: seq<Entry>, desired: DesiredUser, newGuid: Guid, k: nat): seq<Entry> {
    var i := FindExisting(site, entries, desired);
    if i == |entries| then (if k == 0 then entries else entries + [Created(site, desired, newGuid)])
    else
      var ws := UpdateWrites(site, entries[i], GoalOf(site, desired));
      entries[i := ExecuteAll(site, entries[i], if k < |ws| then ws[..k] else ws)]
  }

  /** The directory after an apply that was not interrupted. */
  function Applied(site: Site, entries: seq<Entry>, desired: DesiredUser, newGuid: Guid): seq<Entry> {
    var i := FindExisting(site, entries, desired);
    if i == |entries| then entries + [Created(site, desired, newGuid)]
    else entries[i := Updated(site, entries[i], GoalOf(site, desired))]
  }

  function Planned(site: Site, entries: seq<Entry>, desired: DesiredUser): seq<Operation> {
    var i := FindExisting(site, entries, desired);
    if i == |entries| then [Create] else PlanFor(site, entries[i], GoalOf(site, desired))
  }

  class Connector {
    const site: Site
    var entries: seq<Entry>

    constructor (s: Site, existing: seq<Entry>)
      ensures site == s && entries == existing
    {
      site, entries := s, existing;
    }

    /** Reads only. */
    method Plan(desired: DesiredUser) returns (ops: seq<Operation>)
      ensures ops == Planned(site, entries, desired)
    {
      var i := FindExisting(site, entries, desired);
      if i == |entries| {
        return [Create];
      }
      ops := PlanExisting(entries[i], GoalOf(site, desired));
    }

    method PlanExisting(e: Entry, goal: Goal) returns (ops: seq<Operation>)
      ensures ops == PlanFor(site, e, goal)
    {
      ops := [];
      if !DnEquals(site.fold, e.dn, goal.dn) {
        ops := ops + [Move];
      }
      if Changes(e, goal) != map[] {
        ops := ops + [UpdateProfile];
      }
      var currentEnabled := IsEnabled(CurrentUac(site, e));
      if currentEnabled != goal.enabled {
        ops := ops + [SetEnabled(goal.enabled)];
      }
    }

    method Apply(desired: DesiredUser, newGuid: Guid) returns (externalId: Guid)
      modifies this
      ensures entries == Applied(site, old(entries), desired, newGuid)
      ensures var i := FindExisting(site, old(entries), desired);
        externalId == if i == |old(entries)| then newGuid else old(entries)[i].guid
    {
      var i := FindExisting(site, entries, desired);
      if i == |entries| {
        entries := entries + [Created(site, desired, newGuid)];
        return newGuid;
      }
      externalId := entries[i].guid;
      Update(i, GoalOf(site, desired));
    }

    /** The three writes in turn, each only if it is needed. */
    method Update(i: nat, goal: Goal)
      requires i < |entries|
      modifies this
      ensures entries == old(entries)[i := Updated(site, old(entries)[i], goal)]
    {
      var changes := Changes(entries[i], goal);
      ReplacedByNothing(entries[i].attributes);
      if changes != map[] {
        entries := entries[i := Execute(site, entries[i], Modify(changes))];
      }
      assert entries == old(entries)[i := AfterModify(old(entries)[i], goal)];
      if !DnEquals(site.fold, entries[i].dn, goal.dn) {
        entries := entries[i := Execute(site, entries[i], Rename(goal.dn, goal.cn))];
      }
      assert entries == old(entries)[i := AfterRename(site, AfterModify(old(entries)[i], goal), goal)];
      SetEnabledPreservingOtherBits(i, goal.enabled);
    }

    method SetEnabledPreservingOtherBits(i: nat, enabled: bool)
      requires i < |entries|
      modifies this
      ensures var current := CurrentUac(site, old(entries)[i]);
        var next := WithEnabled(current, enabled);
        entries == if next == current then old(entries)
                   else old(entries)[i := Execute(site, old(entries)[i], SetUac(next))]
    {
      var current := CurrentUac(site, entries[i]);
      var next := WithEnabled(current, enabled);
      if next != current {
        entries := entries[i := Execute(site, entries[i], SetUac(next))];
      }
    }
  }

  // ---------------------------------------------------------------- the same entry is found again

  lemma CoreName(site: Site, desired: DesiredUser)
    ensures SAM in Payload(site, desired) && Payload(site, desired)[SAM] == [desired.username]
  {
    assert SAM[0] == 's' && SAM[1] == 'A';
    assert "userPrincipalName"[0] == 'u' && "givenName"[0] == 'g' && "mail"[0] == 'm' && "displayName"[0] == 'd';
    assert "sn"[1] == 'n';
  }

  lemma NameSettled(site: Site, e: Entry, desired: DesiredUser)
    requires ProfileSettled(e, GoalOf(site, desired))
    ensures HasName(site, e, desired.username)
  {
    CoreName(site, desired);
    SingleValue(ValuesOf(e, SAM), desired.username);
  }

  /** Rewriting the entry that was found, to one with the same id and, unless it is unchanged, the desired
      account name, does not change which entry is found. */
  lemma FoundAgain(site: Site, entries: seq<Entry>, desired: DesiredUser, e: Entry)
    requires FindExisting(site, entries, desired) < |entries|
    requires var was := entries[FindExisting(site, entries, desired)];
      e.guid == was.guid && (e == was || HasName(site, e, desired.username))
    ensures var i := FindExisting(site, entries, desired);
      FindExisting(site, entries[i := e], desired) == i
  {
    var i := FindExisting(site, entries, desired);
    var after := entries[i := e];
    assert forall k | 0 <= k < |entries| :: after[k].guid == entries[k].guid;
    if desired.existingId.Some? {
      SameGuidFound(entries, after, desired.existingId.value);
    }
    assert forall k | 0 <= k < |entries| && k != i :: after[k] == entries[k];
    var j := FindByName(site, after, desired.username);
  }

  lemma {:induction false} SameGuidFound(a: seq<Entry>, b: seq<Entry>, guid: Guid)
    requires |a| == |b| && forall k | 0 <= k < |a| :: a[k].guid == b[k].guid
    ensures FindByGuid(a, guid) == FindByGuid(b, guid)
  {
    if a != [] && a[0].guid != guid {
      SameGuidFound(a[1..], b[1..], guid);
    }
  }

  lemma StagesNamed(site: Site, e: Entry, desired: DesiredUser, stopped: Entry)
    requires WellBehaved(site) && AvoidsReserved(GoalOf(site, desired))
    requires var goal := GoalOf(site, desired);
      stopped == AfterModify(e, goal) || stopped == AfterRename(site, AfterModify(e, goal), goal)
      || stopped == Updated(site, e, goal)
    ensures stopped.guid == e.guid && HasName(site, stopped, desired.username)
  {
    var goal := GoalOf(site, desired);
    ModifySettles(e, goal);
    RenameSettles(site, AfterModify(e, goal), goal);
    UnmanagedUntouched(site, e, goal);
    UpdatedIsSettled(site, e, goal);
    NameSettled(site, stopped, desired);
  }

  lemma NewEntryProfile(site: Site, goal: Goal, guid: Guid)
    requires AvoidsReserved(goal) && CLASS !in goal.stale
    ensures ProfileSettled(NewEntry(site, goal, guid), goal)
  {
    var e := NewEntry(site, goal, guid);
    forall n | n in goal.payload ensures ValuesOf(e, n) == goal.payload[n] {
    }
    forall n | n in goal.stale ensures ValuesOf(e, n) == [] {
      assert n != UAC && n != CN && n != CLASS;
    }
  }

  /** The created entry is complete: another apply would change nothing. */
  lemma CreatedIsSettled(site: Site, goal: Goal, guid: Guid)
    requires WellBehaved(site) && AvoidsReserved(goal) && CLASS !in goal.stale
    ensures ProfileSettled(NewEntry(site, goal, guid), goal)
    ensures Updated(site, NewEntry(site, goal, guid), goal) == NewEntry(site, goal, guid)
  {
    var e := NewEntry(site, goal, guid);
    NewEntryProfile(site, goal, guid);
    SettledStays(e, goal);
    assert DnEquals(site.fold, e.dn, goal.dn);
    assert ValuesOf(e, UAC) == [site.uacText(Initial(goal.enabled))];
    InitialIsRight(goal.enabled);
    SetsOnlyTheBit(Initial(goal.enabled), goal.enabled);
  }

  lemma {:induction false} GuidStillMissing(entries: seq<Entry>, e: Entry, guid: Guid)
    requires FindByGuid(entries, guid) == |entries| && e.guid != guid
    ensures FindByGuid(entries + [e], guid) == |entries| + 1
  {
    if entries == [] {
      assert entries + [e] == [e] && [e][1..] == [];
    } else {
      assert (entries + [e])[1..] == entries[1..] + [e];
      GuidStillMissing(entries[1..], e, guid);
    }
  }

  lemma {:induction false} NameFoundLast(site: Site, entries: seq<Entry>, e: Entry, username: string)
    requires FindByName(site, entries, username) == |entries| && HasName(site, e, username)
    ensures FindByName(site, entries + [e], username) == |entries|
  {
    if entries == [] {
      assert entries + [e] == [e];
    } else {
      assert (entries + [e])[1..] == entries[1..] + [e];
      NameFoundLast(site, entries[1..], e, username);
    }
  }

  lemma CreatedIsFound(site: Site, entries: seq<Entry>, desired: DesiredUser, newGuid: Guid)
    requires WellBehaved(site) && AvoidsReserved(GoalOf(site, desired)) && CLASS !in GoalOf(site, desired).stale
    requires FindExisting(site, entries, desired) == |entries| && desired.existingId != Some(newGuid)
    ensures FindExisting(site, entries + [Created(site, desired, newGuid)], desired) == |entries|
  {
    var e := Created(site, desired, newGuid);
    CreatedIsSettled(site, GoalOf(site, desired), newGuid);
    NameSettled(site, e, desired);
    NameFoundLast(site, entries, e, desired.username);
    if desired.existingId.Some? {
      GuidStillMissing(entries, e, desired.existingId.value);
    }
  }

  lemma InterruptedCreateConverges(site: Site, entries: seq<Entry>, desired: DesiredUser, newGuid: Guid, again: Guid)
    requires WellBehaved(site) && AvoidsReserved(GoalOf(site, desired)) && CLASS !in GoalOf(site, desired).stale
    requires FindExisting(site, entries, desired) == |entries| && desired.existingId != Some(newGuid)
    ensures Applied(site, entries + [Created(site, desired, newGuid)], desired, again)
         == entries + [Created(site, desired, newGuid)]
  {
    var e := Created(site, desired, newGuid);
    CreatedIsFound(site, entries, desired, newGuid);
    CreatedIsSettled(site, GoalOf(site, desired), newGuid);
    assert (entries + [e])[|entries|] == e && (entries + [e])[|entries| := e] == entries + [e];
  }

  /** The found entry, stopped at any point, is found again and finished. */
  lemma StoppedEntryIsFinished(site: Site, entries: seq<Entry>, desired: DesiredUser, n: nat, again: Guid)
    requires WellBehaved(site) && AvoidsReserved(GoalOf(site, desired))
    requires FindExisting(site, entries, desired) < |entries|
    requires n <= |UpdateWrites(site, entries[FindExisting(site, entries, desired)], GoalOf(site, desired))|
    ensures var i, goal := FindExisting(site, entries, desired), GoalOf(site, desired);
      var stopped := ExecuteAll(site, entries[i], UpdateWrites(site, entries[i], goal)[..n]);
      Applied(site, entries[i := stopped], desired, again) == entries[i := Updated(site, entries[i], goal)]
  {
    var i, goal := FindExisting(site, entries, desired), GoalOf(site, desired);
    var e := entries[i];
    var stopped := ExecuteAll(site, e, UpdateWrites(site, e, goal)[..n]);
    InterruptedUpdateConverges(site, e, goal, n);
    StopsBetweenStages(site, e, goal, n);
    if stopped != e {
      StagesNamed(site, e, desired, stopped);
    }
    FoundAgain(site, entries, desired, stopped);
    assert entries[i := stopped][i := Updated(site, e, goal)] == entries[i := Updated(site, e, goal)];
  }

  /** Whatever the directory and wherever the connection drops, running apply again ends in the directory
      an uninterrupted apply leaves; `again` is the id the directory would give to an entry created then. */
  lemma InterruptedApplyConverges(
    site: Site, entries: seq<Entry>, desired: DesiredUser, newGuid: Guid, k: nat, again: Guid)
    requires WellBehaved(site) && AvoidsReserved(GoalOf(site, desired)) && CLASS !in GoalOf(site, desired).stale
    requires desired.existingId != Some(newGuid)
    requires FindExisting(site, entries, desired) == |entries| && k == 0 ==> again == newGuid
    ensures Applied(site, AppliedUpTo(site, entries, desired, newGuid, k), desired, again)
         == Applied(site, entries, desired, newGuid)
  {
    var i, goal := FindExisting(site, entries, desired), GoalOf(site, desired);
    if i < |entries| {
      var ws := UpdateWrites(site, entries[i], goal);
      assert ws[..|ws|] == ws;
      StoppedEntryIsFinished(site, entries, desired, if k < |ws| then k else |ws|, again);
    } else if k > 0 {
      InterruptedCreateConverges(site, entries, desired, newGuid, again);
    }
  }
}
