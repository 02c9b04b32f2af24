/** One group in Active Directory: its name and place, and its direct members compared without letter case. */
module AdGroup {
  import opened Dn

  datatype Group = Group(guid: string, dn: string, sam: string, members: seq<string>)

  /** Where a group is to be: its DN, its name, and the DNs of its direct members. */
  datatype Goal = Goal(dn: string, name: string, members: seq<string>)

  datatype Write =
    | SetName(name: string)
    | Rename(dn: string)
    | ChangeMembers(added: seq<string>, removed: seq<string>)

  predicate Lists(fold: char -> char, dns: seq<string>, dn: string) {
    exists i | 0 <= i < |dns| :: DnEquals(fold, dns[i], dn)
  }

  /** The DNs that are, or are not, in the other list. */
  function Keep(fold: char -> char, dns: seq<string>, others: seq<string>, listed: bool): (kept: seq<string>)
    ensures forall dn :: dn in kept <==> dn in dns && Lists(fold, others, dn) == listed
  {
    if dns == [] then []
    else
      (if Lists(fold, others, dns[0]) == listed then [dns[0]] else []) + Keep(fold, dns[1..], others, listed)
  }

  function FoldedSet(fold: char -> char, dns: seq<string>): set<string> {
    set dn | dn in dns :: Folded(fold, dn)
  }

  // ---------------------------------------------------------------- plan and writes

  datatype Operation = Create | Move | Membership

  function PlanFor(fold: char -> char, g: Group, goal: Goal): seq<Operation> {
    (if DnEquals(fold, g.dn, goal.dn) then [] else [Move])
    + (if FoldedSet(fold, g.members) == FoldedSet(fold, goal.members) then [] else [Membership])
  }

  function ToAdd(fold: char -> char, g: Group, goal: Goal): seq<string> {
    Keep(fold, goal.members, g.members, false)
  }

  function ToRemove(fold: char -> char, g: Group, goal: Goal): seq<string> {
    Keep(fold, g.members, goal.members, false)
  }

  function Execute(fold: char -> char, g: Group, w: Write): Group {
    match w
    case SetName(name) => g.(sam := name)
    case Rename(dn) => g.(dn := dn)
    case ChangeMembers(added, removed) => g.(members := Keep(fold, g.members, removed, false) + added)
  }

  function ExecuteAll(fold: char -> char, g: Group, ws: seq<Write>): Group {
    if ws == [] then g else Execute(fold, ExecuteAll(fold, g, ws[..|ws| - 1]), ws[|ws| - 1])
  }

  /** A rename writes the account name first, because the DN does not carry it along; members come last. */
  function UpdateWrites(fold: char -> char, g: Group, goal: Goal): seq<Write> {
    (if DnEquals(fold, g.dn, goal.dn) then [] else [SetName(goal.name), Rename(goal.dn)])
    + (if ToAdd(fold, g, goal) == [] && ToRemove(fold, g, goal) == [] then []
       else [ChangeMembers(ToAdd(fold, g, goal), ToRemove(fold, g, goal))])
  }

  /** The group an undisturbed update leaves. */
  function Updated(fold: char -> char, g: Group, goal: Goal): Group {
    var placed := if DnEquals(fold, g.dn, goal.dn) then g else g.(sam := goal.name, dn := goal.dn);
    if ToAdd(fold, g, goal) == [] && ToRemove(fold, g, goal) == [] then placed
    else placed.(members := Keep(fold, g.members, ToRemove(fold, g, goal), false) + ToAdd(fold, g, goal))
  }

  method ApplyUpdate(fold: char -> char, g: Group, goal: Goal) returns (after: Group)
    ensures after == Updated(fold, g, goal)
  {
    after := g;
    if !DnEquals(fold, g.dn, goal.dn) {
      after := Execute(fold, after, SetName(goal.name));
      after := Execute(fold, after, Rename(goal.dn));
    }
    var toAdd := Keep(fold, goal.members, after.members, false);
    var toRemove := Keep(fold, after.members, goal.members, false);
    if toAdd != [] || toRemove != [] {
      after := Execute(fold, after, ChangeMembers(toAdd, toRemove));
    }
  }

  // ---------------------------------------------------------------- membership converges

  lemma FoldedIn(fold: char -> char, dns: seq<string>, dn: string)
    ensures Folded(fold, dn) in FoldedSet(fold, dns) <==> Lists(fold, dns, dn)
  {
    if Folded(fold, dn) in FoldedSet(fold, dns) {
      var d :| d in dns && Folded(fold, d) == Folded(fold, dn);
      var i :| 0 <= i < |dns| && dns[i] == d;
    }
    if Lists(fold, dns, dn) {
      var i :| 0 <= i < |dns| && DnEquals(fold, dns[i], dn);
      assert dns[i] in dns;
    }
  }

  lemma NoneLeftOver(fold: char -> char, dns: seq<string>, others: seq<string>)
    ensures Keep(fold, dns, others, false) == [] <==> FoldedSet(fold, dns) <= FoldedSet(fold, others)
  {
    var left := Keep(fold, dns, others, false);
    if left == [] {
      forall f | f in FoldedSet(fold, dns) ensures f in FoldedSet(fold, others) {
        var dn :| dn in dns && Folded(fold, dn) == f;
        assert dn !in left;
        FoldedIn(fold, others, dn);
      }
    } else {
      var dn := left[0];
      assert dn in left;
      FoldedIn(fold, others, dn);
      assert Folded(fold, dn) in FoldedSet(fold, dns);
    }
  }

  lemma NothingToChangeIffSame(fold: char -> char, g: Group, goal: Goal)
    ensures ToAdd(fold, g, goal) == [] && ToRemove(fold, g, goal) == [] <==>
      FoldedSet(fold, g.members) == FoldedSet(fold, goal.members)
  {
    NoneLeftOver(fold, goal.members, g.members);
    NoneLeftOver(fold, g.members, goal.members);
  }

  lemma ListsSame(fold: char -> char, dns: seq<string>, a: string, b: string)
    requires DnEquals(fold, a, b)
    ensures Lists(fold, dns, a) <==> Lists(fold, dns, b)
  {
    FoldedIn(fold, dns, a);
    FoldedIn(fold, dns, b);
  }

  lemma ListedItself(fold: char -> char, dns: seq<string>, dn: string)
    ensures dn in dns ==> Lists(fold, dns, dn)
  {
    if dn in dns {
      var i :| 0 <= i < |dns| && dns[i] == dn;
    }
  }

  /** After the update the members are the desired ones up to letter case, and every member that was
      already there and is desired is still there as it was written. */
  lemma MembersConverge(fold: char -> char, g: Group, goal: Goal)
    ensures FoldedSet(fold, Updated(fold, g, goal).members) == FoldedSet(fold, goal.members)
    ensures forall dn | dn in g.members && Lists(fold, goal.members, dn) :: dn in Updated(fold, g, goal).members
    ensures forall dn | dn in Updated(fold, g, goal).members && dn !in g.members ::
      dn in goal.members && !Lists(fold, g.members, dn)
  {
    NothingToChangeIffSame(fold, g, goal);
    var add, remove := ToAdd(fold, g, goal), ToRemove(fold, g, goal);
    var kept := Keep(fold, g.members, remove, false);
    forall dn | dn in g.members ensures dn in kept <==> Lists(fold, goal.members, dn) {
      if Lists(fold, remove, dn) {
        var i :| 0 <= i < |remove| && DnEquals(fold, remove[i], dn);
        assert remove[i] in remove;
        ListsSame(fold, goal.members, remove[i], dn);
      }
      ListedItself(fold, remove, dn);
    }
    if add != [] || remove != [] {
      assert Updated(fold, g, goal).members == kept + add;
      forall f | f in FoldedSet(fold, kept + add) ensures f in FoldedSet(fold, goal.members) {
        var dn :| dn in kept + add && Folded(fold, dn) == f;
        FoldedIn(fold, goal.members, dn);
      }
      forall f | f in FoldedSet(fold, goal.members) ensures f in FoldedSet(fold, kept + add) {
        var dn :| dn in goal.members && Folded(fold, dn) == f;
        if Lists(fold, g.members, dn) {
          var i :| 0 <= i < |g.members| && DnEquals(fold, g.members[i], dn);
          assert g.members[i] in g.members;
          FoldedIn(fold, goal.members, g.members[i]);
          FoldedIn(fold, goal.members, dn);
          assert g.members[i] in kept;
        } else {
          assert dn in add;
        }
      }
    }
  }

  /** After an update the plan is empty, and before it the plan is empty exactly when there is nothing to
      write. */
  lemma PlanMatchesApply(fold: char -> char, g: Group, goal: Goal)
    ensures PlanFor(fold, Updated(fold, g, goal), goal) == []
    ensures PlanFor(fold, g, goal) == [] <==> UpdateWrites(fold, g, goal) == []
  {
    MembersConverge(fold, g, goal);
    NothingToChangeIffSame(fold, g, goal);
  }

  /** The account name ends up right exactly when the group was renamed beyond letter case or had that name
      already: a name that differs from its DN only by itself is never repaired. */
  lemma NameReachedIff(fold: char -> char, g: Group, goal: Goal)
    ensures Updated(fold, g, goal).sam == goal.name <==> !DnEquals(fold, g.dn, goal.dn) || g.sam == goal.name
  {
  }

  /** A group in its place under another account name: the plan is empty, and apply leaves the name. */
  lemma MisnamedStaysMisnamed(fold: char -> char)
    ensures var g, goal := Group("id", "CN=staff", "employees", []), Goal("CN=staff", "staff", []);
      PlanFor(fold, g, goal) == [] && Updated(fold, g, goal).sam != goal.name
  {
    var g, goal := Group("id", "CN=staff", "employees", []), Goal("CN=staff", "staff", []);
    NameReachedIff(fold, g, goal);
    assert "employees"[0] != "staff"[0];
  }

  lemma SettledStays(fold: char -> char, g: Group, goal: Goal)
    requires DnEquals(fold, g.dn, goal.dn) && FoldedSet(fold, g.members) == FoldedSet(fold, goal.members)
    ensures Updated(fold, g, goal) == g
  {
    NothingToChangeIffSame(fold, g, goal);
  }

  lemma StopsBetweenStages(fold: char -> char, g: Group, goal: Goal, k: nat)
    requires k <= |UpdateWrites(fold, g, goal)|
    ensures var stopped := ExecuteAll(fold, g, UpdateWrites(fold, g, goal)[..k]);
      || stopped == g || stopped == Updated(fold, g, goal)
      || (!DnEquals(fold, g.dn, goal.dn) && (stopped == g.(sam := goal.name) || stopped == g.(sam := goal.name, dn := goal.dn)))
  {
    var ws := UpdateWrites(fold, g, goal);
    for j := 0 to k
      invariant j == 0 ==> ExecuteAll(fold, g, ws[..j]) == g
      invariant j == 1 ==> ExecuteAll(fold, g, ws[..j]) == Execute(fold, g, ws[0])
      invariant j == 2 ==> ExecuteAll(fold, g, ws[..j]) == Execute(fold, Execute(fold, g, ws[0]), ws[1])
      invariant j == 3 ==> ExecuteAll(fold, g, ws[..j]) == Execute(fold, Execute(fold, Execute(fold, g, ws[0]), ws[1]), ws[2])
    {
      assert ws[..j + 1][..j] == ws[..j] && ws[..j + 1][j] == ws[j];
    }
  }

  lemma RenamedFirst(fold: char -> char, g: Group, goal: Goal)
    requires !DnEquals(fold, g.dn, goal.dn)
    ensures Updated(fold, g.(sam := goal.name), goal) == Updated(fold, g, goal)
    ensures Updated(fold, g.(sam := goal.name, dn := goal.dn), goal) == Updated(fold, g, goal)
  {
    var named, placed := g.(sam := goal.name), g.(sam := goal.name, dn := goal.dn);
    assert ToAdd(fold, named, goal) == ToAdd(fold, g, goal) == ToAdd(fold, placed, goal);
    assert ToRemove(fold, named, goal) == ToRemove(fold, g, goal) == ToRemove(fold, placed, goal);
  }

  /** A group update that stops after any of its writes is finished by the next one. */
  lemma InterruptedUpdateConverges(fold: char -> char, g: Group, goal: Goal, k: nat)
    requires k <= |UpdateWrites(fold, g, goal)|
    ensures Updated(fold, ExecuteAll(fold, g, UpdateWrites(fold, g, goal)[..k]), goal) == Updated(fold, g, goal)
  {
    StopsBetweenStages(fold, g, goal, k);
    MembersConverge(fold, g, goal);
    SettledStays(fold, Updated(fold, g, goal), goal);
    if !DnEquals(fold, g.dn, goal.dn) {
      RenamedFirst(fold, g, goal);
    }
  }
}
