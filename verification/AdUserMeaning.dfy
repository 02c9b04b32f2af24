/**
 * What an apply of one user leaves in Active Directory, attribute by attribute, and what a plan announces, in
 * terms of the desired user.
 */
module AdUserMeaning {
  import opened Common
  import opened AccountControl
  import opened Dn
  import opened AdUser

  /** The attributes every user has whatever is mapped: who they are and how to reach them. */
  const CORE: set<Name> := {"sAMAccountName", "userPrincipalName", "givenName", "sn", "mail", "displayName"}

  lemma CoreNamesDiffer()
    ensures "sAMAccountName" != "userPrincipalName" && "sAMAccountName" != "givenName" && "sAMAccountName" != "sn"
    ensures "sAMAccountName" != "mail" && "sAMAccountName" != "displayName" && "userPrincipalName" != "givenName"
    ensures "userPrincipalName" != "sn" && "userPrincipalName" != "mail" && "userPrincipalName" != "displayName"
    ensures "givenName" != "sn" && "givenName" != "mail" && "givenName" != "displayName" && "sn" != "mail"
    ensures "sn" != "displayName" && "mail" != "displayName"
  {
    assert "sAMAccountName"[0] == 's' && "userPrincipalName"[0] == 'u' && "givenName"[0] == 'g' && "sn"[0] == 's';
    assert "mail"[0] == 'm' && "displayName"[0] == 'd' && "sAMAccountName"[1] == 'A' && "sn"[1] == 'n';
  }

  /** What is to be in the directory: the core attributes from the user, whatever is mapped onto them; every
      other mapped attribute as mapped. */
  lemma PayloadMeaning(site: Site, desired: DesiredUser)
    ensures var payload := GoalOf(site, desired).payload;
      && payload.Keys == CORE + desired.attributes.Keys
      && payload["sAMAccountName"] == [desired.username] && payload["userPrincipalName"] == [desired.email]
      && payload["givenName"] == [desired.firstName] && payload["sn"] == [desired.lastName]
      && payload["mail"] == [desired.email]
      && payload["displayName"] == [site.trim(desired.firstName + " " + desired.lastName)]
      && (forall n | n in desired.attributes && n !in CORE :: payload[n] == desired.attributes[n])
    ensures forall n :: n in GoalOf(site, desired).stale <==>
      n in desired.managed && n !in CORE && n !in desired.attributes
    ensures GoalOf(site, desired).enabled == desired.enabled
  {
    CoreNamesDiffer();
    var core := CoreAttributes(site, desired);
    assert core.Keys == CORE;
  }

  /** The entry holds what the desired user has: each core attribute, each mapped one up to the order of its
      values, none of the managed ones that dropped out, the place and the name, and the enabled bit. */
  ghost predicate Mirrors(site: Site, desired: DesiredUser, e: Entry) {
    && ValuesOf(e, "sAMAccountName") == [desired.username] && ValuesOf(e, "userPrincipalName") == [desired.email]
    && ValuesOf(e, "givenName") == [desired.firstName] && ValuesOf(e, "sn") == [desired.lastName]
    && ValuesOf(e, "mail") == [desired.email]
    && ValuesOf(e, "displayName") == [site.trim(desired.firstName + " " + desired.lastName)]
    && (forall n | n in desired.attributes && n !in CORE ::
          multiset(ValuesOf(e, n)) == multiset(desired.attributes[n]))
    && (forall n | n in desired.managed && n !in CORE && n !in desired.attributes :: ValuesOf(e, n) == [])
    && Folded(site.fold, e.dn) == Folded(site.fold, UserDn(site.base, desired.path, desired.username))
    && ((CurrentUac(site, e) & 2 == 0) <==> desired.enabled)
  }

  lemma SettledMirrors(site: Site, desired: DesiredUser, e: Entry)
    requires var goal := GoalOf(site, desired);
      ProfileSettled(e, goal) && DnEquals(site.fold, e.dn, goal.dn) && IsEnabled(CurrentUac(site, e)) == goal.enabled
    ensures Mirrors(site, desired, e)
  {
    var payload := GoalOf(site, desired).payload;
    PayloadMeaning(site, desired);
    SingleValue(ValuesOf(e, "sAMAccountName"), desired.username);
    SingleValue(ValuesOf(e, "userPrincipalName"), desired.email);
    SingleValue(ValuesOf(e, "givenName"), desired.firstName);
    SingleValue(ValuesOf(e, "sn"), desired.lastName);
    SingleValue(ValuesOf(e, "mail"), desired.email);
    SingleValue(ValuesOf(e, "displayName"), site.trim(desired.firstName + " " + desired.lastName));
    forall n | n in desired.attributes && n !in CORE
      ensures multiset(ValuesOf(e, n)) == multiset(desired.attributes[n])
    {
      assert n in payload && SameValues(ValuesOf(e, n), payload[n]);
    }
  }

  /** After an apply the user's entry mirrors the desired user: the one found, keeping its id, or else a new one,
      complete with its classes, name and account-control word. Every other entry is as it was. */
  lemma AppliedMirrors(site: Site, entries: seq<Entry>, desired: DesiredUser, newGuid: Guid)
    requires WellBehaved(site) && AvoidsReserved(GoalOf(site, desired)) && CLASS !in GoalOf(site, desired).stale
    ensures var i, after := FindExisting(site, entries, desired), Applied(site, entries, desired, newGuid);
      && i < |after| && Mirrors(site, desired, after[i])
      && (i < |entries| ==> |after| == |entries| && after[i].guid == entries[i].guid)
      && (i == |entries| ==> |after| == |entries| + 1 && after[i].guid == newGuid)
      && (forall k | 0 <= k < |entries| && k != i :: after[k] == entries[k])
  {
    var i, goal := FindExisting(site, entries, desired), GoalOf(site, desired);
    if i < |entries| {
      UpdatedMirrors(site, desired, entries[i]);
    } else {
      CreatedMirrors(site, desired, newGuid);
    }
  }

  lemma UpdatedMirrors(site: Site, desired: DesiredUser, e: Entry)
    requires WellBehaved(site) && AvoidsReserved(GoalOf(site, desired))
    ensures var after := Updated(site, e, GoalOf(site, desired)); Mirrors(site, desired, after) && after.guid == e.guid
  {
    UpdatedIsSettled(site, e, GoalOf(site, desired));
    UnmanagedUntouched(site, e, GoalOf(site, desired));
    SettledMirrors(site, desired, Updated(site, e, GoalOf(site, desired)));
  }

  lemma CreatedMirrors(site: Site, desired: DesiredUser, guid: Guid)
    requires WellBehaved(site) && AvoidsReserved(GoalOf(site, desired)) && CLASS !in GoalOf(site, desired).stale
    ensures Mirrors(site, desired, Created(site, desired, guid))
  {
    CreatedIsSettled(site, GoalOf(site, desired), guid);
    InitialIsRight(desired.enabled);
    CreatedWord(site, desired, guid);
    SettledMirrors(site, desired, Created(site, desired, guid));
  }

  lemma CreatedWord(site: Site, desired: DesiredUser, guid: Guid)
    requires WellBehaved(site)
    ensures CurrentUac(site, Created(site, desired, guid)) == Initial(desired.enabled)
  {
  }

  /** A new entry is a normal account that needs no password, disabled unless it is to be enabled; it is a user,
      named after the username. */
  lemma CreatedMeaning(site: Site, desired: DesiredUser, guid: Guid)
    requires WellBehaved(site) && AvoidsReserved(GoalOf(site, desired)) && CLASS !in desired.attributes
    ensures var e := Created(site, desired, guid);
      && e.guid == guid && e.dn == UserDn(site.base, desired.path, desired.username)
      && ValuesOf(e, "objectClass") == ["top", "person", "organizationalPerson", "user"]
      && ValuesOf(e, "cn") == [desired.username]
      && CurrentUac(site, e) == if desired.enabled then 0x220 else 0x222
  {
    var payload := GoalOf(site, desired).payload;
    CreatedWord(site, desired, guid);
    PayloadMeaning(site, desired);
    ClassIsNoCore();
    assert CLASS !in payload && CN !in payload;
  }

  lemma ClassIsNoCore()
    ensures "objectClass" !in CORE && "objectClass" != "cn" && "objectClass" != "userAccountControl"
    ensures "cn" != "userAccountControl"
  {
    assert "objectClass"[0] == 'o' && "cn"[0] == 'c' && "userAccountControl"[0] == 'u';
    assert forall n | n in CORE :: n[0] != 'o';
  }

  /** The plan: a creation exactly when nobody is found; otherwise a move exactly when the entry is elsewhere or
      otherwise named, a profile update exactly when some attribute is not as desired, and a change of the
      enabled bit, to what is desired, exactly when it is wrong. */
  lemma PlanMeaning(site: Site, entries: seq<Entry>, desired: DesiredUser, op: Operation)
    requires AvoidsReserved(GoalOf(site, desired))
    ensures var i, plan := FindExisting(site, entries, desired), Planned(site, entries, desired);
      if i == |entries| then plan == [Create]
      else
        var e := entries[i];
        op in plan <==>
          match op
          case Create => false
          case Move => Folded(site.fold, e.dn) != Folded(site.fold, UserDn(site.base, desired.path, desired.username))
          case UpdateProfile => !ProfileSettled(e, GoalOf(site, desired))
          case SetEnabled(b) => b == desired.enabled && (CurrentUac(site, e) & 2 == 0) != desired.enabled
  {
    var i := FindExisting(site, entries, desired);
    if i < |entries| {
      PlanForMeaning(site, entries[i], GoalOf(site, desired), op);
    }
  }

  lemma PlanForMeaning(site: Site, e: Entry, goal: Goal, op: Operation)
    requires AvoidsReserved(goal)
    ensures op in PlanFor(site, e, goal) <==>
      match op
      case Create => false
      case Move => Folded(site.fold, e.dn) != Folded(site.fold, goal.dn)
      case UpdateProfile => !ProfileSettled(e, goal)
      case SetEnabled(b) => b == goal.enabled && (CurrentUac(site, e) & 2 == 0) != goal.enabled
  {
    PlanParts(site, e, goal);
    SettledIffNoChanges(e, goal);
  }

  /** Whom an apply is about: the first entry with the stored id, if there is one; else the first with the
      account name, compared without letter case; else nobody. */
  lemma FoundMeaning(site: Site, entries: seq<Entry>, desired: DesiredUser)
    ensures var i := FindExisting(site, entries, desired);
      && ((exists k :: 0 <= k < |entries| && desired.existingId == Some(entries[k].guid)) ==>
            && i < |entries| && desired.existingId == Some(entries[i].guid)
            && forall k | 0 <= k < i :: desired.existingId != Some(entries[k].guid))
      && ((forall k | 0 <= k < |entries| :: desired.existingId != Some(entries[k].guid)) ==>
            && (i < |entries| ==> IsNamed(site, entries[i], desired.username))
            && forall k | 0 <= k < i :: !IsNamed(site, entries[k], desired.username))
  {
  }

  predicate IsNamed(site: Site, e: Entry, username: string) {
    |ValuesOf(e, "sAMAccountName")| > 0 && Folded(site.fold, ValuesOf(e, "sAMAccountName")[0]) == Folded(site.fold, username)
  }

  /** An entry that is elsewhere or otherwise named ends up with the username as its naming attribute. */
  lemma MovedIsNamed(site: Site, e: Entry, desired: DesiredUser)
    requires WellBehaved(site) && AvoidsReserved(GoalOf(site, desired))
    requires Folded(site.fold, e.dn) != Folded(site.fold, UserDn(site.base, desired.path, desired.username))
    ensures var after := Updated(site, e, GoalOf(site, desired));
      ValuesOf(after, "cn") == [desired.username] && after.dn == UserDn(site.base, desired.path, desired.username)
  {
    ReservedDiffer();
  }

  /** An entry without an account-control word counts as enabled, if the directory's "0" is zero. */
  lemma NoWordIsEnabled(site: Site, e: Entry)
    requires ValuesOf(e, "userAccountControl") == [] && site.uacOf("0") == 0
    ensures CurrentUac(site, e) == 0 && IsEnabled(CurrentUac(site, e))
  {
  }

  // ---------------------------------------------------------------- where the entry is

  lemma {:induction false} ComponentsAt(kind: string, path: Path, k: nat)
    requires k < |path|
    ensures |Components(kind, path)| == |path| && Components(kind, path)[k] == Rdn(kind, path[|path| - 1 - k])
  {
    ComponentsLength(kind, path);
    if k > 0 {
      ComponentsAt(kind, path[..|path| - 1], k - 1);
    }
  }

  /** The DN of a user reads as the username, under the path's org units from the last to the first, under the
      base. */
  lemma UserDnReads(base: string, path: Path, username: string, k: nat)
    requires ReadDn(base).Some?
    ensures var dn := ReadDn(UserDn(base, path, username));
      && dn.Some? && |dn.value| == 1 + |path| + |ReadDn(base).value|
      && dn.value[0] == Rdn("CN", username)
      && (k < |path| ==> dn.value[1 + k] == Rdn("OU", path[|path| - 1 - k]))
      && dn.value[1 + |path|..] == ReadDn(base).value
  {
    KindsRead();
    OuDnReadsBack("OU", base, path);
    UnderReadsBack("CN", username, OuDn("OU", base, path));
    ComponentsLength("OU", path);
    if k < |path| {
      ComponentsAt("OU", path, k);
    }
    var units, tail := Components("OU", path), ReadDn(base).value;
    assert ([Rdn("CN", username)] + (units + tail))[1 + |path|..] == tail;
  }

  lemma KindsRead()
    ensures IsKind("OU") && IsKind("CN")
  {
  }
}
