/**
 * The two-phase migration of an attribute definition: a preview that walks every holder and digests what
 * it saw, and a commit that re-derives the plan, checks the digest and rewrites each value only if it is
 * still the one that was planned against.
 */
module Migration {
  import opened Common
  import opened Conversion
  import opened MigrationWalk

  const MAX_UNCONVERTIBLE_SAMPLE: nat := 50

  datatype Scope = UserScope | GroupScope

  datatype Definition = Definition(
    id: string, key: Key, dataType: DataType, appliesTo: Scope, sensitive: bool,
    options: Option<seq<string>>, rules: string, defaultValue: Json)

  datatype Change = Change(dataType: Option<DataType>, appliesTo: Option<Scope>)

  datatype Planned = Planned(userId: UserId, before: Json, after: Json)

  datatype Unconvertible = Unconvertible(userId: UserId, value: Json, reason: string)

  // ---------------------------------------------------------------- the digest

  /** What the header of the digest states: the definition, the base and the destination. */
  datatype Header = Header(
    definitionId: string, fromType: DataType, fromScope: Scope, options: Option<seq<string>>,
    toType: DataType, toScope: Scope)

  /** The language's part of the digest: JSON text of the header and of a value, and SHA-256. */
  datatype Digester = Digester(headerText: Header -> string, jsonText: Json -> string, sha: string -> string)

  predicate Plain(s: string) {
    '\0' !in s && '\n' !in s
  }

  /** JSON text determines its value and holds no raw control character; the digest has no collisions. */
  ghost predicate Sound(d: Digester) {
    && (forall a, b :: d.headerText(a) == d.headerText(b) ==> a == b)
    && (forall a, b :: d.jsonText(a) == d.jsonText(b) ==> a == b)
    && (forall a, b :: d.sha(a) == d.sha(b) ==> a == b)
    && (forall h :: Plain(d.headerText(h)))
    && (forall v :: Plain(d.jsonText(v)))
  }

  function HeaderOf(def: Definition, change: Change): Header {
    Header(def.id, def.dataType, def.appliesTo, def.options,
      if change.dataType.Some? then change.dataType.value else def.dataType,
      if change.appliesTo.Some? then change.appliesTo.value else def.appliesTo)
  }

  function Line(d: Digester, h: Holder): string {
    h.userId + ("\0" + (d.jsonText(h.value) + "\n"))
  }

  function Lines(d: Digester, holders: seq<Holder>): string {
    if holders == [] then "" else Line(d, holders[0]) + Lines(d, holders[1..])
  }

  /** The bytes fed to the digest. */
  function Stream(d: Digester, header: Header, holders: seq<Holder>): string {
    d.headerText(header) + ("\n" + Lines(d, holders))
  }

  /** The text before the first `c`, and the text after it. */
  function Cut(s: string, c: char): (string, string) {
    if s == "" then ("", "")
    else if s[0] == c then ("", s[1..])
    else
      var rest := Cut(s[1..], c);
      ([s[0]] + rest.0, rest.1)
  }

  lemma {:induction false} CutAt(s: string, c: char, rest: string)
    requires c !in s
    ensures Cut(s + ([c] + rest), c) == (s, rest)
  {
    if s == "" {
      assert s + ([c] + rest) == [c] + rest;
    } else {
      assert (s + ([c] + rest))[1..] == s[1..] + ([c] + rest);
      CutAt(s[1..], c, rest);
      assert [s[0]] + s[1..] == s;
    }
  }

  lemma LineCuts(d: Digester, h: Holder, rest: string)
    requires Sound(d) && Plain(h.userId)
    ensures var first := Cut(Line(d, h) + rest, '\0');
      first.0 == h.userId && Cut(first.1, '\n') == (d.jsonText(h.value), rest)
  {
    var text := d.jsonText(h.value);
    assert Line(d, h) + rest == h.userId + (['\0'] + (text + (['\n'] + rest)));
    CutAt(h.userId, '\0', text + (['\n'] + rest));
    CutAt(text, '\n', rest);
  }

  lemma NoLinesIffNobody(d: Digester, holders: seq<Holder>)
    ensures Lines(d, holders) == "" <==> holders == []
  {
  }

  lemma {:induction false} LinesDetermineHolders(d: Digester, a: seq<Holder>, b: seq<Holder>)
    requires Sound(d) && Lines(d, a) == Lines(d, b)
    requires (forall h | h in a :: Plain(h.userId)) && (forall h | h in b :: Plain(h.userId))
    ensures a == b
  {
    NoLinesIffNobody(d, a);
    NoLinesIffNobody(d, b);
    if a != [] && b != [] {
      LineCuts(d, a[0], Lines(d, a[1..]));
      LineCuts(d, b[0], Lines(d, b[1..]));
      LinesDetermineHolders(d, a[1..], b[1..]);
      assert a == [a[0]] + a[1..] && b == [b[0]] + b[1..];
    }
  }

  /** The stream can be read back: it determines the header, and every holder with their value, in order. */
  lemma StreamDeterminesInput(d: Digester, h: Header, a: seq<Holder>, h': Header, b: seq<Holder>)
    requires Sound(d) && Stream(d, h, a) == Stream(d, h', b)
    requires (forall x | x in a :: Plain(x.userId)) && (forall x | x in b :: Plain(x.userId))
    ensures h == h' && a == b
  {
    CutAt(d.headerText(h), '\n', Lines(d, a));
    CutAt(d.headerText(h'), '\n', Lines(d, b));
    LinesDetermineHolders(d, a, b);
  }

  // ---------------------------------------------------------------- the plan

  datatype Report = Report(
    populationSize: nat, changedCount: nat, unconvertible: seq<Unconvertible>, tripped: bool, previewHash: string,
    sensitive: bool)

  datatype Plan = Plan(report: Report, changes: seq<Planned>, toType: DataType)

  datatype Refusal =
    | NoSuchDefinition
    | ScopeMoves
    | EmptyChange
    | GroupScoped
    | SensitiveNotReversible
    | HashDoesNotAuthorise
    | HasUnconvertible(count: nat)
    | DefaultUnconvertible
    | RulesDoNotSurvive
    | BlastRadius
    | ValueMoved(key: Key)

  /** The parts of the surroundings a plan depends on: conversion, digest, blast-radius rule, the text of a
      conversion's refusal, and which stored validation rules a data type admits. */
  datatype Env = Env(
    engine: Engine, digester: Digester, trips: (nat, nat) -> bool, explain: Conversion.Refusal -> string,
    rulesFit: (string, DataType) -> bool)

  function OptionsOf(def: Definition): seq<string> {
    if def.options.Some? then def.options.value else []
  }

  function Converted(e: Env, header: Header, value: Json): Result<Json, Conversion.Refusal> {
    ConvertValue(e.engine, value, header.fromType, header.toType,
      if header.options.Some? then header.options.value else [])
  }

  /** What is to be rewritten for one holder. */
  function ChangeFor(e: Env, header: Header, h: Holder): seq<Planned> {
    match Converted(e, header, h.value)
    case Err(_) => []
    case Ok(after) =>
      if header.fromScope == header.toScope && after == h.value then [] else [Planned(h.userId, h.value, after)]
  }

  function TroubleFor(e: Env, header: Header, h: Holder): seq<Unconvertible> {
    match Converted(e, header, h.value)
    case Err(reason) => [Unconvertible(h.userId, h.value, e.explain(reason))]
    case Ok(_) => []
  }

  function ChangesFor(e: Env, header: Header, holders: seq<Holder>): seq<Planned> {
    if holders == [] then []
    else
      var n := |holders| - 1;
      ChangesFor(e, header, holders[..n]) + ChangeFor(e, header, holders[n])
  }

  function TroublesFor(e: Env, header: Header, holders: seq<Holder>): seq<Unconvertible> {
    if holders == [] then []
    else
      var n := |holders| - 1;
      TroublesFor(e, header, holders[..n]) + TroubleFor(e, header, holders[n])
  }

  function PlanOver(e: Env, def: Definition, change: Change, holders: seq<Holder>): Plan {
    var header := HeaderOf(def, change);
    var changes := ChangesFor(e, header, holders);
    Plan(Report(|holders|, |changes|, Sample(TroublesFor(e, header, holders), MAX_UNCONVERTIBLE_SAMPLE),
                e.trips(|changes|, |holders|), e.digester.sha(Stream(e.digester, header, holders)), def.sensitive),
         changes, header.toType)
  }

  function PlanRefusal(def: Option<Definition>, change: Change): Option<Refusal> {
    if change.dataType.None? && change.appliesTo.None? then Some(EmptyChange)
    else if def.None? then Some(NoSuchDefinition)
    else if def.value.appliesTo.GroupScope? then Some(GroupScoped)
    else None
  }

  lemma {:induction false} LinesMore(d: Digester, holders: seq<Holder>, h: Holder)
    ensures Lines(d, holders + [h]) == Lines(d, holders) + Line(d, h)
  {
    if holders == [] {
      assert holders + [h] == [h] && [h][1..] == [];
    } else {
      LinesMore(d, holders[1..], h);
      assert (holders + [h])[1..] == holders[1..] + [h];
    }
  }

  /** One holder: a conversion that fails goes to the sample, one that changes the value to the changes. */
  method NoteHolder(
    e: Env, header: Header, holder: Holder, sample: seq<Unconvertible>, planned: seq<Planned>, ghost troubles: seq<Unconvertible>)
    returns (unconvertible: seq<Unconvertible>, changes: seq<Planned>)
    requires sample == Sample(troubles, MAX_UNCONVERTIBLE_SAMPLE)
    ensures unconvertible == Sample(troubles + TroubleFor(e, header, holder), MAX_UNCONVERTIBLE_SAMPLE)
    ensures changes == planned + ChangeFor(e, header, holder)
  {
    var scopeMoves := header.toScope != header.fromScope;
    var conversion := Converted(e, header, holder.value);
    unconvertible, changes := sample, planned;
    if conversion.Err? {
      var entry := Unconvertible(holder.userId, holder.value, e.explain(conversion.error));
      SampleMore(troubles, entry, MAX_UNCONVERTIBLE_SAMPLE);
      if |unconvertible| < MAX_UNCONVERTIBLE_SAMPLE {
        unconvertible := unconvertible + [entry];
      }
      return;
    }
    assert troubles + [] == troubles;
    if !scopeMoves && conversion.value == holder.value {
      return;
    }
    changes := changes + [Planned(holder.userId, holder.value, conversion.value)];
  }

  /** One pass over the holders: counters, bounded sample, changes and the running digest. */
  method PlanWalk(e: Env, def: Definition, change: Change, holders: seq<Holder>) returns (plan: Plan)
    ensures plan == PlanOver(e, def, change, holders)
  {
    var header := HeaderOf(def, change);
    var fed := "";
    var unconvertible: seq<Unconvertible>, changes: seq<Planned> := [], [];
    var populationSize := 0;
    for i := 0 to |holders|
      invariant populationSize == i
      invariant fed == Lines(e.digester, holders[..i])
      invariant unconvertible == Sample(TroublesFor(e, header, holders[..i]), MAX_UNCONVERTIBLE_SAMPLE)
      invariant changes == ChangesFor(e, header, holders[..i])
    {
      assert holders[..i + 1] == holders[..i] + [holders[i]] && holders[..i + 1][..i] == holders[..i];
      LinesMore(e.digester, holders[..i], holders[i]);
      populationSize := populationSize + 1;
      fed := fed + Line(e.digester, holders[i]);
      unconvertible, changes :=
        NoteHolder(e, header, holders[i], unconvertible, changes, TroublesFor(e, header, holders[..i]));
    }
    assert holders[..|holders|] == holders;
    var digest := e.digester.sha(e.digester.headerText(header) + ("\n" + fed));
    plan := Plan(Report(populationSize, |changes|, unconvertible, e.trips(|changes|, populationSize), digest, def.sensitive),
      changes, header.toType);
  }

  const REDACTED_VALUE: Json := JStr("[redacted: sensitive attribute]")
  const REDACTED_REASON := "redacted: this definition is marked sensitive"

  function Redacted(r: Report): Report {
    r.(unconvertible := seq(|r.unconvertible|, i requires 0 <= i < |r.unconvertible| =>
      Unconvertible(r.unconvertible[i].userId, REDACTED_VALUE, REDACTED_REASON)))
  }

  /** The preview writes nothing; for a sensitive definition it also shows nothing stored. */
  method Preview(e: Env, rank: UserId -> int, defs: map<string, Definition>, id: string, change: Change,
                 views: seq<seq<Row>>)
    returns (r: Result<Report, Refusal>)
    requires AllInIdOrder(rank, views)
    ensures match PlanRefusal(if id in defs then Some(defs[id]) else None, change)
      case Some(refusal) => r == Err(refusal)
      case None =>
        var report := PlanOver(e, defs[id], change, HoldersSeen(rank, views, defs[id].key)).report;
        r == Ok(if defs[id].sensitive then Redacted(report) else report)
  {
    if change.dataType.None? && change.appliesTo.None? {
      return Err(EmptyChange);
    }
    if id !in defs {
      return Err(NoSuchDefinition);
    }
    if defs[id].appliesTo.GroupScope? {
      return Err(GroupScoped);
    }
    QueriesArePaged(rank, views, defs[id].key, PAGE_SIZE);
    var holders := WalkHolders(rank, Queries(rank, views, defs[id].key), |views|, PAGE_SIZE);
    var plan := PlanWalk(e, defs[id], change, holders);
    r := Ok(if defs[id].sensitive then Redacted(plan.report) else plan.report);
  }

  /** A preview of a sensitive definition keeps every count, the holders' ids and the hash, and carries
      none of the values. */
  lemma PreviewOfSensitiveShowsNoValue(r: Report)
    ensures Redacted(r).populationSize == r.populationSize && Redacted(r).changedCount == r.changedCount
    ensures Redacted(r).tripped == r.tripped && Redacted(r).previewHash == r.previewHash
    ensures |Redacted(r).unconvertible| == |r.unconvertible|
    ensures forall i | 0 <= i < |r.unconvertible| ::
      Redacted(r).unconvertible[i] == Unconvertible(r.unconvertible[i].userId, REDACTED_VALUE, REDACTED_REASON)
  {
  }

  // ---------------------------------------------------------------- what the hash authorises

  /** A commit whose plan has the previewed hash has the previewed population, changes, refusals and blast
      radius: the report and the changes are the ones that were approved, but for the sensitive flag. */
  lemma HashAuthorisesThisPlan(
    e: Env, def: Definition, change: Change, holders: seq<Holder>, def': Definition, change': Change, holders': seq<Holder>)
    requires Sound(e.digester)
    requires (forall x | x in holders :: Plain(x.userId)) && (forall x | x in holders' :: Plain(x.userId))
    requires PlanOver(e, def, change, holders).report.previewHash == PlanOver(e, def', change', holders').report.previewHash
    ensures holders == holders' && HeaderOf(def, change) == HeaderOf(def', change')
    ensures PlanOver(e, def, change, holders).changes == PlanOver(e, def', change', holders').changes
    ensures PlanOver(e, def, change, holders).toType == PlanOver(e, def', change', holders').toType
    ensures PlanOver(e, def, change, holders).report.(sensitive := def'.sensitive)
         == PlanOver(e, def', change', holders').report
  {
    StreamDeterminesInput(e.digester, HeaderOf(def, change), holders, HeaderOf(def', change'), holders');
  }

  /** The flag is not covered: turning it on between preview and commit leaves the hash as it is. */
  lemma HashIgnoresSensitive(e: Env, def: Definition, change: Change, holders: seq<Holder>, flag: bool)
    ensures PlanOver(e, def.(sensitive := flag), change, holders).report.previewHash
         == PlanOver(e, def, change, holders).report.previewHash
  {
  }

  // ---------------------------------------------------------------- the guards of a commit

  predicate AllReversible(e: Env, def: Definition, toType: DataType, changes: seq<Planned>) {
    forall i | 0 <= i < |changes| ::
      IsReversibleConversion(e.engine, changes[i].before, def.dataType, toType, OptionsOf(def))
  }

  function ConvertedDefault(e: Env, def: Definition, toType: DataType): Result<Json, Conversion.Refusal> {
    if def.defaultValue.JNull? then Ok(JNull)
    else ConvertValue(e.engine, def.defaultValue, def.dataType, toType, OptionsOf(def))
  }

  /** Why a commit refuses before it writes, in the order it asks. `force` answers only the last. */
  function CommitRefusal(
    e: Env, def: Option<Definition>, change: Change, holders: seq<Holder>, previewHash: string, force: bool): Option<Refusal>
  {
    if def.None? then Some(NoSuchDefinition)
    else if change.appliesTo.Some? && change.appliesTo.value != def.value.appliesTo then Some(ScopeMoves)
    else
      match PlanRefusal(def, change)
      case Some(refusal) => Some(refusal)
      case None =>
        var plan := PlanOver(e, def.value, change, holders);
        if def.value.sensitive && !AllReversible(e, def.value, plan.toType, plan.changes) then Some(SensitiveNotReversible)
        else if plan.report.previewHash != previewHash then Some(HashDoesNotAuthorise)
        else if plan.report.unconvertible != [] then Some(HasUnconvertible(|plan.report.unconvertible|))
        else if ConvertedDefault(e, def.value, plan.toType).Err? then Some(DefaultUnconvertible)
        else if !e.rulesFit(def.value.rules, plan.toType) then Some(RulesDoNotSurvive)
        else if plan.report.tripped && !force then Some(BlastRadius)
        else None
  }

  /** The sensitive flag is exactly what an approved preview does not settle: with everything else as it
      was, turning it on makes the commit refuse if and only if some change cannot be undone by converting
      back. */
  lemma SensitiveRefusesIffNotReversible(
    e: Env, def: Definition, change: Change, holders: seq<Holder>, previewHash: string, force: bool)
    requires !def.sensitive && CommitRefusal(e, Some(def), change, holders, previewHash, force) == None
    ensures var plan := PlanOver(e, def, change, holders);
      CommitRefusal(e, Some(def.(sensitive := true)), change, holders, previewHash, force)
      == if AllReversible(e, def, plan.toType, plan.changes) then None else Some(SensitiveNotReversible)
  {
    var on := def.(sensitive := true);
    assert HeaderOf(on, change) == HeaderOf(def, change) && OptionsOf(on) == OptionsOf(def);
    assert ConvertedDefault(e, on, HeaderOf(def, change).toType) == ConvertedDefault(e, def, HeaderOf(def, change).toType);
  }

  lemma SplitsAtLast(holders: seq<Holder>)
    requires holders != []
    ensures forall h :: h in holders <==> h in holders[..|holders| - 1] || h == holders[|holders| - 1]
  {
  }

  lemma {:induction false} NoTroubleMeansAllConvert(e: Env, header: Header, holders: seq<Holder>)
    ensures TroublesFor(e, header, holders) == [] <==> forall h | h in holders :: Converted(e, header, h.value).Ok?
  {
    if holders != [] {
      var n := |holders| - 1;
      NoTroubleMeansAllConvert(e, header, holders[..n]);
      SplitsAtLast(holders);
    }
  }

  lemma {:induction false} ChangesAreConversions(e: Env, header: Header, holders: seq<Holder>, p: Planned)
    ensures p in ChangesFor(e, header, holders) <==> exists h :: h in holders && p in ChangeFor(e, header, h)
  {
    if holders != [] {
      var n := |holders| - 1;
      ChangesAreConversions(e, header, holders[..n], p);
      SplitsAtLast(holders);
    }
  }
}
