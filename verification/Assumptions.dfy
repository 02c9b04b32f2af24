/**
 * The models take library functions as parameters and state what they rely on. Here each such
 * assumption is met by concrete functions, so that none of them is empty. JSON text
 * is stood in for by the numbers of a self-delimiting code, written out in decimal.
 */
module Assumptions {
  import opened Common
  import opened Decimal
  import opened Calendar
  import opened Conversion
  import opened Evaluator
  import Migration
  import DraftHash
  import Miner
  import Dn
  import AdUser
  import KeyLockProtocol
  import KeyLockDeadlock

  // ---------------------------------------------------------------- a self-delimiting code

  function TextCode(s: string): (code: seq<int>)
    ensures code != []
  {
    [|s|] + seq(|s|, i requires 0 <= i < |s| => s[i] as int)
  }

  function Code(v: Json): (code: seq<int>)
    ensures code != []
    decreases v
  {
    match v
    case JNull => [0]
    case JBool(b) => [if b then 2 else 1]
    case JNum(n) => [3, n.place]
    case JStr(s) => [4] + TextCode(s)
    case JArr(items) => [5] + ItemCodes(items)
    case JObj(members) => [6] + MemberCodes(members)
  }

  /** The items of an array, each after a marker, up to a closing zero. */
  function ItemCodes(items: seq<Json>): (code: seq<int>)
    ensures code != []
    decreases items
  {
    if items == [] then [0] else [1] + (Code(items[0]) + ItemCodes(items[1..]))
  }

  function MemberCode(member: (string, Json)): seq<int>
    decreases member
  {
    TextCode(member.0) + Code(member.1)
  }

  function MemberCodes(members: seq<(string, Json)>): (code: seq<int>)
    ensures code != []
    decreases members
  {
    if members == [] then [0] else [1] + (MemberCode(members[0]) + MemberCodes(members[1..]))
  }

  lemma AfterMarker(k: int, a: seq<int>, x: seq<int>, j: int, b: seq<int>, y: seq<int>)
    requires [k] + a + x == [j] + b + y
    ensures k == j && a + x == b + y
  {
    assert ([k] + a + x)[0] == k && ([j] + b + y)[0] == j;
    assert ([k] + a + x)[1..] == a + x && ([j] + b + y)[1..] == b + y;
  }

  lemma Regrouped(a: seq<int>, b: seq<int>, x: seq<int>)
    ensures a + b + x == a + (b + x)
  {
  }

  lemma TextCodeUnique(s: string, x: seq<int>, t: string, y: seq<int>)
    requires TextCode(s) + x == TextCode(t) + y
    ensures s == t && x == y
  {
    var l, r := TextCode(s) + x, TextCode(t) + y;
    assert l[0] == |s| && r[0] == |t|;
    forall i | 0 <= i < |s|
      ensures s[i] == t[i]
    {
      assert l[i + 1] == s[i] as int && r[i + 1] == t[i] as int;
    }
    assert l[|s| + 1..] == x && r[|t| + 1..] == y;
  }

  lemma {:induction false} CodeUnique(v: Json, x: seq<int>, w: Json, y: seq<int>)
    requires Code(v) + x == Code(w) + y
    ensures v == w && x == y
    decreases v
  {
    assert (Code(v) + x)[0] == Code(v)[0] && (Code(w) + y)[0] == Code(w)[0];
    match v
    case JNull | JBool(_) =>
      assert (Code(v) + x)[1..] == x && (Code(w) + y)[1..] == y;
    case JNum(n) =>
      assert (Code(v) + x)[1] == n.place && (Code(w) + y)[1] == w.n.place;
      assert (Code(v) + x)[2..] == x && (Code(w) + y)[2..] == y;
    case JStr(s) =>
      AfterMarker(4, TextCode(s), x, 4, TextCode(w.s), y);
      TextCodeUnique(s, x, w.s, y);
    case JArr(items) =>
      AfterMarker(5, ItemCodes(items), x, 5, ItemCodes(w.items), y);
      ItemCodesUnique(items, x, w.items, y);
    case JObj(members) =>
      AfterMarker(6, MemberCodes(members), x, 6, MemberCodes(w.members), y);
      MemberCodesUnique(members, x, w.members, y);
  }

  lemma {:induction false} ItemCodesUnique(a: seq<Json>, x: seq<int>, b: seq<Json>, y: seq<int>)
    requires ItemCodes(a) + x == ItemCodes(b) + y
    ensures a == b && x == y
    decreases a
  {
    assert (ItemCodes(a) + x)[0] == ItemCodes(a)[0] && (ItemCodes(b) + y)[0] == ItemCodes(b)[0];
    if a == [] {
      assert (ItemCodes(a) + x)[1..] == x && (ItemCodes(b) + y)[1..] == y;
    } else {
      var restA, restB := ItemCodes(a[1..]), ItemCodes(b[1..]);
      AfterMarker(1, Code(a[0]) + restA, x, 1, Code(b[0]) + restB, y);
      Regrouped(Code(a[0]), restA, x);
      Regrouped(Code(b[0]), restB, y);
      CodeUnique(a[0], restA + x, b[0], restB + y);
      ItemCodesUnique(a[1..], x, b[1..], y);
    }
  }

  lemma {:induction false} MemberCodeUnique(m: (string, Json), x: seq<int>, n: (string, Json), y: seq<int>)
    requires MemberCode(m) + x == MemberCode(n) + y
    ensures m == n && x == y
    decreases m
  {
    Regrouped(TextCode(m.0), Code(m.1), x);
    Regrouped(TextCode(n.0), Code(n.1), y);
    TextCodeUnique(m.0, Code(m.1) + x, n.0, Code(n.1) + y);
    CodeUnique(m.1, x, n.1, y);
  }

  lemma {:induction false} MemberCodesUnique(
      a: seq<(string, Json)>, x: seq<int>, b: seq<(string, Json)>, y: seq<int>)
    requires MemberCodes(a) + x == MemberCodes(b) + y
    ensures a == b && x == y
    decreases a
  {
    assert (MemberCodes(a) + x)[0] == MemberCodes(a)[0] && (MemberCodes(b) + y)[0] == MemberCodes(b)[0];
    if a == [] {
      assert (MemberCodes(a) + x)[1..] == x && (MemberCodes(b) + y)[1..] == y;
    } else {
      var restA, restB := MemberCodes(a[1..]), MemberCodes(b[1..]);
      AfterMarker(1, MemberCode(a[0]) + restA, x, 1, MemberCode(b[0]) + restB, y);
      Regrouped(MemberCode(a[0]), restA, x);
      Regrouped(MemberCode(b[0]), restB, y);
      MemberCodeUnique(a[0], restA + x, b[0], restB + y);
      MemberCodesUnique(a[1..], x, b[1..], y);
    }
  }

  // ---------------------------------------------------------------- as text

  predicate IsCodeChar(c: char) {
    IsDigit(c) || c == '-' || c == ','
  }

  function Absolute(k: int): nat {
    if k < 0 then -k else k
  }

  function IntText(k: int): string {
    (if k < 0 then "-" else "") + Written(Absolute(k))
  }

  function CodeText(code: seq<int>): (text: string)
    ensures forall c | c in text :: IsCodeChar(c)
  {
    if code == [] then "" else IntText(code[0]) + ("," + CodeText(code[1..]))
  }

  lemma IntTextUnique(k: int, x: string, j: int, y: string)
    requires IntText(k) + ("," + x) == IntText(j) + ("," + y)
    ensures k == j && x == y
  {
    SignOf(k, x);
    SignOf(j, y);
    DigitsUnique(Written(Absolute(k)), x, Written(Absolute(j)), y);
  }

  /** The first character tells the sign; what follows it are the digits. */
  lemma SignOf(k: int, x: string)
    ensures var s := IntText(k) + ("," + x);
      && (s[0] == '-' <==> k < 0)
      && (if k < 0 then s[1..] else s) == Written(Absolute(k)) + ("," + x)
  {
    var a := Written(Absolute(k));
    assert IsDigit(a[0]);
    assert (IntText(k) + ("," + x))[0] == if k < 0 then '-' else a[0];
    if k < 0 {
      assert IntText(k) + ("," + x) == "-" + (a + ("," + x));
      assert ("-" + (a + ("," + x)))[1..] == a + ("," + x);
    } else {
      assert IntText(k) == a;
    }
  }

  lemma DigitsUnique(a: string, x: string, b: string, y: string)
    requires AllDigits(a) && AllDigits(b) && a + ("," + x) == b + ("," + y)
    ensures a == b && x == y
  {
    RunOfDigits(a, "," + x);
    RunOfDigits(b, "," + y);
    assert ("," + x)[1..] == x && ("," + y)[1..] == y;
  }

  lemma IntTextInjective(k: int, j: int)
    requires IntText(k) == IntText(j)
    ensures k == j
  {
    IntTextUnique(k, "", j, "");
  }

  lemma {:induction false} CodeTextInjective(a: seq<int>, b: seq<int>)
    requires CodeText(a) == CodeText(b)
    ensures a == b
  {
    if a != [] && b != [] {
      IntTextUnique(a[0], CodeText(a[1..]), b[0], CodeText(b[1..]));
      CodeTextInjective(a[1..], b[1..]);
    }
  }

  function JsonText(v: Json): string {
    CodeText(Code(v))
  }

  lemma JsonTextInjective(v: Json, w: Json)
    requires JsonText(v) == JsonText(w)
    ensures v == w
  {
    CodeTextInjective(Code(v), Code(w));
    assert Code(v) + [] == Code(v) && Code(w) + [] == Code(w);
    CodeUnique(v, [], w, []);
  }

  lemma JsonTextPlain(v: Json)
    ensures Migration.Plain(JsonText(v))
  {
    assert !IsCodeChar('\0') && !IsCodeChar('\n');
  }

  // ---------------------------------------------------------------- values as JSON

  function Strings(list: seq<string>): Json {
    JArr(seq(|list|, i requires 0 <= i < |list| => JStr(list[i])))
  }

  lemma StringsInjective(a: seq<string>, b: seq<string>)
    requires Strings(a) == Strings(b)
    ensures a == b
  {
    assert |a| == |Strings(a).items| == |Strings(b).items| == |b|;
    forall i | 0 <= i < |a|
      ensures a[i] == b[i]
    {
      assert Strings(a).items[i] == JStr(a[i]) && Strings(b).items[i] == JStr(b[i]);
    }
  }

  function Maybe(s: Option<string>): Json {
    if s.Some? then JStr(s.value) else JNull
  }

  function ConditionJson(c: Condition): Json {
    JArr([JStr(c.field), JStr(c.operator), c.value])
  }

  function GrantJson(g: Grant): Json {
    match g
    case GroupGrant(id) => JArr([JBool(true), Maybe(id)])
    case TargetGrant(target) => JArr([JBool(false), Maybe(target)])
  }

  function TypeJson(t: DataType): Json {
    match t
    case StringType => JStr("string")
    case NumberType => JStr("number")
    case BooleanType => JStr("boolean")
    case DateType => JStr("date")
    case EnumType => JStr("enum")
  }

  function HeaderJson(h: Migration.Header): Json {
    JArr([JStr(h.definitionId), TypeJson(h.fromType), JBool(h.fromScope.UserScope?),
          if h.options.Some? then Strings(h.options.value) else JNull,
          TypeJson(h.toType), JBool(h.toScope.UserScope?)])
  }

  lemma ConditionTextInjective(a: Condition, b: Condition)
    requires JsonText(ConditionJson(a)) == JsonText(ConditionJson(b))
    ensures a == b
  {
    JsonTextInjective(ConditionJson(a), ConditionJson(b));
    var l, r := ConditionJson(a).items, ConditionJson(b).items;
    assert l[0] == r[0] && l[1] == r[1] && l[2] == r[2];
  }

  lemma GrantTextInjective(a: Grant, b: Grant)
    requires JsonText(GrantJson(a)) == JsonText(GrantJson(b))
    ensures a == b
  {
    JsonTextInjective(GrantJson(a), GrantJson(b));
    var l, r := GrantJson(a).items, GrantJson(b).items;
    assert l[0] == r[0] && l[1] == r[1];
  }

  lemma HeaderTextInjective(a: Migration.Header, b: Migration.Header)
    requires JsonText(HeaderJson(a)) == JsonText(HeaderJson(b))
    ensures a == b
  {
    JsonTextInjective(HeaderJson(a), HeaderJson(b));
    var l, r := HeaderJson(a).items, HeaderJson(b).items;
    assert l[0] == r[0] && l[1] == r[1] && l[2] == r[2] && l[3] == r[3] && l[4] == r[4] && l[5] == r[5];
    if a.options.Some? && b.options.Some? {
      StringsInjective(a.options.value, b.options.value);
    }
  }

  function Digest(a: seq<string>, b: seq<string>): string {
    JsonText(JArr([Strings(a), Strings(b)]))
  }

  lemma DigestInjective(a: seq<string>, b: seq<string>, c: seq<string>, d: seq<string>)
    requires Digest(a, b) == Digest(c, d)
    ensures a == c && b == d
  {
    var l, r := [Strings(a), Strings(b)], [Strings(c), Strings(d)];
    JsonTextInjective(JArr(l), JArr(r));
    assert l[0] == r[0] && l[1] == r[1];
    StringsInjective(a, c);
    StringsInjective(b, d);
  }

  // ---------------------------------------------------------------- the assumptions are met

  lemma DigesterExists() returns (d: Migration.Digester)
    ensures Migration.Sound(d)
  {
    d := Migration.Digester(h => JsonText(HeaderJson(h)), JsonText, (s: string) => s);
    forall a, b | d.headerText(a) == d.headerText(b) ensures a == b { HeaderTextInjective(a, b); }
    forall a, b | d.jsonText(a) == d.jsonText(b) ensures a == b { JsonTextInjective(a, b); }
    forall h ensures Migration.Plain(d.headerText(h)) { JsonTextPlain(HeaderJson(h)); }
    forall v ensures Migration.Plain(d.jsonText(v)) { JsonTextPlain(v); }
  }

  lemma EncodingExists() returns (e: DraftHash.Encoding)
    ensures DraftHash.Injective(e)
  {
    e := DraftHash.Encoding(c => JsonText(ConditionJson(c)), g => JsonText(GrantJson(g)), Digest);
    forall a, b | e.condition(a) == e.condition(b) ensures a == b { ConditionTextInjective(a, b); }
    forall a, b | e.grant(a) == e.grant(b) ensures a == b { GrantTextInjective(a, b); }
    forall c, g, c', g' | e.digest(c, g) == e.digest(c', g') ensures c == c' && g == g' {
      DigestInjective(c, g, c', g');
    }
  }

  lemma KeyExists() returns (keyOf: Miner.KeyOf)
    ensures Miner.Injective(keyOf)
  {
    keyOf := c => JsonText(ConditionJson(c));
    forall a, b | keyOf(a) == keyOf(b) ensures a == b { ConditionTextInjective(a, b); }
  }

  /** Rounding that merges the two integers next to 2^53, like that of doubles. */
  function RoundedDown(k: int): int {
    if k == MAX_SAFE + 1 then MAX_SAFE else k
  }

  /** A language that writes every number as an integer and reads the integers it has written. */
  lemma EngineExists() returns (e: Engine)
    ensures Ieee(e.doubles) && e.doubles.round(MAX_SAFE + 1) == MAX_SAFE && ParsesDates(e)
    ensures forall n :: IsPlainDecimal(e.textOf(n)) && e.numberOf(e.textOf(n)) == Some(n)
  {
    e := Engine(
      (s: string) => if IsInteger(s) then Some(Double(IntegerValue(s))) else None,
      (n: Double) => IntText(n.place), Doubles(RoundedDown, IntText), (s: string) => true,
      (y: int, m: int, d: int) => Some(MakeDay(y, m - 1, d)));
    forall a, b | e.doubles.show(a) == e.doubles.show(b) ensures a == b { IntTextInjective(a, b); }
    forall n ensures IsPlainDecimal(e.textOf(n)) && e.numberOf(e.textOf(n)) == Some(n) { IntTextReads(n.place); }
  }

  lemma IntTextReads(k: int)
    ensures IsPlainDecimal(IntText(k)) && IsInteger(IntText(k)) && IntegerValue(IntText(k)) == k
  {
    var digits := Written(Absolute(k));
    var p := Spelling(if k < 0 then "-" else "", digits, None, "");
    assert digits + "" == digits;
    assert Spelled(p) == IntText(k);
    ReadsWhatIsSpelled(p);
    SignSplits(p.sign, digits);
    if k < 0 {
      assert IntText(k)[0] == '-';
    } else {
      assert IntText(k)[0] == digits[0];
    }
  }

  lemma BaseReads()
    ensures Dn.ReadDn("DC=a") == Some([Dn.Rdn("DC", "a")])
  {
    assert "DC=a" == "DC" + ("=" + "a") && "a" == Dn.Escaped("a") + "";
    Dn.ReadsKind("DC", "a");
    Dn.EscapedReadsBack("a", "");
  }

  /** A domain whose base parses, with case folding and numbers as text. */
  lemma SiteExists() returns (site: AdUser.Site)
    ensures AdUser.WellBehaved(site) && Dn.IsCaseFold(site.fold) && Dn.ReadDn(site.base).Some?
  {
    var base := "DC=a";
    BaseReads();
    site := AdUser.Site(
      base, (c: char) => c, (s: string) => s,
      (s: string) => if IsInteger(s) && 0 <= IntegerValue(s) < 0x1_0000_0000 then IntegerValue(s) as bv32 else 0,
      (b: bv32) => IntText(b as int));
    forall b
      ensures site.uacOf(site.uacText(b)) == b
    {
      IntTextReads(b as int);
    }
  }

  // ---------------------------------------------------------------- lock ids of 32 bits

  /** Keys told apart by their length, up to nine; the lengths `twice` and `again` share a lock id. */
  function ByLength(twice: nat, again: nat): KeyLockProtocol.Config {
    KeyLockProtocol.Config(
      (k: string) => if |k| == again then twice else if |k| < 10 then |k| else 0, (k: string) => |k|, (k: string) => |k|,
      false)
  }

  lemma LengthsOrder(cfg: KeyLockProtocol.Config, keys: set<string>)
    requires cfg.sortRank == cfg.collationRank && forall k :: cfg.sortRank(k) == |k|
    requires forall k, l | k in keys && l in keys && |k| == |l| :: k == l
    ensures KeyLockDeadlock.Orders(cfg.sortRank, keys) && KeyLockDeadlock.Orders(cfg.collationRank, keys)
  {
  }

  lemma LengthsDiffer()
    ensures forall k, l | k in {"a", "bb", "ccc"} && l in {"a", "bb", "ccc"} && |k| == |l| :: k == l
  {
  }

  lemma NeighboursAreContiguous(keys: set<string>)
    requires forall k | k in keys :: 1 <= |k| <= 3
    ensures KeyLockDeadlock.Contiguous(ByLength(2, 3), keys)
  {
  }

  /** Lock ids of 32 bits, two keys that share one, and no deadlock: the two are neighbours. */
  lemma NeighboursMayCollide()
    ensures var cfg, keys := ByLength(2, 3), {"a", "bb", "ccc"};
      && (forall k :: 0 <= cfg.lockId(k) < 0x1_0000_0000) && cfg.lockId("bb") == cfg.lockId("ccc")
      && KeyLockDeadlock.DeadlockFree(cfg, keys)
  {
    var cfg, keys := ByLength(2, 3), {"a", "bb", "ccc"};
    assert cfg.sortRank == cfg.collationRank;
    LengthsDiffer();
    LengthsOrder(cfg, keys);
    NeighboursAreContiguous(keys);
    KeyLockDeadlock.DeadlockFreeIffContiguous(cfg, keys);
  }

  /** And three keys, the outer two of which share one, that can deadlock. */
  lemma OthersMayNot()
    ensures var cfg, keys := ByLength(1, 3), {"a", "bb", "ccc"};
      (forall k :: 0 <= cfg.lockId(k) < 0x1_0000_0000) && !KeyLockDeadlock.DeadlockFree(cfg, keys)
  {
    var cfg, keys := ByLength(1, 3), {"a", "bb", "ccc"};
    assert cfg.sortRank == cfg.collationRank;
    LengthsDiffer();
    LengthsOrder(cfg, keys);
    KeyLockDeadlock.CollisionBreaksFreedom(cfg, keys, "a", "bb", "ccc");
  }
}
