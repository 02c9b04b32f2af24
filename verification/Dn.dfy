/**
 * Distinguished names: escaping a value into a DN component, building the DN of an org unit, and reading
 * a DN back by the string grammar of RFC 4514 section 3.
 */
module Dn {
  import opened Common

  const NUL: char := '\0'

  predicate IsSpecial(c: char) {
    c == '"' || c == '+' || c == ',' || c == ';' || c == '<' || c == '>' || c == '\\'
  }

  /** A space at either end or a sharp in front. */
  predicate NeedsPosition(value: string, i: nat)
    requires i < |value|
  {
    (value[i] == ' ' && (i == 0 || i == |value| - 1)) || (value[i] == '#' && i == 0)
  }

  function EscapedAt(value: string, i: nat): string
    requires i < |value|
  {
    if value[i] == NUL then "\\00"
    else if IsSpecial(value[i]) || NeedsPosition(value, i) then ['\\', value[i]]
    else [value[i]]
  }

  /** The escaped form of the value from position `i` on. */
  function EscapedFrom(value: string, i: nat): string
    requires i <= |value|
    decreases |value| - i
  {
    if i == |value| then "" else EscapedAt(value, i) + EscapedFrom(value, i + 1)
  }

  function Escaped(value: string): string {
    EscapedFrom(value, 0)
  }

  method EscapeDnValue(value: string) returns (result: string)
    ensures result == Escaped(value)
  {
    result := "";
    for i := 0 to |value|
      invariant result + EscapedFrom(value, i) == Escaped(value)
    {
      var ch := value[i];
      assert result + (EscapedAt(value, i) + EscapedFrom(value, i + 1)) == (result + EscapedAt(value, i)) + EscapedFrom(value, i + 1);
      if ch == NUL {
        result := result + "\\00";
        continue;
      }
      if ch == '"' || ch == '+' || ch == ',' || ch == ';' || ch == '<' || ch == '>' || ch == '\\' {
        result := result + ['\\', ch];
        continue;
      }
      if (ch == ' ' && (i == 0 || i == |value| - 1)) || (ch == '#' && i == 0) {
        result := result + ['\\', ch];
        continue;
      }
      result := result + [ch];
    }
  }

  // ---------------------------------------------------------------- RFC 4514 section 3

  predicate IsHex(c: char) {
    '0' <= c <= '9' || 'a' <= c <= 'f' || 'A' <= c <= 'F'
  }

  function HexValue(c: char): (v: nat)
    requires IsHex(c)
    ensures v < 16
  {
    if c <= '9' then (c - '0') as nat else if c <= 'F' then (c - 'A') as nat + 10 else (c - 'a') as nat + 10
  }

  /** The characters a backslash may stand before. */
  predicate IsPairable(c: char) {
    IsSpecial(c) || c == ' ' || c == '#' || c == '='
  }

  /** The end of a component: the end of the text or a comma. */
  predicate AtEnd(s: string) {
    s == "" || s[0] == ','
  }

  /** Reads one attribute value: the value and the text from its end on. A space or a sharp in front and a
      space at the end must be escaped; `first` says that nothing has been read yet. */
  function ReadValue(s: string, first: bool): Option<(string, string)>
    decreases |s|
  {
    if AtEnd(s) then Some(("", s))
    else if s[0] == '\\' then
      if |s| >= 2 && IsPairable(s[1]) then Prepend(s[1], ReadValue(s[2..], false))
      else if |s| >= 3 && IsHex(s[1]) && IsHex(s[2]) then
        Prepend((HexValue(s[1]) * 16 + HexValue(s[2])) as char, ReadValue(s[3..], false))
      else None
    else if s[0] == NUL || IsSpecial(s[0]) then None
    else if first && (s[0] == ' ' || s[0] == '#') then None
    else if s[0] == ' ' && AtEnd(s[1..]) then None
    else Prepend(s[0], ReadValue(s[1..], false))
  }

  function Prepend(c: char, r: Option<(string, string)>): Option<(string, string)> {
    if r.None? then None else Some(([c] + r.value.0, r.value.1))
  }

  lemma ReadsPlain(c: char, more: string, first: bool)
    requires c != NUL && !IsSpecial(c) && !(first && (c == ' ' || c == '#')) && !(c == ' ' && AtEnd(more))
    ensures ReadValue([c] + more, first) == Prepend(c, ReadValue(more, false))
  {
    assert ([c] + more)[1..] == more;
  }

  lemma ReadsPair(c: char, more: string, first: bool)
    requires IsPairable(c)
    ensures ReadValue(['\\', c] + more, first) == Prepend(c, ReadValue(more, false))
  {
    assert (['\\', c] + more)[2..] == more;
  }

  lemma ReadsNul(more: string, first: bool)
    ensures ReadValue("\\00" + more, first) == Prepend(NUL, ReadValue(more, false))
  {
    assert ("\\00" + more)[3..] == more;
  }

  /** An escaped value reads back from any position, whatever component follows it. */
  lemma {:induction false} ReadsEscapedFrom(value: string, i: nat, rest: string)
    requires i <= |value| && AtEnd(rest)
    ensures ReadValue(EscapedFrom(value, i) + rest, i == 0) == Some((value[i..], rest))
    decreases |value| - i
  {
    if i == |value| {
      assert EscapedFrom(value, i) + rest == rest;
    } else {
      ReadsEscapedFrom(value, i + 1, rest);
      var c, more := value[i], EscapedFrom(value, i + 1) + rest;
      assert EscapedFrom(value, i) + rest == EscapedAt(value, i) + more;
      assert [c] + value[i + 1..] == value[i..];
      if c == NUL {
        ReadsNul(more, i == 0);
      } else if IsSpecial(c) || NeedsPosition(value, i) {
        ReadsPair(c, more, i == 0);
      } else {
        if c == ' ' {
          EscapedNotAtEnd(value, i + 1, rest);
        }
        ReadsPlain(c, more, i == 0);
      }
    }
  }

  lemma EscapedNotAtEnd(value: string, i: nat, rest: string)
    requires i < |value|
    ensures !AtEnd(EscapedFrom(value, i) + rest)
  {
    assert EscapedAt(value, i)[0] != ',';
  }

  /** An escaped value reads back as the value, whatever component follows it. */
  lemma EscapedReadsBack(value: string, rest: string)
    requires AtEnd(rest)
    ensures ReadValue(Escaped(value) + rest, true) == Some((value, rest))
  {
    ReadsEscapedFrom(value, 0, rest);
    assert value[0..] == value;
  }

  // ---------------------------------------------------------------- whole names

  datatype Rdn = Rdn(kind: string, value: string)

  /** The attribute type in front of the equals sign, and the text after it. */
  function ReadKind(s: string): Option<(string, string)> {
    if s == "" || s[0] == ',' || s[0] == '\\' then None
    else if s[0] == '=' then Some(("", s[1..]))
    else Prepend(s[0], ReadKind(s[1..]))
  }

  lemma {:induction false} KindShorter(s: string)
    ensures ReadKind(s).Some? ==> |ReadKind(s).value.1| < |s|
  {
    if s != "" {
      KindShorter(s[1..]);
    }
  }

  lemma {:induction false} ValueShorter(s: string, first: bool)
    ensures var r := ReadValue(s, first); r.Some? ==> |r.value.1| <= |s| && AtEnd(r.value.1)
    decreases |s|
  {
    if !AtEnd(s) {
      if |s| >= 2 {
        ValueShorter(s[2..], false);
      }
      if |s| >= 3 {
        ValueShorter(s[3..], false);
      }
      ValueShorter(s[1..], false);
    }
  }

  /** A DN read into its components, leaf first. */
  function ReadDn(s: string): Option<seq<Rdn>>
    decreases |s|
  {
    KindShorter(s);
    var kind := ReadKind(s);
    if kind.None? then None
    else
      ValueShorter(kind.value.1, true);
      var value := ReadValue(kind.value.1, true);
      if value.None? then None
      else if value.value.1 == "" then Some([Rdn(kind.value.0, value.value.0)])
      else
        var rest := ReadDn(value.value.1[1..]);
        if rest.None? then None else Some([Rdn(kind.value.0, value.value.0)] + rest.value)
  }

  /** `KIND=value,` in front of a parent DN. */
  function Under(kind: string, value: string, parent: string): string {
    kind + ("=" + (Escaped(value) + ("," + parent)))
  }

  predicate IsKind(kind: string) {
    '=' !in kind && ',' !in kind && '\\' !in kind
  }

  lemma {:induction false} ReadsKind(kind: string, rest: string)
    requires IsKind(kind)
    ensures ReadKind(kind + ("=" + rest)) == Some((kind, rest))
  {
    var s := kind + ("=" + rest);
    if kind == "" {
      assert s == "=" + rest && s[1..] == rest;
    } else {
      assert s[1..] == kind[1..] + ("=" + rest) && [kind[0]] + kind[1..] == kind;
      ReadsKind(kind[1..], rest);
    }
  }

  lemma UnderReadsBack(kind: string, value: string, parent: string)
    requires IsKind(kind) && ReadDn(parent).Some?
    ensures ReadDn(Under(kind, value, parent)) == Some([Rdn(kind, value)] + ReadDn(parent).value)
  {
    ReadsKind(kind, Escaped(value) + ("," + parent));
    EscapedReadsBack(value, "," + parent);
    assert ("," + parent)[1..] == parent;
  }

  type Path = seq<string>

  /** The DN of the org unit at a path, root first, under the base. */
  function OuDn(kind: string, base: string, path: Path): string {
    if path == [] then base else Under(kind, path[|path| - 1], OuDn(kind, base, path[..|path| - 1]))
  }

  /** The walk of the code: one component in front per label, from the root. */
  method OuDnForPath(base: string, path: Path) returns (dn: string)
    ensures dn == OuDn("OU", base, path)
  {
    dn := base;
    for i := 0 to |path|
      invariant dn == OuDn("OU", base, path[..i])
    {
      assert path[..i + 1][..i] == path[..i];
      var component := EscapeDnValue(path[i]);
      dn := "OU" + ("=" + (component + ("," + dn)));
    }
    assert path[..|path|] == path;
  }

  function UserDn(base: string, path: Path, username: string): string {
    Under("CN", username, OuDn("OU", base, path))
  }

  function Components(kind: string, path: Path): seq<Rdn> {
    if path == [] then [] else [Rdn(kind, path[|path| - 1])] + Components(kind, path[..|path| - 1])
  }

  /** The DN built for a path reads back as exactly that path, leaf first, above the base. */
  lemma {:induction false} OuDnReadsBack(kind: string, base: string, path: Path)
    requires IsKind(kind) && ReadDn(base).Some?
    ensures ReadDn(OuDn(kind, base, path)) == Some(Components(kind, path) + ReadDn(base).value)
  {
    if path != [] {
      OuDnReadsBack(kind, base, path[..|path| - 1]);
      UnderReadsBack(kind, path[|path| - 1], OuDn(kind, base, path[..|path| - 1]));
      var leaf, more, tail := [Rdn(kind, path[|path| - 1])], Components(kind, path[..|path| - 1]), ReadDn(base).value;
      assert leaf + (more + tail) == (leaf + more) + tail;
    } else {
      assert Components(kind, path) + ReadDn(base).value == ReadDn(base).value;
    }
  }

  lemma {:induction false} ComponentsUnique(kind: string, p: Path, q: Path, tail: seq<Rdn>)
    requires Components(kind, p) + tail == Components(kind, q) + tail
    ensures p == q
  {
    ComponentsLength(kind, p);
    ComponentsLength(kind, q);
    var a, b := Components(kind, p), Components(kind, q);
    assert a == (a + tail)[..|p|] && b == (b + tail)[..|q|];
    SameComponents(kind, p, q);
  }

  lemma {:induction false} ComponentsLength(kind: string, p: Path)
    ensures |Components(kind, p)| == |p|
  {
    if p != [] {
      ComponentsLength(kind, p[..|p| - 1]);
    }
  }

  lemma {:induction false} SameComponents(kind: string, p: Path, q: Path)
    requires Components(kind, p) == Components(kind, q)
    ensures p == q
  {
    ComponentsLength(kind, p);
    ComponentsLength(kind, q);
    if p != [] {
      var n := |p| - 1;
      assert Components(kind, p)[1..] == Components(kind, p[..n]) && Components(kind, q)[1..] == Components(kind, q[..n]);
      SameComponents(kind, p[..n], q[..n]);
      assert Components(kind, p)[0] == Components(kind, q)[0];
      assert p == p[..n] + [p[n]] && q == q[..n] + [q[n]];
    }
  }

  /** Different paths, different DNs. */
  lemma OuDnInjective(kind: string, base: string, p: Path, q: Path)
    requires IsKind(kind) && ReadDn(base).Some? && OuDn(kind, base, p) == OuDn(kind, base, q)
    ensures p == q
  {
    OuDnReadsBack(kind, base, p);
    OuDnReadsBack(kind, base, q);
    ComponentsUnique(kind, p, q, ReadDn(base).value);
  }

  // ---------------------------------------------------------------- comparison without case

  predicate IsReserved(c: char) {
    c == NUL || IsPairable(c) || c == '0'
  }

  /** Folding case leaves the characters of the grammar alone and maps nothing onto them. */
  ghost predicate IsCaseFold(fold: char -> char) {
    forall c: char :: if IsReserved(c) then fold(c) == c else !IsReserved(fold(c))
  }

  function Folded(fold: char -> char, s: string): string {
    seq(|s|, i requires 0 <= i < |s| => fold(s[i]))
  }

  predicate DnEquals(fold: char -> char, a: string, b: string) {
    Folded(fold, a) == Folded(fold, b)
  }

  lemma FoldedConcat(fold: char -> char, a: string, b: string)
    ensures Folded(fold, a + b) == Folded(fold, a) + Folded(fold, b)
  {
  }

  lemma {:induction false} FoldedEscapes(fold: char -> char, value: string, i: nat)
    requires IsCaseFold(fold) && i <= |value|
    ensures Folded(fold, EscapedFrom(value, i)) == EscapedFrom(Folded(fold, value), i)
    decreases |value| - i
  {
    if i < |value| {
      FoldedEscapes(fold, value, i + 1);
      FoldedConcat(fold, EscapedAt(value, i), EscapedFrom(value, i + 1));
      FoldedEscapesAt(fold, value, i);
    }
  }

  lemma FoldedEscapesAt(fold: char -> char, value: string, i: nat)
    requires IsCaseFold(fold) && i < |value|
    ensures Folded(fold, EscapedAt(value, i)) == EscapedAt(Folded(fold, value), i)
  {
    var c := value[i];
    assert IsReserved(c) || !IsReserved(fold(c));
    assert fold('\\') == '\\' && fold('0') == '0';
    assert Folded(fold, "\\00") == "\\00";
  }

  function FoldedPath(fold: char -> char, path: Path): Path {
    seq(|path|, i requires 0 <= i < |path| => Folded(fold, path[i]))
  }

  lemma FoldedUnder(fold: char -> char, kind: string, value: string, parent: string)
    requires IsCaseFold(fold)
    ensures Folded(fold, Under(kind, value, parent)) == Under(Folded(fold, kind), Folded(fold, value), Folded(fold, parent))
  {
    FoldedEscapes(fold, value, 0);
    FoldedConcat(fold, kind, "=" + (Escaped(value) + ("," + parent)));
    FoldedConcat(fold, "=", Escaped(value) + ("," + parent));
    FoldedConcat(fold, Escaped(value), "," + parent);
    FoldedConcat(fold, ",", parent);
    assert fold('=') == '=' && fold(',') == ',';
    assert Folded(fold, "=") == "=" && Folded(fold, ",") == ",";
  }

  lemma {:induction false} FoldedOuDn(fold: char -> char, kind: string, base: string, path: Path)
    requires IsCaseFold(fold)
    ensures Folded(fold, OuDn(kind, base, path)) == OuDn(Folded(fold, kind), Folded(fold, base), FoldedPath(fold, path))
  {
    if path != [] {
      var n := |path| - 1;
      FoldedOuDn(fold, kind, base, path[..n]);
      FoldedUnder(fold, kind, path[n], OuDn(kind, base, path[..n]));
      assert FoldedPath(fold, path)[..n] == FoldedPath(fold, path[..n]);
    }
  }

  lemma FoldedKind(fold: char -> char)
    requires IsCaseFold(fold)
    ensures IsKind(Folded(fold, "OU"))
  {
    assert !IsReserved(fold('O')) && !IsReserved(fold('U'));
  }

  /** The comparison that ignores case takes two org-unit DNs for the same exactly when the paths differ in
      letter case at most. */
  lemma SameDnIffSamePathButCase(fold: char -> char, base: string, p: Path, q: Path)
    requires IsCaseFold(fold) && ReadDn(Folded(fold, base)).Some?
    ensures DnEquals(fold, OuDn("OU", base, p), OuDn("OU", base, q)) <==> FoldedPath(fold, p) == FoldedPath(fold, q)
  {
    FoldedOuDn(fold, "OU", base, p);
    FoldedOuDn(fold, "OU", base, q);
    FoldedKind(fold);
    if DnEquals(fold, OuDn("OU", base, p), OuDn("OU", base, q)) {
      OuDnInjective(Folded(fold, "OU"), Folded(fold, base), FoldedPath(fold, p), FoldedPath(fold, q));
    }
  }
}
